/** What the page-table code assumes of the arch_pte_* functions. Frames are numbered: a frame's
    number is its physical address divided by 4096. */
module PteInterface {
  const PT_TOP_LEVEL: nat := 3
  const PT_ENTRIES: nat := 512
  // Frame numbers both encodings can hold: 52-bit physical addresses.
  const FRAMES: nat := 0x100_0000_0000

  datatype VmFlags = VmFlags(write: bool, user: bool, exec: bool, global: bool)

  // Number of 4 KiB pages under one entry at this level.
  function Span(level: nat): nat {
    if level == 0 then 1 else if level == 1 then 0x200 else if level == 2 then 0x4_0000 else 0x800_0000
  }

  // The arch_pte_* functions of one architecture, over entries of type W.
  datatype Mmu<!W> = Mmu(
    zero: W,
    table: nat -> W,
    leaf: (nat, VmFlags, bool) -> W,
    withPhys: (W, nat) -> W,
    childLeaf: (W, nat, nat) -> W,
    present: W -> bool,
    isLeaf: (W, nat) -> bool,
    phys: W -> nat,
    // What a leaf permits, and what a table entry lets through of what the leaves below it permit.
    flags: W -> VmFlags,
    passes: W -> VmFlags)

  // What is permitted through an entry that lets no more through than this.
  function Narrow(through: VmFlags, fl: VmFlags): VmFlags {
    VmFlags(through.write && fl.write, through.user && fl.user, through.exec && fl.exec, fl.global)
  }

  // A table entry that leaves everything to the leaves.
  predicate Open(through: VmFlags) {
    through.write && through.user && through.exec
  }

  // The frame of the child with index i of a leaf based at frame f.
  function ChildFrame(f: nat, childLevel: nat, i: nat): nat {
    f + i * Span(childLevel)
  }

  // The frames a leaf may map at a level: frames of the machine, aligned to its span.
  predicate LeafFrame(f: nat, level: nat) {
    f < FRAMES && f % Span(level) == 0
  }

  // What the code in vmm.c relies on, constructor by constructor.
  ghost predicate Lawful<W(!new)>(m: Mmu<W>) {
    && !m.present(m.zero)
    && (forall w :: m.isLeaf(w, 0))
    && TableLawful(m) && LeafLawful(m) && WithPhysLawful(m) && ChildLeafLawful(m)
  }

  ghost predicate TableLawful<W>(m: Mmu<W>) {
    forall f: nat :: f < FRAMES ==>
      && m.present(m.table(f)) && m.phys(m.table(f)) == f && Open(m.passes(m.table(f)))
      && forall level: nat :: 0 < level <= PT_TOP_LEVEL ==> !m.isLeaf(m.table(f), level)
  }

  ghost predicate LeafLawful<W>(m: Mmu<W>) {
    forall f: nat, fl, h :: f < FRAMES ==>
      var w := m.leaf(f, fl, h); m.present(w) && m.phys(w) == f && m.flags(w) == fl
  }

  ghost predicate WithPhysLawful<W(!new)>(m: Mmu<W>) {
    forall w, f: nat :: m.present(w) && f < FRAMES ==>
      var v := m.withPhys(w, f); m.present(v) && m.phys(v) == f && m.flags(v) == m.flags(w)
  }

  ghost predicate ChildLeafLawful<W(!new)>(m: Mmu<W>) {
    forall w, f: nat, l: nat :: l < PT_TOP_LEVEL && m.present(w) && m.isLeaf(w, l + 1) && f < FRAMES ==>
      var v := m.childLeaf(w, f, l);
      m.present(v) && m.isLeaf(v, l) && m.phys(v) == f && m.flags(v) == m.flags(w)
  }

  // Splitting stays within the frames that can be mapped.
  lemma ChildLeafFrame(f: nat, level: nat, i: nat)
    requires 0 < level <= PT_TOP_LEVEL && LeafFrame(f, level) && i < PT_ENTRIES
    ensures LeafFrame(ChildFrame(f, level - 1, i), level - 1)
  {
    if level == 2 {
      Middle(f, i);
    } else if level == 3 {
      Top(f, i);
    }
  }

  lemma Middle(f: nat, i: nat)
    requires f % 0x4_0000 == 0 && f < FRAMES && i < PT_ENTRIES
    ensures (f + i * 0x200) % 0x200 == 0 && f + i * 0x200 < FRAMES
  {
    assert f + i * 0x200 == 0x200 * (0x200 * (f / 0x4_0000) + i);
  }

  lemma Top(f: nat, i: nat)
    requires f % 0x800_0000 == 0 && f < FRAMES && i < PT_ENTRIES
    ensures (f + i * 0x4_0000) % 0x4_0000 == 0 && f + i * 0x4_0000 < FRAMES
  {
    assert f + i * 0x4_0000 == 0x4_0000 * (0x200 * (f / 0x800_0000) + i);
  }
}

/** Frame numbers as 64-bit physical addresses and back, by way of their five bytes. */
module PhysicalAddress {
  import opened PteInterface

  const PHYS_MASK: bv64 := 0x000F_FFFF_FFFF_F000

  function Pack(a: bv8, b: bv8, c: bv8, d: bv8, e: bv8): bv64 {
    ((a as bv64) << 12) | ((b as bv64) << 20) | ((c as bv64) << 28) | ((d as bv64) << 36) | ((e as bv64) << 44)
  }

  function Unpack(a: bv8, b: bv8, c: bv8, d: bv8, e: bv8): nat {
    Value(a) + 0x100 * Value(b) + 0x1_0000 * Value(c) + 0x100_0000 * Value(d) + 0x1_0000_0000 * Value(e)
  }

  function Bit(on: bool, bit: bv8): bv8 {
    if on then bit else 0
  }

  function Bits(b0: bool, b1: bool, b2: bool, b3: bool, b4: bool, b5: bool, b6: bool, b7: bool): bv8 {
    Bit(b0, 1) | Bit(b1, 2) | Bit(b2, 4) | Bit(b3, 8) | Bit(b4, 16) | Bit(b5, 32) | Bit(b6, 64) | Bit(b7, 128)
  }

  // The low byte of a number, by halving.
  function Byte(d: nat): bv8 {
    var (d1, d2, d3) := (d / 2, d / 2 / 2, d / 2 / 2 / 2);
    var (d4, d5, d6, d7) := (d3 / 2, d3 / 2 / 2, d3 / 2 / 2 / 2, d3 / 2 / 2 / 2 / 2);
    Bits(Odd(d), Odd(d1), Odd(d2), Odd(d3), Odd(d4), Odd(d5), Odd(d6), Odd(d7))
  }

  predicate Odd(d: nat) { d % 2 == 1 }

  function One(on: bool): nat { if on then 1 else 0 }

  function Value(x: bv8): nat {
    One(x & 1 != 0) + 2 * One(x & 2 != 0) + 4 * One(x & 4 != 0) + 8 * One(x & 8 != 0)
    + 16 * One(x & 16 != 0) + 32 * One(x & 32 != 0) + 64 * One(x & 64 != 0) + 128 * One(x & 128 != 0)
  }

  function Low(a: bv64): bv8 { (a & 0xFF) as bv8 }

  // The physical address of a frame's first byte.
  function AddressOf(f: nat): bv64 {
    Pack(Byte(f), Byte(f / 0x100), Byte(f / 0x1_0000), Byte(f / 0x100_0000), Byte(f / 0x1_0000_0000))
  }

  // All the bits above the page offset, also those no frame of the machine has.
  function FrameOf(a: bv64): nat {
    Unpack(Low(a >> 12), Low(a >> 20), Low(a >> 28), Low(a >> 36), Low(a >> 44))
    + 0x100_0000_0000 * Value(Low(a >> 52)) + 0x1_0000_0000_0000 * Value(Low(a >> 60))
  }

  lemma BitsOf(b0: bool, b1: bool, b2: bool, b3: bool, b4: bool, b5: bool, b6: bool, b7: bool)
    ensures var x := Bits(b0, b1, b2, b3, b4, b5, b6, b7);
            && (x & 1 != 0) == b0 && (x & 2 != 0) == b1 && (x & 4 != 0) == b2 && (x & 8 != 0) == b3
            && (x & 16 != 0) == b4 && (x & 32 != 0) == b5 && (x & 64 != 0) == b6 && (x & 128 != 0) == b7
  {
  }

  lemma ValueOfBits(b0: bool, b1: bool, b2: bool, b3: bool, b4: bool, b5: bool, b6: bool, b7: bool)
    ensures Value(Bits(b0, b1, b2, b3, b4, b5, b6, b7))
         == One(b0) + 2 * One(b1) + 4 * One(b2) + 8 * One(b3) + 16 * One(b4) + 32 * One(b5) + 64 * One(b6) + 128 * One(b7)
  {
    hide Bits;
    BitsOf(b0, b1, b2, b3, b4, b5, b6, b7);
  }

  lemma ValueBound(x: bv8)
    ensures Value(x) < 256
  {
  }

  lemma Half(d: nat)
    ensures d == 2 * (d / 2) + One(Odd(d))
  {
  }

  lemma Halves(d: nat, d1: nat, d2: nat, d3: nat, d4: nat, d5: nat, d6: nat, d7: nat)
    requires d1 == d / 2 && d2 == d1 / 2 && d3 == d2 / 2 && d4 == d3 / 2 && d5 == d4 / 2 && d6 == d5 / 2 && d7 == d6 / 2
    ensures Byte(d) == Bits(Odd(d), Odd(d1), Odd(d2), Odd(d3), Odd(d4), Odd(d5), Odd(d6), Odd(d7))
  {
    hide Odd, Bits;
  }

  lemma ByteRoundTrip(d: nat)
    ensures Value(Byte(d)) == d % 256
  {
    hide Odd, Bits, Value, One, Byte;
    var d1 := d / 2;
    var d2 := d1 / 2;
    var d3 := d2 / 2;
    var d4 := d3 / 2;
    var d5 := d4 / 2;
    var d6 := d5 / 2;
    var d7 := d6 / 2;
    Halves(d, d1, d2, d3, d4, d5, d6, d7);
    ValueOfBits(Odd(d), Odd(d1), Odd(d2), Odd(d3), Odd(d4), Odd(d5), Odd(d6), Odd(d7));
    Half(d);
    Half(d1);
    Half(d2);
    Half(d3);
    Half(d4);
    Half(d5);
    Half(d6);
    Half(d7);
    ValueBound(Byte(d));
    Horner(d, d1, d2, d3, d4, d5, d6, d7, d7 / 2, One(Odd(d)), One(Odd(d1)), One(Odd(d2)), One(Odd(d3)),
           One(Odd(d4)), One(Odd(d5)), One(Odd(d6)), One(Odd(d7)), Value(Byte(d)));
  }

  lemma Horner(d: nat, d1: nat, d2: nat, d3: nat, d4: nat, d5: nat, d6: nat, d7: nat, d8: nat,
               o0: nat, o1: nat, o2: nat, o3: nat, o4: nat, o5: nat, o6: nat, o7: nat, v: nat)
    requires d == 2 * d1 + o0 && d1 == 2 * d2 + o1 && d2 == 2 * d3 + o2 && d3 == 2 * d4 + o3
    requires d4 == 2 * d5 + o4 && d5 == 2 * d6 + o5 && d6 == 2 * d7 + o6 && d7 == 2 * d8 + o7
    requires v == o0 + 2 * o1 + 4 * o2 + 8 * o3 + 16 * o4 + 32 * o5 + 64 * o6 + 128 * o7 && v < 256
    ensures v == d % 256
  {
    assert d == 256 * d8 + v;
  }

  lemma Slices(a: bv8, b: bv8, c: bv8, d: bv8, e: bv8)
    ensures var x := Pack(a, b, c, d, e);
            && x & !PHYS_MASK == 0 && Low(x >> 52) == 0 && Low(x >> 60) == 0
            && Low(x >> 12) == a && Low(x >> 20) == b && Low(x >> 28) == c && Low(x >> 36) == d && Low(x >> 44) == e
  {
  }

  lemma Digits(f: nat)
    requires f < FRAMES
    ensures f == f % 256 + 0x100 * (f / 0x100 % 256) + 0x1_0000 * (f / 0x1_0000 % 256)
                 + 0x100_0000 * (f / 0x100_0000 % 256) + 0x1_0000_0000 * (f / 0x1_0000_0000 % 256)
  {
    var b := f / 0x100;
    var c := b / 0x100;
    var d := c / 0x100;
    assert c == f / 0x1_0000 && d == f / 0x100_0000 && d / 0x100 == f / 0x1_0000_0000;
  }

  lemma RoundTrip(f: nat)
    requires f < FRAMES
    ensures AddressOf(f) & !PHYS_MASK == 0
    ensures FrameOf(AddressOf(f)) == f
  {
    var b, c, d, e := f / 0x100, f / 0x1_0000, f / 0x100_0000, f / 0x1_0000_0000;
    hide Byte, Unpack, Pack;
    Slices(Byte(f), Byte(b), Byte(c), Byte(d), Byte(e));
    assert Value(0) == 0;
    UnpackBytes(f, b, c, d, e);
    Digits(f);
  }

  // The bytes of the frame number lie above the twelve bits of the page offset, the low byte lowest.
  lemma AddressBytes(f: nat)
    requires f < FRAMES
    ensures var a := AddressOf(f);
            && a & 0xFFF0_0000_0000_0FFF == 0
            && Value(Low(a >> 12)) == f % 256 && Value(Low(a >> 20)) == f / 0x100 % 256 && Value(Low(a >> 28)) == f / 0x1_0000 % 256
            && Value(Low(a >> 36)) == f / 0x100_0000 % 256 && Value(Low(a >> 44)) == f / 0x1_0000_0000 % 256
  {
    var b, c, d, e := f / 0x100, f / 0x1_0000, f / 0x100_0000, f / 0x1_0000_0000;
    hide Byte, Pack, Value;
    Slices(Byte(f), Byte(b), Byte(c), Byte(d), Byte(e));
    ByteRoundTrip(f);
    ByteRoundTrip(b);
    ByteRoundTrip(c);
    ByteRoundTrip(d);
    ByteRoundTrip(e);
  }

  lemma UnpackBytes(a: nat, b: nat, c: nat, d: nat, e: nat)
    ensures Unpack(Byte(a), Byte(b), Byte(c), Byte(d), Byte(e))
         == a % 256 + 0x100 * (b % 256) + 0x1_0000 * (c % 256) + 0x100_0000 * (d % 256) + 0x1_0000_0000 * (e % 256)
  {
    hide Byte, Value;
    ByteRoundTrip(a);
    ByteRoundTrip(b);
    ByteRoundTrip(c);
    ByteRoundTrip(d);
    ByteRoundTrip(e);
  }
}

/** src/arch/x86_64/mm/paging.c: 4-level paging, section 4.5 of the Intel SDM, volume 3A. */
module PteX86 {
  import opened PteInterface
  import opened PhysicalAddress

  const PRESENT: bv64 := 1
  const RW: bv64 := 2
  const USER: bv64 := 4
  const HUGE: bv64 := 0x80
  const GLOBAL: bv64 := 0x100
  const NX: bv64 := 0x8000_0000_0000_0000

  function Table(child: bv64): bv64 {
    (child & PHYS_MASK) | PRESENT | RW | USER
  }

  function Bit(on: bool, bit: bv64): bv64 {
    if on then bit else 0
  }

  function Leaf(phys: bv64, flags: VmFlags, huge: bool): bv64 {
    (phys & PHYS_MASK) | LeafBits(flags, huge)
  }

  function LeafBits(flags: VmFlags, huge: bool): bv64 {
    PRESENT | Bit(flags.write, RW) | Bit(flags.user, USER) | Bit(!flags.exec, NX) | Bit(flags.global, GLOBAL) | Bit(huge, HUGE)
  }

  function ChildLeaf(parent: bv64, child: bv64, childLevel: nat): bv64 {
    var pte := ChildOf(parent, child);
    if childLevel > 0 then pte | HUGE else pte & !HUGE
  }

  function WithPhys(existing: bv64, phys: bv64): bv64 {
    (existing & !PHYS_MASK) | (phys & PHYS_MASK)
  }

  predicate Present(pte: bv64) { pte & PRESENT != 0 }

  predicate IsLeaf(pte: bv64, level: nat) { level == 0 || pte & HUGE != 0 }

  function Phys(pte: bv64): bv64 { pte & PHYS_MASK }

  function Flags(pte: bv64): VmFlags {
    VmFlags(pte & RW != 0, pte & USER != 0, pte & NX == 0, pte & GLOBAL != 0)
  }

  // Every entry on the way to a page has a say.
  function Passes(pte: bv64): VmFlags {
    VmFlags(pte & RW != 0, pte & USER != 0, pte & NX == 0, true)
  }

  const Ops: Mmu<bv64> := Mmu(
    0,
    f => Table(AddressOf(f)),
    (f, flags, huge) => Leaf(AddressOf(f), flags, huge),
    (pte, f) => WithPhys(pte, AddressOf(f)),
    (pte, f, level) => ChildLeaf(pte, AddressOf(f), level),
    pte => Present(pte),
    (pte, level) => IsLeaf(pte, level),
    pte => FrameOf(Phys(pte)),
    pte => Flags(pte),
    pte => Passes(pte))

  lemma TableLaws(a: bv64, level: nat)
    requires a & !PHYS_MASK == 0
    ensures var w := Table(a);
            Present(w) && Phys(w) == a && Open(Passes(w)) && (level > 0 ==> !IsLeaf(w, level))
  {
  }

  lemma LeafPhys(a: bv64, fl: VmFlags, huge: bool)
    requires a & !PHYS_MASK == 0
    ensures Present(Leaf(a, fl, huge)) && Phys(Leaf(a, fl, huge)) == a
  {
    assert LeafBits(fl, huge) & PHYS_MASK == 0;
    Joined(a, LeafBits(fl, huge));
  }

  lemma Joined(a: bv64, bits: bv64)
    requires a & !PHYS_MASK == 0 && bits & PHYS_MASK == 0
    ensures Phys((a & PHYS_MASK) | bits) == a
  {
  }

  lemma LeafFlags(a: bv64, fl: VmFlags, huge: bool)
    requires a & !PHYS_MASK == 0
    ensures Flags(Leaf(a, fl, huge)) == fl
  {
  }

  lemma WithPhysLaws(w: bv64, a: bv64)
    requires Present(w) && a & !PHYS_MASK == 0
    ensures var v := WithPhys(w, a);
            Present(v) && Phys(v) == a && Flags(v) == Flags(w)
  {
  }

  // The bits a child keeps from its parent carry the parent's permissions.
  lemma ChildLeafLaws(w: bv64, a: bv64, level: nat)
    requires Present(w) && IsLeaf(w, level + 1) && a & !PHYS_MASK == 0
    ensures var v := ChildLeaf(w, a, level);
            Present(v) && IsLeaf(v, level) && Phys(v) == a && Flags(v) == Flags(w)
  {
    hide Phys, Flags, Present, ChildOf, ChildLeaf, IsLeaf;
    if level > 0 {
      LargeChildLaws(w, a, level);
    } else {
      SmallChildLaws(w, a);
    }
  }

  lemma LargeChildLaws(w: bv64, a: bv64, level: nat)
    requires Present(w) && a & !PHYS_MASK == 0 && level > 0
    ensures var v := ChildLeaf(w, a, level);
            Present(v) && IsLeaf(v, level) && Phys(v) == a && Flags(v) == Flags(w)
  {
    hide Phys, Flags, Present, ChildOf;
    ChildBase(w, a);
    LargeChild(ChildOf(w, a));
  }

  lemma SmallChildLaws(w: bv64, a: bv64)
    requires Present(w) && a & !PHYS_MASK == 0
    ensures var v := ChildLeaf(w, a, 0);
            Present(v) && IsLeaf(v, 0) && Phys(v) == a && Flags(v) == Flags(w)
  {
    hide Phys, Flags, Present, ChildOf;
    ChildBase(w, a);
    SmallChild(ChildOf(w, a));
  }

  // A child's entry before its size bit is set for the level.
  function ChildOf(parent: bv64, child: bv64): bv64 {
    (child & PHYS_MASK) | (parent & (0xFFF | NX))
  }

  lemma ChildBase(w: bv64, a: bv64)
    requires a & !PHYS_MASK == 0
    ensures var pte := ChildOf(w, a);
            Phys(pte) == a && Present(pte) == Present(w) && Flags(pte) == Flags(w)
  {
    hide Flags, Present;
    ChildPhys(w, a);
    ChildPermissions(w, a);
    SamePermissions(ChildOf(w, a), w);
  }

  lemma LargeChild(pte: bv64)
    ensures IsLeaf(pte | HUGE, 1)
    ensures Phys(pte | HUGE) == Phys(pte) && Present(pte | HUGE) == Present(pte) && Flags(pte | HUGE) == Flags(pte)
  {
    hide Flags, Present;
    SizeBitOn(pte);
    SamePermissions(pte | HUGE, pte);
  }

  lemma SmallChild(pte: bv64)
    ensures Phys(pte & !HUGE) == Phys(pte) && Present(pte & !HUGE) == Present(pte) && Flags(pte & !HUGE) == Flags(pte)
  {
    hide Flags, Present;
    SizeBitOff(pte);
    SamePermissions(pte & !HUGE, pte);
  }

  lemma ChildPhys(w: bv64, a: bv64)
    requires a & !PHYS_MASK == 0
    ensures ((a & PHYS_MASK) | (w & (0xFFF | NX))) & PHYS_MASK == a
  {
  }

  lemma ChildPermissions(w: bv64, a: bv64)
    ensures ((a & PHYS_MASK) | (w & (0xFFF | NX))) & PERMISSIONS == w & PERMISSIONS
  {
  }

  lemma SizeBitOn(pte: bv64)
    ensures (pte | HUGE) & HUGE != 0
    ensures (pte | HUGE) & PHYS_MASK == pte & PHYS_MASK && (pte | HUGE) & PERMISSIONS == pte & PERMISSIONS
  {
  }

  lemma SizeBitOff(pte: bv64)
    ensures (pte & !HUGE) & PHYS_MASK == pte & PHYS_MASK && (pte & !HUGE) & PERMISSIONS == pte & PERMISSIONS
  {
  }

  // Entries that agree on these bits permit the same things.
  const PERMISSIONS: bv64 := 0x8000_0000_0000_0107

  lemma SameBit(v: bv64, w: bv64, bit: bv64)
    requires v & PERMISSIONS == w & PERMISSIONS && bit & PERMISSIONS == bit
    ensures v & bit == w & bit
  {
  }

  lemma SamePermissions(v: bv64, w: bv64)
    requires v & PERMISSIONS == w & PERMISSIONS
    ensures Present(v) == Present(w) && Flags(v) == Flags(w)
  {
    SameBit(v, w, PRESENT);
    SameBit(v, w, RW);
    SameBit(v, w, USER);
    SameBit(v, w, NX);
    SameBit(v, w, GLOBAL);
  }

  lemma TablesAreLawful()
    ensures TableLawful(Ops)
  {
    hide Table, Present, Phys, IsLeaf, AddressOf, FrameOf, Passes;
    forall f: nat, level: nat | f < FRAMES && 0 < level <= PT_TOP_LEVEL
      ensures !Ops.isLeaf(Ops.table(f), level)
    {
      RoundTrip(f);
      TableLaws(AddressOf(f), level);
    }
    forall f: nat | f < FRAMES
      ensures Ops.present(Ops.table(f)) && Ops.phys(Ops.table(f)) == f && Open(Ops.passes(Ops.table(f)))
    {
      RoundTrip(f);
      TableLaws(AddressOf(f), 1);
    }
  }

  lemma LeavesAreLawful()
    ensures LeafLawful(Ops)
  {
    hide Leaf, Present, Phys, Flags, AddressOf, FrameOf;
    forall f: nat, fl, h | f < FRAMES
      ensures var w := Ops.leaf(f, fl, h); Ops.present(w) && Ops.phys(w) == f && Ops.flags(w) == fl
    {
      RoundTrip(f);
      LeafPhys(AddressOf(f), fl, h);
      LeafFlags(AddressOf(f), fl, h);
    }
  }

  lemma MovedEntriesAreLawful()
    ensures WithPhysLawful(Ops)
  {
    hide WithPhys, Present, Phys, Flags, AddressOf, FrameOf;
    forall w, f: nat | Ops.present(w) && f < FRAMES
      ensures var v := Ops.withPhys(w, f); Ops.present(v) && Ops.phys(v) == f && Ops.flags(v) == Ops.flags(w)
    {
      RoundTrip(f);
      WithPhysLaws(w, AddressOf(f));
    }
  }

  lemma ChildrenAreLawful()
    ensures ChildLeafLawful(Ops)
  {
    hide ChildLeaf, Present, Phys, Flags, IsLeaf, AddressOf, FrameOf;
    forall w, f: nat, l: nat | l < PT_TOP_LEVEL && Ops.present(w) && Ops.isLeaf(w, l + 1) && f < FRAMES
      ensures var v := Ops.childLeaf(w, f, l);
              Ops.present(v) && Ops.isLeaf(v, l) && Ops.phys(v) == f && Ops.flags(v) == Ops.flags(w)
    {
      RoundTrip(f);
      ChildLeafLaws(w, AddressOf(f), l);
    }
  }

  // The entries bit by bit: 0 present, 1 writable, 2 user, 7 large page, 8 global, 12 to 51 the
  // address, 63 not executable. A table's entry has the lowest three.
  lemma EntryBits(w: bv64, level: nat)
    ensures Present(w) == (w & 0x1 != 0) && Phys(w) == w & 0x000F_FFFF_FFFF_F000
    ensures Flags(w) == VmFlags(w & 0x2 != 0, w & 0x4 != 0, w & 0x8000_0000_0000_0000 == 0, w & 0x100 != 0)
    ensures Passes(w) == VmFlags(w & 0x2 != 0, w & 0x4 != 0, w & 0x8000_0000_0000_0000 == 0, true)
    ensures IsLeaf(w, level) == (level == 0 || w & 0x80 != 0)
  {
    hide Present, Phys, Flags, Passes, IsLeaf;
    PresentBit(w);
    FlagBits(w);
    PassBits(w);
    LeafBit(w, level);
  }

  lemma PresentBit(w: bv64)
    ensures Present(w) == (w & 0x1 != 0) && Phys(w) == w & 0x000F_FFFF_FFFF_F000
  {
  }

  lemma FlagBits(w: bv64)
    ensures Flags(w) == VmFlags(w & 0x2 != 0, w & 0x4 != 0, w & 0x8000_0000_0000_0000 == 0, w & 0x100 != 0)
  {
    assert RW == 2 && USER == 4 && NX == 0x8000_0000_0000_0000 && GLOBAL == 0x100;
  }

  lemma PassBits(w: bv64)
    ensures Passes(w) == VmFlags(w & 0x2 != 0, w & 0x4 != 0, w & 0x8000_0000_0000_0000 == 0, true)
  {
    assert RW == 2 && USER == 4 && NX == 0x8000_0000_0000_0000;
  }

  lemma LeafBit(w: bv64, level: nat)
    ensures IsLeaf(w, level) == (level == 0 || w & 0x80 != 0)
  {
    assert HUGE == 0x80;
  }

  lemma TableBits(a: bv64)
    requires a & 0xFFF0_0000_0000_0FFF == 0
    ensures Table(a) == a | 0x7
  {
  }

  lemma MovedBits(w: bv64, a: bv64)
    requires a & 0xFFF0_0000_0000_0FFF == 0
    ensures WithPhys(w, a) & 0xFFF0_0000_0000_0FFF == w & 0xFFF0_0000_0000_0FFF
    ensures WithPhys(w, a) & 0x000F_FFFF_FFFF_F000 == a
  {
  }

  lemma LeafBitsAre(a: bv64, fl: VmFlags, huge: bool)
    requires a & 0xFFF0_0000_0000_0FFF == 0
    ensures var w := Leaf(a, fl, huge);
            && w & 0x1 != 0 && (w & 0x2 != 0) == fl.write && (w & 0x4 != 0) == fl.user && (w & 0x80 != 0) == huge
            && (w & 0x100 != 0) == fl.global && (w & 0x8000_0000_0000_0000 != 0) == !fl.exec
            && w & 0x7FF0_0000_0000_0E78 == 0
  {
    hide Bit;
    LeafBitsOnly(fl, huge);
    Apart(a, LeafBits(fl, huge));
  }

  lemma LeafBitsOnly(fl: VmFlags, huge: bool)
    ensures var w := LeafBits(fl, huge);
            && w & 0x1 != 0 && (w & 0x2 != 0) == fl.write && (w & 0x4 != 0) == fl.user && (w & 0x80 != 0) == huge
            && (w & 0x100 != 0) == fl.global && (w & 0x8000_0000_0000_0000 != 0) == !fl.exec
            && w & 0x7FFF_FFFF_FFFF_FE78 == 0
  {
  }

  lemma Apart(a: bv64, bits: bv64)
    requires a & 0xFFF0_0000_0000_0FFF == 0 && bits & 0x7FFF_FFFF_FFFF_FE78 == 0
    ensures var w := (a & PHYS_MASK) | bits;
            && w & 0x1 == bits & 0x1 && w & 0x2 == bits & 0x2 && w & 0x4 == bits & 0x4 && w & 0x80 == bits & 0x80
            && w & 0x100 == bits & 0x100 && w & 0x8000_0000_0000_0000 == bits & 0x8000_0000_0000_0000
            && w & 0x7FF0_0000_0000_0E78 == 0
  {
  }

  // A child has the large-page bit in a higher table only, and the parent's other low bits.
  lemma ChildBits(w: bv64, a: bv64, level: nat)
    requires a & 0xFFF0_0000_0000_0FFF == 0
    ensures (ChildLeaf(w, a, level) & 0x80 != 0) == (level > 0)
    ensures ChildLeaf(w, a, level) & 0x000F_FFFF_FFFF_F000 == a
    ensures ChildLeaf(w, a, level) & 0x8000_0000_0000_0F7F == w & 0x8000_0000_0000_0F7F
  {
    hide ChildOf, ChildLeaf;
    ChildOfBits(w, a);
    if level > 0 {
      LargeIs(w, a, level);
      On(ChildOf(w, a));
    } else {
      SmallIs(w, a);
      Off(ChildOf(w, a));
    }
  }

  lemma LargeIs(w: bv64, a: bv64, level: nat)
    requires level > 0
    ensures ChildLeaf(w, a, level) == ChildOf(w, a) | 0x80
  {
    hide ChildOf;
  }

  lemma SmallIs(w: bv64, a: bv64)
    ensures ChildLeaf(w, a, 0) == ChildOf(w, a) & 0xFFFF_FFFF_FFFF_FF7F
  {
    hide ChildOf;
    assert !HUGE == 0xFFFF_FFFF_FFFF_FF7F;
  }

  lemma ChildOfBits(w: bv64, a: bv64)
    requires a & 0xFFF0_0000_0000_0FFF == 0
    ensures ChildOf(w, a) & 0x000F_FFFF_FFFF_F000 == a
    ensures ChildOf(w, a) & 0x8000_0000_0000_0F7F == w & 0x8000_0000_0000_0F7F
  {
  }

  lemma On(v: bv64)
    ensures (v | 0x80) & 0x80 != 0
    ensures (v | 0x80) & 0x000F_FFFF_FFFF_F000 == v & 0x000F_FFFF_FFFF_F000
    ensures (v | 0x80) & 0x8000_0000_0000_0F7F == v & 0x8000_0000_0000_0F7F
  {
  }

  lemma Off(v: bv64)
    ensures (v & 0xFFFF_FFFF_FFFF_FF7F) & 0x80 == 0
    ensures (v & 0xFFFF_FFFF_FFFF_FF7F) & 0x000F_FFFF_FFFF_F000 == v & 0x000F_FFFF_FFFF_F000
    ensures (v & 0xFFFF_FFFF_FFFF_FF7F) & 0x8000_0000_0000_0F7F == v & 0x8000_0000_0000_0F7F
  {
  }

  lemma Laws()
    ensures Lawful(Ops)
  {
    TablesAreLawful();
    LeavesAreLawful();
    MovedEntriesAreLawful();
    ChildrenAreLawful();
    assert !Present(0);
  }
}

/** src/arch/riscv64/mm/paging.c: Sv48, as the RISC-V Privileged Architecture describes it. */
module PteRiscv {
  import opened PteInterface
  import opened PhysicalAddress

  const V: bv64 := 1
  const R: bv64 := 2
  const W: bv64 := 4
  const X: bv64 := 8
  const U: bv64 := 0x10
  const G: bv64 := 0x20
  const A: bv64 := 0x40
  const D: bv64 := 0x80

  function PhysToPpn(phys: bv64): bv64 { (phys >> 12) << 10 }

  function PpnToPhys(pte: bv64): bv64 { (pte >> 10) << 12 }

  function Table(child: bv64): bv64 {
    PhysToPpn(child) | V
  }

  function Bit(on: bool, bit: bv64): bv64 {
    if on then bit else 0
  }

  // Sv48 has no size bit: a leaf is huge by standing in a higher table.
  function Leaf(phys: bv64, flags: VmFlags, huge: bool): bv64 {
    PhysToPpn(phys) | LeafBits(flags)
  }

  function LeafBits(flags: VmFlags): bv64 {
    V | A | D | R | Bit(flags.write, W) | Bit(flags.exec, X) | Bit(flags.user, U) | Bit(flags.global, G)
  }

  function ChildLeaf(parent: bv64, child: bv64, childLevel: nat): bv64 {
    PhysToPpn(child) | (parent & 0x3FF)
  }

  function WithPhys(existing: bv64, phys: bv64): bv64 {
    (existing & 0x3FF) | PhysToPpn(phys)
  }

  predicate Present(pte: bv64) { pte & V != 0 }

  predicate IsLeaf(pte: bv64, level: nat) { level == 0 || pte & (R | W | X) != 0 }

  function Phys(pte: bv64): bv64 { PpnToPhys(pte) }

  function Flags(pte: bv64): VmFlags {
    VmFlags(pte & W != 0, pte & U != 0, pte & X != 0, pte & G != 0)
  }

  // The leaf alone decides.
  function Passes(pte: bv64): VmFlags {
    VmFlags(true, true, true, true)
  }

  const Ops: Mmu<bv64> := Mmu(
    0,
    f => Table(AddressOf(f)),
    (f, flags, huge) => Leaf(AddressOf(f), flags, huge),
    (pte, f) => WithPhys(pte, AddressOf(f)),
    (pte, f, level) => ChildLeaf(pte, AddressOf(f), level),
    pte => Present(pte),
    (pte, level) => IsLeaf(pte, level),
    pte => FrameOf(Phys(pte)),
    pte => Flags(pte),
    pte => Passes(pte))

  lemma TableLaws(a: bv64, level: nat)
    requires a & !PHYS_MASK == 0
    ensures var w := Table(a);
            Present(w) && Phys(w) == a && Open(Passes(w)) && (level > 0 ==> !IsLeaf(w, level))
  {
  }

  lemma LeafPhys(a: bv64, fl: VmFlags, huge: bool)
    requires a & !PHYS_MASK == 0
    ensures Present(Leaf(a, fl, huge)) && Phys(Leaf(a, fl, huge)) == a
  {
    assert LeafBits(fl) & !0x3FF == 0;
    Joined(a, LeafBits(fl));
  }

  lemma Joined(a: bv64, bits: bv64)
    requires a & !PHYS_MASK == 0 && bits & !0x3FF == 0
    ensures Phys(PhysToPpn(a) | bits) == a
  {
  }

  lemma LeafFlags(a: bv64, fl: VmFlags, huge: bool)
    requires a & !PHYS_MASK == 0
    ensures Flags(Leaf(a, fl, huge)) == fl
  {
  }

  lemma WithPhysLaws(w: bv64, a: bv64)
    requires Present(w) && a & !PHYS_MASK == 0
    ensures var v := WithPhys(w, a);
            Present(v) && Phys(v) == a && Flags(v) == Flags(w)
  {
  }

  // The bits a child keeps from its parent carry the parent's permissions.
  lemma ChildLeafLaws(w: bv64, a: bv64, level: nat)
    requires Present(w) && IsLeaf(w, level + 1) && a & !PHYS_MASK == 0
    ensures var v := ChildLeaf(w, a, level);
            Present(v) && IsLeaf(v, level) && Phys(v) == a && Flags(v) == Flags(w)
  {
    Joined(a, w & 0x3FF);
    ChildPermissions(w, a);
    SamePermissions(ChildLeaf(w, a, level), w);
  }

  lemma ChildPermissions(w: bv64, a: bv64)
    ensures (PhysToPpn(a) | (w & 0x3FF)) & PERMISSIONS == w & PERMISSIONS
  {
  }

  // Entries that agree on these bits permit the same things.
  const PERMISSIONS: bv64 := 0x3F

  lemma SameBit(v: bv64, w: bv64, bit: bv64)
    requires v & PERMISSIONS == w & PERMISSIONS && bit & PERMISSIONS == bit
    ensures v & bit == w & bit
  {
  }

  lemma SamePermissions(v: bv64, w: bv64)
    requires v & PERMISSIONS == w & PERMISSIONS
    ensures Present(v) == Present(w) && Flags(v) == Flags(w)
    ensures v & (R | W | X) == w & (R | W | X)
  {
    SameBit(v, w, V);
    SameBit(v, w, R | W | X);
    SameBit(v, w, W);
    SameBit(v, w, X);
    SameBit(v, w, U);
    SameBit(v, w, G);
  }

  lemma TablesAreLawful()
    ensures TableLawful(Ops)
  {
    hide Table, Present, Phys, IsLeaf, AddressOf, FrameOf, Passes;
    forall f: nat, level: nat | f < FRAMES && 0 < level <= PT_TOP_LEVEL
      ensures !Ops.isLeaf(Ops.table(f), level)
    {
      RoundTrip(f);
      TableLaws(AddressOf(f), level);
    }
    forall f: nat | f < FRAMES
      ensures Ops.present(Ops.table(f)) && Ops.phys(Ops.table(f)) == f && Open(Ops.passes(Ops.table(f)))
    {
      RoundTrip(f);
      TableLaws(AddressOf(f), 1);
    }
  }

  lemma LeavesAreLawful()
    ensures LeafLawful(Ops)
  {
    hide Leaf, Present, Phys, Flags, AddressOf, FrameOf;
    forall f: nat, fl, h | f < FRAMES
      ensures var w := Ops.leaf(f, fl, h); Ops.present(w) && Ops.phys(w) == f && Ops.flags(w) == fl
    {
      RoundTrip(f);
      LeafPhys(AddressOf(f), fl, h);
      LeafFlags(AddressOf(f), fl, h);
    }
  }

  lemma MovedEntriesAreLawful()
    ensures WithPhysLawful(Ops)
  {
    hide WithPhys, Present, Phys, Flags, AddressOf, FrameOf;
    forall w, f: nat | Ops.present(w) && f < FRAMES
      ensures var v := Ops.withPhys(w, f); Ops.present(v) && Ops.phys(v) == f && Ops.flags(v) == Ops.flags(w)
    {
      RoundTrip(f);
      WithPhysLaws(w, AddressOf(f));
    }
  }

  lemma ChildrenAreLawful()
    ensures ChildLeafLawful(Ops)
  {
    hide ChildLeaf, Present, Phys, Flags, IsLeaf, AddressOf, FrameOf;
    forall w, f: nat, l: nat | l < PT_TOP_LEVEL && Ops.present(w) && Ops.isLeaf(w, l + 1) && f < FRAMES
      ensures var v := Ops.childLeaf(w, f, l);
              Ops.present(v) && Ops.isLeaf(v, l) && Ops.phys(v) == f && Ops.flags(v) == Ops.flags(w)
    {
      RoundTrip(f);
      ChildLeafLaws(w, AddressOf(f), l);
    }
  }

  // The entries bit by bit: 0 valid, 1 readable, 2 writable, 3 executable, 4 user, 5 global, 6 and 7
  // accessed and dirty, 10 up the frame. A table's entry has the lowest only.
  lemma EntryBits(w: bv64, level: nat)
    ensures Present(w) == (w & 0x1 != 0) && Phys(w) == (w >> 10) << 12
    ensures Flags(w) == VmFlags(w & 0x4 != 0, w & 0x10 != 0, w & 0x8 != 0, w & 0x20 != 0)
    ensures IsLeaf(w, level) == (level == 0 || w & 0xE != 0)
  {
  }

  lemma TableBits(a: bv64)
    requires a & 0xFFF0_0000_0000_0FFF == 0
    ensures Table(a) & 0x3FF == 0x1 && Table(a) >> 10 == a >> 12
  {
  }

  // A moved entry and a child keep the low bits.
  lemma MovedBits(w: bv64, a: bv64)
    requires a & 0xFFF0_0000_0000_0FFF == 0
    ensures WithPhys(w, a) & 0x3FF == w & 0x3FF && WithPhys(w, a) >> 10 == a >> 12
  {
  }

  lemma ChildBits(w: bv64, a: bv64, level: nat)
    requires a & 0xFFF0_0000_0000_0FFF == 0
    ensures ChildLeaf(w, a, level) & 0x3FF == w & 0x3FF && ChildLeaf(w, a, level) >> 10 == a >> 12
  {
  }

  lemma LeafBitsAre(a: bv64, fl: VmFlags, huge: bool)
    requires a & 0xFFF0_0000_0000_0FFF == 0
    ensures var w := Leaf(a, fl, huge);
            && w & 0x3C3 == 0xC3 && (w & 0x4 != 0) == fl.write && (w & 0x8 != 0) == fl.exec
            && (w & 0x10 != 0) == fl.user && (w & 0x20 != 0) == fl.global && w >> 10 == a >> 12
  {
    assert Leaf(a, fl, huge) == PhysToPpn(a) | LeafBits(fl);
    hide Leaf, LeafBits, PhysToPpn;
    LeafBitsOnly(fl);
    Apart(a, LeafBits(fl));
  }

  lemma LeafBitsOnly(fl: VmFlags)
    ensures var w := LeafBits(fl);
            && w & 0x3C3 == 0xC3 && (w & 0x4 != 0) == fl.write && (w & 0x8 != 0) == fl.exec
            && (w & 0x10 != 0) == fl.user && (w & 0x20 != 0) == fl.global && w & !0x3FF == 0
  {
  }

  lemma Apart(a: bv64, bits: bv64)
    requires a & 0xFFF0_0000_0000_0FFF == 0 && bits & !0x3FF == 0
    ensures var w := PhysToPpn(a) | bits; w & 0x3FF == bits && w >> 10 == a >> 12
    ensures var w := PhysToPpn(a) | bits;
            && w & 0x3C3 == bits & 0x3C3 && w & 0x4 == bits & 0x4 && w & 0x8 == bits & 0x8 && w & 0x10 == bits & 0x10
            && w & 0x20 == bits & 0x20
  {
  }

  lemma Laws()
    ensures Lawful(Ops)
  {
    TablesAreLawful();
    LeavesAreLawful();
    MovedEntriesAreLawful();
    ChildrenAreLawful();
    assert !Present(0);
  }
}
