/** The segment loop of elf_load: what the pages of a loaded program hold. Pages are mapped through
    the page tables of Vmm; what their frames hold is kept beside them, byte by byte. */
module ElfImage {
  import opened Sizes
  import opened Wrappers
  import opened PteInterface
  import opened PageTree
  import opened MissingTables
  import opened Vmm
  import opened ElfNeeds
  import HB = HeapBlocks
  import Pmm

  datatype Kind = LOAD | PHDR | DYNAMIC | INTERP | OTHER
  datatype Segment = Segment(kind: Kind, offset: nat, vaddr: nat, filesz: nat, memsz: nat, write: bool, exec: bool)

  datatype Status = Ok | Truncated | NoMemory | MapFailed

  // page_flags_for
  function PageFlags(s: Segment): VmFlags {
    VmFlags(s.write, true, s.exec, false)
  }

  function Union(a: VmFlags, b: VmFlags): VmFlags {
    VmFlags(a.write || b.write, a.user || b.user, a.exec || b.exec, a.global || b.global)
  }

  // The flags of the last PT_LOAD among these headers.
  function PrevFlags(segs: seq<Segment>): VmFlags
    decreases |segs|
  {
    if segs == [] then VmFlags(false, false, false, false)
    else if segs[|segs| - 1].kind == LOAD then PageFlags(segs[|segs| - 1])
    else PrevFlags(segs[..|segs| - 1])
  }

  // The flags these headers leave a page with: the last segment's that has the page, joined, if an
  // earlier one has it too, with those of the PT_LOAD before that last one.
  ghost function FlagsOf(segs: seq<Segment>, bias: nat, p: nat): VmFlags
    decreases |segs|
  {
    if segs == [] then VmFlags(false, false, false, false)
    else
      var s, rest := segs[|segs| - 1], segs[..|segs| - 1];
      if s.kind == LOAD && FirstPage(s, bias) <= p < EndPage(s, bias) then
        if InPages(rest, bias, p) then Union(PageFlags(s), PrevFlags(rest)) else PageFlags(s)
      else FlagsOf(rest, bias, p)
  }

  lemma FlagsMore(segs: seq<Segment>, s: Segment, bias: nat, p: nat)
    ensures FlagsOf(segs + [s], bias, p) ==
              if s.kind == LOAD && FirstPage(s, bias) <= p < EndPage(s, bias) then
                if InPages(segs, bias, p) then Union(PageFlags(s), PrevFlags(segs)) else PageFlags(s)
              else FlagsOf(segs, bias, p)
    ensures PrevFlags(segs + [s]) == if s.kind == LOAD then PageFlags(s) else PrevFlags(segs)
  {
    assert (segs + [s])[..|segs|] == segs && (segs + [s])[|segs|] == s;
  }

  // Where the segment's pages start and end.
  function FirstPage(s: Segment, bias: nat): nat {
    (bias + s.vaddr) / PAGE
  }

  function EndPage(s: Segment, bias: nat): nat {
    (bias + s.vaddr + s.memsz + (PAGE - 1)) / PAGE
  }

  predicate Covers(s: Segment, bias: nat, va: nat) {
    s.kind == LOAD && bias + s.vaddr <= va < bias + s.vaddr + s.filesz
  }

  // Headers hold 64-bit words, and no more of the file than memory is taken for it.
  predicate Sound(s: Segment) {
    && s.offset < WORD && s.filesz < WORD
    && (s.kind == LOAD ==> s.filesz <= s.memsz)
  }

  ghost predicate AllSound(segs: seq<Segment>) {
    forall i :: 0 <= i < |segs| ==> Sound(segs[i])
  }

  // elf.c's comparison of the segment's end with the image's, in 64 bits.
  predicate Accepted(s: Segment, size: nat) {
    s.kind == LOAD ==> (s.offset + s.filesz) % WORD <= size
  }

  // The file part really lies inside the image.
  predicate Inside(s: Segment, size: nat) {
    s.offset + s.filesz <= size
  }

  // The image, and whatever memory lies around it, by distance from its first byte.
  datatype File = File(image: seq<Byte>, around: nat -> Byte) {
    function At(i: nat): Byte {
      var k := i % WORD;
      if k < |image| then image[k] else around(k)
    }
  }

  // Byte b of the segment's file part is read from the image.
  predicate FromImage(s: Segment, b: nat, size: nat) {
    (s.offset + b) % WORD < size
  }

  // An accepted segment is read from the image alone exactly if its end does not wrap around.
  lemma ReadInside(s: Segment, size: nat)
    requires s.kind == LOAD && Sound(s) && Accepted(s, size) && s.filesz > 0 && size < WORD
    ensures Inside(s, size) <==> s.offset + s.filesz < WORD
    ensures (forall b: nat :: b < s.filesz ==> FromImage(s, b, size)) <==> s.offset + s.filesz < WORD
  {
    if s.offset + s.filesz < WORD {
      assert (s.offset + s.filesz) % WORD == s.offset + s.filesz;
    } else {
      var b: nat := WORD - 1 - s.offset;
      assert b < s.filesz && !FromImage(s, b, size);
    }
  }

  // A header that wraps around is accepted although it asks for bytes before the image.
  lemma WrappedSegment(file: File)
    requires 8 <= |file.image| <= WORD - 8
    ensures var s := Segment(LOAD, WORD - 8, PAGE, 16, 16, false, false);
            && Sound(s) && Accepted(s, |file.image|) && !Inside(s, |file.image|)
            && ByteOf(file, [s], 0, PAGE) == file.around(WORD - 8)
            && ByteOf(file, [s], 0, PAGE + 8) == file.image[0]
  {
    assert (WORD - 8 + 8) % WORD == 0;
  }

  // The byte the program headers ask for: the last segment's whose file part covers the address.
  ghost function ByteOf(file: File, segs: seq<Segment>, bias: nat, va: nat): Byte
    decreases |segs|
  {
    if segs == [] then 0
    else
      var s := segs[|segs| - 1];
      if Covers(s, bias, va) then file.At(s.offset + (va - (bias + s.vaddr)))
      else ByteOf(file, segs[..|segs| - 1], bias, va)
  }

  ghost predicate InPages(segs: seq<Segment>, bias: nat, p: nat) {
    exists i :: 0 <= i < |segs| && segs[i].kind == LOAD && FirstPage(segs[i], bias) <= p < EndPage(segs[i], bias)
  }

  // A segment's pages are those that its memory touches; one without memory has the page around its
  // address, unless it starts there.
  lemma PageOf(s: Segment, bias: nat, p: nat)
    ensures FirstPage(s, bias) <= p < EndPage(s, bias) <==> p * 4096 < bias + s.vaddr + s.memsz && bias + s.vaddr < p * 4096 + 4096
  {
  }

  lemma PagesAre(segs: seq<Segment>, bias: nat, p: nat)
    ensures InPages(segs, bias, p) <==>
              exists i :: 0 <= i < |segs| && segs[i].kind == LOAD
                          && p * 4096 < bias + segs[i].vaddr + segs[i].memsz && bias + segs[i].vaddr < p * 4096 + 4096
  {
    hide FirstPage, EndPage;
    forall i | 0 <= i < |segs|
      ensures FirstPage(segs[i], bias) <= p < EndPage(segs[i], bias) <==>
                p * 4096 < bias + segs[i].vaddr + segs[i].memsz && bias + segs[i].vaddr < p * 4096 + 4096
    {
      PageOf(segs[i], bias, p);
    }
  }

  // The flags a page is left with, said without recursion: k is the last segment on the page, and j
  // the PT_LOAD before it, whether or not that is on the page too.
  lemma {:induction false} FlagsAre(segs: seq<Segment>, bias: nat, p: nat, k: nat, j: nat)
    requires j < k < |segs| && segs[k].kind == LOAD && p * 4096 < bias + segs[k].vaddr + segs[k].memsz && bias + segs[k].vaddr < p * 4096 + 4096
    requires forall i :: k < i < |segs| && segs[i].kind == LOAD ==>
               !(p * 4096 < bias + segs[i].vaddr + segs[i].memsz && bias + segs[i].vaddr < p * 4096 + 4096)
    requires segs[j].kind == LOAD && forall i :: j < i < k ==> segs[i].kind != LOAD
    ensures var shared := exists i :: 0 <= i < k && segs[i].kind == LOAD
                                      && p * 4096 < bias + segs[i].vaddr + segs[i].memsz && bias + segs[i].vaddr < p * 4096 + 4096;
            FlagsOf(segs, bias, p)
              == VmFlags(segs[k].write || (shared && segs[j].write), true, segs[k].exec || (shared && segs[j].exec), false)
    decreases |segs|
  {
    hide FirstPage, EndPage, InPages;
    var n := |segs| - 1;
    PageOf(segs[n], bias, p);
    PagesAre(segs[..n], bias, p);
    if k < n {
      FlagsAre(segs[..n], bias, p, k, j);
    } else {
      PrevIs(segs[..n], j);
    }
  }

  lemma {:induction false} PrevIs(segs: seq<Segment>, j: nat)
    requires j < |segs| && segs[j].kind == LOAD && forall i :: j < i < |segs| ==> segs[i].kind != LOAD
    ensures PrevFlags(segs) == PageFlags(segs[j])
    decreases |segs|
  {
    if j < |segs| - 1 {
      PrevIs(segs[..|segs| - 1], j);
    }
  }

  // A page with one segment has that one's flags.
  lemma {:induction false} OwnFlags(segs: seq<Segment>, bias: nat, p: nat, k: nat)
    requires k < |segs| && segs[k].kind == LOAD && p * 4096 < bias + segs[k].vaddr + segs[k].memsz && bias + segs[k].vaddr < p * 4096 + 4096
    requires forall i :: 0 <= i < |segs| && i != k && segs[i].kind == LOAD ==>
               !(p * 4096 < bias + segs[i].vaddr + segs[i].memsz && bias + segs[i].vaddr < p * 4096 + 4096)
    ensures FlagsOf(segs, bias, p) == VmFlags(segs[k].write, true, segs[k].exec, false)
    decreases |segs|
  {
    hide FirstPage, EndPage, InPages;
    var n := |segs| - 1;
    PageOf(segs[n], bias, p);
    PagesAre(segs[..n], bias, p);
    if k < n {
      OwnFlags(segs[..n], bias, p, k);
    }
  }

  // So a page that three segments share, or two with another between them, may lose what one of them
  // asks for: here the first asks to write to page 1, and the page cannot be written.
  lemma WriteLost()
    ensures var a := Segment(LOAD, 0, 0x1000, 16, 16, true, false);
            var b := Segment(LOAD, 0, 0x3000, 16, 16, false, true);
            var c := Segment(LOAD, 0, 0x1800, 16, 16, false, false);
            a.write && !FlagsOf([a, b, c], 0, 1).write && FlagsOf([a, b, c], 0, 1).exec
  {
    var a := Segment(LOAD, 0, 0x1000, 16, 16, true, false);
    var b := Segment(LOAD, 0, 0x3000, 16, 16, false, true);
    var c := Segment(LOAD, 0, 0x1800, 16, 16, false, false);
    assert [a, b, c][0].kind == LOAD && 4096 < 0 + [a, b, c][0].vaddr + [a, b, c][0].memsz;
    FlagsAre([a, b, c], 0, 1, 2, 1);
  }

  // A page permits all that its segments ask exactly if what its last one and the PT_LOAD before that
  // ask covers what the others on it ask.
  lemma AllPermitted(segs: seq<Segment>, bias: nat, p: nat, k: nat, j: nat)
    requires j < k < |segs| && segs[k].kind == LOAD && p * 4096 < bias + segs[k].vaddr + segs[k].memsz && bias + segs[k].vaddr < p * 4096 + 4096
    requires forall i :: k < i < |segs| && segs[i].kind == LOAD ==>
               !(p * 4096 < bias + segs[i].vaddr + segs[i].memsz && bias + segs[i].vaddr < p * 4096 + 4096)
    requires segs[j].kind == LOAD && forall i :: j < i < k ==> segs[i].kind != LOAD
    ensures (forall i :: 0 <= i < |segs| && segs[i].kind == LOAD
                         && p * 4096 < bias + segs[i].vaddr + segs[i].memsz && bias + segs[i].vaddr < p * 4096 + 4096 ==>
               (segs[i].write ==> FlagsOf(segs, bias, p).write) && (segs[i].exec ==> FlagsOf(segs, bias, p).exec))
       <==> (forall i :: 0 <= i < j && segs[i].kind == LOAD
                         && p * 4096 < bias + segs[i].vaddr + segs[i].memsz && bias + segs[i].vaddr < p * 4096 + 4096 ==>
               (segs[i].write ==> segs[k].write || segs[j].write) && (segs[i].exec ==> segs[k].exec || segs[j].exec))
  {
    hide FlagsOf;
    FlagsAre(segs, bias, p, k, j);
  }

  ghost function PagesOf(segs: seq<Segment>, bias: nat): set<nat> {
    set p | 0 <= p < USER_PAGES && InPages(segs, bias, p)
  }

  function StartOf(s: Segment, bias: nat): nat {
    FirstPage(s, bias) * PAGE
  }

  function EndOf(s: Segment, bias: nat): nat {
    EndPage(s, bias) * PAGE
  }

  predicate IsLoad(segs: seq<Segment>, i: nat) {
    i < |segs| && segs[i].kind == LOAD
  }

  // Some segment ends above address 0.
  ghost predicate Reaches(segs: seq<Segment>, bias: nat) {
    exists i: nat :: IsLoad(segs, i) && EndOf(segs[i], bias) > 0
  }

  // The least start of a segment and the greatest end; where there is no segment, what the loop
  // begins with.
  ghost predicate Bounds(segs: seq<Segment>, bias: nat, lowest: nat, highest: nat) {
    && (forall i: nat :: IsLoad(segs, i) ==> lowest <= StartOf(segs[i], bias) && EndOf(segs[i], bias) <= highest)
    && (lowest == WORD - 1 || exists i: nat :: IsLoad(segs, i) && lowest == StartOf(segs[i], bias))
    && (highest == 0 || exists i: nat :: IsLoad(segs, i) && highest == EndOf(segs[i], bias))
  }

  lemma BoundsMore(segs: seq<Segment>, s: Segment, bias: nat, low: nat, high: nat, lowest: nat, highest: nat)
    requires Bounds(segs, bias, low, high)
    requires lowest == if s.kind == LOAD && StartOf(s, bias) < low then StartOf(s, bias) else low
    requires highest == if s.kind == LOAD && EndOf(s, bias) > high then EndOf(s, bias) else high
    ensures Bounds(segs + [s], bias, lowest, highest)
  {
    hide StartOf, EndOf;
    var all := segs + [s];
    assert all[|segs|] == s;
    forall i: nat | IsLoad(segs, i) ensures IsLoad(all, i) && all[i] == segs[i] {
    }
    assert s.kind == LOAD ==> IsLoad(all, |segs|);
  }

  // With a segment both addresses are those of segments, and every page lies between them.
  lemma BoundsMean(segs: seq<Segment>, bias: nat, lowest: nat, highest: nat)
    requires Bounds(segs, bias, lowest, highest)
    requires forall i: nat :: IsLoad(segs, i) ==> EndPage(segs[i], bias) <= USER_PAGES
    ensures highest > 0 <==> Reaches(segs, bias)
    ensures forall i: nat :: IsLoad(segs, i) ==>
              (exists j: nat :: IsLoad(segs, j) && lowest == StartOf(segs[j], bias))
              && (exists j: nat :: IsLoad(segs, j) && highest == EndOf(segs[j], bias))
    ensures forall p: nat :: InPages(segs, bias, p) ==> lowest <= p * PAGE && p * PAGE + PAGE <= highest
  {
    forall i: nat | IsLoad(segs, i)
      ensures lowest < WORD - 1 && (EndOf(segs[i], bias) > 0 ==> highest > 0)
      ensures exists j: nat :: IsLoad(segs, j) && highest == EndOf(segs[j], bias)
    {
      Small(segs[i], bias);
      if highest == 0 {
        assert highest == EndOf(segs[i], bias);
      }
    }
    forall p: nat | InPages(segs, bias, p) ensures lowest <= p * PAGE && p * PAGE + PAGE <= highest {
      var i :| 0 <= i < |segs| && segs[i].kind == LOAD && FirstPage(segs[i], bias) <= p < EndPage(segs[i], bias);
      assert IsLoad(segs, i);
    }
  }

  lemma EndsInside(s: Segment, bias: nat)
    ensures EndPage(s, bias) <= USER_PAGES <==> bias + s.vaddr + s.memsz <= 0x8000_0000_0000
  {
  }

  lemma Ends(s: Segment, bias: nat)
    ensures StartOf(s, bias) % 4096 == 0 && StartOf(s, bias) <= bias + s.vaddr < StartOf(s, bias) + 4096
    ensures EndOf(s, bias) % 4096 == 0 && bias + s.vaddr + s.memsz <= EndOf(s, bias) < bias + s.vaddr + s.memsz + 4096
  {
  }

  lemma Small(s: Segment, bias: nat)
    requires EndPage(s, bias) <= USER_PAGES
    ensures StartOf(s, bias) < WORD - 1
  {
  }

  // The page holds what these headers ask for.
  ghost predicate Holds(page: seq<Byte>, file: File, segs: seq<Segment>, bias: nat, p: nat) {
    |page| == PAGE && forall b :: 0 <= b < PAGE ==> HoldsAt(page, file, segs, bias, p, b)
  }

  ghost predicate HoldsAt(page: seq<Byte>, file: File, segs: seq<Segment>, bias: nat, p: nat, b: nat)
    requires b < |page|
  {
    page[b] == ByteOf(file, segs, bias, p * PAGE + b)
  }

  // Bytes lo..hi of the page taken from the file at src, one by one.
  method CopyBytes(page: seq<Byte>, lo: nat, hi: nat, file: File, src: nat) returns (page': seq<Byte>)
    requires lo <= hi <= |page|
    ensures |page'| == |page|
    ensures forall b :: 0 <= b < |page| ==> page'[b] == if lo <= b < hi then file.At(src + (b - lo)) else page[b]
  {
    page' := page;
    var b := lo;
    while b < hi
      invariant lo <= b <= hi && |page'| == |page|
      invariant forall k :: 0 <= k < |page| ==> page'[k] == if lo <= k < b then file.At(src + (k - lo)) else page[k]
    {
      page' := page'[b := file.At(src + (b - lo))];
      b := b + 1;
    }
  }

  // A page of the segment after its part of the file has been copied in.
  method FillPage(page: seq<Byte>, p: nat, s: Segment, bias: nat, file: File, ghost before: seq<Segment>) returns (page': seq<Byte>)
    requires s.kind == LOAD && |page| == PAGE
    ensures |page'| == PAGE
    ensures Holds(page, file, before, bias, p) ==> Holds(page', file, before + [s], bias, p)
  {
    var pageLo, pageHi := p * PAGE, p * PAGE + PAGE;
    var fileLo, fileHi := bias + s.vaddr, bias + s.vaddr + s.filesz;
    var copyLo := if pageLo > fileLo then pageLo else fileLo;
    var copyHi := if pageHi < fileHi then pageHi else fileHi;
    page' := page;
    if copyHi > copyLo {
      page' := CopyBytes(page, copyLo - pageLo, copyHi - pageLo, file, s.offset + (copyLo - fileLo));
    }
    assert (before + [s])[|before|] == s && (before + [s])[..|before|] == before;
    if Holds(page, file, before, bias, p) {
      forall b | 0 <= b < PAGE ensures HoldsAt(page', file, before + [s], bias, p, b) {
        assert HoldsAt(page, file, before, bias, p, b);
      }
    }
  }

  lemma NotCovered(s: Segment, bias: nat, p: nat, b: nat)
    requires s.filesz <= s.memsz && b < PAGE
    requires !(FirstPage(s, bias) <= p < EndPage(s, bias))
    ensures !(bias + s.vaddr <= p * PAGE + b < bias + s.vaddr + s.filesz)
  {
  }

  // Nothing is asked of a page that no segment has.
  lemma {:induction false} ZeroOutside(file: File, segs: seq<Segment>, bias: nat, p: nat, b: nat)
    requires AllSound(segs) && !InPages(segs, bias, p) && b < PAGE
    ensures ByteOf(file, segs, bias, p * PAGE + b) == 0
    decreases |segs|
  {
    if segs != [] {
      var s := segs[|segs| - 1];
      assert Sound(s);
      if s.kind == LOAD {
        NotCovered(s, bias, p, b);
      }
      ZeroOutside(file, segs[..|segs| - 1], bias, p, b);
    }
  }

  lemma InPagesMore(segs: seq<Segment>, s: Segment, bias: nat, p: nat)
    ensures InPages(segs + [s], bias, p)
       <==> InPages(segs, bias, p) || (s.kind == LOAD && FirstPage(s, bias) <= p < EndPage(s, bias))
  {
    var all := segs + [s];
    assert all[|segs|] == s;
    assert forall i :: 0 <= i < |segs| ==> all[i] == segs[i];
  }

  // The byte is the one asked for without the segment unless its file part covers the address.
  lemma OtherByte(file: File, before: seq<Segment>, s: Segment, bias: nat, p: nat, page: seq<Byte>)
    requires Sound(s) && Holds(page, file, before, bias, p)
    requires s.kind == LOAD ==> !(FirstPage(s, bias) <= p < EndPage(s, bias))
    ensures Holds(page, file, before + [s], bias, p)
  {
    assert (before + [s])[..|before|] == before && (before + [s])[|before|] == s;
    forall b | 0 <= b < PAGE ensures HoldsAt(page, file, before + [s], bias, p, b) {
      assert HoldsAt(page, file, before, bias, p, b);
      if s.kind == LOAD {
        NotCovered(s, bias, p, b);
      }
    }
  }

  // ---- pages, frames and their bytes ----

  ghost function FrameAt<W>(m: Mmu<W>, mem: Memory<W>, root: nat, p: nat): Option<Mapping> {
    Translate(m, mem, root, PT_TOP_LEVEL, p * PAGE)
  }

  // The direct map of physical memory starts at 0 or in the upper half of the address space.
  predicate Canonical(off: nat) {
    off % PAGE == 0 && (off == 0 || 0xFFFF_8000_0000_0000 <= off < WORD)
  }

  // hhdm_virt_to_phys, in 64 bits
  function Physical(off: nat, ptr: nat): nat
    requires off < WORD
  {
    (ptr + WORD - off) % WORD
  }

  // The frame the null pointer stands for: the kernel's pointer to it is 2^64, which is null again.
  function Nowhere(off: nat): nat
    requires off < WORD
  {
    (WORD - off) / PAGE
  }

  // The loader's test of the allocation finds a null pointer only where memory is mapped at 0;
  // everywhere else it goes on with the frame that null stands for.
  lemma NullGoesOn(off: nat)
    requires Canonical(off)
    ensures Physical(off, 0) == 0 <==> off == 0
    ensures off != 0 ==> Physical(off, 0) == PAGE * Nowhere(off) && Nowhere(off) < FRAMES && off + PAGE * Nowhere(off) == WORD
  {
  }

  lemma LiveInWord(bs: seq<HB.Block>, lo: nat, hi: nat, p: nat)
    requires HB.Inv(bs, lo, hi) && p in HB.LivePointers(bs)
    ensures 0 < p < WORD
  {
    HB.AllAscending(bs, lo, hi);
  }

  // Every mapped page has an allocated frame of its own with known bytes, or the frame null stands for.
  ghost predicate Backed<W>(m: Mmu<W>, mem: Memory<W>, root: nat, bytes: map<nat, seq<Byte>>, off: nat, live: set<nat>)
    requires off < WORD
  {
    && (forall p: nat :: p < USER_PAGES ==> BackedAt(FrameAt(m, mem, root, p), bytes, off, live))
    && (forall p: nat, q: nat :: p < q < USER_PAGES ==> OtherFrames(FrameAt(m, mem, root, p), FrameAt(m, mem, root, q), off))
  }

  ghost predicate BackedAt(tr: Option<Mapping>, bytes: map<nat, seq<Byte>>, off: nat, live: set<nat>)
    requires off < WORD
  {
    tr.Some? ==>
      && tr.value.frame in bytes && |bytes[tr.value.frame]| == PAGE
      && (tr.value.frame == Nowhere(off) || off + PAGE * tr.value.frame in live)
  }

  ghost predicate OtherFrames(a: Option<Mapping>, b: Option<Mapping>, off: nat)
    requires off < WORD
  {
    a.Some? && b.Some? && a.value.frame == b.value.frame ==> a.value.frame == Nowhere(off)
  }

  // What a page operation does to the pages, by number.
  lemma PagesMove<W>(m: Mmu<W>, mem: Memory<W>, mem': Memory<W>, root: nat, ch: Change, added: set<nat>,
                     off: nat, live: set<nat>, live': set<nat>, q: nat)
    requires Moved(m, mem, mem', root, ch, added, off, live, live') && q < USER_PAGES
    requires ch.Page? ==> ch.va % PAGE == 0 && ch.va / PAGE < USER_PAGES
    ensures FrameAt(m, mem', root, q) == if ch.Page? && ch.va / PAGE == q then ch.to else FrameAt(m, mem, root, q)
  {
    hide Tree, Tables, Translate, SameUpTo, KernelHalf;
    UserPage(q);
    assert q * PAGE / PAGE == q;
    if ch.Page? {
      SamePage(q * PAGE, ch.va);
    }
  }

  // A page just allocated is no table of the space and no page of it.
  lemma PoolKeeps<W>(m: Mmu<W>, mem: Memory<W>, root: nat, off: nat, live: set<nat>, f: nat, page: seq<W>)
    requires SpaceIn(m, mem, root, off, live) && off + PAGE * f !in live
    ensures SpaceIn(m, mem[f := page], root, off, live + {off + PAGE * f})
    ensures forall q: nat :: q < USER_PAGES ==> FrameAt(m, mem[f := page], root, q) == FrameAt(m, mem, root, q)
    ensures SameMissing(m, mem, mem[f := page], root)
  {
    hide Tree, Tables, Translate, Missing;
    assert Agree(mem, mem[f := page], Tables(m, mem, root, PT_TOP_LEVEL, USER));
    Framed(m, mem, mem[f := page], root, PT_TOP_LEVEL, USER);
    forall q: nat | q < USER_PAGES
      ensures FrameAt(m, mem[f := page], root, q) == FrameAt(m, mem, root, q)
      ensures MissingPage(m, mem[f := page], root, q) == MissingPage(m, mem, root, q)
    {
      UserPage(q);
      MissingFramed(m, mem, mem[f := page], root, PT_TOP_LEVEL, USER, q * PAGE);
    }
  }

  ghost predicate SameFrame(a: Option<Mapping>, b: Option<Mapping>) {
    if a.None? then b.None? else b.Some? && b.value.frame == a.value.frame
  }

  // Page p maps to `to` now, the others to the frames they had.
  ghost predicate OnlyPage<W>(m: Mmu<W>, mem: Memory<W>, mem': Memory<W>, root: nat, p: nat, to: Mapping) {
    && FrameAt(m, mem', root, p) == Some(to)
    && forall q: nat :: q < USER_PAGES && q != p ==> FrameAt(m, mem', root, q) == FrameAt(m, mem, root, q)
  }

  lemma MovedOnlyPage<W>(m: Mmu<W>, mem: Memory<W>, mem': Memory<W>, root: nat, p: nat, to: Mapping, added: set<nat>,
                         off: nat, live: set<nat>, live': set<nat>)
    requires Moved(m, mem, mem', root, Page(p * PAGE, Some(to)), added, off, live, live') && p < USER_PAGES
    ensures OnlyPage(m, mem, mem', root, p, to)
  {
    hide Moved, Translate;
    forall q: nat | q < USER_PAGES
      ensures FrameAt(m, mem', root, q) == if q == p then Some(to) else FrameAt(m, mem, root, q)
    {
      PagesMove(m, mem, mem', root, Page(p * PAGE, Some(to)), added, off, live, live', q);
    }
  }

  // Page p mapped to the frame it had, to one that was not allocated before, or to null's.
  lemma StillBacked<W>(m: Mmu<W>, mem: Memory<W>, mem': Memory<W>, root: nat, p: nat, to: Mapping,
                       bytes: map<nat, seq<Byte>>, bytes': map<nat, seq<Byte>>, off: nat, live: set<nat>, live': set<nat>)
    requires off < WORD && p < USER_PAGES
    requires Backed(m, mem, root, bytes, off, live) && OnlyPage(m, mem, mem', root, p, to)
    requires live <= live' && (forall f :: f in bytes && f != to.frame ==> f in bytes' && bytes'[f] == bytes[f])
    requires BackedAt(Some(to), bytes', off, live')
    requires off + PAGE * to.frame !in live || to.frame == Nowhere(off) || SameFrame(Some(to), FrameAt(m, mem, root, p))
    ensures Backed(m, mem', root, bytes', off, live')
  {
    hide Translate;
    OwnFrame(m, mem, root, bytes, off, live, p);
    forall q: nat | q < USER_PAGES
      ensures BackedAt(FrameAt(m, mem', root, q), bytes', off, live')
      ensures q != p ==> OtherFrames(FrameAt(m, mem', root, q), Some(to), off)
    {
      assert BackedAt(FrameAt(m, mem, root, q), bytes, off, live);
    }
  }

  // Where a page is mapped the tables on the way to it are there.
  ghost predicate Tabled<W>(m: Mmu<W>, mem: Memory<W>, root: nat) {
    forall p: nat :: p < USER_PAGES && FrameAt(m, mem, root, p).Some? ==> MissingPage(m, mem, root, p) == 0
  }

  lemma StillTabled<W>(m: Mmu<W>, mem: Memory<W>, mem': Memory<W>, root: nat, p: nat, to: Mapping)
    requires Tabled(m, mem, root) && OnlyPage(m, mem, mem', root, p, to) && OpenedPages(m, mem, mem', root, p) && p < USER_PAGES
    ensures Tabled(m, mem', root)
  {
    hide FrameAt, MissingPage, OpenedPages;
    OpenedFewer(m, mem, mem, mem', root, p);
  }

  lemma TabledToo<W>(m: Mmu<W>, mem: Memory<W>, mem': Memory<W>, root: nat)
    requires Tabled(m, mem, root) && SameMissing(m, mem, mem', root)
    requires forall q: nat :: q < USER_PAGES ==> FrameAt(m, mem', root, q) == FrameAt(m, mem, root, q)
    ensures Tabled(m, mem', root)
  {
    hide FrameAt, MissingPage;
  }

  lemma HasTables<W>(m: Mmu<W>, mem: Memory<W>, root: nat, p: nat)
    requires Tabled(m, mem, root) && p < USER_PAGES && FrameAt(m, mem, root, p).Some?
    ensures MissingPage(m, mem, root, p) == 0
  {
  }

  lemma NothingMade<W>(m: Mmu<W>, mem: Memory<W>, root: nat)
    ensures SameMissing(m, mem, mem, root)
  {
  }

  lemma MissingAt<W>(m: Mmu<W>, mem: Memory<W>, mem': Memory<W>, root: nat, p: nat)
    requires SameMissing(m, mem, mem', root) && p < USER_PAGES
    ensures MissingPage(m, mem', root, p) == MissingPage(m, mem, root, p)
  {
  }

  // One page asked for, and so many more after it.
  lemma AskedThen(bs: seq<HB.Block>, cs: seq<HB.Block>, ok: bool, n: nat)
    requires Asked(bs, cs, ok)
    ensures HB.CanGive(bs, 1 + n) <==> ok && HB.CanGive(cs, n)
    ensures ok ==> forall ds :: Spent(cs, ds, n) ==> Spent(bs, ds, 1 + n)
  {
    hide HB.Give;
    HB.GiveMore(bs, 1, n);
  }

  lemma HasFrame<W>(m: Mmu<W>, mem: Memory<W>, root: nat, bytes: map<nat, seq<Byte>>, off: nat, live: set<nat>, p: nat)
    requires off < WORD && Backed(m, mem, root, bytes, off, live) && p < USER_PAGES
    ensures BackedAt(FrameAt(m, mem, root, p), bytes, off, live)
  {
  }

  // The kernel's address of a mapped page is null exactly if the frame is the one null stands for.
  lemma NotNull(bs: seq<HB.Block>, lo: nat, hi: nat, off: nat, tr: Option<Mapping>)
    requires HB.Inv(bs, lo, hi) && Canonical(off) && tr.Some?
    requires tr.value.frame == Nowhere(off) || off + PAGE * tr.value.frame in HB.LivePointers(bs)
    ensures (off + PAGE * tr.value.frame) % WORD == 0 <==> tr.value.frame == Nowhere(off)
  {
    if tr.value.frame != Nowhere(off) {
      LiveInWord(bs, lo, hi, off + PAGE * tr.value.frame);
    }
  }

  // Nothing is allocated at the null pointer's second address, 2^64.
  lemma NullIsFree(bs: seq<HB.Block>, lo: nat, hi: nat, off: nat)
    requires HB.Inv(bs, lo, hi) && Canonical(off)
    ensures off + PAGE * Nowhere(off) !in HB.LivePointers(bs)
  {
    HB.AllAscending(bs, lo, hi);
  }

  lemma PagePointer(bs: seq<HB.Block>, lo: nat, hi: nat, off: nat, f: nat)
    requires HB.Inv(bs, lo, hi) && Canonical(off) && off <= lo < off + PAGE * f && off + PAGE * f + PAGE <= hi
    ensures Physical(off, off + PAGE * f) == PAGE * f && f > 0 && f != Nowhere(off)
  {
  }

  lemma BackedToo<W>(m: Mmu<W>, mem: Memory<W>, mem': Memory<W>, root: nat, bytes: map<nat, seq<Byte>>, off: nat, live: set<nat>)
    requires off < WORD && Backed(m, mem, root, bytes, off, live)
    requires forall q: nat :: q < USER_PAGES ==> FrameAt(m, mem', root, q) == FrameAt(m, mem, root, q)
    ensures Backed(m, mem', root, bytes, off, live)
  {
    hide Translate;
    forall q: nat | q < USER_PAGES ensures BackedAt(FrameAt(m, mem', root, q), bytes, off, live) {
      assert BackedAt(FrameAt(m, mem, root, q), bytes, off, live);
    }
  }

  // No other page has this page's frame.
  lemma OwnFrame<W>(m: Mmu<W>, mem: Memory<W>, root: nat, bytes: map<nat, seq<Byte>>, off: nat, live: set<nat>, p: nat)
    requires off < WORD && Backed(m, mem, root, bytes, off, live) && p < USER_PAGES
    ensures forall q: nat :: q < USER_PAGES && q != p ==> OtherFrames(FrameAt(m, mem, root, q), FrameAt(m, mem, root, p), off)
  {
    hide Translate;
    forall q: nat | q < USER_PAGES && q != p ensures OtherFrames(FrameAt(m, mem, root, q), FrameAt(m, mem, root, p), off) {
      assert q < p ==> OtherFrames(FrameAt(m, mem, root, q), FrameAt(m, mem, root, p), off);
      assert p < q ==> OtherFrames(FrameAt(m, mem, root, p), FrameAt(m, mem, root, q), off);
    }
  }

  function ZeroPage(): (page: seq<Byte>)
    ensures |page| == PAGE && forall b :: 0 <= b < PAGE ==> page[b] == 0
  {
    seq(PAGE, i => 0)
  }

  lemma FreshHolds(file: File, segs: seq<Segment>, bias: nat, p: nat)
    requires AllSound(segs) && !InPages(segs, bias, p)
    ensures Holds(ZeroPage(), file, segs, bias, p)
  {
    hide ZeroPage;
    forall b | 0 <= b < PAGE ensures HoldsAt(ZeroPage(), file, segs, bias, p, b) {
      ZeroOutside(file, segs, bias, p, b);
    }
  }

  // What the byte asked for is, said without recursion: the last covering segment's, or zero.
  lemma {:induction false} LastWins(file: File, segs: seq<Segment>, bias: nat, va: nat, k: nat)
    requires k <= |segs| && forall i :: k <= i < |segs| ==> !Covers(segs[i], bias, va)
    requires k > 0 ==> Covers(segs[k - 1], bias, va)
    ensures k == 0 ==> ByteOf(file, segs, bias, va) == 0
    ensures k > 0 ==> var s := segs[k - 1];
                      var i := s.offset + (va - (bias + s.vaddr));
                      ByteOf(file, segs, bias, va) == file.At(i)
                      && (Inside(s, |file.image|) && |file.image| < WORD ==> i < |file.image| && file.At(i) == file.image[i])
    decreases |segs|
  {
    if k < |segs| {
      LastWins(file, segs[..|segs| - 1], bias, va, k);
    }
  }

  class Loader<W(!new)> {
    const k: Machine<W>
    const root: nat
    const file: File
    const bias: nat
    // What the frames of mapped pages hold.
    var bytes: map<nat, seq<Byte>>

    // A user half in which nothing is mapped yet.
    constructor (k: Machine<W>, root: nat, file: File, bias: nat)
      requires k.Valid() && k.Space(root) && Canonical(k.off) && |file.image| < WORD
      requires forall p: nat :: p < USER_PAGES ==> FrameAt(k.mmu, k.mem, root, p).None?
      ensures this.k == k && this.root == root && this.file == file && this.bias == bias
      ensures Valid() && Loaded([])
    {
      this.k, this.root, this.file, this.bias := k, root, file, bias;
      bytes := map[];
    }

    ghost predicate Valid()
      reads this, k, k.heap
    {
      && k.Valid() && k.Space(root) && Canonical(k.off) && |file.image| < WORD
      && Backed(k.mmu, k.mem, root, bytes, k.off, k.LiveSet()) && Tabled(k.mmu, k.mem, root)
    }

    ghost function Frame(p: nat): Option<Mapping>
      reads this, k
    {
      FrameAt(k.mmu, k.mem, root, p)
    }

    // The page has no frame that the kernel has a pointer to.
    ghost predicate Lacking(p: nat)
      reads this, k
      requires Canonical(k.off)
    {
      Frame(p).None? || Frame(p).value.frame == Nowhere(k.off)
    }

    // Some page is mapped to the frame null stands for.
    ghost predicate Adrift()
      reads this, k
      requires Canonical(k.off)
    {
      exists p: nat :: p < USER_PAGES && Astray(p)
    }

    ghost predicate Astray(p: nat)
      reads this, k
      requires Canonical(k.off)
    {
      Frame(p).Some? && Lacking(p)
    }

    // The page is mapped if the headers so far have it, and holds what they ask for unless it is astray.
    ghost predicate PageLoaded(segs: seq<Segment>, p: nat)
      reads this, k
      requires Canonical(k.off)
    {
      && (Frame(p).Some? <==> InPages(segs, bias, p))
      && (!Lacking(p) ==> PageRight(segs, p))
    }

    // Its frame holds what these headers ask for, and it has the flags they leave it with.
    ghost predicate PageRight(segs: seq<Segment>, p: nat)
      reads this, k
      requires Frame(p).Some?
    {
      && Frame(p).value.frame in bytes && Holds(bytes[Frame(p).value.frame], file, segs, bias, p)
      && Frame(p).value.flags == FlagsOf(segs, bias, p)
    }

    ghost predicate Loaded(segs: seq<Segment>)
      reads this, k
      requires Canonical(k.off)
    {
      forall p: nat :: p < USER_PAGES ==> PageLoaded(segs, p)
    }

    // The pages the heap has to give for this page: none if it has a frame, otherwise one for the
    // page and one for each table missing on the way to it.
    ghost function Cost(p: nat): nat
      reads this, k
      requires Canonical(k.off)
    {
      Price(k.mmu, k.mem, root, p, !Lacking(p))
    }

    // A page that has a frame keeps it, with other flags; no memory is needed for that.
    method KeepFrame(p: nat, flags: VmFlags) returns (ok: bool)
      requires Valid() && p < USER_PAGES && !Lacking(p)
      modifies k, k.heap
      ensures ok && Valid() && k.heap.blocks == old(k.heap.blocks)
      ensures OnlyPage(k.mmu, old(k.mem), k.mem, root, p, Mapping(old(Frame(p)).value.frame, flags))
      ensures OpenedPages(k.mmu, old(k.mem), k.mem, root, p)
    {
      hide Lawful, HB.Inv, HB.PageAlloc, Pmm.Chain, Moved, SpaceIn, Translate, Backed, Whole, HB.LivePointers,
        OnlyPage, Pointers, Missing, Opened, OpenedPages, Tabled, Spent, HB.CanGive;
      UserPage(p);
      ghost var mem0, live0, taken0, bs0, to := k.mem, k.LiveSet(), k.Taken(), k.heap.blocks, Mapping(Frame(p).value.frame, flags);
      HasFrame(k.mmu, k.mem, root, bytes, k.off, live0, p);
      HasTables(k.mmu, k.mem, root, p);
      NothingSpent(bs0);
      SpentMeans(bs0, bs0, 0);
      assert p * PAGE % PAGE == 0;
      ghost var added;
      ok, added := k.ProtectPage(Some(root), p * PAGE, flags);
      SpentNothing(bs0, k.heap.blocks, |added|);
      MovedOnlyPage(k.mmu, mem0, k.mem, root, p, to, added, k.off, taken0, k.Taken());
      StillBacked(k.mmu, mem0, k.mem, root, p, to, bytes, bytes, k.off, live0, k.LiveSet());
      PagesOpened(k.mmu, mem0, k.mem, root, p);
      StillTabled(k.mmu, mem0, k.mem, root, p, to);
    }

    // A page mapped to a zeroed frame: one just allocated, or the one null stands for. It takes the
    // tables missing on the way to it.
    method GiveFrame(p: nat, frame: nat, flags: VmFlags, ghost live0: set<nat>) returns (ok: bool)
      requires k.Valid() && k.Space(root) && Canonical(k.off) && |file.image| < WORD && Tabled(k.mmu, k.mem, root)
      requires p < USER_PAGES && frame < FRAMES && live0 <= k.LiveSet()
      requires Backed(k.mmu, k.mem, root, bytes, k.off, live0)
      requires k.off + PAGE * frame !in live0 && (frame == Nowhere(k.off) || k.off + PAGE * frame in k.LiveSet())
      modifies this, k, k.heap
      ensures k.Valid() && (old(k.Exhausted()) ==> k.Exhausted()) && old(k.LiveSet()) <= k.LiveSet()
      ensures bytes == old(bytes)[frame := ZeroPage()]
      ensures ok <==> HB.CanGive(old(k.heap.blocks), old(MissingPage(k.mmu, k.mem, root, p)))
      ensures ok ==> Spent(old(k.heap.blocks), k.heap.blocks, old(MissingPage(k.mmu, k.mem, root, p)))
      ensures ok ==> Valid() && OnlyPage(k.mmu, old(k.mem), k.mem, root, p, Mapping(frame, flags))
      ensures ok ==> OpenedPages(k.mmu, old(k.mem), k.mem, root, p)
    {
      hide Lawful, HB.Inv, HB.PageAlloc, Pmm.Chain, Moved, SpaceIn, Translate, Backed, ZeroPage, Whole, HB.LivePointers,
        OnlyPage, Pointers, Missing, Opened, OpenedPages, Tabled, Spent, HB.CanGive;
      UserPage(p);
      ghost var mem0, taken0, was, to, bs0 := k.mem, k.Taken(), bytes, Mapping(frame, flags), k.heap.blocks;
      assert p * PAGE % PAGE == 0;
      bytes := bytes[frame := ZeroPage()];
      ghost var added;
      ok, added := k.MapPage(Some(root), p * PAGE, frame, flags);
      SpentNothing(bs0, k.heap.blocks, |added|);
      if ok {
        MovedOnlyPage(k.mmu, mem0, k.mem, root, p, to, added, k.off, taken0, k.Taken());
        StillBacked(k.mmu, mem0, k.mem, root, p, to, was, bytes, k.off, live0, k.LiveSet());
        PagesOpened(k.mmu, mem0, k.mem, root, p);
        StillTabled(k.mmu, mem0, k.mem, root, p, to);
      }
    }

    // A zeroed frame for a page that has none. If the allocation fails the page gets the frame
    // null stands for, unless memory is mapped at 0.
    method NewFrame(p: nat, flags: VmFlags) returns (status: Status, frame: nat)
      requires Valid() && p < USER_PAGES && Lacking(p)
      modifies this, k, k.heap
      ensures k.Valid() && (old(k.Exhausted()) ==> k.Exhausted()) && old(k.LiveSet()) <= k.LiveSet()
      ensures status == Ok || status == NoMemory || status == MapFailed
      ensures status == NoMemory <==> old(k.Exhausted()) && k.off == 0
      ensures status == Ok && frame != Nowhere(k.off) <==> HB.CanGive(old(k.heap.blocks), old(Cost(p)))
      ensures status == Ok && frame != Nowhere(k.off) ==> Spent(old(k.heap.blocks), k.heap.blocks, old(Cost(p)))
      ensures k.off != 0 && old(MissingPage(k.mmu, k.mem, root, p)) == 0 ==> status == Ok
      ensures status == Ok ==> Valid() && OnlyPage(k.mmu, old(k.mem), k.mem, root, p, Mapping(frame, flags))
      ensures status == Ok ==> OpenedPages(k.mmu, old(k.mem), k.mem, root, p)
      ensures status == Ok ==> bytes == old(bytes)[frame := ZeroPage()]
      ensures status == Ok ==> (frame == Nowhere(k.off) <==> old(k.Exhausted()))
      ensures status == Ok && frame != Nowhere(k.off) ==> k.off + PAGE * frame !in old(k.LiveSet())
    {
      hide Lawful, HB.Inv, HB.PageAlloc, Pmm.Chain, Moved, SpaceIn, Translate, Backed, ZeroPage, Whole, NewlyCovered,
        HB.LivePointers, Physical, Nowhere, Canonical, Missing, OpenedPages, Tabled, Spent, HB.CanGive, SameMissing, Asked;
      ghost var mem0, live0, taken0, bs0, need := k.mem, k.LiveSet(), k.Taken(), k.heap.blocks, MissingPage(k.mmu, k.mem, root, p);
      NullGoesOn(k.off);
      NullIsFree(k.heap.blocks, k.heap.lo, k.heap.hi, k.off);
      var got, given := k.PoolAlloc();
      AskedThen(bs0, k.heap.blocks, got, need);
      var phys := Physical(k.off, if got then k.off + PAGE * given else 0);
      frame := phys / PAGE;
      if got {
        PagePointer(k.heap.blocks, k.heap.lo, k.heap.hi, k.off, given);
        PoolKeeps(k.mmu, mem0, root, k.off, taken0, given, Zeros(k.mmu));
        BackedToo(k.mmu, mem0, k.mem, root, bytes, k.off, live0);
        TabledToo(k.mmu, mem0, k.mem, root);
      } else {
        NothingMade(k.mmu, k.mem, root);
      }
      if phys == 0 {
        return NoMemory, frame;
      }
      ghost var mem1 := k.mem;
      assert MissingPage(k.mmu, mem1, root, p) == need by {
        MissingAt(k.mmu, mem0, mem1, root, p);
      }
      ghost var bs1 := k.heap.blocks;
      NothingSpent(bs1);
      SpentMeans(bs1, bs1, 0);
      var ok := GiveFrame(p, frame, flags, live0);
      if ok {
        OpenedSame(k.mmu, mem0, mem1, k.mem, root, p);
      }
      status := if ok then Ok else MapFailed;
    }

    // A frame for the page: the one it has, with the flags of both segments, or a zeroed one. If the
    // allocation fails the page gets the frame null stands for, unless memory is mapped at 0.
    method FrameFor(p: nat, flags: VmFlags, prev: VmFlags) returns (status: Status, frame: nat)
      requires Valid() && p < USER_PAGES
      modifies this, k, k.heap
      ensures k.Valid() && (old(k.Exhausted()) ==> k.Exhausted()) && old(k.LiveSet()) <= k.LiveSet()
      ensures status == Ok || status == NoMemory || status == MapFailed
      ensures status == NoMemory <==> old(k.Exhausted()) && old(Lacking(p)) && k.off == 0
      ensures status == Ok && frame != Nowhere(k.off) <==> HB.CanGive(old(k.heap.blocks), old(Cost(p)))
      ensures status == Ok && frame != Nowhere(k.off) ==> Spent(old(k.heap.blocks), k.heap.blocks, old(Cost(p)))
      ensures k.off != 0 && old(MissingPage(k.mmu, k.mem, root, p)) == 0 ==> status == Ok
      ensures status == Ok ==> Valid() && Frame(p) == Some(Mapping(frame, if old(Lacking(p)) then flags else Union(flags, prev)))
      ensures status == Ok ==> bytes == if old(Lacking(p)) then old(bytes)[frame := ZeroPage()] else old(bytes)
      ensures status == Ok && !old(Lacking(p)) ==> frame == old(Frame(p)).value.frame
      ensures status == Ok ==> (frame == Nowhere(k.off) <==> old(k.Exhausted()) && old(Lacking(p)))
      ensures status == Ok && old(Lacking(p)) && frame != Nowhere(k.off) ==> k.off + PAGE * frame !in old(k.LiveSet())
      ensures status == Ok ==> forall q: nat :: q < USER_PAGES && q != p ==> old(Frame(q)) == Frame(q)
      ensures status == Ok ==> OpenedPages(k.mmu, old(k.mem), k.mem, root, p)
    {
      hide Lawful, HB.Inv, HB.PageAlloc, Pmm.Chain, Moved, SpaceIn, Translate, Backed, ZeroPage, Whole, NewlyCovered,
        HB.LivePointers, Missing, OpenedPages, Tabled, Spent, HB.CanGive;
      UserPage(p);
      assert p * PAGE % PAGE == 0;
      var existing := k.UserToKernel(root, p * PAGE);
      if existing.Some? {
        HasFrame(k.mmu, k.mem, root, bytes, k.off, k.LiveSet(), p);
        NotNull(k.heap.blocks, k.heap.lo, k.heap.hi, k.off, Frame(p));
      }
      if existing.Some? && existing.value % WORD != 0 {
        frame := (existing.value - k.off) / PAGE;
        NothingSpent(k.heap.blocks);
        SpentMeans(k.heap.blocks, k.heap.blocks, 0);
        var ok := KeepFrame(p, Union(flags, prev));
        return if ok then Ok else MapFailed, frame;
      }
      status, frame := NewFrame(p, flags);
    }

    // One page of a segment: it gets memory of its own exactly if the heap can give what it costs.
    method LoadPage(p: nat, s: Segment, prev: VmFlags, ghost before: seq<Segment>) returns (status: Status)
      requires Valid() && p < USER_PAGES && (Astray(p) ==> k.Exhausted())
      requires s.kind == LOAD && Sound(s) && AllSound(before) && PageLoaded(before, p)
      modifies this, k, k.heap
      ensures k.Valid() && (old(k.Exhausted()) ==> k.Exhausted()) && old(k.LiveSet()) <= k.LiveSet()
      ensures status == Ok || status == NoMemory || status == MapFailed
      ensures status == NoMemory <==> old(k.Exhausted()) && old(Lacking(p)) && k.off == 0
      ensures status == Ok && !Astray(p) <==> HB.CanGive(old(k.heap.blocks), old(Cost(p)))
      ensures status == Ok && !Astray(p) ==> Spent(old(k.heap.blocks), k.heap.blocks, old(Cost(p)))
      ensures k.off != 0 && old(MissingPage(k.mmu, k.mem, root, p)) == 0 ==> status == Ok
      ensures status == Ok ==> Valid() && Frame(p).Some? && Frame(p).value.frame in bytes
      ensures status == Ok ==> (Astray(p) <==> old(k.Exhausted()) && old(Lacking(p)))
      ensures status == Ok && !Astray(p) ==> Holds(bytes[Frame(p).value.frame], file, before + [s], bias, p)
      ensures status == Ok && !Astray(p) ==>
                Frame(p).value.flags == if old(Lacking(p)) then PageFlags(s) else Union(PageFlags(s), prev)
      ensures status == Ok ==> forall q: nat :: q < USER_PAGES && q != p ==> OtherPage(old(Frame(q)), Frame(q), old(bytes), bytes)
      ensures status == Ok ==> OpenedPages(k.mmu, old(k.mem), k.mem, root, p)
    {
      hide Lawful, HB.Inv, HB.PageAlloc, Pmm.Chain, Moved, SpaceIn, Translate, Holds, Whole, HB.LivePointers,
        ZeroPage, InPages, Nowhere, Backed, Missing, OpenedPages, Tabled, Spent, HB.CanGive, Price;
      ghost var was := bytes;
      var frame;
      status, frame := FrameFor(p, PageFlags(s), prev);
      if status != Ok {
        return;
      }
      if old(Frame(p)).None? {
        FreshHolds(file, before, bias, p);
      }
      HasFrame(k.mmu, k.mem, root, bytes, k.off, k.LiveSet(), p);
      OwnFrame(k.mmu, k.mem, root, bytes, k.off, k.LiveSet(), p);
      ghost var between := bytes;
      var page := FillPage(bytes[frame], p, s, bias, file, before);
      bytes := bytes[frame := page];
      StillBacked(k.mmu, k.mem, k.mem, root, p, Frame(p).value, between, bytes, k.off, k.LiveSet(), k.LiveSet());
    }

    // Another page than the one worked on keeps its frame, and what an allocated frame holds.
    ghost predicate OtherPage(a: Option<Mapping>, b: Option<Mapping>, bytes: map<nat, seq<Byte>>, bytes': map<nat, seq<Byte>>)
      requires Canonical(k.off)
    {
      && b == a
      && (a.Some? && a.value.frame != Nowhere(k.off) && a.value.frame in bytes ==>
            a.value.frame in bytes' && bytes'[a.value.frame] == bytes[a.value.frame])
    }

    // Where the pages stand between two segments: null's frame is used only if the heap has run out.
    ghost predicate Ready(segs: seq<Segment>)
      reads this, k, k.heap
    {
      Valid() && Loaded(segs) && (Adrift() ==> k.Exhausted())
    }

    // How far a segment's pages have come: those up to p are done.
    ghost predicate PageDone(before: seq<Segment>, s: Segment, p: nat, q: nat)
      reads this, k
      requires Canonical(k.off)
    {
      && (Frame(q).Some? <==> InPages(before, bias, q) || FirstPage(s, bias) <= q < p)
      && (!Lacking(q) ==> PageRight(if FirstPage(s, bias) <= q < p then before + [s] else before, q))
    }

    // The pages of the segments before this one, and of this one up to p.
    ghost function PagesTo(before: seq<Segment>, s: Segment, p: nat): set<nat> {
      set q | 0 <= q < USER_PAGES && (InPages(before, bias, q) || FirstPage(s, bias) <= q < p)
    }

    lemma PagesGrow(before: seq<Segment>, s: Segment, p: nat)
      requires s.kind == LOAD
      ensures PagesTo(before, s, FirstPage(s, bias)) == PagesOf(before, bias)
      ensures EndPage(s, bias) <= p && (p == EndPage(s, bias) || p == FirstPage(s, bias)) ==>
                PagesTo(before, s, p) == PagesOf(before + [s], bias)
      ensures FirstPage(s, bias) <= p < EndPage(s, bias) && p < USER_PAGES ==>
                PagesTo(before, s, p + 1) == PagesTo(before, s, p) + {p} <= PagesOf(before + [s], bias)
    {
      hide InPages, FirstPage, EndPage;
      forall q: nat ensures InPages(before + [s], bias, q) <==> InPages(before, bias, q) || FirstPage(s, bias) <= q < EndPage(s, bias) {
        InPagesMore(before, s, bias, q);
      }
    }

    // How things stand with the heap when these pages have been taken care of.
    ghost predicate KeptFor(s0: Start<W>, ps: set<nat>)
      reads this, k, k.heap
      requires Canonical(k.off)
    {
      Kept(k.mmu, root, s0, k.mem, k.heap.blocks, Adrift(), ps)
    }

    ghost predicate EnoughFor(s0: Start<W>, ps: set<nat>) {
      Enough(k.mmu, root, s0, ps)
    }

    // No table was missing for any of them.
    ghost predicate NoneMissing(s0: Start<W>, ps: set<nat>) {
      forall p :: p in ps ==> MissingPage(k.mmu, s0.mem, root, p) == 0
    }

    // The page of the segment that could not be had.
    lemma NotHad(s0: Start<W>, before: seq<Segment>, s: Segment, p: nat, mem: Memory<W>, bs: seq<HB.Block>, short: bool)
      requires s.kind == LOAD && FirstPage(s, bias) <= p < EndPage(s, bias) <= USER_PAGES
      requires Kept(k.mmu, root, s0, mem, bs, short, PagesTo(before, s, p))
      requires !short ==> !HB.CanGive(bs, Price(k.mmu, mem, root, p, p in PagesTo(before, s, p)))
      ensures !EnoughFor(s0, PagesOf(before + [s], bias))
    {
      hide Kept, Enough, PagesTo, FirstPage, EndPage, HB.CanGive, Price;
      PagesGrow(before, s, p);
      NotKept(k.mmu, root, s0, mem, bs, short, PagesTo(before, s, p), p);
      if EnoughFor(s0, PagesOf(before + [s], bias)) {
        NeverEnough(k.mmu, root, s0, PagesTo(before, s, p) + {p}, PagesOf(before + [s], bias));
      }
    }

    // Unless some page is astray, exactly the pages done have a frame.
    lemma CostIs(before: seq<Segment>, s: Segment, p: nat)
      requires Canonical(k.off) && p < USER_PAGES && PageDone(before, s, p, p)
      requires !Astray(p)
      ensures Cost(p) == Price(k.mmu, k.mem, root, p, p in PagesTo(before, s, p))
    {
      hide MissingPage, InPages, FrameAt, Holds;
    }

    lemma NeededThere(s0: Start<W>, mem: Memory<W>, bs: seq<HB.Block>, short: bool, ps: set<nat>, p: nat, qs: set<nat>)
      requires Kept(k.mmu, root, s0, mem, bs, short, ps) && p < USER_PAGES && ps + {p} <= qs
      ensures NoneMissing(s0, qs) ==> MissingPage(k.mmu, mem, root, p) == 0
    {
      hide MissingPage, Enough, Made, Spent, Demand;
      assert p in qs;
    }

    // Where a segment's pages stand, those before p done.
    ghost predicate Going(before: seq<Segment>, s: Segment, p: nat, s0: Start<W>)
      reads this, k, k.heap
    {
      && Valid() && (Adrift() ==> k.Exhausted()) && KeptFor(s0, PagesTo(before, s, p))
      && forall q: nat :: q < USER_PAGES ==> PageDone(before, s, p, q)
    }

    // One turn of the loop over a segment's pages.
    method NextPage(p: nat, s: Segment, prev: VmFlags, ghost before: seq<Segment>, ghost s0: Start<W>) returns (status: Status)
      requires prev == PrevFlags(before)
      requires s.kind == LOAD && Sound(s) && AllSound(before) && FirstPage(s, bias) <= p < EndPage(s, bias) <= USER_PAGES
      requires Going(before, s, p, s0)
      modifies this, k, k.heap
      ensures k.Valid() && (old(k.Exhausted()) ==> k.Exhausted()) && old(k.LiveSet()) <= k.LiveSet()
      ensures status == Ok || status == NoMemory || status == MapFailed
      ensures status == Ok ==> Going(before, s, p + 1, s0)
      ensures status != Ok ==> !EnoughFor(s0, PagesOf(before + [s], bias))
      ensures status == NoMemory ==> k.off == 0
      ensures k.off != 0 && NoneMissing(s0, PagesOf(before + [s], bias)) ==> status == Ok
      ensures old(k.Exhausted()) && status == Ok ==> forall q: nat :: q < USER_PAGES && old(Lacking(q)) ==> Lacking(q)
    {
      hide Lawful, HB.Inv, Pmm.Chain, SpaceIn, Translate, Holds, Whole, HB.LivePointers, InPages, Backed, Nowhere,
        Kept, Enough, PagesTo, OpenedPages, Spent, HB.CanGive, Tabled, Missing, Price, FirstPage, EndPage, NoneMissing;
      assert PageDone(before, s, p, p);
      ghost var mem1, bs1, short := k.mem, k.heap.blocks, Adrift();
      if !short {
        CostIs(before, s, p);
      }
      PagesGrow(before, s, p);
      NeededThere(s0, mem1, bs1, short, PagesTo(before, s, p), p, PagesOf(before + [s], bias));
      status := LoadPage(p, s, prev, before);
      if status != Ok {
        NotHad(s0, before, s, p, mem1, bs1, short);
        return;
      }
      KeptOn(k.mmu, root, s0, mem1, bs1, short, PagesTo(before, s, p), p, k.mem, k.heap.blocks, Astray(p));
      ghost var next := p + 1;
      FlagsMore(before, s, bias, p);
      forall q: nat | q < USER_PAGES
        ensures PageDone(before, s, next, q)
        ensures q != p ==> (Astray(q) <==> old(Astray(q)))
      {
        assert old(PageDone(before, s, p, q));
        assert q != p ==> OtherPage(old(Frame(q)), Frame(q), old(bytes), bytes);
      }
      assert Adrift() == (short || Astray(p));
    }

    // One PT_LOAD: its pages are mapped or, if another segment has mapped them, kept.
    method LoadSegment(s: Segment, prev: VmFlags, ghost before: seq<Segment>, ghost s0: Start<W>) returns (status: Status)
      requires Ready(before) && s.kind == LOAD && Sound(s) && AllSound(before) && EndPage(s, bias) <= USER_PAGES
      requires KeptFor(s0, PagesOf(before, bias)) && prev == PrevFlags(before)
      modifies this, k, k.heap
      ensures k.Valid() && (old(k.Exhausted()) ==> k.Exhausted()) && old(k.LiveSet()) <= k.LiveSet()
      ensures status == Ok || status == NoMemory || status == MapFailed
      ensures status == Ok ==> Ready(before + [s]) && KeptFor(s0, PagesOf(before + [s], bias))
      ensures status != Ok ==> !EnoughFor(s0, PagesOf(before + [s], bias))
      ensures status == NoMemory ==> k.off == 0
      ensures k.off != 0 && NoneMissing(s0, PagesOf(before + [s], bias)) ==> status == Ok
      ensures old(k.Exhausted()) && status == Ok ==> forall q: nat :: q < USER_PAGES && old(Lacking(q)) ==> Lacking(q)
    {
      hide Lawful, HB.Inv, Pmm.Chain, SpaceIn, Translate, Holds, Whole, HB.LivePointers, InPages, Backed, Nowhere,
        Kept, Enough, PagesTo, Tabled, FirstPage, EndPage, NoneMissing, HB.PageAlloc;
      var p, end := FirstPage(s, bias), EndPage(s, bias);
      PagesGrow(before, s, p);
      forall q: nat | q < USER_PAGES ensures PageDone(before, s, p, q) {
        assert PageLoaded(before, q);
      }
      while p < end
        invariant FirstPage(s, bias) <= p && (p <= end || p == FirstPage(s, bias)) && Going(before, s, p, s0)
        invariant old(k.Exhausted()) ==> k.Exhausted()
        invariant old(k.LiveSet()) <= k.LiveSet()
        invariant old(k.Exhausted()) ==> forall q: nat :: q < USER_PAGES && old(Lacking(q)) ==> Lacking(q)
      {
        status := NextPage(p, s, prev, before, s0);
        if status != Ok {
          return;
        }
        p := p + 1;
      }
      PagesGrow(before, s, p);
      AllPagesDone(before, s, p);
      return Ok;
    }

    lemma AllPagesDone(before: seq<Segment>, s: Segment, p: nat)
      requires Canonical(k.off) && s.kind == LOAD && Sound(s)
      requires EndPage(s, bias) <= p && (p == EndPage(s, bias) || p == FirstPage(s, bias))
      requires forall q: nat :: q < USER_PAGES ==> PageDone(before, s, p, q)
      ensures Loaded(before + [s])
    {
      hide Holds, InPages, Translate, FirstPage, EndPage, Nowhere, FlagsOf;
      forall q: nat | q < USER_PAGES ensures PageLoaded(before + [s], q) {
        InPagesMore(before, s, bias, q);
        FlagsMore(before, s, bias, q);
        assert PageDone(before, s, p, q);
        if !Lacking(q) && !(FirstPage(s, bias) <= q < EndPage(s, bias)) {
          OtherByte(file, before, s, bias, q, bytes[Frame(q).value.frame]);
        }
      }
    }

    // What the loader is there for: the headers' pages mapped, and no others, each to an allocated
    // frame of its own that holds what they ask for.
    ghost predicate Delivered(segs: seq<Segment>)
      reads this, k, k.heap
    {
      && (forall p: nat :: p < USER_PAGES ==> PageDelivered(segs, p))
      && (forall p: nat, q: nat :: p < q < USER_PAGES && Frame(p).Some? && Frame(q).Some? ==>
            Frame(p).value.frame != Frame(q).value.frame)
    }

    ghost predicate PageDelivered(segs: seq<Segment>, p: nat)
      reads this, k, k.heap
    {
      && (Frame(p).Some? <==> InPages(segs, bias, p))
      && (Frame(p).Some? ==>
            && k.off + PAGE * Frame(p).value.frame in k.LiveSet()
            && Frame(p).value.frame in bytes && Holds(bytes[Frame(p).value.frame], file, segs, bias, p)
            && Frame(p).value.flags == FlagsOf(segs, bias, p))
    }

    // What a program finds at an address of one of its segments, in its file part and beyond it: the
    // byte of the last header whose file part has the address, or zero.
    lemma DeliveredReads(segs: seq<Segment>, i: nat, a: nat)
      requires Delivered(segs) && i < |segs| && segs[i].kind == LOAD
      requires bias + segs[i].vaddr <= a < bias + segs[i].vaddr + segs[i].memsz && a < 0x8000_0000_0000
      ensures var tr := Translate(k.mmu, k.mem, root, PT_TOP_LEVEL, a);
              && tr.Some? && tr.value.frame in bytes && |bytes[tr.value.frame]| == 4096
              && var byte := bytes[tr.value.frame][a % 4096];
              && ((forall j :: 0 <= j < |segs| && segs[j].kind == LOAD ==>
                     !(bias + segs[j].vaddr <= a < bias + segs[j].vaddr + segs[j].filesz)) ==> byte == 0)
              && forall j :: 0 <= j < |segs| && segs[j].kind == LOAD && bias + segs[j].vaddr <= a < bias + segs[j].vaddr + segs[j].filesz
                             && (forall l :: j < l < |segs| && segs[l].kind == LOAD ==>
                                   !(bias + segs[l].vaddr <= a < bias + segs[l].vaddr + segs[l].filesz)) ==>
                   byte == file.At(segs[j].offset + (a - (bias + segs[j].vaddr)))
    {
      hide Translate, InPages, HB.LivePointers, ByteOf;
      var p := a / PAGE;
      assert p * PAGE + a % PAGE == a && p * PAGE / PAGE == p;
      PagesAre(segs, bias, p);
      SameByPage(k.mmu, k.mem, root, PT_TOP_LEVEL, a, p * PAGE);
      assert PageDelivered(segs, p);
      var page := bytes[Frame(p).value.frame];
      assert HoldsAt(page, file, segs, bias, p, a % PAGE);
      if forall j :: 0 <= j < |segs| && segs[j].kind == LOAD ==>
           !(bias + segs[j].vaddr <= a < bias + segs[j].vaddr + segs[j].filesz) {
        LastWins(file, segs, bias, a, 0);
      }
      forall j | 0 <= j < |segs| && segs[j].kind == LOAD && bias + segs[j].vaddr <= a < bias + segs[j].vaddr + segs[j].filesz
                 && (forall l :: j < l < |segs| && segs[l].kind == LOAD ==>
                       !(bias + segs[l].vaddr <= a < bias + segs[l].vaddr + segs[l].filesz))
        ensures page[a % PAGE] == file.At(segs[j].offset + (a - (bias + segs[j].vaddr)))
      {
        LastWins(file, segs, bias, a, j + 1);
      }
    }

    lemma DeliveredMeans(segs: seq<Segment>)
      requires Valid() && Loaded(segs)
      ensures Delivered(segs) <==> !Adrift()
    {
      hide Holds, InPages, Translate, HB.Inv, HB.LivePointers, SpaceIn, Lawful, Pmm.Chain, Nowhere;
      NullIsFree(k.heap.blocks, k.heap.lo, k.heap.hi, k.off);
      if !Adrift() {
        forall p: nat | p < USER_PAGES ensures PageDelivered(segs, p) {
          assert PageLoaded(segs, p) && !Astray(p);
          HasFrame(k.mmu, k.mem, root, bytes, k.off, k.LiveSet(), p);
        }
        forall p: nat, q: nat | p < q < USER_PAGES && Frame(p).Some? && Frame(q).Some?
          ensures Frame(p).value.frame != Frame(q).value.frame
        {
          assert !Astray(p);
          assert OtherFrames(Frame(p), Frame(q), k.off);
        }
      } else {
        var p: nat :| p < USER_PAGES && Astray(p);
        assert !PageDelivered(segs, p);
      }
    }

    // One program header; the addresses of the pages seen so far grow with it.
    method LoadHeader(s: Segment, prev: VmFlags, low: nat, high: nat, ghost before: seq<Segment>, ghost s0: Start<W>)
      returns (status: Status, flags: VmFlags, lowest: nat, highest: nat)
      requires Ready(before) && Sound(s) && AllSound(before) && Bounds(before, bias, low, high)
      requires s.kind == LOAD ==> EndPage(s, bias) <= USER_PAGES
      requires KeptFor(s0, PagesOf(before, bias)) && prev == PrevFlags(before)
      modifies this, k, k.heap
      ensures k.Valid() && (old(k.Exhausted()) ==> k.Exhausted()) && old(k.LiveSet()) <= k.LiveSet()
      ensures status == Truncated <==> !Accepted(s, |file.image|)
      ensures status == Ok ==> Ready(before + [s]) && KeptFor(s0, PagesOf(before + [s], bias))
      ensures status == Ok ==> Bounds(before + [s], bias, lowest, highest) && flags == PrevFlags(before + [s])
      ensures status == NoMemory || status == MapFailed ==> !EnoughFor(s0, PagesOf(before + [s], bias))
      ensures status == NoMemory ==> k.off == 0
      ensures k.off != 0 && NoneMissing(s0, PagesOf(before + [s], bias)) ==> status == Ok || status == Truncated
      ensures old(k.Exhausted()) && status == Ok ==> forall q: nat :: q < USER_PAGES && old(Lacking(q)) ==> Lacking(q)
    {
      hide Lawful, HB.Inv, Pmm.Chain, SpaceIn, Translate, Holds, Whole, HB.LivePointers, InPages, Backed, Nowhere,
        Adrift, Lacking, Loaded, Bounds, HB.PageAlloc, Kept, Enough, NoneMissing, PagesOf;
      flags, lowest, highest := prev, low, high;
      FlagsMore(before, s, bias, 0);
      if s.kind == LOAD {
        if (s.offset + s.filesz) % WORD > |file.image| {
          status := Truncated;
          return;
        }
        status := LoadSegment(s, prev, before, s0);
        if status != Ok {
          return;
        }
        flags := PageFlags(s);
        var start, end := FirstPage(s, bias) * PAGE, EndPage(s, bias) * PAGE;
        if start < lowest {
          lowest := start;
        }
        if end > highest {
          highest := end;
        }
      } else {
        OtherHeader(before, s);
        OtherPages(before, s);
        status := Ok;
      }
      BoundsMore(before, s, bias, low, high, lowest, highest);
    }

    lemma OtherPages(before: seq<Segment>, s: Segment)
      requires s.kind != LOAD
      ensures PagesOf(before + [s], bias) == PagesOf(before, bias)
    {
      hide InPages;
      forall q: nat ensures InPages(before + [s], bias, q) <==> InPages(before, bias, q) {
        InPagesMore(before, s, bias, q);
      }
    }

    lemma PagesOfFirst(segs: seq<Segment>, n: nat)
      requires n <= |segs|
      ensures PagesOf(segs[..n], bias) <= PagesOf(segs, bias)
    {
      hide FirstPage, EndPage;
      forall p: nat | InPages(segs[..n], bias, p) ensures InPages(segs, bias, p) {
        var i :| 0 <= i < n && segs[i].kind == LOAD && FirstPage(segs[i], bias) <= p < EndPage(segs[i], bias);
      }
    }

    // What the headers need of the heap: a page for each of their pages, and one for each table
    // missing on the way to any of them.
    ghost function DemandOf(segs: seq<Segment>): nat
      reads this, k
    {
      Demand(k.mmu, k.mem, root, PagesOf(segs, bias))
    }

    ghost predicate AllAccepted(segs: seq<Segment>) {
      forall i :: 0 <= i < |segs| ==> Accepted(segs[i], |file.image|)
    }

    // Every table on the way to the headers' pages is there.
    ghost predicate NoTableMissing(segs: seq<Segment>)
      reads this, k
    {
      forall p :: p in PagesOf(segs, bias) ==> MissingPage(k.mmu, k.mem, root, p) == 0
    }

    // A user page is mapped exactly if some segment's memory touches it, or it surrounds the address
    // of one that has none.
    ghost predicate MappedAsAsked(segs: seq<Segment>)
      reads this, k
    {
      forall p: nat :: p < 0x8_0000_0000 ==>
        (Translate(k.mmu, k.mem, root, PT_TOP_LEVEL, p * PAGE).Some? <==>
           exists i :: 0 <= i < |segs| && segs[i].kind == LOAD
                       && p * 4096 < bias + segs[i].vaddr + segs[i].memsz && bias + segs[i].vaddr < p * 4096 + 4096)
    }

    lemma LoadedMapped(segs: seq<Segment>)
      requires Canonical(k.off) && Loaded(segs)
      ensures MappedAsAsked(segs)
    {
      hide InPages, Holds, Translate, FlagsOf;
      forall p: nat | p < 0x8_0000_0000
        ensures Translate(k.mmu, k.mem, root, PT_TOP_LEVEL, p * PAGE).Some? <==>
                  exists i :: 0 <= i < |segs| && segs[i].kind == LOAD
                              && p * 4096 < bias + segs[i].vaddr + segs[i].memsz && bias + segs[i].vaddr < p * 4096 + 4096
      {
        assert PageLoaded(segs, p) && Frame(p) == Translate(k.mmu, k.mem, root, PT_TOP_LEVEL, p * PAGE);
        PagesAre(segs, bias, p);
      }
    }

    // The two addresses, in the headers' own terms.
    lemma BoundsReach(segs: seq<Segment>, lowest: nat, highest: nat)
      requires Bounds(segs, bias, lowest, highest)
      requires forall i :: 0 <= i < |segs| && segs[i].kind == LOAD ==> bias + segs[i].vaddr + segs[i].memsz <= 0x8000_0000_0000
      ensures forall i :: 0 <= i < |segs| && segs[i].kind == LOAD ==>
                lowest <= bias + segs[i].vaddr && bias + segs[i].vaddr + segs[i].memsz <= highest && EndPage(segs[i], bias) <= USER_PAGES
      ensures highest > 0 ==>
                && lowest % 4096 == 0 && highest % 4096 == 0
                && (exists i :: 0 <= i < |segs| && segs[i].kind == LOAD && bias + segs[i].vaddr < lowest + 4096)
                && (exists i :: 0 <= i < |segs| && segs[i].kind == LOAD && highest < bias + segs[i].vaddr + segs[i].memsz + 4096)
    {
      forall i: nat | IsLoad(segs, i) ensures IsLoad(segs, i) && EndPage(segs[i], bias) <= USER_PAGES {
        EndsInside(segs[i], bias);
      }
      hide FirstPage, EndPage;
      forall i | 0 <= i < |segs| && segs[i].kind == LOAD
        ensures lowest <= bias + segs[i].vaddr && bias + segs[i].vaddr + segs[i].memsz <= highest
      {
        assert IsLoad(segs, i);
        Ends(segs[i], bias);
      }
      BoundsMean(segs, bias, lowest, highest);
      if highest > 0 {
        var i: nat :| IsLoad(segs, i) && highest == EndOf(segs[i], bias);
        Ends(segs[i], bias);
        var j: nat :| IsLoad(segs, j) && lowest == StartOf(segs[j], bias);
        Ends(segs[j], bias);
      }
    }

    // elf_load's loop over the program headers. It delivers what they ask for exactly if the heap
    // it finds can give what that needs. A failed allocation of a page goes unnoticed unless memory
    // is mapped at 0: with no table missing the load is reported as done all the same.
    method Load(segs: seq<Segment>) returns (status: Status, lowest: nat, highest: nat)
      requires Valid() && Loaded([]) && AllSound(segs)
      requires forall i :: 0 <= i < |segs| && segs[i].kind == LOAD ==> bias + segs[i].vaddr + segs[i].memsz <= 0x8000_0000_0000
      modifies this, k, k.heap
      ensures k.Valid() && old(k.LiveSet()) <= k.LiveSet()
      ensures status == Ok ==> MappedAsAsked(segs)
      ensures status == Ok ==> forall i :: 0 <= i < |segs| && segs[i].kind == LOAD ==>
                lowest <= bias + segs[i].vaddr && bias + segs[i].vaddr + segs[i].memsz <= highest
                && (segs[i].offset + segs[i].filesz) % 0x1_0000_0000_0000_0000 <= |file.image|
      ensures status == Ok ==>
                && lowest % 4096 == 0 && highest % 4096 == 0
                && (exists i :: 0 <= i < |segs| && segs[i].kind == LOAD && bias + segs[i].vaddr < lowest + 4096)
                && (exists i :: 0 <= i < |segs| && segs[i].kind == LOAD && highest < bias + segs[i].vaddr + segs[i].memsz + 4096)
      ensures status == Truncated ==>
                || (exists i :: 0 <= i < |segs| && segs[i].kind == LOAD && (segs[i].offset + segs[i].filesz) % 0x1_0000_0000_0000_0000 > |file.image|)
                || (forall i :: 0 <= i < |segs| && segs[i].kind == LOAD ==> bias + segs[i].vaddr + segs[i].memsz == 0)
      ensures status == Ok ==> Valid() && Loaded(segs) && Bounds(segs, bias, lowest, highest)
      ensures status == Ok && Delivered(segs) <==>
                AllAccepted(segs) && Reaches(segs, bias) && HB.CanGive(old(k.heap.blocks), old(DemandOf(segs)))
      ensures status == Ok && Delivered(segs) ==> Spent(old(k.heap.blocks), k.heap.blocks, old(DemandOf(segs)))
      ensures status == Ok ==> AllAccepted(segs) && Reaches(segs, bias)
      ensures status == Truncated ==> !AllAccepted(segs) || !Reaches(segs, bias)
      ensures status == NoMemory || status == MapFailed ==> !HB.CanGive(old(k.heap.blocks), old(DemandOf(segs)))
      ensures status == NoMemory ==> k.off == 0
      ensures k.off != 0 && old(NoTableMissing(segs)) ==> (status == Ok <==> AllAccepted(segs) && Reaches(segs, bias))
      ensures status == Ok && old(k.Exhausted()) ==> forall p: nat :: p < USER_PAGES ==> Lacking(p)
    {
      hide Lawful, HB.Inv, Pmm.Chain, SpaceIn, Translate, Holds, Whole, HB.LivePointers, InPages, Backed, Nowhere, Missing,
        Adrift, Lacking, Loaded, Delivered, Bounds, FirstPage, EndPage, HB.PageAlloc, Kept, Enough, PagesOf, Demand, Spent, HB.CanGive,
        MappedAsAsked, StartOf;
      lowest, highest := 0xFFFF_FFFF_FFFF_FFFF, 0;
      forall j | 0 <= j < |segs| && segs[j].kind == LOAD ensures EndPage(segs[j], bias) <= USER_PAGES {
        EndsInside(segs[j], bias);
      }
      NoPagesYet();
      ghost var s0 := Start(k.mem, k.heap.blocks);
      KeptStart(k.mmu, root, s0);
      assert EnoughFor(s0, PagesOf(segs, bias)) == HB.CanGive(k.heap.blocks, DemandOf(segs)) by {
        EnoughMeans(s0, segs);
      }
      var prev := VmFlags(false, false, false, false);
      var i := 0;
      assert segs[..0] == [];
      while i < |segs|
        invariant i <= |segs| && Ready(segs[..i]) && Bounds(segs[..i], bias, lowest, highest)
        invariant KeptFor(s0, PagesOf(segs[..i], bias)) && prev == PrevFlags(segs[..i])
        invariant old(k.LiveSet()) <= k.LiveSet()
        invariant old(k.Exhausted()) ==> k.Exhausted() && forall q: nat :: q < USER_PAGES ==> Lacking(q)
        invariant forall j :: 0 <= j < i ==> Accepted(segs[j], |file.image|)
      {
        var s := segs[i];
        assert Sound(s);
        assert segs[..i + 1] == segs[..i] + [s];
        PagesOfFirst(segs, i + 1);
        status, prev, lowest, highest := LoadHeader(s, prev, lowest, highest, segs[..i], s0);
        if status != Ok {
          EnoughForMore(s0, PagesOf(segs[..i + 1], bias), PagesOf(segs, bias));
          return;
        }
        i := i + 1;
      }
      assert segs[..i] == segs;
      DeliveredMeans(segs);
      KeptMeans(k.mmu, root, s0, k.mem, k.heap.blocks, Adrift(), PagesOf(segs, bias));
      BoundsMean(segs, bias, lowest, highest);
      BoundsReach(segs, lowest, highest);
      LoadedMapped(segs);
      if highest == 0 {
        return Truncated, lowest, highest;
      }
      return Ok, lowest, highest;
    }

    lemma EnoughMeans(s0: Start<W>, segs: seq<Segment>)
      requires s0 == Start(k.mem, k.heap.blocks)
      ensures EnoughFor(s0, PagesOf(segs, bias)) == HB.CanGive(k.heap.blocks, DemandOf(segs))
      ensures NoneMissing(s0, PagesOf(segs, bias)) == NoTableMissing(segs)
    {
      hide PagesOf, Demand, MissingPage, HB.CanGive;
    }

    lemma EnoughForMore(s0: Start<W>, ps: set<nat>, qs: set<nat>)
      requires ps <= qs
      ensures EnoughFor(s0, qs) ==> EnoughFor(s0, ps)
      ensures NoneMissing(s0, qs) ==> NoneMissing(s0, ps)
    {
      hide Enough, MissingPage;
      if EnoughFor(s0, qs) {
        NeverEnough(k.mmu, root, s0, ps, qs);
      }
    }

    lemma NoPagesYet()
      requires Canonical(k.off) && Loaded([])
      ensures !Adrift() && forall p: nat :: p < USER_PAGES ==> Lacking(p)
      ensures PagesOf([], bias) == {} && Bounds([], bias, WORD - 1, 0)
    {
      hide Translate;
      NoSegmentsYet(bias);
      forall p: nat | p < USER_PAGES ensures Frame(p).None? {
        assert PageLoaded([], p);
      }
    }

    // Other headers than PT_LOAD ask nothing of the pages.
    lemma OtherHeader(before: seq<Segment>, s: Segment)
      requires Canonical(k.off) && s.kind != LOAD && Sound(s) && Loaded(before)
      ensures Loaded(before + [s])
    {
      hide Holds, ByteOf, InPages, Translate;
      forall p: nat | p < USER_PAGES ensures PageLoaded(before + [s], p) {
        assert PageLoaded(before, p);
        InPagesMore(before, s, bias, p);
        FlagsMore(before, s, bias, p);
        if !Lacking(p) {
          OtherByte(file, before, s, bias, p, bytes[Frame(p).value.frame]);
        }
      }
    }
  }

  lemma NoSegmentsYet(bias: nat)
    ensures forall p: nat :: !InPages([], bias, p)
  {
  }

  // ---- a load that fails unnoticed ----

  // A tree of exactly these tables that maps nothing, the lowest table for addresses below 2 MiB among them.
  ghost predicate Bare<W>(m: Mmu<W>, mem: Memory<W>, f: nat, level: nat, n: nat, tables: set<nat>) {
    && Tree(m, mem, f, level, n) && Tables(m, mem, f, level, n) == tables
    && (forall va :: Translate(m, mem, f, level, va).None?)
    && exists t :: OnPath(m, mem, f, level, PAGE, t, 0)
  }

  lemma BareLeafTable<W(!new)>(m: Mmu<W>, mem: Memory<W>, f: nat)
    requires Lawful(m) && f in mem && mem[f] == Zeros(m)
    ensures Bare(m, mem, f, 0, PT_ENTRIES, {f})
  {
    assert OnPath(m, mem, f, 0, PAGE, f, 0);
  }

  // A table whose first entry is its only one.
  lemma BareTable<W(!new)>(m: Mmu<W>, mem: Memory<W>, f: nat, level: nat, n: nat, c: nat, tables: set<nat>)
    requires Lawful(m) && level < PT_TOP_LEVEL && 0 < n <= PT_ENTRIES && c < FRAMES
    requires f in mem && mem[f] == Zeros(m)[0 := m.table(c)]
    requires Bare(m, mem, c, level, PT_ENTRIES, tables) && f !in tables
    ensures Bare(m, mem, f, level + 1, n, {f} + tables)
  {
    hide Index, Lawful, Translate, OnPath;
    var l := level + 1;
    BareEntries(m, mem, f, l, n, c);
    BareTables(m, mem, f, l, n, tables);
    forall va ensures Translate(m, mem, f, l, va).None? {
      NothingThere(m, mem, f, l, c, va);
    }
    var t :| OnPath(m, mem, c, level, PAGE, t, 0);
    FirstIndex(l);
    PathDown(m, mem, f, l, PAGE, c, t);
  }

  // With nothing below the other entries, what is below the first is all there is.
  lemma BareTables<W>(m: Mmu<W>, mem: Memory<W>, f: nat, level: nat, n: nat, tables: set<nat>)
    requires 0 < n <= PT_ENTRIES && f in mem && |mem[f]| == PT_ENTRIES && f !in tables
    requires forall i: nat :: i < n ==> EntryTree(m, mem, f, level, i)
    requires ChildTables(m, mem, f, level, 0) == tables && forall i: nat :: 0 < i < n ==> ChildTables(m, mem, f, level, i) == {}
    ensures Tree(m, mem, f, level, n) && Tables(m, mem, f, level, n) == {f} + tables
  {
    hide EntryTree, ChildTables;
    forall i | 0 <= i < n ensures EntryTree(m, mem, f, level, i) && f !in ChildTables(m, mem, f, level, i) {
      var k: nat := i;
      assert EntryTree(m, mem, f, level, k) && (k == 0 || ChildTables(m, mem, f, level, k) == {});
    }
    forall x | x in tables ensures x in Tables(m, mem, f, level, n) {
      assert x in ChildTables(m, mem, f, level, 0);
    }
  }

  lemma NothingThere<W>(m: Mmu<W>, mem: Memory<W>, f: nat, level: nat, c: nat, va: nat)
    requires level > 0 && Translate(m, mem, c, level - 1, va).None? && !m.present(m.zero)
    requires IsTable(m, Word(m, mem, f, 0), level) && m.phys(Word(m, mem, f, 0)) == c
    requires forall i: nat :: 0 < i < PT_ENTRIES ==> Word(m, mem, f, i) == m.zero
    ensures Translate(m, mem, f, level, va).None?
  {
    IndexBound(va, level);
    hide Index;
  }

  lemma PathDown<W>(m: Mmu<W>, mem: Memory<W>, f: nat, level: nat, va: nat, c: nat, t: nat)
    requires level > 0 && OnPath(m, mem, c, level - 1, va, t, 0)
    requires var w := Word(m, mem, f, Index(va, level)); IsTable(m, w, level) && m.phys(w) == c
    ensures OnPath(m, mem, f, level, va, t, 0)
  {
  }

  lemma BareEntries<W(!new)>(m: Mmu<W>, mem: Memory<W>, f: nat, level: nat, n: nat, c: nat)
    requires Lawful(m) && 0 < level <= PT_TOP_LEVEL && 0 < n <= PT_ENTRIES && c < FRAMES
    requires f in mem && mem[f] == Zeros(m)[0 := m.table(c)] && Tree(m, mem, c, level - 1, PT_ENTRIES)
    ensures Word(m, mem, f, 0) == m.table(c) && IsTable(m, m.table(c), level) && m.phys(m.table(c)) == c
    ensures ChildTables(m, mem, f, level, 0) == Tables(m, mem, c, level - 1, PT_ENTRIES)
    ensures !m.present(m.zero) && forall i: nat :: 0 < i < PT_ENTRIES ==> Word(m, mem, f, i) == m.zero
    ensures forall i: nat :: i < n ==> EntryTree(m, mem, f, level, i)
    ensures forall i: nat :: 0 < i < n ==> ChildTables(m, mem, f, level, i) == {}
  {
    hide Tree, Tables;
    forall i: nat | 0 < i < PT_ENTRIES
      ensures Word(m, mem, f, i) == m.zero && EntryTree(m, mem, f, level, i) && ChildTables(m, mem, f, level, i) == {}
    {
      assert Word(m, mem, f, i) == m.zero;
    }
  }

  lemma FirstIndex(level: nat)
    requires 0 < level <= PT_TOP_LEVEL
    ensures Index(PAGE, level) == 0
  {
  }

  // Frames 1 to 4 hold a tree of empty tables, the others zeros.
  function BareMemory<W>(m: Mmu<W>): (mem: Memory<W>)
    ensures Whole(mem)
  {
    map f: nat | f < FRAMES :: BareFrame(m, f)
  }

  function BareFrame<W>(m: Mmu<W>, f: nat): (page: seq<W>)
    ensures |page| == PT_ENTRIES
  {
    if 1 <= f <= 3 then Zeros(m)[0 := m.table(f + 1)] else Zeros(m)
  }

  lemma BareSpace<W(!new)>(m: Mmu<W>, off: nat, taken: set<nat>)
    requires Lawful(m) && forall t :: 1 <= t <= 4 ==> off + PAGE * t in taken
    ensures var mem := BareMemory(m);
            && SpaceIn(m, mem, 1, off, taken) && MissingPage(m, mem, 1, 1) == 0
            && forall p: nat :: p < USER_PAGES ==> FrameAt(m, mem, 1, p).None?
  {
    hide Lawful, Zeros, Tree, Tables, Translate, OnPath;
    var mem := BareMemory(m);
    BareLeafTable(m, mem, 4);
    BareTable(m, mem, 3, 0, PT_ENTRIES, 4, {4});
    BareTable(m, mem, 2, 1, PT_ENTRIES, 3, {3} + {4});
    BareTable(m, mem, 1, 2, USER, 2, {2} + ({3} + {4}));
    var t :| OnPath(m, mem, 1, PT_TOP_LEVEL, PAGE, t, 0);
    WayMissesNothing(m, mem, 1, PT_TOP_LEVEL, PAGE, t);
  }

  // A heap too small for a page.
  lemma NoPage(lo: nat, bs: seq<HB.Block>)
    requires bs == [HB.Block(lo, 64 - HB.HEADER, true)] && 0 < lo && lo + 64 + 2 * PAGE <= WORD
    ensures HB.PageAlloc(bs, 1).1 == 0
  {
    hide HB.PageAlloc;
    assert HB.Tiles(bs[1..], lo + 64, lo + 64);
    FreshPage(bs, lo, lo + 64);
  }

  lemma PageTaken(off: nat, lo: nat, hi: nat, outside: set<nat>)
    requires off + 0x1_0000 <= lo
    requires outside == set f | 0 <= f < FRAMES && (off + PAGE * f + PAGE <= lo || hi <= off + PAGE * f) :: off + PAGE * f
    ensures forall t :: 1 <= t <= 4 ==> off + PAGE * t in outside
  {
  }

  // On any machine with memory mapped where the boot protocol puts it, an exhausted heap does not
  // stop the loader: it reports success with the program's page mapped to no memory of its own.
  method LoadUnnoticed<W(!new)>(mmu: Mmu<W>, file: File) returns (loader: Loader<W>, segs: seq<Segment>, status: Status)
    requires Lawful(mmu) && 8 <= |file.image| < WORD
    ensures fresh(loader) && segs == [Segment(LOAD, 0, PAGE, 8, 8, false, false)] && loader.file == file
    ensures status == Ok && loader.Valid() && loader.Astray(1) && !loader.Delivered(segs)
  {
    hide Lawful, SpaceIn, Translate, HB.PageAlloc, HB.Inv, Pmm.Chain, BareMemory, Whole, Backed, Nowhere, Missing, HB.CanGive, Demand, Spent;
    var off := 0xFFFF_8000_0000_0000;
    var heap := new Pmm.Heap(off + 0x1_0000, 64);
    NoPage(heap.lo, heap.blocks);
    var k := new Machine(mmu, heap, off, 1, BareMemory(mmu));
    PageTaken(off, heap.lo, heap.hi, k.Outside());
    BareSpace(mmu, off, k.Taken());
    loader := new Loader(k, 1, file, 0);
    segs := [Segment(LOAD, 0, PAGE, 8, 8, false, false)];
    OnePage(segs);
    var low, high;
    status, low, high := loader.Load(segs);
    assert loader.PageLoaded(segs, 1);
    assert loader.Astray(1);
    loader.DeliveredMeans(segs);
  }

  lemma OnePage(segs: seq<Segment>)
    requires segs == [Segment(LOAD, 0, PAGE, 8, 8, false, false)]
    ensures PagesOf(segs, 0) == {1} && InPages(segs, 0, 1) && Reaches(segs, 0)
  {
    assert segs[0].kind == LOAD && FirstPage(segs[0], 0) <= 1 < EndPage(segs[0], 0);
    assert IsLoad(segs, 0) && EndOf(segs[0], 0) > 0;
    forall p: nat | InPages(segs, 0, p) ensures p == 1 {
    }
  }
}
