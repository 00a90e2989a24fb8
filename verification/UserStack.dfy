/** The initial user stack: strings copied in from execve, laid out by elf_prepare, and read back
    by the program that starts on it. Positions count from the bottom of the stack's pages, which
    start at a page boundary; a position's user address is STACK_LOW more. */
module UserStack {
  import opened Sizes

  // A C string without its terminator.
  type Text = seq<Byte>

  const STACK_SIZE: nat := 8 * 1024 * 1024
  const USER_STACK_TOP: nat := 0x8000_0000_0000 - 0x1000
  const STACK_LOW: nat := USER_STACK_TOP - STACK_SIZE

  predicate CString(t: Text) {
    0 !in t
  }

  ghost predicate CStrings(ts: seq<Text>) {
    forall i :: 0 <= i < |ts| ==> CString(ts[i])
  }

  // Bytes the strings take with their terminators.
  function Bytes(ts: seq<Text>): nat {
    if ts == [] then 0 else |ts[0]| + 1 + Bytes(ts[1..])
  }

  // ---- reading memory ----

  type Memory = seq<Byte>

  function ByteAt(m: Memory, pos: nat): nat
    requires pos < |m|
  {
    m[pos]
  }

  // Eight bytes, the lowest first.
  function WordAt(m: Memory, pos: nat): nat
    requires pos + 8 <= |m|
  {
    ByteAt(m, pos) + 0x100 * ByteAt(m, pos + 1) + 0x1_0000 * ByteAt(m, pos + 2) + 0x100_0000 * ByteAt(m, pos + 3)
    + 0x1_0000_0000 * ByteAt(m, pos + 4) + 0x100_0000_0000 * ByteAt(m, pos + 5)
    + 0x1_0000_0000_0000 * ByteAt(m, pos + 6) + 0x100_0000_0000_0000 * ByteAt(m, pos + 7)
  }

  function Encoded(v: nat): (b: seq<Byte>)
    ensures |b| == 8
  {
    var (v1, v2) := (v / 0x100, v / 0x100 / 0x100);
    var (v3, v4) := (v2 / 0x100, v2 / 0x100 / 0x100);
    var (v5, v6) := (v4 / 0x100, v4 / 0x100 / 0x100);
    [v % 0x100, v1 % 0x100, v2 % 0x100, v3 % 0x100, v4 % 0x100, v5 % 0x100, v6 % 0x100, v6 / 0x100 % 0x100]
  }

  lemma WordRoundTrip(v: nat)
    requires v < WORD
    ensures WordAt(Encoded(v), 0) == v
  {
    var v1 := v / 0x100;
    var v2 := v1 / 0x100;
    var v3 := v2 / 0x100;
    var v4 := v3 / 0x100;
    var v5 := v4 / 0x100;
    var v6 := v5 / 0x100;
    Digits(v, v1, v2, v3, v4, v5, v6, v6 / 0x100);
  }

  lemma LowByteFirst(v: Byte)
    ensures Encoded(v) == [v, 0, 0, 0, 0, 0, 0, 0]
  {
  }

  lemma Digits(v: nat, v1: nat, v2: nat, v3: nat, v4: nat, v5: nat, v6: nat, v7: nat)
    requires v < WORD && v1 == v / 0x100 && v2 == v1 / 0x100 && v3 == v2 / 0x100 && v4 == v3 / 0x100
    requires v5 == v4 / 0x100 && v6 == v5 / 0x100 && v7 == v6 / 0x100
    ensures v7 < 0x100
    ensures v == v % 0x100 + 0x100 * (v1 % 0x100) + 0x1_0000 * (v2 % 0x100) + 0x100_0000 * (v3 % 0x100)
                 + 0x1_0000_0000 * (v4 % 0x100) + 0x100_0000_0000 * (v5 % 0x100)
                 + 0x1_0000_0000_0000 * (v6 % 0x100) + 0x100_0000_0000_0000 * v7
  {
  }

  // The string that starts at a position.
  function TextAt(m: Memory, pos: nat): Text
    decreases |m| - pos
  {
    if pos >= |m| || m[pos] == 0 then [] else [m[pos]] + TextAt(m, pos + 1)
  }

  // What a program finds at a user address.
  function UserText(m: Memory, a: nat): Text {
    if STACK_LOW <= a then TextAt(m, a - STACK_LOW) else []
  }

  // A vector of pointers that ends with a null one.
  function PointersAt(m: Memory, pos: nat): seq<nat>
    decreases |m| - pos
  {
    if pos + 8 > |m| || WordAt(m, pos) == 0 then [] else [WordAt(m, pos)] + PointersAt(m, pos + 8)
  }

  // Pairs of a type and a value, up to the pair of type 0.
  function PairsAt(m: Memory, pos: nat): seq<(nat, nat)>
    decreases |m| - pos
  {
    if pos + 16 > |m| || WordAt(m, pos) == 0 then []
    else [(WordAt(m, pos), WordAt(m, pos + 8))] + PairsAt(m, pos + 16)
  }

  function Texts(m: Memory, ps: seq<nat>): (ts: seq<Text>)
    ensures |ts| == |ps|
  {
    seq(|ps|, i requires 0 <= i < |ps| => UserText(m, ps[i]))
  }

  datatype Image = Image(argc: nat, args: seq<Text>, envs: seq<Text>, aux: seq<(nat, nat)>)

  // What a program that starts with this stack pointer knows of its start.
  function Started(m: Memory, sp: nat): Image
    requires sp + 8 <= |m|
  {
    var args := PointersAt(m, sp + 8);
    var envs := PointersAt(m, sp + 8 * (|args| + 2));
    Image(WordAt(m, sp), Texts(m, args), Texts(m, envs), PairsAt(m, sp + 8 * (|args| + |envs| + 3)))
  }

  lemma {:induction false} PointersAre(m: Memory, pos: nat)
    ensures var ps := PointersAt(m, pos);
            && (forall i :: 0 <= i < |ps| ==> pos + 8 * i + 8 <= |m| && WordAt(m, pos + 8 * i) == ps[i] != 0)
            && (pos + 8 * |ps| + 8 <= |m| ==> WordAt(m, pos + 8 * |ps|) == 0)
    decreases |m| - pos
  {
    hide WordAt;
    if pos + 8 <= |m| && WordAt(m, pos) != 0 {
      PointersAre(m, pos + 8);
      var ps, rest := PointersAt(m, pos), PointersAt(m, pos + 8);
      forall i | 0 <= i < |ps| ensures pos + 8 * i + 8 <= |m| && WordAt(m, pos + 8 * i) == ps[i] != 0 {
        if i > 0 {
          assert ps[i] == rest[i - 1];
        }
      }
    }
  }

  lemma {:induction false} PairsAre(m: Memory, pos: nat)
    ensures var ps := PairsAt(m, pos);
            forall i :: 0 <= i < |ps| ==> pos + 16 * i + 16 <= |m| && ps[i] == (WordAt(m, pos + 16 * i), WordAt(m, pos + 16 * i + 8))
    decreases |m| - pos
  {
    hide WordAt;
    if pos + 16 <= |m| && WordAt(m, pos) != 0 {
      PairsAre(m, pos + 16);
      var ps, rest := PairsAt(m, pos), PairsAt(m, pos + 16);
      forall i | 0 <= i < |ps|
        ensures pos + 16 * i + 16 <= |m| && ps[i] == (WordAt(m, pos + 16 * i), WordAt(m, pos + 16 * i + 8))
      {
        if i > 0 {
          assert ps[i] == rest[i - 1];
        }
      }
    }
  }

  // The order in which a program finds them: argc, its arguments and a null pointer, its environment
  // and a null pointer, and the pairs.
  lemma StartedFinds(m: Memory, sp: nat)
    requires sp + 8 <= |m|
    ensures var im := Started(m, sp);
            var e := sp + 8 * (|im.args| + 2);
            var x := e + 8 * (|im.envs| + 1);
            && WordAt(m, sp) == im.argc
            && (forall i :: 0 <= i < |im.args| ==> sp + 8 * i + 16 <= |m| && im.args[i] == UserText(m, WordAt(m, sp + 8 * i + 8)))
            && (e <= |m| ==> WordAt(m, e - 8) == 0)
            && (forall i :: 0 <= i < |im.envs| ==> e + 8 * i + 8 <= |m| && im.envs[i] == UserText(m, WordAt(m, e + 8 * i)))
            && (x <= |m| ==> WordAt(m, x - 8) == 0)
            && (forall i :: 0 <= i < |im.aux| ==>
                  x + 16 * i + 16 <= |m| && im.aux[i].0 == WordAt(m, x + 16 * i) && im.aux[i].1 == WordAt(m, x + 16 * i + 8))
  {
    hide WordAt, UserText, PointersAt, PairsAt;
    var args := PointersAt(m, sp + 8);
    var envs := PointersAt(m, sp + 8 * (|args| + 2));
    PointersAre(m, sp + 8);
    PointersAre(m, sp + 8 * (|args| + 2));
    PairsAre(m, sp + 8 * (|args| + |envs| + 3));
    assert forall i :: 0 <= i < |args| ==> sp + 8 + 8 * i == sp + 8 * i + 8;
  }

  // ---- writing memory ----

  // At pos the memory holds these bytes.
  ghost predicate Holds(m: Memory, pos: nat, data: seq<Byte>) {
    pos + |data| <= |m| && m[pos..pos + |data|] == data
  }

  ghost function Patched(m: Memory, pos: nat, data: seq<Byte>): (m': Memory)
    requires pos + |data| <= |m|
    ensures |m'| == |m|
  {
    m[..pos] + data + m[pos + |data|..]
  }

  lemma PatchHolds(m: Memory, pos: nat, data: seq<Byte>)
    requires pos + |data| <= |m|
    ensures Holds(Patched(m, pos, data), pos, data)
    ensures forall q: nat, d :: Holds(m, q, d) && (pos + |data| <= q || q + |d| <= pos) ==> Holds(Patched(m, pos, data), q, d)
  {
    forall q: nat, d | Holds(m, q, d) && (pos + |data| <= q || q + |d| <= pos)
      ensures Holds(Patched(m, pos, data), q, d)
    {
      var m' := Patched(m, pos, data);
      assert forall k :: q <= k < q + |d| ==> m'[k] == m[k];
    }
  }

  lemma HoldsWord(m: Memory, pos: nat, v: nat)
    requires v < WORD && Holds(m, pos, Encoded(v))
    ensures pos + 8 <= |m| && WordAt(m, pos) == v
  {
    WordRoundTrip(v);
    hide Encoded;
    assert WordAt(m[pos..pos + 8], 0) == WordAt(m, pos);
  }

  lemma {:induction false} HoldsText(m: Memory, pos: nat, t: Text)
    requires CString(t) && Holds(m, pos, t + [0])
    ensures TextAt(m, pos) == t
    decreases |t|
  {
    assert m[pos] == (t + [0])[0];
    if t != [] {
      assert (t + [0])[1..] == t[1..] + [0];
      assert m[pos + 1..pos + 1 + |t[1..]| + 1] == m[pos..pos + |t| + 1][1..];
      HoldsText(m, pos + 1, t[1..]);
    }
  }

  // ---- the image ----

  // Strings at these user addresses, all at or above the stack pointer.
  ghost predicate Placed(m: Memory, addrs: seq<nat>, ts: seq<Text>, sp: nat) {
    |addrs| == |ts| && forall i :: 0 <= i < |ts| ==> PlacedAt(m, addrs[i], ts[i], sp)
  }

  ghost predicate PlacedAt(m: Memory, addr: nat, t: Text, sp: nat) {
    STACK_LOW + sp <= addr && Holds(m, addr - STACK_LOW, t + [0])
  }

  lemma PlacedStays(m: Memory, m': Memory, addrs: seq<nat>, ts: seq<Text>, sp: nat, sp': nat)
    requires Placed(m, addrs, ts, sp) && sp' <= sp
    requires forall q: nat, d :: Holds(m, q, d) && sp <= q ==> Holds(m', q, d)
    ensures Placed(m', addrs, ts, sp')
  {
    hide Holds;
    forall i | 0 <= i < |ts| ensures PlacedAt(m', addrs[i], ts[i], sp') {
      assert PlacedAt(m, addrs[i], ts[i], sp);
    }
  }

  // The words from pos on are these.
  ghost predicate Words(m: Memory, pos: nat, ws: seq<nat>) {
    pos + 8 * |ws| <= |m| && forall i :: 0 <= i < |ws| ==> WordAt(m, pos + 8 * i) == ws[i]
  }

  lemma WordsSplit(m: Memory, pos: nat, a: seq<nat>, b: seq<nat>)
    requires Words(m, pos, a + b)
    ensures Words(m, pos, a) && Words(m, pos + 8 * |a|, b)
  {
    hide WordAt;
    forall i | 0 <= i < |a| ensures WordAt(m, pos + 8 * i) == a[i] {
      assert (a + b)[i] == a[i];
    }
    forall i | 0 <= i < |b| ensures WordAt(m, pos + 8 * |a| + 8 * i) == b[i] {
      assert (a + b)[|a| + i] == b[i];
    }
  }

  lemma {:induction false} PointersRead(m: Memory, pos: nat, ps: seq<nat>)
    requires Words(m, pos, ps + [0]) && forall i :: 0 <= i < |ps| ==> ps[i] != 0
    ensures PointersAt(m, pos) == ps
    decreases |ps|
  {
    hide WordAt;
    assert WordAt(m, pos + 8 * 0) == (ps + [0])[0];
    if ps != [] {
      assert ps + [0] == ps[..1] + (ps[1..] + [0]);
      WordsSplit(m, pos, ps[..1], ps[1..] + [0]);
      PointersRead(m, pos + 8, ps[1..]);
    }
  }

  function Flat(pairs: seq<(nat, nat)>): seq<nat> {
    if pairs == [] then [] else [pairs[0].0, pairs[0].1] + Flat(pairs[1..])
  }

  lemma {:induction false} PairsRead(m: Memory, pos: nat, pairs: seq<(nat, nat)>)
    requires Words(m, pos, Flat(pairs) + [0, 0]) && forall i :: 0 <= i < |pairs| ==> pairs[i].0 != 0
    ensures PairsAt(m, pos) == pairs
    decreases |pairs|
  {
    hide WordAt;
    if pairs == [] {
      assert WordAt(m, pos + 8 * 0) == (Flat(pairs) + [0, 0])[0];
    } else {
      var head := [pairs[0].0, pairs[0].1];
      var rest := Flat(pairs[1..]) + [0, 0];
      assert Flat(pairs) + [0, 0] == head + rest;
      WordsSplit(m, pos, head, rest);
      assert WordAt(m, pos + 8 * 0) == head[0] && WordAt(m, pos + 8 * 1) == head[1];
      PairsRead(m, pos + 16, pairs[1..]);
    }
  }

  // The words at the stack pointer.
  function Vector(args: seq<nat>, envs: seq<nat>, aux: seq<(nat, nat)>): seq<nat> {
    [|args|] + (args + [0]) + (envs + [0]) + (Flat(aux) + [0, 0])
  }

  // A program started on these words over these strings recovers all of it.
  lemma Recovered(m: Memory, sp: nat, args: seq<nat>, argv: seq<Text>, envs: seq<nat>, envp: seq<Text>, aux: seq<(nat, nat)>)
    requires Words(m, sp, Vector(args, envs, aux))
    requires Placed(m, args, argv, 0) && Placed(m, envs, envp, 0) && CStrings(argv) && CStrings(envp)
    requires forall i :: 0 <= i < |aux| ==> aux[i].0 != 0
    ensures sp + 8 <= |m| && Started(m, sp) == Image(|argv|, argv, envp, aux)
  {
    hide WordAt, Words;
    var a, e, x := args + [0], envs + [0], Flat(aux) + [0, 0];
    assert Vector(args, envs, aux) == [|args|] + (a + (e + x));
    WordsSplit(m, sp, [|args|], a + (e + x));
    WordsSplit(m, sp + 8, a, e + x);
    WordsSplit(m, sp + 8 + 8 * |a|, e, x);
    FirstWord(m, sp, [|args|]);
    PlacedReads(m, args, argv);
    PlacedReads(m, envs, envp);
    PointersRead(m, sp + 8, args);
    PointersRead(m, sp + 8 * (|args| + 2), envs);
    PairsRead(m, sp + 8 * (|args| + |envs| + 3), aux);
  }

  lemma FirstWord(m: Memory, pos: nat, ws: seq<nat>)
    requires Words(m, pos, ws) && ws != []
    ensures pos + 8 <= |m| && WordAt(m, pos) == ws[0]
  {
    assert WordAt(m, pos + 8 * 0) == ws[0];
  }

  lemma PlacedReads(m: Memory, addrs: seq<nat>, ts: seq<Text>)
    requires Placed(m, addrs, ts, 0) && CStrings(ts)
    ensures Texts(m, addrs) == ts
    ensures forall i :: 0 <= i < |addrs| ==> addrs[i] != 0
  {
    forall i | 0 <= i < |ts| ensures UserText(m, addrs[i]) == ts[i] && addrs[i] != 0 {
      assert PlacedAt(m, addrs[i], ts[i], 0);
      HoldsText(m, addrs[i] - STACK_LOW, ts[i]);
    }
  }

  lemma WordsGrow(m: Memory, sp: nat, ws: seq<nat>, v: nat)
    requires Words(m, sp, ws) && v < WORD && sp + 8 * |ws| + 8 <= |m|
    ensures Words(Patched(m, sp + 8 * |ws|, Encoded(v)), sp, ws + [v])
  {
    hide WordAt, Encoded, Holds, Patched;
    var pos := sp + 8 * |ws|;
    var m' := Patched(m, pos, Encoded(v));
    PatchHolds(m, pos, Encoded(v));
    HoldsWord(m', pos, v);
    forall i | 0 <= i < |ws + [v]| ensures WordAt(m', sp + 8 * i) == (ws + [v])[i] {
      if i < |ws| {
        assert WordAt(m, sp + 8 * i) == ws[i];
        PatchBelow(m, pos, Encoded(v), sp + 8 * i);
      }
    }
  }

  lemma PatchBelow(m: Memory, pos: nat, data: seq<Byte>, q: nat)
    requires q + 8 <= pos && pos + |data| <= |m|
    ensures WordAt(Patched(m, pos, data), q) == WordAt(m, q)
  {
  }

  // ---- elf_prepare ----

  const AT_PHDR: nat := 3
  const AT_PHENT: nat := 4
  const AT_PHNUM: nat := 5
  const AT_PAGESZ: nat := 6
  const AT_BASE: nat := 7
  const AT_ENTRY: nat := 9
  const AT_UID: nat := 11
  const AT_EUID: nat := 12
  const AT_GID: nat := 13
  const AT_EGID: nat := 14
  const AT_CLKTCK: nat := 17
  const AT_SECURE: nat := 23
  const AT_RANDOM: nat := 25
  const AT_EXECFN: nat := 31
  const ELF_MAX_AUX_WORDS: nat := 32

  // What the loader says about the program.
  datatype Loaded = Loaded(phdr: nat, phent: nat, phnum: nat, interp: bool, base: nat, entry: nat)

  predicate WordSized(l: Loaded) {
    l.phdr < WORD && l.phent < WORD && l.phnum < WORD && l.base < WORD && l.entry < WORD
  }

  function AuxOf(l: Loaded, random: nat, execfn: nat): seq<(nat, nat)> {
    [(AT_PHDR, l.phdr), (AT_PHENT, l.phent), (AT_PHNUM, l.phnum), (AT_PAGESZ, 4096),
     (AT_BASE, if l.interp then l.base else 0), (AT_ENTRY, l.entry),
     (AT_UID, 0), (AT_EUID, 0), (AT_GID, 0), (AT_EGID, 0), (AT_SECURE, 0), (AT_CLKTCK, 100),
     (AT_RANDOM, random), (AT_EXECFN, execfn)]
  }

  // The pairs hold this value under this type, once.
  ghost predicate Tells(pairs: seq<(nat, nat)>, tag: nat, value: nat) {
    exists i :: 0 <= i < |pairs| && pairs[i] == (tag, value) && forall j :: 0 <= j < |pairs| && j != i ==> pairs[j].0 != tag
  }

  lemma TellsAt(pairs: seq<(nat, nat)>, i: nat, tag: nat, value: nat)
    requires i < |pairs| && pairs[i] == (tag, value) && forall j :: 0 <= j < |pairs| && j != i ==> pairs[j].0 != tag
    ensures Tells(pairs, tag, value)
  {
  }

  // What the auxiliary vector tells the program, by the types' numbers: the program headers' address,
  // size and number, the page size, the interpreter's base, the program's entry, four ids and the
  // privilege flag, the clock rate, and where the random bytes and the program's name are.
  ghost predicate TellsAll(aux: seq<(nat, nat)>, l: Loaded, random: nat, execfn: nat) {
    && Tells(aux, 3, l.phdr) && Tells(aux, 4, l.phent) && Tells(aux, 5, l.phnum) && Tells(aux, 6, 4096)
    && Tells(aux, 7, if l.interp then l.base else 0) && Tells(aux, 9, l.entry)
    && Tells(aux, 11, 0) && Tells(aux, 12, 0) && Tells(aux, 13, 0) && Tells(aux, 14, 0) && Tells(aux, 23, 0)
    && Tells(aux, 17, 100) && Tells(aux, 25, random) && Tells(aux, 31, execfn) && |aux| == 14
  }

  lemma AuxTells(l: Loaded, random: nat, execfn: nat)
    ensures var aux := AuxOf(l, random, execfn);
            && Tells(aux, 3, l.phdr) && Tells(aux, 4, l.phent) && Tells(aux, 5, l.phnum) && Tells(aux, 6, 4096)
            && Tells(aux, 7, if l.interp then l.base else 0) && Tells(aux, 9, l.entry)
            && Tells(aux, 11, 0) && Tells(aux, 12, 0) && Tells(aux, 13, 0) && Tells(aux, 14, 0) && Tells(aux, 23, 0)
            && Tells(aux, 17, 100) && Tells(aux, 25, random) && Tells(aux, 31, execfn) && |aux| == 14
    ensures TellsAll(AuxOf(l, random, execfn), l, random, execfn)
  {
    hide Tells;
    ProgramTold(l, random, execfn);
    RestTold(l, random, execfn);
  }

  lemma ProgramTold(l: Loaded, random: nat, execfn: nat)
    ensures var aux := AuxOf(l, random, execfn);
            && Tells(aux, 3, l.phdr) && Tells(aux, 4, l.phent) && Tells(aux, 5, l.phnum) && Tells(aux, 6, 4096)
            && Tells(aux, 7, if l.interp then l.base else 0) && Tells(aux, 9, l.entry)
  {
    hide Tells;
    var aux := AuxOf(l, random, execfn);
    TellsAt(aux, 0, 3, l.phdr);
    TellsAt(aux, 1, 4, l.phent);
    TellsAt(aux, 2, 5, l.phnum);
    TellsAt(aux, 3, 6, 4096);
    TellsAt(aux, 4, 7, if l.interp then l.base else 0);
    TellsAt(aux, 5, 9, l.entry);
  }

  lemma RestTold(l: Loaded, random: nat, execfn: nat)
    ensures var aux := AuxOf(l, random, execfn);
            && Tells(aux, 11, 0) && Tells(aux, 12, 0) && Tells(aux, 13, 0) && Tells(aux, 14, 0) && Tells(aux, 23, 0)
            && Tells(aux, 17, 100) && Tells(aux, 25, random) && Tells(aux, 31, execfn) && |aux| == 14
  {
    hide Tells;
    var aux := AuxOf(l, random, execfn);
    TellsAt(aux, 6, 11, 0);
    TellsAt(aux, 7, 12, 0);
    TellsAt(aux, 8, 13, 0);
    TellsAt(aux, 9, 14, 0);
    TellsAt(aux, 10, 23, 0);
    TellsAt(aux, 11, 17, 100);
    TellsAt(aux, 12, 25, random);
    TellsAt(aux, 13, 31, execfn);
  }

  const DEFAULT_ARGV0: Text := [0x2F, 0x69, 0x6E, 0x69, 0x74]

  // A program always has a name.
  function Named(argv: seq<Text>): seq<Text> {
    if argv == [] then [DEFAULT_ARGV0] else argv
  }

  // Bytes the image takes at most, with both alignments.
  function Needed(argv: seq<Text>, envp: seq<Text>): nat {
    Bytes(argv) + Bytes(envp) + 16 + 15 + 8 * (|argv| + |envp| + 3 + 30) + 15
  }

  function Random(): (b: seq<Byte>)
    ensures |b| == 16
  {
    seq(16, i requires 0 <= i < 16 => RandomByte(i))
  }

  // i ^ 0x42 for i < 16
  function RandomByte(i: nat): Byte
    requires i < 16
  {
    0x40 + (if i / 2 % 2 == 0 then i + 2 else i - 2)
  }

  lemma Down16(sp: nat)
    ensures sp / 16 * 16 <= sp < sp / 16 * 16 + 16 && (sp / 16 * 16) % 16 == 0 && (STACK_LOW + sp / 16 * 16) % 16 == 0
  {
  }

  // The sixteen bytes AT_RANDOM points at.
  lemma RandomBytes(m: Memory, at: nat)
    requires Holds(m, at, Random())
    ensures at + 16 <= |m| && m[at..at + 16] == [66, 67, 64, 65, 70, 71, 68, 69, 74, 75, 72, 73, 78, 79, 76, 77]
  {
    assert Random() == [66, 67, 64, 65, 70, 71, 68, 69, 74, 75, 72, 73, 78, 79, 76, 77];
  }

  lemma BytesSplit(ts: seq<Text>, i: nat)
    requires i < |ts|
    ensures Bytes(ts[i..]) == |ts[i]| + 1 + Bytes(ts[i + 1..])
  {
    assert ts[i..][1..] == ts[i + 1..];
  }

  lemma {:induction false} BytesTail(ts: seq<Text>, i: nat)
    requires i <= |ts|
    ensures Bytes(ts[i..]) <= Bytes(ts)
    decreases i
  {
    if i == 0 {
      assert ts[0..] == ts;
    } else {
      BytesTail(ts, i - 1);
      BytesSplit(ts, i - 1);
    }
  }

  class Stack {
    const bytes: array<Byte>

    ghost predicate Valid()
      reads this
    {
      bytes.Length == STACK_SIZE
    }

    constructor ()
      ensures Valid() && fresh(bytes)
    {
      bytes := new Byte[STACK_SIZE](i => 0);
    }

    // memcpy
    method Put(pos: nat, data: seq<Byte>)
      requires Valid() && pos + |data| <= STACK_SIZE
      modifies bytes
      ensures bytes[..] == Patched(old(bytes[..]), pos, data)
    {
      var i := 0;
      while i < |data|
        invariant i <= |data|
        invariant forall k :: 0 <= k < STACK_SIZE ==> bytes[k] == if pos <= k < pos + i then data[k - pos] else old(bytes[k])
      {
        bytes[pos + i] := data[i];
        i := i + 1;
      }
    }

    // The strings pushed from the last to the first.
    method PutStrings(ts: seq<Text>, top: nat) returns (sp: nat, addrs: seq<nat>)
      requires Valid() && Bytes(ts) <= top <= STACK_SIZE
      modifies bytes
      ensures sp == top - Bytes(ts)
      ensures Placed(bytes[..], addrs, ts, sp)
      ensures forall i :: 0 <= i < |addrs| ==> addrs[i] < WORD
      ensures forall q: nat, d :: Holds(old(bytes[..]), q, d) && top <= q ==> Holds(bytes[..], q, d)
    {
      hide Holds, Patched;
      sp := top;
      addrs := [];
      var i := |ts|;
      assert ts[i..] == [];
      while i > 0
        invariant i <= |ts| && Bytes(ts[i..]) <= Bytes(ts) && sp == top - Bytes(ts[i..])
        invariant Placed(bytes[..], addrs, ts[i..], sp)
        invariant forall k :: 0 <= k < |addrs| ==> addrs[k] < WORD
        invariant forall q: nat, d :: Holds(old(bytes[..]), q, d) && top <= q ==> Holds(bytes[..], q, d)
      {
        i := i - 1;
        BytesSplit(ts, i);
        BytesTail(ts, i);
        ghost var m := bytes[..];
        var data := ts[i] + [0];
        PatchHolds(m, sp - |data|, data);
        Put(sp - |data|, data);
        PlacedStays(m, bytes[..], addrs, ts[i + 1..], sp, sp - |data|);
        sp := sp - |data|;
        PlacedMore(bytes[..], addrs, ts, i, sp);
        addrs := [STACK_LOW + sp] + addrs;
      }
      assert ts[0..] == ts;
    }

    // Words appended to the vector; there is room for them.
    static method Push(vec: array<nat>, n: nat, words: seq<nat>) returns (n': nat)
      requires n + |words| <= vec.Length
      modifies vec
      ensures n' == n + |words| && vec[..n'] == old(vec[..n]) + words
    {
      n' := n;
      while n' < n + |words|
        invariant n <= n' <= n + |words|
        invariant vec[..n'] == old(vec[..n]) + words[..n' - n]
      {
        vec[n'] := words[n' - n];
        assert words[..n' + 1 - n] == words[..n' - n] + [words[n' - n]];
        n' := n' + 1;
      }
      assert words[..n' - n] == words;
    }

    method PutWords(sp: nat, vec: array<nat>, n: nat)
      requires Valid() && n <= vec.Length && sp + 8 * n <= STACK_SIZE
      requires forall i :: 0 <= i < n ==> vec[i] < WORD
      modifies bytes
      ensures Words(bytes[..], sp, vec[..n])
      ensures forall q: nat, d :: Holds(old(bytes[..]), q, d) && sp + 8 * n <= q ==> Holds(bytes[..], q, d)
    {
      hide WordAt, Holds, Patched, Words, Encoded;
      ghost var ws := vec[..n];
      var i := 0;
      NoWords(bytes[..], sp);
      assert ws[..0] == [];
      while i < n
        modifies bytes
        invariant i <= n && Words(bytes[..], sp, ws[..i]) && vec[..n] == ws
        invariant forall q: nat, d :: Holds(old(bytes[..]), q, d) && sp + 8 * n <= q ==> Holds(bytes[..], q, d)
      {
        assert ws[..i + 1] == ws[..i] + [vec[i]];
        WordsGrow(bytes[..], sp, ws[..i], vec[i]);
        PatchHolds(bytes[..], sp + 8 * i, Encoded(vec[i]));
        Put(sp + 8 * i, Encoded(vec[i]));
        i := i + 1;
      }
      assert ws[..n] == ws;
    }

    // The part of elf_prepare that lays out the stack; without arguments the program is /init.
    method Prepare(args: seq<Text>, envp: seq<Text>, l: Loaded) returns (userSp: nat, ghost random: nat, ghost execfn: nat)
      requires Valid() && CStrings(args) && CStrings(envp) && WordSized(l)
      requires Needed(Named(args), envp) <= STACK_SIZE
      modifies bytes
      ensures userSp % 16 == 0 && STACK_LOW <= userSp && userSp + 8 <= USER_STACK_TOP
      ensures Started(bytes[..], userSp - STACK_LOW) == Image(|Named(args)|, Named(args), envp, AuxOf(l, random, execfn))
      ensures var image := Started(bytes[..], userSp - STACK_LOW);
              && image.argc == |image.args| && image.args == (if args == [] then [[47, 105, 110, 105, 116]] else args) && image.envs == envp
              && TellsAll(image.aux, l, random, execfn)
      ensures UserText(bytes[..], execfn) == Named(args)[0]
      ensures STACK_LOW <= random && Holds(bytes[..], random - STACK_LOW, Random())
    {
      hide Holds, Patched, Words, Started, Placed, Flat, UserText, Random, Vector, AuxOf, Tells, TellsAll;
      var argv := if args == [] then [DEFAULT_ARGV0] else args;
      var sp, envs, argAddrs := PutBoth(envp, argv);
      ghost var m1, low := bytes[..], sp;
      Down16(sp);
      sp := sp / 16 * 16;
      sp := sp - 16;
      random := STACK_LOW + sp;
      PatchHolds(bytes[..], sp, Random());
      Put(sp, Random());
      ghost var m2, at := bytes[..], sp;
      execfn := argAddrs[0];
      var vec, n := BuildVector(argAddrs, envs, l, STACK_LOW + sp);
      sp := sp - n * 8;
      Down16(sp);
      sp := sp / 16 * 16;
      PutWords(sp, vec, n);
      AuxWords(l, random, execfn);
      Finished(m1, m2, bytes[..], low, at, sp, argAddrs, argv, envs, envp, l, random);
      AuxTells(l, random, execfn);
      return STACK_LOW + sp, random, execfn;
    }

    // The environment's strings at the top, the arguments' below them.
    method PutBoth(envp: seq<Text>, argv: seq<Text>) returns (sp: nat, envs: seq<nat>, args: seq<nat>)
      requires Valid() && Bytes(argv) + Bytes(envp) <= STACK_SIZE
      modifies bytes
      ensures sp == STACK_SIZE - Bytes(envp) - Bytes(argv)
      ensures Placed(bytes[..], envs, envp, sp) && Placed(bytes[..], args, argv, sp) && |envs| == |envp| && |args| == |argv|
      ensures forall i :: 0 <= i < |envs| ==> envs[i] < WORD
      ensures forall i :: 0 <= i < |args| ==> args[i] < WORD
    {
      hide Holds, Placed;
      sp, envs := PutStrings(envp, STACK_SIZE);
      ghost var m, top := bytes[..], sp;
      sp, args := PutStrings(argv, sp);
      PlacedStays(m, bytes[..], envs, envp, top, sp);
      SamePlaces(bytes[..], envs, envp, args, argv, sp);
    }

    // argc, both pointer vectors and the auxiliary vector, within the room allocated for them.
    static method BuildVector(args: seq<nat>, envs: seq<nat>, l: Loaded, random: nat) returns (vec: array<nat>, n: nat)
      requires args != [] && |args| < WORD && WordSized(l) && random < WORD
      requires forall i :: 0 <= i < |args| ==> args[i] < WORD
      requires forall i :: 0 <= i < |envs| ==> envs[i] < WORD
      ensures fresh(vec) && n <= vec.Length == |args| + |envs| + 3 + ELF_MAX_AUX_WORDS
      ensures n == |args| + |envs| + 3 + 30
      ensures vec[..n] == Vector(args, envs, AuxOf(l, random, args[0]))
      ensures forall i :: 0 <= i < n ==> vec[i] < WORD
    {
      hide Flat, AuxOf;
      vec := new nat[|args| + |envs| + 3 + ELF_MAX_AUX_WORDS];
      n := Push(vec, 0, [|args|]);
      n := Push(vec, n, args);
      n := Push(vec, n, [0]);
      n := Push(vec, n, envs);
      n := Push(vec, n, [0]);
      ghost var head := [|args|] + (args + [0]) + (envs + [0]);
      assert vec[..n] == head;
      var aux := AuxOf(l, random, args[0]);
      AuxWords(l, random, args[0]);
      n := Push(vec, n, Flat(aux));
      n := Push(vec, n, [0, 0]);
      assert vec[..n] == head + (Flat(aux) + [0, 0]);
      AllWordSized(args, envs, aux);
      assert forall i :: 0 <= i < n ==> vec[i] == vec[..n][i];
    }
  }

  lemma NoWords(m: Memory, pos: nat)
    requires pos <= |m|
    ensures Words(m, pos, [])
  {
  }

  lemma SamePlaces(m: Memory, envs: seq<nat>, envp: seq<Text>, args: seq<nat>, argv: seq<Text>, sp: nat)
    requires Placed(m, envs, envp, sp) && Placed(m, args, argv, sp)
    ensures |envs| == |envp| && |args| == |argv|
  {
  }

  lemma {:induction false} FlatBound(pairs: seq<(nat, nat)>)
    requires forall i :: 0 <= i < |pairs| ==> pairs[i].0 < WORD && pairs[i].1 < WORD
    ensures |Flat(pairs)| == 2 * |pairs| && forall i :: 0 <= i < |Flat(pairs)| ==> Flat(pairs)[i] < WORD
    decreases |pairs|
  {
    if pairs != [] {
      FlatBound(pairs[1..]);
    }
  }

  lemma AuxWords(l: Loaded, random: nat, execfn: nat)
    requires WordSized(l) && random < WORD && execfn < WORD
    ensures |Flat(AuxOf(l, random, execfn))| == 28
    ensures forall i :: 0 <= i < 28 ==> Flat(AuxOf(l, random, execfn))[i] < WORD
    ensures forall i :: 0 <= i < |AuxOf(l, random, execfn)| ==> AuxOf(l, random, execfn)[i].0 != 0
  {
    FlatBound(AuxOf(l, random, execfn));
  }

  lemma AllWordSized(args: seq<nat>, envs: seq<nat>, aux: seq<(nat, nat)>)
    requires |args| < WORD && forall i :: 0 <= i < |args| ==> args[i] < WORD
    requires forall i :: 0 <= i < |envs| ==> envs[i] < WORD
    requires forall i :: 0 <= i < |Flat(aux)| ==> Flat(aux)[i] < WORD
    ensures forall i :: 0 <= i < |Vector(args, envs, aux)| ==> Vector(args, envs, aux)[i] < WORD
  {
    hide Flat;
    var a, e, x := args + [0], envs + [0], Flat(aux) + [0, 0];
    forall w | w in Vector(args, envs, aux) ensures w < WORD {
      assert w == |args| || w in a || w in e || w in x;
    }
  }

  // The strings stay as they were put while the random bytes and the words go below them.
  lemma Finished(m1: Memory, m2: Memory, m3: Memory, low: nat, at: nat, sp: nat,
                 args: seq<nat>, argv: seq<Text>, envs: seq<nat>, envp: seq<Text>, l: Loaded, random: nat)
    requires Placed(m1, args, argv, low) && Placed(m1, envs, envp, low) && CStrings(argv) && CStrings(envp) && argv != []
    requires at + 16 <= low && sp + 8 * |Vector(args, envs, AuxOf(l, random, args[0]))| <= at
    requires forall q: nat, d :: Holds(m1, q, d) && at + 16 <= q ==> Holds(m2, q, d)
    requires forall q: nat, d :: Holds(m2, q, d) && at <= q ==> Holds(m3, q, d)
    requires Holds(m2, at, Random())
    requires |args| == |argv| && Words(m3, sp, Vector(args, envs, AuxOf(l, random, args[0])))
    ensures Holds(m3, at, Random()) && sp + 8 <= |m3|
    ensures Started(m3, sp) == Image(|argv|, argv, envp, AuxOf(l, random, args[0]))
    ensures UserText(m3, args[0]) == argv[0]
  {
    hide Holds, Words, Started, Vector, Random;
    PlacedStays(m1, m2, args, argv, low, low);
    PlacedStays(m1, m2, envs, envp, low, low);
    PlacedStays(m2, m3, args, argv, low, 0);
    PlacedStays(m2, m3, envs, envp, low, 0);
    Recovered(m3, sp, args, argv, envs, envp, AuxOf(l, random, args[0]));
    PlacedReads(m3, args, argv);
    assert Texts(m3, args)[0] == argv[0];
  }

  lemma PlacedMore(m: Memory, addrs: seq<nat>, ts: seq<Text>, i: nat, sp: nat)
    requires i < |ts| && Placed(m, addrs, ts[i + 1..], sp) && Holds(m, sp, ts[i] + [0])
    ensures Placed(m, [STACK_LOW + sp] + addrs, ts[i..], sp)
  {
    hide Holds;
    var all := [STACK_LOW + sp] + addrs;
    forall k | 0 <= k < |ts[i..]| ensures PlacedAt(m, all[k], ts[i..][k], sp) {
      if k > 0 {
        assert ts[i..][k] == ts[i + 1..][k - 1] && PlacedAt(m, addrs[k - 1], ts[i + 1..][k - 1], sp);
      }
    }
  }

  // ---- exec_copy_strvec ----

  const EXEC_MAX_ARGS: nat := 1024
  const EXEC_MAX_PATH: nat := 4096
  const EXEC_MAX_ARG_BYTES: nat := 256 * 1024

  // A pointer the program passes, and the string behind it if the pointer is its own to use.
  datatype UserPtr = UserPtr(inRange: bool, text: Text)
  // A null vector, one outside the user half, or the pointers before the first null one.
  datatype UserVec = NullVec | OutOfRange | Vec(ptrs: seq<UserPtr>)
  datatype Copied = Copied(texts: seq<Text>, budget: nat) | TooBig | Fault | NoMemory

  // The strings in order, each charged to the budget; `room` allocations will succeed.
  function CopyFrom(ptrs: seq<UserPtr>, budget: nat, room: nat): Copied {
    if ptrs == [] then Copied([], budget)
    else if !ptrs[0].inRange then Fault
    else if |ptrs[0].text| + 1 > budget then TooBig
    else if room == 0 then NoMemory
    else match CopyFrom(ptrs[1..], budget - |ptrs[0].text| - 1, room - 1)
      case Copied(ts, b) => Copied([ptrs[0].text] + ts, b)
      case other => other
  }

  function CopyVec(vec: UserVec, budget: nat, room: nat): Copied {
    match vec
    case NullVec => Copied([], budget)
    case OutOfRange => Fault
    case Vec(ptrs) =>
      if |ptrs| > EXEC_MAX_ARGS then TooBig else if room == 0 then NoMemory else CopyFrom(ptrs, budget, room - 1)
  }

  function AllTexts(ptrs: seq<UserPtr>): seq<Text> {
    seq(|ptrs|, i requires 0 <= i < |ptrs| => ptrs[i].text)
  }

  // Accepted exactly if every pointer is good, the strings fit the budget and memory lasts; then
  // what is kept is what was passed, and the budget is charged for every byte of it.
  lemma {:induction false} CopyAccepts(ptrs: seq<UserPtr>, budget: nat, room: nat)
    ensures CopyFrom(ptrs, budget, room).Copied? <==>
            (forall i :: 0 <= i < |ptrs| ==> ptrs[i].inRange) && Bytes(AllTexts(ptrs)) <= budget && |ptrs| <= room
    ensures CopyFrom(ptrs, budget, room).Copied? ==>
            CopyFrom(ptrs, budget, room) == Copied(AllTexts(ptrs), budget - Bytes(AllTexts(ptrs)))
    decreases |ptrs|
  {
    if ptrs != [] {
      assert AllTexts(ptrs)[1..] == AllTexts(ptrs[1..]);
      assert forall i :: 0 < i < |ptrs| ==> ptrs[i] == ptrs[1..][i - 1];
      if |ptrs[0].text| + 1 <= budget && room > 0 {
        CopyAccepts(ptrs[1..], budget - |ptrs[0].text| - 1, room - 1);
      }
    }
  }

  lemma CopyStep(done: seq<Text>, ptrs: seq<UserPtr>, budget: nat, room: nat)
    requires ptrs != [] && ptrs[0].inRange && |ptrs[0].text| + 1 <= budget && room > 0
    ensures Prepend(done, CopyFrom(ptrs, budget, room))
         == Prepend(done + [ptrs[0].text], CopyFrom(ptrs[1..], budget - |ptrs[0].text| - 1, room - 1))
  {
    var rest := CopyFrom(ptrs[1..], budget - |ptrs[0].text| - 1, room - 1);
    if rest.Copied? {
      assert done + ([ptrs[0].text] + rest.texts) == done + [ptrs[0].text] + rest.texts;
    }
  }

  function Prepend(done: seq<Text>, c: Copied): Copied {
    if c.Copied? then c.(texts := done + c.texts) else c
  }

  method CopyStrvec(vec: UserVec, budget: nat, room: nat) returns (r: Copied)
    ensures r == CopyVec(vec, budget, room)
  {
    if vec.NullVec? {
      return Copied([], budget);
    }
    if vec.OutOfRange? {
      return Fault;
    }
    var count := 0;
    while count < |vec.ptrs|
      invariant count <= |vec.ptrs| && count <= EXEC_MAX_ARGS
    {
      count := count + 1;
      if count > EXEC_MAX_ARGS {
        return TooBig;
      }
    }
    if room == 0 {
      return NoMemory;
    }
    var texts: seq<Text>, left: nat, slots: nat := [], budget, room - 1;
    var i := 0;
    assert vec.ptrs[0..] == vec.ptrs;
    while i < count
      invariant i <= count == |vec.ptrs|
      invariant Prepend(texts, CopyFrom(vec.ptrs[i..], left, slots)) == CopyFrom(vec.ptrs, budget, room - 1)
    {
      var p := vec.ptrs[i];
      if !p.inRange {
        return Fault;
      }
      var len := |p.text| + 1;
      if len > left {
        return TooBig;
      }
      if slots == 0 {
        return NoMemory;
      }
      CopyStep(texts, vec.ptrs[i..], left, slots);
      assert vec.ptrs[i..][1..] == vec.ptrs[i + 1..];
      texts, left, slots := texts + [p.text], left - len, slots - 1;
      i := i + 1;
    }
    return Copied(texts, left);
  }

  // What execve hands over: its path stands in for missing arguments.
  function ExecArgs(argv: seq<Text>, path: Text): seq<Text> {
    if argv == [] then [path] else argv
  }

  // Whatever execve accepts fits on the stack, with room to spare.
  lemma AcceptedFits(argv: UserVec, envp: UserVec, path: Text, room: nat, room': nat)
    requires |path| + 1 <= EXEC_MAX_PATH
    requires CopyVec(argv, EXEC_MAX_ARG_BYTES, room).Copied?
    requires CopyVec(envp, CopyVec(argv, EXEC_MAX_ARG_BYTES, room).budget, room').Copied?
    ensures var args := ExecArgs(CopyVec(argv, EXEC_MAX_ARG_BYTES, room).texts, path);
            var envs := CopyVec(envp, CopyVec(argv, EXEC_MAX_ARG_BYTES, room).budget, room').texts;
            |args| <= EXEC_MAX_ARGS && |envs| <= EXEC_MAX_ARGS && Needed(Named(args), envs) < STACK_SIZE / 16
  {
    VecBytes(argv, EXEC_MAX_ARG_BYTES, room);
    VecBytes(envp, CopyVec(argv, EXEC_MAX_ARG_BYTES, room).budget, room');
    assert Bytes([path]) == |path| + 1 + Bytes([path][1..]);
  }

  lemma VecBytes(vec: UserVec, budget: nat, room: nat)
    requires CopyVec(vec, budget, room).Copied?
    ensures var c := CopyVec(vec, budget, room); c.budget + Bytes(c.texts) == budget && |c.texts| <= EXEC_MAX_ARGS
  {
    if vec.Vec? {
      CopyAccepts(vec.ptrs, budget, room - 1);
    }
  }

  // ---- execve, from the program's vectors to the new program's stack ----

  // What the program passed.
  function Given(vec: UserVec): seq<Text> {
    if vec.Vec? then AllTexts(vec.ptrs) else []
  }

  predicate Acceptable(vec: UserVec, budget: nat, room: nat) {
    match vec
    case NullVec => true
    case OutOfRange => false
    case Vec(ptrs) =>
      && |ptrs| <= EXEC_MAX_ARGS && |ptrs| < room && Bytes(AllTexts(ptrs)) <= budget
      && forall i :: 0 <= i < |ptrs| ==> ptrs[i].inRange
  }

  lemma VecAccepts(vec: UserVec, budget: nat, room: nat)
    ensures CopyVec(vec, budget, room).Copied? <==> Acceptable(vec, budget, room)
    ensures Acceptable(vec, budget, room) ==> CopyVec(vec, budget, room) == Copied(Given(vec), budget - Bytes(Given(vec)))
  {
    if vec.Vec? && room > 0 {
      CopyAccepts(vec.ptrs, budget, room - 1);
    }
  }

  // Which of execve's allocations will succeed: the path's, how many for either vector, and the
  // vector that takes the path's place among the arguments.
  datatype Room = Room(path: bool, args: nat, envs: nat, spare: bool)
  datatype Strings = Taken(args: seq<Text>, envs: seq<Text>) | E2Big | EFault | ENoMem | ENameTooLong

  function Refusal(c: Copied): Strings
    requires !c.Copied?
  {
    match c
    case TooBig => E2Big
    case Fault => EFault
    case NoMemory => ENoMem
  }

  // When execve gets past the strings.
  predicate Starts(path: UserPtr, argv: UserVec, envp: UserVec, room: Room) {
    && path.inRange && |path.text| + 1 <= EXEC_MAX_PATH && room.path
    && Acceptable(argv, EXEC_MAX_ARG_BYTES, room.args)
    && Acceptable(envp, EXEC_MAX_ARG_BYTES - Bytes(Given(argv)), room.envs)
    && (Given(argv) == [] ==> room.spare)
  }

  // The strings execve takes from the program: its own, unaltered and in order, and they fit on a stack.
  method TakeStrings(path: UserPtr, argv: UserVec, envp: UserVec, room: Room) returns (r: Strings)
    requires CString(path.text) && CStrings(Given(argv)) && CStrings(Given(envp))
    ensures r.Taken? <==> Starts(path, argv, envp, room)
    ensures r.ENameTooLong? <==> path.inRange && |path.text| + 1 > 4096
    ensures r.Taken? ==> Bytes(Given(argv)) + Bytes(r.envs) <= 262144 && |Given(argv)| <= 1024 && |r.envs| <= 1024
    ensures r.Taken? ==>
              && r.args == ExecArgs(Given(argv), path.text) != [] && r.envs == Given(envp)
              && CStrings(r.args) && CStrings(r.envs) && Needed(Named(r.args), r.envs) <= STACK_SIZE / 16
  {
    hide CopyVec, Acceptable, Needed;
    if !path.inRange {
      return EFault;
    }
    if |path.text| + 1 > EXEC_MAX_PATH {
      return ENameTooLong;
    }
    if !room.path {
      return ENoMem;
    }
    VecAccepts(argv, EXEC_MAX_ARG_BYTES, room.args);
    var copied := CopyStrvec(argv, EXEC_MAX_ARG_BYTES, room.args);
    if !copied.Copied? {
      return Refusal(copied);
    }
    VecAccepts(envp, copied.budget, room.envs);
    var copiedEnv := CopyStrvec(envp, copied.budget, room.envs);
    if !copiedEnv.Copied? {
      return Refusal(copiedEnv);
    }
    var args := copied.texts;
    if args == [] {
      if !room.spare {
        return ENoMem;
      }
      args := [path.text];
    }
    AcceptedFits(argv, envp, path.text, room.args, room.envs);
    return Taken(args, copiedEnv.texts);
  }
}
