/** The firmware memory map and the loop that takes a range out of its usable regions while
    appending entries to the very map it scans. */
module MemoryMap {
  import opened Sizes

  const MAX_ENTRIES: nat := 64
  const AVAILABLE: nat := 1
  const RESERVED: nat := 2

  datatype Entry = Entry(addr: nat, len: nat, kind: nat) {
    predicate Offers(a: int) { kind == AVAILABLE && addr <= a < addr + len }
  }

  // Address a lies in a usable entry at an index in [lo, hi).
  ghost predicate Usable(es: seq<Entry>, lo: nat, hi: nat, a: int)
    requires hi <= |es|
  {
    exists j :: lo <= j < hi && es[j].Offers(a)
  }

  // The reserved range lies strictly inside a usable entry, which it therefore splits in two.
  predicate Splits(e: Entry, start: nat, end: nat) {
    e.kind == AVAILABLE && e.addr < start && end < e.addr + e.len
  }

  // What becomes of an entry the scan has passed; the upper part of a split one is appended.
  function Left(e: Entry, start: nat, end: nat): Entry {
    if e.kind != AVAILABLE || end <= e.addr || start >= e.addr + e.len then e
    else if start <= e.addr then
      if end >= e.addr + e.len then Entry(e.addr, e.len, RESERVED) else Entry(end, e.addr + e.len - end, e.kind)
    else Entry(e.addr, start - e.addr, e.kind)
  }

  ghost function SplitCount(es: seq<Entry>, start: nat, end: nat): nat {
    if es == [] then 0
    else SplitCount(es[..|es| - 1], start, end) + (if Splits(es[|es| - 1], start, end) then 1 else 0)
  }

  // An entry passed by offers what it offered outside the range; cut down it keeps its kind, and one
  // the range covers is reserved.
  lemma LeftIs(e: Entry, start: nat, end: nat)
    requires start < end
    ensures e.kind != 1 || end <= e.addr || start >= e.addr + e.len ==> Left(e, start, end) == e
    ensures e.kind == 1 && start <= e.addr && e.addr + e.len <= end && start < e.addr + e.len && e.addr < end ==>
              Left(e, start, end) == Entry(e.addr, e.len, 2)
    ensures e.kind == 1 && start <= e.addr < end < e.addr + e.len ==> Left(e, start, end) == Entry(end, e.addr + e.len - end, 1)
    ensures e.kind == 1 && e.addr < start < e.addr + e.len ==> Left(e, start, end) == Entry(e.addr, start - e.addr, 1)
  {
  }

  // As many entries are split as are usable and reach beyond the range on both sides.
  lemma {:induction false} SplitCountIs(es: seq<Entry>, start: nat, end: nat)
    ensures SplitCount(es, start, end)
         == |set j | 0 <= j < |es| && es[j].kind == 1 && es[j].addr < start && end < es[j].addr + es[j].len|
    decreases |es|
  {
    if es != [] {
      var n, fs := |es| - 1, es[..|es| - 1];
      SplitCountIs(fs, start, end);
      var few := set j | 0 <= j < |fs| && fs[j].kind == 1 && fs[j].addr < start && end < fs[j].addr + fs[j].len;
      var all := set j | 0 <= j < |es| && es[j].kind == 1 && es[j].addr < start && end < es[j].addr + es[j].len;
      assert all == few + if Splits(es[n], start, end) then {n} else {};
    }
  }

  lemma {:induction false} SplitCountGrows(es: seq<Entry>, start: nat, end: nat, i: nat, j: nat)
    requires i <= j <= |es|
    ensures SplitCount(es[..i], start, end) <= SplitCount(es[..j], start, end)
    decreases j
  {
    if i < j {
      assert es[..j][..j - 1] == es[..j - 1];
      SplitCountGrows(es, start, end, i, j - 1);
    }
  }

  class Map {
    const entries: array<Entry>
    var count: nat

    ghost predicate Valid()
      reads this, entries
    {
      && entries.Length == MAX_ENTRIES && count <= MAX_ENTRIES
      && forall j :: 0 <= j < count ==> entries[j].addr + entries[j].len < WORD
    }

    constructor (es: seq<Entry>)
      requires |es| <= MAX_ENTRIES
      requires forall j :: 0 <= j < |es| ==> es[j].addr + es[j].len < WORD
      ensures Valid() && fresh(entries) && entries[..count] == es
    {
      entries := new Entry[MAX_ENTRIES](i => if 0 <= i < |es| then es[i] else Entry(0, 0, 0));
      count := |es|;
    }

    // True stands for the source's 0, false for its -1. On -1 the entries before the one that found
    // the map full have been cut, but the whole range is as usable as it was.
    method Reserve(start: nat, end: nat) returns (ok: bool, ghost reached: nat)
      requires Valid()
      modifies this, entries
      ensures Valid()
      ensures ok <==> start >= end || old(count) + SplitCount(old(entries[..count]), start, end) <= 64
      ensures forall a :: Usable(entries[..], 0, count, a) <==>
                old(Usable(entries[..], 0, count, a)) && !(ok && start <= a < end)
      ensures !ok ==> forall a :: start <= a < end ==> Usable(entries[..], 0, count, a)
      ensures reached <= old(count) <= count && (ok && start < end ==> reached == old(count))
      ensures !ok ==> reached < old(count) && Splits(old(entries[..])[reached], start, end)
      ensures ok ==> forall j :: old(count) <= j < count ==> entries[j].addr == end && entries[j].kind == 1
      ensures forall j :: 0 <= j < old(count) ==>
                entries[j] == if j < reached then Left(old(entries[j]), start, end) else old(entries[j])
    {
      if start >= end {
        return true, 0;
      }
      ghost var n, es := count, entries[..];
      NothingDone(es, start, end, n);
      var i := 0;
      while i < count
        invariant Valid() && n <= count && i <= count
        invariant Scanned(es, entries[..], start, end, i, n, count)
        decreases MAX_ENTRIES - i
      {
        ok := Visit(i, start, end, es, n);
        if !ok {
          SplitCountGrows(es, start, end, i + 1, n);
          assert es[..n] == old(entries[..count]);
          return false, i;
        }
        i := i + 1;
      }
      assert es[..n] == old(entries[..count]);
      AllDone(es, entries[..], start, end, n, count);
      return true, n;
    }

    // The loop's body: one entry looked at, cut down or split; false when the map is full.
    method Visit(i: nat, start: nat, end: nat, ghost es: seq<Entry>, ghost n: nat) returns (ok: bool)
      requires Valid() && start < end && i < count && n <= count && |es| == MAX_ENTRIES
      requires Scanned(es, entries[..], start, end, i, n, count)
      modifies this, entries
      ensures Valid() && n <= count && old(count) <= count
      ensures ok ==> Scanned(es, entries[..], start, end, i + 1, n, count)
      ensures !ok ==> i < n && n + SplitCount(es[..i + 1], start, end) > MAX_ENTRIES && Splits(es[i], start, end)
      ensures !ok ==> unchanged(this, entries) && AsBefore(es, entries[..], start, end, n, count)
    {
      hide Scanned, AsBefore, Left;
      ghost var was, before := entries[..], count;
      AtHand(es, was, start, end, i, n, before);
      var e := entries[i];
      if e.kind != AVAILABLE || end <= e.addr || start >= e.addr + e.len {
        PassEntry(es, was, start, end, i, n, count);
        return true;
      }
      ok := CutAt(i, start, end);
      if ok {
        PassCut(es, was, entries[..], start, end, i, n, before, count);
      } else {
        assert entries[..] == was;
        MapFull(es, was, start, end, i, n);
      }
    }

    // The usable entry i, which meets the range, turned into what is left of it.
    method CutAt(i: nat, start: nat, end: nat) returns (ok: bool)
      requires Valid() && start < end && i < count
      requires var e := entries[i]; e.kind == AVAILABLE && start < e.addr + e.len && e.addr < end
      modifies this, entries
      ensures Valid()
      ensures ok <==> !(Splits(old(entries[i]), start, end) && old(count) == MAX_ENTRIES)
      ensures !ok ==> unchanged(this, entries)
      ensures ok ==> forall j :: 0 <= j < old(count) && j != i ==> entries[j] == old(entries[j])
      ensures ok ==> var e := old(entries[i]);
                     && entries[i] == Left(e, start, end)
                     && count == old(count) + (if Splits(e, start, end) then 1 else 0)
                     && (Splits(e, start, end) ==> entries[old(count)] == Entry(end, e.addr + e.len - end, AVAILABLE))
    {
      var e := entries[i];
      var regionStart := e.addr;
      var regionEnd := e.addr + e.len;
      if start <= regionStart && end >= regionEnd {
        entries[i] := Entry(e.addr, e.len, RESERVED);
      } else if start <= regionStart && end < regionEnd {
        entries[i] := Entry(end, regionEnd - end, e.kind);
      } else if start > regionStart && end >= regionEnd {
        entries[i] := Entry(e.addr, start - regionStart, e.kind);
      } else {
        if count >= MAX_ENTRIES {
          return false;
        }
        entries[i] := Entry(e.addr, start - regionStart, e.kind);
        entries[count] := Entry(end, regionEnd - end, AVAILABLE);
        count := count + 1;
      }
      return true;
    }
  }

  // How far the scan has come: the first d = min(i, n) original entries stand for their old
  // addresses outside the range, together with what was appended; the others are untouched.
  ghost predicate Scanned(es: seq<Entry>, now: seq<Entry>, start: nat, end: nat, i: nat, n: nat, count: nat)
    requires n <= count <= |now| && n <= |es|
  {
    var d := if i < n then i else n;
    && (forall j :: 0 <= j < n ==> now[j] == if j < i then Left(es[j], start, end) else es[j])
    && (forall j :: n <= j < count ==> now[j].addr == end && now[j].kind == AVAILABLE)
    && count == n + SplitCount(es[..d], start, end)
    && DoneTo(es, now, start, end, d, n, count)
  }

  // What holds when the map was full: the same addresses are usable, all those of the range among them.
  ghost predicate AsBefore(es: seq<Entry>, now: seq<Entry>, start: nat, end: nat, n: nat, count: nat)
    requires n <= |es| && count <= |now|
  {
    && (forall a :: Usable(now, 0, count, a) <==> Usable(es, 0, n, a))
    && (forall a :: start <= a < end ==> Usable(now, 0, count, a))
  }

  lemma NothingDone(es: seq<Entry>, start: nat, end: nat, n: nat)
    requires n <= |es|
    ensures Scanned(es, es, start, end, 0, n, n)
  {
    assert forall a :: !Usable(es, 0, 0, a) && !Usable(es, n, n, a);
  }

  lemma AllDone(es: seq<Entry>, now: seq<Entry>, start: nat, end: nat, n: nat, count: nat)
    requires n <= count <= |now| && n <= |es|
    requires DoneTo(es, now, start, end, n, n, count)
    ensures forall a :: Usable(now, 0, count, a) <==> Usable(es, 0, n, a) && !(start <= a < end)
  {
    forall a: int
      ensures Usable(now, 0, count, a) <==> Usable(es, 0, n, a) && !(start <= a < end)
    {
      assert Usable(now, 0, count, a) <==> Usable(now, 0, n, a) || Usable(now, n, count, a);
    }
  }

  ghost predicate DoneTo(es: seq<Entry>, now: seq<Entry>, start: nat, end: nat, d: nat, n: nat, count: nat)
    requires d <= n <= count <= |now| && n <= |es|
  {
    forall a :: Usable(now, 0, d, a) || Usable(now, n, count, a) <==> Usable(es, 0, d, a) && !(start <= a < end)
  }

  lemma KeptEntry(es: seq<Entry>, now: seq<Entry>, start: nat, end: nat, i: nat, n: nat, count: nat)
    requires n <= count <= |now| && n <= |es| && i < count
    requires DoneTo(es, now, start, end, if i < n then i else n, n, count)
    requires i < n ==> now[i] == es[i]
    requires now[i].kind == AVAILABLE ==> end <= now[i].addr || start >= now[i].addr + now[i].len
    ensures DoneTo(es, now, start, end, if i + 1 < n then i + 1 else n, n, count)
  {
    if i < n {
      forall a: int
        ensures Usable(now, 0, i + 1, a) || Usable(now, n, count, a) <==> Usable(es, 0, i + 1, a) && !(start <= a < end)
      {
        UsableNext(now, i, a);
        UsableNext(es, i, a);
      }
    }
  }

  // The entry the scan looks at next is an original one, or was appended and lies behind the range.
  lemma AtHand(es: seq<Entry>, now: seq<Entry>, start: nat, end: nat, i: nat, n: nat, count: nat)
    requires n <= count <= |now| && n <= |es| && i < count && Scanned(es, now, start, end, i, n, count)
    ensures i < n ==> now[i] == es[i]
    ensures i >= n ==> now[i].addr == end
  {
  }

  lemma PassEntry(es: seq<Entry>, now: seq<Entry>, start: nat, end: nat, i: nat, n: nat, count: nat)
    requires n <= count <= |now| && n <= |es| && i < count && start < end && Scanned(es, now, start, end, i, n, count)
    requires now[i].kind == AVAILABLE ==> end <= now[i].addr || start >= now[i].addr + now[i].len
    ensures Scanned(es, now, start, end, i + 1, n, count)
  {
    hide DoneTo;
    AtHand(es, now, start, end, i, n, count);
    KeptEntry(es, now, start, end, i, n, count);
    if i < n {
      assert es[..i + 1][..i] == es[..i];
    }
  }

  lemma PassCut(es: seq<Entry>, was: seq<Entry>, now: seq<Entry>, start: nat, end: nat, i: nat, n: nat, before: nat, count: nat)
    requires i < n <= before <= count <= |now| == |was| && n <= |es| && was[i] == es[i] && start < end
    requires Scanned(es, was, start, end, i, n, before)
    requires es[i].kind == AVAILABLE && start < es[i].addr + es[i].len && es[i].addr < end
    requires forall j :: 0 <= j < before && j != i ==> now[j] == was[j]
    requires now[i] == Left(es[i], start, end) && count == before + (if Splits(es[i], start, end) then 1 else 0)
    requires Splits(es[i], start, end) ==> now[before] == Entry(end, es[i].addr + es[i].len - end, AVAILABLE)
    ensures Scanned(es, now, start, end, i + 1, n, count)
  {
    hide DoneTo;
    CutEntry(es, was, now, start, end, i, n, before, count);
    assert es[..i + 1][..i] == es[..i];
  }

  lemma MapFull(es: seq<Entry>, now: seq<Entry>, start: nat, end: nat, i: nat, n: nat)
    requires i < n <= |now| && n <= |es| && Splits(es[i], start, end) && Scanned(es, now, start, end, i, n, |now|)
    ensures AsBefore(es, now, start, end, n, |now|) && n + SplitCount(es[..i + 1], start, end) > |now|
  {
    hide DoneTo, AsBefore;
    FullMap(es, now, start, end, i, n);
    assert es[..i + 1][..i] == es[..i];
  }

  lemma UsableNext(es: seq<Entry>, i: nat, a: int)
    requires i < |es|
    ensures Usable(es, 0, i + 1, a) <==> Usable(es, 0, i, a) || es[i].Offers(a)
  {
  }

  // One usable entry cut down to what lies outside the range, its upper part appended.
  lemma CutEntry(es: seq<Entry>, was: seq<Entry>, now: seq<Entry>, start: nat, end: nat, i: nat, n: nat, before: nat, count: nat)
    requires i < n <= before <= count <= |now| == |was| && n <= |es| && was[i] == es[i]
    requires DoneTo(es, was, start, end, i, n, before)
    requires forall j :: 0 <= j < before && j != i ==> now[j] == was[j]
    requires count <= before + 1
    requires forall a :: now[i].Offers(a) || (count > before && now[before].Offers(a)) <==> es[i].Offers(a) && !(start <= a < end)
    ensures DoneTo(es, now, start, end, i + 1, n, count)
  {
    forall a: int
      ensures Usable(now, 0, i + 1, a) || Usable(now, n, count, a) <==> Usable(es, 0, i + 1, a) && !(start <= a < end)
    {
      UsableNext(now, i, a);
      UsableNext(es, i, a);
      UsableSame(was, now, 0, i, a);
      UsableSame(was, now, n, before, a);
      assert Usable(now, n, count, a) <==> Usable(now, n, before, a) || (count > before && now[before].Offers(a));
    }
  }

  lemma UsableSame(was: seq<Entry>, now: seq<Entry>, lo: nat, hi: nat, a: int)
    requires hi <= |was| == |now|
    requires forall j :: lo <= j < hi ==> now[j] == was[j]
    ensures Usable(was, lo, hi, a) <==> Usable(now, lo, hi, a)
  {
    if j :| lo <= j < hi && was[j].Offers(a) {
      assert now[j].Offers(a);
    }
    if j :| lo <= j < hi && now[j].Offers(a) {
      assert was[j].Offers(a);
    }
  }

  // When the map is full nothing has been gained or lost: the range lies in the entry at hand.
  lemma FullMap(es: seq<Entry>, now: seq<Entry>, start: nat, end: nat, i: nat, n: nat)
    requires i < n <= |now| && n <= |es| && Splits(es[i], start, end)
    requires DoneTo(es, now, start, end, i, n, |now|)
    requires forall j :: i <= j < n ==> now[j] == es[j]
    ensures AsBefore(es, now, start, end, n, |now|)
  {
    forall a: int
      ensures Usable(now, 0, |now|, a) <==> Usable(es, 0, n, a)
      ensures start <= a < end ==> Usable(now, 0, |now|, a)
    {
      assert start <= a < end ==> now[i].Offers(a) && es[i].Offers(a);
      assert Usable(es, 0, n, a) <==> Usable(es, 0, i, a) || Usable(es, i, n, a);
      assert Usable(now, 0, |now|, a) <==> Usable(now, 0, i, a) || Usable(now, i, n, a) || Usable(now, n, |now|, a);
      UsableSame(es[..n], now[..n], i, n, a);
      assert Usable(es[..n], i, n, a) <==> Usable(es, i, n, a);
      assert Usable(now[..n], i, n, a) <==> Usable(now, i, n, a);
    }
  }

  // 64 entries: one overlapping the range 0x2000..0x4000 from below, one around it, and no usable others.
  function CrowdedMap(): (es: seq<Entry>)
    ensures |es| == MAX_ENTRIES
  {
    [Entry(0x1000, 0x2000, AVAILABLE), Entry(0, 0x1_0000, AVAILABLE)] + seq(MAX_ENTRIES - 2, i => Entry(0, 0, RESERVED))
  }

  // With the map full the call fails, its first entry has been cut already, and the range is still usable.
  method HalfReserved() returns (m: Map, ok: bool)
    ensures fresh(m) && m.Valid() && !ok
    ensures m.entries[0] == Entry(0x1000, 0x1000, AVAILABLE) && m.entries[1] == Entry(0, 0x1_0000, AVAILABLE)
    ensures forall a :: 0x2000 <= a < 0x4000 ==> Usable(m.entries[..], 0, m.count, a)
  {
    var es := CrowdedMap();
    m := new Map(es);
    assert m.entries[..] == es;
    assert SplitCount(es[..2], 0x2000, 0x4000) == 1 by {
      var first := es[..1];
      assert first[..0] == [] && SplitCount(first, 0x2000, 0x4000) == 0;
      assert es[..2][..1] == first;
    }
    SplitCountGrows(es, 0x2000, 0x4000, 2, MAX_ENTRIES);
    assert es[..MAX_ENTRIES] == es;
    ghost var reached;
    ok, reached := m.Reserve(0x2000, 0x4000);
  }
}
