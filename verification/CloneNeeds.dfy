/** What copying an address space asks of the heap: the requests, in their order, that the tables of
    the source make necessary, and what becomes of the heap as they are met. */
module CloneNeeds {
  import opened Sizes
  import opened Wrappers
  import opened PteInterface
  import opened PageTree
  import opened Vmm
  import opened VmmFree
  import HB = HeapBlocks

  // What is being copied: the memory and heap at the start, and the addresses to skip.
  datatype Job<!W> = Job(m: Mmu<W>, mem: Memory<W>, held: Hold, lo: nat, hi: nat)

  predicate Skipped(lo: nat, hi: nat, p: nat) {
    lo <= p * PAGE < hi
  }

  // ---- which pages an entry covers ----

  // A table's pages start at a multiple of what a table at its level spans.
  predicate TableBase(base: nat, level: nat) {
    level <= PT_TOP_LEVEL && base % (PT_ENTRIES * Span(level)) == 0
  }

  function EntryBase(base: nat, level: nat, i: nat): nat {
    base + i * Span(level)
  }

  lemma EntryOf(base: nat, level: nat, i: nat, p: nat)
    requires TableBase(base, level) && i < PT_ENTRIES
    requires EntryBase(base, level, i) <= p < EntryBase(base, level, i) + Span(level)
    ensures Index(p * PAGE, level) == i
  {
    var s := Span(level);
    var d := base / (PT_ENTRIES * s);
    Distribute(s, d, i);
    QuotientIs(p, s, PT_ENTRIES * d + i);
    assert p * PAGE / PAGE == p;
    assert (PT_ENTRIES * d + i) % PT_ENTRIES == i;
  }

  lemma QuotientIs(p: nat, s: nat, q: nat)
    requires s > 0 && s * q <= p < s * q + s
    ensures p / s == q
  {
    var e := p / s;
    assert p == s * e + p % s;
    if e < q {
      Ordered(s, e, q);
    } else if e > q {
      Ordered(s, q, e);
    }
  }

  lemma EntryIsBase(base: nat, level: nat, i: nat)
    requires TableBase(base, level) && 0 < level
    ensures TableBase(EntryBase(base, level, i), level - 1)
  {
    var s := Span(level);
    var d := base / (PT_ENTRIES * s);
    assert PT_ENTRIES * Span(level - 1) == s;
    Distribute(s, d, i);
    Quotient(EntryBase(base, level, i), s, PT_ENTRIES * d + i, 0);
  }

  lemma Grows(s: nat, i: nat, k: nat)
    requires i <= k
    ensures s * i <= s * k
  {
  }

  // The entry a page of the first i entries belongs to.
  lemma EntryBefore(base: nat, level: nat, i: nat, p: nat)
    requires TableBase(base, level) && i <= PT_ENTRIES
    requires base <= p < EntryBase(base, level, i)
    ensures Index(p * PAGE, level) < i
  {
    var k := (p - base) / Span(level);
    assert p - base == Span(level) * k + (p - base) % Span(level);
    assert k < i by {
      if i <= k {
        Grows(Span(level), i, k);
      }
    }
    EntryOf(base, level, k, p);
  }

  lemma EntriesAscend(base: nat, level: nat, i: nat)
    ensures base <= EntryBase(base, level, i) <= EntryBase(base, level, i + 1)
    ensures EntryBase(base, level, i + 1) == EntryBase(base, level, i) + Span(level)
  {
  }

  lemma WholeEntry(base: nat, level: nat, i: nat)
    requires 0 < level <= PT_TOP_LEVEL
    ensures EntryBase(EntryBase(base, level, i), level - 1, PT_ENTRIES) == EntryBase(base, level, i + 1)
    ensures EntryBase(base, level, i) + PT_ENTRIES * Span(level - 1) == EntryBase(base, level, i + 1)
  {
  }

  lemma Inside(base: nat, level: nat, n: nat, i: nat, p: nat)
    requires i < n && EntryBase(base, level, i) <= p < EntryBase(base, level, i + 1)
    ensures base <= p < base + n * Span(level)
  {
    Grows(Span(level), i + 1, n);
  }

  lemma UserEnd()
    ensures EntryBase(0, PT_TOP_LEVEL, USER) == USER * Span(PT_TOP_LEVEL)
  {
  }

  // The translation of page number p below a table.
  ghost function At<W>(m: Mmu<W>, mem: Memory<W>, f: nat, level: nat, p: nat): Option<Mapping> {
    Translate(m, mem, f, level, p * PAGE)
  }

  // What a table says about a page is what the child's table says, as far as the entry lets it through.
  lemma AtChild<W>(m: Mmu<W>, mem: Memory<W>, t: nat, level: nat, base: nat, i: nat, p: nat)
    requires TableBase(base, level) && level > 0 && i < PT_ENTRIES && IsTable(m, Word(m, mem, t, i), level)
    requires EntryBase(base, level, i) <= p < EntryBase(base, level, i + 1)
    ensures var w := Word(m, mem, t, i);
            && At(m, mem, t, level, p) == Through(m.passes(w), At(m, mem, m.phys(w), level - 1, p))
            && (Open(m.passes(w)) ==> At(m, mem, t, level, p) == At(m, mem, m.phys(w), level - 1, p))
  {
    hide TableBase, EntryBase, Index;
    EntriesAscend(base, level, i);
    EntryOf(base, level, i, p);
  }

  // ---- requests and how they are met ----

  // A page for a table, or a page of user memory that is entered in the owned list as well.
  datatype Need = ForTable | ForPage

  ghost function Meet(s: Stock, need: Need): Option<Stock> {
    var (bs, p) := HB.PageAlloc(s.bs, 1);
    if p == 0 then None else if need.ForTable? then Some(s.(bs := bs)) else Listing(s.(bs := bs))
  }

  // All of them, one after another; None if one of them fails.
  ghost function MeetAll(s: Stock, needs: seq<Need>): Option<Stock>
    decreases |needs|
  {
    if needs == [] then Some(s)
    else
      match MeetAll(s, needs[..|needs| - 1])
      case None => None
      case Some(t) => Meet(t, needs[|needs| - 1])
  }

  lemma {:induction false} MeetMore(s: Stock, a: seq<Need>, b: seq<Need>)
    ensures MeetAll(s, a + b) == if MeetAll(s, a).Some? then MeetAll(MeetAll(s, a).value, b) else None
    decreases |b|
  {
    hide Meet;
    if b == [] {
      assert a + b == a;
    } else {
      var n := |b| - 1;
      assert (a + b)[..|a + b| - 1] == a + b[..n];
      MeetMore(s, a, b[..n]);
    }
  }

  lemma MeetOne(s: Stock, need: Need)
    ensures MeetAll(s, [need]) == Meet(s, need)
  {
    hide Meet;
    assert [need][..0] == [];
    assert MeetAll(s, []) == Some(s);
  }

  // ---- what the tables of the source make necessary ----

  // A table whose pages are all skipped is not copied.
  predicate WhollySkipped(lo: nat, hi: nat, from: nat, level: nat) {
    lo <= from * PAGE && (from + Span(level)) * PAGE <= hi
  }

  // The requests for the first n entries of a table.
  ghost function Needs<W>(j: Job<W>, t: nat, level: nat, base: nat, n: nat): seq<Need>
    decreases level, 1, n
  {
    if n == 0 then [] else Needs(j, t, level, base, n - 1) + EntryNeeds(j, t, level, base, n - 1)
  }

  ghost function EntryNeeds<W>(j: Job<W>, t: nat, level: nat, base: nat, i: nat): seq<Need>
    decreases level, 0, 0
  {
    var w, from := Word(j.m, j.mem, t, i), EntryBase(base, level, i);
    if !j.m.present(w) then []
    else if level == 0 then if Skipped(j.lo, j.hi, from) then [] else [ForPage]
    else if j.m.isLeaf(w, level) || WhollySkipped(j.lo, j.hi, from, level) then []
    else [ForTable] + Needs(j, j.m.phys(w), level - 1, from, PT_ENTRIES)
  }

  // No huge page is met among them.
  ghost predicate Clear<W>(j: Job<W>, t: nat, level: nat, base: nat, n: nat)
    decreases level, 1, n
  {
    n == 0 || (Clear(j, t, level, base, n - 1) && EntryClear(j, t, level, base, n - 1))
  }

  ghost predicate EntryClear<W>(j: Job<W>, t: nat, level: nat, base: nat, i: nat)
    decreases level, 0, 0
  {
    var w, from := Word(j.m, j.mem, t, i), EntryBase(base, level, i);
    j.m.present(w) && level > 0 ==>
      !j.m.isLeaf(w, level)
      && (WhollySkipped(j.lo, j.hi, from, level) || Clear(j, j.m.phys(w), level - 1, from, PT_ENTRIES))
  }

  // An entry's requests, by the address it stands for and the bytes it spans: one for a page outside the
  // range; none where nothing is, or where a table's addresses all lie in the range; else one for the
  // table and then its own.
  lemma EntryAsks<W>(j: Job<W>, t: nat, level: nat, base: nat, i: nat)
    ensures var w := Word(j.m, j.mem, t, i);
            var va := (base + i * Span(level)) * 4096;
            var size := Span(level) * 4096;
            var needs := EntryNeeds(j, t, level, base, i);
            && (!j.m.present(w) ==> needs == [])
            && (j.m.present(w) && level == 0 ==> needs == if j.lo <= va < j.hi then [] else [ForPage])
            && (IsTable(j.m, w, level) && j.lo <= va && va + size <= j.hi ==> needs == [])
            && (IsTable(j.m, w, level) && !(j.lo <= va && va + size <= j.hi) ==>
                  needs == [ForTable] + Needs(j, j.m.phys(w), level - 1, base + i * Span(level), 512))
  {
    hide Span, Needs;
    assert EntryBase(base, level, i) == base + i * Span(level);
  }

  // What copying the first n entries, or one of them, makes of the heap; None if it fails.
  ghost function Outcome<W>(j: Job<W>, s: Stock, t: nat, level: nat, base: nat, n: nat): Option<Stock> {
    if Clear(j, t, level, base, n) then MeetAll(s, Needs(j, t, level, base, n)) else None
  }

  ghost function EntryOutcome<W>(j: Job<W>, s: Stock, t: nat, level: nat, base: nat, i: nat): Option<Stock> {
    if EntryClear(j, t, level, base, i) then MeetAll(s, EntryNeeds(j, t, level, base, i)) else None
  }

  lemma OutcomeStart<W>(j: Job<W>, s: Stock, t: nat, level: nat, base: nat)
    ensures Outcome(j, s, t, level, base, 0) == Some(s)
  {
  }

  lemma OutcomeNext<W>(j: Job<W>, s: Stock, t: nat, level: nat, base: nat, i: nat)
    ensures Outcome(j, s, t, level, base, i + 1)
         == match Outcome(j, s, t, level, base, i)
            case None => None
            case Some(s1) => EntryOutcome(j, s1, t, level, base, i)
  {
    hide MeetAll, EntryNeeds, EntryClear;
    MeetMore(s, Needs(j, t, level, base, i), EntryNeeds(j, t, level, base, i));
  }

  // What fails for some entries fails for more.
  lemma {:induction false} OutcomeNone<W>(j: Job<W>, s: Stock, t: nat, level: nat, base: nat, i: nat, n: nat)
    requires i <= n && Outcome(j, s, t, level, base, i).None?
    ensures Outcome(j, s, t, level, base, n).None?
    decreases n
  {
    hide Outcome;
    if i < n {
      OutcomeNone(j, s, t, level, base, i, n - 1);
      OutcomeNext(j, s, t, level, base, n - 1);
    }
  }

  // A table under an entry: a page for it, and then what it makes necessary itself.
  lemma ChildOutcome<W>(j: Job<W>, s: Stock, t: nat, level: nat, base: nat, i: nat)
    requires level > 0 && IsTable(j.m, Word(j.m, j.mem, t, i), level)
    requires !WhollySkipped(j.lo, j.hi, EntryBase(base, level, i), level)
    ensures EntryOutcome(j, s, t, level, base, i)
         == match Meet(s, ForTable)
            case None => None
            case Some(s1) => Outcome(j, s1, j.m.phys(Word(j.m, j.mem, t, i)), level - 1, EntryBase(base, level, i), PT_ENTRIES)
  {
    hide Meet, MeetAll, Needs, Clear, EntryBase, WhollySkipped;
    MeetOne(s, ForTable);
    MeetMore(s, [ForTable], Needs(j, j.m.phys(Word(j.m, j.mem, t, i)), level - 1, EntryBase(base, level, i), PT_ENTRIES));
  }

  // ---- huge pages, page by page ----

  // A leaf above the lowest level maps page p, and the tables above the leaf are copied.
  ghost predicate HugeMet<W>(j: Job<W>, t: nat, level: nat, p: nat)
    decreases level
  {
    level > 0 &&
    var w := Word(j.m, j.mem, t, Index(p * PAGE, level));
    j.m.present(w)
    && (j.m.isLeaf(w, level)
        || (!WhollySkipped(j.lo, j.hi, Start(p, level), level) && HugeMet(j, j.m.phys(w), level - 1, p)))
  }

  lemma {:induction false} ClearMeans<W>(j: Job<W>, t: nat, level: nat, base: nat, n: nat)
    requires TableBase(base, level) && level <= PT_TOP_LEVEL && n <= PT_ENTRIES
    ensures Clear(j, t, level, base, n) <==> forall p :: base <= p < EntryBase(base, level, n) ==> !HugeMet(j, t, level, p)
    decreases level, 1, n
  {
    hide HugeMet, EntryClear, TableBase, EntryBase;
    if n == 0 {
      NoEntries(base, level);
    } else {
      ClearMeans(j, t, level, base, n - 1);
      EntryClearMeans(j, t, level, base, n - 1);
      EntriesAscend(base, level, n - 1);
      EntriesFrom(base, level, n - 1);
    }
  }

  lemma NoEntries(base: nat, level: nat)
    ensures EntryBase(base, level, 0) == base
  {
  }

  lemma EntriesFrom(base: nat, level: nat, i: nat)
    ensures base <= EntryBase(base, level, i)
  {
  }

  lemma {:induction false} EntryClearMeans<W>(j: Job<W>, t: nat, level: nat, base: nat, i: nat)
    requires TableBase(base, level) && level <= PT_TOP_LEVEL && i < PT_ENTRIES
    ensures EntryClear(j, t, level, base, i)
       <==> forall p :: EntryBase(base, level, i) <= p < EntryBase(base, level, i + 1) ==> !HugeMet(j, t, level, p)
    decreases level, 0, 0
  {
    hide TableBase, EntryBase, Clear, WhollySkipped;
    var from, to, k := EntryBase(base, level, i), EntryBase(base, level, i + 1), level - 1;
    EntriesAscend(base, level, i);
    SpanPositive(level);
    var w := Word(j.m, j.mem, t, i);
    var huge := level > 0 && j.m.present(w) && j.m.isLeaf(w, level);
    if level > 0 && j.m.present(w) && !huge && !WhollySkipped(j.lo, j.hi, from, level) {
      EntryIsBase(base, level, i);
      WholeEntry(base, level, i);
      ClearMeans(j, j.m.phys(w), k, from, PT_ENTRIES);
      if Clear(j, j.m.phys(w), k, from, PT_ENTRIES) {
        forall p | from <= p < to ensures !HugeMet(j, t, level, p) {
          HugeEntry(j, t, level, base, i, p);
        }
      } else {
        var p :| from <= p < to && HugeMet(j, j.m.phys(w), k, p);
        HugeEntry(j, t, level, base, i, p);
      }
    } else if huge {
      HugeEntry(j, t, level, base, i, from);
      assert from <= from < to && HugeMet(j, t, level, from);
    } else {
      forall p | from <= p < to ensures !HugeMet(j, t, level, p) {
        HugeEntry(j, t, level, base, i, p);
      }
      assert EntryClear(j, t, level, base, i);
    }
  }

  lemma HugeEntry<W>(j: Job<W>, t: nat, level: nat, base: nat, i: nat, p: nat)
    requires TableBase(base, level) && i < PT_ENTRIES
    requires EntryBase(base, level, i) <= p < EntryBase(base, level, i) + Span(level)
    ensures var w := Word(j.m, j.mem, t, i);
            HugeMet(j, t, level, p) ==
              (level > 0 && j.m.present(w)
               && (j.m.isLeaf(w, level)
                   || (!WhollySkipped(j.lo, j.hi, EntryBase(base, level, i), level) && HugeMet(j, j.m.phys(w), level - 1, p))))
  {
    EntryOf(base, level, i, p);
    EntryStart(base, level, i, p);
  }

  lemma SpanPositive(level: nat)
    ensures Span(level) > 0
  {
  }

  lemma EntryStart(base: nat, level: nat, i: nat, p: nat)
    requires TableBase(base, level) && i < PT_ENTRIES
    requires EntryBase(base, level, i) <= p < EntryBase(base, level, i) + Span(level)
    ensures p / Span(level) * Span(level) == EntryBase(base, level, i)
  {
    var s := Span(level);
    var d := base / (PT_ENTRIES * s);
    Distribute(s, d, i);
    QuotientIs(p, s, PT_ENTRIES * d + i);
  }

  // A huge page is met for page p exactly if p's way ends in a leaf above the lowest level and none of
  // the tables on it is left out because all its addresses are skipped.
  lemma HugeMetMeans<W>(j: Job<W>, t: nat, level: nat, p: nat)
    ensures HugeMet(j, t, level, p) <==>
              exists s: nat, l: nat :: OnPath(j.m, j.mem, t, level, p * PAGE, s, l) && 0 < l <= level && HugeLeaf(j, s, l, p)
                                       && forall k :: l < k <= level ==> !(j.lo <= Start(p, k) * PAGE
                                                                           && (Start(p, k) + Span(k)) * PAGE <= j.hi)
  {
    hide HugeMet, OnPath, HugeLeaf, Start, Span;
    if HugeMet(j, t, level, p) {
      var s, l := HugeFound(j, t, level, p);
    }
    if s: nat, l: nat :| OnPath(j.m, j.mem, t, level, p * PAGE, s, l) && 0 < l <= level && HugeLeaf(j, s, l, p)
                         && forall k :: l < k <= level ==> !WhollySkipped(j.lo, j.hi, Start(p, k), k)
    {
      HugeLeads(j, t, level, p, s, l);
    }
  }

  // The first page of those an entry of level k covers along with page p.
  function Start(p: nat, k: nat): nat {
    p / Span(k) * Span(k)
  }

  lemma {:induction false} HugeFound<W>(j: Job<W>, t: nat, level: nat, p: nat) returns (s: nat, l: nat)
    requires HugeMet(j, t, level, p)
    ensures OnPath(j.m, j.mem, t, level, p * PAGE, s, l) && 0 < l <= level && HugeLeaf(j, s, l, p)
    ensures forall k :: l < k <= level ==> !WhollySkipped(j.lo, j.hi, Start(p, k), k)
    decreases level
  {
    hide Index, WhollySkipped, Span;
    var w := Word(j.m, j.mem, t, Index(p * PAGE, level));
    if j.m.isLeaf(w, level) {
      s, l := t, level;
    } else {
      s, l := HugeFound(j, j.m.phys(w), level - 1, p);
    }
  }

  lemma {:induction false} HugeLeads<W>(j: Job<W>, t: nat, level: nat, p: nat, s: nat, l: nat)
    requires OnPath(j.m, j.mem, t, level, p * PAGE, s, l) && 0 < l <= level && HugeLeaf(j, s, l, p)
    requires forall k :: l < k <= level ==> !WhollySkipped(j.lo, j.hi, Start(p, k), k)
    ensures HugeMet(j, t, level, p)
    decreases level
  {
    hide Index, WhollySkipped, Span;
    if l < level {
      HugeLeads(j, j.m.phys(Word(j.m, j.mem, t, Index(p * PAGE, level))), level - 1, p, s, l);
    }
  }

  ghost predicate HugeLeaf<W>(j: Job<W>, s: nat, l: nat, p: nat) {
    var w := Word(j.m, j.mem, s, Index(p * PAGE, l));
    j.m.present(w) && j.m.isLeaf(w, l)
  }

  // Nothing in the user half stops the copy but the heap.
  ghost predicate NoHugeMet<W>(j: Job<W>, src: nat) {
    forall p :: 0 <= p < USER * Span(PT_TOP_LEVEL) ==> !HugeMet(j, src, PT_TOP_LEVEL, p)
  }

  // The requests of a whole address space: a page for its root, and then what the user half needs.
  ghost function SpaceNeeds<W>(j: Job<W>, src: nat): seq<Need> {
    [ForTable] + Needs(j, src, PT_TOP_LEVEL, 0, USER)
  }

  lemma SpaceOutcome<W>(j: Job<W>, s: Stock, src: nat)
    ensures (if NoHugeMet(j, src) then MeetAll(s, SpaceNeeds(j, src)) else None)
         == if Meet(s, ForTable).Some? then Outcome(j, Meet(s, ForTable).value, src, PT_TOP_LEVEL, 0, USER) else None
  {
    hide Meet, MeetAll, Needs, HugeMet, Clear;
    MeetOne(s, ForTable);
    MeetMore(s, [ForTable], Needs(j, src, PT_TOP_LEVEL, 0, USER));
    RootClear(j, src);
  }

  lemma RootClear<W>(j: Job<W>, src: nat)
    ensures Clear(j, src, PT_TOP_LEVEL, 0, USER) <==> NoHugeMet(j, src)
  {
    hide Clear, EntryBase;
    assert TableBase(0, PT_TOP_LEVEL);
    UserEnd();
    var to := EntryBase(0, PT_TOP_LEVEL, USER);
    ClearMeans(j, src, PT_TOP_LEVEL, 0, USER);
    if Clear(j, src, PT_TOP_LEVEL, 0, USER) {
      forall p | 0 <= p < to ensures !HugeMet(j, src, PT_TOP_LEVEL, p) {
      }
      assert NoHugeMet(j, src);
    } else {
      var p :| 0 <= p < to && HugeMet(j, src, PT_TOP_LEVEL, p);
      assert !NoHugeMet(j, src);
    }
  }

  // ---- how many requests there are ----

  function Count(needs: seq<Need>, need: Need): nat {
    if needs == [] then 0 else Count(needs[..|needs| - 1], need) + (if needs[|needs| - 1] == need then 1 else 0)
  }

  lemma {:induction false} CountMore(a: seq<Need>, b: seq<Need>, need: Need)
    ensures Count(a + b, need) == Count(a, need) + Count(b, need)
    decreases |b|
  {
    if b == [] {
      assert a + b == a;
    } else {
      var n := |b| - 1;
      assert (a + b)[..|a + b| - 1] == a + b[..n];
      CountMore(a, b[..n], need);
    }
  }

  // The list is as much longer as there were requests for pages.
  lemma {:induction false} PagesListed(s: Stock, needs: seq<Need>)
    requires MeetAll(s, needs).Some?
    ensures MeetAll(s, needs).value.count == s.count + Count(needs, ForPage)
    decreases |needs|
  {
    hide HB.PageAlloc, HB.Malloc, HB.Free;
    if needs != [] {
      PagesListed(s, needs[..|needs| - 1]);
    }
  }

  // The pages to be copied: those mapped, from here to there, and not skipped.
  ghost function Wanted<W>(j: Job<W>, t: nat, level: nat, from: nat, to: nat): set<nat> {
    set p | from <= p < to && At(j.m, j.mem, t, level, p).Some? && !Skipped(j.lo, j.hi, p)
  }

  // One request for each of them.
  lemma {:induction false} PagesNeeded<W>(j: Job<W>, t: nat, level: nat, base: nat, n: nat)
    requires TableBase(base, level) && level <= PT_TOP_LEVEL && n <= PT_ENTRIES && Clear(j, t, level, base, n)
    ensures Count(Needs(j, t, level, base, n), ForPage) == |Wanted(j, t, level, base, EntryBase(base, level, n))|
    decreases level, 1, n
  {
    hide TableBase, EntryBase, At, EntryClear, EntryNeeds;
    if n == 0 {
      NoEntries(base, level);
      assert Wanted(j, t, level, base, base) == {};
    } else {
      var mid, to := EntryBase(base, level, n - 1), EntryBase(base, level, n);
      PagesNeeded(j, t, level, base, n - 1);
      EntryPages(j, t, level, base, n - 1);
      EntriesAscend(base, level, n - 1);
      EntriesFrom(base, level, n - 1);
      CountMore(Needs(j, t, level, base, n - 1), EntryNeeds(j, t, level, base, n - 1), ForPage);
      WantedMore(j, t, level, base, mid, to);
    }
  }

  lemma WantedMore<W>(j: Job<W>, t: nat, level: nat, from: nat, mid: nat, to: nat)
    requires from <= mid <= to
    ensures |Wanted(j, t, level, from, to)| == |Wanted(j, t, level, from, mid)| + |Wanted(j, t, level, mid, to)|
  {
    hide At, Skipped;
    assert Wanted(j, t, level, from, to) == Wanted(j, t, level, from, mid) + Wanted(j, t, level, mid, to);
    assert Wanted(j, t, level, from, mid) !! Wanted(j, t, level, mid, to);
  }

  lemma {:induction false} EntryPages<W>(j: Job<W>, t: nat, level: nat, base: nat, i: nat)
    requires TableBase(base, level) && level <= PT_TOP_LEVEL && i < PT_ENTRIES && EntryClear(j, t, level, base, i)
    ensures Count(EntryNeeds(j, t, level, base, i), ForPage)
         == |Wanted(j, t, level, EntryBase(base, level, i), EntryBase(base, level, i + 1))|
    decreases level, 0, 0
  {
    hide TableBase, EntryBase, At, Clear, Needs, WhollySkipped;
    var from, to, k := EntryBase(base, level, i), EntryBase(base, level, i + 1), level - 1;
    EntriesAscend(base, level, i);
    var w := Word(j.m, j.mem, t, i);
    if level > 0 && j.m.present(w) && !WhollySkipped(j.lo, j.hi, from, level) {
      EntryIsBase(base, level, i);
      WholeEntry(base, level, i);
      PagesNeeded(j, j.m.phys(w), k, from, PT_ENTRIES);
      CountMore([ForTable], Needs(j, j.m.phys(w), k, from, PT_ENTRIES), ForPage);
      OneTable();
      forall p | from <= p < to ensures At(j.m, j.mem, t, level, p).Some? <==> At(j.m, j.mem, j.m.phys(w), k, p).Some? {
        AtChild(j.m, j.mem, t, level, base, i, p);
      }
      assert Wanted(j, t, level, from, to) == Wanted(j, j.m.phys(w), k, from, to);
    } else if j.m.present(w) && level == 0 {
      LowestEntry(j, t, base, i);
    } else {
      NoneWanted(j, t, level, base, i);
      assert Count([], ForPage) == 0;
    }
  }

  lemma OneTable()
    ensures Count([ForTable], ForPage) == 0 && Count([ForPage], ForPage) == 1 && Count([], ForPage) == 0
  {
    assert [ForTable][..0] == [] && [ForPage][..0] == [];
  }

  lemma LowestEntry<W>(j: Job<W>, t: nat, base: nat, i: nat)
    requires TableBase(base, 0) && i < PT_ENTRIES && j.m.present(Word(j.m, j.mem, t, i))
    ensures Count(EntryNeeds(j, t, 0, base, i), ForPage) == |Wanted(j, t, 0, EntryBase(base, 0, i), EntryBase(base, 0, i + 1))|
  {
    var from := EntryBase(base, 0, i);
    EntryOf(base, 0, i, from);
    OneTable();
    assert Wanted(j, t, 0, from, from + 1) == if Skipped(j.lo, j.hi, from) then {} else {from};
  }

  lemma NoneWanted<W>(j: Job<W>, t: nat, level: nat, base: nat, i: nat)
    requires TableBase(base, level) && i < PT_ENTRIES
    requires !j.m.present(Word(j.m, j.mem, t, i)) || WhollySkipped(j.lo, j.hi, EntryBase(base, level, i), level)
    ensures Wanted(j, t, level, EntryBase(base, level, i), EntryBase(base, level, i + 1)) == {}
  {
    hide TableBase, EntryBase, Index;
    EntriesAscend(base, level, i);
    forall p | EntryBase(base, level, i) <= p < EntryBase(base, level, i + 1)
      ensures At(j.m, j.mem, t, level, p).None? || Skipped(j.lo, j.hi, p)
    {
      EntryOf(base, level, i, p);
    }
  }

  // The tables reached through one entry more.
  lemma TablesSplit<W>(m: Mmu<W>, mem: Memory<W>, t: nat, level: nat, i: nat, n: nat)
    requires Tree(m, mem, t, level, n) && n == i + 1
    ensures Tree(m, mem, t, level, i) && EntryTree(m, mem, t, level, i)
    ensures |Tables(m, mem, t, level, n)| == |Tables(m, mem, t, level, i)| + |ChildTables(m, mem, t, level, i)|
  {
    hide Tree, EntryTree, Tables, ChildTables;
    TreeSplit(m, mem, t, level, i, n);
    TablesMore(m, mem, t, level, i, n);
    EntryApart(m, mem, t, level, i);
  }

  lemma TreeSplit<W>(m: Mmu<W>, mem: Memory<W>, t: nat, level: nat, i: nat, n: nat)
    requires Tree(m, mem, t, level, n) && n == i + 1
    ensures Tree(m, mem, t, level, i) && EntryTree(m, mem, t, level, i)
    ensures t !in ChildTables(m, mem, t, level, i)
    ensures forall e :: 0 <= e < i ==> ChildTables(m, mem, t, level, e) !! ChildTables(m, mem, t, level, i)
  {
  }

  lemma TablesMore<W>(m: Mmu<W>, mem: Memory<W>, t: nat, level: nat, i: nat, n: nat)
    requires n == i + 1
    ensures Tables(m, mem, t, level, n) == Tables(m, mem, t, level, i) + ChildTables(m, mem, t, level, i)
  {
  }

  lemma EntryApart<W>(m: Mmu<W>, mem: Memory<W>, t: nat, level: nat, i: nat)
    requires t !in ChildTables(m, mem, t, level, i)
    requires forall e :: 0 <= e < i ==> ChildTables(m, mem, t, level, e) !! ChildTables(m, mem, t, level, i)
    ensures Tables(m, mem, t, level, i) !! ChildTables(m, mem, t, level, i)
  {
  }

  lemma RootTable<W>(m: Mmu<W>, mem: Memory<W>, t: nat, level: nat)
    ensures |Tables(m, mem, t, level, 0)| == 1
  {
    assert Tables(m, mem, t, level, 0) == {t};
  }

  // No more tables than the source has, its root apart.
  lemma {:induction false} TablesNeeded<W>(j: Job<W>, t: nat, level: nat, base: nat, n: nat)
    requires Tree(j.m, j.mem, t, level, n)
    ensures Count(Needs(j, t, level, base, n), ForTable) + 1 <= |Tables(j.m, j.mem, t, level, n)|
    decreases level, 1, n
  {
    hide EntryNeeds, EntryBase, EntryTree, ChildTables, Tree, Tables;
    if n == 0 {
      RootTable(j.m, j.mem, t, level);
    } else {
      TablesSplit(j.m, j.mem, t, level, n - 1, n);
      TablesNeeded(j, t, level, base, n - 1);
      EntryTables(j, t, level, base, n - 1);
      CountMore(Needs(j, t, level, base, n - 1), EntryNeeds(j, t, level, base, n - 1), ForTable);
    }
  }

  lemma {:induction false} EntryTables<W>(j: Job<W>, t: nat, level: nat, base: nat, i: nat)
    requires EntryTree(j.m, j.mem, t, level, i)
    ensures Count(EntryNeeds(j, t, level, base, i), ForTable) <= |ChildTables(j.m, j.mem, t, level, i)|
    decreases level, 0, 0
  {
    hide Tree, Tables, Needs, EntryBase;
    var w, from := Word(j.m, j.mem, t, i), EntryBase(base, level, i);
    NoTable();
    if IsTable(j.m, w, level) {
      TablesNeeded(j, j.m.phys(w), level - 1, from, PT_ENTRIES);
      CountMore([ForTable], Needs(j, j.m.phys(w), level - 1, from, PT_ENTRIES), ForTable);
    }
  }

  lemma NoTable()
    ensures Count([ForTable], ForTable) == 1 && Count([ForPage], ForTable) == 0 && Count([], ForTable) == 0
  {
    assert [ForTable][..0] == [] && [ForPage][..0] == [];
  }

  // A copy asks for one page for each page mapped outside the skipped range, and for at most as
  // many tables as the source has.
  lemma SpaceCounts<W>(j: Job<W>, src: nat)
    requires Tree(j.m, j.mem, src, PT_TOP_LEVEL, USER) && NoHugeMet(j, src)
    ensures Count(SpaceNeeds(j, src), ForPage) == |Wanted(j, src, PT_TOP_LEVEL, 0, USER * Span(PT_TOP_LEVEL))|
    ensures Count(SpaceNeeds(j, src), ForTable) <= |Tables(j.m, j.mem, src, PT_TOP_LEVEL, USER)|
  {
    hide Needs, NoHugeMet, Wanted, Tree, Tables;
    RootClear(j, src);
    UserEnd();
    assert TableBase(0, PT_TOP_LEVEL);
    PagesNeeded(j, src, PT_TOP_LEVEL, 0, USER);
    TablesNeeded(j, src, PT_TOP_LEVEL, 0, USER);
    CountMore([ForTable], Needs(j, src, PT_TOP_LEVEL, 0, USER), ForPage);
    CountMore([ForTable], Needs(j, src, PT_TOP_LEVEL, 0, USER), ForTable);
    OneTable();
    NoTable();
  }
}
