/** The kernel heap as a list of blocks in address order: what malloc, free and page_alloc do to
    it, first fit. */
module HeapBlocks {
  import opened Sizes
  import opened Wrappers

  // sizeof(heap_block_t), and the smallest payload a split leaves behind.
  const HEADER: nat := 24
  const MIN_PAYLOAD: nat := 16

  datatype Block = Block(addr: nat, size: nat, free: bool) {
    function Payload(): nat { addr + HEADER }
    function End(): nat { addr + HEADER + size }
  }

  // The blocks follow one another without gap or overlap, from lo to hi.
  ghost predicate Tiles(bs: seq<Block>, lo: nat, hi: nat) {
    if bs == [] then lo == hi else bs[0].addr == lo && Tiles(bs[1..], bs[0].End(), hi)
  }

  ghost predicate NoFreeNeighbours(bs: seq<Block>) {
    |bs| <= 1 || (!(bs[0].free && bs[1].free) && NoFreeNeighbours(bs[1..]))
  }

  // What every operation keeps. The last two conjuncts place the heap: 0 is not one of its
  // addresses, and rounding an address of it up by a page or two does not wrap around.
  ghost predicate Inv(bs: seq<Block>, lo: nat, hi: nat) {
    Tiles(bs, lo, hi) && NoFreeNeighbours(bs) && 0 < lo < hi && hi + 2 * PAGE <= WORD
  }

  // The allocated blocks.
  ghost function Live(bs: seq<Block>): set<Block> {
    set b | b in bs && !b.free
  }

  ghost function LivePointers(bs: seq<Block>): set<nat> {
    set b | b in bs && !b.free :: b.Payload()
  }

  // Bytes taken by headers and payloads together.
  ghost function TotalBytes(bs: seq<Block>): nat {
    if bs == [] then 0 else HEADER + bs[0].size + TotalBytes(bs[1..])
  }

  lemma {:induction false} TotalBytesTiled(bs: seq<Block>, lo: nat, hi: nat)
    requires Tiles(bs, lo, hi)
    ensures TotalBytes(bs) == hi - lo
    decreases |bs|
  {
    if bs != [] {
      TotalBytesTiled(bs[1..], bs[0].End(), hi);
    }
  }

  lemma {:induction false} AllAscending(bs: seq<Block>, lo: nat, hi: nat)
    requires Tiles(bs, lo, hi)
    ensures lo <= hi
    ensures forall i :: 0 <= i < |bs| ==> lo <= bs[i].addr && bs[i].End() <= hi
    ensures forall i, j :: 0 <= i < j < |bs| ==> bs[i].End() <= bs[j].addr
    decreases |bs|
  {
    if bs != [] {
      AllAscending(bs[1..], bs[0].End(), hi);
      assert forall i :: 1 <= i < |bs| ==> bs[i] == bs[1..][i - 1];
    }
  }

  lemma {:induction false} TilesConcat(a: seq<Block>, b: seq<Block>, lo: nat, m: nat, hi: nat)
    requires Tiles(a, lo, m) && Tiles(b, m, hi)
    ensures Tiles(a + b, lo, hi)
    decreases |a|
  {
    if a == [] {
      assert a + b == b;
    } else {
      assert (a + b)[1..] == a[1..] + b;
      TilesConcat(a[1..], b, a[0].End(), m, hi);
    }
  }

  lemma {:induction false} TilesAround(bs: seq<Block>, lo: nat, hi: nat, k: nat)
    requires Tiles(bs, lo, hi) && k < |bs|
    ensures Tiles(bs[..k], lo, bs[k].addr) && Tiles(bs[k + 1..], bs[k].End(), hi)
    decreases k
  {
    if k > 0 {
      TilesAround(bs[1..], bs[0].End(), hi, k - 1);
      assert bs[..k][1..] == bs[1..][..k - 1];
      assert bs[k + 1..] == bs[1..][k..];
    }
  }

  lemma {:induction false} NoFreeNeighboursConcat(a: seq<Block>, b: seq<Block>)
    requires NoFreeNeighbours(a) && NoFreeNeighbours(b)
    requires a == [] || b == [] || !(a[|a| - 1].free && b[0].free)
    ensures NoFreeNeighbours(a + b)
    decreases |a|
  {
    if a == [] {
      assert a + b == b;
    } else {
      assert (a + b)[1..] == a[1..] + b;
      NoFreeNeighboursConcat(a[1..], b);
    }
  }

  lemma {:induction false} NoFreeNeighboursAround(bs: seq<Block>, k: nat)
    requires NoFreeNeighbours(bs) && k < |bs|
    ensures NoFreeNeighbours(bs[..k]) && NoFreeNeighbours(bs[k + 1..])
    ensures bs[k].free ==> (k > 0 ==> !bs[k - 1].free) && (k + 1 < |bs| ==> !bs[k + 1].free)
    decreases k
  {
    if k > 0 {
      NoFreeNeighboursAround(bs[1..], k - 1);
      assert bs[..k][1..] == bs[1..][..k - 1];
      assert bs[k + 1..] == bs[1..][k..];
    }
  }

  // The payloads of two allocations never share a byte.
  lemma PayloadsDisjoint(bs: seq<Block>, lo: nat, hi: nat, a: Block, b: Block)
    requires Inv(bs, lo, hi)
    requires a in Live(bs) && b in Live(bs) && a != b
    ensures a.End() <= b.addr || b.End() <= a.addr
  {
    AllAscending(bs, lo, hi);
  }

  // With nothing allocated the heap is one free block again.
  lemma NothingLive(bs: seq<Block>, lo: nat, hi: nat)
    requires Inv(bs, lo, hi)
    requires Live(bs) == {}
    ensures lo + HEADER <= hi && bs == [Block(lo, hi - lo - HEADER, true)]
  {
    forall i | 0 <= i < |bs| ensures bs[i].free {
      assert bs[i] in bs;
      assert bs[i] !in Live(bs);
    }
    assert Tiles(bs[1..], bs[0].End(), hi) && bs[1..] == [];
  }

  lemma LiveConcat(a: seq<Block>, b: seq<Block>)
    ensures Live(a + b) == Live(a) + Live(b)
  {
  }

  lemma LiveAround(bs: seq<Block>, k: nat)
    requires k < |bs|
    ensures Live(bs) == Live(bs[..k]) + Live([bs[k]]) + Live(bs[k + 1..])
  {
    assert bs == bs[..k] + [bs[k]] + bs[k + 1..];
    LiveConcat(bs[..k] + [bs[k]], bs[k + 1..]);
    LiveConcat(bs[..k], [bs[k]]);
  }

  // Block k replaced by blocks that fill its place.
  function Splice(bs: seq<Block>, k: nat, mid: seq<Block>): seq<Block>
    requires k < |bs|
  {
    bs[..k] + mid + bs[k + 1..]
  }

  lemma SpliceTiles(bs: seq<Block>, lo: nat, hi: nat, k: nat, mid: seq<Block>)
    requires Tiles(bs, lo, hi) && k < |bs|
    requires Tiles(mid, bs[k].addr, bs[k].End())
    ensures Tiles(Splice(bs, k, mid), lo, hi)
  {
    TilesAround(bs, lo, hi, k);
    TilesConcat(bs[..k], mid, lo, bs[k].addr, bs[k].End());
    TilesConcat(bs[..k] + mid, bs[k + 1..], lo, bs[k].End(), hi);
  }

  lemma SpliceLive(bs: seq<Block>, k: nat, mid: seq<Block>)
    requires k < |bs|
    ensures Live(Splice(bs, k, mid)) == Live(bs[..k]) + Live(mid) + Live(bs[k + 1..])
  {
    LiveConcat(bs[..k] + mid, bs[k + 1..]);
    LiveConcat(bs[..k], mid);
  }

  // Cutting up a free block moves no allocation.
  lemma SpliceFree(bs: seq<Block>, lo: nat, hi: nat, k: nat, mid: seq<Block>)
    requires Inv(bs, lo, hi) && k < |bs| && bs[k].free
    requires Tiles(mid, bs[k].addr, bs[k].End()) && NoFreeNeighbours(mid)
    ensures Inv(Splice(bs, k, mid), lo, hi)
    ensures Live(Splice(bs, k, mid)) == Live(bs) + Live(mid)
    ensures Live(bs) !! Live(mid)
  {
    SpliceTiles(bs, lo, hi, k, mid);
    SpliceNoFreeNeighbours(bs, k, mid);
    SpliceLive(bs, k, mid);
    LiveAround(bs, k);
    forall b | b in Live(bs) ensures b !in Live(mid) {
      var i :| 0 <= i < |bs| && bs[i] == b;
      OutsidePlace(bs, lo, hi, k, i, mid);
    }
  }

  lemma SpliceNoFreeNeighbours(bs: seq<Block>, k: nat, mid: seq<Block>)
    requires NoFreeNeighbours(bs) && k < |bs| && bs[k].free
    requires |mid| > 0 && NoFreeNeighbours(mid)
    ensures NoFreeNeighbours(Splice(bs, k, mid))
  {
    NoFreeNeighboursAround(bs, k);
    NoFreeNeighboursConcat(bs[..k], mid);
    NoFreeNeighboursConcat(bs[..k] + mid, bs[k + 1..]);
  }

  lemma OutsidePlace(bs: seq<Block>, lo: nat, hi: nat, k: nat, i: nat, mid: seq<Block>)
    requires Tiles(bs, lo, hi) && k < |bs| && i < |bs| && i != k
    requires Tiles(mid, bs[k].addr, bs[k].End())
    ensures bs[i] !in mid
  {
    AllAscending(bs, lo, hi);
    AllAscending(mid, bs[k].addr, bs[k].End());
  }

  // ---- malloc ----

  // The request rounded up to a multiple of eight, in size_t arithmetic.
  function Rounded(size: nat): nat {
    (size + 7) % WORD / 8 * 8
  }

  function FirstFit(bs: seq<Block>, need: nat): (k: nat)
    ensures k <= |bs|
    ensures k < |bs| ==> bs[k].free && bs[k].size >= need
    ensures forall i :: 0 <= i < k ==> !(bs[i].free && bs[i].size >= need)
  {
    if bs == [] || (bs[0].free && bs[0].size >= need) then 0
    else 1 + FirstFit(bs[1..], need)
  }

  // A block given away, its tail split off when it is worth a block of its own.
  function Carve(b: Block, size: nat): seq<Block>
    requires b.size >= size
  {
    if b.size >= size + HEADER + MIN_PAYLOAD then
      [Block(b.addr, size, false), Block(b.addr + HEADER + size, b.size - size - HEADER, true)]
    else
      [Block(b.addr, b.size, false)]
  }

  lemma CarveTiles(b: Block, size: nat)
    requires b.size >= size
    ensures Tiles(Carve(b, size), b.addr, b.End()) && NoFreeNeighbours(Carve(b, size))
    ensures Live(Carve(b, size)) == {Carve(b, size)[0]} && size <= Carve(b, size)[0].size < size + 40
  {
    var cs := Carve(b, size);
    assert Tiles(cs[|cs| - 1..], cs[|cs| - 1].addr, b.End());
  }

  function Malloc(bs: seq<Block>, size: nat): (seq<Block>, nat) {
    if size == 0 then (bs, 0) else
    var k := FirstFit(bs, Rounded(size));
    if k == |bs| then (bs, 0) else (Splice(bs, k, Carve(bs[k], Rounded(size))), bs[k].Payload())
  }

  // The rounded request covers the request exactly when rounding does not wrap around; otherwise
  // it is nothing.
  lemma RoundedCovers(size: nat)
    requires size < WORD
    ensures Rounded(size) >= size <==> size <= WORD - 8
    ensures size > WORD - 8 ==> Rounded(size) == 0
  {
  }

  // What a caller of malloc gets: a fresh payload, every other allocation left where it was,
  // or nothing at all, and then no free block could have held the request as rounded. The payload
  // is as large as the request exactly if rounding does not wrap around, and then by less than 47
  // bytes larger.
  lemma MallocContract(bs: seq<Block>, lo: nat, hi: nat, size: nat)
    requires Inv(bs, lo, hi)
    requires 0 < size < WORD
    ensures var (cs, p) := Malloc(bs, size);
            && Inv(cs, lo, hi)
            && (p == 0 <==> forall b :: b in bs && b.free ==> b.size < Rounded(size))
            && (p == 0 ==> cs == bs)
            && (p == 0 && size <= WORD - 8 ==> forall b :: b in bs && b.free ==> b.size < size + 7)
            && (p != 0 ==> exists b :: b !in Live(bs) && b.Payload() == p && b.size >= Rounded(size)
                                       && (b.size >= size <==> size <= WORD - 8)
                                       && (size <= WORD - 8 ==> b.size < size + 47)
                                       && Live(cs) == Live(bs) + {b})
  {
    var k := FirstFit(bs, Rounded(size));
    if k < |bs| {
      var mid := Carve(bs[k], Rounded(size));
      CarveTiles(bs[k], Rounded(size));
      SpliceFree(bs, lo, hi, k, mid);
      assert bs[k] in bs;
      AllAscending(bs, lo, hi);
      RoundedCovers(size);
      assert mid[0].size <= bs[k].size < WORD - 8;
    }
  }

  // Of the free blocks that are large enough the lowest is taken.
  lemma LowestFirst(bs: seq<Block>, lo: nat, hi: nat, size: nat, b: Block)
    requires Inv(bs, lo, hi) && 0 < size <= WORD - 8 && b in bs && b.free && b.size >= size + 7
    ensures 0 < Malloc(bs, size).1 <= b.Payload()
  {
    AllAscending(bs, lo, hi);
  }

  // A request of 2^64 - 1 bytes is met with a block of none.
  lemma HugeRequest(lo: nat, hi: nat)
    requires 0 < lo && lo + 2 * HEADER + MIN_PAYLOAD <= hi && hi + 2 * PAGE <= WORD
    ensures var bs := [Block(lo, hi - lo - HEADER, true)];
            && Inv(bs, lo, hi)
            && Malloc(bs, WORD - 1) == ([Block(lo, 0, false), Block(lo + HEADER, hi - lo - 2 * HEADER, true)], lo + HEADER)
  {
    var bs := [Block(lo, hi - lo - HEADER, true)];
    assert Tiles(bs[1..], hi, hi);
    RoundedCovers(WORD - 1);
    assert Splice(bs, 0, Carve(bs[0], 0)) == Carve(bs[0], 0);
  }

  // ---- free ----

  // Every run of free neighbours merged into one block, headers included.
  function Coalesce(bs: seq<Block>): (cs: seq<Block>)
    ensures cs == [] <==> bs == []
    decreases |bs|
  {
    if |bs| <= 1 then bs
    else if bs[0].free && bs[1].free then
      Coalesce([Block(bs[0].addr, bs[0].size + HEADER + bs[1].size, true)] + bs[2..])
    else [bs[0]] + Coalesce(bs[1..])
  }

  function IndexOf(bs: seq<Block>, p: nat): (k: nat)
    ensures k <= |bs|
    ensures k < |bs| ==> bs[k].Payload() == p
    ensures forall i :: 0 <= i < k ==> bs[i].Payload() != p
  {
    if bs == [] || bs[0].Payload() == p then 0 else 1 + IndexOf(bs[1..], p)
  }

  function Free(bs: seq<Block>, p: nat): seq<Block> {
    var k := IndexOf(bs, p);
    if p == 0 || k == |bs| then bs else Coalesce(bs[k := Block(bs[k].addr, bs[k].size, true)])
  }

  lemma {:induction false} CoalesceKeeps(bs: seq<Block>, lo: nat, hi: nat)
    requires Tiles(bs, lo, hi)
    ensures Tiles(Coalesce(bs), lo, hi) && NoFreeNeighbours(Coalesce(bs))
    ensures bs != [] ==> Coalesce(bs)[0].free == bs[0].free
    ensures Live(Coalesce(bs)) == Live(bs)
    decreases |bs|
  {
    if |bs| <= 1 {
    } else if bs[0].free && bs[1].free {
      var ms := [Block(bs[0].addr, bs[0].size + HEADER + bs[1].size, true)] + bs[2..];
      assert forall i :: 1 <= i < |ms| ==> ms[i] == bs[i + 1];
      assert Live(ms) == Live(bs) by {
        forall b ensures b in Live(ms) <==> b in Live(bs) {
          assert forall i :: 2 <= i < |bs| ==> bs[i] == ms[i - 1];
        }
      }
      CoalesceKeeps(ms, lo, hi);
    } else {
      CoalesceKeeps(bs[1..], bs[1].addr, hi);
      var cs := Coalesce(bs[1..]);
      assert forall i :: 1 <= i < |bs| ==> bs[i] == bs[1..][i - 1];
      forall b ensures b in Live([bs[0]] + cs) <==> b in Live(bs) {
        assert b in bs <==> b == bs[0] || b in bs[1..];
        assert b in Live(cs) <==> b in Live(bs[1..]);
      }
    }
  }

  lemma IndexOfBlock(bs: seq<Block>, lo: nat, hi: nat, b: Block)
    requires Tiles(bs, lo, hi) && b in bs
    ensures IndexOf(bs, b.Payload()) < |bs| && bs[IndexOf(bs, b.Payload())] == b
  {
    var j :| 0 <= j < |bs| && bs[j] == b;
    AllAscending(bs, lo, hi);
  }

  lemma OnlyAt(bs: seq<Block>, lo: nat, hi: nat, k: nat)
    requires Tiles(bs, lo, hi) && k < |bs|
    ensures bs[k] !in bs[..k] && bs[k] !in bs[k + 1..]
  {
    forall i | 0 <= i < |bs| && i != k ensures bs[i] != bs[k] {
      OutsidePlace(bs, lo, hi, k, i, [bs[k]]);
    }
  }

  // Freeing gives up exactly the named allocation; nothing else moves or changes size.
  lemma FreeContract(bs: seq<Block>, lo: nat, hi: nat, b: Block)
    requires Inv(bs, lo, hi)
    requires b in Live(bs)
    ensures Inv(Free(bs, b.Payload()), lo, hi)
    ensures Live(Free(bs, b.Payload())) == Live(bs) - {b}
  {
    IndexOfBlock(bs, lo, hi, b);
    var k := IndexOf(bs, b.Payload());
    var cs := bs[k := Block(b.addr, b.size, true)];
    assert cs == Splice(bs, k, [cs[k]]);
    assert Tiles(cs, lo, hi) by {
      SpliceTiles(bs, lo, hi, k, [cs[k]]);
    }
    assert Live(cs) == Live(bs) - {b} by {
      SpliceLive(bs, k, [cs[k]]);
      LiveAround(bs, k);
      OnlyAt(bs, lo, hi, k);
    }
    CoalesceKeeps(cs, lo, hi);
  }

  // ---- page_alloc ----

  function PageUp(a: nat): nat {
    (a + (PAGE - 1)) / PAGE * PAGE
  }

  // Where page_alloc would put pages inside a block whose payload starts at raw: at the next
  // page boundary, or one page later when the gap before it could not hold a block.
  function Aligned(raw: nat): (a: nat)
    ensures raw <= a
  {
    var a := PageUp(raw);
    if a != raw && a - raw < HEADER + MIN_PAYLOAD then a + PAGE else a
  }

  function Padding(b: Block): nat {
    Aligned(b.Payload()) - b.Payload()
  }

  predicate PageFits(b: Block, pages: nat) {
    b.free && b.size >= PAGE * pages + Padding(b)
  }

  // The search for a place is complete: it succeeds whenever the block has any page boundary
  // with a usable gap before it and the pages behind it.
  lemma PageFitsComplete(b: Block, pages: nat)
    ensures PageFits(b, pages) <==>
            b.free && exists a :: a >= b.Payload() && a % PAGE == 0
                                  && (a == b.Payload() || a - b.Payload() >= HEADER + MIN_PAYLOAD)
                                  && a + PAGE * pages <= b.End()
  {
    var raw := b.Payload();
    AlignedIsLeast(raw);
    if PageFits(b, pages) {
      var a := Aligned(raw);
      assert a >= raw && a % PAGE == 0 && (a == raw || a - raw >= HEADER + MIN_PAYLOAD) && a + PAGE * pages <= b.End();
    }
  }

  lemma AlignedIsLeast(raw: nat)
    ensures Aligned(raw) % PAGE == 0
    ensures Aligned(raw) == raw || Aligned(raw) - raw >= HEADER + MIN_PAYLOAD
    ensures Aligned(raw) - raw < 2 * PAGE
    ensures forall a :: a >= raw && a % PAGE == 0 && (a == raw || a - raw >= HEADER + MIN_PAYLOAD) ==> Aligned(raw) <= a
  {
    var a0 := PageUp(raw);
    assert a0 % PAGE == 0 && raw <= a0 < raw + PAGE;
    forall a | a >= raw && a % PAGE == 0 && (a == raw || a - raw >= HEADER + MIN_PAYLOAD)
      ensures Aligned(raw) <= a
    {
      assert a0 <= a by {
        assert a / PAGE * PAGE == a;
      }
      if a != a0 {
        assert a / PAGE > a0 / PAGE;
      }
    }
  }

  function FirstPageFit(bs: seq<Block>, pages: nat): (k: nat)
    ensures k <= |bs|
    ensures k < |bs| ==> PageFits(bs[k], pages)
    ensures forall i :: 0 <= i < k ==> !PageFits(bs[i], pages)
  {
    if bs == [] || PageFits(bs[0], pages) then 0 else 1 + FirstPageFit(bs[1..], pages)
  }

  // A block cut so that a block with an aligned payload starts in it, behind a gap block if needed.
  function CarvePages(b: Block, size: nat): seq<Block>
    requires b.size >= size + Padding(b)
  {
    if Padding(b) >= HEADER + MIN_PAYLOAD then
      [Block(b.addr, Padding(b) - HEADER, true)] + Carve(Block(b.addr + Padding(b), b.size - Padding(b), false), size)
    else Carve(b, size)
  }

  lemma CarvePagesTiles(b: Block, size: nat)
    requires b.size >= size + Padding(b)
    ensures var cs := CarvePages(b, size);
            && Tiles(cs, b.addr, b.End()) && NoFreeNeighbours(cs)
            && var given := if Padding(b) == 0 then cs[0] else cs[1];
               Live(cs) == {given} && given.Payload() == Aligned(b.Payload()) && size <= given.size < size + 40
  {
    AlignedIsLeast(b.Payload());
    if Padding(b) == 0 {
      CarveTiles(b, size);
    } else {
      var rest := Block(b.addr + Padding(b), b.size - Padding(b), false);
      CarveTiles(rest, size);
      var gap := Block(b.addr, Padding(b) - HEADER, true);
      LiveConcat([gap], Carve(rest, size));
      assert CarvePages(b, size)[1..] == Carve(rest, size);
    }
  }

  function PageAlloc(bs: seq<Block>, pages: nat): (seq<Block>, nat) {
    var k := FirstPageFit(bs, pages);
    if k == |bs| then (bs, 0)
    else (Splice(bs, k, CarvePages(bs[k], PAGE * pages)), Aligned(bs[k].Payload()))
  }

  // Of the blocks with room for the pages the lowest is taken.
  lemma PagesLowestFirst(bs: seq<Block>, lo: nat, hi: nat, pages: nat, b: Block)
    requires Inv(bs, lo, hi) && b in bs && PageFits(b, pages)
    ensures 0 < PageAlloc(bs, pages).1 <= b.End() && (PageAlloc(bs, pages).1 > b.Payload() ==> PageAlloc(bs, pages).1 == Aligned(b.Payload()))
  {
    AllAscending(bs, lo, hi);
    var k := FirstPageFit(bs, pages);
    AlignedIsLeast(bs[k].Payload());
    AlignedIsLeast(b.Payload());
  }

  // What a caller of page_alloc gets: aligned pages in a block of their own, or nothing, and
  // then no free block has room for them behind an acceptable gap.
  lemma PageAllocContract(bs: seq<Block>, lo: nat, hi: nat, pages: nat)
    requires Inv(bs, lo, hi)
    ensures var (cs, p) := PageAlloc(bs, pages);
            && Inv(cs, lo, hi)
            && (p == 0 <==> forall b :: b in bs ==> !PageFits(b, pages))
            && (p == 0 ==> cs == bs)
            && (p != 0 ==> p % PAGE == 0
                           && exists b :: b !in Live(bs) && b.Payload() == p && PAGE * pages <= b.size < PAGE * pages + 40
                                          && Live(cs) == Live(bs) + {b})
  {
    var k := FirstPageFit(bs, pages);
    if k < |bs| {
      var b := bs[k];
      assert b in bs;
      AlignedIsLeast(b.Payload());
      var mid := CarvePages(b, PAGE * pages);
      CarvePagesTiles(b, PAGE * pages);
      SpliceFree(bs, lo, hi, k, mid);
      assert (if Padding(b) == 0 then mid[0] else mid[1]) in Live(mid);
    }
  }

  // ---- single pages, one request after another ----

  // The blocks after n requests for a page; None if one of them fails.
  function Give(bs: seq<Block>, n: nat): Option<seq<Block>> {
    if n == 0 then Some(bs)
    else
      match Give(bs, n - 1)
      case None => None
      case Some(cs) => if PageAlloc(cs, 1).1 == 0 then None else Some(PageAlloc(cs, 1).0)
  }

  predicate CanGive(bs: seq<Block>, n: nat) {
    Give(bs, n).Some?
  }

  lemma {:induction false} GiveMore(bs: seq<Block>, a: nat, b: nat)
    ensures Give(bs, a + b) == if CanGive(bs, a) then Give(Give(bs, a).value, b) else None
    decreases b
  {
    hide PageAlloc;
    if b > 0 {
      GiveMore(bs, a, b - 1);
    }
  }

  lemma GiveLess(bs: seq<Block>, a: nat, b: nat)
    requires a <= b && CanGive(bs, b)
    ensures CanGive(bs, a)
  {
    GiveMore(bs, a, b - a);
  }

  // Somewhere there is a free block as large as four pages for each page asked for.
  ghost predicate Roomy(bs: seq<Block>, n: nat) {
    exists b :: b in bs && b.free && b.size >= 4 * PAGE * n
  }

  // That is enough, whatever else is allocated.
  lemma {:induction false} RoomGives(bs: seq<Block>, total: nat, n: nat)
    requires Roomy(bs, total) && n <= total
    ensures CanGive(bs, n) && (n < total ==> Roomy(Give(bs, n).value, total - n))
    decreases n
  {
    hide PageAlloc, Roomy;
    if n > 0 {
      RoomGives(bs, total, n - 1);
      PageFromRoom(Give(bs, n - 1).value, total - n);
    }
  }

  lemma PageFromRoom(bs: seq<Block>, left: nat)
    requires Roomy(bs, left + 1)
    ensures var (cs, p) := PageAlloc(bs, 1); p != 0 && (left > 0 ==> Roomy(cs, left))
  {
    var b :| b in bs && b.free && b.size >= 4 * PAGE * (left + 1);
    PagesFitIn(b, left);
    hide PageFits, CarvePages, Aligned, Padding;
    var k := FirstPageFit(bs, 1);
    if bs[k] == b {
      var mid := CarvePages(b, PAGE);
      assert mid[|mid| - 1] in Splice(bs, k, mid);
    } else {
      assert b in Splice(bs, k, CarvePages(bs[k], PAGE));
    }
    assert Aligned(bs[k].Payload()) >= bs[k].Payload() > 0;
  }

  lemma PagesFitIn(b: Block, left: nat)
    requires b.free && b.size >= 4 * PAGE * (left + 1)
    ensures PageFits(b, 1) && b.size >= PAGE + Padding(b)
    ensures var mid := CarvePages(b, PAGE);
            |mid| > 0 && mid[|mid| - 1].free && mid[|mid| - 1].size >= 4 * PAGE * left
  {
    AlignedIsLeast(b.Payload());
  }

  // ---- eights ----

  // Every block starts at a multiple of eight and is a multiple of eight long.
  ghost predicate InEights(bs: seq<Block>) {
    forall b :: b in bs ==> Eight(b)
  }

  predicate Eight(b: Block) {
    b.addr % 8 == 0 && b.size % 8 == 0
  }

  lemma JoinedEight(a: Block, b: Block)
    requires Eight(a) && Eight(b)
    ensures Eight(Block(a.addr, a.size + HEADER + b.size, true))
  {
    assert a.size + HEADER + b.size == 8 * (a.size / 8 + 3 + b.size / 8);
  }

  lemma SpliceEights(bs: seq<Block>, k: nat, mid: seq<Block>)
    requires k < |bs| && InEights(bs) && InEights(mid)
    ensures InEights(Splice(bs, k, mid))
  {
  }

  lemma {:induction false} CoalesceEights(bs: seq<Block>)
    requires InEights(bs)
    ensures InEights(Coalesce(bs))
    decreases |bs|
  {
    hide Eight;
    if |bs| > 1 {
      if bs[0].free && bs[1].free {
        JoinedEight(bs[0], bs[1]);
        CoalesceEights([Block(bs[0].addr, bs[0].size + HEADER + bs[1].size, true)] + bs[2..]);
      } else {
        CoalesceEights(bs[1..]);
      }
    }
  }

  lemma CarveEights(b: Block, size: nat)
    requires b.addr % 8 == 0 && b.size % 8 == 0 && size % 8 == 0 && b.size >= size
    ensures InEights(Carve(b, size))
  {
    var x, y, z := b.addr / 8, b.size / 8, size / 8;
    assert b.addr + HEADER + size == 8 * (x + 3 + z) && b.size - size - HEADER == 8 * (y - z - 3);
    var cs := Carve(b, size);
    assert cs[0].addr % 8 == 0 && cs[0].size % 8 == 0;
    assert |cs| == 2 ==> cs[1].addr == 8 * (x + 3 + z) && cs[1].size == 8 * (y - z - 3);
  }

  lemma StepEights(bs: seq<Block>, op: Op)
    requires InEights(bs)
    ensures InEights(Step(bs, op).0) && Step(bs, op).1 % 8 == 0
  {
    match op
    case OpMalloc(size) =>
      var k := FirstFit(bs, Rounded(size));
      if k < |bs| {
        assert bs[k] in bs;
        CarveEights(bs[k], Rounded(size));
        SpliceEights(bs, k, Carve(bs[k], Rounded(size)));
      }
    case OpPageAlloc(pages) =>
      var k := FirstPageFit(bs, pages);
      if k < |bs| {
        assert bs[k] in bs;
        PagesEights(bs[k], pages);
        SpliceEights(bs, k, CarvePages(bs[k], PAGE * pages));
      }
    case OpFree(ptr) =>
      var k := IndexOf(bs, ptr);
      if k < |bs| {
        assert bs[k] in bs;
        CoalesceEights(bs[k := Block(bs[k].addr, bs[k].size, true)]);
      }
  }

  lemma Eights(b: Block)
    requires b.addr % 8 == 0 && Aligned(b.Payload()) % PAGE == 0
    ensures Aligned(b.Payload()) % 8 == 0 && Padding(b) % 8 == 0
  {
    hide Aligned;
    var a := Aligned(b.Payload());
    assert a == PAGE * (a / PAGE) == 8 * (512 * (a / PAGE));
    assert a - b.Payload() == 8 * (512 * (a / PAGE) - b.addr / 8 - 3);
  }

  // Both parts of a block in front of whose pages a block of its own fits.
  lemma PaddedEight(b: Block, pad: nat)
    requires b.addr % 8 == 0 && b.size % 8 == 0 && pad % 8 == 0 && HEADER <= pad <= b.size
    ensures Eight(Block(b.addr, pad - HEADER, true)) && (b.addr + pad) % 8 == 0 && (b.size - pad) % 8 == 0
  {
    var x, y, z := b.addr / 8, b.size / 8, pad / 8;
    assert b.addr + pad == 8 * (x + z) && b.size - pad == 8 * (y - z) && pad - HEADER == 8 * (z - 3);
  }

  lemma PagesEights(b: Block, pages: nat)
    requires b.addr % 8 == 0 && b.size % 8 == 0 && b.size >= PAGE * pages + Padding(b)
    ensures InEights(CarvePages(b, PAGE * pages)) && Aligned(b.Payload()) % 8 == 0
  {
    AlignedIsLeast(b.Payload());
    Eights(b);
    var pad, size := Padding(b), PAGE * pages;
    assert size % 8 == 0 by {
      assert size == 8 * (512 * pages);
    }
    hide Aligned, Padding, Carve, Eight;
    if pad >= HEADER + MIN_PAYLOAD {
      PaddedEight(b, pad);
      CarveEights(Block(b.addr + pad, b.size - pad, false), size);
      assert CarvePages(b, size) == [Block(b.addr, pad - HEADER, true)] + Carve(Block(b.addr + pad, b.size - pad, false), size);
    } else {
      CarveEights(b, size);
    }
  }

  // Over any run on a heap that starts and ends at multiples of eight, so does every allocation.
  lemma {:induction false} RunEights(bs: seq<Block>, ops: seq<Op>)
    requires InEights(bs)
    ensures InEights(Run(bs, ops)) && forall p :: p in LivePointers(Run(bs, ops)) ==> p % 8 == 0
    decreases |ops|
  {
    if ops != [] {
      StepEights(bs, ops[0]);
      hide Step, InEights;
      RunEights(Step(bs, ops[0]).0, ops[1..]);
    }
  }

  // ---- runs ----

  datatype Op = OpMalloc(size: nat) | OpPageAlloc(pages: nat) | OpFree(ptr: nat)

  function Step(bs: seq<Block>, op: Op): (seq<Block>, nat) {
    match op
    case OpMalloc(size) => Malloc(bs, size)
    case OpPageAlloc(pages) => PageAlloc(bs, pages)
    case OpFree(ptr) => (Free(bs, ptr), 0)
  }

  // What the kernel asks of its callers: sizes are size_t, and only live pointers are freed.
  ghost predicate Legal(bs: seq<Block>, op: Op) {
    match op
    case OpMalloc(size) => size < WORD
    case OpPageAlloc(pages) => PAGE * pages + 2 * PAGE <= WORD
    case OpFree(ptr) => ptr == 0 || ptr in LivePointers(bs)
  }

  ghost predicate LegalRun(bs: seq<Block>, ops: seq<Op>)
    decreases |ops|
  {
    ops == [] || (Legal(bs, ops[0]) && LegalRun(Step(bs, ops[0]).0, ops[1..]))
  }

  function Run(bs: seq<Block>, ops: seq<Op>): seq<Block>
    decreases |ops|
  {
    if ops == [] then bs else Run(Step(bs, ops[0]).0, ops[1..])
  }

  // What callers know of a run: the pointers handed out and not handed back yet.
  function Outstanding(bs: seq<Block>, ops: seq<Op>, held: set<nat>): set<nat>
    decreases |ops|
  {
    if ops == [] then held else
    var (cs, p) := Step(bs, ops[0]);
    Outstanding(cs, ops[1..], held - (if ops[0].OpFree? then {ops[0].ptr} else {}) + (if p == 0 then {} else {p}))
  }

  lemma StepKeeps(bs: seq<Block>, lo: nat, hi: nat, op: Op)
    requires Inv(bs, lo, hi) && Legal(bs, op)
    ensures var (cs, p) := Step(bs, op);
            && Inv(cs, lo, hi)
            && LivePointers(cs) == LivePointers(bs) - (if op.OpFree? then {op.ptr} else {}) + (if p == 0 then {} else {p})
  {
    match op
    case OpMalloc(size) =>
      if size != 0 {
        MallocContract(bs, lo, hi, size);
        PointersOfLive(bs, Step(bs, op).0);
      }
    case OpPageAlloc(pages) =>
      PageAllocContract(bs, lo, hi, pages);
      PointersOfLive(bs, Step(bs, op).0);
    case OpFree(ptr) =>
      if ptr != 0 {
        FreePointers(bs, lo, hi, ptr);
      }
  }

  lemma FreePointers(bs: seq<Block>, lo: nat, hi: nat, ptr: nat)
    requires Inv(bs, lo, hi) && ptr in LivePointers(bs)
    ensures Inv(Free(bs, ptr), lo, hi)
    ensures LivePointers(Free(bs, ptr)) == LivePointers(bs) - {ptr}
  {
    var b :| b in Live(bs) && b.Payload() == ptr;
    FreeContract(bs, lo, hi, b);
    forall c | c in Live(bs) && c != b ensures c.Payload() != ptr {
      PayloadsDisjoint(bs, lo, hi, b, c);
    }
    PointersWithout(bs, Free(bs, ptr), b);
  }

  lemma PointersWithout(bs: seq<Block>, cs: seq<Block>, b: Block)
    requires b in Live(bs) && Live(cs) == Live(bs) - {b}
    requires forall c :: c in Live(bs) && c != b ==> c.Payload() != b.Payload()
    ensures LivePointers(cs) == LivePointers(bs) - {b.Payload()}
  {
    assert LivePointers(bs) == set c | c in Live(bs) :: c.Payload();
    assert LivePointers(cs) == set c | c in Live(cs) :: c.Payload();
  }

  lemma PointersOfLive(bs: seq<Block>, cs: seq<Block>)
    ensures Live(cs) == Live(bs) ==> LivePointers(cs) == LivePointers(bs)
    ensures forall b :: Live(cs) == Live(bs) + {b} ==> LivePointers(cs) == LivePointers(bs) + {b.Payload()}
  {
    assert LivePointers(bs) == set b | b in Live(bs) :: b.Payload();
    assert LivePointers(cs) == set b | b in Live(cs) :: b.Payload();
  }

  // The invariant over all runs: the heap stays tiled, so no byte is ever lost, and the
  // allocated blocks are exactly those the callers still hold.
  lemma {:induction false} RunKeeps(bs: seq<Block>, lo: nat, hi: nat, ops: seq<Op>)
    requires Inv(bs, lo, hi) && LegalRun(bs, ops)
    ensures Inv(Run(bs, ops), lo, hi)
    ensures TotalBytes(Run(bs, ops)) == hi - lo
    ensures LivePointers(Run(bs, ops)) == Outstanding(bs, ops, LivePointers(bs))
    decreases |ops|
  {
    if ops == [] {
      TotalBytesTiled(bs, lo, hi);
    } else {
      StepKeeps(bs, lo, hi, ops[0]);
      RunKeeps(Step(bs, ops[0]).0, lo, hi, ops[1..]);
    }
  }

  // Whatever was done, once every pointer has been handed back the heap is the initial block.
  lemma EverythingFreed(lo: nat, hi: nat, ops: seq<Op>)
    requires 0 < lo && lo + HEADER <= hi && hi + 2 * PAGE <= WORD
    requires LegalRun([Block(lo, hi - lo - HEADER, true)], ops)
    requires Outstanding([Block(lo, hi - lo - HEADER, true)], ops, {}) == {}
    ensures Run([Block(lo, hi - lo - HEADER, true)], ops) == [Block(lo, hi - lo - HEADER, true)]
  {
    var init := [Block(lo, hi - lo - HEADER, true)];
    assert LivePointers(init) == {};
    RunKeeps(init, lo, hi, ops);
    var end := Run(init, ops);
    forall b ensures b !in Live(end) {
      assert b in Live(end) ==> b.Payload() in LivePointers(end);
    }
    assert Live(end) == {};
    NothingLive(end, lo, hi);
  }
}
