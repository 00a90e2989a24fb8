/** malloc, free and page_alloc as they run: walks over a chain of headers updated in place.
    Block headers live in memory at the block's own address, so memory is a map from addresses
    to headers, and the list is the chain of `next` addresses that ends in 0. */
module Pmm {
  import opened Sizes
  import opened HeapBlocks

  datatype Header = Header(size: nat, next: nat, free: bool)
  type Memory = map<nat, Header>

  ghost predicate HeaderOf(mem: Memory, b: Block) {
    b.addr != 0 && b.addr in mem && mem[b.addr].size == b.size && mem[b.addr].free == b.free
  }

  // Following the headers from p visits exactly these blocks and arrives at q.
  ghost predicate Chain(mem: Memory, bs: seq<Block>, p: nat, q: nat) {
    if bs == [] then p == q
    else p == bs[0].addr && HeaderOf(mem, bs[0]) && Chain(mem, bs[1..], mem[p].next, q)
  }

  // The walk holds curr when it has passed k blocks.
  ghost predicate Walk(mem: Memory, bs: seq<Block>, head: nat, k: nat, curr: nat) {
    k <= |bs| && Chain(mem, bs[..k], head, curr) && Chain(mem, bs[k..], curr, 0)
  }

  lemma WalkStart(mem: Memory, bs: seq<Block>, head: nat)
    requires Chain(mem, bs, head, 0)
    ensures Walk(mem, bs, head, 0, head)
  {
    assert bs[..0] == [] && bs[0..] == bs;
  }

  lemma WalkHere(mem: Memory, bs: seq<Block>, head: nat, k: nat, curr: nat)
    requires Walk(mem, bs, head, k, curr)
    ensures curr == 0 <==> k == |bs|
    ensures k < |bs| ==> curr == bs[k].addr && HeaderOf(mem, bs[k]) && Chain(mem, bs[k + 1..], mem[curr].next, 0)
  {
    if k < |bs| {
      assert bs[k..][1..] == bs[k + 1..];
    }
  }

  lemma WalkOn(mem: Memory, bs: seq<Block>, head: nat, k: nat, curr: nat)
    requires Walk(mem, bs, head, k, curr) && k < |bs|
    ensures curr in mem && Walk(mem, bs, head, k + 1, mem[curr].next)
  {
    WalkHere(mem, bs, head, k, curr);
    assert Chain(mem, [bs[k]], curr, mem[curr].next);
    Concat(mem, bs[..k], [bs[k]], head, curr, mem[curr].next);
    assert bs[..k + 1] == bs[..k] + [bs[k]];
  }

  lemma {:induction false} Concat(mem: Memory, a: seq<Block>, b: seq<Block>, p: nat, m: nat, q: nat)
    requires Chain(mem, a, p, m) && Chain(mem, b, m, q)
    ensures Chain(mem, a + b, p, q)
    decreases |a|
  {
    if a == [] {
      assert a + b == b;
    } else {
      Concat(mem, a[1..], b, mem[p].next, m, q);
      assert (a + b)[1..] == a[1..] + b;
    }
  }

  lemma {:induction false} Unchanged(mem: Memory, mem': Memory, bs: seq<Block>, p: nat, q: nat)
    requires Chain(mem, bs, p, q)
    requires forall b :: b in bs ==> b.addr in mem && b.addr in mem' && mem'[b.addr] == mem[b.addr]
    ensures Chain(mem', bs, p, q)
    decreases |bs|
  {
    if bs != [] {
      Unchanged(mem, mem', bs[1..], mem[p].next, q);
    }
  }

  lemma {:induction false} ChainReaches(mem: Memory, bs: seq<Block>, p: nat, q: nat, k: nat) returns (curr: nat)
    requires Chain(mem, bs, p, q) && k <= |bs|
    ensures Chain(mem, bs[..k], p, curr) && Chain(mem, bs[k..], curr, q)
    decreases k
  {
    if k == 0 {
      curr := p;
      assert bs[0..] == bs;
    } else {
      curr := ChainReaches(mem, bs[1..], mem[p].next, q, k - 1);
      assert bs[..k][1..] == bs[1..][..k - 1];
      assert bs[k..] == bs[1..][k - 1..];
    }
  }

  // Blocks before address `from` and blocks at or after `to` keep their headers when memory
  // changes only in between; new headers in between join them into one chain.
  lemma Relink(mem: Memory, mem': Memory, a: seq<Block>, mid: seq<Block>, z: seq<Block>,
               from: nat, to: nat, p: nat, m: nat, n: nat)
    requires Chain(mem, a, p, m) && Chain(mem', mid, m, n) && Chain(mem, z, n, 0)
    requires forall b :: b in a ==> b.addr in mem && b.addr < from
    requires forall b :: b in z ==> b.addr in mem && to <= b.addr
    requires forall x :: x in mem && !(from <= x < to) ==> x in mem' && mem'[x] == mem[x]
    ensures Chain(mem', a + mid + z, p, 0)
  {
    Unchanged(mem, mem', a, p, m);
    Unchanged(mem, mem', z, n, 0);
    Concat(mem', a, mid, p, m, n);
    Concat(mem', a + mid, z, p, n, 0);
  }

  lemma {:induction false} AllInMemory(mem: Memory, bs: seq<Block>, p: nat, q: nat)
    requires Chain(mem, bs, p, q)
    ensures forall b :: b in bs ==> b.addr in mem
    decreases |bs|
  {
    if bs != [] {
      AllInMemory(mem, bs[1..], mem[p].next, q);
    }
  }

  lemma LinkSplice(mem: Memory, mem': Memory, bs: seq<Block>, lo: nat, hi: nat, head: nat, k: nat, curr: nat, mid: seq<Block>)
    requires Tiles(bs, lo, hi) && Walk(mem, bs, head, k, curr) && k < |bs|
    requires forall x :: x in mem && !(bs[k].addr <= x < bs[k].End()) ==> x in mem' && mem'[x] == mem[x]
    requires curr in mem && Chain(mem', mid, curr, mem[curr].next)
    ensures Chain(mem', Splice(bs, k, mid), head, 0)
  {
    WalkHere(mem, bs, head, k, curr);
    AllInMemory(mem, bs[..k], head, curr);
    AllInMemory(mem, bs[k + 1..], mem[curr].next, 0);
    AllAscending(bs, lo, hi);
    Relink(mem, mem', bs[..k], mid, bs[k + 1..], bs[k].addr, bs[k].End(), head, curr, mem[curr].next);
  }

  // Memory after a header has been written behind the first `size` bytes of the block at a,
  // if what is left there is worth a block of its own.
  ghost function TailSplit(mem: Memory, a: nat, size: nat): Memory
    requires a in mem
  {
    var h := mem[a];
    if h.size >= size + HEADER + MIN_PAYLOAD then
      mem[a + HEADER + size := Header(h.size - size - HEADER, h.next, true)][a := Header(size, a + HEADER + size, h.free)]
    else mem
  }

  lemma TailSplitChain(mem: Memory, b: Block, size: nat)
    requires HeaderOf(mem, b) && !b.free && b.size >= size
    ensures Chain(TailSplit(mem, b.addr, size), Carve(b, size), b.addr, mem[b.addr].next)
    ensures forall x :: x in mem && !(b.addr <= x < b.End()) ==>
              x in TailSplit(mem, b.addr, size) && TailSplit(mem, b.addr, size)[x] == mem[x]
  {
    var mem' := TailSplit(mem, b.addr, size);
    if b.size >= size + HEADER + MIN_PAYLOAD {
      var r := Carve(b, size)[1];
      assert Chain(mem', [r], r.addr, mem[b.addr].next);
      assert Carve(b, size)[1..] == [r];
    }
  }

  // Memory after the block at a has been cut in a free gap and an allocated rest.
  ghost function GapSplit(mem: Memory, a: nat, padding: nat): Memory
    requires a in mem && HEADER <= padding <= mem[a].size
  {
    var h := mem[a];
    mem[a + padding := Header(h.size - padding, h.next, false)][a := Header(padding - HEADER, a + padding, true)]
  }

  ghost function PagesSplit(mem: Memory, a: nat, padding: nat, size: nat): Memory
    requires a in mem && (padding == 0 || HEADER <= padding <= mem[a].size)
  {
    if padding == 0 then TailSplit(mem[a := mem[a].(free := false)], a, size)
    else TailSplit(GapSplit(mem, a, padding), a + padding, size)
  }

  lemma PagesSplitChain(mem: Memory, b: Block, size: nat)
    requires HeaderOf(mem, b) && b.size >= size + Padding(b)
    ensures Padding(b) == 0 || Padding(b) >= HEADER + MIN_PAYLOAD
    ensures var mem' := PagesSplit(mem, b.addr, Padding(b), size);
            && Chain(mem', CarvePages(b, size), b.addr, mem[b.addr].next)
            && forall x :: x in mem && !(b.addr <= x < b.End()) ==> x in mem' && mem'[x] == mem[x]
  {
    AlignedIsLeast(b.Payload());
    if Padding(b) == 0 {
      TailSplitChain(mem[b.addr := mem[b.addr].(free := false)], Block(b.addr, b.size, false), size);
    } else {
      var rest := Block(b.addr + Padding(b), b.size - Padding(b), false);
      TailSplitChain(GapSplit(mem, b.addr, Padding(b)), rest, size);
      assert CarvePages(b, size)[1..] == Carve(rest, size);
    }
  }

  lemma FreeLink(mem: Memory, bs: seq<Block>, lo: nat, hi: nat, head: nat, k: nat)
    requires Tiles(bs, lo, hi) && Chain(mem, bs, head, 0) && k < |bs|
    ensures bs[k].addr in mem
    ensures var cs := bs[k := Block(bs[k].addr, bs[k].size, true)];
            && Tiles(cs, lo, hi)
            && Chain(mem[bs[k].addr := mem[bs[k].addr].(free := true)], cs, head, 0)
  {
    var curr := ChainReaches(mem, bs, head, 0, k);
    WalkHere(mem, bs, head, k, curr);
    var freed := Block(bs[k].addr, bs[k].size, true);
    var mem' := mem[curr := mem[curr].(free := true)];
    assert bs[k := freed] == Splice(bs, k, [freed]);
    assert Chain(mem', [freed], curr, mem[curr].next) by {
      assert [freed][1..] == [];
    }
    LinkSplice(mem, mem', bs, lo, hi, head, k, curr, [freed]);
    SpliceTiles(bs, lo, hi, k, [freed]);
  }

  // Blocks k and k + 1 made one free block.
  ghost function Merged(bs: seq<Block>, k: nat): seq<Block>
    requires k + 1 < |bs|
  {
    bs[..k] + [Block(bs[k].addr, bs[k].size + HEADER + bs[k + 1].size, true)] + bs[k + 2..]
  }

  lemma LinkMerged(mem: Memory, bs: seq<Block>, lo: nat, hi: nat, head: nat, k: nat, curr: nat)
    requires Tiles(bs, lo, hi) && Walk(mem, bs, head, k, curr) && k + 1 < |bs|
    ensures curr in mem && mem[curr].next in mem
    ensures var n := mem[mem[curr].next];
            Walk(mem[curr := Header(mem[curr].size + HEADER + n.size, n.next, true)], Merged(bs, k), head, k, curr)
  {
    WalkHere(mem, bs, head, k, curr);
    WalkOn(mem, bs, head, k, curr);
    WalkHere(mem, bs, head, k + 1, mem[curr].next);
    var n := mem[mem[curr].next];
    Elsewhere(bs, lo, hi, k);
    ChainMerged(mem, bs[..k], bs[k], bs[k + 1], bs[k + 2..], head, curr);
    assert Merged(bs, k)[..k] == bs[..k];
    assert Merged(bs, k)[k..] == [Merged(bs, k)[k]] + bs[k + 2..];
  }

  lemma Elsewhere(bs: seq<Block>, lo: nat, hi: nat, k: nat)
    requires Tiles(bs, lo, hi) && k < |bs|
    ensures forall b :: b in bs[..k] || b in bs[k + 1..] ==> b.addr != bs[k].addr
  {
    AllAscending(bs, lo, hi);
  }

  lemma ChainMerged(mem: Memory, a: seq<Block>, b: Block, c: Block, z: seq<Block>, head: nat, curr: nat)
    requires Chain(mem, a, head, curr) && HeaderOf(mem, b) && curr == b.addr
    requires HeaderOf(mem, c) && mem[curr].next == c.addr && Chain(mem, z, mem[c.addr].next, 0)
    requires forall x :: x in a || x in z ==> x.addr != curr
    ensures var mem' := mem[curr := Header(b.size + HEADER + c.size, mem[c.addr].next, true)];
            && Chain(mem', a, head, curr)
            && Chain(mem', [Block(b.addr, b.size + HEADER + c.size, true)] + z, curr, 0)
  {
    var mem' := mem[curr := Header(b.size + HEADER + c.size, mem[c.addr].next, true)];
    Unchanged'(mem, mem', a, head, curr);
    Unchanged'(mem, mem', z, mem[c.addr].next, 0);
    assert ([Block(b.addr, b.size + HEADER + c.size, true)] + z)[1..] == z;
  }

  lemma Unchanged'(mem: Memory, mem': Memory, bs: seq<Block>, p: nat, q: nat)
    requires Chain(mem, bs, p, q)
    requires forall b :: b in bs && b.addr in mem ==> b.addr in mem' && mem'[b.addr] == mem[b.addr]
    ensures Chain(mem', bs, p, q)
  {
    AllInMemory(mem, bs, p, q);
    Unchanged(mem, mem', bs, p, q);
  }

  lemma TilesMerged(bs: seq<Block>, lo: nat, hi: nat, k: nat)
    requires Tiles(bs, lo, hi) && k + 1 < |bs|
    ensures Tiles(Merged(bs, k), lo, hi)
  {
    TilesAround(bs, lo, hi, k);
    TilesAround(bs[k + 1..], bs[k].End(), hi, 0);
    assert bs[k + 1..][1..] == bs[k + 2..];
    var merged := Block(bs[k].addr, bs[k].size + HEADER + bs[k + 1].size, true);
    TilesConcat(bs[..k], [merged], lo, bs[k].addr, merged.End());
    TilesConcat(bs[..k] + [merged], bs[k + 2..], lo, merged.End(), hi);
  }

  lemma CoalesceMerged(bs: seq<Block>, k: nat)
    requires k + 1 < |bs| && bs[k].free && bs[k + 1].free
    ensures Merged(bs, k)[..k] + Coalesce(Merged(bs, k)[k..]) == bs[..k] + Coalesce(bs[k..])
  {
    assert Merged(bs, k)[k..] == [Merged(bs, k)[k]] + bs[k..][2..];
    assert Merged(bs, k)[..k] == bs[..k];
  }

  lemma CoalesceStep(bs: seq<Block>, k: nat)
    requires k < |bs| && (k + 1 == |bs| || !(bs[k].free && bs[k + 1].free))
    ensures bs[..k + 1] + Coalesce(bs[k + 1..]) == bs[..k] + Coalesce(bs[k..])
  {
    CoalesceHead(bs[k], bs[k + 1..]);
    assert bs[k..] == [bs[k]] + bs[k + 1..];
    assert bs[..k + 1] == bs[..k] + [bs[k]];
  }

  lemma CoalesceHead(b: Block, rest: seq<Block>)
    requires rest == [] || !(b.free && rest[0].free)
    ensures Coalesce([b] + rest) == [b] + Coalesce(rest)
  {
    assert ([b] + rest)[1..] == rest;
  }

  lemma FirstFitIs(bs: seq<Block>, need: nat, k: nat)
    requires k <= |bs|
    requires k < |bs| ==> bs[k].free && bs[k].size >= need
    requires forall i :: 0 <= i < k ==> !(bs[i].free && bs[i].size >= need)
    ensures FirstFit(bs, need) == k
  {
  }

  lemma FirstPageFitIs(bs: seq<Block>, pages: nat, k: nat)
    requires k <= |bs|
    requires k < |bs| ==> PageFits(bs[k], pages)
    requires forall i :: 0 <= i < k ==> !PageFits(bs[i], pages)
    ensures FirstPageFit(bs, pages) == k
  {
  }

  class Heap {
    var head: nat
    var mem: Memory
    ghost const lo: nat
    ghost const hi: nat
    ghost var blocks: seq<Block>

    ghost predicate Valid()
      reads this
    {
      Inv(blocks, lo, hi) && Chain(mem, blocks, head, 0)
    }

    // memory_init: one free block over the chosen region.
    constructor (base: nat, size: nat)
      requires 0 < base && HEADER <= size && base + size + 2 * PAGE <= WORD
      ensures Valid() && lo == base && hi == base + size
      ensures blocks == [Block(base, size - HEADER, true)]
    {
      head := base;
      mem := map[base := Header(size - HEADER, 0, true)];
      lo := base;
      hi := base + size;
      blocks := [Block(base, size - HEADER, true)];
    }

    method Malloc(request: nat) returns (result: nat)
      requires Valid() && request < WORD
      modifies this
      ensures Valid()
      ensures (blocks, result) == HeapBlocks.Malloc(old(blocks), request)
      ensures LivePointers(blocks) == old(LivePointers(blocks)) + (if result == 0 then {} else {result})
      ensures result !in old(LivePointers(blocks))
    {
      AllocatedPointers(blocks, OpMalloc(request), lo, hi);
      if request == 0 {
        return 0;
      }
      var size := (request + 7) % WORD / 8 * 8;
      var curr: nat := head;
      ghost var k := 0;
      WalkStart(mem, blocks, head);
      while curr != 0
        invariant Valid() && blocks == old(blocks)
        invariant Walk(mem, blocks, head, k, curr)
        invariant forall i :: 0 <= i < k ==> !(blocks[i].free && blocks[i].size >= size)
        decreases |blocks| - k
      {
        WalkHere(mem, blocks, head, k, curr);
        var h := mem[curr];
        if h.free && h.size >= size {
          FirstFitIs(blocks, size, k);
          CarveAt(curr, size, k);
          return curr + HEADER;
        }
        WalkOn(mem, blocks, head, k, curr);
        curr := h.next;
        k := k + 1;
      }
      WalkHere(mem, blocks, head, k, curr);
      FirstFitIs(blocks, size, k);
      return 0;
    }

    // The block at curr is given away; a header is written behind it when its tail is split off.
    method CarveAt(curr: nat, size: nat, ghost k: nat)
      requires Valid() && Walk(mem, blocks, head, k, curr) && k < |blocks|
      requires blocks[k].free && blocks[k].size >= size
      modifies this
      ensures Valid()
      ensures blocks == Splice(old(blocks), k, Carve(old(blocks[k]), size))
    {
      WalkHere(mem, blocks, head, k, curr);
      var h := mem[curr];
      if h.size >= size + HEADER + MIN_PAYLOAD {
        var next := curr + HEADER + size;
        mem := mem[next := Header(h.size - size - HEADER, h.next, true)];
        mem := mem[curr := Header(size, next, h.free)];
      }
      mem := mem[curr := mem[curr].(free := false)];
      ghost var b := Block(curr, h.size, false);
      TailSplitChain(old(mem)[curr := h.(free := false)], b, size);
      assert mem == TailSplit(old(mem)[curr := h.(free := false)], curr, size);
      CarveTiles(blocks[k], size);
      SpliceIn(old(mem), k, curr, Carve(b, size));
    }

    // New headers stand in memory for the free block k; the list follows.
    ghost method SpliceIn(before: Memory, k: nat, curr: nat, mid: seq<Block>)
      requires Inv(blocks, lo, hi) && Walk(before, blocks, head, k, curr) && k < |blocks| && blocks[k].free
      requires Tiles(mid, blocks[k].addr, blocks[k].End()) && NoFreeNeighbours(mid)
      requires forall x :: x in before && !(blocks[k].addr <= x < blocks[k].End()) ==> x in mem && mem[x] == before[x]
      requires curr in before && Chain(mem, mid, curr, before[curr].next)
      modifies this`blocks
      ensures Valid() && blocks == Splice(old(blocks), k, mid)
    {
      LinkSplice(before, mem, blocks, lo, hi, head, k, curr, mid);
      SpliceFree(blocks, lo, hi, k, mid);
      blocks := Splice(blocks, k, mid);
    }

    method PageAlloc(pages: nat) returns (result: nat)
      requires Valid() && PAGE * pages + 2 * PAGE <= WORD
      modifies this
      ensures Valid()
      ensures (blocks, result) == HeapBlocks.PageAlloc(old(blocks), pages)
      ensures LivePointers(blocks) == old(LivePointers(blocks)) + (if result == 0 then {} else {result})
      ensures result !in old(LivePointers(blocks)) && result % PAGE == 0
    {
      hide Inv, Chain, Tiles, CarvePages, Splice, LivePointers, PageFits;
      AllocatedPointers(blocks, OpPageAlloc(pages), lo, hi);
      var size := PAGE * pages;
      var curr: nat := head;
      ghost var k := 0;
      WalkStart(mem, blocks, head);
      while curr != 0
        invariant Valid() && blocks == old(blocks)
        invariant Walk(mem, blocks, head, k, curr)
        invariant forall i :: 0 <= i < k ==> !PageFits(blocks[i], pages)
        decreases |blocks| - k
      {
        WalkHere(mem, blocks, head, k, curr);
        result := TryPages(curr, size, pages, k);
        if result != 0 {
          FirstPageFitIs(old(blocks), pages, k);
          return;
        }
        WalkOn(mem, blocks, head, k, curr);
        curr := mem[curr].next;
        k := k + 1;
      }
      WalkHere(mem, blocks, head, k, curr);
      FirstPageFitIs(blocks, pages, k);
      return 0;
    }

    // The pages carved out of the block at curr, if they fit there.
    method TryPages(curr: nat, size: nat, pages: nat, ghost k: nat) returns (result: nat)
      requires Valid() && Walk(mem, blocks, head, k, curr) && k < |blocks| && size == PAGE * pages
      modifies this
      ensures Valid()
      ensures result != 0 <==> PageFits(old(blocks[k]), pages)
      ensures result == 0 ==> unchanged(this)
      ensures result != 0 ==> result == Aligned(old(blocks[k]).Payload())
      ensures result != 0 ==> blocks == Splice(old(blocks), k, CarvePages(old(blocks[k]), size))
    {
      hide Inv, Chain, Tiles, CarvePages, Splice, Walk;
      WalkHere(mem, blocks, head, k, curr);
      var h := mem[curr];
      if h.free {
        var aligned, padding := Place(curr + HEADER);
        if h.size >= size + padding {
          CarvePagesAt(curr, aligned, padding, size, k);
          return aligned;
        }
      }
      return 0;
    }

    static method Place(raw: nat) returns (aligned: nat, padding: nat)
      ensures aligned == Aligned(raw) && padding == aligned - raw
    {
      aligned := (raw + (PAGE - 1)) / PAGE * PAGE;
      padding := aligned - raw;
      if padding != 0 && padding < HEADER + MIN_PAYLOAD {
        aligned := aligned + PAGE;
        padding := padding + PAGE;
      }
    }

    // Up to three blocks are made of one: a gap, the pages, and what is left behind them.
    method CarvePagesAt(curr: nat, aligned: nat, padding: nat, size: nat, ghost k: nat)
      requires Valid() && Walk(mem, blocks, head, k, curr) && k < |blocks| && blocks[k].free
      requires padding == Padding(blocks[k]) && aligned == curr + HEADER + padding
      requires blocks[k].size >= size + padding
      modifies this
      ensures Valid()
      ensures blocks == Splice(old(blocks), k, CarvePages(old(blocks[k]), size))
    {
      WalkHere(mem, blocks, head, k, curr);
      WritePages(curr, aligned, padding, size, blocks[k]);
      CarvePagesTiles(blocks[k], size);
      SpliceIn(old(mem), k, curr, CarvePages(blocks[k], size));
    }

    method WritePages(curr: nat, aligned: nat, padding: nat, size: nat, ghost b: Block)
      requires HeaderOf(mem, b) && b.addr == curr && b.size >= size + padding
      requires padding == Padding(b) && aligned == curr + HEADER + padding
      modifies this`mem
      ensures curr in old(mem) && Chain(mem, CarvePages(b, size), curr, old(mem)[curr].next)
      ensures forall x :: x in old(mem) && !(b.addr <= x < b.End()) ==> x in mem && mem[x] == old(mem)[x]
    {
      PagesSplitChain(mem, b, size);
      var target := CutGapAt(curr, aligned, padding, b);
      CutTailAt(target, size);
    }

    method CutGapAt(curr: nat, aligned: nat, padding: nat, ghost b: Block) returns (target: nat)
      requires curr in mem && HeaderOf(mem, b) && b.addr == curr
      requires padding == Padding(b) && aligned == curr + HEADER + padding && padding <= b.size
      requires padding == 0 || padding >= HEADER + MIN_PAYLOAD
      modifies this`mem
      ensures target in mem && target == curr + padding
      ensures mem == if padding == 0 then old(mem)[curr := old(mem)[curr].(free := false)] else GapSplit(old(mem), curr, padding)
    {
      var h := mem[curr];
      target := curr;
      if padding >= HEADER + MIN_PAYLOAD {
        target := aligned - HEADER;
        mem := mem[target := Header(h.size - padding, h.next, false)];
        mem := mem[curr := Header(padding - HEADER, target, true)];
      } else {
        mem := mem[target := mem[target].(free := false)];
      }
    }

    method CutTailAt(target: nat, size: nat)
      requires target in mem
      modifies this`mem
      ensures mem == TailSplit(old(mem), target, size)
    {
      var t := mem[target];
      if t.size >= size + HEADER + MIN_PAYLOAD {
        var remainder := target + HEADER + size;
        mem := mem[remainder := Header(t.size - size - HEADER, t.next, true)];
        mem := mem[target := Header(size, remainder, t.free)];
      }
    }

    method Free(ptr: nat)
      requires Valid() && (ptr == 0 || ptr in LivePointers(blocks))
      modifies this
      ensures Valid()
      ensures blocks == HeapBlocks.Free(old(blocks), ptr)
      ensures LivePointers(blocks) == old(LivePointers(blocks)) - {ptr}
    {
      if ptr == 0 {
        NullIsNotLive(blocks, lo, hi);
        return;
      }
      FreePointers(blocks, lo, hi, ptr);
      var block := ptr - HEADER;
      MarkFree(block);
      Merge();
    }

    method MarkFree(block: nat)
      requires Valid() && block + HEADER in LivePointers(blocks)
      modifies this
      ensures Tiles(blocks, lo, hi) && Chain(mem, blocks, head, 0)
      ensures var k := IndexOf(old(blocks), block + HEADER);
              && k < |old(blocks)|
              && blocks == old(blocks)[k := Block(old(blocks)[k].addr, old(blocks)[k].size, true)]
    {
      ghost var b :| b in blocks && !b.free && b.Payload() == block + HEADER;
      IndexOfBlock(blocks, lo, hi, b);
      ghost var k := IndexOf(blocks, b.Payload());
      FreeLink(mem, blocks, lo, hi, head, k);
      mem := mem[block := mem[block].(free := true)];
      blocks := blocks[k := Block(b.addr, b.size, true)];
    }

    // The walk that merges free neighbours.
    method Merge()
      requires Tiles(blocks, lo, hi) && 0 < lo < hi && hi + 2 * PAGE <= WORD
      requires Chain(mem, blocks, head, 0)
      modifies this
      ensures Valid()
      ensures blocks == Coalesce(old(blocks))
    {
      var curr: nat := head;
      ghost var k := 0;
      WalkStart(mem, blocks, head);
      assert blocks[..0] + Coalesce(blocks[0..]) == Coalesce(blocks);
      while curr != 0
        invariant Tiles(blocks, lo, hi)
        invariant Walk(mem, blocks, head, k, curr)
        invariant blocks[..k] + Coalesce(blocks[k..]) == Coalesce(old(blocks))
        decreases |blocks| - k
      {
        WalkHere(mem, blocks, head, k, curr);
        WalkOn(mem, blocks, head, k, curr);
        var h := mem[curr];
        WalkHere(mem, blocks, head, k + 1, h.next);
        if h.free && h.next != 0 && mem[h.next].free {
          var n := mem[h.next];
          LinkMerged(mem, blocks, lo, hi, head, k, curr);
          TilesMerged(blocks, lo, hi, k);
          CoalesceMerged(blocks, k);
          mem := mem[curr := Header(h.size + HEADER + n.size, n.next, h.free)];
          blocks := Merged(blocks, k);
        } else {
          CoalesceStep(blocks, k);
          curr := h.next;
          k := k + 1;
        }
      }
      WalkHere(mem, blocks, head, k, curr);
      assert blocks[..k] == blocks && blocks[k..] == [];
      assert blocks == Coalesce(old(blocks));
      CoalesceKeeps(old(blocks), lo, hi);
    }
  }

  lemma NullIsNotLive(bs: seq<Block>, lo: nat, hi: nat)
    requires Inv(bs, lo, hi)
    ensures 0 !in LivePointers(bs)
  {
  }

  lemma AllocatedPointers(bs: seq<Block>, op: Op, lo: nat, hi: nat)
    requires Inv(bs, lo, hi) && Legal(bs, op) && !op.OpFree?
    ensures var (cs, p) := Step(bs, op);
            && LivePointers(cs) == LivePointers(bs) + (if p == 0 then {} else {p})
            && p !in LivePointers(bs)
            && (op.OpPageAlloc? ==> p % PAGE == 0)
  {
    StepKeeps(bs, lo, hi, op);
    NullIsNotLive(bs, lo, hi);
    var (cs, p) := Step(bs, op);
    if p != 0 {
      AllAscending(bs, lo, hi);
      if op.OpPageAlloc? {
        PageAllocContract(bs, lo, hi, op.pages);
      }
    }
  }
}
