/** Properties of the heap operations, for every heap, every request and every run. */
module HeapTheorems {
  import opened PageAllocator
  import opened HeapSpec

  // ---------- Request sizes ----------

  /** The block covers request, header and footer, is a multiple of 4 and no larger than needed,
      exactly when the sum does not wrap. */
  lemma AllocSizeCoversIff(size: nat)
    requires size < 0x1_0000_0000
    ensures AllocSize(size) % 4 == 0
    ensures size + 8 <= AllocSize(size) <==> NoWrap(size)
    ensures NoWrap(size) ==> AllocSize(size) < size + 12
  {
  }

  // ---------- Placing, extending, merging ----------

  lemma PlaceKeeps(bs: seq<Block>, lo: int, hi: int, i: nat, a: nat)
    requires Tiling(bs, lo, hi) && Coalesced(bs) && i < |bs| && Fits(bs[i], a) && a % 4 == 0 && 8 <= a
    ensures Tiling(Place(bs, i, a), lo, hi) && Coalesced(Place(bs, i, a))
    ensures Live(Place(bs, i, a)) == Live(bs) + {Block(bs[i].ptr, a, true)}
  {
    var mid := Split(bs[i], a);
    SplitTiles(bs[i], a);
    ReplaceTiling(bs, lo, hi, i, i + 1, mid);
    assert i + 1 < |bs| ==> bs[i + 1].used;
    ReplaceCoalesced(bs, i, i + 1, mid);
    ReplaceFree(bs, i, mid);
  }

  lemma SplitTiles(b: Block, a: nat)
    requires b.Good() && Fits(b, a) && a % 4 == 0 && 8 <= a
    ensures Tiling(Split(b, a), b.ptr, b.End()) && Coalesced(Split(b, a)) && Split(b, a)[0].used
    ensures Live(Split(b, a)) == {Block(b.ptr, a, true)}
  {
  }

  lemma ReplaceFree(bs: seq<Block>, i: nat, mid: seq<Block>)
    requires i < |bs| && !bs[i].used
    ensures Live(bs[..i] + mid + bs[i + 1..]) == Live(bs) + Live(mid)
  {
    LiveConcat(bs[..i], mid, bs[i + 1..]);
    LiveConcat(bs[..i], [bs[i]], bs[i + 1..]);
    assert bs == bs[..i] + [bs[i]] + bs[i + 1..];
    assert Live([bs[i]]) == {};
  }

  lemma ExtendKeeps(bs: seq<Block>, lo: int, hi: int, newEnd: int)
    requires bs != [] && Tiling(bs, lo, hi) && Coalesced(bs) && hi < newEnd && (newEnd - hi) % 4 == 0
    ensures Tiling(Extend(bs, hi, newEnd), lo, newEnd) && Coalesced(Extend(bs, hi, newEnd))
    ensures Live(Extend(bs, hi, newEnd)) == Live(bs)
    ensures TailFree(Extend(bs, hi, newEnd))
    ensures TailSize(Extend(bs, hi, newEnd)) == TailSize(bs) + newEnd - hi
  {
    ExtendLive(bs, hi, newEnd);
    ExtendTiles(bs, lo, hi, newEnd);
    ExtendCoalesced(bs, hi, newEnd);
  }

  lemma ExtendTiles(bs: seq<Block>, lo: int, hi: int, newEnd: int)
    requires bs != [] && Tiling(bs, lo, hi) && hi < newEnd && (newEnd - hi) % 4 == 0
    ensures Tiling(Extend(bs, hi, newEnd), lo, newEnd)
  {
    var n := |bs| - 1;
    FrontTiles(bs, lo, hi);
    hide Tiling;
    if TailFree(bs) {
      AppendTiles(bs[..n], lo, bs[n].ptr, bs[n].(size := newEnd - bs[n].ptr));
    } else {
      AppendTiles(bs, lo, hi, Block(hi, newEnd - hi, false));
    }
  }

  lemma AppendTiles(bs: seq<Block>, lo: int, hi: int, b: Block)
    requires Tiling(bs, lo, hi) && b.Good() && b.ptr == hi
    ensures Tiling(bs + [b], lo, b.End())
  {
  }

  lemma FrontTiles(bs: seq<Block>, lo: int, hi: int)
    requires bs != [] && Tiling(bs, lo, hi)
    ensures Tiling(bs[..|bs| - 1], lo, bs[|bs| - 1].ptr)
    ensures bs[|bs| - 1].Good() && bs[|bs| - 1].End() == hi && hi % 4 == 0
  {
    EndAligned(bs[|bs| - 1]);
    hide Block.Good;
  }

  lemma EndAligned(b: Block)
    requires b.Good()
    ensures b.End() % 4 == 0
  {
  }

  lemma ExtendCoalesced(bs: seq<Block>, hi: int, newEnd: int)
    requires bs != [] && Coalesced(bs)
    ensures Coalesced(Extend(bs, hi, newEnd))
  {
    var r, n := Extend(bs, hi, newEnd), |bs| - 1;
    assert forall i :: 0 <= i < n ==> r[i] == bs[i];
    assert r[n].used == bs[n].used;
  }

  lemma ExtendLive(bs: seq<Block>, hi: int, newEnd: int)
    requires bs != []
    ensures Live(Extend(bs, hi, newEnd)) == Live(bs)
  {
    var n := |bs| - 1;
    if newEnd == hi {
    } else if TailFree(bs) {
      var b := bs[n].(size := newEnd - bs[n].ptr);
      ReplaceFree(bs, n, [b]);
      assert Live([b]) == {};
      assert Extend(bs, hi, newEnd) == bs[..n] + [b] + bs[n + 1..];
    } else {
      var b := Block(hi, newEnd - hi, false);
      LiveConcat(bs, [b], []);
      assert Live([b]) == {} == Live([]);
      assert Extend(bs, hi, newEnd) == bs + [b] + [];
    }
  }

  lemma FreeAtTiles(bs: seq<Block>, lo: int, hi: int, i: nat)
    requires Tiling(bs, lo, hi) && Coalesced(bs) && i < |bs| && bs[i].used
    ensures Tiling(FreeAt(bs, i), lo, hi) && Coalesced(FreeAt(bs, i))
  {
    hide Tiling, Coalesced, MergeLow, MergeHigh;
    MergeEnds(bs, i);
    JoinTiles(bs, lo, hi, MergeLow(bs, i), MergeHigh(bs, i));
  }

  /** What is merged lies between used blocks. */
  lemma MergeEnds(bs: seq<Block>, i: nat)
    requires Coalesced(bs) && i < |bs|
    ensures var l, h := MergeLow(bs, i), MergeHigh(bs, i);
      l <= i <= h < |bs| && (0 < l ==> bs[l - 1].used) && (h + 1 < |bs| ==> bs[h + 1].used)
  {
  }

  lemma JoinTiles(bs: seq<Block>, lo: int, hi: int, l: nat, h: nat)
    requires Tiling(bs, lo, hi) && Coalesced(bs) && l <= h < |bs|
    requires 0 < l ==> bs[l - 1].used
    requires h + 1 < |bs| ==> bs[h + 1].used
    ensures var r := bs[..l] + [Block(bs[l].ptr, bs[h].End() - bs[l].ptr, false)] + bs[h + 1..];
            Tiling(r, lo, hi) && Coalesced(r)
  {
    Ordered2(bs, lo, hi, l, h);
    var mid := [Block(bs[l].ptr, bs[h].End() - bs[l].ptr, false)];
    ReplaceTiling(bs, lo, hi, l, h + 1, mid);
    ReplaceCoalesced(bs, l, h + 1, mid);
  }

  lemma Ordered2(bs: seq<Block>, lo: int, hi: int, l: nat, h: nat)
    requires Tiling(bs, lo, hi) && l <= h < |bs|
    ensures 4 <= bs[h].End() - bs[l].ptr && (bs[h].End() - bs[l].ptr) % 4 == 0
  {
    hide Tiling;
    GoodAt(bs, lo, hi, l);
    GoodAt(bs, lo, hi, h);
    if l < h { Ordered(bs, lo, hi, l, h); }
  }

  lemma GoodAt(bs: seq<Block>, lo: int, hi: int, i: nat)
    requires Tiling(bs, lo, hi) && i < |bs|
    ensures bs[i].Good()
  {
  }

  lemma FreeAtLive(bs: seq<Block>, lo: int, hi: int, i: nat)
    requires Tiling(bs, lo, hi) && i < |bs| && bs[i].used
    ensures Live(FreeAt(bs, i)) == Live(bs) - {bs[i]}
  {
    var l, h := MergeLow(bs, i), MergeHigh(bs, i);
    MergedLive(bs, lo, hi, l, h, i);
    JoinLive(bs, l, h, i, Block(bs[l].ptr, bs[h].End() - bs[l].ptr, false));
  }

  lemma JoinLive(bs: seq<Block>, l: nat, h: nat, i: nat, b: Block)
    requires l <= i <= h < |bs| && !b.used && Live(bs[l..h + 1]) == {bs[i]}
    requires bs[i] !in Live(bs[..l]) && bs[i] !in Live(bs[h + 1..])
    ensures Live(bs[..l] + [b] + bs[h + 1..]) == Live(bs) - {bs[i]}
  {
    LiveConcat(bs[..l], [b], bs[h + 1..]);
    LiveConcat(bs[..l], bs[l..h + 1], bs[h + 1..]);
    assert bs == bs[..l] + bs[l..h + 1] + bs[h + 1..];
    assert Live([b]) == {};
  }

  lemma MergedLive(bs: seq<Block>, lo: int, hi: int, l: nat, h: nat, i: nat)
    requires Tiling(bs, lo, hi) && l <= i <= h < |bs| && bs[i].used
    requires forall k :: l <= k <= h && k != i ==> !bs[k].used
    ensures Live(bs[l..h + 1]) == {bs[i]}
    ensures bs[i] !in Live(bs[..l]) && bs[i] !in Live(bs[h + 1..])
  {
    AllOrdered(bs, lo, hi);
    var m := bs[l..h + 1];
    assert m[i - l] == bs[i];
    forall b | b in m && b.used ensures b == bs[i] {
      var k :| 0 <= k < |m| && m[k] == b;
      assert m[k] == bs[l + k];
    }
  }

  // ---------- Allocation ----------

  /** The tail is large enough after exactly PagesNeeded pages, and after no fewer. */
  lemma PagesNeededIsLeast(bs: seq<Block>, a: nat, k: int)
    ensures a <= TailSize(bs) + PAGE_SIZE * k <==> PagesNeeded(bs, a) <= k
  {
  }

  /** mm_malloc keeps the invariant; on success the live blocks gain exactly the returned one,
      on failure nothing at all changes. */
  lemma MallocKeepsInv(h: Heap, total: nat, size: nat)
    requires h.Inv(total) && NoWrap(size)
    ensures var (g, p) := Malloc(h, size);
            && g.Inv(total) && g.start == h.start && h.end <= g.end
            && (p == 0 ==> g == h)
            && (p != 0 ==> 0 < p && Live(g.blocks) == Live(h.blocks) + {Block(p, AllocSize(size), true)})
  {
    AllocSizeCoversIff(size);
    TakeKeepsInv(h, total, AllocSize(size));
  }

  lemma TakeKeepsInv(h: Heap, total: nat, a: nat)
    requires h.Inv(total) && a % 4 == 0 && 8 <= a
    ensures var (g, p) := Take(h, a);
            && g.Inv(total) && g.start == h.start && h.end <= g.end
            && (p == 0 ==> g == h)
            && (p != 0 ==> 0 < p && Live(g.blocks) == Live(h.blocks) + {Block(p, a, true)})
  {
    var i, k := FirstFit(h.blocks, a), PagesNeeded(h.blocks, a);
    if i < |h.blocks| {
      PlaceInKeeps(h, total, i, a);
    } else if k <= h.freePages {
      GrowToFit(h, total, a);
      var g := Grow(h, k);
      PlaceInKeeps(g, total, |g.blocks| - 1, a);
    }
  }

  lemma PlaceInKeeps(h: Heap, total: nat, i: nat, a: nat)
    requires h.Inv(total) && a % 4 == 0 && 8 <= a && i < |h.blocks| && Fits(h.blocks[i], a)
    ensures PlaceIn(h, i, a).Inv(total) && 0 < h.blocks[i].ptr
    ensures Live(PlaceIn(h, i, a).blocks) == Live(h.blocks) + {Block(h.blocks[i].ptr, a, true)}
  {
    AllOrdered(h.blocks, h.start + 4, h.end - 4);
    PlaceKeeps(h.blocks, h.start + 4, h.end - 4, i, a);
  }

  lemma GrowHeapKeeps(h: Heap, total: nat, k: nat)
    requires h.Inv(total) && 0 < k <= h.freePages
    ensures var g := Grow(h, k);
            && g.Inv(total) && Live(g.blocks) == Live(h.blocks)
            && TailFree(g.blocks) && TailSize(g.blocks) == TailSize(h.blocks) + PAGE_SIZE * k
  {
    hide Tiling, Coalesced, Live, Extend, TailFree, TailSize;
    InvNotEmpty(h, total);
    var bytes := PagesBytes(k);
    ExtendKeeps(h.blocks, h.start + 4, h.EndBlock(), h.EndBlock() + bytes);
    assert Grow(h, k).end == h.end + bytes;
  }

  lemma InvNotEmpty(h: Heap, total: nat)
    requires h.Inv(total)
    ensures h.blocks != []
  {
  }

  lemma PagesBytes(k: nat) returns (bytes: nat)
    ensures bytes == PAGE_SIZE * k && bytes % 4 == 0 && (0 < k ==> 0 < bytes)
  {
    bytes := PAGE_SIZE * k;
    TimesFour(1024 * k);
  }

  lemma TimesFour(x: int)
    ensures (4 * x) % 4 == 0
  {
  }

  lemma GrowToFit(h: Heap, total: nat, a: nat)
    requires h.Inv(total) && FirstFit(h.blocks, a) == |h.blocks| && 8 <= a
    ensures 0 < PagesNeeded(h.blocks, a)
    ensures PagesNeeded(h.blocks, a) <= h.freePages ==>
      var g := Grow(h, PagesNeeded(h.blocks, a));
      && g.Inv(total) && Live(g.blocks) == Live(h.blocks) && g.blocks != []
      && Fits(g.blocks[|g.blocks| - 1], a)
      && g.blocks[|g.blocks| - 1].ptr == h.EndBlock() - TailSize(h.blocks)
  {
    var k := PagesNeeded(h.blocks, a);
    assert h.blocks[|h.blocks| - 1] in h.blocks;
    PagesNeededIsLeast(h.blocks, a, 0);
    PagesNeededIsLeast(h.blocks, a, k);
    if k <= h.freePages { GrowHeapKeeps(h, total, k); }
  }

  /** After one page more, the last block fits exactly when the pages needed are reached. */
  lemma GrowStep(h: Heap, total: nat, a: nat, k: nat)
    requires h.Inv(total) && FirstFit(h.blocks, a) == |h.blocks| && 8 <= a
    requires k < h.freePages && k < PagesNeeded(h.blocks, a)
    ensures var bs := Grow(h, k + 1).blocks;
      bs != [] && (Fits(bs[|bs| - 1], a) <==> k + 1 == PagesNeeded(h.blocks, a))
  {
    GrowHeapKeeps(h, total, k + 1);
    PagesNeededIsLeast(h.blocks, a, k + 1);
  }

  /** mm_malloc succeeds exactly when some free block fits or the free tail and all remaining pages
      together cover the block, for every request within the limit. */
  lemma MallocSucceedsIff(h: Heap, total: nat, size: nat)
    requires h.Inv(total) && NoWrap(size)
    ensures Malloc(h, size).1 != 0 <==>
      && AllocSize(size) <= MAX_MEM_ALLOC
      && ((exists b :: b in h.blocks && !b.used && AllocSize(size) <= b.size)
          || AllocSize(size) <= TailSize(h.blocks) + PAGE_SIZE * h.freePages)
  {
    AllocSizeCoversIff(size);
    TakeSucceedsIff(h, total, AllocSize(size));
  }

  lemma TakeSucceedsIff(h: Heap, total: nat, a: nat)
    requires h.Inv(total) && a % 4 == 0 && 8 <= a
    ensures Take(h, a).1 != 0 <==>
      || (exists b :: b in h.blocks && Fits(b, a))
      || a <= TailSize(h.blocks) + PAGE_SIZE * h.freePages
  {
    var i := FirstFit(h.blocks, a);
    PagesNeededIsLeast(h.blocks, a, h.freePages);
    TakeKeepsInv(h, total, a);
    if i < |h.blocks| {
      PlaceInKeeps(h, total, i, a);
      assert h.blocks[i] in h.blocks;
    } else {
      assert forall b :: b in h.blocks ==> !Fits(b, a);
      GrowToFit(h, total, a);
      AllOrdered(h.blocks, h.start + 4, h.end - 4);
    }
  }

  /** The address is that of the lowest free block that fits, and the heap does not grow. */
  lemma TakeLowestFit(h: Heap, total: nat, a: nat, b: Block)
    requires h.Inv(total) && a % 4 == 0 && 8 <= a && b in h.blocks && !b.used && a <= b.size
    ensures Take(h, a).0.end == h.end && Take(h, a).1 <= b.ptr
    ensures exists c :: c in h.blocks && !c.used && a <= c.size && c.ptr == Take(h, a).1
  {
    AllOrdered(h.blocks, h.start + 4, h.end - 4);
    var j :| 0 <= j < |h.blocks| && h.blocks[j] == b;
    var i := FirstFit(h.blocks, a);
    assert h.blocks[i] in h.blocks;
  }

  /** When no free block fits, the heap grows by the fewest pages that make its free tail fit,
      and the block is placed at the start of that tail. */
  lemma TakeGrowsLeast(h: Heap, total: nat, a: nat, k: nat)
    requires h.Inv(total) && a % 4 == 0 && 8 <= a && Take(h, a).1 != 0
    requires forall b :: b in h.blocks ==> !Fits(b, a)
    ensures Take(h, a).1 == h.EndBlock() - TailSize(h.blocks)
    ensures a <= TailSize(h.blocks) + PAGE_SIZE * k <==> Take(h, a).0.end <= h.end + PAGE_SIZE * k
  {
    assert FirstFit(h.blocks, a) == |h.blocks|;
    GrowToFit(h, total, a);
    PagesNeededIsLeast(h.blocks, a, k);
  }

  // ---------- Freeing ----------

  lemma {:induction false} IndexOfBlock(bs: seq<Block>, lo: int, hi: int, i: nat)
    requires Tiling(bs, lo, hi) && i < |bs|
    ensures IndexOf(bs, bs[i].ptr) == i
  {
    AllOrdered(bs, lo, hi);
    assert IndexOf(bs, bs[i].ptr) <= i;
  }

  /** Freeable means NULL or the address of a live block. */
  lemma FreeableIff(h: Heap, total: nat, p: int)
    requires h.Inv(total)
    ensures Freeable(h, p) <==> p == 0 || exists b :: b in Live(h.blocks) && b.ptr == p
  {
    if b :| b in Live(h.blocks) && b.ptr == p {
      var i :| 0 <= i < |h.blocks| && h.blocks[i] == b;
      IndexOfBlock(h.blocks, h.start + 4, h.end - 4, i);
    }
    if p != 0 && Freeable(h, p) {
      assert h.blocks[IndexOf(h.blocks, p)] in Live(h.blocks);
    }
  }

  /** mm_free keeps the invariant, the heap's extent and every other live block. */
  lemma FreeKeepsInv(h: Heap, total: nat, p: int)
    requires h.Inv(total) && Freeable(h, p)
    ensures Free(h, p).Inv(total) && Free(h, p).start == h.start && Free(h, p).end == h.end
    ensures Live(Free(h, p).blocks) == set b | b in Live(h.blocks) && b.ptr != p
  {
    if p != 0 {
      var i := IndexOf(h.blocks, p);
      FreeAtTiles(h.blocks, h.start + 4, h.end - 4, i);
      FreeAtLive(h.blocks, h.start + 4, h.end - 4, i);
      LiveByAddress(h.blocks, h.start + 4, h.end - 4, i);
    } else {
      LivePositive(h.blocks, h.start + 4, h.end - 4);
    }
  }

  lemma LivePositive(bs: seq<Block>, lo: int, hi: int)
    requires Tiling(bs, lo, hi) && 0 < lo
    ensures Live(bs) == set b | b in Live(bs) && b.ptr != 0
  {
    AllOrdered(bs, lo, hi);
  }

  lemma LiveByAddress(bs: seq<Block>, lo: int, hi: int, i: nat)
    requires Tiling(bs, lo, hi) && i < |bs| && bs[i].used
    ensures Live(bs) - {bs[i]} == set b | b in Live(bs) && b.ptr != bs[i].ptr
  {
    AllOrdered(bs, lo, hi);
    forall b | b in Live(bs) ensures b.ptr != bs[i].ptr <==> b != bs[i] {
      var j :| 0 <= j < |bs| && bs[j] == b;
    }
  }

  /** Two heaps with the same extent, pages and live blocks are the same heap. */
  lemma HeapDetermined(g: Heap, h: Heap, total: nat)
    requires g.Inv(total) && h.Inv(total) && g.start == h.start && g.end == h.end
    requires Live(g.blocks) == Live(h.blocks)
    ensures g == h
  {
    LiveDetermines(g.blocks, h.blocks, h.start + 4, h.end - 4);
  }

  /** Freeing a block that malloc took from inside the heap gives the heap before the malloc. */
  lemma MallocFreeRoundTrip(h: Heap, total: nat, size: nat)
    requires h.Inv(total) && NoWrap(size) && Malloc(h, size).1 != 0
    ensures Freeable(Malloc(h, size).0, Malloc(h, size).1)
    ensures Live(Free(Malloc(h, size).0, Malloc(h, size).1).blocks) == Live(h.blocks)
    ensures Malloc(h, size).0.end == h.end ==> Free(Malloc(h, size).0, Malloc(h, size).1) == h
  {
    var (g, p) := Malloc(h, size);
    MallocKeepsInv(h, total, size);
    ReturnedAddressIsNew(h, total, size);
    FreeReturned(h, g, total, p, AllocSize(size));
  }

  lemma FreeReturned(h: Heap, g: Heap, total: nat, p: int, a: nat)
    requires h.Inv(total) && g.Inv(total) && h.start == g.start
    requires Live(g.blocks) == Live(h.blocks) + {Block(p, a, true)}
    requires forall c :: c in Live(h.blocks) ==> c.ptr != p
    ensures Freeable(g, p) && Live(Free(g, p).blocks) == Live(h.blocks)
    ensures g.end == h.end ==> Free(g, p) == h
  {
    assert Block(p, a, true) in Live(g.blocks);
    FreeableIff(g, total, p);
    FreeKeepsInv(g, total, p);
    if g.end == h.end { HeapDetermined(Free(g, p), h, total); }
  }

  lemma ReturnedAddressIsNew(h: Heap, total: nat, size: nat)
    requires h.Inv(total) && NoWrap(size) && Malloc(h, size).1 != 0
    ensures forall c :: c in Live(h.blocks) ==> c.ptr != Malloc(h, size).1
  {
    AllocSizeCoversIff(size);
    forall c | c in Live(h.blocks) ensures c.ptr != Malloc(h, size).1 {
      ReturnedIsNew(h, total, size, c);
    }
  }

  /** The returned block overlaps no block that was live before. */
  lemma ReturnedIsNew(h: Heap, total: nat, size: nat, c: Block)
    requires h.Inv(total) && NoWrap(size) && Malloc(h, size).1 != 0 && c in Live(h.blocks)
    ensures c.End() <= Malloc(h, size).1 || Malloc(h, size).1 + AllocSize(size) <= c.ptr
  {
    AllocSizeCoversIff(size);
    TakenIsNew(h, total, AllocSize(size), c);
  }

  lemma TakenIsNew(h: Heap, total: nat, a: nat, c: Block)
    requires h.Inv(total) && a % 4 == 0 && 8 <= a && Take(h, a).1 != 0 && c in Live(h.blocks)
    ensures c.End() <= Take(h, a).1 || Take(h, a).1 + a <= c.ptr
  {
    AllOrdered(h.blocks, h.start + 4, h.end - 4);
    var j :| 0 <= j < |h.blocks| && h.blocks[j] == c;
    if FirstFit(h.blocks, a) == |h.blocks| {
      assert forall b :: b in h.blocks ==> !Fits(b, a);
      TakeGrowsLeast(h, total, a, 0);
    }
  }

  /** Freeing the addresses of ps one after the other. */
  ghost predicate AllFreeable(h: Heap, ps: seq<int>)
    decreases |ps|
  {
    ps == [] || (Freeable(h, ps[0]) && AllFreeable(Free(h, ps[0]), ps[1..]))
  }

  function FreeAll(h: Heap, ps: seq<int>): Heap
    requires AllFreeable(h, ps)
    decreases |ps|
  {
    if ps == [] then h else FreeAll(Free(h, ps[0]), ps[1..])
  }

  lemma {:induction false} FreeAllLive(h: Heap, total: nat, ps: seq<int>)
    requires h.Inv(total) && AllFreeable(h, ps)
    ensures FreeAll(h, ps).Inv(total) && FreeAll(h, ps).start == h.start && FreeAll(h, ps).end == h.end
    ensures Live(FreeAll(h, ps).blocks) == set b | b in Live(h.blocks) && b.ptr !in ps
    decreases |ps|
  {
    if ps == [] {
    } else {
      FreeKeepsInv(h, total, ps[0]);
      FreeAllLive(Free(h, ps[0]), total, ps[1..]);
    }
  }

  /** Every address in ps is that of a live block. */
  ghost predicate AreLive(h: Heap, ps: seq<int>) {
    forall i :: 0 <= i < |ps| ==> exists b :: b in Live(h.blocks) && b.ptr == ps[i]
  }

  /** Distinct live addresses can be freed in any order. */
  lemma {:induction false} DistinctFreeable(h: Heap, total: nat, ps: seq<int>)
    requires h.Inv(total)
    requires AreLive(h, ps)
    requires forall i, j :: 0 <= i < j < |ps| ==> ps[i] != ps[j]
    ensures AllFreeable(h, ps)
    decreases |ps|
  {
    if ps == [] {
    } else {
      FreeOneOf(h, total, ps);
      DistinctFreeable(Free(h, ps[0]), total, ps[1..]);
    }
  }

  lemma FreeOneOf(h: Heap, total: nat, ps: seq<int>)
    requires h.Inv(total) && ps != [] && AreLive(h, ps)
    requires forall i, j :: 0 <= i < j < |ps| ==> ps[i] != ps[j]
    ensures Freeable(h, ps[0]) && Free(h, ps[0]).Inv(total) && AreLive(Free(h, ps[0]), ps[1..])
  {
    FreeableIff(h, total, ps[0]);
    FreeKeepsInv(h, total, ps[0]);
    var live := Live(Free(h, ps[0]).blocks);
    forall i | 0 <= i < |ps[1..]| ensures exists b :: b in live && b.ptr == ps[1..][i] {
      var b :| b in Live(h.blocks) && b.ptr == ps[i + 1];
      assert b in live;
    }
  }

  /** Free order does not matter: the same set of live blocks freed in any two orders gives the same heap. */
  lemma FreeOrderIrrelevant(h: Heap, total: nat, ps: seq<int>, qs: seq<int>)
    requires h.Inv(total)
    requires AreLive(h, ps)
    requires forall i, j :: 0 <= i < j < |ps| ==> ps[i] != ps[j]
    requires multiset(ps) == multiset(qs)
    ensures AllFreeable(h, ps) && AllFreeable(h, qs)
    ensures FreeAll(h, ps) == FreeAll(h, qs)
  {
    Distinct(ps, qs);
    SameMembers(ps, qs);
    DistinctFreeable(h, total, ps);
    forall j | 0 <= j < |qs| ensures exists b :: b in Live(h.blocks) && b.ptr == qs[j] {
      assert qs[j] in qs;
      var i :| 0 <= i < |ps| && ps[i] == qs[j];
    }
    DistinctFreeable(h, total, qs);
    FreeAllSame(h, total, ps, qs);
  }

  lemma FreeAllSame(h: Heap, total: nat, ps: seq<int>, qs: seq<int>)
    requires h.Inv(total) && AllFreeable(h, ps) && AllFreeable(h, qs)
    requires forall p :: p in ps <==> p in qs
    ensures FreeAll(h, ps) == FreeAll(h, qs)
  {
    FreeAllLive(h, total, ps);
    FreeAllLive(h, total, qs);
    HeapDetermined(FreeAll(h, ps), FreeAll(h, qs), total);
  }

  lemma SameMembers(ps: seq<int>, qs: seq<int>)
    requires multiset(ps) == multiset(qs)
    ensures forall p :: p in ps <==> p in qs
  {
    assert forall p :: p in ps <==> p in multiset(ps);
    assert forall p :: p in qs <==> p in multiset(qs);
  }

  lemma Distinct(ps: seq<int>, qs: seq<int>)
    requires multiset(ps) == multiset(qs)
    requires forall i, j :: 0 <= i < j < |ps| ==> ps[i] != ps[j]
    ensures forall i, j :: 0 <= i < j < |qs| ==> qs[i] != qs[j]
  {
    forall i, j | 0 <= i < j < |qs| ensures qs[i] != qs[j] {
      if qs[i] == qs[j] {
        CountTwice(qs, i, j);
        assert qs[i] in multiset(qs);
        var k :| 0 <= k < |ps| && ps[k] == qs[i];
        CountOnce(ps, k);
      }
    }
  }

  lemma CountTwice(s: seq<int>, i: nat, j: nat)
    requires i < j < |s| && s[i] == s[j]
    ensures multiset(s)[s[i]] >= 2
  {
    assert s == s[..j] + [s[j]] + s[j + 1..];
    assert s[i] in s[..j];
    assert s[i] in multiset(s[..j]);
  }

  lemma CountOnce(s: seq<int>, k: nat)
    requires k < |s| && forall i, j :: 0 <= i < j < |s| ==> s[i] != s[j]
    ensures multiset(s)[s[k]] == 1
  {
    assert s == s[..k] + [s[k]] + s[k + 1..];
    assert s[k] !in s[..k] && s[k] !in s[k + 1..];
    assert s[k] !in multiset(s[..k]) && s[k] !in multiset(s[k + 1..]);
  }

  /** With nothing live the heap is one free block that spans it. */
  lemma EmptyHeapIsOneBlock(h: Heap, total: nat)
    requires h.Inv(total) && Live(h.blocks) == {}
    ensures h.blocks == [Block(h.start + 4, h.end - h.start - 8, false)]
  {
    AllOrdered(h.blocks, h.start + 4, h.end - 4);
    LiveDetermines(h.blocks, [Block(h.start + 4, h.end - h.start - 8, false)], h.start + 4, h.end - 4);
  }

  // ---------- Payloads ----------

  /** Live payloads are aligned, disjoint from each other and from every header and footer. */
  lemma PayloadsApart(h: Heap, total: nat, b: Block, c: Block)
    requires h.Inv(total) && b in Live(h.blocks) && c in h.blocks && b != c
    ensures b.ptr % 4 == 0 && h.start + 4 <= b.ptr && b.PayloadEnd() + 8 <= h.end
    ensures b.PayloadEnd() <= c.ptr - 4 || c.PayloadEnd() + 4 <= b.ptr
  {
    AllOrdered(h.blocks, h.start + 4, h.end - 4);
    var i :| 0 <= i < |h.blocks| && h.blocks[i] == b;
    var j :| 0 <= j < |h.blocks| && h.blocks[j] == c;
  }

  // ---------- Runs ----------

  datatype Op = OpMalloc(size: nat) | OpFree(p: int)

  ghost predicate Legal(h: Heap, op: Op) {
    match op
    case OpMalloc(size) => NoWrap(size)
    case OpFree(p) => Freeable(h, p)
  }

  function Step(h: Heap, op: Op): Heap
    requires h.blocks != [] && Legal(h, op)
  {
    match op
    case OpMalloc(size) => Malloc(h, size).0
    case OpFree(p) => Free(h, p)
  }

  /** h is reached from mm_init by a run of legal calls. */
  ghost predicate Reached(start: int, total: nat, ops: seq<Op>, h: Heap)
    requires 0 < total
    decreases |ops|
  {
    if ops == [] then h == Init(start, total)
    else exists g :: Reached(start, total, ops[..|ops| - 1], g)
           && g.blocks != [] && Legal(g, ops[|ops| - 1]) && h == Step(g, ops[|ops| - 1])
  }

  lemma StepKeepsInv(h: Heap, total: nat, op: Op)
    requires h.Inv(total) && Legal(h, op)
    ensures Step(h, op).Inv(total) && Step(h, op).start == h.start
  {
    match op
    case OpMalloc(size) => MallocKeepsInv(h, total, size);
    case OpFree(p) => FreeKeepsInv(h, total, p);
  }

  lemma InitInv(start: int, total: nat)
    requires 0 < start && start % PAGE_SIZE == 0 && 0 < total
    ensures Init(start, total).Inv(total) && Init(start, total).start == start
  {
    WordAligned(start);
    var b := Block(start + 4, PAGE_SIZE - 8, false);
    SingleTiles(b);
    hide Tiling, Coalesced;
    assert b.End() == start + PAGE_SIZE - 4;
  }

  lemma WordAligned(a: int)
    requires a % PAGE_SIZE == 0
    ensures a % 4 == 0
  {
  }

  lemma SingleTiles(b: Block)
    requires b.Good()
    ensures Tiling([b], b.ptr, b.End()) && Coalesced([b])
  {
  }

  lemma InvTotal(h: Heap, total: nat)
    requires h.Inv(total)
    ensures Total(h.blocks) == h.end - h.start - 8
  {
    Conservation(h.blocks, h.start + 4, h.end - 4);
  }

  /** Over every run: the heap is a gap-free coalesced tiling, sizes add up to the heap's extent,
      and its pages plus the free ones are all the pages. */
  lemma {:induction false} EveryRunKeepsInv(start: int, total: nat, ops: seq<Op>, h: Heap)
    requires 0 < start && start % PAGE_SIZE == 0 && 0 < total && Reached(start, total, ops, h)
    ensures h.Inv(total) && h.start == start
    ensures Total(h.blocks) == h.end - h.start - 8
    decreases |ops|
  {
    hide Heap.Inv, Step, Legal, Init, Total;
    if ops == [] {
      InitInv(start, total);
    } else {
      var op := ops[|ops| - 1];
      var g :| Reached(start, total, ops[..|ops| - 1], g) && g.blocks != [] && Legal(g, op) && h == Step(g, op);
      EveryRunKeepsInv(start, total, ops[..|ops| - 1], g);
      StepKeepsInv(g, total, op);
    }
    InvTotal(h, total);
  }
}
