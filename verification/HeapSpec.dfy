/** What the heap does, on the sequence of its blocks: first fit, growth by whole pages, coalescing. */
module HeapSpec {
  import opened PageAllocator

  const MAX_MEM_ALLOC := 64 * 1024 * 1024

  /** A block covers the bytes ptr-4 .. ptr+size-4: header, payload, footer. */
  datatype Block = Block(ptr: int, size: int, used: bool) {
    function End(): int { ptr + size }

    /** Where the payload ends and the footer begins. */
    function PayloadEnd(): int { ptr + size - 8 }

    predicate Good() {
      ptr % 4 == 0 && size % 4 == 0 && 4 <= size && (used ==> 8 <= size)
    }
  }

  /** bs tiles the bytes lo .. hi without gap or overlap. */
  ghost predicate Tiling(bs: seq<Block>, lo: int, hi: int) {
    && (if bs == [] then lo == hi else bs[0].ptr == lo && bs[|bs| - 1].End() == hi)
    && (forall i :: 0 <= i < |bs| ==> bs[i].Good())
    && (forall i :: 0 < i < |bs| ==> bs[i].ptr == bs[i - 1].End())
  }

  /** No two neighbours are both free. */
  ghost predicate Coalesced(bs: seq<Block>) {
    forall i :: 0 < i < |bs| ==> bs[i].used || bs[i - 1].used
  }

  ghost function Live(bs: seq<Block>): set<Block> {
    set b | b in bs && b.used
  }

  /** The heap: its pages are start .. end, its blocks tile start+4 .. end-4. */
  datatype Heap = Heap(start: int, end: int, blocks: seq<Block>, freePages: nat) {
    function EndBlock(): int { end - 4 }

    ghost predicate Inv(totalPages: nat) {
      && 0 < start && start % PAGE_SIZE == 0
      && freePages < totalPages
      && end - start == PAGE_SIZE * (totalPages - freePages)
      && Tiling(blocks, start + 4, end - 4)
      && Coalesced(blocks)
    }
  }

  // ---------- Operations ----------

  /** _get_alloc_size, with the 32-bit wrap of size_t. */
  function AllocSize(size: nat): (a: nat)
    requires size < 0x1_0000_0000
  {
    var a := (size + 8) % 0x1_0000_0000;
    if a % 4 != 0 then (a + (4 - a % 4)) % 0x1_0000_0000 else a
  }

  /** The request does not wrap 32 bits when header, footer and rounding are added. */
  predicate NoWrap(size: nat) { size <= 0xFFFF_FFF4 }

  function Fits(b: Block, a: nat): bool { !b.used && a <= b.size }

  /** The lowest block that is free and large enough, or |bs|. */
  function FirstFit(bs: seq<Block>, a: nat): (i: nat)
    ensures i <= |bs|
    ensures i < |bs| ==> Fits(bs[i], a)
    ensures forall j :: 0 <= j < i ==> !Fits(bs[j], a)
  {
    if bs == [] || Fits(bs[0], a) then 0
    else 1 + FirstFit(bs[1..], a)
  }

  /** One free block after a bytes were taken from its front. */
  function Split(b: Block, a: nat): seq<Block> {
    if a < b.size then [Block(b.ptr, a, true), Block(b.ptr + a, b.size - a, false)]
    else [b.(used := true)]
  }

  function Place(bs: seq<Block>, i: nat, a: nat): seq<Block>
    requires i < |bs|
  {
    bs[..i] + Split(bs[i], a) + bs[i + 1..]
  }

  predicate TailFree(bs: seq<Block>) { bs != [] && !bs[|bs| - 1].used }

  function TailSize(bs: seq<Block>): int {
    if TailFree(bs) then bs[|bs| - 1].size else 0
  }

  /** The blocks after the end block moved up from endBlock to newEnd. */
  function Extend(bs: seq<Block>, endBlock: int, newEnd: int): seq<Block> {
    if newEnd == endBlock then bs
    else if TailFree(bs) then bs[..|bs| - 1] + [bs[|bs| - 1].(size := newEnd - bs[|bs| - 1].ptr)]
    else bs + [Block(endBlock, newEnd - endBlock, false)]
  }

  /** The fewest pages that make the tail at least a bytes. */
  function PagesNeeded(bs: seq<Block>, a: nat): int {
    (a - TailSize(bs) + PAGE_SIZE - 1) / PAGE_SIZE
  }

  /** The heap after a bytes were taken from the free block at i. */
  function PlaceIn(h: Heap, i: nat, a: nat): Heap
    requires i < |h.blocks|
  {
    h.(blocks := Place(h.blocks, i, a))
  }

  /** The heap after it grew by k pages. */
  function Grow(h: Heap, k: nat): Heap
    requires k <= h.freePages
  {
    Heap(h.start, h.end + PAGE_SIZE * k, Extend(h.blocks, h.EndBlock(), h.EndBlock() + PAGE_SIZE * k), h.freePages - k)
  }

  /** Taking a block of a bytes: the heap afterwards and the address, 0 for NULL. */
  function Take(h: Heap, a: nat): (Heap, int)
    requires h.blocks != []
  {
    var i := FirstFit(h.blocks, a);
    var k := PagesNeeded(h.blocks, a);
    if i < |h.blocks| then (PlaceIn(h, i, a), h.blocks[i].ptr)
    else if 0 <= k <= h.freePages then
      var g := Grow(h, k);
      (PlaceIn(g, |g.blocks| - 1, a), g.blocks[|g.blocks| - 1].ptr)
    else (h, 0)
  }

  /** mm_malloc */
  function Malloc(h: Heap, size: nat): (Heap, int)
    requires h.blocks != [] && size < 0x1_0000_0000
  {
    if AllocSize(size) > MAX_MEM_ALLOC then (h, 0) else Take(h, AllocSize(size))
  }

  /** The position of the block at p, or |bs|. */
  function IndexOf(bs: seq<Block>, p: int): (i: nat)
    ensures i <= |bs| && (i < |bs| ==> bs[i].ptr == p)
    ensures forall j :: 0 <= j < i ==> bs[j].ptr != p
  {
    if bs == [] || bs[0].ptr == p then 0 else 1 + IndexOf(bs[1..], p)
  }

  /** First and last block that the free block at i is merged with. */
  function MergeLow(bs: seq<Block>, i: nat): nat
    requires i < |bs|
  {
    if 0 < i && !bs[i - 1].used then i - 1 else i
  }

  function MergeHigh(bs: seq<Block>, i: nat): nat
    requires i < |bs|
  {
    if i + 1 < |bs| && !bs[i + 1].used then i + 1 else i
  }

  function FreeAt(bs: seq<Block>, i: nat): seq<Block>
    requires i < |bs|
  {
    var lo, hi := MergeLow(bs, i), MergeHigh(bs, i);
    bs[..lo] + [Block(bs[lo].ptr, bs[hi].End() - bs[lo].ptr, false)] + bs[hi + 1..]
  }

  /** p is NULL or the address of a live block. */
  predicate Freeable(h: Heap, p: int) {
    p == 0 || (IndexOf(h.blocks, p) < |h.blocks| && h.blocks[IndexOf(h.blocks, p)].used)
  }

  /** mm_free */
  function Free(h: Heap, p: int): Heap
    requires Freeable(h, p)
  {
    if p == 0 then h else h.(blocks := FreeAt(h.blocks, IndexOf(h.blocks, p)))
  }

  /** mm_init over a pool of totalPages pages, of which it takes the first. */
  function Init(start: int, totalPages: nat): Heap
    requires 0 < totalPages
  {
    Heap(start, start + PAGE_SIZE, [Block(start + 4, PAGE_SIZE - 8, false)], totalPages - 1)
  }

  // ---------- Tilings ----------

  /** Blocks are in address order. */
  lemma {:induction false} Ordered(bs: seq<Block>, lo: int, hi: int, i: nat, j: nat)
    requires Tiling(bs, lo, hi) && i < j < |bs|
    ensures bs[i].End() <= bs[j].ptr
    decreases j
  {
    if i == j - 1 {
    } else {
      Ordered(bs, lo, hi, i, j - 1);
    }
  }

  lemma AllOrdered(bs: seq<Block>, lo: int, hi: int)
    requires Tiling(bs, lo, hi)
    ensures forall i, j :: 0 <= i < j < |bs| ==> bs[i].End() <= bs[j].ptr
    ensures forall i :: 0 <= i < |bs| ==> lo <= bs[i].ptr && bs[i].End() <= hi
  {
    forall i, j | 0 <= i < j < |bs| ensures bs[i].End() <= bs[j].ptr { Ordered(bs, lo, hi, i, j); }
  }

  /** Replacing the blocks i .. j-1 by others that tile the same bytes gives a tiling. */
  lemma ReplaceTiling(bs: seq<Block>, lo: int, hi: int, i: nat, j: nat, mid: seq<Block>)
    requires Tiling(bs, lo, hi) && i < j <= |bs|
    requires mid != [] && Tiling(mid, bs[i].ptr, bs[j - 1].End())
    ensures Tiling(bs[..i] + mid + bs[j..], lo, hi)
  {
    var r := bs[..i] + mid + bs[j..];
    forall k | 0 <= k < |r| ensures r[k].Good() {
      assert r[k] in bs[..i] || r[k] in mid || r[k] in bs[j..];
    }
    forall k | 0 < k < |r| ensures r[k].ptr == r[k - 1].End() {
      if k < i { assert r[k] == bs[k] && r[k - 1] == bs[k - 1]; }
      else if k < i + |mid| { assert r[k] == mid[k - i]; }
      else { assert r[k] == bs[k - i - |mid| + j]; }
    }
  }

  /** Where the join is coalesced on both sides, so is the replacement. */
  lemma ReplaceCoalesced(bs: seq<Block>, i: nat, j: nat, mid: seq<Block>)
    requires Coalesced(bs) && i < j <= |bs| && mid != [] && Coalesced(mid)
    requires 0 < i ==> bs[i - 1].used || mid[0].used
    requires j < |bs| ==> bs[j].used || mid[|mid| - 1].used
    ensures Coalesced(bs[..i] + mid + bs[j..])
  {
    var r := bs[..i] + mid + bs[j..];
    forall k | 0 < k < |r| ensures r[k].used || r[k - 1].used {
      if k < i { assert r[k] == bs[k] && r[k - 1] == bs[k - 1]; }
      else if k < i + |mid| { assert r[k] == mid[k - i]; }
      else { assert r[k] == bs[k - i - |mid| + j]; }
    }
  }

  lemma LiveConcat(a: seq<Block>, b: seq<Block>, c: seq<Block>)
    ensures Live(a + b + c) == Live(a) + Live(b) + Live(c)
  {
    assert forall x :: x in a + b + c <==> x in a || x in b || x in c;
  }

  /** Conservation: the block sizes add up to the tiled range. */
  ghost function Total(bs: seq<Block>): int {
    if bs == [] then 0 else bs[0].size + Total(bs[1..])
  }

  lemma {:induction false} Conservation(bs: seq<Block>, lo: int, hi: int)
    requires Tiling(bs, lo, hi)
    ensures Total(bs) == hi - lo
    decreases |bs|
  {
    if bs == [] {
    } else {
      assert forall i :: 0 < i < |bs[1..]| ==> bs[1..][i - 1] == bs[i];
      Conservation(bs[1..], bs[0].End(), hi);
    }
  }

  // ---------- The live blocks determine the heap ----------

  lemma TailOfTiling(bs: seq<Block>, lo: int, hi: int)
    requires Tiling(bs, lo, hi) && Coalesced(bs) && bs != []
    ensures Tiling(bs[1..], bs[0].End(), hi) && Coalesced(bs[1..])
    ensures Live(bs[1..]) == Live(bs) - {bs[0]}
  {
    var t := bs[1..];
    assert forall i :: 0 < i < |t| ==> t[i - 1] == bs[i];
    AllOrdered(bs, lo, hi);
    assert bs == [bs[0]] + t;
    assert forall b :: b in bs <==> b == bs[0] || b in t;
    assert bs[0] !in t;
  }

  /** A free first block cannot be longer than the free first block of a tiling with the same live blocks. */
  lemma FreeHeadBound(xs: seq<Block>, ys: seq<Block>, lo: int, hi: int)
    requires Tiling(xs, lo, hi) && Coalesced(xs) && Tiling(ys, lo, hi) && Coalesced(ys)
    requires xs != [] && ys != [] && Live(xs) == Live(ys)
    requires !xs[0].used && !ys[0].used
    ensures ys[0].size <= xs[0].size
  {
    AllOrdered(ys, lo, hi);
    if |xs| > 1 {
      assert xs[1] in Live(xs);
      assert xs[1] in ys;
      var j :| 0 <= j < |ys| && ys[j] == xs[1];
      assert xs[1 - 1].End() == xs[1].ptr;
      assert 0 < j;
    }
  }

  lemma UsedHead(xs: seq<Block>, ys: seq<Block>, lo: int, hi: int)
    requires Tiling(xs, lo, hi) && Tiling(ys, lo, hi) && xs != [] && ys != []
    requires Live(xs) == Live(ys) && xs[0].used
    ensures xs[0] == ys[0]
  {
    AllOrdered(ys, lo, hi);
    assert xs[0] in Live(ys);
  }

  lemma HeadsEqual(xs: seq<Block>, ys: seq<Block>, lo: int, hi: int)
    requires Tiling(xs, lo, hi) && Coalesced(xs) && Tiling(ys, lo, hi) && Coalesced(ys)
    requires xs != [] && ys != [] && Live(xs) == Live(ys)
    ensures xs[0] == ys[0]
  {
    if xs[0].used {
      UsedHead(xs, ys, lo, hi);
    } else if ys[0].used {
      UsedHead(ys, xs, lo, hi);
    } else {
      FreeHeadBound(xs, ys, lo, hi);
      FreeHeadBound(ys, xs, lo, hi);
    }
  }

  /** Two coalesced tilings of the same bytes with the same live blocks are equal. */
  lemma {:induction false} LiveDetermines(xs: seq<Block>, ys: seq<Block>, lo: int, hi: int)
    requires Tiling(xs, lo, hi) && Coalesced(xs) && Tiling(ys, lo, hi) && Coalesced(ys)
    requires Live(xs) == Live(ys)
    ensures xs == ys
    decreases |xs|
  {
    AllOrdered(xs, lo, hi);
    AllOrdered(ys, lo, hi);
    if xs == [] || ys == [] {
      assert xs == [] && ys == [];
    } else {
      HeadsEqual(xs, ys, lo, hi);
      TailOfTiling(xs, lo, hi);
      TailOfTiling(ys, lo, hi);
      LiveDetermines(xs[1..], ys[1..], xs[0].End(), hi);
      assert xs == [xs[0]] + xs[1..] && ys == [ys[0]] + ys[1..];
    }
  }
}
