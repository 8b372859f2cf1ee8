/** Headers and footers in memory: which words stand for which block sequence. */
module HeapMemory {
  import opened PageAllocator
  import opened HeapSpec
  import T = HeapTheorems

  /** A 32-bit word by its bit fields: bit 0 (BLOCK_USED), bit 1 (BLOCK_PREV_USED) and the bits above them
      in place, which is word & ~BLOCK_FLAG. */
  datatype Bits = Bits(high: int, prevUsed: bool, used: bool)

  type Word = w: Bits | 0 <= w.high < 0x1_0000_0000 && w.high % 4 == 0
    witness Bits(0, false, false)

  /** Memory, one word per aligned byte address. */
  type Ram = map<int, Word>

  /** The header tells size and use, the footer the size only. */
  ghost predicate Tagged(m: Ram, b: Block) {
    && b.ptr - 4 in m && m[b.ptr - 4].high == b.size && m[b.ptr - 4].used == b.used
    && b.End() - 8 in m && m[b.End() - 8].high == b.size
  }

  /** The block that _mm_end_block points to, in a heap whose pages end at end. */
  function EndMarker(end: int): Block { Block(end - 4, 8, true) }

  /** Memory holds the blocks bs, the end marker, and a zero word below the heap. */
  ghost predicate Represents(m: Ram, bs: seq<Block>, start: int, end: int) {
    && (forall i :: 0 <= i < |bs| ==> Tagged(m, bs[i]))
    && Tagged(m, EndMarker(end))
    && start - 4 in m && m[start - 4].high == 0
  }

  ghost predicate Mapped(m: Ram, lo: int, hi: int) {
    forall a :: lo <= a < hi && a % 4 == 0 ==> a in m
  }

  /** Only words in lo .. hi differ. */
  ghost predicate SameOutside(m: Ram, n: Ram, lo: int, hi: int) {
    m.Keys == n.Keys && forall a :: a in m && !(lo <= a < hi) ==> n[a] == m[a]
  }

  /** Every payload word of every block in live is the same in both memories. */
  ghost predicate PayloadsKept(m: Ram, n: Ram, live: set<Block>) {
    forall b, a :: b in live && a in m && b.ptr <= a < b.PayloadEnd() ==> a in n && n[a] == m[a]
  }

  lemma TaggedFrame(m: Ram, n: Ram, lo: int, hi: int, b: Block)
    requires Tagged(m, b) && SameOutside(m, n, lo, hi) && 4 <= b.size
    requires b.End() - 4 <= lo || hi <= b.ptr - 4
    ensures Tagged(n, b)
  {
  }

  /** Rewriting the bytes of the blocks i .. j-1 so that they hold mid leaves the rest standing. */
  lemma ReplaceRepresents(m: Ram, n: Ram, bs: seq<Block>, start: int, end: int, i: nat, j: nat, mid: seq<Block>)
    requires Tiling(bs, start + 4, end - 4) && Represents(m, bs, start, end) && i < j <= |bs|
    requires SameOutside(m, n, bs[i].ptr - 4, bs[j - 1].End() - 4)
    requires forall k :: 0 <= k < |mid| ==> Tagged(n, mid[k])
    ensures Represents(n, bs[..i] + mid + bs[j..], start, end)
  {
    AllOrdered(bs, start + 4, end - 4);
    var r := bs[..i] + mid + bs[j..];
    forall k | 0 <= k < |r| ensures Tagged(n, r[k]) {
      if k < i {
        assert r[k] == bs[k];
        TaggedFrame(m, n, bs[i].ptr - 4, bs[j - 1].End() - 4, bs[k]);
      } else if k < i + |mid| {
        assert r[k] == mid[k - i];
      } else {
        var q := k - i - |mid| + j;
        assert r[k] == bs[q];
        Ordered(bs, start + 4, end - 4, j - 1, q);
        TaggedFrame(m, n, bs[i].ptr - 4, bs[j - 1].End() - 4, bs[q]);
      }
    }
    TaggedFrame(m, n, bs[i].ptr - 4, bs[j - 1].End() - 4, EndMarker(end));
  }

  /** Rewriting the bytes of free blocks, and of the block x alone among the live ones, leaves every
      other live payload alone. */
  lemma ReplaceKeepsPayloads(m: Ram, n: Ram, bs: seq<Block>, lo: int, hi: int, i: nat, j: nat, x: Block)
    requires Tiling(bs, lo, hi) && i < j <= |bs|
    requires SameOutside(m, n, bs[i].ptr - 4, bs[j - 1].End() - 4)
    requires forall k :: i <= k < j && bs[k].used ==> bs[k] == x
    ensures PayloadsKept(m, n, Live(bs) - {x})
  {
    forall b, a | b in Live(bs) - {x} && a in m && b.ptr <= a < b.PayloadEnd() ensures a in n && n[a] == m[a] {
      var k :| 0 <= k < |bs| && bs[k] == b;
      assert k < i || j <= k;
      if k < i { Ordered(bs, lo, hi, k, i); } else { Ordered(bs, lo, hi, j - 1, k); }
    }
  }

  lemma SameOutsideWider(m: Ram, n: Ram, lo: int, hi: int, lo': int, hi': int)
    requires SameOutside(m, n, lo, hi) && lo' <= lo && hi <= hi'
    ensures SameOutside(m, n, lo', hi')
  {
  }

  /** Two writes one after the other, both in lo .. hi. */
  lemma SameOutsideChain(m: Ram, n: Ram, o: Ram, lo: int, mid: int, mid': int, hi': int, hi: int)
    requires SameOutside(m, n, lo, mid) && SameOutside(n, o, mid', hi') && lo <= mid' && mid <= hi && hi' <= hi
    ensures SameOutside(m, o, lo, hi)
  {
  }

  /** The words of a tagged block that the code reads. */
  lemma TagsRead(m: Ram, b: Block)
    requires Tagged(m, b)
    ensures b.ptr - 4 in m && m[b.ptr - 4].high == b.size && m[b.ptr - 4].used == b.used
    ensures b.End() - 8 in m && m[b.End() - 8].high == b.size
  {
  }

  lemma WordKept(m: Ram, n: Ram, lo: int, hi: int, a: int)
    requires SameOutside(m, n, lo, hi) && a in m && !(lo <= a < hi)
    ensures a in n && n[a] == m[a]
  {
  }

  lemma MappedAt(m: Ram, lo: int, hi: int, a: int)
    requires Mapped(m, lo, hi) && lo <= a < hi && a % 4 == 0
    ensures a in m
  {
  }

  /** A part of mapped memory is mapped. */
  lemma MappedPart(m: Ram, lo: int, hi: int, lo': int, hi': int)
    requires Mapped(m, lo, hi) && lo <= lo' && hi' <= hi
    ensures Mapped(m, lo', hi')
  {
  }

  lemma MappedStill(m: Ram, n: Ram, lo: int, hi: int, lo': int, hi': int)
    requires Mapped(m, lo, hi) && SameOutside(m, n, lo', hi')
    ensures Mapped(n, lo, hi)
  {
  }

  // ---------- Memory and heap together ----------

  /** Memory m holds the heap h, inside a mapped pool that ends at poolEnd. */
  ghost predicate Holds(m: Ram, h: Heap, total: nat, poolEnd: int) {
    && h.Inv(total) && h.end <= poolEnd < ADDRESS_SPACE
    && Represents(m, h.blocks, h.start, h.end)
    && Mapped(m, h.start - 4, poolEnd)
  }

  lemma HoldsInv(m: Ram, h: Heap, total: nat, poolEnd: int)
    requires Holds(m, h, total, poolEnd)
    ensures h.Inv(total) && h.blocks != [] && SameOutside(m, m, GrowLow(h), h.end)
  {
  }

  /** The two ends of a heap in memory. */
  lemma HoldsEnds(m: Ram, h: Heap, total: nat, poolEnd: int)
    requires Holds(m, h, total, poolEnd)
    ensures Mapped(m, h.start - 4, poolEnd) && h.end <= poolEnd < ADDRESS_SPACE
    ensures 0 < h.start && h.start % 4 == 0 && h.end % 4 == 0 && h.start + PAGE_SIZE <= h.end
    ensures Tagged(m, EndMarker(h.end))
    ensures h.start - 4 in m && m[h.start - 4].high == 0
  {
  }

  /** A block of a heap in memory: where it is, and that its words are mapped and tagged. */
  lemma BlockAt(m: Ram, h: Heap, total: nat, poolEnd: int, i: nat)
    requires Holds(m, h, total, poolEnd) && i < |h.blocks|
    ensures var b := h.blocks[i];
      && b.Good() && 0 < h.start + 4 <= b.ptr && b.End() <= h.end - 4 && 0 < b.size < ADDRESS_SPACE
      && Tagged(m, b) && Mapped(m, b.ptr - 4, b.End() - 4)
      && (i + 1 < |h.blocks| ==> h.blocks[i + 1].ptr == b.End())
      && (i + 1 == |h.blocks| ==> b.End() == h.end - 4)
  {
    AllOrdered(h.blocks, h.start + 4, h.end - 4);
    assert i + 1 < |h.blocks| ==> h.blocks[i + 1].ptr == h.blocks[i + 1 - 1].End();
  }

  lemma InitHolds(m: Ram, start: int, total: nat, poolEnd: int)
    requires 0 < start && start % PAGE_SIZE == 0 && 0 < total
    requires start + PAGE_SIZE <= poolEnd < ADDRESS_SPACE && Mapped(m, start - 4, poolEnd)
    requires start - 4 in m && m[start - 4].high == 0
    requires Tagged(m, Block(start + 4, PAGE_SIZE - 8, false)) && Tagged(m, EndMarker(start + PAGE_SIZE))
    ensures Holds(m, Init(start, total), total, poolEnd)
  {
    T.InitInv(start, total);
    hide Heap.Inv, Tagged, Mapped;
  }

  lemma PlaceHolds(m: Ram, n: Ram, h: Heap, total: nat, poolEnd: int, i: nat, a: nat)
    requires Holds(m, h, total, poolEnd)
    requires i < |h.blocks| && Fits(h.blocks[i], a) && a % 4 == 0 && 8 <= a
    requires SameOutside(m, n, h.blocks[i].ptr - 4, h.blocks[i].End() - 4)
    requires forall k :: 0 <= k < |Split(h.blocks[i], a)| ==> Tagged(n, Split(h.blocks[i], a)[k])
    ensures Holds(n, PlaceIn(h, i, a), total, poolEnd)
  {
    assert PlaceIn(h, i, a).Inv(total) by { T.PlaceInKeeps(h, total, i, a); }
    assert Represents(n, PlaceIn(h, i, a).blocks, h.start, h.end) by {
      ReplaceRepresents(m, n, h.blocks, h.start, h.end, i, i + 1, Split(h.blocks[i], a));
    }
  }

  lemma FreeBytesKeepPayloads(m: Ram, n: Ram, bs: seq<Block>, lo: int, hi: int, i: nat)
    requires Tiling(bs, lo, hi) && i < |bs| && !bs[i].used
    requires SameOutside(m, n, bs[i].ptr - 4, bs[i].End() - 4)
    ensures PayloadsKept(m, n, Live(bs))
  {
    ReplaceKeepsPayloads(m, n, bs, lo, hi, i, i + 1, bs[i]);
    assert Live(bs) - {bs[i]} == Live(bs);
  }

  /** The block that freeing bs[i] leaves there. */
  function Merged(bs: seq<Block>, i: nat): Block
    requires i < |bs|
  {
    var l, h := MergeLow(bs, i), MergeHigh(bs, i);
    Block(bs[l].ptr, bs[h].End() - bs[l].ptr, false)
  }

  lemma FreeHolds(m: Ram, n: Ram, h: Heap, total: nat, poolEnd: int, i: nat)
    requires Holds(m, h, total, poolEnd) && i < |h.blocks| && h.blocks[i].used
    requires SameOutside(m, n, Merged(h.blocks, i).ptr - 4, Merged(h.blocks, i).End() - 4)
    requires Tagged(n, Merged(h.blocks, i))
    ensures Holds(n, h.(blocks := FreeAt(h.blocks, i)), total, poolEnd)
    ensures PayloadsKept(m, n, Live(FreeAt(h.blocks, i)))
  {
    hide Tiling, PayloadsKept, Represents, Coalesced, Live, Tagged;
    var bs := h.blocks;
    var l, u := MergeLow(bs, i), MergeHigh(bs, i);
    assert bs[l].ptr - 4 == Merged(bs, i).ptr - 4 && bs[u].End() - 4 == Merged(bs, i).End() - 4;
    T.FreeAtTiles(bs, h.start + 4, h.end - 4, i);
    ReplaceRepresents(m, n, bs, h.start, h.end, l, u + 1, [Merged(bs, i)]);
    ReplaceKeepsPayloads(m, n, bs, h.start + 4, h.end - 4, l, u + 1, bs[i]);
    T.FreeAtLive(bs, h.start + 4, h.end - 4, i);
  }

  // ---------- Growing and shrinking ----------

  /** Growing writes from the header of the free tail, or of the end marker, upwards. */
  function GrowLow(h: Heap): int
    requires h.blocks != []
  {
    if TailFree(h.blocks) then h.blocks[|h.blocks| - 1].ptr - 4 else h.end - 8
  }

  /** Shrinking back may also rewrite the footer of the last block. */
  function ShrinkLow(h: Heap): int
    requires h.blocks != []
  {
    if TailFree(h.blocks) then h.blocks[|h.blocks| - 1].ptr - 4 else h.end - 12
  }

  lemma GrowTwice(h: Heap, total: nat, k: nat)
    requires h.Inv(total) && k < h.freePages
    ensures Grow(Grow(h, k), 1) == Grow(h, k + 1)
    ensures Grow(h, 0) == h
    ensures Grow(h, k).blocks != [] && GrowLow(h) <= GrowLow(Grow(h, k))
  {
    AllOrdered(h.blocks, h.start + 4, h.end - 4);
  }

  /** All blocks but a free last one are at the same places after growing. */
  lemma GrowPrefix(h: Heap, k: nat, i: nat)
    requires k <= h.freePages && i < |h.blocks|
    requires i < |h.blocks| - 1 || !TailFree(h.blocks)
    ensures i < |Grow(h, k).blocks| && Grow(h, k).blocks[i] == h.blocks[i]
  {
  }

  lemma GrowHolds(m: Ram, n: Ram, h: Heap, total: nat, poolEnd: int)
    requires Holds(m, h, total, poolEnd) && 0 < h.freePages && h.end + PAGE_SIZE <= poolEnd
    requires SameOutside(m, n, GrowLow(h), h.end + PAGE_SIZE)
    requires var bs := Grow(h, 1).blocks; Tagged(n, bs[|bs| - 1])
    requires Tagged(n, EndMarker(h.end + PAGE_SIZE))
    ensures Holds(n, Grow(h, 1), total, poolEnd)
  {
    var bs := Grow(h, 1).blocks;
    forall i | 0 <= i < |bs| ensures Tagged(n, bs[i]) {
      if i < |bs| - 1 { GrowKeepsTags(m, n, h, total, poolEnd, i); }
    }
    GuardKept(m, n, h, total, poolEnd);
    hide Heap.Inv, Tagged, Mapped, SameOutside;
    T.GrowHeapKeeps(h, total, 1);
  }

  /** Growing rewrites no tag of a block in front of the last one. */
  lemma GrowKeepsTags(m: Ram, n: Ram, h: Heap, total: nat, poolEnd: int, i: nat)
    requires Holds(m, h, total, poolEnd) && 0 < h.freePages && i < |Grow(h, 1).blocks| - 1
    requires SameOutside(m, n, GrowLow(h), h.end + PAGE_SIZE)
    ensures Tagged(n, Grow(h, 1).blocks[i])
  {
    GrowPrefix(h, 1, i);
    BlockAt(m, h, total, poolEnd, i);
    AllOrdered(h.blocks, h.start + 4, h.end - 4);
    hide Holds, Tagged, SameOutside;
    TaggedFrame(m, n, GrowLow(h), h.end + PAGE_SIZE, h.blocks[i]);
  }

  lemma GuardKept(m: Ram, n: Ram, h: Heap, total: nat, poolEnd: int)
    requires Holds(m, h, total, poolEnd) && SameOutside(m, n, GrowLow(h), h.end + PAGE_SIZE)
    ensures h.start - 4 in n && n[h.start - 4].high == 0 && Mapped(n, h.start - 4, poolEnd)
  {
    AllOrdered(h.blocks, h.start + 4, h.end - 4);
    assert n[h.start - 4] == m[h.start - 4];
  }

  /** Once the tags of the last block and of the end marker are back, memory holds the old heap again. */
  lemma ShrinkHolds(m: Ram, n: Ram, h: Heap, k: nat, total: nat, poolEnd: int)
    requires h.Inv(total) && k <= h.freePages && Holds(m, Grow(h, k), total, poolEnd)
    requires SameOutside(m, n, ShrinkLow(h), Grow(h, k).end)
    requires Tagged(n, h.blocks[|h.blocks| - 1]) && Tagged(n, EndMarker(h.end))
    ensures Holds(n, h, total, poolEnd)
  {
    var bs := h.blocks;
    AllOrdered(bs, h.start + 4, h.end - 4);
    forall i | 0 <= i < |bs| ensures Tagged(n, bs[i]) {
      if i < |bs| - 1 {
        GrowPrefix(h, k, i);
        TaggedFrame(m, n, ShrinkLow(h), Grow(h, k).end, bs[i]);
      }
    }
    assert n[h.start - 4] == m[h.start - 4];
  }

  /** Where the last block of the old heap is in the grown one. */
  lemma OldLast(m: Ram, h: Heap, k: nat, total: nat, poolEnd: int)
    requires h.Inv(total) && k <= h.freePages && Holds(m, Grow(h, k), total, poolEnd)
    ensures var b, bs := h.blocks[|h.blocks| - 1], Grow(h, k).blocks;
      && b.Good() && h.start + 4 <= b.ptr && b.End() == h.end - 4 && bs != []
      && Mapped(m, b.ptr - 4, h.end)
      && (if b.used then Tagged(m, b) && (bs[|bs| - 1].ptr == b.ptr || bs[|bs| - 1].ptr == h.end - 4)
          else bs[|bs| - 1].ptr == b.ptr && b.ptr - 4 in m && !m[b.ptr - 4].used)
  {
    var n := |h.blocks| - 1;
    AllOrdered(h.blocks, h.start + 4, h.end - 4);
    var bs := Grow(h, k).blocks;
    if h.blocks[n].used { GrowPrefix(h, k, n); }
    assert Tagged(m, bs[|bs| - 1]);
  }

  lemma TailWritesKeepPayloads(m: Ram, n: Ram, h: Heap, total: nat, hi: int)
    requires h.Inv(total) && SameOutside(m, n, ShrinkLow(h), hi)
    ensures PayloadsKept(m, n, Live(h.blocks))
  {
    AllOrdered(h.blocks, h.start + 4, h.end - 4);
    forall b, a | b in Live(h.blocks) && a in m && b.ptr <= a < b.PayloadEnd() ensures a in n && n[a] == m[a] {
      var k :| 0 <= k < |h.blocks| && h.blocks[k] == b;
    }
  }

  lemma SameOutsideTrans(m: Ram, n: Ram, o: Ram, lo: int, hi: int, hi': int)
    requires SameOutside(m, n, lo, hi) && SameOutside(n, o, lo, hi') && hi <= hi'
    ensures SameOutside(m, o, lo, hi')
  {
  }

  lemma ChainGrow(m: Ram, n: Ram, o: Ram, h: Heap, total: nat, k: nat, end: int, end': int)
    requires h.Inv(total) && k < h.freePages && end <= end'
    requires SameOutside(m, n, GrowLow(h), end)
    requires Grow(h, k).blocks != [] && SameOutside(n, o, GrowLow(Grow(h, k)), end')
    ensures SameOutside(m, o, GrowLow(h), end')
  {
    GrowTwice(h, total, k);
    SameOutsideWider(n, o, GrowLow(Grow(h, k)), end', GrowLow(h), end');
    SameOutsideTrans(m, n, o, GrowLow(h), end, end');
  }

  lemma ChainRollback(m: Ram, n: Ram, o: Ram, h: Heap, total: nat, end: int)
    requires h.Inv(total)
    requires SameOutside(m, n, GrowLow(h), end) && SameOutside(n, o, ShrinkLow(h), end)
    ensures PayloadsKept(m, o, Live(h.blocks))
  {
    SameOutsideWider(m, n, GrowLow(h), end, ShrinkLow(h), end);
    SameOutsideTrans(m, n, o, ShrinkLow(h), end, end);
    TailWritesKeepPayloads(m, o, h, total, end);
  }

  lemma ChainDone(m: Ram, n: Ram, h: Heap, total: nat, end: int)
    requires h.Inv(total) && SameOutside(m, n, GrowLow(h), end)
    ensures PayloadsKept(m, n, Live(h.blocks))
  {
    SameOutsideWider(m, n, GrowLow(h), end, ShrinkLow(h), end);
    TailWritesKeepPayloads(m, n, h, total, end);
  }

  lemma PayloadsSame(m: Ram, live: set<Block>)
    ensures PayloadsKept(m, m, live)
  {
  }

  lemma PayloadsTrans(m: Ram, n: Ram, o: Ram, live: set<Block>)
    requires PayloadsKept(m, n, live) && PayloadsKept(n, o, live)
    ensures PayloadsKept(m, o, live)
  {
  }

  // ---------- Payloads may hold anything ----------

  /** A store into the payload of a live block leaves every header and footer standing. */
  lemma PayloadWriteHolds(m: Ram, h: Heap, total: nat, poolEnd: int, b: Block, a: int, w: Word)
    requires Holds(m, h, total, poolEnd) && b in Live(h.blocks) && b.ptr <= a < b.PayloadEnd() && a % 4 == 0
    ensures a in m && Holds(m[a := w], h, total, poolEnd)
  {
    var n := m[a := w];
    var j :| 0 <= j < |h.blocks| && h.blocks[j] == b;
    BlockAt(m, h, total, poolEnd, j);
    forall i | 0 <= i < |h.blocks| ensures Tagged(n, h.blocks[i]) {
      BlockAt(m, h, total, poolEnd, i);
      if h.blocks[i] != b { T.PayloadsApart(h, total, b, h.blocks[i]); }
    }
  }
}
