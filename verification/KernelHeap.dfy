/** mm_init, mm_malloc and mm_free over words of memory and the page allocator. */
module KernelHeap {
  import opened PageAllocator
  import opened HeapSpec
  import opened HeapMemory
  import T = HeapTheorems

  // ---------- The heap's pages ----------

  /** The first k pages are one-page blocks, the others are free. */
  ghost predicate Prefix(fl: seq<bv8>, k: int) {
    forall i :: 0 <= i < |fl| ==> fl[i] == if i < k then PAGE_TAKEN | PAGE_LAST else 0
  }

  /** First fit for one page finds the first page after the prefix. */
  lemma NextPage(fl: seq<bv8>, k: nat, i: nat)
    requires Prefix(fl, k) && k <= |fl| && RunFree(fl, i, 1)
    requires forall j: nat :: j < i ==> !RunFree(fl, j, 1)
    ensures i == k && Prefix(Marked(fl, i, 1), k + 1)
  {
    assert !Taken(fl[i]);
    assert k <= i;
    if k < i { assert RunFree(fl, k, 1); }
  }

  lemma NoneTaken(flags: array<bv8>)
    requires forall i :: 0 <= i < flags.Length ==> flags[i] == 0
    ensures Prefix(flags[..], 0)
  {
  }

  /** Writing the first page keeps the pool mapped and the word in front of it. */
  lemma FirstPageWritten(m: Ram, n: Ram, start: int, poolEnd: int)
    requires Mapped(m, start - 4, poolEnd) && start - 4 in m && SameOutside(m, n, start, start + PAGE_SIZE)
    ensures Mapped(n, start - 4, poolEnd) && start - 4 in n && n[start - 4] == m[start - 4]
  {
  }

  lemma NoPageLeft(fl: seq<bv8>, k: nat)
    requires Prefix(fl, k) && k <= |fl|
    ensures (exists i: nat :: RunFree(fl, i, 1)) <==> k < |fl|
  {
    if k < |fl| { assert RunFree(fl, k, 1); }
    if i: nat :| RunFree(fl, i, 1) { assert !Taken(fl[i]); }
  }

  lemma LastPage(fl: seq<bv8>, k: nat)
    requires WellFormed(fl) && Prefix(fl, k) && 0 < k <= |fl|
    ensures WalkLength(fl, k - 1) == 1 && Prefix(Cleared(fl, k - 1, 1), k - 1)
    ensures WellFormed(Cleared(fl, k - 1, 1))
  {
  }

  /** The last block after one more page, when it was b before. */
  function Extended(b: Block): Block {
    if b.used then Block(b.End(), PAGE_SIZE, false) else Block(b.ptr, b.size + PAGE_SIZE, false)
  }

  /** The last block of a heap that can grow, and what a page more makes of it. */
  lemma LastToGrow(m: Ram, h: Heap, total: nat, poolEnd: int) returns (b: Block)
    requires Holds(m, h, total, poolEnd) && 0 < h.freePages && h.end + PAGE_SIZE <= poolEnd
    ensures b.Good() && Tagged(m, b) && b.End() == h.end - 4 && 0 < b.ptr && h.end + PAGE_SIZE <= ADDRESS_SPACE
    ensures Mapped(m, b.ptr - 4, h.end + PAGE_SIZE) && (h.end - 4) % 4 == 0
    ensures Extended(b).Good() && Extended(b).End() == h.end + PAGE_SIZE - 4 && b.ptr <= Extended(b).ptr
    ensures var bs := Grow(h, 1).blocks; bs != [] && bs[|bs| - 1] == Extended(b) && GrowLow(h) == Extended(b).ptr - 4
  {
    hide Mapped, Tagged;
    HoldsInv(m, h, total, poolEnd);
    HoldsEnds(m, h, total, poolEnd);
    hide Holds;
    b := h.blocks[|h.blocks| - 1];
    BlockAt(m, h, total, poolEnd, |h.blocks| - 1);
    GrownLast(h, total);
    MappedPart(m, h.start - 4, poolEnd, b.ptr - 4, h.end + PAGE_SIZE);
  }

  lemma GrownLast(h: Heap, total: nat)
    requires h.Inv(total) && 0 < h.freePages
    ensures h.blocks != [] && Grow(h, 1).blocks != []
    ensures var b, bs := h.blocks[|h.blocks| - 1], Grow(h, 1).blocks;
      bs[|bs| - 1] == Extended(b) && GrowLow(h) == Extended(b).ptr - 4 && b.End() == h.end - 4 && b.Good()
  {
  }

  /** b freed, together with the block c after it when that is free. */
  function Joined(b: Block, c: Block): Block {
    if c.used then b.(used := false) else Block(b.ptr, b.size + c.size, false)
  }

  /** The block after block i in memory, which may be the end marker. */
  lemma NextBlock(m: Ram, h: Heap, total: nat, poolEnd: int, i: nat)
    requires Holds(m, h, total, poolEnd) && i < |h.blocks|
    ensures var b := h.blocks[i];
            var c := if i + 1 < |h.blocks| then h.blocks[i + 1] else EndMarker(h.end);
      && b.Good() && Tagged(m, b) && 0 < h.start + 4 <= b.ptr
      && c.Good() && c.ptr == b.End() && Tagged(m, c)
      && (if c.ptr == h.end - 4 then c.used else c.End() <= h.end - 4) && h.end <= ADDRESS_SPACE
  {
    hide Holds, Tagged, Mapped;
    HoldsEnds(m, h, total, poolEnd);
    BlockAt(m, h, total, poolEnd, i);
    if i + 1 < |h.blocks| { BlockAt(m, h, total, poolEnd, i + 1); }
  }

  /** The block before block i in memory, or the zero word below the first one. */
  lemma PrevBlock(m: Ram, h: Heap, total: nat, poolEnd: int, i: nat)
    requires Holds(m, h, total, poolEnd) && i < |h.blocks|
    ensures var b := h.blocks[i];
      if 0 < i then
        var a := h.blocks[i - 1];
        a.Good() && a.End() == b.ptr && Tagged(m, a) && h.start + 4 <= a.ptr < b.ptr
      else
        b.ptr == h.start + 4 && b.ptr - 8 in m && m[b.ptr - 8].high == 0
  {
    HoldsEnds(m, h, total, poolEnd);
    if 0 < i {
      hide Holds, Tagged, Mapped;
      BlockAt(m, h, total, poolEnd, i);
      BlockAt(m, h, total, poolEnd, i - 1);
    }
  }

  /** What freeing block i leaves there, from its neighbours. */
  lemma MergedIs(h: Heap, total: nat, i: nat)
    requires h.Inv(total) && i < |h.blocks|
    ensures var c := if i + 1 < |h.blocks| then h.blocks[i + 1] else EndMarker(h.end);
            var j := Joined(h.blocks[i], c);
      Merged(h.blocks, i) == if 0 < i && !h.blocks[i - 1].used
                             then Block(h.blocks[i - 1].ptr, j.End() - h.blocks[i - 1].ptr, false)
                             else j
  {
    assert i + 1 < |h.blocks| ==> h.blocks[i + 1].ptr == h.blocks[i + 1 - 1].End();
  }

  lemma PrefixUnique(fl: seq<bv8>, gl: seq<bv8>, k: int)
    requires Prefix(fl, k) && Prefix(gl, k) && |fl| == |gl|
    ensures fl == gl
  {
  }

  /** The address that a scan over the blocks is at. */
  function ScanAt(bs: seq<Block>, i: nat, endBlock: int): int
    requires i <= |bs|
  {
    if i < |bs| then bs[i].ptr else endBlock
  }

  /** A scan that is at block i, or at the end block, and how it goes on. */
  lemma ScanFacts(m: Ram, h: Heap, total: nat, poolEnd: int, i: nat)
    requires Holds(m, h, total, poolEnd) && i <= |h.blocks|
    ensures ScanAt(h.blocks, 0, h.end - 4) == h.start + 4
    ensures ScanAt(h.blocks, i, h.end - 4) < h.end - 4 <==> i < |h.blocks|
    ensures i < |h.blocks| ==>
      var b := h.blocks[i];
      && b.ptr - 4 in m && m[b.ptr - 4].high == b.size && m[b.ptr - 4].used == b.used
      && ScanAt(h.blocks, i, h.end - 4) == b.ptr && ScanAt(h.blocks, i + 1, h.end - 4) == b.ptr + b.size
  {
    hide Mapped;
    HoldsInv(m, h, total, poolEnd);
    BlockAt(m, h, total, poolEnd, 0);
    if i < |h.blocks| { BlockAt(m, h, total, poolEnd, i); }
  }

  class HeapManager {
    const pages: Pages
    const footerOnTake: bool  // whether a block taken whole also gets its footer rewritten, as in the first version
    var ram: Ram
    var mmStart: int
    var mmEnd: int
    var mmStartBlock: int
    var mmEndBlock: int
    ghost var model: Heap  // what this heap is, as a value

    ghost predicate Valid()
      reads this, pages, pages.flags
    {
      && pages.Valid()
      && mmStart == model.start == pages.allocStart && mmEnd == model.end
      && mmStartBlock == mmStart + 4 && mmEndBlock == mmEnd - 4
      && Holds(ram, model, pages.numPages, pages.AllocEnd())
      && Prefix(pages.flags[..], pages.numPages - model.freePages)
    }

    // ---------- Headers and footers ----------

    function IsUsed(p: int): bool
      requires p - 4 in ram
      reads this`ram
    {
      ram[p - 4].used
    }

    function GetSize(p: int): int
      requires p - 4 in ram
      reads this`ram
    {
      ram[p - 4].high
    }

    function GetNext(p: int): int
      requires p - 4 in ram
      reads this`ram
    {
      p + GetSize(p)
    }

    function GetPrev(p: int): int
      requires p - 8 in ram
      reads this`ram
    {
      p - ram[p - 8].high
    }

    method SetUsed(p: int)
      requires p - 4 in ram
      modifies this`ram
      ensures ram == old(ram)[p - 4 := old(ram)[p - 4].(used := true)]
    {
      ram := ram[p - 4 := ram[p - 4].(used := true)];
    }

    method SetUnused(p: int)
      requires p - 4 in ram
      modifies this`ram
      ensures ram == old(ram)[p - 4 := old(ram)[p - 4].(used := false)]
    {
      ram := ram[p - 4 := ram[p - 4].(used := false)];
    }

    /** Both flag bits of the header stay. */
    method SetSize(p: int, size: int)
      requires p - 4 in ram && 0 <= size < ADDRESS_SPACE && size % 4 == 0
      modifies this`ram
      ensures ram == old(ram)[p - 4 := old(ram)[p - 4].(high := size)]
    {
      ram := ram[p - 4 := ram[p - 4].(high := size)];
    }

    /** The footer becomes a copy of the header. */
    method SetFooter(p: int)
      requires p - 4 in ram && p + GetSize(p) - 8 in ram
      modifies this`ram
      ensures ram == old(ram)[p + old(ram)[p - 4].high - 8 := old(ram)[p - 4]]
    {
      var footer := p + GetSize(p) - 8;
      ram := ram[footer := ram[p - 4]];
    }

    /** The three writes that turn the bytes at p into the block of the given size and use. */
    method WriteTags(p: int, size: int, used: bool)
      requires 4 <= size < ADDRESS_SPACE && size % 4 == 0
      requires p - 4 in ram && p + size - 8 in ram
      modifies this`ram
      ensures Tagged(ram, Block(p, size, used))
      ensures SameOutside(old(ram), ram, p - 4, p + size - 4)
    {
      SetSize(p, size);
      if used { SetUsed(p); } else { SetUnused(p); }
      SetFooter(p);
    }

    /** A new size in both tags; the header's flags stay. */
    method Resize(p: int, size: int)
      requires 4 <= size < ADDRESS_SPACE && size % 4 == 0
      requires p - 4 in ram && p + size - 8 in ram
      modifies this`ram
      ensures Tagged(ram, Block(p, size, old(ram)[p - 4].used))
      ensures SameOutside(old(ram), ram, p - 4, p + size - 4)
    {
      SetSize(p, size);
      SetFooter(p);
    }

    // ---------- mm_init ----------

    /** Takes the first page of a pool in which no page is taken yet. */
    constructor (pool: Pages, memory: Ram, rewriteFooter: bool)
      requires pool.Valid() && 0 < pool.numPages
      requires forall i :: 0 <= i < pool.numPages ==> pool.flags[i] == 0
      requires Mapped(memory, pool.allocStart - 4, pool.AllocEnd())
      requires pool.allocStart - 4 in memory && memory[pool.allocStart - 4].high == 0
      modifies pool.flags
      ensures Valid() && pages == pool && footerOnTake == rewriteFooter
      ensures model == Init(pool.allocStart, pool.numPages)
    {
      NoneTaken(pool.flags);
      hide Holds, WellFormed, Tagged, Mapped, SameOutside, Prefix;
      pages, ram, footerOnTake := pool, memory, rewriteFooter;
      mmStart, mmEnd, mmStartBlock, mmEndBlock := 0, 0, 0, 0;
      new;
      var page := NewPage(0);
      assert page == pool.allocStart && page + PAGE_SIZE <= pool.AllocEnd();
      assert Prefix(pages.flags[..], 1);
      mmStart := page;
      mmEnd := mmStart + PAGE_SIZE;
      mmStartBlock := mmStart + 4;
      mmEndBlock := mmEnd - 4;
      model := Init(pool.allocStart, pool.numPages);
      MappedPart(ram, mmStart - 4, pool.AllocEnd(), mmStart, mmStart + PAGE_SIZE);
      WriteFirstBlock();
      FirstPageWritten(memory, ram, mmStart, pool.AllocEnd());
      InitHolds(ram, mmStart, pages.numPages, pages.AllocEnd());
    }

    method WriteFirstBlock()
      requires mmStartBlock == mmStart + 4 && mmEndBlock == mmStart + PAGE_SIZE - 4
      requires Mapped(ram, mmStart, mmStart + PAGE_SIZE) && mmStart % 4 == 0
      modifies this`ram
      ensures Tagged(ram, Block(mmStart + 4, PAGE_SIZE - 8, false)) && Tagged(ram, EndMarker(mmStart + PAGE_SIZE))
      ensures SameOutside(old(ram), ram, mmStart, mmStart + PAGE_SIZE)
    {
      WriteTags(mmStartBlock, PAGE_SIZE - 8, false);
      WriteTags(mmEndBlock, 8, true);
      assert Tagged(ram, Block(mmStart + 4, PAGE_SIZE - 8, false));
    }

    /** page_alloc(1) while the first k pages are taken: the next page, or NULL when there is none. */
    method NewPage(ghost k: nat) returns (p: int)
      requires pages.Valid() && Prefix(pages.flags[..], k) && k <= pages.numPages && 0 < pages.numPages
      modifies pages.flags
      ensures pages.Valid()
      ensures p == (if k < pages.numPages then pages.allocStart + PAGE_SIZE * k else 0)
      ensures Prefix(pages.flags[..], if k < pages.numPages then k + 1 else k)
    {
      ghost var fl := pages.flags[..];
      p := pages.Alloc(1);
      NoPageLeft(fl, k);
      if p != 0 {
        ghost var i: nat :| p == pages.allocStart + PAGE_SIZE * i && RunFree(fl, i, 1)
          && (forall j: nat :: j < i ==> !RunFree(fl, j, 1)) && pages.flags[..] == Marked(fl, i, 1);
        NextPage(fl, k, i);
      }
    }

    // ---------- Taking a block ----------

    /** The writes that mark the free block b as used. */
    method MarkTaken(p: int, ghost b: Block)
      requires b.Good() && !b.used && p == b.ptr && 8 <= b.size
      requires Tagged(ram, b)
      modifies this`ram
      ensures Tagged(ram, b.(used := true)) && SameOutside(old(ram), ram, b.ptr - 4, b.End() - 4)
    {
      SetUsed(p);
      if footerOnTake { SetFooter(p); }
    }

    /** The writes that take a bytes from the front of the free block b. */
    method WriteSplit(p: int, a: nat, ghost b: Block)
      requires b.Good() && Fits(b, a) && a % 4 == 0 && 8 <= a && p == b.ptr && b.size < ADDRESS_SPACE
      requires Tagged(ram, b) && Mapped(ram, b.ptr - 4, b.End() - 4)
      modifies this`ram
      ensures SameOutside(old(ram), ram, b.ptr - 4, b.End() - 4)
      ensures forall k :: 0 <= k < |Split(b, a)| ==> Tagged(ram, Split(b, a)[k])
    {
      hide Tagged, Mapped, SameOutside;
      ghost var m, lo, hi := ram, b.ptr - 4, b.End() - 4;
      MarkTaken(p, b);
      TagsRead(ram, b.(used := true));
      var size := GetSize(p);
      if a < size {
        ghost var n := ram;
        MappedStill(m, n, lo, hi, lo, hi);
        MappedAt(n, lo, hi, p + a - 8);
        WriteTags(p, a, true);
        ghost var o := ram;
        SameOutsideChain(m, n, o, lo, hi, lo, p + a - 4, hi);
        MappedStill(n, o, lo, hi, lo, p + a - 4);
        WriteRest(p, a, size);
        SameOutsideChain(m, o, ram, lo, hi, p + a - 4, hi, hi);
        assert Split(b, a) == [Block(p, a, true), Block(p + a, size - a, false)];
      } else {
        assert Split(b, a) == [b.(used := true)];
      }
    }

    /** The writes that make the remainder of a split block a free block. */
    method WriteRest(p: int, a: nat, size: int)
      requires p % 4 == 0 && a % 4 == 0 && 8 <= a < size < ADDRESS_SPACE && size % 4 == 0
      requires Tagged(ram, Block(p, a, true)) && Mapped(ram, p - 4, p + size - 4)
      modifies this`ram
      ensures Tagged(ram, Block(p, a, true)) && Tagged(ram, Block(p + a, size - a, false))
      ensures SameOutside(old(ram), ram, p + a - 4, p + size - 4)
    {
      hide Tagged, Mapped, SameOutside;
      ghost var m := ram;
      TagsRead(m, Block(p, a, true));
      MappedAt(m, p - 4, p + size - 4, p + a - 4);
      MappedAt(m, p - 4, p + size - 4, p + size - 8);
      var next := GetNext(p);
      WriteTags(next, size - a, false);
      TaggedFrame(m, ram, p + a - 4, p + size - 4, Block(p, a, true));
    }

    method TakeBlock(p: int, a: nat, ghost i: nat)
      requires Valid() && i < |model.blocks| && p == model.blocks[i].ptr
      requires Fits(model.blocks[i], a) && a % 4 == 0 && 8 <= a
      modifies this`ram, this`model
      ensures Valid() && model == PlaceIn(old(model), i, a)
      ensures PayloadsKept(old(ram), ram, Live(old(model).blocks))
    {
      hide Holds, SameOutside, PayloadsKept, Prefix, WellFormed, Mapped;
      ghost var m := ram;
      HoldsInv(m, model, pages.numPages, pages.AllocEnd());
      BlockAt(m, model, pages.numPages, pages.AllocEnd(), i);
      WriteSplit(p, a, model.blocks[i]);
      PlaceHolds(m, ram, model, pages.numPages, pages.AllocEnd(), i, a);
      FreeBytesKeepPayloads(m, ram, model.blocks, mmStart + 4, mmEnd - 4, i);
      model := PlaceIn(model, i, a);
    }

    /** First fit over the blocks in memory. */
    method FindFit(a: nat) returns (found: bool, p: int, ghost i: nat)
      requires Valid()
      ensures i == FirstFit(model.blocks, a)
      ensures found <==> FirstFit(model.blocks, a) < |model.blocks|
      ensures found ==> p == model.blocks[FirstFit(model.blocks, a)].ptr
    {
      hide Prefix, WellFormed, Holds, ScanAt, FirstFit;
      ScanFacts(ram, model, pages.numPages, pages.AllocEnd(), 0);
      found, p, i := false, mmStartBlock, 0;
      while p < mmEndBlock
        invariant i <= |model.blocks| && p == ScanAt(model.blocks, i, mmEndBlock)
        invariant forall j :: 0 <= j < i ==> !Fits(model.blocks[j], a)
        decreases |model.blocks| - i
      {
        ScanFacts(ram, model, pages.numPages, pages.AllocEnd(), i);
        if !IsUsed(p) && a <= GetSize(p) {
          found := true;
          return;
        }
        p := GetNext(p);
        i := i + 1;
      }
      ScanFacts(ram, model, pages.numPages, pages.AllocEnd(), i);
    }

    // ---------- Growing ----------

    /** One round of the growth loop: a page more, joined to a free last block. last is the last block.
        The page is always adjacent, so panic("new_page != _mm_end") is not reached. */
    method GrowPage() returns (ok: bool, last: int)
      requires Valid()
      modifies this`ram, this`model, this`mmEnd, this`mmEndBlock, pages.flags
      ensures Valid() && ok == (0 < old(model).freePages)
      ensures !ok ==> model == old(model) && ram == old(ram) && mmEnd == old(mmEnd)
      ensures ok ==>
        && model == Grow(old(model), 1) && model.blocks != [] && last == model.blocks[|model.blocks| - 1].ptr
        && SameOutside(old(ram), ram, GrowLow(old(model)), mmEnd)
    {
      hide SameOutside, WellFormed, Mapped;
      ghost var h, m := model, ram;
      var newPage := NewPage(pages.numPages - h.freePages);
      ok, last := newPage != 0, 0;
      if ok {
        assert newPage == mmEnd;
        last := WriteGrowth(h);
        GrowHolds(m, ram, h, pages.numPages, pages.AllocEnd());
        model := Grow(h, 1);
      }
    }

    /** The writes of one growth round. */
    method WriteGrowth(ghost h: Heap) returns (last: int)
      requires Holds(ram, h, pages.numPages, pages.AllocEnd()) && 0 < h.freePages
      requires mmEnd == h.end && mmEndBlock == mmEnd - 4 && mmEnd + PAGE_SIZE <= pages.AllocEnd()
      modifies this`ram, this`mmEnd, this`mmEndBlock
      ensures mmEnd == h.end + PAGE_SIZE && mmEndBlock == mmEnd - 4
      ensures SameOutside(old(ram), ram, GrowLow(h), mmEnd)
      ensures var bs := Grow(h, 1).blocks; Tagged(ram, bs[|bs| - 1]) && last == bs[|bs| - 1].ptr
      ensures Tagged(ram, EndMarker(mmEnd))
    {
      hide Holds, Mapped, SameOutside, Tagged, Heap.Inv, Grow, GrowLow, Extended;
      ghost var m := ram;
      ghost var b := LastToGrow(m, h, pages.numPages, pages.AllocEnd());
      mmEnd := mmEnd + PAGE_SIZE;
      last := ExtendTail(b);
      ghost var n := ram;
      MappedStill(m, n, b.ptr - 4, mmEnd, last - 4, mmEnd - 8);
      MappedPart(n, b.ptr - 4, mmEnd, mmEnd - 8, mmEnd);
      mmEndBlock := mmEnd - 4;
      WriteEndMarker(Extended(b));
      SameOutsideChain(m, n, ram, last - 4, mmEnd - 8, mmEnd - 8, mmEnd, mmEnd);
    }

    /** Joins a page to the last block b, or makes it a block of its own when b is used. */
    method ExtendTail(ghost b: Block) returns (last: int)
      requires b.Good() && Tagged(ram, b) && b.End() == mmEndBlock
      requires 0 < b.ptr && mmEndBlock + PAGE_SIZE < ADDRESS_SPACE
      requires Mapped(ram, b.ptr - 4, mmEndBlock + PAGE_SIZE + 4)
      modifies this`ram
      ensures Tagged(ram, Extended(b)) && last == Extended(b).ptr
      ensures SameOutside(old(ram), ram, last - 4, mmEndBlock + PAGE_SIZE - 4)
    {
      hide SameOutside, Tagged, Mapped;
      TagsRead(ram, b);
      MappedAt(ram, b.ptr - 4, mmEndBlock + PAGE_SIZE + 4, mmEndBlock - 4);
      MappedAt(ram, b.ptr - 4, mmEndBlock + PAGE_SIZE + 4, mmEndBlock + PAGE_SIZE - 8);
      last := GetPrev(mmEndBlock);
      if !IsUsed(last) {
        var lastSize := GetSize(last);
        WriteTags(last, lastSize + PAGE_SIZE, false);
      } else {
        last := mmEndBlock;
        WriteTags(last, PAGE_SIZE, false);
      }
    }

    method WriteEndMarker(ghost b: Block)
      requires Tagged(ram, b) && b.Good() && b.End() == mmEndBlock && mmEndBlock % 4 == 0
      requires Mapped(ram, mmEndBlock - 4, mmEndBlock + 4)
      modifies this`ram
      ensures Tagged(ram, b) && Tagged(ram, EndMarker(mmEndBlock + 4))
      ensures SameOutside(old(ram), ram, mmEndBlock - 4, mmEndBlock + 4)
    {
      hide SameOutside, Tagged, Mapped;
      ghost var m := ram;
      MappedAt(m, mmEndBlock - 4, mmEndBlock + 4, mmEndBlock - 4);
      MappedAt(m, mmEndBlock - 4, mmEndBlock + 4, mmEndBlock);
      WriteTags(mmEndBlock, 8, true);
      TaggedFrame(m, ram, mmEndBlock - 4, mmEndBlock + 4, b);
    }

    // ---------- Rolling back ----------

    /** Scans for the block in front of the end block. */
    method FindLast() returns (last: int)
      requires Valid()
      ensures last == model.blocks[|model.blocks| - 1].ptr
    {
      last := mmStartBlock;
      ghost var i := 0;
      while last < mmEndBlock
        invariant i < |model.blocks| && last == model.blocks[i].ptr
        decreases |model.blocks| - i
      {
        BlockAt(ram, model, pages.numPages, pages.AllocEnd(), i);
        if GetNext(last) == mmEndBlock {
          LastBlock(i);
          return;
        }
        last := GetNext(last);
        i := i + 1;
      }
      BlockAt(ram, model, pages.numPages, pages.AllocEnd(), i);
    }

    lemma LastBlock(i: nat)
      requires Valid() && i < |model.blocks| && model.blocks[i].End() == mmEndBlock
      ensures i == |model.blocks| - 1
    {
      AllOrdered(model.blocks, mmStart + 4, mmEnd - 4);
    }

    /** The writes that put the end marker back at curEnd; b is the last block of the old heap. */
    method RestoreTags(last: int, curEnd: int, ghost b: Block)
      requires b.Good() && 0 < b.ptr && b.End() == curEnd - 4 <= ADDRESS_SPACE
      requires Mapped(ram, b.ptr - 4, curEnd)
      requires if b.used then Tagged(ram, b) && (last == b.ptr || last == curEnd - 4)
               else last == b.ptr && last - 4 in ram && !ram[last - 4].used
      modifies this`ram, this`mmEndBlock
      ensures mmEndBlock == curEnd - 4
      ensures Tagged(ram, b) && Tagged(ram, EndMarker(curEnd))
      ensures SameOutside(old(ram), ram, if b.used then curEnd - 12 else b.ptr - 4, curEnd)
    {
      mmEndBlock := curEnd - 4;
      WriteTags(mmEndBlock, 8, true);
      assert Mapped(ram, b.ptr - 4, curEnd);
      assert b.used ==> Tagged(ram, b);
      if last != mmEndBlock {
        RewriteLast(last, b);
      }
    }

    /** Sets the last block's size from the distance to the end block, and its footer. */
    method RewriteLast(last: int, ghost b: Block)
      requires b.Good() && last == b.ptr && 0 < last && b.End() == mmEndBlock <= ADDRESS_SPACE
      requires last - 4 in ram && ram[last - 4].used == b.used && mmEndBlock - 8 in ram
      requires b.used ==> Tagged(ram, b)
      requires Tagged(ram, EndMarker(mmEndBlock + 4))
      modifies this`ram
      ensures Tagged(ram, b) && Tagged(ram, EndMarker(mmEndBlock + 4))
      ensures SameOutside(old(ram), ram, if b.used then mmEndBlock - 8 else last - 4, mmEndBlock - 4)
    {
      var lastSize := mmEndBlock - last;
      SetSize(last, lastSize);
      SetFooter(last);
    }

    /** Gives back the pages above curEnd, to which the heap had c pages and now has k more. */
    method ReleasePages(curEnd: int, ghost c: nat, ghost k: nat)
      requires pages.Valid() && mmStart == pages.allocStart && curEnd == mmStart + PAGE_SIZE * c
      requires mmEnd == curEnd + PAGE_SIZE * k && c + k <= pages.numPages
      requires Prefix(pages.flags[..], c + k)
      modifies this`mmEnd, pages.flags
      ensures pages.Valid() && mmEnd == curEnd && Prefix(pages.flags[..], c)
    {
      hide Prefix, WellFormed, WalkLength, Cleared;
      ghost var j := c + k;
      while mmEnd > curEnd
        invariant c <= j <= pages.numPages && mmEnd == mmStart + PAGE_SIZE * j
        invariant pages.Valid() && Prefix(pages.flags[..], j)
        decreases mmEnd - curEnd
      {
        LastPage(pages.flags[..], j);
        mmEnd := mmEnd - PAGE_SIZE;
        j := j - 1;
        PageAt(mmStart, j);
        pages.Free(mmEnd);
      }
    }

    lemma PageAt(start: int, j: nat)
      ensures (start + PAGE_SIZE * j - start) / PAGE_SIZE == j
    {
    }

    /** The failure branch of mm_malloc after h had grown by k pages. The end block is where the old end was,
        so panic("_mm_end_block != ...") is not reached. */
    method Rollback(curEnd: int, ghost h: Heap, ghost k: nat)
      requires Valid() && h.Inv(pages.numPages) && k <= h.freePages && model == Grow(h, k) && curEnd == h.end
      modifies this`ram, this`model, this`mmEnd, this`mmEndBlock, pages.flags
      ensures Valid() && model == h
      ensures SameOutside(old(ram), ram, ShrinkLow(h), old(mmEnd))
    {
      hide SameOutside, WellFormed, Mapped;
      var last := FindLast();
      UnwriteGrowth(last, curEnd, h, k);
      ReleasePages(curEnd, pages.numPages - h.freePages, k);
      model := h;
      assert mmEndBlock == mmEnd - 4;
    }

    /** All the memory writes of the failure branch. */
    method UnwriteGrowth(last: int, curEnd: int, ghost h: Heap, ghost k: nat)
      requires h.Inv(pages.numPages) && k <= h.freePages && curEnd == h.end
      requires Holds(ram, Grow(h, k), pages.numPages, pages.AllocEnd())
      requires var bs := Grow(h, k).blocks; bs != [] && last == bs[|bs| - 1].ptr
      modifies this`ram, this`mmEndBlock
      ensures Holds(ram, h, pages.numPages, pages.AllocEnd()) && mmEndBlock == curEnd - 4
      ensures SameOutside(old(ram), ram, ShrinkLow(h), Grow(h, k).end)
    {
      hide Holds, SameOutside, Tagged, Mapped;
      ghost var m := ram;
      ghost var b := h.blocks[|h.blocks| - 1];
      OldLast(m, h, k, pages.numPages, pages.AllocEnd());
      HoldsEnds(m, Grow(h, k), pages.numPages, pages.AllocEnd());
      RestoreTags(last, curEnd, b);
      SameOutsideWider(m, ram, if b.used then curEnd - 12 else b.ptr - 4, curEnd, ShrinkLow(h), Grow(h, k).end);
      ShrinkHolds(m, ram, h, k, pages.numPages, pages.AllocEnd());
    }

    // ---------- mm_malloc ----------

    /** Growth until the last block fits: on success its address, with the fewest pages taken;
        otherwise everything is rolled back. */
    method GrowUntil(a: nat) returns (found: bool, p: int)
      requires Valid() && FirstFit(model.blocks, a) == |model.blocks| && 8 <= a
      modifies this`ram, this`model, this`mmEnd, this`mmEndBlock, pages.flags
      ensures Valid()
      ensures found == (PagesNeeded(old(model).blocks, a) <= old(model).freePages)
      ensures !found ==> model == old(model)
      ensures found ==>
        && 0 <= PagesNeeded(old(model).blocks, a)
        && model == Grow(old(model), PagesNeeded(old(model).blocks, a))
        && model.blocks != [] && p == model.blocks[|model.blocks| - 1].ptr
      ensures PayloadsKept(old(ram), ram, Live(old(model).blocks))
    {
      hide Holds, SameOutside, PayloadsKept, Prefix, WellFormed, Heap.Inv, FirstFit, Fits, PagesNeeded, Live,
        GrowLow, ShrinkLow;
      ghost var m, h, k := ram, model, 0;
      var curEnd := mmEnd;
      found, p := false, 0;
      HoldsInv(m, h, pages.numPages, pages.AllocEnd());
      T.GrowToFit(h, pages.numPages, a);
      assert Grow(h, 0) == h;
      while !found
        invariant Valid() && 0 <= k <= h.freePages && model == Grow(h, k)
        invariant found <==> k == PagesNeeded(h.blocks, a)
        invariant k <= PagesNeeded(h.blocks, a)
        invariant found ==> model.blocks != [] && p == model.blocks[|model.blocks| - 1].ptr
        invariant SameOutside(m, ram, GrowLow(h), mmEnd)
        decreases h.freePages - k
      {
        ghost var n, end := ram, mmEnd;
        var ok, last := GrowPage();
        if !ok {
          Rollback(curEnd, h, k);
          ChainRollback(m, n, ram, h, pages.numPages, end);
          return;
        }
        GrowTwice(h, pages.numPages, k);
        ChainGrow(m, n, ram, h, pages.numPages, k, end, mmEnd);
        found := LastFits(last, a, h, k);
        if found { p := last; }
        k := k + 1;
      }
      ChainDone(m, ram, h, pages.numPages, mmEnd);
    }

    /** Checks whether the block grown just now is large enough. */
    method LastFits(last: int, a: nat, ghost h: Heap, ghost k: nat) returns (fits: bool)
      requires Valid() && h.Inv(pages.numPages) && FirstFit(h.blocks, a) == |h.blocks| && 8 <= a
      requires k < h.freePages && k < PagesNeeded(h.blocks, a) && model == Grow(h, k + 1)
      requires model.blocks != [] && last == model.blocks[|model.blocks| - 1].ptr
      ensures fits <==> k + 1 == PagesNeeded(h.blocks, a)
    {
      T.GrowStep(h, pages.numPages, a, k);
      BlockAt(ram, model, pages.numPages, pages.AllocEnd(), |model.blocks| - 1);
      fits := !IsUsed(last) && a <= GetSize(last);
    }

    /** mm_malloc: exactly the operation on blocks, with no live payload word written; after a failure
        every page descriptor and both end pointers are as before. */
    method Malloc(size: nat) returns (p: int)
      requires Valid() && NoWrap(size)
      modifies this`ram, this`model, this`mmEnd, this`mmEndBlock, pages.flags
      ensures Valid() && (model, p) == HeapSpec.Malloc(old(model), size)
      ensures p == 0 ==> pages.flags[..] == old(pages.flags[..]) && mmEnd == old(mmEnd) && mmEndBlock == old(mmEndBlock)
      ensures PayloadsKept(old(ram), ram, Live(old(model).blocks))
    {
      hide Holds, PayloadsKept, Prefix, WellFormed, Tiling, Coalesced, Live, Split;
      var a := AllocSize(size);
      T.AllocSizeCoversIff(size);
      HoldsInv(ram, model, pages.numPages, pages.AllocEnd());
      T.MallocKeepsInv(model, pages.numPages, size);
      ghost var m, h := ram, model;
      if a > MAX_MEM_ALLOC {
        PayloadsSame(m, Live(h.blocks));
        return 0;
      }
      var found, block, i := FindFit(a);
      if !found {
        ghost var fl := pages.flags[..];
        found, block := GrowUntil(a);
        if !found {
          PrefixUnique(fl, pages.flags[..], pages.numPages - h.freePages);
          return 0;
        }
        i := |model.blocks| - 1;
        T.GrowToFit(h, pages.numPages, a);
      }
      PayloadsSame(m, Live(h.blocks));
      ghost var n := ram;
      TakeBlock(block, a, i);
      PayloadsTrans(m, n, ram, Live(h.blocks));
      p := block;
    }

    // ---------- mm_free ----------

    method ClearUsed(p: int, ghost b: Block)
      requires Tagged(ram, b) && p == b.ptr && 8 <= b.size
      modifies this`ram
      ensures Tagged(ram, b.(used := false)) && SameOutside(old(ram), ram, p - 4, p)
    {
      SetUnused(p);
    }

    /** The first half of mm_free: b becomes free and takes in the next block c when c is free.
        c is the end marker when b is the last block. */
    method MergeNext(p: int, ghost b: Block, ghost c: Block)
      requires b.Good() && b.used && p == b.ptr && Tagged(ram, b)
      requires c.Good() && c.ptr == b.End() && Tagged(ram, c)
      requires if c.ptr == mmEndBlock then c.used else c.End() <= mmEndBlock
      requires 0 < p && mmEndBlock < ADDRESS_SPACE
      modifies this`ram
      ensures Tagged(ram, Joined(b, c))
      ensures SameOutside(old(ram), ram, b.ptr - 4, Joined(b, c).End() - 4)
    {
      hide Tagged, SameOutside;
      ghost var m := ram;
      ClearUsed(p, b);
      ghost var n := ram;
      TaggedFrame(m, n, p - 4, p, c);
      TakeNext(p, b.(used := false), c);
      SameOutsideChain(m, n, ram, p - 4, p, p - 4, Joined(b, c).End() - 4, Joined(b, c).End() - 4);
    }

    /** The free block b takes in the next block c when c is free. */
    method TakeNext(p: int, ghost b: Block, ghost c: Block)
      requires b.Good() && !b.used && 8 <= b.size && p == b.ptr && Tagged(ram, b)
      requires c.Good() && c.ptr == b.End() && Tagged(ram, c)
      requires if c.ptr == mmEndBlock then c.used else c.End() <= mmEndBlock
      requires 0 < p && mmEndBlock < ADDRESS_SPACE
      modifies this`ram
      ensures Tagged(ram, Joined(b, c))
      ensures SameOutside(old(ram), ram, p - 4, Joined(b, c).End() - 4)
    {
      TagsRead(ram, b);
      TagsRead(ram, c);
      var next := GetNext(p);
      var nextSize := GetSize(next);
      var nextUsed := IsUsed(next);
      hide Tagged;
      if next != p && next <= mmEndBlock && !nextUsed {
        Resize(p, GetSize(p) + nextSize);
      }
    }

    /** The second half: the block before b, when there is one and it is free, takes in b. */
    method MergePrev(p: int, ghost a: Block, ghost b: Block)
      requires b.Good() && !b.used && p == b.ptr && Tagged(ram, b)
      requires p == mmStartBlock ==> p - 8 in ram && ram[p - 8].high == 0
      requires p != mmStartBlock ==> a.Good() && a.End() == p && Tagged(ram, a) && mmStartBlock <= a.ptr
      requires 0 < mmStartBlock && b.End() < ADDRESS_SPACE
      modifies this`ram
      ensures p == mmStartBlock || a.used ==> ram == old(ram)
      ensures p != mmStartBlock && !a.used ==>
        && Tagged(ram, Block(a.ptr, b.End() - a.ptr, false))
        && SameOutside(old(ram), ram, a.ptr - 4, b.End() - 4)
    {
      if p != mmStartBlock { TagsRead(ram, a); }
      var prev := GetPrev(p);
      var prevSize := GetSize(prev);
      var prevUsed := IsUsed(prev);
      if prev != p && prev >= mmStartBlock && !prevUsed {
        Resize(prev, GetSize(p) + prevSize);
      }
    }

    /** Both halves: the block that a, b and c become when b is freed. */
    method MergeBoth(p: int, ghost a: Block, ghost b: Block, ghost c: Block)
      requires b.Good() && b.used && p == b.ptr && Tagged(ram, b)
      requires c.Good() && c.ptr == b.End() && Tagged(ram, c)
      requires if c.ptr == mmEndBlock then c.used else c.End() <= mmEndBlock
      requires p == mmStartBlock ==> p - 8 in ram && ram[p - 8].high == 0
      requires p != mmStartBlock ==> a.Good() && a.End() == p && Tagged(ram, a) && mmStartBlock <= a.ptr
      requires 0 < mmStartBlock <= p && mmEndBlock < ADDRESS_SPACE
      modifies this`ram
      ensures var j := Joined(b, c);
        var r := if p != mmStartBlock && !a.used then Block(a.ptr, j.End() - a.ptr, false) else j;
        Tagged(ram, r) && SameOutside(old(ram), ram, r.ptr - 4, r.End() - 4)
    {
      hide SameOutside, Tagged;
      ghost var m, j := ram, Joined(b, c);
      MergeNext(p, b, c);
      ghost var n := ram;
      if p != mmStartBlock {
        TaggedFrame(m, n, b.ptr - 4, j.End() - 4, a);
      } else {
        WordKept(m, n, b.ptr - 4, j.End() - 4, p - 8);
      }
      MergePrev(p, a, j);
      if p != mmStartBlock && !a.used {
        SameOutsideWider(m, n, b.ptr - 4, j.End() - 4, a.ptr - 4, j.End() - 4);
        SameOutsideChain(m, n, ram, a.ptr - 4, j.End() - 4, a.ptr - 4, j.End() - 4, j.End() - 4);
      }
    }

    /** mm_free: exactly the operation on blocks, with no payload word of another live block written. */
    method Free(p: int)
      requires Valid() && Freeable(model, p)
      modifies this`ram, this`model
      ensures Valid() && model == HeapSpec.Free(old(model), p)
      ensures PayloadsKept(old(ram), ram, Live(model.blocks))
    {
      if p == 0 {
        return;
      }
      ghost var h, i := model, IndexOf(model.blocks, p);
      WriteFree(p, h, i);
      model := HeapSpec.Free(h, p);
    }

    method WriteFree(p: int, ghost h: Heap, ghost i: nat)
      requires Holds(ram, h, pages.numPages, pages.AllocEnd())
      requires i < |h.blocks| && h.blocks[i].used && h.blocks[i].ptr == p
      requires mmStartBlock == h.start + 4 && mmEndBlock == h.end - 4
      modifies this`ram
      ensures Holds(ram, h.(blocks := FreeAt(h.blocks, i)), pages.numPages, pages.AllocEnd())
      ensures PayloadsKept(old(ram), ram, Live(FreeAt(h.blocks, i)))
    {
      hide Holds, PayloadsKept, SameOutside, Tagged, Live, Tiling, Coalesced, FreeAt, Heap.Inv, Merged, Joined;
      ghost var m, b := ram, h.blocks[i];
      ghost var c := if i + 1 < |h.blocks| then h.blocks[i + 1] else EndMarker(h.end);
      ghost var a := if 0 < i then h.blocks[i - 1] else b;
      HoldsInv(m, h, pages.numPages, pages.AllocEnd());
      NextBlock(m, h, pages.numPages, pages.AllocEnd(), i);
      PrevBlock(m, h, pages.numPages, pages.AllocEnd(), i);
      MergedIs(h, pages.numPages, i);
      MergeBoth(p, a, b, c);
      FreeHolds(m, ram, h, pages.numPages, pages.AllocEnd(), i);
    }

    // ---------- The owner's stores ----------

    /** A word stored into the payload of a live block by its owner. */
    method Store(a: int, w: Word, ghost b: Block)
      requires Valid() && b in Live(model.blocks) && b.ptr <= a < b.PayloadEnd() && a % 4 == 0
      modifies this`ram
      ensures Valid() && ram == old(ram)[a := w]
    {
      hide Holds, Prefix, WellFormed;
      PayloadWriteHolds(ram, model, pages.numPages, pages.AllocEnd(), b, a, w);
      ram := ram[a := w];
    }
  }
}
