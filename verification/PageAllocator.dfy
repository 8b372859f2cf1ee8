/** The first-fit page allocator: one flag byte per page, changed in place. */
module PageAllocator {

  const PAGE_SIZE := 4096

  const ADDRESS_SPACE := 0x1_0000_0000

  const PAGE_TAKEN: bv8 := 1
  const PAGE_LAST: bv8 := 2

  predicate Taken(flag: bv8) { flag & PAGE_TAKEN != 0 }

  predicate Last(flag: bv8) { flag & PAGE_LAST != 0 }

  // ---------- The pool ----------

  /** _align_page: address rounded up to a page boundary. */
  function AlignPage(address: int): (r: int)
    ensures r % PAGE_SIZE == 0 && address <= r < address + PAGE_SIZE
  {
    (address + PAGE_SIZE - 1) / PAGE_SIZE * PAGE_SIZE
  }

  /** _alloc_start: eight pages are reserved for the descriptors. */
  function AllocStart(heapStart: int): int { AlignPage(heapStart + 8 * PAGE_SIZE) }

  function NumPages(heapSize: int): (n: nat)
    requires 8 * PAGE_SIZE <= heapSize
  {
    heapSize / PAGE_SIZE - 8
  }

  /** The pool ends inside the heap exactly when the tail of the last partial page covers the start alignment. */
  lemma PoolInsideHeapIff(heapStart: int, heapSize: int)
    requires 8 * PAGE_SIZE <= heapSize
    ensures AllocStart(heapStart) + PAGE_SIZE * NumPages(heapSize) <= heapStart + heapSize
       <==> AlignPage(heapStart) - heapStart <= heapSize % PAGE_SIZE
  {
    assert AllocStart(heapStart) == AlignPage(heapStart) + 8 * PAGE_SIZE;
  }

  /** A heap that ends at a page boundary is filled by its pool up to the last byte. */
  lemma PoolFillsHeap(heapStart: int, heapSize: int)
    requires 8 * PAGE_SIZE <= heapSize && (heapStart + heapSize) % PAGE_SIZE == 0
    ensures AllocStart(heapStart) + PAGE_SIZE * NumPages(heapSize) == heapStart + heapSize
  {
    assert AllocStart(heapStart) == AlignPage(heapStart) + 8 * PAGE_SIZE;
  }

  /** ORIGIN and LENGTH of the linker's memory region */
  const MEMORY_START := 0x8000_0000
  const MEMORY_LENGTH := 128 * 1024 * 1024

  /** The heap that the linker lays out, from its start to the end of memory: the pool ends with the memory, and
      the descriptors fit in front of it. */
  lemma LinkedPool(heapStart: int, heapSize: int)
    requires MEMORY_START <= heapStart && heapSize == MEMORY_START + MEMORY_LENGTH - heapStart
    requires 8 * PAGE_SIZE <= heapSize
    ensures AllocStart(heapStart) + PAGE_SIZE * NumPages(heapSize) == MEMORY_START + MEMORY_LENGTH < ADDRESS_SPACE
    ensures heapStart + NumPages(heapSize) <= AllocStart(heapStart)
    ensures 8 * PAGE_SIZE <= AllocStart(heapStart) - heapStart < 9 * PAGE_SIZE
  {
    PoolFillsHeap(heapStart, heapSize);
  }

  // ---------- The page map as a value ----------

  /** Pages i .. i+n-1 exist and are all free. */
  predicate RunFree(fl: seq<bv8>, i: nat, n: nat) {
    i + n <= |fl| && forall j :: i <= j < i + n ==> !Taken(fl[j])
  }

  /** The map is a disjoint union of runs, each closed by one LAST page. */
  ghost predicate WellFormed(fl: seq<bv8>) {
    && (forall i :: 0 <= i < |fl| ==> fl[i] == 0 || fl[i] == PAGE_TAKEN || fl[i] == PAGE_TAKEN | PAGE_LAST)
    && (forall i :: 0 <= i < |fl| && fl[i] == PAGE_TAKEN ==> i + 1 < |fl| && Taken(fl[i + 1]))
  }

  /** Page i is the first page of an allocated run. */
  predicate BlockStart(fl: seq<bv8>, i: nat) {
    && i < |fl| && Taken(fl[i])
    && (i == 0 || !Taken(fl[i - 1]) || Last(fl[i - 1]))
  }

  /** Pages i .. i+n-1 are one allocated block. */
  ghost predicate IsBlock(fl: seq<bv8>, i: nat, n: nat) {
    && 0 < n && i + n <= |fl| && BlockStart(fl, i)
    && (forall j :: i <= j < i + n ==> Taken(fl[j]))
    && (forall j :: i <= j < i + n - 1 ==> !Last(fl[j]))
    && Last(fl[i + n - 1])
  }

  /** The map after the pages i .. i+n-1 were handed out as one block. */
  ghost function Marked(fl: seq<bv8>, i: nat, n: nat): (r: seq<bv8>)
    requires 0 < n && i + n <= |fl|
  {
    fl[..i] + seq(n, k => if k == n - 1 then PAGE_TAKEN | PAGE_LAST else PAGE_TAKEN) + fl[i + n..]
  }

  /** The map after the pages i .. i+n-1 were cleared. */
  ghost function Cleared(fl: seq<bv8>, i: nat, n: nat): (r: seq<bv8>)
    requires i + n <= |fl|
  {
    fl[..i] + seq(n, _ => 0) + fl[i + n..]
  }

  /** How many pages page_free walks over when it starts at page i. */
  ghost function WalkLength(fl: seq<bv8>, i: nat): (n: nat)
    requires WellFormed(fl) && i <= |fl|
    ensures i + n <= |fl|
    ensures i < |fl| && Taken(fl[i]) ==> 0 < n && Last(fl[i + n - 1])
    ensures forall j :: i <= j < i + n ==> Taken(fl[j])
    ensures forall j :: i <= j < i + n - 1 ==> !Last(fl[j])
    decreases |fl| - i
  {
    if i == |fl| || !Taken(fl[i]) then 0
    else if Last(fl[i]) then 1
    else 1 + WalkLength(fl, i + 1)
  }

  /** The walk ends after the first LAST page, or at the first free page when it started there. */
  lemma {:induction false} WalkEnd(fl: seq<bv8>, i: nat, n: nat)
    requires WellFormed(fl) && i + n <= |fl|
    requires forall j :: i <= j < i + n ==> Taken(fl[j])
    requires forall j :: i <= j < i + n - 1 ==> !Last(fl[j])
    requires i + n == |fl| || !Taken(fl[i + n]) || (0 < n && Last(fl[i + n - 1]))
    ensures n == WalkLength(fl, i)
    decreases n
  {
    if n == 0 || Last(fl[i]) {
    } else {
      assert Taken(fl[i + 1]);
      WalkEnd(fl, i + 1, n - 1);
    }
  }

  /** Handing out a free run makes it a block and keeps the map well formed. */
  lemma AllocMakesBlock(fl: seq<bv8>, i: nat, n: nat)
    requires WellFormed(fl) && 0 < n && RunFree(fl, i, n)
    ensures WellFormed(Marked(fl, i, n)) && IsBlock(Marked(fl, i, n), i, n)
  {
    var g := Marked(fl, i, n);
    assert !Taken(fl[i - 1 + 1]);
    assert forall j :: 0 <= j < i ==> g[j] == fl[j];
    assert forall j :: i <= j < i + n ==> g[j] == if j == i + n - 1 then PAGE_TAKEN | PAGE_LAST else PAGE_TAKEN;
    assert forall j :: i + n <= j < |g| ==> g[j] == fl[j];
  }

  /** ... and every other block stays a block, and nothing else becomes one. */
  lemma AllocKeepsBlocks(fl: seq<bv8>, i: nat, n: nat, j: nat, m: nat)
    requires WellFormed(fl) && 0 < n && RunFree(fl, i, n)
    requires j + m <= i || i + n <= j
    ensures IsBlock(Marked(fl, i, n), j, m) <==> IsBlock(fl, j, m)
  {
    var g := Marked(fl, i, n);
    assert !Taken(fl[i - 1 + 1]);
    assert forall j :: 0 <= j < i ==> g[j] == fl[j];
    assert forall j :: i <= j < i + n ==> g[j] == if j == i + n - 1 then PAGE_TAKEN | PAGE_LAST else PAGE_TAKEN;
    assert forall j :: i + n <= j < |g| ==> g[j] == fl[j];
  }

  /** Clearing a block keeps the map well formed. */
  lemma FreeMakesRoom(fl: seq<bv8>, i: nat, n: nat)
    requires WellFormed(fl) && IsBlock(fl, i, n)
    ensures WellFormed(Cleared(fl, i, n)) && RunFree(Cleared(fl, i, n), i, n)
  {
    var g := Cleared(fl, i, n);
    assert forall j :: 0 <= j < i ==> g[j] == fl[j];
    assert forall j :: i <= j < i + n ==> g[j] == 0;
    assert forall j :: i + n <= j < |g| ==> g[j] == fl[j];
  }

  /** ... and every other block stays a block, even an adjacent one. */
  lemma FreeKeepsBlocks(fl: seq<bv8>, i: nat, n: nat, j: nat, m: nat)
    requires WellFormed(fl) && IsBlock(fl, i, n)
    requires j + m <= i || i + n <= j
    ensures IsBlock(Cleared(fl, i, n), j, m) <==> IsBlock(fl, j, m)
  {
    var g := Cleared(fl, i, n);
    assert forall j :: 0 <= j < i ==> g[j] == fl[j];
    assert forall j :: i <= j < i + n ==> g[j] == 0;
    assert forall j :: i + n <= j < |g| ==> g[j] == fl[j];
  }

  /** Alloc then free restores the map. */
  lemma AllocThenFree(fl: seq<bv8>, i: nat, n: nat)
    requires WellFormed(fl) && 0 < n && RunFree(fl, i, n)
    ensures WellFormed(Marked(fl, i, n))
    ensures WalkLength(Marked(fl, i, n), i) == n
    ensures Cleared(Marked(fl, i, n), i, n) == fl
  {
    AllocMakesBlock(fl, i, n);
    WalkIsBlock(Marked(fl, i, n), i, n);
  }

  /** The walk of page_free from a block start covers exactly that block. */
  lemma WalkIsBlock(fl: seq<bv8>, i: nat, n: nat)
    requires WellFormed(fl) && BlockStart(fl, i)
    ensures IsBlock(fl, i, n) <==> n == WalkLength(fl, i)
  {
    var w := WalkLength(fl, i);
    assert IsBlock(fl, i, w);
    if IsBlock(fl, i, n) {
      WalkEnd(fl, i, n);
    }
  }

  /** Freeing from page i leaves a well-formed map exactly when page i is free or starts a block. */
  lemma FreeWellFormedIff(fl: seq<bv8>, i: nat)
    requires WellFormed(fl) && i < |fl|
    ensures WellFormed(Cleared(fl, i, WalkLength(fl, i))) <==> (!Taken(fl[i]) || BlockStart(fl, i))
  {
    var w := WalkLength(fl, i);
    if !Taken(fl[i]) {
      ClearNothing(fl, i);
    } else if BlockStart(fl, i) {
      WalkIsBlock(fl, i, w);
      FreeMakesRoom(fl, i, w);
    } else {
      FreeFromMiddle(fl, i, w);
    }
  }

  lemma ClearNothing(fl: seq<bv8>, i: nat)
    requires i <= |fl|
    ensures Cleared(fl, i, 0) == fl
  {
  }

  lemma FreeFromMiddle(fl: seq<bv8>, i: nat, n: nat)
    requires WellFormed(fl) && 0 < i && 0 < n && i + n <= |fl|
    requires Taken(fl[i - 1]) && !Last(fl[i - 1])
    ensures !WellFormed(Cleared(fl, i, n))
  {
    var g := Cleared(fl, i, n);
    assert g[i - 1] == fl[i - 1] == PAGE_TAKEN;
    assert g[i - 1 + 1] == 0;
  }

  /** Every taken page lies in exactly one block: the runs partition the taken pages. */
  lemma {:induction false} TakenPageInOneBlock(fl: seq<bv8>, p: nat) returns (i: nat, n: nat)
    requires WellFormed(fl) && p < |fl| && Taken(fl[p])
    ensures IsBlock(fl, i, n) && i <= p < i + n
    ensures forall j: nat, m: nat :: IsBlock(fl, j, m) && j <= p < j + m ==> j == i && m == n
  {
    i := p;
    while !BlockStart(fl, i)
      invariant i <= p && forall k :: i <= k <= p ==> Taken(fl[k])
      invariant forall k :: i <= k < p ==> !Last(fl[k])
      decreases i
    {
      i := i - 1;
    }
    n := WalkLength(fl, i);
    WalkIsBlock(fl, i, n);
    forall j: nat, m: nat | IsBlock(fl, j, m) && j <= p < j + m
      ensures j == i && m == n
    {
      assert i == j;
      WalkIsBlock(fl, j, m);
    }
  }

  lemma ClearedIs(fl: seq<bv8>, g: seq<bv8>, i: nat, n: nat)
    requires i + n <= |fl| == |g| && forall j :: 0 <= j < |fl| ==> g[j] == if i <= j < i + n then 0 else fl[j]
    ensures g == Cleared(fl, i, n)
  {
  }

  /** A taken page that is not the last of its block has a next one. */
  lemma NextExists(fl: seq<bv8>, i: nat)
    requires WellFormed(fl) && i < |fl| && Taken(fl[i]) && !Last(fl[i])
    ensures i + 1 < |fl|
  {
  }

  // ---------- The allocator ----------

  class Pages {
    const allocStart: int  // _alloc_start; _alloc_end is AllocEnd()
    const numPages: nat
    const flags: array<bv8>

    ghost predicate Valid()
      reads this, flags
    {
      && flags.Length == numPages
      && 0 < allocStart && allocStart % PAGE_SIZE == 0 && AllocEnd() < ADDRESS_SPACE
      && WellFormed(flags[..])
    }

    /** page_init over the linker's HEAP_START and HEAP_SIZE: every page free. */
    constructor (heapStart: int, heapSize: int)
      requires 0 < heapStart && 8 * PAGE_SIZE <= heapSize
      requires AllocStart(heapStart) + PAGE_SIZE * NumPages(heapSize) < ADDRESS_SPACE
      ensures Valid() && fresh(flags)
      ensures allocStart == AllocStart(heapStart) && numPages == NumPages(heapSize)
      ensures forall i :: 0 <= i < numPages ==> flags[i] == 0
    {
      allocStart, numPages := AllocStart(heapStart), NumPages(heapSize);
      flags := new bv8[NumPages(heapSize)];
      new;
      for i := 0 to numPages
        invariant flags.Length == numPages && fresh(flags)
        invariant forall j :: 0 <= j < i ==> flags[j] == 0
      {
        flags[i] := 0;
      }
    }

    function AllocEnd(): int { allocStart + PAGE_SIZE * numPages }

    /** page_alloc: the address of the lowest run of npages free pages, or 0. */
    method Alloc(npages: nat) returns (p: int)
      requires Valid() && 1 <= npages <= numPages
      modifies flags
      ensures Valid()
      ensures p == 0 ==> flags[..] == old(flags[..]) && forall i: nat :: !RunFree(flags[..], i, npages)
      ensures p != 0 ==>
        exists i: nat :: p == allocStart + PAGE_SIZE * i && RunFree(old(flags[..]), i, npages)
          && (forall j: nat :: j < i ==> !RunFree(old(flags[..]), j, npages))
          && flags[..] == Marked(old(flags[..]), i, npages)
    {
      var i := 0;
      while i <= numPages - npages
        invariant 0 <= i <= numPages - npages + 1
        invariant flags[..] == old(flags[..])
        invariant forall j: nat :: j < i ==> !RunFree(flags[..], j, npages)
      {
        if !Taken(flags[i]) {
          var found := true;
          var j := i + 1;
          while j < i + npages
            invariant i + 1 <= j <= i + npages
            invariant found && forall k :: i <= k < j ==> !Taken(flags[k])
          {
            if Taken(flags[j]) {
              found := false;
              break;
            }
            j := j + 1;
          }
          if found {
            assert RunFree(old(flags[..]), i, npages);
            MarkRun(i, npages);
            p := allocStart + i * PAGE_SIZE;
            return;
          }
        }
        i := i + 1;
      }
      p := 0;
    }

    /** The marking loop of page_alloc. */
    method MarkRun(i: nat, npages: nat)
      requires Valid() && 1 <= npages && RunFree(flags[..], i, npages)
      modifies flags
      ensures Valid() && flags[..] == Marked(old(flags[..]), i, npages)
    {
      assert forall j :: i <= j < i + npages ==> flags[..][j] == 0;
      var k := i;
      while k < i + npages
        invariant i <= k <= i + npages
        invariant forall j :: 0 <= j < numPages ==>
          flags[j] == if i <= j < k then PAGE_TAKEN else old(flags[j])
      {
        flags[k] := flags[k] | PAGE_TAKEN;
        k := k + 1;
      }
      k := k - 1;
      flags[k] := flags[k] | PAGE_LAST;
      assert flags[..] == Marked(old(flags[..]), i, npages);
      AllocMakesBlock(old(flags[..]), i, npages);
    }

    /** page_free: NULL and addresses past the pool are ignored; otherwise the walk from p's page is cleared. */
    method Free(p: int)
      requires Valid()
      requires p == 0 || allocStart <= p
      modifies flags
      ensures flags.Length == numPages
      ensures flags[..] ==
        if p == 0 || AllocEnd() <= p then old(flags[..])
        else
          var i := (p - allocStart) / PAGE_SIZE;
          Cleared(old(flags[..]), i, WalkLength(old(flags[..]), i))
    {
      if p == 0 || AllocEnd() <= p { return; }
      ClearFrom((p - allocStart) / PAGE_SIZE);
    }

    /** The clearing loop of page_free. */
    method ClearFrom(first: nat)
      requires Valid() && first < numPages
      modifies flags
      ensures flags.Length == numPages
      ensures flags[..] == Cleared(old(flags[..]), first, WalkLength(old(flags[..]), first))
    {
      hide WellFormed, WalkLength, Taken, Last, Cleared;
      ghost var fl := flags[..];
      var page := first;
      while Taken(flags[page])
        invariant first <= page < numPages
        invariant forall j :: first <= j < page ==> Taken(fl[j]) && !Last(fl[j])
        invariant forall j :: 0 <= j < numPages ==> flags[j] == if first <= j < page then 0 else fl[j]
        decreases numPages - page
      {
        if Last(flags[page]) {
          flags[page] := 0;
          ClearedIs(fl, flags[..], first, page + 1 - first);
          WalkEnd(fl, first, page + 1 - first);
          return;
        } else {
          NextExists(fl, page);
          flags[page] := 0;
          page := page + 1;
        }
      }
      ClearedIs(fl, flags[..], first, page - first);
      WalkEnd(fl, first, page - first);
    }
  }
}
