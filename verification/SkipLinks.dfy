/** The shape of a skip list, apart from memory: heights, next nodes per level, insertion and removal. */
module SkipLinks {
  import opened TimerSpec

  const MAX_LEVEL := 8

  /** Heights of the chain head, nodes, tail; head and tail reach every level. */
  ghost predicate Heights(h: seq<nat>) {
    && 2 <= |h| && h[0] == MAX_LEVEL && h[|h| - 1] == MAX_LEVEL
    && forall j :: 0 <= j < |h| ==> h[j] <= MAX_LEVEL
  }

  /** k is the next position after j that reaches level i. */
  ghost predicate IsNext(h: seq<nat>, i: nat, j: nat, k: nat) {
    j < k < |h| && i <= h[k] && forall m :: j < m < k ==> h[m] < i
  }

  ghost function Next(h: seq<nat>, i: nat, j: nat): (k: nat)
    requires Heights(h) && i <= MAX_LEVEL && j < |h| - 1
    ensures IsNext(h, i, j, k)
    decreases |h| - j
  {
    if i <= h[j + 1] then j + 1 else Next(h, i, j + 1)
  }

  lemma NextUnique(h: seq<nat>, i: nat, j: nat, k: nat)
    requires Heights(h) && i <= MAX_LEVEL && j < |h| - 1 && IsNext(h, i, j, k)
    ensures k == Next(h, i, j)
  {
    var n := Next(h, i, j);
    assert !(n < k) && !(k < n);
  }

  /** u is the last position before q that reaches level i. */
  ghost predicate IsPred(h: seq<nat>, i: nat, q: nat, u: nat) {
    u < q < |h| && i <= h[u] && forall m :: u < m < q ==> h[m] < i
  }

  /** Every node has its nine forward pointers. */
  ghost predicate Full<N>(f: seq<seq<N>>) {
    forall j :: 0 <= j < |f| ==> |f[j]| == MAX_LEVEL + 1
  }

  /** The forward pointers f of the chain c are the next nodes per level. */
  ghost predicate Links<N>(c: seq<N>, h: seq<nat>, f: seq<seq<N>>) {
    && Heights(h) && |c| == |h| == |f|
    && Full(f)
    && (forall i: nat, j: nat :: j < |c| - 1 && i <= h[j] ==> f[j][i] == c[Next(h, i, j)])
  }

  // ---------- Each level is the chain filtered by height ----------

  /** The nodes met by following level i from position j until the tail. */
  ghost function Walk<N>(c: seq<N>, h: seq<nat>, f: seq<seq<N>>, i: nat, j: nat): seq<N>
    requires Links(c, h, f) && i <= MAX_LEVEL && j < |c| - 1 && i <= h[j]
    decreases |c| - j
  {
    var k := Next(h, i, j);
    if k == |c| - 1 then [] else [f[j][i]] + Walk(c, h, f, i, k)
  }

  /** The nodes from position j on that reach level i, the tail left out. */
  ghost function Filter<N>(c: seq<N>, h: seq<nat>, i: nat, j: nat): seq<N>
    requires |c| == |h| && j < |c|
    decreases |c| - j
  {
    if j == |c| - 1 then []
    else if i <= h[j] then [c[j]] + Filter(c, h, i, j + 1)
    else Filter(c, h, i, j + 1)
  }

  lemma {:induction false} FilterSkips<N>(c: seq<N>, h: seq<nat>, i: nat, j: nat, k: nat)
    requires |c| == |h| && j <= k < |c| && forall m :: j <= m < k ==> h[m] < i
    ensures Filter(c, h, i, j) == Filter(c, h, i, k)
    decreases k - j
  {
    if j == k {
    } else {
      FilterSkips(c, h, i, j + 1, k);
    }
  }

  /** The filter goes on at the next node of the level. */
  lemma FilterNext<N>(c: seq<N>, h: seq<nat>, i: nat, j: nat)
    requires Heights(h) && |c| == |h| && i <= MAX_LEVEL && j < |c| - 1
    ensures var k := Next(h, i, j);
      Filter(c, h, i, j + 1) == if k == |c| - 1 then [] else [c[k]] + Filter(c, h, i, k + 1)
  {
    var k := Next(h, i, j);
    assert IsNext(h, i, j, k);
    hide Next;
    FilterSkips(c, h, i, j + 1, k);
  }

  lemma LinkAt<N>(c: seq<N>, h: seq<nat>, f: seq<seq<N>>, i: nat, j: nat)
    requires Links(c, h, f) && j < |c| - 1 && i <= h[j]
    ensures Heights(h) && |c| == |h| && i <= MAX_LEVEL && i <= h[Next(h, i, j)]
    ensures f[j][i] == c[Next(h, i, j)]
  {
  }

  lemma {:induction false} LevelIsFilter<N>(c: seq<N>, h: seq<nat>, f: seq<seq<N>>, i: nat, j: nat)
    requires Links(c, h, f) && i <= MAX_LEVEL && j < |c| - 1 && i <= h[j]
    ensures Walk(c, h, f, i, j) == Filter(c, h, i, j + 1)
    decreases |c| - j
  {
    LinkAt(c, h, f, i, j);
    var k := Next(h, i, j);
    FilterNext(c, h, i, j);
    hide Next, IsNext, Filter;
    if k == |c| - 1 {
    } else {
      LevelIsFilter(c, h, f, i, k);
    }
  }

  // ---------- Insertion ----------

  /** g is h with x inserted at q. */
  ghost predicate Inserts(h: seq<nat>, g: seq<nat>, q: nat, x: nat) {
    && q <= |h| && |g| == |h| + 1 && g[q] == x
    && (forall m :: 0 <= m < q ==> g[m] == h[m])
    && (forall m :: q < m < |g| ==> g[m] == h[m - 1])
  }

  lemma InsertInserts(h: seq<nat>, q: nat, l: nat)
    requires Heights(h) && 0 < q < |h| && l <= MAX_LEVEL
    ensures Inserts(h, InsertAt(h, q, l), q, l) && Heights(InsertAt(h, q, l))
  {
  }

  lemma NextBefore(h: seq<nat>, g: seq<nat>, q: nat, x: nat, i: nat, j: nat, k: nat)
    requires Inserts(h, g, q, x) && IsNext(h, i, j, k) && k < q
    ensures IsNext(g, i, j, k)
  {
  }

  lemma NextBehind(h: seq<nat>, g: seq<nat>, q: nat, x: nat, i: nat, j: nat, k: nat)
    requires Inserts(h, g, q, x) && IsNext(h, i, j, k) && q <= j
    ensures IsNext(g, i, j + 1, k + 1)
  {
  }

  lemma NextIsNew(h: seq<nat>, g: seq<nat>, q: nat, x: nat, i: nat, j: nat, k: nat)
    requires Inserts(h, g, q, x) && IsNext(h, i, j, k) && j < q <= k && i <= x
    ensures IsNext(g, i, j, q) && IsNext(g, i, q, k + 1)
  {
  }

  lemma NextSkipsNew(h: seq<nat>, g: seq<nat>, q: nat, x: nat, i: nat, j: nat, k: nat)
    requires Inserts(h, g, q, x) && IsNext(h, i, j, k) && j < q <= k && x < i
    ensures IsNext(g, i, j, k + 1)
  {
  }

  lemma NextAfterInsert(h: seq<nat>, q: nat, l: nat, i: nat, j: nat)
    requires Heights(h) && 0 < q < |h| && l <= MAX_LEVEL && i <= MAX_LEVEL && j < |h| - 1
    ensures var g := InsertAt(h, q, l);
      && Heights(g)
      && (j < q && Next(h, i, j) < q ==> Next(g, i, j) == Next(h, i, j))
      && (j < q <= Next(h, i, j) && i <= l ==> Next(g, i, j) == q && Next(g, i, q) == Next(h, i, j) + 1)
      && (j < q <= Next(h, i, j) && l < i ==> Next(g, i, j) == Next(h, i, j) + 1)
      && (q <= j ==> Next(g, i, j + 1) == Next(h, i, j) + 1)
  {
    var g, k := InsertAt(h, q, l), Next(h, i, j);
    InsertInserts(h, q, l);
    NextInside(h, i, j);
    hide Heights, IsNext, Next, Inserts;
    if q <= j {
      NextBehind(h, g, q, l, i, j, k);
      NextUnique(g, i, j + 1, k + 1);
    } else if k < q {
      NextBefore(h, g, q, l, i, j, k);
      NextUnique(g, i, j, k);
    } else if i <= l {
      NextIsNew(h, g, q, l, i, j, k);
      NextUnique(g, i, j, q);
      NextUnique(g, i, q, k + 1);
    } else {
      NextSkipsNew(h, g, q, l, i, j, k);
      NextUnique(g, i, j, k + 1);
    }
  }

  lemma NextInside(h: seq<nat>, i: nat, j: nat)
    requires Heights(h) && i <= MAX_LEVEL && j < |h| - 1
    ensures j < Next(h, i, j) < |h|
  {
  }

  /** u is the position before q whose next node at level i is at q or beyond. */
  lemma PredIsLast(h: seq<nat>, i: nat, q: nat, u: nat, j: nat)
    requires Heights(h) && i <= MAX_LEVEL && 0 < q < |h| && IsPred(h, i, q, u) && j < q && i <= h[j]
    ensures q <= Next(h, i, j) <==> j == u
  {
    var k := Next(h, i, j);
    if j < u { assert !(u < k); }
  }

  /** What the linking loop of skip_list_insert leaves in the forward pointers. */
  ghost predicate InsertedAt<N>(f: seq<seq<N>>, g: seq<seq<N>>, q: nat, l: nat, u: seq<nat>, n: N)
    requires 0 < q < |f| && |g| == |f| + 1 && l <= MAX_LEVEL && |u| == MAX_LEVEL + 1
    requires Full(f) && Full(g)
  {
    && (forall i, j {:trigger g[j][i]} :: 0 <= j < q && 0 <= i <= MAX_LEVEL ==>
          g[j][i] == if i <= l && j == u[i] then n else f[j][i])
    && (forall i :: 0 <= i <= l ==> u[i] < q && g[q][i] == f[u[i]][i])
    && (forall j :: q < j < |g| ==> g[j] == f[j - 1])
  }

  /** With the right predecessors the new pointers are again the next nodes per level. */
  lemma InsertKeepsLinks<N>(c: seq<N>, h: seq<nat>, f: seq<seq<N>>, g: seq<seq<N>>, q: nat, l: nat, u: seq<nat>, n: N)
    requires Links(c, h, f) && 0 < q < |c| && l <= MAX_LEVEL
    requires |g| == |f| + 1 && Full(g)
    requires |u| == MAX_LEVEL + 1 && forall i :: 0 <= i <= l ==> IsPred(h, i, q, u[i])
    requires InsertedAt(f, g, q, l, u, n)
    ensures Links(InsertAt(c, q, n), InsertAt(h, q, l), g)
  {
    var d, k := InsertAt(c, q, n), InsertAt(h, q, l);
    NextAfterInsert(h, q, l, 0, 0);
    forall i: nat, j: nat | j < |d| - 1 && i <= k[j] ensures g[j][i] == d[Next(k, i, j)] {
      InsertedLink(c, h, f, g, q, l, u, n, i, j);
    }
  }

  lemma InsertedLink<N>(c: seq<N>, h: seq<nat>, f: seq<seq<N>>, g: seq<seq<N>>, q: nat, l: nat,
      u: seq<nat>, n: N, i: nat, j: nat)
    requires Links(c, h, f) && 0 < q < |c| && l <= MAX_LEVEL
    requires |g| == |f| + 1 && Full(g)
    requires |u| == MAX_LEVEL + 1 && forall i :: 0 <= i <= l ==> IsPred(h, i, q, u[i])
    requires InsertedAt(f, g, q, l, u, n)
    requires j < |c| && i <= InsertAt(h, q, l)[j]
    ensures Heights(InsertAt(h, q, l)) && g[j][i] == InsertAt(c, q, n)[Next(InsertAt(h, q, l), i, j)]
  {
    if j == q {
      LinkOfNew(c, h, f, g, q, l, u, n, i);
    } else if j < q {
      LinkBefore(c, h, f, g, q, l, u, n, i, j);
    } else {
      LinkBehind(c, h, f, g, q, l, u, n, i, j);
    }
  }

  lemma LinkOfNew<N>(c: seq<N>, h: seq<nat>, f: seq<seq<N>>, g: seq<seq<N>>, q: nat, l: nat, u: seq<nat>, n: N, i: nat)
    requires Links(c, h, f) && 0 < q < |c| && l <= MAX_LEVEL
    requires |g| == |f| + 1 && Full(g)
    requires |u| == MAX_LEVEL + 1 && forall i :: 0 <= i <= l ==> IsPred(h, i, q, u[i])
    requires InsertedAt(f, g, q, l, u, n)
    requires i <= l
    ensures Heights(InsertAt(h, q, l)) && g[q][i] == InsertAt(c, q, n)[Next(InsertAt(h, q, l), i, q)]
  {
    NextAfterInsert(h, q, l, i, u[i]);
    PredIsLast(h, i, q, u[i], u[i]);
  }

  lemma LinkBefore<N>(c: seq<N>, h: seq<nat>, f: seq<seq<N>>, g: seq<seq<N>>, q: nat, l: nat,
      u: seq<nat>, n: N, i: nat, j: nat)
    requires Links(c, h, f) && 0 < q < |c| && l <= MAX_LEVEL
    requires |g| == |f| + 1 && Full(g)
    requires |u| == MAX_LEVEL + 1 && forall i :: 0 <= i <= l ==> IsPred(h, i, q, u[i])
    requires InsertedAt(f, g, q, l, u, n)
    requires j < q && i <= h[j]
    ensures Heights(InsertAt(h, q, l)) && g[j][i] == InsertAt(c, q, n)[Next(InsertAt(h, q, l), i, j)]
  {
    NextAfterInsert(h, q, l, i, j);
    var k, d := Next(h, i, j), InsertAt(c, q, n);
    if i <= l { PredIsLast(h, i, q, u[i], j); }
    assert f[j][i] == c[k];
    assert g[j][i] == if i <= l && j == u[i] then n else f[j][i];
    assert if k < q then d[k] == c[k] else d[q] == n && d[k + 1] == c[k];
  }

  lemma LinkBehind<N>(c: seq<N>, h: seq<nat>, f: seq<seq<N>>, g: seq<seq<N>>, q: nat, l: nat,
      u: seq<nat>, n: N, i: nat, j: nat)
    requires Links(c, h, f) && 0 < q < |c| && l <= MAX_LEVEL
    requires |g| == |f| + 1 && Full(g)
    requires |u| == MAX_LEVEL + 1 && forall i :: 0 <= i <= l ==> IsPred(h, i, q, u[i])
    requires InsertedAt(f, g, q, l, u, n)
    requires q < j < |c| && i <= h[j - 1]
    ensures Heights(InsertAt(h, q, l)) && g[j][i] == InsertAt(c, q, n)[Next(InsertAt(h, q, l), i, j)]
  {
    NextAfterInsert(h, q, l, i, j - 1);
  }

  // ---------- Removal ----------

  lemma RemoveInserts(h: seq<nat>, q: nat)
    requires Heights(h) && 0 < q < |h| - 1
    ensures Inserts(RemoveAt(h, q), h, q, h[q]) && Heights(RemoveAt(h, q))
  {
  }

  lemma NextBeforeGap(h: seq<nat>, g: seq<nat>, q: nat, x: nat, i: nat, j: nat, k: nat)
    requires Inserts(g, h, q, x) && IsNext(h, i, j, k) && k < q <= |g| - 1
    ensures IsNext(g, i, j, k)
  {
  }

  lemma NextBehindGap(h: seq<nat>, g: seq<nat>, q: nat, x: nat, i: nat, j: nat, k: nat)
    requires Inserts(g, h, q, x) && IsNext(h, i, j, k) && q < j
    ensures IsNext(g, i, j - 1, k - 1)
  {
    assert g[k - 1] == h[k];
    forall m | j - 1 < m < k - 1 ensures g[m] < i {
      assert g[m] == h[m + 1];
    }
  }

  lemma NextOverGap(h: seq<nat>, g: seq<nat>, q: nat, x: nat, i: nat, j: nat, k: nat)
    requires Inserts(g, h, q, x) && IsNext(h, i, j, k) && j < q < k
    ensures IsNext(g, i, j, k - 1)
  {
    assert g[k - 1] == h[k];
    forall m | j < m < k - 1 ensures g[m] < i {
      assert g[m] == if m < q then h[m] else h[m + 1];
    }
  }

  lemma NextAtGap(h: seq<nat>, g: seq<nat>, q: nat, x: nat, i: nat, j: nat, k: nat)
    requires Inserts(g, h, q, x) && IsNext(h, i, j, q) && IsNext(h, i, q, k)
    ensures IsNext(g, i, j, k - 1)
  {
    assert g[k - 1] == h[k];
    forall m | j < m < k - 1 ensures g[m] < i {
      assert g[m] == if m < q then h[m] else h[m + 1];
    }
  }

  lemma NextAfterRemove(h: seq<nat>, q: nat, i: nat, j: nat)
    requires Heights(h) && 0 < q < |h| - 1 && i <= MAX_LEVEL && j < |h| - 1
    ensures var g := RemoveAt(h, q);
      && Heights(g)
      && (j < q && Next(h, i, j) < q ==> Next(g, i, j) == Next(h, i, j))
      && (j < q && Next(h, i, j) == q ==> Next(g, i, j) == Next(h, i, q) - 1)
      && (j < q < Next(h, i, j) ==> Next(g, i, j) == Next(h, i, j) - 1)
      && (q < j ==> Next(g, i, j - 1) == Next(h, i, j) - 1)
  {
    var g, k, x := RemoveAt(h, q), Next(h, i, j), h[q];
    RemoveInserts(h, q);
    NextInside(h, i, j);
    NextInside(h, i, q);
    hide Heights, IsNext, Next, Inserts, RemoveAt;
    SameLength(h, g, q, x);
    if q < j {
      NextBehindGap(h, g, q, x, i, j, k);
      NextUnique(g, i, j - 1, k - 1);
    } else if j < q && k < q {
      NextBeforeGap(h, g, q, x, i, j, k);
      NextUnique(g, i, j, k);
    } else if j < q && k == q {
      NextAtGap(h, g, q, x, i, j, Next(h, i, q));
      NextUnique(g, i, j, Next(h, i, q) - 1);
    } else if j < q {
      NextOverGap(h, g, q, x, i, j, k);
      NextUnique(g, i, j, k - 1);
    }
  }

  lemma SameLength(h: seq<nat>, g: seq<nat>, q: nat, x: nat)
    requires Inserts(g, h, q, x)
    ensures |h| == |g| + 1
  {
  }

  /** What the unlink loop of skip_list_delete leaves in the forward pointers of the other nodes. */
  ghost predicate RemovedAt<N>(f: seq<seq<N>>, g: seq<seq<N>>, q: nat, l: nat, u: seq<nat>)
    requires 0 < q < |f| && |g| == |f| - 1 && l <= MAX_LEVEL && |u| == MAX_LEVEL + 1
    requires Full(f) && Full(g)
  {
    && (forall i, j {:trigger g[j][i]} :: 0 <= j < q && 0 <= i <= MAX_LEVEL ==>
          g[j][i] == if i <= l && j == u[i] then f[q][i] else f[j][i])
    && (forall j :: q <= j < |g| ==> g[j] == f[j + 1])
  }

  lemma RemoveKeepsLinks<N>(c: seq<N>, h: seq<nat>, f: seq<seq<N>>, g: seq<seq<N>>, q: nat, u: seq<nat>)
    requires Links(c, h, f) && 0 < q < |c| - 1
    requires |g| == |f| - 1 && Full(g)
    requires |u| == MAX_LEVEL + 1 && forall i :: 0 <= i <= h[q] ==> IsPred(h, i, q, u[i])
    requires RemovedAt(f, g, q, h[q], u)
    ensures Links(RemoveAt(c, q), RemoveAt(h, q), g)
  {
    var d, k := RemoveAt(c, q), RemoveAt(h, q);
    NextAfterRemove(h, q, 0, 0);
    forall i: nat, j: nat | j < |d| - 1 && i <= k[j] ensures g[j][i] == d[Next(k, i, j)] {
      RemovedLink(c, h, f, g, q, u, i, j);
    }
  }

  lemma RemovedLink<N>(c: seq<N>, h: seq<nat>, f: seq<seq<N>>, g: seq<seq<N>>, q: nat, u: seq<nat>, i: nat, j: nat)
    requires Links(c, h, f) && 0 < q < |c| - 1
    requires |g| == |f| - 1 && Full(g)
    requires |u| == MAX_LEVEL + 1 && forall i :: 0 <= i <= h[q] ==> IsPred(h, i, q, u[i])
    requires RemovedAt(f, g, q, h[q], u)
    requires j < |c| - 2 && i <= RemoveAt(h, q)[j]
    ensures Heights(RemoveAt(h, q)) && g[j][i] == RemoveAt(c, q)[Next(RemoveAt(h, q), i, j)]
  {
    if j < q {
      NextAfterRemove(h, q, i, j);
      var k, d := Next(h, i, j), RemoveAt(c, q);
      if i <= h[q] { PredIsLast(h, i, q, u[i], j); }
      assert g[j][i] == if i <= h[q] && j == u[i] then f[q][i] else f[j][i];
      assert f[j][i] == c[k];
      assert if k < q then d[k] == c[k] else k > q ==> d[k - 1] == c[k];
      if k == q { assert f[q][i] == c[Next(h, i, q)]; }
    } else {
      NextAfterRemove(h, q, i, j + 1);
    }
  }
}
