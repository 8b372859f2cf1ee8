/** The skip list: nodes with up to nine forward pointers, kept sorted by priority. */
module SkipList {
  import opened TimerSpec
  import opened SkipLinks

  const INVALID := 0xFFFF_FFFF

  class SkipNode {
    var priority: int
    var data: Timer
    var level: nat
    var forward: seq<SkipNode?>

    /** skip_list_node_init: levels up to level point at next, the others at NULL. */
    constructor (priority: int, level: nat, data: Timer, next: SkipNode?)
      requires level <= MAX_LEVEL
      ensures this.priority == priority && this.data == data && this.level == level && |forward| == MAX_LEVEL + 1
      ensures forall i :: 0 <= i <= MAX_LEVEL ==> forward[i] == if i <= level then next else null
    {
      this.priority, this.level, this.data := priority, level, data;
      var f: seq<SkipNode?> := [];
      for i := 0 to MAX_LEVEL + 1
        invariant |f| == i && forall k :: 0 <= k < i ==> f[k] == if k <= level then next else null
      {
        f := f + [if i <= level then next else null];
      }
      forward := f;
    }
  }

  /** The entries that nodes hold. */
  function EntriesOf(nodes: seq<SkipNode>): (r: seq<Entry>)
    reads nodes`priority, nodes`data
    ensures |r| == |nodes|
    ensures forall i :: 0 <= i < |nodes| ==> r[i] == Entry(nodes[i].priority, nodes[i].data)
  {
    if nodes == [] then [] else [Entry(nodes[0].priority, nodes[0].data)] + EntriesOf(nodes[1..])
  }

  /** The forward pointers of nodes. */
  ghost function Forwards(nodes: seq<SkipNode>): (r: seq<seq<SkipNode?>>)
    reads nodes`forward
    ensures |r| == |nodes|
    ensures forall i :: 0 <= i < |nodes| ==> r[i] == nodes[i].forward
  {
    if nodes == [] then [] else [nodes[0].forward] + Forwards(nodes[1..])
  }

  ghost predicate Distinct(chain: seq<SkipNode>) {
    forall i, j :: 0 <= i < j < |chain| ==> chain[i] != chain[j]
  }

  /** Behind the head, priorities never fall; the tail carries INVALID. */
  ghost predicate Ordered(chain: seq<SkipNode>)
    reads chain`priority
  {
    && (forall i, j :: 0 < i < j < |chain| ==> chain[i].priority <= chain[j].priority)
    && 2 <= |chain| && chain[|chain| - 1].priority == INVALID
  }

  /** The nodes carry their heights. */
  ghost predicate Leveled(chain: seq<SkipNode>, h: seq<nat>)
    requires |chain| == |h|
    reads chain`level
  {
    forall k :: 0 < k < |chain| - 1 ==> chain[k].level == h[k]
  }

  /** level is the greatest height of a node, 0 without nodes. */
  ghost predicate Tight(h: seq<nat>, level: nat) {
    && level <= MAX_LEVEL
    && (forall k :: 0 < k < |h| - 1 ==> h[k] <= level)
    && (0 < level ==> exists k :: 0 < k < |h| - 1 && h[k] == level)
  }

  /** q is the first position behind the head whose priority is at least v. */
  ghost predicate SplitAt(chain: seq<SkipNode>, v: int, q: nat)
    reads chain`priority
  {
    && 0 < q < |chain|
    && (forall k :: 0 < k < q ==> chain[k].priority < v)
    && v <= chain[q].priority
  }

  /** u holds the predecessors of position q on the levels up to l. */
  ghost predicate Preds(h: seq<nat>, q: nat, u: seq<nat>, l: int) {
    l < |u| && forall i :: 0 <= i <= l ==> IsPred(h, i, q, u[i])
  }

  // ---------- One node more ----------

  lemma EndsInserted(c: seq<SkipNode>, q: nat, n: SkipNode)
    requires 2 <= |c| && 0 < q < |c|
    ensures var d := InsertAt(c, q, n); |d| == |c| + 1 && d[0] == c[0] && d[|d| - 1] == c[|c| - 1]
  {
  }

  lemma DistinctInserted(c: seq<SkipNode>, q: nat, n: SkipNode)
    requires Distinct(c) && q <= |c| && n !in c
    ensures Distinct(InsertAt(c, q, n))
  {
  }

  lemma LeveledInserted(c: seq<SkipNode>, h: seq<nat>, q: nat, n: SkipNode)
    requires |c| == |h| && 0 < q < |c| && Leveled(c, h)
    ensures Leveled(InsertAt(c, q, n), InsertAt(h, q, n.level))
  {
  }

  lemma TightInserted(h: seq<nat>, level: nat, q: nat, l: nat)
    requires Tight(h, level) && 0 < q < |h| && l <= MAX_LEVEL
    ensures Tight(InsertAt(h, q, l), if level < l then l else level)
  {
    var g := InsertAt(h, q, l);
    assert g[q] == l;
    if 0 < level {
      var k :| 0 < k < |h| - 1 && h[k] == level;
      assert g[if k < q then k else k + 1] == level;
    }
  }

  lemma OrderedInserted(c: seq<SkipNode>, q: nat, n: SkipNode)
    requires Ordered(c) && SplitAt(c, n.priority, q)
    ensures Ordered(InsertAt(c, q, n))
  {
    var d := InsertAt(c, q, n);
    forall i, j | 0 < i < j < |d| ensures d[i].priority <= d[j].priority {
      assert d[i] == if i < q then c[i] else if i == q then n else c[i - 1];
      assert d[j] == if j < q then c[j] else if j == q then n else c[j - 1];
    }
  }

  lemma EntriesConcat(a: seq<SkipNode>, b: seq<SkipNode>)
    ensures EntriesOf(a + b) == EntriesOf(a) + EntriesOf(b)
  {
  }

  lemma EntriesInserted(c: seq<SkipNode>, q: nat, n: SkipNode)
    requires 2 <= |c| && 0 < q < |c|
    ensures var d := InsertAt(c, q, n);
      EntriesOf(d[1..|d| - 1]) == InsertAt(EntriesOf(c[1..|c| - 1]), q - 1, Entry(n.priority, n.data))
  {
    var a, b := c[1..q], c[q..|c| - 1];
    InnerInserted(c, q, n);
    assert EntriesOf([n]) == [Entry(n.priority, n.data)];
    hide EntriesOf, InsertAt;
    EntriesConcat(a, b);
    EntriesConcat(a + [n], b);
    EntriesConcat(a, [n]);
    InsertBetween(EntriesOf(a), Entry(n.priority, n.data), EntriesOf(b));
  }

  lemma InnerInserted(c: seq<SkipNode>, q: nat, n: SkipNode)
    requires 2 <= |c| && 0 < q < |c|
    ensures var d := InsertAt(c, q, n); d[1..|d| - 1] == c[1..q] + [n] + c[q..|c| - 1]
    ensures c[1..|c| - 1] == c[1..q] + c[q..|c| - 1]
  {
  }

  // ---------- One node fewer ----------

  lemma DistinctRemoved(c: seq<SkipNode>, q: nat)
    requires Distinct(c) && q < |c|
    ensures Distinct(RemoveAt(c, q)) && c[q] !in RemoveAt(c, q)
  {
  }

  lemma LeveledRemoved(c: seq<SkipNode>, h: seq<nat>, q: nat)
    requires |c| == |h| && 0 < q < |c| - 1 && Leveled(c, h)
    ensures Leveled(RemoveAt(c, q), RemoveAt(h, q))
  {
  }

  /** No node is higher than level. */
  ghost predicate Below(h: seq<nat>, level: nat) {
    level <= MAX_LEVEL && forall k :: 0 < k < |h| - 1 ==> h[k] <= level
  }

  lemma BelowRemoved(h: seq<nat>, level: nat, q: nat)
    requires Tight(h, level) && 0 < q < |h| - 1
    ensures Below(RemoveAt(h, q), level)
  {
  }

  lemma OrderedRemoved(c: seq<SkipNode>, q: nat)
    requires Ordered(c) && 0 < q < |c| - 1
    ensures Ordered(RemoveAt(c, q))
  {
  }

  lemma EndsRemoved(c: seq<SkipNode>, q: nat)
    requires 2 < |c| && 0 < q < |c| - 1
    ensures var d := RemoveAt(c, q); |d| == |c| - 1 && d[0] == c[0] && d[|d| - 1] == c[|c| - 1]
  {
  }

  lemma EntriesRemoved(c: seq<SkipNode>, q: nat)
    requires 2 < |c| && 0 < q < |c| - 1
    ensures var d := RemoveAt(c, q); EntriesOf(d[1..|d| - 1]) == RemoveAt(EntriesOf(c[1..|c| - 1]), q - 1)
  {
    var a, b, n := c[1..q], c[q + 1..|c| - 1], c[q];
    InnerRemoved(c, q);
    assert EntriesOf([n]) == [Entry(n.priority, n.data)];
    hide EntriesOf, RemoveAt;
    EntriesConcat(a, b);
    EntriesConcat(a + [n], b);
    EntriesConcat(a, [n]);
    RemoveBetween(EntriesOf(a), Entry(n.priority, n.data), EntriesOf(b));
  }

  lemma InnerRemoved(c: seq<SkipNode>, q: nat)
    requires 2 < |c| && 0 < q < |c| - 1
    ensures var d := RemoveAt(c, q); 2 <= |d| && d[1..|d| - 1] == c[1..q] + c[q + 1..|c| - 1]
    ensures c[1..|c| - 1] == c[1..q] + [c[q]] + c[q + 1..|c| - 1]
  {
  }

  /** In an empty list the search for 0xFFFFFFFF finds the tail. */
  method SearchInvalid() returns (list: List, node: SkipNode?)
    ensures list.Valid() && list.Entries() == [] && node == list.tail
  {
    list := new List();
    node := list.Search(INVALID);
  }

  class List {
    var head: SkipNode
    var tail: SkipNode
    var level: nat
    var length: nat
    ghost var chain: seq<SkipNode>  // head, the nodes, tail
    ghost var heights: seq<nat>

    ghost predicate Valid()
      reads this, chain
    {
      && 2 <= |chain| && head == chain[0] && tail == chain[|chain| - 1] && Distinct(chain)
      && Links<SkipNode?>(chain, heights, Forwards(chain))
      && Leveled(chain, heights) && Tight(heights, level) && Ordered(chain)
      && length == |chain| - 2
    }

    ghost function Nodes(): seq<SkipNode>
      requires 2 <= |chain|
      reads this
    {
      chain[1..|chain| - 1]
    }

    ghost function Entries(): seq<Entry>
      requires 2 <= |chain|
      reads this, chain
    {
      EntriesOf(Nodes())
    }

    /** The nodes this list owns. */
    ghost function Owned(): set<SkipNode>
      reads this
    {
      set n | n in chain
    }

    /** skip_list_init */
    constructor ()
      ensures Valid() && fresh(Owned()) && Entries() == []
    {
      var t := new SkipNode(INVALID, 0, Timer(0, 0, 0), null);
      var h := new SkipNode(INVALID, MAX_LEVEL, Timer(0, 0, 0), t);
      head, tail, level, length := h, t, 0, 0;
      chain, heights := [h, t], [MAX_LEVEL, MAX_LEVEL];
      new;
      EmptyLinks(h, t);
    }

    lemma EmptyLinks(h: SkipNode, t: SkipNode)
      requires |h.forward| == |t.forward| == MAX_LEVEL + 1
      requires forall i :: 0 <= i <= MAX_LEVEL ==> h.forward[i] == t
      ensures Links<SkipNode?>([h, t], [MAX_LEVEL, MAX_LEVEL], Forwards([h, t]))
    {
    }

    /** The pointer at level i of the node at j, as position. */
    lemma NextNode(i: nat, j: nat)
      requires Valid() && |chain| == |heights| && Heights(heights) && j < |chain| - 1 && i <= heights[j]
      ensures |chain[j].forward| == MAX_LEVEL + 1 && i <= MAX_LEVEL
      ensures chain[j].forward[i] == chain[Next(heights, i, j)]
    {
      assert Forwards(chain)[j] == chain[j].forward;
    }

    lemma HeightsOk()
      requires Valid()
      ensures Heights(heights) && |chain| == |heights| && level <= MAX_LEVEL
      ensures chain[|chain| - 1].priority == INVALID
    {
    }

    /** skip_list_cbegin: the first node, which is the tail when the list is empty. */
    method First() returns (node: SkipNode)
      requires Valid()
      ensures node == chain[1]
    {
      HeightsOk();
      NextNode(0, 0);
      node := head.forward[0];
    }

    /** Position j stops the scan at level i: it is before v and its next node is not. */
    ghost predicate Stops(v: int, i: nat, j: nat)
      requires Heights(heights) && i <= MAX_LEVEL && |chain| == |heights|
      reads this, chain
    {
      && j < |chain| - 1 && i <= heights[j] && (j == 0 || chain[j].priority < v)
      && v <= chain[Next(heights, i, j)].priority
    }

    /** The search loop shared by insert, delete and search: per level the last node before v. */
    method Descend(v: int) returns (update: seq<SkipNode>, p: SkipNode, ghost q: nat, ghost u: seq<nat>)
      requires Valid() && v <= INVALID
      ensures SplitAt(chain, v, q) && p == chain[q]
      ensures |update| == |u| == MAX_LEVEL + 1
      ensures level <= MAX_LEVEL
      ensures Preds(heights, q, u, level)
      ensures forall i :: 0 <= i <= MAX_LEVEL ==> u[i] < |chain| && update[i] == chain[u[i]]
      ensures forall i :: level < i <= MAX_LEVEL ==> update[i] == head && u[i] == 0
    {
      hide Links, Tight, Leveled, Ordered, Distinct, Forwards, SplitAt, IsPred;
      HeightsOk();
      var h := head;
      update := seq(MAX_LEVEL + 1, _ => h);
      u := seq(MAX_LEVEL + 1, _ => 0);
      p := head;
      ghost var j: nat := 0;
      var i: int := level;
      while i >= 0
        invariant -1 <= i <= level && j < |chain| - 1 && p == chain[j] && i <= heights[j]
        invariant j == 0 || chain[j].priority < v
        invariant |update| == |u| == MAX_LEVEL + 1
        invariant forall t :: i < t <= level ==> Stops(v, t, u[t]) && u[t] <= j && update[t] == chain[u[t]]
        invariant i < 0 ==> j == u[0]
        invariant forall t :: level < t <= MAX_LEVEL ==> update[t] == head && u[t] == 0
      {
        p, j := Advance(v, i, p, j);
        update := update[i := p];
        u := u[i := j];
        i := i - 1;
      }
      NextNode(0, j);
      p := p.forward[0];
      q := j + 1;
      AfterStop(v, j);
      forall t | 0 <= t <= level ensures IsPred(heights, t, q, u[t]) {
        StopsIsPred(v, t, u[t], j);
      }
    }

    /** The inner loop: along one level while the next node is before v. */
    method Advance(v: int, i: nat, from: SkipNode, ghost start: nat) returns (p: SkipNode, ghost j: nat)
      requires Valid() && |chain| == |heights| && Heights(heights)
      requires v <= INVALID && start < |chain| - 1 && i <= heights[start] && from == chain[start]
      requires start == 0 || chain[start].priority < v
      ensures start <= j && j < |chain| - 1 && p == chain[j] && i <= heights[j] && Stops(v, i, j)
    {
      hide Links, Tight, Leveled, Ordered, Distinct, Forwards;
      p, j := from, start;
      HeightsOk();
      NextNode(i, j);
      while p.forward[i].priority < v
        invariant start <= j < |chain| - 1 && p == chain[j] && i <= heights[j]
        invariant j == 0 || chain[j].priority < v
        invariant |p.forward| == MAX_LEVEL + 1 && p.forward[i] == chain[Next(heights, i, j)]
        decreases |chain| - j
      {
        p := p.forward[i];
        j := Next(heights, i, j);
        NextNode(i, j);
      }
    }

    lemma AfterStop(v: int, j: nat)
      requires Valid() && |chain| == |heights| && Heights(heights) && Stops(v, 0, j)
      ensures SplitAt(chain, v, j + 1)
    {
    }

    lemma StopsIsPred(v: int, i: nat, u: nat, j: nat)
      requires Valid() && |chain| == |heights| && Heights(heights)
      requires i <= MAX_LEVEL && Stops(v, i, u) && u <= j < |chain| - 1
      requires j == 0 || chain[j].priority < v
      ensures IsPred(heights, i, j + 1, u)
    {
      hide Links, Tight, Leveled, Distinct, Forwards;
      assert j < Next(heights, i, u);
    }

    /** The split position counts the entries below v. */
    lemma SplitIsCount(v: int, q: nat)
      requires Valid() && SplitAt(chain, v, q)
      ensures CountLess(Entries(), v) == q - 1
      ensures q < |chain| - 1 ==> q - 1 < |Entries()| && Entries()[q - 1] == Entry(chain[q].priority, chain[q].data)
      ensures |Entries()| == |chain| - 2
    {
      hide Links, Tight, Leveled, Distinct, Forwards, Ordered, CountLess;
      var es := Entries();
      assert forall j :: 0 <= j < |es| ==> es[j] == Entry(chain[j + 1].priority, chain[j + 1].data);
      forall j | 0 <= j < q - 1 ensures es[j].priority < v {
        assert chain[j + 1].priority < v;
      }
      CountLessIs(es, v, q - 1);
    }

    /** skip_list_search: the first node of priority v. When v is INVALID and no node carries it, the
        tail is returned; in every other case the result is NULL exactly when no node has priority v. */
    method Search(v: int) returns (node: SkipNode?)
      requires Valid() && v <= INVALID
      ensures node != null && node != tail <==>
        CountLess(Entries(), v) < |Entries()| && Entries()[CountLess(Entries(), v)].priority == v
      ensures node != null && node != tail ==> node == chain[CountLess(Entries(), v) + 1]
      ensures node == tail <==> v == INVALID && CountLess(Entries(), v) == |Entries()|
    {
      var update, p, q, u := Descend(v);
      assert p == tail <==> q == |chain| - 1;
      hide Links, Tight, Leveled, Distinct, Forwards, Ordered, Entries;
      HeightsOk();
      SplitIsCount(v, q);
      if p.priority == v {
        return p;
      }
      return null;
    }

    // ---------- skip_list_insert ----------

    /** The first i levels are relinked: on each, node stands between position u[i] and what followed it. */
    ghost predicate Relinked(f: seq<seq<SkipNode?>>, node: SkipNode, u: seq<nat>, i: nat)
      requires |f| == |chain| && |u| == MAX_LEVEL + 1 && i <= MAX_LEVEL + 1
      reads this`chain, node`forward, chain`forward
    {
      && |node.forward| == MAX_LEVEL + 1 && node !in chain && Distinct(chain)
      && (forall k :: 0 <= k < |chain| ==> |chain[k].forward| == |f[k]| == MAX_LEVEL + 1)
      && (forall t :: 0 <= t < i ==> u[t] < |chain| && node.forward[t] == f[u[t]][t])
      && (forall k, t :: 0 <= k < |chain| && 0 <= t <= MAX_LEVEL ==>
            chain[k].forward[t] == if t < i && k == u[t] then node else f[k][t])
    }

    /** The linking loop: node goes behind update[i] on each of its levels. */
    method LinkLevels(node: SkipNode, l: nat, update: seq<SkipNode>, ghost f: seq<seq<SkipNode?>>, ghost u: seq<nat>)
      requires |f| == |chain| && l <= MAX_LEVEL && |update| == |u| == MAX_LEVEL + 1
      requires Relinked(f, node, u, 0)
      requires forall i :: 0 <= i <= l ==> u[i] < |chain| && update[i] == chain[u[i]]
      modifies node`forward, chain`forward
      ensures Relinked(f, node, u, l + 1)
    {
      hide Relinked;
      var i := 0;
      while i <= l
        invariant 0 <= i <= l + 1 && Relinked(f, node, u, i)
      {
        LinkLevel(node, i, update[i], f, u);
        i := i + 1;
      }
    }

    method LinkLevel(node: SkipNode, i: nat, p: SkipNode, ghost f: seq<seq<SkipNode?>>, ghost u: seq<nat>)
      requires |f| == |chain| && i <= MAX_LEVEL && |u| == MAX_LEVEL + 1
      requires Relinked(f, node, u, i) && u[i] < |chain| && p == chain[u[i]]
      modifies node`forward, p`forward
      ensures Relinked(f, node, u, i + 1)
    {
      node.forward := node.forward[i := p.forward[i]];
      p.forward := p.forward[i := node];
    }

    lemma RelinkedIsInserted(f: seq<seq<SkipNode?>>, node: SkipNode, u: seq<nat>, q: nat, l: nat)
      requires |f| == |chain| && |u| == MAX_LEVEL + 1 && l <= MAX_LEVEL && 0 < q < |chain|
      requires Relinked(f, node, u, l + 1) && forall i :: 0 <= i <= l ==> u[i] < q
      ensures |Forwards(InsertAt(chain, q, node))| == |f| + 1 && Full(f) && Full(Forwards(InsertAt(chain, q, node)))
      ensures InsertedAt<SkipNode?>(f, Forwards(InsertAt(chain, q, node)), q, l, u, node)
    {
      var d := InsertAt(chain, q, node);
      assert forall j :: 0 <= j < q ==> d[j] == chain[j];
      assert d[q] == node;
      forall j | q < j < |d| ensures d[j].forward == f[j - 1] {
        assert d[j] == chain[j - 1];
        BeyondKept(f, node, u, q, l, j - 1);
      }
    }

    lemma BeyondKept(f: seq<seq<SkipNode?>>, node: SkipNode, u: seq<nat>, q: nat, l: nat, k: nat)
      requires |f| == |chain| && |u| == MAX_LEVEL + 1 && l <= MAX_LEVEL
      requires Relinked(f, node, u, l + 1) && forall i :: 0 <= i <= l ==> u[i] < q
      requires q <= k < |chain|
      ensures chain[k].forward == f[k]
    {
      assert |chain[k].forward| == MAX_LEVEL + 1;
      assert |f[k]| == MAX_LEVEL + 1;
      forall t | 0 <= t <= MAX_LEVEL ensures chain[k].forward[t] == f[k][t] {
        assert t < l + 1 ==> u[t] < q;
        assert !(t < l + 1 && k == u[t]);
      }
    }

    /** Linking a new node at position q. */
    method LinkNode(node: SkipNode, l: nat, update: seq<SkipNode>, ghost q: nat, ghost u: seq<nat>)
      requires Links<SkipNode?>(chain, heights, Forwards(chain)) && Distinct(chain) && l <= MAX_LEVEL
      requires node !in chain && |node.forward| == MAX_LEVEL + 1 && 0 < q < |chain|
      requires |update| == |u| == MAX_LEVEL + 1
      requires Preds(heights, q, u, l) && forall i :: 0 <= i <= l ==> update[i] == chain[u[i]]
      modifies this`chain, this`heights, node`forward, chain`forward
      ensures chain == InsertAt(old(chain), q, node) && heights == InsertAt(old(heights), q, l)
      ensures Links<SkipNode?>(chain, heights, Forwards(chain))
    {
      hide Links, Distinct, Relinked, IsPred, Forwards, Preds, InsertedAt, InsertAt, Full;
      ghost var f, c, h := Forwards(chain), chain, heights;
      StartLinking(node, f, u);
      PredsBelow(h, q, u, l);
      LinkLevels(node, l, update, f, u);
      RelinkedIsInserted(f, node, u, q, l);
      chain, heights := InsertAt(c, q, node), InsertAt(h, q, l);
      LinkedAgain(c, h, f, q, l, u, node);
    }

    lemma LinkedAgain(c: seq<SkipNode>, h: seq<nat>, f: seq<seq<SkipNode?>>, q: nat, l: nat, u: seq<nat>, n: SkipNode)
      requires Links<SkipNode?>(c, h, f) && 0 < q < |c| && l <= MAX_LEVEL && |u| == MAX_LEVEL + 1
      requires Preds(h, q, u, l) && chain == InsertAt(c, q, n) && heights == InsertAt(h, q, l)
      requires |Forwards(chain)| == |f| + 1 && Full(f) && Full(Forwards(chain))
      requires InsertedAt<SkipNode?>(f, Forwards(chain), q, l, u, n)
      ensures Links<SkipNode?>(chain, heights, Forwards(chain))
    {
      var g := Forwards(chain);
      hide Links, InsertedAt, IsPred, Forwards;
      InsertKeepsLinks<SkipNode?>(c, h, f, g, q, l, u, n);
    }

    lemma PredsBelow(h: seq<nat>, q: nat, u: seq<nat>, l: int)
      requires Preds(h, q, u, l)
      ensures forall i :: 0 <= i <= l ==> u[i] < q
    {
    }

    lemma StartLinking(node: SkipNode, f: seq<seq<SkipNode?>>, u: seq<nat>)
      requires Links<SkipNode?>(chain, heights, f) && Distinct(chain) && f == Forwards(chain) && |u| == MAX_LEVEL + 1
      requires node !in chain && |node.forward| == MAX_LEVEL + 1
      ensures |f| == |chain| == |heights| && Relinked(f, node, u, 0)
    {
    }

    /** skip_list_insert with the level that random_level drew: in front of every node of the same priority. */
    method InsertEntry(priority: int, data: Timer, newLevel: nat) returns (ghost node: SkipNode)
      requires Valid() && priority <= INVALID && newLevel <= MAX_LEVEL
      modifies this`level, this`length, this`chain, this`heights, chain`forward
      ensures Valid() && fresh(node)
      ensures Entries() == InsertFirst(old(Entries()), Entry(priority, data))
      ensures var q := CountLess(old(Entries()), priority) + 1;
        && q <= |old(chain)| && chain == InsertAt(old(chain), q, node)
        && q <= |old(heights)| && heights == InsertAt(old(heights), q, newLevel)
      ensures fresh(Owned() - old(Owned()))
    {
      hide Links, Tight, Leveled, Ordered, Distinct, SplitAt, Preds, EntriesOf, Forwards, IsPred, InsertAt;
      HeightsOk();
      var update, p, q, u := Descend(priority);
      SplitIsCount(priority, q);
      assert 0 < q < |chain| by { InRange(priority, q); }
      hide CountLess;
      ghost var c := chain;
      node := InsertAtSplit(priority, data, newLevel, update, q, u);
      MembersInserted(c, q, node);
    }

    lemma MembersInserted(c: seq<SkipNode>, q: nat, n: SkipNode)
      requires q <= |c| && chain == InsertAt(c, q, n)
      ensures Owned() == (set x | x in c) + {n}
    {
      assert forall x :: x in InsertAt(c, q, n) <==> x in c || x == n;
    }

    lemma MembersRemoved(c: seq<SkipNode>, q: nat)
      requires q < |c| && chain == RemoveAt(c, q)
      ensures Owned() <= set x | x in c
    {
    }

    lemma InRange(v: int, q: nat)
      requires SplitAt(chain, v, q)
      ensures 0 < q < |chain|
    {
    }

    /** The part of skip_list_insert behind the search. */
    method InsertAtSplit(priority: int, data: Timer, newLevel: nat, update: seq<SkipNode>,
        ghost q: nat, ghost u: seq<nat>)
      returns (node: SkipNode)
      requires Valid() && newLevel <= MAX_LEVEL && |heights| == |chain| && level <= MAX_LEVEL
      requires 0 < q < |chain| && SplitAt(chain, priority, q) && |update| == |u| == MAX_LEVEL + 1
      requires Preds(heights, q, u, level)
      requires forall i :: 0 <= i <= MAX_LEVEL ==> u[i] < |chain| && update[i] == chain[u[i]]
      requires forall i :: level < i <= MAX_LEVEL ==> u[i] == 0
      modifies this`level, this`length, this`chain, this`heights, chain`forward
      ensures Valid() && fresh(node) && chain == InsertAt(old(chain), q, node)
      ensures |old(heights)| >= q && heights == InsertAt(old(heights), q, newLevel)
      ensures q - 1 <= |old(Entries())| && Entries() == InsertAt(old(Entries()), q - 1, Entry(priority, data))
    {
      hide Links, Tight, Leveled, Ordered, Distinct, SplitAt, Preds, EntriesOf, Forwards, IsPred, InsertAt;
      ghost var c, h, l, es := chain, heights, level, Entries();
      assert es == EntriesOf(c[1..|c| - 1]);
      HigherPreds(newLevel, q, u);
      hide Nodes, Entries;
      if newLevel > level {
        level := newLevel;
      }
      node := new SkipNode(priority, newLevel, data, null);
      length := length + 1;
      LinkNode(node, newLevel, update, q, u);
      Inserted(c, h, l, q, node, es);
    }

    /** The list is whole again once node is linked in at q. */
    lemma Inserted(c: seq<SkipNode>, h: seq<nat>, l: nat, q: nat, n: SkipNode, es: seq<Entry>)
      requires 2 <= |c| && head == c[0] && tail == c[|c| - 1] && |h| == |c|
      requires Distinct(c) && Leveled(c, h) && Tight(h, l) && Ordered(c) && length == |c| - 1
      requires SplitAt(c, n.priority, q) && n !in c && n.level <= MAX_LEVEL && es == EntriesOf(c[1..|c| - 1])
      requires chain == InsertAt(c, q, n) && heights == InsertAt(h, q, n.level)
      requires level == if l < n.level then n.level else l
      requires Links<SkipNode?>(chain, heights, Forwards(chain))
      ensures Valid() && Entries() == InsertAt(es, q - 1, Entry(n.priority, n.data))
    {
      SplitInside(c, n.priority, q);
      hide Links, Tight, Leveled, Ordered, Distinct, SplitAt, EntriesOf, Forwards, InsertAt;
      PartsInserted(c, h, l, q, n);
      EndsInserted(c, q, n);
      EntriesInserted(c, q, n);
    }

    lemma PartsInserted(c: seq<SkipNode>, h: seq<nat>, l: nat, q: nat, n: SkipNode)
      requires 0 < q < |c| == |h| && Distinct(c) && Leveled(c, h) && Tight(h, l) && Ordered(c)
      requires SplitAt(c, n.priority, q) && n !in c && n.level <= MAX_LEVEL
      ensures Distinct(InsertAt(c, q, n)) && Leveled(InsertAt(c, q, n), InsertAt(h, q, n.level))
      ensures Tight(InsertAt(h, q, n.level), if l < n.level then n.level else l) && Ordered(InsertAt(c, q, n))
    {
      hide Tight, Leveled, Ordered, Distinct, SplitAt, InsertAt;
      DistinctInserted(c, q, n);
      LeveledInserted(c, h, q, n);
      TightInserted(h, l, q, n.level);
      OrderedInserted(c, q, n);
    }

    lemma SplitInside(c: seq<SkipNode>, v: int, q: nat)
      requires SplitAt(c, v, q)
      ensures 0 < q < |c|
    {
    }

    /** Above the list's level the head is the predecessor of every position. */
    lemma HigherPreds(l: nat, q: nat, u: seq<nat>)
      requires Valid() && |chain| == |heights| && 0 < q < |chain| && |u| == MAX_LEVEL + 1 && l <= MAX_LEVEL
      requires Preds(heights, q, u, level)
      requires forall i :: level < i <= MAX_LEVEL ==> u[i] == 0
      ensures Preds(heights, q, u, l)
    {
    }

    // ---------- skip_list_delete ----------

    /** The first i levels lead past position q. */
    ghost predicate Bypassed(f: seq<seq<SkipNode?>>, q: nat, u: seq<nat>, i: nat)
      requires |f| == |chain| && |u| == MAX_LEVEL + 1 && i <= MAX_LEVEL + 1 && q < |f|
      reads this`chain, chain`forward
    {
      && Full(f) && Distinct(chain)
      && (forall k :: 0 <= k < |chain| ==> |chain[k].forward| == MAX_LEVEL + 1)
      && (forall k, t :: 0 <= k < |chain| && 0 <= t <= MAX_LEVEL ==>
            chain[k].forward[t] == if t < i && k == u[t] then f[q][t] else f[k][t])
    }

    /** On level i the predecessor points at position q exactly when the node there reaches the level. */
    lemma PointsAt(f: seq<seq<SkipNode?>>, q: nat, u: seq<nat>, i: nat)
      requires Links<SkipNode?>(chain, heights, f) && Distinct(chain) && |u| == MAX_LEVEL + 1
      requires 0 < q < |chain| - 1 && i <= MAX_LEVEL && IsPred(heights, i, q, u[i])
      ensures u[i] < q && |f[u[i]]| == MAX_LEVEL + 1
      ensures f[u[i]][i] == chain[q] <==> i <= heights[q]
    {
      var k := Next(heights, i, u[i]);
      assert q <= k;
    }

    /** The unlink loop, which stops at the first level that does not lead to p. */
    method UnlinkLevels(p: SkipNode, update: seq<SkipNode>, ghost f: seq<seq<SkipNode?>>, ghost q: nat,
        ghost u: seq<nat>)
      requires |f| == |chain| && |update| == |u| == MAX_LEVEL + 1 && 0 < q < |chain| - 1 && p == chain[q]
      requires Links<SkipNode?>(chain, heights, f) && Bypassed(f, q, u, 0)
      requires Preds(heights, q, u, level) && level <= MAX_LEVEL && |heights| == |chain| && heights[q] <= level
      requires forall i :: 0 <= i <= level ==> u[i] < |chain| && update[i] == chain[u[i]]
      modifies chain`forward
      ensures Bypassed(f, q, u, heights[q] + 1)
    {
      hide Bypassed, Links, IsPred;
      var i := 0;
      while i <= level
        invariant 0 <= i <= heights[q] + 1 && Bypassed(f, q, u, i)
      {
        assert IsPred(heights, i, q, u[i]);
        var more := UnlinkLevel(p, i, update[i], f, q, u);
        if !more {
          break;
        }
        i := i + 1;
      }
    }

    method UnlinkLevel(p: SkipNode, i: nat, before: SkipNode, ghost f: seq<seq<SkipNode?>>,
        ghost q: nat, ghost u: seq<nat>)
      returns (more: bool)
      requires |f| == |chain| && |u| == MAX_LEVEL + 1 && i <= MAX_LEVEL && 0 < q < |chain| - 1 && p == chain[q]
      requires Links<SkipNode?>(chain, heights, f) && Bypassed(f, q, u, i)
      requires IsPred(heights, i, q, u[i]) && before == chain[u[i]]
      modifies before`forward
      ensures |heights| == |chain| && more == (i <= heights[q])
      ensures Bypassed(f, q, u, if more then i + 1 else i)
    {
      PointsAt(f, q, u, i);
      StillAt(f, q, u, i, u[i]);
      hide Links, Bypassed, Full, Distinct, IsPred;
      more := before.forward[i] == p;
      if more {
        BypassLevel(p, i, before, f, q, u);
      }
    }

    /** Level i of every node is as before while only lower levels were unlinked. */
    lemma StillAt(f: seq<seq<SkipNode?>>, q: nat, u: seq<nat>, i: nat, k: nat)
      requires |f| == |chain| && |u| == MAX_LEVEL + 1 && i <= MAX_LEVEL && q < |chain| && Bypassed(f, q, u, i)
      requires k < |chain|
      ensures |chain[k].forward| == |f[k]| == MAX_LEVEL + 1 && chain[k].forward[i] == f[k][i]
    {
      assert |chain[k].forward| == MAX_LEVEL + 1 && |f[k]| == MAX_LEVEL + 1;
      assert k == u[i] || k != u[i];
    }

    method BypassLevel(p: SkipNode, i: nat, before: SkipNode, ghost f: seq<seq<SkipNode?>>,
        ghost q: nat, ghost u: seq<nat>)
      requires |f| == |chain| && |u| == MAX_LEVEL + 1 && i <= MAX_LEVEL && q < |chain| && p == chain[q]
      requires Bypassed(f, q, u, i) && u[i] < q && before == chain[u[i]]
      modifies before`forward
      ensures Bypassed(f, q, u, i + 1)
    {
      StillAt(f, q, u, i, q);
      StillAt(f, q, u, i, u[i]);
      before.forward := before.forward[i := p.forward[i]];
    }

    lemma BypassedIsRemoved(f: seq<seq<SkipNode?>>, q: nat, u: seq<nat>, l: nat)
      requires |f| == |chain| && |u| == MAX_LEVEL + 1 && l <= MAX_LEVEL && 0 < q < |chain| - 1
      requires Bypassed(f, q, u, l + 1) && forall i :: 0 <= i <= l ==> u[i] < q
      ensures |Forwards(RemoveAt(chain, q))| == |f| - 1 && Full(Forwards(RemoveAt(chain, q)))
      ensures RemovedAt<SkipNode?>(f, Forwards(RemoveAt(chain, q)), q, l, u)
    {
      var d := RemoveAt(chain, q);
      var g := Forwards(d);
      forall j | 0 <= j < q
        ensures |g[j]| == MAX_LEVEL + 1
        ensures forall t :: 0 <= t <= MAX_LEVEL ==> g[j][t] == if t <= l && j == u[t] then f[q][t] else f[j][t]
      {
        assert d[j] == chain[j];
        assert |chain[j].forward| == MAX_LEVEL + 1;
      }
      forall j | q <= j < |d| ensures g[j] == f[j + 1] {
        assert d[j] == chain[j + 1];
        BeyondUntouched(f, q, u, l, j + 1);
      }
    }

    lemma BeyondUntouched(f: seq<seq<SkipNode?>>, q: nat, u: seq<nat>, l: nat, k: nat)
      requires |f| == |chain| && |u| == MAX_LEVEL + 1 && l <= MAX_LEVEL && q < |chain|
      requires Bypassed(f, q, u, l + 1) && forall i :: 0 <= i <= l ==> u[i] < q
      requires q <= k < |chain|
      ensures chain[k].forward == f[k]
    {
      assert |chain[k].forward| == MAX_LEVEL + 1;
      assert |f[k]| == MAX_LEVEL + 1;
      forall t | 0 <= t <= MAX_LEVEL ensures chain[k].forward[t] == f[k][t] {
        assert t < l + 1 ==> u[t] < q;
        assert !(t < l + 1 && k == u[t]);
      }
    }

    lemma UnlinkedAgain(c: seq<SkipNode>, h: seq<nat>, f: seq<seq<SkipNode?>>, q: nat, u: seq<nat>)
      requires Links<SkipNode?>(c, h, f) && 0 < q < |c| - 1 && |u| == MAX_LEVEL + 1 && h[q] <= MAX_LEVEL
      requires Preds(h, q, u, h[q]) && chain == RemoveAt(c, q) && heights == RemoveAt(h, q)
      requires |Forwards(chain)| == |f| - 1 && Full(f) && Full(Forwards(chain))
      requires RemovedAt<SkipNode?>(f, Forwards(chain), q, h[q], u)
      ensures Links<SkipNode?>(chain, heights, Forwards(chain))
    {
      var g := Forwards(chain);
      hide Links, RemovedAt, IsPred, Forwards;
      RemoveKeepsLinks<SkipNode?>(c, h, f, g, q, u);
    }

    /** Taking the node at position q out of all its levels. */
    method UnlinkNode(p: SkipNode, update: seq<SkipNode>, ghost q: nat, ghost u: seq<nat>)
      requires Links<SkipNode?>(chain, heights, Forwards(chain)) && Distinct(chain) && |heights| == |chain|
      requires |update| == |u| == MAX_LEVEL + 1 && 0 < q < |chain| - 1 && p == chain[q]
      requires Preds(heights, q, u, level) && Tight(heights, level)
      requires forall i :: 0 <= i <= level ==> u[i] < |chain| && update[i] == chain[u[i]]
      modifies this`chain, this`heights, chain`forward
      ensures chain == RemoveAt(old(chain), q) && heights == RemoveAt(old(heights), q)
      ensures Links<SkipNode?>(chain, heights, Forwards(chain))
    {
      hide Links, Distinct, Bypassed, IsPred, Forwards, RemovedAt, RemoveAt, Full;
      ghost var f, c, h := Forwards(chain), chain, heights;
      StartUnlinking(f, q, u);
      PredsBelow(h, q, u, h[q]);
      UnlinkLevels(p, update, f, q, u);
      BypassedIsRemoved(f, q, u, h[q]);
      chain, heights := RemoveAt(c, q), RemoveAt(h, q);
      UnlinkedAgain(c, h, f, q, u);
    }

    lemma StartUnlinking(f: seq<seq<SkipNode?>>, q: nat, u: seq<nat>)
      requires Links<SkipNode?>(chain, heights, f) && Distinct(chain) && f == Forwards(chain) && |u| == MAX_LEVEL + 1
      requires q < |chain|
      ensures |f| == |chain| == |heights| && Full(f) && Bypassed(f, q, u, 0)
    {
    }

    /** The loop that lowers list->level to the highest level in use. */
    method TrimLevel()
      requires 2 <= |chain| && head == chain[0] && tail == chain[|chain| - 1] && Distinct(chain)
      requires Links<SkipNode?>(chain, heights, Forwards(chain)) && Below(heights, level)
      modifies this`level
      ensures Tight(heights, level)
    {
      hide Links, Distinct;
      HeadPointer(level);
      while level > 0 && head.forward[level] == tail
        invariant Below(heights, level)
        invariant |head.forward| == MAX_LEVEL + 1
        invariant head.forward[level] == tail <==> forall k :: 0 < k < |heights| - 1 ==> heights[k] < level
      {
        level := level - 1;
        HeadPointer(level);
      }
    }

    /** At level i the head leads to the tail exactly when no node is that high. */
    lemma HeadPointer(i: nat)
      requires 2 <= |chain| && head == chain[0] && tail == chain[|chain| - 1] && Distinct(chain) && i <= MAX_LEVEL
      requires Links<SkipNode?>(chain, heights, Forwards(chain))
      ensures |head.forward| == MAX_LEVEL + 1
      ensures head.forward[i] == tail <==> forall k :: 0 < k < |heights| - 1 ==> heights[k] < i
    {
      var n := Next(heights, i, 0);
      assert Forwards(chain)[0][i] == chain[n];
    }

    /** skip_list_delete: takes out the first node of priority v. */
    method Delete(v: int) returns (ok: bool)
      requires Valid() && v <= INVALID
      requires v == INVALID ==> CountLess(Entries(), v) < |Entries()|
      modifies this`level, this`length, this`chain, this`heights, chain`forward
      ensures Valid()
      ensures ok <==> old(CountLess(Entries(), v) < |Entries()| && Entries()[CountLess(Entries(), v)].priority == v)
      ensures ok ==> Entries() == RemoveAt(old(Entries()), CountLess(old(Entries()), v))
      ensures ok ==> chain == RemoveAt(old(chain), CountLess(old(Entries()), v) + 1)
      ensures ok ==>
        && CountLess(old(Entries()), v) + 1 < |old(heights)|
        && heights == RemoveAt(old(heights), CountLess(old(Entries()), v) + 1)
      ensures !ok ==> chain == old(chain) && heights == old(heights) && Entries() == old(Entries())
      ensures Owned() <= old(Owned())
    {
      hide Links, Tight, Leveled, Ordered, Distinct, SplitAt, Preds, EntriesOf, Forwards, IsPred, RemoveAt, CountLess;
      HeightsOk();
      var update, p, q, u := Descend(v);
      SplitIsCount(v, q);
      ok := p.priority == v;
      if ok {
        DeleteAt(p, update, q, u);
      }
    }

    /** The part of skip_list_delete behind the search. */
    method DeleteAt(p: SkipNode, update: seq<SkipNode>, ghost q: nat, ghost u: seq<nat>)
      requires Valid() && |heights| == |chain| && 0 < q < |chain| - 1 && p == chain[q]
      requires |update| == |u| == MAX_LEVEL + 1 && Preds(heights, q, u, level)
      requires forall i :: 0 <= i <= MAX_LEVEL ==> u[i] < |chain| && update[i] == chain[u[i]]
      modifies this`level, this`length, this`chain, this`heights, chain`forward
      ensures Valid()
      ensures q - 1 < |old(Entries())| && Entries() == RemoveAt(old(Entries()), q - 1)
      ensures chain == RemoveAt(old(chain), q) && Owned() <= old(Owned())
      ensures q < |old(heights)| && heights == RemoveAt(old(heights), q)
    {
      hide Links, Tight, Leveled, Ordered, Distinct, Preds, EntriesOf, Forwards, IsPred, RemoveAt;
      HeightsOk();
      ghost var c, h, l, es := chain, heights, level, Entries();
      assert es == EntriesOf(c[1..|c| - 1]);
      hide Nodes, Entries;
      UnlinkNode(p, update, q, u);
      length := length - 1;
      Removed(c, h, l, q, es);
      MembersRemoved(c, q);
      TrimLevel();
    }

    /** All but the tightness of level holds once the node at q is out. */
    lemma Removed(c: seq<SkipNode>, h: seq<nat>, l: nat, q: nat, es: seq<Entry>)
      requires 2 < |c| == |h| && head == c[0] && tail == c[|c| - 1] && 0 < q < |c| - 1
      requires Distinct(c) && Leveled(c, h) && Tight(h, l) && Ordered(c)
      requires es == EntriesOf(c[1..|c| - 1])
      requires chain == RemoveAt(c, q) && heights == RemoveAt(h, q)
      ensures 2 <= |chain| == |c| - 1 && |heights| == |chain| && head == chain[0] && tail == chain[|chain| - 1]
      ensures Distinct(chain) && Leveled(chain, heights) && Below(heights, l) && Ordered(chain)
      ensures Entries() == RemoveAt(es, q - 1)
    {
      hide Tight, Leveled, Ordered, Distinct, EntriesOf, Below;
      DistinctRemoved(c, q);
      LeveledRemoved(c, h, q);
      BelowRemoved(h, l, q);
      OrderedRemoved(c, q);
      EndsRemoved(c, q);
      EntriesRemoved(c, q);
    }

    /** skip_list_pop_front: the first node, which delete-by-priority then takes out. */
    method PopFront() returns (node: SkipNode?)
      requires Valid()
      modifies this`level, this`length, this`chain, this`heights, chain`forward
      ensures Valid()
      ensures old(Entries()) == [] ==> node == null && Entries() == []
      ensures old(Entries()) != [] ==>
        && node != null && node !in chain && chain == RemoveAt(old(chain), 1)
        && Entries() == old(Entries())[1..] && Entry(node.priority, node.data) == old(Entries())[0]
      ensures Owned() <= old(Owned())
    {
      hide Links, Tight, Leveled, Ordered, Distinct, SplitAt, EntriesOf, Forwards, RemoveAt, Nodes;
      FirstNode();
      node := First();
      if node == tail {
        return null;
      }
      DeleteFirst(node);
    }

    method DeleteFirst(node: SkipNode)
      requires Valid() && 2 < |chain| && node == chain[1]
      modifies this`level, this`length, this`chain, this`heights, chain`forward
      ensures Valid() && chain == RemoveAt(old(chain), 1) && node !in chain && Owned() <= old(Owned())
      ensures old(Entries()) != [] && Entries() == old(Entries())[1..]
      ensures Entry(node.priority, node.data) == old(Entries())[0]
    {
      hide Links, Tight, Leveled, Ordered, Distinct, SplitAt, EntriesOf, Forwards, RemoveAt, Nodes, Entries;
      FirstNode();
      SplitIsCount(node.priority, 1);
      RemoveFirst(Entries());
      var ok := Delete(node.priority);
    }

    lemma RemoveFirst(es: seq<Entry>)
      ensures es != [] ==> RemoveAt(es, 0) == es[1..]
    {
    }

    lemma FirstNode()
      requires Valid()
      ensures Entries() != [] ==> Entries()[0] == Entry(chain[1].priority, chain[1].data)
      ensures |chain| == 2 <==> chain[1] == tail
      ensures |chain| > 2 ==> SplitAt(chain, chain[1].priority, 1)
      ensures |chain| > 2 ==> chain[1].priority <= INVALID && chain[1] !in RemoveAt(chain, 1)
      ensures |Entries()| == |chain| - 2
    {
      hide Links, Tight, Leveled, Forwards;
      if |chain| > 2 { DistinctRemoved(chain, 1); }
    }

    /** Following level i from the head meets exactly the nodes of height at least i, in chain order, and
        then the tail; above the list's level it meets none, and at the list's level some unless it is 0. */
    lemma LevelIsFiltered(i: nat)
      requires Valid() && i <= MAX_LEVEL
      ensures |chain| == |heights| && Links<SkipNode?>(chain, heights, Forwards(chain)) && Heights(heights)
      ensures Walk<SkipNode?>(chain, heights, Forwards(chain), i, 0) == Filter<SkipNode?>(chain, heights, i, 1)
      ensures level < i ==> head.forward[i] == tail
      ensures i == level && 0 < i ==> head.forward[i] != tail
    {
      HeightsOk();
      HeadPointer(i);
      LevelIsFilter<SkipNode?>(chain, heights, Forwards(chain), i, 0);
    }

    /** skip_list_destroy: the nodes freed, in order, from head to tail; each once. */
    method Destroy() returns (freed: seq<SkipNode>)
      requires Valid()
      ensures freed == chain && Distinct(freed)
    {
      hide Links, Tight, Leveled, Ordered, Distinct, Forwards;
      HeightsOk();
      var p := head;
      ghost var k := 0;
      freed := [];
      while p != tail
        invariant k < |chain| && p == chain[k] && freed == chain[..k]
        decreases |chain| - k
      {
        InnerNode(k);
        NextNode(0, k);
        var next := p.forward[0];
        freed := freed + [p];
        p := next;
        k := k + 1;
      }
      LastNode(k);
      freed := freed + [tail];
    }

    lemma InnerNode(k: nat)
      requires Valid() && k < |chain| && chain[k] != tail
      ensures k < |chain| - 1
    {
    }

    lemma LastNode(k: nat)
      requires Valid() && k < |chain| && chain[k] == tail
      ensures k == |chain| - 1 && Distinct(chain)
    {
    }
  }
}
