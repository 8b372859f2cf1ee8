/** The doubly linked list with two sentinels. */
module SortedList {
  import opened TimerSpec

  class ListNode {
    var priority: int
    var data: Timer
    var prev: ListNode?
    var next: ListNode?

    constructor (priority: int, data: Timer)
      ensures this.priority == priority && this.data == data && prev == null && next == null
    {
      this.priority, this.data, prev, next := priority, data, null, null;
    }
  }

  /** The entries that nodes hold. */
  function EntriesOf(nodes: seq<ListNode>): (r: seq<Entry>)
    reads nodes
    ensures |r| == |nodes|
    ensures forall i :: 0 <= i < |nodes| ==> r[i] == Entry(nodes[i].priority, nodes[i].data)
  {
    if nodes == [] then [] else [Entry(nodes[0].priority, nodes[0].data)] + EntriesOf(nodes[1..])
  }

  lemma EntriesConcat(a: seq<ListNode>, b: seq<ListNode>)
    ensures EntriesOf(a + b) == EntriesOf(a) + EntriesOf(b)
  {
  }

  lemma InnerInserted(c: seq<ListNode>, k: nat, n: ListNode)
    requires 2 <= |c| && 0 < k < |c|
    ensures var d := c[..k] + [n] + c[k..]; d[1..|d| - 1] == c[1..k] + [n] + c[k..|c| - 1]
    ensures c[1..|c| - 1] == c[1..k] + c[k..|c| - 1]
  {
  }

  lemma InnerRemoved(c: seq<ListNode>, k: nat)
    requires 2 <= |c| && 0 < k < |c| - 1
    ensures var d := c[..k] + c[k + 1..]; d[1..|d| - 1] == c[1..k] + c[k + 1..|c| - 1]
    ensures c[1..|c| - 1] == c[1..k] + [c[k]] + c[k + 1..|c| - 1]
  {
  }

  /** Neighbours i and i + 1 of the chain point at each other. */
  ghost predicate Joined(chain: seq<ListNode>, i: nat)
    requires i + 1 < |chain|
    reads chain
  {
    chain[i].next == chain[i + 1] && chain[i + 1].prev == chain[i]
  }

  ghost predicate Distinct(chain: seq<ListNode>) {
    forall i, j :: 0 <= i < j < |chain| ==> chain[i] != chain[j]
  }

  ghost predicate Linked(chain: seq<ListNode>)
    reads chain
  {
    Distinct(chain) && forall i: nat :: i + 1 < |chain| ==> Joined(chain, i)
  }

  class List {
    var head: ListNode
    var tail: ListNode
    var size: nat
    ghost var chain: seq<ListNode>  // head, the nodes, tail

    ghost predicate Valid()
      reads this, chain
    {
      && 2 <= |chain| && head == chain[0] && tail == chain[|chain| - 1]
      && Linked(chain)
      && head.prev == null && tail.next == null
      && size == |chain| - 2
    }

    /** The nodes between the sentinels. */
    ghost function Nodes(): seq<ListNode>
      requires 2 <= |chain|
      reads this
    {
      chain[1..|chain| - 1]
    }

    ghost function Entries(): seq<Entry>
      requires 2 <= |chain|
      reads this, chain
    {
      EntriesOf(Nodes())
    }

    /** The nodes this list owns. */
    ghost function Owned(): set<ListNode>
      reads this
    {
      set n | n in chain
    }

    /** list_init */
    constructor ()
      ensures Valid() && fresh(Owned()) && Entries() == []
    {
      var h := new ListNode(0, Timer(0, 0, 0));
      var t := new ListNode(0, Timer(0, 0, 0));
      head, tail, size, chain := h, t, 0, [h, t];
      new;
      head.prev := null;
      tail.next := null;
      head.next := tail;
      tail.prev := head;
    }

    /** list_cbegin: the first node, which is the tail when the list is empty. */
    method First() returns (node: ListNode)
      requires Valid()
      ensures node == chain[1]
    {
      assert Joined(chain, 0);
      node := head.next;
    }

    /** The first node holds the first entry; without entries it is the tail. */
    lemma FirstEntry()
      requires Valid()
      ensures chain[1] == tail <==> Entries() == []
      ensures Entries() != [] ==> Entries()[0] == Entry(chain[1].priority, chain[1].data)
      ensures Entries() == [] <==> |chain| == 2
    {
      hide Joined;
      assert Distinct(chain);
    }

    /** list_empty */
    method IsEmpty() returns (empty: bool)
      requires Valid()
      ensures empty <==> |chain| == 2
    {
      assert Joined(chain, 0);
      empty := head.next == tail;
    }

    /** Links node into the chain in front of position k. */
    method LinkBefore(p: ListNode, node: ListNode, ghost k: nat)
      requires Valid() && 0 < k < |chain| && p == chain[k] && node !in chain
      modifies this`size, this`chain, Owned(), node
      ensures Valid() && chain == old(chain)[..k] + [node] + old(chain)[k..] && Owned() == old(Owned()) + {node}
      ensures Entries() == InsertAt(old(Entries()), k - 1, Entry(old(node.priority), old(node.data)))
    {
      hide Linked, InsertAt, EntriesOf;
      ghost var es, c := Entries(), chain;
      LinkPointers(p, node, k, chain[k - 1]);
      size := size + 1;
      chain := chain[..k] + [node] + chain[k..];
      EntriesInserted(c, k, node, es);
    }

    lemma EntriesInserted(c: seq<ListNode>, k: nat, node: ListNode, es: seq<Entry>)
      requires 2 <= |c| && 0 < k < |c| && chain == c[..k] + [node] + c[k..]
      requires es == EntriesOf(c[1..|c| - 1])
      ensures Entries() == InsertAt(es, k - 1, Entry(node.priority, node.data))
    {
      hide InsertAt;
      var a, b := c[1..k], c[k..|c| - 1];
      InnerInserted(c, k, node);
      assert EntriesOf([node]) == [Entry(node.priority, node.data)];
      hide EntriesOf;
      EntriesConcat(a, b);
      EntriesConcat(a + [node], b);
      EntriesConcat(a, [node]);
      InsertBetween(EntriesOf(a), Entry(node.priority, node.data), EntriesOf(b));
    }

    /** The four pointer writes of an insertion. */
    method LinkPointers(p: ListNode, node: ListNode, ghost k: nat, ghost before: ListNode)
      requires Linked(chain) && 0 < k < |chain| && p == chain[k] && node !in chain && before == chain[k - 1]
      modifies node`next, node`prev, before`next, p`prev
      ensures Linked(chain[..k] + [node] + chain[k..])
      ensures chain[0].prev == old(chain[0].prev) && chain[|chain| - 1].next == old(chain[|chain| - 1].next)
    {
      assert Joined(chain, k - 1);
      node.next := p;
      node.prev := p.prev;
      p.prev.next := node;
      p.prev := node;
      ghost var c := chain[..k] + [node] + chain[k..];
      forall i: nat | i + 1 < |c| ensures Joined(c, i) {
        if i < k - 1 { assert old(Joined(chain, i)); }
        else if k < i { assert old(Joined(chain, i - 1)); }
      }
    }

    /** list_push_back */
    method PushBack(node: ListNode)
      requires Valid() && node !in chain
      modifies this`size, this`chain, Owned(), node
      ensures Valid() && chain == old(chain)[..|old(chain)| - 1] + [node, tail]
      ensures Entries() == old(Entries()) + [Entry(old(node.priority), old(node.data))]
    {
      hide Linked, EntriesOf, InsertAt, Joined, Distinct;
      InsertAtEnd(Entries(), Entry(node.priority, node.data));
      LinkBefore(tail, node, |chain| - 1);
    }

    lemma InsertAtEnd(es: seq<Entry>, e: Entry)
      ensures InsertAt(es, |es|, e) == es + [e]
    {
    }

    /** list_sort_insert: behind every node of the same priority, when the list is sorted. */
    method SortInsert(node: ListNode)
      requires Valid() && node !in chain
      modifies this`size, this`chain, Owned(), node
      ensures Valid()
      ensures Entries() == InsertLast(old(Entries()), Entry(old(node.priority), old(node.data)))
      ensures Owned() == old(Owned()) + {node}
    {
      assert Joined(chain, 0);
      var p := head.next;
      ghost var k := 1;
      while p != tail
        invariant 0 < k < |chain| && p == chain[k]
        invariant forall j :: 0 < j < k ==> chain[j].priority <= node.priority
        decreases |chain| - k
      {
        if p.priority > node.priority {
          break;
        }
        assert Joined(chain, k);
        p := p.next;
        k := k + 1;
      }
      CountIs(k, node.priority);
      LinkBefore(p, node, k);
    }

    lemma CountIs(k: nat, v: int)
      requires Valid() && 0 < k < |chain|
      requires forall j :: 0 < j < k ==> chain[j].priority <= v
      requires chain[k] == tail || v < chain[k].priority
      ensures CountUpTo(Entries(), v) == k - 1
    {
      var es := Entries();
      assert forall j :: 0 <= j < |es| ==> es[j].priority == chain[j + 1].priority;
      assert k - 1 < |es| ==> v < es[k - 1].priority;
    }

    /** list_delete of a node that is in the list, at position k of the chain */
    method Delete(node: ListNode, ghost k: nat)
      requires Valid() && 0 < k < |chain| - 1 && node == chain[k]
      modifies this`size, this`chain, Owned()
      ensures Valid() && chain == old(chain)[..k] + old(chain)[k + 1..]
      ensures Entries() == RemoveAt(old(Entries()), k - 1)
      ensures node.priority == old(node.priority) && node.data == old(node.data)
    {
      hide Linked, RemoveAt, EntriesOf;
      ghost var es, c := Entries(), chain;
      UnlinkPointers(node, k, chain[k - 1], chain[k + 1]);
      size := size - 1;
      chain := chain[..k] + chain[k + 1..];
      EntriesRemoved(c, k, es);
    }

    lemma EntriesRemoved(c: seq<ListNode>, k: nat, es: seq<Entry>)
      requires 2 <= |c| && 0 < k < |c| - 1 && chain == c[..k] + c[k + 1..]
      requires es == EntriesOf(c[1..|c| - 1])
      ensures Entries() == RemoveAt(es, k - 1)
    {
      hide RemoveAt;
      var a, b := c[1..k], c[k + 1..|c| - 1];
      InnerRemoved(c, k);
      assert EntriesOf([c[k]]) == [Entry(c[k].priority, c[k].data)];
      hide EntriesOf;
      EntriesConcat(a, b);
      EntriesConcat(a + [c[k]], b);
      EntriesConcat(a, [c[k]]);
      RemoveBetween(EntriesOf(a), Entry(c[k].priority, c[k].data), EntriesOf(b));
    }

    /** The two pointer writes of a removal. */
    method UnlinkPointers(node: ListNode, ghost k: nat, ghost before: ListNode, ghost after: ListNode)
      requires Linked(chain) && 0 < k < |chain| - 1
      requires node == chain[k] && before == chain[k - 1] && after == chain[k + 1]
      modifies before`next, after`prev
      ensures Linked(chain[..k] + chain[k + 1..])
      ensures chain[0].prev == old(chain[0].prev) && chain[|chain| - 1].next == old(chain[|chain| - 1].next)
    {
      assert Joined(chain, k - 1) && Joined(chain, k);
      node.prev.next := node.next;
      node.next.prev := node.prev;
      ghost var c := chain[..k] + chain[k + 1..];
      forall i: nat | i + 1 < |c| ensures Joined(c, i) {
        if i < k - 1 { assert old(Joined(chain, i)); }
        else if k <= i { assert old(Joined(chain, i + 1)); }
      }
    }

    /** list_pop_front */
    method PopFront() returns (node: ListNode?)
      requires Valid()
      modifies this`size, this`chain, Owned()
      ensures Valid()
      ensures |old(chain)| == 2 ==> node == null && chain == old(chain) && Entries() == old(Entries())
      ensures |old(chain)| > 2 ==>
        && node == old(chain)[1] && chain == [head] + old(chain)[2..] && Entries() == old(Entries())[1..]
        && Entry(node.priority, node.data) == old(Entries())[0]
      ensures Owned() <= old(Owned())
    {
      HeadNext();
      hide Linked, EntriesOf, Joined, Distinct;
      if head.next == tail {
        return null;
      }
      node := head.next;
      PopNode(node);
    }

    /** The part of list_pop_front for a list with nodes. */
    method PopNode(node: ListNode)
      requires Valid() && 2 < |chain| && node == chain[1]
      modifies this`size, this`chain, Owned()
      ensures Valid() && chain == [head] + old(chain)[2..] && Owned() <= old(Owned())
      ensures old(Entries()) != [] && Entries() == old(Entries())[1..]
      ensures Entry(node.priority, node.data) == old(Entries())[0]
    {
      hide Linked, EntriesOf, Joined, Distinct;
      ghost var es, c := Entries(), chain;
      UnlinkFirst(node, chain[2]);
      size := size - 1;
      chain := [head] + chain[2..];
      EntriesPopped(c, es);
    }

    lemma HeadNext()
      requires Valid()
      ensures head.next == chain[1] && (chain[1] == tail <==> |chain| == 2)
    {
      assert Joined(chain, 0) && Distinct(chain);
    }

    lemma EntriesPopped(c: seq<ListNode>, es: seq<Entry>)
      requires 2 < |c| && chain == [c[0]] + c[2..] && es == EntriesOf(c[1..|c| - 1])
      ensures Entries() == es[1..] && es[0] == Entry(c[1].priority, c[1].data)
    {
      assert Nodes() == c[2..|c| - 1] && c[1..|c| - 1] == [c[1]] + c[2..|c| - 1];
      EntriesConcat([c[1]], c[2..|c| - 1]);
    }

    /** The two pointer writes that take the first node out. */
    method UnlinkFirst(node: ListNode, ghost after: ListNode)
      requires Linked(chain) && 2 < |chain| && node == chain[1] && head == chain[0] && after == chain[2]
      modifies head`next, after`prev
      ensures Linked([head] + chain[2..])
      ensures chain[0].prev == old(chain[0].prev) && chain[|chain| - 1].next == old(chain[|chain| - 1].next)
    {
      assert Joined(chain, 1);
      head.next := node.next;
      node.next.prev := head;
      ghost var c := [head] + chain[2..];
      forall i: nat | i + 1 < |c| ensures Joined(c, i) {
        if 0 < i { assert old(Joined(chain, i + 1)); }
      }
    }

    /** One pop of list_destroy. */
    method PopTo(ghost c: seq<ListNode>, ghost freed: seq<ListNode>) returns (node: ListNode?)
      requires Valid() && Taken(chain, c, freed)
      modifies this`size, this`chain, (set n | n in c)
      ensures Valid()
      ensures node == null ==> |old(chain)| == 2 && chain == old(chain)
      ensures node != null ==> Taken(chain, c, freed + [node]) && |chain| == |old(chain)| - 1
    {
      ghost var b := chain;
      TakenIn(b, c, freed);
      node := PopFront();
      if node != null { Shifted(b, chain, c, freed, node); }
    }

    /** The loop of list_destroy: pops and frees until the list is empty. */
    method DestroyNodes() returns (freed: seq<ListNode>)
      requires Valid()
      modifies this`size, this`chain, Owned()
      ensures freed == old(chain)[1..|old(chain)| - 1]
    {
      freed := [];
      ghost var c := chain;
      hide Linked, Distinct, Taken;
      TakenStart(c);
      var empty := IsEmpty();
      while !empty
        invariant Valid() && (empty <==> |chain| == 2)
        invariant Taken(chain, c, freed)
        decreases |chain|
      {
        var node := PopTo(c, freed);
        if node == null { break; }
        freed := freed + [node];
        empty := IsEmpty();
      }
      AllTaken(chain, c, freed);
    }

    /** list_destroy: the nodes freed, in order; each once, the sentinels last. */
    method Destroy() returns (freed: seq<ListNode>)
      requires Valid()
      modifies this`size, this`chain, Owned()
      ensures freed == old(Nodes()) + [head, tail] && Distinct(freed)
    {
      ghost var c := chain;
      freed := DestroyNodes();
      freed := freed + [head, tail];
      DistinctRotated(c, freed);
    }

    /** freed were the first nodes of c and what is left of c is chain. */
    ghost predicate Taken(chain: seq<ListNode>, c: seq<ListNode>, freed: seq<ListNode>) {
      && 2 <= |chain| && |chain| + |freed| == |c| && chain[0] == c[0]
      && (forall j :: 0 < j < |chain| ==> chain[j] == c[j + |freed|])
      && (forall j :: 0 <= j < |freed| ==> freed[j] == c[j + 1])
    }

    lemma TakenStart(c: seq<ListNode>)
      requires 2 <= |c|
      ensures Taken(c, c, [])
    {
    }

    lemma TakenIn(b: seq<ListNode>, c: seq<ListNode>, freed: seq<ListNode>)
      requires Taken(b, c, freed)
      ensures forall n :: n in b ==> n in c
    {
    }

    lemma Shifted(b: seq<ListNode>, d: seq<ListNode>, c: seq<ListNode>, freed: seq<ListNode>, node: ListNode)
      requires Taken(b, c, freed) && 2 < |b| && d == [b[0]] + b[2..] && node == b[1]
      ensures Taken(d, c, freed + [node])
    {
    }

    lemma AllTaken(b: seq<ListNode>, c: seq<ListNode>, freed: seq<ListNode>)
      requires Taken(b, c, freed) && |b| == 2
      ensures freed == c[1..|c| - 1] && b[0] == c[0] && b[1] == c[|c| - 1]
    {
    }

    lemma DistinctRotated(c: seq<ListNode>, r: seq<ListNode>)
      requires 2 <= |c| && Distinct(c) && r == c[1..|c| - 1] + [c[0], c[|c| - 1]]
      ensures Distinct(r)
    {
      assert forall i :: 0 <= i < |c| - 2 ==> r[i] == c[i + 1];
    }
  }
}
