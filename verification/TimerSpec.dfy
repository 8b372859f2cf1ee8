/** Timer queues as values: sorted sequences, with the two ways of breaking ties. */
module TimerSpec {

  /** struct timer: a callback (0 for none), its argument and the tick it is due. */
  datatype Timer = Timer(func: int, arg: int, timeoutTick: int)

  /** What a queue node holds. */
  datatype Entry = Entry(priority: int, data: Timer)

  ghost predicate Sorted(s: seq<Entry>) {
    forall i, j :: 0 <= i < j < |s| ==> s[i].priority <= s[j].priority
  }

  /** How many leading entries have a priority below v. */
  function CountLess(s: seq<Entry>, v: int): (i: nat)
    ensures i <= |s|
    ensures forall j :: 0 <= j < i ==> s[j].priority < v
    ensures i < |s| ==> v <= s[i].priority
  {
    if s == [] || v <= s[0].priority then 0 else 1 + CountLess(s[1..], v)
  }

  lemma CountLessIs(s: seq<Entry>, v: int, n: nat)
    requires n <= |s| && (forall j :: 0 <= j < n ==> s[j].priority < v) && (n < |s| ==> v <= s[n].priority)
    ensures CountLess(s, v) == n
  {
    var i := CountLess(s, v);
    assert !(i < n) && !(n < i);
  }

  /** How many leading entries have a priority of at most v. */
  function CountUpTo(s: seq<Entry>, v: int): (i: nat)
    ensures i <= |s|
    ensures forall j :: 0 <= j < i ==> s[j].priority <= v
    ensures i < |s| ==> v < s[i].priority
  {
    if s == [] || v < s[0].priority then 0 else 1 + CountUpTo(s[1..], v)
  }

  function InsertAt<T>(s: seq<T>, i: nat, e: T): seq<T>
    requires i <= |s|
  {
    s[..i] + [e] + s[i..]
  }

  lemma InsertAtIndex<T>(s: seq<T>, i: nat, e: T)
    requires i <= |s|
    ensures |InsertAt(s, i, e)| == |s| + 1
    ensures forall j :: 0 <= j <= |s| ==> InsertAt(s, i, e)[j] == if j < i then s[j] else if j == i then e else s[j - 1]
  {
    var r := InsertAt(s, i, e);
    forall j | 0 <= j <= |s| ensures r[j] == if j < i then s[j] else if j == i then e else s[j - 1] {
    }
  }

  /** The skip list puts a new entry in front of its equals. */
  function InsertFirst(s: seq<Entry>, e: Entry): seq<Entry> { InsertAt(s, CountLess(s, e.priority), e) }

  /** The sorted list puts a new entry behind its equals. */
  function InsertLast(s: seq<Entry>, e: Entry): seq<Entry> { InsertAt(s, CountUpTo(s, e.priority), e) }

  function RemoveAt<T>(s: seq<T>, i: nat): seq<T>
    requires i < |s|
  {
    s[..i] + s[i + 1..]
  }

  lemma InsertBetween(a: seq<Entry>, e: Entry, b: seq<Entry>)
    ensures InsertAt(a + b, |a|, e) == a + [e] + b
  {
  }

  lemma RemoveBetween(a: seq<Entry>, e: Entry, b: seq<Entry>)
    ensures RemoveAt(a + [e] + b, |a|) == a + b
  {
  }
}
