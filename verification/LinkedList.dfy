/** Singly linked lists, and the functions that relink them in place. */
module LinkedList {

  class Node {
    const value: string
    var next: Node?

    constructor (value: string, next: Node?)
      ensures this.value == value && this.next == next
    {
      this.value := value;
      this.next := next;
    }
  }

  predicate Distinct(ns: seq<Node>) {
    forall i, j :: 0 <= i < j < |ns| ==> ns[i] != ns[j]
  }

  /** The node after number `i` in a chain that goes on to `end`. */
  function After(ns: seq<Node>, i: nat, end: Node?): Node?
    requires i < |ns|
  {
    if i + 1 < |ns| then ns[i+1] else end
  }

  /** Each node points to the one after it, and the last one to `end`. */
  predicate Linked(ns: seq<Node>, end: Node?)
    reads ns
  {
    forall i :: 0 <= i < |ns| ==> ns[i].next == After(ns, i, end)
  }

  /** The node a chain starts with, if it has one. */
  function Start(ns: seq<Node>, end: Node?): Node? { if ns == [] then end else ns[0] }

  /** A chain of two parts is two chains that meet. */
  lemma LinkedConcat(a: seq<Node>, b: seq<Node>, end: Node?)
    ensures Linked(a + b, end) <==> Linked(a, Start(b, end)) && Linked(b, end)
  {
    var ab := a + b;
    if Linked(ab, end) {
      forall i | 0 <= i < |a| ensures a[i].next == After(a, i, Start(b, end)) {
        assert ab[i] == a[i];
      }
      forall i | 0 <= i < |b| ensures b[i].next == After(b, i, end) {
        assert ab[|a|+i] == b[i];
      }
    }
    if Linked(a, Start(b, end)) && Linked(b, end) {
      forall i | 0 <= i < |ab| ensures ab[i].next == After(ab, i, end) {
        if i < |a| { assert ab[i] == a[i]; } else { assert ab[i] == b[i-|a|]; }
      }
    }
  }

  /** The parts of a list around its node number `k`. */
  lemma Around(ns: seq<Node>, k: nat)
    requires k < |ns| && Distinct(ns) && Linked(ns, null)
    ensures Linked(ns[..k], ns[k]) && Linked(ns[k+1..], null) && ns[k].next == Start(ns[k+1..], null)
    ensures ns[k] !in ns[..k] && ns[k] !in ns[k+1..]
  {
    var a, b := ns[..k], ns[k+1..];
    assert ns == a + ([ns[k]] + b);
    LinkedConcat(a, [ns[k]] + b, null);
    LinkedConcat([ns[k]], b, null);
    assert [ns[k]][0].next == After([ns[k]], 0, Start(b, null));
  }

  /** A list put together around a node. */
  lemma Together(a: seq<Node>, point: Node, mid: seq<Node>, b: seq<Node>)
    requires Linked(a, point) && point.next == Start(mid + b, null)
    requires Linked(mid, Start(b, null)) && Linked(b, null)
    ensures Linked(a + ([point] + (mid + b)), null)
  {
    LinkedConcat(mid, b, null);
    LinkedConcat([point], mid + b, null);
    LinkedConcat(a, [point] + (mid + b), null);
  }

  lemma LinkedOne(n: Node, end: Node?)
    ensures Linked([n], end) <==> n.next == end
  {
    assert [n][0].next == n.next && After([n], 0, end) == end;
  }

  /** `ms` in between number `k` of `ns` and what follows it. */
  function Spliced(ns: seq<Node>, k: nat, ms: seq<Node>): seq<Node>
    requires k < |ns|
  {
    ns[..k+1] + ms + ns[k+1..]
  }

  /** A chain of different nodes that ends. */
  predicate Chain(ns: seq<Node>)
    reads ns
  {
    Distinct(ns) && Linked(ns, null)
  }

  class List {
    var head: Node?

    /** The list's nodes are exactly `ns`, in this order. */
    predicate Holds(ns: seq<Node>)
      reads this, ns
    {
      head == Start(ns, null) && Chain(ns)
    }

    constructor ()
      ensures Holds([])
    {
      head := null;
    }

    method InsertHead(value: string, ghost ns: seq<Node>) returns (ghost n: Node)
      requires Holds(ns)
      modifies this
      ensures fresh(n) && n.value == value && Holds([n] + ns)
    {
      var newHead := new Node(value, head);
      head := newHead;
      n := newHead;
      LinkedConcat([n], ns, null);
    }

    method RemoveHead(ghost ns: seq<Node>)
      requires Holds(ns) && ns != []
      modifies this
      ensures Holds(ns[1..])
    {
      LinkedConcat([ns[0]], ns[1..], null);
      assert ns == [ns[0]] + ns[1..];
      var ptr := head.next;
      head := ptr;
    }

    method FreeMemory(ghost ns: seq<Node>)
      requires Holds(ns)
      modifies this
      ensures Holds([]) && head == null
    {
      ghost var left := ns;
      while head != null
        invariant Holds(left)
        decreases |left|
      {
        RemoveHead(left);
        left := left[1..];
      }
    }
  }

  /** A new node after `point`, number `k` of the chain `ns`. */
  method InsertAfter(point: Node, value: string, ghost ns: seq<Node>, ghost k: nat) returns (ghost n: Node)
    requires Chain(ns) && k < |ns| && ns[k] == point
    modifies point
    ensures fresh(n) && n.value == value && Chain(Spliced(ns, k, [n]))
    ensures Start(Spliced(ns, k, [n]), null) == Start(ns, null)
  {
    hide Linked, Distinct, Spliced;
    Around(ns, k);
    var newEl := new Node(value, point.next);
    n := newEl;
    point.next := newEl;
    LinkedOne(newEl, Start(ns[k+1..], null));
    Together(ns[..k], point, [newEl], ns[k+1..]);
    OneNode(newEl);
    SplicedDistinct(ns, [newEl], k);
  }

  /** All nodes of `list` moved in after `point`, number `k` of the chain `ns`. */
  method InsertList(point: Node, list: List?, ghost ns: seq<Node>, ghost k: nat, ghost ms: seq<Node>)
    requires Chain(ns) && k < |ns| && ns[k] == point
    requires list != null ==> list.Holds(ms) && ms != [] && forall n :: n in ms ==> n !in ns
    modifies point, list, if list == null || ms == [] then {} else {ms[|ms|-1]}
    ensures list == null ==> Chain(ns)
    ensures list != null ==> list.Holds([]) && Chain(Spliced(ns, k, ms))
    ensures list != null ==> Start(Spliced(ns, k, ms), null) == Start(ns, null)
  {
    if list == null {
      return;
    }
    ghost var i := 0;
    var before := list.head;
    assert ms[i].next == After(ms, i, null);
    while before.next != null
      invariant 0 <= i < |ms| && before == ms[i] && before.next == After(ms, i, null)
      decreases |ms| - i
    {
      before := before.next;
      i := i + 1;
      assert ms[i].next == After(ms, i, null);
    }
    hide Linked, Distinct, Spliced;
    SpliceReady(ns, ms, k);
    before.next := point.next;
    point.next := list.head;
    SpliceDone(ns, ms, k);
    list.head := null;
  }

  /** After the two assignments the nodes form the spliced chain. */
  lemma SpliceDone(ns: seq<Node>, ms: seq<Node>, k: nat)
    requires k < |ns| && ms != []
    requires var a, b, m, last := ns[..k], ns[k+1..], ms[..|ms|-1], ms[|ms|-1];
             && Linked(a, ns[k]) && Linked(b, null) && Linked(m, last) && m + [last] == ms
             && last.next == Start(b, null) && ns[k].next == ms[0]
             && a + ([ns[k]] + (ms + b)) == Spliced(ns, k, ms)
    ensures Linked(Spliced(ns, k, ms), null)
  {
    hide Linked, Spliced;
    var a, b, m, last := ns[..k], ns[k+1..], ms[..|ms|-1], ms[|ms|-1];
    LinkedOne(last, Start(b, null));
    LinkedConcat(m, [last], Start(b, null));
    Together(a, ns[k], ms, b);
  }

  /** Two chains without common nodes, ready to be spliced. */
  lemma SpliceReady(ns: seq<Node>, ms: seq<Node>, k: nat)
    requires k < |ns| && ms != [] && Chain(ns) && Chain(ms)
    requires forall n :: n in ms ==> n !in ns
    ensures var a, b, m, last := ns[..k], ns[k+1..], ms[..|ms|-1], ms[|ms|-1];
            && Linked(a, ns[k]) && Linked(b, null) && Linked(m, last) && ns[k].next == Start(b, null)
            && m + [last] == ms && ns[k] != last
            && ns[k] !in a && ns[k] !in b && ns[k] !in m && last !in a && last !in b && last !in m
            && Distinct(Spliced(ns, k, ms)) && a + ([ns[k]] + (ms + b)) == Spliced(ns, k, ms)
            && Start(Spliced(ns, k, ms), null) == Start(ns, null)
  {
    hide Linked, Distinct;
    Around(ns, k);
    Around(ms, |ms| - 1);
    SplicedDistinct(ns, ms, k);
    assert ms[|ms|-1] in ms && ns[k] in ns;
    assert forall n :: n in ns[..k] || n in ns[k+1..] ==> n in ns;
    assert forall n :: n in ms[..|ms|-1] ==> n in ms;
  }

  lemma OneNode(n: Node)
    ensures Distinct([n])
  {
  }

  lemma SplicedDistinct(ns: seq<Node>, ms: seq<Node>, k: nat)
    requires k < |ns| && Distinct(ns) && Distinct(ms) && forall n :: n in ms ==> n !in ns
    ensures Distinct(Spliced(ns, k, ms))
    ensures ns[..k] + ([ns[k]] + (ms + ns[k+1..])) == Spliced(ns, k, ms)
    ensures Start(Spliced(ns, k, ms), null) == Start(ns, null)
  {
    var r, n := Spliced(ns, k, ms), |ms|;
    assert ns[..k] + ([ns[k]] + (ms + ns[k+1..])) == r;
    forall i, j | 0 <= i < j < |r| ensures r[i] != r[j] {
      assert r[i] == (if i <= k then ns[i] else if i <= k + n then ms[i-k-1] else ns[i-n]);
      assert r[j] == (if j <= k then ns[j] else if j <= k + n then ms[j-k-1] else ns[j-n]);
      if k < i <= k + n { assert ms[i-k-1] in ms; }
      if k < j <= k + n { assert ms[j-k-1] in ms; }
    }
  }

  /** Exchanges the two nodes after `node`. */
  method Swap(node: Node)
    requires node.next != null && node.next.next != null
    requires node != node.next && node.next != node.next.next && node != node.next.next
    modifies node, node.next, node.next.next
    ensures node.next == old(node.next.next)
    ensures old(node.next.next).next == old(node.next)
    ensures old(node.next).next == old(node.next.next.next)
  {
    var nodeNext := node.next;
    node.next := node.next.next;
    nodeNext.next := node.next.next;
    node.next.next := nodeNext;
  }
}
