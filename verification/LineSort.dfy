/** The bubble sort that relinks the lines of a list in place, one sentinel node for each pass. */
module LineSort {
  import opened Strings
  import opened LinkedList

  // ----- the sort on sequences of nodes -----

  predicate Greater(a: Node, b: Node) { Strcmp(a.value, b.value) > 0 }

  function SwapAt(ns: seq<Node>, j: nat): (r: seq<Node>)
    requires 0 < j < |ns|
    ensures |r| == |ns|
  {
    ns[j-1 := ns[j]][j := ns[j-1]]
  }

  /** Comparison number `j`: nodes `j - 1` and `j` change places when the first is greater. */
  function Compare(ns: seq<Node>, j: nat): (r: seq<Node>)
    requires 0 < j < |ns|
    ensures |r| == |ns|
  {
    if Greater(ns[j-1], ns[j]) then SwapAt(ns, j) else ns
  }

  /** The nodes after `j` comparisons of neighbours. */
  function Bubble(ns: seq<Node>, j: nat): (r: seq<Node>)
    requires j == 0 || j < |ns|
    ensures |r| == |ns|
  {
    if j == 0 then ns else Compare(Bubble(ns, j - 1), j)
  }

  /** The nodes after `i` passes, each of them one comparison shorter than the one before. */
  function Passes(ns: seq<Node>, i: nat): (r: seq<Node>)
    requires i == 0 || i < |ns|
    ensures |r| == |ns|
  {
    if i == 0 then ns else Bubble(Passes(ns, i - 1), |ns| - i)
  }

  function SortedNodes(ns: seq<Node>): seq<Node> {
    if ns == [] then [] else Passes(ns, |ns| - 1)
  }

  // ----- the sort in place -----

  /** Exchanging nodes `k + 1` and `k + 2` of a chain. */
  method SwapInChain(node: Node, ghost ns: seq<Node>, ghost k: nat)
    requires Chain(ns) && k + 2 < |ns| && ns[k] == node
    modifies node, ns[k+1], ns[k+2]
    ensures Chain(SwapAt(ns, k + 2))
  {
    assert ns[k].next == After(ns, k, null) && ns[k+1].next == After(ns, k + 1, null);
    assert ns[k+2].next == After(ns, k + 2, null);
    Swap(node);
    ghost var r := SwapAt(ns, k + 2);
    forall i | 0 <= i < |r| ensures r[i].next == After(r, i, null) {
      if i < k || i > k + 2 { assert ns[i].next == After(ns, i, null); }
    }
  }

  /** One comparison of the two nodes after `node`, number `k` of a chain. */
  method CompareInChain(node: Node, ghost ns: seq<Node>, ghost k: nat)
    requires Chain(ns) && k + 2 < |ns| && ns[k] == node
    modifies node, ns[k+1], ns[k+2]
    ensures Chain(Compare(ns, k + 2)) && node.next == Compare(ns, k + 2)[k+1]
  {
    assert ns[k].next == After(ns, k, null) && ns[k+1].next == After(ns, k + 1, null);
    if Strcmp(node.next.value, node.next.next.value) > 0 {
      SwapInChain(node, ns, k);
    }
    ghost var r := Compare(ns, k + 2);
    assert r[k].next == After(r, k, null);
  }

  predicate SameNodes(a: seq<Node>, b: seq<Node>) { multiset(a) == multiset(b) }

  lemma SameRefl(a: seq<Node>)
    ensures SameNodes(a, a)
  {
  }

  lemma SameTrans(a: seq<Node>, b: seq<Node>, c: seq<Node>)
    requires SameNodes(a, b) && SameNodes(b, c)
    ensures SameNodes(a, c)
  {
  }

  lemma SameMembers(a: seq<Node>, b: seq<Node>)
    requires SameNodes(a, b)
    ensures |a| == |b| && forall n :: n in a <==> n in b
  {
    assert |multiset(a)| == |a| && |multiset(b)| == |b|;
    assert forall n :: n in a <==> n in multiset(a);
    assert forall n :: n in b <==> n in multiset(b);
  }

  lemma PassKeepsNodes(ns: seq<Node>, cur: seq<Node>, m: nat)
    requires SameNodes(cur, ns) && m < |cur|
    ensures SameNodes(Bubble(cur, m), ns) && |cur| == |ns| && forall k :: 0 <= k < |cur| ==> cur[k] in ns
  {
    hide Bubble;
    SameMembers(cur, ns);
    assert forall k :: 0 <= k < |cur| ==> cur[k] in cur;
    PassPermutes(cur, m);
  }

  /** One round of the sorting thread, under its lock: counts the nodes and sorts them. `freed` are the sentinels. */
  method SortLines(list: List, ghost ns: seq<Node>) returns (ghost freed: seq<Node>)
    requires list.Holds(ns)
    modifies list, ns
    ensures list.Holds(SortedNodes(ns))
    ensures |freed| == if |ns| > 1 then |ns| - 1 else 0
    ensures forall n :: n in freed ==> fresh(n)
    ensures forall n :: n in ns ==> n !in freed && n.next !in freed
  {
    var count := CountNodes(list, ns);
    freed := [];
    ghost var cur := ns;
    SameRefl(ns);
    if count > 1 {
      freed := SortCounted(list, count, ns);
      cur := SortedNodes(ns);
      PassesPermute(ns, |ns| - 1);
    }
    hide Passes, SameNodes, SortedNodes, Distinct, Linked;
    assert forall n :: n in freed ==> n !in ns;
    SentinelsUnreachable(ns, cur, freed);
  }

  /** The passes, after the nodes have been counted. */
  method SortCounted(list: List, count: nat, ghost ns: seq<Node>) returns (ghost freed: seq<Node>)
    requires list.Holds(ns) && count == |ns| > 1
    modifies list, ns
    ensures list.Holds(Passes(ns, count - 1))
    ensures |freed| == count - 1 && forall n :: n in freed ==> fresh(n)
  {
    freed := [];
    ghost var cur := ns;
    SameRefl(ns);
    hide SameNodes, Bubble, Distinct, Linked;
    var newhead := list.head;
    var i := 1;
    while i < count
      invariant 1 <= i <= count && cur == Passes(ns, i - 1)
      invariant Chain(cur) && list.head == newhead == cur[0] && SameNodes(cur, ns)
      invariant |freed| == i - 1 && forall n :: n in freed ==> fresh(n)
    {
      PassKeepsNodes(ns, cur, count - i);
      var saveEmptyNode;
      newhead, saveEmptyNode := SortPass(newhead, count - i, cur);
      cur := Bubble(cur, count - i);
      list.head := newhead;
      freed := freed + [saveEmptyNode];
      i := i + 1;
    }
  }

  method CountNodes(list: List, ghost ns: seq<Node>) returns (count: nat)
    requires list.Holds(ns)
    ensures count == |ns|
  {
    var counterNode := list.head;
    count := 0;
    while counterNode != null
      invariant count <= |ns| && counterNode == Start(ns[count..], null)
      decreases |ns| - count
    {
      assert ns[count].next == After(ns, count, null);
      count := count + 1;
      counterNode := counterNode.next;
    }
  }

  /** One pass of `m` comparisons, behind a new sentinel. */
  method SortPass(head: Node, m: nat, ghost ns: seq<Node>) returns (newhead: Node, saveEmptyNode: Node)
    requires Chain(ns) && ns != [] && head == ns[0] && 0 < m < |ns|
    modifies ns
    ensures Chain(Bubble(ns, m)) && newhead == Bubble(ns, m)[0] && fresh(saveEmptyNode)
  {
    var node := new Node("", head);
    saveEmptyNode := node;
    newhead := head;
    ghost var s := node;
    ghost var cur := ns;
    hide Linked, Distinct, Compare, Chain, Bubble, After, Start;
    BehindNew(s, ns);
    BubbleStarts(ns);
    var j := 1;
    while j < m + 1
      invariant 1 <= j <= m + 1 && |cur| == |ns| && cur == Bubble(ns, j - 1)
      invariant Chain([s] + cur) && node == (if j == 1 then s else cur[j-2])
      invariant forall k :: 0 <= k < |cur| ==> cur[k] in ns
      invariant saveEmptyNode == s && (j > 1 ==> newhead == cur[0])
    {
      BubbleGoesOn(ns, j);
      CompareMembers(ns, cur, j);
      CompareAfter(node, s, cur, j);
      cur := Compare(cur, j);
      if j == 1 {
        newhead := node.next;
        saveEmptyNode := node;
      }
      node := node.next;
      j := j + 1;
    }
    Behind(s, cur);
  }

  lemma BehindNew(s: Node, ns: seq<Node>)
    requires Chain(ns) && ns != [] && s !in ns && s.next == ns[0]
    ensures Chain([s] + ns)
  {
    hide Chain;
    Behind(s, ns);
  }

  lemma CompareMembers(ns: seq<Node>, cur: seq<Node>, j: nat)
    requires 0 < j < |cur| && forall k :: 0 <= k < |cur| ==> cur[k] in ns
    ensures forall k :: 0 <= k < |cur| ==> Compare(cur, j)[k] in ns
    ensures j > 1 ==> Compare(cur, j)[0] == cur[0]
  {
  }

  /** Comparison number `j` of the nodes behind a sentinel. */
  method CompareAfter(node: Node, ghost s: Node, ghost cur: seq<Node>, ghost j: nat)
    requires 0 < j < |cur| && Chain([s] + cur) && node == (if j == 1 then s else cur[j-2])
    modifies node, cur[j-1], cur[j]
    ensures Chain([s] + Compare(cur, j)) && node.next == Compare(cur, j)[j-1]
  {
    hide Linked, Distinct, Compare, Chain;
    assert ([s] + cur)[j] == cur[j-1] && ([s] + cur)[j+1] == cur[j] && node == ([s] + cur)[j-1];
    CompareInChain(node, [s] + cur, j - 1);
    CompareBehind(s, cur, j);
  }

  lemma BubbleStarts(ns: seq<Node>)
    ensures Bubble(ns, 0) == ns
  {
  }

  lemma BubbleGoesOn(ns: seq<Node>, j: nat)
    requires 0 < j < |ns|
    ensures Bubble(ns, j) == Compare(Bubble(ns, j - 1), j)
  {
  }

  /** A chain behind one more node. */
  lemma Behind(s: Node, cur: seq<Node>)
    ensures Chain([s] + cur) <==> s !in cur && s.next == Start(cur, null) && Chain(cur)
  {
    var r := [s] + cur;
    LinkedOne(s, Start(cur, null));
    LinkedConcat([s], cur, null);
    assert forall i :: 0 <= i < |cur| ==> cur[i] == r[i+1];
    assert r[0] == s;
  }

  lemma CompareBehind(s: Node, cur: seq<Node>, j: nat)
    requires 0 < j < |cur|
    ensures Compare([s] + cur, j + 1) == [s] + Compare(cur, j)
    ensures forall n :: n in Compare(cur, j) ==> n in cur
    ensures j > 1 ==> Compare(cur, j)[0] == cur[0]
  {
    assert SwapAt([s] + cur, j + 1) == [s] + SwapAt(cur, j);
  }

  lemma {:induction false} PassPermutes(ns: seq<Node>, j: nat)
    requires j == 0 || j < |ns|
    ensures SameNodes(Bubble(ns, j), ns)
  {
    if j > 0 {
      PassPermutes(ns, j - 1);
    }
  }

  /** No node of the list is a sentinel, or points to one. */
  lemma SentinelsUnreachable(ns: seq<Node>, cur: seq<Node>, freed: seq<Node>)
    requires Chain(cur) && SameNodes(cur, ns)
    requires forall n :: n in freed ==> n !in ns
    ensures forall n :: n in ns ==> n !in freed && n.next !in freed
  {
    SameMembers(cur, ns);
    forall n | n in ns ensures n !in freed && n.next !in freed {
      var i :| 0 <= i < |cur| && cur[i] == n;
      assert cur[i].next == After(cur, i, null);
      if i + 1 < |cur| { assert cur[i+1] in ns; }
    }
  }

  // ----- what the sort does -----

  /** The lines stand in lexicographic order. */
  predicate Sorted(ns: seq<Node>) {
    forall i, j :: 0 <= i < j < |ns| ==> !StringLess(ns[j].value, ns[i].value)
  }

  /** What the comparisons of the sort see of that. */
  lemma SortedByComparison(ns: seq<Node>)
    ensures Sorted(ns) <==> forall i, j :: 0 <= i < j < |ns| ==> !Greater(ns[i], ns[j])
  {
    hide StringLess, Strcmp;
    forall i, j | 0 <= i < j < |ns| ensures Greater(ns[i], ns[j]) <==> StringLess(ns[j].value, ns[i].value) {
      StrcmpOrder(ns[i].value, ns[j].value);
    }
  }

  function KeepOne(n: Node, v: string): seq<Node> { if n.value == v then [n] else [] }

  /** The nodes with a given value, in their order. */
  function Keep(ns: seq<Node>, v: string): seq<Node> {
    if ns == [] then [] else KeepOne(ns[0], v) + Keep(ns[1..], v)
  }

  lemma {:induction false} KeepConcat(a: seq<Node>, b: seq<Node>, v: string)
    ensures Keep(a + b, v) == Keep(a, v) + Keep(b, v)
  {
    hide KeepOne;
    if a == [] {
      assert a + b == b;
    } else {
      KeepConcat(a[1..], b, v);
      assert (a + b)[1..] == a[1..] + b;
    }
  }

  lemma KeepTwo(x: Node, y: Node, v: string)
    ensures Keep([x, y], v) == KeepOne(x, v) + KeepOne(y, v)
  {
    assert [x, y][1..] == [y] && [y][1..] == [];
    assert Keep([y], v) == KeepOne(y, v) + Keep([], v);
  }

  /** A comparison never exchanges two nodes with the same value. */
  lemma CompareKeeps(ns: seq<Node>, j: nat, v: string)
    requires 0 < j < |ns|
    ensures Keep(Compare(ns, j), v) == Keep(ns, v)
  {
    var a, b, x, y := ns[..j-1], ns[j+1..], ns[j-1], ns[j];
    if Greater(x, y) {
      StrcmpOrder(x.value, y.value);
      StringLessIrreflexive(x.value);
      assert x.value != y.value;
      hide Keep, Strcmp;
      assert ns == a + ([x, y] + b) && Compare(ns, j) == a + ([y, x] + b);
      KeepAround(a, x, y, b, v);
      KeepAround(a, y, x, b, v);
    }
  }

  lemma KeepAround(a: seq<Node>, x: Node, y: Node, b: seq<Node>, v: string)
    ensures Keep(a + ([x, y] + b), v) == Keep(a, v) + (KeepOne(x, v) + KeepOne(y, v) + Keep(b, v))
  {
    hide Keep, KeepOne;
    KeepConcat(a, [x, y] + b, v);
    KeepConcat([x, y], b, v);
    KeepTwo(x, y, v);
  }

  lemma {:induction false} BubbleKeeps(ns: seq<Node>, j: nat, v: string)
    requires j == 0 || j < |ns|
    ensures Keep(Bubble(ns, j), v) == Keep(ns, v)
  {
    hide Keep, Compare;
    if j > 0 {
      BubbleKeeps(ns, j - 1, v);
      CompareKeeps(Bubble(ns, j - 1), j, v);
    }
  }

  lemma {:induction false} PassesKeep(ns: seq<Node>, i: nat, v: string)
    requires i == 0 || i < |ns|
    ensures Keep(Passes(ns, i), v) == Keep(ns, v)
  {
    hide Keep, Bubble;
    if i > 0 {
      PassesKeep(ns, i - 1, v);
      BubbleKeeps(Passes(ns, i - 1), |ns| - i, v);
    }
  }

  lemma NotGreaterTrans(a: Node, b: Node, c: Node)
    requires !Greater(a, b) && !Greater(b, c)
    ensures !Greater(a, c)
  {
    StrcmpTrans(a.value, b.value, c.value);
  }

  lemma NotGreaterTotal(a: Node, b: Node)
    ensures !Greater(a, b) || !Greater(b, a)
  {
    StrcmpOrder(a.value, b.value);
    StrcmpOrder(b.value, a.value);
    StringLessTotal(a.value, b.value);
  }

  /** After `j` comparisons the nodes beyond `j` are where they were, the first `j + 1` are the same nodes in another
      order, and the last of these is a greatest one. */
  lemma {:induction false} BubbleMax(ns: seq<Node>, j: nat)
    requires j < |ns|
    ensures var r := Bubble(ns, j);
            && r[j+1..] == ns[j+1..] && SameNodes(r[..j+1], ns[..j+1])
            && forall x :: 0 <= x <= j ==> !Greater(r[x], r[j])
  {
    hide Greater, SameNodes, Compare;
    if j == 0 {
      NotGreaterTotal(ns[0], ns[0]);
      SameRefl(ns[..1]);
    } else {
      BubbleMax(ns, j - 1);
      var c, r := Bubble(ns, j - 1), Bubble(ns, j);
      assert c[j] == c[j..][0] == ns[j..][0];
      CompareMax(c, j);
      assert r[j+1..] == c[j+1..] == c[j..][1..] == ns[j..][1..] == ns[j+1..];
      FirstPart(ns, c, r, j);
    }
  }

  /** Comparing with a greatest node moves a greatest node on. */
  lemma CompareMax(c: seq<Node>, j: nat)
    requires 0 < j < |c| && forall x :: 0 <= x < j ==> !Greater(c[x], c[j-1])
    ensures var r := Compare(c, j);
            r[j+1..] == c[j+1..] && forall x :: 0 <= x <= j ==> !Greater(r[x], r[j])
  {
    hide Greater;
    var r := Compare(c, j);
    NotGreaterTotal(c[j-1], c[j]);
    forall x | 0 <= x <= j ensures !Greater(r[x], r[j]) {
      NotGreaterTotal(r[j], r[j]);
      if x < j - 1 && !Greater(c[j-1], c[j]) { NotGreaterTrans(c[x], c[j-1], c[j]); }
    }
  }

  lemma SameEnd(a: seq<Node>, b: seq<Node>, x: Node)
    requires SameNodes(a, b)
    ensures SameNodes(a + [x], b + [x])
  {
  }

  lemma SameSwapped(a: seq<Node>, x: Node, y: Node)
    ensures SameNodes(a + [x, y], a + [y, x])
  {
    assert multiset([x, y]) == multiset([y, x]);
  }

  lemma FirstPart(ns: seq<Node>, c: seq<Node>, r: seq<Node>, j: nat)
    requires 0 < j < |ns| && |c| == |ns| && r == Compare(c, j) && c[j] == ns[j]
    requires SameNodes(c[..j], ns[..j])
    ensures SameNodes(r[..j+1], ns[..j+1])
  {
    hide Greater, SameNodes, SwapAt;
    TakeOne(c, j);
    TakeOne(ns, j);
    SameEnd(c[..j], ns[..j], c[j]);
    if Greater(c[j-1], c[j]) {
      SwapFront(c, j);
      SameSwapped(c[..j-1], c[j], c[j-1]);
      SameTrans(r[..j+1], c[..j+1], ns[..j+1]);
    }
  }

  lemma TakeOne(s: seq<Node>, j: nat)
    requires j < |s|
    ensures s[..j+1] == s[..j] + [s[j]]
  {
  }

  lemma SwapFront(c: seq<Node>, j: nat)
    requires 0 < j < |c|
    ensures SwapAt(c, j)[..j+1] == c[..j-1] + [c[j], c[j-1]] && c[..j+1] == c[..j-1] + [c[j-1], c[j]]
  {
  }

  /** The last `i` nodes are sorted, and nothing before them is greater. */
  predicate TailSorted(ns: seq<Node>, i: nat) {
    forall x, y :: 0 <= x < y < |ns| && |ns| - i <= y ==> !Greater(ns[x], ns[y])
  }

  lemma PassSorts(ns: seq<Node>, i: nat)
    requires i + 1 < |ns| && TailSorted(ns, i)
    ensures TailSorted(Bubble(ns, |ns| - 1 - i), i + 1)
  {
    hide Greater, Bubble;
    var m := |ns| - 1 - i;
    var r := Bubble(ns, m);
    BubbleMax(ns, m);
    forall x, y | 0 <= x < y < |ns| && m <= y ensures !Greater(r[x], r[y]) {
      if y > m {
        assert r[y] == r[m+1..][y-m-1] == ns[m+1..][y-m-1] == ns[y];
        if x <= m {
          var z := FoundIn(r[..m+1], ns[..m+1], x);
          assert r[x] == ns[z];
        } else {
          assert r[x] == r[m+1..][x-m-1] == ns[m+1..][x-m-1] == ns[x];
        }
      }
    }
  }

  lemma FoundIn(a: seq<Node>, b: seq<Node>, i: nat) returns (k: nat)
    requires SameNodes(a, b) && i < |a|
    ensures k < |b| && b[k] == a[i]
  {
    SameMembers(a, b);
    assert a[i] in b;
    k :| 0 <= k < |b| && b[k] == a[i];
  }

  lemma {:induction false} PassesSort(ns: seq<Node>, i: nat)
    requires i < |ns|
    ensures TailSorted(Passes(ns, i), i)
  {
    hide Greater, Bubble;
    if i > 0 {
      PassesSort(ns, i - 1);
      PassSorts(Passes(ns, i - 1), i - 1);
    }
  }

  /** The sort is a stable sort: the result is sorted, and for every value the nodes with that value are the same
      nodes in the same order as before. */
  lemma SortedNodesStable(ns: seq<Node>)
    ensures Sorted(SortedNodes(ns)) && forall v: string :: Keep(SortedNodes(ns), v) == Keep(ns, v)
    ensures SameNodes(SortedNodes(ns), ns)
  {
    hide Greater, Keep, Passes, SameNodes, StringLess;
    SameRefl(ns);
    SortedByComparison(SortedNodes(ns));
    if ns != [] {
      PassesSort(ns, |ns| - 1);
      PassesPermute(ns, |ns| - 1);
      forall v: string ensures Keep(SortedNodes(ns), v) == Keep(ns, v) {
        PassesKeep(ns, |ns| - 1, v);
      }
    }
  }

  lemma {:induction false} PassesPermute(ns: seq<Node>, i: nat)
    requires i == 0 || i < |ns|
    ensures SameNodes(Passes(ns, i), ns)
  {
    if i > 0 {
      PassesPermute(ns, i - 1);
      PassPermutes(Passes(ns, i - 1), |ns| - i);
    }
  }

  /** There is only one stable sort: sorted lists with the same nodes of each value are the same list. */
  lemma {:induction false} StableSortUnique(a: seq<Node>, b: seq<Node>)
    requires Sorted(a) && Sorted(b) && forall v: string :: Keep(a, v) == Keep(b, v)
    ensures a == b
    decreases |a|
  {
    assert b == [] || Keep(b, b[0].value) != [];
    if a == [] {
      assert b == [];
    } else {
      KeepHas(a, 0);
      var i := KeepFrom(b, a[0].value);
      KeepHas(b, 0);
      var j := KeepFrom(a, b[0].value);
      NoGreaterFirst(a, b, i, j);
      assert Keep(a, a[0].value)[0] == a[0] && Keep(b, b[0].value)[0] == b[0];
      assert Keep(a, a[0].value) == Keep(b, a[0].value);
      forall v: string ensures Keep(a[1..], v) == Keep(b[1..], v) {
        assert Keep(a, v) == Keep(b, v);
        KeepTail(a, b, v);
      }
      StableSortUnique(a[1..], b[1..]);
      assert a == [a[0]] + a[1..] && b == [b[0]] + b[1..];
    }
  }

  lemma KeepTail(a: seq<Node>, b: seq<Node>, v: string)
    requires a != [] && b != [] && a[0] == b[0] && Keep(a, v) == Keep(b, v)
    ensures Keep(a[1..], v) == Keep(b[1..], v)
  {
    var n := if a[0].value == v then 1 else 0;
    assert Keep(a, v)[n..] == Keep(a[1..], v) && Keep(b, v)[n..] == Keep(b[1..], v);
  }

  lemma {:induction false} KeepHas(ns: seq<Node>, i: nat)
    requires i < |ns|
    ensures ns[i] in Keep(ns, ns[i].value)
  {
    if i > 0 {
      KeepHas(ns[1..], i - 1);
    }
  }

  lemma {:induction false} KeepFrom(ns: seq<Node>, v: string) returns (i: nat)
    requires Keep(ns, v) != []
    ensures i < |ns| && ns[i].value == v
  {
    if ns[0].value == v {
      i := 0;
    } else {
      i := KeepFrom(ns[1..], v);
      i := i + 1;
    }
  }

  lemma NoGreaterFirst(a: seq<Node>, b: seq<Node>, i: nat, j: nat)
    requires a != [] && b != [] && Sorted(a) && Sorted(b) && i < |b| && j < |a|
    requires b[i].value == a[0].value && a[j].value == b[0].value
    ensures a[0].value == b[0].value
  {
    hide StringLess;
    StringLessTotal(a[0].value, b[0].value);
    if i > 0 { assert !StringLess(b[i].value, b[0].value); }
    if j > 0 { assert !StringLess(a[j].value, a[0].value); }
  }
}
