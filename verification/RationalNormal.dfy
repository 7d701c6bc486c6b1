/** Sorting monomials, merging equal ones and dropping zeros: what it keeps, and when nothing is left. */
module RationalNormal {
  import opened Options
  import opened Strings
  import opened FlowTree
  import opened Rational
  import opened RationalValue

  // ----- ascending lists -----

  ghost predicate Ascending(keys: seq<string>) {
    forall i, j :: 0 <= i < j < |keys| ==> StringLess(keys[i], keys[j])
  }

  predicate Distinct(keys: seq<string>) {
    forall i, j :: 0 <= i < j < |keys| ==> keys[i] != keys[j]
  }

  lemma {:induction false} InsertAscending(keys: seq<string>, k: string)
    requires Ascending(keys) && k !in keys
    ensures Ascending(Insert(keys, k))
    ensures forall x :: x in Insert(keys, k) <==> x == k || x in keys
  {
    hide StringLess;
    if keys != [] {
      assert keys[0] in keys && forall x :: x in keys <==> x == keys[0] || x in keys[1..];
      if StringLess(keys[0], k) {
        InsertAscending(keys[1..], k);
        var rest := Insert(keys[1..], k);
        forall j | 0 <= j < |rest| ensures StringLess(keys[0], rest[j]) {
          assert rest[j] in rest;
          if rest[j] != k {
            var i :| 0 <= i < |keys[1..]| && keys[1..][i] == rest[j];
            assert keys[i+1] == rest[j];
          }
        }
      } else {
        StringLessTotal(k, keys[0]);
        forall j | 0 <= j < |keys| ensures StringLess(k, keys[j]) {
          if j > 0 { StringLessTrans(k, keys[0], keys[j]); }
        }
      }
    }
  }

  lemma {:induction false} SortAscending(keys: seq<string>)
    requires Distinct(keys)
    ensures Ascending(Sort(keys)) && forall x :: x in Sort(keys) <==> x in keys
  {
    if keys != [] {
      SortAscending(keys[1..]);
      InsertAscending(Sort(keys[1..]), keys[0]);
      assert forall x :: x in keys <==> x == keys[0] || x in keys[1..];
    }
  }

  /** Two ascending lists of the same strings are the same list. */
  lemma {:induction false} AscendingUnique(a: seq<string>, b: seq<string>)
    requires Ascending(a) && Ascending(b) && forall x :: x in a <==> x in b
    ensures a == b
  {
    assert (a == [] || a[0] in a) && (b == [] || b[0] in b);
    if a != [] {
      FirstIsLeast(a, b);
      AscendingTail(a);
      AscendingTail(b);
      AscendingUnique(a[1..], b[1..]);
      assert a == [a[0]] + a[1..] && b == [b[0]] + b[1..];
    }
  }

  lemma FirstIsLeast(a: seq<string>, b: seq<string>)
    requires Ascending(a) && Ascending(b) && a != [] && b != [] && forall x :: x in a <==> x in b
    ensures a[0] == b[0]
  {
    hide StringLess;
    assert a[0] in a && b[0] in b;
    var i :| 0 <= i < |b| && b[i] == a[0];
    var j :| 0 <= j < |a| && a[j] == b[0];
    StringLessTotal(a[0], b[0]);
  }

  lemma AscendingTail(a: seq<string>)
    requires Ascending(a) && a != []
    ensures Ascending(a[1..]) && forall x :: x in a[1..] <==> x in a && x != a[0]
  {
    forall x | x in a[1..] ensures x != a[0] {
      var i :| 0 <= i < |a[1..]| && a[1..][i] == x;
      assert StringLess(a[0], a[i+1]);
      StringLessIrreflexive(x);
    }
    assert forall x :: x in a <==> x == a[0] || x in a[1..];
  }

  // ----- contents of monomials -----

  /** The exponents of a monomial, whatever their order. */
  function Content(degree: Tree<string, nat>): map<string, nat> {
    if degree == [] then map[] else Content(degree[1..])[degree[0].0 := degree[0].1]
  }

  lemma {:induction false} ContentLookup(degree: Tree<string, nat>, k: string)
    ensures LookupTree(degree, k) == if k in Content(degree) then Some(Content(degree)[k]) else None
  {
    if degree != [] {
      ContentLookup(degree[1..], k);
    }
  }

  lemma {:induction false} CollectKeysAll(degree: Tree<string, nat>, acc: seq<string>)
    requires Distinct(acc)
    ensures var r := CollectKeys(degree, acc);
            Distinct(r) && forall x :: x in r <==> x in acc || x in Content(degree)
  {
    if degree != [] {
      CollectKeysAll(degree[1..], if degree[0].0 in acc then acc else [degree[0].0] + acc);
    }
  }

  /** The entries of a monomial in a given order of keys. */
  function Listed(degree: Tree<string, nat>, keys: seq<string>): Tree<string, nat>
    requires forall k :: k in keys ==> k in Content(degree)
  {
    if keys == [] then [] else [(keys[0], Content(degree)[keys[0]])] + Listed(degree, keys[1..])
  }

  lemma {:induction false} SetNew<K, V>(t: Tree<K, V>, k: K, v: V)
    requires !HasKey(t, k)
    ensures SetTree(t, k, v) == t + [(k, v)]
  {
    if t != [] {
      assert t[0].0 != k && forall i :: 0 <= i < |t[1..]| ==> t[1..][i] == t[i+1];
      SetNew(t[1..], k, v);
    }
  }

  lemma {:induction false} RebuildLists(degree: Tree<string, nat>, keys: seq<string>, acc: Tree<string, nat>)
    requires Distinct(keys) && forall k :: k in keys ==> k in Content(degree) && !HasKey(acc, k)
    ensures Rebuild(degree, keys, acc) == acc + Listed(degree, keys)
    decreases keys
  {
    hide Content, SetTree, LookupTree, HasKey, Distinct;
    if keys != [] {
      var k, rest := keys[0], keys[1..];
      var n := Content(degree)[k];
      assert k in keys && forall x :: x in rest ==> x in keys;
      ContentLookup(degree, k);
      SetNew(acc, k, n);
      OthersStillNew(keys, acc, n);
      RebuildLists(degree, rest, SetTree(acc, k, n));
      assert acc + [(k, n)] + Listed(degree, rest) == acc + ([(k, n)] + Listed(degree, rest));
    }
  }

  lemma OthersStillNew(keys: seq<string>, acc: Tree<string, nat>, n: nat)
    requires keys != [] && Distinct(keys) && forall k :: k in keys ==> !HasKey(acc, k)
    ensures Distinct(keys[1..]) && forall x :: x in keys[1..] ==> !HasKey(SetTree(acc, keys[0], n), x)
  {
    hide SetTree, HasKey;
    TailDistinct(keys);
    SetKeys(acc, keys[0], n);
    assert forall x :: x in keys[1..] ==> x in keys;
  }

  /** The keys of a monomial, ascending. */
  function KeyList(degree: Tree<string, nat>): seq<string> { Sort(CollectKeys(degree, [])) }

  lemma KeyListIs(degree: Tree<string, nat>)
    ensures Ascending(KeyList(degree)) && Distinct(KeyList(degree))
    ensures forall k :: k in KeyList(degree) <==> k in Content(degree)
  {
    CollectKeysAll(degree, []);
    SortAscending(CollectKeys(degree, []));
    var ks := KeyList(degree);
    forall i, j | 0 <= i < j < |ks| ensures ks[i] != ks[j] {
      StringLessIrreflexive(ks[i]);
    }
  }

  lemma SortedIsListed(m: PolyDegree)
    ensures forall k :: k in KeyList(m.degree) <==> k in Content(m.degree)
    ensures SortedMonomial(m).degree == Listed(m.degree, KeyList(m.degree))
  {
    KeyListIs(m.degree);
    RebuildLists(m.degree, KeyList(m.degree), []);
  }

  lemma {:induction false} ListedSame(d1: Tree<string, nat>, d2: Tree<string, nat>, keys: seq<string>)
    requires Content(d1) == Content(d2) && forall k :: k in keys ==> k in Content(d1)
    ensures Listed(d1, keys) == Listed(d2, keys)
  {
    if keys != [] {
      ListedSame(d1, d2, keys[1..]);
    }
  }

  /** Monomials with the same exponents are sorted into the same monomial. */
  lemma SortedIsCanonical(m1: PolyDegree, m2: PolyDegree)
    requires Content(m1.degree) == Content(m2.degree)
    ensures SortedMonomial(m1) == SortedMonomial(m2)
  {
    hide Content, KeyList, Listed;
    KeyListIs(m1.degree);
    KeyListIs(m2.degree);
    AscendingUnique(KeyList(m1.degree), KeyList(m2.degree));
    SortedIsListed(m1);
    SortedIsListed(m2);
    ListedSame(m1.degree, m2.degree, KeyList(m1.degree));
  }

  lemma {:induction false} ListedKeys(degree: Tree<string, nat>, keys: seq<string>)
    requires forall k :: k in keys ==> k in Content(degree)
    ensures |Listed(degree, keys)| == |keys| && forall i :: 0 <= i < |keys| ==> Listed(degree, keys)[i].0 == keys[i]
  {
    hide Content;
    if keys != [] {
      ListedKeys(degree, keys[1..]);
    }
  }

  lemma {:induction false} ListedContent(degree: Tree<string, nat>, keys: seq<string>)
    requires Distinct(keys) && forall k :: k in keys ==> k in Content(degree)
    ensures forall k :: k in Content(Listed(degree, keys)) <==> k in keys
    ensures forall k :: k in keys ==> Content(Listed(degree, keys))[k] == Content(degree)[k]
  {
    hide Distinct;
    if keys != [] {
      var k, rest := keys[0], keys[1..];
      TailDistinct(keys);
      ListedContent(degree, rest);
      assert forall x :: x in keys <==> x == k || x in rest;
      var l := Listed(degree, keys);
      assert l[0] == (k, Content(degree)[k]) && l[1..] == Listed(degree, rest);
      assert Content(l) == Content(Listed(degree, rest))[k := Content(degree)[k]];
    }
  }

  lemma TailDistinct(keys: seq<string>)
    requires Distinct(keys) && keys != []
    ensures keys[0] !in keys[1..] && Distinct(keys[1..])
  {
    assert forall i :: 0 <= i < |keys[1..]| ==> keys[1..][i] == keys[i+1];
  }

  /** Sorting keeps the exponents. */
  lemma SortedContent(m: PolyDegree)
    ensures Content(SortedMonomial(m).degree) == Content(m.degree) && DistinctKeys(SortedMonomial(m).degree)
    ensures SortedMonomial(SortedMonomial(m)) == SortedMonomial(m)
  {
    KeyListIs(m.degree);
    SortedIsListed(m);
    ListedContent(m.degree, KeyList(m.degree));
    ListedKeys(m.degree, KeyList(m.degree));
    assert Content(SortedMonomial(m).degree) == Content(m.degree);
    SortedIsCanonical(SortedMonomial(m), m);
  }

  lemma {:induction false} ListedEntries(degree: Tree<string, nat>, keys: seq<string>)
    requires forall k :: k in keys ==> k in Content(degree)
    ensures forall e :: e in Listed(degree, keys) ==> e in degree
  {
    hide Content;
    if keys != [] {
      ListedEntries(degree, keys[1..]);
      ContentLookup(degree, keys[0]);
      LookupFinds(degree, keys[0]);
    }
  }

  lemma SortedOk(m: PolyDegree)
    requires MonomialOk(m.degree)
    ensures MonomialOk(SortedMonomial(m).degree)
  {
    hide Content, KeyList, Listed, SortedMonomial, DistinctKeys;
    SortedContent(m);
    SortedIsListed(m);
    ListedEntries(m.degree, KeyList(m.degree));
    var d := SortedMonomial(m).degree;
    forall i | 0 <= i < |d| ensures d[i].1 > 0 {
      assert d[i] in d;
    }
  }

  // ----- sorting keeps the value -----

  lemma ListedValueCons(degree: Tree<string, nat>, k: string, rest: seq<string>, rho: Valuation)
    requires k in Content(degree) && forall x :: x in rest ==> x in Content(degree)
    ensures forall x :: x in [k] + rest ==> x in Content(degree)
    ensures MonomialValue(Listed(degree, [k] + rest), rho)
            == Pow(rho(k), Content(degree)[k]) * MonomialValue(Listed(degree, rest), rho)
  {
    hide Pow, Content;
    assert ([k] + rest)[1..] == rest;
    var l := Listed(degree, [k] + rest);
    assert l[1..] == Listed(degree, rest) && l[0] == (k, Content(degree)[k]);
  }

  lemma {:induction false} ListedValueSplit(degree: Tree<string, nat>, a: seq<string>, k: string, b: seq<string>,
                                            rho: Valuation)
    requires k in Content(degree) && forall x :: x in a || x in b ==> x in Content(degree)
    ensures forall x :: x in a + [k] + b || x in a + b ==> x in Content(degree)
    ensures MonomialValue(Listed(degree, a + [k] + b), rho)
            == Pow(rho(k), Content(degree)[k]) * MonomialValue(Listed(degree, a + b), rho)
    decreases a
  {
    hide Pow, Content, Listed, MonomialValue;
    if a == [] {
      assert a + [k] + b == [k] + b && a + b == b;
      ListedValueCons(degree, k, b, rho);
    } else {
      assert a[0] in a && forall x :: x in a[1..] ==> x in a;
      var whole, less := a[1..] + [k] + b, a[1..] + b;
      assert a + [k] + b == [a[0]] + whole && a + b == [a[0]] + less;
      ListedValueSplit(degree, a[1..], k, b, rho);
      ListedValueCons(degree, a[0], whole, rho);
      ListedValueCons(degree, a[0], less, rho);
      Regroup(Pow(rho(k), Content(degree)[k]), Pow(rho(a[0]), Content(degree)[a[0]]),
              MonomialValue(Listed(degree, less), rho));
    }
  }

  lemma {:induction false} ListedValue(degree: Tree<string, nat>, keys: seq<string>, rho: Valuation)
    requires DistinctKeys(degree) && Distinct(keys) && forall k :: k in keys <==> k in Content(degree)
    ensures MonomialValue(Listed(degree, keys), rho) == MonomialValue(degree, rho)
    decreases degree
  {
    hide Pow, DistinctKeys, Distinct, MonomialValue;
    assert keys == [] || keys[0] in keys;
    if degree != [] {
      MonomialParts(degree, rho);
      var k := degree[0].0;
      assert k in Content(degree) && k in keys;
      var i :| 0 <= i < |keys| && keys[i] == k;
      var less := keys[..i] + keys[i+1..];
      HeadNotInTail(degree);
      RemoveOne(keys, i);
      SameTail(degree, less, keys);
      ListedValueAt(degree, keys, i, rho);
      ListedValue(degree[1..], less, rho);
    }
  }

  lemma SameTail(degree: Tree<string, nat>, less: seq<string>, keys: seq<string>)
    requires degree != [] && degree[0].0 !in Content(degree[1..])
    requires forall k :: k in keys <==> k in Content(degree)
    requires forall k :: k in less <==> k in keys && k != degree[0].0
    ensures forall k :: k in less <==> k in Content(degree[1..])
    ensures forall k :: k in less ==> k in Content(degree)
    ensures Listed(degree, less) == Listed(degree[1..], less)
  {
    ListedTail(degree, less);
  }

  lemma ListedValueAt(degree: Tree<string, nat>, keys: seq<string>, i: nat, rho: Valuation)
    requires i < |keys| && forall k :: k in keys ==> k in Content(degree)
    ensures forall k :: k in keys[..i] + keys[i+1..] ==> k in Content(degree)
    ensures MonomialValue(Listed(degree, keys), rho)
            == Pow(rho(keys[i]), Content(degree)[keys[i]])
               * MonomialValue(Listed(degree, keys[..i] + keys[i+1..]), rho)
  {
    hide Pow, Content, Listed, MonomialValue;
    var a, b := keys[..i], keys[i+1..];
    assert keys == a + [keys[i]] + b;
    assert forall k :: k in a || k in b ==> k in keys;
    ListedValueSplit(degree, a, keys[i], b, rho);
  }

  lemma HeadNotInTail(degree: Tree<string, nat>)
    requires DistinctKeys(degree) && degree != []
    ensures degree[0].0 !in Content(degree[1..]) && DistinctKeys(degree[1..])
  {
    ContentLookup(degree[1..], degree[0].0);
    LookupFinds(degree[1..], degree[0].0);
    assert forall i :: 0 <= i < |degree[1..]| ==> degree[1..][i] == degree[i+1];
  }

  lemma RemoveOne(keys: seq<string>, i: nat)
    requires Distinct(keys) && i < |keys|
    ensures var r := keys[..i] + keys[i+1..];
            Distinct(r) && forall x :: x in r <==> x in keys && x != keys[i]
  {
    var r := keys[..i] + keys[i+1..];
    forall x | x in keys && x != keys[i] ensures x in r {
      var j :| 0 <= j < |keys| && keys[j] == x;
      assert if j < i then r[j] == x else r[j-1] == x;
    }
    assert forall j :: 0 <= j < |r| ==> r[j] == (if j < i then keys[j] else keys[j+1]);
  }

  lemma {:induction false} ListedTail(degree: Tree<string, nat>, keys: seq<string>)
    requires degree != [] && forall k :: k in keys ==> k in Content(degree[1..]) && k != degree[0].0
    ensures forall k :: k in keys ==> k in Content(degree)
    ensures Listed(degree, keys) == Listed(degree[1..], keys)
    decreases keys
  {
    if keys != [] {
      ListedTail(degree, keys[1..]);
    }
  }

  lemma SortedValue(m: PolyDegree, rho: Valuation)
    requires DistinctKeys(m.degree)
    ensures MonomialValue(SortedMonomial(m).degree, rho) == MonomialValue(m.degree, rho)
  {
    KeyListIs(m.degree);
    SortedIsListed(m);
    ListedValue(m.degree, KeyList(m.degree), rho);
  }

  lemma SortedTerm(m: PolyDegree, c: int, rho: Valuation)
    requires DistinctKeys(m.degree)
    ensures Term(SortedMonomial(m), c, rho) == Term(m, c, rho)
  {
    hide SortedMonomial, MonomialValue;
    SortedValue(m, rho);
  }

  // ----- merging and filtering -----

  /** Merging, read off the terms instead of looked up by key. */
  function MergeTerms(t: Tree<PolyDegree, int>, acc: Tree<PolyDegree, int>): Tree<PolyDegree, int>
    decreases t
  {
    if t == [] then acc else MergeTerms(t[1..], CombineAt(acc, SortedMonomial(t[0].0), t[0].1, AddInt))
  }

  lemma {:induction false} MergeByKeys(p: Polynom, t: Tree<PolyDegree, int>, acc: Tree<PolyDegree, int>)
    requires forall i :: 0 <= i < |t| ==> LookupTree(p.sum, t[i].0) == Some(t[i].1)
    ensures MergeMonomials(p, GetTreeKeys(t), acc) == MergeTerms(t, acc)
    decreases t
  {
    hide SortedMonomial, SetTree;
    if t != [] {
      assert GetTreeKeys(t)[1..] == GetTreeKeys(t[1..]);
      AddZero(acc, SortedMonomial(t[0].0), t[0].1);
      MergeByKeys(p, t[1..], CombineAt(acc, SortedMonomial(t[0].0), t[0].1, AddInt));
    }
  }

  lemma AddZero(acc: Tree<PolyDegree, int>, pd: PolyDegree, val: int)
    ensures var before := LookupTree(acc, pd);
            SetTree(acc, pd, val + (if before.Some? then before.value else 0)) == CombineAt(acc, pd, val, AddInt)
  {
    hide SetTree;
  }

  /** The polynomial with equal monomials merged, before zeros are dropped. */
  function Merged(p: Polynom): Tree<PolyDegree, int> { MergeTerms(p.sum, []) }

  lemma MergedIs(p: Polynom)
    requires TermsOk(p.sum)
    ensures MergeMonomials(p, GetTreeKeys(p.sum), []) == Merged(p)
  {
    forall i | 0 <= i < |p.sum| ensures LookupTree(p.sum, p.sum[i].0) == Some(p.sum[i].1) {
      LookupAt(p.sum, i);
    }
    MergeByKeys(p, p.sum, []);
  }

  lemma {:induction false} MergeTermsValue(t: Tree<PolyDegree, int>, acc: Tree<PolyDegree, int>, rho: Valuation)
    requires TermsOk(t)
    ensures SumValue(MergeTerms(t, acc), rho) == SumValue(acc, rho) + SumValue(t, rho)
    decreases t
  {
    hide TermsOk, SortedMonomial, CombineAt, Term;
    if t != [] {
      TailOk(t);
      var m := SortedMonomial(t[0].0);
      SortedTerm(t[0].0, t[0].1, rho);
      CombineSum(acc, m, t[0].1, rho);
      MergeTermsValue(t[1..], CombineAt(acc, m, t[0].1, AddInt), rho);
    }
  }

  lemma {:induction false} FilterValue(t: Tree<PolyDegree, int>, rho: Valuation)
    ensures SumValue(FilterTree(t, v => v != 0), rho) == SumValue(t, rho)
  {
    if t != [] {
      FilterValue(t[1..], rho);
      if t[0].1 == 0 {
        assert Term(t[0].0, 0, rho) == 0.0;
      }
    }
  }

  lemma {:induction false} MergeTermsOk'(t: Tree<PolyDegree, int>, acc: Tree<PolyDegree, int>)
    requires TermsOk(t) && TermsOk(acc)
    ensures TermsOk(MergeTerms(t, acc))
    decreases t
  {
    hide TermsOk, SortedMonomial, CombineAt;
    if t != [] {
      TailOk(t);
      SortedOk(t[0].0);
      CombineTermsOk(acc, SortedMonomial(t[0].0), t[0].1);
      MergeTermsOk'(t[1..], CombineAt(acc, SortedMonomial(t[0].0), t[0].1, AddInt));
    }
  }

  /** Filtering keeps the value and the shape. */
  lemma FilterPolynomKeeps(p: Polynom, rho: Valuation)
    requires TermsOk(p.sum)
    ensures PolyValue(FilterPolynom(p), rho) == PolyValue(p, rho) && TermsOk(FilterPolynom(p).sum)
  {
    hide TermsOk, MergeMonomials, MergeTerms;
    assert TermsOk([]) by { EmptyOk(); }
    MergedIs(p);
    MergeTermsValue(p.sum, [], rho);
    MergeTermsOk'(p.sum, []);
    FilterValue(Merged(p), rho);
    FilterTermsOk(Merged(p), v => v != 0);
  }

  lemma EmptyOk()
    ensures TermsOk([])
  {
  }

  // ----- when nothing is left -----

  /** The total coefficient a polynomial has on some exponents. */
  function Coefficient(t: Tree<PolyDegree, int>, c: map<string, nat>): int {
    if t == [] then 0
    else (if Content(t[0].0.degree) == c then t[0].1 else 0) + Coefficient(t[1..], c)
  }

  /** The polynomial is zero: on every exponents its coefficients add up to nothing. */
  ghost predicate FormalZero(p: Polynom) {
    forall c: map<string, nat> :: Coefficient(p.sum, c) == 0
  }

  lemma {:induction false} CombineCoefficient(t: Tree<PolyDegree, int>, m: PolyDegree, v: int, c: map<string, nat>)
    ensures Coefficient(CombineAt(t, m, v, AddInt), c)
            == Coefficient(t, c) + (if Content(m.degree) == c then v else 0)
  {
    hide Content;
    if t == [] {
      assert CombineAt(t, m, v, AddInt) == [(m, v)] && [(m, v)][1..] == [];
      assert Coefficient([(m, v)], c) == (if Content(m.degree) == c then v else 0) + Coefficient([], c);
    } else if t[0].0 == m {
      assert CombineAt(t, m, v, AddInt) == [(m, t[0].1 + v)] + t[1..];
    } else {
      CombineCoefficient(t[1..], m, v, c);
      assert CombineAt(t, m, v, AddInt) == [t[0]] + CombineAt(t[1..], m, v, AddInt);
    }
  }

  lemma {:induction false} MergeCoefficient(t: Tree<PolyDegree, int>, acc: Tree<PolyDegree, int>, c: map<string, nat>)
    ensures Coefficient(MergeTerms(t, acc), c) == Coefficient(acc, c) + Coefficient(t, c)
    decreases t
  {
    hide Content, SortedMonomial, CombineAt;
    if t != [] {
      var m := SortedMonomial(t[0].0);
      SortedContent(t[0].0);
      CombineCoefficient(acc, m, t[0].1, c);
      MergeCoefficient(t[1..], CombineAt(acc, m, t[0].1, AddInt), c);
    }
  }

  /** Every monomial is sorted, and none occurs twice. */
  predicate Canonical(t: Tree<PolyDegree, int>) {
    DistinctKeys(t) && forall i :: 0 <= i < |t| ==> SortedMonomial(t[i].0) == t[i].0
  }

  lemma {:induction false} MergeCanonical(t: Tree<PolyDegree, int>, acc: Tree<PolyDegree, int>)
    requires Canonical(acc)
    ensures Canonical(MergeTerms(t, acc))
    decreases t
  {
    hide SortedMonomial, Canonical, CombineAt;
    if t != [] {
      var m := SortedMonomial(t[0].0);
      SortedContent(t[0].0);
      CombineCanonical(acc, m, t[0].1);
      MergeCanonical(t[1..], CombineAt(acc, m, t[0].1, AddInt));
    }
  }

  lemma CombineCanonical(t: Tree<PolyDegree, int>, m: PolyDegree, v: int)
    requires Canonical(t) && SortedMonomial(m) == m
    ensures Canonical(CombineAt(t, m, v, AddInt))
  {
    hide SortedMonomial, SetTree;
    var old_ := LookupTree(t, m);
    var k := if old_.Some? then AddInt(old_.value, v) else v;
    SetKeys(t, m, k);
    var s := SetTree(t, m, k);
    forall i | 0 <= i < |s| ensures SortedMonomial(s[i].0) == s[i].0 {
      assert s[i] in s;
      if s[i] in t {
        var j :| 0 <= j < |t| && t[j] == s[i];
      }
    }
  }

  /** In canonical form a term's coefficient is the total coefficient on its exponents. */
  lemma {:induction false} CanonicalCoefficient(t: Tree<PolyDegree, int>, i: nat)
    requires Canonical(t) && i < |t|
    ensures Coefficient(t, Content(t[i].0.degree)) == t[i].1
  {
    hide SortedMonomial, Content;
    var c := Content(t[i].0.degree);
    if i == 0 {
      forall j | 0 <= j < |t[1..]| ensures Content(t[1..][j].0.degree) != c {
        if Content(t[1..][j].0.degree) == c {
          SortedIsCanonical(t[j+1].0, t[0].0);
        }
      }
      NoSuchTerm(t[1..], c);
    } else {
      CanonicalCoefficient(t[1..], i - 1);
      if Content(t[0].0.degree) == c {
        SortedIsCanonical(t[0].0, t[i].0);
      }
    }
  }

  lemma {:induction false} NoSuchTerm(t: Tree<PolyDegree, int>, c: map<string, nat>)
    requires forall j :: 0 <= j < |t| ==> Content(t[j].0.degree) != c
    ensures Coefficient(t, c) == 0
  {
    if t != [] {
      NoSuchTerm(t[1..], c);
    }
  }

  lemma {:induction false} ZeroTerms(t: Tree<PolyDegree, int>, c: map<string, nat>)
    requires forall j :: 0 <= j < |t| ==> t[j].1 == 0
    ensures Coefficient(t, c) == 0
  {
    if t != [] {
      ZeroTerms(t[1..], c);
    }
  }

  lemma {:induction false} FilterEmpty(t: Tree<PolyDegree, int>)
    ensures FilterTree(t, v => v != 0) == [] <==> forall j :: 0 <= j < |t| ==> t[j].1 == 0
  {
    if t != [] {
      FilterEmpty(t[1..]);
      assert forall j :: 0 <= j < |t[1..]| ==> t[1..][j] == t[j+1];
    }
  }

  /** Nothing is left after filtering exactly when the polynomial is zero. */
  lemma FilterEmptyExactly(p: Polynom)
    requires TermsOk(p.sum)
    ensures FilterPolynom(p).sum == [] <==> FormalZero(p)
  {
    hide Content, SortedMonomial, MergeTerms, MergeMonomials;
    MergedIs(p);
    var t := Merged(p);
    EmptyCanonical();
    MergeCanonical(p.sum, []);
    FilterEmpty(t);
    forall c: map<string, nat> ensures Coefficient(t, c) == Coefficient(p.sum, c) {
      MergeCoefficient(p.sum, [], c);
    }
    if FilterPolynom(p).sum == [] {
      forall c: map<string, nat> ensures Coefficient(p.sum, c) == 0 {
        ZeroTerms(t, c);
      }
    } else {
      var j :| 0 <= j < |t| && t[j].1 != 0;
      CanonicalCoefficient(t, j);
      var c := Content(t[j].0.degree);
      assert Coefficient(p.sum, c) != 0;
    }
  }

  lemma EmptyCanonical()
    ensures Canonical([])
  {
  }
}
