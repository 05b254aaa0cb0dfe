/**
 The order of a round (internal/features/order.go:103-105): what a stable sort
 by `CompareNodes` makes of it, and when it comes out sorted.
 */
module RoundSort {
  import opened FeatureNodes
  import opened InstallOrder
  import opened Strings
  import opened Wrappers

  /** `CompareNodes` is transitive on these nodes; it is not on nodes of different source types. */
  predicate TotallyOrdered(s: Nodes)
    requires AllResolved(s)
  {
    forall a, b, c :: a in s && b in s && c in s && Compare(a, b) <= 0 && Compare(b, c) <= 0 ==> Compare(a, c) <= 0
  }

  predicate Sorted(s: Nodes)
    requires AllResolved(s)
  {
    forall i, j :: 0 <= i < j < |s| ==> Compare(s[i], s[j]) <= 0
  }

  lemma NodesOppositeNodes(a: Node, b: Node)
    requires a.ident.resolved.Some? && b.ident.resolved.Some?
    ensures Opposite(Compare(a, b), Compare(b, a)) && Compare(a, a) == 0
  {
    NodesOpposite(a.ident, b.ident);
    NodesOpposite(a.ident, a.ident);
  }

  lemma AppendSorts(s: Nodes, n: Node)
    requires AllResolved(s) && n.ident.resolved.Some? && Sorted(s)
    requires forall x :: x in s ==> Compare(x, n) <= 0
    ensures AllResolved(s + [n]) && Sorted(s + [n])
  {
    hide Compare;
  }

  lemma {:induction false} InsertSorts(n: Node, s: Nodes)
    requires AllResolved(s) && n.ident.resolved.Some? && Sorted(s) && TotallyOrdered(s + [n])
    ensures Sorted(Insert(n, s))
  {
    hide Compare, Sorted;
    if s != [] {
      var init, last := s[..|s| - 1], s[|s| - 1];
      assert s == init + [last];
      SortedParts(s);
      NodesOppositeNodes(n, last);
      if Compare(n, last) < 0 {
        InsertSorts(n, init);
        SameElements(Insert(n, init), init + [n]);
        forall x | x in Insert(n, init)
          ensures Compare(x, last) <= 0
        {
          assert x in init + [n];
          assert x == n || x in init;
          assert x in init ==> x in s;
        }
        AppendSorts(Insert(n, init), last);
      } else {
        forall x | x in s
          ensures Compare(x, n) <= 0
        {
          assert x in s + [n] && last in s + [n] && n in s + [n];
        }
        AppendSorts(s, n);
      }
    } else {
      SingletonSorts(n);
    }
  }

  lemma SingletonSorts(n: Node)
    requires n.ident.resolved.Some?
    ensures Sorted([n])
  {
  }

  lemma SortedParts(s: Nodes)
    requires AllResolved(s) && Sorted(s) && s != []
    ensures Sorted(s[..|s| - 1])
    ensures forall x :: x in s ==> Compare(x, s[|s| - 1]) <= 0
  {
    hide Compare;
    NodesOppositeNodes(s[|s| - 1], s[|s| - 1]);
  }

  /** Where the comparison is transitive, the round comes out sorted. */
  lemma {:induction false} StableSortSorts(s: Nodes)
    requires AllResolved(s) && TotallyOrdered(s)
    ensures Sorted(StableSort(s))
  {
    hide Compare;
    if s != [] {
      var init, last := s[..|s| - 1], s[|s| - 1];
      assert s == init + [last];
      StableSortSorts(init);
      SameElements(init, StableSort(init));
      InsertSorts(last, StableSort(init));
    }
  }

  /** `a` stands before `c` in the list. */
  ghost predicate Precedes(s: Nodes, a: Node, c: Node) { exists i, j :: 0 <= i < j < |s| && s[i] == a && s[j] == c }

  lemma PrecedesAppend(s: Nodes, n: Node, a: Node, c: Node)
    requires Precedes(s, a, c) || (a in s && n == c)
    ensures Precedes(s + [n], a, c)
  {
    if Precedes(s, a, c) {
      var i, j :| 0 <= i < j < |s| && s[i] == a && s[j] == c;
      assert (s + [n])[i] == a && (s + [n])[j] == c;
    } else {
      var i :| 0 <= i < |s| && s[i] == a;
      assert (s + [n])[i] == a && (s + [n])[|s|] == c;
    }
  }

  /** An insertion does not change the order of the others. */
  lemma {:induction false} InsertKeepsOrder(n: Node, s: Nodes, a: Node, c: Node)
    requires AllResolved(s) && n.ident.resolved.Some? && Precedes(s, a, c)
    ensures Precedes(Insert(n, s), a, c)
  {
    hide Compare, Precedes;
    PrecedesInit(s, a, c);
    var init, last := s[..|s| - 1], s[|s| - 1];
    if Compare(n, last) < 0 {
      if Precedes(init, a, c) {
        InsertKeepsOrder(n, init, a, c);
      } else {
        assert a in multiset(init) && a in multiset(Insert(n, init));
      }
      PrecedesAppend(Insert(n, init), last, a, c);
    } else {
      PrecedesAppend(s, n, a, c);
    }
  }

  lemma PrecedesInit(s: Nodes, a: Node, c: Node)
    requires Precedes(s, a, c)
    ensures s != [] && var init := s[..|s| - 1]; Precedes(init, a, c) || (a in init && c == s[|s| - 1])
  {
    var i, j :| 0 <= i < j < |s| && s[i] == a && s[j] == c;
    var init := s[..|s| - 1];
    assert init[i] == a;
    if j < |s| - 1 { assert init[j] == c; }
  }

  lemma {:induction false} SortKeepsOrder(s: Nodes, n: nat, a: Node, c: Node)
    requires AllResolved(s) && n <= |s| && Precedes(StableSort(s[..n]), a, c)
    ensures Precedes(StableSort(s), a, c)
    decreases |s|
  {
    hide Precedes;
    if n == |s| {
      assert s[..n] == s;
    } else {
      var init := s[..|s| - 1];
      assert init[..n] == s[..n];
      SortKeepsOrder(init, n, a, c);
      InsertKeepsOrder(s[|s| - 1], StableSort(init), a, c);
    }
  }

  /** Three nodes that come in this order are left in it. */
  lemma SortThree(a: Node, b: Node, c: Node)
    requires a.ident.resolved.Some? && b.ident.resolved.Some? && c.ident.resolved.Some?
    requires Compare(a, b) <= 0 && Compare(b, c) <= 0
    ensures StableSort([a, b, c]) == [a, b, c]
  {
    hide Compare, StableSort, Insert;
    NodesOppositeNodes(b, c);
    SortTwo(a, b);
    SortStep([a, b], c);
    InsertLast([a, b], c);
    assert [a, b] + [c] == [a, b, c];
  }

  lemma SortTwo(a: Node, b: Node)
    requires a.ident.resolved.Some? && b.ident.resolved.Some? && Compare(a, b) <= 0
    ensures StableSort([a, b]) == [a, b]
  {
    hide Compare, StableSort, Insert;
    NodesOppositeNodes(a, b);
    SortStep([], a);
    InsertLast([], a);
    assert [] + [a] == [a];
    SortStep([a], b);
    InsertLast([a], b);
    assert [a] + [b] == [a, b];
  }

  lemma SortStep(s: Nodes, n: Node)
    requires AllResolved(s) && n.ident.resolved.Some?
    ensures StableSort([]) == [] && AllResolved(s + [n]) && StableSort(s + [n]) == Insert(n, StableSort(s))
  {
    hide Insert;
    assert (s + [n])[..|s|] == s;
  }

  lemma InsertLast(s: Nodes, n: Node)
    requires AllResolved(s) && n.ident.resolved.Some? && (s != [] ==> Compare(n, s[|s| - 1]) >= 0)
    ensures Insert(n, s) == s + [n]
  {
    hide Compare;
  }

  ghost predicate AlwaysSorts(s: Nodes)
    requires AllResolved(s)
  {
    forall t: Nodes :: multiset(t) == multiset(s) ==> AllResolved(t) && Sorted(StableSort(t))
  }

  /** Three nodes on which the comparison is not transitive come out unsorted in some order of the round. */
  lemma UnsortedOrder(s: Nodes, a: Node, b: Node, c: Node) returns (t: Nodes)
    requires AllResolved(s) && a in s && b in s && c in s
    requires Compare(a, b) <= 0 && Compare(b, c) <= 0 && Compare(a, c) > 0
    ensures multiset(t) == multiset(s) && AllResolved(t) && !Sorted(StableSort(t))
  {
    hide Compare;
    NodesOppositeNodes(a, b);
    NodesOppositeNodes(b, c);
    assert a != b && b != c && a != c;
    var rest := Rest(s, a, b, c);
    t := [a, b, c] + rest;
    SameElements(t, s);
    SortThree(a, b, c);
    assert t[..3] == [a, b, c] && [a, b, c][0] == a && [a, b, c][2] == c;
    SortKeepsOrder(t, 3, a, c);
    var i, j :| 0 <= i < j < |StableSort(t)| && StableSort(t)[i] == a && StableSort(t)[j] == c;
  }

  /** What is left of a list when one of each of three different nodes is taken out. */
  lemma Rest(s: Nodes, a: Node, b: Node, c: Node) returns (rest: Nodes)
    requires a in s && b in s && c in s && a != b && b != c && a != c
    ensures multiset([a, b, c] + rest) == multiset(s)
  {
    assert b in multiset(s) && c in multiset(s);
    var u := TakeOut(s, a);
    assert b in multiset(u) && c in multiset(u);
    var v := TakeOut(u, b);
    assert c in multiset(v);
    rest := TakeOut(v, c);
    assert multiset([a, b, c] + rest) == multiset{a, b, c} + multiset(rest);
  }

  lemma TakeOut(s: Nodes, n: Node) returns (rest: Nodes)
    requires n in s
    ensures multiset(s) == multiset(rest) + multiset{n}
  {
    var i :| 0 <= i < |s| && s[i] == n;
    rest := s[..i] + s[i + 1..];
    assert s == s[..i] + [n] + s[i + 1..];
  }

  /** Every order of a round comes out sorted exactly when the comparison is transitive on it. */
  lemma SortsIffTransitive(s: Nodes)
    requires AllResolved(s)
    ensures AlwaysSorts(s) <==> TotallyOrdered(s)
  {
    hide Compare, Sorted;
    if TotallyOrdered(s) {
      forall t: Nodes | multiset(t) == multiset(s)
        ensures AllResolved(t) && Sorted(StableSort(t))
      {
        SameElements(t, s);
        StableSortSorts(t);
      }
    } else {
      var a, b, c :| a in s && b in s && c in s && Compare(a, b) <= 0 && Compare(b, c) <= 0 && Compare(a, c) > 0;
      var t := UnsortedOrder(s, a, b, c);
    }
  }

  /** A round of three different Features, of two source types, that comes out unsorted. */
  lemma RoundNotSorted() returns (a: Node, b: Node, c: Node)
    ensures AllResolved([a, b, c]) && Distinct([a, b, c])
    ensures Compare(a, b) < 0 && Compare(b, c) < 0 && Compare(c, a) < 0
    ensures !Sorted(StableSort([a, b, c]))
  {
    a := Node(Ident("./b", NoOptions, Some(FeatureSet(Some(LocalSource("./b", "/1")), None)), []), 0, [], []);
    b := Node(Ident("./a", NoOptions, Some(FeatureSet(Some(LocalSource("./a", "/2")), None)), []), 0, [], []);
    c := Node(Ident("./aa", NoOptions, Some(FeatureSet(Some(TarballSource("./aa", "u")), None)), []), 0, [], []);
    CycleOfThree(a, b, c);
    hide Compare, Sorted, StableSort;
    NodesOppositeNodes(a, b);
    NodesOppositeNodes(b, c);
    NodesOppositeNodes(c, a);
    SortThree(a, b, c);
    FirstAboveLast(a, b, c);
  }

  lemma FirstAboveLast(a: Node, b: Node, c: Node)
    requires AllResolved([a, b, c]) && Compare(a, c) > 0
    ensures !Sorted([a, b, c])
  {
    hide Compare;
    assert [a, b, c][0] == a && [a, b, c][2] == c;
  }

  lemma CycleOfThree(a: Node, b: Node, c: Node)
    requires a.ident == Ident("./b", NoOptions, Some(FeatureSet(Some(LocalSource("./b", "/1")), None)), [])
    requires b.ident == Ident("./a", NoOptions, Some(FeatureSet(Some(LocalSource("./a", "/2")), None)), [])
    requires c.ident == Ident("./aa", NoOptions, Some(FeatureSet(Some(TarballSource("./aa", "u")), None)), [])
    ensures Compare(a, b) < 0 && Compare(b, c) < 0 && Compare(c, a) < 0
  {
    hide CompareStrings, CompareOptions;
    PathsDiffer();
  }

  lemma PathsDiffer()
    ensures CompareStrings("/1", "/2") < 0 && CompareStrings("./a", "./aa") < 0 && CompareStrings("./aa", "./b") < 0
    ensures "file-path" != "direct-tarball"
  {
    assert "/1"[1..] == "1" && "/2"[1..] == "2";
    assert "./a"[1..] == "/a" && "/a"[1..] == "a" && "a"[1..] == "";
    assert "./aa"[1..] == "/aa" && "/aa"[1..] == "aa" && "aa"[1..] == "a";
    assert "./b"[1..] == "/b" && "/b"[1..] == "b";
    assert "file-path"[0] != "direct-tarball"[0];
  }

  // Stable sorts agree where the comparison is transitive.

  /** The nodes that compare as `a` does, in their order. */
  function Ties(s: Nodes, a: Node): Nodes
    requires AllResolved(s) && a.ident.resolved.Some?
  {
    if s == [] then []
    else Ties(s[..|s| - 1], a) + if Compare(s[|s| - 1], a) == 0 then [s[|s| - 1]] else []
  }

  lemma TiesAppend(s: Nodes, n: Node, a: Node)
    requires AllResolved(s) && n.ident.resolved.Some? && a.ident.resolved.Some?
    ensures AllResolved(s + [n]) && Ties(s + [n], a) == Ties(s, a) + if Compare(n, a) == 0 then [n] else []
  {
    hide Compare;
    assert (s + [n])[..|s|] == s;
  }

  lemma InsertStep(n: Node, s: Nodes, last: Node)
    requires AllResolved(s) && n.ident.resolved.Some? && last.ident.resolved.Some?
    ensures AllResolved(s + [last])
    ensures Insert(n, s + [last]) == if Compare(n, last) < 0 then Insert(n, s) + [last] else s + [last] + [n]
  {
    hide Compare;
    assert (s + [last])[..|s|] == s;
  }

  /** An inserted node goes behind the nodes it compares equal to. */
  lemma {:induction false} InsertKeepsTies(n: Node, s: Nodes, a: Node, all: Nodes)
    requires AllResolved(all) && TotallyOrdered(all) && n in all && a in all && forall x :: x in s ==> x in all
    ensures AllResolved(s) && Ties(Insert(n, s), a) == Ties(s, a) + if Compare(n, a) == 0 then [n] else []
  {
    hide Compare, Insert, Ties;
    if s == [] {
      InsertLast([], n);
    } else {
      var init, last := s[..|s| - 1], s[|s| - 1];
      assert s == init + [last];
      InsertStep(n, init, last);
      TiesAppend(init, last, a);
      if Compare(n, last) < 0 {
        InsertKeepsTies(n, init, a, all);
        TiesAppend(Insert(n, init), last, a);
        NotBothTies(n, last, a, all);
        assert Ties(init, a) + [] == Ties(init, a);
      }
    }
    TiesAppend(s, n, a);
  }

  lemma NotBothTies(n: Node, last: Node, a: Node, all: Nodes)
    requires AllResolved(all) && TotallyOrdered(all) && n in all && last in all && a in all && Compare(n, last) < 0
    ensures Compare(n, a) != 0 || Compare(last, a) != 0
  {
    hide Compare;
    NodesOppositeNodes(n, a);
    NodesOppositeNodes(n, last);
  }

  lemma {:induction false} SortKeepsTies(s: Nodes, a: Node, all: Nodes)
    requires AllResolved(all) && TotallyOrdered(all) && a in all && forall x :: x in s ==> x in all
    ensures AllResolved(s) && Ties(StableSort(s), a) == Ties(s, a)
  {
    hide Compare, Insert, Ties, StableSort;
    if s == [] {
      NothingSorted();
    } else {
      var init, last := s[..|s| - 1], s[|s| - 1];
      assert s == init + [last];
      SortKeepsTies(init, a, all);
      SortStep(init, last);
      SameElements(StableSort(init), init);
      InsertKeepsTies(last, StableSort(init), a, all);
      TiesAppend(init, last, a);
    }
  }

  lemma NothingSorted()
    ensures StableSort([]) == []
  {
  }

  /** The last nodes of two sorted lists of the same nodes compare equal. */
  lemma LastsTie(r: Nodes, t: Nodes)
    requires AllResolved(r) && AllResolved(t) && Sorted(r) && Sorted(t) && multiset(r) == multiset(t) && r != []
    ensures |r| == |t| && Compare(t[|t| - 1], r[|r| - 1]) == 0
  {
    hide Compare, Sorted;
    SameElements(r, t);
    var x, y := r[|r| - 1], t[|t| - 1];
    assert x in r && y in t;
    SortedParts(r);
    SortedParts(t);
    NodesOppositeNodes(x, y);
  }

  /** If all ties agree, the last nodes are the same. */
  lemma LastsAgree(r: Nodes, x: Node, t: Nodes, y: Node)
    requires AllResolved(r) && AllResolved(t) && x.ident.resolved.Some? && y.ident.resolved.Some?
    requires Compare(y, x) == 0 && AllResolved(r + [x]) && AllResolved(t + [y])
    requires Ties(r + [x], x) == Ties(t + [y], x)
    ensures x == y
  {
    hide Compare, Ties;
    NodesOppositeNodes(x, x);
    TiesAppend(r, x, x);
    TiesAppend(t, y, x);
    var ties := Ties(r + [x], x);
    assert ties[|ties| - 1] == x && ties[|ties| - 1] == y;
  }

  lemma TiesBefore(r: Nodes, t: Nodes, x: Node, a: Node)
    requires AllResolved(r) && AllResolved(t) && x.ident.resolved.Some? && a.ident.resolved.Some?
    requires AllResolved(r + [x]) && AllResolved(t + [x]) && Ties(r + [x], a) == Ties(t + [x], a)
    ensures Ties(r, a) == Ties(t, a)
  {
    hide Compare, Ties;
    TiesAppend(r, x, a);
    TiesAppend(t, x, a);
    SamePrefix(Ties(r, a), Ties(t, a), if Compare(x, a) == 0 then [x] else []);
  }

  lemma SameInits(r: Nodes, t: Nodes, x: Node)
    requires multiset(r + [x]) == multiset(t + [x])
    ensures multiset(r) == multiset(t)
  {
    assert multiset(r) == multiset(r + [x]) - multiset{x} && multiset(t) == multiset(t + [x]) - multiset{x};
  }

  lemma {:induction false} SortedTiesAgree(r: Nodes, t: Nodes)
    requires AllResolved(r) && AllResolved(t) && Sorted(r) && Sorted(t) && multiset(r) == multiset(t)
    requires forall a :: a in r ==> Ties(r, a) == Ties(t, a)
    ensures r == t
    decreases |r|
  {
    hide Compare, Sorted, Ties;
    SameElements(r, t);
    if r != [] {
      var x, y := r[|r| - 1], t[|t| - 1];
      var r', t' := r[..|r| - 1], t[..|t| - 1];
      assert r == r' + [x] && t == t' + [y] && x in r;
      LastsTie(r, t);
      LastsAgree(r', x, t', y);
      SortedParts(r);
      SortedParts(t);
      SameInits(r', t', x);
      forall a | a in r'
        ensures Ties(r', a) == Ties(t', a)
      {
        assert a in r;
        TiesBefore(r', t', x, a);
      }
      SortedTiesAgree(r', t');
    }
  }

  lemma SamePrefix(a: Nodes, b: Nodes, c: Nodes)
    requires a + c == b + c
    ensures a == b
  {
    assert |a| == |b|;
    assert a == (a + c)[..|a|] && b == (b + c)[..|b|];
  }

  /** Where the comparison is transitive, the one list that is sorted and leaves ties in their order. */
  lemma StableSortIsUnique(s: Nodes, r: Nodes)
    requires AllResolved(s) && TotallyOrdered(s) && AllResolved(r)
    ensures r == StableSort(s) <==>
            multiset(r) == multiset(s) && Sorted(r) && forall a :: a in s ==> Ties(r, a) == Ties(s, a)
  {
    hide Compare, Sorted, Ties, StableSort;
    StableSortSorts(s);
    forall a | a in s
      ensures Ties(StableSort(s), a) == Ties(s, a)
    {
      SortKeepsTies(s, a, s);
    }
    if multiset(r) == multiset(s) && Sorted(r) && forall a :: a in s ==> Ties(r, a) == Ties(s, a) {
      SameElements(r, s);
      SortedTiesAgree(r, StableSort(s));
    }
  }
}
