/**
 The user's Features reach the graph in the order of a Go map
 (internal/features/types.go:375-387, internal/features/graph.go).

 That order can decide which Features are installed, because sameness is not
 transitive. Where different references are different Features it does not.
 */
module FeatureRoots {
  import opened FeatureNodes
  import opened InstallOrder
  import opened FeatureGraph
  import opened Wrappers

  // The closure only shows that building ends.

  lemma {:induction false} BuildIgnoresClosure(
    process: ProcessFeature, worklist: seq<Reference>, nodes: seq<Reference>, u: set<Reference>, v: set<Reference>)
    requires Closed(process, u) && Within(worklist, u) && Within(nodes, u)
    requires Closed(process, v) && Within(worklist, v) && Within(nodes, v)
    ensures Build(process, worklist, nodes, u) == Build(process, worklist, nodes, v)
    decreases u - Elements(nodes), |worklist|
  {
    hide Closed, Within, Known, SoftError, SoftDependencies, HardDependencies, Elements;
    if worklist != [] {
      BuildStep(process, worklist, nodes, u);
      BuildStep(process, worklist, nodes, v);
      hide Build;
      var p := Process(process, worklist[0]);
      if ErrorOf(p, NotProcessed(worklist[0].0)).None? {
        if Known(process, nodes, worklist[0]) {
          BuildIgnoresClosure(process, worklist[1..], nodes, u, v);
        } else if SoftError(process, SoftDependencies(p.features)).None? {
          var more := worklist[1..] + HardDependencies(p.features);
          BuildIgnoresClosure(process, more, nodes + [worklist[0]], u, v);
        }
      }
    }
  }

  // Where different references are different Features.

  predicate Told(process: ProcessFeature, universe: set<Reference>) {
    forall r, s :: r in universe && s in universe && r != s ==> !NodesEqual(Key(process, r), Key(process, s))
  }

  /** Both graphs are built, of the same references, or neither is. */
  predicate SameGraph(a: Graph, b: Graph) {
    if a.Built? then b.Built? && multiset(a.nodes) == multiset(b.nodes) else b.GraphFailure?
  }

  lemma KnownIsMember(process: ProcessFeature, nodes: seq<Reference>, r: Reference, universe: set<Reference>)
    requires Told(process, universe) && Within(nodes, universe) && r in universe && Known(process, nodes, r)
    ensures r in nodes
  {
    hide NodesEqual;
    var i :| 0 <= i < |nodes| && NodesEqual(Key(process, nodes[i]), Key(process, r));
    assert nodes[i] in nodes;
  }

  /** The nodes of a graph are closed under hard dependencies and hold the roots. */
  lemma GraphIsClosed(process: ProcessFeature, roots: seq<Reference>, universe: set<Reference>)
    requires Closed(process, universe) && Within(roots, universe) && Told(process, universe)
    requires Build(process, roots, [], universe).Built?
    ensures var nodes := Build(process, roots, [], universe).nodes;
            Within(nodes, universe) && AllDifferent(process, nodes) && Within(roots, Elements(nodes)) &&
            Closed(process, Elements(nodes))
  {
    hide Told, Build, Known, NodesEqual;
    BuildIsClosed(process, roots, [], universe);
    var nodes := Build(process, roots, [], universe).nodes;
    forall r | r in roots
      ensures r in nodes
    {
      KnownIsMember(process, nodes, r, universe);
    }
    forall r, d | r in nodes && d in DependenciesOf(process, r)
      ensures d in nodes
    {
      assert Known(process, nodes, d) && d in universe;
      KnownIsMember(process, nodes, d, universe);
    }
  }

  /** Roots that are among those of a built graph build a graph, within it. */
  lemma GraphBoundsGraph(process: ProcessFeature, roots: seq<Reference>, roots': seq<Reference>, universe: set<Reference>)
    requires Closed(process, universe) && Within(roots, universe) && Told(process, universe)
    requires Build(process, roots, [], universe).Built? && forall r :: r in roots' ==> r in roots
    ensures Within(roots', universe)
    ensures var g := Build(process, roots', [], universe);
            g.Built? && forall n :: n in g.nodes ==> n in Build(process, roots, [], universe).nodes
  {
    hide Told, Build, Known, NodesEqual, Closed;
    GraphIsClosed(process, roots, universe);
    var nodes := Build(process, roots, [], universe).nodes;
    BuildIgnoresClosure(process, roots', [], universe, Elements(nodes));
    BuildIsClosed(process, roots', [], Elements(nodes));
    forall r | r in Elements(nodes)
      ensures Processable(process, r)
    {
      var i :| 0 <= i < |nodes| && nodes[i] == r;
    }
  }

  lemma {:induction false} CountedOnce(process: ProcessFeature, nodes: seq<Reference>, r: Reference)
    requires AllDifferent(process, nodes)
    ensures multiset(nodes)[r] == if r in nodes then 1 else 0
  {
    if nodes != [] {
      var init, last := nodes[..|nodes| - 1], nodes[|nodes| - 1];
      assert nodes == init + [last];
      CountedOnce(process, init, r);
      NodesEqualLaws(Key(process, last), Key(process, last));
      assert Processable(process, nodes[|nodes| - 1]);
      forall i | 0 <= i < |init|
        ensures init[i] != last
      {
        assert nodes[i] == init[i] && !NodesEqual(Key(process, nodes[i]), Key(process, last));
      }
    }
  }

  lemma DifferentSameElements(process: ProcessFeature, a: seq<Reference>, b: seq<Reference>)
    requires AllDifferent(process, a) && AllDifferent(process, b) && forall r :: r in a <==> r in b
    ensures multiset(a) == multiset(b)
  {
    hide AllDifferent;
    forall r: Reference
      ensures multiset(a)[r] == multiset(b)[r]
    {
      CountedOnce(process, a, r);
      CountedOnce(process, b, r);
    }
  }

  /** Neither the order of the roots nor repetitions among them change the graph. */
  lemma RootsMakeTheGraph(process: ProcessFeature, roots: seq<Reference>, roots': seq<Reference>, universe: set<Reference>)
    requires Closed(process, universe) && Within(roots, universe) && Told(process, universe)
    requires forall r :: r in roots <==> r in roots'
    ensures Within(roots', universe)
    ensures SameGraph(Build(process, roots, [], universe), Build(process, roots', [], universe))
  {
    hide Told, Build, Closed, AllDifferent, Processable;
    assert Within(roots', universe);
    if Build(process, roots, [], universe).Built? {
      GraphBoundsGraph(process, roots, roots', universe);
    }
    if Build(process, roots', [], universe).Built? {
      GraphBoundsGraph(process, roots', roots, universe);
      GraphIsClosed(process, roots, universe);
      GraphIsClosed(process, roots', universe);
      DifferentSameElements(process, Build(process, roots, [], universe).nodes,
                            Build(process, roots', [], universe).nodes);
    }
  }

  /** The order of the roots never matters. */
  ghost predicate AnyOrder(process: ProcessFeature, universe: set<Reference>)
    requires Closed(process, universe)
  {
    forall roots: seq<Reference>, roots': seq<Reference> ::
      Within(roots, universe) && Within(roots', universe) && multiset(roots) == multiset(roots') ==>
        SameGraph(Build(process, roots, [], universe), Build(process, roots', [], universe))
  }

  /** Of two references to one Feature the graph keeps the first. */
  lemma FirstStays(process: ProcessFeature, r: Reference, s: Reference, universe: set<Reference>)
    requires Closed(process, universe) && r in universe && s in universe && r != s
    requires forall x :: x in universe ==> Processable(process, x)
    requires NodesEqual(Key(process, r), Key(process, s))
    ensures var g := Build(process, [r, s], [], universe); g.Built? && r in g.nodes && s !in g.nodes
  {
    hide NodesEqual, Build, Closed;
    var rest := [r, s][1..] + DependenciesOf(process, r);
    assert Processable(process, r);
    assert !Known(process, [], r);
    BuildStep(process, [r, s], [], universe);
    StillDifferent(process, [], r);
    ExpandCovers(process, [r, s], []);
    assert [] + [r] == [r];
    BuildIsClosed(process, rest, [r], universe);
    var g := Build(process, rest, [r], universe);
    assert g.nodes[0] == r;
    forall j | 0 <= j < |g.nodes|
      ensures g.nodes[j] != s
    {
      if j > 0 { assert !NodesEqual(Key(process, g.nodes[0]), Key(process, g.nodes[j])); }
    }
  }

  /** In a closure of Features that can be processed, that is exactly when different references are different Features. */
  lemma AnyOrderIffTold(process: ProcessFeature, universe: set<Reference>)
    requires Closed(process, universe) && forall x :: x in universe ==> Processable(process, x)
    ensures AnyOrder(process, universe) <==> Told(process, universe)
  {
    hide NodesEqual, Build, Closed, Processable;
    if Told(process, universe) {
      forall roots: seq<Reference>, roots': seq<Reference> |
        Within(roots, universe) && Within(roots', universe) && multiset(roots) == multiset(roots')
        ensures SameGraph(Build(process, roots, [], universe), Build(process, roots', [], universe))
      {
        assert forall r :: (r in roots <==> r in multiset(roots)) && (r in roots' <==> r in multiset(roots'));
        RootsMakeTheGraph(process, roots, roots', universe);
      }
    } else {
      var r, s :| r in universe && s in universe && r != s && NodesEqual(Key(process, r), Key(process, s));
      NodesEqualLaws(Key(process, r), Key(process, s));
      FirstStays(process, r, s, universe);
      FirstStays(process, s, r, universe);
      assert multiset([r, s]) == multiset([s, r]);
      var a, b := Build(process, [r, s], [], universe), Build(process, [s, r], [], universe);
      assert r in multiset(a.nodes) && r !in multiset(b.nodes);
    }
  }

  // From the roots to the order.

  lemma TakeFirst(a: seq<Reference>, b: seq<Reference>, i: nat)
    requires multiset(a) == multiset(b) && a != [] && i < |b| && b[i] == a[0]
    ensures multiset(a[1..]) == multiset(b[..i] + b[i + 1..])
  {
    var front, back := b[..i], b[i + 1..];
    assert a == [a[0]] + a[1..] && b == front + [a[0]] + back;
    assert multiset(a) == multiset{a[0]} + multiset(a[1..]);
    assert multiset(b) == multiset(front) + multiset{a[0]} + multiset(back);
    assert multiset(front + back) == multiset(front) + multiset(back);
    assert multiset(a[1..]) == multiset(a) - multiset{a[0]};
    assert multiset(front + back) == multiset(b) - multiset{a[0]};
  }

  lemma {:induction false} NodesPermuted(
    process: ProcessFeature, refs: seq<Reference>, refs': seq<Reference>, overrides: seq<string>)
    requires multiset(refs) == multiset(refs')
    ensures multiset(Prioritized(process, refs, overrides)) == multiset(Prioritized(process, refs', overrides))
    decreases |refs|
  {
    hide NodeOf, OverridePriority, Prioritized;
    assert |refs| == |multiset(refs)| == |refs'|;
    if refs != [] {
      var r := refs[0];
      assert r in multiset(refs');
      var i :| 0 <= i < |refs'| && refs'[i] == r;
      var front, back := refs'[..i], refs'[i + 1..];
      TakeFirst(refs, refs', i);
      assert refs == [r] + refs[1..] && refs' == front + [r] + back;
      NodesPermuted(process, refs[1..], front + back, overrides);
      PrioritizedConcat(process, [r], refs[1..], overrides);
      PrioritizedConcat(process, front + [r], back, overrides);
      PrioritizedConcat(process, front, [r], overrides);
      PrioritizedConcat(process, front, back, overrides);
    }
  }

  lemma PrioritizedConcat(process: ProcessFeature, a: seq<Reference>, b: seq<Reference>, overrides: seq<string>)
    ensures Prioritized(process, a + b, overrides) ==
            Prioritized(process, a, overrides) + Prioritized(process, b, overrides)
  {
    hide NodeOf, OverridePriority, SoftIdents, Key;
  }

  /** Both fail, or both order the same bag of nodes, in the same rounds. */
  predicate SamePlan(a: Plan, b: Plan) {
    if a.Planned? then b.Planned? && SameOutcome(a.outcome, b.outcome) else b.NotPlanned?
  }

  /** Where different references are different Features, the order of the user's Features changes nothing but the order inside a round. */
  lemma RootOrderDoesNotMatter(
    process: ProcessFeature, roots: seq<Reference>, roots': seq<Reference>, overrides: seq<string>,
    universe: set<Reference>)
    requires Closed(process, universe) && Within(roots, universe) && Told(process, universe)
    requires multiset(roots) == multiset(roots')
    ensures Within(roots', universe)
    ensures SamePlan(PlanOf(process, roots, overrides, universe), PlanOf(process, roots', overrides, universe))
    ensures var g, g' := Build(process, roots, [], universe), Build(process, roots', [], universe);
            SameGraph(g, g') &&
            (g.Built? ==>
              var nodes, nodes' := Prioritized(process, g.nodes, overrides), Prioritized(process, g'.nodes, overrides);
              AllResolved(nodes) && AllResolved(nodes') &&
              SameRounds(Rounds(nodes, nodes, []), Rounds(nodes', nodes', [])))
  {
    hide Told, Build, Closed, Prioritized, InstallationOrder, Rounds, SameOutcome, SameRounds, AllResolved, OverrideError;
    assert forall r :: (r in roots <==> r in multiset(roots)) && (r in roots' <==> r in multiset(roots'));
    RootsMakeTheGraph(process, roots, roots', universe);
    var g, g' := Build(process, roots, [], universe), Build(process, roots', [], universe);
    if g.Built? {
      NodesPermuted(process, g.nodes, g'.nodes, overrides);
      GraphIsClosed(process, roots, universe);
      PrioritizedResolved(process, g.nodes, overrides);
      PermutationDoesNotMatter(Prioritized(process, g.nodes, overrides), Prioritized(process, g'.nodes, overrides));
    }
  }

  lemma PrioritizedResolved(process: ProcessFeature, refs: seq<Reference>, overrides: seq<string>)
    requires AllDifferent(process, refs)
    ensures AllResolved(Prioritized(process, refs, overrides))
  {
    hide NodesEqual, OverridePriority;
    assert forall i :: 0 <= i < |refs| ==> Processable(process, refs[i]);
  }

  // Three references to one local Feature.

  /** Every reference is to the same local Feature, which depends on nothing. */
  function OneFolder(): ProcessFeature {
    (id, options) => Resolved(FeatureSet(Some(LocalSource(id, "/f")), None))
  }

  const FIRST: Reference := ("./f", ObjectOptions([("v", StringValue("1"))]))
  const MIDDLE: Reference := ("./f/", ObjectOptions([("v", BoolValue(true))]))
  const LAST: Reference := ("././f", ObjectOptions([("v", StringValue("2"))]))

  const TRIPLE: set<Reference> := {FIRST, MIDDLE, LAST}

  lemma TripleKeys()
    ensures FIRST != MIDDLE && FIRST != LAST && MIDDLE != LAST
    ensures var p := OneFolder();
            NodesEqual(Key(p, FIRST), Key(p, MIDDLE)) && NodesEqual(Key(p, MIDDLE), Key(p, LAST)) &&
            !NodesEqual(Key(p, FIRST), Key(p, LAST))
  {
    StringsOpposite("/f", "/f");
    StringsOpposite("1", "2");
  }

  lemma TripleClosed()
    ensures Closed(OneFolder(), TRIPLE) && Within([FIRST, MIDDLE, LAST], TRIPLE) && Within([MIDDLE, FIRST, LAST], TRIPLE)
    ensures Within([], TRIPLE) && Within([FIRST], TRIPLE) && Within([MIDDLE], TRIPLE)
  {
  }

  /** A reference to the folder is left out if some node is the same Feature, and otherwise put last. */
  lemma FolderStep(r: Reference, rest: seq<Reference>, nodes: seq<Reference>)
    requires Closed(OneFolder(), TRIPLE) && Within([r] + rest, TRIPLE) && Within(nodes, TRIPLE)
    ensures Within(rest, TRIPLE) && Within(nodes + [r], TRIPLE)
    ensures var p := OneFolder();
            Build(p, [r] + rest, nodes, TRIPLE) ==
            Build(p, rest, if Known(p, nodes, r) then nodes else nodes + [r], TRIPLE)
  {
    hide Build, Known, Closed;
    var worklist := [r] + rest;
    assert worklist[1..] == rest && rest + [] == rest && r in worklist;
    assert forall x :: x in rest ==> x in worklist;
    BuildStep(OneFolder(), worklist, nodes, TRIPLE);
  }

  lemma NothingToBuild(nodes: seq<Reference>)
    requires Closed(OneFolder(), TRIPLE) && Within([], TRIPLE) && Within(nodes, TRIPLE)
    ensures Build(OneFolder(), [], nodes, TRIPLE) == Built(nodes)
  {
  }

  lemma TripleGraphs()
    ensures Closed(OneFolder(), TRIPLE) && Within([FIRST, MIDDLE, LAST], TRIPLE) && Within([MIDDLE, FIRST, LAST], TRIPLE)
    ensures Build(OneFolder(), [FIRST, MIDDLE, LAST], [], TRIPLE) == Built([FIRST, LAST])
    ensures Build(OneFolder(), [MIDDLE, FIRST, LAST], [], TRIPLE) == Built([MIDDLE])
  {
    hide Build, Closed, NodesEqual, Within, Key;
    var p := OneFolder();
    TripleClosed();
    TripleKeys();
    NodesEqualLaws(Key(p, FIRST), Key(p, MIDDLE));
    assert [] + [FIRST] == [FIRST] && [] + [MIDDLE] == [MIDDLE] && [FIRST] + [LAST] == [FIRST, LAST];
    assert [FIRST, MIDDLE, LAST] == [FIRST] + [MIDDLE, LAST] && [MIDDLE, FIRST, LAST] == [MIDDLE] + [FIRST, LAST];
    assert [MIDDLE, LAST] == [MIDDLE] + [LAST] && [FIRST, LAST] == [FIRST] + [LAST] && [LAST] == [LAST] + [];
    assert Known(p, [FIRST], MIDDLE) by { assert [FIRST][0] == FIRST; }
    assert Known(p, [MIDDLE], FIRST) && Known(p, [MIDDLE], LAST) by { assert [MIDDLE][0] == MIDDLE; }
    assert !Known(p, [], FIRST) && !Known(p, [], MIDDLE) && !Known(p, [FIRST], LAST);
    FolderStep(FIRST, [MIDDLE, LAST], []);
    FolderStep(MIDDLE, [LAST], [FIRST]);
    FolderStep(LAST, [], [FIRST]);
    NothingToBuild([FIRST, LAST]);
    FolderStep(MIDDLE, [FIRST, LAST], []);
    FolderStep(FIRST, [LAST], [MIDDLE]);
    FolderStep(LAST, [], [MIDDLE]);
    NothingToBuild([MIDDLE]);
  }

  /** Nodes that depend on nothing are all installed. */
  lemma FolderOrder(refs: seq<Reference>)
    requires refs != [] && AllDifferent(OneFolder(), refs)
    ensures var outcome := InstallationOrder(Prioritized(OneFolder(), refs, []));
            outcome.Ordered? && |outcome.order| == |refs|
  {
    hide NodesEqual, InstallationOrder, Satisfies;
    var nodes := Prioritized(OneFolder(), refs, []);
    PrioritizedResolved(OneFolder(), refs, []);
    assert Distinct(nodes);
    assert Respects(nodes, nodes);
    OrderIffPossible(nodes);
    SameElements(InstallationOrder(nodes).order, nodes);
  }

  /** One Feature three times, with different options: in one order of the map two are installed, in another only one. */
  lemma RootOrderMatters()
    ensures Closed(OneFolder(), TRIPLE) && Within([FIRST, MIDDLE, LAST], TRIPLE) && Within([MIDDLE, FIRST, LAST], TRIPLE)
    ensures Build(OneFolder(), [FIRST, MIDDLE, LAST], [], TRIPLE) == Built([FIRST, LAST])
    ensures Build(OneFolder(), [MIDDLE, FIRST, LAST], [], TRIPLE) == Built([MIDDLE])
    ensures var a := PlanOf(OneFolder(), [FIRST, MIDDLE, LAST], [], TRIPLE);
            var b := PlanOf(OneFolder(), [MIDDLE, FIRST, LAST], [], TRIPLE);
            a.Planned? && a.outcome.Ordered? && |a.outcome.order| == 2 &&
            b.Planned? && b.outcome.Ordered? && |b.outcome.order| == 1
  {
    hide Build, Closed, Within, InstallationOrder, Prioritized, Key, NodesEqual;
    TripleGraphs();
    TripleKeys();
    assert AllDifferent(OneFolder(), [FIRST, LAST]) && AllDifferent(OneFolder(), [MIDDLE]);
    FolderOrder([FIRST, LAST]);
    FolderOrder([MIDDLE]);
  }
}
