/**
 The dependency graph of Features (internal/features/graph.go), as a function
 of the Features that the user asks for.

 A node is determined by its id and options, because `processFeature` is
 deterministic here. The graph is built from a first-in first-out worklist.
 */
module FeatureGraph {
  import opened FeatureNodes
  import opened InstallOrder
  import opened Wrappers

  /** A reference to a Feature: its id and the options it is given. */
  type Reference = (string, Options)

  datatype Processed = Resolved(features: FeatureSet) | Unprocessed | Failed(error: string)

  type ProcessFeature = (string, Options) -> Processed

  datatype GraphError =
    | ProcessError(error: string)
    | NotProcessed(userId: string)
    | SoftNotProcessed(userId: string)
    | OverrideNotProcessed(userId: string)

  datatype Graph = Built(nodes: seq<Reference>) | GraphFailure(error: GraphError)

  const NO_OPTIONS: Options := ObjectOptions([])

  function Process(process: ProcessFeature, r: Reference): Processed { process(r.0, r.1) }

  /** The aliases of a Feature: its id and its former ids. */
  function AliasesFor(f: Feature): seq<string> {
    (if f.id != "" then [f.id] else []) + f.legacyIds
  }

  function Aliases(features: FeatureSet): seq<string> {
    if features.feature.Some? then AliasesFor(features.feature.value) else []
  }

  /** What a processed reference is compared by; aliases play no part in sameness. */
  function Key(process: ProcessFeature, r: Reference): Ident {
    var p := Process(process, r);
    Ident(r.0, r.1, if p.Resolved? then Some(p.features) else None, [])
  }

  function HardDependencies(features: FeatureSet): seq<Reference> {
    if features.feature.Some? then features.feature.value.dependsOn else []
  }

  function SoftDependencies(features: FeatureSet): seq<string> {
    if features.feature.Some? then features.feature.value.installsAfter else []
  }

  function DependenciesOf(process: ProcessFeature, r: Reference): seq<Reference> {
    var p := Process(process, r);
    if p.Resolved? then HardDependencies(p.features) else []
  }

  /** Why a reference cannot be processed. */
  function ErrorOf(p: Processed, notProcessed: GraphError): (e: Option<GraphError>)
    ensures e.None? <==> p.Resolved?
  {
    match p
    case Resolved(_) => None
    case Unprocessed => Some(notProcessed)
    case Failed(error) => Some(ProcessError(error))
  }

  /** The error of the first soft dependency that cannot be processed. */
  function SoftError(process: ProcessFeature, ids: seq<string>): (e: Option<GraphError>)
    ensures e.None? <==> forall id :: id in ids ==> process(id, NO_OPTIONS).Resolved?
  {
    if ids == [] then None
    else
      var e := ErrorOf(process(ids[0], NO_OPTIONS), SoftNotProcessed(ids[0]));
      if e.Some? then e else SoftError(process, ids[1..])
  }

  /** Some node of `nodes` is the same Feature as `r`. */
  predicate Known(process: ProcessFeature, nodes: seq<Reference>, r: Reference) {
    exists i :: 0 <= i < |nodes| && NodesEqual(Key(process, nodes[i]), Key(process, r))
  }

  /** A finite set of references that is closed under hard dependencies. */
  predicate Closed(process: ProcessFeature, universe: set<Reference>) {
    forall r :: r in universe ==> forall d :: d in DependenciesOf(process, r) ==> d in universe
  }

  predicate Within(refs: seq<Reference>, universe: set<Reference>) { forall r :: r in refs ==> r in universe }

  function Elements(refs: seq<Reference>): set<Reference> { set r | r in refs }

  /** The worklist loop. */
  ghost function Build(process: ProcessFeature, worklist: seq<Reference>, nodes: seq<Reference>, universe: set<Reference>)
    : Graph
    requires Closed(process, universe) && Within(worklist, universe) && Within(nodes, universe)
    decreases universe - Elements(nodes), |worklist|
  {
    if worklist == [] then Built(nodes)
    else
      var current := worklist[0];
      var p := Process(process, current);
      var failure := ErrorOf(p, NotProcessed(current.0));
      if failure.Some? then GraphFailure(failure.value)
      else if Known(process, nodes, current) then Build(process, worklist[1..], nodes, universe)
      else
        var soft := SoftError(process, SoftDependencies(p.features));
        if soft.Some? then GraphFailure(soft.value)
        else
          Expands(process, worklist, nodes, universe);
          Build(process, worklist[1..] + HardDependencies(p.features), nodes + [current], universe)
  }

  lemma MemberIsKnown(process: ProcessFeature, nodes: seq<Reference>, r: Reference)
    requires r in nodes && Process(process, r).Resolved?
    ensures Known(process, nodes, r)
  {
    NodesEqualLaws(Key(process, r), Key(process, r));
    var i :| 0 <= i < |nodes| && nodes[i] == r;
  }

  /** An unknown reference is a new one, so expanding it leaves fewer to expand. */
  lemma Expands(process: ProcessFeature, worklist: seq<Reference>, nodes: seq<Reference>, universe: set<Reference>)
    requires Closed(process, universe) && Within(worklist, universe) && Within(nodes, universe)
    requires worklist != [] && Process(process, worklist[0]).Resolved? && !Known(process, nodes, worklist[0])
    ensures universe - Elements(nodes + [worklist[0]]) < universe - Elements(nodes)
    ensures Within(worklist[1..] + HardDependencies(Process(process, worklist[0]).features), universe)
    ensures Within(nodes + [worklist[0]], universe)
  {
    var current := worklist[0];
    if current in nodes { MemberIsKnown(process, nodes, current); }
    assert current !in Elements(nodes) && current in universe;
    assert current in Elements(nodes + [current]);
    assert Elements(nodes + [current]) == Elements(nodes) + {current};
    assert HardDependencies(Process(process, current).features) == DependenciesOf(process, current);
  }

  /** A reference with nothing wrong makes way for the rest of the worklist, or for that and its dependencies. */
  lemma BuildStep(process: ProcessFeature, worklist: seq<Reference>, nodes: seq<Reference>, universe: set<Reference>)
    requires Closed(process, universe) && Within(worklist, universe) && Within(nodes, universe) && worklist != []
    ensures var p := Process(process, worklist[0]);
            var failure := ErrorOf(p, NotProcessed(worklist[0].0));
            if failure.Some? then Build(process, worklist, nodes, universe) == GraphFailure(failure.value)
            else if Known(process, nodes, worklist[0]) then
              Within(worklist[1..], universe) &&
              Build(process, worklist, nodes, universe) == Build(process, worklist[1..], nodes, universe)
            else
              var soft := SoftError(process, SoftDependencies(p.features));
              var more := worklist[1..] + HardDependencies(p.features);
              if soft.Some? then Build(process, worklist, nodes, universe) == GraphFailure(soft.value)
              else
                Within(more, universe) && Within(nodes + [worklist[0]], universe) &&
                universe - Elements(nodes + [worklist[0]]) < universe - Elements(nodes) &&
                Build(process, worklist, nodes, universe) == Build(process, more, nodes + [worklist[0]], universe)
  {
    hide Known, SoftError, HardDependencies;
    if Process(process, worklist[0]).Resolved? && !Known(process, nodes, worklist[0]) {
      Expands(process, worklist, nodes, universe);
    }
  }

  /** The reference and its soft dependencies can be processed. */
  predicate Processable(process: ProcessFeature, r: Reference) {
    Process(process, r).Resolved? && SoftError(process, SoftDependencies(Process(process, r).features)).None?
  }

  /** The nodes can be processed and are pairwise different Features. */
  predicate AllDifferent(process: ProcessFeature, nodes: seq<Reference>) {
    (forall i :: 0 <= i < |nodes| ==> Processable(process, nodes[i])) &&
    (forall i, j :: 0 <= i < j < |nodes| ==> !NodesEqual(Key(process, nodes[i]), Key(process, nodes[j])))
  }

  /** Every dependency of a node is a node, up to sameness, or waits in the worklist. */
  predicate Covers(process: ProcessFeature, worklist: seq<Reference>, nodes: seq<Reference>) {
    forall n :: n in nodes ==>
      forall d :: d in DependenciesOf(process, n) ==> d in worklist || Known(process, nodes, d)
  }

  lemma KnownGrows(process: ProcessFeature, nodes: seq<Reference>, n: Reference, r: Reference)
    requires Known(process, nodes, r) || (r == n && Process(process, r).Resolved?)
    ensures Known(process, nodes + [n], r)
  {
    var more := nodes + [n];
    if Known(process, nodes, r) {
      var i :| 0 <= i < |nodes| && NodesEqual(Key(process, nodes[i]), Key(process, r));
      assert more[i] == nodes[i];
    } else {
      NodesEqualLaws(Key(process, r), Key(process, r));
      assert more[|nodes|] == n;
    }
  }

  /** Skipping a known reference keeps the graph covered. */
  lemma SkipCovers(process: ProcessFeature, worklist: seq<Reference>, nodes: seq<Reference>)
    requires worklist != [] && Covers(process, worklist, nodes) && Known(process, nodes, worklist[0])
    ensures Covers(process, worklist[1..], nodes)
  {
    hide Known;
  }

  /** So does expanding an unknown one. */
  lemma ExpandCovers(process: ProcessFeature, worklist: seq<Reference>, nodes: seq<Reference>)
    requires worklist != [] && Covers(process, worklist, nodes) && Process(process, worklist[0]).Resolved?
    ensures Covers(process, worklist[1..] + DependenciesOf(process, worklist[0]), nodes + [worklist[0]])
  {
    hide Known;
    var current := worklist[0];
    var more := nodes + [current];
    var rest := worklist[1..] + DependenciesOf(process, current);
    forall n, d | n in more && d in DependenciesOf(process, n)
      ensures d in rest || Known(process, more, d)
    {
      if n in nodes {
        if d !in worklist || d == current {
          KnownGrows(process, nodes, current, d);
        }
      }
    }
  }

  /**
   A built graph holds no Feature twice, is closed under hard dependencies up
   to sameness, holds every root, and takes nothing from outside the closure.
   Building fails only on a Feature of the closure that cannot be processed.
   */
  lemma {:induction false} BuildIsClosed(
    process: ProcessFeature, worklist: seq<Reference>, nodes: seq<Reference>, universe: set<Reference>)
    requires Closed(process, universe) && Within(worklist, universe) && Within(nodes, universe)
    requires AllDifferent(process, nodes) && Covers(process, worklist, nodes)
    ensures var g := Build(process, worklist, nodes, universe);
            g.Built? ==> AllDifferent(process, g.nodes) && Covers(process, [], g.nodes) && Within(g.nodes, universe) &&
                         nodes <= g.nodes && forall r :: r in worklist ==> Known(process, g.nodes, r)
    ensures Build(process, worklist, nodes, universe).GraphFailure? ==>
              exists r :: r in universe && !Processable(process, r)
    decreases universe - Elements(nodes), |worklist|
  {
    hide Known;
    if worklist != [] {
      var current := worklist[0];
      var p := Process(process, current);
      assert current in universe && (Processable(process, current) ==> p.Resolved?);
      if p.Resolved? {
        if Known(process, nodes, current) {
          SkipCovers(process, worklist, nodes);
          BuildIsClosed(process, worklist[1..], nodes, universe);
          var g := Build(process, worklist[1..], nodes, universe);
          if g.Built? {
            KnownInLonger(process, nodes, g.nodes, current);
          }
        } else if SoftError(process, SoftDependencies(p.features)).None? {
          Expands(process, worklist, nodes, universe);
          ExpandCovers(process, worklist, nodes);
          StillDifferent(process, nodes, current);
          var rest := worklist[1..] + HardDependencies(p.features);
          BuildIsClosed(process, rest, nodes + [current], universe);
          var g := Build(process, rest, nodes + [current], universe);
          if g.Built? {
            KnownGrows(process, nodes, current, current);
            KnownInLonger(process, nodes + [current], g.nodes, current);
          }
        }
      }
    }
  }

  lemma KnownInLonger(process: ProcessFeature, nodes: seq<Reference>, more: seq<Reference>, r: Reference)
    requires nodes <= more && Known(process, nodes, r)
    ensures Known(process, more, r)
  {
    var i :| 0 <= i < |nodes| && NodesEqual(Key(process, nodes[i]), Key(process, r));
    assert more[i] == nodes[i];
  }

  lemma StillDifferent(process: ProcessFeature, nodes: seq<Reference>, n: Reference)
    requires AllDifferent(process, nodes) && !Known(process, nodes, n) && Processable(process, n)
    ensures AllDifferent(process, nodes + [n])
  {
    hide NodesEqual;
  }

  // From the graph to the order.

  function KeysOf(process: ProcessFeature, refs: seq<Reference>): (keys: seq<Ident>)
    ensures |keys| == |refs| && forall i :: 0 <= i < |refs| ==> keys[i] == Key(process, refs[i])
  {
    seq(|refs|, i requires 0 <= i < |refs| => Key(process, refs[i]))
  }

  /** A soft dependency, processed for its former ids. */
  function SoftIdent(process: ProcessFeature, id: string): Ident {
    var p := process(id, NO_OPTIONS);
    Ident(id, NO_OPTIONS, if p.Resolved? then Some(p.features) else None, if p.Resolved? then Aliases(p.features) else [])
  }

  function SoftIdents(process: ProcessFeature, ids: seq<string>): (softs: seq<Ident>)
    ensures |softs| == |ids| && forall i :: 0 <= i < |ids| ==> softs[i] == SoftIdent(process, ids[i])
  {
    seq(|ids|, i requires 0 <= i < |ids| => SoftIdent(process, ids[i]))
  }

  // Override priorities.

  /** The number of entries from the first override that `node` satisfies to the end; 0 when there is none. */
  function OverridePriority(overrides: seq<Ident>, node: Ident): (p: nat)
    ensures p <= |overrides|
    ensures p > 0 ==> Satisfies(node, overrides[|overrides| - p])
    ensures forall i :: 0 <= i < |overrides| - p ==> !Satisfies(node, overrides[i])
  {
    if overrides == [] then 0
    else if Satisfies(node, overrides[0]) then |overrides|
    else OverridePriority(overrides[1..], node)
  }

  /** The error of the last override that cannot be processed. */
  function OverrideError(process: ProcessFeature, ids: seq<string>): (e: Option<GraphError>)
    ensures e.None? <==> forall id :: id in ids ==> process(id, NO_OPTIONS).Resolved?
  {
    if ids == [] then None
    else
      var e := OverrideError(process, ids[1..]);
      if e.Some? then e else ErrorOf(process(ids[0], NO_OPTIONS), OverrideNotProcessed(ids[0]))
  }

  function Priorities(process: ProcessFeature, refs: seq<Reference>, overrides: seq<string>): (ps: seq<int>)
    ensures |ps| == |refs|
    ensures forall i :: 0 <= i < |refs| ==>
              ps[i] == OverridePriority(SoftIdents(process, overrides), Key(process, refs[i]))
  {
    seq(|refs|, i requires 0 <= i < |refs| => OverridePriority(SoftIdents(process, overrides), Key(process, refs[i])))
  }

  /** The node a reference becomes, with the priority an override gives it. */
  function NodeOf(process: ProcessFeature, r: Reference, priority: int): Node {
    var p := Process(process, r);
    Node(Key(process, r), priority, KeysOf(process, DependenciesOf(process, r)),
         if p.Resolved? then SoftIdents(process, SoftDependencies(p.features)) else [])
  }

  function NodesOf(process: ProcessFeature, refs: seq<Reference>, priorities: seq<int>): (nodes: Nodes)
    requires |priorities| == |refs|
    ensures |nodes| == |refs|
    ensures forall i :: 0 <= i < |refs| ==> nodes[i] == NodeOf(process, refs[i], priorities[i])
  {
    seq(|refs|, i requires 0 <= i < |refs| => NodeOf(process, refs[i], priorities[i]))
  }

  /** The nodes of a graph with the priorities the overrides give them. */
  function Prioritized(process: ProcessFeature, refs: seq<Reference>, overrides: seq<string>): (nodes: Nodes)
    ensures |nodes| == |refs|
    ensures forall i :: 0 <= i < |refs| ==>
              nodes[i] == NodeOf(process, refs[i],
                                 OverridePriority(SoftIdents(process, overrides), Key(process, refs[i])))
  {
    NodesOf(process, refs, Priorities(process, refs, overrides))
  }

  /** What comes of a list of Features: the first error of building, or the outcome of ordering. */
  datatype Plan = NotPlanned(error: GraphError) | Planned(outcome: Outcome)

  ghost function PlanOf(
    process: ProcessFeature, roots: seq<Reference>, overrides: seq<string>, universe: set<Reference>): Plan
    requires Closed(process, universe) && Within(roots, universe)
  {
    var graph := Build(process, roots, [], universe);
    if graph.GraphFailure? then NotPlanned(graph.error)
    else if OverrideError(process, overrides).Some? then NotPlanned(OverrideError(process, overrides).value)
    else Planned(InstallationOrder(Prioritized(process, graph.nodes, overrides)))
  }

  /**
   Building and then ordering: the order is a permutation of the graph's nodes
   that respects every dependency, so each node is installed exactly once; the
   only other outcome is a circular dependency, when no such order exists.
   */
  lemma BuildThenOrder(
    process: ProcessFeature, roots: seq<Reference>, universe: set<Reference>, priorities: seq<int>)
    requires Closed(process, universe) && Within(roots, universe) && roots != []
    requires var g := Build(process, roots, [], universe);
             g.Built? && |g.nodes| == |priorities|
    ensures var g := Build(process, roots, [], universe);
            AllDifferent(process, g.nodes) &&
            var nodes := NodesOf(process, g.nodes, priorities);
            var outcome := InstallationOrder(nodes);
            (outcome.Ordered? || outcome.Circular?) &&
            (outcome.Ordered? ==> Respects(nodes, outcome.order)) &&
            (outcome.Circular? ==> !exists order :: Respects(nodes, order))
  {
    hide NodesEqual, Respects;
    BuildIsClosed(process, roots, [], universe);
    var g := Build(process, roots, [], universe);
    var nodes := NodesOf(process, g.nodes, priorities);
    assert Known(process, g.nodes, roots[0]);
    assert AllResolved(nodes) && Distinct(nodes);
    OrderIffPossible(nodes);
    InstallOutcomes(nodes, nodes, []);
  }

  lemma {:induction false} InstallOutcomes(all: Nodes, worklist: Nodes, installed: Nodes)
    requires AllResolved(worklist)
    ensures Install(all, worklist, installed).Ordered? || Install(all, worklist, installed).Circular?
    decreases |worklist|
  {
    var round := RoundOf(all, worklist, installed);
    if worklist != [] && round != [] {
      RoundProgress(all, worklist, installed);
      InstallOutcomes(all, Remove(worklist, round), installed + StableSort(round));
    }
  }
}
