/**
 The Feature graph as the program holds it: nodes that are updated in place
 (internal/features/graph.go and internal/features/order.go).

 The methods are proved against `FeatureGraph` and `InstallOrder`.
 */
module FeatureInstaller {
  import opened FeatureNodes
  import opened FeatureGraph
  import opened Wrappers

  class FNode {
    const userId: string
    const options: Options
    var resolved: Option<FeatureSet>
    var dependsOn: seq<FNode>
    var installsAfter: seq<FNode>
    var aliases: seq<string>
    var roundPriority: int

    constructor (userId: string, options: Options)
      ensures this.userId == userId && this.options == options && Untouched()
    {
      this.userId, this.options := userId, options;
      resolved, dependsOn, installsAfter, aliases, roundPriority := None, [], [], [], 0;
    }

    predicate Untouched()
      reads this
    {
      resolved.None? && dependsOn == [] && installsAfter == [] && aliases == [] && roundPriority == 0
    }

    function Ref(): Reference { (userId, options) }

    /** What the node is compared by. */
    function NodeKey(): Ident
      reads `resolved
    {
      Ident(userId, options, resolved, [])
    }

    /** The node as a soft dependency, with its former ids. */
    function SoftKey(): Ident
      reads `resolved, `aliases
    {
      Ident(userId, options, resolved, aliases)
    }
  }

  function Refs(nodes: seq<FNode>): (refs: seq<Reference>)
    ensures |refs| == |nodes| && forall i :: 0 <= i < |nodes| ==> refs[i] == nodes[i].Ref()
  {
    seq(|nodes|, i requires 0 <= i < |nodes| => nodes[i].Ref())
  }

  predicate NoDuplicates(nodes: seq<FNode>) { forall i, j :: 0 <= i < j < |nodes| ==> nodes[i] != nodes[j] }

  // Building the graph.

  /** The node was processed. */
  predicate IsProcessed(process: ProcessFeature, n: FNode)
    reads n`resolved
  {
    Process(process, n.Ref()).Resolved? && n.resolved == Some(Process(process, n.Ref()).features)
  }

  /** The node was processed and given its dependencies. */
  predicate IsExpanded(process: ProcessFeature, n: FNode)
    reads n`resolved, n`aliases, n`dependsOn, n`installsAfter, n.installsAfter`resolved, n.installsAfter`aliases
  {
    IsProcessed(process, n) &&
    var features := Process(process, n.Ref()).features;
    n.aliases == Aliases(features) &&
    Refs(n.dependsOn) == HardDependencies(features) &&
    |n.installsAfter| == |SoftDependencies(features)| &&
    forall i :: 0 <= i < |n.installsAfter| ==>
      n.installsAfter[i].SoftKey() == SoftIdent(process, SoftDependencies(features)[i])
  }

  /** Adds a node for each hard dependency. */
  method AddHardDependencies(n: FNode, deps: seq<Reference>) returns (added: seq<FNode>)
    modifies n`dependsOn
    ensures n.dependsOn == old(n.dependsOn) + added && Refs(added) == deps && NoDuplicates(added)
    ensures forall d :: d in added ==> fresh(d) && d.Untouched()
  {
    added := [];
    for i := 0 to |deps|
      invariant n.dependsOn == old(n.dependsOn) + added && Refs(added) == deps[..i] && NoDuplicates(added)
      invariant forall d :: d in added ==> fresh(d) && d.Untouched()
      invariant forall d :: d in added ==> d != n
    {
      var dep := new FNode(deps[i].0, deps[i].1);
      n.dependsOn := n.dependsOn + [dep];
      added := added + [dep];
    }
  }

  /** Adds a processed node for each soft dependency, or says why one cannot be processed. */
  method AddSoftDependencies(process: ProcessFeature, n: FNode, ids: seq<string>) returns (error: Option<GraphError>)
    requires n.installsAfter == []
    modifies n`installsAfter
    ensures error == SoftError(process, ids)
    ensures forall s :: s in n.installsAfter ==> fresh(s)
    ensures error.None? ==> |n.installsAfter| == |ids| &&
                            forall i :: 0 <= i < |ids| ==> n.installsAfter[i].SoftKey() == SoftIdent(process, ids[i])
  {
    hide SoftError, Aliases, SoftIdent;
    for i := 0 to |ids|
      invariant SoftError(process, ids) == SoftError(process, ids[i..])
      invariant forall s :: s in n.installsAfter ==> fresh(s) && s != n
      invariant |n.installsAfter| == i
      invariant forall j :: 0 <= j < i ==> n.installsAfter[j].SoftKey() == SoftIdent(process, ids[j])
    {
      SoftStep(process, ids, i);
      var p := process(ids[i], NO_OPTIONS);
      error := ErrorOf(p, SoftNotProcessed(ids[i]));
      if error.Some? { return; }
      var dep := new FNode(ids[i], NO_OPTIONS);
      dep.resolved := Some(p.features);
      dep.aliases := Aliases(p.features);
      n.installsAfter := n.installsAfter + [dep];
    }
    NoSoftError(process);
    error := None;
  }

  lemma SoftStep(process: ProcessFeature, ids: seq<string>, i: nat)
    requires i < |ids|
    ensures var p := process(ids[i], NO_OPTIONS);
            var e := ErrorOf(p, SoftNotProcessed(ids[i]));
            SoftError(process, ids[i..]) == (if e.Some? then e else SoftError(process, ids[i + 1..])) &&
            (p.Resolved? ==>
              SoftIdent(process, ids[i]) == Ident(ids[i], NO_OPTIONS, Some(p.features), Aliases(p.features)))
  {
    assert ids[i..][1..] == ids[i + 1..];
  }

  lemma NoSoftError(process: ProcessFeature)
    ensures SoftError(process, []).None?
  {
  }

  datatype BuildResult = GraphNodes(nodes: seq<FNode>) | BuildFailure(error: GraphError)

  /** The graph of nodes is the graph of references, each node expanded and all its dependencies processed. */
  ghost predicate Represents(process: ProcessFeature, nodes: seq<FNode>, refs: seq<Reference>)
    reads *
  {
    Refs(nodes) == refs && NoDuplicates(nodes) &&
    forall n :: n in nodes ==> IsExpanded(process, n) && forall d :: d in n.dependsOn ==> IsProcessed(process, d)
  }

  lemma KeyOfProcessed(process: ProcessFeature, n: FNode)
    requires IsProcessed(process, n)
    ensures n.NodeKey() == Key(process, n.Ref())
  {
  }

  /** Some node of `acc` is the same Feature as `current`. */
  method IsKnown(process: ProcessFeature, acc: seq<FNode>, current: FNode) returns (known: bool)
    requires IsProcessed(process, current) && forall n :: n in acc ==> IsProcessed(process, n)
    ensures known <==> Known(process, Refs(acc), current.Ref())
  {
    hide NodesEqual, Key;
    KeyOfProcessed(process, current);
    for i := 0 to |acc|
      invariant forall j :: 0 <= j < i ==> !NodesEqual(Key(process, Refs(acc)[j]), Key(process, current.Ref()))
    {
      assert acc[i] in acc;
      KeyOfProcessed(process, acc[i]);
      if NodesEqual(acc[i].NodeKey(), current.NodeKey()) { return true; }
    }
    known := false;
  }

  /** The node is expanded, and each of its dependencies is processed or waits in the worklist. */
  predicate Settled(process: ProcessFeature, n: FNode, worklist: seq<FNode>)
    reads n, n.installsAfter, n.dependsOn
  {
    IsExpanded(process, n) && n.roundPriority == 0 &&
    (forall s :: s in n.installsAfter ==> s !in worklist) &&
    (forall d :: d in n.dependsOn ==> d in worklist || IsProcessed(process, d))
  }

  ghost predicate AllSettled(process: ProcessFeature, nodes: seq<FNode>, worklist: seq<FNode>)
    reads *
  {
    forall n :: n in nodes ==> Settled(process, n, worklist)
  }

  /** Stores the result of processing the head of the worklist. */
  method Store(process: ProcessFeature, worklist: seq<FNode>, ghost acc: seq<FNode>)
    requires worklist != [] && Process(process, worklist[0].Ref()).Resolved?
    requires AllSettled(process, acc, worklist) && worklist[0] !in acc && worklist[0].Untouched()
    modifies worklist[0]
    ensures IsProcessed(process, worklist[0]) && worklist[0].dependsOn == [] && worklist[0].installsAfter == []
    ensures worklist[0].roundPriority == 0
    ensures AllSettled(process, acc, worklist[1..])
  {
    hide SoftIdent, Aliases, HardDependencies, SoftDependencies;
    var current := worklist[0];
    assert current in worklist;
    current.resolved := Some(Process(process, current.Ref()).features);
    forall n | n in acc
      ensures Settled(process, n, worklist[1..])
    {
      assert old(Settled(process, n, worklist));
      assert n.installsAfter == old(n.installsAfter) && n.dependsOn == old(n.dependsOn);
      forall i | 0 <= i < |n.installsAfter|
        ensures n.installsAfter[i].SoftKey() == old(n.installsAfter[i].SoftKey())
      {
        assert n.installsAfter[i] in n.installsAfter;
      }
      assert worklist == [current] + worklist[1..];
    }
  }

  /** Gives a processed node its aliases and dependencies; the hard ones go to the worklist. */
  method Expand(process: ProcessFeature, n: FNode, worklist: seq<FNode>, ghost acc: seq<FNode>)
    returns (more: seq<FNode>, error: Option<GraphError>)
    requires IsProcessed(process, n) && n.dependsOn == [] && n.installsAfter == [] && n.roundPriority == 0
    requires AllSettled(process, acc, worklist) && n !in acc
    requires forall a, s :: a in acc && s in a.installsAfter ==> s != n
    requires NoDuplicates(worklist) && n !in worklist
    modifies n
    ensures n.resolved == old(n.resolved)
    ensures error == SoftError(process, SoftDependencies(Process(process, n.Ref()).features))
    ensures NoDuplicates(more) && worklist <= more
    ensures Refs(more) == Refs(worklist) + HardDependencies(Process(process, n.Ref()).features)
    ensures forall d :: d in more && d !in worklist ==> fresh(d) && d.Untouched()
    ensures error.None? ==> AllSettled(process, acc + [n], more)
  {
    hide SoftIdent, Aliases, HardDependencies, SoftDependencies, SoftError;
    var features := Process(process, n.Ref()).features;
    n.aliases := Aliases(features);
    var added := AddHardDependencies(n, HardDependencies(features));
    error := AddSoftDependencies(process, n, SoftDependencies(features));
    more := worklist + added;
    Appended(worklist, added);
    if error.None? {
      forall a | a in acc
        ensures Settled(process, a, more)
      {
        assert old(Settled(process, a, worklist));
        assert a.installsAfter == old(a.installsAfter) && a.dependsOn == old(a.dependsOn);
        forall i | 0 <= i < |a.installsAfter|
          ensures a.installsAfter[i].SoftKey() == old(a.installsAfter[i].SoftKey())
        {
          assert a.installsAfter[i] in a.installsAfter;
        }
      }
    }
  }

  method ResolveDependencyGraph(process: ProcessFeature, roots: seq<FNode>, ghost universe: set<Reference>)
    returns (result: BuildResult)
    requires NoDuplicates(roots) && forall r :: r in roots ==> r.Untouched()
    requires Closed(process, universe) && Within(Refs(roots), universe)
    modifies roots
    ensures match Build(process, Refs(roots), [], universe)
            case Built(refs) => result.GraphNodes? && Represents(process, result.nodes, refs)
            case GraphFailure(error) => result == BuildFailure(error)
    ensures result.GraphNodes? ==>
              forall n :: n in result.nodes ==> (n in roots || fresh(n)) && n.roundPriority == 0
  {
    hide IsExpanded, IsProcessed, AllSettled, Represents, SoftError, HardDependencies, SoftDependencies;
    hide Build, Known, Within, Closed;
    NothingSettled(process, roots, universe);
    var worklist := roots;
    var acc: seq<FNode> := [];
    while worklist != []
      invariant Within(Refs(worklist), universe) && Within(Refs(acc), universe)
      invariant Build(process, Refs(worklist), Refs(acc), universe) == Build(process, Refs(roots), [], universe)
      invariant NoDuplicates(worklist) && NoDuplicates(acc)
      invariant forall w :: w in worklist ==> w !in acc && w.Untouched()
      invariant AllSettled(process, acc, worklist)
      invariant forall n :: n in worklist || n in acc ==> n in roots || fresh(n)
      decreases universe - Elements(Refs(acc)), |worklist|
    {
      var current := worklist[0];
      assert current in worklist;
      var p := Process(process, current.Ref());
      SplitHead(worklist);
      BuildStep(process, Refs(worklist), Refs(acc), universe);
      var failure := ErrorOf(p, NotProcessed(current.userId));
      if failure.Some? { return BuildFailure(failure.value); }
      SettledNodes(process, worklist, acc);
      Store(process, worklist, acc);
      SettledNodes(process, worklist[1..], acc);
      var known := IsKnown(process, acc, current);
      if known {
        worklist := worklist[1..];
        continue;
      }
      var more, error := Expand(process, current, worklist[1..], acc);
      if error.Some? { return BuildFailure(error.value); }
      Appended(acc, [current]);
      assert Refs([current]) == [current.Ref()];
      worklist := more;
      acc := acc + [current];
    }
    SettledRepresents(process, acc);
    AllBuilt(process, Refs(acc), universe);
    result := GraphNodes(acc);
  }

  lemma NothingSettled(process: ProcessFeature, worklist: seq<FNode>, universe: set<Reference>)
    ensures AllSettled(process, [], worklist) && Within([], universe)
  {
  }

  lemma AllBuilt(process: ProcessFeature, refs: seq<Reference>, universe: set<Reference>)
    requires Closed(process, universe) && Within(refs, universe) && Within([], universe)
    ensures Build(process, [], refs, universe) == Built(refs)
  {
  }

  lemma SplitHead(nodes: seq<FNode>)
    requires nodes != [] && NoDuplicates(nodes)
    ensures Refs(nodes)[0] == nodes[0].Ref() && Refs(nodes[1..]) == Refs(nodes)[1..]
    ensures NoDuplicates(nodes[1..]) && nodes[0] !in nodes[1..]
  {
  }

  lemma Appended(a: seq<FNode>, b: seq<FNode>)
    requires NoDuplicates(a) && NoDuplicates(b) && forall n :: n in b ==> n !in a
    ensures NoDuplicates(a + b) && Refs(a + b) == Refs(a) + Refs(b)
  {
    forall i, j | 0 <= i < j < |a + b|
      ensures (a + b)[i] != (a + b)[j]
    {
      if i < |a| <= j { assert b[j - |a|] in b; }
    }
  }

  lemma SettledNodes(process: ProcessFeature, worklist: seq<FNode>, acc: seq<FNode>)
    requires AllSettled(process, acc, worklist)
    ensures forall n :: n in acc ==> IsProcessed(process, n)
    ensures forall n, s :: n in acc && s in n.installsAfter ==> s !in worklist
  {
  }

  lemma SettledRepresents(process: ProcessFeature, acc: seq<FNode>)
    requires NoDuplicates(acc) && AllSettled(process, acc, [])
    ensures Represents(process, acc, Refs(acc)) && forall n :: n in acc ==> n.roundPriority == 0
  {
  }

  // Override priorities.

  /** The priority of a node of priority `p` after raising it to `to`, if it is raised at all. */
  function Raised(p: int, to: nat): int { if 0 < to && p < to then to else p }

  /** Raises the priority of every node that an override entry is satisfied by. */
  method ApplyOverride(process: ProcessFeature, nodes: seq<FNode>, overrides: seq<string>)
    returns (error: Option<GraphError>)
    modifies nodes`roundPriority
    ensures error == OverrideError(process, overrides)
    ensures error.None? ==>
              forall n :: n in nodes ==>
                n.roundPriority ==
                Raised(old(n.roundPriority), OverridePriority(SoftIdents(process, overrides), n.NodeKey()))
  {
    hide Satisfies, OverridePriority, SoftIdents, Aliases;
    error := None;
    NoPriority(process, nodes, overrides);
    for i := |overrides| downto 0
      invariant error.None? && OverrideError(process, overrides[i..]).None?
      invariant forall n :: n in nodes ==>
        n.roundPriority == Raised(old(n.roundPriority), OverridePriority(SoftIdents(process, overrides[i..]), n.NodeKey()))
    {
      var id := overrides[i];
      var p := process(id, NO_OPTIONS);
      error := ErrorOf(p, OverrideNotProcessed(id));
      assert overrides[i..] == [id] + overrides[i + 1..];
      if error.Some? {
        OverrideErrorFrom(process, overrides, i);
        return;
      }
      var entry := new FNode(id, NO_OPTIONS);
      entry.resolved, entry.aliases := Some(p.features), Aliases(p.features);
      assert entry.SoftKey() == SoftIdent(process, id);
      Raise(nodes, entry, |overrides| - i);
      forall n | n in nodes
        ensures n.roundPriority ==
          Raised(old(n.roundPriority), OverridePriority(SoftIdents(process, overrides[i..]), n.NodeKey()))
      {
        PriorityStep(process, overrides, i, n.NodeKey());
      }
    }
    assert overrides[0..] == overrides;
  }

  lemma NoPriority(process: ProcessFeature, nodes: seq<FNode>, overrides: seq<string>)
    ensures forall n :: n in nodes ==>
              OverridePriority(SoftIdents(process, overrides[|overrides|..]), n.NodeKey()) == 0
  {
  }

  lemma PriorityStep(process: ProcessFeature, overrides: seq<string>, i: nat, key: Ident)
    requires i < |overrides|
    ensures var rest := OverridePriority(SoftIdents(process, overrides[i + 1..]), key);
            rest < |overrides| - i &&
            OverridePriority(SoftIdents(process, overrides[i..]), key) ==
            if Satisfies(key, SoftIdent(process, overrides[i])) then |overrides| - i else rest
  {
    assert SoftIdents(process, overrides[i..])[1..] == SoftIdents(process, overrides[i + 1..]);
  }

  lemma {:induction false} OverrideErrorFrom(process: ProcessFeature, ids: seq<string>, i: nat)
    requires i <= |ids| && OverrideError(process, ids[i..]).Some?
    ensures OverrideError(process, ids) == OverrideError(process, ids[i..])
  {
    if i > 0 {
      assert ids[1..][i - 1..] == ids[i..];
      OverrideErrorFrom(process, ids[1..], i - 1);
    } else {
      assert ids[0..] == ids;
    }
  }

  /** Raises the nodes that satisfy `entry` to `priority`. */
  method Raise(nodes: seq<FNode>, entry: FNode, priority: nat)
    requires entry !in nodes && priority > 0
    modifies nodes`roundPriority
    ensures forall n :: n in nodes ==>
              n.roundPriority == if Satisfies(n.NodeKey(), entry.SoftKey()) then Raised(old(n.roundPriority), priority)
                                 else old(n.roundPriority)
  {
    hide Satisfies;
    for i := 0 to |nodes|
      invariant forall n :: n in nodes ==>
        n.roundPriority == if n in nodes[..i] && Satisfies(n.NodeKey(), entry.SoftKey())
                           then Raised(old(n.roundPriority), priority) else old(n.roundPriority)
    {
      var node := nodes[i];
      assert node in nodes;
      if Satisfies(node.NodeKey(), entry.SoftKey()) {
        if priority > node.roundPriority {
          node.roundPriority := priority;
        }
      }
      assert nodes[..i + 1] == nodes[..i] + [node];
    }
    assert nodes[..|nodes|] == nodes;
  }

  method NewRoots(userFeatures: seq<Reference>) returns (roots: seq<FNode>)
    ensures Refs(roots) == userFeatures && NoDuplicates(roots)
    ensures forall r :: r in roots ==> r.Untouched() && fresh(r)
  {
    roots := [];
    for i := 0 to |userFeatures|
      invariant Refs(roots) == userFeatures[..i] && NoDuplicates(roots)
      invariant forall r :: r in roots ==> r.Untouched() && fresh(r)
    {
      var root := new FNode(userFeatures[i].0, userFeatures[i].1);
      roots := roots + [root];
    }
  }

  lemma NoOverride(process: ProcessFeature, nodes: seq<FNode>)
    ensures OverrideError(process, []).None?
    ensures forall n :: n in nodes ==> OverridePriority(SoftIdents(process, []), n.NodeKey()) == 0
  {
  }

  lemma RepresentedPriorities(process: ProcessFeature, nodes: seq<FNode>, refs: seq<Reference>, overrides: seq<string>)
    requires Represents(process, nodes, refs)
    requires forall n :: n in nodes ==>
               n.roundPriority == OverridePriority(SoftIdents(process, overrides), n.NodeKey())
    ensures |nodes| == |refs|
    ensures forall i :: 0 <= i < |refs| ==> nodes[i].roundPriority == Priorities(process, refs, overrides)[i]
  {
    hide Key, OverridePriority, SoftIdents, IsExpanded;
    forall i | 0 <= i < |refs|
      ensures nodes[i].roundPriority == Priorities(process, refs, overrides)[i]
    {
      assert nodes[i] in nodes && IsExpanded(process, nodes[i]);
      ExpandedIsProcessed(process, nodes[i]);
      KeyOfProcessed(process, nodes[i]);
    }
  }

  lemma ExpandedIsProcessed(process: ProcessFeature, n: FNode)
    requires IsExpanded(process, n)
    ensures IsProcessed(process, n)
  {
  }

  /** Stores the override priorities in the nodes of a graph. */
  method Prioritize(process: ProcessFeature, nodes: seq<FNode>, ghost refs: seq<Reference>, overrides: seq<string>)
    returns (error: Option<GraphError>)
    requires Represents(process, nodes, refs) && forall n :: n in nodes ==> n.roundPriority == 0
    modifies nodes`roundPriority
    ensures error == OverrideError(process, overrides)
    ensures error.None? ==> Represents(process, nodes, refs) && |nodes| == |refs|
    ensures error.None? ==> forall i :: 0 <= i < |refs| ==>
              nodes[i].roundPriority == Priorities(process, refs, overrides)[i]
  {
    hide IsExpanded, IsProcessed, OverridePriority, SoftIdents, OverrideError, Priorities;
    NoOverride(process, nodes);
    error := None;
    if |overrides| > 0 {
      error := ApplyOverride(process, nodes, overrides);
      if error.Some? { return; }
    }

    RepresentedPriorities(process, nodes, refs, overrides);
  }

  /** Builds the graph and stores the override priorities in its nodes. */
  method BuildDependencyGraph(
    process: ProcessFeature, userFeatures: seq<Reference>, overrides: seq<string>, ghost universe: set<Reference>)
    returns (result: BuildResult)
    requires Closed(process, universe) && Within(userFeatures, universe)
    ensures match Build(process, userFeatures, [], universe)
            case GraphFailure(error) => result == BuildFailure(error)
            case Built(refs) =>
              if OverrideError(process, overrides).Some? then
                result == BuildFailure(OverrideError(process, overrides).value)
              else
                result.GraphNodes? && Represents(process, result.nodes, refs) &&
                forall i :: 0 <= i < |refs| ==>
                  result.nodes[i].roundPriority == Priorities(process, refs, overrides)[i]
    ensures result.GraphNodes? ==> forall n :: n in result.nodes ==> fresh(n)
  {
    hide Represents, Build, Closed;
    var roots := NewRoots(userFeatures);
    assert forall i :: 0 <= i < |roots| ==> roots[i] in roots;
    result := ResolveDependencyGraph(process, roots, universe);
    if result.BuildFailure? { return; }
    assert forall i :: 0 <= i < |result.nodes| ==> result.nodes[i] in result.nodes;
    ghost var refs := Build(process, userFeatures, [], universe).nodes;
    var error := Prioritize(process, result.nodes, refs, overrides);
    if error.Some? { return BuildFailure(error.value); }
  }
}
