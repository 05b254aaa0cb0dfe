/**
 Ordering the nodes of a Feature graph (internal/features/order.go:30-139):
 the soft dependencies are pruned in place, then the rounds are taken.

 The nodes are objects; `Views` relates them to the values that `InstallOrder`
 is about.
 */
module FeatureOrdering {
  import opened FeatureNodes
  import opened InstallOrder
  import opened FeatureGraph
  import opened FeatureInstaller
  import opened Wrappers

  datatype OrderResult =
    | InstallSets(sets: seq<FeatureSet>)
    | NoNodes
    | NotResolved(userId: string)
    | CircularAmong(userIds: seq<string>)

  function Keys(nodes: seq<FNode>): (keys: seq<Ident>)
    reads nodes`resolved
    ensures |keys| == |nodes| && forall i :: 0 <= i < |nodes| ==> keys[i] == nodes[i].NodeKey()
  {
    if nodes == [] then [] else Keys(nodes[..|nodes| - 1]) + [nodes[|nodes| - 1].NodeKey()]
  }

  function SoftKeys(nodes: seq<FNode>): (keys: seq<Ident>)
    reads nodes`resolved, nodes`aliases
    ensures |keys| == |nodes| && forall i :: 0 <= i < |nodes| ==> keys[i] == nodes[i].SoftKey()
  {
    if nodes == [] then [] else SoftKeys(nodes[..|nodes| - 1]) + [nodes[|nodes| - 1].SoftKey()]
  }

  /** The value of a node. */
  function Snapshot(n: FNode): Node
    reads n, n.dependsOn`resolved, n.installsAfter`resolved, n.installsAfter`aliases
  {
    Node(n.NodeKey(), n.roundPriority, Keys(n.dependsOn), SoftKeys(n.installsAfter))
  }

  ghost function Snapshots(nodes: seq<FNode>): (vs: Nodes)
    reads *
    ensures |vs| == |nodes| && forall i :: 0 <= i < |nodes| ==> vs[i] == Snapshot(nodes[i])
  {
    if nodes == [] then [] else Snapshots(nodes[..|nodes| - 1]) + [Snapshot(nodes[|nodes| - 1])]
  }

  /** The result stands for the outcome. */
  ghost predicate Answers(r: OrderResult, outcome: Outcome) {
    match outcome
    case Ordered(order) =>
      r.InstallSets? && |r.sets| == |order| &&
      forall i :: 0 <= i < |order| ==> order[i].ident.resolved == Some(r.sets[i])
    case EmptyWorklist => r.NoNodes?
    case Unresolved(userId) => r == NotResolved(userId)
    case Circular(remaining) =>
      r.CircularAmong? && |r.userIds| == |remaining| &&
      forall i :: 0 <= i < |remaining| ==> r.userIds[i] == remaining[i].ident.userId
  }

  // Pruning.

  predicate SatisfiesSoftDep(nodes: seq<FNode>, soft: FNode)
    reads nodes`resolved, soft`resolved, soft`aliases
  {
    exists i :: 0 <= i < |nodes| && Satisfies(nodes[i].NodeKey(), soft.SoftKey())
  }

  /** The soft dependencies that some node satisfies, in order. */
  function Pruned(nodes: seq<FNode>, softs: seq<FNode>): seq<FNode>
    reads nodes`resolved, softs`resolved, softs`aliases
  {
    if softs == [] then []
    else
      var last := softs[|softs| - 1];
      var r := Pruned(nodes, softs[..|softs| - 1]);
      if SatisfiesSoftDep(nodes, last) then r + [last] else r
  }

  lemma {:induction false} PrunedElements(nodes: seq<FNode>, softs: seq<FNode>)
    ensures forall s :: s in Pruned(nodes, softs) ==> s in softs && SatisfiesSoftDep(nodes, s)
    ensures forall s :: s in softs && SatisfiesSoftDep(nodes, s) ==> s in Pruned(nodes, softs)
    ensures (forall s :: s in softs ==> SatisfiesSoftDep(nodes, s)) ==> Pruned(nodes, softs) == softs
  {
    hide SatisfiesSoftDep;
    if softs != [] {
      PrunedElements(nodes, softs[..|softs| - 1]);
      assert softs == softs[..|softs| - 1] + [softs[|softs| - 1]];
    }
  }

  /** Pruning again changes nothing. */
  lemma PrunedTwice(nodes: seq<FNode>, softs: seq<FNode>)
    ensures Pruned(nodes, Pruned(nodes, softs)) == Pruned(nodes, softs)
  {
    hide SatisfiesSoftDep, Pruned;
    PrunedElements(nodes, softs);
    PrunedElements(nodes, Pruned(nodes, softs));
  }

  method PruneNode(nodes: seq<FNode>, node: FNode)
    modifies node`installsAfter
    ensures node.installsAfter == Pruned(nodes, old(node.installsAfter))
  {
    hide Satisfies;
    var pruned: seq<FNode> := [];
    for i := 0 to |node.installsAfter|
      invariant pruned == Pruned(nodes, node.installsAfter[..i])
    {
      var soft := node.installsAfter[i];
      assert node.installsAfter[..i + 1][..i] == node.installsAfter[..i];
      if SatisfiesSoftDep(nodes, soft) {
        pruned := pruned + [soft];
      }
    }
    assert node.installsAfter[..|node.installsAfter|] == node.installsAfter;
    node.installsAfter := pruned;
  }

  method PruneSoftDependencies(nodes: seq<FNode>)
    modifies nodes`installsAfter
    ensures forall n :: n in nodes ==> n.installsAfter == Pruned(nodes, old(n.installsAfter))
  {
    hide SatisfiesSoftDep, Pruned;
    for i := 0 to |nodes|
      invariant forall n :: n in nodes ==>
        n.installsAfter == if n in nodes[..i] then Pruned(nodes, old(n.installsAfter)) else old(n.installsAfter)
    {
      var node := nodes[i];
      assert node in nodes && nodes[..i + 1] == nodes[..i] + [node];
      PruneNode(nodes, node);
      PrunedTwice(nodes, old(node.installsAfter));
    }
    assert nodes[..|nodes|] == nodes;
  }

  // Nodes and their values.

  /** `v` is the value of `n` before pruning; pruning leaves the satisfiable soft dependencies. */
  ghost predicate View(all: Nodes, n: FNode, v: Node)
    reads n, n.dependsOn`resolved, n.installsAfter`resolved, n.installsAfter`aliases
  {
    n.NodeKey() == v.ident && n.roundPriority == v.priority && Keys(n.dependsOn) == v.dependsOn &&
    forall soft :: soft in SoftKeys(n.installsAfter) <==> soft in v.installsAfter && HasSatisfying(all, soft)
  }

  ghost predicate Views(all: Nodes, nodes: seq<FNode>, vs: Nodes)
    reads *
  {
    |nodes| == |vs| && forall i :: 0 <= i < |nodes| ==> View(all, nodes[i], vs[i])
  }

  predicate CanInstallNode(node: FNode, installed: seq<FNode>)
    reads node, node.dependsOn`resolved, node.installsAfter`resolved, node.installsAfter`aliases, installed`resolved
  {
    (forall i :: 0 <= i < |node.dependsOn| ==>
       exists j :: 0 <= j < |installed| && NodesEqual(installed[j].NodeKey(), node.dependsOn[i].NodeKey())) &&
    (forall i :: 0 <= i < |node.installsAfter| ==> SatisfiesSoftDep(installed, node.installsAfter[i]))
  }

  lemma EqualViews(all: Nodes, dep: Ident, installed: seq<FNode>, vs: Nodes)
    requires Views(all, installed, vs)
    ensures (exists j :: 0 <= j < |installed| && NodesEqual(installed[j].NodeKey(), dep)) <==> HasEqual(vs, dep)
  {
    hide NodesEqual;
    ViewsFields(all, installed, vs);
  }

  lemma SoftViews(all: Nodes, dep: FNode, installed: seq<FNode>, vs: Nodes)
    requires Views(all, installed, vs)
    ensures SatisfiesSoftDep(installed, dep) <==> HasSatisfying(vs, dep.SoftKey())
  {
    hide Satisfies;
    ViewsFields(all, installed, vs);
  }

  lemma CanInstallView(all: Nodes, node: FNode, v: Node, installed: seq<FNode>, vs: Nodes)
    requires View(all, node, v) && Views(all, installed, vs)
    ensures CanInstallNode(node, installed) <==> CanInstall(all, v, vs)
  {
    hide NodesEqual, Satisfies, Views, SatisfiesSoftDep, HasSatisfying, HasEqual;
    forall i | 0 <= i < |node.dependsOn|
      ensures (exists j :: 0 <= j < |installed| && NodesEqual(installed[j].NodeKey(), node.dependsOn[i].NodeKey())) <==>
              HasEqual(vs, v.dependsOn[i])
    {
      assert v.dependsOn[i] == node.dependsOn[i].NodeKey();
      EqualViews(all, v.dependsOn[i], installed, vs);
    }
    forall i | 0 <= i < |node.installsAfter|
      ensures SatisfiesSoftDep(installed, node.installsAfter[i]) <==> HasSatisfying(vs, SoftKeys(node.installsAfter)[i])
    {
      SoftViews(all, node.installsAfter[i], installed, vs);
    }
  }

  // The loops of a round.

  method ReadyNodes(worklist: seq<FNode>, installed: seq<FNode>, ghost all: Nodes, ghost wv: Nodes, ghost iv: Nodes)
    returns (ready: seq<FNode>)
    requires Views(all, worklist, wv) && Views(all, installed, iv)
    ensures Views(all, ready, Ready(all, wv, iv))
  {
    hide View, CanInstall, CanInstallNode, Filter;
    ready := [];
    for i := 0 to |worklist|
      invariant Views(all, ready, Filter(wv[..i], Installable(all, iv)))
    {
      FilterStep(wv, i, Installable(all, iv));
      CanInstallView(all, worklist[i], wv[i], installed, iv);
      if CanInstallNode(worklist[i], installed) {
        ready := ready + [worklist[i]];
      }
    }
    assert wv[..|worklist|] == wv;
  }

  lemma ViewFields(all: Nodes, n: FNode, v: Node)
    requires View(all, n, v)
    ensures n.NodeKey() == v.ident && n.resolved == v.ident.resolved && n.roundPriority == v.priority
  {
  }

  lemma ViewsFields(all: Nodes, nodes: seq<FNode>, vs: Nodes)
    requires Views(all, nodes, vs)
    ensures |nodes| == |vs|
    ensures forall i :: 0 <= i < |nodes| ==>
              nodes[i].NodeKey() == vs[i].ident && nodes[i].resolved == vs[i].ident.resolved &&
              nodes[i].roundPriority == vs[i].priority
  {
    hide View;
    forall i | 0 <= i < |nodes|
      ensures nodes[i].NodeKey() == vs[i].ident && nodes[i].resolved == vs[i].ident.resolved &&
              nodes[i].roundPriority == vs[i].priority
    {
      ViewFields(all, nodes[i], vs[i]);
    }
  }

  lemma MaxStep(vs: Nodes, i: nat)
    requires i < |vs|
    ensures MaxPriority(vs[..i + 1]) ==
            if vs[i].priority > MaxPriority(vs[..i]) then vs[i].priority else MaxPriority(vs[..i])
  {
    assert vs[..i + 1][..i] == vs[..i];
  }

  lemma FilterStep(vs: Nodes, i: nat, t: Test)
    requires i < |vs|
    ensures Filter(vs[..i + 1], t) == if Passes(vs[i], t) then Filter(vs[..i], t) + [vs[i]] else Filter(vs[..i], t)
  {
    assert vs[..i + 1][..i] == vs[..i];
  }

  method HighestNodes(ready: seq<FNode>, ghost all: Nodes, ghost rv: Nodes) returns (round: seq<FNode>)
    requires Views(all, ready, rv)
    ensures Views(all, round, Highest(rv))
  {
    hide View, Views, MaxPriority, Filter;
    ViewsAt(all, ready, rv);
    var max := 0;
    assert MaxPriority(rv[..0]) == 0 by { EmptyMax(); }
    for i := 0 to |ready|
      invariant max == MaxPriority(rv[..i])
    {
      ViewFields(all, ready[i], rv[i]);
      MaxStep(rv, i);
      if ready[i].roundPriority > max {
        max := ready[i].roundPriority;
      }
    }
    assert rv[..|ready|] == rv;
    if max == 0 { return ready; }
    round := [];
    assert Views(all, round, Filter(rv[..0], OfPriority(max))) by { NothingFiltered(all, OfPriority(max)); }
    for i := 0 to |ready|
      invariant Views(all, round, Filter(rv[..i], OfPriority(max)))
    {
      ViewFields(all, ready[i], rv[i]);
      FilterStep(rv, i, OfPriority(max));
      if ready[i].roundPriority == max {
        ViewsNext(all, round, Filter(rv[..i], OfPriority(max)), ready[i], rv[i]);
        round := round + [ready[i]];
      }
    }
  }

  lemma ViewsAt(all: Nodes, nodes: seq<FNode>, vs: Nodes)
    requires Views(all, nodes, vs)
    ensures |nodes| == |vs| && forall i :: 0 <= i < |nodes| ==> View(all, nodes[i], vs[i])
  {
  }

  lemma ViewsNext(all: Nodes, nodes: seq<FNode>, vs: Nodes, n: FNode, v: Node)
    requires Views(all, nodes, vs) && View(all, n, v)
    ensures Views(all, nodes + [n], vs + [v])
  {
    hide View;
  }

  lemma NothingFiltered(all: Nodes, t: Test)
    ensures Filter([], t) == [] && Views(all, [], [])
  {
  }

  lemma EmptyMax()
    ensures MaxPriority([]) == 0
  {
  }

  /** Whether some node of `round` is the same Feature as `n`. */
  predicate AmongNodes(round: seq<FNode>, n: FNode)
    reads round`resolved, n`resolved
  {
    exists i :: 0 <= i < |round| && NodesEqual(n.NodeKey(), round[i].NodeKey())
  }

  lemma AmongView(all: Nodes, round: seq<FNode>, rv: Nodes, n: FNode, v: Node)
    requires Views(all, round, rv) && View(all, n, v)
    ensures AmongNodes(round, n) <==> HasEqual(rv, v.ident)
  {
    hide NodesEqual;
    forall i | 0 <= i < |round|
      ensures round[i].NodeKey() == rv[i].ident
      ensures NodesEqual(n.NodeKey(), round[i].NodeKey()) <==> NodesEqual(rv[i].ident, v.ident)
    {
      assert View(all, round[i], rv[i]);
      NodesEqualLaws(n.NodeKey(), round[i].NodeKey());
    }
  }

  method RemoveNodes(worklist: seq<FNode>, round: seq<FNode>, ghost all: Nodes, ghost wv: Nodes, ghost rv: Nodes)
    returns (rest: seq<FNode>)
    requires Views(all, worklist, wv) && Views(all, round, rv)
    ensures Views(all, rest, Remove(wv, rv))
  {
    hide View, AmongNodes, HasEqual, Filter;
    rest := [];
    for i := 0 to |worklist|
      invariant Views(all, rest, Filter(wv[..i], NotAmong(rv)))
    {
      FilterStep(wv, i, NotAmong(rv));
      AmongView(all, round, rv, worklist[i], wv[i]);
      if !AmongNodes(round, worklist[i]) {
        rest := rest + [worklist[i]];
      }
    }
    assert wv[..|worklist|] == wv;
  }

  lemma InsertStep(v: Node, sv: Nodes)
    requires AllResolved(sv) && v.ident.resolved.Some?
    ensures if sv == [] then Insert(v, sv) == [v]
            else if Compare(v, sv[|sv| - 1]) < 0 then Insert(v, sv) == Insert(v, sv[..|sv| - 1]) + [sv[|sv| - 1]]
            else Insert(v, sv) == sv + [v]
  {
  }

  /** A node goes after the last one it must not come before. */
  lemma {:induction false} InsertSplices(v: Node, sv: Nodes, j: nat)
    requires j <= |sv| && AllResolved(sv) && v.ident.resolved.Some?
    requires forall i :: j <= i < |sv| ==> Compare(v, sv[i]) < 0
    requires j > 0 ==> Compare(v, sv[j - 1]) >= 0
    ensures Insert(v, sv) == sv[..j] + [v] + sv[j..]
  {
    hide Compare, Insert;
    InsertStep(v, sv);
    if j < |sv| {
      InsertSplices(v, sv[..|sv| - 1], j);
      SpliceLast(v, sv, j);
    }
  }

  lemma SpliceLast(v: Node, sv: Nodes, j: nat)
    requires j < |sv|
    ensures var init := sv[..|sv| - 1];
            init[..j] + [v] + init[j..] + [sv[|sv| - 1]] == sv[..j] + [v] + sv[j..]
  {
  }

  lemma SpliceViews(all: Nodes, nodes: seq<FNode>, vs: Nodes, n: FNode, v: Node, j: nat)
    requires View(all, n, v) && Views(all, nodes, vs) && j <= |nodes|
    ensures Views(all, nodes[..j] + [n] + nodes[j..], vs[..j] + [v] + vs[j..])
  {
    hide View;
    var r, rv := nodes[..j] + [n] + nodes[j..], vs[..j] + [v] + vs[j..];
    forall i | 0 <= i < |r|
      ensures View(all, r[i], rv[i])
    {
      if i < j {
        assert r[i] == nodes[i] && rv[i] == vs[i];
      } else if i > j {
        assert r[i] == nodes[i - 1] && rv[i] == vs[i - 1];
      }
    }
  }

  /** Inserts `n` before the nodes at the end of `sorted` that it must come before. */
  method InsertNode(n: FNode, sorted: seq<FNode>, ghost all: Nodes, ghost v: Node, ghost sv: Nodes)
    returns (r: seq<FNode>)
    requires View(all, n, v) && Views(all, sorted, sv) && AllResolved(sv) && v.ident.resolved.Some?
    ensures Views(all, r, Insert(v, sv))
  {
    hide View, CompareNodes, Insert, Views;
    ViewFields(all, n, v);
    ViewsFields(all, sorted, sv);
    var j := |sorted|;
    while j > 0 && CompareNodes(n.NodeKey(), sorted[j - 1].NodeKey()) < 0
      invariant 0 <= j <= |sorted|
      invariant forall i :: j <= i < |sv| ==> Compare(v, sv[i]) < 0
    {
      j := j - 1;
    }
    InsertSplices(v, sv, j);
    r := sorted[..j] + [n] + sorted[j..];
    SpliceViews(all, sorted, sv, n, v, j);
  }

  method SortNodes(round: seq<FNode>, ghost all: Nodes, ghost rv: Nodes) returns (sorted: seq<FNode>)
    requires Views(all, round, rv) && AllResolved(rv)
    ensures Views(all, sorted, StableSort(rv))
  {
    hide View, Insert;
    sorted := [];
    for i := 0 to |round|
      invariant Views(all, sorted, StableSort(rv[..i]))
    {
      assert rv[..i + 1][..i] == rv[..i];
      sorted := InsertNode(round[i], sorted, all, rv[i], StableSort(rv[..i]));
    }
    assert rv[..|round|] == rv;
  }

  // The whole order.

  lemma SatisfyingView(all: Nodes, nodes: seq<FNode>, softs: seq<FNode>)
    requires |all| == |nodes| && forall i :: 0 <= i < |nodes| ==> all[i].ident == nodes[i].NodeKey()
    ensures forall s :: s in softs ==> (SatisfiesSoftDep(nodes, s) <==> HasSatisfying(all, s.SoftKey()))
  {
    hide Satisfies;
  }

  lemma SoftKeysMember(softs: seq<FNode>, s: FNode)
    requires s in softs
    ensures s.SoftKey() in SoftKeys(softs)
  {
    var i :| 0 <= i < |softs| && softs[i] == s;
    assert SoftKeys(softs)[i] == s.SoftKey();
  }

  lemma PrunedKeys(all: Nodes, nodes: seq<FNode>, softs: seq<FNode>, soft: Ident)
    requires |all| == |nodes| && forall i :: 0 <= i < |nodes| ==> all[i].ident == nodes[i].NodeKey()
    ensures soft in SoftKeys(Pruned(nodes, softs)) <==> soft in SoftKeys(softs) && HasSatisfying(all, soft)
  {
    hide Satisfies, SatisfiesSoftDep, HasSatisfying, Pruned, SoftKeys;
    SatisfyingView(all, nodes, softs);
    PrunedElements(nodes, softs);
    var pruned := Pruned(nodes, softs);
    if soft in SoftKeys(pruned) {
      var i :| 0 <= i < |pruned| && soft == SoftKeys(pruned)[i];
      assert pruned[i] in softs;
      SoftKeysMember(softs, pruned[i]);
    }
    if soft in SoftKeys(softs) && HasSatisfying(all, soft) {
      var j :| 0 <= j < |softs| && soft == SoftKeys(softs)[j];
      assert softs[j] in softs;
      SoftKeysMember(pruned, softs[j]);
    }
  }

  /** Pruning turns the values from before it into views. */
  lemma PrunedView(all: Nodes, nodes: seq<FNode>, n: FNode, v: Node, softs: seq<FNode>)
    requires |all| == |nodes| && forall i :: 0 <= i < |nodes| ==> all[i].ident == nodes[i].NodeKey()
    requires n.installsAfter == Pruned(nodes, softs)
    requires v.ident == n.NodeKey() && v.priority == n.roundPriority
    requires v.dependsOn == Keys(n.dependsOn) && v.installsAfter == SoftKeys(softs)
    ensures View(all, n, v)
  {
    hide Pruned, HasSatisfying, Keys, SoftKeys;
    forall soft
      ensures soft in SoftKeys(n.installsAfter) <==> soft in v.installsAfter && HasSatisfying(all, soft)
    {
      PrunedKeys(all, nodes, softs, soft);
    }
  }

  /** The rounds, on nodes whose soft dependencies are pruned. */
  method InstallRounds(nodes: seq<FNode>, ghost all: Nodes) returns (result: OrderResult)
    requires Views(all, nodes, all) && AllResolved(all)
    ensures Answers(result, Install(all, all, []))
  {
    hide View, RoundOf, Remove, StableSort, Ready, Highest, Install, Answers;
    var worklist, installed: seq<FNode> := nodes, [];
    ghost var wv, iv: Nodes := all, [];
    while worklist != []
      invariant Views(all, worklist, wv) && Views(all, installed, iv) && AllResolved(wv) && AllResolved(iv)
      invariant Install(all, wv, iv) == Install(all, all, [])
      decreases |worklist|
    {
      ghost var rv := RoundOf(all, wv, iv);
      InstallStep(all, wv, iv);
      var ready := ReadyNodes(worklist, installed, all, wv, iv);
      var round := HighestNodes(ready, all, Ready(all, wv, iv));
      if round == [] {
        result := CircularAmong(UserIds(worklist));
        CircularAnswers(all, worklist, wv);
        return;
      }
      worklist := RemoveNodes(worklist, round, all, wv, rv);
      var sorted := SortNodes(round, all, rv);
      installed := installed + sorted;
      wv, iv := Remove(wv, rv), iv + StableSort(rv);
    }
    var sets := SetsOf(installed, all, iv);
    result := InstallSets(sets);
    InstallStep(all, wv, iv);
    OrderedAnswers(sets, iv);
  }

  lemma OrderedAnswers(sets: seq<FeatureSet>, order: Nodes)
    requires |sets| == |order| && forall i :: 0 <= i < |order| ==> order[i].ident.resolved == Some(sets[i])
    ensures Answers(InstallSets(sets), Ordered(order))
  {
  }

  method SetsOf(nodes: seq<FNode>, ghost all: Nodes, ghost vs: Nodes) returns (sets: seq<FeatureSet>)
    requires Views(all, nodes, vs) && AllResolved(vs)
    ensures |sets| == |vs| && forall i :: 0 <= i < |vs| ==> vs[i].ident.resolved == Some(sets[i])
  {
    hide Views;
    ViewsFields(all, nodes, vs);
    sets := [];
    for i := 0 to |nodes|
      invariant |sets| == i && forall j :: 0 <= j < i ==> vs[j].ident.resolved == Some(sets[j])
    {
      sets := sets + [nodes[i].resolved.value];
    }
  }

  lemma InstallStep(all: Nodes, worklist: Nodes, installed: Nodes)
    requires AllResolved(worklist)
    ensures var round := RoundOf(all, worklist, installed);
            round == Highest(Ready(all, worklist, installed)) && AllResolved(round) &&
            AllResolved(Remove(worklist, round)) && (round != [] ==> |Remove(worklist, round)| < |worklist|) &&
            Install(all, worklist, installed) ==
            if worklist == [] then Ordered(installed) else if round == [] then Circular(worklist)
            else Install(all, Remove(worklist, round), installed + StableSort(round))
  {
    RoundProgress(all, worklist, installed);
  }

  function UserIds(nodes: seq<FNode>): (ids: seq<string>)
    ensures |ids| == |nodes| && forall i :: 0 <= i < |nodes| ==> ids[i] == nodes[i].userId
  {
    seq(|nodes|, i requires 0 <= i < |nodes| => nodes[i].userId)
  }

  lemma CircularAnswers(all: Nodes, nodes: seq<FNode>, vs: Nodes)
    requires Views(all, nodes, vs)
    ensures Answers(CircularAmong(UserIds(nodes)), Circular(vs))
  {
    ViewsFields(all, nodes, vs);
  }

  /**
   Computes the installation order. It prunes the soft dependencies of the
   nodes in place and answers with the outcome of `InstallOrder`.
   */
  method ComputeInstallationOrder(nodes: seq<FNode>) returns (result: OrderResult)
    modifies nodes`installsAfter
    ensures Answers(result, InstallationOrder(old(Snapshots(nodes))))
    ensures result.InstallSets? || result.CircularAmong? ==>
              forall n :: n in nodes ==> n.installsAfter == Pruned(nodes, old(n.installsAfter))
  {
    hide NodesEqual, Satisfies, Pruned, Install, Snapshot, View, FirstUnresolved;
    if |nodes| == 0 { return NoNodes; }
    ghost var all := Snapshots(nodes);
    var i := FindUnresolved(nodes, all);
    if i < |nodes| {
      return NotResolved(nodes[i].userId);
    }
    PruneNodes(nodes, all);
    result := InstallRounds(nodes, all);
    InstallOutcomes(all, all, []);
  }

  method FindUnresolved(nodes: seq<FNode>, ghost all: Nodes) returns (i: nat)
    requires |all| == |nodes| && forall i :: 0 <= i < |nodes| ==> all[i] == Snapshot(nodes[i])
    ensures i == FirstUnresolved(all) && i <= |nodes| && (i < |nodes| ==> nodes[i].userId == all[i].ident.userId)
  {
    i := 0;
    while i < |nodes| && nodes[i].resolved.Some?
      invariant 0 <= i <= |nodes|
      invariant forall j :: 0 <= j < i ==> all[j].ident.resolved.Some?
    {
      i := i + 1;
    }
    if i < |nodes| {
      assert all[i] in all && !AllResolved(all);
    } else {
      assert forall n :: n in all ==> n.ident.resolved.Some?;
    }
  }

  method PruneNodes(nodes: seq<FNode>, ghost all: Nodes)
    requires |all| == |nodes| && forall i :: 0 <= i < |nodes| ==> all[i] == Snapshot(nodes[i])
    modifies nodes`installsAfter
    ensures Views(all, nodes, all)
    ensures forall n :: n in nodes ==> n.installsAfter == Pruned(nodes, old(n.installsAfter))
  {
    hide View, Pruned, Keys, SoftKeys;
    PruneSoftDependencies(nodes);
    forall i | 0 <= i < |nodes|
      ensures all[i].ident == nodes[i].NodeKey() && all[i].priority == nodes[i].roundPriority
      ensures all[i].dependsOn == Keys(nodes[i].dependsOn)
      ensures all[i].installsAfter == SoftKeys(old(nodes[i].installsAfter))
    {
      assert nodes[i] in nodes;
      assert Keys(nodes[i].dependsOn) == old(Keys(nodes[i].dependsOn));
      assert SoftKeys(old(nodes[i].installsAfter)) == old(SoftKeys(nodes[i].installsAfter));
    }
    PrunedViews(all, nodes, seq(|nodes|, i requires 0 <= i < |nodes| => old(nodes[i].installsAfter)));
  }

  lemma PrunedViews(all: Nodes, nodes: seq<FNode>, softs: seq<seq<FNode>>)
    requires |all| == |nodes| == |softs|
    requires forall i :: 0 <= i < |nodes| ==>
               all[i].ident == nodes[i].NodeKey() && all[i].priority == nodes[i].roundPriority &&
               all[i].dependsOn == Keys(nodes[i].dependsOn) && all[i].installsAfter == SoftKeys(softs[i]) &&
               nodes[i].installsAfter == Pruned(nodes, softs[i])
    ensures Views(all, nodes, all)
  {
    hide View, Pruned, Keys, SoftKeys;
    forall i | 0 <= i < |nodes|
      ensures View(all, nodes[i], all[i])
    {
      PrunedView(all, nodes, nodes[i], all[i], softs[i]);
    }
  }

  // Building and ordering.

  /** The values of a built graph's nodes are those of its references. */
  lemma GraphSnapshots(process: ProcessFeature, nodes: seq<FNode>, refs: seq<Reference>, priorities: seq<int>)
    requires Represents(process, nodes, refs) && |priorities| == |refs|
    requires forall i :: 0 <= i < |refs| ==> nodes[i].roundPriority == priorities[i]
    ensures Snapshots(nodes) == NodesOf(process, refs, priorities)
  {
    hide Represents, Snapshot, NodeOf;
    RepresentedSize(process, nodes, refs);
    forall i | 0 <= i < |refs|
      ensures Snapshot(nodes[i]) == NodeOf(process, refs[i], priorities[i])
    {
      NodeSnapshot(process, nodes, refs, i, priorities[i]);
    }
  }

  lemma RepresentedSize(process: ProcessFeature, nodes: seq<FNode>, refs: seq<Reference>)
    requires Represents(process, nodes, refs)
    ensures |nodes| == |refs|
  {
  }

  lemma NodeSnapshot(process: ProcessFeature, nodes: seq<FNode>, refs: seq<Reference>, i: nat, priority: int)
    requires Represents(process, nodes, refs) && i < |refs| && nodes[i].roundPriority == priority
    ensures Snapshot(nodes[i]) == NodeOf(process, refs[i], priority)
  {
    var n := nodes[i];
    assert n in nodes && n.Ref() == refs[i];
    KeyOfProcessed(process, n);
    var node := NodeOf(process, refs[i], priority);
    forall j | 0 <= j < |n.dependsOn|
      ensures n.dependsOn[j].NodeKey() == Key(process, DependenciesOf(process, refs[i])[j])
    {
      assert n.dependsOn[j] in n.dependsOn;
      assert Refs(n.dependsOn)[j] == n.dependsOn[j].Ref();
      KeyOfProcessed(process, n.dependsOn[j]);
    }
    assert Keys(n.dependsOn) == node.dependsOn;
    assert SoftKeys(n.installsAfter) == node.installsAfter;
  }

  datatype Resolution = Resolution(order: OrderResult) | NotBuilt(error: GraphError)

  /** Builds the graph of the user's Features and orders it, as `features resolve-dependencies` and an install do. */
  method ResolveDependencies(
    process: ProcessFeature, userFeatures: seq<Reference>, overrides: seq<string>, ghost universe: set<Reference>)
    returns (result: Resolution)
    requires Closed(process, universe) && Within(userFeatures, universe)
    ensures var plan := PlanOf(process, userFeatures, overrides, universe);
            if plan.NotPlanned? then result == NotBuilt(plan.error)
            else result.Resolution? && Answers(result.order, plan.outcome)
  {
    hide Answers, Represents, InstallationOrder, NodesOf, Build, Closed;
    var built := BuildDependencyGraph(process, userFeatures, overrides, universe);
    if built.BuildFailure? { return NotBuilt(built.error); }
    assert forall i :: 0 <= i < |built.nodes| ==> built.nodes[i] in built.nodes;
    ghost var refs := Build(process, userFeatures, [], universe).nodes;
    RepresentedSize(process, built.nodes, refs);
    GraphSnapshots(process, built.nodes, refs, Priorities(process, refs, overrides));
    var order := ComputeInstallationOrder(built.nodes);
    result := Resolution(order);
  }
}
