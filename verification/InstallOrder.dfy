/**
 The installation order of Features, as a function of the graph
 (internal/features/order.go:46-108), and what it guarantees.

 Nodes are taken in rounds. A round holds the nodes whose dependencies are
 installed, cut down to those of the greatest priority.
 */
module InstallOrder {
  import opened FeatureNodes
  import opened Wrappers

  /** A node, with the nodes its hard and soft dependencies name. */
  datatype Node = Node(ident: Ident, priority: int, dependsOn: seq<Ident>, installsAfter: seq<Ident>)

  type Nodes = seq<Node>

  datatype Outcome = Ordered(order: Nodes) | EmptyWorklist | Unresolved(userId: string) | Circular(remaining: Nodes)

  // Dependencies.

  predicate HasEqual(nodes: Nodes, dep: Ident) { exists n :: n in nodes && NodesEqual(n.ident, dep) }

  predicate HasSatisfying(nodes: Nodes, soft: Ident) { exists n :: n in nodes && Satisfies(n.ident, soft) }

  /** The hard dependencies are installed, and so are the soft ones that some node of `all` satisfies. */
  predicate CanInstall(all: Nodes, node: Node, installed: Nodes) {
    (forall dep :: dep in node.dependsOn ==> HasEqual(installed, dep)) &&
    (forall soft :: soft in node.installsAfter && HasSatisfying(all, soft) ==> HasSatisfying(installed, soft))
  }

  predicate AllResolved(nodes: Nodes) { forall n :: n in nodes ==> n.ident.resolved.Some? }

  /** No two of the nodes are the same Feature. */
  predicate Distinct(nodes: Nodes) {
    forall i, j :: 0 <= i < j < |nodes| ==> !NodesEqual(nodes[i].ident, nodes[j].ident)
  }

  // Filtering.

  /** The tests the rounds filter nodes by. */
  datatype Test = Installable(all: Nodes, installed: Nodes) | OfPriority(p: int) | NotAmong(removed: Nodes)

  predicate Passes(n: Node, t: Test) {
    match t
    case Installable(all, installed) => CanInstall(all, n, installed)
    case OfPriority(p) => n.priority == p
    case NotAmong(removed) => !HasEqual(removed, n.ident)
  }

  function Filter(s: Nodes, t: Test): (r: Nodes)
    ensures forall n :: n in r <==> n in s && Passes(n, t)
    ensures |r| <= |s| && (r != s ==> |r| < |s|)
    ensures r == s <==> forall n :: n in s ==> Passes(n, t)
  {
    if s == [] then []
    else
      var r := Filter(s[..|s| - 1], t);
      assert s == s[..|s| - 1] + [s[|s| - 1]];
      if Passes(s[|s| - 1], t) then r + [s[|s| - 1]] else r
  }

  // Rounds.

  function MaxPriority(nodes: Nodes): (m: int)
    ensures m >= 0 && forall n :: n in nodes ==> n.priority <= m
    ensures m == 0 || exists n :: n in nodes && n.priority == m
  {
    if nodes == [] then 0
    else
      var m := MaxPriority(nodes[..|nodes| - 1]);
      var last := nodes[|nodes| - 1];
      assert nodes == nodes[..|nodes| - 1] + [last];
      if last.priority > m then last.priority else m
  }

  function Ready(all: Nodes, worklist: Nodes, installed: Nodes): Nodes {
    Filter(worklist, Installable(all, installed))
  }

  function Highest(ready: Nodes): Nodes {
    var m := MaxPriority(ready);
    if m > 0 then Filter(ready, OfPriority(m)) else ready
  }

  function RoundOf(all: Nodes, worklist: Nodes, installed: Nodes): Nodes {
    Highest(Ready(all, worklist, installed))
  }

  function Remove(worklist: Nodes, round: Nodes): Nodes {
    Filter(worklist, NotAmong(round))
  }

  // A stable sort by `CompareNodes`.

  function Compare(a: Node, b: Node): int
    requires a.ident.resolved.Some? && b.ident.resolved.Some?
  {
    CompareNodes(a.ident, b.ident)
  }

  function Insert(n: Node, s: Nodes): (r: Nodes)
    requires AllResolved(s) && n.ident.resolved.Some?
    ensures multiset(r) == multiset(s) + multiset{n}
    ensures AllResolved(r)
  {
    if s == [] then [n]
    else
      var last := s[|s| - 1];
      assert s == s[..|s| - 1] + [last];
      if Compare(n, last) < 0 then
        var r := Insert(n, s[..|s| - 1]) + [last];
        assert forall x :: x in r ==> x in multiset(r);
        r
      else s + [n]
  }

  function StableSort(s: Nodes): (r: Nodes)
    requires AllResolved(s)
    ensures multiset(r) == multiset(s) && AllResolved(r)
  {
    if s == [] then []
    else
      assert s == s[..|s| - 1] + [s[|s| - 1]];
      Insert(s[|s| - 1], StableSort(s[..|s| - 1]))
  }

  lemma SameElements(a: Nodes, b: Nodes)
    requires multiset(a) == multiset(b)
    ensures |a| == |b| && forall n :: n in a <==> n in b
  {
    assert |a| == |multiset(a)| == |b|;
    assert forall n :: (n in a <==> n in multiset(a)) && (n in b <==> n in multiset(b));
  }

  lemma RoundProgress(all: Nodes, worklist: Nodes, installed: Nodes)
    requires AllResolved(worklist)
    ensures AllResolved(RoundOf(all, worklist, installed))
    ensures AllResolved(Remove(worklist, RoundOf(all, worklist, installed)))
    ensures RoundOf(all, worklist, installed) != [] ==>
              |Remove(worklist, RoundOf(all, worklist, installed))| < |worklist|
  {
    var round := RoundOf(all, worklist, installed);
    if round != [] {
      NodesEqualLaws(round[0].ident, round[0].ident);
      assert round[0] in worklist && HasEqual(round, round[0].ident);
      assert Remove(worklist, round) != worklist;
    }
  }

  /** The rounds that install `worklist` on top of `installed`. */
  function Rounds(all: Nodes, worklist: Nodes, installed: Nodes): seq<Nodes>
    requires AllResolved(worklist)
    decreases |worklist|
  {
    var round := RoundOf(all, worklist, installed);
    if round == [] then []
    else
      RoundProgress(all, worklist, installed);
      [StableSort(round)] + Rounds(all, Remove(worklist, round), installed + StableSort(round))
  }

  function Install(all: Nodes, worklist: Nodes, installed: Nodes): Outcome
    requires AllResolved(worklist)
    decreases |worklist|
  {
    if worklist == [] then Ordered(installed)
    else
      var round := RoundOf(all, worklist, installed);
      if round == [] then Circular(worklist)
      else
        RoundProgress(all, worklist, installed);
        Install(all, Remove(worklist, round), installed + StableSort(round))
  }

  function FirstUnresolved(nodes: Nodes): (i: nat)
    ensures i <= |nodes| && (i == |nodes| <==> AllResolved(nodes))
    ensures i < |nodes| ==> nodes[i].ident.resolved.None?
    ensures forall j :: 0 <= j < i ==> nodes[j].ident.resolved.Some?
  {
    if nodes == [] then 0
    else
      var i := FirstUnresolved(nodes[..|nodes| - 1]);
      assert nodes == nodes[..|nodes| - 1] + [nodes[|nodes| - 1]];
      if i == |nodes| - 1 && nodes[i].ident.resolved.Some? then |nodes| else i
  }

  function InstallationOrder(nodes: Nodes): Outcome {
    if nodes == [] then EmptyWorklist
    else if !AllResolved(nodes) then Unresolved(nodes[FirstUnresolved(nodes)].ident.userId)
    else Install(nodes, nodes, [])
  }

  // What the order guarantees.

  /** Every node can be installed after the nodes before it. */
  predicate Admissible(all: Nodes, order: Nodes) {
    forall k :: 0 <= k < |order| ==> CanInstall(all, order[k], order[..k])
  }

  /** An order of all the nodes that respects every dependency. */
  predicate Respects(nodes: Nodes, order: Nodes) {
    multiset(order) == multiset(nodes) && Admissible(nodes, order)
  }

  /** A node of the order is the same Feature as `dep`. */
  predicate ComesBefore(order: Nodes, k: nat, dep: Ident) {
    exists j :: 0 <= j < k && j < |order| && NodesEqual(order[j].ident, dep)
  }

  predicate SatisfiedBefore(order: Nodes, k: nat, soft: Ident) {
    exists j :: 0 <= j < k && j < |order| && Satisfies(order[j].ident, soft)
  }

  /**
   What an order respects: every node comes after the same Feature as each of
   its hard dependencies, and after one that satisfies each of its soft
   dependencies that any node satisfies.
   */
  lemma RespectsIff(nodes: Nodes, order: Nodes)
    ensures Respects(nodes, order) <==>
            multiset(order) == multiset(nodes) &&
            forall k :: 0 <= k < |order| ==>
              (forall dep :: dep in order[k].dependsOn ==> ComesBefore(order, k, dep)) &&
              (forall soft :: soft in order[k].installsAfter ==>
                 SatisfiedBefore(order, k, soft) || forall n :: n in nodes ==> !Satisfies(n.ident, soft))
  {
    hide NodesEqual, Satisfies;
    forall k, dep | 0 <= k < |order|
      ensures HasEqual(order[..k], dep) <==> ComesBefore(order, k, dep)
      ensures HasSatisfying(order[..k], dep) <==> SatisfiedBefore(order, k, dep)
    {
      PrefixDependencies(order, k, dep);
    }
  }

  lemma PrefixDependencies(order: Nodes, k: nat, dep: Ident)
    requires k < |order|
    ensures HasEqual(order[..k], dep) <==> ComesBefore(order, k, dep)
    ensures HasSatisfying(order[..k], dep) <==> SatisfiedBefore(order, k, dep)
  {
    hide NodesEqual, Satisfies;
    assert forall j :: 0 <= j < k ==> order[..k][j] == order[j] && order[j] in order[..k];
  }

  lemma CanInstallMonotone(all: Nodes, n: Node, installed: Nodes, more: Nodes)
    requires CanInstall(all, n, installed) && forall x :: x in installed ==> x in more
    ensures CanInstall(all, n, more)
  {
  }

  lemma {:induction false} FilterCounts(s: Nodes, t: Test, n: Node)
    ensures multiset(Filter(s, t))[n] == if Passes(n, t) then multiset(s)[n] else 0
  {
    hide Passes;
    if s != [] {
      assert s == s[..|s| - 1] + [s[|s| - 1]];
      FilterCounts(s[..|s| - 1], t, n);
    }
  }

  /** The round takes every copy of a node or none. */
  lemma RoundCounts(all: Nodes, worklist: Nodes, installed: Nodes, n: Node)
    ensures var round := RoundOf(all, worklist, installed);
            multiset(round)[n] == if n in round then multiset(worklist)[n] else 0
  {
    var ready := Ready(all, worklist, installed);
    FilterCounts(worklist, Installable(all, installed), n);
    FilterCounts(ready, OfPriority(MaxPriority(ready)), n);
    assert n in ready <==> n in multiset(ready);
    assert n in worklist <==> n in multiset(worklist);
  }

  /** A round holds nodes of the worklist that can be installed. */
  lemma RoundElements(all: Nodes, worklist: Nodes, installed: Nodes)
    ensures forall n :: n in RoundOf(all, worklist, installed) ==> n in worklist && CanInstall(all, n, installed)
  {
    hide CanInstall;
  }

  /** Two of the nodes that are the same Feature are the same node. */
  predicate Separate(nodes: Nodes) {
    forall a, b :: a in nodes && b in nodes && NodesEqual(a.ident, b.ident) ==> a == b
  }

  lemma DistinctIsSeparate(nodes: Nodes)
    requires Distinct(nodes)
    ensures Separate(nodes)
  {
    forall a, b | a in nodes && b in nodes && NodesEqual(a.ident, b.ident)
      ensures a == b
    {
      var i :| 0 <= i < |nodes| && nodes[i] == a;
      var j :| 0 <= j < |nodes| && nodes[j] == b;
      NodesEqualLaws(a.ident, b.ident);
    }
  }

  /** Removing the round by sameness removes the round and nothing else. */
  lemma RemoveTakesTheRound(all: Nodes, worklist: Nodes, installed: Nodes)
    requires AllResolved(worklist) && Separate(worklist)
    ensures var round := RoundOf(all, worklist, installed);
            multiset(worklist) == multiset(Remove(worklist, round)) + multiset(round)
  {
    hide RoundOf, NodesEqual, CanInstall, Filter;
    var round := RoundOf(all, worklist, installed);
    RoundElements(all, worklist, installed);
    forall n
      ensures multiset(worklist)[n] == multiset(Remove(worklist, round))[n] + multiset(round)[n]
    {
      RoundCounts(all, worklist, installed, n);
      FilterCounts(worklist, NotAmong(round), n);
      NodesEqualLaws(n.ident, n.ident);
      assert n in worklist <==> n in multiset(worklist);
    }
  }

  /** Of `all`, some are installed in an admissible order and the rest wait. */
  predicate Progress(all: Nodes, worklist: Nodes, installed: Nodes) {
    AllResolved(all) && Separate(all) && multiset(all) == multiset(worklist) + multiset(installed) &&
    Admissible(all, installed)
  }

  lemma SplitElements(all: Nodes, worklist: Nodes, installed: Nodes)
    requires multiset(all) == multiset(worklist) + multiset(installed)
    ensures forall n :: n in all <==> n in worklist || n in installed
  {
    assert forall n :: n in all <==> n in multiset(all);
    assert forall n :: n in worklist <==> n in multiset(worklist);
    assert forall n :: n in installed <==> n in multiset(installed);
  }

  /** Installing a round keeps the progress. */
  lemma RoundKeepsProgress(all: Nodes, worklist: Nodes, installed: Nodes)
    requires Progress(all, worklist, installed)
    ensures AllResolved(worklist) && AllResolved(RoundOf(all, worklist, installed))
    ensures var round := RoundOf(all, worklist, installed);
            Progress(all, Remove(worklist, round), installed + StableSort(round))
  {
    hide RoundOf, Remove, StableSort, CanInstall, Filter, NodesEqual;
    SplitElements(all, worklist, installed);
    RoundProgress(all, worklist, installed);
    RemoveTakesTheRound(all, worklist, installed);
    RoundElements(all, worklist, installed);
    var round := RoundOf(all, worklist, installed);
    var sorted := StableSort(round);
    SameElements(round, sorted);
    var order := installed + sorted;
    forall k | 0 <= k < |order|
      ensures CanInstall(all, order[k], order[..k])
    {
      if k < |installed| {
        assert order[..k] == installed[..k];
      } else {
        assert sorted[k - |installed|] in round;
        assert order[..k] == installed + sorted[..k - |installed|];
        CanInstallMonotone(all, order[k], installed, order[..k]);
      }
    }
  }

  lemma {:induction false} InstallRespects(all: Nodes, worklist: Nodes, installed: Nodes)
    requires Progress(all, worklist, installed) && AllResolved(worklist)
    ensures Install(all, worklist, installed).Ordered? ==> Respects(all, Install(all, worklist, installed).order)
    decreases |worklist|
  {
    var round := RoundOf(all, worklist, installed);
    if worklist != [] && round != [] {
      RoundKeepsProgress(all, worklist, installed);
      RoundProgress(all, worklist, installed);
      InstallRespects(all, Remove(worklist, round), installed + StableSort(round));
    }
  }

  /** While nodes wait and some order respects the dependencies, the round is not empty. */
  lemma RoundExists(all: Nodes, worklist: Nodes, installed: Nodes, order: Nodes)
    requires Progress(all, worklist, installed) && worklist != [] && Respects(all, order)
    ensures RoundOf(all, worklist, installed) != []
  {
    hide NodesEqual, Satisfies, CanInstall, Filter;
    SplitElements(all, worklist, installed);
    SameElements(all, order);
    var k := 0;
    assert worklist[0] in order;
    while order[k] !in worklist
      invariant 0 <= k < |order|
      invariant forall j :: 0 <= j < k ==> order[j] !in worklist
      invariant exists j :: k <= j < |order| && order[j] in worklist
      decreases |order| - k
    {
      k := k + 1;
    }
    assert forall x :: x in order[..k] ==> x in installed;
    CanInstallMonotone(all, order[k], order[..k], installed);
    var ready := Ready(all, worklist, installed);
    assert order[k] in ready;
    if MaxPriority(ready) > 0 {
      var n :| n in ready && n.priority == MaxPriority(ready);
      assert n in RoundOf(all, worklist, installed);
    }
  }

  lemma {:induction false} InstallFinishes(all: Nodes, worklist: Nodes, installed: Nodes, order: Nodes)
    requires Progress(all, worklist, installed) && AllResolved(worklist) && Respects(all, order)
    ensures Install(all, worklist, installed).Ordered?
    decreases |worklist|
  {
    if worklist != [] {
      RoundExists(all, worklist, installed, order);
      RoundKeepsProgress(all, worklist, installed);
      RoundProgress(all, worklist, installed);
      var round := RoundOf(all, worklist, installed);
      InstallFinishes(all, Remove(worklist, round), installed + StableSort(round), order);
    }
  }

  /**
   On nodes that are different Features, an order is returned exactly when some
   order of all the nodes respects the dependencies, and it is one of those.
   */
  lemma OrderIffPossible(nodes: Nodes)
    requires nodes != [] && AllResolved(nodes) && Distinct(nodes)
    ensures InstallationOrder(nodes).Ordered? <==> exists order :: Respects(nodes, order)
    ensures InstallationOrder(nodes).Ordered? ==> Respects(nodes, InstallationOrder(nodes).order)
  {
    DistinctIsSeparate(nodes);
    InstallRespects(nodes, nodes, []);
    if order :| Respects(nodes, order) {
      InstallFinishes(nodes, nodes, [], order);
    }
  }

  // What each round holds.

  /** A round is exactly the installable nodes of greatest priority. */
  lemma RoundIsHighest(all: Nodes, worklist: Nodes, installed: Nodes, n: Node)
    requires forall m :: m in worklist ==> m.priority >= 0
    ensures n in RoundOf(all, worklist, installed) <==>
              n in worklist && CanInstall(all, n, installed) &&
              forall m :: m in worklist && CanInstall(all, m, installed) ==> m.priority <= n.priority
  {
    hide CanInstall;
    var ready := Ready(all, worklist, installed);
    var top := MaxPriority(ready);
    assert n in ready && n.priority < top ==> exists m :: m in ready && m.priority == top;
  }

  // The order of the input does not matter.

  lemma CanInstallPermuted(all: Nodes, installed: Nodes, all': Nodes, installed': Nodes, n: Node)
    requires multiset(all) == multiset(all') && multiset(installed) == multiset(installed')
    ensures CanInstall(all, n, installed) <==> CanInstall(all', n, installed')
  {
    hide NodesEqual, Satisfies;
    SameElements(all, all');
    SameElements(installed, installed');
  }

  predicate SameTest(t: Test, t': Test) {
    match t
    case Installable(all, installed) =>
      t'.Installable? && multiset(all) == multiset(t'.all) && multiset(installed) == multiset(t'.installed)
    case OfPriority(p) => t' == t
    case NotAmong(removed) => t'.NotAmong? && multiset(removed) == multiset(t'.removed)
  }

  lemma FilterPermuted(s: Nodes, t: Test, s': Nodes, t': Test)
    requires multiset(s) == multiset(s') && SameTest(t, t')
    ensures multiset(Filter(s, t)) == multiset(Filter(s', t'))
  {
    hide CanInstall, Filter;
    forall n
      ensures multiset(Filter(s, t))[n] == multiset(Filter(s', t'))[n]
    {
      FilterCounts(s, t, n);
      FilterCounts(s', t', n);
      if t.Installable? {
        CanInstallPermuted(t.all, t.installed, t'.all, t'.installed, n);
      } else if t.NotAmong? {
        SameElements(t.removed, t'.removed);
      }
    }
  }

  lemma RoundPermuted(all: Nodes, worklist: Nodes, installed: Nodes, all': Nodes, worklist': Nodes, installed': Nodes)
    requires multiset(all) == multiset(all') && multiset(worklist) == multiset(worklist')
    requires multiset(installed) == multiset(installed')
    ensures var round, round' := RoundOf(all, worklist, installed), RoundOf(all', worklist', installed');
            multiset(round) == multiset(round') &&
            multiset(Remove(worklist, round)) == multiset(Remove(worklist', round'))
  {
    hide CanInstall, Filter;
    var ready, ready' := Ready(all, worklist, installed), Ready(all', worklist', installed');
    FilterPermuted(worklist, Installable(all, installed), worklist', Installable(all', installed'));
    SameElements(ready, ready');
    assert MaxPriority(ready) == MaxPriority(ready');
    var top := MaxPriority(ready);
    FilterPermuted(ready, OfPriority(top), ready', OfPriority(top));
    var round, round' := RoundOf(all, worklist, installed), RoundOf(all', worklist', installed');
    FilterPermuted(worklist, NotAmong(round), worklist', NotAmong(round'));
  }

  /** The same rounds, each as a bag of nodes. */
  predicate SameRounds(a: seq<Nodes>, b: seq<Nodes>) {
    |a| == |b| && forall k :: 0 <= k < |a| ==> multiset(a[k]) == multiset(b[k])
  }

  predicate SameOutcome(a: Outcome, b: Outcome) {
    match a
    case Ordered(order) => b.Ordered? && multiset(order) == multiset(b.order)
    case EmptyWorklist => b.EmptyWorklist?
    case Unresolved(_) => b.Unresolved?
    case Circular(remaining) => b.Circular? && multiset(remaining) == multiset(b.remaining)
  }

  lemma {:induction false} InstallPermuted(
    all: Nodes, worklist: Nodes, installed: Nodes, all': Nodes, worklist': Nodes, installed': Nodes)
    requires multiset(all) == multiset(all') && multiset(worklist) == multiset(worklist')
    requires multiset(installed) == multiset(installed') && AllResolved(worklist) && AllResolved(worklist')
    ensures SameRounds(Rounds(all, worklist, installed), Rounds(all', worklist', installed'))
    ensures SameOutcome(Install(all, worklist, installed), Install(all', worklist', installed'))
    decreases |worklist|
  {
    hide RoundOf, Remove, StableSort;
    SameElements(worklist, worklist');
    RoundPermuted(all, worklist, installed, all', worklist', installed');
    var round, round' := RoundOf(all, worklist, installed), RoundOf(all', worklist', installed');
    SameElements(round, round');
    if round != [] {
      RoundProgress(all, worklist, installed);
      RoundProgress(all', worklist', installed');
      InstallPermuted(all, Remove(worklist, round), installed + StableSort(round),
                      all', Remove(worklist', round'), installed' + StableSort(round'));
    }
  }

  /** Permuting the nodes changes neither the rounds nor the outcome, but for the order inside a round. */
  lemma PermutationDoesNotMatter(nodes: Nodes, nodes': Nodes)
    requires multiset(nodes) == multiset(nodes')
    ensures AllResolved(nodes) <==> AllResolved(nodes')
    ensures SameOutcome(InstallationOrder(nodes), InstallationOrder(nodes'))
    ensures AllResolved(nodes) ==> SameRounds(Rounds(nodes, nodes, []), Rounds(nodes', nodes', []))
  {
    SameElements(nodes, nodes');
    if AllResolved(nodes) {
      InstallPermuted(nodes, nodes, [], nodes', nodes', []);
    }
  }

  // The rounds make up the order.

  function Concat(rounds: seq<Nodes>): Nodes {
    if rounds == [] then [] else rounds[0] + Concat(rounds[1..])
  }

  lemma {:induction false} OrderIsItsRounds(all: Nodes, worklist: Nodes, installed: Nodes)
    requires AllResolved(worklist)
    ensures Install(all, worklist, installed).Ordered? ==>
              Install(all, worklist, installed).order == installed + Concat(Rounds(all, worklist, installed))
    decreases |worklist|
  {
    var round := RoundOf(all, worklist, installed);
    if worklist == [] {
      assert Rounds(all, worklist, installed) == [];
    } else if round != [] {
      RoundProgress(all, worklist, installed);
      OrderIsItsRounds(all, Remove(worklist, round), installed + StableSort(round));
    }
  }
}
