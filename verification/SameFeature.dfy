/**
 When two nodes are the same Feature, and when one satisfies another
 (internal/features/order.go:140-325), told without comparing them.
 */
module SameFeature {
  import opened FeatureNodes
  import opened InstallOrder
  import opened FeatureGraph
  import opened Strings
  import opened Wrappers

  // Options.

  /** Two values of an option that do not tell Features apart: all but two strings or two booleans that differ. */
  predicate ValuesAgree(a: OptionValue, b: OptionValue) {
    (a.StringValue? && b.StringValue? ==> a.s == b.s) && (a.BoolValue? && b.BoolValue? ==> a.b == b.b)
  }

  /** The same keys, in key order, with values that agree. */
  predicate EntriesAgree(a: seq<(string, OptionValue)>, b: seq<(string, OptionValue)>) {
    |a| == |b| && forall i :: 0 <= i < |a| ==> a[i].0 == b[i].0 && ValuesAgree(a[i].1, b[i].1)
  }

  predicate IsObject(o: Options) { o.ObjectOptions? || o.OtherOptions? }

  /** Equal strings, equal booleans, no options at all, or objects that agree; any other two values agree. */
  predicate OptionsAgree(a: Options, b: Options) {
    (a.StringOptions? && b.StringOptions? && a.s == b.s) || (a.BoolOptions? && b.BoolOptions? && a.b == b.b) ||
    (a.NoOptions? && b.NoOptions?) ||
    (IsObject(a) && IsObject(b) && (a.ObjectOptions? && b.ObjectOptions? ==> EntriesAgree(a.entries, b.entries)))
  }

  lemma {:induction false} EntriesCompare(a: seq<(string, OptionValue)>, b: seq<(string, OptionValue)>)
    requires |a| == |b|
    ensures CompareEntries(a, b) == 0 <==> EntriesAgree(a, b)
  {
    if a != [] {
      var (ka, va) := a[0];
      var (kb, vb) := b[0];
      StringsOpposite(ka, kb);
      if va.StringValue? && vb.StringValue? { StringsOpposite(va.s, vb.s); }
      EntriesCompare(a[1..], b[1..]);
      hide CompareStrings;
      assert forall i :: 0 < i < |a| ==> a[i] == a[1..][i - 1] && b[i] == b[1..][i - 1];
      if EntriesAgree(a[1..], b[1..]) && ka == kb && ValuesAgree(va, vb) { AgreeFrom(a, b); }
      if EntriesAgree(a, b) { AgreeAfter(a, b); }
    }
  }

  lemma AgreeFrom(a: seq<(string, OptionValue)>, b: seq<(string, OptionValue)>)
    requires |a| == |b| > 0 && EntriesAgree(a[1..], b[1..]) && a[0].0 == b[0].0 && ValuesAgree(a[0].1, b[0].1)
    ensures EntriesAgree(a, b)
  {
    hide ValuesAgree;
    assert forall i :: 0 < i < |a| ==> a[i] == a[1..][i - 1] && b[i] == b[1..][i - 1];
  }

  lemma AgreeAfter(a: seq<(string, OptionValue)>, b: seq<(string, OptionValue)>)
    requires a != [] && EntriesAgree(a, b)
    ensures EntriesAgree(a[1..], b[1..]) && a[0].0 == b[0].0 && ValuesAgree(a[0].1, b[0].1)
  {
    hide ValuesAgree;
  }

  lemma OptionsCompare(a: Options, b: Options)
    ensures CompareOptions(a, b) == 0 <==> OptionsAgree(a, b)
  {
    hide CompareStrings, EntriesAgree;
    if a.StringOptions? && b.StringOptions? {
      StringsOpposite(a.s, b.s);
    } else if a.ObjectOptions? && b.ObjectOptions? {
      if |a.entries| == |b.entries| { EntriesCompare(a.entries, b.entries); } else { DifferentLengths(a.entries, b.entries); }
    } else {
      StringsOpposite(TypeName(a), TypeName(b));
      TypesDiffer();
    }
  }

  lemma DifferentLengths(a: seq<(string, OptionValue)>, b: seq<(string, OptionValue)>)
    requires |a| != |b|
    ensures !EntriesAgree(a, b)
  {
  }

  lemma TypesDiffer()
    ensures "string" != "boolean" && "string" != "undefined" && "string" != "object"
    ensures "boolean" != "undefined" && "boolean" != "object" && "undefined" != "object"
  {
    assert "string"[0] != "boolean"[0] && "string"[0] != "undefined"[0] && "string"[0] != "object"[0];
    assert "boolean"[0] != "undefined"[0] && "boolean"[0] != "object"[0] && "undefined"[0] != "object"[0];
  }

  // Nodes.

  function Repository(s: Source): string
    requires s.OciSource?
  {
    s.registry + "/" + s.namespace + "/" + s.id
  }

  /** The same image, by a digest or by its repository, digest and, where both have one, tag. */
  predicate SameImage(a: Source, b: Source)
    requires a.OciSource? && b.OciSource?
  {
    a.digest == b.digest &&
    (a.digest != "" || (Repository(a) == Repository(b) && (a.tag == b.tag || a.tag == "" || b.tag == "")))
  }

  predicate SamePlace(a: Source, b: Source) {
    (a.OciSource? && b.OciSource? && SameImage(a, b)) || (a.LocalSource? && b.LocalSource? && a.path == b.path) ||
    (a.TarballSource? && b.TarballSource? && a.uri == b.uri) ||
    (a.OtherSource? && b.OtherSource? && a.kind == b.kind && a.userId == b.userId)
  }

  predicate OneKind(a: Source, b: Source) { a.SourceType() == b.SourceType() && a.SameKind(b) }

  /** The same place with options that agree; of different kinds, or where the source is not known, what the user wrote. */
  predicate Same(a: Ident, b: Ident) {
    a.resolved.Some? && b.resolved.Some? &&
    var sa, sb := a.resolved.value.source, b.resolved.value.source;
    if sa.None? || sb.None? then a.userId == b.userId
    else if !OneKind(sa.value, sb.value) then sa.value.userId == sb.value.userId
    else SamePlace(sa.value, sb.value) && OptionsAgree(a.options, b.options)
  }

  lemma OciCompare(a: Source, ao: Options, b: Source, bo: Options)
    requires a.OciSource? && b.OciSource?
    ensures CompareOci(a, ao, b, bo) == 0 <==> SameImage(a, b) && OptionsAgree(ao, bo)
  {
    hide CompareStrings, CompareOptions, OptionsAgree;
    OptionsCompare(ao, bo);
    StringsOpposite(Repository(a), Repository(b));
    StringsOpposite(a.tag, b.tag);
    StringsOpposite(a.digest, b.digest);
  }

  /** Exactly when two nodes are the same Feature. */
  lemma NodesEqualIff(a: Ident, b: Ident)
    ensures NodesEqual(a, b) <==> Same(a, b)
  {
    hide CompareStrings, CompareOptions, CompareOci, OptionsAgree, SameImage;
    if a.resolved.Some? && b.resolved.Some? {
      StringsOpposite(a.userId, b.userId);
      OptionsCompare(a.options, b.options);
      var sa, sb := a.resolved.value.source, b.resolved.value.source;
      if sa.Some? && sb.Some? {
        StringsOpposite(sa.value.userId, sb.value.userId);
        if sa.value.OciSource? && sb.value.OciSource? { OciCompare(sa.value, a.options, sb.value, b.options); }
        if sa.value.LocalSource? && sb.value.LocalSource? { StringsOpposite(sa.value.path, sb.value.path); }
        if sa.value.TarballSource? && sb.value.TarballSource? { StringsOpposite(sa.value.uri, sb.value.uri); }
      }
    }
  }

  /** OCI Features are ordered by repository, tag, options and digest, unless digest and options say they are the same. */
  lemma OciOrder(a: Source, ao: Options, b: Source, bo: Options)
    requires a.OciSource? && b.OciSource? && !(SameImage(a, b) && OptionsAgree(ao, bo))
    ensures var c := CompareOci(a, ao, b, bo);
            if Repository(a) != Repository(b) then c == CompareStrings(Repository(a), Repository(b))
            else if a.tag != "" && b.tag != "" && a.tag != b.tag then c == CompareStrings(a.tag, b.tag)
            else if !OptionsAgree(ao, bo) then c == CompareOptions(ao, bo)
            else c == CompareStrings(a.digest, b.digest)
  {
    hide CompareStrings, CompareOptions, OptionsAgree;
    OptionsCompare(ao, bo);
    OciCompare(a, ao, b, bo);
    StringsOpposite(Repository(a), Repository(b));
  }

  // Two versions of one Feature.

  /** The options have different strings under a key. */
  predicate DifferAt(a: Options, b: Options, i: nat, j: nat) {
    a.ObjectOptions? && b.ObjectOptions? && i < |a.entries| && j < |b.entries| && a.entries[i].0 == b.entries[j].0 &&
    a.entries[i].1.StringValue? && b.entries[j].1.StringValue? && a.entries[i].1.s != b.entries[j].1.s
  }

  predicate KeysDiffer(a: Options) {
    a.ObjectOptions? ==> forall i, j :: 0 <= i < j < |a.entries| ==> a.entries[i].0 != a.entries[j].0
  }

  lemma VersionsDisagree(a: Options, b: Options, i: nat, j: nat)
    requires DifferAt(a, b, i, j) && KeysDiffer(b)
    ensures !OptionsAgree(a, b)
  {
  }

  /** Two references to sources of one kind whose options have different strings under a key are different Features. */
  lemma VersionsDiffer(process: ProcessFeature, r: Reference, s: Reference, i: nat, j: nat)
    requires DifferAt(r.1, s.1, i, j) && KeysDiffer(s.1)
    requires var a, b := Key(process, r).resolved, Key(process, s).resolved;
             a.Some? && b.Some? && a.value.source.Some? && b.value.source.Some? &&
             OneKind(a.value.source.value, b.value.source.value)
    ensures !NodesEqual(Key(process, r), Key(process, s))
  {
    hide NodesEqual, SamePlace, OptionsAgree, DifferAt, KeysDiffer;
    VersionsDisagree(r.1, s.1, i, j);
    NodesEqualIff(Key(process, r), Key(process, s));
  }

  /** Two roots that come first and are different Features both have a node. */
  lemma FirstRootsStay(process: ProcessFeature, r: Reference, s: Reference, rest: seq<Reference>, universe: set<Reference>)
    requires Closed(process, universe) && Within([r, s] + rest, universe)
    requires !NodesEqual(Key(process, r), Key(process, s)) && Build(process, [r, s] + rest, [], universe).Built?
    ensures var nodes := Build(process, [r, s] + rest, [], universe).nodes; r in nodes && s in nodes
  {
    hide NodesEqual, Build, Closed, Within, HardDependencies, SoftError, SoftDependencies, Elements;
    Nothing(process, universe);
    var roots := [r, s] + rest;
    assert roots[0] == r && roots[1..] == [s] + rest;
    BuildStep(process, roots, [], universe);
    var more := [s] + rest + HardDependencies(Process(process, r).features);
    assert [] + [r] == [r] && more[0] == s;
    assert !Known(process, [r], s);
    BuildStep(process, more, [r], universe);
    assert [r] + [s] == [r, s];
    NodesStay(process, more[1..] + HardDependencies(Process(process, s).features), [r, s], universe);
  }

  /** So of two versions of one Feature that are asked for first, both have a node. */
  lemma BothVersionsStay(
    process: ProcessFeature, r: Reference, s: Reference, i: nat, j: nat, rest: seq<Reference>, universe: set<Reference>)
    requires Closed(process, universe) && Within([r, s] + rest, universe)
    requires DifferAt(r.1, s.1, i, j) && KeysDiffer(s.1)
    requires var a, b := Key(process, r).resolved, Key(process, s).resolved;
             a.Some? && b.Some? && a.value.source.Some? && b.value.source.Some? &&
             OneKind(a.value.source.value, b.value.source.value)
    requires Build(process, [r, s] + rest, [], universe).Built?
    ensures var nodes := Build(process, [r, s] + rest, [], universe).nodes; r in nodes && s in nodes
  {
    hide NodesEqual, Build, Closed, Within, DifferAt, KeysDiffer, Key;
    VersionsDiffer(process, r, s, i, j);
    FirstRootsStay(process, r, s, rest, universe);
  }

  lemma Nothing(process: ProcessFeature, universe: set<Reference>)
    ensures Within([], universe) && forall r :: !Known(process, [], r)
  {
  }

  /** A node of the graph stays in it. */
  lemma {:induction false} NodesStay(
    process: ProcessFeature, worklist: seq<Reference>, nodes: seq<Reference>, universe: set<Reference>)
    requires Closed(process, universe) && Within(worklist, universe) && Within(nodes, universe)
    ensures var g := Build(process, worklist, nodes, universe); g.Built? ==> nodes <= g.nodes
    decreases universe - Elements(nodes), |worklist|
  {
    hide Closed, Within, Known, HardDependencies, SoftError, SoftDependencies, Elements;
    if worklist != [] {
      BuildStep(process, worklist, nodes, universe);
      hide Build;
      var p := Process(process, worklist[0]);
      if ErrorOf(p, NotProcessed(worklist[0].0)).None? {
        if Known(process, nodes, worklist[0]) {
          NodesStay(process, worklist[1..], nodes, universe);
        } else if SoftError(process, SoftDependencies(p.features)).None? {
          NodesStay(process, worklist[1..] + HardDependencies(p.features), nodes + [worklist[0]], universe);
        }
      }
    }
  }

  /** So does any root that no other reference of the closure is the same Feature as. */
  lemma LoneRootStays(process: ProcessFeature, roots: seq<Reference>, r: Reference, universe: set<Reference>)
    requires Closed(process, universe) && Within(roots, universe) && r in roots
    requires forall x :: x in universe && x != r ==> !NodesEqual(Key(process, x), Key(process, r))
    requires Build(process, roots, [], universe).Built?
    ensures r in Build(process, roots, [], universe).nodes
  {
    hide NodesEqual, Build, Closed;
    BuildIsClosed(process, roots, [], universe);
    var nodes := Build(process, roots, [], universe).nodes;
    var i :| 0 <= i < |nodes| && NodesEqual(Key(process, nodes[i]), Key(process, r));
    assert nodes[i] in nodes;
  }

  // Soft dependencies.

  /** An image satisfies a soft dependency on its resource, or on a Feature that had its resource by a former id. */
  lemma SatisfiesImage(node: Ident, soft: Ident)
    requires node.resolved.Some? && soft.resolved.Some?
    requires node.resolved.value.source.Some? && soft.resolved.value.source.Some?
    requires node.resolved.value.source.value.OciSource? && soft.resolved.value.source.value.OciSource?
    ensures var n, s := node.resolved.value.source.value, soft.resolved.value.source.value;
            Satisfies(node, soft) <==>
            n.resource == s.resource ||
            exists i :: 0 <= i < |soft.aliases| && n.resource == s.registry + "/" + s.namespace + "/" + soft.aliases[i]
  {
  }

  /** Neither tag, digest nor options matter. */
  lemma SatisfiesAnyVersion(node: Ident, soft: Ident, options: Options, tag: string, digest: string, feature: Option<Feature>)
    requires node.resolved.Some? && node.resolved.value.source.Some? && node.resolved.value.source.value.OciSource?
    ensures var source := node.resolved.value.source.value.(tag := tag, digest := digest);
            Satisfies(node.(options := options, resolved := Some(FeatureSet(Some(source), feature))), soft) <==>
            Satisfies(node, soft)
  {
  }

  /** A soft dependency on a Feature is satisfied by what has its id, or one of its former ids, in the same namespace. */
  lemma FormerIdsSatisfy(process: ProcessFeature, id: string, node: Ident, former: string)
    requires var p := process(id, NO_OPTIONS);
             p.Resolved? && p.features.source.Some? && p.features.source.value.OciSource? && p.features.feature.Some? &&
             (former in p.features.feature.value.legacyIds || (former == p.features.feature.value.id && former != "")) &&
             node.resolved.Some? && node.resolved.value.source.Some? && node.resolved.value.source.value.OciSource? &&
             node.resolved.value.source.value.resource ==
             p.features.source.value.registry + "/" + p.features.source.value.namespace + "/" + former
    ensures Satisfies(node, SoftIdent(process, id))
  {
    var aliases := SoftIdent(process, id).aliases;
    assert former in aliases;
    var i :| 0 <= i < |aliases| && aliases[i] == former;
    SatisfiesImage(node, SoftIdent(process, id));
  }

  /** A local Feature satisfies one of its path, a tarball one of its URI, and any other one of its id. */
  lemma SatisfiesPlace(node: Ident, soft: Ident)
    requires node.resolved.Some? && soft.resolved.Some?
    requires node.resolved.value.source.Some? && soft.resolved.value.source.Some?
    requires !node.resolved.value.source.value.OciSource?
    ensures Satisfies(node, soft) <==> SamePlace(node.resolved.value.source.value, soft.resolved.value.source.value)
  {
  }

  /** What has no source, or one of another kind, satisfies nothing. */
  lemma SatisfiesOwnKind(node: Ident, soft: Ident)
    requires Satisfies(node, soft)
    ensures node.resolved.Some? && soft.resolved.Some?
    ensures node.resolved.value.source.Some? && soft.resolved.value.source.Some?
    ensures OneKind(node.resolved.value.source.value, soft.resolved.value.source.value)
  {
  }
}
