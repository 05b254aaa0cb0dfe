/**
 What a node of the Feature graph is, and when two nodes are the same Feature
 (internal/features/order.go, internal/features/types.go).
 */
module FeatureNodes {
  import opened Strings
  import opened Wrappers

  datatype OptionValue = StringValue(s: string) | BoolValue(b: bool) | OtherValue(json: string)

  /** A Feature's options; an object lists its entries in key order. */
  datatype Options =
    | StringOptions(s: string)
    | BoolOptions(b: bool)
    | NoOptions
    | ObjectOptions(entries: seq<(string, OptionValue)>)
    | OtherOptions(json: string)

  datatype Source =
    | OciSource(userId: string, registry: string, namespace: string, id: string, resource: string, tag: string,
                digest: string)
    | LocalSource(userId: string, path: string)
    | TarballSource(userId: string, uri: string)
    | OtherSource(userId: string, kind: string)
  {
    function SourceType(): string {
      match this
      case OciSource(_, _, _, _, _, _, _) => "oci"
      case LocalSource(_, _) => "file-path"
      case TarballSource(_, _) => "direct-tarball"
      case OtherSource(_, kind) => kind
    }

    /** Whether two sources of one type name are also of one kind, as Go's type switch takes for granted. */
    predicate SameKind(other: Source) {
      (OciSource? <==> other.OciSource?) && (LocalSource? <==> other.LocalSource?) &&
      (TarballSource? <==> other.TarballSource?)
    }
  }

  /** The metadata the graph reads; `dependsOn` in key order. */
  datatype Feature = Feature(
    id: string, legacyIds: seq<string>, dependsOn: seq<(string, Options)>, installsAfter: seq<string>)

  datatype FeatureSet = FeatureSet(source: Option<Source>, feature: Option<Feature>)

  /** What identifies a node: the fields its comparisons read. */
  datatype Ident = Ident(userId: string, options: Options, resolved: Option<FeatureSet>, aliases: seq<string>)

  // Comparing.

  function CompareBools(a: bool, b: bool): int { if a == b then 0 else if a then 1 else -1 }

  function CompareEntries(a: seq<(string, OptionValue)>, b: seq<(string, OptionValue)>): int
    requires |a| == |b|
  {
    if a == [] then 0
    else
      var (ka, va), (kb, vb) := a[0], b[0];
      if ka != kb then CompareStrings(ka, kb)
      else
        var c := if va.StringValue? && vb.StringValue? then CompareStrings(va.s, vb.s)
                 else if va.BoolValue? && vb.BoolValue? then CompareBools(va.b, vb.b)
                 else 0;
        if c != 0 then c else CompareEntries(a[1..], b[1..])
  }

  function TypeName(o: Options): string {
    match o
    case StringOptions(_) => "string"
    case BoolOptions(_) => "boolean"
    case NoOptions => "undefined"
    case _ => "object"
  }

  function CompareOptions(a: Options, b: Options): int {
    if a.StringOptions? && b.StringOptions? then CompareStrings(a.s, b.s)
    else if a.BoolOptions? && b.BoolOptions? then CompareBools(a.b, b.b)
    else if a.ObjectOptions? && b.ObjectOptions? then
      if |a.entries| != |b.entries| then |a.entries| - |b.entries| else CompareEntries(a.entries, b.entries)
    else CompareStrings(TypeName(a), TypeName(b))
  }

  /** The first comparison that tells its operands apart. */
  function Or(c: int, d: int): int { if c != 0 then c else d }

  function CompareOci(a: Source, ao: Options, b: Source, bo: Options): int
    requires a.OciSource? && b.OciSource?
  {
    if a.digest == b.digest && a.digest != "" && CompareOptions(ao, bo) == 0 then 0
    else
      var resources := CompareStrings(a.registry + "/" + a.namespace + "/" + a.id,
                                      b.registry + "/" + b.namespace + "/" + b.id);
      if resources != 0 then resources
      else if a.tag != "" && b.tag != "" && a.tag != b.tag then CompareStrings(a.tag, b.tag)
      else Or(CompareOptions(ao, bo), CompareStrings(a.digest, b.digest))
  }

  function CompareNodes(a: Ident, b: Ident): int
    requires a.resolved.Some? && b.resolved.Some?
  {
    var sa, sb := a.resolved.value.source, b.resolved.value.source;
    if sa.None? || sb.None? then CompareStrings(a.userId, b.userId)
    else if sa.value.SourceType() != sb.value.SourceType() || !sa.value.SameKind(sb.value) then
      CompareStrings(sa.value.userId, sb.value.userId)
    else match sa.value
      case OciSource(_, _, _, _, _, _, _) => CompareOci(sa.value, a.options, sb.value, b.options)
      case LocalSource(_, path) => Or(CompareStrings(path, sb.value.path), CompareOptions(a.options, b.options))
      case TarballSource(_, uri) => Or(CompareStrings(uri, sb.value.uri), CompareOptions(a.options, b.options))
      case OtherSource(userId, _) => Or(CompareStrings(userId, sb.value.userId), CompareOptions(a.options, b.options))
  }

  /** The two nodes are the same Feature: the same source with the same options. */
  predicate NodesEqual(a: Ident, b: Ident) {
    a.resolved.Some? && b.resolved.Some? && CompareNodes(a, b) == 0
  }

  /** `node` satisfies the soft dependency `soft`: the same resource, or one of its former ids. */
  predicate Satisfies(node: Ident, soft: Ident) {
    node.resolved.Some? && soft.resolved.Some? && node.resolved.value.source.Some? && soft.resolved.value.source.Some? &&
    var n, s := node.resolved.value.source.value, soft.resolved.value.source.value;
    n.SourceType() == s.SourceType() && n.SameKind(s) &&
    match n
    case OciSource(_, _, _, _, resource, _, _) =>
      resource == s.resource ||
      exists i :: 0 <= i < |soft.aliases| && s.registry + "/" + s.namespace + "/" + soft.aliases[i] == resource
    case LocalSource(_, path) => path == s.path
    case TarballSource(_, uri) => uri == s.uri
    case OtherSource(userId, _) => userId == s.userId
  }

  // Sameness is reflexive and symmetric.

  predicate Opposite(c: int, d: int) { (c < 0 <==> d > 0) && (c > 0 <==> d < 0) }

  lemma {:induction false} StringsOpposite(a: string, b: string)
    ensures Opposite(CompareStrings(a, b), CompareStrings(b, a))
    ensures CompareStrings(a, b) == 0 <==> a == b
  {
    if a != [] && b != [] && a[0] == b[0] {
      StringsOpposite(a[1..], b[1..]);
      assert a == [a[0]] + a[1..] && b == [b[0]] + b[1..];
    }
  }

  lemma {:induction false} EntriesOpposite(a: seq<(string, OptionValue)>, b: seq<(string, OptionValue)>)
    requires |a| == |b|
    ensures Opposite(CompareEntries(a, b), CompareEntries(b, a))
    ensures a == b ==> CompareEntries(a, b) == 0
  {
    if a != [] {
      var (ka, va) := a[0];
      var (kb, vb) := b[0];
      StringsOpposite(ka, kb);
      if va.StringValue? && vb.StringValue? { StringsOpposite(va.s, vb.s); }
      EntriesOpposite(a[1..], b[1..]);
    }
  }

  lemma OptionsOpposite(a: Options, b: Options)
    ensures Opposite(CompareOptions(a, b), CompareOptions(b, a))
    ensures a == b ==> CompareOptions(a, b) == 0
  {
    if a.StringOptions? && b.StringOptions? {
      StringsOpposite(a.s, b.s);
    } else if a.ObjectOptions? && b.ObjectOptions? {
      if |a.entries| == |b.entries| { EntriesOpposite(a.entries, b.entries); }
    } else {
      StringsOpposite(TypeName(a), TypeName(b));
    }
  }

  lemma OciOpposite(a: Source, ao: Options, b: Source, bo: Options)
    requires a.OciSource? && b.OciSource?
    ensures Opposite(CompareOci(a, ao, b, bo), CompareOci(b, bo, a, ao))
    ensures a == b && ao == bo ==> CompareOci(a, ao, b, bo) == 0
  {
    OptionsOpposite(ao, bo);
    StringsOpposite(a.registry + "/" + a.namespace + "/" + a.id, b.registry + "/" + b.namespace + "/" + b.id);
    StringsOpposite(a.tag, b.tag);
    StringsOpposite(a.digest, b.digest);
  }

  /** Swapping two nodes reverses the sign of their comparison, and a node is equal to itself. */
  lemma NodesOpposite(a: Ident, b: Ident)
    requires a.resolved.Some? && b.resolved.Some?
    ensures Opposite(CompareNodes(a, b), CompareNodes(b, a))
    ensures a == b ==> CompareNodes(a, b) == 0
  {
    hide CompareStrings, CompareOptions, CompareOci;
    StringsOpposite(a.userId, b.userId);
    OptionsOpposite(a.options, b.options);
    var sa, sb := a.resolved.value.source, b.resolved.value.source;
    if sa.Some? && sb.Some? {
      StringsOpposite(sa.value.userId, sb.value.userId);
      if sa.value.OciSource? && sb.value.OciSource? {
        OciOpposite(sa.value, a.options, sb.value, b.options);
      } else if sa.value.LocalSource? && sb.value.LocalSource? {
        StringsOpposite(sa.value.path, sb.value.path);
      } else if sa.value.TarballSource? && sb.value.TarballSource? {
        StringsOpposite(sa.value.uri, sb.value.uri);
      }
    }
  }

  lemma NodesEqualLaws(a: Ident, b: Ident)
    ensures a.resolved.Some? <==> NodesEqual(a, a)
    ensures NodesEqual(a, b) <==> NodesEqual(b, a)
  {
    if a.resolved.Some? && b.resolved.Some? {
      NodesOpposite(a, b);
    }
    if a.resolved.Some? {
      NodesOpposite(a, a);
    }
  }

  /** Sameness is not transitive: option values of different types compare as equal. */
  lemma NodesEqualIsNotTransitive() returns (a: Ident, b: Ident, c: Ident)
    ensures NodesEqual(a, b) && NodesEqual(b, c) && !NodesEqual(a, c)
  {
    var resolved := Some(FeatureSet(Some(LocalSource("./f", "/f")), None));
    a := Ident("./f", ObjectOptions([("v", StringValue("1"))]), resolved, []);
    b := Ident("./f", ObjectOptions([("v", BoolValue(true))]), resolved, []);
    c := Ident("./f", ObjectOptions([("v", StringValue("2"))]), resolved, []);
    StringsOpposite("/f", "/f");
    StringsOpposite("1", "2");
  }
}
