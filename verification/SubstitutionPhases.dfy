/**
 What the tags stand for, and the passes over a whole configuration
 (internal/config/varsub.go:43-126, 161-292).
 */
module SubstitutionPhases {
  import opened Strings
  import opened Substitution
  import opened Wrappers

  // Replacers.

  /** Environment variables in the order they are read; on Windows names differ in case only by chance. */
  type Env = seq<(string, string)>

  datatype Host = Host(windows: bool, lower: string -> string, localFolder: string, containerFolder: string, env: Env)

  function Fold(host: Host, name: string): string { if host.windows then host.lower(name) else name }

  /** The value of a variable: the last one of its name. */
  function Lookup(host: Host, env: Env, name: string): Option<string> {
    if env == [] then None
    else
      var last := env[|env| - 1];
      if Fold(host, last.0) == Fold(host, name) then Some(last.1) else Lookup(host, env[..|env| - 1], name)
  }

  function ResolveEnv(host: Host, env: Env, args: seq<string>): Reply {
    if args == [] then Unresolvable
    else
      match Lookup(host, env, args[0])
      case Some(v) => Value(v)
      case None => if |args| > 1 then Value(Join(args[1..], ':')) else Value("")
  }

  function TrimRight(p: string, separators: string): (r: string)
    ensures r <= p && (r == "" || r[|r| - 1] !in separators) && forall i :: |r| <= i < |p| ==> p[i] in separators
  {
    if p == "" || p[|p| - 1] !in separators then p else TrimRight(p[..|p| - 1], separators)
  }

  /** What stands after the last separator. */
  function AfterLast(p: string, separators: string): (r: string)
    ensures |r| <= |p| && p[|p| - |r|..] == r && forall c :: c in r ==> c !in separators
    ensures |r| < |p| ==> p[|p| - |r| - 1] in separators
  {
    if p == "" || p[|p| - 1] in separators then ""
    else
      var n := |p| - 1;
      assert p == p[..n] + [p[n]];
      AfterLast(p[..n], separators) + [p[n]]
  }

  function PosixBasename(p: string): string { AfterLast(TrimRight(p, "/"), "/") }

  function WinBasename(p: string): string {
    var letter := p != "" && ('a' <= p[0] <= 'z' || 'A' <= p[0] <= 'Z');
    var q := if |p| >= 2 && p[1] == ':' && letter then p[2..] else p;
    AfterLast(TrimRight(q, "/\\"), "/\\")
  }

  function ResolveHost(host: Host, tag: string): Reply {
    var variable, args := Split(tag, ':')[0], Split(tag, ':')[1..];
    if variable == "env" || variable == "localEnv" then ResolveEnv(host, host.env, args)
    else if variable == "localWorkspaceFolder" && host.localFolder != "" then Value(host.localFolder)
    else if variable == "localWorkspaceFolderBasename" && host.localFolder != "" then
      Value(if host.windows then WinBasename(host.localFolder) else PosixBasename(host.localFolder))
    else if variable == "containerWorkspaceFolder" && host.containerFolder != "" then Value(host.containerFolder)
    else if variable == "containerWorkspaceFolderBasename" && host.containerFolder != "" then
      Value(PosixBasename(host.containerFolder))
    else Unhandled
  }

  /** The identity phase, `id` being empty when there is neither an id nor labels to compute one from. */
  function ResolveIdentity(id: string, tag: string): Reply {
    if Split(tag, ':')[0] == "devcontainerId" && id != "" then Value(id) else Unhandled
  }

  function ResolveContainer(host: Host, env: Env, tag: string): Reply {
    if Split(tag, ':')[0] == "containerEnv" then ResolveEnv(host, env, Split(tag, ':')[1..]) else Unhandled
  }

  function HostReplacer(host: Host): Replacer { tag => ResolveHost(host, tag) }
  function IdentityReplacer(id: string): Replacer { tag => ResolveIdentity(id, tag) }
  function ContainerReplacer(host: Host, env: Env): Replacer { tag => ResolveContainer(host, env, tag) }

  /** `${localEnv:NAME:default}`: the default is everything after the second colon, further colons included. */
  lemma EnvDefault(host: Host, name: string, text: string)
    requires ':' !in name
    ensures ResolveHost(host, "localEnv:" + name + ":" + text) ==
            Value(if Lookup(host, host.env, name).Some? then Lookup(host, host.env, name).value else text)
  {
    hide Split, Join, Lookup;
    assert "localEnv:" + name + ":" + text == "localEnv" + ":" + (name + ":" + text);
    SplitFirst("localEnv", ':', name + ":" + text);
    SplitFirst(name, ':', text);
    SplitJoin(text, ':');
    assert ([name] + Split(text, ':'))[1..] == Split(text, ':');
    assert (["localEnv"] + ([name] + Split(text, ':')))[1..] == [name] + Split(text, ':');
  }

  lemma EnvTag(host: Host, name: string)
    requires ':' !in name
    ensures ResolveHost(host, "localEnv:" + name) ==
            Value(if Lookup(host, host.env, name).Some? then Lookup(host, host.env, name).value else "")
  {
    hide Split, Join, Lookup;
    assert "localEnv:" + name == "localEnv" + ":" + name;
    SplitFirst("localEnv", ':', name);
    SplitOne(name, ':');
    assert (["localEnv"] + [name])[1..] == [name];
  }

  /** Only a tag that names no variable of the environment is an error. */
  lemma HostErrors(host: Host, tag: string)
    ensures ResolveHost(host, tag).Unresolvable? <==> tag == "env" || tag == "localEnv"
  {
    SplitJoin(tag, ':');
    if Index(tag, ':').Some? {
      assert |Split(tag, ':')| > 1;
    }
  }

  // Whole values.

  datatype Tree = Leaf(s: string) | List(elems: seq<Tree>) | Object(keys: seq<string>, vals: seq<Tree>) | Other(text: string)

  function Resolve(f: Replacer, v: Tree): Outcome<Tree>
    decreases v, 0
  {
    match v
    case Leaf(s) => (match Replaced(f, Scan(s)) case Done(t) => Done(Leaf(t)) case Failed(tag) => Failed(tag))
    case List(elems) => (match ResolveEach(f, elems) case Done(r) => Done(List(r)) case Failed(tag) => Failed(tag))
    case Object(keys, vals) =>
      (match ResolveEach(f, vals) case Done(r) => Done(Object(keys, r)) case Failed(tag) => Failed(tag))
    case Other(_) => Done(v)
  }

  function ResolveEach(f: Replacer, vs: seq<Tree>): Outcome<seq<Tree>>
    decreases vs
  {
    if vs == [] then Done([])
    else
      match Resolve(f, vs[0])
      case Failed(tag) => Failed(tag)
      case Done(v) =>
        match ResolveEach(f, vs[1..])
        case Failed(tag) => Failed(tag)
        case Done(rest) => Done([v] + rest)
  }

  /** Nothing joins up in any text of the value. */
  predicate StableTree(f: Replacer, v: Tree)
    decreases v, 0
  {
    match v
    case Leaf(s) => Stable(Expand(f, Scan(s)))
    case List(elems) => StableEach(f, elems)
    case Object(_, vals) => StableEach(f, vals)
    case Other(_) => true
  }

  predicate StableEach(f: Replacer, vs: seq<Tree>)
    decreases vs
  {
    vs == [] || (StableTree(f, vs[0]) && StableEach(f, vs[1..]))
  }

  /** Two passes over a value, one after the other, are one pass with both replacers. */
  lemma {:induction false} TreePasses(f: Replacer, g: Replacer, v: Tree)
    requires StableTree(f, v) && Resolve(f, v).Done?
    ensures Resolve(g, Resolve(f, v).value) == Resolve(Then(f, g), v)
    decreases v, 0
  {
    match v
    case Leaf(s) => TwoPasses(f, g, s);
    case List(elems) => EachPasses(f, g, elems);
    case Object(_, vals) => EachPasses(f, g, vals);
    case Other(_) =>
  }

  lemma {:induction false} EachPasses(f: Replacer, g: Replacer, vs: seq<Tree>)
    requires StableEach(f, vs) && ResolveEach(f, vs).Done?
    ensures ResolveEach(g, ResolveEach(f, vs).value) == ResolveEach(Then(f, g), vs)
    decreases vs
  {
    if vs != [] {
      TreePasses(f, g, vs[0]);
      EachPasses(f, g, vs[1..]);
      var r := ResolveEach(f, vs).value;
      assert r[0] == Resolve(f, vs[0]).value && r[1..] == ResolveEach(f, vs[1..]).value;
    }
  }

  lemma {:induction false} UnstableTree(f: Replacer, v: Tree)
    requires Resolve(f, v).Done?
    ensures var w := Resolve(Eraser(), Resolve(f, v).value);
            w.Done? && (StableTree(f, v) || w != Resolve(Then(f, Eraser()), v))
    decreases v, 0
  {
    match v
    case Leaf(s) => UnstableText(f, s);
    case List(elems) => UnstableEach(f, elems);
    case Object(_, vals) => UnstableEach(f, vals);
    case Other(_) =>
  }

  lemma {:induction false} UnstableEach(f: Replacer, vs: seq<Tree>)
    requires ResolveEach(f, vs).Done?
    ensures var w := ResolveEach(Eraser(), ResolveEach(f, vs).value);
            w.Done? && (StableEach(f, vs) || w != ResolveEach(Then(f, Eraser()), vs))
    decreases vs
  {
    if vs != [] {
      UnstableTree(f, vs[0]);
      UnstableEach(f, vs[1..]);
      var r := ResolveEach(f, vs).value;
      assert r[0] == Resolve(f, vs[0]).value && r[1..] == ResolveEach(f, vs[1..]).value;
      EachStep(Eraser(), r);
      if ResolveEach(Then(f, Eraser()), vs).Done? { EachStep(Then(f, Eraser()), vs); }
    }
  }

  lemma EachStep(f: Replacer, vs: seq<Tree>)
    requires vs != [] && ResolveEach(f, vs).Done?
    ensures Resolve(f, vs[0]).Done? && ResolveEach(f, vs[1..]).Done?
    ensures var r := ResolveEach(f, vs).value;
            r != [] && r[0] == Resolve(f, vs[0]).value && r[1..] == ResolveEach(f, vs[1..]).value
  {
  }

  /** Over a value, too, passes merge, whatever the second one handles, exactly when nothing joins up. */
  lemma TreesMergeIffStable(f: Replacer, v: Tree)
    requires Resolve(f, v).Done?
    ensures (forall g: Replacer :: Resolve(g, Resolve(f, v).value) == Resolve(Then(f, g), v)) <==> StableTree(f, v)
  {
    hide Resolve, StableTree;
    UnstableTree(f, v);
    if StableTree(f, v) {
      forall g: Replacer
        ensures Resolve(g, Resolve(f, v).value) == Resolve(Then(f, g), v)
      {
        TreePasses(f, g, v);
      }
    }
  }

  lemma {:induction false} TreeSame(f: Replacer, g: Replacer, v: Tree)
    requires forall tag :: f(tag) == g(tag)
    ensures Resolve(f, v) == Resolve(g, v)
    decreases v, 0
  {
    match v
    case Leaf(s) => SameReplies(f, g, Scan(s));
    case List(elems) => EachSame(f, g, elems);
    case Object(_, vals) => EachSame(f, g, vals);
    case Other(_) =>
  }

  lemma {:induction false} EachSame(f: Replacer, g: Replacer, vs: seq<Tree>)
    requires forall tag :: f(tag) == g(tag)
    ensures ResolveEach(f, vs) == ResolveEach(g, vs)
    decreases vs
  {
    if vs != [] {
      TreeSame(f, g, vs[0]);
      EachSame(f, g, vs[1..]);
    }
  }

  /** A pass that handles fewer tags, and those in the same way, fails no more. */
  lemma {:induction false} TreeWeaker(f: Replacer, g: Replacer, v: Tree)
    requires Resolve(Then(f, g), v).Done?
    ensures Resolve(f, v).Done?
    decreases v, 0
  {
    match v
    case Leaf(s) => PiecesWeaker(f, g, Scan(s));
    case List(elems) => EachWeaker(f, g, elems);
    case Object(_, vals) => EachWeaker(f, g, vals);
    case Other(_) =>
  }

  lemma {:induction false} EachWeaker(f: Replacer, g: Replacer, vs: seq<Tree>)
    requires ResolveEach(Then(f, g), vs).Done?
    ensures ResolveEach(f, vs).Done?
    decreases vs
  {
    if vs != [] {
      TreeWeaker(f, g, vs[0]);
      EachWeaker(f, g, vs[1..]);
    }
  }

  lemma {:induction false} PiecesWeaker(f: Replacer, g: Replacer, ps: seq<Piece>)
    requires Replaced(Then(f, g), ps).Done?
    ensures Replaced(f, ps).Done?
  {
    if ps != [] { PiecesWeaker(f, g, ps[1..]); }
  }

  // Phases.

  /** The host phase resolves the container's workspace folder first, and then what may name it. */
  function Prepared(host: Host): Outcome<Host> {
    if host.containerFolder == "" then Done(host)
    else
      match Replaced(HostReplacer(host), Scan(host.containerFolder))
      case Done(folder) => Done(host.(containerFolder := folder))
      case Failed(tag) => Failed(tag)
  }

  function HostPhase(host: Host, v: Tree): Outcome<Tree> {
    match Prepared(host)
    case Failed(tag) => Failed(tag)
    case Done(ready) => Resolve(HostReplacer(ready), v)
  }

  function BeforeContainer(host: Host, id: string, v: Tree): Outcome<Tree> {
    match HostPhase(host, v)
    case Failed(tag) => Failed(tag)
    case Done(w) => Resolve(IdentityReplacer(id), w)
  }

  /** Both phases at once. */
  function Both(ready: Host, id: string): Replacer { Then(HostReplacer(ready), IdentityReplacer(id)) }

  /**
   The two phases are one pass that handles the tags of both, and running the
   host phase first, as the loader does, or all of it again changes nothing:
   provided that neither the host phase nor both make anything join up.
   */
  lemma PhasesTwice(host: Host, id: string, v: Tree)
    requires Prepared(host).Done? && Resolve(Both(Prepared(host).value, id), v).Done?
    requires StableTree(HostReplacer(Prepared(host).value), v) && StableTree(Both(Prepared(host).value, id), v)
    ensures HostPhase(host, v).Done?
    ensures var w := BeforeContainer(host, id, v);
            w == Resolve(Both(Prepared(host).value, id), v) &&
            BeforeContainer(host, id, HostPhase(host, v).value) == w &&
            BeforeContainer(host, id, w.value) == w
  {
    hide Prepared, Resolve, StableTree, ResolveHost, ResolveIdentity;
    var h, i := HostReplacer(Prepared(host).value), IdentityReplacer(id);
    var f := Then(h, i);
    TreeWeaker(h, i, v);
    TreePasses(h, i, v);
    TreePasses(h, h, v);
    TreeSame(Then(h, h), h, v);
    var w := Resolve(f, v).value;
    TreePasses(f, h, v);
    TreeSame(Then(f, h), f, v);
    TreePasses(f, i, v);
    TreeSame(Then(f, i), f, v);
  }

  /** The container phase, which comes last, only sees the tags the other two left. */
  lemma ContainerLast(host: Host, id: string, env: Env, v: Tree)
    requires Prepared(host).Done? && Resolve(Both(Prepared(host).value, id), v).Done?
    requires StableTree(HostReplacer(Prepared(host).value), v) && StableTree(Both(Prepared(host).value, id), v)
    ensures BeforeContainer(host, id, v).Done?
    ensures Resolve(ContainerReplacer(host, env), BeforeContainer(host, id, v).value) ==
            Resolve(Then(Both(Prepared(host).value, id), ContainerReplacer(host, env)), v)
  {
    PhasesTwice(host, id, v);
    TreePasses(Both(Prepared(host).value, id), ContainerReplacer(host, env), v);
  }

  // Where a value does join up.

  function TwoVariables(lower: string -> string, folder: string, a: string, b: string): Host {
    Host(false, lower, folder, "", [("A", a), ("B", b)])
  }

  lemma TwoValues(host: Host)
    requires !host.windows && |host.env| == 2 && host.env[0].0 == "A" && host.env[1].0 == "B"
    ensures ResolveHost(host, "localEnv:A") == Value(host.env[0].1)
    ensures ResolveHost(host, "localEnv:B") == Value(host.env[1].1)
  {
    hide ResolveHost, Lookup;
    EnvTag(host, "A");
    EnvTag(host, "B");
    assert "localEnv:" + "A" == "localEnv:A" && "localEnv:" + "B" == "localEnv:B";
    LookupTwo(host);
  }

  lemma LookupTwo(host: Host)
    requires !host.windows && |host.env| == 2 && host.env[0].0 == "A" && host.env[1].0 == "B"
    ensures Lookup(host, host.env, "A") == Some(host.env[0].1) && Lookup(host, host.env, "B") == Some(host.env[1].1)
  {
    assert host.env[..1] == [host.env[0]];
    assert "A" != "B";
  }

  /** The identity phase handles no tag of the environment. */
  lemma IdentityLeaves(id: string)
    ensures Replaced(IdentityReplacer(id), Scan("${localEnv:B}")) == Done("${localEnv:B}")
    ensures Replaced(IdentityReplacer(id), Scan("x")) == Done("x")
  {
    hide Split, Scan, Replaced;
    assert "localEnv:B" == "localEnv" + ":" + "B" && "${localEnv:B}" == TagText("localEnv:B");
    SplitFirst("localEnv", ':', "B");
    OneTag(IdentityReplacer(id), "localEnv:B");
    NoTags("x");
    AllPlain(IdentityReplacer(id), "x");
  }

  /** Two runs of the phases: the first writes a tag, the second resolves it. */
  lemma TagComesBack(host: Host, id: string, s: string)
    requires !host.windows && host.containerFolder == "" && |host.env| == 2
    requires host.env[0].0 == "A" && host.env[1] == ("B", "x")
    requires Replaced(HostReplacer(host), Scan(s)) == Done("${localEnv:B}")
    ensures BeforeContainer(host, id, Leaf(s)) == Done(Leaf("${localEnv:B}"))
    ensures BeforeContainer(host, id, Leaf("${localEnv:B}")) == Done(Leaf("x"))
    ensures BeforeContainer(host, id, HostPhase(host, Leaf(s)).value) == Done(Leaf("x"))
  {
    hide Scan, Replaced, ResolveHost, ResolveIdentity;
    IdentityLeaves(id);
    TwoValues(host);
    assert "${localEnv:B}" == TagText("localEnv:B");
    OneTag(HostReplacer(host), "localEnv:B");
  }

  /** A value put in after a `$` can join up with it into a tag that the next run resolves. */
  lemma JoiningIsNotIdempotent(lower: string -> string, folder: string, id: string)
    ensures var host := TwoVariables(lower, folder, "{localEnv:B}", "x");
            BeforeContainer(host, id, Leaf("$${localEnv:A}")) == Done(Leaf("${localEnv:B}")) &&
            BeforeContainer(host, id, Leaf("${localEnv:B}")) == Done(Leaf("x")) &&
            BeforeContainer(host, id, HostPhase(host, Leaf("$${localEnv:A}")).value) == Done(Leaf("x"))
  {
    hide Scan, Replaced, ResolveHost, BeforeContainer, HostPhase;
    var host := TwoVariables(lower, folder, "{localEnv:B}", "x");
    TwoValues(host);
    DollarTag(HostReplacer(host), "localEnv:A");
    assert "$" + TagText("localEnv:A") == "$${localEnv:A}" && "$" + "{localEnv:B}" == "${localEnv:B}";
    TagComesBack(host, id, "$${localEnv:A}");
  }

  /** So can a value that holds a tag. */
  lemma TagValueIsNotIdempotent(lower: string -> string, folder: string, id: string)
    ensures var host := TwoVariables(lower, folder, "${localEnv:B}", "x");
            BeforeContainer(host, id, Leaf("${localEnv:A}")) == Done(Leaf("${localEnv:B}")) &&
            BeforeContainer(host, id, Leaf("${localEnv:B}")) == Done(Leaf("x")) &&
            BeforeContainer(host, id, HostPhase(host, Leaf("${localEnv:A}")).value) == Done(Leaf("x"))
  {
    hide Scan, Replaced, ResolveHost, BeforeContainer, HostPhase;
    var host := TwoVariables(lower, folder, "${localEnv:B}", "x");
    TwoValues(host);
    OneTag(HostReplacer(host), "localEnv:A");
    assert TagText("localEnv:A") == "${localEnv:A}";
    TagComesBack(host, id, "${localEnv:A}");
  }

  /** A value that holds its own tag joins up, and yet a second pass changes nothing. */
  lemma OwnTagIsUnstable(lower: string -> string, folder: string)
    ensures var f := HostReplacer(TwoVariables(lower, folder, "${localEnv:A}", "x"));
            var s := "${localEnv:A}";
            Replaced(f, Scan(s)) == Done(s) && !Stable(Expand(f, Scan(s)))
  {
    hide Scan, Replaced, ResolveHost, Stable;
    var host := TwoVariables(lower, folder, "${localEnv:A}", "x");
    var f, s := HostReplacer(host), "${localEnv:A}";
    TwoValues(host);
    assert s == TagText("localEnv:A");
    OneTag(f, "localEnv:A");
    ScanTag("localEnv:A", "");
    NoPieces();
    assert s + "" == s;
    ScanOutput(f, s);
    assert Scan(s)[0].Tag? && Expand(f, Scan(s))[0].Plain?;
  }
}
