/**
 What each tag stands for, phase by phase (internal/config/varsub.go:161-334),
 told of the texts that go in and come out.
 */
module HostTags {
  import opened Strings
  import opened Substitution
  import opened SubstitutionPhases
  import opened Wrappers

  /** The tag is that variable, with or without arguments. */
  predicate Names(tag: string, variable: string) { tag == variable || variable + ":" <= tag }

  lemma TagVariable(tag: string, variable: string)
    requires ':' !in variable
    ensures Names(tag, variable) <==> Split(tag, ':')[0] == variable
  {
    var i := Index(tag, ':');
    if variable + ":" <= tag { assert tag[|variable|] == (variable + ":")[|variable|] == ':'; }
    if i.Some? {
      assert tag[..i.value] + ":" == tag[..i.value + 1];
      if variable + ":" <= tag {
        assert tag == variable + [':'] + tag[|variable| + 1..];
        SplitFirst(variable, ':', tag[|variable| + 1..]);
      }
    }
  }

  lemma Variables(tag: string)
    ensures var v := Split(tag, ':')[0];
            (Names(tag, "env") <==> v == "env") && (Names(tag, "localEnv") <==> v == "localEnv") &&
            (Names(tag, "localWorkspaceFolder") <==> v == "localWorkspaceFolder") &&
            (Names(tag, "localWorkspaceFolderBasename") <==> v == "localWorkspaceFolderBasename") &&
            (Names(tag, "containerWorkspaceFolder") <==> v == "containerWorkspaceFolder") &&
            (Names(tag, "containerWorkspaceFolderBasename") <==> v == "containerWorkspaceFolderBasename") &&
            (Names(tag, "devcontainerId") <==> v == "devcontainerId") && (Names(tag, "containerEnv") <==> v == "containerEnv")
  {
    hide Split, Names;
    TagVariable(tag, "env");
    TagVariable(tag, "localEnv");
    TagVariable(tag, "localWorkspaceFolder");
    TagVariable(tag, "localWorkspaceFolderBasename");
    TagVariable(tag, "containerWorkspaceFolder");
    TagVariable(tag, "containerWorkspaceFolderBasename");
    TagVariable(tag, "devcontainerId");
    TagVariable(tag, "containerEnv");
  }

  predicate LocalTag(tag: string) { Names(tag, "localWorkspaceFolder") || Names(tag, "localWorkspaceFolderBasename") }

  predicate ContainerTag(tag: string) {
    Names(tag, "containerWorkspaceFolder") || Names(tag, "containerWorkspaceFolderBasename")
  }

  predicate EnvTags(tag: string) { Names(tag, "env") || Names(tag, "localEnv") }

  // Which tags a phase handles.

  /** The host phase handles env and localEnv, and a folder's tags when the folder is known. */
  lemma HostHandles(host: Host, tag: string)
    ensures !ResolveHost(host, tag).Unhandled? <==>
            EnvTags(tag) || (LocalTag(tag) && host.localFolder != "") || (ContainerTag(tag) && host.containerFolder != "")
  {
    hide Split, Names, ResolveEnv, PosixBasename, WinBasename;
    Variables(tag);
    EnvNeverUnhandled(host, host.env, Split(tag, ':')[1..]);
  }

  lemma EnvNeverUnhandled(host: Host, env: Env, args: seq<string>)
    ensures !ResolveEnv(host, env, args).Unhandled?
  {
    hide Lookup, Join;
  }

  /** The identity phase handles devcontainerId when there is an id, and puts that in. */
  lemma IdentityHandles(id: string, tag: string)
    ensures ResolveIdentity(id, tag) == if Names(tag, "devcontainerId") && id != "" then Value(id) else Unhandled
  {
    hide Split, Names;
    Variables(tag);
  }

  /** The container phase handles containerEnv, with the environment it is given. */
  lemma ContainerHandles(host: Host, env: Env, tag: string)
    ensures !ResolveContainer(host, env, tag).Unhandled? <==> Names(tag, "containerEnv")
  {
    hide Split, Names, ResolveEnv;
    Variables(tag);
    EnvNeverUnhandled(host, env, Split(tag, ':')[1..]);
  }

  // Environment variables.

  /** Two names of one variable: on Windows regardless of case. */
  predicate SameName(host: Host, a: string, b: string) {
    if host.windows then host.lower(a) == host.lower(b) else a == b
  }

  /** The value of a variable is that of the last entry of its name. */
  lemma {:induction false} LookupIsLast(host: Host, env: Env, name: string)
    ensures Lookup(host, env, name).None? ==> forall i :: 0 <= i < |env| ==> !SameName(host, env[i].0, name)
    ensures Lookup(host, env, name).Some? ==>
              exists i :: 0 <= i < |env| && SameName(host, env[i].0, name) && env[i].1 == Lookup(host, env, name).value &&
                          forall j :: i < j < |env| ==> !SameName(host, env[j].0, name)
  {
    if env != [] {
      var n := |env| - 1;
      LookupIsLast(host, env[..n], name);
      assert forall i :: 0 <= i < n ==> env[..n][i] == env[i];
      if SameName(host, env[n].0, name) { assert Lookup(host, env, name).value == env[n].1; }
    }
  }

  /** `${env:NAME}` and `${containerEnv:NAME}`, with a default or without. */
  lemma OtherEnvTags(host: Host, env: Env, name: string, text: string)
    requires ':' !in name
    ensures var ours, theirs := Lookup(host, host.env, name), Lookup(host, env, name);
            ResolveHost(host, "env:" + name) == Value(if ours.Some? then ours.value else "") &&
            ResolveHost(host, "env:" + name + ":" + text) == Value(if ours.Some? then ours.value else text) &&
            ResolveContainer(host, env, "containerEnv:" + name) == Value(if theirs.Some? then theirs.value else "") &&
            ResolveContainer(host, env, "containerEnv:" + name + ":" + text) ==
            Value(if theirs.Some? then theirs.value else text)
  {
    hide Split, Join, Lookup;
    EnvParts("env", name, text);
    EnvParts("containerEnv", name, text);
    assert "env:" == "env" + ":" && "containerEnv:" == "containerEnv" + ":";
    SplitJoin(text, ':');
    assert ([name] + Split(text, ':'))[1..] == Split(text, ':');
  }

  lemma EnvParts(variable: string, name: string, text: string)
    requires ':' !in variable && ':' !in name
    ensures Split(variable + ":" + name, ':') == [variable, name]
    ensures var parts := Split(variable + ":" + name + ":" + text, ':');
            parts[0] == variable && parts[1..] == [name] + Split(text, ':')
  {
    hide Split;
    SplitFirst(variable, ':', name);
    SplitOne(name, ':');
    SplitFirst(variable, ':', name + ":" + text);
    SplitFirst(name, ':', text);
    assert variable + ":" + name + ":" + text == variable + ":" + (name + ":" + text);
    assert [variable] + [name] == [variable, name];
  }

  // Basenames.

  predicate AllIn(s: string, separators: string) { forall i :: 0 <= i < |s| ==> s[i] in separators }

  /** `b` holds no separator, has none but separators after it, and begins the path or follows one. */
  ghost predicate IsBasename(p: string, b: string, separators: string) {
    exists front: string, back: string ::
      p == front + b + back && AllIn(back, separators) && (forall c :: c in b ==> c !in separators) &&
      (front == "" || front[|front| - 1] in separators) && (b == "" ==> front == "")
  }

  lemma TrimmedIsBasename(p: string, separators: string)
    ensures IsBasename(p, AfterLast(TrimRight(p, separators), separators), separators)
  {
    hide *;
    var t := TrimRight(p, separators);
    var front := LastPart(t, separators);
    NothingLeft(t, separators);
    TrimmedBack(p, separators);
    Assemble(p, t, front, AfterLast(t, separators), separators);
  }

  lemma Assemble(p: string, t: string, front: string, b: string, separators: string)
    requires t <= p && t == front + b && AllIn(p[|t|..], separators) && (forall c :: c in b ==> c !in separators)
    requires (front == "" || front[|front| - 1] in separators) && (b == "" ==> front == "")
    ensures IsBasename(p, b, separators)
  {
    hide *;
    assert p == t + p[|t|..];
    BasenameParts(p, front, b, p[|t|..], separators);
  }

  lemma BasenameParts(p: string, front: string, b: string, back: string, separators: string)
    requires p == front + b + back && AllIn(back, separators) && (forall c :: c in b ==> c !in separators)
    requires (front == "" || front[|front| - 1] in separators) && (b == "" ==> front == "")
    ensures IsBasename(p, b, separators)
  {
    hide AllIn;
  }

  lemma TrimmedBack(p: string, separators: string)
    ensures AllIn(p[|TrimRight(p, separators)|..], separators)
  {
    hide TrimRight;
  }

  lemma {:induction false} LastPart(t: string, separators: string) returns (front: string)
    ensures t == front + AfterLast(t, separators) && (front == "" || front[|front| - 1] in separators)
  {
    if t == "" || t[|t| - 1] in separators {
      return t;
    }
    var n := |t| - 1;
    front := LastPart(t[..n], separators);
    LongerPart(t, t[..n], front, AfterLast(t[..n], separators));
  }

  lemma LongerPart(t: string, init: string, front: string, b: string)
    requires t != "" && init == t[..|t| - 1] && init == front + b
    ensures t == front + (b + [t[|t| - 1]])
  {
    assert t == init + [t[|t| - 1]];
  }

  lemma NothingLeft(t: string, separators: string)
    requires t == "" || t[|t| - 1] !in separators
    ensures AfterLast(t, separators) == "" ==> t == ""
  {
  }

  /** On Windows a drive letter goes first, and a backslash separates too. */
  lemma Basenames(p: string)
    ensures IsBasename(p, PosixBasename(p), "/")
    ensures if |p| >= 2 && p[1] == ':' && ('a' <= p[0] <= 'z' || 'A' <= p[0] <= 'Z')
            then IsBasename(p[2..], WinBasename(p), "/\\") else IsBasename(p, WinBasename(p), "/\\")
  {
    hide IsBasename, TrimRight, AfterLast;
    TrimmedIsBasename(p, "/");
    TrimmedIsBasename(p, "/\\");
    if |p| >= 2 { TrimmedIsBasename(p[2..], "/\\"); }
  }

  // A text of one tag.

  /** What a folder tag stands for; nothing, if the folder is not known. */
  ghost predicate FolderTag(host: Host, tag: string, folder: string, value: Option<string>) {
    if folder == "" then value.None?
    else
      value.Some? &&
      if Names(tag, "localWorkspaceFolder") || Names(tag, "containerWorkspaceFolder") then value.value == folder
      else if Names(tag, "localWorkspaceFolderBasename") && host.windows then value.value == WinBasename(folder)
      else value.value == PosixBasename(folder)
  }

  function ReplyOf(value: Option<string>): Reply { if value.Some? then Value(value.value) else Unhandled }

  /** The local tags come from the local folder, and the container's from the container's. */
  lemma FolderReplies(host: Host, tag: string) returns (value: Option<string>)
    requires LocalTag(tag) || ContainerTag(tag)
    ensures FolderTag(host, tag, if LocalTag(tag) then host.localFolder else host.containerFolder, value)
    ensures ResolveHost(host, tag) == ReplyOf(value)
  {
    hide Split, Names, ResolveEnv, PosixBasename, WinBasename;
    Variables(tag);
    value := if ResolveHost(host, tag).Value? then Some(ResolveHost(host, tag).text) else None;
  }

  lemma PlainPass(f: Replacer, s: string)
    requires '$' !in s
    ensures Replaced(f, Scan(s)) == Done(s)
  {
    hide Scan, Replaced, Plains;
    forall k | 0 <= k < |s|
      ensures !Opens(s[k..])
    {
      assert s[k..][0] == s[k];
    }
    NoTags(s);
    AllPlain(f, s);
  }

  /**
   A text of one folder tag becomes the folder or its basename, or stays as it
   is when the folder is not known. The container's folder is the one with its
   own tags resolved.
   */
  lemma FolderText(host: Host, id: string, tag: string) returns (value: Option<string>)
    requires (LocalTag(tag) || ContainerTag(tag)) && '}' !in tag && Prepared(host).Done?
    ensures FolderTag(host, tag, if LocalTag(tag) then host.localFolder else Prepared(host).value.containerFolder, value)
    ensures HostPhase(host, Leaf(TagText(tag))) == Done(Leaf(if value.Some? then value.value else TagText(tag)))
    ensures value.None? ==> BeforeContainer(host, id, Leaf(TagText(tag))) == Done(Leaf(TagText(tag)))
    ensures value.Some? ==>
              BeforeContainer(host, id, Leaf(TagText(tag))) == Resolve(IdentityReplacer(id), Leaf(value.value))
    ensures value.Some? && '$' !in value.value ==>
              BeforeContainer(host, id, Leaf(TagText(tag))) == Done(Leaf(value.value))
  {
    PreparedKeeps(host);
    var ready := Prepared(host).value;
    value := FolderReplies(ready, tag);
    NotIdentity(tag, id);
    hide Scan, Replaced, ResolveHost, ResolveIdentity, Prepared, Names, FolderTag;
    OneTag(HostReplacer(ready), tag);
    OneTag(IdentityReplacer(id), tag);
    if value.Some? && '$' !in value.value { PlainPass(IdentityReplacer(id), value.value); }
  }

  lemma PreparedKeeps(host: Host)
    requires Prepared(host).Done?
    ensures Prepared(host).value == host.(containerFolder := Prepared(host).value.containerFolder)
  {
    hide Replaced;
  }

  lemma NotIdentity(tag: string, id: string)
    requires LocalTag(tag) || ContainerTag(tag)
    ensures ResolveIdentity(id, tag).Unhandled?
  {
    hide Split, Names;
    Variables(tag);
  }

  /** A text of the id's tag becomes the id, or stays when there is none. */
  lemma IdentityText(host: Host, id: string, tag: string)
    requires Names(tag, "devcontainerId") && '}' !in tag && Prepared(host).Done?
    ensures BeforeContainer(host, id, Leaf(TagText(tag))) == Done(Leaf(if id == "" then TagText(tag) else id))
  {
    var ready := Prepared(host).value;
    HostHandles(ready, tag);
    Variables(tag);
    IdentityHandles(id, tag);
    hide Scan, Replaced, ResolveHost, ResolveIdentity, Prepared, Names, Split;
    OneTag(HostReplacer(ready), tag);
    OneTag(IdentityReplacer(id), tag);
  }

  /** The local tags do not depend on the container's folder, nor the container's on the local one. */
  lemma FoldersApart(host: Host, folder: string, tag: string)
    ensures LocalTag(tag) ==> ResolveHost(host.(containerFolder := folder), tag) == ResolveHost(host, tag)
    ensures ContainerTag(tag) ==> ResolveHost(host.(localFolder := folder), tag) == ResolveHost(host, tag)
  {
    hide Split, Names, ResolveEnv, PosixBasename, WinBasename;
    Variables(tag);
  }

  /** The container's folder has the host's tags in it resolved before anything else. */
  lemma PreparedIs(host: Host)
    ensures host.containerFolder == "" ==> Prepared(host) == Done(host)
    ensures host.containerFolder != "" ==>
              var folder := Replaced(HostReplacer(host), Scan(host.containerFolder));
              if folder.Done? then Prepared(host) == Done(host.(containerFolder := folder.value))
              else Prepared(host) == Failed(folder.tag)
  {
  }

  /** A pass over a list or an object is one over each of its values; keys and other values stay. */
  lemma {:induction false} TreeLaws(f: Replacer, vs: seq<Tree>, keys: seq<string>, text: string)
    ensures Resolve(f, Other(text)) == Done(Other(text))
    ensures (exists i :: 0 <= i < |vs| && Resolve(f, vs[i]).Failed?) <==> Resolve(f, List(vs)).Failed?
    ensures Resolve(f, Object(keys, vs)).Failed? <==> Resolve(f, List(vs)).Failed?
    ensures Resolve(f, List(vs)).Done? ==>
              var list, obj := Resolve(f, List(vs)).value, Resolve(f, Object(keys, vs)).value;
              list.List? && obj == Object(keys, list.elems) && |list.elems| == |vs| &&
              forall i :: 0 <= i < |vs| ==> Resolve(f, vs[i]) == Done(list.elems[i])
  {
    if vs != [] {
      TreeLaws(f, vs[1..], keys, text);
      assert forall i :: 0 < i < |vs| ==> vs[i] == vs[1..][i - 1];
      assert forall i :: 0 <= i < |vs| - 1 ==> vs[1..][i] == vs[i + 1];
    }
  }
}
