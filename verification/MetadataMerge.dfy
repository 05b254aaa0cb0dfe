/**
 Merging the metadata entries of an image (internal/imagemeta/merge.go:53-418).

 The source makes a forward pass for lists, another for flags, one backwards
 for scalars, and removes earlier mounts at the end. It is proved equal to one
 left fold, in which each entry is laid over what came before it.
 */
module MetadataMerge {
  import opened LifecycleHooks
  import opened Strings
  import opened Wrappers
  import JsObject

  // Entries.

  /** A mount as an object with its target ("" when it has none), as a string, or as another value. */
  datatype Mount = ObjectMount(target: string, rest: string) | StringMount(text: string) | OtherMount(json: string)

  /** The properties of which the last one set wins. */
  datatype Scalars = Scalars(
    remoteUser: string, containerUser: string, userEnvProbe: string, shutdownAction: string, waitFor: Option<Phase>,
    otherPorts: Option<string>, overrideCommand: Option<bool>, updateRemoteUserUID: Option<bool>)

  datatype HostRequirements = HostRequirements(cpus: real, memory: string, storage: string)

  /** Lists appended, or joined without repetitions, and maps laid over each other. */
  datatype Collections = Collections(
    entrypoints: seq<string>, capAdd: seq<string>, securityOpt: seq<string>, mounts: seq<Mount>,
    containerEnv: map<string, string>, remoteEnv: map<string, Option<string>>,
    customizations: map<string, seq<string>>, portsAttributes: map<string, string>)

  datatype Metadata = Metadata(
    id: string, commands: map<Phase, Command>, entrypoint: string, capAdd: seq<string>, securityOpt: seq<string>,
    mounts: seq<Mount>, containerEnv: map<string, string>, remoteEnv: map<string, Option<string>>,
    customizations: map<string, string>, portsAttributes: map<string, string>, init: Option<bool>,
    privileged: Option<bool>, scalars: Scalars, requirements: Option<HostRequirements>)

  const NO_SCALARS := Scalars("", "", "", "", None, None, None, None)

  const NO_COLLECTIONS := Collections([], [], [], [], map[], map[], map[], map[])

  /** Nothing is set: the entry is written as {}. */
  predicate IsEmpty(e: Metadata) {
    e.id == "" && (forall p :: p in e.commands ==> e.commands[p] == NoCommand) && e.entrypoint == "" && e.capAdd == [] && e.securityOpt == [] && e.mounts == [] &&
    e.containerEnv == map[] && e.remoteEnv == map[] && e.customizations == map[] && e.portsAttributes == map[] &&
    e.init.None? && e.privileged.None? && e.scalars == NO_SCALARS && e.requirements.None?
  }

  // Commands, each with the origin of its entry.

  type Hook = seq<(Command, string)>

  function Origin(e: Metadata): string { if e.id == "" then "devcontainer.json" else e.id }

  /** The command of a hook that an entry brings. Null and the empty string bring none. */
  function Brought(e: Metadata, p: Phase): Hook {
    if p !in e.commands || e.commands[p] == NoCommand || e.commands[p] == Line("") then [] else [(e.commands[p], Origin(e))]
  }

  function Commands(hook: Hook): (r: seq<Command>)
    ensures |r| == |hook| && forall i :: 0 <= i < |r| ==> r[i] == hook[i].0
  {
    seq(|hook|, i requires 0 <= i < |hook| => hook[i].0)
  }

  function Origins(hook: Hook): (r: seq<string>)
    ensures |r| == |hook| && forall i :: 0 <= i < |r| ==> r[i] == hook[i].1
  {
    seq(|hook|, i requires 0 <= i < |hook| => hook[i].1)
  }

  // Lists and maps.

  /** The items of `src` that `dst` does not have, put after it, each once. */
  function AppendUnique(dst: seq<string>, src: seq<string>): seq<string>
    decreases |src|
  {
    if src == [] then dst else AppendUnique(if src[0] in dst then dst else dst + [src[0]], src[1..])
  }

  /** The names of a mount's target in a string. */
  predicate TargetKey(k: string) { k == "target" || k == "destination" || k == "dst" }

  predicate IsSpace(c: char) {
    '\t' <= c <= '\r' || c == ' ' || c == '\U{85}' || c == '\U{a0}' || c == '\U{1680}' || '\U{2000}' <= c <= '\U{200a}' ||
    c == '\U{2028}' || c == '\U{2029}' || c == '\U{202f}' || c == '\U{205f}' || c == '\U{3000}'
  }

  function TrimLeft(s: string): string { if s != "" && IsSpace(s[0]) then TrimLeft(s[1..]) else s }
  function TrimRight(s: string): string { if s != "" && IsSpace(s[|s| - 1]) then TrimRight(s[..|s| - 1]) else s }

  function TargetOf(parts: seq<string>): Option<string> {
    if parts == [] then None
    else
      var i := Index(parts[0], '=');
      if i.Some? && TargetKey(TrimRight(TrimLeft(parts[0][..i.value]))) then Some(parts[0][i.value + 1..])
      else TargetOf(parts[1..])
  }

  /** What two mounts to the same place have in common. */
  function MountTarget(m: Mount): string {
    match m
    case ObjectMount(target, _) => target
    case StringMount(text) => (match TargetOf(Split(text, ',')) case Some(t) => t case None => text)
    case OtherMount(_) => ""
  }

  function Without(mounts: seq<Mount>, target: string): seq<Mount> {
    if mounts == [] then []
    else (if MountTarget(mounts[0]) == target then [] else [mounts[0]]) + Without(mounts[1..], target)
  }

  /** A mount takes the place of the one with its target, and comes last. */
  function PutMount(mounts: seq<Mount>, m: Mount): seq<Mount> { Without(mounts, MountTarget(m)) + [m] }

  function PutMounts(mounts: seq<Mount>, more: seq<Mount>): seq<Mount>
    decreases |more|
  {
    if more == [] then mounts else PutMounts(PutMount(mounts, more[0]), more[1..])
  }

  /** Each value under its key, after those of earlier entries. */
  function Group(groups: map<string, seq<string>>, more: map<string, string>): map<string, seq<string>> {
    map k | k in groups.Keys + more.Keys ::
      (if k in groups then groups[k] else []) + (if k in more then [more[k]] else [])
  }

  function Collect(c: Collections, e: Metadata): Collections {
    Collections(
      c.entrypoints + (if e.entrypoint == "" then [] else [e.entrypoint]),
      AppendUnique(c.capAdd, e.capAdd),
      AppendUnique(c.securityOpt, e.securityOpt),
      PutMounts(c.mounts, e.mounts),
      c.containerEnv + e.containerEnv,
      c.remoteEnv + e.remoteEnv,
      Group(c.customizations, e.customizations),
      c.portsAttributes + e.portsAttributes)
  }

  // Scalars.

  function OverText(a: string, b: string): string { if b == "" then a else b }
  function OverOption<T>(a: Option<T>, b: Option<T>): Option<T> { if b.None? then a else b }

  /** What `b` sets, and elsewhere what `a` sets. */
  function Over(a: Scalars, b: Scalars): Scalars {
    Scalars(
      OverText(a.remoteUser, b.remoteUser), OverText(a.containerUser, b.containerUser),
      OverText(a.userEnvProbe, b.userEnvProbe), OverText(a.shutdownAction, b.shutdownAction),
      OverOption(a.waitFor, b.waitFor), OverOption(a.otherPorts, b.otherPorts),
      OverOption(a.overrideCommand, b.overrideCommand), OverOption(a.updateRemoteUserUID, b.updateRemoteUserUID))
  }

  // Host requirements.

  /** A count of bytes: digits and a unit. Anything else counts for nothing. */
  function ParseBytes(s: string): nat {
    var n := |s|;
    var unit := if n >= 2 && s[n - 1] == 'b' then UnitOf(s[n - 2]) else 1;
    var digits := if unit == 1 then s else s[..n - 2];
    if digits != "" && JsObject.AllDigits(digits) then JsObject.Number(digits) * unit else 0
  }

  function UnitOf(c: char): nat {
    if c == 't' then 0x100_0000_0000
    else if c == 'g' then 0x4000_0000
    else if c == 'm' then 0x10_0000
    else if c == 'k' then 0x400 else 1
  }

  /** What is required of the host. Of no entries at all the maximum is minus infinity. */
  datatype Required = OfNothing | Required(cpus: real, memory: nat, storage: nat)

  const NO_REQUIREMENTS := Required(0.0, 0, 0)

  function MaxReal(a: real, b: real): real { if b > a then b else a }
  function MaxNat(a: nat, b: nat): nat { if b > a then b else a }

  function Require(r: Required, e: Metadata): Required {
    var at := if r.OfNothing? then NO_REQUIREMENTS else r;
    match e.requirements
    case None => at
    case Some(hr) =>
      Required(MaxReal(at.cpus, hr.cpus), MaxNat(at.memory, ParseBytes(hr.memory)),
               MaxNat(at.storage, ParseBytes(hr.storage)))
  }

  /** What is written down: nothing, when nothing is required. */
  function Written(r: Required): Option<Required> { if r == NO_REQUIREMENTS then None else Some(r) }

  // The fold.

  datatype Merging = Merging(hooks: map<Phase, Hook>, collections: Collections, init: bool, privileged: bool,
                             scalars: Scalars, required: Required)

  const NO_HOOKS: map<Phase, Hook> :=
    map[OnCreate := [], UpdateContent := [], PostCreate := [], PostStart := [], PostAttach := []]

  const START := Merging(NO_HOOKS, NO_COLLECTIONS, false, false, NO_SCALARS, OfNothing)

  function AddHooks(hooks: map<Phase, Hook>, e: Metadata): map<Phase, Hook> {
    map p | p in hooks :: hooks[p] + Brought(e, p)
  }

  /** An entry laid over what came before it. */
  function Lay(m: Merging, e: Metadata): Merging {
    Merging(AddHooks(m.hooks, e), Collect(m.collections, e), m.init || e.init == Some(true),
            m.privileged || e.privileged == Some(true), Over(m.scalars, e.scalars), Require(m.required, e))
  }

  function Fold(entries: seq<Metadata>): Merging {
    if entries == [] then START else Lay(Fold(entries[..|entries| - 1]), entries[|entries| - 1])
  }

  lemma FoldStep(entries: seq<Metadata>, n: nat)
    requires n < |entries|
    ensures Fold(entries[..n + 1]) == Lay(Fold(entries[..n]), entries[n])
  {
    hide Lay;
    assert entries[..n + 1][..n] == entries[..n];
  }

  /** The entries that set something. */
  function NonEmpty(entries: seq<Metadata>): seq<Metadata> {
    if entries == [] then []
    else (if IsEmpty(entries[0]) then [] else [entries[0]]) + NonEmpty(entries[1..])
  }

  /** What the caller gets. A hook with no commands has no origins recorded. */
  datatype Result = Result(hooks: Hooks, collections: Collections, init: bool, privileged: bool, scalars: Scalars,
                           required: Option<Required>)

  function CommandMap(hooks: map<Phase, Hook>): map<Phase, seq<Command>> { map p | p in hooks :: Commands(hooks[p]) }

  function OriginMap(hooks: map<Phase, Hook>): map<Phase, seq<string>> {
    map p | p in hooks && hooks[p] != [] :: Origins(hooks[p])
  }

  ghost predicate AllHooks(hooks: map<Phase, Hook>) { hooks.Keys == {OnCreate, UpdateContent, PostCreate, PostStart, PostAttach} }

  function Finish(m: Merging): Result
    requires AllHooks(m.hooks)
  {
    var c := CommandMap(m.hooks);
    Result(Hooks(c[OnCreate], c[UpdateContent], c[PostCreate], c[PostStart], c[PostAttach], OriginMap(m.hooks),
                 m.scalars.waitFor),
           m.collections, m.init, m.privileged, m.scalars, Written(m.required))
  }

  lemma {:induction false} FoldHooks(entries: seq<Metadata>)
    ensures AllHooks(Fold(entries).hooks)
  {
    if entries != [] { FoldHooks(entries[..|entries| - 1]); }
  }

  // Laws of the parts.

  /** Overlaying is associative, so the last entry that sets a scalar can be looked for from the end. */
  function FromTheEnd(entries: seq<Metadata>): Scalars {
    if entries == [] then NO_SCALARS else Over(entries[0].scalars, FromTheEnd(entries[1..]))
  }

  lemma OverAssociative(a: Scalars, b: Scalars, c: Scalars)
    ensures Over(Over(a, b), c) == Over(a, Over(b, c)) && Over(NO_SCALARS, c) == c && Over(c, NO_SCALARS) == c
  {
  }

  lemma {:induction false} FromTheEndAppend(entries: seq<Metadata>, e: Metadata)
    ensures FromTheEnd(entries + [e]) == Over(FromTheEnd(entries), e.scalars)
  {
    hide Over;
    if entries == [] {
      assert [] + [e] == [e] && [e][1..] == [];
      OverAssociative(NO_SCALARS, NO_SCALARS, e.scalars);
    } else {
      assert (entries + [e])[1..] == entries[1..] + [e];
      FromTheEndAppend(entries[1..], e);
      OverAssociative(entries[0].scalars, FromTheEnd(entries[1..]), e.scalars);
    }
  }

  lemma {:induction false} ScalarsFromTheEnd(entries: seq<Metadata>)
    ensures Fold(entries).scalars == FromTheEnd(entries)
  {
    hide Over;
    if entries != [] {
      var n := |entries| - 1;
      ScalarsFromTheEnd(entries[..n]);
      FromTheEndAppend(entries[..n], entries[n]);
      assert entries[..n] + [entries[n]] == entries;
    }
  }

  /** No mount of the list has the target of a later one. */
  predicate LaterTarget(mounts: seq<Mount>, i: nat, target: string) {
    exists j :: i <= j < |mounts| && MountTarget(mounts[j]) == target
  }

  /** The last mount of each target, in the order of the list. */
  function KeepLast(mounts: seq<Mount>): seq<Mount> {
    if mounts == [] then []
    else (if LaterTarget(mounts, 1, MountTarget(mounts[0])) then [] else [mounts[0]]) + KeepLast(mounts[1..])
  }

  lemma {:induction false} KeepLastAppend(mounts: seq<Mount>, m: Mount)
    ensures KeepLast(mounts + [m]) == PutMount(KeepLast(mounts), m)
  {
    hide MountTarget, LaterTarget;
    if mounts == [] {
      assert [] + [m] == [m] && [m][1..] == [];
      AloneLast(m);
    } else {
      var first, rest := mounts[0], mounts[1..];
      assert (mounts + [m])[0] == first && (mounts + [m])[1..] == rest + [m];
      KeepLastAppend(rest, m);
      LaterAppend(mounts, m);
      var kept := if LaterTarget(mounts, 1, MountTarget(first)) then [] else [first];
      assert kept + KeepLast(rest) == KeepLast(mounts);
      WithoutFirst(kept, KeepLast(rest), MountTarget(m));
    }
  }

  lemma AloneLast(m: Mount)
    ensures !LaterTarget([m], 1, MountTarget(m))
  {
  }

  lemma LaterAppend(mounts: seq<Mount>, m: Mount)
    requires mounts != []
    ensures LaterTarget(mounts + [m], 1, MountTarget(mounts[0])) <==>
            LaterTarget(mounts, 1, MountTarget(mounts[0])) || MountTarget(m) == MountTarget(mounts[0])
  {
    hide MountTarget;
    var target := MountTarget(mounts[0]);
    assert (mounts + [m])[|mounts|] == m;
    if LaterTarget(mounts, 1, target) {
      var j :| 1 <= j < |mounts| && MountTarget(mounts[j]) == target;
      assert MountTarget((mounts + [m])[j]) == target;
    }
  }

  lemma WithoutFirst(kept: seq<Mount>, rest: seq<Mount>, target: string)
    requires |kept| <= 1
    ensures Without(kept + rest, target) ==
            (if kept != [] && MountTarget(kept[0]) == target then [] else kept) + Without(rest, target)
  {
    hide MountTarget;
    if kept == [] {
      assert kept + rest == rest && [] + Without(rest, target) == Without(rest, target);
    } else {
      assert (kept + rest)[1..] == rest;
    }
  }

  /** Putting the mounts in one by one, or dropping all but the last of each target at the end, comes to the same. */
  lemma {:induction false} PutAllKeepsLast(mounts: seq<Mount>, more: seq<Mount>)
    ensures PutMounts(KeepLast(mounts), more) == KeepLast(mounts + more)
    decreases |more|
  {
    hide KeepLast, PutMount;
    if more == [] {
      assert mounts + more == mounts;
    } else {
      KeepLastAppend(mounts, more[0]);
      PutAllKeepsLast(mounts + [more[0]], more[1..]);
      assert mounts + [more[0]] + more[1..] == mounts + more;
    }
  }

  /** The mount `m` is at `i`, and no later one has its target. */
  predicate LastAt(mounts: seq<Mount>, i: nat, m: Mount) {
    i < |mounts| && mounts[i] == m && !LaterTarget(mounts, i + 1, MountTarget(m))
  }

  lemma LastShift(mounts: seq<Mount>, i: nat, m: Mount)
    requires mounts != []
    ensures LastAt(mounts[1..], i, m) <==> LastAt(mounts, i + 1, m)
  {
    hide MountTarget;
    var t := MountTarget(m);
    if LaterTarget(mounts[1..], i + 1, t) {
      var j :| i + 1 <= j < |mounts| - 1 && MountTarget(mounts[1..][j]) == t;
      assert MountTarget(mounts[j + 1]) == t;
    }
    if LaterTarget(mounts, i + 2, t) {
      var j :| i + 2 <= j < |mounts| && MountTarget(mounts[j]) == t;
      assert MountTarget(mounts[1..][j - 1]) == t;
    }
  }

  lemma KeepLastStep(mounts: seq<Mount>)
    requires mounts != []
    ensures KeepLast(mounts) ==
            (if LastAt(mounts, 0, mounts[0]) then [mounts[0]] else []) + KeepLast(mounts[1..])
  {
  }

  /** A mount is kept exactly when it is the last of its target. */
  lemma {:induction false} KeptIff(mounts: seq<Mount>, m: Mount)
    ensures m in KeepLast(mounts) <==> exists i: nat :: LastAt(mounts, i, m)
  {
    hide LastAt, LaterTarget, MountTarget, KeepLast;
    if mounts == [] {
      NoneKept(m);
    } else {
      KeptIff(mounts[1..], m);
      KeepLastStep(mounts);
      AtFirst(mounts, m);
      if m in KeepLast(mounts[1..]) {
        var i: nat :| LastAt(mounts[1..], i, m);
        LastShift(mounts, i, m);
      }
      if i: nat :| LastAt(mounts, i, m) {
        if i > 0 { LastShift(mounts, i - 1, m); }
      }
    }
  }

  lemma NoneKept(m: Mount)
    ensures KeepLast([]) == [] && forall i: nat :: !LastAt([], i, m)
  {
  }

  lemma AtFirst(mounts: seq<Mount>, m: Mount)
    requires mounts != []
    ensures LastAt(mounts, 0, m) <==> m == mounts[0] && LastAt(mounts, 0, mounts[0])
  {
  }

  /** No two mounts that are kept have the same target. */
  lemma {:induction false} KeptDistinct(mounts: seq<Mount>)
    ensures forall i, j :: 0 <= i < j < |KeepLast(mounts)| ==>
              MountTarget(KeepLast(mounts)[i]) != MountTarget(KeepLast(mounts)[j])
  {
    hide MountTarget, LaterTarget;
    if mounts != [] {
      KeptDistinct(mounts[1..]);
      forall k | 0 <= k < |KeepLast(mounts[1..])|
        ensures LaterTarget(mounts, 1, MountTarget(KeepLast(mounts[1..])[k]))
      {
        KeptIff(mounts[1..], KeepLast(mounts[1..])[k]);
        var i: nat :| LastAt(mounts[1..], i, KeepLast(mounts[1..])[k]);
        HasTarget(mounts, i + 1);
      }
    }
  }

  lemma HasTarget(mounts: seq<Mount>, i: nat)
    requires 1 <= i < |mounts|
    ensures LaterTarget(mounts, 1, MountTarget(mounts[i]))
  {
  }

  // Laws of the whole.

  /** An entry that sets nothing changes nothing; it only counts as an entry. */
  lemma EmptyEntry(m: Merging, e: Metadata)
    requires IsEmpty(e) && m.required != OfNothing && AllHooks(m.hooks)
    ensures Lay(m, e) == m
  {
    forall p | p in m.hooks
      ensures m.hooks[p] + Brought(e, p) == m.hooks[p]
    {
    }
    assert AddHooks(m.hooks, e) == m.hooks;
    assert Group(m.collections.customizations, map[]) == m.collections.customizations by {
      forall k | k in m.collections.customizations
        ensures Group(m.collections.customizations, map[])[k] == m.collections.customizations[k]
      {
      }
    }
    assert m.collections.entrypoints + [] == m.collections.entrypoints;
    assert m.collections.containerEnv + map[] == m.collections.containerEnv;
    assert m.collections.remoteEnv + map[] == m.collections.remoteEnv;
    assert m.collections.portsAttributes + map[] == m.collections.portsAttributes;
  }

  lemma {:induction false} NonEmptyAppend(entries: seq<Metadata>, e: Metadata)
    ensures NonEmpty(entries + [e]) == NonEmpty(entries) + if IsEmpty(e) then [] else [e]
  {
    hide IsEmpty;
    if entries == [] {
      assert [] + [e] == [e] && [e][1..] == [];
    } else {
      assert (entries + [e])[0] == entries[0] && (entries + [e])[1..] == entries[1..] + [e];
      NonEmptyAppend(entries[1..], e);
    }
  }

  lemma {:induction false} FoldRequired(entries: seq<Metadata>)
    ensures Fold(entries).required == OfNothing <==> entries == []
  {
    hide ParseBytes;
  }

  lemma FromNothing(m: Merging, e: Metadata)
    ensures Lay(m.(required := OfNothing), e) == Lay(m.(required := NO_REQUIREMENTS), e)
  {
  }

  lemma {:induction false} OnlyEmpty(entries: seq<Metadata>)
    requires NonEmpty(entries) == []
    ensures Fold(entries) == if entries == [] then START else START.(required := NO_REQUIREMENTS)
  {
    hide IsEmpty, Lay;
    if entries != [] {
      var init, last := entries[..|entries| - 1], entries[|entries| - 1];
      assert entries == init + [last];
      NonEmptyAppend(init, last);
      OnlyEmpty(init);
      FromNothing(START, last);
      EmptyEntry(START.(required := NO_REQUIREMENTS), last);
    }
  }

  /** Dropping the entries that set nothing makes no difference, as long as one is left. */
  lemma {:induction false} EmptyEntriesDropped(entries: seq<Metadata>)
    requires NonEmpty(entries) != []
    ensures Fold(NonEmpty(entries)) == Fold(entries)
  {
    hide IsEmpty, Lay;
    var init, last := entries[..|entries| - 1], entries[|entries| - 1];
    assert entries == init + [last];
    NonEmptyAppend(init, last);
    if NonEmpty(init) == [] {
      OnlyEmpty(init);
      FromNothing(START, last);
      assert NonEmpty(entries) == [last] && [last][..0] == [];
    } else {
      EmptyEntriesDropped(init);
      if IsEmpty(last) {
        FoldRequired(init);
        FoldHooks(init);
        EmptyEntry(Fold(init), last);
        assert NonEmpty(init) + [] == NonEmpty(init);
      } else {
        var kept := NonEmpty(init) + [last];
        assert kept[..|kept| - 1] == NonEmpty(init);
      }
    }
  }
}
