/**
 The passes of MergeConfiguration (internal/imagemeta/merge.go:56-173, 205-217,
 379-430), each proved to give its part of the fold of the entries.
 */
module MetadataMerger {
  import opened LifecycleHooks
  import opened MetadataMerge
  import opened MetadataWinners
  import opened Wrappers

  method NonEmptyEntries(entries: seq<Metadata>) returns (out: seq<Metadata>)
    ensures out == NonEmpty(entries)
  {
    hide IsEmpty;
    out := [];
    var n := 0;
    assert entries[..0] == [];
    while n < |entries|
      invariant n <= |entries| && out == NonEmpty(entries[..n])
    {
      assert entries[..n + 1] == entries[..n] + [entries[n]];
      NonEmptyAppend(entries[..n], entries[n]);
      if !IsEmpty(entries[n]) { out := out + [entries[n]]; }
      n := n + 1;
    }
    assert entries[..n] == entries;
  }

  method AppendMissing(dst: seq<string>, src: seq<string>) returns (out: seq<string>)
    ensures out == AppendUnique(dst, src)
  {
    out := dst;
    var seen := set s | s in dst;
    var n := 0;
    assert src[0..] == src;
    while n < |src|
      invariant n <= |src| && AppendUnique(out, src[n..]) == AppendUnique(dst, src)
      invariant forall s :: s in seen <==> s in out
    {
      assert src[n..][1..] == src[n + 1..];
      if src[n] !in seen {
        out := out + [src[n]];
        seen := seen + {src[n]};
      }
      n := n + 1;
    }
  }

  lemma {:induction false} AppendUniqueItems(dst: seq<string>, src: seq<string>)
    ensures var out := AppendUnique(dst, src); dst <= out && forall s :: s in out <==> s in dst || s in src
    decreases |src|
  {
    if src != [] {
      var have := if src[0] in dst then dst else dst + [src[0]];
      AppendUniqueItems(have, src[1..]);
      assert AppendUnique(dst, src) == AppendUnique(have, src[1..]);
      hide AppendUnique;
      assert src == [src[0]] + src[1..];
      assert forall s :: s in have <==> s in dst || s == src[0];
    }
  }

  /** The union: what was there stays in front, nothing else is added, and nothing new is added twice. */
  lemma {:induction false} AppendUniqueLaws(dst: seq<string>, src: seq<string>)
    ensures var out := AppendUnique(dst, src);
            dst <= out && (forall s :: s in out <==> s in dst || s in src) &&
            forall i, j :: 0 <= i < j < |out| && |dst| <= j ==> out[i] != out[j]
    decreases |src|
  {
    AppendUniqueItems(dst, src);
    if src != [] {
      var have := if src[0] in dst then dst else dst + [src[0]];
      AppendUniqueLaws(have, src[1..]);
      assert AppendUnique(dst, src) == AppendUnique(have, src[1..]);
      hide AppendUnique;
      var out := AppendUnique(dst, src);
      if |dst| < |have| {
        assert out[|dst|] == have[|dst|] == src[0];
        assert forall i :: 0 <= i < |dst| ==> out[i] == dst[i] && dst[i] in dst;
      }
    }
  }

  /** The values under the keys of `keys`. */
  function Part(more: map<string, string>, keys: set<string>): map<string, string> {
    map k | k in more && k in keys :: more[k]
  }

  method GroupCustomizations(groups: map<string, seq<string>>, more: map<string, string>)
    returns (out: map<string, seq<string>>)
    ensures out == Group(groups, more)
  {
    hide Group, Part;
    out := groups;
    var left := more.Keys;
    ghost var done: set<string> := {};
    GroupNothing(groups, more);
    while left != {}
      invariant done + left == more.Keys && done !! left
      invariant out == Group(groups, Part(more, done))
      decreases left
    {
      var k :| k in left;
      GroupNext(groups, more, done, k);
      out := out[k := (if k in out then out[k] else []) + [more[k]]];
      left, done := left - {k}, done + {k};
    }
    WholePart(more);
    assert done == more.Keys;
  }

  lemma GroupNext(groups: map<string, seq<string>>, more: map<string, string>, keys: set<string>, k: string)
    requires k in more && k !in keys
    ensures var out := Group(groups, Part(more, keys));
            Group(groups, Part(more, keys + {k})) == out[k := (if k in out then out[k] else []) + [more[k]]]
  {
    assert Part(more, keys + {k}) == Part(more, keys)[k := more[k]];
    var part := Part(more, keys);
    assert k !in part;
    hide Part;
    GroupPut(groups, part, k, more[k]);
  }

  lemma GroupPut(groups: map<string, seq<string>>, part: map<string, string>, k: string, v: string)
    requires k !in part
    ensures var out := Group(groups, part);
            Group(groups, part[k := v]) == out[k := (if k in out then out[k] else []) + [v]]
  {
    var out, next := Group(groups, part), Group(groups, part[k := v]);
    if k in groups { assert out[k] == groups[k] + [] == groups[k]; }
    assert next.Keys == out.Keys + {k};
  }

  lemma GroupNothing(groups: map<string, seq<string>>, more: map<string, string>)
    ensures Group(groups, Part(more, {})) == groups
  {
    forall k | k in groups
      ensures Group(groups, Part(more, {}))[k] == groups[k]
    {
    }
  }

  lemma WholePart(more: map<string, string>)
    ensures Part(more, more.Keys) == more
  {
  }

  /** The hooks with what one entry brings to the hook `p`. */
  function AddHook(hooks: map<Phase, Hook>, p: Phase, e: Metadata): map<Phase, Hook>
    requires p in hooks
  {
    hooks[p := hooks[p] + Brought(e, p)]
  }

  method CollectCommand(commands: map<Phase, seq<Command>>, origins: map<Phase, seq<string>>, p: Phase, e: Metadata,
                        ghost hooks: map<Phase, Hook>)
    returns (commands': map<Phase, seq<Command>>, origins': map<Phase, seq<string>>)
    requires p in hooks && commands == CommandMap(hooks) && origins == OriginMap(hooks)
    ensures commands' == CommandMap(AddHook(hooks, p, e)) && origins' == OriginMap(AddHook(hooks, p, e))
  {
    hide CommandMap, OriginMap, AddHook;
    var command := if p in e.commands then e.commands[p] else NoCommand;
    commands', origins' := commands, origins;
    HookMaps(hooks, p, e);
    if command != NoCommand && command != Line("") {
      commands' := commands[p := commands[p] + [command]];
      origins' := origins[p := (if p in origins then origins[p] else []) + [Origin(e)]];
    }
  }

  lemma HookMaps(hooks: map<Phase, Hook>, p: Phase, e: Metadata)
    requires p in hooks
    ensures p in CommandMap(hooks)
    ensures var more, c, o := Brought(e, p), CommandMap(hooks), OriginMap(hooks);
            if more == [] then AddHook(hooks, p, e) == hooks
            else
              CommandMap(AddHook(hooks, p, e)) == c[p := c[p] + [more[0].0]] &&
              OriginMap(AddHook(hooks, p, e)) == o[p := (if p in o then o[p] else []) + [more[0].1]]
  {
    hide Brought;
    var more := Brought(e, p);
    if more == [] {
      assert hooks[p] + [] == hooks[p];
    } else {
      OneBrought(e, p);
      assert more == [more[0]];
      LongerMaps(hooks, p, more[0]);
    }
  }

  lemma OneBrought(e: Metadata, p: Phase)
    ensures |Brought(e, p)| <= 1
  {
  }

  lemma LongerMaps(hooks: map<Phase, Hook>, p: Phase, more: (Command, string))
    requires p in hooks
    ensures var c, o, longer := CommandMap(hooks), OriginMap(hooks), hooks[p := hooks[p] + [more]];
            CommandMap(longer) == c[p := c[p] + [more.0]] &&
            OriginMap(longer) == o[p := (if p in o then o[p] else []) + [more.1]]
  {
    assert Commands(hooks[p] + [more]) == Commands(hooks[p]) + [more.0];
    assert Origins(hooks[p] + [more]) == Origins(hooks[p]) + [more.1];
    assert hooks[p] == [] ==> Origins(hooks[p]) == [];
  }

  lemma AddEach(hooks: map<Phase, Hook>, e: Metadata)
    requires AllHooks(hooks)
    ensures AddHook(AddHook(AddHook(AddHook(AddHook(hooks, OnCreate, e), UpdateContent, e), PostCreate, e), PostStart, e),
                    PostAttach, e) == AddHooks(hooks, e)
  {
    hide Brought;
  }

  /** All the mounts of the entries. */
  function AllMounts(entries: seq<Metadata>): seq<Mount> {
    if entries == [] then [] else AllMounts(entries[..|entries| - 1]) + entries[|entries| - 1].mounts
  }

  lemma {:induction false} MountsFold(entries: seq<Metadata>)
    ensures Fold(entries).collections.mounts == KeepLast(AllMounts(entries))
  {
    hide MountTarget, Over, Require, AddHooks, KeepLast, PutMounts;
    if entries == [] {
      NoMounts();
    } else {
      MountsFold(entries[..|entries| - 1]);
      PutAllKeepsLast(AllMounts(entries[..|entries| - 1]), entries[|entries| - 1].mounts);
    }
  }

  lemma NoMounts()
    ensures KeepLast([]) == []
  {
  }

  /** The forward pass: commands with their origins, lists and maps. */
  method MergeCollections(entries: seq<Metadata>)
    returns (commands: map<Phase, seq<Command>>, origins: map<Phase, seq<string>>, c: Collections)
    ensures commands == CommandMap(Fold(entries).hooks) && origins == OriginMap(Fold(entries).hooks)
    ensures c == Fold(entries).collections.(mounts := AllMounts(entries))
  {
    hide Fold, Brought, Group, AppendUnique, PutMounts, Over, Require, CommandMap, OriginMap, AddHooks, AddHook, AllMounts;
    commands := map[OnCreate := [], UpdateContent := [], PostCreate := [], PostStart := [], PostAttach := []];
    origins, c := map[], NO_COLLECTIONS;
    var n := 0;
    assert entries[..0] == [];
    Beginning();
    while n < |entries|
      invariant n <= |entries|
      invariant commands == CommandMap(Fold(entries[..n]).hooks) && origins == OriginMap(Fold(entries[..n]).hooks)
      invariant c == Fold(entries[..n]).collections.(mounts := AllMounts(entries[..n]))
    {
      var e := entries[n];
      ghost var hooks := Fold(entries[..n]).hooks;
      FoldStep(entries, n);
      FoldHooks(entries[..n]);
      commands, origins := CollectCommands(commands, origins, e, hooks);
      var capAdd := AppendMissing(c.capAdd, e.capAdd);
      var securityOpt := AppendMissing(c.securityOpt, e.securityOpt);
      var customizations := GroupCustomizations(c.customizations, e.customizations);
      MountsStep(entries, n);
      c := Collections(
        if e.entrypoint != "" then c.entrypoints + [e.entrypoint] else c.entrypoints, capAdd, securityOpt,
        c.mounts + e.mounts, c.containerEnv + e.containerEnv, c.remoteEnv + e.remoteEnv, customizations,
        c.portsAttributes + e.portsAttributes);
      assert e.entrypoint == "" ==> c.entrypoints + [] == c.entrypoints;
      n := n + 1;
    }
    assert entries[..n] == entries;
  }

  lemma Beginning()
    ensures Fold([]) == START && AllMounts([]) == []
    ensures CommandMap(NO_HOOKS) ==
            map[OnCreate := [], UpdateContent := [], PostCreate := [], PostStart := [], PostAttach := []]
    ensures OriginMap(NO_HOOKS) == map[]
  {
  }

  lemma MountsStep(entries: seq<Metadata>, n: nat)
    requires n < |entries|
    ensures AllMounts(entries[..n + 1]) == AllMounts(entries[..n]) + entries[n].mounts
  {
    assert entries[..n + 1][..n] == entries[..n];
  }

  method CollectCommands(commands: map<Phase, seq<Command>>, origins: map<Phase, seq<string>>, e: Metadata,
                         ghost hooks: map<Phase, Hook>)
    returns (commands': map<Phase, seq<Command>>, origins': map<Phase, seq<string>>)
    requires AllHooks(hooks) && commands == CommandMap(hooks) && origins == OriginMap(hooks)
    ensures commands' == CommandMap(AddHooks(hooks, e)) && origins' == OriginMap(AddHooks(hooks, e))
  {
    hide Brought, CommandMap, OriginMap;
    AddEach(hooks, e);
    ghost var h1 := AddHook(hooks, OnCreate, e);
    ghost var h2 := AddHook(h1, UpdateContent, e);
    ghost var h3 := AddHook(h2, PostCreate, e);
    ghost var h4 := AddHook(h3, PostStart, e);
    commands', origins' := CollectCommand(commands, origins, OnCreate, e, hooks);
    commands', origins' := CollectCommand(commands', origins', UpdateContent, e, h1);
    commands', origins' := CollectCommand(commands', origins', PostCreate, e, h2);
    commands', origins' := CollectCommand(commands', origins', PostStart, e, h3);
    commands', origins' := CollectCommand(commands', origins', PostAttach, e, h4);
  }

  /** init and privileged hold when some entry asks for them. */
  method MergeFlags(entries: seq<Metadata>) returns (init: bool, privileged: bool)
    ensures init == Fold(entries).init && privileged == Fold(entries).privileged
    ensures init <==> exists e :: e in entries && e.init == Some(true)
    ensures privileged <==> exists e :: e in entries && e.privileged == Some(true)
  {
    hide Fold, Collect, Over, Require, AddHooks;
    init, privileged := false, false;
    var n := 0;
    assert entries[..0] == [];
    Beginning();
    while n < |entries|
      invariant n <= |entries| && init == Fold(entries[..n]).init && privileged == Fold(entries[..n]).privileged
      invariant init <==> exists e :: e in entries[..n] && e.init == Some(true)
      invariant privileged <==> exists e :: e in entries[..n] && e.privileged == Some(true)
    {
      FoldStep(entries, n);
      assert entries[..n + 1] == entries[..n] + [entries[n]];
      if entries[n].init == Some(true) { init := true; }
      if entries[n].privileged == Some(true) { privileged := true; }
      n := n + 1;
    }
    assert entries[..n] == entries;
  }

  method FillText(later: string, e: string) returns (r: string)
    ensures r == OverText(e, later)
  {
    r := later;
    if r == "" && e != "" { r := e; }
  }

  method FillOption<T>(later: Option<T>, e: Option<T>) returns (r: Option<T>)
    ensures r == OverOption(e, later)
  {
    r := later;
    if r.None? && e.Some? { r := e; }
  }

  /** The scalars of an earlier entry fill in what the later ones leave open. */
  method FillIn(later: Scalars, e: Scalars) returns (m: Scalars)
    ensures m == Over(e, later)
  {
    var remoteUser := FillText(later.remoteUser, e.remoteUser);
    var containerUser := FillText(later.containerUser, e.containerUser);
    var userEnvProbe := FillText(later.userEnvProbe, e.userEnvProbe);
    var shutdownAction := FillText(later.shutdownAction, e.shutdownAction);
    var waitFor := FillOption(later.waitFor, e.waitFor);
    var otherPorts := FillOption(later.otherPorts, e.otherPorts);
    var overrideCommand := FillOption(later.overrideCommand, e.overrideCommand);
    var updateRemoteUserUID := FillOption(later.updateRemoteUserUID, e.updateRemoteUserUID);
    m := Scalars(remoteUser, containerUser, userEnvProbe, shutdownAction, waitFor, otherPorts, overrideCommand,
                 updateRemoteUserUID);
  }

  /** The backward pass: a scalar is set by the first entry from the end that has one. */
  method MergeScalars(entries: seq<Metadata>) returns (m: Scalars)
    ensures m == Fold(entries).scalars
  {
    hide *;
    m := NO_SCALARS;
    var n: nat := |entries|;
    NothingAtTheEnd(entries);
    while n > 0
      invariant n <= |entries| && m == FromTheEnd(entries[n..])
    {
      n := n - 1;
      FromTheEndStep(entries, n);
      m := FillIn(m, entries[n].scalars);
    }
    assert entries[0..] == entries;
    ScalarsFromTheEnd(entries);
  }

  lemma NothingAtTheEnd(entries: seq<Metadata>)
    ensures FromTheEnd(entries[|entries|..]) == NO_SCALARS
  {
  }

  lemma FromTheEndStep(entries: seq<Metadata>, n: nat)
    requires n < |entries|
    ensures FromTheEnd(entries[n..]) == Over(entries[n].scalars, FromTheEnd(entries[n + 1..]))
  {
    assert entries[n..][1..] == entries[n + 1..];
  }

  /** One pass notes the last place of each target, the next keeps the mounts that stand there. */
  method DedupeMountsByTarget(mounts: seq<Mount>) returns (out: seq<Mount>)
    ensures out == KeepLast(mounts)
  {
    hide MountTarget, LaterTarget, KeepLast;
    var lastIdx: map<string, nat> := map[];
    var n := 0;
    while n < |mounts|
      invariant n <= |mounts| && forall i :: 0 <= i < n ==> MountTarget(mounts[i]) in lastIdx
      invariant forall t :: t in lastIdx ==>
                  lastIdx[t] < n && MountTarget(mounts[lastIdx[t]]) == t &&
                  forall j :: lastIdx[t] < j < n ==> MountTarget(mounts[j]) != t
    {
      lastIdx := lastIdx[MountTarget(mounts[n]) := n];
      n := n + 1;
    }
    out := [];
    var i := 0;
    assert mounts[0..] == mounts && [] + KeepLast(mounts) == KeepLast(mounts);
    while i < |mounts|
      invariant i <= |mounts| && out + KeepLast(mounts[i..]) == KeepLast(mounts)
    {
      LastPlace(mounts, i, lastIdx[MountTarget(mounts[i])]);
      if lastIdx[MountTarget(mounts[i])] == i { out := out + [mounts[i]]; }
      i := i + 1;
    }
    NoMounts();
    assert mounts[|mounts|..] == [] && out + [] == out;
  }

  lemma LastPlace(mounts: seq<Mount>, i: nat, last: nat)
    requires i < |mounts| && last < |mounts| && MountTarget(mounts[last]) == MountTarget(mounts[i])
    requires forall j :: last < j < |mounts| ==> MountTarget(mounts[j]) != MountTarget(mounts[i])
    ensures KeepLast(mounts[i..]) == (if last == i then [mounts[i]] else []) + KeepLast(mounts[i + 1..])
  {
    hide MountTarget;
    var tail, t := mounts[i..], MountTarget(mounts[i]);
    assert tail[1..] == mounts[i + 1..];
    if last == i {
      forall j | 1 <= j < |tail|
        ensures MountTarget(tail[j]) != t
      {
        assert tail[j] == mounts[i + j];
      }
    } else {
      assert last > i;
      assert tail[last - i] == mounts[last];
    }
  }

  /** The greatest of each requirement; nothing is written when all are zero. */
  method MergeHostRequirements(entries: seq<Metadata>) returns (r: Option<Required>)
    ensures r == Written(Fold(entries).required)
  {
    hide Fold, Collect, Over, AddHooks, ParseBytes;
    if entries == [] {
      Beginning();
      return Some(OfNothing);
    }
    var cpus, memory, storage := 0.0, 0, 0;
    var n := 0;
    assert entries[..0] == [];
    Beginning();
    while n < |entries|
      invariant n <= |entries|
      invariant Required(cpus, memory, storage) ==
                if n == 0 then NO_REQUIREMENTS else Fold(entries[..n]).required
      invariant n == 0 ==> Fold(entries[..n]).required == OfNothing
    {
      FoldStep(entries, n);
      if entries[n].requirements.Some? {
        var hr := entries[n].requirements.value;
        if hr.cpus > cpus { cpus := hr.cpus; }
        var b := ParseBytes(hr.memory);
        if b > memory { memory := b; }
        b := ParseBytes(hr.storage);
        if b > storage { storage := b; }
      }
      n := n + 1;
    }
    assert entries[..n] == entries;
    if cpus == 0.0 && memory == 0 && storage == 0 { return None; }
    r := Some(Required(cpus, memory, storage));
  }

  /** No entry requires more than the merged configuration does. */
  lemma {:induction false} RequiredBounds(entries: seq<Metadata>, e: Metadata)
    requires e in entries && e.requirements.Some?
    ensures var r, hr := Fold(entries).required, e.requirements.value;
            r.Required? && hr.cpus <= r.cpus && ParseBytes(hr.memory) <= r.memory && ParseBytes(hr.storage) <= r.storage
  {
    hide ParseBytes, Collect, Over, AddHooks;
    var init, last := entries[..|entries| - 1], entries[|entries| - 1];
    assert entries == init + [last];
    if e in init { RequiredBounds(init, e); }
  }

  predicate Requires(e: Metadata, cpus: real, memory: nat, storage: nat) {
    e.requirements.Some? &&
    var hr := e.requirements.value;
    (cpus > 0.0 ==> hr.cpus == cpus) && (memory > 0 ==> ParseBytes(hr.memory) == memory) &&
    (storage > 0 ==> ParseBytes(hr.storage) == storage)
  }

  lemma RequireStep(r: Required, e: Metadata)
    ensures var before, after := if r.OfNothing? then NO_REQUIREMENTS else r, Require(r, e);
            (after.cpus == before.cpus || Requires(e, after.cpus, 0, 0)) &&
            (after.memory == before.memory || Requires(e, 0.0, after.memory, 0)) &&
            (after.storage == before.storage || Requires(e, 0.0, 0, after.storage))
    ensures Require(r, e).Required? && (r.OfNothing? || r.cpus >= 0.0 ==> Require(r, e).cpus >= 0.0)
  {
    hide ParseBytes;
  }

  /** Each merged requirement is zero or that of an entry. */
  lemma {:induction false} RequiredAttained(entries: seq<Metadata>)
    requires entries != []
    ensures var r := Fold(entries).required;
            r.Required? && r.cpus >= 0.0 &&
            (r.cpus == 0.0 || exists e :: e in entries && Requires(e, r.cpus, 0, 0)) &&
            (r.memory == 0 || exists e :: e in entries && Requires(e, 0.0, r.memory, 0)) &&
            (r.storage == 0 || exists e :: e in entries && Requires(e, 0.0, 0, r.storage))
  {
    hide Fold, Require, Requires;
    var init, last := entries[..|entries| - 1], entries[|entries| - 1];
    assert entries == init + [last] && last in entries;
    RequiredLast(entries);
    RequireStep(Fold(init).required, last);
    assert forall e :: e in init ==> e in entries;
    if init == [] {
      assert Fold(init) == Fold([]);
    } else {
      RequiredAttained(init);
    }
  }

  predicate AsksForNothing(e: Metadata) {
    e.requirements.Some? ==>
      var hr := e.requirements.value; hr.cpus <= 0.0 && ParseBytes(hr.memory) == 0 && ParseBytes(hr.storage) == 0
  }

  /** Requirements are dropped exactly when there are entries and none of them asks for anything. */
  lemma DroppedIffNoneAsk(entries: seq<Metadata>)
    ensures Written(Fold(entries).required).None? <==>
            entries != [] && forall e :: e in entries ==> AsksForNothing(e)
  {
    hide Fold, ParseBytes;
    if entries == [] {
      Beginning();
    } else {
      RequiredAttained(entries);
      forall e | e in entries && e.requirements.Some?
        ensures Fold(entries).required == NO_REQUIREMENTS ==> AsksForNothing(e)
      {
        RequiredBounds(entries, e);
      }
    }
  }

  lemma RequiredLast(entries: seq<Metadata>)
    requires entries != []
    ensures Fold(entries).required == Require(Fold(entries[..|entries| - 1]).required, entries[|entries| - 1])
    ensures Fold(entries[..|entries| - 1]).required == OfNothing || |entries| > 1
    ensures Fold([]).required == OfNothing
  {
    hide Require, Collect, Over, AddHooks;
  }

  lemma {:induction false} MountsInOrder(entries: seq<Metadata>)
    ensures AllMounts(entries) == MountsOf(entries)
  {
    if entries != [] {
      var init, last := entries[..|entries| - 1], entries[|entries| - 1];
      assert entries == init + [last];
      MountsInOrder(init);
      MountsAppend(init, last);
    }
  }

  /** The merged configuration is the fold of the entries that set something. */
  method MergeConfiguration(entries: seq<Metadata>) returns (r: Result)
    ensures AllHooks(Fold(NonEmpty(entries)).hooks) && r == Finish(Fold(NonEmpty(entries)))
    ensures ScalarsWin(entries, r.scalars) && r.hooks.waitFor == r.scalars.waitFor
    ensures MapsWin(entries, r.collections)
    ensures ListsInOrder(entries, r.collections) && Grouped(entries, r.collections)
    ensures r.collections.mounts == KeepLast(MountsOf(entries))
  {
    hide Fold, NonEmpty, KeepLast, AllMounts, ScalarsWin, MapsWin, ListsInOrder, Grouped;
    MergedScalarsWin(entries);
    MergedMapsWin(entries);
    MergedLists(entries);
    var kept := NonEmptyEntries(entries);
    FoldHooks(kept);
    MountsFold(kept);
    MountsInOrder(kept);
    MountsNonEmpty(entries);
    var commands, origins, c := MergeCollections(kept);
    var init, privileged := MergeFlags(kept);
    var scalars := MergeScalars(kept);
    var mounts := DedupeMountsByTarget(c.mounts);
    var required := MergeHostRequirements(kept);
    r := Result(Hooks(commands[OnCreate], commands[UpdateContent], commands[PostCreate], commands[PostStart],
                      commands[PostAttach], origins, scalars.waitFor),
                c.(mounts := mounts), init, privileged, scalars, required);
  }

  /** What RunHooks runs of a merged configuration: the commands the entries bring, in order, each with its entry's origin. */
  lemma HookOrigins(m: Merging, p: Phase)
    requires AllHooks(m.hooks) && p in m.hooks
    ensures var run := Entries(Finish(m).hooks, p);
            |run| == |m.hooks[p]| &&
            forall i :: 0 <= i < |run| ==> run[i] == Entry(p, m.hooks[p][i].0, m.hooks[p][i].1)
  {
    assert p in {OnCreate, UpdateContent, PostCreate, PostStart, PostAttach};
    assert Finish(m).hooks.Of(p) == Commands(m.hooks[p]);
  }

  /** The hooks of a fold are what the entries bring, one after the other. */
  function BroughtBy(entries: seq<Metadata>, p: Phase): Hook {
    if entries == [] then [] else Brought(entries[0], p) + BroughtBy(entries[1..], p)
  }

  lemma {:induction false} BroughtAppend(entries: seq<Metadata>, e: Metadata, p: Phase)
    ensures BroughtBy(entries + [e], p) == BroughtBy(entries, p) + Brought(e, p)
  {
    hide Brought;
    if entries == [] {
      assert [] + [e] == [e] && [e][1..] == [] && Brought(e, p) + [] == Brought(e, p);
    } else {
      assert (entries + [e])[1..] == entries[1..] + [e];
      BroughtAppend(entries[1..], e, p);
    }
  }

  lemma {:induction false} HooksFold(entries: seq<Metadata>, p: Phase)
    requires p in {OnCreate, UpdateContent, PostCreate, PostStart, PostAttach}
    ensures AllHooks(Fold(entries).hooks) && Fold(entries).hooks[p] == BroughtBy(entries, p)
  {
    hide Brought, Collect, Over, Require;
    FoldHooks(entries);
    if entries != [] {
      var init, last := entries[..|entries| - 1], entries[|entries| - 1];
      assert entries == init + [last];
      FoldHooks(init);
      HooksFold(init, p);
      BroughtAppend(init, last, p);
    }
  }
}
