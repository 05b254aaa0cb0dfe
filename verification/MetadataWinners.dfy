/**
 Whose value a merged configuration has (internal/imagemeta/merge.go:75-173):
 the last entry that sets it, or all that do, in order.
 */
module MetadataWinners {
  import opened LifecycleHooks
  import opened MetadataMerge
  import opened Strings
  import opened Wrappers
  import JsObject

  // The last entry that sets something.

  type Getter<!T> = Metadata -> Option<T>

  /** The entry at `i` sets it, and no later one does. */
  predicate SetLast<T>(entries: seq<Metadata>, get: Getter<T>, i: nat) {
    i < |entries| && get(entries[i]).Some? && forall j :: i < j < |entries| ==> get(entries[j]).None?
  }

  /** `r` is what the last entry sets that sets it at all; nothing, if none does. */
  ghost predicate LastWins<T>(entries: seq<Metadata>, get: Getter<T>, r: Option<T>) {
    if r.None? then forall i :: 0 <= i < |entries| ==> get(entries[i]).None?
    else exists i: nat :: SetLast(entries, get, i) && get(entries[i]) == r
  }

  function LastOf<T>(entries: seq<Metadata>, get: Getter<T>): Option<T> {
    if entries == [] then None
    else
      var later := LastOf(entries[1..], get);
      if later.Some? then later else get(entries[0])
  }

  lemma {:induction false} LastOfWins<T>(entries: seq<Metadata>, get: Getter<T>)
    ensures LastWins(entries, get, LastOf(entries, get))
  {
    if entries != [] {
      var rest := entries[1..];
      LastOfWins(rest, get);
      assert forall i :: 0 < i < |entries| ==> entries[i] == rest[i - 1];
      if LastOf(rest, get).Some? {
        var i: nat :| SetLast(rest, get, i) && get(rest[i]) == LastOf(rest, get);
        assert SetLast(entries, get, i + 1) && get(entries[i + 1]) == LastOf(entries, get);
      } else if get(entries[0]).Some? {
        assert SetLast(entries, get, 0);
      }
    }
  }

  lemma {:induction false} LastOfAppend<T>(entries: seq<Metadata>, e: Metadata, get: Getter<T>)
    ensures LastOf(entries + [e], get) == if get(e).Some? then get(e) else LastOf(entries, get)
  {
    if entries == [] {
      assert [] + [e] == [e] && [e][1..] == [];
    } else {
      assert (entries + [e])[1..] == entries[1..] + [e];
      LastOfAppend(entries[1..], e, get);
    }
  }

  /** Dropping the entries that set nothing makes no difference. */
  lemma {:induction false} LastOfNonEmpty<T>(entries: seq<Metadata>, get: Getter<T>)
    requires forall e :: IsEmpty(e) ==> get(e).None?
    ensures LastOf(NonEmpty(entries), get) == LastOf(entries, get)
  {
    hide IsEmpty;
    if entries != [] {
      LastOfNonEmpty(entries[1..], get);
      var first, rest := if IsEmpty(entries[0]) then [] else [entries[0]], NonEmpty(entries[1..]);
      if first == [] { assert first + rest == rest; } else { assert (first + rest)[1..] == rest; }
    }
  }

  // Scalars.

  function Given(text: string): Option<string> { if text == "" then None else Some(text) }

  function RemoteUserOf(e: Metadata): Option<string> { Given(e.scalars.remoteUser) }
  function ContainerUserOf(e: Metadata): Option<string> { Given(e.scalars.containerUser) }
  function UserEnvProbeOf(e: Metadata): Option<string> { Given(e.scalars.userEnvProbe) }
  function ShutdownActionOf(e: Metadata): Option<string> { Given(e.scalars.shutdownAction) }
  function WaitForOf(e: Metadata): Option<Phase> { e.scalars.waitFor }
  function OtherPortsOf(e: Metadata): Option<string> { e.scalars.otherPorts }
  function OverrideCommandOf(e: Metadata): Option<bool> { e.scalars.overrideCommand }
  function UpdateUidOf(e: Metadata): Option<bool> { e.scalars.updateRemoteUserUID }

  /** Each of the eight scalars is that of the last entry that sets it. */
  ghost predicate ScalarsWin(entries: seq<Metadata>, s: Scalars) {
    LastWins(entries, RemoteUserOf, Given(s.remoteUser)) &&
    LastWins(entries, ContainerUserOf, Given(s.containerUser)) &&
    LastWins(entries, UserEnvProbeOf, Given(s.userEnvProbe)) &&
    LastWins(entries, ShutdownActionOf, Given(s.shutdownAction)) &&
    LastWins(entries, WaitForOf, s.waitFor) && LastWins(entries, OtherPortsOf, s.otherPorts) &&
    LastWins(entries, OverrideCommandOf, s.overrideCommand) && LastWins(entries, UpdateUidOf, s.updateRemoteUserUID)
  }

  lemma {:induction false} ScalarsAreLast(entries: seq<Metadata>)
    ensures var s := FromTheEnd(entries);
            Given(s.remoteUser) == LastOf(entries, RemoteUserOf) &&
            Given(s.containerUser) == LastOf(entries, ContainerUserOf) &&
            Given(s.userEnvProbe) == LastOf(entries, UserEnvProbeOf) &&
            Given(s.shutdownAction) == LastOf(entries, ShutdownActionOf) &&
            s.waitFor == LastOf(entries, WaitForOf) && s.otherPorts == LastOf(entries, OtherPortsOf) &&
            s.overrideCommand == LastOf(entries, OverrideCommandOf) && s.updateRemoteUserUID == LastOf(entries, UpdateUidOf)
  {
    if entries != [] { ScalarsAreLast(entries[1..]); }
  }

  lemma FieldWins<T>(entries: seq<Metadata>, get: Getter<T>)
    requires forall e :: IsEmpty(e) ==> get(e).None?
    ensures LastWins(entries, get, LastOf(NonEmpty(entries), get))
  {
    hide IsEmpty, LastWins;
    LastOfNonEmpty(entries, get);
    LastOfWins(entries, get);
  }

  lemma EmptySetsNoScalar(e: Metadata)
    requires IsEmpty(e)
    ensures RemoteUserOf(e).None? && ContainerUserOf(e).None? && UserEnvProbeOf(e).None? && ShutdownActionOf(e).None?
    ensures WaitForOf(e).None? && OtherPortsOf(e).None? && OverrideCommandOf(e).None? && UpdateUidOf(e).None?
  {
  }

  lemma MergedScalarsWin(entries: seq<Metadata>)
    ensures ScalarsWin(entries, Fold(NonEmpty(entries)).scalars)
  {
    hide Fold, NonEmpty, LastWins, LastOf, IsEmpty, FromTheEnd, Given;
    hide RemoteUserOf, ContainerUserOf, UserEnvProbeOf, ShutdownActionOf, WaitForOf, OtherPortsOf, OverrideCommandOf, UpdateUidOf;
    ScalarsFromTheEnd(NonEmpty(entries));
    ScalarsAreLast(NonEmpty(entries));
    forall e | IsEmpty(e)
      ensures RemoteUserOf(e).None? && ContainerUserOf(e).None? && UserEnvProbeOf(e).None? && ShutdownActionOf(e).None?
      ensures WaitForOf(e).None? && OtherPortsOf(e).None? && OverrideCommandOf(e).None? && UpdateUidOf(e).None?
    {
      EmptySetsNoScalar(e);
    }
    FieldWins(entries, RemoteUserOf);
    FieldWins(entries, ContainerUserOf);
    FieldWins(entries, UserEnvProbeOf);
    FieldWins(entries, ShutdownActionOf);
    FieldWins(entries, WaitForOf);
    FieldWins(entries, OtherPortsOf);
    FieldWins(entries, OverrideCommandOf);
    FieldWins(entries, UpdateUidOf);
  }

  // Maps.

  function At<V>(m: map<string, V>, k: string): Option<V> { if k in m then Some(m[k]) else None }

  function ContainerEnvOf(k: string): Getter<string> { (e: Metadata) => At(e.containerEnv, k) }
  function RemoteEnvOf(k: string): Getter<Option<string>> { (e: Metadata) => At(e.remoteEnv, k) }
  function PortsOf(k: string): Getter<string> { (e: Metadata) => At(e.portsAttributes, k) }

  /** Each key of the three maps has the value of the last entry that has the key. */
  ghost predicate MapsWin(entries: seq<Metadata>, c: Collections) {
    forall k :: LastWins(entries, ContainerEnvOf(k), At(c.containerEnv, k)) &&
                LastWins(entries, RemoteEnvOf(k), At(c.remoteEnv, k)) &&
                LastWins(entries, PortsOf(k), At(c.portsAttributes, k))
  }

  lemma {:induction false} MapsAreLast(entries: seq<Metadata>, k: string)
    ensures var c := Fold(entries).collections;
            At(c.containerEnv, k) == LastOf(entries, ContainerEnvOf(k)) &&
            At(c.remoteEnv, k) == LastOf(entries, RemoteEnvOf(k)) && At(c.portsAttributes, k) == LastOf(entries, PortsOf(k))
  {
    hide AddHooks, Over, Require, AppendUnique, PutMounts, Group, LastOf;
    if entries == [] {
      NothingLast(ContainerEnvOf(k));
      NothingLast(RemoteEnvOf(k));
      NothingLast(PortsOf(k));
    } else {
      var init, last := entries[..|entries| - 1], entries[|entries| - 1];
      assert entries == init + [last];
      MapsAreLast(init, k);
      LastOfAppend(init, last, ContainerEnvOf(k));
      LastOfAppend(init, last, RemoteEnvOf(k));
      LastOfAppend(init, last, PortsOf(k));
    }
  }

  lemma NothingLast<T>(get: Getter<T>)
    ensures LastOf([], get) == None
  {
  }

  lemma MergedMapsWin(entries: seq<Metadata>)
    ensures MapsWin(entries, Fold(NonEmpty(entries)).collections)
  {
    hide Fold, NonEmpty, LastWins, LastOf;
    forall k
      ensures var c := Fold(NonEmpty(entries)).collections;
              LastWins(entries, ContainerEnvOf(k), At(c.containerEnv, k)) &&
              LastWins(entries, RemoteEnvOf(k), At(c.remoteEnv, k)) &&
              LastWins(entries, PortsOf(k), At(c.portsAttributes, k))
    {
      MapsAreLast(NonEmpty(entries), k);
      FieldWins(entries, ContainerEnvOf(k));
      FieldWins(entries, RemoteEnvOf(k));
      FieldWins(entries, PortsOf(k));
    }
  }

  // Lists.

  /** The entrypoints, in the order of their entries. */
  function Entrypoints(entries: seq<Metadata>): seq<string> {
    if entries == [] then []
    else (if entries[0].entrypoint == "" then [] else [entries[0].entrypoint]) + Entrypoints(entries[1..])
  }

  /** What the entries have under a key of their customizations, in order. */
  function Customized(entries: seq<Metadata>, k: string): seq<string> {
    if entries == [] then []
    else
      (if k in entries[0].customizations then [entries[0].customizations[k]] else []) + Customized(entries[1..], k)
  }

  function Capabilities(entries: seq<Metadata>): seq<string> {
    if entries == [] then [] else entries[0].capAdd + Capabilities(entries[1..])
  }

  function SecurityOptions(entries: seq<Metadata>): seq<string> {
    if entries == [] then [] else entries[0].securityOpt + SecurityOptions(entries[1..])
  }

  /** All the mounts, in the order of their entries. */
  function MountsOf(entries: seq<Metadata>): seq<Mount> {
    if entries == [] then [] else entries[0].mounts + MountsOf(entries[1..])
  }

  lemma {:induction false} MountsAppend(entries: seq<Metadata>, e: Metadata)
    ensures MountsOf(entries + [e]) == MountsOf(entries) + e.mounts
  {
    if entries == [] {
      assert [] + [e] == [e] && [e][1..] == [];
    } else {
      assert (entries + [e])[1..] == entries[1..] + [e];
      MountsAppend(entries[1..], e);
    }
  }

  lemma {:induction false} MountsNonEmpty(entries: seq<Metadata>)
    ensures MountsOf(NonEmpty(entries)) == MountsOf(entries)
  {
    if entries != [] {
      MountsNonEmpty(entries[1..]);
      var rest := NonEmpty(entries[1..]);
      if IsEmpty(entries[0]) {
        assert [] + rest == rest && [] + MountsOf(rest) == MountsOf(rest);
      } else {
        assert ([entries[0]] + rest)[1..] == rest;
      }
    }
  }

  /** The items of a list that no earlier one equals. */
  function FirstTimes(s: seq<string>): seq<string> {
    if s == [] then []
    else FirstTimes(s[..|s| - 1]) + if s[|s| - 1] in s[..|s| - 1] then [] else [s[|s| - 1]]
  }

  predicate ListsInOrder(entries: seq<Metadata>, c: Collections) {
    c.entrypoints == Entrypoints(entries) && c.capAdd == FirstTimes(Capabilities(entries)) &&
    c.securityOpt == FirstTimes(SecurityOptions(entries))
  }

  ghost predicate Grouped(entries: seq<Metadata>, c: Collections) {
    forall k :: if Customized(entries, k) == [] then k !in c.customizations
                else k in c.customizations && c.customizations[k] == Customized(entries, k)
  }

  lemma {:induction false} FirstTimesItems(s: seq<string>)
    ensures forall x :: x in FirstTimes(s) <==> x in s
  {
    if s != [] {
      FirstTimesItems(s[..|s| - 1]);
      assert s == s[..|s| - 1] + [s[|s| - 1]];
    }
  }

  lemma {:induction false} AppendFirstTimes(a: seq<string>, b: seq<string>)
    ensures AppendUnique(FirstTimes(a), b) == FirstTimes(a + b)
    decreases |b|
  {
    hide FirstTimes;
    if b == [] {
      assert a + b == a;
    } else {
      FirstTimesItems(a);
      FirstTimesStep(a, b[0]);
      AppendFirstTimes(a + [b[0]], b[1..]);
      assert a + [b[0]] + b[1..] == a + b;
    }
  }

  lemma FirstTimesStep(a: seq<string>, x: string)
    ensures FirstTimes(a + [x]) == if x in a then FirstTimes(a) else FirstTimes(a) + [x]
  {
    assert (a + [x])[..|a|] == a;
  }

  lemma {:induction false} EntrypointsAppend(entries: seq<Metadata>, e: Metadata)
    ensures Entrypoints(entries + [e]) == Entrypoints(entries) + if e.entrypoint == "" then [] else [e.entrypoint]
  {
    if entries == [] {
      assert [] + [e] == [e] && [e][1..] == [];
    } else {
      assert (entries + [e])[1..] == entries[1..] + [e];
      EntrypointsAppend(entries[1..], e);
    }
  }

  lemma {:induction false} CapabilitiesAppend(entries: seq<Metadata>, e: Metadata)
    ensures Capabilities(entries + [e]) == Capabilities(entries) + e.capAdd
  {
    if entries == [] {
      assert [] + [e] == [e] && [e][1..] == [];
    } else {
      assert (entries + [e])[1..] == entries[1..] + [e];
      CapabilitiesAppend(entries[1..], e);
    }
  }

  lemma {:induction false} SecurityAppend(entries: seq<Metadata>, e: Metadata)
    ensures SecurityOptions(entries + [e]) == SecurityOptions(entries) + e.securityOpt
  {
    if entries == [] {
      assert [] + [e] == [e] && [e][1..] == [];
    } else {
      assert (entries + [e])[1..] == entries[1..] + [e];
      SecurityAppend(entries[1..], e);
    }
  }

  lemma {:induction false} CustomizedAppend(entries: seq<Metadata>, e: Metadata, k: string)
    ensures Customized(entries + [e], k) == Customized(entries, k) + if k in e.customizations then [e.customizations[k]] else []
  {
    if entries == [] {
      assert [] + [e] == [e] && [e][1..] == [];
    } else {
      assert (entries + [e])[1..] == entries[1..] + [e];
      CustomizedAppend(entries[1..], e, k);
    }
  }

  lemma {:induction false} FoldLists(entries: seq<Metadata>, k: string)
    ensures ListsInOrder(entries, Fold(entries).collections)
    ensures var c, all := Fold(entries).collections.customizations, Customized(entries, k);
            if all == [] then k !in c else k in c && c[k] == all
  {
    hide AddHooks, Over, Require, AppendUnique, PutMounts, FirstTimes, Entrypoints, Capabilities, SecurityOptions, Customized;
    if entries == [] {
      NoLists(k);
    } else {
      var init, last := entries[..|entries| - 1], entries[|entries| - 1];
      assert entries == init + [last];
      FoldLists(init, k);
      EntrypointsAppend(init, last);
      CapabilitiesAppend(init, last);
      SecurityAppend(init, last);
      CustomizedAppend(init, last, k);
      AppendFirstTimes(Capabilities(init), last.capAdd);
      AppendFirstTimes(SecurityOptions(init), last.securityOpt);
    }
  }

  lemma NoLists(k: string)
    ensures Entrypoints([]) == [] && Capabilities([]) == [] && SecurityOptions([]) == [] && Customized([], k) == []
    ensures FirstTimes([]) == []
  {
  }

  lemma {:induction false} ListsNonEmpty(entries: seq<Metadata>, k: string)
    ensures Entrypoints(NonEmpty(entries)) == Entrypoints(entries)
    ensures Capabilities(NonEmpty(entries)) == Capabilities(entries)
    ensures SecurityOptions(NonEmpty(entries)) == SecurityOptions(entries)
    ensures Customized(NonEmpty(entries), k) == Customized(entries, k)
  {
    if entries != [] {
      ListsNonEmpty(entries[1..], k);
      var rest := NonEmpty(entries[1..]);
      if !IsEmpty(entries[0]) { assert ([entries[0]] + rest)[1..] == rest; } else { assert [] + rest == rest; }
    }
  }

  lemma MergedLists(entries: seq<Metadata>)
    ensures ListsInOrder(entries, Fold(NonEmpty(entries)).collections)
    ensures Grouped(entries, Fold(NonEmpty(entries)).collections)
  {
    hide Fold, NonEmpty, Entrypoints, Capabilities, SecurityOptions, Customized, FirstTimes;
    forall k
      ensures var c, all := Fold(NonEmpty(entries)).collections.customizations, Customized(entries, k);
              if all == [] then k !in c else k in c && c[k] == all
    {
      FoldLists(NonEmpty(entries), k);
      ListsNonEmpty(entries, k);
    }
    FoldLists(NonEmpty(entries), "");
    ListsNonEmpty(entries, "");
  }

  // Mounts and byte counts.

  predicate AllSpace(s: string) { forall i :: 0 <= i < |s| ==> IsSpace(s[i]) }

  /** The part of a mount's text gives its target: a name of the target, an equals sign and `v`. */
  ghost predicate NamesTarget(part: string, v: string) {
    exists front: string, word: string, back: string ::
      AllSpace(front) && AllSpace(back) && (word == "target" || word == "destination" || word == "dst") &&
      part == front + word + back + "=" + v
  }

  lemma {:induction false} TrimLeftCuts(s: string)
    ensures exists front: string :: AllSpace(front) && s == front + TrimLeft(s)
    ensures TrimLeft(s) == "" || !IsSpace(TrimLeft(s)[0])
  {
    if s != "" && IsSpace(s[0]) {
      TrimLeftCuts(s[1..]);
      var front: string :| AllSpace(front) && s[1..] == front + TrimLeft(s[1..]);
      assert s == ([s[0]] + front) + TrimLeft(s) && AllSpace([s[0]] + front);
    } else {
      assert s == "" + TrimLeft(s) && AllSpace("");
    }
  }

  lemma {:induction false} TrimRightCuts(s: string)
    ensures exists back: string :: AllSpace(back) && s == TrimRight(s) + back
    ensures TrimRight(s) == "" || !IsSpace(TrimRight(s)[|TrimRight(s)| - 1])
  {
    if s != "" && IsSpace(s[|s| - 1]) {
      var init := s[..|s| - 1];
      TrimRightCuts(init);
      var back: string :| AllSpace(back) && init == TrimRight(init) + back;
      assert s == TrimRight(s) + (back + [s[|s| - 1]]) && AllSpace(back + [s[|s| - 1]]);
    } else {
      assert s == TrimRight(s) + "" && AllSpace("");
    }
  }

  lemma {:induction false} TrimLeftOf(front: string, s: string)
    requires AllSpace(front) && s != "" && !IsSpace(s[0])
    ensures TrimLeft(front + s) == s
  {
    hide IsSpace;
    if front == "" {
      assert front + s == s;
    } else {
      assert (front + s)[0] == front[0] && (front + s)[1..] == front[1..] + s;
      TrimLeftOf(front[1..], s);
    }
  }

  lemma {:induction false} TrimRightOf(s: string, back: string)
    requires AllSpace(back) && s != "" && !IsSpace(s[|s| - 1])
    ensures TrimRight(s + back) == s
  {
    hide IsSpace;
    if back == "" {
      assert s + back == s;
    } else {
      var n := |back| - 1;
      assert (s + back)[|s + back| - 1] == back[n] && (s + back)[..|s + back| - 1] == s + back[..n];
      TrimRightOf(s, back[..n]);
    }
  }

  lemma TargetRead(part: string, v: string)
    requires NamesTarget(part, v)
    ensures TargetOf([part]) == Some(v)
  {
    var front: string, word: string, back: string :|
      AllSpace(front) && AllSpace(back) && (word == "target" || word == "destination" || word == "dst") &&
      part == front + word + back + "=" + v;
    WordsAreTight(word);
    SpacesHoldNoEquals(front);
    SpacesHoldNoEquals(back);
    hide IsSpace, AllSpace, TrimLeft, TrimRight;
    var key := front + word + back;
    KeyTrims(front, word, back);
    assert '=' !in key;
    assert part == key + ['='] + v;
    hide NoEquals;
    KeyRead(part, key, word, v);
  }

  lemma KeyTrims(front: string, word: string, back: string)
    requires AllSpace(front) && AllSpace(back) && word != "" && !IsSpace(word[0]) && !IsSpace(word[|word| - 1])
    ensures TrimRight(TrimLeft(front + word + back)) == word
  {
    hide IsSpace, AllSpace, TrimLeft, TrimRight;
    assert front + word + back == front + (word + back) && (word + back)[0] == word[0];
    TrimLeftOf(front, word + back);
    TrimRightOf(word, back);
  }

  lemma KeyRead(part: string, key: string, word: string, v: string)
    requires '=' !in key && part == key + ['='] + v && TrimRight(TrimLeft(key)) == word && TargetKey(word)
    ensures TargetOf([part]) == Some(v)
  {
    hide TrimLeft, TrimRight, TargetKey;
    IndexOf(key, '=', v);
    assert part[..|key|] == key && part[|key| + 1..] == v;
  }

  predicate NoEquals(s: string) { '=' !in s }

  lemma SpacesHoldNoEquals(s: string)
    requires AllSpace(s)
    ensures NoEquals(s)
  {
  }

  lemma WordsAreTight(word: string)
    requires word == "target" || word == "destination" || word == "dst"
    ensures word != "" && !IsSpace(word[0]) && !IsSpace(word[|word| - 1]) && NoEquals(word) && TargetKey(word)
  {
  }

  lemma TargetNamed(part: string)
    requires TargetOf([part]).Some?
    ensures NamesTarget(part, TargetOf([part]).value)
  {
    hide TrimLeft, TrimRight;
    var i := Index(part, '=').value;
    var key, v := part[..i], part[i + 1..];
    assert part == key + "=" + v;
    assert TargetOf([part]) == Some(v) && TargetKey(TrimRight(TrimLeft(key)));
    hide *;
    var front, back := Trimmed(key);
    KeyWord(TrimRight(TrimLeft(key)));
    TargetParts(part, front, TrimRight(TrimLeft(key)), back, key, v);
  }

  lemma Trimmed(key: string) returns (front: string, back: string)
    ensures AllSpace(front) && AllSpace(back) && key == front + (TrimRight(TrimLeft(key)) + back)
  {
    TrimLeftCuts(key);
    TrimRightCuts(TrimLeft(key));
    hide *;
    front :| AllSpace(front) && key == front + TrimLeft(key);
    back :| AllSpace(back) && TrimLeft(key) == TrimRight(TrimLeft(key)) + back;
  }

  lemma KeyWord(word: string)
    requires TargetKey(word)
    ensures word == "target" || word == "destination" || word == "dst"
  {
  }

  lemma TargetParts(part: string, front: string, word: string, back: string, key: string, v: string)
    requires AllSpace(front) && AllSpace(back) && (word == "target" || word == "destination" || word == "dst")
    requires part == key + "=" + v && key == front + (word + back)
    ensures NamesTarget(part, v)
  {
    hide AllSpace;
    assert key == front + word + back;
  }

  lemma FirstPart(parts: seq<string>)
    requires parts != []
    ensures TargetOf(parts) == if TargetOf([parts[0]]).Some? then TargetOf([parts[0]]) else TargetOf(parts[1..])
  {
    hide TrimLeft, TrimRight, Index;
    assert [parts[0]][1..] == [];
  }

  /** The target of the first part that names one. */
  ghost predicate FirstNamed(parts: seq<string>, v: string) {
    exists i :: 0 <= i < |parts| && NamesTarget(parts[i], v) && forall j, w :: 0 <= j < i ==> !NamesTarget(parts[j], w)
  }

  lemma {:induction false} TargetIsFirstNamed(parts: seq<string>)
    ensures TargetOf(parts).Some? ==> FirstNamed(parts, TargetOf(parts).value)
    ensures TargetOf(parts).None? ==> forall i, v :: 0 <= i < |parts| ==> !NamesTarget(parts[i], v)
  {
    hide NamesTarget, TargetOf;
    if parts == [] {
      NoTarget();
    } else {
      var first, rest := parts[0], parts[1..];
      FirstPart(parts);
      forall v | NamesTarget(first, v)
        ensures TargetOf([first]) == Some(v)
      {
        TargetRead(first, v);
      }
      if TargetOf([first]).Some? {
        TargetNamed(first);
        assert NamesTarget(parts[0], TargetOf(parts).value);
      } else {
        TargetIsFirstNamed(rest);
        assert forall i :: 0 < i < |parts| ==> parts[i] == rest[i - 1];
        if TargetOf(rest).Some? {
          var v := TargetOf(rest).value;
          var i :| 0 <= i < |rest| && NamesTarget(rest[i], v) && forall j, w :: 0 <= j < i ==> !NamesTarget(rest[j], w);
          assert NamesTarget(parts[i + 1], v);
        }
      }
    }
  }

  lemma NoTarget()
    ensures TargetOf([]).None?
  {
  }

  /** Where a mount goes: the target of an object, that of the first part of a text that names one, or the text itself. */
  lemma MountTargetIs(m: Mount)
    ensures m.ObjectMount? ==> MountTarget(m) == m.target
    ensures m.OtherMount? ==> MountTarget(m) == ""
    ensures m.StringMount? ==>
              var parts := Split(m.text, ',');
              FirstNamed(parts, MountTarget(m)) ||
              (MountTarget(m) == m.text && forall i, v :: 0 <= i < |parts| ==> !NamesTarget(parts[i], v))
  {
    hide NamesTarget, TargetOf, Split;
    if m.StringMount? { TargetIsFirstNamed(Split(m.text, ',')); }
  }

  /** A byte count: digits, times the unit after them. */
  lemma ByteCounts(digits: string)
    requires digits != "" && JsObject.AllDigits(digits)
    ensures var n := JsObject.Number(digits);
            ParseBytes(digits) == n && ParseBytes(digits + "kb") == n * 1024 &&
            ParseBytes(digits + "mb") == n * 1024 * 1024 && ParseBytes(digits + "gb") == n * 1024 * 1024 * 1024 &&
            ParseBytes(digits + "tb") == n * 1024 * 1024 * 1024 * 1024
  {
    hide JsObject.Number;
    assert JsObject.IsDigit(digits[|digits| - 1]);
    assert (digits + "kb")[..|digits|] == digits && (digits + "mb")[..|digits|] == digits;
    assert (digits + "gb")[..|digits|] == digits && (digits + "tb")[..|digits|] == digits;
  }

  /** Anything else counts for nothing. */
  lemma NoByteCount(s: string)
    requires ParseBytes(s) != 0
    ensures exists digits: string, unit: string ::
              s == digits + unit && digits != "" && JsObject.AllDigits(digits) &&
              (unit == "" || unit == "kb" || unit == "mb" || unit == "gb" || unit == "tb")
  {
    var n := |s|;
    if n >= 2 && s[n - 1] == 'b' && UnitOf(s[n - 2]) != 1 {
      assert s == s[..n - 2] + [s[n - 2], 'b'];
    } else {
      assert s == s + "";
    }
  }

  /** A command comes from the Feature of its entry, or else from the configuration. */
  lemma OriginIs(e: Metadata)
    ensures e.id != "" ==> Origin(e) == e.id
    ensures e.id == "" ==> Origin(e) == "devcontainer.json"
  {
  }

  /** A hook takes every command that is set, but null and the empty string. */
  lemma BroughtIs(e: Metadata, p: Phase)
    ensures p !in e.commands || e.commands[p] == NoCommand || e.commands[p] == Line("") ==> Brought(e, p) == []
    ensures p in e.commands && e.commands[p] != NoCommand && e.commands[p] != Line("") ==>
              Brought(e, p) == [(e.commands[p], Origin(e))]
  {
  }

  const NOTHING := Metadata("", map[], "", [], [], [], map[], map[], map[], map[], None, None, NO_SCALARS, None)

  /** An entry is empty when it sets nothing, null commands aside. */
  lemma EmptyIff(e: Metadata)
    ensures IsEmpty(e) <==> e.(commands := map[]) == NOTHING && forall p :: p in e.commands ==> e.commands[p] == NoCommand
    ensures NO_SCALARS.remoteUser == "" && NO_SCALARS.waitFor.None? && NO_SCALARS.overrideCommand.None?
  {
  }
}
