/**
 The lockfile's writer (internal/features/lockfile.go:356-390): it rewrites the
 file when its content would change and, when frozen, fails instead. The file
 is one cell that may be missing, unreadable or hold a text.
 */
module Lockfile {
  import opened JsonNormal
  import opened JsonNormalizer
  import opened JsonText
  import opened Wrappers

  datatype Entry = Entry(version: string, resolved: string, integrity: string, dependsOn: seq<string>)

  type Features = map<string, Entry>

  /** The order of the collation in which the ids of a lockfile are written. */
  type Collation = set<string> -> seq<string>

  ghost predicate Lists(collate: Collation) { forall ids: set<string>, id :: id in collate(ids) <==> id in ids }

  // The text of a lockfile.

  function Texts(ss: seq<string>): seq<Json> { seq(|ss|, i requires 0 <= i < |ss| => Text(ss[i])) }

  function EntryTree(e: Entry): Json {
    var keys, vals := ["version", "resolved", "integrity"], [Text(e.version), Text(e.resolved), Text(e.integrity)];
    if e.dependsOn == [] then Group(true, keys, vals)
    else Group(true, keys + ["dependsOn"], vals + [Group(false, [], Texts(e.dependsOn))])
  }

  function Tree(collate: Collation, features: Features): Json
    requires Lists(collate)
  {
    var ids := collate(features.Keys);
    Group(true, ["features"],
          [Group(true, ids, seq(|ids|, i requires 0 <= i < |ids| => assert ids[i] in ids; EntryTree(features[ids[i]])))])
  }

  /** JSON.stringify(lockfile, null, 2) and a line break. */
  function Stringify(collate: Collation, features: Features): string
    requires Lists(collate)
  {
    Pretty(Tree(collate, features), "\n") + "\n"
  }

  lemma EntryCanonical(num: Numbers, e: Entry)
    ensures Canonical(num, EntryTree(e))
  {
    if e.dependsOn != [] {
      var list := Group(false, [], Texts(e.dependsOn));
      assert Canonical(num, list);
      forall i | 0 <= i < 4
        ensures Canonical(num, EntryTree(e).vals[i])
      {
        if i == 3 { assert EntryTree(e).vals[i] == list; }
      }
    }
  }

  lemma TreeCanonical(num: Numbers, collate: Collation, features: Features)
    requires Lists(collate)
    ensures Canonical(num, Tree(collate, features))
  {
    hide EntryTree;
    var ids := collate(features.Keys);
    var entries := Tree(collate, features).vals[0];
    forall i | 0 <= i < |ids|
      ensures Canonical(num, entries.vals[i])
    {
      assert ids[i] in ids;
      EntryCanonical(num, features[ids[i]]);
    }
    assert Canonical(num, entries);
  }

  /** Reading back and writing again what was written of a lockfile changes nothing. */
  lemma StringifyNormal(num: Numbers, collate: Collation, features: Features)
    requires Lists(collate)
    ensures Normalized(num, Stringify(collate, features)) == Some(Stringify(collate, features))
  {
    hide Normalized, Tree, Pretty, Canonical;
    TreeCanonical(num, collate, features);
    NormalizedPretty(num, Tree(collate, features));
  }

  // The text itself.

  lemma NextLine(keys: seq<string>, vals: seq<Json>, inner: string, n: nat)
    requires |keys| == |vals| && 0 < n <= |vals|
    ensures Lines(true, keys, vals, inner, 0) == ""
    ensures Lines(true, keys, vals, inner, n) ==
            Lines(true, keys, vals, inner, n - 1) + (if n > 1 then "," else "") + inner + (Quote(keys[n - 1]) + ": ") +
            Pretty(vals[n - 1], inner)
  {
    hide Quote, Pretty;
  }

  lemma GroupText(keys: seq<string>, vals: seq<Json>, newline: string)
    requires |keys| == |vals| > 0
    ensures Pretty(Group(true, keys, vals), newline) ==
            "{" + Lines(true, keys, vals, newline + "  ", |vals|) + newline + "}"
  {
    hide Lines;
  }

  /** What is written before the value of a key. */
  function Key(name: string): string { Quote(name) + ": " }

  /** The keys of a lockfile need no escapes. */
  lemma PlainKey(name: string)
    requires forall i :: 0 <= i < |name| ==> ' ' <= name[i] < '\U{2028}' && name[i] != '"' && name[i] != '\\'
    ensures Key(name) == "\"" + name + "\"" + ": "
  {
    PlainQuote(name);
  }

  /** An entry without dependencies, as it is written on a line that `newline` begins. */
  lemma EntryText(e: Entry, newline: string)
    requires e.dependsOn == []
    ensures var inner := newline + "  ";
            Pretty(EntryTree(e), newline) ==
            "{" + (inner + Key("version") + Quote(e.version) + "," + inner + Key("resolved") + Quote(e.resolved) + "," +
                   inner + Key("integrity") + Quote(e.integrity)) + newline + "}"
  {
    ThreeTexts("version", "resolved", "integrity", e.version, e.resolved, e.integrity, newline, newline + "  ");
    hide Pretty, Quote, Lines;
  }

  lemma ThreeTexts(k: string, l: string, m: string, s: string, t: string, u: string, newline: string, inner: string)
    requires inner == newline + "  "
    ensures Pretty(Group(true, [k, l, m], [Text(s), Text(t), Text(u)]), newline) ==
            "{" + (inner + Key(k) + Quote(s) + "," + inner + Key(l) + Quote(t) + "," + inner + Key(m) + Quote(u)) +
            newline + "}"
  {
    var keys, vals := [k, l, m], [Text(s), Text(t), Text(u)];
    QuotedText(s, inner);
    QuotedText(t, inner);
    QuotedText(u, inner);
    hide Pretty, Quote, Lines;
    GroupText(keys, vals, newline);
    NextLine(keys, vals, inner, 1);
    NextLine(keys, vals, inner, 2);
    NextLine(keys, vals, inner, 3);
    assert "" + "" + inner == inner;
  }

  lemma QuotedText(s: string, inner: string)
    ensures Pretty(Text(s), inner) == Quote(s)
  {
    hide Quote;
  }

  /** With them: the last member, a list of the ids. */
  lemma EntryDependencies(e: Entry)
    requires e.dependsOn != []
    ensures var own := EntryTree(e.(dependsOn := []));
            own.Group? && EntryTree(e) ==
            Group(true, own.keys + ["dependsOn"], own.vals + [Group(false, [], Texts(e.dependsOn))])
  {
  }

  /** A lockfile of one Feature. */
  lemma LockfileText(collate: Collation, id: string, e: Entry)
    requires Lists(collate) && collate({id}) == [id]
    ensures var entries := "{" + ("\n    " + Key(id) + Pretty(EntryTree(e), "\n    ")) + "\n  " + "}";
            Stringify(collate, map[id := e]) == "{" + ("\n  " + Key("features") + entries) + "\n" + "}" + "\n"
  {
    OneFeature(collate, id, e);
    hide *;
    var entries := Group(true, [id], [EntryTree(e)]);
    OneMember("features", entries, "\n", "\n  ");
    OneMember(id, EntryTree(e), "\n  ", "\n    ");
  }

  lemma OneMember(key: string, v: Json, newline: string, inner: string)
    requires inner == newline + "  "
    ensures Pretty(Group(true, [key], [v]), newline) ==
            "{" + (inner + Key(key) + Pretty(v, inner)) + newline + "}"
  {
    hide Pretty, Quote, Lines;
    GroupText([key], [v], newline);
    NextLine([key], [v], inner, 1);
    assert "" + "" + inner == inner;
  }

  lemma OneFeature(collate: Collation, id: string, e: Entry)
    requires Lists(collate) && collate({id}) == [id]
    ensures Stringify(collate, map[id := e]) ==
            Pretty(Group(true, ["features"], [Group(true, [id], [EntryTree(e)])]), "\n") + "\n"
  {
    hide EntryTree, Pretty;
    var features: Features := map[id := e];
    assert features.Keys == {id};
    var tree := Tree(collate, features);
    assert tree.vals[0].keys == [id] && tree.vals[0].vals == [EntryTree(e)];
  }

  lemma EntryInjective(a: Entry, b: Entry)
    requires EntryTree(a) == EntryTree(b)
    ensures a == b
  {
    var s, t := EntryTree(a), EntryTree(b);
    assert s.vals[0].s == t.vals[0].s && s.vals[1].s == t.vals[1].s && s.vals[2].s == t.vals[2].s;
    assert |s.keys| == |t.keys|;
    if a.dependsOn != [] {
      assert s.vals[3].vals == t.vals[3].vals;
      assert |Texts(a.dependsOn)| == |Texts(b.dependsOn)|;
      forall i | 0 <= i < |a.dependsOn|
        ensures a.dependsOn[i] == b.dependsOn[i]
      {
        assert Texts(a.dependsOn)[i] == Texts(b.dependsOn)[i];
      }
      assert a.dependsOn == b.dependsOn;
    }
  }

  /** Different lockfiles have different texts. */
  lemma StringifyInjective(num: Numbers, collate: Collation, a: Features, b: Features)
    requires Lists(collate) && Stringify(collate, a) == Stringify(collate, b)
    ensures a == b
  {
    hide Pretty, Canonical, EntryTree;
    var s, t := Tree(collate, a), Tree(collate, b);
    assert (Pretty(s, "\n") + "\n")[..|Pretty(s, "\n")|] == Pretty(s, "\n");
    assert (Pretty(t, "\n") + "\n")[..|Pretty(t, "\n")|] == Pretty(t, "\n");
    TreeCanonical(num, collate, a);
    TreeCanonical(num, collate, b);
    PrettyInjective(num, s, t);
    SameTree(collate, a, b);
  }

  lemma SameTree(collate: Collation, a: Features, b: Features)
    requires Lists(collate) && Tree(collate, a) == Tree(collate, b)
    ensures a == b
  {
    hide EntryTree;
    var s, t := Tree(collate, a).vals[0], Tree(collate, b).vals[0];
    assert s == t && s.keys == collate(a.Keys) == collate(b.Keys);
    forall id
      ensures id in a <==> id in b
      ensures id in a ==> a[id] == b[id]
    {
      assert id in a.Keys <==> id in s.keys;
      assert id in b.Keys <==> id in s.keys;
      if id in a {
        var i :| 0 <= i < |s.keys| && s.keys[i] == id;
        assert s.vals[i] == EntryTree(a[id]) && t.vals[i] == EntryTree(b[id]);
        EntryInjective(a[id], b[id]);
      }
    }
  }

  // The file.

  datatype File = Missing | Unreadable(error: string) | Content(text: string)

  datatype Result = Done | LockfileMissing | LockfileMismatch | ReadFailed(error: string) | WriteFailed

  /** A call of the writer; `fault` is what a write of the file leaves if it fails. */
  datatype Call = Call(features: Features, frozen: bool, fault: Option<File>)

  /** The environment a lockfile is written in. */
  datatype Setting = Setting(num: Numbers, collate: Collation)

  /** The file holds the lockfile, if not to the letter. */
  predicate Holds(env: Setting, file: File, features: Features)
    requires Lists(env.collate)
  {
    file.Content? && Normalized(env.num, file.text) == Some(Stringify(env.collate, features))
  }

  /** What a call does: the file afterwards and the result. */
  function Effect(env: Setting, file: File, call: Call): (File, Result)
    requires Lists(env.collate)
  {
    if file.Unreadable? then (file, ReadFailed(file.error))
    else if call.frozen then
      (file, if file.Missing? then LockfileMissing
             else if Holds(env, file, call.features) then Done else LockfileMismatch)
    else if Holds(env, file, call.features) then (file, Done)
    else if call.fault.Some? then (call.fault.value, WriteFailed)
    else (Content(Stringify(env.collate, call.features)), Done)
  }

  class Store {
    var file: File

    constructor (file: File)
      ensures this.file == file
    {
      this.file := file;
    }

    method WriteLockfile(env: Setting, call: Call) returns (r: Result)
      requires Lists(env.collate)
      modifies this
      ensures (file, r) == Effect(env, old(file), call)
    {
      hide Normalized, Stringify;
      var newData := Stringify(env.collate, call.features);
      if file.Unreadable? { return ReadFailed(file.error); }
      var missing := file.Missing?;
      if call.frozen && missing { return LockfileMissing; }
      var oldNormalized := NormalizeJson(env.num, if missing then "" else file.text);
      NothingIsNoJson(env.num);
      var same := oldNormalized == Some(newData);
      if call.frozen { return if same then Done else LockfileMismatch; }
      if same { return Done; }
      if call.fault.Some? {
        file := call.fault.value;
        return WriteFailed;
      }
      file := Content(newData);
      r := Done;
    }
  }

  lemma NothingIsNoJson(num: Numbers)
    ensures Normalized(num, "").None?
  {
  }

  // Histories.

  /** The file after the calls. */
  function After(env: Setting, file: File, calls: seq<Call>): File
    requires Lists(env.collate)
    decreases |calls|
  {
    if calls == [] then file else After(env, Effect(env, file, calls[0]).0, calls[1..])
  }

  /** The result of the last call. */
  function LastResult(env: Setting, file: File, calls: seq<Call>): Result
    requires Lists(env.collate) && calls != []
    decreases |calls|
  {
    if |calls| == 1 then Effect(env, file, calls[0]).1
    else LastResult(env, Effect(env, file, calls[0]).0, calls[1..])
  }

  /** A frozen call changes nothing, and succeeds exactly when the file holds its lockfile. */
  lemma FrozenLaws(env: Setting, file: File, call: Call)
    requires Lists(env.collate) && call.frozen
    ensures Effect(env, file, call).0 == file
    ensures Effect(env, file, call).1 == Done <==> Holds(env, file, call.features)
    ensures Holds(env, file, call.features) <==>
              file.Content? && Normalized(env.num, file.text) == Some(Stringify(env.collate, call.features))
    ensures file.Missing? ==> Effect(env, file, call).1 == LockfileMissing
    ensures file.Unreadable? ==> Effect(env, file, call).1 == ReadFailed(file.error)
    ensures file.Content? && !Holds(env, file, call.features) ==> Effect(env, file, call).1 == LockfileMismatch
  {
  }

  /** A call that is not frozen writes the lockfile's own text, or leaves what a failing write leaves; one that is up to date is let be. */
  lemma WriteLaws(env: Setting, file: File, call: Call)
    requires Lists(env.collate) && !call.frozen
    ensures var (after, result) := Effect(env, file, call);
            if file.Unreadable? then after == file && result == ReadFailed(file.error)
            else if Holds(env, file, call.features) then after == file && result == Done
            else if call.fault.Some? then after == call.fault.value && result == WriteFailed
            else after == Content(Stringify(env.collate, call.features)) && result == Done
  {
  }

  /** A call that is not frozen and succeeds leaves a file that holds its lockfile, and no other. */
  lemma WriteHolds(env: Setting, file: File, call: Call)
    requires Lists(env.collate) && !call.frozen && Effect(env, file, call).1 == Done
    ensures forall features :: Holds(env, Effect(env, file, call).0, features) <==> features == call.features
  {
    hide Normalized, Stringify;
    StringifyNormal(env.num, env.collate, call.features);
    forall features | Holds(env, Effect(env, file, call).0, features)
      ensures features == call.features
    {
      StringifyInjective(env.num, env.collate, features, call.features);
    }
  }

  lemma {:induction false} AfterSplit(env: Setting, file: File, calls: seq<Call>, call: Call)
    requires Lists(env.collate)
    ensures After(env, file, calls + [call]) == Effect(env, After(env, file, calls), call).0
    ensures LastResult(env, file, calls + [call]) == Effect(env, After(env, file, calls), call).1
    decreases |calls|
  {
    hide Effect;
    if calls == [] {
      assert calls + [call] == [call];
    } else {
      assert (calls + [call])[1..] == calls[1..] + [call];
      AfterSplit(env, Effect(env, file, calls[0]).0, calls[1..], call);
    }
  }

  /** While the file holds a lockfile, frozen calls and calls for that lockfile leave it alone. */
  lemma {:induction false} HeldStays(env: Setting, file: File, features: Features, later: seq<Call>)
    requires Lists(env.collate) && Holds(env, file, features)
    requires forall i :: 0 <= i < |later| ==> later[i].frozen || later[i].features == features
    ensures After(env, file, later) == file
  {
    hide Holds;
    if later != [] {
      HoldsMeans(env, file, features);
      HeldStays(env, file, features, later[1..]);
    }
  }

  lemma HoldsMeans(env: Setting, file: File, features: Features)
    requires Lists(env.collate) && Holds(env, file, features)
    ensures !file.Unreadable? && !file.Missing?
  {
  }

  /**
   After any history that ends in a successful call that is not frozen, frozen
   calls and further calls for the same lockfile never touch the file; at any
   moment of this, a call for the same lockfile succeeds, frozen or not and
   whatever the disk, and a frozen call for another one fails.
   */
  lemma WriteThenStable(env: Setting, file: File, before: seq<Call>, call: Call, later: seq<Call>, next: Call)
    requires Lists(env.collate) && !call.frozen && LastResult(env, file, before + [call]) == Done
    requires forall i :: 0 <= i < |later| ==> later[i].frozen || later[i].features == call.features
    ensures After(env, file, before + [call] + later) == After(env, file, before + [call])
    ensures next.features == call.features ==> LastResult(env, file, before + [call] + later + [next]) == Done
    ensures next.frozen && next.features != call.features ==>
              LastResult(env, file, before + [call] + later + [next]) == LockfileMismatch
  {
    hide Normalized, Stringify, After, LastResult;
    var start := After(env, file, before);
    var held := Effect(env, start, call).0;
    AfterSplit(env, file, before, call);
    WriteHolds(env, start, call);
    assert Holds(env, held, call.features);
    HeldStays(env, held, call.features, later);
    AfterAppend(env, file, before + [call], later);
    AfterSplit(env, file, before + [call] + later, next);
  }

  lemma {:induction false} AfterAppend(env: Setting, file: File, calls: seq<Call>, later: seq<Call>)
    requires Lists(env.collate)
    ensures After(env, file, calls + later) == After(env, After(env, file, calls), later)
    decreases |calls|
  {
    hide Effect;
    if calls == [] {
      assert calls + later == later;
    } else {
      assert (calls + later)[1..] == calls[1..] + later;
      AfterAppend(env, Effect(env, file, calls[0]).0, calls[1..], later);
    }
  }

  /** A history of frozen calls only changes nothing. */
  lemma {:induction false} FrozenHistory(env: Setting, file: File, calls: seq<Call>)
    requires Lists(env.collate) && forall i :: 0 <= i < |calls| ==> calls[i].frozen
    ensures After(env, file, calls) == file
  {
    if calls != [] {
      FrozenLaws(env, file, calls[0]);
      FrozenHistory(env, file, calls[1..]);
    }
  }
}
