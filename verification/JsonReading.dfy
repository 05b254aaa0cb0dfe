/**
 What normalizeJSON reads (internal/features/lockfile.go:420-472): only the
 tokens of a document, commas and colons where they belong.
 */
module JsonReading {
  import opened JsonTokens
  import opened JsonNormal
  import opened Wrappers

  /** `v` is the document `u` with its atoms as Go writes them. */
  predicate Reads(num: Numbers, u: Json, v: Json) {
    match u
    case Text(s) => v == Text(s)
    case Literal(text) => CanonicalAtom(num, text).Some? && v == Literal(CanonicalAtom(num, text).value)
    case Group(obj, keys, vals) =>
      v.Group? && v.obj == obj && v.keys == keys && |v.vals| == |vals| && KeysFit(obj, keys, vals) &&
      forall i :: 0 <= i < |vals| ==> Reads(num, vals[i], v.vals[i])
  }

  predicate AllRead(num: Numbers, us: seq<Json>, vs: seq<Json>) {
    |us| == |vs| && forall i :: 0 <= i < |us| ==> Reads(num, us[i], vs[i])
  }

  /** The first members of a longer list are those of the shorter. */
  lemma {:induction false} FirstMembers(obj: bool, keys: seq<string>, us: seq<Json>, k: string, u: Json, n: nat)
    requires KeysFit(obj, keys, us) && n <= |us|
    ensures MemberTokens(obj, if obj then keys + [k] else keys, us + [u], n) == MemberTokens(obj, keys, us, n)
  {
    hide TokensOf;
    if n > 0 { FirstMembers(obj, keys, us, k, u, n - 1); }
  }

  lemma OneMore(obj: bool, keys: seq<string>, us: seq<Json>, k: string, u: Json)
    requires KeysFit(obj, keys, us)
    ensures var lead := (if us == [] then [] else [Comma]) + if obj then [StringToken(k), Colon] else [];
            MemberTokens(obj, if obj then keys + [k] else keys, us + [u], |us| + 1) ==
            MemberTokens(obj, keys, us, |us|) + (lead + TokensOf(u))
  {
    var keys' := if obj then keys + [k] else keys;
    LinesStep(obj, keys', us + [u], "", |us| + 1);
    FirstMembers(obj, keys, us, k, u, |us|);
  }

  /** Whatever is read is the tokens of a document. */
  lemma {:induction false} ParseSound(num: Numbers, ts: Tokens) returns (u: Json)
    requires Parse(num, ts).Some?
    ensures Reads(num, u, Parse(num, ts).value.0) && ts == TokensOf(u) + Parse(num, ts).value.1
    decreases |ts|, 0
  {
    hide ParseMembers, CanonicalAtom;
    var t := ts[0];
    assert ts == [t] + ts[1..];
    if t.StringToken? { return Text(t.s); }
    if t.Atom? { return Literal(t.text); }
    var obj := Opens(t).value;
    assert t == if obj then LBrace else LBrack;
    NoMembers(obj, [], [], ts[1..]);
    var us: seq<Json>, keys: seq<string>;
    us, keys := MembersSound(num, obj, ts[1..], [], [], []);
    u := Group(obj, keys, us);
    GroupTokens(obj, keys, us, Parse(num, ts).value.1);
    hide TokensOf, MemberTokens, Opens;
  }

  lemma GroupTokens(obj: bool, keys: seq<string>, us: seq<Json>, rest: Tokens)
    ensures TokensOf(Group(obj, keys, us)) + rest ==
            [if obj then LBrace else LBrack] + (MemberTokens(obj, keys, us, |us|) + [Closer(obj)] + rest)
  {
    hide MemberTokens;
  }

  lemma {:induction false} MembersSound(
    num: Numbers, obj: bool, ts: Tokens, keys: seq<string>, vals: seq<Json>, before: seq<Json>)
    returns (us: seq<Json>, keys': seq<string>)
    requires ParseMembers(num, obj, ts, keys, vals).Some? && KeysFit(obj, keys, vals) && AllRead(num, before, vals)
    ensures KeysFit(obj, keys', us)
    ensures var (v, rest) := ParseMembers(num, obj, ts, keys, vals).value;
            v.Group? && v.obj == obj && v.keys == keys' && AllRead(num, us, v.vals) &&
            MemberTokens(obj, keys, before, |before|) + ts ==
            MemberTokens(obj, keys', us, |us|) + [Closer(obj)] + rest
    decreases |ts|, 2
  {
    hide Parse, Reads, MemberTokens, TokensOf;
    if ts[0] == Closer(obj) {
      us, keys' := before, keys;
      var done := MemberTokens(obj, keys, before, |before|);
      assert ts == [ts[0]] + ts[1..];
      assert done + ts == done + [Closer(obj)] + ts[1..];
      return;
    }
    MemberTaken(num, obj, ts, keys, vals);
    var u := NextMember(num, obj, ts, keys, vals, before);
    hide ParseMembers;
    var m := if vals == [] then ts else ts[1..];
    var (v, rest) := Parse(num, if obj then m[2..] else m).value;
    var more := if obj then keys + [m[0].s] else keys;
    us, keys' := MembersSound(num, obj, rest, more, vals + [v], before + [u]);
  }

  lemma NextMember(num: Numbers, obj: bool, ts: Tokens, keys: seq<string>, vals: seq<Json>, before: seq<Json>)
    returns (u: Json)
    requires ParseMembers(num, obj, ts, keys, vals).Some? && ts[0] != Closer(obj)
    requires KeysFit(obj, keys, vals) && AllRead(num, before, vals)
    ensures var m := if vals == [] then ts else ts[1..];
            (obj ==> |m| >= 2 && m[0].StringToken?) &&
            var value := if obj then m[2..] else m;
            Parse(num, value).Some? && Reads(num, u, Parse(num, value).value.0) &&
            MemberTokens(obj, if obj then keys + [m[0].s] else keys, before + [u], |before| + 1) + Parse(num, value).value.1 ==
            MemberTokens(obj, keys, before, |before|) + ts
    decreases |ts|, 1
  {
    hide Parse, Reads, MemberTokens, TokensOf;
    MemberTaken(num, obj, ts, keys, vals);
    hide ParseMembers;
    var m := if vals == [] then ts else ts[1..];
    var value := if obj then m[2..] else m;
    u := ParseSound(num, value);
    var k := if obj then m[0].s else "";
    OneMore(obj, keys, before, k, u);
    LeadOf(obj, ts, vals);
    var lead := (if vals == [] then [] else [Comma]) + if obj then [StringToken(k), Colon] else [];
    Joined(MemberTokens(obj, keys, before, |before|), lead, TokensOf(u), Parse(num, value).value.1);
  }

  lemma Joined(a: Tokens, b: Tokens, c: Tokens, d: Tokens)
    ensures a + (b + c) + d == a + (b + (c + d))
  {
  }

  lemma LeadOf(obj: bool, ts: Tokens, vals: seq<Json>)
    requires ts != [] && (vals != [] ==> ts[0] == Comma)
    requires var m := if vals == [] then ts else ts[1..]; obj ==> |m| >= 2 && m[0].StringToken? && m[1] == Colon
    ensures var m := if vals == [] then ts else ts[1..];
            var lead := (if vals == [] then [] else [Comma]) + if obj then [StringToken(m[0].s), Colon] else [];
            ts == lead + if obj then m[2..] else m
  {
    assert ts == [ts[0]] + ts[1..];
  }

  /** What one round of the members takes. */
  lemma MemberTaken(num: Numbers, obj: bool, ts: Tokens, keys: seq<string>, vals: seq<Json>)
    requires ParseMembers(num, obj, ts, keys, vals).Some? && ts[0] != Closer(obj)
    ensures ts != [] && (vals != [] ==> ts[0] == Comma)
    ensures var m := if vals == [] then ts else ts[1..];
            (obj ==> |m| >= 2 && m[0].StringToken? && m[1] == Colon) &&
            var value := if obj then m[2..] else m;
            Parse(num, value).Some? && |value| <= |ts| &&
            ParseMembers(num, obj, ts, keys, vals) ==
            ParseMembers(num, obj, Parse(num, value).value.1, if obj then keys + [m[0].s] else keys,
                         vals + [Parse(num, value).value.0])
  {
    hide Parse;
  }
}
