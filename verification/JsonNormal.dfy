/**
 normalizeJSON (internal/features/lockfile.go:412-472): a text is read token by
 token and written again as it is read. It is proved to be the pretty-printing
 of the parsed document, and to leave what it wrote alone.

 How Go writes a number is the function `num`, which is partial because a
 number may be out of range.
 */
module JsonNormal {
  import opened JsonText
  import opened JsonTokens
  import opened Wrappers

  type Numbers = string -> Option<string>

  /** What is written for a number is a number, and is written as it stands. */
  ghost predicate Settled(num: Numbers) {
    forall t :: num(t).Some? ==> IsNumber(num(t).value) && num(num(t).value) == num(t)
  }

  /** A document. An object's keys keep their order and may repeat; an array has none. */
  datatype Json = Text(s: string) | Literal(text: string) | Group(obj: bool, keys: seq<string>, vals: seq<Json>)

  predicate KeysFit(obj: bool, keys: seq<string>, vals: seq<Json>) { if obj then |keys| == |vals| else keys == [] }

  /** A document whose atoms are written as Go writes them. */
  predicate Canonical(num: Numbers, v: Json) {
    match v
    case Text(_) => true
    case Literal(text) => CanonicalAtom(num, text) == Some(text) && IsAtom(text)
    case Group(obj, keys, vals) => KeysFit(obj, keys, vals) && forall i :: 0 <= i < |vals| ==> Canonical(num, vals[i])
  }

  function CanonicalAtom(num: Numbers, text: string): Option<string> {
    if IsLiteral(text) then Some(text) else num(text)
  }

  // Printing: JSON.stringify(v, null, 2).

  function Open(obj: bool): char { if obj then '{' else '[' }
  function Close(obj: bool): char { if obj then '}' else ']' }

  /** What is written before a member's value. */
  function Label(obj: bool, keys: seq<string>, i: nat): string {
    if obj && i < |keys| then Quote(keys[i]) + ": " else ""
  }

  /** The document `v`, `newline` being the line break and indentation of the line it starts on. */
  function Pretty(v: Json, newline: string): string {
    match v
    case Text(s) => Quote(s)
    case Literal(text) => text
    case Group(obj, keys, vals) =>
      [Open(obj)] + Lines(obj, keys, vals, newline + "  ", |vals|) + (if vals == [] then "" else newline) + [Close(obj)]
  }

  /** The first `n` members, each on a line of its own. */
  function Lines(obj: bool, keys: seq<string>, vals: seq<Json>, inner: string, n: nat): string
    requires n <= |vals|
    decreases vals, n
  {
    if n == 0 then ""
    else
      Lines(obj, keys, vals, inner, n - 1) + (if n > 1 then "," else "") + inner + Label(obj, keys, n - 1) +
      Pretty(vals[n - 1], inner)
  }

  // Parsing.

  function Opens(t: Token): Option<bool> { if t.LBrace? then Some(true) else if t.LBrack? then Some(false) else None }
  function Closer(obj: bool): Token { if obj then RBrace else RBrack }

  /** The document at the start of `ts`, its atoms made canonical. */
  function Parse(num: Numbers, ts: Tokens): (r: Option<(Json, Tokens)>)
    ensures r.Some? ==> |r.value.1| < |ts|
    decreases |ts|, 0
  {
    if ts == [] then None
    else if ts[0].StringToken? then Some((Text(ts[0].s), ts[1..]))
    else if ts[0].Atom? then
      (if CanonicalAtom(num, ts[0].text).None? then None
       else Some((Literal(CanonicalAtom(num, ts[0].text).value), ts[1..])))
    else if Opens(ts[0]).None? then None
    else ParseMembers(num, Opens(ts[0]).value, ts[1..], [], [])
  }

  /** The rest of an array or object after the members `keys` and `vals`. */
  function ParseMembers(num: Numbers, obj: bool, ts: Tokens, keys: seq<string>, vals: seq<Json>): (r: Option<(Json, Tokens)>)
    ensures r.Some? ==> |r.value.1| < |ts|
    decreases |ts|, 1
  {
    if ts == [] then None
    else if ts[0] == Closer(obj) then Some((Group(obj, keys, vals), ts[1..]))
    else if vals != [] && ts[0] != Comma then None
    else
      var m := if vals == [] then ts else ts[1..];
      if obj && (|m| < 2 || !m[0].StringToken? || m[1] != Colon) then None
      else
        var v := Parse(num, if obj then m[2..] else m);
        if v.None? then None
        else ParseMembers(num, obj, v.value.1, if obj then keys + [m[0].s] else keys, vals + [v.value.0])
  }

  /** JSON.stringify(JSON.parse(text), null, 2) and a line break, when the text is one document. */
  function Normalized(num: Numbers, text: string): Option<string> {
    match Lex(text)
    case None => None
    case Some(ts) =>
      match Parse(num, ts)
      case None => None
      case Some((v, rest)) => if rest == [] then Some(Pretty(v, "\n") + "\n") else None
  }

  // What is printed reads back.

  function LabelTokens(obj: bool, keys: seq<string>, i: nat): Tokens {
    if obj && i < |keys| then [StringToken(keys[i]), Colon] else []
  }

  function TokensOf(v: Json): Tokens {
    match v
    case Text(s) => [StringToken(s)]
    case Literal(text) => [Atom(text)]
    case Group(obj, keys, vals) =>
      [if obj then LBrace else LBrack] + MemberTokens(obj, keys, vals, |vals|) + [Closer(obj)]
  }

  function MemberTokens(obj: bool, keys: seq<string>, vals: seq<Json>, n: nat): Tokens
    requires n <= |vals|
    decreases vals, n
  {
    if n == 0 then []
    else
      MemberTokens(obj, keys, vals, n - 1) + (if n > 1 then [Comma] else []) + LabelTokens(obj, keys, n - 1) +
      TokensOf(vals[n - 1])
  }

  predicate Indent(w: string) { w != "" && w[0] == '\n' && forall i :: 0 <= i < |w| ==> IsSpace(w[i]) }

  lemma LabelLexes(obj: bool, keys: seq<string>, i: nat)
    ensures LexesAs(Label(obj, keys, i), LabelTokens(obj, keys, i), false)
  {
    hide LexesAs, Quote;
    if obj && i < |keys| {
      LexQuote(keys[i]);
      LexPunctuation(':');
      LexSpace(" ");
      assert ":" == [':'] && Punctuation(':').value == Colon;
      LexConcat(":", [Colon], false, " ", [], false);
      assert ":" + " " == ": " && [Colon] + [] == [Colon];
      LexConcat(Quote(keys[i]), [StringToken(keys[i])], false, ": ", [Colon], false);
      assert [StringToken(keys[i])] + [Colon] == [StringToken(keys[i]), Colon];
    } else {
      LexNothing();
    }
  }

  /** The separator, the line break and the label of a member. */
  lemma LeadLexes(obj: bool, keys: seq<string>, inner: string, n: nat)
    requires Indent(inner) && n > 0
    ensures var lead := (if n > 1 then "," else "") + inner + Label(obj, keys, n - 1);
            lead != "" && Stop(lead[0]) &&
            LexesAs(lead, (if n > 1 then [Comma] else []) + LabelTokens(obj, keys, n - 1), false)
  {
    hide LexesAs, Label, LabelTokens;
    var sep, mark := if n > 1 then "," else "", if n > 1 then [Comma] else [];
    if n > 1 { LexPunctuation(','); } else { LexNothing(); }
    LexSpace(inner);
    LabelLexes(obj, keys, n - 1);
    LexConcat(sep, mark, false, inner, [], false);
    assert mark + [] == mark;
    LexConcat(sep + inner, mark, false, Label(obj, keys, n - 1), LabelTokens(obj, keys, n - 1), false);
  }

  lemma DeeperIndent(w: string)
    requires Indent(w)
    ensures Indent(w + "  ")
  {
  }

  /** The printed document is split into its tokens. */
  lemma {:induction false} PrettyLexes(num: Numbers, v: Json, newline: string)
    requires Canonical(num, v) && Indent(newline)
    ensures LexesAs(Pretty(v, newline), TokensOf(v), true)
    decreases v, 1
  {
    hide LexesAs, Lex, IsAtom, Quote;
    match v
    case Text(s) =>
      LexQuote(s);
      Weaken(Quote(s), [StringToken(s)]);
    case Literal(text) => LexAtom(text);
    case Group(obj, keys, vals) => GroupLexes(num, v, newline);
  }

  lemma Weaken(t: string, ts: Tokens)
    requires LexesAs(t, ts, false)
    ensures LexesAs(t, ts, true)
  {
    hide Lex;
  }

  lemma GroupLexes(num: Numbers, v: Json, newline: string)
    requires v.Group? && Canonical(num, v) && Indent(newline)
    ensures LexesAs(Pretty(v, newline), TokensOf(v), true)
    decreases v, 0
  {
    hide LexesAs, Lines, MemberTokens;
    var open: Token := if v.obj then LBrace else LBrack;
    var lines, marks := Lines(v.obj, v.keys, v.vals, newline + "  ", |v.vals|), MemberTokens(v.obj, v.keys, v.vals, |v.vals|);
    var tail := if v.vals == [] then "" else newline;
    LexPunctuation(Open(v.obj));
    LexPunctuation(Close(v.obj));
    assert Punctuation(Open(v.obj)) == Some(open) && Punctuation(Close(v.obj)) == Some(Closer(v.obj));
    DeeperIndent(newline);
    LinesLex(num, v.obj, v.keys, v.vals, newline + "  ", |v.vals|);
    LexSpace(tail);
    LexConcat([Open(v.obj)], [open], false, lines, marks, true);
    LexConcat(tail, [], false, [Close(v.obj)], [Closer(v.obj)], false);
    assert [] + [Closer(v.obj)] == [Closer(v.obj)];
    LexConcat([Open(v.obj)] + lines, [open] + marks, true, tail + [Close(v.obj)], [Closer(v.obj)], false);
    assert Pretty(v, newline) == [Open(v.obj)] + lines + (tail + [Close(v.obj)]);
    assert TokensOf(v) == [open] + marks + [Closer(v.obj)];
    Weaken(Pretty(v, newline), TokensOf(v));
  }

  lemma LinesStep(obj: bool, keys: seq<string>, vals: seq<Json>, inner: string, n: nat)
    requires 0 < n <= |vals|
    ensures var lead := (if n > 1 then "," else "") + inner + Label(obj, keys, n - 1);
            Lines(obj, keys, vals, inner, n) ==
            Lines(obj, keys, vals, inner, n - 1) + (lead + Pretty(vals[n - 1], inner))
    ensures var marks := (if n > 1 then [Comma] else []) + LabelTokens(obj, keys, n - 1);
            MemberTokens(obj, keys, vals, n) == MemberTokens(obj, keys, vals, n - 1) + (marks + TokensOf(vals[n - 1]))
  {
    hide Label, LabelTokens, Pretty, TokensOf;
  }

  lemma LinesLex(num: Numbers, obj: bool, keys: seq<string>, vals: seq<Json>, inner: string, n: nat)
    requires Indent(inner) && n <= |vals| && forall i :: 0 <= i < |vals| ==> Canonical(num, vals[i])
    ensures LexesAs(Lines(obj, keys, vals, inner, n), MemberTokens(obj, keys, vals, n), true)
    decreases vals, n
  {
    if n == 0 {
      hide LexesAs;
      LexNothing();
      Weaken("", []);
    } else {
      hide *;
      LinesLex(num, obj, keys, vals, inner, n - 1);
      LeadLexes(obj, keys, inner, n);
      PrettyLexes(num, vals[n - 1], inner);
      var lead := (if n > 1 then "," else "") + inner + Label(obj, keys, n - 1);
      var marks := (if n > 1 then [Comma] else []) + LabelTokens(obj, keys, n - 1);
      LexConcat(lead, marks, false, Pretty(vals[n - 1], inner), TokensOf(vals[n - 1]), true);
      assert (lead + Pretty(vals[n - 1], inner))[0] == lead[0];
      LexConcat(Lines(obj, keys, vals, inner, n - 1), MemberTokens(obj, keys, vals, n - 1), true,
                lead + Pretty(vals[n - 1], inner), marks + TokensOf(vals[n - 1]), true);
      LinesStep(obj, keys, vals, inner, n);
    }
  }

  /** The tokens of a document are parsed as the document, whatever follows. */
  lemma {:induction false} TokensParse(num: Numbers, v: Json, rest: Tokens)
    requires Canonical(num, v)
    ensures Parse(num, TokensOf(v) + rest) == Some((v, rest))
    decreases v, 0
  {
    hide IsAtom;
    match v
    case Text(s) => assert TokensOf(v) + rest == [StringToken(s)] + rest;
    case Literal(text) => assert TokensOf(v) + rest == [Atom(text)] + rest;
    case Group(obj, keys, vals) =>
      var tail := [Closer(obj)] + rest;
      var body := MemberTokens(obj, keys, vals, |vals|) + tail;
      assert TokensOf(v) + rest == [if obj then LBrace else LBrack] + body;
      MembersParse(num, obj, keys, vals, |vals|, tail);
      assert tail[1..] == rest && vals[..|vals|] == vals && keys[..|keys|] == keys;
      assert Parse(num, TokensOf(v) + rest) == ParseMembers(num, obj, body, [], []);
  }

  lemma TokensStart(v: Json)
    ensures TokensOf(v) != [] && !TokensOf(v)[0].RBrack? && !TokensOf(v)[0].RBrace?
  {
  }

  lemma MembersStep(num: Numbers, obj: bool, ts: Tokens, keys: seq<string>, vals: seq<Json>, key: string, v: Json, rest: Tokens)
    requires ts != [] && !ts[0].RBrack? && !ts[0].RBrace? && Parse(num, ts) == Some((v, rest)) && KeysFit(obj, keys, vals)
    ensures var name := if obj then [StringToken(key), Colon] else [];
            ParseMembers(num, obj, (if vals == [] then [] else [Comma]) + name + ts, keys, vals) ==
            ParseMembers(num, obj, rest, if obj then keys + [key] else keys, vals + [v])
  {
    var name := if obj then [StringToken(key), Colon] else [];
    var m := name + ts;
    if vals == [] {
      assert [] + name + ts == m;
    } else {
      assert ([Comma] + name + ts)[1..] == m;
    }
    assert obj ==> m[2..] == ts;
    assert !obj ==> m == ts;
  }

  lemma NoMembers(obj: bool, keys: seq<string>, vals: seq<Json>, rest: Tokens)
    ensures MemberTokens(obj, keys, vals, 0) + rest == rest
  {
  }

  /** The tokens of the last member, and what comes after. */
  lemma LastTokens(obj: bool, keys: seq<string>, vals: seq<Json>, n: nat, rest: Tokens) returns (next: Tokens)
    requires KeysFit(obj, keys, vals) && 0 < n <= |vals|
    ensures next == (if n > 1 then [Comma] else []) + LabelTokens(obj, keys, n - 1) + (TokensOf(vals[n - 1]) + rest)
    ensures MemberTokens(obj, keys, vals, n) + rest == MemberTokens(obj, keys, vals, n - 1) + next
  {
    hide *;
    LinesStep(obj, keys, vals, "", n);
    var lead := (if n > 1 then [Comma] else []) + LabelTokens(obj, keys, n - 1);
    next := lead + (TokensOf(vals[n - 1]) + rest);
  }

  lemma MembersParse(num: Numbers, obj: bool, keys: seq<string>, vals: seq<Json>, n: nat, rest: Tokens)
    requires KeysFit(obj, keys, vals) && n <= |vals| && forall i :: 0 <= i < |vals| ==> Canonical(num, vals[i])
    ensures ParseMembers(num, obj, MemberTokens(obj, keys, vals, n) + rest, [], []) ==
            ParseMembers(num, obj, rest, if obj then keys[..n] else keys, vals[..n])
    decreases vals, n
  {
    hide Parse, ParseMembers, TokensOf, Canonical, Lines, MemberTokens, LabelTokens;
    if n == 0 {
      NoMembers(obj, keys, vals, rest);
      assert vals[..n] == [] && (obj ==> keys[..n] == []);
    } else {
      var next := LastTokens(obj, keys, vals, n, rest);
      MembersParse(num, obj, keys, vals, n - 1, next);
      TokensParse(num, vals[n - 1], rest);
      LastMemberParses(num, obj, keys, vals, n, rest);
    }
  }

  lemma LastMemberParses(num: Numbers, obj: bool, keys: seq<string>, vals: seq<Json>, n: nat, rest: Tokens)
    requires KeysFit(obj, keys, vals) && 0 < n <= |vals|
    requires Parse(num, TokensOf(vals[n - 1]) + rest) == Some((vals[n - 1], rest))
    ensures var next := (if n > 1 then [Comma] else []) + LabelTokens(obj, keys, n - 1) + (TokensOf(vals[n - 1]) + rest);
            ParseMembers(num, obj, next, if obj then keys[..n - 1] else keys, vals[..n - 1]) ==
            ParseMembers(num, obj, rest, if obj then keys[..n] else keys, vals[..n])
  {
    hide Parse, ParseMembers, TokensOf;
    var v := vals[n - 1];
    TokensStart(v);
    MembersStep(num, obj, TokensOf(v) + rest, if obj then keys[..n - 1] else keys, vals[..n - 1],
                if obj then keys[n - 1] else "", v, rest);
    assert vals[..n] == vals[..n - 1] + [v];
    assert obj ==> keys[..n] == keys[..n - 1] + [keys[n - 1]];
  }

  /** The written text reads back as the document. */
  lemma WrittenReads(num: Numbers, v: Json)
    requires Canonical(num, v)
    ensures Lex(Pretty(v, "\n") + "\n") == Some(TokensOf(v)) && Parse(num, TokensOf(v)) == Some((v, []))
  {
    hide Pretty, TokensOf, Canonical, Parse;
    PrettyLexes(num, v, "\n");
    TokensParse(num, v, []);
    assert Stopped("\n");
    assert Lex(Pretty(v, "\n") + "\n") == Before(TokensOf(v), Lex("\n"));
    assert Lex("\n") == Some([]);
    assert TokensOf(v) + [] == TokensOf(v);
  }

  /** What JSON.stringify wrote is normalised to itself. */
  lemma NormalizedPretty(num: Numbers, v: Json)
    requires Canonical(num, v)
    ensures Normalized(num, Pretty(v, "\n") + "\n") == Some(Pretty(v, "\n") + "\n")
  {
    hide Pretty, TokensOf, Canonical, Parse, Lex;
    WrittenReads(num, v);
  }

  /** Different documents are written differently. */
  lemma PrettyInjective(num: Numbers, v: Json, w: Json)
    requires Canonical(num, v) && Canonical(num, w) && Pretty(v, "\n") == Pretty(w, "\n")
    ensures v == w
  {
    hide Pretty, TokensOf, Canonical, Parse, Lex;
    WrittenReads(num, v);
    WrittenReads(num, w);
  }

  // Normalising settles.

  lemma {:induction false} ParseCanonical(num: Numbers, ts: Tokens)
    requires Settled(num) && Parse(num, ts).Some?
    ensures Canonical(num, Parse(num, ts).value.0)
    decreases |ts|, 0
  {
    hide IsNumber;
    if ts[0].StringToken? {
    } else if ts[0].Atom? {
      if !IsLiteral(ts[0].text) { assert IsNumber(num(ts[0].text).value); }
    } else {
      MembersCanonical(num, Opens(ts[0]).value, ts[1..], [], []);
    }
  }

  lemma MembersCanonical(num: Numbers, obj: bool, ts: Tokens, keys: seq<string>, vals: seq<Json>)
    requires Settled(num) && ParseMembers(num, obj, ts, keys, vals).Some?
    requires KeysFit(obj, keys, vals) && forall i :: 0 <= i < |vals| ==> Canonical(num, vals[i])
    ensures Canonical(num, ParseMembers(num, obj, ts, keys, vals).value.0)
    decreases |ts|, 1
  {
    hide Settled, Parse;
    if ts[0] != Closer(obj) {
      var m := if vals == [] then ts else ts[1..];
      var at := if obj then m[2..] else m;
      ParseCanonical(num, at);
      var (v, rest) := Parse(num, at).value;
      MembersCanonical(num, obj, rest, if obj then keys + [m[0].s] else keys, vals + [v]);
    }
  }

  /** Normalising a text a second time changes nothing, whatever the text. */
  lemma NormalizedTwice(num: Numbers, text: string)
    requires Settled(num) && Normalized(num, text).Some?
    ensures Normalized(num, Normalized(num, text).value) == Normalized(num, text)
  {
    hide Parse, Lex, Settled;
    ParseCanonical(num, Lex(text).value);
    NormalizedPretty(num, Parse(num, Lex(text).value).value.0);
  }
}
