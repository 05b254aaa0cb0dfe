/**
 The streaming writer of internal/features/lockfile.go:412-472: it pulls tokens
 from Go's decoder, which hides the commas and colons it checks, and writes each
 as it comes. Whatever the text, it gives what parsing the text and printing the
 document give.
 */
module JsonNormalizer {
  import opened JsonNormal
  import opened JsonText
  import opened JsonTokens
  import opened Wrappers

  /** Where the decoder is: before the first or a later member, or between a key and its value. */
  datatype Place = Top | First(obj: bool) | Later(obj: bool) | AtColon

  /** The decoder: the tokens left, its place, and the places of the values it is inside of. */
  datatype Cursor = Cursor(rest: Tokens, place: Place, outer: seq<Place>)

  predicate AtKey(p: Place) { (p.First? || p.Later?) && p.obj }

  predicate Ends(c: Cursor) {
    c.rest != [] && (c.place.First? || c.place.Later?) && c.rest[0] == Closer(c.place.obj)
  }

  function AfterValue(p: Place): Place {
    match p
    case Top => Top
    case First(obj) => Later(obj)
    case Later(obj) => Later(obj)
    case AtColon => Later(true)
  }

  /** The tokens from the next key or value on, after the separator that must stand before it. */
  function Separated(c: Cursor): Option<Tokens> {
    if c.place.Later? then (if c.rest != [] && c.rest[0] == Comma then Some(c.rest[1..]) else None)
    else if c.place.AtColon? then (if c.rest != [] && c.rest[0] == Colon then Some(c.rest[1..]) else None)
    else Some(c.rest)
  }

  /** json.Decoder.Token: the next token and the decoder after it. */
  function Next(num: Numbers, c: Cursor): Option<(Token, Cursor)> {
    if Ends(c) then
      var n := |c.outer|;
      Some((c.rest[0], if n == 0 then Cursor(c.rest[1..], Top, []) else Cursor(c.rest[1..], c.outer[n - 1], c.outer[..n - 1])))
    else
      var ts := Separated(c);
      if ts.None? || ts.value == [] then None
      else
        var (t, rest) := (ts.value[0], ts.value[1..]);
        if AtKey(c.place) then (if t.StringToken? then Some((t, Cursor(rest, AtColon, c.outer))) else None)
        else if t.StringToken? then Some((t, Cursor(rest, AfterValue(c.place), c.outer)))
        else if t.Atom? then
          (if CanonicalAtom(num, t.text).None? then None
           else Some((Atom(CanonicalAtom(num, t.text).value), Cursor(rest, AfterValue(c.place), c.outer))))
        else if Opens(t).Some? then
          Some((t, Cursor(rest, First(Opens(t).value), c.outer + [AfterValue(c.place)])))
        else None
  }

  /** The key or value at the decoder, and the decoder after it. */
  function Reading(num: Numbers, c: Cursor): (r: Option<(Json, Cursor)>)
    ensures r.Some? ==> |r.value.1.rest| < |c.rest| && r.value.1.outer == c.outer
  {
    var ts := Separated(c);
    if ts.None? then None
    else if AtKey(c.place) then
      (if ts.value == [] || !ts.value[0].StringToken? then None
       else Some((Text(ts.value[0].s), Cursor(ts.value[1..], AtColon, c.outer))))
    else
      var v := Parse(num, ts.value);
      if v.None? then None else Some((v.value.0, Cursor(v.value.1, AfterValue(c.place), c.outer)))
  }

  /** The key, if any, and the value of the member at the decoder, and the decoder after them. */
  function Member(num: Numbers, obj: bool, c: Cursor): (r: Option<(string, Json, Cursor)>)
    ensures r.Some? ==> |r.value.2.rest| < |c.rest| && r.value.2.outer == c.outer
  {
    var k := if obj then Reading(num, c) else Some((Text(""), c));
    if k.None? || !k.value.0.Text? then None
    else
      var v := Reading(num, k.value.1);
      if v.None? then None else Some((k.value.0.s, v.value.0, v.value.1))
  }

  /** The place of a member of an array or object. */
  function MemberPlace(obj: bool, later: bool): Place { if later then Later(obj) else First(obj) }

  function AddKey(obj: bool, keys: seq<string>, key: string): seq<string> { if obj then keys + [key] else keys }

  /** A member on a line of its own. */
  function MemberText(obj: bool, later: bool, key: string, v: Json, inner: string): string {
    (if later then "," else "") + inner + (if obj then Quote(key) + ": " else "") + Pretty(v, inner)
  }

  lemma MembersRead(num: Numbers, obj: bool, c: Cursor, keys: seq<string>, vals: seq<Json>)
    requires c.place == MemberPlace(obj, vals != []) && c.rest != [] && !Ends(c)
    ensures var m := Member(num, obj, c);
            if m.None? then ParseMembers(num, obj, c.rest, keys, vals).None?
            else
              m.value.2.place == Later(obj) &&
              ParseMembers(num, obj, c.rest, keys, vals) ==
              ParseMembers(num, obj, m.value.2.rest, AddKey(obj, keys, m.value.0), vals + [m.value.1])
  {
    hide Parse;
    var m := if vals == [] then c.rest else c.rest[1..];
    if obj && (vals == [] || c.rest[0] == Comma) && |m| > 1 && m[1] == Colon {
      assert m[1..][1..] == m[2..];
    }
  }

  /** The token at a key or value says what is read there. */
  lemma ValueStep(num: Numbers, c: Cursor)
    requires !Ends(c)
    ensures match Next(num, c)
            case None => Reading(num, c).None?
            case Some((t, after)) =>
              |after.rest| < |c.rest| &&
              if t.StringToken? then Reading(num, c) == Some((Text(t.s), after))
              else if t.Atom? then Reading(num, c) == Some((Literal(t.text), after))
              else
                Opens(t).Some? && after.place == First(Opens(t).value) && after.outer == c.outer + [AfterValue(c.place)] &&
                match ParseMembers(num, Opens(t).value, after.rest, [], [])
                case None => Reading(num, c).None?
                case Some((v, rest)) => Reading(num, c) == Some((v, Cursor(rest, AfterValue(c.place), c.outer)))
  {
    hide ParseMembers, CanonicalAtom;
  }

  /** Where no member follows, the array or object is closed there or is none. */
  lemma EndStep(num: Numbers, obj: bool, c: Cursor, keys: seq<string>, vals: seq<Json>)
    requires c.place == (if vals == [] then First(obj) else Later(obj)) && c.outer != []
    requires c.rest == [] || c.rest[0].RBrack? || c.rest[0].RBrace?
    ensures Next(num, c).None? ==> ParseMembers(num, obj, c.rest, keys, vals).None?
    ensures Next(num, c).Some? ==>
              ParseMembers(num, obj, c.rest, keys, vals) == Some((Group(obj, keys, vals), c.rest[1..])) &&
              Next(num, c).value.1 == Cursor(c.rest[1..], c.outer[|c.outer| - 1], c.outer[..|c.outer| - 1])
  {
  }

  lemma NoLines(obj: bool, keys: seq<string>, vals: seq<Json>, inner: string)
    ensures Lines(obj, keys, vals, inner, 0) == ""
  {
  }

  lemma GroupPretty(obj: bool, keys: seq<string>, vals: seq<Json>, newline: string)
    ensures Pretty(Group(obj, keys, vals), newline) ==
            [Open(obj)] + Lines(obj, keys, vals, newline + "  ", |vals|) + (if vals == [] then "" else newline) + [Close(obj)]
  {
  }

  lemma TextPretty(s: string, newline: string)
    ensures Pretty(Text(s), newline) == Quote(s)
  {
  }

  /** After a key comes the value's separator, whatever the next token. */
  lemma KeyRead(num: Numbers, c: Cursor)
    requires AtKey(c.place) && Reading(num, c).Some?
    ensures Reading(num, c).value.1.place == AtColon && Reading(num, c).value.0.Text?
    ensures !Ends(Reading(num, c).value.1)
  {
  }

  lemma {:induction false} LinesKept(obj: bool, keys: seq<string>, vals: seq<Json>, key: seq<string>, v: Json, inner: string, n: nat)
    requires n <= |vals| && KeysFit(obj, keys, vals)
    ensures Lines(obj, keys + key, vals + [v], inner, n) == Lines(obj, keys, vals, inner, n)
    decreases n
  {
    hide Pretty, Label;
    if n > 0 {
      LinesKept(obj, keys, vals, key, v, inner, n - 1);
      assert (vals + [v])[n - 1] == vals[n - 1];
      LabelKept(obj, keys, vals, key, n - 1);
    }
  }

  lemma LabelKept(obj: bool, keys: seq<string>, vals: seq<Json>, key: seq<string>, i: nat)
    requires i < |vals| && KeysFit(obj, keys, vals)
    ensures Label(obj, keys + key, i) == Label(obj, keys, i)
  {
  }

  /** The lines of one member more. */
  lemma LinesGrow(obj: bool, keys: seq<string>, vals: seq<Json>, key: string, v: Json, inner: string)
    requires KeysFit(obj, keys, vals)
    ensures var n := |vals|;
            Lines(obj, AddKey(obj, keys, key), vals + [v], inner, n + 1) ==
            Lines(obj, keys, vals, inner, n) +
            MemberText(obj, n > 0, key, v, inner)
  {
    hide Pretty, Quote, Lines, Label;
    var more := if obj then [key] else [];
    var keys', vals' := AddKey(obj, keys, key), vals + [v];
    assert keys' == keys + more;
    LinesKept(obj, keys, vals, more, v, inner, |vals|);
    LinesStep(obj, keys', vals', inner, |vals| + 1);
    LastLabel(obj, keys, vals, key);
    assert vals'[|vals|] == v;
  }

  lemma LastLabel(obj: bool, keys: seq<string>, vals: seq<Json>, key: string)
    requires KeysFit(obj, keys, vals)
    ensures Label(obj, AddKey(obj, keys, key), |vals|) == if obj then Quote(key) + ": " else ""
  {
    hide Quote;
  }

  class Normalizer {
    const num: Numbers
    var cursor: Cursor
    var out: string

    constructor (num: Numbers, ts: Tokens)
      ensures this.num == num && cursor == Cursor(ts, Top, []) && out == ""
    {
      this.num := num;
      cursor := Cursor(ts, Top, []);
      out := "";
    }

    /** The decoder's next token. */
    method Token() returns (t: Option<Token>)
      modifies this`cursor
      ensures match Next(num, old(cursor))
              case None => t.None?
              case Some((token, after)) => t == Some(token) && cursor == after
    {
      var next := Next(num, cursor);
      if next.None? { return None; }
      cursor := next.value.1;
      t := Some(next.value.0);
    }

    /** Whether another member follows: the next token closes nothing. */
    function More(): bool
      reads this`cursor
    {
      cursor.rest != [] && !cursor.rest[0].RBrack? && !cursor.rest[0].RBrace?
    }

    /** Reads the next value and writes it. */
    method NormalizeValue(newline: string) returns (ok: bool)
      requires !Ends(cursor)
      modifies this`cursor, this`out
      ensures match Reading(num, old(cursor))
              case None => !ok
              case Some((v, after)) => ok && cursor == after && out == old(out) + Pretty(v, newline)
      decreases |cursor.rest|, 1
    {
      hide Parse, ParseMembers;
      ValueStep(num, cursor);
      var t := Token();
      if t.None? { return false; }
      if t.value.StringToken? {
        out := out + Quote(t.value.s);
        return true;
      }
      if t.value.Atom? {
        out := out + t.value.text;
        return true;
      }
      ok := NormalizeMembers(Opens(t.value).value, newline);
    }

    /** Reads the next member and writes it on a line of its own. */
    method NormalizeMember(obj: bool, later: bool, inner: string) returns (ok: bool)
      requires cursor.place == MemberPlace(obj, later) && !Ends(cursor)
      modifies this`cursor, this`out
      ensures var m := Member(num, obj, old(cursor));
              if m.None? then !ok
              else ok && cursor == m.value.2 && out == old(out) + MemberText(obj, later, m.value.0, m.value.1, inner)
      decreases |cursor.rest|, 2
    {
      hide Parse, ParseMembers, Pretty, Quote, Reading;
      if later { out := out + ","; }
      out := out + inner;
      if obj {
        ghost var k := cursor;
        ok := NormalizeValue(inner);
        if !ok { return; }
        KeyRead(num, k);
        TextPretty(Reading(num, k).value.0.s, inner);
        out := out + ": ";
      }
      ok := NormalizeValue(inner);
    }

    /** Writes the array or object whose opening token was read. */
    method NormalizeMembers(obj: bool, newline: string) returns (ok: bool)
      requires cursor.place == First(obj) && cursor.outer != []
      modifies this`cursor, this`out
      ensures match ParseMembers(num, obj, old(cursor.rest), [], [])
              case None => !ok
              case Some((v, rest)) =>
                ok && out == old(out) + Pretty(v, newline) &&
                var n := |old(cursor.outer)| - 1;
                cursor == Cursor(rest, old(cursor.outer)[n], old(cursor.outer)[..n])
      decreases |cursor.rest|, 3
    {
      hide Parse, ParseMembers, Pretty, Lines, Quote, Reading, Member;
      ghost var start := cursor;
      out := out + [Open(obj)];
      var inner := newline + "  ";
      var n := 0;
      ghost var keys: seq<string>, vals: seq<Json> := [], [];
      NoLines(obj, keys, vals, inner);
      while More()
        invariant n == |vals| && KeysFit(obj, keys, vals)
        invariant |cursor.rest| <= |start.rest| && cursor.outer == start.outer
        invariant cursor.place == MemberPlace(obj, vals != [])
        invariant ParseMembers(num, obj, cursor.rest, keys, vals) == ParseMembers(num, obj, start.rest, [], [])
        invariant out == old(out) + ([Open(obj)] + Lines(obj, keys, vals, inner, |vals|))
        decreases |cursor.rest|
      {
        MembersRead(num, obj, cursor, keys, vals);
        ghost var member := Member(num, obj, cursor);
        ok := NormalizeMember(obj, n > 0, inner);
        if !ok { return; }
        LinesGrow(obj, keys, vals, member.value.0, member.value.1, inner);
        keys, vals := AddKey(obj, keys, member.value.0), vals + [member.value.1];
        n := n + 1;
      }
      EndStep(num, obj, cursor, keys, vals);
      GroupPretty(obj, keys, vals, newline);
      var t := Token();
      if t.None? { return false; }
      if n > 0 { out := out + newline; }
      out := out + [Close(obj)];
      ok := true;
    }
  }

  /** normalizeJSON, for the text of a file. */
  method NormalizeJson(num: Numbers, text: string) returns (r: Option<string>)
    ensures r == Normalized(num, text)
  {
    hide Lex, Parse, ParseMembers, Pretty;
    var ts := Lex(text);
    if ts.None? { return None; }
    var normalizer := new Normalizer(num, ts.value);
    var ok := normalizer.NormalizeValue("\n");
    if !ok { return None; }
    assert normalizer.out == Pretty(Parse(num, ts.value).value.0, "\n");
    r := if normalizer.cursor.rest == [] then Some(normalizer.out + "\n") else None;
  }
}
