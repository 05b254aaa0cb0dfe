/**
 Variable substitution (internal/config/varsub.go): `${...}` tags are scanned
 from left to right and rewritten one phase at a time.

 The reference is the list of pieces of a text, its plain characters and its
 tags. What a pass writes is again a list of pieces, and exactly when nothing
 joins up into a new tag the tags of the result are those no pass handled.
 */
module Substitution {
  import opened Strings
  import opened Wrappers

  datatype Piece = Plain(c: char) | Tag(tag: string)

  /** What resolving a tag gives: its text, nothing, or an error. */
  datatype Reply = Value(text: string) | Unhandled | Unresolvable

  datatype Outcome<T> = Done(value: T) | Failed(tag: string)

  type Replacer = string -> Reply

  // Scanning.

  predicate Opens(s: string) { |s| >= 2 && s[0] == '$' && s[1] == '{' }

  /** The first place where a tag may open. */
  function OpenerIndex(s: string): (r: Option<nat>)
    ensures r.None? ==> forall i :: 0 <= i <= |s| ==> !Opens(s[i..])
    ensures r.Some? ==> r.value <= |s| && Opens(s[r.value..]) && forall i :: 0 <= i < r.value ==> !Opens(s[i..])
  {
    if s == "" then None
    else if Opens(s) then assert s[0..] == s; Some(0)
    else
      assert s[0..] == s && forall i :: 0 <= i <= |s| - 1 ==> s[1..][i..] == s[i + 1..];
      var r := OpenerIndex(s[1..]);
      if r.None? then
        assert forall i :: 1 <= i <= |s| ==> s[i..] == s[1..][i - 1..];
        None
      else
        assert forall i :: 1 <= i <= r.value ==> s[i..] == s[1..][i - 1..];
        Some(r.value + 1)
  }

  /** The pieces of a text. An unterminated tag is plain text. */
  function Scan(s: string): seq<Piece>
    decreases |s|
  {
    if s == "" then []
    else if Opens(s) && Index(s[2..], '}').Some? then
      var j := Index(s[2..], '}').value;
      [Tag(s[2..][..j])] + Scan(s[2..][j + 1..])
    else [Plain(s[0])] + Scan(s[1..])
  }

  function Plains(s: string): seq<Piece> { if s == "" then [] else [Plain(s[0])] + Plains(s[1..]) }

  function TagText(tag: string): string { "${" + tag + "}" }

  function Text(p: Piece): string { if p.Plain? then [p.c] else TagText(p.tag) }

  function Render(ps: seq<Piece>): string { if ps == [] then "" else Text(ps[0]) + Render(ps[1..]) }

  // Replacing.

  function Before(text: string, rest: Outcome<string>): Outcome<string> {
    if rest.Failed? then rest else Done(text + rest.value)
  }

  /** The pieces written out, with the tags `f` handles replaced. The first tag that cannot be resolved fails. */
  function Replaced(f: Replacer, ps: seq<Piece>): Outcome<string> {
    if ps == [] then Done("")
    else if ps[0].Plain? then Before([ps[0].c], Replaced(f, ps[1..]))
    else
      match f(ps[0].tag)
      case Unresolvable => Failed(ps[0].tag)
      case Value(text) => Before(text, Replaced(f, ps[1..]))
      case Unhandled => Before(TagText(ps[0].tag), Replaced(f, ps[1..]))
  }

  lemma PlainStep(s: string)
    requires s != "" && !(Opens(s) && '}' in s[2..])
    ensures Scan(s) == [Plain(s[0])] + Scan(s[1..])
  {
  }

  lemma {:induction false} PlainPrefix(s: string, i: nat)
    requires i <= |s| && forall k :: 0 <= k < i ==> !Opens(s[k..])
    ensures Scan(s) == Plains(s[..i]) + Scan(s[i..])
  {
    hide Scan, Opens;
    if i == 0 {
      assert s[0..] == s && Plains(s[..0]) == [];
    } else {
      var t := s[1..];
      assert s[0..] == s && s[..i][1..] == t[..i - 1] && t[i - 1..] == s[i..];
      forall k | 0 <= k < i - 1
        ensures !Opens(t[k..])
      {
        assert t[k..] == s[k + 1..];
      }
      PlainStep(s);
      PlainPrefix(t, i - 1);
      assert Plains(s[..i]) == [Plain(s[0])] + Plains(t[..i - 1]);
    }
  }

  /** Without a closing brace after its opener there is no tag. */
  lemma {:induction false} NoTags(s: string)
    requires forall k :: 0 <= k < |s| && Opens(s[k..]) ==> '}' !in s[k..]
    ensures Scan(s) == Plains(s)
  {
    hide Scan, Opens;
    if s == "" {
      NoPieces();
    } else {
      var t := s[1..];
      assert s[0..] == s;
      forall k | 0 <= k < |t| && Opens(t[k..])
        ensures '}' !in t[k..]
      {
        assert t[k..] == s[k + 1..];
      }
      if '}' in s { NoOpener(s); }
      PlainStep(s);
      NoTags(t);
    }
  }

  lemma NoPieces()
    ensures Scan("") == []
  {
  }

  lemma NoOpener(s: string)
    requires '}' in s && (Opens(s) ==> '}' !in s)
    ensures !Opens(s)
  {
  }

  lemma {:induction false} ReplacedPlains(f: Replacer, s: string, ps: seq<Piece>)
    ensures Replaced(f, Plains(s) + ps) == Before(s, Replaced(f, ps))
  {
    if s == "" {
      assert Plains(s) + ps == ps;
      assert Replaced(f, ps).Done? ==> "" + Replaced(f, ps).value == Replaced(f, ps).value;
    } else {
      assert Plains(s) + ps == [Plain(s[0])] + (Plains(s[1..]) + ps);
      ReplacedPlains(f, s[1..], ps);
      assert [s[0]] + s[1..] == s;
      assert Replaced(f, ps).Done? ==> [s[0]] + (s[1..] + Replaced(f, ps).value) == s + Replaced(f, ps).value;
    }
  }

  lemma BeforeBefore(a: string, b: string, rest: Outcome<string>)
    ensures Before(a, Before(b, rest)) == Before(a + b, rest)
  {
    if rest.Done? { assert a + (b + rest.value) == a + b + rest.value; }
  }

  lemma BeforeDone(a: string, b: string)
    ensures Before(a, Done(b)) == Done(a + b)
  {
  }

  lemma BeforeFailed(a: string, tag: string)
    ensures Before(a, Failed(tag)) == Failed(tag)
  {
  }

  lemma TagStep(s: string, j: nat)
    requires Opens(s) && Index(s[2..], '}') == Some(j)
    ensures Scan(s) == [Tag(s[2..][..j])] + Scan(s[2..][j + 1..])
  {
  }

  lemma ReplacedTag(f: Replacer, tag: string, ps: seq<Piece>)
    ensures Replaced(f, [Tag(tag)] + ps) ==
            match f(tag)
            case Unresolvable => Failed(tag)
            case Value(text) => Before(text, Replaced(f, ps))
            case Unhandled => Before(TagText(tag), Replaced(f, ps))
  {
    assert ([Tag(tag)] + ps)[1..] == ps;
  }

  /** The scanner of the source, which goes from opener to opener. */
  method SubstituteTags(f: Replacer, text: string) returns (r: Outcome<string>)
    ensures r == Replaced(f, Scan(text))
  {
    hide Scan, Replaced, Plains, Index, OpenerIndex, Before;
    var b, s := "", text;
    NothingBefore(Replaced(f, Scan(text)));
    while true
      invariant Before(b, Replaced(f, Scan(s))) == Replaced(f, Scan(text))
      decreases |s|
    {
      var i := OpenerIndex(s);
      if i.None? {
        assert forall k :: 0 <= k < |s| ==> !Opens(s[k..]);
        NoTags(s);
        AllPlain(f, s);
        BeforeDone(b, s);
        return Done(b + s);
      }
      PlainPrefix(s, i.value);
      ReplacedPlains(f, s[..i.value], Scan(s[i.value..]));
      BeforeBefore(b, s[..i.value], Replaced(f, Scan(s[i.value..])));
      b := b + s[..i.value];
      s := s[i.value..];
      var j := Index(s[2..], '}');
      if j.None? {
        Unterminated(f, s);
        BeforeDone(b, s);
        assert b + "${" + s[2..] == b + ("${" + s[2..]);
        return Done(b + "${" + s[2..]);
      }
      var tag := s[2..][..j.value];
      TagStep(s, j.value);
      var rest := s[2..][j.value + 1..];
      ReplacedTag(f, tag, Scan(rest));
      var reply := f(tag);
      if reply.Unresolvable? {
        BeforeFailed(b, tag);
        return Failed(tag);
      }
      var replacement := if reply.Value? then reply.text else TagText(tag);
      BeforeBefore(b, replacement, Replaced(f, Scan(rest)));
      b := b + replacement;
      s := rest;
    }
  }

  lemma NothingBefore(r: Outcome<string>)
    ensures Before("", r) == r
  {
    if r.Done? { assert "" + r.value == r.value; }
  }

  lemma AllPlain(f: Replacer, s: string)
    ensures Replaced(f, Plains(s)) == Done(s)
  {
    ReplacedPlains(f, s, []);
    assert Plains(s) + [] == Plains(s) && s + "" == s;
  }

  /** An unterminated tag is left alone. */
  lemma Unterminated(f: Replacer, s: string)
    requires Opens(s) && '}' !in s[2..]
    ensures Replaced(f, Scan(s)) == Done(s) && s == "${" + s[2..]
  {
    hide Replaced, Scan, Plains;
    assert s == "${" + s[2..];
    forall k | 0 <= k < |s|
      ensures '}' !in s[k..]
    {
      assert forall c :: c in s[k..] ==> c in s;
    }
    NoTags(s);
    AllPlain(f, s);
  }

  // What a pass leaves behind.

  /** No tag holds a closing brace. */
  predicate Closed(ps: seq<Piece>) { forall i :: 0 <= i < |ps| && ps[i].Tag? ==> '}' !in ps[i].tag }

  /** The pieces of a text make up the text, and a tag ends at its first closing brace. */
  lemma {:induction false} RenderScan(s: string)
    ensures Render(Scan(s)) == s && Closed(Scan(s))
    decreases |s|
  {
    if s == "" {
    } else if Opens(s) && '}' in s[2..] {
      var j := Index(s[2..], '}').value;
      hide *;
      var tag, rest := s[2..][..j], s[2..][j + 1..];
      TagStep(s, j);
      RenderScan(rest);
      RenderFirst(Tag(tag), Scan(rest));
      SplitTag(s, j);
      ClosedFirst(Tag(tag), Scan(rest));
    } else {
      PlainStep(s);
      hide *;
      RenderScan(s[1..]);
      RenderFirst(Plain(s[0]), Scan(s[1..]));
      ClosedFirst(Plain(s[0]), Scan(s[1..]));
      assert [s[0]] + s[1..] == s;
    }
  }

  lemma SplitTag(s: string, j: nat)
    requires Opens(s) && Index(s[2..], '}') == Some(j)
    ensures TagText(s[2..][..j]) + s[2..][j + 1..] == s
  {
    assert s == "${" + s[2..];
  }

  lemma ClosedFirst(p: Piece, ps: seq<Piece>)
    requires Closed(ps) && (p.Tag? ==> '}' !in p.tag)
    ensures Closed([p] + ps)
  {
  }

  lemma RenderFirst(p: Piece, ps: seq<Piece>)
    ensures Render([p] + ps) == (if p.Plain? then [p.c] else TagText(p.tag)) + Render(ps)
  {
    assert ([p] + ps)[1..] == ps;
  }

  /** The pieces of what a pass writes, if nothing in it joins up. */
  function Expand(f: Replacer, ps: seq<Piece>): seq<Piece> {
    if ps == [] then []
    else (if ps[0].Tag? && f(ps[0].tag).Value? then Plains(f(ps[0].tag).text) else [ps[0]]) + Expand(f, ps[1..])
  }

  predicate Handles(f: Replacer, p: Piece) { p.Tag? && f(p.tag).Value? }

  /** No replacement brings a `$` or comes right after one. */
  predicate Quiet(f: Replacer, ps: seq<Piece>) {
    forall i :: 0 <= i < |ps| && Handles(f, ps[i]) ==> '$' !in f(ps[i].tag).text && (i > 0 ==> ps[i - 1] != Plain('$'))
  }

  lemma QuietTail(f: Replacer, ps: seq<Piece>)
    requires Quiet(f, ps) && ps != []
    ensures Quiet(f, ps[1..])
  {
    forall i | 0 <= i < |ps| - 1 && Handles(f, ps[1..][i])
      ensures '$' !in f(ps[1..][i].tag).text && (i > 0 ==> ps[1..][i - 1] != Plain('$'))
    {
      assert ps[1..][i] == ps[i + 1];
    }
  }

  lemma {:induction false} ScanPlains(v: string, x: string)
    requires '$' !in v
    ensures Scan(v + x) == Plains(v) + Scan(x)
  {
    if v == "" {
      assert v + x == x;
    } else {
      assert v[0] != '$' && (v + x)[0] == v[0] && (v + x)[1..] == v[1..] + x;
      PlainStep(v + x);
      ScanPlains(v[1..], x);
    }
  }

  lemma ScanTag(tag: string, x: string)
    requires '}' !in tag
    ensures Scan(TagText(tag) + x) == [Tag(tag)] + Scan(x)
  {
    hide Scan;
    var s := TagText(tag) + x;
    IndexOf(tag, '}', x);
    assert s[2..] == tag + ['}'] + x;
    TagStep(s, |tag|);
    assert s[2..][|tag| + 1..] == x && s[2..][..|tag|] == tag;
  }

  /** A `$` stays a plain character unless a replacement comes after it. */
  lemma DollarStays(f: Replacer, s: string)
    requires s != "" && !(Opens(s) && '}' in s[2..]) && Replaced(f, Scan(s[1..])).Done?
    requires s[0] == '$' && s[1..] != "" ==> !Handles(f, Scan(s[1..])[0])
    ensures var out := [s[0]] + Replaced(f, Scan(s[1..])).value;
            Scan(out) == [Plain(s[0])] + Scan(out[1..])
  {
    hide Scan, Replaced, Plains;
    var t := s[1..];
    var rest := Replaced(f, Scan(t)).value;
    var out := [s[0]] + rest;
    assert out[1..] == rest;
    if t == "" {
      NoPieces();
      NothingReplaced(f);
    } else if Opens(t) && '}' in t[2..] {
      TagStep(t, Index(t[2..], '}').value);
      var tag := Scan(t)[0].tag;
      ReplacedTag(f, tag, Scan(t)[1..]);
      assert TagText(tag)[0] == '$';
    } else {
      PlainStep(t);
      ReplacedPlain(f, t[0], Scan(t[1..]));
      if t[0] == '{' && s[0] == '$' {
        assert s[2..] == t[1..];
        assert t == "{" + t[1..];
        forall k | 0 <= k < |t|
          ensures '}' !in t[k..]
        {
          assert forall c :: c in t[k..] ==> c in t;
        }
        NoTags(t);
        AllPlain(f, t);
        assert out == s;
      }
    }
    PlainStep(out);
  }

  lemma NothingReplaced(f: Replacer)
    ensures Replaced(f, []) == Done("")
  {
  }

  lemma ReplacedPlain(f: Replacer, c: char, ps: seq<Piece>)
    ensures Replaced(f, [Plain(c)] + ps) == Before([c], Replaced(f, ps))
  {
    assert ([Plain(c)] + ps)[1..] == ps;
  }

  lemma {:induction false} QuietScan(f: Replacer, s: string)
    requires Replaced(f, Scan(s)).Done? && Quiet(f, Scan(s))
    ensures Scan(Replaced(f, Scan(s)).value) == Expand(f, Scan(s))
    decreases |s|
  {
    hide Scan, Quiet;
    if s == "" {
      NoPieces();
    } else if Opens(s) && '}' in s[2..] {
      var t := s[2..];
      var j := Index(t, '}').value;
      TagStep(s, j);
      var rest := t[j + 1..];
      QuietTail(f, Scan(s));
      QuietScan(f, rest);
      var out := Replaced(f, Scan(rest)).value;
      if f(t[..j]).Value? {
        QuietHead(f, t[..j], Scan(rest));
        ScanPlains(f(t[..j]).text, out);
      } else {
        ScanTag(t[..j], out);
      }
    } else {
      PlainStep(s);
      QuietTail(f, Scan(s));
      QuietScan(f, s[1..]);
      QuietDollar(f, s[0], Scan(s[1..]));
      if s[1..] != "" { SomePieces(s[1..]); }
      DollarStays(f, s);
      var out := Replaced(f, Scan(s[1..])).value;
      assert ([s[0]] + out)[1..] == out;
    }
  }

  lemma SomePieces(s: string)
    requires s != ""
    ensures Scan(s) != []
  {
  }

  lemma QuietHead(f: Replacer, tag: string, ps: seq<Piece>)
    requires Quiet(f, [Tag(tag)] + ps) && f(tag).Value?
    ensures '$' !in f(tag).text
  {
    assert ([Tag(tag)] + ps)[0] == Tag(tag);
    assert Handles(f, Tag(tag));
  }

  lemma QuietDollar(f: Replacer, c: char, ps: seq<Piece>)
    requires Quiet(f, [Plain(c)] + ps)
    ensures c == '$' && ps != [] ==> !Handles(f, ps[0])
  {
    if ps != [] { assert ([Plain(c)] + ps)[1] == ps[0] && ([Plain(c)] + ps)[0] == Plain(c); }
  }

  // What joins up.

  /** A `$` and a `{` that are no tag, with a closing brace somewhere after them. */
  predicate Joins(ps: seq<Piece>) {
    |ps| >= 2 && ps[0] == Plain('$') && ps[1] == Plain('{') && '}' in Render(ps[2..])
  }

  /** Nothing joins up: the only `${` with a closing brace after it is that of a tag. */
  predicate Stable(ps: seq<Piece>) { forall i :: 0 <= i < |ps| ==> !Joins(ps[i..]) }

  lemma StableStep(ps: seq<Piece>)
    requires ps != []
    ensures Stable(ps) <==> Stable(ps[1..]) && !Joins(ps)
  {
    hide Joins;
    var rest := ps[1..];
    assert ps[0..] == ps;
    assert forall i :: 0 <= i < |rest| ==> rest[i..] == ps[i + 1..];
    if Stable(rest) && !Joins(ps) {
      forall i | 0 <= i < |ps|
        ensures !Joins(ps[i..])
      {
        if i > 0 { assert rest[i - 1..] == ps[i..]; }
      }
    }
  }

  /** What begins with an opening brace begins with that as a plain character. */
  lemma RenderedBrace(ps: seq<Piece>)
    ensures Render(ps) != "" && Render(ps)[0] == '{' <==> ps != [] && ps[0] == Plain('{')
    ensures ps != [] && ps[0].Plain? ==> Render(ps) != "" && Render(ps)[1..] == Render(ps[1..])
  {
    if ps != [] {
      var text := Text(ps[0]);
      assert text != "" && Render(ps)[0] == text[0];
      if ps[0].Plain? { assert ([ps[0].c] + Render(ps[1..]))[1..] == Render(ps[1..]); }
    }
  }

  /** Pieces that were written out are found again exactly when nothing in them joins up. */
  lemma {:induction false} ScanRender(ps: seq<Piece>)
    requires Closed(ps)
    ensures Scan(Render(ps)) == ps <==> Stable(ps)
  {
    hide Scan, Stable, Render;
    if ps == [] {
      NothingRendered();
      NoPieces();
      NothingStable();
    } else {
      var p, rest := ps[0], ps[1..];
      assert ps == [p] + rest;
      ClosedTail(ps);
      ScanRender(rest);
      StableStep(ps);
      JoinsFirst(p, rest);
      RenderFirst(p, rest);
      if p.Tag? { ScanTag(p.tag, Render(rest)); } else { PlainJoins(p.c, rest); }
    }
  }

  lemma ClosedTail(ps: seq<Piece>)
    requires Closed(ps) && ps != []
    ensures Closed(ps[1..]) && (ps[0].Tag? ==> '}' !in ps[0].tag)
  {
  }

  lemma JoinsFirst(p: Piece, rest: seq<Piece>)
    ensures Joins([p] + rest) <==>
            p == Plain('$') && rest != [] && rest[0] == Plain('{') && '}' in Render(rest[1..])
  {
    hide Render;
    var ps := [p] + rest;
    if rest != [] { assert ps[1] == rest[0] && ps[2..] == rest[1..]; }
  }

  lemma NothingRendered()
    ensures Render([]) == ""
  {
  }

  lemma NothingStable()
    ensures Stable([])
  {
  }

  /** A plain character opens a tag with what follows exactly when it joins up with it. */
  lemma PlainJoins(c: char, rest: seq<Piece>)
    ensures var s := [c] + Render(rest);
            var joins := c == '$' && rest != [] && rest[0] == Plain('{') && '}' in Render(rest[1..]);
            if joins then Scan(s) != [] && Scan(s)[0].Tag? else Scan(s) == [Plain(c)] + Scan(Render(rest))
  {
    hide Render;
    var s := [c] + Render(rest);
    RenderedBrace(rest);
    assert s[1..] == Render(rest);
    if |Render(rest)| > 0 { assert s[1] == Render(rest)[0] && s[2..] == Render(rest)[1..]; }
  }

  lemma {:induction false} ExpandClosed(f: Replacer, ps: seq<Piece>)
    requires Closed(ps)
    ensures Closed(Expand(f, ps))
  {
    if ps != [] {
      ClosedTail(ps);
      ExpandClosed(f, ps[1..]);
      if ps[0].Tag? && f(ps[0].tag).Value? { PlainsArePlain(f(ps[0].tag).text); }
    }
  }

  lemma {:induction false} PlainsArePlain(s: string)
    ensures forall i :: 0 <= i < |Plains(s)| ==> Plains(s)[i].Plain?
    ensures Render(Plains(s)) == s
  {
    if s != "" {
      PlainsArePlain(s[1..]);
      assert [s[0]] + s[1..] == s;
    }
  }

  lemma {:induction false} RenderConcat(a: seq<Piece>, b: seq<Piece>)
    ensures Render(a + b) == Render(a) + Render(b)
  {
    if a == [] {
      assert a + b == b;
    } else {
      assert (a + b)[1..] == a[1..] + b;
      RenderConcat(a[1..], b);
    }
  }

  /** What a pass writes. */
  lemma {:induction false} RenderExpand(f: Replacer, ps: seq<Piece>)
    requires Replaced(f, ps).Done?
    ensures Replaced(f, ps).value == Render(Expand(f, ps))
  {
    if ps != [] {
      RenderExpand(f, ps[1..]);
      var head := if Handles(f, ps[0]) then Plains(f(ps[0].tag).text) else [ps[0]];
      RenderConcat(head, Expand(f, ps[1..]));
      if Handles(f, ps[0]) {
        PlainsArePlain(f(ps[0].tag).text);
      } else {
        assert Render([ps[0]]) == Text(ps[0]) + "" == Text(ps[0]);
      }
    }
  }

  /** The tags of what a pass writes are those it did not handle, exactly when nothing joins up into a new one. */
  lemma ScanOutput(f: Replacer, s: string)
    requires Replaced(f, Scan(s)).Done?
    ensures var ps := Expand(f, Scan(s)); Scan(Replaced(f, Scan(s)).value) == ps <==> Stable(ps)
  {
    hide Scan, Replaced, Expand, Stable, Render;
    RenderScan(s);
    RenderExpand(f, Scan(s));
    ExpandClosed(f, Scan(s));
    ScanRender(Expand(f, Scan(s)));
  }

  /** Nothing joins up if no value put in holds a `$` or comes right after one. */
  lemma QuietIsStable(f: Replacer, s: string)
    requires Replaced(f, Scan(s)).Done? && Quiet(f, Scan(s))
    ensures Stable(Expand(f, Scan(s)))
  {
    hide Scan, Replaced, Expand, Stable, Quiet;
    QuietScan(f, s);
    ScanOutput(f, s);
  }

  // Passes.

  /** Resolving with `f`, and with `g` what `f` does not handle. */
  function Then(f: Replacer, g: Replacer): Replacer { tag => if f(tag).Unhandled? then g(tag) else f(tag) }

  lemma {:induction false} ReplacedExpand(f: Replacer, g: Replacer, ps: seq<Piece>)
    requires Replaced(f, ps).Done?
    ensures Replaced(g, Expand(f, ps)) == Replaced(Then(f, g), ps)
  {
    if ps != [] {
      ReplacedExpand(f, g, ps[1..]);
      var rest := Expand(f, ps[1..]);
      if ps[0].Tag? && f(ps[0].tag).Value? {
        ReplacedPlains(g, f(ps[0].tag).text, rest);
      } else {
        assert ([ps[0]] + rest)[1..] == rest;
      }
    }
  }

  lemma {:induction false} SameReplies(f: Replacer, g: Replacer, ps: seq<Piece>)
    requires forall tag :: f(tag) == g(tag)
    ensures Replaced(f, ps) == Replaced(g, ps)
  {
    if ps != [] { SameReplies(f, g, ps[1..]); }
  }

  /** Two passes, one after the other, do what one pass with both replacers does. */
  lemma TwoPasses(f: Replacer, g: Replacer, s: string)
    requires Replaced(f, Scan(s)).Done? && Stable(Expand(f, Scan(s)))
    ensures Replaced(g, Scan(Replaced(f, Scan(s)).value)) == Replaced(Then(f, g), Scan(s))
  {
    ScanOutput(f, s);
    ReplacedExpand(f, g, Scan(s));
  }

  /** What is left when every tag is taken out. */
  function Bare(ps: seq<Piece>): string {
    if ps == [] then "" else (if ps[0].Plain? then [ps[0].c] else "") + Bare(ps[1..])
  }

  function Eraser(): Replacer { tag => Value("") }

  lemma {:induction false} Erased(ps: seq<Piece>)
    ensures Replaced(Eraser(), ps) == Done(Bare(ps))
  {
    if ps != [] { Erased(ps[1..]); }
  }

  /** The first closing brace of a text ends one of its pieces. */
  lemma {:induction false} BraceEndsPiece(ps: seq<Piece>, j: nat) returns (k: nat)
    requires Closed(ps) && Index(Render(ps), '}') == Some(j)
    ensures k <= |ps| && Render(ps)[j + 1..] == Render(ps[k..])
  {
    hide Render, Index;
    if ps == [] {
      NothingRendered();
    } else {
      var p, rest := ps[0], ps[1..];
      assert ps == [p] + rest;
      ClosedTail(ps);
      RenderFirst(p, rest);
      var text := Text(p);
      if '}' in text {
        var n := |text| - 1;
        assert text[..n] + ['}'] + Render(rest) == Render(ps);
        IndexOf(text[..n], '}', Render(rest));
        return 1;
      }
      IndexAfter(text, '}', Render(rest));
      k := BraceEndsPiece(rest, j - |text|);
      assert ps[k + 1..] == rest[k..];
      k := k + 1;
    }
  }

  lemma {:induction false} BareSuffix(ps: seq<Piece>, k: nat)
    requires k <= |ps|
    ensures |Bare(ps[k..])| <= |Bare(ps)|
  {
    if k == 0 {
      assert ps[0..] == ps;
    } else {
      BareSuffix(ps[1..], k - 1);
      assert ps[1..][k - 1..] == ps[k..];
    }
  }

  lemma BareStep(ps: seq<Piece>)
    requires ps != []
    ensures |Bare(ps)| == (if ps[0].Plain? then 1 else 0) + |Bare(ps[1..])|
  {
  }

  lemma BareFirst(p: Piece, ps: seq<Piece>)
    ensures |Bare([p] + ps)| == (if p.Plain? then 1 else 0) + |Bare(ps)|
  {
    assert ([p] + ps)[1..] == ps;
  }

  /** Where something joins up, the tags that are found cover more of the text. */
  lemma {:induction false} JoinedCoversMore(ps: seq<Piece>)
    requires Closed(ps)
    ensures |Bare(Scan(Render(ps)))| <= |Bare(ps)|
    ensures !Stable(ps) ==> |Bare(Scan(Render(ps)))| < |Bare(ps)|
    decreases |ps|
  {
    hide Scan, Stable, Render, Bare, Joins;
    if ps == [] {
      NothingRendered();
      NoPieces();
      NothingStable();
    } else {
      var p, rest := ps[0], ps[1..];
      assert ps == [p] + rest;
      ClosedTail(ps);
      StableStep(ps);
      JoinsFirst(p, rest);
      RenderFirst(p, rest);
      BareStep(ps);
      if Joins(ps) {
        JoinedTag(ps);
      } else {
        JoinedCoversMore(rest);
        if p.Tag? { ScanTag(p.tag, Render(rest)); } else { PlainJoins(p.c, rest); }
        BareFirst(p, Scan(Render(rest)));
      }
    }
  }

  lemma {:induction false} JoinedTag(ps: seq<Piece>)
    requires Closed(ps) && Joins(ps)
    ensures |Bare(Scan(Render(ps)))| < |Bare(ps)|
    decreases |ps|, 0
  {
    JoinedText(ps);
    hide Scan, Stable, Render, Bare, Index;
    var rest := ps[2..];
    var s := Render(ps);
    var j := Index(s[2..], '}').value;
    ClosedTail(ps);
    ClosedTail(ps[1..]);
    assert ps[1..][1..] == rest;
    var k := BraceEndsPiece(rest, j);
    TagStep(s, j);
    ClosedSuffix(rest, k);
    JoinedCoversMore(rest[k..]);
    BareFirst(Tag(s[2..][..j]), Scan(Render(rest[k..])));
    BareSuffix(rest, k);
    BareStep(ps);
    BareStep(ps[1..]);
  }

  lemma JoinedText(ps: seq<Piece>)
    requires Joins(ps)
    ensures Opens(Render(ps)) && Render(ps)[2..] == Render(ps[2..]) && Index(Render(ps[2..]), '}').Some?
  {
    hide Render;
    var rest := ps[2..];
    assert ps == [ps[0]] + ([ps[1]] + rest);
    RenderFirst(ps[0], [ps[1]] + rest);
    RenderFirst(ps[1], rest);
    assert Render(ps) == "${" + Render(rest);
  }

  lemma ClosedSuffix(ps: seq<Piece>, k: nat)
    requires Closed(ps) && k <= |ps|
    ensures Closed(ps[k..])
  {
  }

  /** A pass after one that made something join up need not see the tags that were left. */
  lemma UnstableText(f: Replacer, s: string)
    requires Replaced(f, Scan(s)).Done?
    ensures var w := Replaced(Eraser(), Scan(Replaced(f, Scan(s)).value));
            w.Done? && (Stable(Expand(f, Scan(s))) || w != Replaced(Then(f, Eraser()), Scan(s)))
  {
    hide Scan, Replaced, Expand, Stable, Render, Bare;
    var ps := Expand(f, Scan(s));
    RenderScan(s);
    ExpandClosed(f, Scan(s));
    RenderExpand(f, Scan(s));
    JoinedCoversMore(ps);
    Erased(Scan(Replaced(f, Scan(s)).value));
    Erased(ps);
    ReplacedExpand(f, Eraser(), Scan(s));
  }

  /** Passes merge into one, whatever the second one handles, exactly when nothing joins up. */
  lemma PassesMergeIffStable(f: Replacer, s: string)
    requires Replaced(f, Scan(s)).Done?
    ensures (forall g: Replacer :: Replaced(g, Scan(Replaced(f, Scan(s)).value)) == Replaced(Then(f, g), Scan(s))) <==>
            Stable(Expand(f, Scan(s)))
  {
    hide Scan, Replaced, Expand, Stable, Render, Bare;
    var out := Replaced(f, Scan(s)).value;
    UnstableText(f, s);
    if Stable(Expand(f, Scan(s))) {
      forall g: Replacer
        ensures Replaced(g, Scan(out)) == Replaced(Then(f, g), Scan(s))
      {
        TwoPasses(f, g, s);
      }
    }
  }

  /** A second pass changes nothing. */
  lemma SecondPass(f: Replacer, s: string)
    requires Replaced(f, Scan(s)).Done? && Stable(Expand(f, Scan(s)))
    ensures Replaced(f, Scan(Replaced(f, Scan(s)).value)) == Replaced(f, Scan(s))
  {
    TwoPasses(f, f, s);
    SameReplies(Then(f, f), f, Scan(s));
  }

  /** Tags nothing handles survive: a pass that handles no tag of the text gives the text. */
  lemma {:induction false} UnhandledPass(f: Replacer, ps: seq<Piece>)
    requires forall i :: 0 <= i < |ps| && ps[i].Tag? ==> f(ps[i].tag).Unhandled?
    ensures Replaced(f, ps) == Done(Render(ps))
  {
    if ps != [] { UnhandledPass(f, ps[1..]); }
  }

  lemma UnhandledText(f: Replacer, s: string)
    requires forall i :: 0 <= i < |Scan(s)| && Scan(s)[i].Tag? ==> f(Scan(s)[i].tag).Unhandled?
    ensures Replaced(f, Scan(s)) == Done(s)
  {
    RenderScan(s);
    UnhandledPass(f, Scan(s));
  }

  lemma OneTag(f: Replacer, tag: string)
    requires '}' !in tag
    ensures Replaced(f, Scan(TagText(tag))) == match f(tag)
                                               case Unresolvable => Failed(tag)
                                               case Value(text) => Done(text)
                                               case Unhandled => Done(TagText(tag))
  {
    hide Scan, Replaced;
    ScanTag(tag, "");
    NoPieces();
    NothingReplaced(f);
    ReplacedTag(f, tag, []);
    assert TagText(tag) + "" == TagText(tag);
    if f(tag).Value? { assert f(tag).text + "" == f(tag).text; }
  }

  lemma DollarTag(f: Replacer, tag: string)
    requires '}' !in tag && f(tag).Value?
    ensures Replaced(f, Scan("$" + TagText(tag))) == Done("$" + f(tag).text)
  {
    hide Scan, Replaced;
    var s := "$" + TagText(tag);
    PlainStep(s);
    assert s[0] == '$' && s[1] == '$' && s[1..] == TagText(tag);
    ReplacedPlain(f, '$', Scan(TagText(tag)));
    OneTag(f, tag);
    assert ['$'] + f(tag).text == "$" + f(tag).text;
  }
}
