/**
 The text of a JSON document as Go's encoder writes it and its decoder splits
 it (the parts of encoding/json that internal/features/lockfile.go:436-472
 relies on), characters being Unicode scalar values.
 */
module JsonText {
  import opened JsonTokens
  import opened Wrappers

  // Strings.

  function HexDigit(n: nat): char
    requires n < 16
  {
    "0123456789abcdef"[n]
  }

  function HexValue(c: char): (r: Option<nat>)
    ensures r.Some? ==> r.value < 16
  {
    if '0' <= c <= '9' then Some(c as nat - '0' as nat)
    else if 'a' <= c <= 'f' then Some(c as nat - 'a' as nat + 10)
    else if 'A' <= c <= 'F' then Some(c as nat - 'A' as nat + 10)
    else None
  }

  /** How the encoder writes a character of a string, HTML escaping being off. */
  function EscapeChar(c: char): string {
    if c == '"' then "\\\""
    else if c == '\\' then "\\\\"
    else if c == '\U{8}' then "\\b"
    else if c == '\U{c}' then "\\f"
    else if c == '\n' then "\\n"
    else if c == '\r' then "\\r"
    else if c == '\t' then "\\t"
    else if c < ' ' then "\\u00" + [HexDigit(c as nat / 16), HexDigit(c as nat % 16)]
    else if c == '\U{2028}' then "\\u2028"
    else if c == '\U{2029}' then "\\u2029"
    else [c]
  }

  function Escaped(s: string): string { if s == "" then "" else EscapeChar(s[0]) + Escaped(s[1..]) }

  function Quote(s: string): string { "\"" + Escaped(s) + "\"" }

  /** Section 7 of RFC 8259: two-character escapes where there are any, and `\u` for the other control characters. */
  lemma EscapeTable(c: char)
    ensures EscapeChar('"') == "\\\"" && EscapeChar('\\') == "\\\\" && EscapeChar(0x08 as char) == "\\b"
    ensures EscapeChar(0x0C as char) == "\\f" && EscapeChar(0x0A as char) == "\\n" && EscapeChar(0x0D as char) == "\\r"
    ensures EscapeChar(0x09 as char) == "\\t"
    ensures c >= ' ' && c != '"' && c != '\\' && c != '\U{2028}' && c != '\U{2029}' ==> EscapeChar(c) == [c]
    ensures c < ' ' ==> EscapeChar(c)[0] == '\\' && (|EscapeChar(c)| == 2 || EscapeChar(c)[..4] == "\\u00")
  {
  }

  /** A string with nothing to escape is put between quotes. */
  lemma {:induction false} PlainQuote(s: string)
    requires forall i :: 0 <= i < |s| ==> ' ' <= s[i] < '\U{2028}' && s[i] != '"' && s[i] != '\\'
    ensures Escaped(s) == s && Quote(s) == "\"" + s + "\""
  {
    if s != "" {
      PlainQuote(s[1..]);
      assert [s[0]] + s[1..] == s;
    }
  }

  /** The number of four hex digits at the start of `t`. */
  function Hex4(t: string): (r: Option<nat>)
    ensures r.Some? ==> |t| >= 4 && r.value < 0x1_0000
  {
    if |t| < 4 then None
    else
      match (HexValue(t[0]), HexValue(t[1]), HexValue(t[2]), HexValue(t[3]))
      case (Some(a), Some(b), Some(c), Some(d)) => Some(a * 4096 + b * 256 + c * 16 + d)
      case _ => None
  }

  const REPLACEMENT := '\U{fffd}'

  /** The character of a surrogate pair. */
  function Pair(high: nat, low: nat): char
    requires 0xD800 <= high < 0xDC00 <= low < 0xE000
  {
    ((high - 0xD800) * 0x400 + (low - 0xDC00) + 0x1_0000) as char
  }

  /** The escape after a backslash: its character and what follows it. An unpaired surrogate is replaced. */
  function Unescape(t: string): (r: Option<(char, string)>)
    ensures r.Some? ==> |r.value.1| < |t|
  {
    if t == "" then None
    else if t[0] == '"' || t[0] == '\\' || t[0] == '/' then Some((t[0], t[1..]))
    else if t[0] == 'b' then Some(('\U{8}', t[1..]))
    else if t[0] == 'f' then Some(('\U{c}', t[1..]))
    else if t[0] == 'n' then Some(('\n', t[1..]))
    else if t[0] == 'r' then Some(('\r', t[1..]))
    else if t[0] == 't' then Some(('\t', t[1..]))
    else if t[0] != 'u' then None
    else
      match Hex4(t[1..])
      case None => None
      case Some(high) =>
        if !(0xD800 <= high < 0xE000) then Some((high as char, t[5..]))
        else
          var low := if |t| > 6 && t[5] == '\\' && t[6] == 'u' then Hex4(t[7..]) else None;
          if high < 0xDC00 && low.Some? && 0xDC00 <= low.value < 0xE000 then Some((Pair(high, low.value), t[11..]))
          else Some((REPLACEMENT, t[5..]))
  }

  /** A string after its opening quote, and what follows its closing one. */
  function ReadString(t: string): (r: Option<(string, string)>)
    ensures r.Some? ==> |r.value.1| < |t|
    decreases |t|
  {
    if t == "" || t[0] < ' ' then None
    else if t[0] == '"' then Some(("", t[1..]))
    else
      var head := if t[0] == '\\' then Unescape(t[1..]) else Some((t[0], t[1..]));
      if head.None? then None
      else
        match ReadString(head.value.1)
        case None => None
        case Some((s, rest)) => Some(([head.value.0] + s, rest))
  }

  lemma EscapeReads(c: char, t: string)
    ensures var e := EscapeChar(c);
            if e[0] == '\\' then Unescape((e + t)[1..]) == Some((c, t)) else e == [c] && c != '"' && c >= ' '
  {
    var e := EscapeChar(c);
    if e[0] == '\\' {
      hide Unescape, Hex4;
      assert (e + t)[1..] == e[1..] + t;
      if |e| == 2 {
        ShortEscapeReads(c, t);
      } else {
        EscapedHex(c);
        hide EscapeChar;
        LongEscapeReads(e[2..], t);
        assert e[1..] == "u" + e[2..];
      }
    }
  }

  lemma EscapedHex(c: char)
    requires |EscapeChar(c)| > 2
    ensures var e := EscapeChar(c); |e| == 6 && e[1] == 'u' && Hex4(e[2..]) == Some(c as nat) && c as nat < 0xD800
  {
    hide Hex4;
    if c < ' ' {
      HexReads(c as nat);
      assert EscapeChar(c)[2..] == ['0', '0', HexDigit(c as nat / 16), HexDigit(c as nat % 16)];
    } else {
      LineEndsRead();
      assert EscapeChar(c)[2..] == (if c == '\U{2028}' then "2028" else "2029");
    }
  }

  lemma ShortEscapeReads(c: char, t: string)
    requires |EscapeChar(c)| == 2
    ensures Unescape(EscapeChar(c)[1..] + t) == Some((c, t))
  {
    assert (EscapeChar(c)[1..] + t)[1..] == t;
  }

  lemma LongEscapeReads(h: string, t: string)
    requires |h| == 4 && Hex4(h).Some? && !(0xD800 <= Hex4(h).value < 0xE000)
    ensures Unescape("u" + h + t) == Some((Hex4(h).value as char, t))
  {
    hide HexValue;
    var u := "u" + h + t;
    assert u[1..] == h + t && u[5..] == t;
  }

  lemma HexReads(n: nat)
    requires n < 32
    ensures Hex4(['0', '0', HexDigit(n / 16), HexDigit(n % 16)]) == Some(n)
  {
  }

  lemma LineEndsRead()
    ensures Hex4("2028") == Some(0x2028) && Hex4("2029") == Some(0x2029)
  {
  }

  /** A quoted string reads back as itself, whatever follows it. */
  lemma {:induction false} QuoteReads(s: string, t: string)
    ensures ReadString(Escaped(s) + "\"" + t) == Some((s, t))
  {
    hide EscapeChar, Unescape;
    if s == "" {
      assert Escaped(s) + "\"" + t == "\"" + t;
    } else {
      var e, tail := EscapeChar(s[0]), Escaped(s[1..]) + "\"" + t;
      assert Escaped(s) + "\"" + t == e + tail;
      EscapeReads(s[0], tail);
      QuoteReads(s[1..], t);
      assert [s[0]] + s[1..] == s;
      EscapeStarts(s[0]);
      assert (e + tail)[0] == e[0];
      if e[0] != '\\' { assert (e + tail)[1..] == tail; }
    }
  }

  lemma EscapeStarts(c: char)
    ensures EscapeChar(c) != "" && EscapeChar(c)[0] >= ' ' && EscapeChar(c)[0] != '"'
  {
  }

  // Numbers and literals.

  datatype Scan = Sign | Zero | Digits | Dot | Fraction | Mark | MarkSign | Exponent

  /** The number scanner's step: none when `c` does not belong to the number. */
  function ScanStep(st: Scan, c: char): Option<Scan> {
    var digit := '0' <= c <= '9';
    match st
    case Sign => if c == '0' then Some(Zero) else if digit then Some(Digits) else None
    case Zero => if c == '.' then Some(Dot) else if c == 'e' || c == 'E' then Some(Mark) else None
    case Digits =>
      if digit then Some(Digits) else if c == '.' then Some(Dot) else if c == 'e' || c == 'E' then Some(Mark) else None
    case Dot => if digit then Some(Fraction) else None
    case Fraction => if digit then Some(Fraction) else if c == 'e' || c == 'E' then Some(Mark) else None
    case Mark => if c == '+' || c == '-' then Some(MarkSign) else if digit then Some(Exponent) else None
    case MarkSign => if digit then Some(Exponent) else None
    case Exponent => if digit then Some(Exponent) else None
  }

  predicate Complete(st: Scan) { st.Zero? || st.Digits? || st.Fraction? || st.Exponent? }

  /** How far the number goes that is in state `st` before `t`. */
  function ScanNumber(st: Scan, t: string): (r: Option<nat>)
    ensures r.Some? ==> r.value <= |t|
    decreases |t|
  {
    var next := if t == "" then None else ScanStep(st, t[0]);
    if next.None? then (if Complete(st) then Some(0) else None)
    else
      match ScanNumber(next.value, t[1..])
      case None => None
      case Some(n) => Some(n + 1)
  }

  predicate IsLiteral(t: string) { t == "true" || t == "false" || t == "null" }

  function NumberStart(c: char): Option<Scan> { if c == '-' then Some(Sign) else ScanStep(Sign, c) }

  /** The text of a number, from its first character to its last. */
  predicate IsNumber(t: string) {
    t != "" && NumberStart(t[0]).Some? && ScanNumber(NumberStart(t[0]).value, t[1..]) == Some(|t| - 1)
  }

  predicate IsAtom(t: string) { IsLiteral(t) || IsNumber(t) }

  /** How long the number or literal at the start of `t` is. */
  function AtomLength(t: string): (r: Option<nat>)
    requires t != ""
    ensures r.Some? ==> 0 < r.value <= |t|
  {
    if "true" <= t || "null" <= t then Some(4)
    else if "false" <= t then Some(5)
    else if NumberStart(t[0]).None? then None
    else
      match ScanNumber(NumberStart(t[0]).value, t[1..])
      case None => None
      case Some(n) => Some(n + 1)
  }

  /** The characters that end a number. */
  predicate Stop(c: char) { c == ',' || c == ':' || c == ']' || c == '}' || c == ' ' || c == '\n' }

  ghost predicate Stopped(t: string) { t == "" || Stop(t[0]) }

  lemma {:induction false} ScanStops(st: Scan, t: string, rest: string)
    requires ScanNumber(st, t) == Some(|t|) && Stopped(rest)
    ensures ScanNumber(st, t + rest) == Some(|t|)
    decreases |t|
  {
    if t == "" {
      assert t + rest == rest;
    } else {
      assert (t + rest)[1..] == t[1..] + rest;
      ScanStops(ScanStep(st, t[0]).value, t[1..], rest);
    }
  }

  lemma AtomReads(t: string, rest: string)
    requires IsAtom(t) && Stopped(rest)
    ensures t + rest != "" && AtomLength(t + rest) == Some(|t|)
  {
    assert (t + rest)[0] == t[0];
    if IsLiteral(t) {
      assert (t + rest)[..|t|] == t;
      if t == "true" || t == "false" || t == "null" {
        assert t <= t + rest;
      }
    } else {
      assert (t + rest)[1..] == t[1..] + rest;
      ScanStops(NumberStart(t[0]).value, t[1..], rest);
    }
  }

  // Tokens.

  predicate IsSpace(c: char) { c == ' ' || c == '\t' || c == '\r' || c == '\n' }

  function Punctuation(c: char): Option<Token> {
    if c == '{' then Some(LBrace)
    else if c == '}' then Some(RBrace)
    else if c == '[' then Some(LBrack)
    else if c == ']' then Some(RBrack)
    else if c == ',' then Some(Comma)
    else if c == ':' then Some(Colon)
    else None
  }

  function Before(ts: Tokens, rest: Option<Tokens>): Option<Tokens> {
    if rest.None? then None else Some(ts + rest.value)
  }

  /** The tokens of a text, or none when some part of it is no token. */
  function Lex(t: string): Option<Tokens>
    decreases |t|
  {
    if t == "" then Some([])
    else if IsSpace(t[0]) then Lex(t[1..])
    else if Punctuation(t[0]).Some? then Before([Punctuation(t[0]).value], Lex(t[1..]))
    else if t[0] == '"' then
      match ReadString(t[1..])
      case None => None
      case Some((s, rest)) => Before([StringToken(s)], Lex(rest))
    else
      match AtomLength(t)
      case None => None
      case Some(n) => Before([Atom(t[..n])], Lex(t[n..]))
  }

  /** `t` reads as the tokens `ts` before any text; before a stop only, if `stop`. */
  ghost predicate LexesAs(t: string, ts: Tokens, stop: bool) {
    forall rest: string :: (stop ==> Stopped(rest)) ==> Lex(t + rest) == Before(ts, Lex(rest))
  }

  lemma LexConcat(a: string, s: Tokens, stop: bool, b: string, t: Tokens, stop': bool)
    requires LexesAs(a, s, stop) && LexesAs(b, t, stop') && (stop ==> b != "" && Stop(b[0]))
    ensures LexesAs(a + b, s + t, stop')
  {
    hide Lex, Stop;
    forall rest: string | stop' ==> Stopped(rest)
      ensures Lex(a + b + rest) == Before(s + t, Lex(rest))
    {
      assert a + b + rest == a + (b + rest);
      assert b != "" ==> (b + rest)[0] == b[0];
      assert Lex(a + (b + rest)) == Before(s, Lex(b + rest));
      assert Lex(b + rest) == Before(t, Lex(rest));
      if Lex(rest).Some? { assert s + (t + Lex(rest).value) == s + t + Lex(rest).value; }
    }
  }

  lemma LexNothing()
    ensures LexesAs("", [], false)
  {
    forall rest: string
      ensures Lex("" + rest) == Before([], Lex(rest))
    {
      assert "" + rest == rest;
      if Lex(rest).Some? { assert [] + Lex(rest).value == Lex(rest).value; }
    }
  }

  lemma {:induction false} LexSpace(w: string)
    requires forall i :: 0 <= i < |w| ==> IsSpace(w[i])
    ensures LexesAs(w, [], false)
  {
    hide LexesAs;
    LexNothing();
    if w != "" {
      LexSpace(w[1..]);
      LexOneSpace(w[0]);
      LexConcat([w[0]], [], false, w[1..], [], false);
      var none: Tokens := [];
      assert [w[0]] + w[1..] == w && none + none == none;
    }
  }

  lemma LexOneSpace(c: char)
    requires IsSpace(c)
    ensures LexesAs([c], [], false)
  {
    LexNothing();
    forall rest: string
      ensures Lex([c] + rest) == Before([], Lex(rest))
    {
      assert ([c] + rest)[1..] == rest && "" + rest == rest;
    }
  }

  lemma LexPunctuation(c: char)
    requires Punctuation(c).Some?
    ensures LexesAs([c], [Punctuation(c).value], false)
  {
    forall rest: string
      ensures Lex([c] + rest) == Before([Punctuation(c).value], Lex(rest))
    {
      assert ([c] + rest)[1..] == rest;
    }
  }

  lemma LexQuote(s: string)
    ensures LexesAs(Quote(s), [StringToken(s)], false)
  {
    forall rest: string
      ensures Lex(Quote(s) + rest) == Before([StringToken(s)], Lex(rest))
    {
      QuoteStep(s, rest);
    }
  }

  lemma QuoteStep(s: string, rest: string)
    ensures Lex(Quote(s) + rest) == Before([StringToken(s)], Lex(rest))
  {
    hide *;
    var body := Escaped(s) + "\"" + rest;
    QuoteSplits(s, rest);
    StringStep(body);
    QuoteReads(s, rest);
  }

  lemma QuoteSplits(s: string, rest: string)
    ensures Quote(s) + rest == "\"" + (Escaped(s) + "\"" + rest)
  {
    hide Escaped;
  }

  lemma StringStep(body: string)
    ensures Lex("\"" + body) == match ReadString(body)
                               case None => None
                               case Some((s, rest)) => Before([StringToken(s)], Lex(rest))
  {
    hide ReadString, AtomLength;
    assert ("\"" + body)[1..] == body;
  }

  lemma LexAtom(t: string)
    requires IsAtom(t)
    ensures LexesAs(t, [Atom(t)], true)
  {
    hide ScanNumber, AtomLength;
    forall rest: string | Stopped(rest)
      ensures Lex(t + rest) == Before([Atom(t)], Lex(rest))
    {
      AtomReads(t, rest);
      AtomStarts(t);
      assert (t + rest)[0] == t[0] && (t + rest)[..|t|] == t && (t + rest)[|t|..] == rest;
    }
  }

  lemma AtomStarts(t: string)
    requires IsAtom(t)
    ensures t != "" && !IsSpace(t[0]) && Punctuation(t[0]).None? && t[0] != '"'
  {
  }
}
