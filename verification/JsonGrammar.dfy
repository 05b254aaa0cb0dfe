/**
 The JSON grammar of RFC 8259, sections 2 to 7, over UTF-16 code units.

 Every predicate `N(s, i, j)` says that the units `s[i..j]` form the
 nonterminal N; none of them mentions a parser.
 */
module JsonGrammar {

  type Unit = u: int | 0 <= u < 0x1_0000
  type Units = seq<Unit>

  const QUOTE: Unit := 0x22
  const BACKSLASH: Unit := 0x5C
  const COMMA: Unit := 0x2C
  const COLON: Unit := 0x3A
  const LBRACK: Unit := 0x5B
  const RBRACK: Unit := 0x5D
  const LBRACE: Unit := 0x7B
  const RBRACE: Unit := 0x7D
  const MINUS: Unit := 0x2D
  const PLUS: Unit := 0x2B
  const POINT: Unit := 0x2E
  const ZERO: Unit := 0x30
  const LOWER_U: Unit := 0x75
  const TRUE: Units := [0x74, 0x72, 0x75, 0x65]
  const FALSE: Units := [0x66, 0x61, 0x6C, 0x73, 0x65]
  const NULL: Units := [0x6E, 0x75, 0x6C, 0x6C]

  predicate IsWs(c: Unit) { c == 0x20 || c == 0x09 || c == 0x0A || c == 0x0D }

  predicate IsDigit(c: Unit) { 0x30 <= c <= 0x39 }

  predicate IsDigit19(c: Unit) { 0x31 <= c <= 0x39 }

  predicate IsHexDigit(c: Unit) { IsDigit(c) || 0x61 <= c <= 0x66 || 0x41 <= c <= 0x46 }

  predicate IsSign(c: Unit) { c == MINUS || c == PLUS }

  predicate IsExpMark(c: Unit) { c == 0x65 || c == 0x45 }

  /** The one-character escapes: `" \ / b f n r t`. */
  predicate IsSimpleEscape(c: Unit) {
    c == QUOTE || c == BACKSLASH || c == 0x2F || c == 0x62 || c == 0x66 || c == 0x6E || c == 0x72 || c == 0x74
  }

  predicate IsUnescaped(c: Unit) { c >= 0x20 && c != QUOTE && c != BACKSLASH }

  predicate Ws(s: Units, i: int, j: int) {
    0 <= i <= j <= |s| && forall m :: i <= m < j ==> IsWs(s[m])
  }

  // Section 6: numbers.

  predicate Digits(s: Units, i: int, j: int) {
    0 <= i <= j <= |s| && forall m :: i <= m < j ==> IsDigit(s[m])
  }

  predicate Digits1(s: Units, i: int, j: int) { i < j && Digits(s, i, j) }

  predicate IntPart(s: Units, i: int, j: int) {
    0 <= i < |s| && ((s[i] == ZERO && j == i + 1) || (IsDigit19(s[i]) && Digits(s, i + 1, j)))
  }

  predicate FracPart(s: Units, i: int, j: int) {
    0 <= i <= |s| && (j == i || (i < |s| && s[i] == POINT && Digits1(s, i + 1, j)))
  }

  predicate ExpDigits(s: Units, i: int, j: int) {
    Digits1(s, i, j) || (0 <= i < |s| && IsSign(s[i]) && Digits1(s, i + 1, j))
  }

  predicate ExpPart(s: Units, i: int, j: int) {
    0 <= i <= |s| && (j == i || (i < |s| && IsExpMark(s[i]) && ExpDigits(s, i + 1, j)))
  }

  ghost predicate Unsigned(s: Units, i: int, j: int) {
    exists b, c :: IntPart(s, i, b) && FracPart(s, b, c) && ExpPart(s, c, j)
  }

  ghost predicate Number(s: Units, i: int, j: int) {
    Unsigned(s, i, j) || (0 <= i < |s| && s[i] == MINUS && Unsigned(s, i + 1, j))
  }

  // Section 7: strings.

  predicate HexRun(s: Units, i: int, j: int) {
    0 <= i <= j <= |s| && forall m :: i <= m < j ==> IsHexDigit(s[m])
  }

  predicate Chars(s: Units, i: int, j: int)
    decreases j - i
  {
    0 <= i <= j <= |s| &&
    (i == j ||
     (IsUnescaped(s[i]) && Chars(s, i + 1, j)) ||
     (i + 2 <= j && s[i] == BACKSLASH && IsSimpleEscape(s[i + 1]) && Chars(s, i + 2, j)) ||
     (i + 6 <= j && s[i] == BACKSLASH && s[i + 1] == LOWER_U && HexRun(s, i + 2, i + 6) && Chars(s, i + 6, j)))
  }

  predicate String(s: Units, i: int, j: int) {
    0 <= i && i + 2 <= j <= |s| && s[i] == QUOTE && Chars(s, i + 1, j - 1) && s[j - 1] == QUOTE
  }

  // Sections 3 to 5: values, objects, arrays.

  predicate Word(s: Units, i: int, j: int, w: Units) {
    0 <= i && j == i + |w| && j <= |s| && s[i..j] == w
  }

  ghost predicate Value(s: Units, i: int, j: int)
    decreases j - i, 1
  {
    0 <= i < j <= |s| &&
    (Word(s, i, j, FALSE) || Word(s, i, j, NULL) || Word(s, i, j, TRUE) ||
     Object(s, i, j) || Array(s, i, j) || Number(s, i, j) || String(s, i, j))
  }

  ghost predicate Object(s: Units, i: int, j: int)
    requires 0 <= i < j <= |s|
    decreases j - i, 0
  {
    i + 2 <= j && s[i] == LBRACE && s[j - 1] == RBRACE && (Ws(s, i + 1, j - 1) || Members(s, i + 1, j - 1))
  }

  ghost predicate Array(s: Units, i: int, j: int)
    requires 0 <= i < j <= |s|
    decreases j - i, 0
  {
    i + 2 <= j && s[i] == LBRACK && s[j - 1] == RBRACK && (Ws(s, i + 1, j - 1) || Elements(s, i + 1, j - 1))
  }

  /** A value with the whitespace its neighbouring structural characters allow. */
  ghost predicate Element(s: Units, i: int, j: int)
    decreases j - i, 2
  {
    0 <= i <= j <= |s| &&
    exists a, b :: i <= a < b <= j && Ws(s, i, a) && Value(s, a, b) && Ws(s, b, j)
  }

  ghost predicate Elements(s: Units, i: int, j: int)
    decreases j - i, 3
  {
    0 <= i <= j <= |s| &&
    (Element(s, i, j) || exists m :: i <= m < j && s[m] == COMMA && Element(s, i, m) && Elements(s, m + 1, j))
  }

  ghost predicate Member(s: Units, i: int, j: int)
    decreases j - i, 3
  {
    0 <= i <= j <= |s| &&
    exists a, b, c :: i <= a < b <= c < j && Ws(s, i, a) && String(s, a, b) && Ws(s, b, c) &&
                      s[c] == COLON && Element(s, c + 1, j)
  }

  ghost predicate Members(s: Units, i: int, j: int)
    decreases j - i, 4
  {
    0 <= i <= j <= |s| &&
    (Member(s, i, j) || exists m :: i <= m < j && s[m] == COMMA && Member(s, i, m) && Members(s, m + 1, j))
  }

  /** Section 2: a JSON text is one value between whitespace. */
  ghost predicate IsJson(s: Units) { Element(s, 0, |s|) }

  /** `p` is a prefix of some JSON text. */
  ghost predicate Viable(p: Units) { exists t: Units :: p <= t && IsJson(t) }
}
