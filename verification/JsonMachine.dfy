/**
 A deterministic pushdown machine that reads JSON one code unit at a time, and
 the proof that it accepts exactly the texts of the grammar.

 `Rest(s, i, st)` says, in grammar terms, what may still follow in state `st`.
 Each step of the machine is shown to be the derivative of `Rest`, so a state
 that has not died always belongs to a prefix of some JSON text, and a unit on
 which the machine dies continues none.
 */
module JsonMachine {
  import opened JsonGrammar
  import opened Wrappers

  /** The arrays and objects that are still open, innermost first. */
  datatype Stack = Bottom | Arr(rest: Stack) | Obj(rest: Stack)

  datatype Mode =
    | BeforeValue
    | ArrFirst
    | ObjFirst
    | BeforeKey
    | BeforeColon
    | After
    | InString(key: bool)
    | InEscape(key: bool)
    | InHex(key: bool, left: nat)
    | InWord(word: Units)
    | NumMinus
    | NumZero
    | NumInt
    | NumPoint
    | NumFrac
    | NumMark
    | NumSign
    | NumExp

  datatype State = State(mode: Mode, stack: Stack)

  const INIT := State(BeforeValue, Bottom)

  /** Whether whitespace in this mode is insignificant. */
  predicate SkipsWs(m: Mode) {
    m.BeforeValue? || m.ArrFirst? || m.ObjFirst? || m.BeforeKey? || m.BeforeColon? || m.After?
  }

  /** The modes in which the value read so far is already complete. */
  predicate IsFinal(m: Mode) { m.After? || m.NumZero? || m.NumInt? || m.NumFrac? || m.NumExp? }

  predicate Accepting(st: State) { IsFinal(st.mode) && st.stack.Bottom? }

  function StepValue(k: Stack, c: Unit): Option<State> {
    if c == QUOTE then Some(State(InString(false), k))
    else if c == MINUS then Some(State(NumMinus, k))
    else if c == ZERO then Some(State(NumZero, k))
    else if IsDigit19(c) then Some(State(NumInt, k))
    else if c == LBRACE then Some(State(ObjFirst, Obj(k)))
    else if c == LBRACK then Some(State(ArrFirst, Arr(k)))
    else if c == TRUE[0] then Some(State(InWord(TRUE[1..]), k))
    else if c == FALSE[0] then Some(State(InWord(FALSE[1..]), k))
    else if c == NULL[0] then Some(State(InWord(NULL[1..]), k))
    else None
  }

  function StepAfter(k: Stack, c: Unit): Option<State> {
    if IsWs(c) then Some(State(After, k))
    else match k
      case Bottom => None
      case Arr(r) =>
        if c == RBRACK then Some(State(After, r))
        else if c == COMMA then Some(State(BeforeValue, k))
        else None
      case Obj(r) =>
        if c == RBRACE then Some(State(After, r))
        else if c == COMMA then Some(State(BeforeKey, k))
        else None
  }

  function StepString(key: bool, k: Stack, c: Unit): Option<State> {
    if c == QUOTE then Some(State(if key then BeforeColon else After, k))
    else if c == BACKSLASH then Some(State(InEscape(key), k))
    else if c >= 0x20 then Some(State(InString(key), k))
    else None
  }

  function StepNumber(m: Mode, k: Stack, c: Unit): Option<State>
    requires m.NumMinus? || m.NumZero? || m.NumInt? || m.NumPoint? || m.NumFrac? || m.NumMark? || m.NumSign? || m.NumExp?
  {
    match m
    case NumMinus =>
      if c == ZERO then Some(State(NumZero, k)) else if IsDigit19(c) then Some(State(NumInt, k)) else None
    case NumPoint => if IsDigit(c) then Some(State(NumFrac, k)) else None
    case NumMark =>
      if IsSign(c) then Some(State(NumSign, k)) else if IsDigit(c) then Some(State(NumExp, k)) else None
    case NumSign => if IsDigit(c) then Some(State(NumExp, k)) else None
    case _ =>
      if IsDigit(c) && !m.NumZero? then Some(State(m, k))
      else if c == POINT && (m.NumZero? || m.NumInt?) then Some(State(NumPoint, k))
      else if IsExpMark(c) && !m.NumExp? then Some(State(NumMark, k))
      else StepAfter(k, c)
  }

  function Step(st: State, c: Unit): Option<State> {
    var k := st.stack;
    if SkipsWs(st.mode) && IsWs(c) then Some(st)
    else match st.mode
      case BeforeValue => StepValue(k, c)
      case ArrFirst => if c == RBRACK && k.Arr? then Some(State(After, k.rest)) else StepValue(k, c)
      case ObjFirst =>
        if c == RBRACE && k.Obj? then Some(State(After, k.rest))
        else if c == QUOTE then Some(State(InString(true), k)) else None
      case BeforeKey => if c == QUOTE then Some(State(InString(true), k)) else None
      case BeforeColon => if c == COLON then Some(State(BeforeValue, k)) else None
      case After => StepAfter(k, c)
      case InString(key) => StepString(key, k, c)
      case InEscape(key) =>
        if IsSimpleEscape(c) then Some(State(InString(key), k))
        else if c == LOWER_U then Some(State(InHex(key, 4), k))
        else None
      case InHex(key, n) =>
        if !IsHexDigit(c) || n == 0 then None
        else Some(State(if n == 1 then InString(key) else InHex(key, n - 1), k))
      case InWord(w) =>
        if w == [] || c != w[0] then None
        else Some(State(if |w| == 1 then After else InWord(w[1..]), k))
      case _ => StepNumber(st.mode, k, c)
  }

  predicate Accepts(s: Units, i: int, st: State)
    requires 0 <= i <= |s|
    decreases |s| - i
  {
    if i == |s| then Accepting(st)
    else Step(st, s[i]).Some? && Accepts(s, i + 1, Step(st, s[i]).value)
  }

  // What may follow in each state, in terms of the grammar.

  ghost predicate AfterR(s: Units, i: int, k: Stack)
    decreases |s| - i, 1
  {
    0 <= i <= |s| && exists e :: i <= e && Ws(s, i, e) && CloseR(s, e, k)
  }

  ghost predicate CloseR(s: Units, e: int, k: Stack)
    decreases |s| - e, 0
  {
    0 <= e <= |s| &&
    match k
    case Bottom => e == |s|
    case Arr(r) => e < |s| && ((s[e] == RBRACK && AfterR(s, e + 1, r)) || (s[e] == COMMA && ValueR(s, e + 1, k)))
    case Obj(r) => e < |s| && ((s[e] == RBRACE && AfterR(s, e + 1, r)) || (s[e] == COMMA && KeyR(s, e + 1, k)))
  }

  ghost predicate ValueR(s: Units, i: int, k: Stack)
    decreases |s| - i, 2
  {
    0 <= i <= |s| && exists a, b :: i <= a < b && Ws(s, i, a) && Value(s, a, b) && AfterR(s, b, k)
  }

  ghost predicate ColonR(s: Units, i: int, k: Stack)
    decreases |s| - i, 3
  {
    0 <= i <= |s| && exists e :: i <= e < |s| && Ws(s, i, e) && s[e] == COLON && ValueR(s, e + 1, k)
  }

  ghost predicate KeyR(s: Units, i: int, k: Stack)
    decreases |s| - i, 4
  {
    0 <= i <= |s| && exists a, b :: i <= a < b && Ws(s, i, a) && String(s, a, b) && ColonR(s, b, k)
  }

  ghost predicate ExpR(s: Units, i: int, k: Stack) {
    exists j :: ExpPart(s, i, j) && AfterR(s, j, k)
  }

  ghost predicate FracR(s: Units, i: int, k: Stack) {
    exists j :: FracPart(s, i, j) && ExpR(s, j, k)
  }

  ghost predicate NumberR(s: Units, i: int, m: Mode, k: Stack) {
    match m
    case NumMinus => exists j :: IntPart(s, i, j) && FracR(s, j, k)
    case NumZero => FracR(s, i, k)
    case NumInt => exists j :: Digits(s, i, j) && FracR(s, j, k)
    case NumPoint => exists j :: Digits1(s, i, j) && ExpR(s, j, k)
    case NumFrac => exists j :: Digits(s, i, j) && ExpR(s, j, k)
    case NumMark => exists j :: ExpDigits(s, i, j) && AfterR(s, j, k)
    case NumSign => exists j :: Digits1(s, i, j) && AfterR(s, j, k)
    case NumExp => exists j :: Digits(s, i, j) && AfterR(s, j, k)
    case _ => false
  }

  ghost predicate StringEndR(s: Units, i: int, key: bool, k: Stack) {
    if key then ColonR(s, i, k) else AfterR(s, i, k)
  }

  ghost predicate StringR(s: Units, i: int, key: bool, k: Stack) {
    exists q :: Chars(s, i, q) && q < |s| && s[q] == QUOTE && StringEndR(s, q + 1, key, k)
  }

  ghost predicate HexR(s: Units, i: int, n: nat, key: bool, k: Stack) {
    HexRun(s, i, i + n) && StringR(s, i + n, key, k)
  }

  ghost predicate Rest(s: Units, i: int, st: State) {
    var k := st.stack;
    match st.mode
    case BeforeValue => ValueR(s, i, k)
    case ArrFirst =>
      ValueR(s, i, k) || (k.Arr? && exists e :: Ws(s, i, e) && e < |s| && s[e] == RBRACK && AfterR(s, e + 1, k.rest))
    case ObjFirst =>
      KeyR(s, i, k) || (k.Obj? && exists e :: Ws(s, i, e) && e < |s| && s[e] == RBRACE && AfterR(s, e + 1, k.rest))
    case BeforeKey => KeyR(s, i, k)
    case BeforeColon => ColonR(s, i, k)
    case After => AfterR(s, i, k)
    case InString(key) => StringR(s, i, key, k)
    case InEscape(key) =>
      0 <= i < |s| && ((IsSimpleEscape(s[i]) && StringR(s, i + 1, key, k)) || (s[i] == LOWER_U && HexR(s, i + 1, 4, key, k)))
    case InHex(key, n) => n > 0 && HexR(s, i, n, key, k)
    case InWord(w) => w != [] && Word(s, i, i + |w|, w) && AfterR(s, i + |w|, k)
    case _ => NumberR(s, i, st.mode, k)
  }

  /** What `Rest` should be, one unit later. */
  ghost predicate Derived(s: Units, i: int, st: State)
    requires 0 <= i <= |s|
  {
    if i == |s| then Accepting(st) else Step(st, s[i]).Some? && Rest(s, i + 1, Step(st, s[i]).value)
  }

  lemma DeriveAfter(s: Units, i: int, k: Stack)
    requires 0 <= i <= |s|
    ensures AfterR(s, i, k) <==> Derived(s, i, State(After, k))
  {
    if AfterR(s, i, k) {
      var e :| i <= e && Ws(s, i, e) && CloseR(s, e, k);
      if i < e {
        assert Ws(s, i + 1, e);
        assert AfterR(s, i + 1, k);
      }
    }
    if Derived(s, i, State(After, k)) {
      if i < |s| && IsWs(s[i]) {
        var e :| i + 1 <= e && Ws(s, i + 1, e) && CloseR(s, e, k);
        assert Ws(s, i, e);
      } else {
        assert Ws(s, i, i);
        assert CloseR(s, i, k);
      }
    }
  }

  /** A unit that cannot follow a complete value starts nothing that may follow one. */
  lemma AfterStops(s: Units, i: int, k: Stack, c: Unit)
    requires 0 <= i < |s| && s[i] == c && AfterR(s, i, k)
    ensures IsWs(c) || c == COMMA || c == RBRACK || c == RBRACE
  {
    var e :| i <= e && Ws(s, i, e) && CloseR(s, e, k);
  }

  // Arrays and objects: a closed list is the tail of an open one.

  lemma ElementOpen(s: Units, i: int, j: int, k: Stack)
    requires Element(s, i, j) && CloseR(s, j, k)
    ensures ValueR(s, i, k)
  {
    var a, b :| i <= a < b <= j && Ws(s, i, a) && Value(s, a, b) && Ws(s, b, j);
    assert AfterR(s, b, k);
  }

  lemma OpenElement(s: Units, i: int, k: Stack) returns (j: int)
    requires ValueR(s, i, k)
    ensures i < j <= |s| && Element(s, i, j) && CloseR(s, j, k)
  {
    var a, b :| i <= a < b && Ws(s, i, a) && Value(s, a, b) && AfterR(s, b, k);
    j :| b <= j && Ws(s, b, j) && CloseR(s, j, k);
  }

  lemma MemberOpen(s: Units, i: int, j: int, k: Stack)
    requires Member(s, i, j) && CloseR(s, j, k)
    ensures KeyR(s, i, k)
  {
    var a, b, c :| i <= a < b <= c < j && Ws(s, i, a) && String(s, a, b) && Ws(s, b, c) &&
                   s[c] == COLON && Element(s, c + 1, j);
    ElementOpen(s, c + 1, j, k);
    assert ColonR(s, b, k);
  }

  lemma OpenMember(s: Units, i: int, k: Stack) returns (j: int)
    requires KeyR(s, i, k)
    ensures i < j <= |s| && Member(s, i, j) && CloseR(s, j, k)
  {
    var a, b :| i <= a < b && Ws(s, i, a) && String(s, a, b) && ColonR(s, b, k);
    var c :| b <= c < |s| && Ws(s, b, c) && s[c] == COLON && ValueR(s, c + 1, k);
    j := OpenElement(s, c + 1, k);
  }

  lemma {:induction false} ElementsOpen(s: Units, i: int, j: int, k: Stack)
    requires Elements(s, i, j) && j < |s| && s[j] == RBRACK && AfterR(s, j + 1, k)
    ensures ValueR(s, i, Arr(k))
    decreases j - i
  {
    var m := j;
    if !Element(s, i, j) {
      m :| i <= m < j && s[m] == COMMA && Element(s, i, m) && Elements(s, m + 1, j);
      ElementsOpen(s, m + 1, j, k);
    }
    assert CloseR(s, m, Arr(k));
    ElementOpen(s, i, m, Arr(k));
  }

  lemma {:induction false} OpenElements(s: Units, i: int, k: Stack) returns (j: int)
    requires ValueR(s, i, Arr(k))
    ensures Elements(s, i, j) && j < |s| && s[j] == RBRACK && AfterR(s, j + 1, k)
    decreases |s| - i
  {
    j := OpenElement(s, i, Arr(k));
    if s[j] == COMMA {
      var m := j;
      j := OpenElements(s, m + 1, k);
    }
  }

  lemma {:induction false} MembersOpen(s: Units, i: int, j: int, k: Stack)
    requires Members(s, i, j) && j < |s| && s[j] == RBRACE && AfterR(s, j + 1, k)
    ensures KeyR(s, i, Obj(k))
    decreases j - i
  {
    var m := j;
    if !Member(s, i, j) {
      m :| i <= m < j && s[m] == COMMA && Member(s, i, m) && Members(s, m + 1, j);
      MembersOpen(s, m + 1, j, k);
    }
    assert CloseR(s, m, Obj(k));
    MemberOpen(s, i, m, Obj(k));
  }

  lemma {:induction false} OpenMembers(s: Units, i: int, k: Stack) returns (j: int)
    requires KeyR(s, i, Obj(k))
    ensures Members(s, i, j) && j < |s| && s[j] == RBRACE && AfterR(s, j + 1, k)
    decreases |s| - i
  {
    j := OpenMember(s, i, Obj(k));
    if s[j] == COMMA {
      var m := j;
      j := OpenMembers(s, m + 1, k);
    }
  }

  // Numbers.

  /** The state the first unit of a number leads to. */
  function NumberStart(c: Unit): Option<Mode> {
    if c == MINUS then Some(NumMinus) else if c == ZERO then Some(NumZero)
    else if IsDigit19(c) then Some(NumInt) else None
  }

  lemma NumberOpen(s: Units, i: int, j: int, k: Stack)
    requires Number(s, i, j) && AfterR(s, j, k)
    ensures 0 <= i < |s| && NumberStart(s[i]).Some? && NumberR(s, i + 1, NumberStart(s[i]).value, k)
  {
    hide AfterR;
    var u := if Unsigned(s, i, j) then i else i + 1;
    var b, c :| IntPart(s, u, b) && FracPart(s, b, c) && ExpPart(s, c, j);
    assert ExpR(s, c, k);
    assert FracR(s, b, k);
  }

  lemma OpenNumber(s: Units, i: int, k: Stack) returns (j: int)
    requires 0 <= i < |s| && NumberStart(s[i]).Some? && NumberR(s, i + 1, NumberStart(s[i]).value, k)
    ensures i < j <= |s| && Number(s, i, j) && AfterR(s, j, k)
  {
    var b := i + 1;
    if s[i] == MINUS {
      b :| IntPart(s, i + 1, b) && FracR(s, b, k);
    } else if s[i] != ZERO {
      b :| Digits(s, i + 1, b) && FracR(s, b, k);
    }
    var c :| FracPart(s, b, c) && ExpR(s, c, k);
    j :| ExpPart(s, c, j) && AfterR(s, j, k);
    assert Unsigned(s, if s[i] == MINUS then i + 1 else i, j);
  }

  lemma DeriveExp(s: Units, i: int, k: Stack)
    requires 0 <= i <= |s|
    ensures ExpR(s, i, k) <==> if i < |s| && IsExpMark(s[i]) then NumberR(s, i + 1, NumMark, k) else AfterR(s, i, k)
  {
    if ExpR(s, i, k) {
      var j :| ExpPart(s, i, j) && AfterR(s, j, k);
      if i < |s| && IsExpMark(s[i]) && j == i {
        AfterStops(s, i, k, s[i]);
      }
    }
    if i < |s| && IsExpMark(s[i]) {
      if NumberR(s, i + 1, NumMark, k) {
        var j :| ExpDigits(s, i + 1, j) && AfterR(s, j, k);
        assert ExpPart(s, i, j);
      }
    } else if AfterR(s, i, k) {
      assert ExpPart(s, i, i);
    }
  }

  lemma DeriveFrac(s: Units, i: int, k: Stack)
    requires 0 <= i <= |s|
    ensures FracR(s, i, k) <==> if i < |s| && s[i] == POINT then NumberR(s, i + 1, NumPoint, k) else ExpR(s, i, k)
  {
    if i < |s| {
      DeriveExp(s, i, k);
      if AfterR(s, i, k) {
        AfterStops(s, i, k, s[i]);
      }
    }
    if i < |s| && s[i] == POINT {
      if NumberR(s, i + 1, NumPoint, k) {
        var j :| Digits1(s, i + 1, j) && ExpR(s, j, k);
        assert FracPart(s, i, j);
      }
    } else if ExpR(s, i, k) {
      assert FracPart(s, i, i);
    }
  }

  /** A digit continues none of the parts that may follow a run of digits. */
  lemma DigitStops(s: Units, i: int, k: Stack)
    requires 0 <= i < |s| && IsDigit(s[i])
    ensures !AfterR(s, i, k) && !ExpR(s, i, k) && !FracR(s, i, k)
  {
    DeriveFrac(s, i, k);
    DeriveExp(s, i, k);
    if AfterR(s, i, k) {
      AfterStops(s, i, k, s[i]);
    }
  }

  /** The run of digits from `i` ends at `i` or contains `s[i]`. */
  lemma DigitsHead(s: Units, i: int)
    requires 0 <= i <= |s|
    ensures Digits(s, i, i)
    ensures i < |s| && IsDigit(s[i]) ==> forall j :: Digits(s, i + 1, j) ==> Digits1(s, i, j)
    ensures forall j :: Digits(s, i, j) && i != j ==> i < |s| && IsDigit(s[i]) && Digits(s, i + 1, j)
  {
  }

  lemma DeriveInt(s: Units, i: int, k: Stack)
    requires 0 <= i <= |s|
    ensures Rest(s, i, State(NumInt, k)) <==> Derived(s, i, State(NumInt, k))
  {
    hide AfterR, ExpR;
    DeriveAfter(s, i, k);
    DeriveExp(s, i, k);
    DeriveFrac(s, i, k);
    DigitsHead(s, i);
    if i < |s| {
      DigitsHead(s, i + 1);
      if IsDigit(s[i]) { DigitStops(s, i, k); }
    }
  }

  lemma DeriveFracDigits(s: Units, i: int, k: Stack)
    requires 0 <= i <= |s|
    ensures Rest(s, i, State(NumFrac, k)) <==> Derived(s, i, State(NumFrac, k))
  {
    hide AfterR, FracR;
    DeriveAfter(s, i, k);
    DeriveExp(s, i, k);
    DigitsHead(s, i);
    if i < |s| {
      DigitsHead(s, i + 1);
      if IsDigit(s[i]) { DigitStops(s, i, k); }
    }
  }

  lemma DeriveExpDigits(s: Units, i: int, k: Stack)
    requires 0 <= i <= |s|
    ensures Rest(s, i, State(NumExp, k)) <==> Derived(s, i, State(NumExp, k))
  {
    hide AfterR, ExpR, FracR;
    DeriveAfter(s, i, k);
    DigitsHead(s, i);
    if i < |s| {
      DigitsHead(s, i + 1);
      if IsDigit(s[i]) { DigitStops(s, i, k); }
    }
  }

  lemma DeriveFirstDigit(s: Units, i: int, m: Mode, k: Stack)
    requires 0 <= i <= |s| && (m.NumPoint? || m.NumSign?)
    ensures Rest(s, i, State(m, k)) <==> Derived(s, i, State(m, k))
  {
    hide AfterR, ExpR, FracR;
    DigitsHead(s, i);
    if i < |s| { DigitsHead(s, i + 1); }
  }

  lemma DeriveZero(s: Units, i: int, k: Stack)
    requires 0 <= i <= |s|
    ensures Rest(s, i, State(NumZero, k)) <==> Derived(s, i, State(NumZero, k))
  {
    hide AfterR, ExpR, FracR;
    DeriveAfter(s, i, k);
    DeriveExp(s, i, k);
    DeriveFrac(s, i, k);
    if i < |s| && IsDigit(s[i]) {
      DigitStops(s, i, k);
      assert StepAfter(k, s[i]).None?;
    }
  }

  lemma DeriveNumber(s: Units, i: int, st: State)
    requires 0 <= i <= |s|
    requires !SkipsWs(st.mode) && !st.mode.InString? && !st.mode.InEscape? && !st.mode.InHex? && !st.mode.InWord?
    ensures Rest(s, i, st) <==> Derived(s, i, st)
  {
    hide Rest, Derived;
    var k := st.stack;
    match st.mode
    case NumMinus => MinusDerives(s, i, k);
    case NumZero => DeriveZero(s, i, k);
    case NumMark => MarkDerives(s, i, k);
    case NumPoint => DeriveFirstDigit(s, i, NumPoint, k);
    case NumSign => DeriveFirstDigit(s, i, NumSign, k);
    case NumInt => DeriveInt(s, i, k);
    case NumFrac => DeriveFracDigits(s, i, k);
    case NumExp => DeriveExpDigits(s, i, k);
  }

  lemma MinusDerives(s: Units, i: int, k: Stack)
    requires 0 <= i <= |s|
    ensures Rest(s, i, State(NumMinus, k)) <==> Derived(s, i, State(NumMinus, k))
  {
    hide AfterR, ExpR, FracR;
    DigitsHead(s, i);
    if i < |s| { DigitsHead(s, i + 1); }
    DeriveMinus(s, i, k);
  }

  lemma MarkDerives(s: Units, i: int, k: Stack)
    requires 0 <= i <= |s|
    ensures Rest(s, i, State(NumMark, k)) <==> Derived(s, i, State(NumMark, k))
  {
    hide AfterR, ExpR, FracR;
    DigitsHead(s, i);
    if i < |s| { DigitsHead(s, i + 1); }
    DeriveMark(s, i, k);
  }

  lemma DeriveMinus(s: Units, i: int, k: Stack)
    requires 0 <= i <= |s|
    ensures Rest(s, i, State(NumMinus, k)) <==> Derived(s, i, State(NumMinus, k))
  {
    if Rest(s, i, State(NumMinus, k)) {
      var j :| IntPart(s, i, j) && FracR(s, j, k);
    }
    if i < |s| && Derived(s, i, State(NumMinus, k)) {
      if s[i] == ZERO {
        assert IntPart(s, i, i + 1);
      } else {
        var j :| Digits(s, i + 1, j) && FracR(s, j, k);
        assert IntPart(s, i, j);
      }
    }
  }

  lemma DeriveMark(s: Units, i: int, k: Stack)
    requires 0 <= i <= |s|
    ensures Rest(s, i, State(NumMark, k)) <==> Derived(s, i, State(NumMark, k))
  {
    if Rest(s, i, State(NumMark, k)) {
      var j :| ExpDigits(s, i, j) && AfterR(s, j, k);
      if !IsSign(s[i]) {
        assert Digits(s, i + 1, j);
      }
    }
    if i < |s| && Derived(s, i, State(NumMark, k)) {
      if IsSign(s[i]) {
        var j :| Digits1(s, i + 1, j) && AfterR(s, j, k);
        assert ExpDigits(s, i, j);
      } else {
        var j :| Digits(s, i + 1, j) && AfterR(s, j, k);
        assert ExpDigits(s, i, j);
      }
    }
  }

  // Strings and words.

  lemma DeriveString(s: Units, i: int, key: bool, k: Stack)
    requires 0 <= i <= |s|
    ensures Rest(s, i, State(InString(key), k)) <==> Derived(s, i, State(InString(key), k))
  {
    hide StringEndR;
    if StringR(s, i, key, k) { StringTaken(s, i, key, k); }
    if i < |s| && Derived(s, i, State(InString(key), k)) { StringGiven(s, i, key, k); }
  }

  lemma StringTaken(s: Units, i: int, key: bool, k: Stack)
    requires 0 <= i <= |s| && StringR(s, i, key, k)
    ensures Derived(s, i, State(InString(key), k))
  {
    hide AfterR, ColonR;
    var q :| Chars(s, i, q) && q < |s| && s[q] == QUOTE && StringEndR(s, q + 1, key, k);
    if s[i] == BACKSLASH {
      assert Chars(s, i + 2, q) || Chars(s, i + 6, q);
    } else if s[i] != QUOTE {
      assert Chars(s, i + 1, q);
    }
  }

  lemma StringGiven(s: Units, i: int, key: bool, k: Stack)
    requires 0 <= i < |s| && Derived(s, i, State(InString(key), k))
    ensures StringR(s, i, key, k)
  {
    hide AfterR, ColonR;
    if s[i] == QUOTE {
      assert Chars(s, i, i);
    } else {
      var at := if s[i] != BACKSLASH then i + 1 else if IsSimpleEscape(s[i + 1]) then i + 2 else i + 6;
      assert StringR(s, at, key, k);
      var q :| Chars(s, at, q) && q < |s| && s[q] == QUOTE && StringEndR(s, q + 1, key, k);
      assert Chars(s, i, q);
    }
  }

  lemma DeriveEscape(s: Units, i: int, st: State)
    requires 0 <= i <= |s| && (st.mode.InEscape? || st.mode.InHex?)
    ensures Rest(s, i, st) <==> Derived(s, i, st)
  {
  }

  lemma DeriveWord(s: Units, i: int, w: Units, k: Stack)
    requires 0 <= i <= |s|
    ensures Rest(s, i, State(InWord(w), k)) <==> Derived(s, i, State(InWord(w), k))
  {
    if i < |s| && w != [] {
      WordHead(s, i, w);
    }
  }

  lemma WordHead(s: Units, i: int, w: Units)
    requires 0 <= i < |s| && w != []
    ensures Word(s, i, i + |w|, w) <==> s[i] == w[0] && Word(s, i + 1, i + |w|, w[1..])
  {
    if i + |w| <= |s| {
      assert s[i..i + |w|] == [s[i]] + s[i + 1..i + |w|];
      assert w == [w[0]] + w[1..];
    }
  }

  // Values.

  /** What `StepValue` must achieve at the first unit of a value. */
  ghost predicate ValueBegins(s: Units, i: int, k: Stack) {
    0 <= i < |s| && StepValue(k, s[i]).Some? && Rest(s, i + 1, StepValue(k, s[i]).value)
  }

  lemma WordOpen(s: Units, i: int, j: int, w: Units, k: Stack)
    requires w == TRUE || w == FALSE || w == NULL
    requires Word(s, i, j, w) && AfterR(s, j, k)
    ensures ValueBegins(s, i, k)
  {
    WordHead(s, i, w);
  }

  lemma ArrayOpen(s: Units, i: int, j: int, k: Stack)
    requires 0 <= i < j <= |s| && Array(s, i, j) && AfterR(s, j, k)
    ensures ValueBegins(s, i, k)
  {
    hide AfterR, ValueR;
    if !Ws(s, i + 1, j - 1) { ElementsOpen(s, i + 1, j - 1, k); }
  }

  lemma ObjectOpen(s: Units, i: int, j: int, k: Stack)
    requires 0 <= i < j <= |s| && Object(s, i, j) && AfterR(s, j, k)
    ensures ValueBegins(s, i, k)
  {
    hide AfterR, KeyR;
    if !Ws(s, i + 1, j - 1) { MembersOpen(s, i + 1, j - 1, k); }
  }

  lemma ContainerOpen(s: Units, i: int, j: int, k: Stack)
    requires 0 <= i < j <= |s| && (Array(s, i, j) || Object(s, i, j)) && AfterR(s, j, k)
    ensures ValueBegins(s, i, k)
  {
    hide Array, Object, AfterR, ValueBegins;
    if Array(s, i, j) { ArrayOpen(s, i, j, k); } else { ObjectOpen(s, i, j, k); }
  }

  lemma StringOpen(s: Units, i: int, j: int, k: Stack)
    requires String(s, i, j) && AfterR(s, j, k)
    ensures ValueBegins(s, i, k)
  {
    assert StringR(s, i + 1, false, k);
  }

  lemma ValueOpen(s: Units, i: int, j: int, k: Stack)
    requires Value(s, i, j) && AfterR(s, j, k)
    ensures ValueBegins(s, i, k)
  {
    hide StepValue, Rest, AfterR, NumberR, Chars;
    if Number(s, i, j) {
      NumberBegins(s, i, j, k);
    } else if Array(s, i, j) || Object(s, i, j) {
      ContainerOpen(s, i, j, k);
    } else if String(s, i, j) {
      StringOpen(s, i, j, k);
    } else {
      WordOpen(s, i, j, if Word(s, i, j, TRUE) then TRUE else if Word(s, i, j, FALSE) then FALSE else NULL, k);
    }
  }

  lemma NumberBegins(s: Units, i: int, j: int, k: Stack)
    requires Number(s, i, j) && AfterR(s, j, k)
    ensures ValueBegins(s, i, k)
  {
    NumberOpen(s, i, j, k);
  }

  lemma OpenString(s: Units, i: int, k: Stack) returns (j: int)
    requires 0 <= i < |s| && s[i] == QUOTE && StringR(s, i + 1, false, k)
    ensures i < j && String(s, i, j) && AfterR(s, j, k)
  {
    hide AfterR;
    var q :| Chars(s, i + 1, q) && q < |s| && s[q] == QUOTE && StringEndR(s, q + 1, false, k);
    j := q + 1;
  }

  lemma OpenWord(s: Units, i: int, w: Units, k: Stack) returns (j: int)
    requires (w == TRUE || w == FALSE || w == NULL) && 0 <= i < |s| && s[i] == w[0]
    requires Rest(s, i + 1, State(InWord(w[1..]), k))
    ensures i < j && Word(s, i, j, w) && AfterR(s, j, k)
  {
    hide AfterR;
    WordHead(s, i, w);
    j := i + |w|;
  }

  lemma OpenValue(s: Units, i: int, k: Stack) returns (j: int)
    requires ValueBegins(s, i, k)
    ensures i < j && Value(s, i, j) && AfterR(s, j, k)
  {
    hide AfterR, Chars, StringR, NumberR, ValueR, KeyR;
    var c := s[i];
    if NumberStart(c).Some? {
      j := OpenNumber(s, i, k);
    } else if c == QUOTE {
      j := OpenString(s, i, k);
    } else if c == LBRACE {
      j := OpenObject(s, i, k);
    } else if c == LBRACK {
      j := OpenArray(s, i, k);
    } else {
      j := OpenWord(s, i, if c == TRUE[0] then TRUE else if c == FALSE[0] then FALSE else NULL, k);
    }
  }

  lemma OpenArray(s: Units, i: int, k: Stack) returns (j: int)
    requires 0 <= i < |s| && s[i] == LBRACK && Rest(s, i + 1, State(ArrFirst, Arr(k)))
    ensures i < j <= |s| && Array(s, i, j) && AfterR(s, j, k)
  {
    var e;
    if ValueR(s, i + 1, Arr(k)) {
      e := OpenElements(s, i + 1, k);
    } else {
      e :| Ws(s, i + 1, e) && e < |s| && s[e] == RBRACK && AfterR(s, e + 1, k);
    }
    j := e + 1;
  }

  lemma OpenObject(s: Units, i: int, k: Stack) returns (j: int)
    requires 0 <= i < |s| && s[i] == LBRACE && Rest(s, i + 1, State(ObjFirst, Obj(k)))
    ensures i < j <= |s| && Object(s, i, j) && AfterR(s, j, k)
  {
    var e;
    if KeyR(s, i + 1, Obj(k)) {
      e := OpenMembers(s, i + 1, k);
    } else {
      e :| Ws(s, i + 1, e) && e < |s| && s[e] == RBRACE && AfterR(s, e + 1, k);
    }
    j := e + 1;
  }

  lemma DeriveValue(s: Units, i: int, k: Stack)
    requires 0 <= i <= |s|
    ensures ValueR(s, i, k) <==> i < |s| && (if IsWs(s[i]) then ValueR(s, i + 1, k)
                                             else StepValue(k, s[i]).Some? && Rest(s, i + 1, StepValue(k, s[i]).value))
  {
    hide ValueR, StepValue, Rest;
    if i < |s| && IsWs(s[i]) { ValueSkips(s, i, k); } else { FirstOfValue(s, i, k); }
  }

  lemma ValueSkips(s: Units, i: int, k: Stack)
    requires 0 <= i < |s| && IsWs(s[i])
    ensures ValueR(s, i, k) <==> ValueR(s, i + 1, k)
  {
    hide Value, AfterR;
    if ValueR(s, i, k) {
      var a, b :| i <= a < b && Ws(s, i, a) && Value(s, a, b) && AfterR(s, b, k);
      if a == i { ValueOpen(s, i, b, k); }
      assert Ws(s, i + 1, a);
    }
    if ValueR(s, i + 1, k) {
      var a, b :| i + 1 <= a < b && Ws(s, i + 1, a) && Value(s, a, b) && AfterR(s, b, k);
      assert Ws(s, i, a);
    }
  }

  lemma FirstOfValue(s: Units, i: int, k: Stack)
    requires 0 <= i <= |s| && (i < |s| ==> !IsWs(s[i]))
    ensures ValueR(s, i, k) <==> ValueBegins(s, i, k)
  {
    hide Value, AfterR, ValueBegins;
    if ValueR(s, i, k) {
      var a, b :| i <= a < b && Ws(s, i, a) && Value(s, a, b) && AfterR(s, b, k);
      assert a == i;
      ValueOpen(s, i, b, k);
    }
    if ValueBegins(s, i, k) {
      var j := OpenValue(s, i, k);
      assert Ws(s, i, i);
    }
  }

  lemma DeriveKey(s: Units, i: int, k: Stack)
    requires 0 <= i <= |s|
    ensures KeyR(s, i, k) <==> i < |s| && (if IsWs(s[i]) then KeyR(s, i + 1, k)
                                           else s[i] == QUOTE && StringR(s, i + 1, true, k))
  {
    hide ColonR, Chars, StringR;
    if i < |s| && IsWs(s[i]) { KeySkips(s, i, k); } else { KeyBegins(s, i, k); }
  }

  lemma KeySkips(s: Units, i: int, k: Stack)
    requires 0 <= i < |s| && IsWs(s[i])
    ensures KeyR(s, i, k) <==> KeyR(s, i + 1, k)
  {
    hide ColonR, Chars, StringR;
    if KeyR(s, i, k) {
      var a, b :| i <= a < b && Ws(s, i, a) && String(s, a, b) && ColonR(s, b, k);
      assert i < a && Ws(s, i + 1, a);
    }
    if KeyR(s, i + 1, k) {
      var a, b :| i + 1 <= a < b && Ws(s, i + 1, a) && String(s, a, b) && ColonR(s, b, k);
      assert Ws(s, i, a);
    }
  }

  lemma KeyBegins(s: Units, i: int, k: Stack)
    requires 0 <= i <= |s| && (i < |s| ==> !IsWs(s[i]))
    ensures KeyR(s, i, k) <==> i < |s| && s[i] == QUOTE && StringR(s, i + 1, true, k)
  {
    hide ColonR;
    if KeyR(s, i, k) {
      var a, b :| i <= a < b && Ws(s, i, a) && String(s, a, b) && ColonR(s, b, k);
      assert a == i && StringR(s, i + 1, true, k);
    }
    if i < |s| && s[i] == QUOTE && StringR(s, i + 1, true, k) {
      var q :| Chars(s, i + 1, q) && q < |s| && s[q] == QUOTE && StringEndR(s, q + 1, true, k);
      assert Ws(s, i, i) && String(s, i, q + 1);
    }
  }

  lemma DeriveColon(s: Units, i: int, k: Stack)
    requires 0 <= i <= |s|
    ensures ColonR(s, i, k) <==> i < |s| && (if IsWs(s[i]) then ColonR(s, i + 1, k)
                                             else s[i] == COLON && ValueR(s, i + 1, k))
  {
    hide ValueR;
    if ColonR(s, i, k) {
      var e :| i <= e < |s| && Ws(s, i, e) && s[e] == COLON && ValueR(s, e + 1, k);
      if i < e {
        assert Ws(s, i + 1, e);
      }
    }
    if i < |s| {
      if IsWs(s[i]) {
        if ColonR(s, i + 1, k) {
          var e :| i + 1 <= e < |s| && Ws(s, i + 1, e) && s[e] == COLON && ValueR(s, e + 1, k);
          assert Ws(s, i, e);
        }
      } else {
        assert Ws(s, i, i);
      }
    }
  }

  ghost predicate ClosesAt(s: Units, i: int, c: Unit, k: Stack) {
    exists e :: Ws(s, i, e) && e < |s| && s[e] == c && AfterR(s, e + 1, k)
  }

  lemma DeriveCloses(s: Units, i: int, c: Unit, k: Stack)
    requires 0 <= i <= |s| && !IsWs(c)
    ensures ClosesAt(s, i, c, k) <==> i < |s| && (if IsWs(s[i]) then ClosesAt(s, i + 1, c, k)
                                                  else s[i] == c && AfterR(s, i + 1, k))
  {
    if ClosesAt(s, i, c, k) {
      var e :| Ws(s, i, e) && e < |s| && s[e] == c && AfterR(s, e + 1, k);
      if i < e {
        assert Ws(s, i + 1, e);
      }
    }
    if i < |s| {
      if IsWs(s[i]) {
        if ClosesAt(s, i + 1, c, k) {
          var e :| Ws(s, i + 1, e) && e < |s| && s[e] == c && AfterR(s, e + 1, k);
          assert Ws(s, i, e);
        }
      } else {
        assert Ws(s, i, i);
      }
    }
  }

  /** One unit of input: the machine's step is the derivative of the grammar. */
  lemma Derive(s: Units, i: int, st: State)
    requires 0 <= i <= |s|
    ensures Rest(s, i, st) <==> Derived(s, i, st)
  {
    var k := st.stack;
    match st.mode
    case BeforeValue => DeriveValue(s, i, k);
    case ArrFirst =>
      DeriveValue(s, i, k);
      if k.Arr? { DeriveCloses(s, i, RBRACK, k.rest); }
    case ObjFirst =>
      DeriveKey(s, i, k);
      if k.Obj? { DeriveCloses(s, i, RBRACE, k.rest); }
    case BeforeKey => DeriveKey(s, i, k);
    case BeforeColon => DeriveColon(s, i, k);
    case After => DeriveAfter(s, i, k);
    case InString(key) => DeriveString(s, i, key, k);
    case InEscape(_) => DeriveEscape(s, i, st);
    case InHex(_, _) => DeriveEscape(s, i, st);
    case InWord(w) => DeriveWord(s, i, w, k);
    case _ => DeriveNumber(s, i, st);
  }

  lemma {:induction false} AcceptsRest(s: Units, i: int, st: State)
    requires 0 <= i <= |s|
    ensures Accepts(s, i, st) <==> Rest(s, i, st)
    decreases |s| - i
  {
    Derive(s, i, st);
    if i < |s| && Step(st, s[i]).Some? {
      AcceptsRest(s, i + 1, Step(st, s[i]).value);
    }
  }

  /** The machine accepts exactly the JSON texts. */
  lemma AcceptsJson(s: Units)
    ensures Accepts(s, 0, INIT) <==> IsJson(s)
  {
    AcceptsRest(s, 0, INIT);
    if ValueR(s, 0, Bottom) {
      var j := OpenElement(s, 0, Bottom);
    }
    if IsJson(s) {
      assert CloseR(s, |s|, Bottom);
      ElementOpen(s, 0, |s|, Bottom);
    }
  }

  /** The state after the first `n` units, unless the machine died among them. */
  function StateAt(s: Units, n: nat): Option<State>
    requires n <= |s|
  {
    if n == 0 then Some(INIT)
    else if StateAt(s, n - 1).None? then None
    else Step(StateAt(s, n - 1).value, s[n - 1])
  }

  lemma {:induction false} AcceptsFrom(s: Units, n: nat)
    requires n <= |s|
    ensures Accepts(s, 0, INIT) <==> StateAt(s, n).Some? && Accepts(s, n, StateAt(s, n).value)
  {
    hide Step, Accepting;
    if n > 0 {
      AcceptsFrom(s, n - 1);
    }
  }

  lemma {:induction false} StateAtPrefix(s: Units, t: Units, n: nat)
    requires n <= |s| && n <= |t| && s[..n] == t[..n]
    ensures StateAt(s, n) == StateAt(t, n)
  {
    if n > 0 {
      assert s[..n - 1] == s[..n][..n - 1] == t[..n - 1];
      assert s[n - 1] == s[..n][n - 1] == t[n - 1];
      StateAtPrefix(s, t, n - 1);
    }
  }

  /** The stack and mode agree: only an open array can be at its first element, and so on. */
  predicate WellFormed(st: State) {
    match st.mode
    case ArrFirst => st.stack.Arr?
    case ObjFirst => st.stack.Obj?
    case BeforeKey => st.stack.Obj?
    case BeforeColon => st.stack.Obj?
    case InString(key) => key ==> st.stack.Obj?
    case InEscape(key) => key ==> st.stack.Obj?
    case InHex(key, n) => n > 0 && (key ==> st.stack.Obj?)
    case InWord(w) => w != []
    case _ => true
  }

  lemma AfterWellFormed(k: Stack, c: Unit)
    ensures StepAfter(k, c).Some? ==> WellFormed(StepAfter(k, c).value)
    ensures StepValue(k, c).Some? ==> WellFormed(StepValue(k, c).value)
  {
  }

  lemma NumberWellFormed(m: Mode, k: Stack, c: Unit)
    requires m.NumMinus? || m.NumZero? || m.NumInt? || m.NumPoint? || m.NumFrac? || m.NumMark? || m.NumSign? || m.NumExp?
    ensures StepNumber(m, k, c).Some? ==> WellFormed(StepNumber(m, k, c).value)
  {
    hide StepAfter;
    AfterWellFormed(k, c);
  }

  /** A step keeps the stack and mode in agreement. */
  lemma StepWellFormed(st: State, c: Unit)
    requires WellFormed(st) && Step(st, c).Some?
    ensures WellFormed(Step(st, c).value)
  {
    hide StepAfter, StepValue, StepNumber;
    AfterWellFormed(st.stack, c);
    if !SkipsWs(st.mode) && !st.mode.InString? && !st.mode.InEscape? && !st.mode.InHex? && !st.mode.InWord? {
      NumberWellFormed(st.mode, st.stack, c);
    }
  }

  lemma {:induction false} StateAtWellFormed(s: Units, n: nat)
    requires n <= |s| && StateAt(s, n).Some?
    ensures WellFormed(StateAt(s, n).value)
  {
    hide Step, WellFormed;
    if n > 0 {
      StateAtWellFormed(s, n - 1);
      StepWellFormed(StateAt(s, n - 1).value, s[n - 1]);
    } else {
      InitWellFormed();
    }
  }

  lemma InitWellFormed()
    ensures WellFormed(INIT)
  {
  }

  // Completing a prefix.

  function Closers(k: Stack): Units {
    match k
    case Bottom => []
    case Arr(r) => [RBRACK] + Closers(r)
    case Obj(r) => [RBRACE] + Closers(r)
  }

  /** Units that take a well-formed state to the end of the value it is in. */
  function Finish(m: Mode): Units {
    match m
    case BeforeValue => [ZERO]
    case ArrFirst => [ZERO]
    case ObjFirst => [QUOTE, QUOTE, COLON, ZERO]
    case BeforeKey => [QUOTE, QUOTE, COLON, ZERO]
    case BeforeColon => [COLON, ZERO]
    case InString(key) => FinishString(key)
    case InEscape(key) => [QUOTE] + FinishString(key)
    case InHex(key, n) => Zeros(n) + FinishString(key)
    case InWord(w) => w
    case NumMinus => [ZERO]
    case NumPoint => [ZERO]
    case NumMark => [ZERO]
    case NumSign => [ZERO]
    case _ => []
  }

  function FinishString(key: bool): Units { if key then [QUOTE, COLON, ZERO] else [QUOTE] }

  function Zeros(n: nat): Units { seq(n, _ => ZERO) }

  /** The machine run over `w`, from `st`. */
  function Run(st: State, w: Units): Option<State>
    decreases |w|
  {
    if w == [] then Some(st)
    else if Step(st, w[0]).None? then None
    else Run(Step(st, w[0]).value, w[1..])
  }

  lemma {:induction false} RunConcat(st: State, v: Units, w: Units)
    ensures Run(st, v + w) == if Run(st, v).None? then None else Run(Run(st, v).value, w)
    decreases |v|
  {
    if v == [] {
      assert v + w == w;
    } else {
      assert (v + w)[1..] == v[1..] + w;
      if Step(st, v[0]).Some? {
        RunConcat(Step(st, v[0]).value, v[1..], w);
      }
    }
  }

  /** `w` takes `st` to a complete value with the same containers open. */
  ghost predicate Finishes(st: State, w: Units) {
    Run(st, w).Some? && Run(st, w).value.stack == st.stack && IsFinal(Run(st, w).value.mode)
  }

  lemma RunOne(st: State, c: Unit, w: Units)
    ensures Run(st, [c] + w) == if Step(st, c).None? then None else Run(Step(st, c).value, w)
  {
    assert ([c] + w)[1..] == w;
  }

  lemma FinishString'(key: bool, k: Stack)
    requires key ==> k.Obj?
    ensures Finishes(State(InString(key), k), FinishString(key))
  {
    if key {
      RunOne(State(InString(true), k), QUOTE, [COLON, ZERO]);
      RunOne(State(BeforeColon, k), COLON, [ZERO]);
      RunOne(State(BeforeValue, k), ZERO, []);
      assert FinishString(true) == [QUOTE] + [COLON, ZERO] && [COLON, ZERO] == [COLON] + [ZERO];
    }
  }

  lemma {:induction false} FinishHex(n: nat, key: bool, k: Stack)
    requires n > 0 && (key ==> k.Obj?)
    ensures Finishes(State(InHex(key, n), k), Zeros(n) + FinishString(key))
  {
    assert Zeros(n) + FinishString(key) == [ZERO] + (Zeros(n - 1) + FinishString(key));
    RunOne(State(InHex(key, n), k), ZERO, Zeros(n - 1) + FinishString(key));
    if n == 1 {
      assert Zeros(0) + FinishString(key) == FinishString(key);
      FinishString'(key, k);
    } else {
      FinishHex(n - 1, key, k);
    }
  }

  lemma {:induction false} FinishWord(w: Units, k: Stack)
    requires w != []
    ensures Finishes(State(InWord(w), k), w)
  {
    assert w == [w[0]] + w[1..];
    RunOne(State(InWord(w), k), w[0], w[1..]);
    if |w| > 1 {
      FinishWord(w[1..], k);
    }
  }

  /** Every well-formed state can finish the value it is in. */
  lemma FinishRuns(st: State)
    requires WellFormed(st)
    ensures Finishes(st, Finish(st.mode))
  {
    var k := st.stack;
    match st.mode
    case BeforeColon =>
      RunOne(st, COLON, [ZERO]);
      assert [COLON] + [ZERO] == [COLON, ZERO];
    case InString(key) => FinishString'(key, k);
    case InEscape(key) =>
      RunOne(st, QUOTE, FinishString(key));
      FinishString'(key, k);
    case InHex(key, n) => FinishHex(n, key, k);
    case InWord(w) => FinishWord(w, k);
    case ObjFirst =>
      RunOne(st, QUOTE, FinishString(true));
      FinishString'(true, k);
      assert Finish(ObjFirst) == [QUOTE] + FinishString(true);
    case BeforeKey =>
      RunOne(st, QUOTE, FinishString(true));
      FinishString'(true, k);
      assert Finish(BeforeKey) == [QUOTE] + FinishString(true);
    case _ =>
      if Finish(st.mode) != [] {
        RunOne(st, ZERO, []);
      }
  }

  lemma {:induction false} CloseRuns(st: State)
    requires IsFinal(st.mode)
    ensures Run(st, Closers(st.stack)).Some? && Accepting(Run(st, Closers(st.stack)).value)
    decreases st.stack
  {
    if !st.stack.Bottom? {
      var c := if st.stack.Arr? then RBRACK else RBRACE;
      RunOne(st, c, Closers(st.stack.rest));
      CloseRuns(State(After, st.stack.rest));
    }
  }

  lemma {:induction false} RunAccepts(s: Units, i: int, st: State)
    requires 0 <= i <= |s|
    ensures Accepts(s, i, st) <==> Run(st, s[i..]).Some? && Accepting(Run(st, s[i..]).value)
    decreases |s| - i
  {
    if i < |s| {
      assert s[i..] == [s[i]] + s[i + 1..];
      RunOne(st, s[i], s[i + 1..]);
      if Step(st, s[i]).Some? {
        RunAccepts(s, i + 1, Step(st, s[i]).value);
      }
    }
  }

  /** A prefix on which the machine is alive begins some JSON text. */
  lemma AliveIsViable(s: Units, n: nat)
    requires n <= |s| && StateAt(s, n).Some?
    ensures Viable(s[..n])
  {
    var st := StateAt(s, n).value;
    StateAtWellFormed(s, n);
    FinishRuns(st);
    var done := Run(st, Finish(st.mode)).value;
    CloseRuns(done);
    RunConcat(st, Finish(st.mode), Closers(st.stack));
    var t := s[..n] + (Finish(st.mode) + Closers(st.stack));
    StateAtPrefix(s, t, n);
    assert t[n..] == Finish(st.mode) + Closers(st.stack);
    RunAccepts(t, n, st);
    AcceptsFrom(t, n);
    AcceptsJson(t);
  }

  /** A prefix on which the machine has died begins none. */
  lemma DeadIsNotViable(s: Units, n: nat)
    requires n <= |s| && StateAt(s, n).None?
    ensures !Viable(s[..n])
  {
    forall t: Units | s[..n] <= t
      ensures !IsJson(t)
    {
      StateAtPrefix(s, t, n);
      AcceptsFrom(t, n);
      AcceptsJson(t);
    }
  }

  /** The machine has taken `s[..pos]` and cannot go on: the next unit kills it, or the input ends too early. */
  predicate Stuck(s: Units, pos: int) {
    0 <= pos <= |s| && StateAt(s, pos).Some? &&
    if pos == |s| then !Accepting(StateAt(s, pos).value) else Step(StateAt(s, pos).value, s[pos]).None?
  }

  /** Where the machine is stuck is the earliest error of the input. */
  lemma StuckIsEarliest(s: Units, pos: int)
    requires Stuck(s, pos)
    ensures !IsJson(s) && Viable(s[..pos]) && (pos < |s| ==> !Viable(s[..pos + 1]))
  {
    AliveIsViable(s, pos);
    AcceptsFrom(s, pos);
    AcceptsJson(s);
    if pos < |s| {
      DeadIsNotViable(s, pos + 1);
    }
  }
}
