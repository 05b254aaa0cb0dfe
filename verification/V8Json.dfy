/**
 The recogniser that reports V8's JSON.parse errors (internal/features/v8json.go):
 a recursive-descent parser over UTF-16 code units with a mutable position.

 Each method is proved against the machine of `JsonMachine`: it takes the
 machine from one state to another, or stops where the machine is stuck.
 Message texts are reduced to the names of their templates; which one is
 reported depends on the machine's state and the unit it is stuck at.
 */
module V8Json {
  import opened JsonGrammar
  import opened JsonMachine
  import opened Wrappers

  datatype Token =
    | Illegal | EndOfString | StringToken | NumberToken | TrueToken | FalseToken | NullToken | Whitespace
    | ColonToken | CommaToken | LBrackToken | RBrackToken | LBraceToken | RBraceToken

  /** What can be wrong at a place, apart from the unit that stands there. */
  datatype Message =
    | PropNameOrRBrace | DoubleQuotedPropName | ColonAfterPropName | CommaOrRBrace | CommaOrRBrack
    | NonWhitespaceAfterJson | UnterminatedString | BadControlCharacter | BadEscapedCharacter | BadUnicodeEscape
    | NoNumberAfterMinus | UnterminatedFraction | ExponentMissingNumber | UnexpectedNumber | UnexpectedString

  datatype SyntaxError =
    | UnexpectedEnd
    | Positioned(msg: Message, pos: nat, line: nat, column: nat)
    | WholeSource(src: Units)
    | UnexpectedToken(token: Unit, dotsBefore: bool, context: Units, dotsAfter: bool)

  /** How much of a long source an UnexpectedToken error quotes on each side. */
  const CONTEXT := 10

  const NAN: Units := [0x4E, 0x61, 0x4E]
  const INFINITY: Units := [0x49, 0x6E, 0x66, 0x69, 0x6E, 0x69, 0x74, 0x79]
  const UNDEFINED: Units := [0x75, 0x6E, 0x64, 0x65, 0x66, 0x69, 0x6E, 0x65, 0x64]
  const OBJECT_OBJECT: Units :=
    [0x5B, 0x6F, 0x62, 0x6A, 0x65, 0x63, 0x74, 0x20, 0x4F, 0x62, 0x6A, 0x65, 0x63, 0x74, 0x5D]

  function TokenOf(c: Unit): Token {
    if c == QUOTE then StringToken
    else if c == MINUS || IsDigit(c) then NumberToken
    else if IsWs(c) then Whitespace
    else if c == TRUE[0] then TrueToken
    else if c == FALSE[0] then FalseToken
    else if c == NULL[0] then NullToken
    else if c == COLON then ColonToken
    else if c == COMMA then CommaToken
    else if c == LBRACK then LBrackToken
    else if c == RBRACK then RBrackToken
    else if c == LBRACE then LBraceToken
    else if c == RBRACE then RBraceToken
    else Illegal
  }

  function TokenAt(s: Units, i: nat): Token
    requires i <= |s|
  {
    if i == |s| then EndOfString else TokenOf(s[i])
  }

  // Lines and columns.

  const CR: Unit := 0x0D
  const LF: Unit := 0x0A

  /** The unit at `i` begins a line terminator; the LF of a CR LF does not. */
  predicate TerminatorAt(s: Units, i: nat)
    requires i < |s|
  {
    s[i] == CR || (s[i] == LF && (i == 0 || s[i - 1] != CR))
  }

  /** The line terminators that begin before `n`. */
  function Terminators(s: Units, n: nat): nat
    requires n <= |s|
  {
    if n == 0 then 0 else Terminators(s, n - 1) + if TerminatorAt(s, n - 1) then 1 else 0
  }

  /** The line `[start..n]` holds no terminator, and one ends right before it unless it is the first. */
  predicate LineStart(s: Units, start: nat, n: nat)
    requires start <= n <= |s|
  {
    (forall i :: start <= i < n ==> s[i] != CR && s[i] != LF) && (start > 0 ==> s[start - 1] == CR || s[start - 1] == LF)
  }

  // What an error says about the position it was reported at.

  /** Texts V8 quotes as a whole, whatever their length and wherever the error is. */
  predicate IsSpecial(s: Units) { s == NAN || s == INFINITY || s == UNDEFINED || s == OBJECT_OBJECT }

  /** Where the quoted context begins. */
  function ContextFrom(s: Units, pos: nat): nat {
    if |s| <= 2 * CONTEXT || pos < CONTEXT then 0 else pos - CONTEXT
  }

  /** Where the quoted context ends. */
  function ContextTo(s: Units, pos: nat): nat {
    if |s| <= 2 * CONTEXT || pos + CONTEXT > |s| then |s| else pos + CONTEXT
  }

  predicate Describes(s: Units, pos: nat, e: SyntaxError)
    requires pos <= |s|
  {
    match e
    case UnexpectedEnd => pos == |s|
    case Positioned(_, p, line, column) =>
      p == pos && line == 1 + Terminators(s, pos) && 1 <= column <= pos + 1 && LineStart(s, pos + 1 - column, pos)
    case WholeSource(src) => src == s && pos < |s| && IsSpecial(s)
    case UnexpectedToken(token, dotsBefore, context, dotsAfter) =>
      pos < |s| && !IsSpecial(s) && token == s[pos] && context == s[ContextFrom(s, pos)..ContextTo(s, pos)] &&
      (dotsBefore <==> |s| > 2 * CONTEXT && pos >= CONTEXT) && (dotsAfter <==> ContextTo(s, pos) < |s|)
  }

  // Which error is reported.

  /** The message for a value that is followed by what cannot follow it. */
  function CloseMessage(k: Stack): Message {
    match k
    case Bottom => NonWhitespaceAfterJson
    case Arr(_) => CommaOrRBrack
    case Obj(_) => CommaOrRBrace
  }

  /** The message for the state `st` stuck at `pos`; none if the token there has its own. */
  function Blame(st: State, s: Units, pos: nat): Option<Message>
    requires pos <= |s|
  {
    match st.mode
    case BeforeValue => None
    case ArrFirst => None
    case InWord(_) => None
    case ObjFirst => Some(PropNameOrRBrace)
    case BeforeKey => Some(DoubleQuotedPropName)
    case BeforeColon => Some(ColonAfterPropName)
    case InString(_) => Some(if pos == |s| then UnterminatedString else BadControlCharacter)
    case InEscape(_) => if pos == |s| || s[pos] > 0xFF then None else Some(BadEscapedCharacter)
    case InHex(_, _) => Some(BadUnicodeEscape)
    case NumMinus => Some(NoNumberAfterMinus)
    case NumPoint => Some(UnterminatedFraction)
    case NumMark => Some(ExponentMissingNumber)
    case NumSign => Some(ExponentMissingNumber)
    case NumZero => if pos < |s| && IsDigit(s[pos]) then None else Some(CloseMessage(st.stack))
    case After => Some(CloseMessage(st.stack))
    case NumInt => Some(CloseMessage(st.stack))
    case NumFrac => Some(CloseMessage(st.stack))
    case NumExp => Some(CloseMessage(st.stack))
  }

  /** The error `e` has the message `m`, or without one that of the token at `pos`. */
  predicate Names(s: Units, pos: nat, m: Option<Message>, e: SyntaxError)
    requires pos <= |s|
  {
    if m.Some? then e.Positioned? && e.msg == m.value
    else
      match TokenAt(s, pos)
      case EndOfString => e.UnexpectedEnd?
      case NumberToken => e.Positioned? && e.msg == UnexpectedNumber
      case StringToken => e.Positioned? && e.msg == UnexpectedString
      case _ => e.WholeSource? || e.UnexpectedToken?
  }

  /** The message for the place where the machine is stuck. */
  ghost function Blamed(s: Units, pos: nat): Option<Message>
    requires pos <= |s| && StateAt(s, pos).Some?
  {
    Blame(StateAt(s, pos).value, s, pos)
  }

  /** The error for a text that is no JSON: where the machine is stuck, with the message for its state. */
  ghost predicate IsErrorOf(s: Units, pos: nat, e: SyntaxError) {
    pos <= |s| && Stuck(s, pos) && Describes(s, pos, e) && Names(s, pos, Blamed(s, pos), e)
  }

  lemma LineStartIsUnique(s: Units, m: nat, n: nat, pos: nat)
    requires m <= pos <= |s| && n <= pos && LineStart(s, m, pos) && LineStart(s, n, pos)
    ensures m == n
  {
  }

  lemma {:induction false} StuckDies(s: Units, p: nat, q: nat)
    requires Stuck(s, p) && p < q <= |s|
    ensures StateAt(s, q).None?
  {
    if p + 1 < q { StuckDies(s, p, q - 1); }
  }

  /** A text has no more than one error. */
  lemma ErrorIsUnique(s: Units, p: nat, e: SyntaxError, p': nat, e': SyntaxError)
    requires IsErrorOf(s, p, e) && IsErrorOf(s, p', e')
    ensures p == p' && e == e'
  {
    hide StateAt, Step, Blame;
    if p < p' { StuckDies(s, p, p'); }
    if p' < p { StuckDies(s, p', p); }
    if e.Positioned? && e'.Positioned? {
      LineStartIsUnique(s, p + 1 - e.column, p + 1 - e'.column, p);
    }
  }

  // Where the machine stands when a method of the parser is called.

  /** A value with the stack `k` comes next. */
  ghost predicate ValueNext(s: Units, i: nat, k: Stack) {
    i <= |s| && StateAt(s, i).Some? &&
    var st := StateAt(s, i).value;
    st.stack == k &&
    (st.mode.BeforeValue? || (st.mode.ArrFirst? && k.Arr? && (i < |s| ==> !IsWs(s[i]) && s[i] != RBRACK)))
  }

  /** A property key of the object on top of `k` comes next. */
  ghost predicate KeyNext(s: Units, i: nat, k: Stack) {
    i <= |s| && StateAt(s, i).Some? &&
    var st := StateAt(s, i).value;
    st.stack == k &&
    (st.mode.BeforeKey? || (st.mode.ObjFirst? && (i < |s| ==> !IsWs(s[i]) && s[i] != RBRACE)))
  }

  /** A value has ended: the machine goes on as it does after one. */
  ghost predicate ValueDone(s: Units, i: nat, k: Stack) {
    i <= |s| && StateAt(s, i).Some? &&
    var st := StateAt(s, i).value;
    st.stack == k && IsFinal(st.mode) && (i < |s| ==> Step(st, s[i]) == StepAfter(k, s[i])) &&
    (st.mode.NumZero? && i < |s| ==> !IsDigit(s[i]))
  }

  lemma {:induction false} SkipDone(s: Units, i: nat, e: nat, k: Stack)
    requires ValueDone(s, i, k) && Ws(s, i, e)
    ensures ValueDone(s, e, k)
    decreases e - i
  {
    hide ValueDone;
    if i < e {
      DoneStep(s, i, k);
      SkipDone(s, i + 1, e, k);
    }
  }

  lemma DoneStep(s: Units, i: nat, k: Stack)
    requires i < |s| && ValueDone(s, i, k) && IsWs(s[i])
    ensures ValueDone(s, i + 1, k)
  {
    var st := StateAt(s, i).value;
    assert StateAt(s, i + 1) == Step(st, s[i]) == StepAfter(k, s[i]) == Some(State(After, k));
    hide StateAt;
  }

  lemma {:induction false} SkipMode(s: Units, i: nat, e: nat, st: State)
    requires Ws(s, i, e) && StateAt(s, i) == Some(st) && SkipsWs(st.mode)
    ensures StateAt(s, e) == Some(st)
    decreases e - i
  {
    if i < e {
      SkipMode(s, i + 1, e, st);
    }
  }

  // The steps of the machine, one lemma for each place where the parser takes one.

  lemma StepFrom(s: Units, i: nat, st: State)
    requires i <= |s| && StateAt(s, i) == Some(st)
    ensures Blamed(s, i) == Blame(st, s, i)
    ensures i < |s| ==> StateAt(s, i + 1) == Step(st, s[i])
    ensures i < |s| && Step(st, s[i]).None? ==> Stuck(s, i)
    ensures i == |s| && !Accepting(st) ==> Stuck(s, i)
  {
  }

  lemma ValueStep(s: Units, i: nat, k: Stack)
    requires ValueNext(s, i, k) && (i < |s| ==> !IsWs(s[i]))
    ensures i < |s| ==> StateAt(s, i + 1) == StepValue(k, s[i])
    ensures i == |s| || StepValue(k, s[i]).None? ==> Stuck(s, i) && Blamed(s, i).None?
  {
  }

  /** The message for a missing key. */
  function KeyMessage(m: Mode): Message { if m.ObjFirst? then PropNameOrRBrace else DoubleQuotedPropName }

  lemma KeyStep(s: Units, i: nat, k: Stack)
    requires KeyNext(s, i, k) && (i < |s| ==> !IsWs(s[i]))
    ensures i < |s| && s[i] == QUOTE ==> StateAt(s, i + 1) == Some(State(InString(true), k))
    ensures i == |s| || s[i] != QUOTE ==> Stuck(s, i) && Blamed(s, i) == Some(KeyMessage(StateAt(s, i).value.mode))
  {
  }

  lemma ColonStep(s: Units, i: nat, k: Stack)
    requires i <= |s| && StateAt(s, i) == Some(State(BeforeColon, k)) && (i < |s| ==> !IsWs(s[i]))
    ensures i < |s| && s[i] == COLON ==> StateAt(s, i + 1) == Some(State(BeforeValue, k))
    ensures i == |s| || s[i] != COLON ==> Stuck(s, i) && Blamed(s, i) == Some(ColonAfterPropName)
  {
  }

  lemma EmptyStep(s: Units, i: nat, k: Stack)
    requires i < |s| && !k.Bottom? && StateAt(s, i) == Some(State(if k.Arr? then ArrFirst else ObjFirst, k))
    requires s[i] == if k.Arr? then RBRACK else RBRACE
    ensures ValueDone(s, i + 1, k.rest)
  {
  }

  lemma FinalStep(s: Units, i: nat, k: Stack)
    requires i <= |s| && StateAt(s, i) == Some(State(After, k))
    ensures ValueDone(s, i, k)
  {
  }

  lemma CommaStep(s: Units, i: nat, k: Stack)
    requires ValueDone(s, i, k) && i < |s| && s[i] == COMMA && !k.Bottom?
    ensures StateAt(s, i + 1) == Some(State(if k.Arr? then BeforeValue else BeforeKey, k))
  {
  }

  /** After a value neither a comma nor the closing character follows: the machine is stuck. */
  lemma CloseStep(s: Units, i: nat, k: Stack)
    requires ValueDone(s, i, k) && !k.Bottom?
    ensures i < |s| && s[i] == (if k.Arr? then RBRACK else RBRACE) ==> ValueDone(s, i + 1, k.rest)
    ensures i < |s| && s[i] != (if k.Arr? then RBRACK else RBRACE) && s[i] != COMMA && !IsWs(s[i]) ==> Stuck(s, i)
    ensures i == |s| ==> Stuck(s, i)
    ensures Blamed(s, i) == Some(CloseMessage(k))
  {
  }

  /** After the whole value only the end may follow. */
  lemma EndStep(s: Units, i: nat)
    requires ValueDone(s, i, Bottom) && (i < |s| ==> !IsWs(s[i]))
    ensures if i == |s| then StateAt(s, i).Some? && Accepting(StateAt(s, i).value)
            else Stuck(s, i) && Blamed(s, i) == Some(NonWhitespaceAfterJson)
  {
  }

  lemma FirstStep(s: Units)
    ensures ValueNext(s, 0, Bottom)
  {
  }

  /** In the middle of a number: `m` needs another unit. */
  lemma OpenNumberStep(s: Units, i: nat, m: Mode, k: Stack)
    requires i <= |s| && StateAt(s, i) == Some(State(m, k)) && (m.NumMinus? || m.NumPoint? || m.NumMark? || m.NumSign?)
    ensures i < |s| && m.NumMinus? && s[i] == ZERO ==> StateAt(s, i + 1) == Some(State(NumZero, k))
    ensures i < |s| && m.NumMinus? && IsDigit19(s[i]) ==> StateAt(s, i + 1) == Some(State(NumInt, k))
    ensures i < |s| && m.NumPoint? && IsDigit(s[i]) ==> StateAt(s, i + 1) == Some(State(NumFrac, k))
    ensures i < |s| && m.NumMark? && IsSign(s[i]) ==> StateAt(s, i + 1) == Some(State(NumSign, k))
    ensures i < |s| && (m.NumMark? || m.NumSign?) && IsDigit(s[i]) ==> StateAt(s, i + 1) == Some(State(NumExp, k))
    ensures i == |s| || !(IsDigit(s[i]) || (m.NumMark? && IsSign(s[i]))) ==> Stuck(s, i)
    ensures Blamed(s, i) == Some(if m.NumMinus? then NoNumberAfterMinus
                                 else if m.NumPoint? then UnterminatedFraction else ExponentMissingNumber)
  {
  }

  /** At a possible end of a number: `m` may take another unit, or the value is done. */
  lemma FinalNumberStep(s: Units, i: nat, m: Mode, k: Stack)
    requires i <= |s| && StateAt(s, i) == Some(State(m, k)) && (m.NumZero? || m.NumInt? || m.NumFrac? || m.NumExp?)
    ensures i < |s| && IsDigit(s[i]) && m.NumZero? ==> Blamed(s, i).None?
    ensures i < |s| && IsDigit(s[i]) ==> if m.NumZero? then Stuck(s, i) else StateAt(s, i + 1) == Some(State(m, k))
    ensures i < |s| && s[i] == POINT && (m.NumZero? || m.NumInt?) ==> StateAt(s, i + 1) == Some(State(NumPoint, k))
    ensures i < |s| && IsExpMark(s[i]) && !m.NumExp? ==> StateAt(s, i + 1) == Some(State(NumMark, k))
    ensures i < |s| ==> IsDigit(s[i]) || (s[i] == POINT && (m.NumZero? || m.NumInt?)) ||
                        (IsExpMark(s[i]) && !m.NumExp?) || ValueDone(s, i, k)
    ensures i == |s| ==> ValueDone(s, i, k)
  {
  }

  class V8Parser {
    const s: Units
    var pos: nat
    var err: Option<SyntaxError>

    constructor (src: Units)
      ensures s == src && pos == 0 && err.None?
    {
      s := src;
      pos := 0;
      err := None;
    }

    /** The parser has reported the error of the text. */
    ghost predicate Reported()
      reads this
    {
      err.Some? && IsErrorOf(s, pos, err.value)
    }

    /** Skips whitespace and returns the token the next unit starts. */
    method Peek() returns (t: Token)
      requires pos <= |s|
      modifies this`pos
      ensures Ws(s, old(pos), pos) && t == TokenAt(s, pos) && t != Whitespace
    {
      while pos < |s|
        invariant old(pos) <= pos && Ws(s, old(pos), pos)
      {
        t := TokenOf(s[pos]);
        if t != Whitespace { return; }
        pos := pos + 1;
      }
      t := EndOfString;
    }

    /** Whether `t` comes next; if so, the position moves behind it. */
    method Check(t: Token) returns (ok: bool)
      requires pos <= |s| && t != Whitespace
      modifies this`pos
      ensures ok ==> pos > 0 && Ws(s, old(pos), pos - 1) && TokenAt(s, pos - 1) == t
      ensures !ok ==> Ws(s, old(pos), pos) && TokenAt(s, pos) != t && (pos < |s| ==> !IsWs(s[pos]))
    {
      var next := Peek();
      ok := next == t;
      if ok { pos := pos + 1; }
    }

    /** Moves behind a `t`; where something else comes next, that is the error, with the message `msg`. */
    method Expect(t: Token, msg: Message) returns (ok: bool)
      requires pos <= |s| && t != Whitespace && t != EndOfString
      modifies this
      ensures ok ==> 0 < pos <= |s| && Ws(s, old(pos), pos - 1) && TokenOf(s[pos - 1]) == t && err == old(err)
      ensures !ok ==> Ws(s, old(pos), pos) && TokenAt(s, pos) != t && (pos < |s| ==> !IsWs(s[pos]))
      ensures !ok ==> err.Some? && Describes(s, pos, err.value) && Names(s, pos, Some(msg), err.value)
    {
      hide StateAt, Step, Describes, IsErrorOf;
      ok := Check(t);
      if !ok {
        var next := Peek();
        Report(next, Some(msg));
      }
    }

    /** Parses one JSON value. */
    method Value(ghost k: Stack) returns (ok: bool)
      requires ValueNext(s, pos, k)
      modifies this
      ensures ok ==> old(pos) < pos <= |s| && ValueDone(s, pos, k) && err == old(err)
      ensures !ok ==> Reported()
      decreases |s| - pos, 0
    {
      hide StateAt, Step, Stuck, ValueDone, Describes, Names, Blamed;
      ghost var start := StateAt(s, pos).value;
      var t := Peek();
      SkipMode(s, old(pos), pos, start);
      ValueStep(s, pos, k);
      if t == StringToken {
        pos := pos + 1;
        ok := ScanString(false, k);
        if ok { FinalStep(s, pos, k); }
      } else if t == NumberToken {
        ok := Number(k);
      } else if t == LBraceToken {
        pos := pos + 1;
        ok := ObjectBody(k);
      } else if t == LBrackToken {
        pos := pos + 1;
        ok := ArrayBody(k);
      } else if t == TrueToken {
        ok := Literal(TRUE, k);
      } else if t == FalseToken {
        ok := Literal(FALSE, k);
      } else if t == NullToken {
        ok := Literal(NULL, k);
      } else {
        ReportUnexpectedCharacter();
        ok := false;
      }
    }

    /** The object of `Value`, from just after its opening brace. */
    method ObjectBody(ghost k: Stack) returns (ok: bool)
      requires 0 < pos <= |s| && StateAt(s, pos) == Some(State(ObjFirst, Obj(k)))
      modifies this
      ensures ok ==> old(pos) < pos <= |s| && ValueDone(s, pos, k) && err == old(err)
      ensures !ok ==> Reported()
      decreases |s| - pos, 1
    {
      hide StateAt, Step, Stuck, ValueDone, Describes, Names, Blamed;
      var empty := Check(RBraceToken);
      if empty {
        SkipMode(s, old(pos), pos - 1, State(ObjFirst, Obj(k)));
        EmptyStep(s, pos - 1, Obj(k));
        return true;
      }
      SkipMode(s, old(pos), pos, State(ObjFirst, Obj(k)));
      ok := Property(PropNameOrRBrace, Obj(k));
      if !ok { return; }
      while true
        invariant old(pos) < pos && err == old(err) && ValueNext(s, pos, Obj(k))
        decreases |s| - pos
      {
        ok := Value(Obj(k));
        if !ok { return; }
        ghost var done := pos;
        var comma := Check(CommaToken);
        if !comma {
          SkipDone(s, done, pos, Obj(k));
          ok := Close(RBraceToken, CommaOrRBrace, Obj(k));
          return;
        }
        SkipDone(s, done, pos - 1, Obj(k));
        CommaStep(s, pos - 1, Obj(k));
        ok := Property(DoubleQuotedPropName, Obj(k));
        if !ok { return; }
      }
    }

    /** The array of `Value`, from just after its opening bracket. */
    method ArrayBody(ghost k: Stack) returns (ok: bool)
      requires 0 < pos <= |s| && StateAt(s, pos) == Some(State(ArrFirst, Arr(k)))
      modifies this
      ensures ok ==> old(pos) < pos <= |s| && ValueDone(s, pos, k) && err == old(err)
      ensures !ok ==> Reported()
      decreases |s| - pos, 1
    {
      hide StateAt, Step, Stuck, ValueDone, Describes, Names, Blamed;
      var empty := Check(RBrackToken);
      if empty {
        SkipMode(s, old(pos), pos - 1, State(ArrFirst, Arr(k)));
        EmptyStep(s, pos - 1, Arr(k));
        return true;
      }
      SkipMode(s, old(pos), pos, State(ArrFirst, Arr(k)));
      while true
        invariant old(pos) <= pos && err == old(err) && ValueNext(s, pos, Arr(k))
        decreases |s| - pos
      {
        ok := Value(Arr(k));
        if !ok { return; }
        ghost var done := pos;
        var comma := Check(CommaToken);
        if !comma {
          SkipDone(s, done, pos, Arr(k));
          ok := Close(RBrackToken, CommaOrRBrack, Arr(k));
          return;
        }
        SkipDone(s, done, pos - 1, Arr(k));
        CommaStep(s, pos - 1, Arr(k));
      }
    }

    /** The closing character of an array or object, where no comma follows a value. */
    method Close(t: Token, msg: Message, ghost k: Stack) returns (ok: bool)
      requires !k.Bottom? && msg == CloseMessage(k) && t == if k.Arr? then RBrackToken else RBraceToken
      requires ValueDone(s, pos, k) && pos <= |s| && (pos < |s| ==> !IsWs(s[pos]) && s[pos] != COMMA)
      modifies this
      ensures ok ==> old(pos) < pos <= |s| && ValueDone(s, pos, k.rest) && err == old(err)
      ensures !ok ==> Reported()
    {
      hide StateAt, Step, Stuck, ValueDone, Describes, Names, Blamed;
      ok := Expect(t, msg);
      SkipDone(s, old(pos), if ok then pos - 1 else pos, k);
      CloseStep(s, if ok then pos - 1 else pos, k);
    }

    /** Parses a property key and its colon. */
    method Property(missing: Message, ghost k: Stack) returns (ok: bool)
      requires k.Obj? && KeyNext(s, pos, k) && missing == KeyMessage(StateAt(s, pos).value.mode)
      modifies this
      ensures ok ==> old(pos) < pos <= |s| && StateAt(s, pos) == Some(State(BeforeValue, k)) && err == old(err)
      ensures !ok ==> Reported()
    {
      hide StateAt, Step, Stuck, ValueDone, Describes, Names, Blamed;
      ghost var start := StateAt(s, pos).value;
      ok := Expect(StringToken, missing);
      SkipMode(s, old(pos), if ok then pos - 1 else pos, start);
      KeyStep(s, if ok then pos - 1 else pos, k);
      if !ok { return; }
      ok := ScanString(true, k);
      if !ok { return; }
      ghost var at := pos;
      ok := Expect(ColonToken, ColonAfterPropName);
      SkipMode(s, at, if ok then pos - 1 else pos, State(BeforeColon, k));
      ColonStep(s, if ok then pos - 1 else pos, k);
    }

    /** Scans the word whose first unit is at `pos`. */
    method Literal(word: Units, ghost k: Stack) returns (ok: bool)
      requires |word| > 1 && pos < |s| && StateAt(s, pos + 1) == Some(State(InWord(word[1..]), k))
      modifies this
      ensures ok ==> old(pos) < pos <= |s| && ValueDone(s, pos, k) && err == old(err)
      ensures !ok ==> Reported()
    {
      hide StateAt, Stuck, ValueDone, Describes, Names, Blamed;
      var i := 1;
      while i < |word|
        invariant 1 <= i <= |word| && pos == old(pos) + i - 1 && pos < |s| && err == old(err)
        invariant StateAt(s, pos + 1) == Some(State(if i == |word| then After else InWord(word[i..]), k))
      {
        pos := pos + 1;
        StepFrom(s, pos, State(InWord(word[i..]), k));
        if pos == |s| {
          Report(EndOfString, None);
          return false;
        }
        if s[pos] != word[i] {
          ReportUnexpectedCharacter();
          return false;
        }
        assert word[i..][1..] == word[i + 1..];
        i := i + 1;
      }
      pos := pos + 1;
      FinalStep(s, pos, k);
      ok := true;
    }

    /** Scans a string from just after its opening quote. */
    method ScanString(ghost key: bool, ghost k: Stack) returns (ok: bool)
      requires pos <= |s| && StateAt(s, pos) == Some(State(InString(key), k))
      modifies this
      ensures ok ==> old(pos) < pos <= |s| && err == old(err)
      ensures ok ==> StateAt(s, pos) == Some(State(if key then BeforeColon else After, k))
      ensures !ok ==> Reported()
    {
      hide StateAt, Stuck, Describes, Names, Blamed;
      while pos < |s|
        invariant old(pos) <= pos <= |s| && err == old(err)
        invariant StateAt(s, pos) == Some(State(InString(key), k))
      {
        StepFrom(s, pos, State(InString(key), k));
        var c := s[pos];
        if c == QUOTE {
          pos := pos + 1;
          return true;
        } else if c == BACKSLASH {
          ok := Escape(key, k);
          if !ok { return; }
        } else if c < 0x20 {
          Report(Illegal, Some(BadControlCharacter));
          return false;
        }
        pos := pos + 1;
      }
      StepFrom(s, pos, State(InString(key), k));
      Report(Illegal, Some(UnterminatedString));
      ok := false;
    }

    /** The four hex digits after the `u` at `pos`. */
    method UnicodeEscape(ghost key: bool, ghost k: Stack) returns (ok: bool)
      requires pos < |s| && StateAt(s, pos + 1) == Some(State(InHex(key, 4), k))
      modifies this
      ensures ok ==> old(pos) < pos < |s| && err == old(err) && StateAt(s, pos + 1) == Some(State(InString(key), k))
      ensures !ok ==> Reported()
    {
      hide StateAt, Stuck, Describes, Names, Blamed;
      ghost var start := pos;
      for i := 0 to 4
        invariant pos == start + i && pos < |s| && err == old(err)
        invariant StateAt(s, pos + 1) == Some(State(if i == 4 then InString(key) else InHex(key, 4 - i), k))
      {
        pos := pos + 1;
        StepFrom(s, pos, State(InHex(key, 4 - i), k));
        if pos == |s| || !IsHexDigit(s[pos]) {
          Report(Illegal, Some(BadUnicodeEscape));
          return false;
        }
      }
      ok := true;
    }

    /** From a backslash to the end of what it escapes, on whose final unit the position stops. */
    method Escape(ghost key: bool, ghost k: Stack) returns (ok: bool)
      requires pos < |s| && s[pos] == BACKSLASH && StateAt(s, pos) == Some(State(InString(key), k))
      modifies this
      ensures ok ==> old(pos) < pos < |s| && err == old(err) && StateAt(s, pos + 1) == Some(State(InString(key), k))
      ensures !ok ==> Reported()
    {
      hide StateAt, Stuck, Describes, Names, Blamed;
      StepFrom(s, pos, State(InString(key), k));
      pos := pos + 1;
      StepFrom(s, pos, State(InEscape(key), k));
      if pos == |s| || s[pos] > 0xFF {
        ReportUnexpectedCharacter();
        return false;
      }
      if IsSimpleEscape(s[pos]) {
        return true;
      }
      if s[pos] == LOWER_U {
        ok := UnicodeEscape(key, k);
        return;
      }
      Report(Illegal, Some(BadEscapedCharacter));
      ok := false;
    }

    method Number(ghost k: Stack) returns (ok: bool)
      requires ValueNext(s, pos, k) && pos < |s| && (s[pos] == MINUS || IsDigit(s[pos]))
      modifies this
      ensures ok ==> old(pos) < pos <= |s| && ValueDone(s, pos, k) && err == old(err)
      ensures !ok ==> Reported()
    {
      hide StateAt, Step, Stuck, ValueDone, Describes, Names, Blamed;
      ghost var m;
      ok, m := Integer(k);
      if !ok { return; }
      FinalNumberStep(s, pos, m, k);
      if At(POINT) {
        pos := pos + 1;
        OpenNumberStep(s, pos, NumPoint, k);
        m := NumFrac;
        var some := DigitRun(m, k);
        if !some {
          Report(Illegal, Some(UnterminatedFraction));
          return false;
        }
        FinalNumberStep(s, pos, m, k);
      }
      if At(0x65) || At(0x45) {
        ok := Exponent(k);
      }
    }

    /** The sign and integer part of `Number`, which end in the mode `m`. */
    method Integer(ghost k: Stack) returns (ok: bool, ghost m: Mode)
      requires ValueNext(s, pos, k) && pos < |s| && (s[pos] == MINUS || IsDigit(s[pos]))
      modifies this
      ensures ok ==> old(pos) < pos <= |s| && err == old(err) && !DigitNext()
      ensures ok ==> (m.NumZero? || m.NumInt?) && StateAt(s, pos) == Some(State(m, k))
      ensures !ok ==> Reported()
    {
      hide StateAt, Step, Stuck, ValueDone, Describes, Names, Blamed;
      ok, m := true, NumZero;
      ValueStep(s, pos, k);
      if s[pos] == MINUS {
        pos := pos + 1;
        OpenNumberStep(s, pos, NumMinus, k);
      }
      if At(ZERO) {
        pos := pos + 1;
        FinalNumberStep(s, pos, m, k);
        if DigitNext() {
          Report(NumberToken, None);
          ok := false;
        }
      } else {
        m := NumInt;
        ok := DigitRun(m, k);
        if !ok {
          Report(Illegal, Some(NoNumberAfterMinus));
        }
      }
    }

    /** The exponent of `Number`, from its mark. */
    method Exponent(ghost k: Stack) returns (ok: bool)
      requires pos < |s| && StateAt(s, pos + 1) == Some(State(NumMark, k))
      modifies this
      ensures ok ==> old(pos) < pos <= |s| && ValueDone(s, pos, k) && err == old(err)
      ensures !ok ==> Reported()
    {
      hide StateAt, Step, Stuck, ValueDone, Describes, Names, Blamed;
      pos := pos + 1;
      OpenNumberStep(s, pos, NumMark, k);
      if At(MINUS) || At(PLUS) {
        pos := pos + 1;
        OpenNumberStep(s, pos, NumSign, k);
      }
      ok := DigitRun(NumExp, k);
      if !ok {
        Report(Illegal, Some(ExponentMissingNumber));
        return;
      }
      FinalNumberStep(s, pos, NumExp, k);
    }

    predicate At(c: Unit)
      reads this
    {
      pos < |s| && s[pos] == c
    }

    predicate DigitNext()
      reads this
    {
      pos < |s| && IsDigit(s[pos])
    }

    /**
     Consumes a run of digits and says whether there was one. The first digit
     must take the machine to `m`, a mode that the others leave it in.
     */
    method DigitRun(ghost m: Mode, ghost k: Stack) returns (some: bool)
      requires pos <= |s| && (m.NumInt? || m.NumFrac? || m.NumExp?)
      requires DigitNext() ==> StateAt(s, pos + 1) == Some(State(m, k))
      modifies this`pos
      ensures old(pos) <= pos <= |s| && !DigitNext() && (some <==> pos > old(pos))
      ensures some ==> StateAt(s, pos) == Some(State(m, k))
    {
      hide StateAt, Step, Stuck, ValueDone, Describes, Names, Blamed;
      var start := pos;
      while DigitNext()
        invariant start <= pos <= |s|
        invariant pos > start ==> StateAt(s, pos) == Some(State(m, k))
        decreases |s| - pos
      {
        if pos > start { FinalNumberStep(s, pos, m, k); }
        pos := pos + 1;
      }
      some := pos > start;
    }

    /** Reports the unit at `pos` by the token it starts. */
    method ReportUnexpectedCharacter()
      requires pos <= |s|
      modifies this`err
      ensures err.Some? && Describes(s, pos, err.value) && Names(s, pos, None, err.value)
    {
      if pos == |s| {
        Report(EndOfString, None);
      } else {
        Report(TokenOf(s[pos]), None);
      }
    }

    /** Reports `msg`, or without one the token's own message. */
    method Report(t: Token, msg: Option<Message>)
      requires pos <= |s|
      requires msg.None? ==> t == TokenAt(s, pos)
      modifies this`err
      ensures err.Some? && Describes(s, pos, err.value) && Names(s, pos, msg, err.value)
    {
      var m: Message;
      if msg.None? && t == EndOfString {
        err := Some(UnexpectedEnd);
        return;
      } else if msg.None? && t == NumberToken {
        m := UnexpectedNumber;
      } else if msg.None? && t == StringToken {
        m := UnexpectedString;
      } else if msg.None? {
        err := Some(UnexpectedTokenAt());
        return;
      } else {
        m := msg.value;
      }
      var line, column := Location();
      err := Some(Positioned(m, pos, line, column));
    }

    /** The error for an unexpected character, quoting the source or, of a long one, the context. */
    function UnexpectedTokenAt(): (e: SyntaxError)
      requires pos < |s|
      reads this
      ensures Describes(s, pos, e) && (e.WholeSource? || e.UnexpectedToken?)
    {
      var n := |s|;
      var token := s[pos];
      if IsSpecial(s) then WholeSource(s)
      else if n < 2 * CONTEXT + 1 then
        assert s == s[0..n];
        UnexpectedToken(token, false, s, false)
      else if pos < CONTEXT then UnexpectedToken(token, false, s[0..pos + CONTEXT], true)
      else if pos < n - CONTEXT then UnexpectedToken(token, true, s[pos - CONTEXT..pos + CONTEXT], true)
      else UnexpectedToken(token, true, s[pos - CONTEXT..n], false)
    }

    /** The 1-based line and column of `pos`, with CR LF, CR and LF each ending a line. */
    method Location() returns (line: nat, column: nat)
      requires pos <= |s|
      ensures line == 1 + Terminators(s, pos)
      ensures 1 <= column <= pos + 1 && LineStart(s, pos + 1 - column, pos)
    {
      line := 1;
      var lineStart := 0;
      for i := 0 to pos
        invariant line == 1 + Terminators(s, i) && lineStart <= i && LineStart(s, lineStart, i)
      {
        if s[i] == CR {
          line, lineStart := line + 1, i + 1;
        } else if s[i] == LF {
          if i == 0 || s[i - 1] != CR {
            line := line + 1;
          }
          lineStart := i + 1;
        }
      }
      column := pos - lineStart + 1;
    }
  }

  /**
   The error JSON.parse(src) throws, if any, and the parser's final position.
   No error means that `src` is a JSON text; otherwise `pos` is the length of
   the longest prefix of `src` that some JSON text begins with, and the error is
   the one for the state that prefix leads to and the unit that follows it.
   */
  method SyntaxErrorOf(src: Units) returns (err: Option<SyntaxError>, pos: nat)
    ensures err.None? <==> IsJson(src)
    ensures err.Some? ==> pos <= |src| && Viable(src[..pos]) && (pos < |src| ==> !Viable(src[..pos + 1]))
    ensures err.Some? ==> IsErrorOf(src, pos, err.value)
  {
    hide StateAt, Step, Stuck, ValueNext, ValueDone, Describes, Names, Blamed;
    FirstStep(src);
    var p := new V8Parser(src);
    var ok := p.Value(Bottom);
    if ok {
      ghost var done := p.pos;
      var end := p.Check(EndOfString);
      ghost var at := if end then p.pos - 1 else p.pos;
      SkipDone(src, done, at, Bottom);
      EndStep(src, at);
      if end {
        AcceptsFrom(src, |src|);
        AcceptsJson(src);
      } else {
        var t := p.Peek();
        p.Report(t, Some(NonWhitespaceAfterJson));
      }
    }
    if p.err.Some? {
      StuckIsEarliest(src, p.pos);
    }
    err, pos := p.err, p.pos;
  }
}
