/**
 What the messages of V8's JSON.parse errors say (internal/features/v8json.go):
 each is given exactly where certain units could have come next.
 */
module V8Messages {
  import opened JsonGrammar
  import opened JsonMachine
  import opened V8Json
  import opened Wrappers

  /** Some JSON text goes on with the unit `c` here. */
  ghost predicate Next(s: Units, pos: nat, c: Unit)
    requires pos <= |s|
  {
    Viable(s[..pos] + [c])
  }

  lemma NextIff(s: Units, pos: nat, c: Unit)
    requires pos <= |s| && StateAt(s, pos).Some?
    ensures Next(s, pos, c) <==> Step(StateAt(s, pos).value, c).Some?
  {
    hide Step, Viable;
    var t := s[..pos] + [c];
    assert t[..pos] == s[..pos] && t[..pos + 1] == t;
    StateAtPrefix(s, t, pos);
    if StateAt(t, pos + 1).Some? { AliveIsViable(t, pos + 1); } else { DeadIsNotViable(t, pos + 1); }
  }

  function U(c: char): Unit
    requires c as int < 0x1_0000
  {
    c as int
  }

  predicate IsE(c: Unit) { c == U('e') || c == U('E') }

  /** A digit too many after a zero. */
  ghost predicate AfterZero(s: Units, pos: nat)
    requires pos <= |s|
  {
    Next(s, pos, U('.')) && pos < |s| && IsDigit(s[pos])
  }

  /** A number cannot end here: only digits, or a sign, could come next. */
  ghost predicate WantsDigit(s: Units, pos: nat)
    requires pos <= |s|
  {
    Next(s, pos, U('0')) && !Next(s, pos, U(' ')) && !Next(s, pos, U('A'))
  }

  ghost predicate InsideString(s: Units, pos: nat)
    requires pos <= |s|
  {
    Next(s, pos, U('"')) && Next(s, pos, U('u')) && Next(s, pos, U('0'))
  }

  /** The exponent mark stands right before, or before a sign. */
  predicate AfterMark(s: Units, pos: nat)
    requires pos <= |s|
  {
    pos > 0 && (IsE(s[pos - 1]) || (pos > 1 && IsSign(s[pos - 1]) && IsE(s[pos - 2])))
  }

  /** What could have come next where the message `m` is given. */
  ghost predicate Expects(s: Units, pos: nat, m: Message)
    requires pos <= |s|
  {
    match m
    case PropNameOrRBrace => Next(s, pos, U('"')) && Next(s, pos, U('}')) && !Next(s, pos, U('0'))
    case DoubleQuotedPropName =>
      Next(s, pos, U('"')) && !Next(s, pos, U('}')) && !Next(s, pos, U('0')) && !Next(s, pos, U('u'))
    case ColonAfterPropName => Next(s, pos, U(':')) && !Next(s, pos, U('"'))
    case CommaOrRBrace =>
      Next(s, pos, U(',')) && Next(s, pos, U('}')) && !Next(s, pos, U('"')) && !AfterZero(s, pos)
    case CommaOrRBrack =>
      Next(s, pos, U(',')) && Next(s, pos, U(']')) && !Next(s, pos, U('"')) && !AfterZero(s, pos)
    case NonWhitespaceAfterJson =>
      Next(s, pos, U(' ')) && !Next(s, pos, U(',')) && !Next(s, pos, U('"')) && !Next(s, pos, U(':')) &&
      !AfterZero(s, pos)
    case UnterminatedString => pos == |s| && InsideString(s, pos)
    case BadControlCharacter => pos < |s| && InsideString(s, pos)
    case BadEscapedCharacter =>
      pos < |s| && s[pos] <= 0xFF && Next(s, pos, U('"')) && Next(s, pos, U('u')) && !Next(s, pos, U('0'))
    case BadUnicodeEscape => Next(s, pos, U('0')) && Next(s, pos, U('A')) && !Next(s, pos, U('"'))
    case NoNumberAfterMinus => WantsDigit(s, pos) && !AfterMark(s, pos) && (pos == 0 || s[pos - 1] != U('.'))
    case UnterminatedFraction => WantsDigit(s, pos) && pos > 0 && s[pos - 1] == U('.')
    case ExponentMissingNumber => WantsDigit(s, pos) && AfterMark(s, pos)
    case UnexpectedNumber => Unnamed(s, pos) && pos < |s| && (s[pos] == U('-') || IsDigit(s[pos]))
    case UnexpectedString => Unnamed(s, pos) && pos < |s| && s[pos] == U('"')
  }

  /** None of the messages above has its place here. */
  ghost predicate Unnamed(s: Units, pos: nat)
    requires pos <= |s|
  {
    AfterZero(s, pos) || InWordOrBeforeValue(s, pos) ||
    (Next(s, pos, U('"')) && Next(s, pos, U('u')) && !Next(s, pos, U('0')) && (pos == |s| || s[pos] > 0xFF))
  }

  /** A value could begin here, or only one letter could come next. */
  ghost predicate InWordOrBeforeValue(s: Units, pos: nat)
    requires pos <= |s|
  {
    (Next(s, pos, U('"')) && Next(s, pos, U('0')) && !Next(s, pos, U('u'))) ||
    (!Next(s, pos, U('0')) && !Next(s, pos, U('"')) && !Next(s, pos, U(' ')))
  }

  // Where a number stands.

  lemma StepInto(st: State, c: Unit)
    requires Step(st, c).Some?
    ensures var m := Step(st, c).value.mode;
            (m.NumPoint? ==> c == U('.')) && (m.NumMark? ==> IsE(c)) && (m.NumMinus? ==> c == U('-')) &&
            (m.NumSign? ==> IsSign(c) && st.mode.NumMark?)
  {
  }

  lemma BeforeDigit(s: Units, pos: nat)
    requires pos <= |s| && StateAt(s, pos).Some?
    ensures var m := StateAt(s, pos).value.mode;
            (m.NumPoint? ==> pos > 0 && s[pos - 1] == U('.')) && (m.NumMark? ==> pos > 0 && IsE(s[pos - 1])) &&
            (m.NumMinus? ==> pos > 0 && s[pos - 1] == U('-')) &&
            (m.NumSign? ==> pos > 0 && IsSign(s[pos - 1]) && StateAt(s, pos - 1).Some? &&
                            StateAt(s, pos - 1).value.mode.NumMark?)
  {
    hide Step;
    if pos > 0 { StepInto(StateAt(s, pos - 1).value, s[pos - 1]); }
  }

  lemma BeforeSign(s: Units, pos: nat)
    requires pos <= |s| && StateAt(s, pos).Some?
    ensures StateAt(s, pos).value.mode.NumSign? ==> pos > 1 && StateAt(s, pos - 1).Some? && IsE(s[pos - 2])
  {
    hide StateAt;
    BeforeDigit(s, pos);
    if StateAt(s, pos).value.mode.NumSign? { BeforeDigit(s, pos - 1); }
  }

  lemma BeforeMinus(s: Units, pos: nat)
    requires pos <= |s| && StateAt(s, pos).Some?
    ensures var m := StateAt(s, pos).value.mode;
            m.NumMinus? ==> pos > 0 && (pos > 1 ==> !IsE(s[pos - 2]))
  {
    if StateAt(s, pos).value.mode.NumMinus? && pos > 1 {
      assert StateAt(s, pos - 1).Some?;
      var m := StateAt(s, pos - 1).value.mode;
      assert m.BeforeValue? || m.ArrFirst?;
      assert Step(StateAt(s, pos - 2).value, s[pos - 2]) == StateAt(s, pos - 1);
      ValueAfterNoLetter(StateAt(s, pos - 2).value, s[pos - 2]);
    }
  }

  lemma ValueAfterNoLetter(st: State, c: Unit)
    requires Step(st, c).Some? && (Step(st, c).value.mode.BeforeValue? || Step(st, c).value.mode.ArrFirst?)
    ensures !IsE(c)
  {
  }

  // The theorem.

  /** What comes next in a state, told by its steps. */
  lemma NextUnits(s: Units, pos: nat)
    requires pos <= |s| && StateAt(s, pos).Some?
    ensures var st := StateAt(s, pos).value;
            (Next(s, pos, U('"')) <==> Step(st, U('"')).Some?) && (Next(s, pos, U('}')) <==> Step(st, U('}')).Some?) &&
            (Next(s, pos, U(']')) <==> Step(st, U(']')).Some?) && (Next(s, pos, U(',')) <==> Step(st, U(',')).Some?) &&
            (Next(s, pos, U(':')) <==> Step(st, U(':')).Some?) && (Next(s, pos, U(' ')) <==> Step(st, U(' ')).Some?) &&
            (Next(s, pos, U('0')) <==> Step(st, U('0')).Some?) && (Next(s, pos, U('A')) <==> Step(st, U('A')).Some?) &&
            (Next(s, pos, U('u')) <==> Step(st, U('u')).Some?) && (Next(s, pos, U('.')) <==> Step(st, U('.')).Some?)
  {
    hide Next, Step, StateAt;
    NextIff(s, pos, U('"'));
    NextIff(s, pos, U('}'));
    NextIff(s, pos, U(']'));
    NextIff(s, pos, U(','));
    NextIff(s, pos, U(':'));
    NextIff(s, pos, U(' '));
    NextIff(s, pos, U('0'));
    NextIff(s, pos, U('A'));
    NextIff(s, pos, U('u'));
    NextIff(s, pos, U('.'));
  }

  predicate Takes(st: State, c: char)
    requires c as int < 0x1_0000
  {
    Step(st, U(c)).Some?
  }

  /** Whether the state takes each of the units that tell the messages apart. */
  predicate TakesOf(st: State, quote: bool, brace: bool, bracket: bool, comma: bool, colon: bool, blank: bool, zero: bool,
                    hex: bool, u: bool, point: bool) {
    (Takes(st, '"') <==> quote) && (Takes(st, '}') <==> brace) && (Takes(st, ']') <==> bracket) &&
    (Takes(st, ',') <==> comma) && (Takes(st, ':') <==> colon) && (Takes(st, ' ') <==> blank) &&
    (Takes(st, '0') <==> zero) && (Takes(st, 'A') <==> hex) && (Takes(st, 'u') <==> u) && (Takes(st, '.') <==> point)
  }

  predicate LowerCase(w: Units) { forall i :: 0 <= i < |w| ==> U('a') <= w[i] <= U('z') }

  lemma {:induction false} WordsAreLower(s: Units, pos: nat)
    requires pos <= |s| && StateAt(s, pos).Some?
    ensures StateAt(s, pos).value.mode.InWord? ==> LowerCase(StateAt(s, pos).value.mode.word)
  {
    hide Step, LowerCase;
    if pos > 0 {
      WordsAreLower(s, pos - 1);
      WordStep(StateAt(s, pos - 1).value, s[pos - 1]);
    }
  }

  lemma WordStep(st: State, c: Unit)
    requires Step(st, c).Some? && (st.mode.InWord? ==> LowerCase(st.mode.word))
    ensures Step(st, c).value.mode.InWord? ==> LowerCase(Step(st, c).value.mode.word)
  {
  }

  lemma StructureTakes(st: State)
    requires WellFormed(st)
    ensures st.mode.BeforeValue? ==> TakesOf(st, true, false, false, false, false, true, true, false, false, false)
    ensures st.mode.ArrFirst? ==> TakesOf(st, true, false, true, false, false, true, true, false, false, false)
    ensures st.mode.ObjFirst? ==> TakesOf(st, true, true, false, false, false, true, false, false, false, false)
    ensures st.mode.BeforeKey? ==> TakesOf(st, true, false, false, false, false, true, false, false, false, false)
    ensures st.mode.BeforeColon? ==> TakesOf(st, false, false, false, false, true, true, false, false, false, false)
  {
  }

  lemma StringTakes(st: State)
    requires WellFormed(st) && (st.mode.InWord? ==> LowerCase(st.mode.word))
    ensures st.mode.InString? ==> TakesOf(st, true, true, true, true, true, true, true, true, true, true)
    ensures st.mode.InEscape? ==> TakesOf(st, true, false, false, false, false, false, false, false, true, false)
    ensures st.mode.InHex? ==> TakesOf(st, false, false, false, false, false, false, true, true, false, false)
    ensures st.mode.InWord? ==> TakesOf(st, false, false, false, false, false, false, false, false, Takes(st, 'u'), false)
  {
  }

  lemma NumberTakes(st: State)
    ensures st.mode.NumMinus? || st.mode.NumPoint? || st.mode.NumMark? || st.mode.NumSign? ==>
              TakesOf(st, false, false, false, false, false, false, true, false, false, false)
  {
  }

  lemma EndTakes(st: State)
    ensures IsFinal(st.mode) ==> EndsWith(st, st.stack.Obj?, st.stack.Arr?)
  {
    hide Takes;
    if IsFinal(st.mode) {
      FinalTakes(st, '"');
      FinalTakes(st, '}');
      FinalTakes(st, ']');
      FinalTakes(st, ',');
      FinalTakes(st, ':');
      FinalTakes(st, ' ');
      FinalTakes(st, '0');
      FinalTakes(st, 'A');
      FinalTakes(st, 'u');
      FinalTakes(st, '.');
    }
  }

  lemma FinalTakes(st: State, c: char)
    requires IsFinal(st.mode) && c as int < 0x1_0000
    ensures var closes := (c == '}' && st.stack.Obj?) || (c == ']' && st.stack.Arr?);
            Takes(st, c) <==>
            IsWs(U(c)) || closes || (c == ',' && !st.stack.Bottom?) ||
            (IsDigit(U(c)) && !st.mode.After? && !st.mode.NumZero?) || (c == '.' && (st.mode.NumZero? || st.mode.NumInt?)) ||
            (IsE(U(c)) && !st.mode.After? && !st.mode.NumExp?)
  {
  }

  predicate EndsWith(st: State, brace: bool, bracket: bool) {
    TakesOf(st, false, brace, bracket, brace || bracket, false, true, !st.mode.After? && !st.mode.NumZero?, false, false,
            st.mode.NumZero? || st.mode.NumInt?)
  }

  lemma NextTakes(s: Units, pos: nat)
    requires pos <= |s| && StateAt(s, pos).Some?
    ensures var st := StateAt(s, pos).value;
            TakesOf(st, Next(s, pos, U('"')), Next(s, pos, U('}')), Next(s, pos, U(']')), Next(s, pos, U(',')),
                    Next(s, pos, U(':')), Next(s, pos, U(' ')), Next(s, pos, U('0')), Next(s, pos, U('A')),
                    Next(s, pos, U('u')), Next(s, pos, U('.')))
  {
    hide Next, Step, StateAt;
    NextUnits(s, pos);
  }

  /** A digit the machine is stuck on is one after a zero, or after a value that has ended. */
  lemma StuckOnDigit(s: Units, pos: nat)
    requires Stuck(s, pos) && pos < |s| && IsDigit(s[pos])
    ensures var m := StateAt(s, pos).value.mode; !m.NumInt? && !m.NumFrac? && !m.NumExp?
  {
    hide StateAt;
  }

  lemma BlameOfStructure(s: Units, pos: nat, m: Message)
    requires Stuck(s, pos) && !m.UnexpectedNumber? && !m.UnexpectedString?
    requires SkipsWs(StateAt(s, pos).value.mode) && !StateAt(s, pos).value.mode.After?
    ensures (Blamed(s, pos) == Some(m) <==> Expects(s, pos, m)) && (Blamed(s, pos).None? <==> Unnamed(s, pos))
  {
    NextTakes(s, pos);
    StateAtWellFormed(s, pos);
    var st := StateAt(s, pos).value;
    StructureTakes(st);
    hide Next, StateAt, Takes, WellFormed, Stuck;
  }

  lemma BlameOfString(s: Units, pos: nat, m: Message)
    requires Stuck(s, pos) && !m.UnexpectedNumber? && !m.UnexpectedString?
    requires var mode := StateAt(s, pos).value.mode; mode.InString? || mode.InEscape? || mode.InHex? || mode.InWord?
    ensures (Blamed(s, pos) == Some(m) <==> Expects(s, pos, m)) && (Blamed(s, pos).None? <==> Unnamed(s, pos))
  {
    NextTakes(s, pos);
    StateAtWellFormed(s, pos);
    var st := StateAt(s, pos).value;
    WordsAreLower(s, pos);
    StringTakes(st);
    hide Next, StateAt, Takes, WellFormed, LowerCase, Stuck;
  }

  lemma BlameOfNumber(s: Units, pos: nat, m: Message)
    requires Stuck(s, pos) && !m.UnexpectedNumber? && !m.UnexpectedString?
    requires var mode := StateAt(s, pos).value.mode; mode.NumMinus? || mode.NumPoint? || mode.NumMark? || mode.NumSign?
    ensures (Blamed(s, pos) == Some(m) <==> Expects(s, pos, m)) && (Blamed(s, pos).None? <==> Unnamed(s, pos))
  {
    NextTakes(s, pos);
    var st := StateAt(s, pos).value;
    BeforeDigit(s, pos);
    BeforeSign(s, pos);
    BeforeMinus(s, pos);
    NumberTakes(st);
    hide Next, StateAt, Takes, Stuck;
  }

  lemma BlameOfEnd(s: Units, pos: nat, m: Message)
    requires Stuck(s, pos) && !m.UnexpectedNumber? && !m.UnexpectedString? && IsFinal(StateAt(s, pos).value.mode)
    ensures (Blamed(s, pos) == Some(m) <==> Expects(s, pos, m)) && (Blamed(s, pos).None? <==> Unnamed(s, pos))
  {
    var st := StateAt(s, pos).value;
    EndNext(s, pos);
    EndBlame(s, pos);
    if pos < |s| && IsDigit(s[pos]) { StuckOnDigit(s, pos); }
    hide Next, StateAt, Stuck, Blamed;
  }

  lemma EndNext(s: Units, pos: nat)
    requires pos <= |s| && StateAt(s, pos).Some? && IsFinal(StateAt(s, pos).value.mode)
    ensures var st := StateAt(s, pos).value;
            !Next(s, pos, U('"')) && !Next(s, pos, U(':')) && Next(s, pos, U(' ')) &&
            !Next(s, pos, U('A')) && !Next(s, pos, U('u')) && (Next(s, pos, U('}')) <==> st.stack.Obj?) &&
            (Next(s, pos, U(']')) <==> st.stack.Arr?) && (Next(s, pos, U(',')) <==> !st.stack.Bottom?) &&
            (Next(s, pos, U('0')) <==> !st.mode.After? && !st.mode.NumZero?) &&
            (Next(s, pos, U('.')) <==> st.mode.NumZero? || st.mode.NumInt?)
  {
    hide Next, StateAt, Takes;
    NextTakes(s, pos);
    EndTakes(StateAt(s, pos).value);
  }

  lemma EndBlame(s: Units, pos: nat)
    requires pos <= |s| && StateAt(s, pos).Some? && IsFinal(StateAt(s, pos).value.mode)
    ensures var st := StateAt(s, pos).value;
            Blamed(s, pos) == if st.mode.NumZero? && pos < |s| && IsDigit(s[pos]) then None
                              else if st.stack.Bottom? then Some(NonWhitespaceAfterJson)
                              else if st.stack.Arr? then Some(CommaOrRBrack) else Some(CommaOrRBrace)
  {
    hide StateAt;
  }

  lemma BlameSays(s: Units, pos: nat, m: Message)
    requires Stuck(s, pos) && !m.UnexpectedNumber? && !m.UnexpectedString?
    ensures (Blamed(s, pos) == Some(m) <==> Expects(s, pos, m)) && (Blamed(s, pos).None? <==> Unnamed(s, pos))
  {
    StuckAlive(s, pos);
    hide StateAt, Stuck, Blamed, Expects, Unnamed;
    var mode := StateAt(s, pos).value.mode;
    if IsFinal(mode) {
      BlameOfEnd(s, pos, m);
    } else if SkipsWs(mode) {
      BlameOfStructure(s, pos, m);
    } else if mode.InString? || mode.InEscape? || mode.InHex? || mode.InWord? {
      BlameOfString(s, pos, m);
    } else {
      BlameOfNumber(s, pos, m);
    }
  }

  lemma StuckAlive(s: Units, pos: nat)
    requires Stuck(s, pos)
    ensures StateAt(s, pos).Some?
  {
  }

  /** A message is given exactly where what it says holds of the units that could have come next. */
  lemma MessageIff(s: Units, pos: nat, e: SyntaxError, m: Message)
    requires IsErrorOf(s, pos, e)
    ensures (e.Positioned? && e.msg == m) <==> Expects(s, pos, m)
  {
    var named: Message := if m.UnexpectedNumber? || m.UnexpectedString? then PropNameOrRBrace else m;
    BlameSays(s, pos, named);
    if Blamed(s, pos).Some? { NamedIsNoToken(s, pos); }
    hide Describes, Blamed, Stuck, StateAt, Unnamed;
  }

  lemma NamedIsNoToken(s: Units, pos: nat)
    requires Stuck(s, pos) && Blamed(s, pos).Some?
    ensures !Blamed(s, pos).value.UnexpectedNumber? && !Blamed(s, pos).value.UnexpectedString?
  {
    hide StateAt;
  }

  // What an error quotes.

  function UnitsOf(text: string): Units
    requires forall i :: 0 <= i < |text| ==> text[i] as int < 0x1_0000
  {
    seq(|text|, i requires 0 <= i < |text| => text[i] as int)
  }

  /** The texts that are always quoted as a whole. */
  lemma SpecialTexts(s: Units)
    ensures IsSpecial(s) <==>
            s == UnitsOf("NaN") || s == UnitsOf("Infinity") || s == UnitsOf("undefined") || s == UnitsOf("[object Object]")
  {
    assert NAN == UnitsOf("NaN") && INFINITY == UnitsOf("Infinity") && UNDEFINED == UnitsOf("undefined");
    assert OBJECT_OBJECT == UnitsOf("[object Object]");
  }

  /** Of a long text, the ten units before the error and the ten from it on. */
  lemma QuotedContext(s: Units, pos: nat, e: SyntaxError)
    requires IsErrorOf(s, pos, e) && e.UnexpectedToken?
    ensures |s| <= 20 ==> e.context == s && !e.dotsBefore && !e.dotsAfter
    ensures |s| > 20 ==>
              var from, to := if pos < 10 then 0 else pos - 10, if pos + 10 > |s| then |s| else pos + 10;
              e.context == s[from..to] && (e.dotsBefore <==> pos >= 10) && (e.dotsAfter <==> pos + 10 < |s|)
  {
    hide StateAt, Stuck, Names;
  }

  /** A line ends at a CR, and at an LF that does not follow one. */
  lemma LineEnds(s: Units, n: nat)
    requires n < |s|
    ensures Terminators(s, 0) == 0
    ensures Terminators(s, n + 1) ==
            Terminators(s, n) + if s[n] == 0x0D || (s[n] == 0x0A && (n == 0 || s[n - 1] != 0x0D)) then 1 else 0
  {
  }
}
