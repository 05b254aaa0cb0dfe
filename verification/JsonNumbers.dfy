/**
 The numbers of section 6 of RFC 8259, which are those that the scanner of
 `JsonText` takes.
 */
module JsonNumbers {
  import opened JsonText
  import opened Wrappers

  predicate IsDigit(c: char) { '0' <= c <= '9' }

  predicate AllDigits(t: string) { forall i :: 0 <= i < |t| ==> IsDigit(t[i]) }

  predicate SomeDigits(t: string) { t != "" && AllDigits(t) }

  /** Nothing, or e or E, a sign or none, and digits. */
  predicate Exp(t: string) {
    t == "" ||
    ((t[0] == 'e' || t[0] == 'E') &&
     (SomeDigits(t[1..]) || (|t| > 1 && (t[1] == '+' || t[1] == '-') && SomeDigits(t[2..]))))
  }

  /** The first `n` characters are digits, and an exponent or nothing follows. */
  predicate DigitsThenExp(t: string, n: nat) { n <= |t| && AllDigits(t[..n]) && Exp(t[n..]) }

  /** A fraction or none, and an exponent or none. */
  ghost predicate FracExp(t: string) {
    Exp(t) || (t != "" && t[0] == '.' && exists n: nat :: n > 0 && DigitsThenExp(t[1..], n))
  }

  /** The first `n` characters are digits, and a fraction and an exponent or neither follow. */
  ghost predicate DigitsThenFrac(t: string, n: nat) { n <= |t| && AllDigits(t[..n]) && FracExp(t[n..]) }

  /** A zero, or digits that do not begin with one, and what may follow. */
  ghost predicate Unsigned(t: string) {
    t != "" && ((t[0] == '0' && FracExp(t[1..])) || (t[0] != '0' && exists n: nat :: n > 0 && DigitsThenFrac(t, n)))
  }

  /** The scanner takes all of `t`. */
  predicate Whole(st: Scan, t: string) { ScanNumber(st, t) == Some(|t|) }

  lemma WholeStep(st: Scan, t: string)
    ensures t == "" ==> (Whole(st, t) <==> Complete(st))
    ensures t != "" ==> (Whole(st, t) <==> ScanStep(st, t[0]).Some? && Whole(ScanStep(st, t[0]).value, t[1..]))
  {
    hide ScanStep, Complete;
  }

  lemma {:induction false} WholeExponent(t: string)
    ensures Whole(Exponent, t) <==> AllDigits(t)
  {
    hide Whole;
    WholeStep(Exponent, t);
    if t != "" {
      WholeExponent(t[1..]);
      FirstDigit(t);
    }
  }

  lemma FirstDigit(t: string)
    requires t != ""
    ensures AllDigits(t) <==> IsDigit(t[0]) && AllDigits(t[1..])
  {
    if IsDigit(t[0]) && AllDigits(t[1..]) { assert forall i :: 0 < i < |t| ==> t[i] == t[1..][i - 1]; }
  }

  lemma WholeMark(t: string)
    ensures Whole(MarkSign, t) <==> SomeDigits(t)
    ensures Whole(Mark, t) <==> SomeDigits(t) || (t != "" && (t[0] == '+' || t[0] == '-') && SomeDigits(t[1..]))
  {
    hide Whole, AllDigits;
    WholeStep(MarkSign, t);
    WholeStep(Mark, t);
    if t != "" {
      FirstDigit(t);
      WholeExponent(t[1..]);
      WholeStep(MarkSign, t[1..]);
      if t[1..] != "" {
        FirstDigit(t[1..]);
        WholeExponent(t[1..][1..]);
      }
    }
  }

  /** After the exponent mark. */
  lemma ExpMark(t: string)
    requires t != "" && (t[0] == 'e' || t[0] == 'E')
    ensures Whole(Mark, t[1..]) <==> Exp(t)
  {
    hide Whole, SomeDigits;
    WholeMark(t[1..]);
    if |t| > 1 { assert t[1..][1..] == t[2..]; }
  }

  lemma MoreDigits(t: string, n: nat)
    requires t != "" && IsDigit(t[0])
    ensures DigitsThenExp(t, n + 1) <==> DigitsThenExp(t[1..], n)
    ensures DigitsThenFrac(t, n + 1) <==> DigitsThenFrac(t[1..], n)
  {
    hide Exp, FracExp;
    if n + 1 <= |t| {
      FirstDigit(t[..n + 1]);
      assert t[..n + 1][1..] == t[1..][..n] && t[n + 1..] == t[1..][n..];
    }
  }

  lemma NoDigits(t: string)
    ensures DigitsThenExp(t, 0) <==> Exp(t)
    ensures DigitsThenFrac(t, 0) <==> FracExp(t)
    ensures t != "" && !IsDigit(t[0]) ==> forall n: nat :: n > 0 ==> !DigitsThenExp(t, n) && !DigitsThenFrac(t, n)
  {
    hide Exp, FracExp;
    assert t[0..] == t && t[..0] == "";
    forall n: nat | n > 0 && t != "" && !IsDigit(t[0])
      ensures !DigitsThenExp(t, n) && !DigitsThenFrac(t, n)
    {
      if n <= |t| { assert t[..n][0] == t[0]; }
    }
  }

  lemma {:induction false} WholeFraction(t: string)
    ensures Whole(Fraction, t) <==> exists n: nat :: DigitsThenExp(t, n)
  {
    hide Whole, Exp, DigitsThenExp;
    WholeStep(Fraction, t);
    NoDigits(t);
    if t == "" {
      EmptyExp();
    } else if IsDigit(t[0]) {
      WholeFraction(t[1..]);
      DigitFirst(t);
    } else {
      if t[0] == 'e' || t[0] == 'E' { ExpMark(t); } else { NoExp(t); }
    }
  }

  lemma EmptyExp()
    ensures Exp("") && FracExp("")
  {
  }

  lemma NoExp(t: string)
    requires t != "" && t[0] != 'e' && t[0] != 'E'
    ensures !Exp(t)
  {
  }

  /** A digit in front makes one more. */
  lemma DigitFirst(t: string)
    requires t != "" && IsDigit(t[0])
    ensures (exists n: nat :: DigitsThenExp(t, n)) <==> exists n: nat :: DigitsThenExp(t[1..], n)
    ensures (exists n: nat :: n > 0 && DigitsThenExp(t, n)) <==> exists n: nat :: DigitsThenExp(t[1..], n)
    ensures (exists n: nat :: n > 0 && DigitsThenFrac(t, n)) <==> exists n: nat :: DigitsThenFrac(t[1..], n)
    ensures !Exp(t) && !FracExp(t)
  {
    NoExp(t);
    hide Exp, DigitsThenExp, DigitsThenFrac;
    NoDigits(t);
    if n: nat :| n > 0 && DigitsThenExp(t, n) { MoreDigits(t, n - 1); }
    if n: nat :| DigitsThenExp(t[1..], n) { MoreDigits(t, n); }
    if n: nat :| n > 0 && DigitsThenFrac(t, n) { MoreDigits(t, n - 1); }
    if n: nat :| DigitsThenFrac(t[1..], n) { MoreDigits(t, n); }
  }

  lemma WholeDot(t: string)
    ensures Whole(Dot, t) <==> exists n: nat :: n > 0 && DigitsThenExp(t, n)
  {
    hide Whole, Exp, DigitsThenExp;
    WholeStep(Dot, t);
    NoDigits(t);
    if t == "" {
      NothingToTake();
    } else if IsDigit(t[0]) {
      WholeFraction(t[1..]);
      DigitFirst(t);
    }
  }

  lemma NothingToTake()
    ensures forall n: nat :: n > 0 ==> !DigitsThenExp("", n) && !DigitsThenFrac("", n)
  {
  }

  lemma WholeZero(t: string)
    ensures Whole(Zero, t) <==> FracExp(t)
  {
    hide Whole, Exp, DigitsThenExp;
    WholeStep(Zero, t);
    if t == "" {
      EmptyExp();
    } else if t[0] == 'e' || t[0] == 'E' {
      ExpMark(t);
    } else {
      NoExp(t);
      if t[0] == '.' { WholeDot(t[1..]); }
    }
  }

  lemma {:induction false} WholeDigits(t: string)
    ensures Whole(Digits, t) <==> exists n: nat :: DigitsThenFrac(t, n)
  {
    hide Whole, FracExp, DigitsThenFrac;
    WholeStep(Digits, t);
    WholeStep(Zero, t);
    WholeZero(t);
    NoDigits(t);
    if t == "" {
      EmptyExp();
    } else if IsDigit(t[0]) {
      WholeDigits(t[1..]);
      DigitFirst(t);
      if n: nat :| DigitsThenFrac(t, n) { assert n > 0; }
    }
  }

  lemma WholeUnsigned(t: string)
    ensures Whole(Sign, t) <==> Unsigned(t)
  {
    hide Whole, FracExp, DigitsThenFrac;
    WholeStep(Sign, t);
    if t != "" {
      WholeZero(t[1..]);
      WholeDigits(t[1..]);
      NoDigits(t);
      if IsDigit(t[0]) { DigitFirst(t); }
    }
  }

  /** A number is one of the grammar: a minus or none, and an unsigned number. */
  lemma IsNumberIff(t: string)
    ensures IsNumber(t) <==> Unsigned(t) || (t != "" && t[0] == '-' && Unsigned(t[1..]))
  {
    hide Unsigned;
    if t != "" {
      WholeStep(Sign, t);
      WholeUnsigned(t);
      WholeUnsigned(t[1..]);
      if t[0] == '-' { NoMinus(t); }
    }
    NoUnsigned();
  }

  lemma NoUnsigned()
    ensures !Unsigned("")
  {
  }

  lemma NoMinus(t: string)
    requires t != "" && t[0] == '-'
    ensures !Unsigned(t)
  {
    NoDigits(t);
  }
}
