/**
 Shell quoting (internal/lifecycle/hooks.go:247-289) and splitting
 (internal/cli/compose_up.go:87-126). A Go string is its bytes, here the
 characters below 256.
 */
module ShellWords {
  import opened Wrappers

  predicate IsAscii(s: string) { forall i :: 0 <= i < |s| ==> s[i] < '\U{80}' }

  predicate IsBytes(s: string) { forall i :: 0 <= i < |s| ==> s[i] < '\U{100}' }

  // Quoting.

  /** strings.ReplaceAll(s, "'", `'\''`). */
  function QuotesReplaced(s: string): string {
    if s == "" then "" else (if s[0] == '\'' then "'\\''" else [s[0]]) + QuotesReplaced(s[1..])
  }

  function ShellQuote(s: string): string { "'" + QuotesReplaced(s) + "'" }

  /** The quoted arguments, joined by spaces. */
  function QuotedLine(args: seq<string>): string {
    if args == [] then "" else if |args| == 1 then ShellQuote(args[0]) else ShellQuote(args[0]) + " " + QuotedLine(args[1..])
  }

  // Splitting.

  /** What strings.Builder.WriteRune writes for a byte taken as a rune: two bytes from 128 on. */
  function Rune(c: char): (r: string)
    ensures c < '\U{80}' ==> r == [c]
    ensures '\U{80}' <= c < '\U{100}' ==> |r| == 2
  {
    if c < '\U{80}' then [c]
    else if c < '\U{100}' then [(0xC0 + c as int / 64) as char, (0x80 + c as int % 64) as char]
    else [c]
  }

  function Runes(s: string): string { if s == "" then "" else Rune(s[0]) + Runes(s[1..]) }

  /** The splitter: the words so far, the current one, whether there is one, and the open quote. */
  datatype Splitter = Splitter(words: seq<string>, cur: string, inWord: bool, quote: Option<char>)

  predicate IsBlank(c: char) { c == ' ' || c == '\t' || c == '\n' }

  /** The splitter after a character that is not escaped. */
  function Take(st: Splitter, c: char): Splitter {
    if st.quote.Some? then
      if c == st.quote.value then st.(quote := None) else st.(cur := st.cur + Rune(c))
    else if c == '\'' || c == '"' then st.(quote := Some(c), inWord := true)
    else if IsBlank(c) then
      if st.inWord then st.(words := st.words + [st.cur], cur := "", inWord := false) else st
    else st.(cur := st.cur + Rune(c), inWord := true)
  }

  /** A backslash escapes the next character outside quotes and inside double ones. */
  predicate Escapes(st: Splitter, s: string) {
    |s| > 1 && s[0] == '\\' && (st.quote.None? || st.quote == Some('"'))
  }

  /** The words of `s`, taken up in state `st`. */
  function WordsFrom(st: Splitter, s: string): seq<string>
    decreases |s|
  {
    if s == "" then (if st.inWord then st.words + [st.cur] else st.words)
    else if Escapes(st, s) then
      WordsFrom(st.(cur := st.cur + [s[1]], inWord := true), s[2..])
    else WordsFrom(Take(st, s[0]), s[1..])
  }

  const START := Splitter([], "", false, None)

  /** A quote is open only inside a word. */
  predicate Sound(st: Splitter) { st.quote.Some? ==> st.inWord }

  method SplitShellWords(s: string) returns (words: seq<string>)
    ensures words == WordsFrom(START, s)
  {
    words := [];
    var cur := "";
    var inWord, quote := false, None;
    var i := 0;
    assert s[0..] == s;
    while i < |s|
      invariant i <= |s| && Sound(Splitter(words, cur, inWord, quote))
      invariant WordsFrom(Splitter(words, cur, inWord, quote), s[i..]) == WordsFrom(START, s)
    {
      var c := s[i];
      assert s[i..][0] == c && s[i..][1..] == s[i + 1..];
      if quote.Some? {
        if c == quote.value {
          quote := None;
        } else if c == '\\' && quote.value == '"' && i + 1 < |s| {
          assert s[i..][1] == s[i + 1] && s[i..][2..] == s[i + 2..];
          i := i + 1;
          cur := cur + [s[i]];
        } else {
          cur := cur + Rune(c);
        }
      } else if c == '\'' || c == '"' {
        quote, inWord := Some(c), true;
      } else if c == '\\' && i + 1 < |s| {
        assert s[i..][1] == s[i + 1] && s[i..][2..] == s[i + 2..];
        i := i + 1;
        cur := cur + [s[i]];
        inWord := true;
      } else if IsBlank(c) {
        if inWord {
          words := words + [cur];
          cur, inWord := "", false;
        }
      } else {
        cur := cur + Rune(c);
        inWord := true;
      }
      i := i + 1;
    }
    if inWord { words := words + [cur]; }
  }

  // Quoting and splitting.

  lemma TakeStep(st: Splitter, c: char, rest: string)
    requires c != '\\' || st.quote == Some('\'')
    ensures WordsFrom(st, [c] + rest) == WordsFrom(Take(st, c), rest)
  {
    assert ([c] + rest)[1..] == rest;
  }

  lemma EscapeStep(st: Splitter, c: char, rest: string)
    requires st.quote.None?
    ensures WordsFrom(st, ['\\', c] + rest) == WordsFrom(st.(cur := st.cur + [c], inWord := true), rest)
  {
    assert (['\\', c] + rest)[2..] == rest;
  }

  /** An escaped quote, which leaves the single quotes and comes back to them. */
  lemma QuoteStep(st: Splitter, rest: string)
    requires st.inWord && st.quote == Some('\'')
    ensures WordsFrom(st, "'\\''" + rest) == WordsFrom(st.(cur := st.cur + ['\'']), rest)
  {
    hide WordsFrom;
    var out := st.(quote := None);
    assert "'\\''" + rest == ['\''] + (['\\', '\''] + (['\''] + rest));
    TakeStep(st, '\'', ['\\', '\''] + (['\''] + rest));
    EscapeStep(out, '\'', ['\''] + rest);
    TakeStep(out.(cur := st.cur + ['\'']), '\'', rest);
  }

  lemma BodySteps(st: Splitter, s: string, rest: string)
    requires s != ""
    ensures var head := if s[0] == '\'' then "'\\''" else [s[0]];
            QuotesReplaced(s) + rest == head + (QuotesReplaced(s[1..]) + rest)
    ensures st.cur + Runes(s) == st.cur + Rune(s[0]) + Runes(s[1..])
  {
  }

  lemma BodyEnds(st: Splitter, rest: string)
    ensures QuotesReplaced("") + rest == rest && st.cur + Runes("") == st.cur
  {
  }

  /** The body of a quoted argument adds its runes to the current word. */
  lemma {:induction false} QuotedBody(st: Splitter, s: string, rest: string)
    requires st.inWord && st.quote == Some('\'')
    ensures WordsFrom(st, QuotesReplaced(s) + rest) == WordsFrom(st.(cur := st.cur + Runes(s)), rest)
    decreases |s|
  {
    hide WordsFrom, QuotesReplaced, Runes, Rune;
    if s == "" {
      BodyEnds(st, rest);
    } else {
      var tail := QuotesReplaced(s[1..]) + rest;
      BodySteps(st, s, rest);
      if s[0] == '\'' { QuoteStep(st, tail); } else { TakeStep(st, s[0], tail); }
      QuotedBody(st.(cur := st.cur + Rune(s[0])), s[1..], rest);
    }
  }

  lemma QuotedWord(st: Splitter, s: string, rest: string)
    requires st.quote.None?
    ensures WordsFrom(st, ShellQuote(s) + rest) == WordsFrom(st.(cur := st.cur + Runes(s), inWord := true), rest)
  {
    hide WordsFrom, QuotesReplaced, Runes;
    assert ShellQuote(s) + rest == ['\''] + (QuotesReplaced(s) + (['\''] + rest));
    TakeStep(st, '\'', QuotesReplaced(s) + (['\''] + rest));
    var open := st.(quote := Some('\''), inWord := true);
    QuotedBody(open, s, ['\''] + rest);
    TakeStep(open.(cur := st.cur + Runes(s)), '\'', rest);
  }

  function AllRunes(args: seq<string>): seq<string> {
    if args == [] then [] else [Runes(args[0])] + AllRunes(args[1..])
  }

  /** Splitting a line of quoted arguments gives the arguments with each byte written as a rune. */
  lemma {:induction false} LineSplits(words: seq<string>, args: seq<string>)
    ensures WordsFrom(Splitter(words, "", false, None), QuotedLine(args)) == words + AllRunes(args)
    decreases |args|
  {
    hide Runes, ShellQuote, WordsFrom, QuotedLine, AllRunes;
    var st := Splitter(words, "", false, None);
    if args == [] {
      NoArguments(words);
      EndOfLine(st);
    } else {
      var word := Splitter(words, Runes(args[0]), true, None);
      assert "" + Runes(args[0]) == Runes(args[0]);
      if |args| == 1 {
        OneArgument(words, args[0]);
        assert args == [args[0]];
        QuotedWord(st, args[0], "");
        EndOfLine(word);
      } else {
        var rest := QuotedLine(args[1..]);
        MoreArguments(words, args);
        QuotedWord(st, args[0], " " + rest);
        TakeStep(word, ' ', rest);
        LineSplits(words + [Runes(args[0])], args[1..]);
      }
    }
  }

  lemma NoArguments(words: seq<string>)
    ensures QuotedLine([]) == "" && words + AllRunes([]) == words
  {
  }

  lemma OneArgument(words: seq<string>, a: string)
    ensures QuotedLine([a]) == ShellQuote(a) + "" && words + AllRunes([a]) == words + [Runes(a)]
  {
    hide Runes, ShellQuote;
    assert ShellQuote(a) + "" == ShellQuote(a) && AllRunes([a][1..]) == [];
  }

  lemma MoreArguments(words: seq<string>, args: seq<string>)
    requires |args| > 1
    ensures QuotedLine(args) == ShellQuote(args[0]) + (" " + QuotedLine(args[1..]))
    ensures words + AllRunes(args) == words + [Runes(args[0])] + AllRunes(args[1..])
  {
    hide Runes, ShellQuote;
  }

  lemma EndOfLine(st: Splitter)
    ensures WordsFrom(st, "") == if st.inWord then st.words + [st.cur] else st.words
  {
  }

  /** A byte string is its runes exactly when it is ASCII; otherwise it grows. */
  lemma {:induction false} RunesLength(s: string)
    requires IsBytes(s)
    ensures |Runes(s)| >= |s| && (|Runes(s)| == |s| <==> IsAscii(s))
    ensures IsAscii(s) ==> Runes(s) == s
  {
    if s != "" {
      RunesLength(s[1..]);
      assert s == [s[0]] + s[1..];
      assert IsAscii(s) <==> s[0] < '\U{80}' && IsAscii(s[1..]);
    }
  }

  lemma {:induction false} AllRunesSame(args: seq<string>)
    requires forall i :: 0 <= i < |args| ==> IsBytes(args[i])
    ensures AllRunes(args) == args <==> forall i :: 0 <= i < |args| ==> IsAscii(args[i])
  {
    hide Runes, IsAscii, IsBytes;
    if args != [] {
      RunesLength(args[0]);
      AllRunesSame(args[1..]);
      assert args == [args[0]] + args[1..];
    }
  }

  /** Splitting undoes quoting exactly for ASCII arguments, empty ones included. */
  lemma SplitUndoesQuote(args: seq<string>)
    requires forall i :: 0 <= i < |args| ==> IsBytes(args[i])
    ensures WordsFrom(START, QuotedLine(args)) == args <==> forall i :: 0 <= i < |args| ==> IsAscii(args[i])
  {
    LineSplits([], args);
    AllRunesSame(args);
    assert [] + AllRunes(args) == AllRunes(args);
  }

  /** Single quotes around the argument, each quote in it written as one outside them. */
  lemma QuoteText(s: string)
    ensures '\'' !in s ==> ShellQuote(s) == "'" + s + "'"
    ensures ShellQuote("'") == "'" + "'\\''" + "'"
    ensures ShellQuote(s)[0] == '\'' && ShellQuote(s)[|ShellQuote(s)| - 1] == '\''
  {
    assert QuotesReplaced("'") == "'\\''" + QuotesReplaced("") == "'\\''";
    if '\'' !in s { Unchanged(s); }
  }

  lemma {:induction false} Unchanged(s: string)
    requires '\'' !in s
    ensures QuotesReplaced(s) == s
  {
    if s != "" {
      Unchanged(s[1..]);
      assert [s[0]] + s[1..] == s;
    }
  }

  /** Characters that stand for themselves: in double quotes all but those and backslashes, elsewhere no blanks either. */
  predicate Ordinary(c: char, quote: Option<char>) {
    c < '\U{80}' && c != '\\' && c != '"' && (quote.None? ==> c != '\'' && c != ' ' && c != '\t' && c != '\n')
  }

  lemma {:induction false} OrdinaryText(st: Splitter, w: string, rest: string)
    requires st.quote.None? || (st.quote == Some('"') && st.inWord)
    requires forall i :: 0 <= i < |w| ==> Ordinary(w[i], st.quote)
    ensures WordsFrom(st, w + rest) == WordsFrom(st.(cur := st.cur + w, inWord := st.inWord || w != ""), rest)
    decreases |w|
  {
    hide WordsFrom;
    if w == "" {
      assert w + rest == rest && st.cur + w == st.cur;
    } else {
      var tail := w[1..];
      assert w + rest == [w[0]] + (tail + rest);
      TakeStep(st, w[0], tail + rest);
      OrdinaryText(st.(cur := st.cur + [w[0]], inWord := true), tail, rest);
      assert st.cur + [w[0]] + tail == st.cur + w;
    }
  }

  /** A blank, a tab or a line break ends a word. */
  lemma BlankEndsWord(words: seq<string>, w: string, blank: char, rest: string)
    requires w != "" && forall i :: 0 <= i < |w| ==> Ordinary(w[i], None)
    requires blank == ' ' || blank == '\t' || blank == '\n'
    ensures WordsFrom(Splitter(words, "", false, None), w + ([blank] + rest)) ==
            WordsFrom(Splitter(words + [w], "", false, None), rest)
    ensures WordsFrom(Splitter(words, "", false, None), [blank] + rest) == WordsFrom(Splitter(words, "", false, None), rest)
  {
    hide WordsFrom;
    OrdinaryText(Splitter(words, "", false, None), w, [blank] + rest);
    assert "" + w == w;
    TakeStep(Splitter(words, w, true, None), blank, rest);
    TakeStep(Splitter(words, "", false, None), blank, rest);
  }

  /** Double quotes keep blanks and single quotes, and make a word of nothing. */
  lemma DoubleQuotesKeep(st: Splitter, body: string, rest: string)
    requires st.quote.None? && forall i :: 0 <= i < |body| ==> Ordinary(body[i], Some('"'))
    ensures WordsFrom(st, ['"'] + (body + (['"'] + rest))) == WordsFrom(st.(cur := st.cur + body, inWord := true), rest)
  {
    hide WordsFrom;
    TakeStep(st, '"', body + (['"'] + rest));
    var open := st.(quote := Some('"'), inWord := true);
    OrdinaryText(open, body, ['"'] + rest);
    QuoteCloses(open.(cur := st.cur + body), rest);
  }

  lemma QuoteCloses(st: Splitter, rest: string)
    requires st.quote == Some('"')
    ensures WordsFrom(st, ['"'] + rest) == WordsFrom(st.(quote := None), rest)
  {
    assert (['"'] + rest)[1..] == rest;
  }

  /** A backslash keeps the next character, outside quotes and in double ones. */
  lemma BackslashKeeps(st: Splitter, c: char, rest: string)
    requires st.quote.None? || st.quote == Some('"')
    ensures WordsFrom(st, ['\\', c] + rest) == WordsFrom(st.(cur := st.cur + [c], inWord := true), rest)
  {
    assert (['\\', c] + rest)[2..] == rest;
  }
}
