/** The string functions of Go's library that several parts of the source use. */
module Strings {
  import opened Wrappers

  /** strings.Compare */
  function CompareStrings(a: string, b: string): int {
    if a == [] && b == [] then 0
    else if a == [] then -1
    else if b == [] then 1
    else if a[0] < b[0] then -1
    else if a[0] > b[0] then 1
    else CompareStrings(a[1..], b[1..])
  }

  /** At `n` the strings come apart, and `a` comes first. */
  predicate LessAt(a: string, b: string, n: nat) {
    n <= |a| && n < |b| && a[..n] == b[..n] && (n == |a| || a[n] < b[n])
  }

  /** Strings are compared character by character, a prefix coming first. */
  lemma {:induction false} ComparesLexically(a: string, b: string)
    ensures CompareStrings(a, b) < 0 <==> exists n: nat :: LessAt(a, b, n)
    ensures CompareStrings(a, b) == 0 <==> a == b
  {
    if a == "" {
      assert b != "" ==> LessAt(a, b, 0);
    } else if b != "" {
      var a', b' := a[1..], b[1..];
      assert a == [a[0]] + a' && b == [b[0]] + b';
      ComparesLexically(a', b');
      if a[0] < b[0] { assert LessAt(a, b, 0); }
      if a[0] == b[0] {
        if n: nat :| LessAt(a', b', n) {
          LessShift(a, b, n + 1);
          assert LessAt(a, b, n + 1);
        }
      }
      if n: nat :| LessAt(a, b, n) {
        if n > 0 { LessShift(a, b, n); }
      }
    }
  }

  lemma LessShift(a: string, b: string, n: nat)
    requires a != "" && b != "" && n > 0
    ensures LessAt(a, b, n) <==> a[0] == b[0] && LessAt(a[1..], b[1..], n - 1)
  {
    if n <= |a| && n <= |b| {
      assert a[..n] == [a[0]] + a[1..][..n - 1] && b[..n] == [b[0]] + b[1..][..n - 1];
      if a[..n] == b[..n] { assert a[..n][0] == b[..n][0] && a[..n][1..] == b[..n][1..]; }
    }
  }

  /** The first place of `c`. */
  function Index(s: string, c: char): (r: Option<nat>)
    ensures r.None? <==> c !in s
    ensures r.Some? ==> r.value < |s| && s[r.value] == c && c !in s[..r.value]
  {
    if s == "" then None
    else if s[0] == c then Some(0)
    else
      var r := Index(s[1..], c);
      if r.None? then None
      else
        assert s[..r.value + 1] == [s[0]] + s[1..][..r.value];
        Some(r.value + 1)
  }

  lemma {:induction false} IndexOf(a: string, c: char, b: string)
    requires c !in a
    ensures Index(a + [c] + b, c) == Some(|a|)
  {
    if a == "" {
      assert (a + [c] + b)[0] == c;
    } else {
      assert (a + [c] + b)[0] == a[0] != c && (a + [c] + b)[1..] == a[1..] + [c] + b;
      IndexOf(a[1..], c, b);
    }
  }

  lemma IndexFirst(x: char, s: string, c: char)
    requires x != c
    ensures Index([x] + s, c) == if Index(s, c).None? then None else Some(Index(s, c).value + 1)
  {
    assert ([x] + s)[0] == x && ([x] + s)[1..] == s;
  }

  lemma {:induction false} IndexAfter(a: string, c: char, b: string)
    requires c !in a
    ensures Index(a + b, c) == if Index(b, c).None? then None else Some(|a| + Index(b, c).value)
  {
    hide Index;
    if a == "" {
      assert a + b == b;
    } else {
      IndexAfter(a[1..], c, b);
      IndexFirst(a[0], a[1..] + b, c);
      assert a + b == [a[0]] + (a[1..] + b);
    }
  }

  /** strings.Split for a separator of one character. */
  function Split(s: string, sep: char): (parts: seq<string>)
    ensures parts != []
    decreases |s|
  {
    match Index(s, sep)
    case None => [s]
    case Some(i) => [s[..i]] + Split(s[i + 1..], sep)
  }

  /** strings.Join for a separator of one character. */
  function Join(parts: seq<string>, sep: char): string
    requires parts != []
  {
    if |parts| == 1 then parts[0] else parts[0] + [sep] + Join(parts[1..], sep)
  }

  /** Splitting loses nothing. */
  lemma {:induction false} SplitJoin(s: string, sep: char)
    ensures Join(Split(s, sep), sep) == s
    decreases |s|
  {
    if Index(s, sep).Some? {
      var i := Index(s, sep).value;
      SplitJoin(s[i + 1..], sep);
      assert Split(s, sep)[1..] == Split(s[i + 1..], sep);
      assert s == s[..i] + [sep] + s[i + 1..];
    }
  }

  lemma SplitFirst(a: string, sep: char, b: string)
    requires sep !in a
    ensures Split(a + [sep] + b, sep) == [a] + Split(b, sep)
  {
    IndexOf(a, sep, b);
    assert (a + [sep] + b)[..|a|] == a && (a + [sep] + b)[|a| + 1..] == b;
  }

  lemma SplitOne(s: string, sep: char)
    requires sep !in s
    ensures Split(s, sep) == [s]
  {
  }

  ghost predicate Without(parts: seq<string>, sep: char) { forall i :: 0 <= i < |parts| ==> sep !in parts[i] }

  lemma {:induction false} SplitWithout(s: string, sep: char)
    ensures Without(Split(s, sep), sep)
    decreases |s|
  {
    if Index(s, sep).Some? { SplitWithout(s[Index(s, sep).value + 1..], sep); }
  }

  /** Parts without the separator are found again when their list is split. */
  lemma {:induction false} JoinSplit(parts: seq<string>, sep: char)
    requires parts != [] && Without(parts, sep)
    ensures Split(Join(parts, sep), sep) == parts
  {
    if |parts| == 1 {
      assert parts == [parts[0]];
    } else {
      JoinSplit(parts[1..], sep);
      SplitFirst(parts[0], sep, Join(parts[1..], sep));
      assert parts == [parts[0]] + parts[1..];
    }
  }
}
