/**
 Merging the container's PATH into the one a shell reports
 (internal/lifecycle/probe.go:110-130).
 */
module PathMerge {
  import opened Strings
  import opened Wrappers

  type Paths = seq<string>

  /** An entry that is an sbin directory or lies under one. */
  predicate IsSbinPath(entry: string) {
    (|entry| >= 5 && entry[|entry| - 5..] == "/sbin") || exists i :: 0 <= i <= |entry| && InSbin(entry[i..])
  }

  predicate InSbin(suffix: string) { "/sbin/" <= suffix }

  /** The path goes through a directory sbin, below its first one, at `i`. */
  predicate SbinAt(entry: string, i: nat) {
    i + 5 <= |entry| && entry[i..i + 5] == "/sbin" && (i + 5 == |entry| || entry[i + 5] == '/')
  }

  lemma SbinIff(entry: string)
    ensures IsSbinPath(entry) <==> exists i: nat :: SbinAt(entry, i)
  {
    var n := |entry|;
    if n >= 5 && entry[n - 5..] == "/sbin" { assert SbinAt(entry, n - 5); }
    forall i: nat | i <= n
      ensures InSbin(entry[i..]) <==> SbinAt(entry, i) && i + 5 < n
    {
      InsideSbin(entry, i);
    }
    if i: nat :| SbinAt(entry, i) {
      if i + 5 == n { assert entry[n - 5..] == entry[i..i + 5]; }
    }
  }

  lemma InsideSbin(entry: string, i: nat)
    requires i <= |entry|
    ensures InSbin(entry[i..]) <==> SbinAt(entry, i) && i + 5 < |entry|
  {
    if |entry| - i >= 6 {
      var six := entry[i..][..6];
      assert six == entry[i..i + 5] + [entry[i + 5]];
      assert "/sbin/" == "/sbin" + ['/'];
      assert entry[i..i + 5] == six[..5] && six[5] == entry[i + 5];
    }
  }

  predicate Permitted(root: bool, entry: string) { root || !IsSbinPath(entry) }

  /** slices.Index. */
  function Position(list: Paths, entry: string): (r: Option<nat>)
    ensures r.None? <==> entry !in list
    ensures r.Some? ==> r.value < |list| && list[r.value] == entry && entry !in list[..r.value]
  {
    if list == [] then None
    else if list[0] == entry then Some(0)
    else
      var r := Position(list[1..], entry);
      if r.None? then None
      else
        assert list[..r.value + 1] == [list[0]] + list[1..][..r.value];
        Some(r.value + 1)
  }

  /** The list with the missing entries of `container` put in, the next one at `at`. */
  function Merge(list: Paths, at: nat, container: Paths, root: bool): (r: Paths)
    requires at <= |list|
    ensures |r| >= |list|
    decreases |container|
  {
    if container == [] then list
    else
      var entry := container[0];
      match Position(list, entry)
      case Some(i) => Merge(list, i + 1, container[1..], root)
      case None =>
        if Permitted(root, entry) then Merge(list[..at] + [entry] + list[at..], at + 1, container[1..], root)
        else Merge(list, at, container[1..], root)
  }

  method MergePaths(shellPath: string, containerPath: string, root: bool) returns (r: string)
    ensures r == Join(Merge(Split(shellPath, ':'), 0, Split(containerPath, ':'), root), ':')
  {
    hide Split, Join, IsSbinPath, Position;
    var result, insertAt: nat := Split(shellPath, ':'), 0;
    var container := Split(containerPath, ':');
    var n: nat := 0;
    while n < |container|
      invariant n <= |container| && insertAt <= |result| && result != []
      invariant Merge(result, insertAt, container[n..], root) == Merge(Split(shellPath, ':'), 0, container, root)
    {
      var entry := container[n];
      assert container[n..][1..] == container[n + 1..];
      var i := Position(result, entry);
      if i.Some? {
        insertAt := i.value + 1;
      } else if Permitted(root, entry) {
        result := result[..insertAt] + [entry] + result[insertAt..];
        insertAt := insertAt + 1;
      }
      n := n + 1;
    }
    r := Join(result, ':');
  }

  // Subsequences.

  predicate Subseq(a: Paths, b: Paths) {
    a == [] || (b != [] && if a[0] == b[0] then Subseq(a[1..], b[1..]) else Subseq(a, b[1..]))
  }

  predicate Distinct(list: Paths) { forall i, j :: 0 <= i < j < |list| ==> list[i] != list[j] }

  lemma {:induction false} SubseqSelf(a: Paths)
    ensures Subseq(a, a)
  {
    if a != [] { SubseqSelf(a[1..]); }
  }

  /** Dropping the first entry, or lengthening the longer list, keeps a subsequence one. */
  lemma {:induction false} SubseqLonger(a: Paths, x: string, b: Paths)
    requires Subseq(a, b)
    ensures a != [] ==> Subseq(a[1..], b)
    ensures Subseq(a, [x] + b)
    decreases |b|
  {
    assert ([x] + b)[1..] == b;
    if a != [] {
      assert [b[0]] + b[1..] == b;
      if a[0] == b[0] {
        SubseqLonger(a[1..], b[0], b[1..]);
      } else {
        SubseqLonger(a, b[0], b[1..]);
        SubseqLonger(a[1..], b[0], b[1..]);
      }
    }
  }

  lemma {:induction false} SubseqConcat(a: Paths, b: Paths, c: Paths, d: Paths)
    requires Subseq(a, b) && Subseq(c, d)
    ensures Subseq(a + c, b + d)
  {
    if b == [] {
      assert a + c == c && b + d == d;
    } else {
      assert (b + d)[0] == b[0] && (b + d)[1..] == b[1..] + d;
      if a == [] {
        SubseqConcat([], b[1..], c, d);
        assert [] + c == c;
        SubseqLonger(c, b[0], b[1..] + d);
        assert [b[0]] + (b[1..] + d) == b + d;
      } else if a[0] == b[0] {
        SubseqConcat(a[1..], b[1..], c, d);
        assert (a + c)[1..] == a[1..] + c;
      } else {
        SubseqConcat(a, b[1..], c, d);
      }
    }
  }

  lemma {:induction false} SubseqIn(a: Paths, b: Paths)
    requires Subseq(a, b)
    ensures forall x :: x in a ==> x in b
    decreases |b|
  {
    if a != [] {
      assert a == [a[0]] + a[1..] && b == [b[0]] + b[1..];
      if a[0] == b[0] { SubseqIn(a[1..], b[1..]); } else { SubseqIn(a, b[1..]); }
    }
  }

  lemma {:induction false} SubseqTrans(a: Paths, b: Paths, c: Paths)
    requires Subseq(a, b) && Subseq(b, c)
    ensures Subseq(a, c)
    decreases |b| + |c|
  {
    if a != [] {
      if b[0] != c[0] {
        SubseqTrans(a, b, c[1..]);
        SubseqLonger(a, c[0], c[1..]);
        assert [c[0]] + c[1..] == c;
      } else if a[0] == b[0] {
        SubseqTrans(a[1..], b[1..], c[1..]);
      } else {
        SubseqTrans(a, b[1..], c[1..]);
      }
    }
  }

  /** After its first entry, the rest of a subsequence is one of what follows that entry. */
  lemma {:induction false} SubseqHead(e: string, a: Paths, b: Paths)
    requires Subseq([e] + a, b)
    ensures Position(b, e).Some? && Subseq(a, b[Position(b, e).value + 1..])
  {
    assert ([e] + a)[1..] == a;
    if b[0] != e {
      SubseqHead(e, a, b[1..]);
      assert b[1..][Position(b[1..], e).value + 1..] == b[Position(b, e).value + 1..];
    }
  }

  // The permitted entries and the common ones.

  /** The entries of `container` that the result must hold. */
  function Wanted(shell: Paths, container: Paths, root: bool): Paths {
    if container == [] then []
    else
      (if container[0] in shell || Permitted(root, container[0]) then [container[0]] else []) +
      Wanted(shell, container[1..], root)
  }

  function Common(shell: Paths, container: Paths): Paths {
    if container == [] then []
    else (if container[0] in shell then [container[0]] else []) + Common(shell, container[1..])
  }

  /** The entries both lists have come in the same order in both. */
  predicate Agree(shell: Paths, container: Paths) { Subseq(Common(shell, container), shell) }

  lemma InsertKeeps(list: Paths, at: nat, e: string)
    requires at <= |list|
    ensures Subseq(list, list[..at] + [e] + list[at..])
  {
    hide Subseq;
    var front, back := list[..at], list[at..];
    SubseqSelf(front);
    SubseqSelf(back);
    SubseqLonger(back, e, back);
    SubseqConcat(front, front, back, [e] + back);
    assert front + back == list && front + ([e] + back) == front + [e] + back;
  }

  lemma InsertDistinct(list: Paths, at: nat, e: string)
    requires at <= |list| && Distinct(list) && e !in list
    ensures Distinct(list[..at] + [e] + list[at..])
  {
  }

  /** The shell's entries stay, in order; what is added is permitted and was missing; nothing permitted is missing. */
  lemma {:induction false} MergeLaws(list: Paths, at: nat, container: Paths, root: bool)
    requires at <= |list|
    ensures var r := Merge(list, at, container, root);
            Subseq(list, r) && (Distinct(list) ==> Distinct(r)) &&
            (forall e :: e in r <==> e in list || (e in container && Permitted(root, e)))
    decreases |container|
  {
    hide Subseq, Distinct, IsSbinPath;
    if container == [] {
      SubseqSelf(list);
    } else {
      var e := container[0];
      if Position(list, e).Some? {
        MergeLaws(list, Position(list, e).value + 1, container[1..], root);
      } else if Permitted(root, e) {
        var more := list[..at] + [e] + list[at..];
        InsertKeeps(list, at, e);
        if Distinct(list) { InsertDistinct(list, at, e); }
        MergeLaws(more, at + 1, container[1..], root);
        SubseqTrans(list, more, Merge(more, at + 1, container[1..], root));
        assert list == list[..at] + list[at..];
      } else {
        MergeLaws(list, at, container[1..], root);
      }
    }
  }

  /** Merging again adds nothing. */
  lemma {:induction false} MergeSettled(list: Paths, at: nat, container: Paths, root: bool)
    requires at <= |list| && forall e :: e in container && Permitted(root, e) ==> e in list
    ensures Merge(list, at, container, root) == list
    decreases |container|
  {
    if container != [] {
      var i := Position(list, container[0]);
      MergeSettled(list, if i.Some? then i.value + 1 else at, container[1..], root);
    }
  }

  lemma {:induction false} CommonIn(shell: Paths, container: Paths)
    ensures forall e :: e in Common(shell, container) <==> e in container && e in shell
  {
    if container != [] { CommonIn(shell, container[1..]); }
  }

  lemma WantedStep(shell: Paths, done: Paths, e: string, root: bool)
    ensures Wanted(shell, [e] + done, root) ==
            (if e in shell || Permitted(root, e) then [e] else []) + Wanted(shell, done, root)
    ensures Common(shell, [e] + done) == (if e in shell then [e] else []) + Common(shell, done)
  {
    hide IsSbinPath;
    assert ([e] + done)[1..] == done;
  }

  /** Entries already placed before `at`, and the common ones still to come after it, stay in order. */
  lemma {:induction false} MergeInOrder(
    shell: Paths, list: Paths, at: nat, placed: Paths, container: Paths, root: bool)
    requires at <= |list| && Distinct(list) && Distinct(container)
    requires Subseq(placed, list[..at]) && Subseq(Common(shell, container), list[at..])
    requires forall e :: e in container ==> (e in list <==> e in shell)
    ensures Subseq(placed + Wanted(shell, container, root), Merge(list, at, container, root))
    decreases |container|
  {
    hide *;
    if container == [] {
      NothingLeft(shell, list, at, root);
      NoMore(placed, list, at);
      assert placed + [] == placed;
    } else {
      var e, rest := container[0], container[1..];
      assert container == [e] + rest;
      MergeStep(list, at, e, rest, root);
      WantedStep(shell, rest, e, root);
      DistinctTail(container);
      var wanted := Wanted(shell, rest, root);
      assert [] + Common(shell, rest) == Common(shell, rest) && [] + wanted == wanted;
      assert placed + [e] + wanted == placed + ([e] + wanted);
      if e in list {
        PlacedFound(list, at, placed, e, Common(shell, rest));
        MergeInOrder(shell, list, Position(list, e).value + 1, placed + [e], rest, root);
      } else if Permitted(root, e) {
        PlacedNew(list, at, placed, e);
        MergeInOrder(shell, list[..at] + [e] + list[at..], at + 1, placed + [e], rest, root);
      } else {
        MergeInOrder(shell, list, at, placed, rest, root);
      }
    }
  }

  lemma NothingLeft(shell: Paths, list: Paths, at: nat, root: bool)
    requires at <= |list|
    ensures Merge(list, at, [], root) == list && Wanted(shell, [], root) == []
  {
  }

  lemma MergeStep(list: Paths, at: nat, e: string, rest: Paths, root: bool)
    requires at <= |list|
    ensures Merge(list, at, [e] + rest, root) ==
            if e in list then Merge(list, Position(list, e).value + 1, rest, root)
            else if Permitted(root, e) then Merge(list[..at] + [e] + list[at..], at + 1, rest, root)
            else Merge(list, at, rest, root)
  {
    hide IsSbinPath;
    assert ([e] + rest)[1..] == rest;
  }

  lemma PlacedNew(list: Paths, at: nat, placed: Paths, e: string)
    requires at <= |list| && Distinct(list) && Subseq(placed, list[..at]) && e !in list
    ensures var more := list[..at] + [e] + list[at..];
            Distinct(more) && Subseq(placed + [e], more[..at + 1]) && more[at + 1..] == list[at..]
    ensures forall x :: x in list[..at] + [e] + list[at..] <==> x == e || x in list
  {
    hide *;
    var more := list[..at] + [e] + list[at..];
    InsertDistinct(list, at, e);
    SubseqSelf([e]);
    SubseqConcat(placed, list[..at], [e], [e]);
    assert more[..at + 1] == list[..at] + [e] && more[at + 1..] == list[at..];
    assert list == list[..at] + list[at..];
  }

  lemma PlacedFound(list: Paths, at: nat, placed: Paths, e: string, common: Paths)
    requires at <= |list| && Distinct(list) && Subseq(placed, list[..at]) && Subseq([e] + common, list[at..]) && e in list
    ensures var i := Position(list, e).value;
            at <= i && Subseq(placed + [e], list[..i + 1]) && Subseq(common, list[i + 1..])
  {
    hide *;
    var i := Position(list, e).value;
    SubseqHead(e, common, list[at..]);
    FoundLater(list, at, e);
    assert list[..i + 1] == list[..at] + list[at..i] + [e];
    assert list[at..][i - at + 1..] == list[i + 1..];
    var front := list[..at] + list[at..i];
    assert front[..at] == list[..at];
    NoMore(placed, front, at);
    SubseqSelf([e]);
    SubseqConcat(placed, front, [e], [e]);
  }

  lemma NoMore(placed: Paths, list: Paths, at: nat)
    requires at <= |list| && Subseq(placed, list[..at])
    ensures Subseq(placed, list)
  {
    SubseqConcat(placed, list[..at], [], list[at..]);
    assert placed + [] == placed && list[..at] + list[at..] == list;
  }

  lemma DistinctTail(list: Paths)
    requires Distinct(list) && list != []
    ensures Distinct(list[1..]) && list[0] !in list[1..]
  {
  }

  lemma FoundLater(list: Paths, at: nat, e: string)
    requires at <= |list| && Distinct(list) && Position(list[at..], e).Some? && Position(list, e).Some?
    ensures Position(list, e).value == at + Position(list[at..], e).value
  {
    var i, j := Position(list, e).value, at + Position(list[at..], e).value;
    assert list[i] == e && list[j] == e;
  }

  /** Of two subsequences of a list without repetitions, one with entries of the other only is a subsequence of it. */
  lemma {:induction false} Within(a: Paths, s: Paths, r: Paths)
    requires Subseq(a, r) && Subseq(s, r) && Distinct(r) && forall e :: e in a ==> e in s
    ensures Subseq(a, s)
  {
    if a != [] {
      assert a[0] in s;
      var t := r[1..];
      DistinctTail(r);
      if s[0] == r[0] {
        SubseqIn(s[1..], t);
        if a[0] == r[0] {
          SubseqIn(a[1..], t);
          assert forall e :: e in a[1..] ==> e in s && e != s[0];
          assert forall e :: e in s && e != s[0] ==> e in s[1..];
          Within(a[1..], s[1..], t);
        } else {
          SubseqIn(a, t);
          assert forall e :: e in s && e != s[0] ==> e in s[1..];
          Within(a, s[1..], t);
        }
      } else {
        SubseqIn(s, t);
        Within(a, s, t);
      }
    }
  }

  lemma {:induction false} CommonOfWanted(shell: Paths, container: Paths, root: bool)
    ensures Subseq(Common(shell, container), Wanted(shell, container, root))
  {
    hide IsSbinPath;
    if container != [] {
      var e, rest := container[0], container[1..];
      CommonOfWanted(shell, rest, root);
      assert container == [e] + rest;
      WantedStep(shell, rest, e, root);
      SubseqSelf([e]);
      if e in shell {
        SubseqConcat([e], [e], Common(shell, rest), Wanted(shell, rest, root));
      } else {
        SubseqLonger(Common(shell, rest), e, Wanted(shell, rest, root));
        assert [] + Common(shell, rest) == Common(shell, rest);
        assert [] + Wanted(shell, rest, root) == Wanted(shell, rest, root);
      }
    }
  }

  /**
   The merged list has the shell's path as a subsequence; for lists without
   repetitions it has the container's wanted entries as one too exactly when
   the two lists agree on the order of their common entries.
   */
  lemma MergeIsSupersequence(shell: Paths, container: Paths, root: bool)
    requires Distinct(shell) && Distinct(container)
    ensures Subseq(shell, Merge(shell, 0, container, root))
    ensures Subseq(Wanted(shell, container, root), Merge(shell, 0, container, root)) <==> Agree(shell, container)
  {
    hide IsSbinPath, Subseq;
    var r, wanted, common := Merge(shell, 0, container, root), Wanted(shell, container, root), Common(shell, container);
    MergeLaws(shell, 0, container, root);
    CommonIn(shell, container);
    if Agree(shell, container) {
      assert shell[0..] == shell && shell[..0] == [];
      SubseqSelf([]);
      MergeInOrder(shell, shell, 0, [], container, root);
      assert [] + wanted == wanted;
    }
    if Subseq(wanted, r) {
      CommonOfWanted(shell, container, root);
      SubseqTrans(common, wanted, r);
      Within(common, shell, r);
    }
  }

  /** Merging the container's path into the merged path again gives the same text. */
  lemma MergeTwice(shellPath: string, containerPath: string, root: bool)
    ensures var merged := Merge(Split(shellPath, ':'), 0, Split(containerPath, ':'), root);
            merged != [] && Join(Merge(Split(Join(merged, ':'), ':'), 0, Split(containerPath, ':'), root), ':') == Join(merged, ':')
  {
    hide Split, Join, Merge, IsSbinPath;
    var shell, container := Split(shellPath, ':'), Split(containerPath, ':');
    var merged := Merge(shell, 0, container, root);
    MergeLaws(shell, 0, container, root);
    assert shell[0] in merged;
    SplitWithout(shellPath, ':');
    SplitWithout(containerPath, ':');
    forall i | 0 <= i < |merged|
      ensures ':' !in merged[i]
    {
      assert merged[i] in merged;
    }
    JoinSplit(merged, ':');
    MergeSettled(merged, 0, container, root);
  }
}
