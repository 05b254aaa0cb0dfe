/**
 JavaScript objects (internal/features/jsobject.go:15-106): properties keep the
 position they were first set at, and are listed with the array indices first.
 */
module JsObject {
  import Strings

  // Array indices.

  predicate IsDigit(c: char) { '0' <= c <= '9' }

  predicate AllDigits(k: string) { forall i :: 0 <= i < |k| ==> IsDigit(k[i]) }

  function DigitOf(c: char): nat
    requires IsDigit(c)
  {
    c as nat - '0' as nat
  }

  /** The number a string of digits writes. */
  function Number(k: string): nat
    requires AllDigits(k)
  {
    if k == "" then 0 else Number(k[..|k| - 1]) * 10 + DigitOf(k[|k| - 1])
  }

  /** The decimal digits of a number, without leading zeros. */
  function Format(n: nat): string {
    var last := ['0' + (n % 10) as char];
    if n < 10 then last else Format(n / 10) + last
  }

  const LIMIT := 0xFFFF_FFFF

  predicate IsArrayIndex(k: string) {
    k != "" && AllDigits(k) && Number(k) < LIMIT && Format(Number(k)) == k
  }

  /** How the source compares indices: the shorter is the smaller. */
  function CompareIndices(a: string, b: string): int {
    if |a| != |b| then |a| - |b| else Strings.CompareStrings(a, b)
  }

  function Pow10(n: nat): nat { if n == 0 then 1 else 10 * Pow10(n - 1) }

  /** A string of digits is less than the power of its length; without a leading zero it reaches the one below. */
  lemma {:induction false} NumberBounds(k: string)
    requires k != "" && AllDigits(k)
    ensures Number(k) < Pow10(|k|)
    ensures k[0] != '0' ==> Number(k) >= Pow10(|k| - 1)
  {
    if |k| > 1 {
      NumberBounds(k[..|k| - 1]);
    } else {
      assert k[..0] == "";
    }
  }

  lemma {:induction false} Pow10Monotone(m: nat, n: nat)
    requires m <= n
    ensures Pow10(m) <= Pow10(n)
    decreases n
  {
    if m < n { Pow10Monotone(m, n - 1); }
  }

  /** Digits are canonical exactly when they have no leading zero. */
  lemma {:induction false} CanonicalDigits(k: string)
    requires k != "" && AllDigits(k)
    ensures Format(Number(k)) == k <==> k == "0" || k[0] != '0'
  {
    var init, last := k[..|k| - 1], k[|k| - 1];
    assert k == init + [last];
    if init == "" {
      assert Number(k) == DigitOf(last);
    } else {
      CanonicalDigits(init);
      NumberBounds(init);
      assert Number(k) / 10 == Number(init) && Number(k) % 10 == DigitOf(last);
      if init[0] != '0' {
        Pow10Monotone(0, |init| - 1);
        assert Format(Number(k)) == Format(Number(init)) + [last];
      } else if Format(Number(k)) == k {
        FormatHead(Number(k));
      }
    }
  }

  lemma {:induction false} FormatHead(n: nat)
    ensures Format(n) != "" && AllDigits(Format(n)) && (Format(n)[0] == '0' ==> n == 0)
  {
    if n >= 10 { FormatHead(n / 10); }
  }

  lemma {:induction false} NumberHead(k: string)
    requires k != "" && AllDigits(k)
    ensures Number(k) == DigitOf(k[0]) * Pow10(|k| - 1) + Number(k[1..])
  {
    if |k| == 1 {
      assert k[..0] == "" && k[1..] == "" && Pow10(0) == 1;
    } else {
      var init := k[..|k| - 1];
      NumberHead(init);
      assert k[1..][..|k| - 2] == init[1..];
      TimesTen(DigitOf(k[0]), Pow10(|k| - 2));
    }
  }

  lemma TimesTen(d: nat, p: nat)
    ensures d * p * 10 == d * (10 * p)
  {
  }

  lemma {:induction false} GreaterDigit(d: nat, e: nat, p: nat, x: nat, y: nat)
    requires d < e && x < p
    ensures d * p + x < e * p + y
  {
    assert (e - 1) * p + p == e * p;
    if d + 1 < e { GreaterDigit(d, e - 1, p, x, y); }
  }

  lemma {:induction false} SameLengthOrder(a: string, b: string)
    requires |a| == |b| && AllDigits(a) && AllDigits(b)
    ensures Strings.CompareStrings(a, b) < 0 <==> Number(a) < Number(b)
    ensures Strings.CompareStrings(a, b) == 0 <==> a == b
  {
    if a != "" {
      NumberHead(a);
      NumberHead(b);
      if |a| > 1 {
        NumberBounds(a[1..]);
        NumberBounds(b[1..]);
      }
      SameLengthOrder(a[1..], b[1..]);
      assert a == [a[0]] + a[1..] && b == [b[0]] + b[1..];
      if a[0] < b[0] {
        GreaterDigit(DigitOf(a[0]), DigitOf(b[0]), Pow10(|a| - 1), Number(a[1..]), Number(b[1..]));
      } else if b[0] < a[0] {
        GreaterDigit(DigitOf(b[0]), DigitOf(a[0]), Pow10(|a| - 1), Number(b[1..]), Number(a[1..]));
      }
    }
  }

  /** The source's comparison of array indices is that of the numbers they write. */
  lemma IndexOrder(a: string, b: string)
    requires IsArrayIndex(a) && IsArrayIndex(b)
    ensures CompareIndices(a, b) < 0 <==> Number(a) < Number(b)
    ensures Number(a) == Number(b) <==> a == b
  {
    if |a| == |b| {
      SameLengthOrder(a, b);
    } else {
      var s, l := if |a| < |b| then a else b, if |a| < |b| then b else a;
      NumberBounds(s);
      NumberBounds(l);
      CanonicalDigits(l);
      Pow10Monotone(|s|, |l| - 1);
    }
  }

  // The order of the properties.

  predicate NoDuplicates(keys: seq<string>) { forall i, j :: 0 <= i < j < |keys| ==> keys[i] != keys[j] }

  function Indices(keys: seq<string>): (r: seq<string>)
    ensures forall k :: k in r <==> k in keys && IsArrayIndex(k)
  {
    if keys == [] then []
    else
      var last := keys[|keys| - 1];
      assert keys == keys[..|keys| - 1] + [last];
      if IsArrayIndex(last) then Indices(keys[..|keys| - 1]) + [last] else Indices(keys[..|keys| - 1])
  }

  function Others(keys: seq<string>): (r: seq<string>)
    ensures forall k :: k in r <==> k in keys && !IsArrayIndex(k)
  {
    if keys == [] then []
    else
      var last := keys[|keys| - 1];
      assert keys == keys[..|keys| - 1] + [last];
      if IsArrayIndex(last) then Others(keys[..|keys| - 1]) else Others(keys[..|keys| - 1]) + [last]
  }

  /** The keys are array indices in increasing numeric order. */
  predicate Ascending(keys: seq<string>) {
    (forall i :: 0 <= i < |keys| ==> IsArrayIndex(keys[i])) &&
    forall i, j :: 0 <= i < j < |keys| ==> Number(keys[i]) < Number(keys[j])
  }

  function InsertIndex(k: string, sorted: seq<string>): (r: seq<string>)
    ensures multiset(r) == multiset(sorted) + multiset{k}
  {
    if sorted == [] then [k]
    else
      var last := sorted[|sorted| - 1];
      assert sorted == sorted[..|sorted| - 1] + [last];
      if CompareIndices(k, last) < 0 then InsertIndex(k, sorted[..|sorted| - 1]) + [last] else sorted + [k]
  }

  function SortIndices(keys: seq<string>): (r: seq<string>)
    ensures multiset(r) == multiset(keys)
  {
    if keys == [] then []
    else
      assert keys == keys[..|keys| - 1] + [keys[|keys| - 1]];
      InsertIndex(keys[|keys| - 1], SortIndices(keys[..|keys| - 1]))
  }

  /** The order JSON.stringify writes properties in. */
  function Order(keys: seq<string>): seq<string> { SortIndices(Indices(keys)) + Others(keys) }

  lemma InSorted(keys: seq<string>)
    ensures forall k :: k in SortIndices(keys) <==> k in keys
  {
    assert forall k :: k in SortIndices(keys) <==> k in multiset(SortIndices(keys));
    assert forall k :: k in keys <==> k in multiset(keys);
  }

  lemma AppendAscends(keys: seq<string>, k: string)
    requires Ascending(keys) && IsArrayIndex(k) && forall x :: x in keys ==> Number(x) < Number(k)
    ensures Ascending(keys + [k])
  {
    hide IsArrayIndex;
  }

  lemma EmptyAscends()
    ensures Ascending([])
  {
  }

  lemma InInserted(k: string, sorted: seq<string>)
    ensures forall x :: x in InsertIndex(k, sorted) <==> x == k || x in sorted
  {
    assert forall x :: x in InsertIndex(k, sorted) <==> x in multiset(InsertIndex(k, sorted));
    assert forall x :: x in sorted <==> x in multiset(sorted);
  }

  lemma AscendingParts(keys: seq<string>)
    requires Ascending(keys) && keys != []
    ensures Ascending(keys[..|keys| - 1]) && IsArrayIndex(keys[|keys| - 1])
    ensures forall x :: x in keys[..|keys| - 1] ==> Number(x) < Number(keys[|keys| - 1])
  {
    hide IsArrayIndex;
  }

  lemma InsertIndexStep(k: string, sorted: seq<string>)
    ensures if sorted == [] then InsertIndex(k, sorted) == [k]
            else
              var last := sorted[|sorted| - 1];
              if CompareIndices(k, last) < 0 then InsertIndex(k, sorted) == InsertIndex(k, sorted[..|sorted| - 1]) + [last]
              else InsertIndex(k, sorted) == sorted + [k]
  {
  }

  lemma {:induction false} InsertIndexAscends(k: string, sorted: seq<string>)
    requires IsArrayIndex(k) && Ascending(sorted) && k !in sorted
    ensures Ascending(InsertIndex(k, sorted))
  {
    hide IsArrayIndex, CompareIndices, Number, InsertIndex, Ascending;
    InsertIndexStep(k, sorted);
    if sorted == [] {
      assert [] + [k] == [k];
      EmptyAscends();
      AppendAscends([], k);
    } else {
      var init, last := sorted[..|sorted| - 1], sorted[|sorted| - 1];
      assert sorted == init + [last];
      AscendingParts(sorted);
      IndexOrder(k, last);
      if CompareIndices(k, last) < 0 {
        InsertIndexAscends(k, init);
        InInserted(k, init);
        AppendAscends(InsertIndex(k, init), last);
      } else {
        AppendAscends(sorted, k);
      }
    }
  }

  lemma {:induction false} SortAscends(keys: seq<string>)
    requires NoDuplicates(keys) && forall i :: 0 <= i < |keys| ==> IsArrayIndex(keys[i])
    ensures Ascending(SortIndices(keys))
  {
    hide IsArrayIndex;
    if keys != [] {
      SortAscends(keys[..|keys| - 1]);
      InSorted(keys[..|keys| - 1]);
      InsertIndexAscends(keys[|keys| - 1], SortIndices(keys[..|keys| - 1]));
    }
  }

  lemma {:induction false} OthersDistinct(keys: seq<string>)
    requires NoDuplicates(keys)
    ensures NoDuplicates(Indices(keys)) && NoDuplicates(Others(keys))
  {
    hide IsArrayIndex;
    if keys != [] { OthersDistinct(keys[..|keys| - 1]); }
  }

  /** The order: the array indices, ascending, and then the other keys as they were added; no key is lost or repeated. */
  lemma OrderLaws(keys: seq<string>)
    requires NoDuplicates(keys)
    ensures Ascending(SortIndices(Indices(keys))) && NoDuplicates(Order(keys))
    ensures forall k :: k in Order(keys) <==> k in keys
  {
    hide IsArrayIndex, Number;
    OthersDistinct(keys);
    SortAscends(Indices(keys));
    InSorted(Indices(keys));
    var idx, rest := SortIndices(Indices(keys)), Others(keys);
    forall i, j | 0 <= i < j < |Order(keys)|
      ensures Order(keys)[i] != Order(keys)[j]
    {
      if i < |idx| <= j {
        assert idx[i] in idx && rest[j - |idx|] in rest;
      }
    }
  }

  // Sorting the sorted.

  lemma LastKey(keys: seq<string>)
    ensures keys == [] ==> Indices(keys) == [] && Others(keys) == [] && SortIndices(keys) == []
    ensures keys != [] ==>
              var init, last := keys[..|keys| - 1], keys[|keys| - 1];
              keys == init + [last] && SortIndices(keys) == InsertIndex(last, SortIndices(init)) &&
              Indices(keys) == Indices(init) + (if IsArrayIndex(last) then [last] else []) &&
              Others(keys) == Others(init) + (if IsArrayIndex(last) then [] else [last])
  {
  }

  lemma {:induction false} IndicesOfIndices(keys: seq<string>)
    requires forall i :: 0 <= i < |keys| ==> IsArrayIndex(keys[i])
    ensures Indices(keys) == keys && Others(keys) == []
  {
    hide IsArrayIndex, Indices, Others;
    LastKey(keys);
    if keys != [] { IndicesOfIndices(keys[..|keys| - 1]); }
  }

  lemma {:induction false} AscendingIsSorted(keys: seq<string>)
    requires Ascending(keys)
    ensures SortIndices(keys) == keys
  {
    hide *;
    LastKey(keys);
    if keys != [] {
      var init, last := keys[..|keys| - 1], keys[|keys| - 1];
      AscendingParts(keys);
      AscendingIsSorted(init);
      InsertIndexStep(last, init);
      if init != [] {
        AscendingParts(init);
        assert init[|init| - 1] in init;
        IndexOrder(last, init[|init| - 1]);
      }
    }
  }

  lemma {:induction false} SplitConcat(a: seq<string>, b: seq<string>)
    requires forall i :: 0 <= i < |b| ==> !IsArrayIndex(b[i])
    ensures Indices(a + b) == Indices(a) && Others(a + b) == Others(a) + b
  {
    hide IsArrayIndex;
    if b == [] {
      assert a + b == a && Others(a) + b == Others(a);
    } else {
      assert (a + b)[..|a + b| - 1] == a + b[..|b| - 1];
      assert (a + b)[|a + b| - 1] == b[|b| - 1];
      SplitConcat(a, b[..|b| - 1]);
      assert Others(a) + b == Others(a) + b[..|b| - 1] + [b[|b| - 1]];
    }
  }

  /** Ordering again changes nothing. */
  lemma OrderTwice(keys: seq<string>)
    requires NoDuplicates(keys)
    ensures Order(Order(keys)) == Order(keys)
  {
    hide IsArrayIndex, Number, Indices, Others, SortIndices;
    OrderLaws(keys);
    var idx, rest := SortIndices(Indices(keys)), Others(keys);
    assert forall i :: 0 <= i < |rest| ==> rest[i] in rest;
    SplitConcat(idx, rest);
    IndicesOfIndices(idx);
    AscendingIsSorted(idx);
    assert [] + rest == rest;
  }

  // Properties.

  datatype Properties<V> = Properties(keys: seq<string>, vals: map<string, V>)
  {
    ghost predicate Valid() {
      NoDuplicates(keys) && forall k :: k in keys <==> k in vals
    }
  }

  function Empty<V>(): (o: Properties<V>)
    ensures o.Valid()
  {
    Properties([], map[])
  }

  /** obj[k] = v */
  function Put<V>(o: Properties<V>, k: string, v: V): (r: Properties<V>)
    ensures o.Valid() ==> r.Valid()
  {
    Properties(if k in o.vals then o.keys else o.keys + [k], o.vals[k := v])
  }

  /** The first `n` properties of `src`, set on `o`. */
  function PutAll<V>(o: Properties<V>, src: Properties<V>, n: nat): (r: Properties<V>)
    requires n <= |src.keys| && src.Valid()
    ensures o.Valid() ==> r.Valid()
  {
    if n == 0 then o
    else
      assert src.keys[n - 1] in src.keys;
      Put(PutAll(o, src, n - 1), src.keys[n - 1], src.vals[src.keys[n - 1]])
  }

  /** {...o, ...src} */
  function Spread<V>(o: Properties<V>, src: Properties<V>): (r: Properties<V>)
    requires src.Valid()
    ensures o.Valid() ==> r.Valid()
  {
    PutAll(o, src, |src.keys|)
  }

  function Without(keys: seq<string>, k: string): (r: seq<string>)
    ensures forall x :: x in r <==> x in keys && x != k
  {
    if keys == [] then []
    else
      var last := keys[|keys| - 1];
      assert keys == keys[..|keys| - 1] + [last];
      if last == k then Without(keys[..|keys| - 1], k) else Without(keys[..|keys| - 1], k) + [last]
  }

  /** delete obj[k] */
  function Delete<V>(o: Properties<V>, k: string): (r: Properties<V>)
    ensures o.Valid() ==> r.Valid()
  {
    WithoutKeepsDistinct(o.keys, k);
    Properties(Without(o.keys, k), o.vals - {k})
  }

  lemma WithoutStep(keys: seq<string>, k: string)
    ensures keys == [] ==> Without(keys, k) == []
    ensures keys != [] ==>
              var init, last := keys[..|keys| - 1], keys[|keys| - 1];
              keys == init + [last] && Without(keys, k) == Without(init, k) + if last == k then [] else [last]
  {
  }

  lemma AppendDistinct(keys: seq<string>, k: string)
    ensures NoDuplicates(keys + [k]) <==> NoDuplicates(keys) && k !in keys
  {
    var more := keys + [k];
    if NoDuplicates(more) {
      forall i | 0 <= i < |keys|
        ensures keys[i] != k
      {
        assert more[i] == keys[i] && more[|keys|] == k;
      }
      forall i, j | 0 <= i < j < |keys|
        ensures keys[i] != keys[j]
      {
        assert more[i] == keys[i] && more[j] == keys[j];
      }
    }
  }

  lemma {:induction false} WithoutKeepsDistinct(keys: seq<string>, k: string)
    ensures NoDuplicates(keys) ==> NoDuplicates(Without(keys, k))
    ensures k !in keys ==> Without(keys, k) == keys
  {
    hide Without, NoDuplicates;
    WithoutStep(keys, k);
    if keys != [] {
      var init, last := keys[..|keys| - 1], keys[|keys| - 1];
      WithoutKeepsDistinct(init, k);
      AppendDistinct(init, last);
      AppendDistinct(Without(init, k), last);
      assert Without(init, k) + [] == Without(init, k);
    }
  }

  // Spreading is associative, with the empty object as unit.

  /** The keys of `more` that are not in `have`. */
  function NewKeys(more: seq<string>, have: seq<string>): (r: seq<string>)
    ensures forall k :: k in r <==> k in more && k !in have
  {
    if more == [] then []
    else
      var last := more[|more| - 1];
      assert more == more[..|more| - 1] + [last];
      if last in have then NewKeys(more[..|more| - 1], have) else NewKeys(more[..|more| - 1], have) + [last]
  }

  lemma NewKeysStep(more: seq<string>, have: seq<string>)
    ensures more == [] ==> NewKeys(more, have) == []
    ensures more != [] ==>
              var init, last := more[..|more| - 1], more[|more| - 1];
              more == init + [last] &&
              NewKeys(more, have) == NewKeys(init, have) + if last in have then [] else [last]
  {
  }

  lemma {:induction false} NewKeysConcat(a: seq<string>, b: seq<string>, have: seq<string>)
    ensures NewKeys(a + b, have) == NewKeys(a, have) + NewKeys(b, have)
  {
    hide NewKeys;
    NewKeysStep(b, have);
    if b == [] {
      assert a + b == a;
    } else {
      var init, last := b[..|b| - 1], b[|b| - 1];
      assert (a + b)[..|a + b| - 1] == a + init && (a + b)[|a + b| - 1] == last;
      NewKeysStep(a + b, have);
      NewKeysConcat(a, init, have);
    }
  }

  lemma {:induction false} NewKeysTwice(c: seq<string>, b: seq<string>, a: seq<string>)
    ensures NewKeys(c, a + NewKeys(b, a)) == NewKeys(NewKeys(c, b), a)
  {
    hide NewKeys;
    NewKeysStep(c, a + NewKeys(b, a));
    NewKeysStep(c, b);
    if c == [] {
      NewKeysStep([], a);
    } else {
      var init, last := c[..|c| - 1], c[|c| - 1];
      NewKeysTwice(init, b, a);
      assert last in a + NewKeys(b, a) <==> last in a || last in b;
      if last !in b {
        NewKeysConcat(NewKeys(init, b), [last], a);
        NewKeysStep([last], a);
        NewKeysStep([], a);
        assert [last][..0] == [];
      } else {
        assert NewKeys(init, b) + [] == NewKeys(init, b);
        assert NewKeys(init, a + NewKeys(b, a)) + [] == NewKeys(init, a + NewKeys(b, a));
      }
    }
  }

  lemma {:induction false} PutAllKeys<V>(o: Properties<V>, src: Properties<V>, n: nat)
    requires o.Valid() && src.Valid() && n <= |src.keys|
    ensures PutAll(o, src, n).keys == o.keys + NewKeys(src.keys[..n], o.keys)
    ensures PutAll(o, src, n).Valid()
  {
    hide *;
    NewKeysStep(src.keys[..n], o.keys);
    if n == 0 {
      NothingPut(o, src);
      assert o.keys + [] == o.keys;
    } else {
      var last, before := src.keys[n - 1], NewKeys(src.keys[..n - 1], o.keys);
      PutAllKeys(o, src, n - 1);
      PutNext(o, src, n);
      assert src.keys[..n][..n - 1] == src.keys[..n - 1];
      assert last in o.keys + before <==> last in o.keys;
      assert o.keys + before + [last] == o.keys + (before + [last]) && before + [] == before;
    }
  }

  lemma PutNext<V>(o: Properties<V>, src: Properties<V>, n: nat)
    requires o.Valid() && src.Valid() && 0 < n <= |src.keys|
    ensures var keys, last := PutAll(o, src, n - 1).keys, src.keys[n - 1];
            last !in src.keys[..n - 1] &&
            PutAll(o, src, n).keys == keys + (if last in keys then [] else [last]) && PutAll(o, src, n).Valid()
  {
    hide NoDuplicates, PutAll;
    PutOne(o, src, n - 1);
    PutKeys(PutAll(o, src, n - 1), src.keys[n - 1], src.vals[src.keys[n - 1]]);
    PrefixDistinct(src.keys, n);
  }

  lemma PutKeys<V>(o: Properties<V>, k: string, v: V)
    requires o.Valid()
    ensures Put(o, k, v).keys == o.keys + (if k in o.keys then [] else [k])
  {
    assert o.keys + [] == o.keys;
  }

  lemma NothingPut<V>(o: Properties<V>, src: Properties<V>)
    requires src.Valid()
    ensures PutAll(o, src, 0) == o
  {
  }

  lemma PutOne<V>(o: Properties<V>, src: Properties<V>, i: nat)
    requires src.Valid() && i < |src.keys|
    ensures src.keys[i] in src.vals
    ensures PutAll(o, src, i + 1) == Put(PutAll(o, src, i), src.keys[i], src.vals[src.keys[i]])
  {
  }

  lemma PrefixDistinct(keys: seq<string>, n: nat)
    requires NoDuplicates(keys) && 0 < n <= |keys|
    ensures keys[n - 1] !in keys[..n - 1]
  {
  }

  lemma {:induction false} PutAllVals<V>(o: Properties<V>, src: Properties<V>, n: nat)
    requires o.Valid() && src.Valid() && n <= |src.keys|
    ensures var r := PutAll(o, src, n);
            (forall k :: k in r.vals <==> k in o.vals || k in src.keys[..n]) &&
            (forall k :: k in r.vals ==> r.vals[k] == if k in src.keys[..n] then src.vals[k] else o.vals[k])
  {
    hide NoDuplicates, PutAll;
    if n == 0 {
      NothingPut(o, src);
    } else {
      PutAllVals(o, src, n - 1);
      PutOne(o, src, n - 1);
      hide Properties.Valid;
      assert src.keys[..n] == src.keys[..n - 1] + [src.keys[n - 1]];
    }
  }

  lemma SpreadShape<V>(o: Properties<V>, src: Properties<V>)
    requires o.Valid() && src.Valid()
    ensures Spread(o, src) == Properties(o.keys + NewKeys(src.keys, o.keys), o.vals + src.vals)
    ensures Spread(o, src).Valid()
  {
    hide NewKeys, PutAll, NoDuplicates;
    PutAllKeys(o, src, |src.keys|);
    PutAllVals(o, src, |src.keys|);
    assert src.keys[..|src.keys|] == src.keys;
    assert Spread(o, src).vals == o.vals + src.vals;
  }

  lemma SpreadIsAssociative<V>(a: Properties<V>, b: Properties<V>, c: Properties<V>)
    requires a.Valid() && b.Valid() && c.Valid()
    ensures Spread(Spread(a, b), c) == Spread(a, Spread(b, c))
  {
    hide *;
    SpreadShape(a, b);
    SpreadShape(b, c);
    SpreadShape(Spread(a, b), c);
    SpreadShape(a, Spread(b, c));
    var ab := NewKeys(b.keys, a.keys);
    NewKeysConcat(b.keys, NewKeys(c.keys, b.keys), a.keys);
    NewKeysTwice(c.keys, b.keys, a.keys);
    assert a.keys + ab + NewKeys(c.keys, a.keys + ab) == a.keys + (ab + NewKeys(c.keys, a.keys + ab));
    assert a.vals + b.vals + c.vals == a.vals + (b.vals + c.vals);
  }

  /** The empty object is the unit of spreading. */
  lemma SpreadUnit<V>(a: Properties<V>)
    requires a.Valid()
    ensures Spread(Empty(), a) == a && Spread(a, Empty()) == a
  {
    hide *;
    NothingInEmpty<V>();
    SpreadShape(Empty(), a);
    SpreadShape(a, Empty());
    NewKeysOfNone(a.keys);
    NewKeysStep([], a.keys);
    UnitShape(a);
  }

  lemma NothingInEmpty<V>()
    ensures Empty<V>() == Properties([], map[])
  {
  }

  lemma UnitShape<V>(a: Properties<V>)
    ensures Properties([] + a.keys, map[] + a.vals) == a && Properties(a.keys + [], a.vals + map[]) == a
  {
  }

  lemma {:induction false} NewKeysOfNone(keys: seq<string>)
    ensures NewKeys(keys, []) == keys
  {
    hide NewKeys;
    NewKeysStep(keys, []);
    if keys != [] { NewKeysOfNone(keys[..|keys| - 1]); }
  }

  // The object itself.

  class Obj<V> {
    var keys: seq<string>
    var vals: map<string, V>

    ghost function View(): Properties<V>
      reads this
    {
      Properties(keys, vals)
    }

    constructor ()
      ensures View() == Empty()
    {
      keys, vals := [], map[];
    }

    method Set(k: string, v: V)
      modifies this
      ensures View() == Put(old(View()), k, v)
    {
      if k !in vals {
        keys := keys + [k];
      }
      vals := vals[k := v];
    }

    method Remove(k: string)
      requires View().Valid()
      modifies this
      ensures View() == Delete(old(View()), k)
    {
      if k in vals {
        vals := vals - {k};
        keys := Without(keys, k);
      } else {
        WithoutKeepsDistinct(keys, k);
        assert vals == vals - {k};
      }
    }

    method SpreadInto(src: Obj<V>) returns (out: Obj<V>)
      requires src.View().Valid()
      ensures fresh(out) && out.View() == Spread(View(), src.View())
    {
      hide Put, NoDuplicates, PutAll;
      out := new Obj();
      out.keys, out.vals := keys, vals;
      NothingPut(View(), src.View());
      for i := 0 to |src.keys|
        invariant fresh(out) && out.View() == PutAll(View(), src.View(), i)
        invariant src.View() == old(src.View()) && View() == old(View())
      {
        PutOne(View(), src.View(), i);
        out.Set(src.keys[i], src.vals[src.keys[i]]);
      }
    }

    /** The properties in the order JSON.stringify writes them. */
    method OrderedKeys() returns (order: seq<string>)
      ensures order == Order(keys)
    {
      hide Indices, Others, SortIndices, IsArrayIndex;
      LastKey([]);
      var idx, rest: seq<string> := [], [];
      for i := 0 to |keys|
        invariant idx == Indices(keys[..i]) && rest == Others(keys[..i])
      {
        LastKey(keys[..i + 1]);
        assert keys[..i + 1][..i] == keys[..i];
        if IsArrayIndex(keys[i]) {
          idx := idx + [keys[i]];
        } else {
          rest := rest + [keys[i]];
        }
      }
      assert keys[..|keys|] == keys;
      order := SortIndices(idx) + rest;
    }
  }

  /** An array index is a number up to 2^32 - 2 without leading zeros. */
  lemma IndexIff(k: string)
    ensures IsArrayIndex(k) <==>
            k != "" && AllDigits(k) && (k == "0" || k[0] != '0') && Number(k) <= 4294967294
  {
    if k != "" && AllDigits(k) { CanonicalDigits(k); }
  }
}
