/**
 JSON.parse and JSON.stringify on JavaScript values (internal/features/jsobject.go:67-155),
 over the tokens of the text: objects keep their properties in insertion
 order and are written with the array indices first.
 */
module JsValues {
  import opened JsObject
  import opened JsonTokens
  import opened Wrappers

  /** An object's property `keys[i]` has the value `vals[i]`. */
  datatype Value =
    | JsString(s: string)
    | JsAtom(text: string)
    | JsArray(elems: seq<Value>)
    | JsObject(keys: seq<string>, vals: seq<Value>)

  // Lists of properties.

  /** Where the key `k` is. */
  function IndexOf(keys: seq<string>, k: string): (i: nat)
    requires k in keys
    ensures i < |keys| && keys[i] == k
  {
    if keys[0] == k then 0 else 1 + IndexOf(keys[1..], k)
  }

  /** The values of the keys `order`, in that order. */
  function Arrange<V>(keys: seq<string>, vals: seq<V>, order: seq<string>): (r: seq<V>)
    requires |keys| == |vals| && forall i :: 0 <= i < |order| ==> order[i] in keys
    ensures |r| == |order| && forall i :: 0 <= i < |order| ==> r[i] == vals[IndexOf(keys, order[i])]
  {
    seq(|order|, i requires 0 <= i < |order| => vals[IndexOf(keys, order[i])])
  }

  /** The values in the order JSON.stringify writes their keys in. */
  function Ordered<V>(keys: seq<string>, vals: seq<V>): (r: seq<V>)
    requires |keys| == |vals| && NoDuplicates(keys)
    ensures |r| == |Order(keys)|
    ensures forall i :: 0 <= i < |r| ==> Order(keys)[i] in keys && r[i] == vals[IndexOf(keys, Order(keys)[i])]
  {
    OrderLaws(keys);
    Arrange(keys, vals, Order(keys))
  }

  /** No object has two properties of one name. */
  predicate WellFormed(v: Value) {
    match v
    case JsString(_) => true
    case JsAtom(_) => true
    case JsArray(elems) => AllWellFormed(elems)
    case JsObject(keys, vals) => |keys| == |vals| && NoDuplicates(keys) && AllWellFormed(vals)
  }

  predicate AllWellFormed(vals: seq<Value>) { forall i :: 0 <= i < |vals| ==> WellFormed(vals[i]) }

  // Printing.

  function Join(parts: seq<Tokens>): Tokens {
    if parts == [] then [] else if |parts| == 1 then parts[0] else parts[0] + [Comma] + Join(parts[1..])
  }

  function Members(keys: seq<string>, parts: seq<Tokens>): (r: seq<Tokens>)
    requires |keys| == |parts|
    ensures |r| == |parts| && forall i :: 0 <= i < |r| ==> r[i] == [StringToken(keys[i]), Colon] + parts[i]
  {
    seq(|parts|, i requires 0 <= i < |parts| => [StringToken(keys[i]), Colon] + parts[i])
  }

  function Print(v: Value): Tokens
    requires WellFormed(v)
  {
    match v
    case JsString(s) => [StringToken(s)]
    case JsAtom(text) => [Atom(text)]
    case JsArray(elems) => [LBrack] + Join(PrintEach(elems)) + [RBrack]
    case JsObject(keys, vals) => [LBrace] + Join(Members(Order(keys), Ordered(keys, PrintEach(vals)))) + [RBrace]
  }

  function PrintEach(vals: seq<Value>): (parts: seq<Tokens>)
    requires AllWellFormed(vals)
    ensures |parts| == |vals| && forall i :: 0 <= i < |vals| ==> parts[i] == Print(vals[i])
  {
    seq(|vals|, i requires 0 <= i < |vals| => Print(vals[i]))
  }

  // Parsing.

  /** obj[k] = v: a repeated key keeps its first position and takes the last value. */
  function SetValue(keys: seq<string>, vals: seq<Value>, k: string, v: Value): (seq<string>, seq<Value>)
    requires |keys| == |vals|
  {
    if k in keys then (keys, vals[IndexOf(keys, k) := v]) else (keys + [k], vals + [v])
  }

  function Parse(ts: Tokens): (r: Option<(Value, Tokens)>)
    ensures r.Some? ==> |r.value.1| < |ts|
    decreases |ts|, 0
  {
    if ts == [] then None
    else match ts[0]
      case StringToken(s) => Some((JsString(s), ts[1..]))
      case Atom(text) => Some((JsAtom(text), ts[1..]))
      case LBrack =>
        if |ts| > 1 && ts[1] == RBrack then Some((JsArray([]), ts[2..])) else ParseElements(ts[1..], [])
      case LBrace =>
        if |ts| > 1 && ts[1] == RBrace then Some((JsObject([], []), ts[2..])) else ParseMembers(ts[1..], [], [])
      case _ => None
  }

  function ParseElements(ts: Tokens, elems: seq<Value>): (r: Option<(Value, Tokens)>)
    ensures r.Some? ==> |r.value.1| < |ts|
    decreases |ts|, 1
  {
    var p := Parse(ts);
    if p.None? || p.value.1 == [] then None
    else
      var (v, rest) := p.value;
      if rest[0] == Comma then ParseElements(rest[1..], elems + [v])
      else if rest[0] == RBrack then Some((JsArray(elems + [v]), rest[1..]))
      else None
  }

  function ParseMembers(ts: Tokens, keys: seq<string>, vals: seq<Value>): (r: Option<(Value, Tokens)>)
    requires |keys| == |vals|
    ensures r.Some? ==> |r.value.1| < |ts|
    decreases |ts|, 1
  {
    if |ts| < 2 || !ts[0].StringToken? || ts[1] != Colon then None
    else
      var p := Parse(ts[2..]);
      if p.None? || p.value.1 == [] then None
      else
        var (v, rest) := p.value;
        var (keys', vals') := SetValue(keys, vals, ts[0].s, v);
        if rest[0] == Comma then ParseMembers(rest[1..], keys', vals')
        else if rest[0] == RBrace then Some((JsObject(keys', vals'), rest[1..]))
        else None
  }

  /** What a value is after it was written and read: its objects have their properties in order. */
  function Normal(v: Value): Value
    requires WellFormed(v)
  {
    match v
    case JsString(_) => v
    case JsAtom(_) => v
    case JsArray(elems) => JsArray(NormalEach(elems))
    case JsObject(keys, vals) => JsObject(Order(keys), Ordered(keys, NormalEach(vals)))
  }

  function NormalEach(vals: seq<Value>): (r: seq<Value>)
    requires AllWellFormed(vals)
    ensures |r| == |vals| && forall i :: 0 <= i < |vals| ==> r[i] == Normal(vals[i])
  {
    seq(|vals|, i requires 0 <= i < |vals| => Normal(vals[i]))
  }

  // Reading what was written.

  /** `ts` reads as `v`, whatever follows. */
  ghost predicate ReadsAs(ts: Tokens, v: Value) {
    ts != [] && ts[0] != RBrack && ts[0] != RBrace && forall rest: Tokens :: Parse(ts + rest) == Some((v, rest))
  }

  lemma {:induction false} ElementsRead(parts: seq<Tokens>, vals: seq<Value>, elems: seq<Value>, rest: Tokens)
    requires |parts| == |vals| > 0 && forall i :: 0 <= i < |parts| ==> ReadsAs(parts[i], vals[i])
    ensures ParseElements(Join(parts) + [RBrack] + rest, elems) == Some((JsArray(elems + vals), rest))
    decreases |parts|
  {
    hide Parse;
    assert ReadsAs(parts[0], vals[0]);
    if |parts| == 1 {
      assert Join(parts) + [RBrack] + rest == parts[0] + ([RBrack] + rest);
      assert vals == [vals[0]];
    } else {
      var tail := Join(parts[1..]) + [RBrack] + rest;
      assert Join(parts) + [RBrack] + rest == parts[0] + ([Comma] + tail);
      assert ([Comma] + tail)[1..] == tail;
      ElementsRead(parts[1..], vals[1..], elems + [vals[0]], rest);
      assert elems + [vals[0]] + vals[1..] == elems + vals;
    }
  }

  lemma MembersStep(ts: Tokens, keys: seq<string>, vals: seq<Value>)
    requires |keys| == |vals|
    ensures ParseMembers(ts, keys, vals) ==
            if |ts| < 2 || !ts[0].StringToken? || ts[1] != Colon || Parse(ts[2..]).None? then None
            else
              var (v, rest) := Parse(ts[2..]).value;
              var (keys', vals') := SetValue(keys, vals, ts[0].s, v);
              if rest == [] then None
              else if rest[0] == Comma then ParseMembers(rest[1..], keys', vals')
              else if rest[0] == RBrace then Some((JsObject(keys', vals'), rest[1..]))
              else None
  {
  }

  /** A member and what comes after it. */
  lemma MemberReads(key: string, part: Tokens, v: Value, after: Tokens, keys: seq<string>, vals: seq<Value>)
    requires ReadsAs(part, v) && key !in keys && |keys| == |vals| && after != []
    ensures ParseMembers([StringToken(key), Colon] + (part + after), keys, vals) ==
            if after[0] == Comma then ParseMembers(after[1..], keys + [key], vals + [v])
            else if after[0] == RBrace then Some((JsObject(keys + [key], vals + [v]), after[1..]))
            else None
  {
    hide Parse, ParseMembers;
    var ts := [StringToken(key), Colon] + (part + after);
    MembersStep(ts, keys, vals);
    assert ts[2..] == part + after;
    assert Parse(part + after) == Some((v, after));
  }

  lemma FirstMember(keys: seq<string>, parts: seq<Tokens>, rest: Tokens) returns (after: Tokens)
    requires |keys| == |parts| > 0
    ensures Join(Members(keys, parts)) + [RBrace] + rest == [StringToken(keys[0]), Colon] + (parts[0] + after)
    ensures |parts| == 1 ==> after == [RBrace] + rest && after[1..] == rest
    ensures |parts| > 1 ==>
              var tail := Join(Members(keys[1..], parts[1..])) + [RBrace] + rest;
              after == [Comma] + tail && after[1..] == tail
  {
    var members := Members(keys, parts);
    if |parts| == 1 {
      after := [RBrace] + rest;
    } else {
      assert members[1..] == Members(keys[1..], parts[1..]);
      after := [Comma] + (Join(members[1..]) + [RBrace] + rest);
    }
  }

  lemma {:induction false} MembersRead(
    keys: seq<string>, parts: seq<Tokens>, vals: seq<Value>, keys0: seq<string>, vals0: seq<Value>, rest: Tokens)
    requires |keys| == |parts| == |vals| > 0 && |keys0| == |vals0| && NoDuplicates(keys0 + keys)
    requires forall i :: 0 <= i < |parts| ==> ReadsAs(parts[i], vals[i])
    ensures ParseMembers(Join(Members(keys, parts)) + [RBrace] + rest, keys0, vals0) ==
            Some((JsObject(keys0 + keys, vals0 + vals), rest))
    decreases |parts|
  {
    hide *;
    SplitDistinct(keys0, keys);
    var after := FirstMember(keys, parts, rest);
    MemberReads(keys[0], parts[0], vals[0], after, keys0, vals0);
    if |parts| == 1 {
      assert vals == [vals[0]] && keys == [keys[0]];
    } else {
      assert keys0 + [keys[0]] + keys[1..] == keys0 + keys;
      MembersRead(keys[1..], parts[1..], vals[1..], keys0 + [keys[0]], vals0 + [vals[0]], rest);
      assert vals0 + [vals[0]] + vals[1..] == vals0 + vals;
    }
  }

  lemma SplitDistinct(a: seq<string>, b: seq<string>)
    requires NoDuplicates(a + b) && b != []
    ensures b[0] !in a
  {
    forall i | 0 <= i < |a|
      ensures a[i] != b[0]
    {
      assert (a + b)[i] == a[i] && (a + b)[|a|] == b[0];
    }
  }

  /** Reading the printed value gives the value with its properties in order. */
  lemma {:induction false} PrintReads(v: Value)
    requires WellFormed(v)
    ensures ReadsAs(Print(v), Normal(v))
  {
    var ts := Print(v);
    forall rest: Tokens
      ensures Parse(ts + rest) == Some((Normal(v), rest))
    {
      match v
      case JsString(s) => assert ts + rest == [StringToken(s)] + rest;
      case JsAtom(text) => assert ts + rest == [Atom(text)] + rest;
      case JsArray(elems) => ArrayReads(v, rest);
      case JsObject(keys, vals) => ObjectReads(v, rest);
    }
  }

  lemma ArrayReads(v: Value, rest: Tokens)
    requires v.JsArray? && WellFormed(v)
    ensures Parse(Print(v) + rest) == Some((Normal(v), rest))
    decreases v, 0
  {
    hide ReadsAs, ParseElements;
    var parts := PrintEach(v.elems);
    forall i | 0 <= i < |v.elems|
      ensures ReadsAs(parts[i], NormalEach(v.elems)[i])
    {
      PrintReads(v.elems[i]);
    }
    var body := Join(parts) + [RBrack] + rest;
    assert Print(v) + rest == [LBrack] + body && ([LBrack] + body)[1..] == body;
    if v.elems == [] {
      assert body == [RBrack] + rest && ([LBrack] + body)[2..] == rest;
    } else {
      ElementsRead(parts, NormalEach(v.elems), [], rest);
      JoinStarts(parts, NormalEach(v.elems));
      assert body[0] == Join(parts)[0];
      assert [] + NormalEach(v.elems) == NormalEach(v.elems);
    }
  }

  lemma JoinStarts(parts: seq<Tokens>, vals: seq<Value>)
    requires |parts| == |vals| > 0 && ReadsAs(parts[0], vals[0])
    ensures Join(parts) != [] && Join(parts)[0] != RBrack && Join(parts)[0] != RBrace
  {
  }

  lemma ObjectOpens(body: Tokens)
    requires body != []
    ensures Parse([LBrace] + body) ==
            if body[0] == RBrace then Some((JsObject([], []), body[1..])) else ParseMembers(body, [], [])
  {
    assert ([LBrace] + body)[1..] == body && ([LBrace] + body)[2..] == body[1..];
  }

  lemma ObjectReads(v: Value, rest: Tokens)
    requires v.JsObject? && WellFormed(v)
    ensures Parse(Print(v) + rest) == Some((Normal(v), rest))
    decreases v, 0
  {
    hide *;
    ObjectUnfolds(v);
    var order := Order(v.keys);
    var parts, vals := Ordered(v.keys, PrintEach(v.vals)), Ordered(v.keys, NormalEach(v.vals));
    var members := Members(order, parts);
    forall i | 0 <= i < |order|
      ensures ReadsAs(parts[i], vals[i])
    {
      PrintReads(v.vals[IndexOf(v.keys, order[i])]);
    }
    var body := Join(members) + [RBrace] + rest;
    assert [LBrace] + Join(members) + [RBrace] + rest == [LBrace] + body;
    ObjectOpens(body);
    MembersStart(order, parts);
    if order == [] {
      assert body == [RBrace] + rest && body[1..] == rest;
      assert vals == [];
    } else {
      assert [] + order == order && [] + vals == vals;
      MembersRead(order, parts, vals, [], [], rest);
    }
  }

  lemma ObjectUnfolds(v: Value)
    requires v.JsObject? && WellFormed(v)
    ensures |v.keys| == |v.vals| && NoDuplicates(v.keys) && AllWellFormed(v.vals) && NoDuplicates([] + Order(v.keys))
    ensures forall i :: 0 <= i < |v.vals| ==> WellFormed(v.vals[i])
    ensures var order := Order(v.keys);
            Print(v) == [LBrace] + Join(Members(order, Ordered(v.keys, PrintEach(v.vals)))) + [RBrace] &&
            Normal(v) == JsObject(order, Ordered(v.keys, NormalEach(v.vals)))
  {
    OrderLaws(v.keys);
    assert [] + Order(v.keys) == Order(v.keys);
  }

  lemma MembersStart(keys: seq<string>, parts: seq<Tokens>)
    requires |keys| == |parts|
    ensures keys == [] ==> Join(Members(keys, parts)) == []
    ensures keys != [] ==> Join(Members(keys, parts)) != [] && Join(Members(keys, parts))[0] == StringToken(keys[0])
  {
  }

  // Writing it again.

  lemma IndexOfDistinct(keys: seq<string>, i: nat)
    requires NoDuplicates(keys) && i < |keys|
    ensures IndexOf(keys, keys[i]) == i
  {
  }

  lemma {:induction false} NormalWellFormed(v: Value)
    requires WellFormed(v)
    ensures WellFormed(Normal(v))
  {
    match v
    case JsArray(elems) =>
      forall i | 0 <= i < |elems|
        ensures WellFormed(NormalEach(elems)[i])
      {
        NormalWellFormed(elems[i]);
      }
    case JsObject(keys, vals) =>
      OrderLaws(keys);
      forall i | 0 <= i < |Order(keys)|
        ensures WellFormed(Ordered(keys, NormalEach(vals))[i])
      {
        NormalWellFormed(vals[IndexOf(keys, Order(keys)[i])]);
      }
    case _ =>
  }

  /** A value that was written and read is written the same again. */
  lemma {:induction false} PrintNormal(v: Value)
    requires WellFormed(v)
    ensures WellFormed(Normal(v)) && Print(Normal(v)) == Print(v)
  {
    NormalWellFormed(v);
    match v
    case JsArray(elems) =>
      forall i | 0 <= i < |elems|
        ensures PrintEach(NormalEach(elems))[i] == PrintEach(elems)[i]
      {
        PrintNormal(elems[i]);
      }
      assert PrintEach(NormalEach(elems)) == PrintEach(elems);
    case JsObject(keys, vals) =>
      ObjectPrintsSame(v);
    case _ =>
  }

  lemma ObjectPrintsSame(v: Value)
    requires v.JsObject? && WellFormed(v) && WellFormed(Normal(v))
    ensures Print(Normal(v)) == Print(v)
    decreases v, 0
  {
    hide NoDuplicates, Order, IndexOf;
    var order := Order(v.keys);
    var vals := Ordered(v.keys, NormalEach(v.vals));
    OrderLaws(v.keys);
    OrderTwice(v.keys);
    var again, parts := Ordered(order, PrintEach(vals)), Ordered(v.keys, PrintEach(v.vals));
    forall i | 0 <= i < |order|
      ensures again[i] == parts[i]
    {
      IndexOfDistinct(order, i);
      PrintNormal(v.vals[IndexOf(v.keys, order[i])]);
    }
    assert again == parts;
  }

  /** Printing is a fixpoint: what is read back prints as it did, and reads back as itself. */
  lemma PrintReadPrint(v: Value, rest: Tokens)
    requires WellFormed(v)
    ensures Parse(Print(v) + rest) == Some((Normal(v), rest))
    ensures WellFormed(Normal(v)) && Print(Normal(v)) == Print(v) && Normal(Normal(v)) == Normal(v)
  {
    PrintReads(v);
    PrintNormal(v);
    PrintReads(Normal(v));
    assert Parse(Print(v) + []) == Parse(Print(Normal(v)) + []);
  }

  // What is read is well-formed.

  lemma SetKeepsWellFormed(keys: seq<string>, vals: seq<Value>, k: string, v: Value)
    requires WellFormed(JsObject(keys, vals)) && WellFormed(v)
    ensures var (keys', vals') := SetValue(keys, vals, k, v); WellFormed(JsObject(keys', vals'))
  {
    hide NoDuplicates;
    AppendDistinct(keys, k);
  }

  /** Also where a text repeats a key, the value read has each key once. */
  lemma {:induction false} ParsedWellFormed(ts: Tokens)
    ensures Parse(ts).Some? ==> WellFormed(Parse(ts).value.0)
    decreases |ts|, 0
  {
    if ts != [] {
      ElementsWellFormed(ts[1..], []);
      MembersWellFormed(ts[1..], [], []);
    }
  }

  lemma {:induction false} ElementsWellFormed(ts: Tokens, elems: seq<Value>)
    requires AllWellFormed(elems)
    ensures var r := ParseElements(ts, elems); r.Some? ==> WellFormed(r.value.0)
    decreases |ts|, 1
  {
    hide Parse, WellFormed;
    ParsedWellFormed(ts);
    var p := Parse(ts);
    if p.Some? && p.value.1 != [] {
      var more := elems + [p.value.0];
      ArrayWellFormed(more);
      ElementsWellFormed(p.value.1[1..], more);
    }
  }

  lemma ArrayWellFormed(elems: seq<Value>)
    ensures AllWellFormed(elems) ==> WellFormed(JsArray(elems))
  {
  }

  lemma {:induction false} MembersWellFormed(ts: Tokens, keys: seq<string>, vals: seq<Value>)
    requires |keys| == |vals| && WellFormed(JsObject(keys, vals))
    ensures var r := ParseMembers(ts, keys, vals); r.Some? ==> WellFormed(r.value.0)
    decreases |ts|, 1
  {
    hide Parse, WellFormed, ParseMembers, SetValue;
    MembersStep(ts, keys, vals);
    if |ts| >= 2 && ts[0].StringToken? && ts[1] == Colon && Parse(ts[2..]).Some? {
      var (v, rest) := Parse(ts[2..]).value;
      ParsedWellFormed(ts[2..]);
      SetKeepsLengths(keys, vals, ts[0].s, v);
      SetKeepsWellFormed(keys, vals, ts[0].s, v);
      var (keys', vals') := SetValue(keys, vals, ts[0].s, v);
      if rest != [] { MembersWellFormed(rest[1..], keys', vals'); }
    }
  }

  lemma SetKeepsLengths(keys: seq<string>, vals: seq<Value>, k: string, v: Value)
    requires |keys| == |vals|
    ensures |SetValue(keys, vals, k, v).0| == |SetValue(keys, vals, k, v).1|
  {
  }

  /** So whatever was read can be printed, and that is a fixpoint. */
  lemma ReadPrintRead(ts: Tokens)
    requires Parse(ts).Some?
    ensures var v := Parse(ts).value.0;
            WellFormed(v) && Parse(Print(v)) == Some((Normal(v), [])) &&
            WellFormed(Normal(v)) && Print(Normal(v)) == Print(v)
  {
    ParsedWellFormed(ts);
    PrintReadPrint(Parse(ts).value.0, []);
    assert Print(Parse(ts).value.0) + [] == Print(Parse(ts).value.0);
  }

  // The parser of the source, which reads from a decoder.

  lemma EmptyObject(body: Tokens)
    ensures Parse([LBrace] + body) ==
            if body != [] && body[0] == RBrace then Some((JsObject([], []), body[1..])) else ParseMembers(body, [], [])
  {
    if body != [] { ObjectOpens(body); } else { assert ([LBrace] + body)[1..] == body; }
  }

  lemma ElementsStep(ts: Tokens, elems: seq<Value>)
    ensures ParseElements(ts, elems) ==
            if Parse(ts).None? || Parse(ts).value.1 == [] then None
            else
              var (v, rest) := Parse(ts).value;
              if rest[0] == Comma then ParseElements(rest[1..], elems + [v])
              else if rest[0] == RBrack then Some((JsArray(elems + [v]), rest[1..]))
              else None
  {
  }

  lemma SuffixTail(ts: Tokens, i: nat)
    requires i <= |ts|
    ensures i < |ts| ==> ts[i..] != [] && ts[i..][0] == ts[i] && ts[i..][1..] == ts[i + 1..]
    ensures i == |ts| ==> ts[i..] == []
  {
  }

  lemma EmptyArray(body: Tokens)
    ensures Parse([LBrack] + body) ==
            if body != [] && body[0] == RBrack then Some((JsArray([]), body[1..])) else ParseElements(body, [])
  {
    assert ([LBrack] + body)[1..] == body;
    if body != [] { assert ([LBrack] + body)[2..] == body[1..]; }
  }

  lemma MembersFail(ts: Tokens, i: nat, keys: seq<string>, vals: seq<Value>)
    requires i <= |ts| && |keys| == |vals|
    ensures |ts| - i < 2 || !ts[i].StringToken? || ts[i + 1] != Colon || Parse(ts[i + 2..]).None? ==>
              ParseMembers(ts[i..], keys, vals).None?
  {
    hide Parse;
    if |ts| - i >= 2 { assert ts[i..][2..] == ts[i + 2..]; }
  }

  /** What the members come to when one ends at `j`. */
  function AfterMember(ts: Tokens, j: nat, keys: seq<string>, vals: seq<Value>): Option<(Value, Tokens)>
    requires j <= |ts| && |keys| == |vals|
  {
    if j == |ts| then None
    else if ts[j] == Comma then ParseMembers(ts[j + 1..], keys, vals)
    else if ts[j] == RBrace then Some((JsObject(keys, vals), ts[j + 1..]))
    else None
  }

  /** A member at `i` ends at `j`. */
  lemma MembersNext(ts: Tokens, i: nat, j: nat, keys: seq<string>, vals: seq<Value>, v: Value)
    requires i + 2 <= |ts| && j <= |ts| && |keys| == |vals|
    requires ts[i].StringToken? && ts[i + 1] == Colon && Parse(ts[i + 2..]) == Some((v, ts[j..]))
    ensures ParseMembers(ts[i..], keys, vals) ==
            var (keys', vals') := SetValue(keys, vals, ts[i].s, v); AfterMember(ts, j, keys', vals')
  {
    hide Parse, ParseMembers, SetValue;
    MembersStep(ts[i..], keys, vals);
    assert ts[i..][2..] == ts[i + 2..];
    if j < |ts| { assert ts[j..][1..] == ts[j + 1..]; }
  }

  class Decoder {
    const ts: Tokens
    var pos: nat

    constructor (ts: Tokens)
      ensures this.ts == ts && pos == 0
    {
      this.ts := ts;
      pos := 0;
    }

    /** The next value, or none when the tokens are no JSON. */
    method ParseValue() returns (r: Option<Value>)
      requires pos <= |ts|
      modifies this
      ensures pos <= |ts|
      ensures match Parse(ts[old(pos)..])
              case None => r.None?
              case Some((v, rest)) => r == Some(v) && old(pos) < pos && ts[pos..] == rest
      decreases |ts| - pos, 0
    {
      if pos == |ts| { return None; }
      var t := ts[pos];
      pos := pos + 1;
      assert ts[old(pos)..][1..] == ts[pos..];
      if t.StringToken? {
        r := Some(JsString(t.s));
      } else if t.Atom? {
        r := Some(JsAtom(t.text));
      } else if t.LBrack? {
        r := ParseArray();
      } else if t.LBrace? {
        r := ParseObject();
      } else {
        r := None;
      }
    }

    /** Whether the token `t` is next; if so it is consumed. */
    method Take(t: Token) returns (ok: bool)
      requires pos <= |ts|
      modifies this
      ensures ok <==> old(pos) < |ts| && ts[old(pos)] == t
      ensures pos == if ok then old(pos) + 1 else old(pos)
    {
      ok := pos < |ts| && ts[pos] == t;
      if ok { pos := pos + 1; }
    }

    method ParseArray() returns (r: Option<Value>)
      requires 0 < pos <= |ts| && ts[pos - 1] == LBrack
      modifies this
      ensures pos <= |ts|
      ensures match Parse(ts[old(pos) - 1..])
              case None => r.None?
              case Some((v, rest)) => r == Some(v) && old(pos) <= pos && ts[pos..] == rest
      decreases |ts| - pos, 1
    {
      hide Parse, ParseElements;
      ghost var from := ts[pos..];
      assert ts[pos - 1..] == [LBrack] + from;
      EmptyArray(from);
      var elems: seq<Value> := [];
      var end := Take(RBrack);
      if end {
        assert from[1..] == ts[pos..];
        return Some(JsArray([]));
      }
      while true
        invariant old(pos) <= pos <= |ts|
        invariant ParseElements(ts[pos..], elems) == Parse([LBrack] + from)
        decreases |ts| - pos
      {
        ElementsStep(ts[pos..], elems);
        var v := ParseValue();
        if v.None? { return None; }
        SuffixTail(ts, pos);
        var comma := Take(Comma);
        if !comma {
          end := Take(RBrack);
          return if end then Some(JsArray(elems + [v.value])) else None;
        }
        elems := elems + [v.value];
      }
    }

    /** A key, a colon and a value. */
    method ParseMember(ghost keys: seq<string>, ghost vals: seq<Value>) returns (r: Option<(string, Value)>)
      requires pos <= |ts| && |keys| == |vals|
      modifies this
      ensures pos <= |ts|
      ensures r.None? ==> ParseMembers(ts[old(pos)..], keys, vals).None?
      ensures r.Some? ==>
                old(pos) < pos &&
                |SetValue(keys, vals, r.value.0, r.value.1).0| == |SetValue(keys, vals, r.value.0, r.value.1).1| &&
                ParseMembers(ts[old(pos)..], keys, vals) ==
                var (keys', vals') := SetValue(keys, vals, r.value.0, r.value.1); AfterMember(ts, pos, keys', vals')
      decreases |ts| - pos, 0
    {
      hide Parse, ParseMembers, SetValue, AfterMember;
      MembersFail(ts, pos, keys, vals);
      if |ts| - pos < 2 || !ts[pos].StringToken? || ts[pos + 1] != Colon { return None; }
      var k := ts[pos].s;
      pos := pos + 2;
      var v := ParseValue();
      if v.None? { return None; }
      SetKeepsLengths(keys, vals, k, v.value);
      MembersNext(ts, old(pos), pos, keys, vals, v.value);
      r := Some((k, v.value));
    }

    method ParseObject() returns (r: Option<Value>)
      requires 0 < pos <= |ts| && ts[pos - 1] == LBrace
      modifies this
      ensures pos <= |ts|
      ensures match Parse(ts[old(pos) - 1..])
              case None => r.None?
              case Some((v, rest)) => r == Some(v) && old(pos) <= pos && ts[pos..] == rest
      decreases |ts| - pos, 1
    {
      hide Parse, ParseMembers, SetValue;
      ghost var from, goal := ts[pos..], Parse(ts[pos - 1..]);
      assert ts[pos - 1..] == [LBrace] + from;
      EmptyObject(from);
      var keys, vals: seq<Value> := [], [];
      var end := Take(RBrace);
      if end {
        assert from[1..] == ts[pos..];
        return Some(JsObject([], []));
      }
      while true
        invariant old(pos) <= pos <= |ts| && |keys| == |vals|
        invariant ParseMembers(ts[pos..], keys, vals) == goal
        decreases |ts| - pos
      {
        var member := ParseMember(keys, vals);
        if member.None? { return None; }
        var (k, v) := member.value;
        var (keys', vals') := SetValue(keys, vals, k, v);
        keys, vals := keys', vals';
        var comma := Take(Comma);
        if !comma {
          end := Take(RBrace);
          return if end then Some(JsObject(keys, vals)) else None;
        }
      }
    }
  }

  /** JSON.parse: exactly one value. */
  method ParseJs(ts: Tokens) returns (r: Option<Value>)
    ensures match Parse(ts)
            case None => r.None?
            case Some((v, rest)) => r == if rest == [] then Some(v) else None
  {
    var d := new Decoder(ts);
    assert ts[0..] == ts;
    r := d.ParseValue();
    if r.Some? && d.pos < |ts| { r := None; }
  }

  /** The brackets and separators of a printed list. */
  lemma ListPrints(s: string, k: string)
    ensures Print(JsArray([])) == [LBrack, RBrack]
    ensures var list := JsArray([JsString(s), JsString(k)]);
            WellFormed(list) && Print(list) == [LBrack, StringToken(s), Comma, StringToken(k), RBrack]
  {
    var list := JsArray([JsString(s), JsString(k)]);
    assert AllWellFormed(list.elems);
    assert PrintEach([]) == [] && [LBrack] + [] + [RBrack] == [LBrack, RBrack];
    var two := PrintEach(list.elems);
    assert two[1..] == [[StringToken(k)]] && two[0] == [StringToken(s)];
    assert Join(two) == [StringToken(s)] + [Comma] + [StringToken(k)];
  }

  /** And of a printed object. */
  lemma ObjectPrints(s: string, k: string)
    ensures Print(JsObject([], [])) == [LBrace, RBrace]
    ensures var one := JsObject([k], [JsString(s)]);
            WellFormed(one) && Print(one) == [LBrace, StringToken(k), Colon, StringToken(s), RBrace]
  {
    OneKey(k);
    hide Order;
    var one := JsObject([k], [JsString(s)]);
    assert AllWellFormed(one.vals) && NoDuplicates(one.keys);
    assert PrintEach(one.vals) == [[StringToken(s)]];
    assert Ordered(one.keys, PrintEach(one.vals)) == [[StringToken(s)]];
    var members: seq<Tokens> := Members(one.keys, [[StringToken(s)]]);
    assert members == [[StringToken(k), Colon] + [StringToken(s)]] && Join(members) == members[0];
    NoMembersPrinted();
  }

  lemma NoMembersPrinted()
    ensures Print(JsObject([], [])) == [LBrace, RBrace]
  {
    OneKey("");
    var none := JsObject([], []);
    assert PrintEach(none.vals) == [];
    assert Ordered(none.keys, PrintEach(none.vals)) == [];
    var members: seq<Tokens> := Members([], []);
    assert members == [] && Join(members) == [];
  }

  lemma OneKey(k: string)
    ensures Order([k]) == [k] && Order([]) == []
  {
    LastKey([k]);
    LastKey([]);
    assert [k][..0] == [];
    assert InsertIndex(k, []) == [k];
  }
}
