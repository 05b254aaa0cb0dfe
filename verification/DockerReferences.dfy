/**
 What one reference of a Dockerfile stands for (internal/docker/resolve.go:98-160):
 `$v`, `${v:-word}` and `${v:+word}`, and the instruction that gives `v` its value.
 */
module DockerReferences {
  import opened DockerResolver
  import opened Wrappers

  /** `t` is `s` without its first and its last character where those are quotes. */
  ghost predicate Bares(s: string, t: string) {
    exists front: string, back: string ::
      s == front + t + back && |front| <= 1 && |back| <= 1 &&
      (front == "" <==> s == "" || !IsQuote(s[0])) &&
      (back == "" ==> t == "" || !IsQuote(t[|t| - 1])) && (back != "" ==> IsQuote(back[0]))
  }

  lemma TrimBares(s: string)
    ensures Bares(s, TrimOneQuote(s))
  {
    var t := if s != "" && IsQuote(s[0]) then s[1..] else s;
    var front := if s != "" && IsQuote(s[0]) then [s[0]] else "";
    var back := if t != "" && IsQuote(t[|t| - 1]) then [t[|t| - 1]] else "";
    assert t == TrimOneQuote(s) + back;
    assert s == front + TrimOneQuote(s) + back;
  }

  /** There is one such text. */
  lemma BaresIsUnique(s: string, t: string, u: string)
    requires Bares(s, t) && Bares(s, u)
    ensures t == u
  {
    var f, b := BaresParts(s, t);
    var g, c := BaresParts(s, u);
    hide Bares, IsQuote;
    CutFront(f, t, b);
    CutFront(g, u, c);
    SameBody(t, b, u, c);
  }

  lemma CutFront(f: string, t: string, b: string)
    ensures (f + t + b)[|f|..] == t + b
  {
  }

  lemma BaresParts(s: string, t: string) returns (f: string, b: string)
    requires Bares(s, t)
    ensures s == f + t + b && |b| <= 1 && |f| == (if s == "" || !IsQuote(s[0]) then 0 else 1)
    ensures (b == "" ==> t == "" || !IsQuote(t[|t| - 1])) && (b != "" ==> IsQuote(b[0]))
  {
    f, b :| s == f + t + b && |f| <= 1 && |b| <= 1 && (f == "" <==> s == "" || !IsQuote(s[0])) &&
            (b == "" ==> t == "" || !IsQuote(t[|t| - 1])) && (b != "" ==> IsQuote(b[0]));
  }

  lemma BackIsLast(s: string, t: string, b: string)
    requires s == t + b && |b| == 1 && IsQuote(b[0])
    ensures s != "" && IsQuote(s[|s| - 1])
  {
  }

  /** It is the text itself where that neither begins nor ends with a quote. */
  lemma UnquotedStays(s: string, t: string)
    requires Bares(s, t) && (s == "" || (!IsQuote(s[0]) && !IsQuote(s[|s| - 1])))
    ensures t == s
  {
    var f, b := BaresParts(s, t);
    hide IsQuote;
    if b != "" { BackIsLast(s, f + t, b); }
    assert s == t;
  }

  lemma SameBody(t: string, b: string, u: string, c: string)
    requires t + b == u + c && |b| <= 1 && |c| <= 1
    requires (b == "" ==> t == "" || !IsQuote(t[|t| - 1])) && (b != "" ==> IsQuote(b[0]))
    requires (c == "" ==> u == "" || !IsQuote(u[|u| - 1])) && (c != "" ==> IsQuote(c[0]))
    ensures t == u
  {
    var whole := t + b;
    assert |b| == 1 ==> whole[|whole| - 1] == b[0];
    assert |c| == 1 ==> whole[|whole| - 1] == c[0];
    assert t == whole[..|whole| - |b|] && u == whole[..|whole| - |c|];
  }

  // References.

  function Plain(name: string): Template { [Var(name, None)] }
  function OrElse(name: string, word: string): Template { [Var(name, Some(IfUnset(word)))] }
  function AndThen(name: string, word: string): Template { [Var(name, Some(IfSet(word)))] }

  lemma OneReference(name: string, alt: Option<Alternative>, e: Environment)
    ensures Expand([Var(name, alt)], e) == ExpandPart(Var(name, alt), e)
  {
    var t: Template := [Var(name, alt)];
    assert t[..0] == [] && "" + ExpandPart(t[0], e) == ExpandPart(t[0], e);
  }

  /** In an environment: the value untouched; the value, or the word where it is empty; the word, unless it is empty. */
  lemma ReferenceLaws(name: string, word: string, e: Environment)
    ensures var value := if name in e then e[name] else "";
            Expand(Plain(name), e) == value &&
            Bares(if value == "" then word else value, Expand(OrElse(name, word), e)) &&
            Bares(if value == "" then "" else word, Expand(AndThen(name, word), e))
  {
    hide Bares, Expand, TrimOneQuote;
    var value := Lookup(e, name);
    OneReference(name, None, e);
    OneReference(name, Some(IfUnset(word)), e);
    OneReference(name, Some(IfSet(word)), e);
    TrimBares(if value == "" then word else value);
    TrimBares(if value == "" then "" else word);
  }

  /** What it comes to where nothing is quoted. */
  lemma UnquotedReferences(name: string, word: string, e: Environment)
    requires var value := if name in e then e[name] else "";
             (value == "" || (!IsQuote(value[0]) && !IsQuote(value[|value| - 1]))) &&
             (word == "" || (!IsQuote(word[0]) && !IsQuote(word[|word| - 1])))
    ensures var value := if name in e then e[name] else "";
            Expand(OrElse(name, word), e) == (if value == "" then word else value) &&
            Expand(AndThen(name, word), e) == if value == "" then "" else word
  {
    hide Bares, Expand;
    var value := if name in e then e[name] else "";
    ReferenceLaws(name, word, e);
    UnquotedStays(if value == "" then word else value, Expand(OrElse(name, word), e));
    UnquotedStays(if value == "" then "" else word, Expand(AndThen(name, word), e));
  }

  /** The same of what the lazy lookup puts in, on any stages: what Replace returns. */
  lemma LazyReferences(r: Resolver, name: string, word: string, fuel: nat, s: Scope, before: nat, baseEnv: Environment)
    requires r.InScope(s) && r.Answer(fuel, name, s, before, baseEnv).Some?
    ensures var value := r.Answer(fuel, name, s, before, baseEnv).value;
            r.Filled(fuel, Plain(name), s, before, baseEnv) == Some(value) &&
            (exists out :: r.Filled(fuel, OrElse(name, word), s, before, baseEnv) == Some(out) &&
                           Bares(if value == "" then word else value, out)) &&
            exists out :: r.Filled(fuel, AndThen(name, word), s, before, baseEnv) == Some(out) &&
                          Bares(if value == "" then "" else word, out)
  {
    hide Bares, r.Answer, TrimOneQuote;
    var value := r.Answer(fuel, name, s, before, baseEnv).value;
    FilledReference(r, name, None, fuel, s, before, baseEnv);
    FilledReference(r, name, Some(IfUnset(word)), fuel, s, before, baseEnv);
    FilledReference(r, name, Some(IfSet(word)), fuel, s, before, baseEnv);
    TrimBares(if value == "" then word else value);
    TrimBares(if value == "" then "" else word);
  }

  lemma FilledReference(
    r: Resolver, name: string, alt: Option<Alternative>, fuel: nat, s: Scope, before: nat, baseEnv: Environment)
    requires r.InScope(s) && r.Answer(fuel, name, s, before, baseEnv).Some?
    ensures r.Filled(fuel, [Var(name, alt)], s, before, baseEnv) ==
            Some(Alternate(r.Answer(fuel, name, s, before, baseEnv).value, alt))
  {
    hide r.Answer, Alternate;
    var text: Template := [Var(name, alt)];
    assert text[..0] == [];
    assert r.Filled(fuel, [], s, before, baseEnv) == Some("");
    var out := Alternate(r.Answer(fuel, name, s, before, baseEnv).value, alt);
    assert "" + out == out;
  }

  // The base image.

  /** The base image of a stage FROM a reference, if that is no stage. */
  lemma BaseOfReference(r: Resolver, target: string, name: string, alt: Option<Alternative>)
    requires r.StartStage(target).Some? && r.stages[r.StartStage(target).value].image == [Var(name, alt)]
    requires r.Parent(r.StartStage(target).value, map[]).None?
    ensures r.BaseImage(target) == Expand([Var(name, alt)], r.PreambleEnv(map[]))
  {
    hide Expand, r.PreambleEnv, r.Parent, r.StartStage;
    var s := r.StartStage(target).value;
    r.ChainStep(s, 0, map[]);
    hide r.Chain;
    assert r.EndsAt(s, 0, map[]);
    r.EndIsUnique(s, 0, r.Length(s, map[]), map[]);
  }

  /** An ARG of the preamble: the build argument, or else its default. */
  lemma PreambleArg(r: Resolver, name: string, default: string, baseEnv: Environment)
    requires r.preamble == [Arg(name, [Text(default)])] && name !in r.buildArgs
    ensures name in r.PreambleEnv(baseEnv) && r.PreambleEnv(baseEnv)[name] == default
  {
    OneText(default, r.Outside(baseEnv));
    hide Expand;
    assert r.Run(r.preamble, 0, r.Outside(baseEnv)) == r.Outside(baseEnv);
  }

  function FromDefaulted(preamble: seq<Instruction>): Resolver {
    Resolver(preamble, [Stage(OrElse("BASE", "debian"), "", [])], map[], map[])
  }

  /** `FROM ${BASE:-debian}` builds on debian, and after `ARG BASE=alpine` on alpine. */
  lemma DefaultedBase()
    ensures FromDefaulted([]).BaseImage("") == "debian"
    ensures FromDefaulted([Arg("BASE", [Text("alpine")])]).BaseImage("") == "alpine"
  {
    hide Expand, OrElse;
    var plain, given := FromDefaulted([]), FromDefaulted([Arg("BASE", [Text("alpine")])]);
    FromIsNoStage(plain);
    FromIsNoStage(given);
    PreambleArg(given, "BASE", "alpine", map[]);
    assert "BASE" !in plain.PreambleEnv(map[]);
    hide plain.PreambleEnv;
    UnquotedReferences("BASE", "debian", plain.PreambleEnv(map[]));
    UnquotedReferences("BASE", "debian", given.PreambleEnv(map[]));
    assert OrElse("BASE", "debian") == [Var("BASE", Some(IfUnset("debian")))] by { OrElseIs("BASE", "debian"); }
    BaseOfReference(plain, "", "BASE", Some(IfUnset("debian")));
    BaseOfReference(given, "", "BASE", Some(IfUnset("debian")));
  }

  lemma OrElseIs(name: string, word: string)
    ensures OrElse(name, word) == [Var(name, Some(IfUnset(word)))]
  {
  }

  lemma FromIsNoStage(r: Resolver)
    requires |r.stages| == 1 && r.stages[0].name == ""
    ensures r.StartStage("") == Some(0) && r.Parent(0, map[]).None?
  {
    hide Expand, r.PreambleEnv;
  }

  // The instruction a lookup finds.

  /** The instruction gives `variable` a value; an ARG does where it is seen and has a build argument or a default. */
  predicate Sets(r: Resolver, ins: Instruction, variable: string, arg: bool) {
    (ins.Env? && ins.name == variable) ||
    (ins.Arg? && ins.name == variable && arg && (variable in r.buildArgs || ins.value != []))
  }

  /** What the instruction sets `variable` to. */
  predicate SetsTo(r: Resolver, ins: Instruction, variable: string, text: Template) {
    (ins.Env? && text == ins.value) ||
    (ins.Arg? && text == if variable in r.buildArgs then r.buildArgs[variable] else ins.value)
  }

  /** An instruction that a lookup from right before `end` of `s` finds. */
  ghost predicate NearestSetter(r: Resolver, place: Place, variable: string, s: Scope, end: nat, arg: bool) {
    place.Defined? && r.InScope(place.scope) &&
    var instructions := r.InstructionsOf(place.scope);
    var from := if place.scope == s then end else |instructions|;
    var seen := if place.scope == s then arg else place.scope.Preamble?;
    place.at < from <= |instructions| && Sets(r, instructions[place.at], variable, seen) &&
    SetsTo(r, instructions[place.at], variable, place.text) &&
    forall i :: place.at < i < from ==> !Sets(r, instructions[i], variable, seen)
  }

  lemma {:induction false} LocateLaws(
    r: Resolver, variable: string, s: Scope, end: nat, arg: bool, seen: set<Scope>, baseEnv: Environment)
    requires r.InScope(s) && end <= |r.InstructionsOf(s)|
    ensures var place := r.Locate(variable, s, end, arg, seen, baseEnv);
            place.Defined? ==> NearestSetter(r, place, variable, s, end, arg) && place.scope !in seen
    decreases r.Scopes() - seen
  {
    hide r.Outer, r.DefinedBy, r.LastDefinition, SetsTo, Sets;
    r.LocateStep(variable, s, end, arg, seen, baseEnv);
    if s !in seen {
      var i := r.LastDefinition(s, end, variable, arg);
      forall k | 0 <= k < |r.InstructionsOf(s)|
        ensures r.DefinedBy(s, k, variable, arg).Some? <==> Sets(r, r.InstructionsOf(s)[k], variable, arg)
        ensures r.DefinedBy(s, k, variable, arg).Some? ==>
                  SetsTo(r, r.InstructionsOf(s)[k], variable, r.DefinedBy(s, k, variable, arg).value)
      {
        DefinedLaws(r, s, k, variable, arg);
      }
      if i.None? && s.InStage? {
        var next := r.Outer(s.stage, baseEnv);
        assert s in r.Scopes() - seen;
        LocateLaws(r, variable, next, |r.InstructionsOf(next)|, next.Preamble?, seen + {s}, baseEnv);
      }
    }
  }

  lemma DefinedLaws(r: Resolver, s: Scope, k: nat, variable: string, arg: bool)
    requires r.InScope(s) && k < |r.InstructionsOf(s)|
    ensures var text := r.DefinedBy(s, k, variable, arg);
            (text.Some? <==> Sets(r, r.InstructionsOf(s)[k], variable, arg)) &&
            (text.Some? ==> SetsTo(r, r.InstructionsOf(s)[k], variable, text.value))
  {
  }

  /**
   A lookup finds the last instruction before it that sets the variable, in its
   own scope or outside: of the stages outside only an ENV, since an ARG is seen
   in its own stage and, from the preamble, everywhere.
   */
  lemma FindsNearest(r: Resolver, variable: string, s: Scope, before: nat, baseEnv: Environment)
    requires r.InScope(s)
    ensures var place := r.Find(variable, s, before, baseEnv);
            place.Defined? ==> NearestSetter(r, place, variable, s, Min(before, |r.InstructionsOf(s)|), true)
  {
    LocateLaws(r, variable, s, Min(before, |r.InstructionsOf(s)|), true, {}, baseEnv);
  }

  /** In the scope it starts from, a lookup stops at whatever sets the variable there. */
  lemma OwnScopeFirst(r: Resolver, variable: string, s: Scope, before: nat, i: nat, baseEnv: Environment)
    requires r.InScope(s) && i < before && i < |r.InstructionsOf(s)| && Sets(r, r.InstructionsOf(s)[i], variable, true)
    ensures var place := r.Find(variable, s, before, baseEnv); place.Defined? && place.scope == s && place.at >= i
  {
    hide r.DefinedBy, r.LastDefinition, Sets;
    var end := Min(before, |r.InstructionsOf(s)|);
    r.LocateStep(variable, s, end, true, {}, baseEnv);
    DefinedLaws(r, s, i, variable, true);
  }

  /** The stage to start from: the last one of the target's name, or the last one of all. */
  lemma StartStageIs(r: Resolver, target: string, s: nat)
    ensures target != "" ==>
              (r.StartStage(target) == Some(s) <==>
               s < |r.stages| && r.stages[s].name == target && forall i :: s < i < |r.stages| ==> r.stages[i].name != target)
    ensures target == "" ==> (r.StartStage(target) == Some(s) <==> s == |r.stages| - 1)
  {
  }

  /** What a stage does not set comes from the stage it is built FROM, from an ENV there. */
  lemma ParentNext(r: Resolver, variable: string, s: nat, p: nat, before: nat, i: nat, baseEnv: Environment)
    requires s < |r.stages| && r.Parent(s, baseEnv) == Some(p) && p != s
    requires var own := r.stages[s].instructions;
             forall k :: 0 <= k < before && k < |own| ==> !Sets(r, own[k], variable, true)
    requires i < |r.stages[p].instructions| && Sets(r, r.stages[p].instructions[i], variable, false)
    ensures var place := r.Find(variable, InStage(s), before, baseEnv);
            place.Defined? && place.scope == InStage(p) && place.at >= i
  {
    hide r.DefinedBy, r.LastDefinition, r.Parent, Sets;
    OwnSetsNothing(r, variable, s, before, baseEnv);
    var next := InStage(p);
    r.LocateStep(variable, next, |r.InstructionsOf(next)|, false, {InStage(s)}, baseEnv);
    DefinedLaws(r, next, i, variable, false);
  }

  /** From outside the stages, the preamble, where an ARG counts too; after that the environment given, then the platform's. */
  lemma PreambleNext(r: Resolver, variable: string, s: nat, before: nat, baseEnv: Environment)
    requires s < |r.stages| && r.Parent(s, baseEnv).None?
    requires var own := r.stages[s].instructions;
             forall k :: 0 <= k < before && k < |own| ==> !Sets(r, own[k], variable, true)
    ensures var place := r.Find(variable, InStage(s), before, baseEnv);
            if exists i :: 0 <= i < |r.preamble| && Sets(r, r.preamble[i], variable, true)
            then place.Defined? && place.scope == Preamble else place == Given
  {
    hide r.DefinedBy, r.LastDefinition, r.Parent, Sets;
    OwnSetsNothing(r, variable, s, before, baseEnv);
    r.LocateStep(variable, Preamble, |r.preamble|, true, {InStage(s)}, baseEnv);
    forall i | 0 <= i < |r.preamble|
      ensures r.DefinedBy(Preamble, i, variable, true).Some? <==> Sets(r, r.preamble[i], variable, true)
    {
      DefinedLaws(r, Preamble, i, variable, true);
    }
  }

  lemma OwnSetsNothing(r: Resolver, variable: string, s: nat, before: nat, baseEnv: Environment)
    requires s < |r.stages|
    requires var own := r.stages[s].instructions;
             forall k :: 0 <= k < before && k < |own| ==> !Sets(r, own[k], variable, true)
    ensures var next := if r.Parent(s, baseEnv).None? then Preamble else InStage(r.Parent(s, baseEnv).value);
            r.Find(variable, InStage(s), before, baseEnv) ==
            r.Locate(variable, next, |r.InstructionsOf(next)|, next.Preamble?, {InStage(s)}, baseEnv)
  {
    hide r.DefinedBy, r.LastDefinition, r.Parent, Sets;
    var end := Min(before, |r.InstructionsOf(InStage(s))|);
    r.LocateStep(variable, InStage(s), end, true, {}, baseEnv);
    forall k | 0 <= k < end
      ensures r.DefinedBy(InStage(s), k, variable, true).None?
    {
      DefinedLaws(r, InStage(s), k, variable, true);
    }
    assert {} + {InStage(s)} == {InStage(s)};
  }

  /** What is found nowhere in the Dockerfile has the value it is given, else that of the platform, else none. */
  lemma GivenValue(r: Resolver, variable: string, fuel: nat, s: Scope, before: nat, baseEnv: Environment)
    requires r.InScope(s) && r.Find(variable, s, before, baseEnv) == Given
    ensures r.Answer(fuel, variable, s, before, baseEnv) ==
            Some(if variable in baseEnv then baseEnv[variable]
                 else if variable in r.platform then r.platform[variable] else "")
  {
    hide r.Find;
    r.OutsideLookup(baseEnv, variable);
  }
}
