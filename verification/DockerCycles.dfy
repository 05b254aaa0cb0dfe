/**
 When a lookup of internal/docker/resolve.go:100-175 comes to an end.

 Whether it does depends on the instructions; for every choice of them it does
 exactly when the stages are not built FROM each other in a round of two or
 more. A stage built FROM itself does no harm.
 */
module DockerCycles {
  import opened DockerResolver
  import opened Wrappers

  /** The lookup comes to an end. */
  ghost predicate Returns(r: Resolver, variable: string, s: Scope, before: nat, baseEnv: Environment)
    requires r.InScope(s)
  {
    exists fuel: nat :: r.Answer(fuel, variable, s, before, baseEnv).Some?
  }

  type Choice = seq<seq<Instruction>>

  /** The Dockerfile with other instructions in its stages. */
  function With(r: Resolver, choice: Choice): (r': Resolver)
    requires |choice| == |r.stages|
    ensures |r'.stages| == |r.stages|
    ensures forall s :: 0 <= s < |r.stages| ==> r'.stages[s].instructions == choice[s]
  {
    r.(stages := seq(|r.stages|, s requires 0 <= s < |r.stages| => r.stages[s].(instructions := choice[s])))
  }

  lemma {:induction false} SameRun(r: Resolver, r': Resolver, instructions: seq<Instruction>, n: nat, start: Environment)
    requires n <= |instructions| && r.buildArgs == r'.buildArgs
    ensures r.Run(instructions, n, start) == r'.Run(instructions, n, start)
  {
    hide Expand;
    if n > 0 { SameRun(r, r', instructions, n - 1, start); }
  }

  lemma {:induction false} SameLabels(r: Resolver, choice: Choice, target: string, n: nat)
    requires |choice| == |r.stages| && n <= |r.stages|
    ensures With(r, choice).Labelled(target, n) == r.Labelled(target, n)
  {
    if n > 0 { SameLabels(r, choice, target, n - 1); }
  }

  /** What a stage is built FROM does not depend on the instructions. */
  lemma SameParents(r: Resolver, choice: Choice, s: nat, baseEnv: Environment)
    requires |choice| == |r.stages| && s < |r.stages|
    ensures With(r, choice).Parent(s, baseEnv) == r.Parent(s, baseEnv)
  {
    hide Expand;
    SameRun(r, With(r, choice), r.preamble, |r.preamble|, r.Outside(baseEnv));
    SameLabels(r, choice, r.Image(s, baseEnv), |r.stages|);
  }

  lemma {:induction false} SameSettling(r: Resolver, choice: Choice, s: nat, n: nat, baseEnv: Environment)
    requires |choice| == |r.stages| && s < |r.stages|
    ensures With(r, choice).SettlesWithin(s, n, baseEnv) <==> r.SettlesWithin(s, n, baseEnv)
    decreases n
  {
    hide With;
    SameParents(r, choice, s, baseEnv);
    if !r.Rests(s, baseEnv) && n > 0 { SameSettling(r, choice, r.Parent(s, baseEnv).value, n - 1, baseEnv); }
  }

  // Trails of stages.

  /** Different stages, each built FROM the next. */
  ghost predicate Trail(r: Resolver, path: seq<nat>, baseEnv: Environment) {
    path != [] && (forall i :: 0 <= i < |path| ==> path[i] < |r.stages|) &&
    (forall i, j :: 0 <= i < j < |path| ==> path[i] != path[j]) &&
    forall i :: 0 <= i < |path| - 1 ==> r.Parent(path[i], baseEnv) == Some(path[i + 1])
  }

  /** A trail whose last stage is built FROM its first: two or more stages built FROM each other. */
  ghost predicate Round(r: Resolver, path: seq<nat>, baseEnv: Environment) {
    |path| > 1 && Trail(r, path, baseEnv) && r.Parent(path[|path| - 1], baseEnv) == Some(path[0])
  }

  ghost function Elements(path: seq<nat>): set<nat> { set s | s in path }

  /** A trail can be followed until it ends or comes back to one of its stages. */
  lemma TrailEnds(r: Resolver, path: seq<nat>, baseEnv: Environment) returns (whole: seq<nat>)
    requires Trail(r, path, baseEnv)
    ensures Trail(r, whole, baseEnv) && path <= whole
    ensures var p := r.Parent(whole[|whole| - 1], baseEnv); p.Some? ==> p.value in whole
    decreases r.Below(|r.stages|) - Elements(path)
  {
    var p := r.Parent(path[|path| - 1], baseEnv);
    if p.None? || p.value in path { return path; }
    TrailGrows(r, path, p.value, baseEnv);
    hide Trail;
    assert p.value in r.Below(|r.stages|) - Elements(path);
    assert Elements(path + [p.value]) == Elements(path) + {p.value};
    whole := TrailEnds(r, path + [p.value], baseEnv);
  }

  lemma TrailGrows(r: Resolver, path: seq<nat>, s: nat, baseEnv: Environment)
    requires Trail(r, path, baseEnv) && r.Parent(path[|path| - 1], baseEnv) == Some(s) && s !in path
    ensures Trail(r, path + [s], baseEnv)
  {
    hide r.Parent;
    var more := path + [s];
    assert forall i :: 0 <= i < |path| ==> more[i] == path[i];
    assert forall i :: 0 <= i < |path| ==> path[i] != s;
  }

  lemma {:induction false} TrailSettles(r: Resolver, path: seq<nat>, baseEnv: Environment)
    requires Trail(r, path, baseEnv) && r.Rests(path[|path| - 1], baseEnv)
    ensures r.SettlesWithin(path[0], |path| - 1, baseEnv)
  {
    if |path| > 1 && !r.Rests(path[0], baseEnv) {
      TrailTail(r, path, baseEnv);
      TrailSettles(r, path[1..], baseEnv);
    }
  }

  lemma TrailTail(r: Resolver, path: seq<nat>, baseEnv: Environment)
    requires Trail(r, path, baseEnv) && |path| > 1
    ensures Trail(r, path[1..], baseEnv) && path[1..][|path| - 2] == path[|path| - 1] && path[0] !in path[1..]
    ensures r.Parent(path[0], baseEnv) == Some(path[1..][0])
  {
    hide r.Parent;
  }

  /** A part of a trail is one. */
  lemma TrailPart(r: Resolver, path: seq<nat>, m: nat, n: nat, baseEnv: Environment)
    requires Trail(r, path, baseEnv) && m < n <= |path|
    ensures Trail(r, path[m..n], baseEnv)
  {
  }

  // A round of stages can be given instructions on which a lookup does not end.

  /** The first two stages of the round refer to each other, the other stages of the trail say nothing. */
  ghost predicate Crossed(r: Resolver, path: seq<nat>, a: nat, b: nat) {
    (forall i :: 0 <= i < |path| ==> path[i] < |r.stages|) && a in path && b in path && a != b &&
    forall i :: 0 <= i < |path| ==>
      r.stages[path[i]].instructions ==
      if path[i] == a then [Env("A", [Var("B", None)])]
      else if path[i] == b then [Env("B", [Var("A", None)])] else []
  }

  /** A lookup that finds nothing in the first stages of a trail finds its variable in the last. */
  lemma {:induction false} LocateAlong(
    r: Resolver, path: seq<nat>, variable: string, end: nat, considerArg: bool, at: nat, seen: set<Scope>, baseEnv: Environment)
    requires Trail(r, path, baseEnv) && |path| > 1 && end <= |r.stages[path[0]].instructions|
    requires forall i :: 0 <= i < |path| ==> InStage(path[i]) !in seen
    requires r.LastDefinition(InStage(path[0]), end, variable, considerArg).None?
    requires forall i :: 0 < i < |path| - 1 ==>
               r.LastDefinition(InStage(path[i]), |r.stages[path[i]].instructions|, variable, false).None?
    requires var last := path[|path| - 1];
             r.LastDefinition(InStage(last), |r.stages[last].instructions|, variable, false) == Some(at)
    ensures var last := InStage(path[|path| - 1]);
            r.Locate(variable, InStage(path[0]), end, considerArg, seen, baseEnv) ==
            Defined(last, at, r.DefinedBy(last, at, variable, false).value)
    decreases |path|
  {
    hide r.Locate, r.LastDefinition, r.DefinedBy, r.Parent;
    var s, next := InStage(path[0]), InStage(path[1]);
    r.LocateStep(variable, s, end, considerArg, seen, baseEnv);
    TrailTail(r, path, baseEnv);
    assert r.Outer(path[0], baseEnv) == next;
    if |path| == 2 {
      r.LocateStep(variable, next, |r.InstructionsOf(next)|, false, seen + {s}, baseEnv);
    } else {
      LocateAlong(r, path[1..], variable, |r.InstructionsOf(next)|, false, at, seen + {s}, baseEnv);
    }
  }

  lemma CrossedDefines(r: Resolver, path: seq<nat>, a: nat, b: nat, s: nat, considerArg: bool)
    requires Crossed(r, path, a, b) && s in path
    ensures var n := |r.stages[s].instructions|;
            r.LastDefinition(InStage(s), n, "A", considerArg) == (if s == a then Some(0) else None) &&
            r.LastDefinition(InStage(s), n, "B", considerArg) == (if s == b then Some(0) else None) &&
            (s == a ==> n == 1 && r.DefinedBy(InStage(s), 0, "A", considerArg) == Some([Var("B", None)])) &&
            (s == b ==> n == 1 && r.DefinedBy(InStage(s), 0, "B", considerArg) == Some([Var("A", None)]))
  {
  }

  /** The lookup of `B` goes along the trail to `b`; the lookup of `A`, to `a`. */
  lemma CrossedFinds(r: Resolver, path: seq<nat>, around: seq<nat>, a: nat, b: nat, baseEnv: Environment)
    requires Crossed(r, around, a, b) && Trail(r, path, baseEnv) && |path| > 1
    requires forall i :: 0 <= i < |path| ==> path[i] in around
    ensures path[|path| - 1] == b ==>
              r.Find("B", InStage(path[0]), 0, baseEnv) == Defined(InStage(b), 0, [Var("A", None)])
    ensures path[|path| - 1] == a ==>
              r.Find("A", InStage(path[0]), 0, baseEnv) == Defined(InStage(a), 0, [Var("B", None)])
  {
    hide r.Locate, r.LastDefinition, r.DefinedBy, r.Parent;
    r.NoDefinition(InStage(path[0]), "A", true);
    r.NoDefinition(InStage(path[0]), "B", true);
    var last := path[|path| - 1];
    forall i | 0 <= i < |path|
      ensures i < |path| - 1 ==> path[i] != last
      ensures var n := |r.stages[path[i]].instructions|;
              r.LastDefinition(InStage(path[i]), n, "A", false) == (if path[i] == a then Some(0) else None) &&
              r.LastDefinition(InStage(path[i]), n, "B", false) == (if path[i] == b then Some(0) else None)
    {
      CrossedDefines(r, around, a, b, path[i], false);
    }
    CrossedDefines(r, around, a, b, last, false);
    if last == b { LocateAlong(r, path, "B", 0, true, 0, {}, baseEnv); }
    if last == a { LocateAlong(r, path, "A", 0, true, 0, {}, baseEnv); }
  }

  lemma FilledByOne(r: Resolver, fuel: nat, name: string, s: Scope, baseEnv: Environment)
    requires r.InScope(s) && r.Answer(fuel, name, s, 0, baseEnv).None?
    ensures r.Filled(fuel, [Var(name, None)], s, 0, baseEnv).None?
  {
    hide r.Answer;
    assert [Var(name, None)][..0] == [];
  }

  /** In a round of stages that refer to each other no fuel is enough. */
  lemma {:induction false} RoundNeverAnswers(
    r: Resolver, round: seq<nat>, around: seq<nat>, fuel: nat, baseEnv: Environment)
    requires Round(r, round, baseEnv) && Crossed(r, around, round[0], round[1])
    requires forall i :: 0 <= i < |round| ==> round[i] in around
    ensures r.Answer(fuel, "A", InStage(round[1]), 0, baseEnv).None?
    ensures r.Answer(fuel, "B", InStage(round[0]), 0, baseEnv).None?
    decreases fuel
  {
    hide r.Find, r.Filled, r.Parent, Crossed;
    var a, b := round[0], round[1];
    Rotated(r, round, baseEnv);
    TrailPart(r, round, 0, 2, baseEnv);
    CrossedFinds(r, round[1..] + [a], around, a, b, baseEnv);
    CrossedFinds(r, round[0..2], around, a, b, baseEnv);
    if fuel > 0 {
      RoundNeverAnswers(r, round, around, fuel - 1, baseEnv);
      FilledByOne(r, fuel - 1, "B", InStage(a), baseEnv);
      FilledByOne(r, fuel - 1, "A", InStage(b), baseEnv);
    }
  }

  lemma Rotated(r: Resolver, round: seq<nat>, baseEnv: Environment)
    requires Round(r, round, baseEnv)
    ensures Trail(r, round[1..] + [round[0]], baseEnv)
  {
    hide r.Parent;
    var path := round[1..] + [round[0]];
    forall i, j | 0 <= i < j < |path|
      ensures path[i] != path[j]
    {
    }
  }

  /** From a stage whose trail runs into a round, the lookup of `B` runs into it. */
  lemma TrailNeverAnswers(r: Resolver, path: seq<nat>, j: nat, fuel: nat, baseEnv: Environment)
    requires Trail(r, path, baseEnv) && j < |path| - 1 && r.Parent(path[|path| - 1], baseEnv) == Some(path[j])
    requires Crossed(r, path, path[j], path[j + 1])
    ensures r.Answer(fuel, "B", InStage(path[0]), 0, baseEnv).None?
  {
    hide r.Find, r.Filled, r.Parent, Crossed;
    TrailPart(r, path, j, |path|, baseEnv);
    TrailPart(r, path, 0, j + 2, baseEnv);
    var round := path[j..];
    assert round == path[j..|path|];
    CrossedFinds(r, path[0..j + 2], path, path[j], path[j + 1], baseEnv);
    if fuel > 0 {
      RoundNeverAnswers(r, round, path, fuel - 1, baseEnv);
      FilledByOne(r, fuel - 1, "A", InStage(path[j + 1]), baseEnv);
    }
  }

  function Rigged(n: nat, a: nat, b: nat): (choice: Choice)
    ensures |choice| == n
  {
    seq(n, s => if s == a then [Env("A", [Var("B", None)])] else if s == b then [Env("B", [Var("A", None)])] else [])
  }

  /** A trail that comes back to a stage before its last can be given instructions on which a lookup does not end. */
  lemma RoundCanHang(r: Resolver, path: seq<nat>, j: nat, baseEnv: Environment) returns (choice: Choice)
    requires Trail(r, path, baseEnv) && j < |path| - 1 && r.Parent(path[|path| - 1], baseEnv) == Some(path[j])
    ensures |choice| == |r.stages| && !Returns(With(r, choice), "B", InStage(path[0]), 0, baseEnv)
  {
    choice := Rigged(|r.stages|, path[j], path[j + 1]);
    var r' := With(r, choice);
    SameTrail(r, choice, path, baseEnv);
    assert Crossed(r', path, path[j], path[j + 1]);
    forall fuel: nat
      ensures r'.Answer(fuel, "B", InStage(path[0]), 0, baseEnv).None?
    {
      TrailNeverAnswers(r', path, j, fuel, baseEnv);
    }
  }

  lemma SameTrail(r: Resolver, choice: Choice, path: seq<nat>, baseEnv: Environment)
    requires |choice| == |r.stages| && Trail(r, path, baseEnv)
    ensures Trail(With(r, choice), path, baseEnv)
    ensures With(r, choice).Parent(path[|path| - 1], baseEnv) == r.Parent(path[|path| - 1], baseEnv)
  {
    hide r.Parent, With;
    forall i | 0 <= i < |path|
      ensures With(r, choice).Parent(path[i], baseEnv) == r.Parent(path[i], baseEnv)
    {
      SameParents(r, choice, path[i], baseEnv);
    }
  }

  // What a lookup asks for.

  lemma {:induction false} FilledAsks(r: Resolver, fuel: nat, text: Template, k: nat, s: Scope, before: nat, baseEnv: Environment)
    requires r.InScope(s) && r.Filled(fuel, text, s, before, baseEnv).Some? && k < |text| && text[k].Var?
    ensures r.Answer(fuel, text[k].name, s, before, baseEnv).Some?
    decreases |text|
  {
    hide r.Answer;
    if k < |text| - 1 { FilledAsks(r, fuel, text[..|text| - 1], k, s, before, baseEnv); }
  }

  lemma {:induction false} AskedFill(r: Resolver, text: Template, s: Scope, before: nat, baseEnv: Environment) returns (fuel: nat)
    requires r.InScope(s)
    requires forall k :: 0 <= k < |text| && text[k].Var? ==> Returns(r, text[k].name, s, before, baseEnv)
    ensures r.Filled(fuel, text, s, before, baseEnv).Some?
    decreases |text|
  {
    hide r.Answer;
    if text == [] { return 0; }
    var n := |text| - 1;
    var init := AskedFill(r, text[..n], s, before, baseEnv);
    fuel := init;
    if text[n].Var? {
      var last: nat :| r.Answer(last, text[n].name, s, before, baseEnv).Some?;
      fuel := init + last;
      r.AnswerKept(last, fuel, text[n].name, s, before, baseEnv);
    }
    r.FilledKept(init, fuel, text[..n], s, before, baseEnv);
  }

  /** A lookup that finds a text comes to an end exactly when the lookups of the variables in the text do. */
  lemma ReturnsIffAskedReturn(r: Resolver, variable: string, s: Scope, before: nat, baseEnv: Environment)
    requires r.InScope(s) && r.Find(variable, s, before, baseEnv).Defined?
    ensures var place := r.Find(variable, s, before, baseEnv);
            Returns(r, variable, s, before, baseEnv) <==>
            forall k :: 0 <= k < |place.text| && place.text[k].Var? ==>
              Returns(r, place.text[k].name, place.scope, place.at, baseEnv)
  {
    hide r.Find, r.Filled;
    var place := r.Find(variable, s, before, baseEnv);
    if fuel: nat :| r.Answer(fuel, variable, s, before, baseEnv).Some? {
      forall k | 0 <= k < |place.text| && place.text[k].Var?
        ensures Returns(r, place.text[k].name, place.scope, place.at, baseEnv)
      {
        FilledAsks(r, fuel - 1, place.text, k, place.scope, place.at, baseEnv);
      }
    }
    if forall k :: 0 <= k < |place.text| && place.text[k].Var? ==>
         Returns(r, place.text[k].name, place.scope, place.at, baseEnv) {
      var fuel := AskedFill(r, place.text, place.scope, place.at, baseEnv);
      assert r.Answer(fuel + 1, variable, s, before, baseEnv).Some?;
    }
  }

  // The theorems.

  /** From a stage that settles every lookup comes to an end, and gives the value of the forward evaluation. */
  lemma SettledReturns(r: Resolver, variable: string, s: Scope, before: nat, baseEnv: Environment)
    requires r.InScope(s) && r.Settles(s, baseEnv)
    ensures Returns(r, variable, s, before, baseEnv)
  {
    hide r.Answer;
    r.AnswerForward(Min(before, |r.InstructionsOf(s)|) + r.Under(s, baseEnv), variable, s, before, baseEnv);
  }

  ghost predicate AlwaysReturns(r: Resolver, s: nat, baseEnv: Environment)
    requires s < |r.stages|
  {
    forall choice: Choice, variable, before :: |choice| == |r.stages| ==>
      Returns(With(r, choice), variable, InStage(s), before, baseEnv)
  }

  /** The lookups from a stage come to an end, whatever the instructions, exactly when the stage settles. */
  lemma ReturnsIffSettled(r: Resolver, s: nat, baseEnv: Environment)
    requires s < |r.stages|
    ensures AlwaysReturns(r, s, baseEnv) <==> r.Settled(s, baseEnv)
  {
    hide r.Parent, Returns, With;
    if r.Settled(s, baseEnv) {
      forall choice: Choice, variable, before | |choice| == |r.stages|
        ensures Returns(With(r, choice), variable, InStage(s), before, baseEnv)
      {
        var n :| r.SettlesWithin(s, n, baseEnv);
        SameSettling(r, choice, s, n, baseEnv);
        SettledReturns(With(r, choice), variable, InStage(s), before, baseEnv);
      }
    } else {
      var path := TrailEnds(r, [s], baseEnv);
      var n := |path| - 1;
      if r.Rests(path[n], baseEnv) {
        TrailSettles(r, path, baseEnv);
        assert false;
      }
      var j :| 0 <= j < |path| && path[j] == r.Parent(path[n], baseEnv).value;
      var choice := RoundCanHang(r, path, j, baseEnv);
    }
  }

  /** All lookups come to an end, whatever the instructions, exactly when no two or more stages are built FROM each other. */
  lemma ReturnsIffNoRound(r: Resolver, baseEnv: Environment)
    ensures (forall s :: 0 <= s < |r.stages| ==> AlwaysReturns(r, s, baseEnv)) <==>
            !exists round :: Round(r, round, baseEnv)
  {
    hide r.Parent, Returns, With;
    if round :| Round(r, round, baseEnv) {
      var choice := RoundCanHang(r, round, 0, baseEnv);
      assert !AlwaysReturns(r, round[0], baseEnv);
    }
    forall s | 0 <= s < |r.stages| && !AlwaysReturns(r, s, baseEnv)
      ensures exists round :: Round(r, round, baseEnv)
    {
      ReturnsIffSettled(r, s, baseEnv);
      var path := TrailEnds(r, [s], baseEnv);
      var n := |path| - 1;
      if !r.Rests(path[n], baseEnv) {
        var j :| 0 <= j < |path| && path[j] == r.Parent(path[n], baseEnv).value;
        TrailPart(r, path, j, |path|, baseEnv);
        assert Round(r, path[j..|path|], baseEnv);
      } else {
        TrailSettles(r, path, baseEnv);
      }
    }
  }

  // A Dockerfile on which a lookup does not end.

  function Mutual(): Resolver {
    Resolver([], [Stage([Text("b")], "a", [Env("A", [Var("B", None)])]),
                  Stage([Text("a")], "b", [Env("B", [Var("A", None)])])], map[], map[])
  }

  lemma MutualRound(baseEnv: Environment)
    ensures Round(Mutual(), [0, 1], baseEnv)
  {
    var r := Mutual();
    MutualParents(baseEnv);
    hide r.Parent;
    assert Trail(r, [0, 1], baseEnv);
  }

  lemma MutualParents(baseEnv: Environment)
    ensures Mutual().Parent(0, baseEnv) == Some(1) && Mutual().Parent(1, baseEnv) == Some(0)
  {
    var r := Mutual();
    OneText("a", r.PreambleEnv(baseEnv));
    OneText("b", r.PreambleEnv(baseEnv));
    hide r.PreambleEnv, Expand;
    assert r.Labelled("b", 2) == Some(1);
    assert r.Labelled("a", 2) == r.Labelled("a", 1) == Some(0);
  }

  /** Two stages built FROM each other whose variables refer to each other: the lookup never comes to an end. */
  lemma MutualStagesAskForEver(baseEnv: Environment)
    ensures !Returns(Mutual(), "B", InStage(0), 0, baseEnv)
  {
    var r := Mutual();
    MutualRound(baseEnv);
    assert Crossed(r, [0, 1], 0, 1);
    hide r.Answer, Round, Crossed;
    forall fuel: nat
      ensures r.Answer(fuel, "B", InStage(0), 0, baseEnv).None?
    {
      RoundNeverAnswers(r, [0, 1], [0, 1], fuel, baseEnv);
    }
  }
}
