/**
 Which lookups of internal/docker/resolve.go:100-175 come to an end, for the
 instructions a Dockerfile has.

 A lookup that finds an instruction goes on with the lookups of the variables
 in its text. It never ends exactly when it comes back to an instruction it is
 still working on, and otherwise needs no more lookups inside each other than
 there are instructions.
 */
module DockerAsks {
  import opened DockerResolver
  import opened DockerCycles
  import opened Wrappers

  /** An instruction: its scope and its index there. */
  datatype Spot = Spot(scope: Scope, at: nat)

  ghost function SpotsOf(s: Scope, n: nat): set<Spot> {
    if n == 0 then {} else SpotsOf(s, n - 1) + {Spot(s, n - 1)}
  }

  lemma {:induction false} SpotsOfLaws(s: Scope, n: nat)
    ensures forall p :: p in SpotsOf(s, n) <==> p.scope == s && p.at < n
    ensures |SpotsOf(s, n)| == n
  {
    if n > 0 { SpotsOfLaws(s, n - 1); }
  }

  predicate IsStageSpot(stages: seq<Stage>, n: nat, p: Spot)
    requires n <= |stages|
  {
    p.scope.InStage? && p.scope.stage < n && p.at < |stages[p.scope.stage].instructions|
  }

  ghost function StageSpots(stages: seq<Stage>, n: nat): set<Spot>
    requires n <= |stages|
  {
    if n == 0 then {} else StageSpots(stages, n - 1) + SpotsOf(InStage(n - 1), |stages[n - 1].instructions|)
  }

  lemma {:induction false} InStageSpots(stages: seq<Stage>, n: nat, p: Spot)
    requires n <= |stages|
    ensures p in StageSpots(stages, n) <==> IsStageSpot(stages, n, p)
  {
    hide SpotsOf;
    if n > 0 {
      InStageSpots(stages, n - 1, p);
      SpotsOfLaws(InStage(n - 1), |stages[n - 1].instructions|);
    }
  }

  lemma {:induction false} StageSpotsCount(stages: seq<Stage>, n: nat)
    requires n <= |stages|
    ensures |StageSpots(stages, n)| <= StageCount(stages, n)
  {
    hide SpotsOf;
    if n > 0 {
      StageSpotsCount(stages, n - 1);
      SpotsOfLaws(InStage(n - 1), |stages[n - 1].instructions|);
      UnionBound(StageSpots(stages, n - 1), SpotsOf(InStage(n - 1), |stages[n - 1].instructions|));
    }
  }

  lemma UnionBound(a: set<Spot>, b: set<Spot>)
    ensures |a + b| <= |a| + |b|
  {
    assert |a + b| == |a| + |b| - |a * b|;
  }

  function StageCount(stages: seq<Stage>, n: nat): nat
    requires n <= |stages|
  {
    if n == 0 then 0 else StageCount(stages, n - 1) + |stages[n - 1].instructions|
  }

  /** The number of instructions, in the preamble and in the stages. */
  function InstructionCount(r: Resolver): nat { |r.preamble| + StageCount(r.stages, |r.stages|) }

  predicate IsSpot(r: Resolver, p: Spot) { r.InScope(p.scope) && p.at < |r.InstructionsOf(p.scope)| }

  ghost function Spots(r: Resolver): set<Spot> {
    SpotsOf(Preamble, |r.preamble|) + StageSpots(r.stages, |r.stages|)
  }

  lemma SpotsOfResolver(r: Resolver)
    ensures forall p :: p in Spots(r) <==> IsSpot(r, p)
    ensures |Spots(r)| <= InstructionCount(r)
  {
    SpotsOfLaws(Preamble, |r.preamble|);
    StageSpotsCount(r.stages, |r.stages|);
    forall p
      ensures p in StageSpots(r.stages, |r.stages|) <==> IsStageSpot(r.stages, |r.stages|, p)
    {
      InStageSpots(r.stages, |r.stages|, p);
    }
    hide SpotsOf, StageSpots, StageCount;
    UnionBound(SpotsOf(Preamble, |r.preamble|), StageSpots(r.stages, |r.stages|));
  }

  /** The text a lookup goes on with when an instruction defines its variable. */
  function TextAt(r: Resolver, p: Spot): Template
    requires IsSpot(r, p)
  {
    var ins := r.InstructionsOf(p.scope)[p.at];
    if ins.Env? then ins.value
    else if ins.Arg? then if ins.name in r.buildArgs then r.buildArgs[ins.name] else ins.value
    else []
  }

  lemma {:induction false} LocatedText(
    r: Resolver, variable: string, s: Scope, end: nat, considerArg: bool, seen: set<Scope>, baseEnv: Environment)
    requires r.InScope(s) && end <= |r.InstructionsOf(s)|
    ensures var place := r.Locate(variable, s, end, considerArg, seen, baseEnv);
            place.Defined? ==> place.text == TextAt(r, Spot(place.scope, place.at))
    decreases r.Scopes() - seen
  {
    hide r.Outer, r.DefinedBy, r.LastDefinition, TextAt;
    r.LocateStep(variable, s, end, considerArg, seen, baseEnv);
    if s !in seen {
      var i := r.LastDefinition(s, end, variable, considerArg);
      if i.Some? {
        DefiningText(r, s, i.value, variable, considerArg);
      } else if s.InStage? {
        var next := r.Outer(s.stage, baseEnv);
        assert s in r.Scopes() - seen;
        LocatedText(r, variable, next, |r.InstructionsOf(next)|, next.Preamble?, seen + {s}, baseEnv);
      }
    }
  }

  lemma DefiningText(r: Resolver, s: Scope, i: nat, variable: string, considerArg: bool)
    requires r.InScope(s) && i < |r.InstructionsOf(s)|
    ensures var text := r.DefinedBy(s, i, variable, considerArg); text.Some? ==> text.value == TextAt(r, Spot(s, i))
  {
  }

  /** The instruction a lookup finds. */
  ghost function Found(r: Resolver, variable: string, s: Scope, before: nat, baseEnv: Environment): (p: Option<Spot>)
    requires r.InScope(s)
    ensures p.Some? <==> r.Find(variable, s, before, baseEnv).Defined?
    ensures p.Some? ==>
              IsSpot(r, p.value) && r.Find(variable, s, before, baseEnv) == Defined(p.value.scope, p.value.at, TextAt(r, p.value))
  {
    var place := r.Find(variable, s, before, baseEnv);
    LocatedText(r, variable, s, Min(before, |r.InstructionsOf(s)|), true, {}, baseEnv);
    if place.Defined? then Some(Spot(place.scope, place.at)) else None
  }

  /** Working out the instruction `p` takes a lookup that finds `q`. */
  ghost predicate Asks(r: Resolver, p: Spot, q: Spot, baseEnv: Environment)
    requires IsSpot(r, p)
  {
    exists k :: 0 <= k < |TextAt(r, p)| && AsksAt(r, p, k, q, baseEnv)
  }

  ghost predicate AsksAt(r: Resolver, p: Spot, k: nat, q: Spot, baseEnv: Environment)
    requires IsSpot(r, p) && k < |TextAt(r, p)|
  {
    TextAt(r, p)[k].Var? && Found(r, TextAt(r, p)[k].name, p.scope, p.at, baseEnv) == Some(q)
  }

  // Instructions that can be worked out.

  /** The instructions that can be worked out with fewer than `k` lookups inside each other. */
  ghost function Worked(r: Resolver, k: nat, baseEnv: Environment): (done: set<Spot>)
    ensures done <= Spots(r) && forall p :: p in done ==> IsSpot(r, p)
  {
    set p | p in Spots(r) && IsSpot(r, p) && k > 0 && r.Filled(k - 1, TextAt(r, p), p.scope, p.at, baseEnv).Some?
  }

  lemma AnswerIffWorked(r: Resolver, k: nat, variable: string, s: Scope, before: nat, baseEnv: Environment)
    requires r.InScope(s)
    ensures var p := Found(r, variable, s, before, baseEnv);
            r.Answer(k, variable, s, before, baseEnv).Some? <==> p.None? || p.value in Worked(r, k, baseEnv)
  {
    hide r.Find, r.Filled, r.Answer, IsSpot, TextAt;
    SpotsOfResolver(r);
    r.AnswerStep(k, variable, s, before, baseEnv);
  }

  lemma {:induction false} FilledIffAnswered(r: Resolver, k: nat, text: Template, s: Scope, before: nat, baseEnv: Environment)
    requires r.InScope(s)
    ensures r.Filled(k, text, s, before, baseEnv).Some? <==>
            forall i :: 0 <= i < |text| && text[i].Var? ==> r.Answer(k, text[i].name, s, before, baseEnv).Some?
    decreases |text|
  {
    hide r.Answer;
    if text != [] {
      var n := |text| - 1;
      FilledIffAnswered(r, k, text[..n], s, before, baseEnv);
      assert forall i :: 0 <= i < n ==> text[..n][i] == text[i];
    }
  }

  /** An instruction can be worked out with one lookup more than those it asks for. */
  lemma WorkedIffAsked(r: Resolver, k: nat, p: Spot, baseEnv: Environment)
    requires IsSpot(r, p)
    ensures p in Worked(r, k + 1, baseEnv) <==> forall q :: Asks(r, p, q, baseEnv) ==> q in Worked(r, k, baseEnv)
  {
    assert r.InScope(p.scope);
    hide r.Filled, r.Answer, Found, TextAt, IsSpot, Spots;
    SpotsOfResolver(r);
    var text := TextAt(r, p);
    FilledIffAnswered(r, k, text, p.scope, p.at, baseEnv);
    forall i | 0 <= i < |text| && text[i].Var?
      ensures var q := Found(r, text[i].name, p.scope, p.at, baseEnv);
              r.Answer(k, text[i].name, p.scope, p.at, baseEnv).Some? <==> q.None? || q.value in Worked(r, k, baseEnv)
    {
      AnswerIffWorked(r, k, text[i].name, p.scope, p.at, baseEnv);
    }
    if forall q :: Asks(r, p, q, baseEnv) ==> q in Worked(r, k, baseEnv) {
      forall i | 0 <= i < |text| && text[i].Var?
        ensures r.Answer(k, text[i].name, p.scope, p.at, baseEnv).Some?
      {
        var q := Found(r, text[i].name, p.scope, p.at, baseEnv);
        if q.Some? { assert AsksAt(r, p, i, q.value, baseEnv); }
      }
    }
  }

  lemma {:induction false} WorkedGrows(r: Resolver, k: nat, baseEnv: Environment)
    ensures Worked(r, k, baseEnv) <= Worked(r, k + 1, baseEnv)
  {
    hide *;
    if k == 0 {
      NothingWorked(r, baseEnv);
    } else {
      WorkedGrows(r, k - 1, baseEnv);
      forall p | p in Worked(r, k, baseEnv)
        ensures p in Worked(r, k + 1, baseEnv)
      {
        WorkedIffAsked(r, k - 1, p, baseEnv);
        WorkedIffAsked(r, k, p, baseEnv);
      }
    }
  }

  /** Once nothing more can be worked out, nothing ever can. */
  lemma {:induction false} WorkedStays(r: Resolver, k: nat, m: nat, baseEnv: Environment)
    requires Worked(r, k, baseEnv) == Worked(r, k + 1, baseEnv) && k <= m
    ensures Worked(r, m, baseEnv) == Worked(r, k, baseEnv)
    decreases m
  {
    hide *;
    if k < m {
      WorkedStays(r, k, m - 1, baseEnv);
      forall p | IsSpot(r, p)
        ensures p in Worked(r, m, baseEnv) <==> p in Worked(r, k + 1, baseEnv)
      {
        WorkedIffAsked(r, m - 1, p, baseEnv);
        WorkedIffAsked(r, k, p, baseEnv);
      }
    }
  }

  lemma NothingWorked(r: Resolver, baseEnv: Environment)
    ensures Worked(r, 0, baseEnv) == {}
  {
  }

  /** Until then each step works out one more. */
  lemma {:induction false} WorkedCount(r: Resolver, k: nat, baseEnv: Environment)
    requires forall j: nat :: j < k ==> Worked(r, j, baseEnv) != Worked(r, j + 1, baseEnv)
    ensures |Worked(r, k, baseEnv)| >= k
  {
    hide *;
    if k > 0 {
      WorkedCount(r, k - 1, baseEnv);
      WorkedGrows(r, k - 1, baseEnv);
      Larger(Worked(r, k - 1, baseEnv), Worked(r, k, baseEnv));
    }
  }

  lemma Larger(a: set<Spot>, b: set<Spot>)
    requires a <= b
    ensures |a| <= |b| && (a != b ==> |a| < |b|)
  {
    assert b == a + (b - a);
  }

  /** What can be worked out at all can be with as many lookups as there are instructions. */
  lemma WorkedByCount(r: Resolver, m: nat, baseEnv: Environment)
    ensures Worked(r, m, baseEnv) <= Worked(r, InstructionCount(r), baseEnv)
    ensures Worked(r, InstructionCount(r) + 1, baseEnv) == Worked(r, InstructionCount(r), baseEnv)
  {
    hide *;
    SpotsOfResolver(r);
    var n := InstructionCount(r);
    if forall j: nat :: j < n + 1 ==> Worked(r, j, baseEnv) != Worked(r, j + 1, baseEnv) {
      WorkedCount(r, n + 1, baseEnv);
      Larger(Worked(r, n + 1, baseEnv), Spots(r));
      assert false;
    }
    var k: nat :| k < n + 1 && Worked(r, k, baseEnv) == Worked(r, k + 1, baseEnv);
    WorkedStays(r, k, n, baseEnv);
    WorkedStays(r, k, n + 1, baseEnv);
    if m <= n { WorkedBelow(r, m, n, baseEnv); } else { WorkedStays(r, k, m, baseEnv); }
  }

  lemma {:induction false} WorkedBelow(r: Resolver, m: nat, n: nat, baseEnv: Environment)
    requires m <= n
    ensures Worked(r, m, baseEnv) <= Worked(r, n, baseEnv)
    decreases n
  {
    hide *;
    if m < n {
      WorkedBelow(r, m, n - 1, baseEnv);
      WorkedGrows(r, n - 1, baseEnv);
    }
  }

  /** A lookup comes to an end exactly when it does with as many lookups inside each other as there are instructions. */
  lemma ReturnsIffWithinCount(r: Resolver, variable: string, s: Scope, before: nat, baseEnv: Environment)
    requires r.InScope(s)
    ensures Returns(r, variable, s, before, baseEnv) <==>
            r.Answer(InstructionCount(r), variable, s, before, baseEnv).Some?
  {
    hide r.Answer, Found, Worked, InstructionCount, IsSpot;
    var n := InstructionCount(r);
    AnswerIffWorked(r, n, variable, s, before, baseEnv);
    if fuel: nat :| r.Answer(fuel, variable, s, before, baseEnv).Some? {
      AnswerIffWorked(r, fuel, variable, s, before, baseEnv);
      WorkedByCount(r, fuel, baseEnv);
    }
  }

  // Coming back to an instruction.

  /** Each instruction asks for the next. */
  ghost predicate Asking(r: Resolver, path: seq<Spot>, baseEnv: Environment) {
    (forall i :: 0 <= i < |path| ==> IsSpot(r, path[i])) &&
    forall i :: 0 <= i < |path| - 1 ==> Asks(r, path[i], path[i + 1], baseEnv)
  }

  /** The last instruction is one that was asked for before. */
  ghost predicate Loops(r: Resolver, path: seq<Spot>, baseEnv: Environment) {
    |path| > 1 && Asking(r, path, baseEnv) && path[|path| - 1] in path[..|path| - 1]
  }

  /** On such a path nothing can be worked out. */
  lemma {:induction false} LoopNeverWorked(r: Resolver, path: seq<Spot>, i: nat, k: nat, baseEnv: Environment)
    requires Loops(r, path, baseEnv) && i < |path| - 1
    ensures path[i] !in Worked(r, k, baseEnv)
    decreases k
  {
    hide *;
    if k == 0 {
      NothingWorked(r, baseEnv);
    } else {
      var m := NextOnLoop(r, path, i, baseEnv);
      WorkedIffAsked(r, k - 1, path[i], baseEnv);
      LoopNeverWorked(r, path, m, k - 1, baseEnv);
    }
  }

  lemma NextOnLoop(r: Resolver, path: seq<Spot>, i: nat, baseEnv: Environment) returns (m: nat)
    requires Loops(r, path, baseEnv) && i < |path| - 1
    ensures IsSpot(r, path[i]) && m < |path| - 1 && Asks(r, path[i], path[m], baseEnv)
  {
    hide Asks, IsSpot;
    assert Asks(r, path[i], path[i + 1], baseEnv);
    if i + 1 < |path| - 1 { return i + 1; }
    m :| 0 <= m < |path| - 1 && path[m] == path[|path| - 1];
  }

  ghost function SpotSet(path: seq<Spot>): set<Spot> { set p | p in path }

  /** From an instruction that cannot be worked out the asking goes on until it comes back. */
  lemma LoopFound(r: Resolver, path: seq<Spot>, baseEnv: Environment) returns (loop: seq<Spot>)
    requires path != [] && Asking(r, path, baseEnv)
    requires path[|path| - 1] !in Worked(r, InstructionCount(r), baseEnv) && path[|path| - 1] !in path[..|path| - 1]
    ensures Loops(r, loop, baseEnv) && path <= loop
    decreases Spots(r) - SpotSet(path[..|path| - 1])
  {
    hide Asks, Worked, InstructionCount, IsSpot, Spots, Asking;
    SpotsOfResolver(r);
    LastIsSpot(r, path, baseEnv);
    var n, last := InstructionCount(r), path[|path| - 1];
    WorkedByCount(r, n, baseEnv);
    WorkedIffAsked(r, n, last, baseEnv);
    var q :| Asks(r, last, q, baseEnv) && q !in Worked(r, n, baseEnv);
    AskedIsSpot(r, last, q, baseEnv);
    var longer := path + [q];
    AskingGrows(r, path, q, baseEnv);
    assert longer[..|path|] == path;
    if q in path { return longer; }
    assert path == path[..|path| - 1] + [last];
    assert SpotSet(path) == SpotSet(path[..|path| - 1]) + {last};
    loop := LoopFound(r, longer, baseEnv);
  }

  lemma AskedIsSpot(r: Resolver, p: Spot, q: Spot, baseEnv: Environment)
    requires IsSpot(r, p) && Asks(r, p, q, baseEnv)
    ensures IsSpot(r, q)
  {
    hide TextAt, Found, IsSpot;
  }

  lemma AskingGrows(r: Resolver, path: seq<Spot>, q: Spot, baseEnv: Environment)
    requires path != [] && Asking(r, path, baseEnv) && IsSpot(r, q) && Asks(r, path[|path| - 1], q, baseEnv)
    ensures Asking(r, path + [q], baseEnv)
  {
    hide Asks, IsSpot;
    var longer := path + [q];
    assert forall i :: 0 <= i < |path| ==> longer[i] == path[i];
  }

  lemma LastIsSpot(r: Resolver, path: seq<Spot>, baseEnv: Environment)
    requires path != [] && Asking(r, path, baseEnv)
    ensures IsSpot(r, path[|path| - 1])
  {
    hide Asks, IsSpot;
  }

  /** A lookup comes to an end exactly when it never comes back to an instruction it is still working on. */
  lemma ReturnsIffNoLoop(r: Resolver, variable: string, s: Scope, before: nat, baseEnv: Environment)
    requires r.InScope(s)
    ensures var p := Found(r, variable, s, before, baseEnv);
            Returns(r, variable, s, before, baseEnv) <==>
            p.None? || !exists path :: Loops(r, path, baseEnv) && path[0] == p.value
  {
    hide r.Answer, Found, Worked, InstructionCount, Asking, IsSpot;
    var n, p := InstructionCount(r), Found(r, variable, s, before, baseEnv);
    ReturnsIffWithinCount(r, variable, s, before, baseEnv);
    AnswerIffWorked(r, n, variable, s, before, baseEnv);
    if p.Some? {
      if path :| Loops(r, path, baseEnv) && path[0] == p.value {
        LoopNeverWorked(r, path, 0, n, baseEnv);
      }
      if p.value !in Worked(r, n, baseEnv) {
        OneAsking(r, p.value, baseEnv);
        var loop := LoopFound(r, [p.value], baseEnv);
        assert loop[0] == p.value;
      }
    }
  }

  lemma OneAsking(r: Resolver, p: Spot, baseEnv: Environment)
    requires IsSpot(r, p)
    ensures Asking(r, [p], baseEnv)
  {
  }
}
