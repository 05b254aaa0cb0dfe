/**
 Variables of a Dockerfile (internal/docker/resolve.go).

 The resolver looks a variable up lazily and backwards: through the earlier
 instructions of a stage, then through the stages it is built FROM, then in
 the preamble. It is proved equal to a forward evaluator that runs the
 instructions in order and hands an environment from each stage to the next,
 on every stage whose chain of FROM ends or comes to a stage built FROM itself.

 The text of a value is a `Template`: the literal pieces and the variable
 references the source finds in it with a regular expression.
 */
module DockerResolver {
  import opened Wrappers

  /** `${name}`, `${name:-word}` or `${name:+word}`, or the text between them. */
  datatype Part = Text(text: string) | Var(name: string, alt: Option<Alternative>)
  datatype Alternative = IfUnset(word: string) | IfSet(word: string)
  type Template = seq<Part>

  datatype Instruction =
    | Env(name: string, value: Template)
    | Arg(name: string, value: Template)
    | User(user: Template)
    | Label(name: string, value: Template)

  datatype Stage = Stage(image: Template, name: string, instructions: seq<Instruction>)

  datatype Scope = Preamble | InStage(stage: nat)

  type Environment = map<string, string>

  function Lookup(e: Environment, name: string): string {
    if name in e then e[name] else ""
  }

  predicate IsQuote(c: char) { c == '"' || c == '\'' }

  /** Strips one leading and one trailing quote. */
  function TrimOneQuote(s: string): string {
    var t := if s != "" && IsQuote(s[0]) then s[1..] else s;
    if t != "" && IsQuote(t[|t| - 1]) then t[..|t| - 1] else t
  }

  /** What a reference stands for when its variable is `value`. */
  function Alternate(value: string, alt: Option<Alternative>): string {
    match alt
    case None => value
    case Some(IfUnset(word)) => TrimOneQuote(if value == "" then word else value)
    case Some(IfSet(word)) => TrimOneQuote(if value != "" then word else value)
  }

  function ExpandPart(p: Part, e: Environment): string {
    match p
    case Text(t) => t
    case Var(name, alt) => Alternate(Lookup(e, name), alt)
  }

  function Expand(t: Template, e: Environment): string {
    if t == [] then "" else Expand(t[..|t| - 1], e) + ExpandPart(t[|t| - 1], e)
  }

  lemma OneText(text: string, e: Environment)
    ensures Expand([Text(text)], e) == text
  {
    assert [Text(text)][..0] == [] && "" + text == text;
  }

  /** Where a lookup finds its variable: at an instruction, outside the Dockerfile, or nowhere. */
  datatype Place = Defined(scope: Scope, at: nat, text: Template) | Given | Nothing

  /** A parsed Dockerfile and what it is built with. */
  datatype Resolver = Resolver(
    preamble: seq<Instruction>, stages: seq<Stage>, buildArgs: map<string, Template>, platform: Environment)
  {
    /** The stage a label names: the last one that carries it. */
    function Labelled(target: string, n: nat): (s: Option<nat>)
      requires n <= |stages|
      ensures s.Some? ==> target != "" && s.value < n && stages[s.value].name == target
      ensures forall i :: 0 <= i < n && stages[i].name == target && target != "" ==> s.Some? && i <= s.value
    {
      if n == 0 || target == "" then None
      else if stages[n - 1].name == target then Some(n - 1)
      else Labelled(target, n - 1)
    }

    function ByLabel(target: string): Option<nat> { Labelled(target, |stages|) }

    predicate InScope(s: Scope) { s.InStage? ==> s.stage < |stages| }

    function InstructionsOf(s: Scope): seq<Instruction>
      requires InScope(s)
    {
      if s.Preamble? then preamble else stages[s.stage].instructions
    }

    // The forward evaluator.

    /** The value the instruction gives a variable, in the environment before it. */
    function Defines(ins: Instruction, e: Environment): Option<string> {
      match ins
      case Env(_, value) => Some(Expand(value, e))
      case Arg(name, value) =>
        if name in buildArgs then Some(Expand(buildArgs[name], e))
        else if value != [] then Some(Expand(value, e))
        else None
      case User(_) => None
      case Label(_, _) => None
    }

    /** The environment after the first `n` instructions. */
    function Run(instructions: seq<Instruction>, n: nat, start: Environment): Environment
      requires n <= |instructions|
    {
      if n == 0 then start
      else
        var e := Run(instructions, n - 1, start);
        var ins := instructions[n - 1];
        var v := Defines(ins, e);
        if v.Some? then e[ins.name := v.value] else e
    }

    /** What the first `n` instructions export: their ENVs, over what the stage inherited. */
    function Exports(instructions: seq<Instruction>, n: nat, start: Environment): Environment
      requires n <= |instructions|
    {
      if n == 0 then start
      else
        var out := Exports(instructions, n - 1, start);
        var ins := instructions[n - 1];
        if ins.Env? then out[ins.name := Expand(ins.value, Run(instructions, n - 1, start))] else out
    }

    function Outside(baseEnv: Environment): Environment { platform + baseEnv }

    function PreambleEnv(baseEnv: Environment): Environment {
      Run(preamble, |preamble|, Outside(baseEnv))
    }

    /** The image a stage is built FROM, in the global scope. */
    function Image(s: nat, baseEnv: Environment): string
      requires s < |stages|
    {
      Expand(stages[s].image, PreambleEnv(baseEnv))
    }

    /** The stage a stage is built FROM, if its image is one. */
    function Parent(s: nat, baseEnv: Environment): (p: Option<nat>)
      requires s < |stages|
      ensures p.Some? ==> p.value < |stages|
    {
      ByLabel(Image(s, baseEnv))
    }

    /** The lookup of a stage goes no further: its image is no stage, or it is built FROM itself. */
    predicate Rests(s: nat, baseEnv: Environment)
      requires s < |stages|
    {
      Parent(s, baseEnv).None? || Parent(s, baseEnv) == Some(s)
    }

    predicate SettlesWithin(s: nat, n: nat, baseEnv: Environment)
      requires s < |stages|
      decreases n
    {
      Rests(s, baseEnv) || (n > 0 && SettlesWithin(Parent(s, baseEnv).value, n - 1, baseEnv))
    }

    /** The chain of stages a stage is built FROM ends, or comes to a stage built FROM itself. */
    ghost predicate Settled(s: nat, baseEnv: Environment)
      requires s < |stages|
    {
      exists n :: SettlesWithin(s, n, baseEnv)
    }

    lemma {:induction false} SettlesLater(s: nat, m: nat, n: nat, baseEnv: Environment)
      requires s < |stages| && SettlesWithin(s, m, baseEnv) && m <= n
      ensures SettlesWithin(s, n, baseEnv)
      decreases n
    {
      hide Parent;
      if !Rests(s, baseEnv) { SettlesLater(Parent(s, baseEnv).value, m - 1, n - 1, baseEnv); }
    }

    ghost function Least(s: nat, n: nat, baseEnv: Environment): (m: nat)
      requires s < |stages| && SettlesWithin(s, n, baseEnv)
      ensures SettlesWithin(s, m, baseEnv) && (m > 0 ==> !SettlesWithin(s, m - 1, baseEnv))
    {
      if n == 0 || !SettlesWithin(s, n - 1, baseEnv) then n else Least(s, n - 1, baseEnv)
    }

    /** How many stages the chain goes through before it settles. */
    ghost function Height(s: nat, baseEnv: Environment): (m: nat)
      requires s < |stages| && Settled(s, baseEnv)
      ensures SettlesWithin(s, m, baseEnv) && (m > 0 ==> !SettlesWithin(s, m - 1, baseEnv))
    {
      var n :| SettlesWithin(s, n, baseEnv);
      Least(s, n, baseEnv)
    }

    lemma HeightFalls(s: nat, baseEnv: Environment)
      requires s < |stages| && Settled(s, baseEnv) && !Rests(s, baseEnv)
      ensures Settled(Parent(s, baseEnv).value, baseEnv)
      ensures Height(Parent(s, baseEnv).value, baseEnv) < Height(s, baseEnv)
    {
      hide Parent;
      var p, m := Parent(s, baseEnv).value, Height(s, baseEnv);
      assert SettlesWithin(p, m - 1, baseEnv);
      var h := Height(p, baseEnv);
      if h >= m { SettlesLater(p, m - 1, h - 1, baseEnv); }
    }

    ghost predicate Settles(s: Scope, baseEnv: Environment)
      requires InScope(s)
    {
      s.InStage? ==> Settled(s.stage, baseEnv)
    }

    ghost function Level(s: Scope, baseEnv: Environment): nat
      requires InScope(s) && Settles(s, baseEnv)
    {
      if s.Preamble? then 0 else Height(s.stage, baseEnv) + 1
    }

    /** The environment a stage starts with: nothing, if it is built FROM itself. */
    ghost function Inherited(s: nat, baseEnv: Environment): Environment
      requires s < |stages| && Settled(s, baseEnv)
      decreases Height(s, baseEnv)
    {
      match Parent(s, baseEnv)
      case None => PreambleEnv(baseEnv)
      case Some(p) =>
        if p == s then map[]
        else
          HeightFalls(s, baseEnv);
          Exports(stages[p].instructions, |stages[p].instructions|, Inherited(p, baseEnv))
    }

    ghost function Start(s: Scope, baseEnv: Environment): Environment
      requires InScope(s) && Settles(s, baseEnv)
    {
      if s.Preamble? then Outside(baseEnv) else Inherited(s.stage, baseEnv)
    }

    /** The environment right before instruction `before` of the scope. */
    ghost function EnvAt(s: Scope, before: nat, baseEnv: Environment): Environment
      requires InScope(s) && Settles(s, baseEnv)
    {
      Run(InstructionsOf(s), Min(before, |InstructionsOf(s)|), Start(s, baseEnv))
    }

    // The lazy lookup.

    /** The text the lookup of `variable` goes on with when it comes to instruction `i`, if that defines it. */
    function DefinedBy(s: Scope, i: nat, variable: string, considerArg: bool): Option<Template>
      requires InScope(s) && i < |InstructionsOf(s)|
    {
      var ins := InstructionsOf(s)[i];
      if ins.Env? && ins.name == variable then Some(ins.value)
      else if ins.Arg? && ins.name == variable && considerArg then
        if variable in buildArgs then Some(buildArgs[variable]) else if ins.value != [] then Some(ins.value) else None
      else None
    }

    /** The last of the first `n` instructions that defines `variable`. */
    function LastDefinition(s: Scope, n: nat, variable: string, considerArg: bool): (r: Option<nat>)
      requires InScope(s) && n <= |InstructionsOf(s)|
      ensures r.Some? ==> r.value < n && DefinedBy(s, r.value, variable, considerArg).Some?
      ensures forall i :: 0 <= i < n && (r.Some? ==> i > r.value) ==> DefinedBy(s, i, variable, considerArg).None?
    {
      if n == 0 then None
      else if DefinedBy(s, n - 1, variable, considerArg).Some? then Some(n - 1)
      else LastDefinition(s, n - 1, variable, considerArg)
    }

    /** The scope a lookup goes on to after a stage. */
    function Outer(s: nat, baseEnv: Environment): (r: Scope)
      requires s < |stages|
      ensures InScope(r)
    {
      if Parent(s, baseEnv).None? then Preamble else InStage(Parent(s, baseEnv).value)
    }

    ghost function StageScopes(n: nat): (r: set<Scope>)
      ensures forall s :: s in r <==> s.InStage? && s.stage < n
    {
      if n == 0 then {} else StageScopes(n - 1) + {InStage(n - 1)}
    }

    ghost function Scopes(): (r: set<Scope>)
      ensures forall s :: s in r <==> InScope(s)
    {
      StageScopes(|stages|) + {Preamble}
    }

    /** Where a lookup that has `seen` some scopes and comes to `s` finds its variable. */
    ghost function Locate(
      variable: string, s: Scope, end: nat, considerArg: bool, seen: set<Scope>, baseEnv: Environment): (place: Place)
      requires InScope(s) && end <= |InstructionsOf(s)|
      ensures place.Defined? ==> InScope(place.scope) && place.at < |InstructionsOf(place.scope)|
      ensures place.Defined? && s.Preamble? ==> place.scope.Preamble?
      decreases Scopes() - seen
    {
      if s in seen then Nothing
      else
        var i := LastDefinition(s, end, variable, considerArg);
        if i.Some? then Defined(s, i.value, DefinedBy(s, i.value, variable, considerArg).value)
        else if s.Preamble? then Given
        else
          var next := Outer(s.stage, baseEnv);
          assert s in Scopes() - seen;
          Locate(variable, next, |InstructionsOf(next)|, next.Preamble?, seen + {s}, baseEnv)
    }

    /** Where a lookup right before instruction `before` of `s` finds its variable. */
    ghost function Find(variable: string, s: Scope, before: nat, baseEnv: Environment): (place: Place)
      requires InScope(s)
      ensures place.Defined? ==> InScope(place.scope) && place.at < |InstructionsOf(place.scope)|
      ensures place.Defined? && s.Preamble? ==> place.scope.Preamble?
    {
      Locate(variable, s, Min(before, |InstructionsOf(s)|), true, {}, baseEnv)
    }

    /** The answer of a lookup, if it needs no more than `fuel` lookups inside each other. */
    ghost function Answer(fuel: nat, variable: string, s: Scope, before: nat, baseEnv: Environment): Option<string>
      requires InScope(s)
      decreases fuel, 0
    {
      match Find(variable, s, before, baseEnv)
      case Given => Some(Lookup(Outside(baseEnv), variable))
      case Nothing => Some("")
      case Defined(t, i, text) => if fuel == 0 then None else Filled(fuel - 1, text, t, i, baseEnv)
    }

    /** The text with its references filled in, seen from right before instruction `before` of `s`. */
    ghost function Filled(fuel: nat, text: Template, s: Scope, before: nat, baseEnv: Environment): Option<string>
      requires InScope(s)
      decreases fuel, |text| + 1
    {
      if text == [] then Some("")
      else
        var n := |text| - 1;
        var init := Filled(fuel, text[..n], s, before, baseEnv);
        var last :=
          match text[n]
          case Text(t) => Some(t)
          case Var(name, alt) =>
            var value := Answer(fuel, name, s, before, baseEnv);
            if value.None? then None else Some(Alternate(value.value, alt));
        if init.None? || last.None? then None else Some(init.value + last.value)
    }

    // On stages that settle the lazy lookup is the forward evaluation.

    /** The bindings a lookup sees in a scope: all of them, or only what is exported. */
    ghost function Visible(s: Scope, considerArg: bool, n: nat, baseEnv: Environment): Environment
      requires InScope(s) && Settles(s, baseEnv) && n <= |InstructionsOf(s)|
    {
      if considerArg then Run(InstructionsOf(s), n, Start(s, baseEnv))
      else Exports(InstructionsOf(s), n, Start(s, baseEnv))
    }

    /** What a stage starts with is what the next scope of the lookup shows. */
    lemma StepOut(s: nat, baseEnv: Environment)
      requires s < |stages| && Settled(s, baseEnv)
      ensures var next := Outer(s, baseEnv);
              if next == InStage(s) then Start(InStage(s), baseEnv) == map[]
              else
                Settles(next, baseEnv) && Level(next, baseEnv) < Level(InStage(s), baseEnv) &&
                Start(InStage(s), baseEnv) == Visible(next, next.Preamble?, |InstructionsOf(next)|, baseEnv)
    {
      hide Parent, Run, Exports;
      if !Rests(s, baseEnv) { HeightFalls(s, baseEnv); }
    }

    /** An instruction that does not define `variable` does not change its value. */
    lemma StepBack(s: Scope, considerArg: bool, i: nat, baseEnv: Environment, variable: string)
      requires InScope(s) && Settles(s, baseEnv) && i < |InstructionsOf(s)|
      ensures Lookup(Visible(s, considerArg, i + 1, baseEnv), variable) ==
              match DefinedBy(s, i, variable, considerArg)
              case Some(text) => Expand(text, EnvAt(s, i, baseEnv))
              case None => Lookup(Visible(s, considerArg, i, baseEnv), variable)
    {
      hide Expand, Parent, Start;
    }

    lemma {:induction false} ScanForward(s: Scope, considerArg: bool, n: nat, baseEnv: Environment, variable: string)
      requires InScope(s) && Settles(s, baseEnv) && n <= |InstructionsOf(s)|
      ensures Lookup(Visible(s, considerArg, n, baseEnv), variable) ==
              match LastDefinition(s, n, variable, considerArg)
              case Some(i) => Expand(DefinedBy(s, i, variable, considerArg).value, EnvAt(s, i, baseEnv))
              case None => Lookup(Start(s, baseEnv), variable)
    {
      hide Expand, Parent, Start, DefinedBy, EnvAt;
      if n > 0 {
        StepBack(s, considerArg, n - 1, baseEnv, variable);
        ScanForward(s, considerArg, n - 1, baseEnv, variable);
      }
    }

    /** How many lookups can be inside each other before the scope `s` is left behind. */
    ghost function Under(s: Scope, baseEnv: Environment): nat
      requires InScope(s) && Settles(s, baseEnv)
      decreases Level(s, baseEnv)
    {
      if s.Preamble? || Outer(s.stage, baseEnv) == s then 0
      else
        StepOut(s.stage, baseEnv);
        var next := Outer(s.stage, baseEnv);
        |InstructionsOf(next)| + Under(next, baseEnv)
    }

    lemma {:induction false} LocateForward(
      variable: string, s: Scope, end: nat, considerArg: bool, seen: set<Scope>, baseEnv: Environment)
      requires InScope(s) && Settles(s, baseEnv) && end <= |InstructionsOf(s)| && (s.Preamble? ==> considerArg)
      requires forall x :: x in seen ==> InScope(x) && Settles(x, baseEnv) && Level(x, baseEnv) > Level(s, baseEnv)
      ensures var value := Lookup(Visible(s, considerArg, end, baseEnv), variable);
              match Locate(variable, s, end, considerArg, seen, baseEnv)
              case Given => value == Lookup(Outside(baseEnv), variable)
              case Nothing => value == ""
              case Defined(t, i, text) =>
                Settles(t, baseEnv) && value == Expand(text, EnvAt(t, i, baseEnv)) &&
                i + Under(t, baseEnv) < end + Under(s, baseEnv)
      decreases Level(s, baseEnv)
    {
      hide Expand, Parent, DefinedBy, EnvAt, Visible, Height, Lookup, Locate, LastDefinition;
      LocateStep(variable, s, end, considerArg, seen, baseEnv);
      ScanForward(s, considerArg, end, baseEnv, variable);
      if LastDefinition(s, end, variable, considerArg).None? && s.InStage? {
        StepOut(s.stage, baseEnv);
        var next := Outer(s.stage, baseEnv);
        if next == s {
          EmptyLookup(variable);
          LocateStep(variable, s, |InstructionsOf(s)|, false, seen + {s}, baseEnv);
        } else {
          LocateForward(variable, next, |InstructionsOf(next)|, next.Preamble?, seen + {s}, baseEnv);
        }
      }
    }

    lemma EmptyLookup(variable: string)
      ensures Lookup(map[], variable) == ""
    {
    }

    /** A lookup in a scope that settles answers what the forward evaluation binds. */
    lemma {:induction false} AnswerForward(fuel: nat, variable: string, s: Scope, before: nat, baseEnv: Environment)
      requires InScope(s) && Settles(s, baseEnv) && fuel >= Min(before, |InstructionsOf(s)|) + Under(s, baseEnv)
      ensures Answer(fuel, variable, s, before, baseEnv) == Some(Lookup(EnvAt(s, before, baseEnv), variable))
      decreases fuel, 0
    {
      hide Expand, Locate, Lookup, Parent, Settles, Under;
      LocateForward(variable, s, Min(before, |InstructionsOf(s)|), true, {}, baseEnv);
      var place := Find(variable, s, before, baseEnv);
      if place.Defined? {
        FilledForward(fuel - 1, place.text, place.scope, place.at, baseEnv);
      }
    }

    lemma {:induction false} FilledForward(fuel: nat, text: Template, s: Scope, before: nat, baseEnv: Environment)
      requires InScope(s) && Settles(s, baseEnv) && fuel >= Min(before, |InstructionsOf(s)|) + Under(s, baseEnv)
      ensures Filled(fuel, text, s, before, baseEnv) == Some(Expand(text, EnvAt(s, before, baseEnv)))
      decreases fuel, |text| + 1
    {
      hide Answer, Lookup, EnvAt, Settles, Under, Alternate;
      if text != [] {
        var n := |text| - 1;
        FilledForward(fuel, text[..n], s, before, baseEnv);
        if text[n].Var? { AnswerForward(fuel, text[n].name, s, before, baseEnv); }
      }
    }

    // The program.

    /** Replaces the references of `t`, seen from right before instruction `before` of `s`. */
    method Replace(baseEnv: Environment, t: Template, s: Scope, before: nat, ghost fuel: nat) returns (out: string)
      requires InScope(s) && Filled(fuel, t, s, before, baseEnv).Some?
      ensures Filled(fuel, t, s, before, baseEnv) == Some(out)
      ensures Settles(s, baseEnv) ==> out == Expand(t, EnvAt(s, before, baseEnv))
      decreases if s.InStage? then 1 else 0, fuel, 1
    {
      hide Answer, Settles, Expand, EnvAt, Alternate;
      out := "";
      FilledStart(fuel, t, s, before, baseEnv);
      for i := 0 to |t|
        invariant Filled(fuel, t[..i], s, before, baseEnv) == Some(out)
      {
        FilledStep(fuel, t, i, s, before, baseEnv);
        if t[i].Text? {
          out := out + t[i].text;
        } else {
          var value := FindValue(baseEnv, t[i].name, s, before, fuel);
          out := out + Alternate(value, t[i].alt);
        }
      }
      assert t[..|t|] == t;
      if Settles(s, baseEnv) { FilledSettled(fuel, t, s, before, baseEnv); }
    }

    lemma FilledStart(fuel: nat, t: Template, s: Scope, before: nat, baseEnv: Environment)
      requires InScope(s)
      ensures Filled(fuel, t[..0], s, before, baseEnv) == Some("")
    {
    }

    lemma {:induction false} FilledPrefix(fuel: nat, t: Template, i: nat, s: Scope, before: nat, baseEnv: Environment)
      requires InScope(s) && i <= |t| && Filled(fuel, t, s, before, baseEnv).Some?
      ensures Filled(fuel, t[..i], s, before, baseEnv).Some?
      decreases |t|
    {
      hide Answer;
      if i < |t| {
        var init := t[..|t| - 1];
        FilledPrefix(fuel, init, i, s, before, baseEnv);
        assert init[..i] == t[..i];
      } else {
        assert t[..i] == t;
      }
    }

    lemma FilledStep(fuel: nat, t: Template, i: nat, s: Scope, before: nat, baseEnv: Environment)
      requires InScope(s) && i < |t| && Filled(fuel, t, s, before, baseEnv).Some?
      ensures var init, whole := Filled(fuel, t[..i], s, before, baseEnv), Filled(fuel, t[..i + 1], s, before, baseEnv);
              init.Some? && whole.Some? &&
              if t[i].Text? then whole.value == init.value + t[i].text
              else
                var value := Answer(fuel, t[i].name, s, before, baseEnv);
                value.Some? && whole.value == init.value + Alternate(value.value, t[i].alt)
    {
      hide Answer, Alternate;
      FilledPrefix(fuel, t, i, s, before, baseEnv);
      FilledPrefix(fuel, t, i + 1, s, before, baseEnv);
      assert t[..i + 1][..i] == t[..i];
    }

    /** More fuel changes no answer. */
    lemma {:induction false} AnswerKept(fuel: nat, more: nat, variable: string, s: Scope, before: nat, baseEnv: Environment)
      requires InScope(s) && Answer(fuel, variable, s, before, baseEnv).Some? && fuel <= more
      ensures Answer(more, variable, s, before, baseEnv) == Answer(fuel, variable, s, before, baseEnv)
      decreases fuel, 0
    {
      hide Find, Lookup;
      var place := Find(variable, s, before, baseEnv);
      if place.Defined? { FilledKept(fuel - 1, more - 1, place.text, place.scope, place.at, baseEnv); }
    }

    lemma {:induction false} FilledKept(fuel: nat, more: nat, text: Template, s: Scope, before: nat, baseEnv: Environment)
      requires InScope(s) && Filled(fuel, text, s, before, baseEnv).Some? && fuel <= more
      ensures Filled(more, text, s, before, baseEnv) == Filled(fuel, text, s, before, baseEnv)
      decreases fuel, |text| + 1
    {
      hide Answer, Alternate;
      if text != [] {
        var n := |text| - 1;
        FilledKept(fuel, more, text[..n], s, before, baseEnv);
        if text[n].Var? { AnswerKept(fuel, more, text[n].name, s, before, baseEnv); }
      }
    }

    lemma FilledSettled(fuel: nat, text: Template, s: Scope, before: nat, baseEnv: Environment)
      requires InScope(s) && Settles(s, baseEnv) && Filled(fuel, text, s, before, baseEnv).Some?
      ensures Filled(fuel, text, s, before, baseEnv) == Some(Expand(text, EnvAt(s, before, baseEnv)))
    {
      hide Filled, Expand, EnvAt, Settles;
      var enough := fuel + Min(before, |InstructionsOf(s)|) + Under(s, baseEnv);
      FilledForward(enough, text, s, before, baseEnv);
      FilledKept(fuel, enough, text, s, before, baseEnv);
    }

    lemma AnswerSettled(fuel: nat, variable: string, s: Scope, before: nat, baseEnv: Environment)
      requires InScope(s) && Settles(s, baseEnv) && Answer(fuel, variable, s, before, baseEnv).Some?
      ensures Answer(fuel, variable, s, before, baseEnv) == Some(Lookup(EnvAt(s, before, baseEnv), variable))
    {
      hide Answer, Lookup, EnvAt, Settles;
      var enough := fuel + Min(before, |InstructionsOf(s)|) + Under(s, baseEnv);
      AnswerForward(enough, variable, s, before, baseEnv);
      AnswerKept(fuel, enough, variable, s, before, baseEnv);
    }

    /** The image of a stage, whatever the stages are. */
    method FromImage(s: nat, baseEnv: Environment) returns (image: string)
      requires s < |stages|
      ensures image == Image(s, baseEnv)
      decreases 0, |preamble| + 1, 2
    {
      hide Filled, Expand, Run;
      FilledForward(|preamble|, stages[s].image, Preamble, |preamble|, baseEnv);
      image := Replace(baseEnv, stages[s].image, Preamble, |preamble|, |preamble|);
    }

    /** The value of `variable` right before instruction `before` of `scope`, of every lookup that comes to an end. */
    method FindValue(baseEnv: Environment, variable: string, scope: Scope, before: nat, ghost fuel: nat)
      returns (value: string)
      requires InScope(scope) && Answer(fuel, variable, scope, before, baseEnv).Some?
      ensures Answer(fuel, variable, scope, before, baseEnv) == Some(value)
      ensures Settles(scope, baseEnv) ==> value == Lookup(EnvAt(scope, before, baseEnv), variable)
      decreases if scope.InStage? then 1 else 0, fuel, 0
    {
      hide Run, Exports, Defines, Inherited, Outside, ByLabel, Image, PreambleEnv, Labelled, Lookup, Expand, Filled, Settles,
        EnvAt, Locate, LastDefinition, DefinedBy, Answer, Outer;
      AnswerStep(fuel, variable, scope, before, baseEnv);
      if Settles(scope, baseEnv) { AnswerSettled(fuel, variable, scope, before, baseEnv); }
      var s, end: nat := scope, Min(before, |InstructionsOf(scope)|);
      var considerArg := true;
      var seen: set<Scope> := {};
      ghost var place := Find(variable, scope, before, baseEnv);
      while true
        invariant InScope(s) && end <= |InstructionsOf(s)| && (scope.Preamble? ==> s.Preamble?)
        invariant place == Locate(variable, s, end, considerArg, seen, baseEnv)
        decreases Scopes() - seen
      {
        LocateStep(variable, s, end, considerArg, seen, baseEnv);
        if s in seen { return ""; }
        assert s in Scopes() - seen;
        seen := seen + {s};
        var i: nat := end;
        while i > 0
          invariant i <= end
          invariant LastDefinition(s, i, variable, considerArg) == LastDefinition(s, end, variable, considerArg)
        {
          i := i - 1;
          DefinitionStep(s, i, variable, considerArg);
          DefinedStep(s, i, variable, considerArg);
          var ins := InstructionsOf(s)[i];
          if ins.Env? && ins.name == variable {
            value := Replace(baseEnv, ins.value, s, i, fuel - 1);
            return;
          }
          if ins.Arg? && ins.name == variable && considerArg {
            if ins.name in buildArgs {
              value := Replace(baseEnv, buildArgs[ins.name], s, i, fuel - 1);
              return;
            }
            if ins.value != [] {
              value := Replace(baseEnv, ins.value, s, i, fuel - 1);
              return;
            }
          }
        }
        NoDefinition(s, variable, considerArg);
        if s.Preamble? {
          OutsideLookup(baseEnv, variable);
          if variable in baseEnv { return baseEnv[variable]; }
          return Lookup(platform, variable);
        }
        var image := FromImage(s.stage, baseEnv);
        var next := ByLabel(image);
        OuterStep(s.stage, baseEnv);
        s := if next.None? then Preamble else InStage(next.value);
        end := |InstructionsOf(s)|;
        considerArg := s == Preamble;
      }
    }

    lemma AnswerStep(fuel: nat, variable: string, s: Scope, before: nat, baseEnv: Environment)
      requires InScope(s)
      ensures Answer(fuel, variable, s, before, baseEnv) ==
              match Find(variable, s, before, baseEnv)
              case Given => Some(Lookup(Outside(baseEnv), variable))
              case Nothing => Some("")
              case Defined(t, i, text) => if fuel == 0 then None else Filled(fuel - 1, text, t, i, baseEnv)
    {
      hide Find, Filled;
    }

    lemma DefinedStep(s: Scope, i: nat, variable: string, considerArg: bool)
      requires InScope(s) && i < |InstructionsOf(s)|
      ensures var ins := InstructionsOf(s)[i];
              DefinedBy(s, i, variable, considerArg) ==
              if ins.Env? && ins.name == variable then Some(ins.value)
              else if !(ins.Arg? && ins.name == variable && considerArg) then None
              else if ins.name in buildArgs then Some(buildArgs[ins.name])
              else if ins.value != [] then Some(ins.value) else None
    {
    }

    lemma OuterStep(s: nat, baseEnv: Environment)
      requires s < |stages|
      ensures var next := ByLabel(Image(s, baseEnv));
              Outer(s, baseEnv) == if next.None? then Preamble else InStage(next.value)
    {
    }

    lemma LocateStep(variable: string, s: Scope, end: nat, considerArg: bool, seen: set<Scope>, baseEnv: Environment)
      requires InScope(s) && end <= |InstructionsOf(s)|
      ensures Locate(variable, s, end, considerArg, seen, baseEnv) ==
              if s in seen then Nothing
              else
                var i := LastDefinition(s, end, variable, considerArg);
                if i.Some? then Defined(s, i.value, DefinedBy(s, i.value, variable, considerArg).value)
                else if s.Preamble? then Given
                else
                  var next := Outer(s.stage, baseEnv);
                  Locate(variable, next, |InstructionsOf(next)|, next.Preamble?, seen + {s}, baseEnv)
    {
      hide LastDefinition, DefinedBy, Outer;
    }

    lemma DefinitionStep(s: Scope, i: nat, variable: string, considerArg: bool)
      requires InScope(s) && i < |InstructionsOf(s)|
      ensures LastDefinition(s, i + 1, variable, considerArg) ==
              if DefinedBy(s, i, variable, considerArg).Some? then Some(i) else LastDefinition(s, i, variable, considerArg)
    {
      hide DefinedBy;
    }

    lemma NoDefinition(s: Scope, variable: string, considerArg: bool)
      requires InScope(s)
      ensures LastDefinition(s, 0, variable, considerArg).None?
    {
    }

    lemma OutsideLookup(baseEnv: Environment, name: string)
      ensures Lookup(Outside(baseEnv), name) == if name in baseEnv then baseEnv[name] else Lookup(platform, name)
    {
    }

    // FROM chains.

    /** The `n`-th stage of the FROM chain that starts at `s`. */
    function Chain(s: nat, n: nat, baseEnv: Environment): (t: Option<nat>)
      requires s < |stages|
      ensures t.Some? ==> t.value < |stages|
    {
      if n == 0 then Some(s)
      else if Chain(s, n - 1, baseEnv).None? then None
      else Parent(Chain(s, n - 1, baseEnv).value, baseEnv)
    }

    /** The chain from `s` ends after `n` steps, at a stage whose image is no stage. */
    predicate EndsAt(s: nat, n: nat, baseEnv: Environment)
      requires s < |stages|
    {
      Chain(s, n, baseEnv).Some? && Parent(Chain(s, n, baseEnv).value, baseEnv).None?
    }

    ghost predicate Ends(s: nat, baseEnv: Environment)
      requires s < |stages|
    {
      exists n :: EndsAt(s, n, baseEnv)
    }

    /** Once a stage comes back, the chain goes round for ever. */
    lemma {:induction false} RepeatNeverEnds(s: nat, i: nat, j: nat, n: nat, baseEnv: Environment)
      requires s < |stages| && i < j && Chain(s, j, baseEnv).Some? && Chain(s, i, baseEnv) == Chain(s, j, baseEnv)
      ensures Chain(s, n, baseEnv).Some?
      ensures n >= j ==> Chain(s, n, baseEnv) == Chain(s, n - (j - i), baseEnv)
    {
      hide Parent;
      if n > 0 {
        RepeatNeverEnds(s, i, j, n - 1, baseEnv);
        if n < j {
          ChainSome(s, n, j, baseEnv);
        } else if n > j {
          RepeatNeverEnds(s, i, j, n - (j - i), baseEnv);
        }
      } else if n < j {
        ChainSome(s, n, j, baseEnv);
      }
    }

    lemma {:induction false} ChainSome(s: nat, n: nat, m: nat, baseEnv: Environment)
      requires s < |stages| && n <= m && Chain(s, m, baseEnv).Some?
      ensures Chain(s, n, baseEnv).Some?
      decreases m
    {
      hide Parent;
      if n < m {
        ChainSome(s, n, m - 1, baseEnv);
      }
    }

    /** How many steps the chain from `s` takes. */
    ghost function Length(s: nat, baseEnv: Environment): (n: nat)
      requires s < |stages| && Ends(s, baseEnv)
      ensures EndsAt(s, n, baseEnv)
    {
      var n :| EndsAt(s, n, baseEnv);
      n
    }

    lemma EndIsUnique(s: nat, m: nat, n: nat, baseEnv: Environment)
      requires s < |stages| && EndsAt(s, m, baseEnv) && EndsAt(s, n, baseEnv)
      ensures m == n
    {
      hide Parent;
      if m < n {
        assert Chain(s, m + 1, baseEnv).None?;
        ChainSome(s, m + 1, n, baseEnv);
      } else if n < m {
        assert Chain(s, n + 1, baseEnv).None?;
        ChainSome(s, n + 1, m, baseEnv);
      }
    }

    /** The stage to start from: the target, or the last one. */
    function StartStage(target: string): (s: Option<nat>)
      ensures s.Some? ==> s.value < |stages|
    {
      if target != "" then ByLabel(target)
      else if |stages| == 0 then None
      else Some(|stages| - 1)
    }

    /**
     The first image of the target's FROM chain that is no stage, and "" when
     there is no such target or the chain goes round.
     */
    ghost function BaseImage(target: string): string {
      if StartStage(target).None? then ""
      else
        var s := StartStage(target).value;
        if Ends(s, map[]) then Image(Chain(s, Length(s, map[]), map[]).value, map[]) else ""
    }

    method FindBaseImage(target: string) returns (image: string)
      ensures image == BaseImage(target)
    {
      hide Image, Labelled, Chain, ByLabel, PreambleEnv, Expand, Length;
      var start := StartStage(target);
      if start.None? { return ""; }
      var s: nat := start.value;
      var seen: set<nat> := {};
      ghost var path: seq<nat> := [];
      ChainStep(s, 0, map[]);
      while true
        invariant s < |stages| && Chain(start.value, |path|, map[]) == Some(s)
        invariant forall i :: 0 <= i < |path| ==> Chain(start.value, i, map[]) == Some(path[i])
        invariant forall x :: x in seen <==> x in path
        invariant seen <= Below(|stages|)
        decreases Below(|stages|) - seen
      {
        ChainStep(start.value, |path|, map[]);
        if s in seen {
          RoundNeverEnds(start.value, path, s);
          return "";
        }
        assert Below(|stages|) - (seen + {s}) < Below(|stages|) - seen;
        seen := seen + {s};
        image := FromImage(s, map[]);
        var next := ByLabel(image);
        if next.None? {
          assert EndsAt(start.value, |path|, map[]);
          EndIsUnique(start.value, |path|, Length(start.value, map[]), map[]);
          return;
        }
        path := path + [s];
        s := next.value;
      }
    }

    lemma ChainStep(s: nat, n: nat, baseEnv: Environment)
      requires s < |stages|
      ensures Chain(s, 0, baseEnv) == Some(s)
      ensures Chain(s, n, baseEnv).Some? ==> Chain(s, n + 1, baseEnv) == Parent(Chain(s, n, baseEnv).value, baseEnv)
    {
    }

    lemma RoundNeverEnds(s: nat, path: seq<nat>, again: nat)
      requires s < |stages| && again in path && Chain(s, |path|, map[]) == Some(again)
      requires forall i :: 0 <= i < |path| ==> Chain(s, i, map[]) == Some(path[i])
      ensures !Ends(s, map[])
    {
      hide Chain, Parent;
      var i :| 0 <= i < |path| && path[i] == again;
      forall n: nat
        ensures !EndsAt(s, n, map[])
      {
        RepeatNeverEnds(s, i, |path|, n + 1, map[]);
        ChainStep(s, n, map[]);
      }
    }

    ghost function Below(n: nat): (r: set<nat>)
      ensures forall i: nat :: i in r <==> i < n
    {
      if n == 0 then {} else Below(n - 1) + {n - 1}
    }

    /** The index of the last USER among the first `n` instructions. */
    function LastUser(instructions: seq<Instruction>, n: nat): (i: Option<nat>)
      requires n <= |instructions|
      ensures i.Some? ==> i.value < n && instructions[i.value].User?
      ensures forall j :: 0 <= j < n && (i.Some? ==> j > i.value) ==> !instructions[j].User?
    {
      if n == 0 then None
      else if instructions[n - 1].User? then Some(n - 1)
      else LastUser(instructions, n - 1)
    }

    /** The stage and index of the USER that applies to `s`, when the stages `seen` have none. */
    ghost function UserPlace(s: nat, seen: set<nat>, baseEnv: Environment): (r: Option<(nat, nat)>)
      requires s < |stages|
      ensures r.Some? ==> r.value.0 < |stages| && LastUser(stages[r.value.0].instructions, |stages[r.value.0].instructions|) ==
                                                Some(r.value.1)
      decreases Below(|stages|) - seen
    {
      if s in seen then None
      else
        var i := LastUser(stages[s].instructions, |stages[s].instructions|);
        if i.Some? then Some((s, i.value))
        else if Parent(s, baseEnv).None? then None
        else
          assert s in Below(|stages|) - seen;
          UserPlace(Parent(s, baseEnv).value, seen + {s}, baseEnv)
    }

    /** The backward scan of `FindUserStatement`. */
    method FindLastUser(instructions: seq<Instruction>) returns (i: Option<nat>)
      ensures i == LastUser(instructions, |instructions|)
    {
      var n := |instructions|;
      while n > 0
        invariant 0 <= n <= |instructions|
        invariant LastUser(instructions, n) == LastUser(instructions, |instructions|)
      {
        n := n - 1;
        if instructions[n].User? { return Some(n); }
      }
      i := None;
    }

    /** The text of the USER at a place. */
    function UserText(place: (nat, nat)): Template
      requires place.0 < |stages| && place.1 < |stages[place.0].instructions| && stages[place.0].instructions[place.1].User?
    {
      stages[place.0].instructions[place.1].user
    }

    /** The USER that applies to the target, where it stands; it must be one whose lookups come to an end. */
    method FindUserStatement(baseEnv: Environment, target: string, ghost fuel: nat) returns (user: string)
      requires StartStage(target).Some? ==>
                 var place := UserPlace(StartStage(target).value, {}, baseEnv);
                 place.Some? ==> Filled(fuel, UserText(place.value), InStage(place.value.0), place.value.1, baseEnv).Some?
      ensures StartStage(target).None? ==> user == ""
      ensures StartStage(target).Some? ==>
                var place := UserPlace(StartStage(target).value, {}, baseEnv);
                if place.None? then user == ""
                else
                  var (s, i) := place.value;
                  Filled(fuel, UserText(place.value), InStage(s), i, baseEnv) == Some(user) &&
                  (Settled(s, baseEnv) ==> user == Expand(UserText(place.value), EnvAt(InStage(s), i, baseEnv)))
    {
      hide Image, PreambleEnv, Labelled, Inherited, Run, Expand, EnvAt, Settled, Filled, UserPlace;
      var start := StartStage(target);
      if start.None? { return ""; }
      var s: nat := start.value;
      var seen: set<nat> := {};
      while true
        invariant s < |stages| && UserPlace(s, seen, baseEnv) == UserPlace(start.value, {}, baseEnv)
        decreases Below(|stages|) - seen
      {
        UserStep(s, seen, baseEnv);
        if s in seen { return ""; }
        assert s in Below(|stages|) - seen;
        seen := seen + {s};
        var i := FindLastUser(stages[s].instructions);
        if i.Some? {
          user := Replace(baseEnv, stages[s].instructions[i.value].user, InStage(s), i.value, fuel);
          return;
        }
        var image := FromImage(s, baseEnv);
        var next := ByLabel(image);
        if next.None? { return ""; }
        s := next.value;
      }
    }

    lemma UserStep(s: nat, seen: set<nat>, baseEnv: Environment)
      requires s < |stages|
      ensures UserPlace(s, seen, baseEnv) ==
              if s in seen then None
              else
                var i := LastUser(stages[s].instructions, |stages[s].instructions|);
                if i.Some? then Some((s, i.value))
                else if Parent(s, baseEnv).None? then None
                else UserPlace(Parent(s, baseEnv).value, seen + {s}, baseEnv)
    {
      hide LastUser, Parent;
    }

    predicate Userless(s: nat)
      requires s < |stages|
    {
      LastUser(stages[s].instructions, |stages[s].instructions|).None?
    }

    /** `place` is the last USER of the first stage of the chain that has one; none, if no stage has. */
    ghost predicate Nearest(start: nat, place: Option<(nat, nat)>, baseEnv: Environment)
      requires start < |stages|
    {
      match place
      case Some((s, i)) => exists n: nat :: FirstWithUser(start, n, s, baseEnv)
      case None => forall n: nat :: Chain(start, n, baseEnv).Some? ==> Userless(Chain(start, n, baseEnv).value)
    }

    ghost predicate FirstWithUser(start: nat, n: nat, s: nat, baseEnv: Environment)
      requires start < |stages|
    {
      Chain(start, n, baseEnv) == Some(s) && !Userless(s) &&
      forall m: nat :: m < n ==> Chain(start, m, baseEnv).Some? && Userless(Chain(start, m, baseEnv).value)
    }

    lemma NearestUser(start: nat, baseEnv: Environment)
      requires start < |stages|
      ensures Nearest(start, UserPlace(start, {}, baseEnv), baseEnv)
    {
      hide LastUser, UserPlace, Nearest, Parent;
      ChainStep(start, 0, baseEnv);
      NearestFrom(start, 0, {}, baseEnv);
    }

    /** The first `n` stages of the chain are those `seen`, and none has a USER. */
    ghost predicate SeenUserless(start: nat, n: nat, seen: set<nat>, baseEnv: Environment)
      requires start < |stages|
    {
      (forall m: nat :: m < n ==> Chain(start, m, baseEnv).Some? && Userless(Chain(start, m, baseEnv).value)) &&
      forall x :: x in seen ==> exists m: nat :: m < n && Chain(start, m, baseEnv) == Some(x)
    }

    lemma {:induction false} NearestFrom(start: nat, n: nat, seen: set<nat>, baseEnv: Environment)
      requires start < |stages| && Chain(start, n, baseEnv).Some? && SeenUserless(start, n, seen, baseEnv)
      ensures Nearest(start, UserPlace(Chain(start, n, baseEnv).value, seen, baseEnv), baseEnv)
      decreases Below(|stages|) - seen
    {
      hide Chain, LastUser, UserPlace, Parent;
      var s := Chain(start, n, baseEnv).value;
      UserStep(s, seen, baseEnv);
      ChainStep(start, n, baseEnv);
      if s in seen {
        var m: nat :| m < n && Chain(start, m, baseEnv) == Some(s);
        forall k: nat | Chain(start, k, baseEnv).Some?
          ensures Userless(Chain(start, k, baseEnv).value)
        {
          RoundUserless(start, m, n, k, baseEnv);
        }
      } else if Userless(s) {
        if Parent(s, baseEnv).None? {
          forall k: nat | Chain(start, k, baseEnv).Some?
            ensures Userless(Chain(start, k, baseEnv).value)
          {
            if k > n { ChainSome(start, n + 1, k, baseEnv); }
          }
        } else {
          assert s in Below(|stages|) - seen;
          NearestFrom(start, n + 1, seen + {s}, baseEnv);
        }
      } else {
        assert FirstWithUser(start, n, s, baseEnv);
      }
    }

    lemma {:induction false} RoundUserless(start: nat, m: nat, n: nat, k: nat, baseEnv: Environment)
      requires start < |stages| && m < n && Chain(start, n, baseEnv).Some?
      requires Chain(start, m, baseEnv) == Chain(start, n, baseEnv) && Chain(start, k, baseEnv).Some?
      requires forall i: nat :: i < n ==> Chain(start, i, baseEnv).Some? && Userless(Chain(start, i, baseEnv).value)
      ensures Userless(Chain(start, k, baseEnv).value)
      decreases k
    {
      hide Chain, LastUser;
      if k >= n {
        RepeatNeverEnds(start, m, n, k, baseEnv);
        RoundUserless(start, m, n, k - (n - m), baseEnv);
      }
    }
  }
}
