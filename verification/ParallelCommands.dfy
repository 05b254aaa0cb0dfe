/**
 One lifecycle entry (internal/lifecycle/hooks.go:177-275): a command, or named
 commands that run in parallel and all come to an end before the entry does.
 */
module ParallelCommands {
  import opened LifecycleHooks
  import opened ShellWords
  import opened Strings
  import opened Wrappers

  /** The shell line of a command. An object inside an object runs its commands one after the other. */
  function CommandText(c: Command): string {
    match c
    case Line(text) => text
    case Argv(args) => QuotedLine(args)
    case Named(_, commands) => Chained(commands)
    case NoCommand => ""
    case Printed(text) => text
  }

  function Chained(commands: seq<Command>): string {
    if commands == [] then ""
    else
      var first, rest := CommandText(commands[0]), Chained(commands[1..]);
      if first == "" then rest else if rest == "" then first else first + " && " + rest
  }

  function JoinAll(texts: seq<string>, between: string): string {
    if texts == [] then "" else if |texts| == 1 then texts[0] else texts[0] + between + JoinAll(texts[1..], between)
  }

  /** The shell lines that are not empty. */
  function ShellLines(commands: seq<Command>): seq<string> {
    if commands == [] then []
    else (if CommandText(commands[0]) == "" then [] else [CommandText(commands[0])]) + ShellLines(commands[1..])
  }

  /** An object inside an object runs its commands one after the other, while they succeed. */
  lemma {:induction false} ChainedText(commands: seq<Command>)
    ensures Chained(commands) == JoinAll(ShellLines(commands), " && ")
    ensures Chained(commands) == "" <==> ShellLines(commands) == []
  {
    hide CommandText;
    if commands != [] {
      ChainedText(commands[1..]);
      var first, rest := CommandText(commands[0]), ShellLines(commands[1..]);
      if first == "" { assert [] + rest == rest; } else { assert ([first] + rest)[1..] == rest; }
    }
  }

  /** A line is run as it stands, a list as a line that splits into its arguments, null not at all. */
  lemma CommandLaws(text: string, args: seq<string>)
    requires forall i :: 0 <= i < |args| ==> IsBytes(args[i])
    ensures CommandText(Line(text)) == text && CommandText(NoCommand) == ""
    ensures (forall i :: 0 <= i < |args| ==> IsAscii(args[i])) ==> WordsFrom(START, CommandText(Argv(args))) == args
  {
    hide WordsFrom;
    SplitUndoesQuote(args);
  }

  /** What the goroutines of an entry do: the command `i` begins, or ends with an error or none. */
  datatype Event = Begin(i: nat) | End(i: nat, error: Option<string>)

  type Trace = seq<Event>

  predicate EndsAt(trace: Trace, k: nat, i: nat) { k < |trace| && trace[k].End? && trace[k].i == i }

  predicate BeginsAt(trace: Trace, k: nat, i: nat) { k < |trace| && trace[k] == Begin(i) }

  /** An interleaving: each command that is not empty begins at most once, and ends at most once, after it began. */
  ghost predicate Legal(texts: seq<string>, trace: Trace) {
    forall k :: 0 <= k < |trace| ==> LegalAt(texts, trace, k)
  }

  ghost predicate LegalAt(texts: seq<string>, trace: Trace, k: nat)
    requires k < |trace|
  {
    var i := trace[k].i;
    i < |texts| && texts[i] != "" &&
    if trace[k].Begin? then forall j :: 0 <= j < k ==> !BeginsAt(trace, j, i)
    else (exists j :: 0 <= j < k && BeginsAt(trace, j, i)) && forall j :: 0 <= j < k ==> !EndsAt(trace, j, i)
  }

  /** Every command that is not empty has come to its end. */
  ghost predicate Complete(texts: seq<string>, trace: Trace) {
    forall i :: 0 <= i < |texts| && texts[i] != "" ==> exists k: nat :: EndsAt(trace, k, i)
  }

  predicate Sorted(names: seq<string>) {
    forall i, j :: 0 <= i < j < |names| ==> CompareStrings(names[i], names[j]) < 0
  }

  /** The command `i` failed, with `error`, and has the least name of those that did. */
  ghost predicate LeastFailure(names: seq<string>, trace: Trace, i: nat, error: string) {
    i < |names| && End(i, Some(error)) in trace &&
    forall k :: 0 <= k < |trace| && trace[k].End? && trace[k].error.Some? && trace[k].i != i ==>
      trace[k].i < |names| && CompareStrings(names[i], names[trace[k].i]) < 0
  }

  /** The entry's result: none if no command failed, otherwise the failure of the least name among those that did. */
  ghost predicate FailureOf(p: Phase, origin: string, names: seq<string>, trace: Trace, r: Option<HookError>) {
    match r
    case None => forall k :: 0 <= k < |trace| && trace[k].End? ==> trace[k].error.None?
    case Some(failure) =>
      exists i: nat :: LeastFailure(names, trace, i, failure.error) &&
                       failure == HookError(p, names[i], origin, failure.error)
  }

  // The loop that starts the commands and the wait group that waits for them.

  /** The entry: the loop's index, the goroutines started, begun and ended, what they did, and whether the wait is over. */
  datatype World = World(next: nat, started: set<nat>, begun: set<nat>, ended: set<nat>, trace: Trace, over: bool)

  const IDLE := World(0, {}, {}, {}, [], false)

  /** A step of the loop, of a goroutine, or the wait's return. */
  datatype Action = Loop | Enter(i: nat) | Leave(i: nat, error: Option<string>) | Return

  predicate Enabled(texts: seq<string>, w: World, a: Action) {
    match a
    case Loop => w.next < |texts|
    case Enter(i) => i in w.started && i !in w.begun
    case Leave(i, _) => i in w.begun && i !in w.ended
    case Return => w.next == |texts| && w.started == w.ended && !w.over
  }

  function Act(texts: seq<string>, w: World, a: Action): World
    requires Enabled(texts, w, a)
  {
    match a
    case Loop => w.(next := w.next + 1, started := if texts[w.next] == "" then w.started else w.started + {w.next})
    case Enter(i) => w.(begun := w.begun + {i}, trace := w.trace + [Begin(i)])
    case Leave(i, error) => w.(ended := w.ended + {i}, trace := w.trace + [End(i, error)])
    case Return => w.(over := true)
  }

  /** The actions, in any order the scheduler may choose, take the entry from `w` to `end`. */
  predicate Runs(texts: seq<string>, w: World, actions: seq<Action>, end: World)
    decreases |actions|
  {
    if actions == [] then w == end
    else Enabled(texts, w, actions[0]) && Runs(texts, Act(texts, w, actions[0]), actions[1..], end)
  }

  ghost predicate Sound(texts: seq<string>, w: World) {
    w.next <= |texts| && Legal(texts, w.trace) && w.begun <= w.started && w.ended <= w.begun &&
    (forall i: nat :: i in w.started <==> i < w.next && texts[i] != "") &&
    (forall i: nat :: i in w.begun <==> exists k: nat :: BeginsAt(w.trace, k, i)) &&
    (forall i: nat :: i in w.ended <==> exists k: nat :: EndsAt(w.trace, k, i)) &&
    (w.over ==> w.next == |texts| && w.started == w.ended)
  }

  lemma TraceGrows(trace: Trace, event: Event)
    ensures forall k: nat, i :: BeginsAt(trace + [event], k, i) <==> BeginsAt(trace, k, i) || (k == |trace| && event == Begin(i))
    ensures forall k: nat, i :: EndsAt(trace + [event], k, i) <==>
                              EndsAt(trace, k, i) || (k == |trace| && event.End? && event.i == i)
  {
  }

  lemma LegalGrows(texts: seq<string>, trace: Trace, event: Event)
    requires Legal(texts, trace) && event.i < |texts| && texts[event.i] != ""
    requires event.Begin? ==> forall k: nat :: !BeginsAt(trace, k, event.i)
    requires event.End? ==>
               (exists k: nat :: BeginsAt(trace, k, event.i)) && forall k: nat :: !EndsAt(trace, k, event.i)
    ensures Legal(texts, trace + [event])
  {
    TraceGrows(trace, event);
    var longer := trace + [event];
    forall k | 0 <= k < |longer|
      ensures LegalAt(texts, longer, k)
    {
      if k < |trace| {
        assert longer[k] == trace[k] && LegalAt(texts, trace, k);
      } else if event.End? {
        var b: nat :| BeginsAt(trace, b, event.i);
        assert BeginsAt(longer, b, event.i);
      }
    }
  }

  lemma SoundKept(texts: seq<string>, w: World, a: Action)
    requires Sound(texts, w) && Enabled(texts, w, a)
    ensures Sound(texts, Act(texts, w, a))
  {
    hide Legal;
    if a.Enter? {
      TraceGrows(w.trace, Begin(a.i));
      LegalGrows(texts, w.trace, Begin(a.i));
      SoundEvent(texts, w, a, Begin(a.i));
    } else if a.Leave? {
      TraceGrows(w.trace, End(a.i, a.error));
      LegalGrows(texts, w.trace, End(a.i, a.error));
      SoundEvent(texts, w, a, End(a.i, a.error));
    }
  }

  lemma SoundEvent(texts: seq<string>, w: World, a: Action, event: Event)
    requires Sound(texts, w) && Enabled(texts, w, a) && (a.Enter? || a.Leave?)
    requires event == if a.Enter? then Begin(a.i) else End(a.i, a.error)
    ensures var w' := Act(texts, w, a);
            (forall i: nat :: i in w'.begun <==> exists k: nat :: BeginsAt(w'.trace, k, i)) &&
            (forall i: nat :: i in w'.ended <==> exists k: nat :: EndsAt(w'.trace, k, i))
  {
    hide Legal;
    TraceGrows(w.trace, event);
    var w' := Act(texts, w, a);
    assert w'.trace == w.trace + [event];
    assert if a.Enter? then BeginsAt(w'.trace, |w.trace|, a.i) else EndsAt(w'.trace, |w.trace|, a.i);
    forall i: nat
      ensures i in w'.begun <==> exists k: nat :: BeginsAt(w'.trace, k, i)
      ensures i in w'.ended <==> exists k: nat :: EndsAt(w'.trace, k, i)
    {
      if k: nat :| BeginsAt(w.trace, k, i) { assert BeginsAt(w'.trace, k, i); }
      if k: nat :| EndsAt(w.trace, k, i) { assert EndsAt(w'.trace, k, i); }
    }
  }

  lemma IdleSound(texts: seq<string>)
    ensures Sound(texts, IDLE)
  {
    assert forall k: nat, i: nat :: !BeginsAt([], k, i) && !EndsAt([], k, i);
  }

  lemma {:induction false} RunSound(texts: seq<string>, w: World, actions: seq<Action>, end: World)
    requires Sound(texts, w) && Runs(texts, w, actions, end)
    ensures Sound(texts, end)
    decreases |actions|
  {
    hide Sound, Enabled, Act;
    if actions != [] {
      SoundKept(texts, w, actions[0]);
      RunSound(texts, Act(texts, w, actions[0]), actions[1..], end);
    }
  }

  /** When the wait is over, what the commands did is a legal interleaving in which every one has come to its end. */
  lemma WaitCompletes(texts: seq<string>, actions: seq<Action>, end: World)
    requires Runs(texts, IDLE, actions, end) && end.over
    ensures Legal(texts, end.trace) && Complete(texts, end.trace)
  {
    hide Runs;
    IdleSound(texts);
    RunSound(texts, IDLE, actions, end);
    forall i | 0 <= i < |texts| && texts[i] != ""
      ensures exists k: nat :: EndsAt(end.trace, k, i)
    {
      assert i in end.ended;
    }
  }

  /** Until the wait is over something can happen: the entry does not get stuck. */
  lemma CanGoOn(texts: seq<string>, actions: seq<Action>, w: World) returns (a: Action)
    requires Runs(texts, IDLE, actions, w) && !w.over
    ensures Enabled(texts, w, a)
  {
    hide Runs, Legal;
    IdleSound(texts);
    RunSound(texts, IDLE, actions, w);
    if w.next < |texts| { return Loop; }
    if i :| i in w.started && i !in w.begun { return Enter(i); }
    if i :| i in w.begun && i !in w.ended { return Leave(i, None); }
    a := Return;
  }

  /** How many steps are left at most. */
  function Left(texts: seq<string>, w: World): int {
    3 * (|texts| - w.next) + 2 * |w.started - w.begun| + |w.begun - w.ended| + if w.over then 0 else 1
  }

  lemma OneMore(s: set<nat>, s': set<nat>, i: nat)
    requires i !in s && s' == s + {i}
    ensures |s'| == |s| + 1
  {
  }

  lemma StepTaken(texts: seq<string>, w: World, a: Action)
    requires Sound(texts, w) && Enabled(texts, w, a)
    ensures Left(texts, Act(texts, w, a)) < Left(texts, w)
  {
    hide Legal;
    if a.Loop? {
      if texts[w.next] != "" { LoopTaken(w.started, w.begun, w.next); }
    } else if a.Enter? {
      EnterTaken(w.started, w.begun, w.ended, a.i);
    } else if a.Leave? {
      OneMore(w.begun - (w.ended + {a.i}), w.begun - w.ended, a.i);
    }
  }

  lemma LoopTaken(started: set<nat>, begun: set<nat>, i: nat)
    requires i !in started && begun <= started
    ensures |(started + {i}) - begun| == |started - begun| + 1
  {
    OneMore(started - begun, (started + {i}) - begun, i);
  }

  lemma EnterTaken(started: set<nat>, begun: set<nat>, ended: set<nat>, i: nat)
    requires i in started && i !in begun && ended <= begun
    ensures |started - (begun + {i})| == |started - begun| - 1
    ensures |(begun + {i}) - ended| == |begun - ended| + 1
  {
    OneMore(started - (begun + {i}), started - begun, i);
    OneMore(begun - ended, (begun + {i}) - ended, i);
  }

  lemma {:induction false} StepsTaken(texts: seq<string>, w: World, actions: seq<Action>, end: World)
    requires Sound(texts, w) && Runs(texts, w, actions, end)
    ensures |actions| + Left(texts, end) <= Left(texts, w)
    decreases |actions|
  {
    hide Sound, Enabled, Act, Left;
    if actions != [] {
      StepTaken(texts, w, actions[0]);
      SoundKept(texts, w, actions[0]);
      StepsTaken(texts, Act(texts, w, actions[0]), actions[1..], end);
    }
  }

  /** No scheduler can put the end off: after no more than three steps for each command and one, the wait is over. */
  lemma RunsEnd(texts: seq<string>, actions: seq<Action>, end: World)
    requires Runs(texts, IDLE, actions, end)
    ensures |actions| <= 3 * |texts| + 1 && (|actions| == 3 * |texts| + 1 ==> end.over)
  {
    hide Runs, Legal;
    IdleSound(texts);
    RunSound(texts, IDLE, actions, end);
    StepsTaken(texts, IDLE, actions, end);
    assert IDLE.started - IDLE.begun == {} && IDLE.begun - IDLE.ended == {};
  }

  // What follows for every interleaving.

  lemma OnlyOnce(texts: seq<string>, trace: Trace, i: nat, j: nat, k: nat)
    requires Legal(texts, trace)
    ensures BeginsAt(trace, j, i) && BeginsAt(trace, k, i) ==> j == k
    ensures EndsAt(trace, j, i) && EndsAt(trace, k, i) ==> j == k
  {
    assert j < |trace| ==> LegalAt(texts, trace, j);
    assert k < |trace| ==> LegalAt(texts, trace, k);
  }

  /** However the scheduler runs them, each command that is not empty has been run, exactly once, when the wait is over. */
  lemma EachRunsOnce(texts: seq<string>, actions: seq<Action>, end: World, i: nat) returns (b: nat, e: nat)
    requires Runs(texts, IDLE, actions, end) && end.over && i < |texts| && texts[i] != ""
    ensures b < e && BeginsAt(end.trace, b, i) && EndsAt(end.trace, e, i)
    ensures forall k: nat :: (BeginsAt(end.trace, k, i) ==> k == b) && (EndsAt(end.trace, k, i) ==> k == e)
  {
    WaitCompletes(texts, actions, end);
    var trace := end.trace;
    e :| EndsAt(trace, e, i);
    assert LegalAt(texts, trace, e);
    b :| 0 <= b < e && BeginsAt(trace, b, i);
    forall k: nat
      ensures (BeginsAt(trace, k, i) ==> k == b) && (EndsAt(trace, k, i) ==> k == e)
    {
      OnlyOnce(texts, trace, i, b, k);
      OnlyOnce(texts, trace, i, e, k);
    }
  }

  lemma LeastUnique(names: seq<string>, texts: seq<string>, t1: Trace, t2: Trace, i: nat, e1: string, j: nat, e2: string)
    requires Legal(texts, t1) && LeastFailure(names, t1, i, e1) && LeastFailure(names, t2, j, e2)
    requires forall event: Event :: event.End? ==> (event in t1 <==> event in t2)
    ensures i == j && e1 == e2
  {
    hide Legal, CompareStrings;
    assert End(j, Some(e2)) in t1 && End(i, Some(e1)) in t2;
    var a: nat :| a < |t1| && t1[a] == End(i, Some(e1));
    var b: nat :| b < |t1| && t1[b] == End(j, Some(e2));
    var c: nat :| c < |t2| && t2[c] == End(i, Some(e1));
    CompareAsymmetric(names[i], names[j]);
    OnlyOnce(texts, t1, i, a, b);
  }

  /** The result depends on how the commands end, not on how they interleave. */
  lemma ScheduleIrrelevant(
    p: Phase, origin: string, names: seq<string>, texts: seq<string>, t1: Trace, t2: Trace,
    r1: Option<HookError>, r2: Option<HookError>)
    requires Legal(texts, t1) && FailureOf(p, origin, names, t1, r1) && FailureOf(p, origin, names, t2, r2)
    requires forall event: Event :: event.End? ==> (event in t1 <==> event in t2)
    ensures r1 == r2
  {
    hide Legal, CompareStrings;
    FailureMeans(p, origin, names, t1, r1);
    FailureMeans(p, origin, names, t2, r2);
    if r1.Some? && r2.Some? {
      var i: nat :| LeastFailure(names, t1, i, r1.value.error) && r1.value == HookError(p, names[i], origin, r1.value.error);
      var j: nat :| LeastFailure(names, t2, j, r2.value.error) && r2.value == HookError(p, names[j], origin, r2.value.error);
      LeastUnique(names, texts, t1, t2, i, r1.value.error, j, r2.value.error);
    }
  }

  /** There is a failure exactly when some command ended with an error. */
  lemma FailureMeans(p: Phase, origin: string, names: seq<string>, trace: Trace, r: Option<HookError>)
    requires FailureOf(p, origin, names, trace, r)
    ensures r.Some? <==> exists event: Event :: event.End? && event.error.Some? && event in trace
  {
    hide CompareStrings;
    if r.Some? {
      var i: nat :| LeastFailure(names, trace, i, r.value.error);
      assert End(i, Some(r.value.error)) in trace;
    }
  }

  lemma {:induction false} CompareAsymmetric(a: string, b: string)
    ensures CompareStrings(a, b) < 0 ==> CompareStrings(b, a) > 0
  {
    if a != "" && b != "" { CompareAsymmetric(a[1..], b[1..]); }
  }

  /** What the goroutines leave in `errs`: each writes its own place, when its command ends. */
  method CollectErrors(texts: seq<string>, trace: Trace) returns (errs: seq<Option<string>>)
    requires Legal(texts, trace)
    ensures |errs| == |texts|
    ensures forall k :: 0 <= k < |trace| && trace[k].End? ==> trace[k].i < |errs| && errs[trace[k].i] == trace[k].error
    ensures forall i :: 0 <= i < |errs| && errs[i].Some? ==> End(i, errs[i]) in trace
  {
    errs := seq(|texts|, i => None);
    var n := 0;
    while n < |trace|
      invariant n <= |trace| && |errs| == |texts|
      invariant forall k :: 0 <= k < n && trace[k].End? ==> trace[k].i < |errs| && errs[trace[k].i] == trace[k].error
      invariant forall i :: 0 <= i < |errs| && errs[i].Some? ==> End(i, errs[i]) in trace
    {
      assert LegalAt(texts, trace, n);
      if trace[n].End? {
        assert forall k :: 0 <= k < n && trace[k].End? ==> !EndsAt(trace, k, trace[n].i);
        errs := errs[trace[n].i := trace[n].error];
        assert trace[n] in trace;
      }
      n := n + 1;
    }
  }

  /** The named commands' result; their names are the keys of an object, sorted, and `actions` is what the scheduler did. */
  method ExecuteParallel(
    p: Phase, origin: string, names: seq<string>, texts: seq<string>, ghost actions: seq<Action>, end: World)
    returns (r: Option<HookError>)
    requires |names| == |texts| && Sorted(names) && Runs(texts, IDLE, actions, end) && end.over
    ensures FailureOf(p, origin, names, end.trace, r)
  {
    hide Legal, Complete, CompareStrings, Runs;
    WaitCompletes(texts, actions, end);
    var errs := CollectErrors(texts, end.trace);
    var i := 0;
    while i < |errs|
      invariant i <= |errs| && forall j :: 0 <= j < i ==> errs[j].None?
    {
      if errs[i].Some? {
        assert LeastFailure(names, end.trace, i, errs[i].value);
        return Some(HookError(p, names[i], origin, errs[i].value));
      }
      i := i + 1;
    }
    r := None;
  }

  function Texts(commands: seq<Command>): (r: seq<string>)
    ensures |r| == |commands| && forall i :: 0 <= i < |r| ==> r[i] == CommandText(commands[i])
  {
    seq(|commands|, i requires 0 <= i < |commands| => CommandText(commands[i]))
  }

  /** executeCommand: `exec` answers a single command, `actions` is what the scheduler does with parallel ones. */
  method ExecuteCommand(
    p: Phase, c: Command, origin: string, exec: string -> Option<string>, ghost actions: seq<Action>, end: World)
    returns (r: Option<HookError>)
    requires c.Named? ==> |c.names| == |c.commands| && Sorted(c.names)
    requires c.Named? ==> Runs(Texts(c.commands), IDLE, actions, end) && end.over
    ensures c.Named? ==> FailureOf(p, origin, c.names, end.trace, r)
    ensures !c.Named? ==> var line := CommandText(c);
                          r == if line == "" || exec(line).None? then None
                               else Some(HookError(p, "", origin, exec(line).value))
  {
    if c.Named? {
      r := ExecuteParallel(p, origin, c.names, Texts(c.commands), actions, end);
      return;
    }
    var line := CommandText(c);
    if line == "" { return None; }
    var error := exec(line);
    r := if error.Some? then Some(HookError(p, "", origin, error.value)) else None;
  }
}
