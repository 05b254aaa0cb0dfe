/**
 Running the lifecycle commands (internal/lifecycle/hooks.go:95-289): the
 phases in order, each command of a phase in order, the named commands of one
 entry in parallel.
 */
module LifecycleHooks {
  import opened Wrappers

  datatype Phase =
    | Initialize | OnCreate | UpdateContent | PostCreate | PostStart | PostAttach | UnknownPhase(name: string)

  /** A command: a shell line, a list of arguments, named commands (by name), null, or another JSON value as printed. */
  datatype Command =
    | Line(text: string)
    | Argv(args: seq<string>)
    | Named(names: seq<string>, commands: seq<Command>)
    | NoCommand
    | Printed(text: string)

  /** The lifecycle part of a merged configuration; an origin is "" when none was recorded. */
  class Merged {
    var onCreate: seq<Command>
    var updateContent: seq<Command>
    var postCreate: seq<Command>
    var postStart: seq<Command>
    var postAttach: seq<Command>
    var origins: map<Phase, seq<string>>
    var waitFor: Option<Phase>

    constructor (onCreate: seq<Command>, updateContent: seq<Command>, postCreate: seq<Command>, postStart: seq<Command>,
                 postAttach: seq<Command>, origins: map<Phase, seq<string>>, waitFor: Option<Phase>)
      ensures Value() == Hooks(onCreate, updateContent, postCreate, postStart, postAttach, origins, waitFor)
    {
      this.onCreate, this.updateContent, this.postCreate := onCreate, updateContent, postCreate;
      this.postStart, this.postAttach, this.origins, this.waitFor := postStart, postAttach, origins, waitFor;
    }

    function Value(): Hooks
      reads this
    {
      Hooks(onCreate, updateContent, postCreate, postStart, postAttach, origins, waitFor)
    }
  }

  datatype Hooks = Hooks(onCreate: seq<Command>, updateContent: seq<Command>, postCreate: seq<Command>,
                         postStart: seq<Command>, postAttach: seq<Command>, origins: map<Phase, seq<string>>,
                         waitFor: Option<Phase>)
  {
    function Of(p: Phase): seq<Command> {
      match p
      case OnCreate => onCreate
      case UpdateContent => updateContent
      case PostCreate => postCreate
      case PostStart => postStart
      case PostAttach => postAttach
      case Initialize => []
      case UnknownPhase(_) => []
    }
  }

  /** One thing a run does: a command of a phase, or what comes after postCreateCommand (the dotfiles). */
  datatype Item = Entry(phase: Phase, command: Command, origin: string) | AfterPostCreate

  datatype HookError = HookError(phase: Phase, name: string, origin: string, error: string)

  datatype Options = Options(skipPostCreate: bool, skipNonBlocking: bool, skipPostAttach: bool, prebuild: bool,
                             waitFor: Option<Phase>, afterPostCreate: bool)

  const PHASES: seq<Phase> := [OnCreate, UpdateContent, PostCreate, PostStart, PostAttach]

  // What there is to run.

  function Entries(hooks: Hooks, p: Phase): (r: seq<Item>)
    ensures |r| == |hooks.Of(p)|
  {
    var origins := if p in hooks.origins then hooks.origins[p] else [];
    var commands := hooks.Of(p);
    seq(|commands|, i requires 0 <= i < |commands| => Entry(p, commands[i], if i < |origins| then origins[i] else ""))
  }

  /** Everything a phase does. */
  function PhaseItems(hooks: Hooks, opts: Options, p: Phase): seq<Item> {
    Entries(hooks, p) + if p == PostCreate && opts.afterPostCreate then [AfterPostCreate] else []
  }

  /** Everything the first `n` phases do, in order. */
  function FirstPhases(hooks: Hooks, opts: Options, n: nat): seq<Item>
    requires n <= |PHASES|
  {
    if n == 0 then [] else FirstPhases(hooks, opts, n - 1) + PhaseItems(hooks, opts, PHASES[n - 1])
  }

  function WaitFor(hooks: Hooks, opts: Options): Phase {
    if opts.waitFor.Some? then opts.waitFor.value
    else if hooks.waitFor.Some? then hooks.waitFor.value else UpdateContent
  }

  /** The place of a phase, counted from 1. One that is not run, such as initializeCommand, stops nothing. */
  function Place(p: Phase): nat {
    match p
    case OnCreate => 1
    case UpdateContent => 2
    case PostCreate => 3
    case PostStart => 4
    case PostAttach => 5
    case Initialize => 5
    case UnknownPhase(_) => 5
  }

  /** How many phases a run may get to. */
  function PhaseLimit(hooks: Hooks, opts: Options): (n: nat)
    ensures n <= |PHASES|
  {
    if opts.skipPostCreate then 0
    else
      Min(if opts.prebuild then Place(UpdateContent) else 5,
          Min(if opts.skipNonBlocking then Place(WaitFor(hooks, opts)) else 5, if opts.skipPostAttach then 4 else 5))
  }

  /** What a run may get to: the phases up to the first one that ends it. */
  function Planned(hooks: Hooks, opts: Options): seq<Item> { FirstPhases(hooks, opts, PhaseLimit(hooks, opts)) }

  /** Waiting for a phase that is not run, such as initializeCommand, stops no run: everything is planned as without it. */
  lemma WaitingForNoPhase(hooks: Hooks, opts: Options)
    requires WaitFor(hooks, opts) !in PHASES
    ensures Planned(hooks, opts) == Planned(hooks, opts.(skipNonBlocking := false))
  {
    assert PHASES[0] in PHASES && PHASES[1] in PHASES && PHASES[2] in PHASES && PHASES[3] in PHASES;
    assert Place(WaitFor(hooks, opts)) == 5;
    SamePhases(hooks, opts, opts.(skipNonBlocking := false), PhaseLimit(hooks, opts));
  }

  lemma {:induction false} SamePhases(hooks: Hooks, opts: Options, opts': Options, n: nat)
    requires n <= |PHASES| && opts.afterPostCreate == opts'.afterPostCreate
    ensures FirstPhases(hooks, opts, n) == FirstPhases(hooks, opts', n)
  {
    if n > 0 { SamePhases(hooks, opts, opts', n - 1); }
  }

  // Running.

  /** What a command answers, given what ran before it. */
  type Outcomes = (seq<Item>, Item) -> Option<HookError>

  /** The items run after `done`, up to the first one that fails, and its error. */
  function Performed(outcomes: Outcomes, done: seq<Item>, items: seq<Item>): (r: (seq<Item>, Option<HookError>))
    decreases |items|
  {
    if items == [] then (done, None)
    else
      var failure := if items[0].Entry? then outcomes(done, items[0]) else None;
      if failure.Some? then (done + [items[0]], failure) else Performed(outcomes, done + [items[0]], items[1..])
  }

  /** The item at `k` does not fail after the ones before it. */
  predicate Succeeds(outcomes: Outcomes, done: seq<Item>, items: seq<Item>, k: nat)
    requires k < |items|
  {
    items[k].Entry? ==> outcomes(done + items[..k], items[k]).None?
  }

  /** What comes after the first item comes after one more that is done. */
  lemma ShiftItems(outcomes: Outcomes, done: seq<Item>, items: seq<Item>, k: nat)
    requires 0 < k <= |items|
    ensures done + items[..k] == done + [items[0]] + items[1..][..k - 1]
    ensures k < |items| ==>
              (Succeeds(outcomes, done, items, k) <==> Succeeds(outcomes, done + [items[0]], items[1..], k - 1))
  {
    assert items[..k] == [items[0]] + items[1..][..k - 1];
  }

  /** The run items are a prefix of the items to run: all of them, or up to the first that fails. */
  lemma {:induction false} PerformedIsPrefix(outcomes: Outcomes, done: seq<Item>, items: seq<Item>)
    ensures var (ran, failure) := Performed(outcomes, done, items);
            var n := |ran| - |done|;
            0 <= n <= |items| && ran == done + items[..n] &&
            (forall k :: 0 <= k < n - 1 ==> Succeeds(outcomes, done, items, k)) &&
            if failure.None? then n == |items| && (n > 0 ==> Succeeds(outcomes, done, items, n - 1))
            else n > 0 && items[n - 1].Entry? && outcomes(done + items[..n - 1], items[n - 1]) == failure
    decreases |items|
  {
    assert done + items[..0] == done;
    if items != [] {
      var first, rest := items[0], items[1..];
      assert items[..1] == [first];
      if first.AfterPostCreate? || outcomes(done, first).None? {
        PerformedIsPrefix(outcomes, done + [first], rest);
        assert Succeeds(outcomes, done, items, 0);
        assert Performed(outcomes, done, items) == Performed(outcomes, done + [first], rest);
        hide Succeeds, Performed;
        var n := |Performed(outcomes, done, items).0| - |done|;
        ShiftItems(outcomes, done, items, n);
        if n > 1 { ShiftItems(outcomes, done, items, n - 1); }
        forall k | 0 <= k < n - 1
          ensures Succeeds(outcomes, done, items, k)
        {
          if k > 0 { ShiftItems(outcomes, done, items, k); }
        }
      }
    }
  }

  lemma {:induction false} PerformedConcat(outcomes: Outcomes, done: seq<Item>, a: seq<Item>, b: seq<Item>)
    ensures var (ran, failure) := Performed(outcomes, done, a);
            Performed(outcomes, done, a + b) == if failure.Some? then (ran, failure) else Performed(outcomes, ran, b)
    decreases |a|
  {
    if a == [] {
      assert a + b == b;
    } else {
      assert (a + b)[0] == a[0] && (a + b)[1..] == a[1..] + b;
      PerformedConcat(outcomes, done + [a[0]], a[1..], b);
    }
  }

  /** The executor of commands, with everything it was given. */
  class Executor {
    const outcomes: Outcomes
    var ran: seq<Item>

    constructor (outcomes: Outcomes)
      ensures this.outcomes == outcomes && ran == []
    {
      this.outcomes := outcomes;
      ran := [];
    }

    /** Runs one entry. */
    method Execute(item: Item) returns (failure: Option<HookError>)
      modifies this
      ensures ran == old(ran) + [item]
      ensures failure == if item.Entry? then outcomes(old(ran), item) else None
    {
      failure := if item.Entry? then outcomes(ran, item) else None;
      ran := ran + [item];
    }
  }

  lemma {:induction false} FirstPhasesPrefix(hooks: Hooks, opts: Options, m: nat, n: nat)
    requires m <= n <= |PHASES|
    ensures FirstPhases(hooks, opts, m) <= FirstPhases(hooks, opts, n)
  {
    if m < n { FirstPhasesPrefix(hooks, opts, m, n - 1); }
  }

  /** What failed in the first phases fails the whole plan, with nothing more run. */
  lemma FailureEnds(outcomes: Outcomes, done: seq<Item>, hooks: Hooks, opts: Options, m: nat)
    requires m <= PhaseLimit(hooks, opts) && Performed(outcomes, done, FirstPhases(hooks, opts, m)).1.Some?
    ensures Performed(outcomes, done, Planned(hooks, opts)) == Performed(outcomes, done, FirstPhases(hooks, opts, m))
  {
    hide Performed, FirstPhases, PhaseLimit;
    var head, all := FirstPhases(hooks, opts, m), Planned(hooks, opts);
    FirstPhasesPrefix(hooks, opts, m, PhaseLimit(hooks, opts));
    PerformedConcat(outcomes, done, head, all[|head|..]);
    assert all == head + all[|head|..];
  }

  /** Runs a phase, and what follows it. */
  method RunPhase(executor: Executor, merged: Merged, opts: Options, p: Phase) returns (failure: Option<HookError>)
    modifies executor
    ensures (executor.ran, failure) ==
            Performed(executor.outcomes, old(executor.ran), PhaseItems(merged.Value(), opts, p))
  {
    hide Performed;
    ghost var hooks, before, outcomes := merged.Value(), executor.ran, executor.outcomes;
    var items := Entries(merged.Value(), p);
    var i := 0;
    NothingPerformed(outcomes, before);
    assert items[..0] == [] && items[..|items|] == items;
    while i < |items|
      invariant i <= |items| && executor.outcomes == outcomes
      invariant Performed(outcomes, before, items[..i]) == (executor.ran, None)
    {
      assert items[..i + 1] == items[..i] + [items[i]];
      assert PhaseItems(hooks, opts, p) == items[..i + 1] + PhaseItems(hooks, opts, p)[i + 1..];
      PerformedConcat(outcomes, before, items[..i], [items[i]]);
      OnePerformed(outcomes, executor.ran, items[i]);
      PerformedConcat(outcomes, before, items[..i + 1], PhaseItems(hooks, opts, p)[i + 1..]);
      failure := executor.Execute(items[i]);
      if failure.Some? { return; }
      i := i + 1;
    }
    failure := None;
    if p == PostCreate && opts.afterPostCreate {
      PerformedConcat(outcomes, before, items, [AfterPostCreate]);
      OnePerformed(outcomes, executor.ran, AfterPostCreate);
      failure := executor.Execute(AfterPostCreate);
    } else {
      assert items + [] == items;
    }
  }

  lemma NothingPerformed(outcomes: Outcomes, done: seq<Item>)
    ensures Performed(outcomes, done, []) == (done, None)
  {
  }

  lemma OnePerformed(outcomes: Outcomes, done: seq<Item>, item: Item)
    ensures Performed(outcomes, done, [item]) == (done + [item], if item.Entry? then outcomes(done, item) else None)
  {
    assert [item][1..] == [];
  }

  /** A phase that ends the run is the last one; the others are followed by another. */
  lemma LimitStep(hooks: Hooks, opts: Options, k: nat)
    requires k < |PHASES|
    ensures PhaseLimit(hooks, opts) == 0 <==> opts.skipPostCreate
    ensures opts.skipPostAttach ==> PhaseLimit(hooks, opts) <= 4
    ensures var ends := (opts.prebuild && PHASES[k] == UpdateContent) ||
                        (opts.skipNonBlocking && PHASES[k] == WaitFor(hooks, opts));
            var limit := PhaseLimit(hooks, opts);
            k < limit ==> (ends ==> limit == k + 1) && (!ends && limit == k + 1 < |PHASES| ==> limit == 4 && opts.skipPostAttach)
  {
  }

  lemma NoPhases(hooks: Hooks, opts: Options)
    ensures FirstPhases(hooks, opts, 0) == []
  {
  }

  lemma NextPhase(hooks: Hooks, opts: Options, k: nat)
    requires k < |PHASES|
    ensures FirstPhases(hooks, opts, k + 1) == FirstPhases(hooks, opts, k) + PhaseItems(hooks, opts, PHASES[k])
  {
  }

  method RunHooks(executor: Executor, merged: Merged, opts: Options) returns (failure: Option<HookError>)
    modifies executor
    ensures (executor.ran, failure) == Performed(executor.outcomes, old(executor.ran), Planned(merged.Value(), opts))
  {
    hide Performed, PhaseItems, PhaseLimit, FirstPhases;
    var waitFor := if opts.waitFor.Some? then opts.waitFor.value
                   else if merged.waitFor.Some? then merged.waitFor.value else UpdateContent;
    ghost var hooks, before, outcomes := merged.Value(), executor.ran, executor.outcomes;
    ghost var limit := PhaseLimit(hooks, opts);
    assert waitFor == WaitFor(hooks, opts);
    hide WaitFor;
    NothingPerformed(outcomes, before);
    NoPhases(hooks, opts);
    LimitStep(hooks, opts, 0);
    for k := 0 to |PHASES|
      invariant executor.outcomes == outcomes && merged.Value() == hooks
      invariant Performed(outcomes, before, FirstPhases(hooks, opts, Min(k, limit))) == (executor.ran, None)
      invariant !opts.skipPostCreate ==> k <= limit || (k == |PHASES| && limit == 4)
      invariant !opts.skipPostCreate && k == limit < |PHASES| ==> k == 4 && opts.skipPostAttach
    {
      LimitStep(hooks, opts, k);
      var phase := PHASES[k];
      if opts.skipPostCreate { continue; }
      if opts.skipPostAttach && phase == PostAttach { continue; }
      NextPhase(hooks, opts, k);
      PerformedConcat(outcomes, before, FirstPhases(hooks, opts, k), PhaseItems(hooks, opts, phase));
      failure := RunPhase(executor, merged, opts, phase);
      if failure.Some? {
        FailureEnds(outcomes, before, hooks, opts, k + 1);
        return;
      }
      if opts.prebuild && phase == UpdateContent { return None; }
      if opts.skipNonBlocking && phase == waitFor { return None; }
    }
    failure := None;
  }

  /** An entry is planned exactly when it is one of its phase, and its phase is within the limit. */
  lemma {:induction false} PlannedEntries(hooks: Hooks, opts: Options, n: nat, item: Item)
    requires n <= |PHASES| && item.Entry?
    ensures item in FirstPhases(hooks, opts, n) <==>
            item.phase in PHASES && Place(item.phase) <= n && item in Entries(hooks, item.phase)
  {
    hide Entries;
    if n > 0 {
      PlannedEntries(hooks, opts, n - 1, item);
      PhaseEntries(hooks, PHASES[n - 1], item);
      assert item in PhaseItems(hooks, opts, PHASES[n - 1]) <==> item in Entries(hooks, PHASES[n - 1]);
    }
  }

  lemma PhaseEntries(hooks: Hooks, p: Phase, item: Item)
    ensures item in Entries(hooks, p) ==> item.Entry? && item.phase == p
  {
  }
}
