/**
 Marker files (internal/cli/up.go:1317-1400): before the lifecycle commands of
 a run, every marked hook is asked for and its marker written. The file of a
 hook holds the time the container was created, or started, when the hook was
 last due.
 */
module LifecycleMarkers {
  import opened LifecycleHooks
  import opened Wrappers

  /** The text of each marker file there is, as the shell reads it: without the line break at its end. */
  type Markers = map<Phase, string>

  /** How the command that asks for a hook and marks it can go wrong. */
  datatype Fault =
    | Fine
    | NotRun                            // the command failed before it wrote anything
    | Unwritten(left: Option<string>)   // writing the marker failed and left this
    | ReplyLost                         // the marker was written but its answer never came

  datatype Container = Container(created: string, startedAt: string)

  const MARKED: seq<Phase> := [OnCreate, UpdateContent, PostCreate, PostStart]

  /** The time a hook's marker is compared with; "" when it is not known. */
  function Stamp(c: Container, hook: Phase): string { if hook == PostStart then c.startedAt else c.created }

  /** What the shell takes the marker to be: a missing file reads ENOENT, an empty one like the time asked for. */
  function Reads(markers: Markers, hook: Phase, stamp: string): string {
    if hook !in markers then "ENOENT" else if markers[hook] == "" then stamp else markers[hook]
  }

  /** markerShouldRun: the markers afterwards, and whether the hook should run. */
  function Mark(markers: Markers, hook: Phase, stamp: string, fault: Fault): (Markers, bool) {
    if stamp == "" then (markers, true)
    else if fault.NotRun? || Reads(markers, hook, stamp) == stamp then (markers, false)
    else
      match fault
      case Unwritten(None) => (markers - {hook}, false)
      case Unwritten(Some(text)) => (markers[hook := text], false)
      case ReplyLost => (markers[hook := stamp], false)
      case Fine => (markers[hook := stamp], true)
      case NotRun => (markers, false)
  }

  type Faults = Phase -> Fault

  /** Whether the marker of a hook lets it run. */
  function Due(markers: Markers, c: Container, faults: Faults, hook: Phase): bool {
    Mark(markers, hook, Stamp(c, hook), faults(hook)).1
  }

  /** The markers once the first `n` hooks were asked for. */
  function Asked(markers: Markers, c: Container, faults: Faults, n: nat): Markers
    requires n <= |MARKED|
  {
    if n == 0 then markers
    else Mark(Asked(markers, c, faults, n - 1), MARKED[n - 1], Stamp(c, MARKED[n - 1]), faults(MARKED[n - 1])).0
  }

  /** The hooks that are left: a hook whose marker says it ran is dropped, updateContent not in a prebuild. */
  function Dropped(hooks: Hooks, markers: Markers, c: Container, prebuild: bool, faults: Faults): Hooks {
    hooks.(onCreate := if Due(markers, c, faults, OnCreate) then hooks.onCreate else [],
           updateContent := if Due(markers, c, faults, UpdateContent) || prebuild then hooks.updateContent else [],
           postCreate := if Due(markers, c, faults, PostCreate) then hooks.postCreate else [],
           postStart := if Due(markers, c, faults, PostStart) then hooks.postStart else [])
  }

  class MarkerFolder {
    var markers: Markers

    constructor (markers: Markers)
      ensures this.markers == markers
    {
      this.markers := markers;
    }

    method MarkerShouldRun(hook: Phase, stamp: string, fault: Fault) returns (run: bool)
      modifies this
      ensures (markers, run) == Mark(old(markers), hook, stamp, fault)
    {
      if stamp == "" { return true; }
      if fault.NotRun? { return false; }
      var content := if hook in markers then markers[hook] else "ENOENT";
      if (if content == "" then stamp else content) == stamp { return false; }
      if fault.Unwritten? {
        markers := if fault.left.Some? then markers[hook := fault.left.value] else markers - {hook};
        return false;
      }
      markers := markers[hook := stamp];
      run := fault.Fine?;
    }
  }

  /** The marker of a hook is the same in both. */
  predicate SameMarker(a: Markers, b: Markers, hook: Phase) {
    (hook in a <==> hook in b) && (hook in a ==> a[hook] == b[hook])
  }

  /** Asking for a hook touches no other marker. */
  lemma MarkOthers(a: Markers, asked: Phase, stamp: string, fault: Fault, hook: Phase)
    requires asked != hook
    ensures SameMarker(Mark(a, asked, stamp, fault).0, a, hook)
  {
    hide Reads;
  }

  /** Asking for a hook looks at its own marker only. */
  lemma MarkOwn(a: Markers, b: Markers, hook: Phase, stamp: string, fault: Fault)
    requires SameMarker(a, b, hook)
    ensures SameMarker(Mark(a, hook, stamp, fault).0, Mark(b, hook, stamp, fault).0, hook)
    ensures Mark(a, hook, stamp, fault).1 == Mark(b, hook, stamp, fault).1
  {
    assert Reads(a, hook, stamp) == Reads(b, hook, stamp);
    hide Reads;
  }

  /** When a hook is asked for, counted from 0. */
  function Turn(hook: Phase): (n: nat)
    ensures forall k :: 0 <= k < |MARKED| ==> (MARKED[k] == hook <==> k == n)
    ensures hook in MARKED <==> n < |MARKED|
  {
    match hook
    case OnCreate => 0
    case UpdateContent => 1
    case PostCreate => 2
    case PostStart => 3
    case Initialize => 4
    case PostAttach => 4
    case UnknownPhase(_) => 4
  }

  lemma {:induction false} AskedOwn(markers: Markers, c: Container, faults: Faults, n: nat, hook: Phase)
    requires n <= |MARKED|
    ensures SameMarker(Asked(markers, c, faults, n),
                       if Turn(hook) < n then Mark(markers, hook, Stamp(c, hook), faults(hook)).0 else markers, hook)
  {
    hide Mark;
    if n > 0 {
      AskedOwn(markers, c, faults, n - 1, hook);
      var last := MARKED[n - 1];
      var before := if Turn(hook) < n - 1 then Mark(markers, hook, Stamp(c, hook), faults(hook)).0 else markers;
      if last == hook {
        MarkOwn(Asked(markers, c, faults, n - 1), before, hook, Stamp(c, last), faults(last));
      } else {
        MarkOthers(Asked(markers, c, faults, n - 1), last, Stamp(c, last), faults(last), hook);
      }
    }
  }

  /** Each hook is asked for with the marker it had before. */
  lemma AskedTurn(markers: Markers, c: Container, faults: Faults, hook: Phase)
    requires hook in MARKED
    ensures Mark(Asked(markers, c, faults, Turn(hook)), hook, Stamp(c, hook), faults(hook)).1 == Due(markers, c, faults, hook)
  {
    hide Mark;
    AskedOwn(markers, c, faults, Turn(hook), hook);
    MarkOwn(Asked(markers, c, faults, Turn(hook)), markers, hook, Stamp(c, hook), faults(hook));
  }

  /** What asking for the hooks, one after the other, does to the markers and answers. */
  lemma AskedSteps(markers: Markers, c: Container, faults: Faults)
    ensures Asked(markers, c, faults, 0) == markers
    ensures Mark(Asked(markers, c, faults, 0), OnCreate, c.created, faults(OnCreate)) ==
            (Asked(markers, c, faults, 1), Due(markers, c, faults, OnCreate))
    ensures Mark(Asked(markers, c, faults, 1), UpdateContent, c.created, faults(UpdateContent)) ==
            (Asked(markers, c, faults, 2), Due(markers, c, faults, UpdateContent))
    ensures Mark(Asked(markers, c, faults, 2), PostCreate, c.created, faults(PostCreate)) ==
            (Asked(markers, c, faults, 3), Due(markers, c, faults, PostCreate))
    ensures Mark(Asked(markers, c, faults, 3), PostStart, c.startedAt, faults(PostStart)) ==
            (Asked(markers, c, faults, 4), Due(markers, c, faults, PostStart))
  {
    hide Mark;
    AskedTurn(markers, c, faults, OnCreate);
    AskedTurn(markers, c, faults, UpdateContent);
    AskedTurn(markers, c, faults, PostCreate);
    AskedTurn(markers, c, faults, PostStart);
  }

  /** dropRanHooks: every marked hook is asked for, in order, even when nothing is dropped. */
  method DropRanHooks(folder: MarkerFolder, merged: Merged, c: Container, prebuild: bool, faults: Faults)
    modifies folder, merged
    ensures folder.markers == Asked(old(folder.markers), c, faults, |MARKED|)
    ensures merged.Value() == Dropped(old(merged.Value()), old(folder.markers), c, prebuild, faults)
  {
    hide Mark, Asked, Due;
    AskedSteps(folder.markers, c, faults);
    var onCreate := folder.MarkerShouldRun(OnCreate, c.created, faults(OnCreate));
    if !onCreate { merged.onCreate := []; }
    var updateContent := folder.MarkerShouldRun(UpdateContent, c.created, faults(UpdateContent));
    if !updateContent && !prebuild { merged.updateContent := []; }
    var postCreate := folder.MarkerShouldRun(PostCreate, c.created, faults(PostCreate));
    if !postCreate { merged.postCreate := []; }
    var postStart := folder.MarkerShouldRun(PostStart, c.startedAt, faults(PostStart));
    if !postStart { merged.postStart := []; }
  }

  /** applyLifecycleMarkers: without a home folder there are no markers and nothing is dropped. */
  method ApplyLifecycleMarkers(home: bool, folder: MarkerFolder, merged: Merged, c: Container, prebuild: bool, faults: Faults)
    modifies folder, merged
    ensures folder.markers == (if home then Asked(old(folder.markers), c, faults, |MARKED|) else old(folder.markers))
    ensures merged.Value() == if home then Dropped(old(merged.Value()), old(folder.markers), c, prebuild, faults)
                              else old(merged.Value())
  {
    if !home { return; }
    DropRanHooks(folder, merged, c, prebuild, faults);
  }

  // Histories of one container.

  datatype State = State(markers: Markers, container: Container)

  /** A start of the container, or a run of the hooks; `home` says whether the home folder could be resolved. */
  datatype Event =
    | Restart(startedAt: string)
    | Run(home: bool, hooks: Hooks, opts: Options, faults: Faults, outcomes: Outcomes)

  function Next(st: State, event: Event): State {
    match event
    case Restart(startedAt) => st.(container := st.container.(startedAt := startedAt))
    case Run(home, _, _, faults, _) =>
      if home then st.(markers := Asked(st.markers, st.container, faults, |MARKED|)) else st
  }

  /** The hooks a run is left with. */
  function Kept(st: State, run: Event): Hooks
    requires run.Run?
  {
    if run.home then Dropped(run.hooks, st.markers, st.container, run.opts.prebuild, run.faults) else run.hooks
  }

  /** What a run executes. */
  function Executed(st: State, run: Event): seq<Item>
    requires run.Run?
  {
    Performed(run.outcomes, [], Planned(Kept(st, run), run.opts)).0
  }

  /** A run starts a hook when it executes a command of it. */
  ghost predicate Starts(st: State, run: Event, hook: Phase) {
    run.Run? && exists item :: item in Executed(st, run) && item.Entry? && item.phase == hook
  }

  function StateAt(st: State, history: seq<Event>, n: nat): State
    requires n <= |history|
  {
    if n == 0 then st else Next(StateAt(st, history, n - 1), history[n - 1])
  }

  /** The marker says that the hook has run. */
  predicate Blocked(st: State, hook: Phase) {
    var stamp := Stamp(st.container, hook);
    stamp != "" && Reads(st.markers, hook, stamp) == stamp
  }

  predicate Keeps(st: State, run: Event, hook: Phase)
    requires run.Run?
  {
    !run.home || Due(st.markers, st.container, run.faults, hook) || (hook == UpdateContent && run.opts.prebuild)
  }

  lemma StartsKept(st: State, run: Event, hook: Phase)
    requires hook in MARKED && Starts(st, run, hook)
    ensures Keeps(st, run, hook)
  {
    hide Performed, FirstPhases, PhaseLimit, Entries, Kept, Keeps;
    var kept := Kept(st, run);
    var item :| item in Executed(st, run) && item.Entry? && item.phase == hook;
    var plan := Planned(kept, run.opts);
    PerformedIsPrefix(run.outcomes, [], plan);
    var n := |Executed(st, run)|;
    assert Executed(st, run) == [] + plan[..n] == plan[..n];
    assert item in plan;
    PlannedEntries(kept, run.opts, PhaseLimit(kept, run.opts), item);
    LeftOver(st, run, hook);
  }

  /** A hook with commands left was kept. */
  lemma LeftOver(st: State, run: Event, hook: Phase)
    requires run.Run? && hook in MARKED && |Entries(Kept(st, run), hook)| > 0
    ensures Keeps(st, run, hook)
  {
    hide Due;
    assert Kept(st, run).Of(hook) != [];
  }

  /** A run that finds the hook due, or any run whose marking went well, leaves it blocked. */
  lemma RunBlocks(st: State, run: Event, hook: Phase)
    requires hook in MARKED && run.Run? && run.home && Stamp(st.container, hook) != ""
    requires Due(st.markers, st.container, run.faults, hook) || run.faults(hook).Fine?
    ensures Blocked(Next(st, run), hook)
  {
    AskedOwn(st.markers, st.container, run.faults, |MARKED|, hook);
  }

  lemma BlockedStep(st: State, event: Event, hook: Phase)
    requires hook in MARKED && Blocked(st, hook) && (event.Restart? ==> hook != PostStart)
    ensures Blocked(Next(st, event), hook)
    ensures event.Run? && event.home ==> !Due(st.markers, st.container, event.faults, hook)
  {
    if event.Run? && event.home {
      AskedOwn(st.markers, st.container, event.faults, |MARKED|, hook);
    }
  }

  /** The same start of the container, as far as the hook's time goes. */
  predicate SameStart(history: seq<Event>, i: nat, j: nat, hook: Phase) {
    i <= j <= |history| && forall k :: i <= k < j && hook == PostStart ==> history[k].Run?
  }

  lemma {:induction false} BlockedStays(st: State, history: seq<Event>, i: nat, j: nat, hook: Phase)
    requires hook in MARKED && SameStart(history, i, j, hook) && Blocked(StateAt(st, history, i), hook)
    ensures Blocked(StateAt(st, history, j), hook)
    decreases j
  {
    hide Blocked, Next;
    if i < j {
      BlockedStays(st, history, i, j - 1, hook);
      BlockedStep(StateAt(st, history, j - 1), history[j - 1], hook);
    }
  }

  /**
   Once a run found a hook due, or marked it without trouble though it then
   stopped before the hook, a later run of the same container (for postStart, of
   the same start) keeps the hook exactly when it finds no home folder or is a
   prebuild that keeps updateContent.
   */
  lemma KeptOnce(st: State, history: seq<Event>, i: nat, j: nat, hook: Phase)
    requires hook in MARKED && i < j < |history| && SameStart(history, i, j, hook) && history[i].Run? && history[j].Run?
    requires var at := StateAt(st, history, i);
             history[i].home && Stamp(at.container, hook) != "" &&
             (Due(at.markers, at.container, history[i].faults, hook) || history[i].faults(hook).Fine?)
    ensures Keeps(StateAt(st, history, j), history[j], hook) <==>
            !history[j].home || (hook == UpdateContent && history[j].opts.prebuild)
  {
    hide Blocked, Next, Due;
    RunBlocks(StateAt(st, history, i), history[i], hook);
    assert StateAt(st, history, i + 1) == Next(StateAt(st, history, i), history[i]);
    BlockedStays(st, history, i + 1, j, hook);
    BlockedStep(StateAt(st, history, j), history[j], hook);
  }

  /**
   At most one run starts a hook: over any history with a home folder and a
   known time, and for updateContent outside prebuilds, for postStart within one
   start of the container.
   */
  lemma AtMostOneStart(st: State, history: seq<Event>, i: nat, j: nat, hook: Phase)
    requires hook in MARKED && i <= j < |history| && SameStart(history, i, j, hook)
    requires Starts(StateAt(st, history, i), history[i], hook) && Starts(StateAt(st, history, j), history[j], hook)
    requires history[i].home && history[j].home && Stamp(StateAt(st, history, i).container, hook) != ""
    requires hook == UpdateContent ==> !history[i].opts.prebuild && !history[j].opts.prebuild
    ensures i == j
  {
    hide Due, Next, Executed;
    StartsKept(StateAt(st, history, i), history[i], hook);
    StartsKept(StateAt(st, history, j), history[j], hook);
    if i < j { KeptOnce(st, history, i, j, hook); }
  }

  /** A run that stops early uses up the hooks it did not get to: no later run starts them. */
  lemma NeverMadeUp(st: State, history: seq<Event>, i: nat, j: nat, hook: Phase)
    requires hook in MARKED && i < j < |history| && SameStart(history, i, j, hook) && history[i].Run? && history[j].Run?
    requires history[i].home && history[j].home && history[i].faults(hook).Fine?
    requires Stamp(StateAt(st, history, i).container, hook) != "" && (hook == UpdateContent ==> !history[j].opts.prebuild)
    ensures !Starts(StateAt(st, history, j), history[j], hook)
  {
    hide Due, Next, Executed;
    KeptOnce(st, history, i, j, hook);
    if Starts(StateAt(st, history, j), history[j], hook) { StartsKept(StateAt(st, history, j), history[j], hook); }
  }

  /** Without a home folder, or with no time known, nothing is marked, so the same run does the same again. */
  lemma UnmarkedRepeats(st: State, run: Event)
    requires run.Run? && (!run.home || (st.container.created == "" && st.container.startedAt == ""))
    ensures Next(st, run) == st && Executed(Next(st, run), run) == Executed(st, run)
  {
    if run.home {
      assert Asked(st.markers, st.container, run.faults, 1) == st.markers;
      assert Asked(st.markers, st.container, run.faults, 2) == st.markers;
      assert Asked(st.markers, st.container, run.faults, 3) == st.markers;
      assert Asked(st.markers, st.container, run.faults, 4) == st.markers;
    }
  }
}
