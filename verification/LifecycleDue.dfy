/**
 Which runs keep a hook (internal/cli/up.go:1317-1400): what the marker file
 says, and exactly one run of the same start of the container.
 */
module LifecycleDue {
  import opened LifecycleHooks
  import opened LifecycleMarkers
  import opened Wrappers

  /** A hook is due when its time is not known, or when its marker is not of this time and could be written and answered for. */
  lemma DueIff(markers: Markers, c: Container, faults: Faults, hook: Phase)
    ensures var time := if hook == PostStart then c.startedAt else c.created;
            Due(markers, c, faults, hook) <==>
            time == "" ||
            (faults(hook) == Fine &&
             if hook in markers then markers[hook] != "" && markers[hook] != time else time != "ENOENT")
  {
  }

  /** What the marker of a hook holds once it was asked for. */
  lemma MarkerAfter(markers: Markers, c: Container, faults: Faults, hook: Phase)
    requires hook in MARKED && faults(hook).Fine?
    ensures var after := Asked(markers, c, faults, |MARKED|);
            var time := if hook == PostStart then c.startedAt else c.created;
            if Due(markers, c, faults, hook) && time != "" then hook in after && after[hook] == time
            else SameMarker(after, markers, hook)
  {
    AskedOwn(markers, c, faults, |MARKED|, hook);
  }

  /** A run keeps each marked hook whole or drops it, and leaves everything else alone. */
  lemma KeptWholeOrDropped(st: State, run: Event, hook: Phase)
    requires run.Run?
    ensures Kept(st, run).Of(hook) ==
            if hook !in MARKED || Keeps(st, run, hook) then run.hooks.Of(hook) else []
    ensures Kept(st, run).origins == run.hooks.origins && Kept(st, run).waitFor == run.hooks.waitFor
  {
    hide Due;
    assert MARKED[0] == OnCreate && MARKED[1] == UpdateContent && MARKED[2] == PostCreate && MARKED[3] == PostStart;
  }

  /** The first run in a container without markers keeps all hooks. */
  lemma FirstRunKeepsAll(hooks: Hooks, markers: Markers, c: Container, prebuild: bool, faults: Faults)
    requires forall hook :: hook in MARKED ==> hook !in markers && faults(hook).Fine?
    requires c.created != "ENOENT" && c.startedAt != "ENOENT"
    ensures Dropped(hooks, markers, c, prebuild, faults) == hooks
  {
    hide Due;
    assert MARKED[0] == OnCreate && MARKED[1] == UpdateContent && MARKED[2] == PostCreate && MARKED[3] == PostStart;
    DueIff(markers, c, faults, OnCreate);
    DueIff(markers, c, faults, UpdateContent);
    DueIff(markers, c, faults, PostCreate);
    DueIff(markers, c, faults, PostStart);
  }

  // Histories.

  /** The last run among the first `n` events. */
  function LastRun(history: seq<Event>, n: nat): (i: Option<nat>)
    requires n <= |history|
    ensures i.Some? ==> i.value < n && history[i.value].Run?
    ensures forall k :: 0 <= k < n && (i.Some? ==> k > i.value) ==> history[k].Restart?
  {
    if n == 0 then None else if history[n - 1].Run? then Some(n - 1) else LastRun(history, n - 1)
  }

  /** The time that counts for the hook after the first `n` events. */
  function TimeAt(st: State, history: seq<Event>, n: nat, hook: Phase): string
    requires n <= |history|
  {
    if hook == PostStart then StateAt(st, history, n).container.startedAt else StateAt(st, history, n).container.created
  }

  /** Every run finds the home folder and its marking goes well, and the times are known. */
  predicate GoesWell(st: State, history: seq<Event>, hook: Phase) {
    (forall k :: 0 <= k < |history| && history[k].Run? ==>
      history[k].home && history[k].faults(hook).Fine? && (hook == UpdateContent ==> !history[k].opts.prebuild)) &&
    forall k :: 0 <= k <= |history| ==> TimeAt(st, history, k, hook) != "" && TimeAt(st, history, k, hook) != "ENOENT"
  }

  /** The marker holds the time of the last run. */
  lemma {:induction false} MarkerOfLastRun(st: State, history: seq<Event>, n: nat, hook: Phase)
    requires hook in MARKED && n <= |history| && GoesWell(st, history, hook) && hook !in st.markers
    ensures var markers, last := StateAt(st, history, n).markers, LastRun(history, n);
            if last.None? then hook !in markers
            else hook in markers && markers[hook] == TimeAt(st, history, last.value, hook)
  {
    hide Asked, Due;
    if n > 0 {
      MarkerOfLastRun(st, history, n - 1, hook);
      var before, event := StateAt(st, history, n - 1), history[n - 1];
      if event.Run? {
        assert TimeAt(st, history, n - 1, hook) != "";
        MarkerAfter(before.markers, before.container, event.faults, hook);
        DueIff(before.markers, before.container, event.faults, hook);
      }
    }
  }

  /** A run keeps a hook exactly when there was no run before it, or the last one was at another time. */
  lemma KeptIffNewTime(st: State, history: seq<Event>, j: nat, hook: Phase)
    requires hook in MARKED && j < |history| && history[j].Run? && GoesWell(st, history, hook) && hook !in st.markers
    ensures var last := LastRun(history, j);
            Keeps(StateAt(st, history, j), history[j], hook) <==>
            last.None? || TimeAt(st, history, last.value, hook) != TimeAt(st, history, j, hook)
  {
    hide Asked, Due, Next;
    MarkerOfLastRun(st, history, j, hook);
    var at := StateAt(st, history, j);
    DueIff(at.markers, at.container, history[j].faults, hook);
    assert TimeAt(st, history, j, hook) != "";
  }

  /** The time of creation never changes, nor does that of a start without a restart. */
  lemma {:induction false} SameTime(st: State, history: seq<Event>, i: nat, j: nat, hook: Phase)
    requires SameStart(history, i, j, hook)
    ensures TimeAt(st, history, i, hook) == TimeAt(st, history, j, hook)
    decreases j
  {
    hide Asked;
    if i < j { SameTime(st, history, i, j - 1, hook); }
  }

  /**
   Exactly one run keeps the hook: of a container without its marker, over the
   runs of one container, or of one start of it for postStart, it is the first.
   */
  lemma ExactlyOneKeeps(st: State, history: seq<Event>, hook: Phase) returns (first: nat)
    requires hook in MARKED && GoesWell(st, history, hook) && hook !in st.markers
    requires SameStart(history, 0, |history|, hook) && exists k :: 0 <= k < |history| && history[k].Run?
    ensures first < |history| && history[first].Run? && forall k :: 0 <= k < first ==> history[k].Restart?
    ensures forall k :: 0 <= k < |history| && history[k].Run? ==>
              (Keeps(StateAt(st, history, k), history[k], hook) <==> k == first)
  {
    hide Keeps, GoesWell;
    first := 0;
    while history[first].Restart?
      invariant first < |history| && forall k :: 0 <= k < first ==> history[k].Restart?
      invariant exists k :: first <= k < |history| && history[k].Run?
      decreases |history| - first
    {
      first := first + 1;
    }
    forall k | 0 <= k < |history| && history[k].Run?
      ensures Keeps(StateAt(st, history, k), history[k], hook) <==> k == first
    {
      KeptIffNewTime(st, history, k, hook);
      var last := LastRun(history, k);
      if last.Some? { SameTime(st, history, last.value, k, hook); }
    }
  }

  /** After a restart at a new time the next run keeps postStart again, and none of the others. */
  lemma RestartKeepsPostStart(st: State, history: seq<Event>, j: nat, hook: Phase)
    requires hook in MARKED && j + 1 < |history| && history[j].Restart? && history[j + 1].Run?
    requires GoesWell(st, history, hook) && hook !in st.markers && LastRun(history, j).Some?
    requires TimeAt(st, history, LastRun(history, j).value, PostStart) != history[j].startedAt
    ensures Keeps(StateAt(st, history, j + 1), history[j + 1], hook) <==> hook == PostStart
  {
    hide GoesWell, Keeps;
    KeptIffNewTime(st, history, j + 1, hook);
    assert LastRun(history, j + 1) == LastRun(history, j);
    var last := LastRun(history, j).value;
    if hook != PostStart { SameTime(st, history, last, j + 1, hook); }
    assert StateAt(st, history, j + 1) == Next(StateAt(st, history, j), history[j]);
  }

  // From keeping a hook to running it.

  /** What is planned is executed up to a failure: a hook that is kept, planned and reached is started. */
  lemma KeptIsStarted(st: State, run: Event, hook: Phase)
    requires run.Run? && hook in MARKED && Keeps(st, run, hook) && run.hooks.Of(hook) != []
    requires Place(hook) <= PhaseLimit(Kept(st, run), run.opts) && hook in PHASES
    requires forall done, item :: run.outcomes(done, item).None?
    ensures Starts(st, run, hook)
  {
    hide Performed, PhaseLimit, FirstPhases, Kept, Keeps, Entries;
    KeptWholeOrDropped(st, run, hook);
    var kept := Kept(st, run);
    var plan := Planned(kept, run.opts);
    PerformedIsPrefix(run.outcomes, [], plan);
    assert Executed(st, run) == [] + plan[..|plan|] == plan;
    var item := Entries(kept, hook)[0];
    PhaseEntries(kept, hook, item);
    PlannedEntries(kept, run.opts, PhaseLimit(kept, run.opts), item);
  }
}
