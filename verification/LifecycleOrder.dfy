/**
 The order of the lifecycle commands (internal/lifecycle/hooks.go:95-175),
 told by the names of the phases.
 */
module LifecycleOrder {
  import opened LifecycleHooks
  import opened Wrappers

  /** The phase `p` comes before the phase `q`. */
  predicate Before(p: Phase, q: Phase) {
    match p
    case OnCreate => q.UpdateContent? || q.PostCreate? || q.PostStart? || q.PostAttach?
    case UpdateContent => q.PostCreate? || q.PostStart? || q.PostAttach?
    case PostCreate => q.PostStart? || q.PostAttach?
    case PostStart => q.PostAttach?
    case PostAttach => false
    case Initialize => false
    case UnknownPhase(_) => false
  }

  /** An item that may be run right away or later after another. */
  predicate MayFollow(first: Item, later: Item) {
    if first.Entry? && later.Entry? then first.phase == later.phase || Before(first.phase, later.phase)
    else if first.Entry? then !Before(PostCreate, first.phase)
    else later.Entry? && Before(PostCreate, later.phase)
  }

  predicate InOrder(items: seq<Item>) { forall i, j :: 0 <= i < j < |items| ==> MayFollow(items[i], items[j]) }

  lemma OrderedConcat(a: seq<Item>, b: seq<Item>)
    requires InOrder(a) && InOrder(b) && forall x, y :: x in a && y in b ==> MayFollow(x, y)
    ensures InOrder(a + b)
  {
    hide MayFollow;
    forall i, j | 0 <= i < j < |a + b|
      ensures MayFollow((a + b)[i], (a + b)[j])
    {
      if i < |a| <= j { assert a[i] in a && b[j - |a|] in b; }
    }
  }

  predicate OfPhase(p: Phase, item: Item) {
    (item.Entry? && item.phase == p) || (item.AfterPostCreate? && p == PostCreate)
  }

  lemma ItemsOfPhase(hooks: Hooks, opts: Options, p: Phase)
    ensures InOrder(PhaseItems(hooks, opts, p)) && forall item :: item in PhaseItems(hooks, opts, p) ==> OfPhase(p, item)
  {
    var entries := Entries(hooks, p);
    forall item | item in entries
      ensures item.Entry? && item.phase == p
    {
      PhaseEntries(hooks, p, item);
    }
    assert forall i :: 0 <= i < |entries| ==> entries[i] in entries;
    if p == PostCreate && opts.afterPostCreate { OrderedConcat(entries, [AfterPostCreate]); }
  }

  lemma {:induction false} FirstPhasesInOrder(hooks: Hooks, opts: Options, n: nat)
    requires n <= |PHASES|
    ensures InOrder(FirstPhases(hooks, opts, n))
    ensures forall item :: item in FirstPhases(hooks, opts, n) ==> exists k :: 0 <= k < n && OfPhase(PHASES[k], item)
  {
    hide PhaseItems, InOrder;
    if n == 0 {
      NothingInOrder();
    } else {
      var p := PHASES[n - 1];
      FirstPhasesInOrder(hooks, opts, n - 1);
      ItemsOfPhase(hooks, opts, p);
      forall x, y | x in FirstPhases(hooks, opts, n - 1) && y in PhaseItems(hooks, opts, p)
        ensures MayFollow(x, y)
      {
        var k :| 0 <= k < n - 1 && OfPhase(PHASES[k], x);
        assert Before(PHASES[k], p);
      }
      OrderedConcat(FirstPhases(hooks, opts, n - 1), PhaseItems(hooks, opts, p));
    }
  }

  lemma NothingInOrder()
    ensures InOrder([])
  {
  }

  /**
   What a run executes is in order: no updateContent command before an onCreate
   command, and so on, and the dotfiles between postCreate and postStart.
   */
  lemma ExecutedInOrder(outcomes: Outcomes, hooks: Hooks, opts: Options)
    ensures InOrder(Performed(outcomes, [], Planned(hooks, opts)).0)
  {
    hide Performed, FirstPhases, PhaseLimit, MayFollow;
    FirstPhasesInOrder(hooks, opts, PhaseLimit(hooks, opts));
    PerformedIsPrefix(outcomes, [], Planned(hooks, opts));
    var ran := Performed(outcomes, [], Planned(hooks, opts)).0;
    assert ran == Planned(hooks, opts)[..|ran|];
  }

  /** The phase to wait for: the one asked for, else the configured one, else updateContent. */
  lemma WaitForIs(hooks: Hooks, opts: Options)
    ensures opts.waitFor.Some? ==> WaitFor(hooks, opts) == opts.waitFor.value
    ensures opts.waitFor.None? && hooks.waitFor.Some? ==> WaitFor(hooks, opts) == hooks.waitFor.value
    ensures opts.waitFor.None? && hooks.waitFor.None? ==> WaitFor(hooks, opts) == UpdateContent
  {
  }

  /** Exactly which commands are planned. */
  lemma PlannedIff(hooks: Hooks, opts: Options, item: Item)
    requires item.Entry?
    ensures item in Planned(hooks, opts) <==>
            item in Entries(hooks, item.phase) && !opts.skipPostCreate &&
            !(opts.prebuild && Before(UpdateContent, item.phase)) &&
            !(opts.skipNonBlocking && Before(WaitFor(hooks, opts), item.phase)) &&
            !(opts.skipPostAttach && item.phase == PostAttach)
  {
    hide WaitFor, Entries, PhaseLimit;
    PlannedEntries(hooks, opts, PhaseLimit(hooks, opts), item);
    assert item in Entries(hooks, item.phase) ==> hooks.Of(item.phase) != [];
    PhasesAre(item.phase);
    if item.phase in PHASES { WithinLimit(hooks, opts, item.phase); }
  }

  lemma PhasesAre(p: Phase)
    ensures p in PHASES <==> p.OnCreate? || p.UpdateContent? || p.PostCreate? || p.PostStart? || p.PostAttach?
  {
    assert PHASES[0] == OnCreate && PHASES[1] == UpdateContent && PHASES[2] == PostCreate && PHASES[3] == PostStart;
    assert PHASES[4] == PostAttach;
  }

  lemma WithinLimit(hooks: Hooks, opts: Options, p: Phase)
    requires p in PHASES
    ensures Place(p) <= PhaseLimit(hooks, opts) <==>
            !opts.skipPostCreate && !(opts.prebuild && Before(UpdateContent, p)) &&
            !(opts.skipNonBlocking && Before(WaitFor(hooks, opts), p)) && !(opts.skipPostAttach && p == PostAttach)
  {
    hide WaitFor;
    PhasesAre(p);
  }

  /** A command of a hook and the origin recorded in its place. */
  lemma EntryAt(hooks: Hooks, p: Phase, i: nat)
    requires i < |hooks.Of(p)|
    ensures Entries(hooks, p)[i].phase == p && Entries(hooks, p)[i].command == hooks.Of(p)[i]
    ensures Entries(hooks, p)[i].origin ==
            if p in hooks.origins && i < |hooks.origins[p]| then hooks.origins[p][i] else ""
  {
  }
}
