/** The crawl's workers: shared counter, page list and frontier, steps in any order. */
module Crawler {
  import opened Wrappers

  /** A worker between two of its atomic steps. */
  datatype Phase =
    | Idle
    | Popped(item: nat)
    | Loaded(item: nat, seen: nat)      // the last value read from the counter
    | Fetching(item: nat)               // a slot is reserved, if there is a cap
    | Settled(item: nat)                // the page is stored or the slot given back
    | Finished

  /** The frontier hands out items; `counter` is the number of reserved slots. */
  datatype State = State(
    workers: seq<Phase>, counter: int, pages: seq<nat>,
    pending: set<nat>, popped: set<nat>, completed: multiset<nat>, stopped: bool)

  datatype Step =
    | Push(item: nat)
    | Pop(w: nat, item: nat)
    | PopNothing(w: nat)
    | Skip(w: nat)
    | Enter(w: nat)
    | Load(w: nat)
    | GiveUp(w: nat)
    | Exchange(w: nat)
    | ExchangeFails(w: nat)
    | StorePage(w: nat)
    | FetchFails(w: nat)
    | Complete(w: nat)

  function To(s: State, w: nat, phase: Phase): State
    requires w < |s.workers|
  {
    s.(workers := s.workers[w := phase])
  }

  predicate Is(s: State, w: nat) { w < |s.workers| }

  /** Can the step be taken?  A weak exchange may fail at any time, for no reason. */
  predicate Enabled(max: Option<nat>, s: State, step: Step) {
    match step
    case Push(item) => item !in s.pending && item !in s.popped
    case Pop(w, item) => Is(s, w) && s.workers[w].Idle? && item in s.pending
    case PopNothing(w) => Is(s, w) && s.workers[w].Idle?
    case Skip(w) => Is(s, w) && s.workers[w].Popped?
    case Enter(w) => Is(s, w) && s.workers[w].Popped? && max.None?
    case Load(w) => Is(s, w) && s.workers[w].Popped? && max.Some?
    case GiveUp(w) => Is(s, w) && s.workers[w].Loaded? && max.Some? && s.workers[w].seen >= max.value
    case Exchange(w) => Is(s, w) && s.workers[w].Loaded? && max.Some? && s.workers[w].seen < max.value
      && s.counter == s.workers[w].seen
    case ExchangeFails(w) => Is(s, w) && s.workers[w].Loaded? && max.Some? && s.workers[w].seen < max.value
    case StorePage(w) => Is(s, w) && s.workers[w].Fetching?
    case FetchFails(w) => Is(s, w) && s.workers[w].Fetching?
    case Complete(w) => Is(s, w) && s.workers[w].Settled?
  }

  function After(max: Option<nat>, s: State, step: Step): State
    requires Enabled(max, s, step) && s.counter >= 0
  {
    match step
    case Push(item) => s.(pending := s.pending + {item})
    case Pop(w, item) => To(s, w, Popped(item)).(pending := s.pending - {item}, popped := s.popped + {item})
    case PopNothing(w) => To(s, w, Finished)
    case Skip(w) => To(s, w, Idle).(completed := s.completed + multiset{s.workers[w].item})
    case Enter(w) => To(s, w, Fetching(s.workers[w].item))
    case Load(w) => To(s, w, Loaded(s.workers[w].item, s.counter))
    case GiveUp(w) => To(s, w, Finished).(stopped := true, completed := s.completed + multiset{s.workers[w].item})
    case Exchange(w) => To(s, w, Fetching(s.workers[w].item)).(counter := s.counter + 1)
    case ExchangeFails(w) => To(s, w, Loaded(s.workers[w].item, s.counter))
    case StorePage(w) => To(s, w, Settled(s.workers[w].item)).(pages := s.pages + [s.workers[w].item])
    case FetchFails(w) =>
      To(s, w, Settled(s.workers[w].item)).(counter := if max.Some? then s.counter - 1 else s.counter)
    case Complete(w) => To(s, w, Idle).(completed := s.completed + multiset{s.workers[w].item})
  }

  predicate Holds(phase: Phase) { !phase.Idle? && !phase.Finished? }

  /** The workers that hold a reserved slot. */
  function InFlight(workers: seq<Phase>): nat {
    if workers == [] then 0 else (if workers[0].Fetching? then 1 else 0) + InFlight(workers[1..])
  }

  /** How many workers hold an item. */
  function Held(workers: seq<Phase>, item: nat): nat {
    if workers == [] then 0 else Hand(workers[0], item) + Held(workers[1..], item)
  }

  function Slot(phase: Phase): nat { if phase.Fetching? then 1 else 0 }

  function Hand(phase: Phase, item: nat): nat { if Holds(phase) && phase.item == item then 1 else 0 }

  lemma {:induction false} SlotChanged(workers: seq<Phase>, w: nat, phase: Phase)
    requires w < |workers|
    ensures InFlight(workers[w := phase]) + Slot(workers[w]) == InFlight(workers) + Slot(phase)
  {
    if w == 0 {
      assert workers[w := phase][1..] == workers[1..];
    } else {
      assert workers[w := phase][1..] == workers[1..][w - 1 := phase];
      SlotChanged(workers[1..], w - 1, phase);
    }
  }

  lemma {:induction false} HandChanged(workers: seq<Phase>, w: nat, phase: Phase, item: nat)
    requires w < |workers|
    ensures Held(workers[w := phase], item) + Hand(workers[w], item) == Held(workers, item) + Hand(phase, item)
  {
    if w == 0 {
      assert workers[w := phase][1..] == workers[1..];
    } else {
      assert workers[w := phase][1..] == workers[1..][w - 1 := phase];
      HandChanged(workers[1..], w - 1, phase, item);
    }
  }

  /** Slots: the counter is the pages stored plus the fetches in flight, within the cap. */
  predicate SlotsOk(max: Option<nat>, s: State) {
    if max.Some? then s.counter == |s.pages| + InFlight(s.workers) && s.counter <= max.value else s.counter == 0
  }

  function Once(items: set<nat>, item: nat): nat { if item in items then 1 else 0 }

  /** Items: every popped item is either held by one worker or completed, once. */
  ghost predicate ItemsOk(s: State) {
    s.pending !! s.popped && forall item :: ItemOk(s, item)
  }

  predicate ItemOk(s: State, item: nat) { s.completed[item] + Held(s.workers, item) == Once(s.popped, item) }

  ghost predicate Inv(max: Option<nat>, s: State) { SlotsOk(max, s) && ItemsOk(s) }

  predicate Initial(s: State) {
    && (forall w | 0 <= w < |s.workers| :: s.workers[w].Idle?)
    && s.counter == 0 && s.pages == [] && s.popped == {} && s.completed == multiset{} && !s.stopped
  }

  lemma {:induction false} IdleHoldNothing(workers: seq<Phase>)
    requires forall w | 0 <= w < |workers| :: workers[w].Idle? || workers[w].Finished?
    ensures InFlight(workers) == 0 && forall item :: Held(workers, item) == 0
  {
    if workers != [] { IdleHoldNothing(workers[1..]); }
  }

  lemma InitialInv(max: Option<nat>, s: State)
    requires Initial(s)
    ensures Inv(max, s)
  {
    IdleHoldNothing(s.workers);
  }

  lemma StepKeepsSlots(max: Option<nat>, s: State, step: Step)
    requires SlotsOk(max, s) && Enabled(max, s, step)
    ensures s.counter >= 0 && SlotsOk(max, After(max, s, step))
  {
    if !step.Push? { SlotChanged(s.workers, step.w, After(max, s, step).workers[step.w]); }
  }

  lemma StepKeepsItem(max: Option<nat>, s: State, step: Step, item: nat)
    requires ItemOk(s, item) && s.pending !! s.popped && s.counter >= 0 && Enabled(max, s, step)
    ensures ItemOk(After(max, s, step), item)
  {
    if !step.Push? { HandChanged(s.workers, step.w, After(max, s, step).workers[step.w], item); }
  }

  lemma StepKeepsItems(max: Option<nat>, s: State, step: Step)
    requires ItemsOk(s) && s.counter >= 0 && Enabled(max, s, step)
    ensures ItemsOk(After(max, s, step))
  {
    hide ItemOk;
    forall item
      ensures ItemOk(After(max, s, step), item)
    {
      assert ItemOk(s, item);
      StepKeepsItem(max, s, step, item);
    }
  }

  /** Every step in every interleaving keeps the invariant; in particular the counter never
      goes below zero and, with a cap, never above it. */
  lemma StepKeepsInv(max: Option<nat>, s: State, step: Step)
    requires Inv(max, s) && Enabled(max, s, step)
    ensures s.counter >= 0 && Inv(max, After(max, s, step)) && After(max, s, step).counter >= 0
  {
    StepKeepsSlots(max, s, step);
    StepKeepsItems(max, s, step);
  }

  datatype Run = Run(steps: seq<Step>, states: seq<State>)

  ghost predicate IsRun(max: Option<nat>, r: Run) {
    && |r.states| == |r.steps| + 1 && Initial(r.states[0])
    && forall i | 0 <= i < |r.steps| :: Next(max, r.states[i], r.steps[i], r.states[i + 1])
  }

  predicate Next(max: Option<nat>, s: State, step: Step, s': State) {
    Enabled(max, s, step) && s.counter >= 0 && s' == After(max, s, step)
  }

  lemma {:induction false} RunKeepsInv(max: Option<nat>, r: Run, i: nat)
    requires IsRun(max, r) && i <= |r.steps|
    ensures Inv(max, r.states[i])
  {
    if i == 0 {
      InitialInv(max, r.states[0]);
    } else {
      RunKeepsInv(max, r, i - 1);
      assert Next(max, r.states[i - 1], r.steps[i - 1], r.states[i]);
      hide Inv, Enabled, After;
      StepKeepsInv(max, r.states[i - 1], r.steps[i - 1]);
    }
  }

  /** The page list never exceeds the cap. */
  lemma PagesWithinCap(max: Option<nat>, r: Run, i: nat)
    requires IsRun(max, r) && i <= |r.steps|
    ensures max.Some? ==> 0 <= |r.states[i].pages| <= r.states[i].counter <= max.value
    ensures max.Some? ==> r.states[i].counter - |r.states[i].pages| == InFlight(r.states[i].workers)
  {
    RunKeepsInv(max, r, i);
    hide IsRun;
  }

  /** Every popped item is completed at most once, not while a worker still holds it, and,
      when all workers are done, exactly once; nothing else is ever completed. */
  lemma CompletedExactlyOnce(max: Option<nat>, r: Run, i: nat, item: nat)
    requires IsRun(max, r) && i <= |r.steps|
    ensures var s := r.states[i];
      && s.completed[item] <= Once(s.popped, item) && Held(s.workers, item) <= 1
      && (Held(s.workers, item) == 1 ==> s.completed[item] == 0)
      && ((forall w | 0 <= w < |s.workers| :: s.workers[w].Finished?) ==> s.completed[item] == Once(s.popped, item))
  {
    RunKeepsInv(max, r, i);
    hide IsRun;
    var s := r.states[i];
    assert ItemOk(s, item);
    if forall w | 0 <= w < |s.workers| :: s.workers[w].Finished? { IdleHoldNothing(s.workers); }
  }

  /** A worker that gives up has seen the cap reached: at some earlier moment every slot was
      taken. */
  lemma {:induction false} SeenWasTrue(max: Option<nat>, r: Run, i: nat, w: nat)
    requires IsRun(max, r) && i <= |r.steps| && w < |r.states[i].workers| && r.states[i].workers[w].Loaded?
    ensures exists j :: 0 <= j <= i && r.states[j].counter == r.states[i].workers[w].seen
  {
    if i > 0 {
      RunKeepsInv(max, r, i - 1);
      var s, step := r.states[i - 1], r.steps[i - 1];
      assert Next(max, s, step, r.states[i]);
      hide Inv;
      if step.Push? || step.w != w || !(step.Load? || step.ExchangeFails?) {
        SeenWasTrue(max, r, i - 1, w);
      } else {
        assert r.states[i - 1].counter == r.states[i].workers[w].seen;
      }
    }
  }

  lemma StoppedOnlyAtCap(max: Option<nat>, r: Run, i: nat)
    requires IsRun(max, r) && i <= |r.steps| && r.states[i].stopped
    ensures max.Some? && exists j :: 0 <= j <= i && r.states[j].counter == max.value
    decreases i
  {
    hide Inv;
    if i > 0 {
      var s, step := r.states[i - 1], r.steps[i - 1];
      assert Next(max, s, step, r.states[i]);
      if step.GiveUp? {
        SeenWasTrue(max, r, i - 1, step.w);
        var j :| 0 <= j <= i - 1 && r.states[j].counter == s.workers[step.w].seen;
        PagesWithinCap(max, r, j);
      } else {
        StoppedOnlyAtCap(max, r, i - 1);
      }
    }
  }

  /** No fetch fails between the moments `j` and `i`. */
  predicate NoFailure(r: Run, j: nat, i: nat)
    requires j <= i <= |r.steps|
  {
    forall k | j <= k < i :: !r.steps[k].FetchFails?
  }

  /** Some moment found every slot taken, and no fetch has failed since. */
  ghost predicate FullSince(max: nat, r: Run, i: nat)
    requires |r.states| == |r.steps| + 1 && i <= |r.steps|
  {
    exists j :: 0 <= j <= i && r.states[j].counter == max && NoFailure(r, j, i)
  }

  /** Only a failing fetch frees a slot. */
  lemma {:induction false} StaysFull(max: nat, r: Run, j: nat, i: nat)
    requires IsRun(Some(max), r) && j <= i <= |r.steps| && r.states[j].counter == max && NoFailure(r, j, i)
    ensures r.states[i].counter == max
  {
    if j < i {
      StaysFull(max, r, j, i - 1);
      assert Next(Some(max), r.states[i - 1], r.steps[i - 1], r.states[i]);
      PagesWithinCap(Some(max), r, i);
    }
  }

  /** What a stop is worth.  With no fetch in flight the crawl has stored exactly `max` pages
      if and only if no fetch failed after some moment that found every slot taken; the slot
      that a later failure frees may stay unused. */
  lemma FullIffNoLateFailure(max: nat, r: Run, i: nat)
    requires IsRun(Some(max), r) && i <= |r.steps| && InFlight(r.states[i].workers) == 0
    ensures |r.states[i].pages| == max <==> FullSince(max, r, i)
  {
    PagesWithinCap(Some(max), r, i);
    hide IsRun;
    if |r.states[i].pages| == max {
      assert NoFailure(r, i, i);
    } else if j :| 0 <= j <= i && r.states[j].counter == max && NoFailure(r, j, i) {
      StaysFull(max, r, j, i);
    }
  }

  /** So a stopped crawl in which no fetch failed, and none is in flight, has stored exactly
      as many pages as it may. */
  lemma StoppedIsFullWithoutFailures(max: Option<nat>, r: Run, i: nat)
    requires IsRun(max, r) && i <= |r.steps| && r.states[i].stopped
    requires InFlight(r.states[i].workers) == 0 && NoFailure(r, 0, i)
    ensures max.Some? && |r.states[i].pages| == max.value
  {
    StoppedOnlyAtCap(max, r, i);
    hide IsRun;
    var j :| 0 <= j <= i && r.states[j].counter == max.value;
    assert NoFailure(r, j, i);
    FullIffNoLateFailure(max.value, r, i);
  }

  /** Two workers, one slot, three items: the second worker reads the full counter, then the
      first one's fetch fails. */
  function Scene(i: nat): State {
    if i == 0 then State([Idle, Idle], 0, [], {0, 1, 2}, {}, multiset{}, false)
    else if i == 1 then State([Popped(0), Idle], 0, [], {1, 2}, {0}, multiset{}, false)
    else if i == 2 then State([Loaded(0, 0), Idle], 0, [], {1, 2}, {0}, multiset{}, false)
    else if i == 3 then State([Fetching(0), Idle], 1, [], {1, 2}, {0}, multiset{}, false)
    else if i == 4 then State([Fetching(0), Popped(1)], 1, [], {2}, {0, 1}, multiset{}, false)
    else if i == 5 then State([Fetching(0), Loaded(1, 1)], 1, [], {2}, {0, 1}, multiset{}, false)
    else if i == 6 then State([Settled(0), Loaded(1, 1)], 0, [], {2}, {0, 1}, multiset{}, false)
    else if i == 7 then State([Idle, Loaded(1, 1)], 0, [], {2}, {0, 1}, multiset{0}, false)
    else State([Idle, Finished], 0, [], {2}, {0, 1}, multiset{0, 1}, true)
  }

  function Move(i: nat): Step {
    if i == 0 then Pop(0, 0)
    else if i == 1 then Load(0)
    else if i == 2 then Exchange(0)
    else if i == 3 then Pop(1, 1)
    else if i == 4 then Load(1)
    else if i == 5 then FetchFails(0)
    else if i == 6 then Complete(0)
    else GiveUp(1)
  }

  /** The step changed one worker as it should, and the rest of the state likewise. */
  lemma SameState(s: State, s': State)
    requires s.workers == s'.workers && s.pending == s'.pending && s.popped == s'.popped && s.completed == s'.completed
    requires s.counter == s'.counter && s.pages == s'.pages && s.stopped == s'.stopped
    ensures s == s'
  {
  }

  lemma SceneMoves(i: nat)
    requires i < 8
    ensures Next(Some(1), Scene(i), Move(i), Scene(i + 1))
  {
    if i < 4 { EarlyMoves(i); } else { LateMoves(i); }
  }

  lemma EarlyMoves(i: nat)
    requires i < 4
    ensures Next(Some(1), Scene(i), Move(i), Scene(i + 1))
  {
    if i == 0 { SameState(After(Some(1), Scene(0), Move(0)), Scene(1)); }
    else if i == 1 { SameState(After(Some(1), Scene(1), Move(1)), Scene(2)); }
    else if i == 2 { SameState(After(Some(1), Scene(2), Move(2)), Scene(3)); }
    else { SameState(After(Some(1), Scene(3), Move(3)), Scene(4)); }
  }

  lemma LateMoves(i: nat)
    requires 4 <= i < 8
    ensures Next(Some(1), Scene(i), Move(i), Scene(i + 1))
  {
    if i == 4 { SameState(After(Some(1), Scene(4), Move(4)), Scene(5)); }
    else if i == 5 { SameState(After(Some(1), Scene(5), Move(5)), Scene(6)); }
    else if i == 6 { SameState(After(Some(1), Scene(6), Move(6)), Scene(7)); }
    else { SameState(After(Some(1), Scene(7), Move(7)), Scene(8)); }
  }

  /** The cap is an upper bound and no more: with one slot, a fetch that fails after another
      worker has read the full counter leaves the crawl stopped without any page. */
  lemma StoppedWithoutPages() returns (r: Run)
    ensures IsRun(Some(1), r)
    ensures !FullSince(1, r, |r.steps|)
    ensures var last := r.states[|r.steps|];
      last.stopped && last.pages == [] && last.counter == 0 && last.pending != {}
        && forall w | 0 <= w < |last.workers| :: !Holds(last.workers[w])
  {
    r := Run(seq(8, i requires 0 <= i => Move(i)), seq(9, i requires 0 <= i => Scene(i)));
    assert 2 in Scene(8).pending;
    hide Next, Move;
    forall i | 0 <= i < |r.steps|
      ensures Next(Some(1), r.states[i], r.steps[i], r.states[i + 1])
    {
      SceneMoves(i);
    }
    IdleHoldNothing(r.states[8].workers);
    FullIffNoLateFailure(1, r, 8);
  }
}
