/** Graceful shutdown of a context handler, crates/context/src/lib.rs, as interleaved atomic steps.
    Every load, store, read-modify-write and notification is one step; the steps of all tasks are
    totally ordered, whereas the code uses relaxed atomics. */
module ContextShutdown {
  import opened Tally

  /** A `ContextTracker`: alive; behind the `fetch_sub` of its drop, which returned `prev`; behind
      the load that saw `stopped`, about to notify; gone. */
  datatype Tracker = Live | Subtracted(prev: nat) | Notifying | Gone

  /** A task in `cancel`, `shutdown`, `done` or `wait`. `shutdown` says that the task called
      `Handler::shutdown`; `safe` that `stopped` was set when its `Notified` was created, from which
      moment on it receives notifications. A `cancel` ends as `Cancelled`, a wait as `Returned`. */
  datatype Waiter =
    | Stopping(shutdown: bool)
    | Cancelling(shutdown: bool)
    | AwaitingToken(shutdown: bool)
    | Arming(shutdown: bool)
    | Armed(shutdown: bool, safe: bool, notified: bool)
    | Parked(shutdown: bool, safe: bool, notified: bool)
    | Cancelled(shutdown: bool)
    | Returned(shutdown: bool, safe: bool)

  datatype State = State(
    stopped: bool,
    cancelled: bool,
    count: nat,
    trackers: seq<Tracker>,
    waiters: seq<Waiter>)

  datatype Step =
    | Mint
    | Clone(tracker: nat)
    | Subtract(tracker: nat)
    | CheckStopped(tracker: nat)
    | Notify(tracker: nat)
    | CallCancel
    | CallShutdown
    | CallDone
    | CallWait
    | ParentCancel
    | Stop(waiter: nat)
    | CancelToken(waiter: nat)
    | SeeToken(waiter: nat)
    | Arm(waiter: nat)
    | LoadCount(waiter: nat)
    | WakeUp(waiter: nat)

  const INITIAL := State(false, false, 0, [], [])

  predicate Enabled(s: State, step: Step) {
    match step
    case Clone(t) => t < |s.trackers| && s.trackers[t].Live?
    case Subtract(t) => t < |s.trackers| && s.trackers[t].Live? && s.count >= 1
    case CheckStopped(t) => t < |s.trackers| && s.trackers[t].Subtracted?
    case Notify(t) => t < |s.trackers| && s.trackers[t].Notifying?
    case Stop(w) => w < |s.waiters| && s.waiters[w].Stopping?
    case CancelToken(w) => w < |s.waiters| && s.waiters[w].Cancelling?
    case SeeToken(w) => w < |s.waiters| && s.waiters[w].AwaitingToken? && s.cancelled
    case Arm(w) => w < |s.waiters| && s.waiters[w].Arming?
    case LoadCount(w) => w < |s.waiters| && s.waiters[w].Armed?
    case WakeUp(w) => w < |s.waiters| && s.waiters[w].Parked? && s.waiters[w].notified
    case _ => true
  }

  function Hear(w: Waiter): Waiter {
    if w.Armed? || w.Parked? then w.(notified := true) else w
  }

  function Enter(s: State, w: Waiter): State {
    s.(waiters := s.waiters + [w])
  }

  function Move(s: State, w: nat, to: Waiter): State
    requires w < |s.waiters|
  {
    s.(waiters := s.waiters[w := to])
  }

  /** A drop that took the count to zero and has not run its notification yet. */
  predicate WillNotify(s: State, t: nat) {
    t < |s.trackers| && (s.trackers[t].Notifying? || s.trackers[t] == Subtracted(1))
  }

  ghost predicate Pending(s: State) {
    exists t :: WillNotify(s, t)
  }

  /** The tasks that a statement is about: those in `shutdown`, or all whose `Notified` was created when
      the handler had been stopped, among them a `done` or `wait` behind `cancel`. */
  datatype Kind = Shutdowns | SafeWaits

  predicate IsOf(w: Waiter, kind: Kind)
    requires w.Armed? || w.Parked? || w.Returned?
  {
    match kind
    case Shutdowns => w.shutdown
    case SafeWaits => w.safe
  }

  /** A task of that kind that was notified, or has returned. */
  predicate Told(w: Waiter, kind: Kind) {
    (((w.Armed? || w.Parked?) && w.notified) || w.Returned?) && IsOf(w, kind)
  }

  /** Whatever says that the contexts are gone: a drop that will notify, or a task that was told. */
  ghost predicate SaysGone(s: State, kind: Kind) {
    Pending(s) || exists w :: 0 <= w < |s.waiters| && Told(s.waiters[w], kind)
  }

  function Apply(s: State, step: Step): State
    requires Enabled(s, step)
  {
    match step
    case Mint => s.(count := s.count + 1, trackers := s.trackers + [Live])
    case Clone(_) => s.(count := s.count + 1, trackers := s.trackers + [Live])
    case Subtract(t) => s.(count := s.count - 1, trackers := s.trackers[t := Subtracted(s.count)])
    case CheckStopped(t) =>
      s.(trackers := s.trackers[t := if s.trackers[t].prev == 1 && s.stopped then Notifying else Gone])
    case Notify(t) => s.(trackers := s.trackers[t := Gone], waiters := Map(Hear, s.waiters))
    case CallCancel => Enter(s, Stopping(false))
    case CallShutdown => Enter(s, Stopping(true))
    case CallDone => Enter(s, AwaitingToken(false))
    case CallWait => Enter(s, Arming(false))
    case ParentCancel => s.(cancelled := true)
    case Stop(w) => Move(s, w, Cancelling(s.waiters[w].shutdown)).(stopped := true)
    case CancelToken(w) =>
      var shutdown := s.waiters[w].shutdown;
      Move(s, w, if shutdown then AwaitingToken(true) else Cancelled(false)).(cancelled := true)
    case SeeToken(w) => Move(s, w, Arming(s.waiters[w].shutdown))
    case Arm(w) => Move(s, w, Armed(s.waiters[w].shutdown, s.stopped, false))
    case LoadCount(w) =>
      var a := s.waiters[w];
      Move(s, w, if s.count == 0 then Returned(a.shutdown, a.safe) else Parked(a.shutdown, a.safe, a.notified))
    case WakeUp(w) => Move(s, w, Returned(s.waiters[w].shutdown, s.waiters[w].safe))
  }

  ghost predicate Runs(s: State, steps: seq<Step>)
    decreases |steps|
  {
    steps == [] || (Enabled(s, steps[0]) && Runs(Apply(s, steps[0]), steps[1..]))
  }

  ghost function Final(s: State, steps: seq<Step>): State
    requires Runs(s, steps)
    decreases |steps|
  {
    if steps == [] then s else Final(Apply(s, steps[0]), steps[1..])
  }

  function Alive(t: Tracker): nat {
    if t.Live? then 1 else 0
  }

  ghost predicate WaiterOk(s: State, w: Waiter) {
    && (w.Cancelling? ==> s.stopped)
    && (w.shutdown && !w.Stopping? ==> s.stopped)
    && (w.shutdown && w.AwaitingToken? ==> s.cancelled)
    && (w.Cancelled? ==> !w.shutdown)
    && ((w.Armed? || w.Parked? || w.Returned?) && w.safe ==> s.stopped)
    && ((w.Armed? || w.Parked? || w.Returned?) && w.shutdown ==> w.safe)
    && (w.Parked? && w.safe && !w.notified ==> s.count > 0 || Pending(s))
  }

  ghost predicate Inv(s: State) {
    && s.count == Total(Alive, s.trackers)
    && (forall t :: 0 <= t < |s.trackers| && s.trackers[t].Notifying? ==> s.stopped)
    && (forall w :: 0 <= w < |s.waiters| ==> WaiterOk(s, s.waiters[w]))
  }

  lemma AddTracker(s: State)
    requires s.count == Total(Alive, s.trackers)
    ensures s.count + 1 == Total(Alive, s.trackers + [Live])
  {
    TotalConcat(Alive, s.trackers, [Live]);
    var m := Map(Alive, [Live]);
    assert m == [1];
    assert Sum(m) == m[0] + Sum(m[1..]);
  }

  ghost predicate OthersStay(s: State, s': State, t: nat) {
    forall i :: 0 <= i < |s.trackers| && i != t ==> i < |s'.trackers| && s'.trackers[i] == s.trackers[i]
  }

  /** A drop stays pending unless its own tracker moves. */
  lemma PendingStays(s: State, s': State, t: nat)
    requires OthersStay(s, s', t)
    requires Pending(s) && !WillNotify(s, t)
    ensures Pending(s')
  {
    var i :| WillNotify(s, i);
    assert WillNotify(s', i);
  }

  lemma StepKeeps(s: State, step: Step)
    requires Inv(s) && Enabled(s, step)
    ensures Inv(Apply(s, step))
  {
    hide Total;
    var s' := Apply(s, step);
    match step
    case Mint => AddTracker(s); WaitersKeep(s, s', |s.trackers|);
    case Clone(_) => AddTracker(s); WaitersKeep(s, s', |s.trackers|);
    case Subtract(t) =>
      TotalUpdate(Alive, s.trackers, t, Subtracted(s.count));
      if s.count == 1 {
        assert WillNotify(s', t);
      }
      WaitersKeep(s, s', t);
    case CheckStopped(t) =>
      TotalUpdate(Alive, s.trackers, t, s'.trackers[t]);
      if WillNotify(s, t) && s.stopped {
        assert WillNotify(s', t);
      }
      WaitersKeep(s, s', t);
    case Notify(t) => TotalUpdate(Alive, s.trackers, t, Gone);
    case _ => OtherKeeps(s, step);
  }

  /** What a move of tracker `t` has to leave in place for the waiters. */
  lemma WaitersKeep(s: State, s': State, t: nat)
    requires Inv(s) && s'.waiters == s.waiters && s'.stopped == s.stopped && s'.cancelled == s.cancelled
    requires OthersStay(s, s', t)
    requires s.count > 0 ==> s'.count > 0 || Pending(s')
    requires WillNotify(s, t) ==> Pending(s') || !s.stopped
    ensures forall w :: 0 <= w < |s'.waiters| ==> WaiterOk(s', s'.waiters[w])
  {
    hide Total;
    forall w | 0 <= w < |s'.waiters|
      ensures WaiterOk(s', s'.waiters[w])
    {
      assert WaiterOk(s, s.waiters[w]);
      if Pending(s) && !WillNotify(s, t) {
        PendingStays(s, s', t);
      }
    }
  }

  lemma OtherKeeps(s: State, step: Step)
    requires Inv(s) && Enabled(s, step)
    requires !step.Mint? && !step.Clone? && !step.Subtract? && !step.CheckStopped? && !step.Notify?
    ensures Inv(Apply(s, step))
  {
    hide Total;
    var s' := Apply(s, step);
    assert s'.trackers == s.trackers && s'.count == s.count;
    assert Pending(s) ==> Pending(s') by {
      if Pending(s) {
        var i :| WillNotify(s, i);
        assert WillNotify(s', i);
      }
    }
    forall w | 0 <= w < |s'.waiters|
      ensures WaiterOk(s', s'.waiters[w])
    {
      if w < |s.waiters| {
        assert WaiterOk(s, s.waiters[w]);
      }
    }
  }

  lemma {:induction false} InvFrom(s: State, steps: seq<Step>)
    requires Inv(s) && Runs(s, steps)
    ensures Inv(Final(s, steps))
    decreases |steps|
  {
    hide Inv, Apply;
    if steps != [] {
      StepKeeps(s, steps[0]);
      InvFrom(Apply(s, steps[0]), steps[1..]);
    }
  }

  lemma RunInv(steps: seq<Step>)
    requires Runs(INITIAL, steps)
    ensures Inv(Final(INITIAL, steps))
  {
    TotalOfZeros(Alive, []);
    InvFrom(INITIAL, steps);
  }

  /** No lost wake-up, in every reachable state of every interleaving: the count is the number of live
      trackers, and a task that called `shutdown` and is parked without having been notified has
      somebody to wait for: a live context, or a drop that is about to notify it. The same holds for
      every task whose `Notified` was created after `stopped` had been set. */
  lemma NoLostWakeUp(steps: seq<Step>, w: nat)
    requires Runs(INITIAL, steps)
    ensures var s := Final(INITIAL, steps);
            && s.count == Total(Alive, s.trackers)
            && (w < |s.waiters| && s.waiters[w].Parked? && (s.waiters[w].shutdown || s.waiters[w].safe)
                && !s.waiters[w].notified ==>
                  exists t :: 0 <= t < |s.trackers| && (s.trackers[t].Live? || WillNotify(s, t)))
  {
    hide Total, Final, Runs;
    RunInv(steps);
    var s := Final(INITIAL, steps);
    TotalOfZeros(Alive, s.trackers);
    if w < |s.waiters| {
      assert WaiterOk(s, s.waiters[w]);
    }
  }

  /** The steps that a task in `shutdown` takes itself. */
  function OwnSteps(w: nat): seq<Step> {
    [Stop(w), CancelToken(w), SeeToken(w), Arm(w), LoadCount(w), WakeUp(w)]
  }

  /** So once every context was dropped and the drops have run to their end, nothing keeps a
      `shutdown` from returning: its next step is enabled, wherever it stands. The same holds for every
      other task whose `Notified` was created after the stop. */
  lemma ShutdownReturns(steps: seq<Step>, w: nat)
    requires Runs(INITIAL, steps)
    requires var s := Final(INITIAL, steps);
             && (forall t :: 0 <= t < |s.trackers| ==> s.trackers[t] == Gone)
             && w < |s.waiters| && !s.waiters[w].Returned?
             && (s.waiters[w].shutdown || ((s.waiters[w].Armed? || s.waiters[w].Parked?) && s.waiters[w].safe))
    ensures exists step :: step in OwnSteps(w) && Enabled(Final(INITIAL, steps), step)
  {
    hide Total, Final, Runs;
    NoLostWakeUp(steps, w);
    RunInv(steps);
    var s := Final(INITIAL, steps);
    assert WaiterOk(s, s.waiters[w]);
    var step := match s.waiters[w]
      case Stopping(_) => Stop(w)
      case Cancelling(_) => CancelToken(w)
      case AwaitingToken(_) => SeeToken(w)
      case Arming(_) => Arm(w)
      case Armed(_, _, _) => LoadCount(w)
      case _ => WakeUp(w);
    assert step in OwnSteps(w) && Enabled(s, step);
  }

  /** Why a task returns, in every state: its load found the count zero, or it was parked and had been
      notified; and it is notified by nothing but a drop that is at its notification, once its
      `Notified` exists. */
  lemma WhyWaitersReturn(s: State, step: Step, w: nat)
    requires Enabled(s, step) && w < |s.waiters|
    ensures w < |Apply(s, step).waiters|
    ensures var before, after := s.waiters[w], Apply(s, step).waiters[w];
            && (after.Returned? && !before.Returned? ==>
                  || (step == LoadCount(w) && before.Armed? && s.count == 0)
                  || (step == WakeUp(w) && before.Parked? && before.notified))
            && (after.Armed? && !before.Armed? ==> before.Arming? && after.safe == s.stopped && !after.notified)
            && (after.Parked? && !before.Parked? ==> before.Armed? && s.count > 0 && after.notified == before.notified)
            && ((after.Armed? || after.Parked?) && after.notified ==>
                  || ((before.Armed? || before.Parked?) && before.notified)
                  || (step.Notify? && s.trackers[step.tracker].Notifying?))
            && (after.Arming? && before.AwaitingToken? ==> s.cancelled)
            && (after.Returned? && before.Returned? ==> after == before)
  {
  }

  /** How many steps of its own a task has left at most. */
  function Rank(w: Waiter): nat {
    match w
    case Stopping(_) => 6
    case Cancelling(_) => 5
    case AwaitingToken(_) => 4
    case Arming(_) => 3
    case Armed(_, _, _) => 2
    case Parked(_, _, _) => 1
    case Cancelled(_) => 0
    case Returned(_, _) => 0
  }

  /** Those steps are at most six in a whole run, and no step of anybody else sets a task back. */
  lemma RankDecreases(s: State, step: Step, w: nat)
    requires Enabled(s, step) && w < |s.waiters|
    ensures w < |Apply(s, step).waiters|
    ensures step in OwnSteps(w) ==> Rank(Apply(s, step).waiters[w]) < Rank(s.waiters[w])
    ensures step !in OwnSteps(w) ==> Rank(Apply(s, step).waiters[w]) == Rank(s.waiters[w])
  {
  }

  /** The state behind a run that is built step by step. */
  lemma {:induction false} Then(s: State, steps: seq<Step>, step: Step)
    requires Runs(s, steps) && Enabled(Final(s, steps), step)
    ensures Runs(s, steps + [step]) && Final(s, steps + [step]) == Apply(Final(s, steps), step)
    decreases |steps|
  {
    var all := steps + [step];
    if steps == [] {
      assert all[1..] == [];
    } else {
      assert all[0] == steps[0] && all[1..] == steps[1..] + [step];
      Then(Apply(s, steps[0]), steps[1..], step);
    }
  }

  /** The count is zero when it is first said that the contexts are gone. */
  lemma NewsIsTrue(s: State, step: Step, kind: Kind)
    requires Inv(s) && Enabled(s, step) && SaysGone(Apply(s, step), kind)
    ensures SaysGone(s, kind) || Apply(s, step).count == 0
  {
    hide Total;
    var s' := Apply(s, step);
    if Pending(s') {
      var t :| WillNotify(s', t);
      assert WillNotify(s, t) || step == Subtract(t);
    } else {
      var w :| 0 <= w < |s'.waiters| && Told(s'.waiters[w], kind);
      assert step.Notify? ==> WillNotify(s, step.tracker);
      if w < |s.waiters| {
        WhyWaitersReturn(s, step, w);
      }
      assert (w < |s.waiters| && Told(s.waiters[w], kind)) || step.Notify? || (step == LoadCount(w) && s.count == 0);
    }
  }

  /** No context is made from the handler after it was said that the contexts are gone. */
  ghost predicate NoLateMint(s: State, steps: seq<Step>, kind: Kind)
    requires Runs(s, steps)
    decreases |steps|
  {
    steps != [] ==>
      (steps[0].Mint? ==> !SaysGone(s, kind)) && NoLateMint(Apply(s, steps[0]), steps[1..], kind)
  }

  ghost predicate Sealed(s: State, kind: Kind) {
    SaysGone(s, kind) ==> s.count == 0
  }

  lemma StepSealed(s: State, step: Step, kind: Kind)
    requires Inv(s) && Sealed(s, kind) && Enabled(s, step)
    requires step.Mint? ==> !SaysGone(s, kind)
    ensures Sealed(Apply(s, step), kind)
  {
    hide Total, SaysGone;
    var s' := Apply(s, step);
    if SaysGone(s', kind) {
      NewsIsTrue(s, step, kind);
      TotalOfZeros(Alive, s.trackers);
      assert s.count == 0 ==> forall t :: 0 <= t < |s.trackers| ==> Alive(s.trackers[t]) == 0;
    }
  }

  lemma {:induction false} RunSealed(s: State, steps: seq<Step>, kind: Kind)
    requires Inv(s) && Sealed(s, kind) && Runs(s, steps) && NoLateMint(s, steps, kind)
    ensures Inv(Final(s, steps)) && Sealed(Final(s, steps), kind)
    decreases |steps|
  {
    hide Inv, Sealed, SaysGone, Apply;
    if steps != [] {
      StepKeeps(s, steps[0]);
      StepSealed(s, steps[0], kind);
      RunSealed(Apply(s, steps[0]), steps[1..], kind);
    }
  }

  /** When a `shutdown`, or any other wait whose `Notified` was created after the stop, has returned, all
      contexts are gone, in every run in which no context was made from the handler after it had been
      said that they are. */
  lemma ShutdownWaitsForAll(steps: seq<Step>, w: nat, kind: Kind)
    requires Runs(INITIAL, steps) && NoLateMint(INITIAL, steps, kind)
    requires var s := Final(INITIAL, steps);
             w < |s.waiters| && s.waiters[w].Returned? && IsOf(s.waiters[w], kind)
    ensures var s := Final(INITIAL, steps);
            s.count == 0 && forall t :: 0 <= t < |s.trackers| ==> !s.trackers[t].Live?
  {
    hide Total, Final, Runs, NoLateMint;
    assert Inv(INITIAL) by {
      TotalOfZeros(Alive, []);
    }
    RunSealed(INITIAL, steps, kind);
    var s := Final(INITIAL, steps);
    assert Told(s.waiters[w], kind);
    TotalOfZeros(Alive, s.trackers);
    assert forall t :: 0 <= t < |s.trackers| ==> Alive(s.trackers[t]) == 0;
  }
}
