/** What the shutdown protocol of crates/context/src/lib.rs does not promise, and exactly when: a
    context that outlives a `shutdown`, and a wake-up that is lost. */
module ShutdownLimits {
  import opened ContextShutdown
  import opened Tally

  /** Runs one behind the other. */
  lemma {:induction false} Compose(s: State, a: seq<Step>, b: seq<Step>)
    requires Runs(s, a) && Runs(Final(s, a), b)
    ensures Runs(s, a + b) && Final(s, a + b) == Final(Final(s, a), b)
    decreases |a|
  {
    hide Enabled, Apply;
    if a == [] {
      assert a + b == b;
    } else {
      assert (a + b)[0] == a[0] && (a + b)[1..] == a[1..] + b;
      Compose(Apply(s, a[0]), a[1..], b);
    }
  }

  /** Behind `more`, the context that was made first is alive and a task of the kind has returned. */
  ghost predicate Outlives(s: State, more: seq<Step>, kind: Kind) {
    && Runs(s, [Mint] + more)
    && var e := Final(s, [Mint] + more);
       && |s.trackers| < |e.trackers| && e.trackers[|s.trackers|].Live?
       && exists w :: 0 <= w < |e.waiters| && e.waiters[w].Returned? && IsOf(e.waiters[w], kind)
  }

  /** A tracker that is not alive does not come alive again. */
  lemma DeadStays(s: State, step: Step, t: nat)
    requires Enabled(s, step) && t < |s.trackers|
    ensures t < |Apply(s, step).trackers|
    ensures !s.trackers[t].Live? ==> !Apply(s, step).trackers[t].Live?
  {
  }

  lemma {:induction false} DeadStaysAlways(s: State, steps: seq<Step>, t: nat)
    requires Runs(s, steps) && t < |s.trackers|
    ensures t < |Final(s, steps).trackers|
    ensures !s.trackers[t].Live? ==> !Final(s, steps).trackers[t].Live?
    decreases |steps|
  {
    hide Enabled, Apply;
    if steps != [] {
      DeadStays(s, steps[0], t);
      DeadStaysAlways(Apply(s, steps[0]), steps[1..], t);
    }
  }

  lemma LiveCounts(s: State, t: nat)
    requires Inv(s) && t < |s.trackers| && s.trackers[t].Live?
    ensures s.count >= 1
  {
    TotalOfZeros(Alive, s.trackers);
    assert Alive(s.trackers[t]) == 1;
  }

  /** As long as a context is alive that was there before it was said that the contexts are gone, it
      is not said. */
  lemma {:induction false} LiveKeepsSilence(s: State, steps: seq<Step>, t: nat, kind: Kind)
    requires Inv(s) && Runs(s, steps) && t < |s.trackers| && !SaysGone(s, kind)
    ensures t < |Final(s, steps).trackers|
    ensures Final(s, steps).trackers[t].Live? ==> !SaysGone(Final(s, steps), kind)
    decreases |steps|
  {
    hide Inv, Enabled, Apply, SaysGone;
    DeadStaysAlways(s, steps, t);
    if steps != [] && Final(s, steps).trackers[t].Live? {
      var s' := Apply(s, steps[0]);
      StepKeeps(s, steps[0]);
      DeadStays(s, steps[0], t);
      DeadStaysAlways(s', steps[1..], t);
      LiveCounts(s', t);
      if SaysGone(s', kind) {
        NewsIsTrue(s, steps[0], kind);
      }
      LiveKeepsSilence(s', steps[1..], t, kind);
    }
  }

  /** A `shutdown` that is called while a context is alive parks. */
  lemma ShutdownParks(s: State) returns (steps: seq<Step>)
    requires s.count >= 1
    ensures Runs(s, steps)
    ensures Final(s, steps) ==
            s.(stopped := true, cancelled := true, waiters := s.waiters + [Parked(true, true, false)])
  {
    var w := |s.waiters|;
    var a := ShutdownArms(s);
    var e := Final(s, a);
    Then(s, a, LoadCount(w));
    assert e.waiters[w := Parked(true, true, false)] == s.waiters + [Parked(true, true, false)];
    steps := a + [LoadCount(w)];
  }

  lemma ShutdownArms(s: State) returns (steps: seq<Step>)
    ensures Runs(s, steps)
    ensures Final(s, steps) ==
            s.(stopped := true, cancelled := true, waiters := s.waiters + [Armed(true, true, false)])
  {
    var w := |s.waiters|;
    var a := ShutdownStops(s);
    Then(s, a, SeeToken(w));
    assert Final(s, a).waiters[w := Arming(true)] == s.waiters + [Arming(true)];
    steps := a + [SeeToken(w)];
    var e := Final(s, steps);
    Then(s, steps, Arm(w));
    assert e.waiters[w := Armed(true, true, false)] == s.waiters + [Armed(true, true, false)];
    steps := steps + [Arm(w)];
  }

  lemma ShutdownStops(s: State) returns (steps: seq<Step>)
    ensures Runs(s, steps)
    ensures Final(s, steps) ==
            s.(stopped := true, cancelled := true, waiters := s.waiters + [AwaitingToken(true)])
  {
    var w := |s.waiters|;
    Then(s, [], CallShutdown);
    steps := [] + [CallShutdown];
    Then(s, steps, Stop(w));
    assert Final(s, steps).waiters[w := Cancelling(true)] == s.waiters + [Cancelling(true)];
    steps := steps + [Stop(w)];
    var e := Final(s, steps);
    Then(s, steps, CancelToken(w));
    assert e.waiters[w := AwaitingToken(true)] == s.waiters + [AwaitingToken(true)];
    steps := steps + [CancelToken(w)];
  }

  /** A pending drop runs to its end and releases a parked `shutdown`. */
  lemma DropReleases(s: State, t: nat, w: nat) returns (steps: seq<Step>)
    requires s.stopped && WillNotify(s, t)
    requires w < |s.waiters| && s.waiters[w].Parked? && s.waiters[w].shutdown && s.waiters[w].safe
    ensures Runs(s, steps)
    ensures var e := Final(s, steps);
            && w < |e.waiters| && e.waiters[w] == Returned(true, true)
            && |e.trackers| == |s.trackers|
            && forall i :: 0 <= i < |s.trackers| && i != t ==> e.trackers[i] == s.trackers[i]
  {
    steps := [];
    if s.trackers[t].Subtracted? {
      Then(s, steps, CheckStopped(t));
      steps := [] + [CheckStopped(t)];
    }
    var e := Final(s, steps);
    assert e.trackers[t].Notifying? && e.waiters == s.waiters;
    Then(s, steps, Notify(t));
    steps := steps + [Notify(t)];
    e := Final(s, steps);
    assert e.waiters[w] == Parked(true, s.waiters[w].safe, true);
    Then(s, steps, WakeUp(w));
    steps := steps + [WakeUp(w)];
  }

  /** A task that was told returns, whatever is alive. */
  lemma ToldReturns(s: State, w: nat, kind: Kind) returns (steps: seq<Step>)
    requires w < |s.waiters| && Told(s.waiters[w], kind)
    ensures Runs(s, steps)
    ensures var e := Final(s, steps);
            && e.trackers == s.trackers && w < |e.waiters| && e.waiters[w].Returned? && IsOf(e.waiters[w], kind)
  {
    steps := [];
    if s.waiters[w].Armed? {
      Then(s, steps, LoadCount(w));
      steps := [] + [LoadCount(w)];
    }
    var e := Final(s, steps);
    if e.waiters[w].Parked? {
      Then(s, steps, WakeUp(w));
      steps := steps + [WakeUp(w)];
    }
  }

  /** A context that is made when it has been said that the contexts are gone may outlive a
      `shutdown`, which need not even have been called yet. */
  lemma LateContextOutlives(s: State, kind: Kind) returns (more: seq<Step>)
    requires SaysGone(s, kind)
    ensures Outlives(s, more, kind)
  {
    hide Runs, Final;
    var n := |s.trackers|;
    MintFirst(s);
    var s1 := Apply(s, Mint);
    if Pending(s) {
      var t :| WillNotify(s, t);
      assert WillNotify(s1, t);
      var a := ShutdownParks(s1);
      var b := DropReleases(Final(s1, a), t, |s1.waiters|);
      Compose(s1, a, b);
      more := a + b;
    } else {
      var w :| 0 <= w < |s.waiters| && Told(s.waiters[w], kind);
      more := ToldReturns(s1, w, kind);
    }
    Compose(s, [Mint], more);
    assert Final(s, [Mint] + more) == Final(s1, more);
  }

  lemma MintFirst(s: State)
    ensures Runs(s, [Mint]) && Final(s, [Mint]) == Apply(s, Mint)
  {
    assert [Mint][1..] == [];
  }

  /** Exactly when a context made from the handler may be alive although a `shutdown`, or any other wait
      behind the stop, has returned: in every reachable state, if and only if a drop that took the count
      to zero is still to notify, or some task of the kind was told or has returned. */
  lemma OutlivesIffLate(steps: seq<Step>, kind: Kind)
    requires Runs(INITIAL, steps)
    ensures var s := Final(INITIAL, steps);
            SaysGone(s, kind) <==> exists more :: Outlives(s, more, kind)
  {
    hide Runs, Final, SaysGone, Inv, Outlives;
    RunInv(steps);
    var s := Final(INITIAL, steps);
    if SaysGone(s, kind) {
      var more := LateContextOutlives(s, kind);
    } else {
      forall more | Outlives(s, more, kind) ensures false {
        TimelyContextDoesNot(s, more, kind);
      }
    }
  }

  lemma TimelyContextDoesNot(s: State, more: seq<Step>, kind: Kind)
    requires Inv(s) && !SaysGone(s, kind)
    ensures !Outlives(s, more, kind)
  {
    hide Inv, Total;
    var all := [Mint] + more;
    if Runs(s, all) {
      assert all[0] == Mint && all[1..] == more;
      var n, s1 := |s.trackers|, Apply(s, Mint);
      StepKeeps(s, Mint);
      LiveCounts(s1, n);
      assert !SaysGone(s1, kind) by {
        if SaysGone(s1, kind) {
          NewsIsTrue(s, Mint, kind);
        }
      }
      LiveKeepsSilence(s1, more, n, kind);
    }
  }

  /** It happens: a context made between the `fetch_sub` of the last drop and its load of `stopped`. */
  lemma ShutdownReturnsEarly() returns (before: seq<Step>, more: seq<Step>)
    ensures Runs(INITIAL, before) && before == [Mint, Subtract(0)]
    ensures Outlives(Final(INITIAL, before), more, Shutdowns)
  {
    before := [];
    Then(INITIAL, before, Mint);
    before := before + [Mint];
    Then(INITIAL, before, Subtract(0));
    before := before + [Subtract(0)];
    assert WillNotify(Final(INITIAL, before), 0);
    more := LateContextOutlives(Final(INITIAL, before), Shutdowns);
  }

  /** A waiter that nobody is left to notify. */
  ghost predicate Lost(s: State, w: nat) {
    w < |s.waiters| && s.waiters[w].Parked? && !s.waiters[w].notified && s.count == 0 && !Pending(s)
  }

  ghost predicate Loses(s: State, more: seq<Step>, w: nat) {
    Runs(s, more) && Lost(Final(s, more), w)
  }

  /** Once the handler has been stopped, no step loses the wake-up of any waiter. */
  lemma StoppedLosesNothing(s: State, step: Step, w: nat)
    requires Inv(s) && Enabled(s, step) && s.stopped && w < |s.waiters| && !Lost(s, w)
    ensures Apply(s, step).stopped && w < |Apply(s, step).waiters| && !Lost(Apply(s, step), w)
  {
    hide Total;
    if Pending(s) {
      PendingLasts(s, step);
    }
    if step.Subtract? && s.count == 1 {
      assert WillNotify(Apply(s, step), step.tracker);
    }
  }

  lemma PendingLasts(s: State, step: Step)
    requires Enabled(s, step) && s.stopped && Pending(s)
    ensures Pending(Apply(s, step)) || step.Notify?
  {
    var i :| WillNotify(s, i);
    if !step.Notify? {
      assert WillNotify(Apply(s, step), i);
    }
  }

  lemma {:induction false} StoppedLosesNothingEver(s: State, steps: seq<Step>, w: nat)
    requires Inv(s) && Runs(s, steps) && s.stopped && w < |s.waiters| && !Lost(s, w)
    ensures !Lost(Final(s, steps), w)
    decreases |steps|
  {
    hide Inv, Enabled, Apply, Lost;
    if steps != [] {
      StepKeeps(s, steps[0]);
      StoppedLosesNothing(s, steps[0], w);
      StoppedLosesNothingEver(Apply(s, steps[0]), steps[1..], w);
    }
  }

  /** The steps that a tracker has left. */
  function Unfinished(t: Tracker): nat {
    match t
    case Live => 2
    case Subtracted(_) => 1
    case Notifying => 1
    case Gone => 0
  }

  /** Without a stop, all contexts may go without anybody being notified. */
  lemma {:induction false} DropsGoSilently(s: State, w: nat) returns (more: seq<Step>)
    requires Inv(s) && !s.stopped
    requires w < |s.waiters| && s.waiters[w].Parked? && !s.waiters[w].notified
    ensures Runs(s, more) && Lost(Final(s, more), w)
    decreases Total(Unfinished, s.trackers)
  {
    hide Total, Inv;
    TotalOfZeros(Unfinished, s.trackers);
    if Total(Unfinished, s.trackers) == 0 {
      AllGone(s);
      more := [];
    } else {
      var t :| 0 <= t < |s.trackers| && Unfinished(s.trackers[t]) != 0;
      var step := NextOf(s, t);
      StepKeeps(s, step);
      TotalUpdate(Unfinished, s.trackers, t, Apply(s, step).trackers[t]);
      var rest := DropsGoSilently(Apply(s, step), w);
      more := [step] + rest;
      assert more[0] == step && more[1..] == rest;
    }
  }

  lemma AllGone(s: State)
    requires Inv(s) && forall t :: 0 <= t < |s.trackers| ==> Unfinished(s.trackers[t]) == 0
    ensures s.count == 0 && !Pending(s)
  {
    TotalOfZeros(Alive, s.trackers);
    assert forall t :: 0 <= t < |s.trackers| ==> Unfinished(s.trackers[t]) == 0 && s.trackers[t].Gone?;
  }

  /** The next step of a tracker whose drop does not find the handler stopped. */
  lemma NextOf(s: State, t: nat) returns (step: Step)
    requires Inv(s) && !s.stopped && t < |s.trackers| && Unfinished(s.trackers[t]) != 0
    ensures Enabled(s, step) && !Apply(s, step).stopped && Apply(s, step).waiters == s.waiters
    ensures t < |Apply(s, step).trackers| && Apply(s, step).trackers == s.trackers[t := Apply(s, step).trackers[t]]
    ensures Unfinished(Apply(s, step).trackers[t]) < Unfinished(s.trackers[t])
  {
    if s.trackers[t].Live? {
      LiveCounts(s, t);
      step := Subtract(t);
    } else {
      step := CheckStopped(t);
    }
  }

  /** Exactly when the wake-up of a parked waiter that was not notified can still be lost: in every
      reachable state, if and only if the handler has not been stopped, or it is lost already. */
  lemma CanBeLostIffNotStopped(steps: seq<Step>, w: nat)
    requires Runs(INITIAL, steps)
    requires var s := Final(INITIAL, steps);
             w < |s.waiters| && s.waiters[w].Parked? && !s.waiters[w].notified
    ensures var s := Final(INITIAL, steps);
            (exists more :: Loses(s, more, w)) <==> !s.stopped || Lost(s, w)
  {
    hide Inv, Lost, Runs, Final;
    RunInv(steps);
    var s := Final(INITIAL, steps);
    if !s.stopped {
      var more := DropsGoSilently(s, w);
      assert Loses(s, more, w);
    } else if Lost(s, w) {
      LostAlready(s, w);
    } else {
      forall more | Loses(s, more, w) ensures false {
        StoppedLosesNothingEver(s, more, w);
      }
    }
  }

  lemma LostAlready(s: State, w: nat)
    requires Lost(s, w)
    ensures Loses(s, [], w)
  {
  }

  /** Without `stop` the wake-up can be lost: `done` on a handler whose token was cancelled through its
      parent parks, the last context goes, and nobody is left to notify. */
  lemma WakeUpLostWithoutStop() returns (steps: seq<Step>)
    ensures Runs(INITIAL, steps)
    ensures var s := Final(INITIAL, steps);
            s.waiters == [Parked(false, false, false)] && s.trackers == [Gone] && Lost(s, 0)
  {
    steps := [];
    Then(INITIAL, steps, Mint);
    steps := steps + [Mint];
    Then(INITIAL, steps, ParentCancel);
    steps := steps + [ParentCancel];
    Then(INITIAL, steps, CallDone);
    steps := steps + [CallDone];
    Then(INITIAL, steps, SeeToken(0));
    steps := steps + [SeeToken(0)];
    Then(INITIAL, steps, Arm(0));
    steps := steps + [Arm(0)];
    Then(INITIAL, steps, LoadCount(0));
    steps := steps + [LoadCount(0)];
    Then(INITIAL, steps, Subtract(0));
    steps := steps + [Subtract(0)];
    Then(INITIAL, steps, CheckStopped(0));
    steps := steps + [CheckStopped(0)];
  }
}
