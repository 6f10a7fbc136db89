/** Progress of the batcher: bounded work, nobody waits in vain, every call can complete. */
module BatcherProgress {
  import opened Wrappers
  import opened BatchTimer
  import opened Batching
  import opened BatcherRuns
  import opened Tally

  /** The steps that are still to be taken by a task, on a channel, and by a call. */
  function TaskWork(phase: Phase): nat {
    match phase
    case Queued => 2
    case Executing => 1
    case Finished => 0
  }

  function ChannelWork<R>(channel: Channel<R>): nat {
    if channel.Waiting? then 1 else 0
  }

  function CallWork<Q, R>(call: Call<Q, R>): nat {
    if |call.results| < |call.requests| then |call.requests| - |call.results| else 0
  }

  function Work<Q, R>(s: State<Q, R>): nat {
    Total(TaskWork, s.phases) + Total(ChannelWork, s.channels) + Total(CallWork, s.calls)
    + if s.guarded.current.Some? then 3 else 0
  }

  /** The steps that neither add a call nor merely let time pass. */
  predicate Progress<Q, R>(s: State<Q, R>, step: Step<Q, R>) {
    !step.Submit? && !step.Advance? && (step.LoopTurn? ==> Due(s.timer, Created(s.guarded)))
  }

  lemma OneQueued()
    ensures Total(TaskWork, [Queued]) == 2
  {
    var m := Map(TaskWork, [Queued]);
    assert m == [2];
    assert Sum(m) == m[0] + Sum(m[1..]);
  }

  lemma ChannelWorkDrops<R>(channels: seq<Channel<R>>, k: nat, channel: Channel<R>)
    requires k < |channels| && channels[k].Waiting? && !channel.Waiting?
    ensures Total(ChannelWork, channels[k := channel]) < Total(ChannelWork, channels)
  {
    var f: Channel<R> -> nat := ChannelWork;
    TotalUpdate(f, channels, k, channel);
  }

  lemma CallWorkDrops<Q, R>(calls: seq<Call<Q, R>>, c: nat, call: Call<Q, R>)
    requires c < |calls| && CallWork(call) < CallWork(calls[c])
    ensures Total(CallWork, calls[c := call]) < Total(CallWork, calls)
  {
    var f: Call<Q, R> -> nat := CallWork;
    TotalUpdate(f, calls, c, call);
  }

  /** Every such step brings the system closer to rest. */
  lemma WorkDecreases<Q, R>(s: State<Q, R>, step: Step<Q, R>)
    requires Inv(s) && Enabled(s, step) && Progress(s, step)
    ensures Work(Apply(s, step)) < Work(s)
  {
    hide WellSized, CallOk, Total, AllItems, Numbered;
    match step
    case LoopTurn =>
      TotalConcat(TaskWork, s.phases, [Queued]);
      OneQueued();
      assert Apply(s, step).phases == s.phases + [Queued];
    case Acquire(b) => TotalUpdate(TaskWork, s.phases, b, Executing);
    case Respond(b, i, response) => ChannelWorkDrops(s.channels, s.guarded.spawned[b][i].channel, Sent(response));
    case DropSender(b, i) => ChannelWorkDrops(s.channels, s.guarded.spawned[b][i].channel, Dropped);
    case Finish(b) => TotalUpdate(TaskWork, s.phases, b, Finished);
    case Receive(c) => CallWorkDrops(s.calls, c, Apply(s, step).calls[c]);
  }

  /** What is left to do: the steps, and with them the distance of the timer from dispatching. */
  predicate Closer<Q, R>(s: State<Q, R>, s': State<Q, R>) {
    || Work(s') < Work(s)
    || (Work(s') == Work(s) && Distance(s'.timer, Created(s'.guarded)) < Distance(s.timer, Created(s.guarded)))
  }

  /** The other steps, except for new calls, leave the work as it is. */
  lemma IdleKeepsWork<Q, R>(s: State<Q, R>, step: Step<Q, R>)
    requires Inv(s) && Enabled(s, step) && !step.Submit? && !Progress(s, step)
    ensures Work(Apply(s, step)) == Work(s)
  {
    hide WellSized, CallOk, Total;
    if step.LoopTurn? {
      assert Apply(s, step).phases == s.phases;
    }
  }

  /** The timer can always be brought closer to dispatching the current batch, if only by time. */
  lemma TimerStep<Q, R>(s: State<Q, R>) returns (step: Step<Q, R>)
    requires Inv(s) && s.guarded.current.Some?
    ensures step.LoopTurn? || step.Advance?
    ensures Enabled(s, step) && Closer(s, Apply(s, step))
  {
    hide WellSized, CallOk, Total, Work, Distance;
    TimerComesCloser(s.timer, Created(s.guarded));
    step := if s.timer.now < s.timer.wakeAt then Advance(s.timer.wakeAt) else LoopTurn;
    if Progress(s, step) {
      WorkDecreases(s, step);
    } else {
      IdleKeepsWork(s, step);
    }
  }

  /** Nobody waits forever for a step that cannot happen: as long as a call lacks a result, the result
      can be received, or the sender of the request is alive in an executor, or its task can get a
      permit, or another task that holds one can finish, or the request is in the current batch and the
      timer can be brought closer to dispatching it. */
  lemma UnfinishedCallsCanProceed<Q, R>(s: State<Q, R>, c: nat) returns (b: nat, i: nat, step: Step<Q, R>)
    requires Inv(s) && c < |s.calls| && |s.calls[c].results| < |s.calls[c].requests|
    ensures HeldAt(s.guarded, b, i, s.calls[c].first + |s.calls[c].results|)
    ensures Enabled(s, step) && Closer(s, Apply(s, step))
    ensures || step == Receive(c)
            || step == DropSender(b, i)
            || (step == Acquire(b) && s.phases[b].Queued?)
            || (step.Finish? && b < |s.phases| && s.phases[b].Queued?)
            || ((step.LoopTurn? || step.Advance?) && b == |s.guarded.spawned| && s.guarded.current.Some?)
  {
    hide AllItems, WellSized, Total, Work;
    assert CallOk(AllItems(s.guarded), s.channels, s.calls[c]);
    var k := s.calls[c].first + |s.calls[c].results|;
    b, i := Locate(s, k);
    if !s.channels[k].Waiting? {
      step := Receive(c);
    } else if b == |s.phases| {
      step := TimerStep(s);
      return;
    } else if !s.phases[b].Queued? {
      step := DropSender(b, i);
    } else if s.free > 0 {
      step := Acquire(b);
    } else {
      TotalOfZeros(Permit, s.phases);
      var e :| 0 <= e < |s.phases| && Permit(s.phases[e]) != 0;
      step := Finish(e);
    }
    WorkDecreases(s, step);
  }

  /** The number of progress steps of a run. */
  ghost function ProgressCount<Q, R>(s: State<Q, R>, steps: seq<Step<Q, R>>): nat
    requires Runs(s, steps)
    decreases |steps|
  {
    if steps == [] then 0
    else (if Progress(s, steps[0]) then 1 else 0) + ProgressCount(Apply(s, steps[0]), steps[1..])
  }

  ghost predicate NoSubmit<Q, R>(steps: seq<Step<Q, R>>) {
    forall i :: 0 <= i < |steps| ==> !steps[i].Submit?
  }

  /** A run without new calls, however time passes and the timer turns in it, has at most `Work(s)`
      progress steps. */
  lemma {:induction false} RunsComeToRest<Q, R>(s: State<Q, R>, steps: seq<Step<Q, R>>)
    requires Inv(s) && Runs(s, steps) && NoSubmit(steps)
    ensures ProgressCount(s, steps) + Work(Final(s, steps)) <= Work(s)
    decreases |steps|
  {
    hide Inv, Enabled, Apply, Work, Progress;
    if steps != [] {
      StepKeeps(s, steps[0]);
      if Progress(s, steps[0]) {
        WorkDecreases(s, steps[0]);
      } else {
        IdleKeepsWork(s, steps[0]);
      }
      RunsComeToRest(Apply(s, steps[0]), steps[1..]);
    }
  }

  /** When no progress step is enabled and no batch is current, every call is complete. */
  lemma AtRest<Q, R>(s: State<Q, R>, c: nat)
    requires Inv(s) && s.guarded.current.None?
    requires forall step :: Enabled(s, step) ==> !Progress(s, step)
    requires c < |s.calls|
    ensures |s.calls[c].results| == |s.calls[c].requests|
  {
    hide AllItems, WellSized, Total;
    assert CallOk(AllItems(s.guarded), s.channels, s.calls[c]);
    if |s.calls[c].results| < |s.calls[c].requests| {
      var b, i, step := UnfinishedCallsCanProceed(s, c);
    }
  }

  ghost predicate AllComplete<Q, R>(s: State<Q, R>) {
    forall c :: 0 <= c < |s.calls| ==> |s.calls[c].results| == |s.calls[c].requests|
  }

  /** From every state, all calls can still complete: there is a run without new calls, in which the
      timer dispatches what is current, behind which every call is complete. */
  lemma {:induction false} Completes<Q, R>(s: State<Q, R>) returns (steps: seq<Step<Q, R>>)
    requires Inv(s)
    ensures Runs(s, steps) && NoSubmit(steps) && AllComplete(Final(s, steps))
    decreases Work(s), Distance(s.timer, Created(s.guarded))
  {
    hide Inv, Enabled, Apply, Work, Distance;
    if AllComplete(s) {
      steps := [];
    } else {
      var c :| 0 <= c < |s.calls| && !(|s.calls[c].results| == |s.calls[c].requests|);
      assert |s.calls[c].results| < |s.calls[c].requests| by { ResultsFit(s, c); }
      var b, i, step := UnfinishedCallsCanProceed(s, c);
      StepKeeps(s, step);
      var rest := Completes(Apply(s, step));
      steps := [step] + rest;
      assert steps[0] == step && steps[1..] == rest;
    }
  }

  lemma ResultsFit<Q, R>(s: State<Q, R>, c: nat)
    requires Inv(s) && c < |s.calls|
    ensures |s.calls[c].results| <= |s.calls[c].requests|
  {
    hide AllItems, WellSized, Total;
    assert CallOk(AllItems(s.guarded), s.channels, s.calls[c]);
  }
}
