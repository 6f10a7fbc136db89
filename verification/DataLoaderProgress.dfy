/** Progress of the data loader: bounded work, nobody waits in vain, every call can complete. */
module DataLoaderProgress {
  import opened Wrappers
  import opened BatchTimer
  import opened DataLoading
  import opened DataLoaderRuns
  import opened Tally

  /** The steps that are still to be taken by a task, and by a call. */
  function TaskWork(phase: Phase): nat {
    match phase
    case Queued => 4
    case Executing => 3
    case Returned => 2
    case Freed => 1
    case Done => 0
  }

  function CallWork<K, V>(call: Call<K, V>): nat {
    if call.outcome.Some? || call.done > |call.waiters| then 0 else |call.waiters| - call.done + 1
  }

  function Work<K, V>(s: State<K, V>): nat {
    Total(TaskWork, s.tasks) + Total(CallWork, s.calls) + if s.guarded.current.Some? then 5 else 0
  }

  /** The steps that neither add a call nor merely let time pass. */
  predicate Progress<K, V>(s: State<K, V>, step: Step<K, V>) {
    !step.Submit? && !step.Advance? && (step.LoopTurn? ==> Due(s.timer, Created(s.guarded)))
  }

  lemma TaskWorkDrops<K, V>(s: State<K, V>, b: nat, phase: Phase)
    requires b < |s.tasks| && TaskWork(phase) < TaskWork(s.tasks[b])
    ensures Total(TaskWork, s.tasks[b := phase]) < Total(TaskWork, s.tasks)
  {
    TotalUpdate(TaskWork, s.tasks, b, phase);
  }

  lemma CallWorkDrops<K, V>(s: State<K, V>, c: nat, call: Call<K, V>)
    requires c < |s.calls| && CallWork(call) < CallWork(s.calls[c])
    ensures Total(CallWork, s.calls[c := call]) < Total(CallWork, s.calls)
  {
    var f: Call<K, V> -> nat := CallWork;
    TotalUpdate(f, s.calls, c, call);
  }

  /** Every such step brings the system closer to rest. */
  lemma WorkDecreases<K, V>(s: State<K, V>, step: Step<K, V>)
    requires Inv(s) && Enabled(s, step) && Progress(s, step)
    ensures Work(Apply(s, step)) < Work(s)
  {
    hide WellSized, CallOk, CellsOk, Total, KeysOf;
    match step
    case LoopTurn =>
      TotalConcat(TaskWork, s.tasks, [Queued]);
      OneQueued();
      assert Apply(s, step).tasks == s.tasks + [Queued];
    case Acquire(b) => TaskWorkDrops(s, b, Executing);
    case Answer(b, _) => TaskWorkDrops(s, b, Returned);
    case Panic(b) => TaskWorkDrops(s, b, Returned);
    case FreePermit(b) => TaskWorkDrops(s, b, Freed);
    case Release(b) => TaskWorkDrops(s, b, Done);
    case Wake(c) => CallWorkDrops(s, c, Apply(s, step).calls[c]);
    case Return(c) => CallWorkDrops(s, c, Apply(s, step).calls[c]);
  }

  lemma OneQueued()
    ensures Total(TaskWork, [Queued]) == 4
  {
    var m := Map(TaskWork, [Queued]);
    assert m == [4];
    assert Sum(m) == m[0] + Sum(m[1..]);
  }

  /** What is left to do: the steps, and with them the distance of the timer from dispatching. */
  predicate Closer<K, V>(s: State<K, V>, s': State<K, V>) {
    || Work(s') < Work(s)
    || (Work(s') == Work(s) && Distance(s'.timer, Created(s'.guarded)) < Distance(s.timer, Created(s.guarded)))
  }

  /** The other steps, except for new calls, leave the work as it is. */
  lemma IdleKeepsWork<K, V>(s: State<K, V>, step: Step<K, V>)
    requires Inv(s) && Enabled(s, step) && !step.Submit? && !Progress(s, step)
    ensures Work(Apply(s, step)) == Work(s)
  {
    hide WellSized, CallOk, Total;
    if step.LoopTurn? {
      assert Apply(s, step).tasks == s.tasks;
    }
  }

  /** The timer can always be brought closer to dispatching the current batch, if only by time. */
  lemma TimerStep<K, V>(s: State<K, V>) returns (step: Step<K, V>)
    requires Inv(s) && s.guarded.current.Some?
    ensures step.LoopTurn? || step.Advance?
    ensures Enabled(s, step) && Closer(s, Apply(s, step))
  {
    hide WellSized, CallOk, Total, Work, Distance;
    TimerComesCloser(s.timer, Created(s.guarded));
    step := if s.timer.now < s.timer.wakeAt then Advance(s.timer.wakeAt) else LoopTurn;
    if Progress(s, step) {
      WorkDecreases(s, step);
    } else {
      IdleKeepsWork(s, step);
    }
  }

  /** Nobody waits for a step that cannot happen: as long as a call is not complete, some step that
      brings the system closer to rest is enabled. For a running fetcher it is its answer; for a batch
      that is current it is one of the timer. */
  lemma UnfinishedCallsCanProceed<K, V>(s: State<K, V>, c: nat) returns (step: Step<K, V>)
    requires Inv(s) && c < |s.calls| && s.calls[c].outcome.None?
    ensures Enabled(s, step) && Closer(s, Apply(s, step)) && !step.Submit? && !step.Panic?
    ensures Progress(s, step)
            || ((step.LoopTurn? || step.Advance?) && CallWaits(s, c) && s.guarded.current.Some?
                && s.calls[c].waiters[s.calls[c].done].batch == |s.guarded.spawned|)
  {
    hide WellSized, Gather, WaitedKeys, Total, Work;
    var call := s.calls[c];
    assert CallOk(s.guarded, s.cells, call);
    step := Return(c);
    if call.done < |call.waiters| {
      assert call.waiters[call.done] in call.waiters;
      var b := call.waiters[call.done].batch;
      if b == |s.tasks| {
        step := TimerStep(s);
        return;
      }
      step := TaskStep(s, b, Wake(c));
    }
    WorkDecreases(s, step);
  }

  /** What a task needs to get on: a step of its own, or of a task that holds a permit; or it is done,
      and the waiter can wake. */
  lemma TaskStep<K, V>(s: State<K, V>, b: nat, wake: Step<K, V>) returns (step: Step<K, V>)
    requires Inv(s) && b < |s.tasks|
    requires wake.Wake? && (s.tasks[b].Done? ==> Enabled(s, wake))
    ensures Enabled(s, step) && Progress(s, step) && !step.Panic?
  {
    hide WellSized, Total, CallOk;
    match s.tasks[b]
    case Done => step := wake;
    case Freed => step := Release(b);
    case Returned => step := FreePermit(b);
    case Executing => step := Answer(b, None);
    case Queued =>
      if s.free > 0 {
        step := Acquire(b);
      } else {
        TotalOfZeros(Permit, s.tasks);
        var e :| 0 <= e < |s.tasks| && Permit(s.tasks[e]) != 0;
        step := if s.tasks[e].Executing? then Answer(e, None) else FreePermit(e);
      }
  }

  /** The number of progress steps of a run. */
  ghost function ProgressCount<K, V>(s: State<K, V>, steps: seq<Step<K, V>>): nat
    requires Runs(s, steps)
    decreases |steps|
  {
    if steps == [] then 0
    else (if Progress(s, steps[0]) then 1 else 0) + ProgressCount(Apply(s, steps[0]), steps[1..])
  }

  ghost predicate NoSubmit<K, V>(steps: seq<Step<K, V>>) {
    forall i :: 0 <= i < |steps| ==> !steps[i].Submit?
  }

  /** A run without new calls, however time passes and the timer turns in it, has at most `Work(s)`
      progress steps. */
  lemma {:induction false} RunsComeToRest<K, V>(s: State<K, V>, steps: seq<Step<K, V>>)
    requires Inv(s) && Runs(s, steps) && NoSubmit(steps)
    ensures ProgressCount(s, steps) + Work(Final(s, steps)) <= Work(s)
    decreases |steps|
  {
    hide Inv, Enabled, Apply, Work, Progress;
    if steps != [] {
      StepKeeps(s, steps[0]);
      if Progress(s, steps[0]) {
        WorkDecreases(s, steps[0]);
      } else {
        IdleKeepsWork(s, steps[0]);
      }
      RunsComeToRest(Apply(s, steps[0]), steps[1..]);
    }
  }

  /** When no progress step is enabled and no batch is current, every call is complete. */
  lemma AtRest<K, V>(s: State<K, V>, c: nat)
    requires Inv(s) && s.guarded.current.None?
    requires forall step :: Enabled(s, step) ==> !Progress(s, step)
    requires c < |s.calls|
    ensures s.calls[c].outcome.Some?
  {
    hide Inv, Enabled, Progress;
    if s.calls[c].outcome.None? {
      var step := UnfinishedCallsCanProceed(s, c);
    }
  }

  ghost predicate AllComplete<K, V>(s: State<K, V>) {
    forall c :: 0 <= c < |s.calls| ==> s.calls[c].outcome.Some?
  }

  /** From every state, all calls can still complete: there is a run without new calls, in which the
      timer dispatches what is current, behind which every call is complete. */
  lemma {:induction false} Completes<K, V>(s: State<K, V>) returns (steps: seq<Step<K, V>>)
    requires Inv(s)
    ensures Runs(s, steps) && NoSubmit(steps) && AllComplete(Final(s, steps))
    decreases Work(s), Distance(s.timer, Created(s.guarded))
  {
    hide Inv, Enabled, Apply, Work, Distance;
    if AllComplete(s) {
      steps := [];
    } else {
      var c :| 0 <= c < |s.calls| && !(s.calls[c].outcome.Some?);
      var step := UnfinishedCallsCanProceed(s, c);
      StepKeeps(s, step);
      var rest := Completes(Apply(s, step));
      steps := [step] + rest;
      assert steps[0] == step && steps[1..] == rest;
    }
  }
}
