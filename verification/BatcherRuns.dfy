/** Every interleaving of callers, timer turns, tasks and executors of the batcher,
    crates/batching/src/batch.rs. A step is what happens between two suspension points: a critical
    section, the acquisition of a permit, one response of an executor, one response received. */
module BatcherRuns {
  import opened Wrappers
  import opened Bits
  import opened BatchTimer
  import opened Batching
  import opened Tally

  /** The task that was spawned for a batch. */
  datatype Phase = Queued | Executing | Finished

  datatype Channel<R> = Waiting | Sent(response: R) | Dropped

  /** A pending `execute_many`: its requests, its first channel, the results gathered so far. */
  datatype Call<Q, R> = Call(requests: seq<Q>, first: nat, results: seq<Option<R>>)

  datatype State<Q, R> = State(
    size: nat,
    permits: nat,
    free: nat,
    timer: Timer,
    guarded: Guarded<Q>,
    phases: seq<Phase>,
    channels: seq<Channel<R>>,
    calls: seq<Call<Q, R>>)

  datatype Step<Q, R> =
    | Submit(requests: seq<Q>)
    | Advance(to: nat)
    | LoopTurn
    | Acquire(batch: nat)
    | Respond(batch: nat, index: nat, response: R)
    | DropSender(batch: nat, index: nat)
    | Finish(batch: nat)
    | Receive(call: nat)

  function Initial<Q, R>(batchSize: nat, concurrency: nat, delay: nat, slack: nat): State<Q, R> {
    State(AtLeastOne(batchSize), AtLeastOne(concurrency), AtLeastOne(concurrency),
          Timer(0, delay, delay, slack), Guarded(None, []), [], [], [])
  }

  /** The sender at a place in a batch can still be used: the executor has it, and it was not used
      before (`send` and dropping consume it). An executor may keep senders beyond its return. */
  predicate SenderAlive<Q, R>(s: State<Q, R>, b: nat, i: nat) {
    && b < |s.phases| && b < |s.guarded.spawned| && i < |s.guarded.spawned[b]|
    && !s.phases[b].Queued?
    && s.guarded.spawned[b][i].channel < |s.channels|
    && s.channels[s.guarded.spawned[b][i].channel].Waiting?
  }

  predicate Enabled<Q, R>(s: State<Q, R>, step: Step<Q, R>) {
    match step
    case Submit(_) => true
    case Advance(to) => MayAdvance(s.timer, to)
    case LoopTurn => MayTurn(s.timer)
    case Acquire(b) => b < |s.phases| && s.phases[b].Queued? && s.free > 0
    case Respond(b, i, _) => SenderAlive(s, b, i)
    case DropSender(b, i) => SenderAlive(s, b, i)
    case Finish(b) => b < |s.phases| && s.phases[b].Executing?
    case Receive(c) =>
      && c < |s.calls|
      && |s.calls[c].results| < |s.calls[c].requests|
      && s.calls[c].first + |s.calls[c].results| < |s.channels|
      && !s.channels[s.calls[c].first + |s.calls[c].results|].Waiting?
  }

  /** `rx.await.ok()`. */
  function Outcome<R>(channel: Channel<R>): Option<R> {
    if channel.Sent? then Some(channel.response) else None
  }

  /** Tasks for the batches that a critical section spawned. */
  function SpawnTasks(phases: seq<Phase>, batches: nat): seq<Phase> {
    phases + seq(if batches >= |phases| then batches - |phases| else 0, _ => Queued)
  }

  function Apply<Q, R>(s: State<Q, R>, step: Step<Q, R>): State<Q, R>
    requires Enabled(s, step)
  {
    match step
    case Submit(requests) =>
      var g := PushAll(s.guarded, ItemsFor(requests, |s.channels|), s.timer.now, s.size);
      s.(guarded := g,
         phases := SpawnTasks(s.phases, |g.spawned|),
         channels := s.channels + seq(|requests|, _ => Waiting),
         calls := s.calls + [Call(requests, |s.channels|, [])])
    case Advance(to) => s.(timer := s.timer.(now := to))
    case LoopTurn =>
      var created := Created(s.guarded);
      var g := if Due(s.timer, created) then Take(s.guarded) else s.guarded;
      s.(timer := Turn(s.timer, created), guarded := g, phases := SpawnTasks(s.phases, |g.spawned|))
    case Acquire(b) => s.(phases := s.phases[b := Executing], free := s.free - 1)
    case Respond(b, i, response) =>
      s.(channels := s.channels[s.guarded.spawned[b][i].channel := Sent(response)])
    case DropSender(b, i) =>
      s.(channels := s.channels[s.guarded.spawned[b][i].channel := Dropped])
    case Finish(b) => s.(phases := s.phases[b := Finished], free := s.free + 1)
    case Receive(c) =>
      var call := s.calls[c];
      s.(calls := s.calls[c := call.(results := call.results + [Outcome(s.channels[call.first + |call.results|])])])
  }

  ghost predicate Runs<Q, R>(s: State<Q, R>, steps: seq<Step<Q, R>>)
    decreases |steps|
  {
    steps == [] || (Enabled(s, steps[0]) && Runs(Apply(s, steps[0]), steps[1..]))
  }

  ghost function Final<Q, R>(s: State<Q, R>, steps: seq<Step<Q, R>>): State<Q, R>
    requires Runs(s, steps)
    decreases |steps|
  {
    if steps == [] then s else Final(Apply(s, steps[0]), steps[1..])
  }

  /** A task that holds a permit. */
  function Permit(phase: Phase): nat {
    if phase.Executing? then 1 else 0
  }

  ghost predicate CallOk<Q, R>(items: seq<Item<Q>>, channels: seq<Channel<R>>, call: Call<Q, R>) {
    && call.first + |call.requests| <= |items| == |channels|
    && |call.results| <= |call.requests|
    && (forall i :: 0 <= i < |call.requests| ==> items[call.first + i].request == call.requests[i])
    && (forall i :: 0 <= i < |call.results| ==> Delivered(channels[call.first + i], call.results[i]))
  }

  ghost predicate Delivered<R>(channel: Channel<R>, result: Option<R>) {
    !channel.Waiting? && result == Outcome(channel)
  }

  ghost predicate Numbered<Q>(items: seq<Item<Q>>) {
    forall k :: 0 <= k < |items| ==> items[k].channel == k
  }

  ghost predicate Inv<Q, R>(s: State<Q, R>) {
    && WellSized(s.guarded, s.size)
    && OnTime(s.timer, Created(s.guarded))
    && |s.phases| == |s.guarded.spawned|
    && s.permits >= 1 && Total(Permit, s.phases) + s.free == s.permits
    && |AllItems(s.guarded)| == |s.channels| && Numbered(AllItems(s.guarded))
    && (forall c :: 0 <= c < |s.calls| ==> CallOk(AllItems(s.guarded), s.channels, s.calls[c]))
  }

  lemma SpawnTasksKeeps(phases: seq<Phase>, batches: nat)
    requires |phases| <= batches
    ensures |SpawnTasks(phases, batches)| == batches
    ensures Total(Permit, SpawnTasks(phases, batches)) == Total(Permit, phases)
  {
    var queued: seq<Phase> := seq(batches - |phases|, _ => Queued);
    TotalConcat(Permit, phases, queued);
    TotalOfZeros(Permit, queued);
  }

  /** A call keeps its guarantees while items are added at the end and unused channels get used. */
  lemma CallKeeps<Q, R>(items: seq<Item<Q>>, channels: seq<Channel<R>>,
                        items': seq<Item<Q>>, channels': seq<Channel<R>>, call: Call<Q, R>)
    requires CallOk(items, channels, call)
    requires items <= items' && |items'| == |channels'|
    requires forall k :: 0 <= k < |channels| && !channels[k].Waiting? ==> channels'[k] == channels[k]
    ensures CallOk(items', channels', call)
  {
    forall i | 0 <= i < |call.results|
      ensures Delivered(channels'[call.first + i], call.results[i])
    {
      assert Delivered(channels[call.first + i], call.results[i]);
    }
  }

  lemma SubmitKeeps<Q, R>(s: State<Q, R>, requests: seq<Q>)
    requires Inv(s)
    ensures Inv(Apply(s, Submit(requests)))
  {
    hide PushAll, AllItems, WellSized;
    var s' := Apply(s, Submit(requests));
    var items := ItemsFor(requests, |s.channels|);
    PushAllKeeps(s.guarded, items, s.timer.now, s.size);
    SpawnTasksKeeps(s.phases, |s'.guarded.spawned|);
    CreateOnTime(s.timer, Created(s.guarded));
    var all, all' := AllItems(s.guarded), AllItems(s'.guarded);
    assert all' == all + items;
    forall c | 0 <= c < |s'.calls|
      ensures CallOk(all', s'.channels, s'.calls[c])
    {
      if c < |s.calls| {
        CallKeeps(all, s.channels, all', s'.channels, s.calls[c]);
      }
    }
  }

  lemma LoopTurnKeeps<Q, R>(s: State<Q, R>)
    requires Inv(s) && Enabled(s, LoopTurn)
    ensures Inv(Apply(s, LoopTurn))
  {
    hide AllItems, WellSized, Total, CallOk;
    TurnOnTime(s.timer, Created(s.guarded));
    if s.guarded.current.Some? {
      TakeKeeps(s.guarded, s.size);
    }
    SpawnTasksKeeps(s.phases, |Apply(s, LoopTurn).guarded.spawned|);
  }

  lemma ChannelKeeps<Q, R>(s: State<Q, R>, b: nat, i: nat, channel: Channel<R>)
    requires Inv(s) && SenderAlive(s, b, i) && !channel.Waiting?
    ensures Inv(s.(channels := s.channels[s.guarded.spawned[b][i].channel := channel]))
  {
    hide AllItems, Total, WellSized;
    var channels := s.channels[s.guarded.spawned[b][i].channel := channel];
    var all := AllItems(s.guarded);
    forall c | 0 <= c < |s.calls|
      ensures CallOk(all, channels, s.calls[c])
    {
      CallKeeps(all, s.channels, all, channels, s.calls[c]);
    }
  }

  lemma ReceiveKeeps<Q, R>(s: State<Q, R>, c: nat)
    requires Inv(s) && Enabled(s, Receive(c))
    ensures Inv(Apply(s, Receive(c)))
  {
    hide AllItems, Total, WellSized;
    var s' := Apply(s, Receive(c));
    var all := AllItems(s.guarded);
    var call, call' := s.calls[c], s'.calls[c];
    assert CallOk(all, s.channels, call);
    forall i | 0 <= i < |call'.results|
      ensures Delivered(s.channels[call.first + i], call'.results[i])
    {
      if i < |call.results| {
        assert Delivered(s.channels[call.first + i], call.results[i]);
      }
    }
    forall d | 0 <= d < |s'.calls|
      ensures CallOk(all, s.channels, s'.calls[d])
    {
      if d == c {
        assert CallOk(all, s.channels, call');
      } else {
        assert s'.calls[d] == s.calls[d];
      }
    }
  }

  lemma StepKeeps<Q, R>(s: State<Q, R>, step: Step<Q, R>)
    requires Inv(s) && Enabled(s, step)
    ensures Inv(Apply(s, step))
  {
    match step
    case Submit(requests) => SubmitKeeps(s, requests);
    case Advance(to) => AdvanceOnTime(s.timer, Created(s.guarded), to);
    case LoopTurn => LoopTurnKeeps(s);
    case Acquire(b) => TotalUpdate(Permit, s.phases, b, Executing);
    case Respond(b, i, response) => ChannelKeeps(s, b, i, Sent(response));
    case DropSender(b, i) => ChannelKeeps(s, b, i, Dropped);
    case Finish(b) => TotalUpdate(Permit, s.phases, b, Finished);
    case Receive(c) => ReceiveKeeps(s, c);
  }

  /** Whatever the interleaving: sizes, permits, the order and the numbering of the requests, the
      alignment of results, and the timer's schedule are as `Inv` says. */
  lemma AlwaysInv<Q, R>(batchSize: nat, concurrency: nat, delay: nat, slack: nat, steps: seq<Step<Q, R>>)
    requires Runs(Initial(batchSize, concurrency, delay, slack), steps)
    ensures var s: State<Q, R> := Final(Initial(batchSize, concurrency, delay, slack), steps);
            && Inv(s)
            && s.size == AtLeastOne(batchSize) && s.permits == AtLeastOne(concurrency)
            && s.timer.delay == delay && s.timer.slack == slack
  {
    RunKeeps(Initial(batchSize, concurrency, delay, slack), steps);
  }

  /** The constructor's arguments stay in force. */
  predicate SameSettings<Q, R>(s: State<Q, R>, s': State<Q, R>) {
    s'.size == s.size && s'.permits == s.permits && s'.timer.delay == s.timer.delay && s'.timer.slack == s.timer.slack
  }

  lemma StepKeepsSettings<Q, R>(s: State<Q, R>, step: Step<Q, R>)
    requires Enabled(s, step)
    ensures SameSettings(s, Apply(s, step))
  {
  }

  lemma {:induction false} RunKeeps<Q, R>(s: State<Q, R>, steps: seq<Step<Q, R>>)
    requires Inv(s) && Runs(s, steps)
    ensures Inv(Final(s, steps)) && SameSettings(s, Final(s, steps))
    decreases |steps|
  {
    hide Inv, Enabled, Apply;
    if steps != [] {
      StepKeeps(s, steps[0]);
      StepKeepsSettings(s, steps[0]);
      RunKeeps(Apply(s, steps[0]), steps[1..]);
    }
  }

  /** Dispatch is safe in every run: whenever the lock is free the current batch is absent or holds
      between one and `batch_size - 1` items, every dispatched batch holds between one and `batch_size`,
      and tasks that hold a permit and free permits add up to `max(1, concurrency)`. */
  lemma DispatchIsSafe<Q, R>(batchSize: nat, concurrency: nat, delay: nat, slack: nat, steps: seq<Step<Q, R>>)
    requires Runs(Initial(batchSize, concurrency, delay, slack), steps)
    ensures var s: State<Q, R> := Final(Initial(batchSize, concurrency, delay, slack), steps);
            && (s.guarded.current.Some? ==> 1 <= |s.guarded.current.value.items| <= AtLeastOne(batchSize) - 1)
            && (forall b :: 0 <= b < |s.guarded.spawned| ==> 1 <= |s.guarded.spawned[b]| <= AtLeastOne(batchSize))
            && Total(Permit, s.phases) + s.free == AtLeastOne(concurrency)
  {
    hide Runs, Final, Total;
    AlwaysInv<Q, R>(batchSize, concurrency, delay, slack, steps);
  }

  /** The requests of a run, in the order of their critical sections. */
  function Submitted<Q, R>(steps: seq<Step<Q, R>>): seq<Q> {
    if steps == [] then []
    else (if steps[0].Submit? then steps[0].requests else []) + Submitted(steps[1..])
  }

  lemma StepItems<Q, R>(s: State<Q, R>, step: Step<Q, R>)
    requires Inv(s) && Enabled(s, step)
    ensures AllItems(Apply(s, step).guarded) ==
            AllItems(s.guarded) + if step.Submit? then ItemsFor(step.requests, |s.channels|) else []
  {
    hide AllItems;
    match step
    case Submit(requests) =>
      PushAllKeeps(s.guarded, ItemsFor(requests, |s.channels|), s.timer.now, s.size);
    case LoopTurn =>
      if s.guarded.current.Some? {
        TakeKeeps(s.guarded, s.size);
      }
    case _ =>
  }

  lemma ItemsForConcat<Q>(a: seq<Q>, b: seq<Q>, n: nat)
    ensures ItemsFor(a + b, n) == ItemsFor(a, n) + ItemsFor(b, n + |a|)
  {
  }

  lemma ChannelCount<Q, R>(s: State<Q, R>)
    requires Inv(s)
    ensures |AllItems(s.guarded)| == |s.channels|
  {
  }

  /** Conservation over whole runs: the batches, read in order with the current one last, hold the
      submitted requests, each once, in the order of submission, on the channels 0, 1, 2 ... */
  lemma {:induction false} Conservation<Q, R>(s: State<Q, R>, steps: seq<Step<Q, R>>)
    requires Inv(s) && Runs(s, steps)
    ensures AllItems(Final(s, steps).guarded) ==
            AllItems(s.guarded) + ItemsFor(Submitted(steps), |AllItems(s.guarded)|)
    decreases |steps|
  {
    hide AllItems, Apply, Inv;
    if steps == [] {
      assert AllItems(s.guarded) + [] == AllItems(s.guarded);
    } else {
      var s' := Apply(s, steps[0]);
      StepKeeps(s, steps[0]);
      StepItems(s, steps[0]);
      Conservation(s', steps[1..]);
      var n := |AllItems(s.guarded)|;
      var first := if steps[0].Submit? then steps[0].requests else [];
      assert |AllItems(s.guarded)| == |s.channels| by { ChannelCount(s); }
      ItemsForConcat(first, Submitted(steps[1..]), n);
      ConcatAssoc(AllItems(s.guarded), ItemsFor(first, n), ItemsFor(Submitted(steps[1..]), n + |first|));
    }
  }

  /** The items of a batch; the one behind the spawned batches is the current one. */
  function BatchAt<Q>(g: Guarded<Q>, b: nat): seq<Item<Q>>
    requires b <= |g.spawned|
  {
    if b < |g.spawned| then g.spawned[b] else CurrentItems(g)
  }

  ghost predicate HeldAt<Q>(g: Guarded<Q>, b: nat, i: nat, channel: nat) {
    b <= |g.spawned| && i < |BatchAt(g, b)| && BatchAt(g, b)[i].channel == channel
  }

  function Offset<T>(xss: seq<seq<T>>, b: nat): nat
    requires b <= |xss|
  {
    |Flatten(xss[..b])|
  }

  lemma OffsetStep<T>(xss: seq<seq<T>>, b: nat)
    requires b < |xss|
    ensures Offset(xss, b + 1) == Offset(xss, b) + |xss[b]|
  {
    FlattenExtend(xss[..b], xss[b]);
    assert xss[..b + 1] == xss[..b] + [xss[b]];
  }

  lemma {:induction false} OffsetMonotone<T>(xss: seq<seq<T>>, b: nat, c: nat)
    requires b < c <= |xss|
    ensures Offset(xss, b) + |xss[b]| <= Offset(xss, c)
  {
    OffsetStep(xss, c - 1);
    if b < c - 1 {
      OffsetMonotone(xss, b, c - 1);
    }
  }

  lemma FlattenAt<T>(xss: seq<seq<T>>, b: nat, i: nat)
    requires b < |xss| && i < |xss[b]|
    ensures Offset(xss, b) + i < |Flatten(xss)| && Flatten(xss)[Offset(xss, b) + i] == xss[b][i]
  {
    FlattenExtend(xss[..b], xss[b]);
    FlattenConcat(xss[..b] + [xss[b]], xss[b + 1..]);
    assert xss[..b] + [xss[b]] + xss[b + 1..] == xss;
  }

  lemma {:induction false} FlattenFind<T>(xss: seq<seq<T>>, k: nat) returns (b: nat, i: nat)
    requires k < |Flatten(xss)|
    ensures b < |xss| && i < |xss[b]| && k == Offset(xss, b) + i
  {
    var last := |xss| - 1;
    var init := xss[..last];
    if k < |Flatten(init)| {
      b, i := FlattenFind(init, k);
      assert init[..b] == xss[..b];
    } else {
      b, i := last, k - |Flatten(init)|;
    }
  }

  /** A place determines its channel, by position. */
  lemma PlaceIsChannel<Q, R>(s: State<Q, R>, b: nat, i: nat)
    requires Inv(s) && b <= |s.guarded.spawned| && i < |BatchAt(s.guarded, b)|
    ensures BatchAt(s.guarded, b)[i].channel == Offset(s.guarded.spawned, b) + i
    ensures Offset(s.guarded.spawned, b) + i < |s.channels|
    ensures BatchAt(s.guarded, b)[i] == AllItems(s.guarded)[Offset(s.guarded.spawned, b) + i]
  {
    hide Flatten, Total, CallOk, WellSized;
    var g := s.guarded;
    if b < |g.spawned| {
      FlattenAt(g.spawned, b, i);
      assert AllItems(g)[Offset(g.spawned, b) + i] == g.spawned[b][i];
    } else {
      assert g.spawned[..b] == g.spawned;
      assert AllItems(g)[|Flatten(g.spawned)| + i] == CurrentItems(g)[i];
    }
  }

  /** Every submitted request sits at exactly one place of exactly one batch. */
  lemma ExactlyOnce<Q, R>(s: State<Q, R>, k: nat)
    requires Inv(s) && k < |s.channels|
    ensures exists b, i :: HeldAt(s.guarded, b, i, k)
    ensures forall b, i, c, j :: HeldAt(s.guarded, b, i, k) && HeldAt(s.guarded, c, j, k) ==> b == c && i == j
  {
    var b, i := Locate(s, k);
    assert HeldAt(s.guarded, b, i, k);
    forall b, i, c, j | HeldAt(s.guarded, b, i, k) && HeldAt(s.guarded, c, j, k)
      ensures b == c && i == j
    {
      PlacesDiffer(s, b, i, c, j);
    }
  }

  lemma Locate<Q, R>(s: State<Q, R>, k: nat) returns (b: nat, i: nat)
    requires Inv(s) && k < |s.channels|
    ensures HeldAt(s.guarded, b, i, k)
  {
    hide Total, CallOk, WellSized;
    var g := s.guarded;
    if k < |Flatten(g.spawned)| {
      b, i := FlattenFind(g.spawned, k);
    } else {
      b, i := |g.spawned|, k - |Flatten(g.spawned)|;
      assert g.spawned[..b] == g.spawned;
    }
    PlaceIsChannel(s, b, i);
  }

  lemma PlacesDiffer<Q, R>(s: State<Q, R>, b: nat, i: nat, c: nat, j: nat)
    requires Inv(s) && b <= |s.guarded.spawned| && c <= |s.guarded.spawned|
    requires i < |BatchAt(s.guarded, b)| && j < |BatchAt(s.guarded, c)|
    requires BatchAt(s.guarded, b)[i].channel == BatchAt(s.guarded, c)[j].channel
    ensures b == c && i == j
  {
    hide Inv, Offset;
    PlaceIsChannel(s, b, i);
    PlaceIsChannel(s, c, j);
    if b < c {
      OffsetMonotone(s.guarded.spawned, b, c);
    } else if c < b {
      OffsetMonotone(s.guarded.spawned, c, b);
    }
  }

  /** A channel is used at most once: by the response that is sent, or the sender that is dropped, for
      the place in a batch that holds it. */
  lemma ChannelUsedOnce<Q, R>(s: State<Q, R>, step: Step<Q, R>, k: nat)
    requires Inv(s) && Enabled(s, step) && k < |s.channels|
    ensures k < |Apply(s, step).channels|
    ensures var before, after := s.channels[k], Apply(s, step).channels[k];
            after == before || (before.Waiting? && UsedBy(step, s.guarded, k, after))
  {
    hide AllItems, PushAll, Total, CallOk, WellSized;
  }

  /** The step puts `channel` on the channel `k`, for the place that holds it. */
  ghost predicate UsedBy<Q, R>(step: Step<Q, R>, g: Guarded<Q>, k: nat, channel: Channel<R>) {
    && (step.Respond? || step.DropSender?)
    && step.batch < |g.spawned| && HeldAt(g, step.batch, step.index, k)
    && channel == (if step.Respond? then Sent(step.response) else Dropped)
  }

  ghost predicate Used<Q, R>(steps: seq<Step<Q, R>>, g: Guarded<Q>, k: nat, channel: Channel<R>) {
    exists j :: 0 <= j < |steps| && UsedBy(steps[j], g, k, channel)
  }

  /** Spawned batches stay as they are. */
  lemma SpawnedStay<Q, R>(s: State<Q, R>, step: Step<Q, R>)
    requires Inv(s) && Enabled(s, step)
    ensures s.guarded.spawned <= Apply(s, step).guarded.spawned
  {
    hide AllItems, PushAll, Total, CallOk, WellSized;
    if step.Submit? {
      PushAllKeeps(s.guarded, ItemsFor(step.requests, |s.channels|), s.timer.now, s.size);
    }
  }

  lemma {:induction false} UsedStays<Q, R>(s: State<Q, R>, steps: seq<Step<Q, R>>, k: nat)
    requires Inv(s) && Runs(s, steps) && k < |s.channels| && !s.channels[k].Waiting?
    ensures k < |Final(s, steps).channels| && Final(s, steps).channels[k] == s.channels[k]
    ensures s.guarded.spawned <= Final(s, steps).guarded.spawned
    decreases |steps|
  {
    hide Inv, Enabled, Apply;
    if steps != [] {
      StepKeeps(s, steps[0]);
      SpawnedStay(s, steps[0]);
      ChannelUsedOnce(s, steps[0], k);
      UsedStays(Apply(s, steps[0]), steps[1..], k);
    }
  }

  lemma UsedByStays<Q, R>(step: Step<Q, R>, g: Guarded<Q>, g': Guarded<Q>, k: nat, channel: Channel<R>)
    requires UsedBy(step, g, k, channel) && g.spawned <= g'.spawned
    ensures UsedBy(step, g', k, channel)
  {
  }

  /** A channel that was used was used by a step of the run, for its own place. */
  lemma {:induction false} RunUses<Q, R>(s: State<Q, R>, steps: seq<Step<Q, R>>, k: nat)
    requires Inv(s) && Runs(s, steps)
    requires k < |s.channels| ==> s.channels[k].Waiting?
    requires k < |Final(s, steps).channels| && !Final(s, steps).channels[k].Waiting?
    ensures Used(steps, Final(s, steps).guarded, k, Final(s, steps).channels[k])
    decreases |steps|
  {
    hide Inv, Enabled, Apply, UsedBy;
    var step, s' := steps[0], Apply(s, steps[0]);
    StepKeeps(s, step);
    NewChannelsWait(s, step, k);
    if k < |s'.channels| && !s'.channels[k].Waiting? {
      ChannelUsedOnce(s, step, k);
      SpawnedStay(s, step);
      UsedStays(s', steps[1..], k);
      UsedByStays(step, s.guarded, Final(s, steps).guarded, k, s'.channels[k]);
    } else {
      RunUses(s', steps[1..], k);
      var channel := Final(s, steps).channels[k];
      var j :| 0 <= j < |steps[1..]| && UsedBy(steps[1..][j], Final(s, steps).guarded, k, channel);
      assert steps[j + 1] == steps[1..][j];
    }
  }

  lemma NewChannelsWait<Q, R>(s: State<Q, R>, step: Step<Q, R>, k: nat)
    requires Enabled(s, step)
    ensures |s.channels| <= k < |Apply(s, step).channels| ==> Apply(s, step).channels[k].Waiting?
  {
  }

  /** Batched execution answers every request with its own response, in every run and whatever the
      executor responds: position `i` of a call's results belongs to the item of the call's own
      request `i`; it is the response that was sent for the place of that item in its batch, and is
      missing exactly when the sender at that place was dropped unused. */
  lemma ResultsAlign<Q, R>(batchSize: nat, concurrency: nat, delay: nat, slack: nat, steps: seq<Step<Q, R>>,
                           c: nat, i: nat) returns (j: nat)
    requires Runs(Initial(batchSize, concurrency, delay, slack), steps)
    requires var s := Final(Initial(batchSize, concurrency, delay, slack), steps);
             c < |s.calls| && i < |s.calls[c].results|
    ensures var s := Final(Initial(batchSize, concurrency, delay, slack), steps);
            var call := s.calls[c];
            && i < |call.requests| && j < |steps|
            && SettlesItem(steps[j], s.guarded, Item(call.requests[i], call.first + i), call.results[i])
  {
    hide Final, Runs, Inv, UsedBy;
    var start: State<Q, R> := Initial(batchSize, concurrency, delay, slack);
    AlwaysInv<Q, R>(batchSize, concurrency, delay, slack, steps);
    StartInv<Q, R>(batchSize, concurrency, delay, slack);
    var s := Final(start, steps);
    var k := s.calls[c].first + i;
    ResultDelivered(s, c, i);
    RunUses(start, steps, k);
    j :| 0 <= j < |steps| && UsedBy(steps[j], s.guarded, k, s.channels[k]);
    UsedSettles(s, steps[j], c, i);
  }

  /** The step that sends the response for the item, or drops its sender unused. */
  ghost predicate SettlesItem<Q, R>(step: Step<Q, R>, g: Guarded<Q>, item: Item<Q>, result: Option<R>) {
    && (step.Respond? || step.DropSender?)
    && step.batch < |g.spawned| && step.index < |g.spawned[step.batch]|
    && g.spawned[step.batch][step.index] == item
    && result == (if step.Respond? then Some(step.response) else None)
  }

  lemma StartInv<Q, R>(batchSize: nat, concurrency: nat, delay: nat, slack: nat)
    ensures Inv<Q, R>(Initial(batchSize, concurrency, delay, slack))
  {
  }

  lemma ResultDelivered<Q, R>(s: State<Q, R>, c: nat, i: nat)
    requires Inv(s) && c < |s.calls| && i < |s.calls[c].results|
    ensures var call := s.calls[c];
            var k := call.first + i;
            && i < |call.requests| && k < |s.channels| == |AllItems(s.guarded)|
            && AllItems(s.guarded)[k] == Item(call.requests[i], k)
            && !s.channels[k].Waiting? && call.results[i] == Outcome(s.channels[k])
  {
    hide AllItems, WellSized, Total;
    var call := s.calls[c];
    assert CallOk(AllItems(s.guarded), s.channels, call);
    assert Delivered(s.channels[call.first + i], call.results[i]);
  }

  lemma UsedSettles<Q, R>(s: State<Q, R>, step: Step<Q, R>, c: nat, i: nat)
    requires Inv(s) && c < |s.calls| && i < |s.calls[c].results|
    requires var k := s.calls[c].first + i;
             k < |s.channels| && UsedBy(step, s.guarded, k, s.channels[k])
    ensures var call := s.calls[c];
            i < |call.requests|
            && SettlesItem(step, s.guarded, Item(call.requests[i], call.first + i), call.results[i])
  {
    hide Inv, Offset;
    ResultDelivered(s, c, i);
    PlaceIsChannel(s, step.batch, step.index);
  }

  /** The executor answers every request `q`, if at all, with `answer(q)`. */
  ghost predicate Answers<Q, R>(s: State<Q, R>, step: Step<Q, R>, answer: Q -> R)
    requires Enabled(s, step)
  {
    step.Respond? ==> step.response == answer(s.guarded.spawned[step.batch][step.index].request)
  }

  ghost predicate AnswersAlways<Q, R>(s: State<Q, R>, steps: seq<Step<Q, R>>, answer: Q -> R)
    requires Runs(s, steps)
    decreases |steps|
  {
    steps != [] ==>
      Answers(s, steps[0], answer) && AnswersAlways(Apply(s, steps[0]), steps[1..], answer)
  }

  ghost predicate Answered<Q, R>(s: State<Q, R>, answer: Q -> R)
    requires Inv(s)
  {
    forall k :: 0 <= k < |s.channels| && s.channels[k].Sent? ==>
      s.channels[k].response == answer(AllItems(s.guarded)[k].request)
  }

  lemma StepAnswered<Q, R>(s: State<Q, R>, step: Step<Q, R>, answer: Q -> R)
    requires Inv(s) && Answered(s, answer) && Enabled(s, step) && Answers(s, step, answer)
    ensures Inv(Apply(s, step)) && Answered(Apply(s, step), answer)
  {
    hide AllItems, PushAll, Total, CallOk, WellSized;
    StepKeeps(s, step);
    StepItems(s, step);
    if step.Respond? {
      PlaceIsChannel(s, step.batch, step.index);
    }
  }

  lemma {:induction false} RunAnswered<Q, R>(s: State<Q, R>, steps: seq<Step<Q, R>>, answer: Q -> R)
    requires Inv(s) && Answered(s, answer) && Runs(s, steps) && AnswersAlways(s, steps, answer)
    ensures Inv(Final(s, steps)) && Answered(Final(s, steps), answer)
    decreases |steps|
  {
    hide Inv, Answered, Apply;
    if steps != [] {
      StepAnswered(s, steps[0], answer);
      RunAnswered(Apply(s, steps[0]), steps[1..], answer);
    }
  }

  /** In particular, an executor that answers by a function of the request makes batched execution agree
      with executing each request alone. */
  lemma ResultsAreAnswers<Q, R>(batchSize: nat, concurrency: nat, delay: nat, slack: nat,
                                steps: seq<Step<Q, R>>, answer: Q -> R, c: nat, i: nat)
    requires Runs(Initial(batchSize, concurrency, delay, slack), steps)
    requires AnswersAlways(Initial(batchSize, concurrency, delay, slack), steps, answer)
    requires var s := Final(Initial(batchSize, concurrency, delay, slack), steps);
             c < |s.calls| && i < |s.calls[c].results|
    ensures var s := Final(Initial(batchSize, concurrency, delay, slack), steps);
            var call := s.calls[c];
            && i < |call.requests| && call.first + i < |s.channels|
            && (call.results[i] == None <==> s.channels[call.first + i].Dropped?)
            && (call.results[i].Some? ==> call.results[i].value == answer(call.requests[i]))
  {
    hide Final, Runs, AnswersAlways, Inv, Answered;
    var start: State<Q, R> := Initial(batchSize, concurrency, delay, slack);
    StartOk<Q, R>(batchSize, concurrency, delay, slack, answer);
    RunAnswered(start, steps, answer);
    ResultAligned(Final(start, steps), answer, c, i);
  }

  lemma StartOk<Q, R>(batchSize: nat, concurrency: nat, delay: nat, slack: nat, answer: Q -> R)
    ensures var s: State<Q, R> := Initial(batchSize, concurrency, delay, slack);
            Inv(s) && Answered(s, answer)
  {
  }

  lemma ResultAligned<Q, R>(s: State<Q, R>, answer: Q -> R, c: nat, i: nat)
    requires Inv(s) && Answered(s, answer)
    requires c < |s.calls| && i < |s.calls[c].results|
    ensures var call := s.calls[c];
            && i < |call.requests| && call.first + i < |s.channels|
            && (call.results[i] == None <==> s.channels[call.first + i].Dropped?)
            && (call.results[i].Some? ==> call.results[i].value == answer(call.requests[i]))
  {
    hide AllItems, WellSized, Total;
    var call := s.calls[c];
    assert CallOk(AllItems(s.guarded), s.channels, call);
    assert Delivered(s.channels[call.first + i], call.results[i]);
    assert AllItems(s.guarded)[call.first + i].request == call.requests[i];
  }

  /** In every reachable state the batch that is current is younger than `delay + slack`. */
  lemma AgeBound<Q, R>(batchSize: nat, concurrency: nat, delay: nat, slack: nat, steps: seq<Step<Q, R>>)
    requires Runs(Initial(batchSize, concurrency, delay, slack), steps)
    ensures var s: State<Q, R> := Final(Initial(batchSize, concurrency, delay, slack), steps);
            s.guarded.current.Some? ==>
              && s.timer.wakeAt <= s.guarded.current.value.createdAt + delay
              && Age(s.timer, s.guarded.current.value.createdAt) <= delay + slack
  {
    AlwaysInv<Q, R>(batchSize, concurrency, delay, slack, steps);
  }

  /** The turn of the loop takes batch `b`, which is at least `delay` old. */
  predicate TakesOld<Q, R>(s: State<Q, R>, step: Step<Q, R>, b: nat) {
    && step.LoopTurn? && s.guarded.current.Some? && |s.guarded.spawned| == b
    && s.timer.now >= s.guarded.current.value.createdAt + s.timer.delay
  }

  ghost predicate TakenOld<Q, R>(s: State<Q, R>, steps: seq<Step<Q, R>>, b: nat)
    requires Runs(s, steps)
    decreases |steps|
  {
    steps != [] && (TakesOld(s, steps[0], b) || TakenOld(Apply(s, steps[0]), steps[1..], b))
  }

  /** A step that dispatches a batch either has filled it or takes it because it is old. */
  lemma StepDispatches<Q, R>(s: State<Q, R>, step: Step<Q, R>, b: nat)
    requires Inv(s) && Enabled(s, step)
    ensures s.guarded.spawned <= Apply(s, step).guarded.spawned
    ensures |s.guarded.spawned| <= b < |Apply(s, step).guarded.spawned| ==>
              |Apply(s, step).guarded.spawned[b]| == s.size || TakesOld(s, step, b)
  {
    hide AllItems, PushAll, Total, CallOk, WellSized;
    match step
    case Submit(requests) =>
      PushAllKeeps(s.guarded, ItemsFor(requests, |s.channels|), s.timer.now, s.size);
      PushAllFull(s.guarded, ItemsFor(requests, |s.channels|), s.timer.now, s.size);
    case LoopTurn => DueIsOld(s.timer, Created(s.guarded));
    case _ =>
  }

  lemma {:induction false} RunDispatches<Q, R>(s: State<Q, R>, steps: seq<Step<Q, R>>, b: nat)
    requires Inv(s) && Runs(s, steps) && |s.guarded.spawned| <= b < |Final(s, steps).guarded.spawned|
    ensures |Final(s, steps).guarded.spawned[b]| == s.size || TakenOld(s, steps, b)
    decreases |steps|
  {
    hide Inv, Enabled, Apply, TakesOld;
    var s' := Apply(s, steps[0]);
    StepKeeps(s, steps[0]);
    StepKeepsSettings(s, steps[0]);
    StepDispatches(s, steps[0], b);
    if b < |s'.guarded.spawned| {
      SpawnedStayAlways(s', steps[1..]);
    } else {
      RunDispatches(s', steps[1..], b);
    }
  }

  lemma {:induction false} SpawnedStayAlways<Q, R>(s: State<Q, R>, steps: seq<Step<Q, R>>)
    requires Inv(s) && Runs(s, steps)
    ensures s.guarded.spawned <= Final(s, steps).guarded.spawned
    decreases |steps|
  {
    hide Inv, Enabled, Apply, TakesOld;
    if steps != [] {
      StepKeeps(s, steps[0]);
      StepDispatches(s, steps[0], |s.guarded.spawned|);
      SpawnedStayAlways(Apply(s, steps[0]), steps[1..]);
    }
  }

  /** Batching happens: in every run, a batch that was dispatched with fewer than `max(1, batch_size)`
      requests was taken by a turn of the timer loop, at an age of at least `delay`. */
  lemma DispatchedFullOrOld<Q, R>(batchSize: nat, concurrency: nat, delay: nat, slack: nat,
                                  steps: seq<Step<Q, R>>, b: nat)
    requires Runs(Initial(batchSize, concurrency, delay, slack), steps)
    requires b < |Final<Q, R>(Initial(batchSize, concurrency, delay, slack), steps).guarded.spawned|
    ensures var start: State<Q, R> := Initial(batchSize, concurrency, delay, slack);
            |Final(start, steps).guarded.spawned[b]| == AtLeastOne(batchSize) || TakenOld(start, steps, b)
  {
    hide Runs, Final, Inv;
    var start: State<Q, R> := Initial(batchSize, concurrency, delay, slack);
    StartInv<Q, R>(batchSize, concurrency, delay, slack);
    RunDispatches(start, steps, b);
  }

  /** When each channel's request was submitted: the time of its critical section. */
  ghost function SubmitTimes<Q, R>(s: State<Q, R>, steps: seq<Step<Q, R>>, times: seq<nat>): seq<nat>
    requires Runs(s, steps)
    decreases |steps|
  {
    if steps == [] then times
    else SubmitTimes(Apply(s, steps[0]), steps[1..], TimesBehind(s, steps[0], times))
  }

  function TimesBehind<Q, R>(s: State<Q, R>, step: Step<Q, R>, times: seq<nat>): seq<nat> {
    if step.Submit? then times + seq(|step.requests|, _ => s.timer.now) else times
  }

  /** Nothing in the current batch is older than the batch. */
  ghost predicate NoneOlder<Q, R>(s: State<Q, R>, times: seq<nat>) {
    && |times| == |s.channels|
    && forall x :: x in CurrentItems(s.guarded) && s.guarded.current.Some? ==>
         x.channel < |times| && times[x.channel] >= s.guarded.current.value.createdAt
  }

  lemma StepNoneOlder<Q, R>(s: State<Q, R>, step: Step<Q, R>, times: seq<nat>)
    requires Inv(s) && NoneOlder(s, times) && Enabled(s, step)
    ensures NoneOlder(Apply(s, step), TimesBehind(s, step, times))
  {
    hide AllItems, PushAll, Total, CallOk, WellSized;
    if step.Submit? {
      var items := ItemsFor(step.requests, |s.channels|);
      PushAllCreation(s.guarded, items, s.timer.now, s.size);
      PushAllKeeps(s.guarded, items, s.timer.now, s.size);
      CurrentIsOldOrNew(s.guarded, items, s.timer.now, s.size);
      assert forall x :: x in items ==> |s.channels| <= x.channel < |s.channels| + |items|;
    }
  }

  lemma {:induction false} RunNoneOlder<Q, R>(s: State<Q, R>, steps: seq<Step<Q, R>>, times: seq<nat>)
    requires Inv(s) && NoneOlder(s, times) && Runs(s, steps)
    ensures NoneOlder(Final(s, steps), SubmitTimes(s, steps, times))
    decreases |steps|
  {
    hide Inv, NoneOlder, Enabled, Apply, TimesBehind;
    if steps != [] {
      StepKeeps(s, steps[0]);
      StepNoneOlder(s, steps[0], times);
      RunNoneOlder(Apply(s, steps[0]), steps[1..], TimesBehind(s, steps[0], times));
    }
  }

  lemma StartNoneOlder<Q, R>(batchSize: nat, concurrency: nat, delay: nat, slack: nat)
    ensures NoneOlder<Q, R>(Initial(batchSize, concurrency, delay, slack), [])
  {
  }

  lemma TimeOfEach<Q, R>(s: State<Q, R>, times: seq<nat>)
    requires NoneOlder(s, times)
    ensures |times| == |s.channels|
  {
  }

  lemma CurrentIsYoung<Q, R>(s: State<Q, R>, times: seq<nat>, i: nat)
    requires Inv(s) && NoneOlder(s, times) && i < |CurrentItems(s.guarded)|
    ensures var k := CurrentItems(s.guarded)[i].channel;
            k < |times| && s.timer.now <= times[k] + s.timer.delay + s.timer.slack
  {
    hide AllItems, Total, CallOk, WellSized;
    assert CurrentItems(s.guarded)[i] in CurrentItems(s.guarded);
  }

  /** The age bound from submission: in every run, a request that was submitted more than
      `delay + slack` ago is in a batch that has been dispatched. */
  lemma DispatchedInTime<Q, R>(batchSize: nat, concurrency: nat, delay: nat, slack: nat,
                               steps: seq<Step<Q, R>>, k: nat) returns (b: nat, i: nat)
    requires Runs(Initial(batchSize, concurrency, delay, slack), steps)
    requires var start: State<Q, R> := Initial(batchSize, concurrency, delay, slack);
             var times := SubmitTimes(start, steps, []);
             k < |times| && Final(start, steps).timer.now > times[k] + delay + slack
    ensures var s: State<Q, R> := Final(Initial(batchSize, concurrency, delay, slack), steps);
            HeldAt(s.guarded, b, i, k) && b < |s.guarded.spawned|
  {
    hide Runs, Final, SubmitTimes, Inv, NoneOlder;
    var start: State<Q, R> := Initial(batchSize, concurrency, delay, slack);
    var s := Final(start, steps);
    StartInv<Q, R>(batchSize, concurrency, delay, slack);
    StartNoneOlder<Q, R>(batchSize, concurrency, delay, slack);
    RunNoneOlder(start, steps, []);
    TimeOfEach(s, SubmitTimes(start, steps, []));
    AlwaysInv<Q, R>(batchSize, concurrency, delay, slack, steps);
    b, i := Locate(s, k);
    if b == |s.guarded.spawned| {
      CurrentIsYoung(s, SubmitTimes(start, steps, []), i);
    }
  }
}
