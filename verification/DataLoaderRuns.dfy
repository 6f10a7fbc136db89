/** Every interleaving of callers, timer turns, tasks and fetchers of the data loader,
    crates/batching/src/dataloader.rs. A task drops its permit before it releases its waiters: the
    guards are dropped in the reverse order of their declaration. */
module DataLoaderRuns {
  import opened Wrappers
  import opened BatchTimer
  import opened DataLoading
  import opened Tally

  /** The task spawned for a batch: waiting for a permit, in the fetcher, back from it with the
      permit still held, without the permit, finished. */
  datatype Phase = Queued | Executing | Returned | Freed | Done

  /** `BatchResult`: the once-cell with what the fetcher returned, and whether the token is
      cancelled. A fetcher that panics leaves the cell empty. */
  datatype Cell<K, V> = Cell(value: Option<Option<map<K, V>>>, released: bool)

  /** A pending or completed `load_many`: `done` of its waiters have been consumed. */
  datatype Call<K, V> = Call(
    keys: seq<K>,
    waiters: seq<Waiting<K>>,
    done: nat,
    results: map<K, V>,
    outcome: Option<Result<map<K, V>, ()>>)

  datatype State<K, V> = State(
    size: nat,
    permits: nat,
    free: nat,
    timer: Timer,
    guarded: Guarded<K>,
    tasks: seq<Phase>,
    cells: seq<Cell<K, V>>,
    calls: seq<Call<K, V>>)

  datatype Step<K, V> =
    | Submit(keys: seq<K>)
    | Advance(to: nat)
    | LoopTurn
    | Acquire(batch: nat)
    | Answer(batch: nat, answer: Option<map<K, V>>)
    | Panic(batch: nat)
    | FreePermit(batch: nat)
    | Release(batch: nat)
    | Wake(call: nat)
    | Return(call: nat)

  function Initial<K, V>(batchSize: nat, concurrency: nat, delay: nat, slack: nat): State<K, V> {
    State(AtLeastOne(batchSize), AtLeastOne(concurrency), AtLeastOne(concurrency),
          Timer(0, delay, delay, slack), Guarded(None, []), [], [], [])
  }

  predicate TaskIn<K, V>(s: State<K, V>, b: nat, phase: Phase) {
    b < |s.tasks| && b < |s.cells| && s.tasks[b] == phase
  }

  predicate CallWaits<K, V>(s: State<K, V>, c: nat) {
    && c < |s.calls| && s.calls[c].outcome.None?
    && s.calls[c].done < |s.calls[c].waiters|
    && s.calls[c].waiters[s.calls[c].done].batch < |s.cells|
  }

  predicate Enabled<K, V>(s: State<K, V>, step: Step<K, V>) {
    match step
    case Submit(_) => true
    case Advance(to) => MayAdvance(s.timer, to)
    case LoopTurn => MayTurn(s.timer)
    case Acquire(b) => TaskIn(s, b, Queued) && s.free > 0
    case Answer(b, _) => TaskIn(s, b, Executing)
    case Panic(b) => TaskIn(s, b, Executing)
    case FreePermit(b) => TaskIn(s, b, Returned)
    case Release(b) => TaskIn(s, b, Freed)
    case Wake(c) => CallWaits(s, c) && s.cells[s.calls[c].waiters[s.calls[c].done].batch].released
    case Return(c) =>
      c < |s.calls| && s.calls[c].outcome.None? && s.calls[c].done == |s.calls[c].waiters|
  }

  /** The keys of a waiter that the batch's map has. */
  function Select<K, V>(keys: set<K>, m: map<K, V>): map<K, V> {
    map k | k in keys && k in m :: m[k]
  }

  /** A waiter is resolved: `wait().await?` and `results.extend(..)`. */
  function Resolve<K, V>(call: Call<K, V>, cell: Cell<K, V>): Call<K, V>
    requires call.done < |call.waiters|
  {
    match cell.value
    case Some(Some(m)) =>
      call.(results := call.results + Select(call.waiters[call.done].keys, m), done := call.done + 1)
    case _ => call.(outcome := Some(Err(())))
  }

  /** Tasks for the batches that a critical section spawned, and cells for those it created. */
  function Track<K, V>(s: State<K, V>, g: Guarded<K>): State<K, V> {
    var tasks := |g.spawned| - |s.tasks|;
    var cells := Batches(g) - |s.cells|;
    s.(guarded := g,
       tasks := s.tasks + seq(if tasks >= 0 then tasks else 0, _ => Queued),
       cells := s.cells + seq(if cells >= 0 then cells else 0, _ => Cell(None, false)))
  }

  function Apply<K, V>(s: State<K, V>, step: Step<K, V>): State<K, V>
    requires Enabled(s, step)
  {
    match step
    case Submit(keys) =>
      var l := AddKeys(s.guarded, keys, s.timer.now, s.size);
      Track(s, l.guarded).(calls := s.calls + [Call(keys, l.waiters, 0, map[], None)])
    case Advance(to) => s.(timer := s.timer.(now := to))
    case LoopTurn =>
      var created := Created(s.guarded);
      Track(s, if Due(s.timer, created) then Take(s.guarded) else s.guarded).(timer := Turn(s.timer, created))
    case Acquire(b) => s.(tasks := s.tasks[b := Executing], free := s.free - 1)
    case Answer(b, answer) =>
      s.(tasks := s.tasks[b := Returned], cells := s.cells[b := s.cells[b].(value := Some(answer))])
    case Panic(b) => s.(tasks := s.tasks[b := Returned])
    case FreePermit(b) => s.(tasks := s.tasks[b := Freed], free := s.free + 1)
    case Release(b) =>
      s.(tasks := s.tasks[b := Done], cells := s.cells[b := s.cells[b].(released := true)])
    case Wake(c) =>
      var call := s.calls[c];
      s.(calls := s.calls[c := Resolve(call, s.cells[call.waiters[call.done].batch])])
    case Return(c) => s.(calls := s.calls[c := s.calls[c].(outcome := Some(Ok(s.calls[c].results)))])
  }

  ghost predicate Runs<K, V>(s: State<K, V>, steps: seq<Step<K, V>>)
    decreases |steps|
  {
    steps == [] || (Enabled(s, steps[0]) && Runs(Apply(s, steps[0]), steps[1..]))
  }

  ghost function Final<K, V>(s: State<K, V>, steps: seq<Step<K, V>>): State<K, V>
    requires Runs(s, steps)
    decreases |steps|
  {
    if steps == [] then s else Final(Apply(s, steps[0]), steps[1..])
  }

  function Permit(phase: Phase): nat {
    if phase.Executing? || phase.Returned? then 1 else 0
  }

  /** The cell of a batch is empty until the fetcher is back, and its waiters are released last. */
  ghost predicate CellOk<K, V>(phase: Phase, cell: Cell<K, V>) {
    && (phase.Queued? || phase.Executing? ==> cell.value.None?)
    && (cell.released <==> phase.Done?)
  }

  ghost predicate CellsOk<K, V>(tasks: seq<Phase>, cells: seq<Cell<K, V>>) {
    && |tasks| <= |cells|
    && (forall b :: 0 <= b < |tasks| ==> CellOk(tasks[b], cells[b]))
    && (forall b :: |tasks| <= b < |cells| ==> cells[b] == Cell(None, false))
  }

  /** The batch produced no map: the fetcher returned none, or it panicked. */
  predicate NoMap<K, V>(cell: Cell<K, V>) {
    cell.released && (cell.value == None || cell.value == Some(None))
  }

  ghost predicate HasMap<K, V>(cell: Cell<K, V>) {
    cell.released && cell.value.Some? && cell.value.value.Some?
  }

  /** What the first waiters deliver together. */
  ghost function Gather<K, V>(cells: seq<Cell<K, V>>, waiters: seq<Waiting<K>>): map<K, V>
    requires forall w :: w in waiters ==> w.batch < |cells| && HasMap(cells[w.batch])
  {
    if waiters == [] then map[]
    else
      var last := waiters[|waiters| - 1];
      assert last in waiters && HasMap(cells[last.batch]);
      Gather(cells, waiters[..|waiters| - 1]) + Select(last.keys, cells[last.batch].value.value.value)
  }

  ghost predicate CallOk<K, V>(g: Guarded<K>, cells: seq<Cell<K, V>>, call: Call<K, V>) {
    && |cells| == Batches(g)
    && WaitersOk(g, call.waiters) && WaitedKeys(call.waiters) == KeySet(call.keys)
    && call.done <= |call.waiters|
    && (forall i :: 0 <= i < call.done ==> HasMap(cells[call.waiters[i].batch]))
    && call.results == Gather(cells, call.waiters[..call.done])
    && match call.outcome {
         case None => true
         case Some(Ok(r)) => call.done == |call.waiters| && r == call.results
         case Some(Err(_)) => call.done < |call.waiters| && NoMap(cells[call.waiters[call.done].batch])
       }
  }

  ghost predicate Inv<K, V>(s: State<K, V>) {
    && WellSized(s.guarded, s.size)
    && OnTime(s.timer, Created(s.guarded))
    && |s.tasks| == |s.guarded.spawned| && |s.cells| == Batches(s.guarded)
    && s.permits >= 1 && Total(Permit, s.tasks) + s.free == s.permits
    && CellsOk(s.tasks, s.cells)
    && (forall c :: 0 <= c < |s.calls| ==> CallOk(s.guarded, s.cells, s.calls[c]))
  }

  /** Cells that were released do not change any more. */
  ghost predicate CellsKeep<K, V>(cells: seq<Cell<K, V>>, cells': seq<Cell<K, V>>) {
    |cells| <= |cells'| && forall b :: 0 <= b < |cells| && cells[b].released ==> cells'[b] == cells[b]
  }

  lemma {:induction false} GatherKeeps<K, V>(cells: seq<Cell<K, V>>, cells': seq<Cell<K, V>>, waiters: seq<Waiting<K>>)
    requires forall w :: w in waiters ==> w.batch < |cells| && HasMap(cells[w.batch])
    requires CellsKeep(cells, cells')
    ensures forall w :: w in waiters ==> w.batch < |cells'| && HasMap(cells'[w.batch])
    ensures Gather(cells', waiters) == Gather(cells, waiters)
  {
    if waiters != [] {
      GatherKeeps(cells, cells', waiters[..|waiters| - 1]);
      assert waiters[|waiters| - 1] in waiters;
    }
  }

  lemma CallKeeps<K, V>(g: Guarded<K>, cells: seq<Cell<K, V>>, g': Guarded<K>, cells': seq<Cell<K, V>>,
                        call: Call<K, V>)
    requires CallOk(g, cells, call)
    requires Grows(g, g') && |cells'| == Batches(g') && CellsKeep(cells, cells')
    ensures CallOk(g', cells', call)
  {
    hide Gather, Grows, KeysOf, WaitedKeys;
    WaitersGrow(g, g', call.waiters);
    var first := call.waiters[..call.done];
    forall w | w in first
      ensures w.batch < |cells| && HasMap(cells[w.batch])
    {
      var i :| 0 <= i < call.done && w == call.waiters[i];
    }
    GatherKeeps(cells, cells', first);
    forall i | 0 <= i < call.done
      ensures HasMap(cells'[call.waiters[i].batch])
    {
      assert call.waiters[i] == first[i];
    }
  }

  lemma CallsKeep<K, V>(s: State<K, V>, g': Guarded<K>, cells': seq<Cell<K, V>>)
    requires Inv(s)
    requires Grows(s.guarded, g') && |cells'| == Batches(g') && CellsKeep(s.cells, cells')
    ensures forall c :: 0 <= c < |s.calls| ==> CallOk(g', cells', s.calls[c])
  {
    hide CallOk, Grows;
    forall c | 0 <= c < |s.calls|
      ensures CallOk(g', cells', s.calls[c])
    {
      CallKeeps(s.guarded, s.cells, g', cells', s.calls[c]);
    }
  }

  /** A critical section that leaves the batches in order keeps everything else. */
  lemma TrackKeeps<K, V>(s: State<K, V>, g: Guarded<K>)
    requires Inv(s) && Grows(s.guarded, g) && WellSized(g, s.size) && OnTime(s.timer, Created(g))
    ensures Inv(Track(s, g))
  {
    hide CallOk, Grows, WellSized, KeysOf, Total;
    var s' := Track(s, g);
    GrowsCounts(s.guarded, g);
    var queued: seq<Phase> := seq(|g.spawned| - |s.tasks|, _ => Queued);
    TotalConcat(Permit, s.tasks, queued);
    TotalOfZeros(Permit, queued);
    CallsKeep(s, g, s'.cells);
  }

  lemma GrowsCounts<K>(g: Guarded<K>, g': Guarded<K>)
    requires Grows(g, g')
    ensures |g.spawned| <= |g'.spawned| && Batches(g) <= Batches(g')
  {
  }

  lemma GrowsSame<K>(g: Guarded<K>)
    ensures Grows(g, g)
  {
  }

  lemma SubmitKeeps<K, V>(s: State<K, V>, keys: seq<K>)
    requires Inv(s)
    ensures Inv(Apply(s, Submit(keys)))
  {
    hide Grows, WellSized, KeysOf, AddKeys, Total, WaitedKeys, CellsOk, WaitersOk;
    AddKeysKeeps(s.guarded, keys, s.timer.now, s.size);
    CreateOnTime(s.timer, Created(s.guarded));
    var l := AddKeys(s.guarded, keys, s.timer.now, s.size);
    TrackKeeps(s, l.guarded);
    var call: Call<K, V> := Call(keys, l.waiters, 0, map[], None);
    NewCallOk(l, Track(s, l.guarded).cells, call, s.size);
  }

  lemma NewCallOk<K, V>(l: Section<K>, cells: seq<Cell<K, V>>, call: Call<K, V>, size: nat)
    requires SectionOk(l, size) && |cells| == Batches(l.guarded)
    requires call == Call(call.keys, l.waiters, 0, map[], None)
    requires WaitedKeys(l.waiters) == KeySet(call.keys)
    ensures CallOk(l.guarded, cells, call)
  {
    assert call.waiters[..0] == [];
  }

  lemma LoopTurnKeeps<K, V>(s: State<K, V>)
    requires Inv(s) && Enabled(s, LoopTurn)
    ensures Inv(Apply(s, LoopTurn))
  {
    hide Grows, WellSized, KeysOf, Total, CallOk, CellsOk;
    var created := Created(s.guarded);
    TurnOnTime(s.timer, created);
    var g := if Due(s.timer, created) then Take(s.guarded) else s.guarded;
    GrowsSame(s.guarded);
    if s.guarded.current.Some? {
      TakeKeeps(s.guarded, s.size);
    }
    CreateOnTime(s.timer, created);
    TrackKeeps(s, g);
  }

  /** A task moves on, and its cell with it. */
  lemma TaskKeeps<K, V>(s: State<K, V>, b: nat, phase: Phase, cell: Cell<K, V>, free: nat)
    requires Inv(s) && b < |s.tasks|
    requires !s.cells[b].released && CellOk(phase, cell)
    requires Permit(phase) + free == Permit(s.tasks[b]) + s.free
    ensures Inv(s.(tasks := s.tasks[b := phase], cells := s.cells[b := cell], free := free))
  {
    hide CallOk, Grows, WellSized, KeysOf, Total;
    TotalUpdate(Permit, s.tasks, b, phase);
    GrowsSame(s.guarded);
    CallsKeep(s, s.guarded, s.cells[b := cell]);
  }

  lemma WakeKeeps<K, V>(s: State<K, V>, c: nat)
    requires Inv(s) && Enabled(s, Wake(c))
    ensures Inv(Apply(s, Wake(c)))
  {
    hide Total, WellSized, CellsOk, KeysOf, WaitedKeys;
    var call := s.calls[c];
    var call' := Apply(s, Wake(c)).calls[c];
    assert CallOk(s.guarded, s.cells, call);
    assert call.waiters[..call.done + 1][..call.done] == call.waiters[..call.done];
    assert CallOk(s.guarded, s.cells, call');
    assert forall d :: 0 <= d < |s.calls| && d != c ==> Apply(s, Wake(c)).calls[d] == s.calls[d];
  }

  lemma StepKeeps<K, V>(s: State<K, V>, step: Step<K, V>)
    requires Inv(s) && Enabled(s, step)
    ensures Inv(Apply(s, step))
  {
    hide Total, WellSized, KeysOf, Gather;
    match step
    case Submit(keys) => SubmitKeeps(s, keys);
    case Advance(to) => AdvanceOnTime(s.timer, Created(s.guarded), to);
    case LoopTurn => LoopTurnKeeps(s);
    case Acquire(b) => TaskKeeps(s, b, Executing, s.cells[b], s.free - 1);
    case Answer(b, answer) => TaskKeeps(s, b, Returned, s.cells[b].(value := Some(answer)), s.free);
    case Panic(b) => TaskKeeps(s, b, Returned, s.cells[b], s.free);
    case FreePermit(b) => TaskKeeps(s, b, Freed, s.cells[b], s.free + 1);
    case Release(b) => TaskKeeps(s, b, Done, s.cells[b].(released := true), s.free);
    case Wake(c) => WakeKeeps(s, c);
    case Return(c) =>
  }

  /** Whatever the interleaving: sizes, permits, result cells, calls and the timer's schedule are as
      `Inv` says. */
  lemma AlwaysInv<K, V>(batchSize: nat, concurrency: nat, delay: nat, slack: nat, steps: seq<Step<K, V>>)
    requires Runs(Initial(batchSize, concurrency, delay, slack), steps)
    ensures var s: State<K, V> := Final(Initial(batchSize, concurrency, delay, slack), steps);
            && Inv(s)
            && s.size == AtLeastOne(batchSize) && s.permits == AtLeastOne(concurrency)
            && s.timer.delay == delay && s.timer.slack == slack
  {
    RunKeeps(Initial(batchSize, concurrency, delay, slack), steps);
  }

  /** The constructor's arguments stay in force. */
  predicate SameSettings<K, V>(s: State<K, V>, s': State<K, V>) {
    s'.size == s.size && s'.permits == s.permits && s'.timer.delay == s.timer.delay && s'.timer.slack == s.timer.slack
  }

  lemma StepKeepsSettings<K, V>(s: State<K, V>, step: Step<K, V>)
    requires Enabled(s, step)
    ensures SameSettings(s, Apply(s, step))
  {
  }

  lemma {:induction false} RunKeeps<K, V>(s: State<K, V>, steps: seq<Step<K, V>>)
    requires Inv(s) && Runs(s, steps)
    ensures Inv(Final(s, steps)) && SameSettings(s, Final(s, steps))
    decreases |steps|
  {
    hide Inv, Enabled, Apply;
    if steps != [] {
      StepKeeps(s, steps[0]);
      StepKeepsSettings(s, steps[0]);
      RunKeeps(Apply(s, steps[0]), steps[1..]);
    }
  }

  /** Dispatch is safe in every run: whenever the lock is free the current batch is absent or holds
      between one and `batch_size - 1` items, every dispatched batch holds between one and `batch_size`,
      and tasks that hold a permit and free permits add up to `max(1, concurrency)`. */
  lemma DispatchIsSafe<K, V>(batchSize: nat, concurrency: nat, delay: nat, slack: nat, steps: seq<Step<K, V>>)
    requires Runs(Initial(batchSize, concurrency, delay, slack), steps)
    ensures var s: State<K, V> := Final(Initial(batchSize, concurrency, delay, slack), steps);
            && (s.guarded.current.Some? ==> 1 <= |s.guarded.current.value.items| <= AtLeastOne(batchSize) - 1)
            && (forall b :: 0 <= b < |s.guarded.spawned| ==> 1 <= |s.guarded.spawned[b]| <= AtLeastOne(batchSize))
            && Total(Permit, s.tasks) + s.free == AtLeastOne(concurrency)
  {
    hide Runs, Final, Total;
    AlwaysInv<K, V>(batchSize, concurrency, delay, slack, steps);
  }

  /** The fetcher's answer to a key set agrees with the function `f` on the keys it was asked for. It
      may hold other keys. */
  ghost predicate Agrees<K, V>(f: K -> Option<V>, keys: set<K>, m: map<K, V>) {
    forall k :: k in keys ==> (k in m <==> f(k).Some?) && (k in m ==> m[k] == f(k).value)
  }

  /** Calling the fetcher directly, key by key. */
  ghost function Restrict<K, V>(f: K -> Option<V>, keys: set<K>): map<K, V> {
    map k | k in keys && f(k).Some? :: f(k).value
  }

  ghost predicate Faithful<K, V>(s: State<K, V>, step: Step<K, V>, f: K -> Option<V>)
    requires Enabled(s, step)
  {
    step.Answer? && step.answer.Some? && step.batch < Batches(s.guarded) ==>
      Agrees(f, KeysOf(s.guarded, step.batch), step.answer.value)
  }

  ghost predicate FaithfulAlways<K, V>(s: State<K, V>, steps: seq<Step<K, V>>, f: K -> Option<V>)
    requires Runs(s, steps)
    decreases |steps|
  {
    steps != [] ==> Faithful(s, steps[0], f) && FaithfulAlways(Apply(s, steps[0]), steps[1..], f)
  }

  /** Every map that a batch holds agrees with `f` on the keys of the batch. */
  ghost predicate CellsAgree<K, V>(g: Guarded<K>, cells: seq<Cell<K, V>>, f: K -> Option<V>)
    requires |cells| == Batches(g)
  {
    forall b :: 0 <= b < |cells| && cells[b].value.Some? && cells[b].value.value.Some? ==>
      Agrees(f, KeysOf(g, b), cells[b].value.value.value)
  }

  lemma StepAgrees<K, V>(s: State<K, V>, step: Step<K, V>, f: K -> Option<V>)
    requires Inv(s) && Enabled(s, step) && Faithful(s, step, f) && CellsAgree(s.guarded, s.cells, f)
    ensures Inv(Apply(s, step)) && CellsAgree(Apply(s, step).guarded, Apply(s, step).cells, f)
  {
    hide Total, WellSized, CallOk, Agrees, AddKeys;
    StepKeeps(s, step);
    match step
    case Submit(keys) =>
      AddKeysKeeps(s.guarded, keys, s.timer.now, s.size);
      SpawnedKeysStay(s, AddKeys(s.guarded, keys, s.timer.now, s.size).guarded);
    case LoopTurn =>
      GrowsSame(s.guarded);
      if s.guarded.current.Some? {
        TakeKeeps(s.guarded, s.size);
        SpawnedKeysStay(s, Take(s.guarded));
      }
    case _ =>
  }

  /** A batch that has an answer was spawned, and the keys of a spawned batch stay what they are. */
  lemma SpawnedKeysStay<K, V>(s: State<K, V>, g: Guarded<K>)
    requires Inv(s) && Grows(s.guarded, g)
    ensures forall b :: 0 <= b < |s.cells| && s.cells[b].value.Some? ==> KeysOf(g, b) == KeysOf(s.guarded, b)
  {
  }

  lemma {:induction false} RunAgrees<K, V>(s: State<K, V>, steps: seq<Step<K, V>>, f: K -> Option<V>)
    requires Inv(s) && Runs(s, steps) && FaithfulAlways(s, steps, f) && CellsAgree(s.guarded, s.cells, f)
    ensures var s' := Final(s, steps); Inv(s') && CellsAgree(s'.guarded, s'.cells, f)
    decreases |steps|
  {
    hide Inv, Apply, CellsAgree;
    InvHasCells(s);
    if steps != [] {
      StepAgrees(s, steps[0], f);
      RunAgrees(Apply(s, steps[0]), steps[1..], f);
    }
  }

  lemma InvHasCells<K, V>(s: State<K, V>)
    requires Inv(s)
    ensures |s.cells| == Batches(s.guarded)
  {
  }

  lemma {:induction false} GatherIsRestrict<K, V>(g: Guarded<K>, cells: seq<Cell<K, V>>, waiters: seq<Waiting<K>>,
                                                  f: K -> Option<V>)
    requires |cells| == Batches(g) && CellsAgree(g, cells, f) && WaitersOk(g, waiters)
    requires forall w :: w in waiters ==> HasMap(cells[w.batch])
    ensures Gather(cells, waiters) == Restrict(f, WaitedKeys(waiters))
  {
    hide KeysOf, Agrees;
    if waiters != [] {
      var init, last := waiters[..|waiters| - 1], waiters[|waiters| - 1];
      assert last in waiters;
      GatherIsRestrict(g, cells, init, f);
      var m := cells[last.batch].value.value.value;
      assert Agrees(f, KeysOf(g, last.batch), m);
      SelectIsRestrict(f, KeysOf(g, last.batch), last.keys, m);
      WaitedKeysSplit(waiters);
      assert Restrict(f, WaitedKeys(init)) + Restrict(f, last.keys) == Restrict(f, WaitedKeys(init) + last.keys);
    } else {
      assert WaitedKeys(waiters) == {};
    }
  }

  lemma SelectIsRestrict<K, V>(f: K -> Option<V>, asked: set<K>, keys: set<K>, m: map<K, V>)
    requires Agrees(f, asked, m) && keys <= asked
    ensures Select(keys, m) == Restrict(f, keys)
  {
  }

  lemma WaitedKeysSplit<K>(waiters: seq<Waiting<K>>)
    requires waiters != []
    ensures WaitedKeys(waiters) == WaitedKeys(waiters[..|waiters| - 1]) + waiters[|waiters| - 1].keys
  {
    var init, last := waiters[..|waiters| - 1], waiters[|waiters| - 1];
    assert waiters == init + [last];
  }

  /** Batched loading agrees with calling the fetcher directly. In every run in which the fetcher's
      answers agree with `f`, a completed `load_many` returns exactly `f` restricted to its keys, or
      an error; and it is an error exactly when one of the batches it waited for produced no map. */
  lemma LoadManyAgrees<K, V>(s: State<K, V>, f: K -> Option<V>, c: nat)
    requires Inv(s) && CellsAgree(s.guarded, s.cells, f)
    requires c < |s.calls| && s.calls[c].outcome.Some?
    ensures var call := s.calls[c];
            && (call.outcome.value.Ok? ==> call.outcome.value.value == Restrict(f, KeySet(call.keys)))
            && (call.outcome.value.Err? <==>
                exists w :: w in call.waiters && w.batch < |s.cells| && NoMap(s.cells[w.batch]))
  {
    hide WellSized, Total, CellsOk, KeysOf, Gather, WaitedKeys;
    var call := s.calls[c];
    assert CallOk(s.guarded, s.cells, call);
    if call.outcome.value.Ok? {
      assert call.waiters[..call.done] == call.waiters;
      forall w | w in call.waiters
        ensures w.batch < |s.cells| && HasMap(s.cells[w.batch])
      {
        var i :| 0 <= i < |call.waiters| && w == call.waiters[i];
      }
      GatherIsRestrict(s.guarded, s.cells, call.waiters, f);
    } else {
      assert call.waiters[call.done] in call.waiters;
    }
  }

  lemma StartOk<K, V>(batchSize: nat, concurrency: nat, delay: nat, slack: nat, f: K -> Option<V>)
    ensures var s: State<K, V> := Initial(batchSize, concurrency, delay, slack);
            Inv(s) && CellsAgree(s.guarded, s.cells, f)
  {
  }

  lemma LoadManyAgreesAlways<K, V>(batchSize: nat, concurrency: nat, delay: nat, slack: nat,
                                   steps: seq<Step<K, V>>, f: K -> Option<V>, c: nat)
    requires Runs(Initial(batchSize, concurrency, delay, slack), steps)
    requires FaithfulAlways(Initial(batchSize, concurrency, delay, slack), steps, f)
    requires var s := Final(Initial(batchSize, concurrency, delay, slack), steps);
             c < |s.calls| && s.calls[c].outcome.Some?
    ensures var s := Final(Initial(batchSize, concurrency, delay, slack), steps);
            var call := s.calls[c];
            && (call.outcome.value.Ok? ==> call.outcome.value.value == Restrict(f, KeySet(call.keys)))
            && (call.outcome.value.Err? <==>
                exists w :: w in call.waiters && w.batch < |s.cells| && NoMap(s.cells[w.batch]))
  {
    hide Final, Runs, FaithfulAlways, Inv;
    var start: State<K, V> := Initial(batchSize, concurrency, delay, slack);
    StartOk<K, V>(batchSize, concurrency, delay, slack, f);
    RunAgrees(start, steps, f);
    LoadManyAgrees(Final(start, steps), f, c);
  }

  /** The once-cell is empty whenever a fetcher comes back, so that setting it never fails, and no
      step changes a cell that was set or releases waiters of a batch that is not back. */
  lemma PublishOnce<K, V>(s: State<K, V>, step: Step<K, V>, b: nat)
    requires Inv(s) && Enabled(s, step) && b < |s.cells|
    ensures step.Answer? && step.batch == b ==> s.cells[b].value.None?
    ensures b < |Apply(s, step).cells|
    ensures s.cells[b].value.Some? ==> Apply(s, step).cells[b].value == s.cells[b].value
    ensures s.cells[b].released ==> Apply(s, step).cells[b] == s.cells[b]
    ensures !s.cells[b].released && Apply(s, step).cells[b].released ==>
              step == Release(b) && b < |s.tasks| && s.tasks[b] == Freed
  {
    hide WellSized, Total, CallOk, KeysOf, AddKeys;
    if step.Submit? {
      AddKeysKeeps(s.guarded, step.keys, s.timer.now, s.size);
    }
  }

  /** The fetcher of the batch is back, and the cell is empty. */
  ghost predicate Unset<K, V>(s: State<K, V>, b: nat) {
    && b < |s.tasks| && b < |s.cells|
    && !s.tasks[b].Queued? && !s.tasks[b].Executing? && s.cells[b].value.None?
  }

  lemma StepUnsets<K, V>(s: State<K, V>, step: Step<K, V>, b: nat)
    requires Inv(s) && Enabled(s, step)
    ensures Unset(Apply(s, step), b) <==> Unset(s, b) || step == Panic(b)
  {
    hide WellSized, Total, CallOk, KeysOf, AddKeys;
  }

  lemma {:induction false} RunUnsets<K, V>(s: State<K, V>, steps: seq<Step<K, V>>, b: nat)
    requires Inv(s) && Runs(s, steps)
    ensures Unset(Final(s, steps), b) <==> Unset(s, b) || Panic(b) in steps
    decreases |steps|
  {
    hide Inv, Enabled, Apply, Unset;
    if steps != [] {
      StepKeeps(s, steps[0]);
      StepUnsets(s, steps[0], b);
      RunUnsets(Apply(s, steps[0]), steps[1..], b);
      assert steps == [steps[0]] + steps[1..];
    }
  }

  /** In every run, a cell whose waiters were released holds what the fetcher returned, unless the
      fetcher panicked: the cell is set before its waiters are released on every normal completion. */
  lemma ReleasedIsSetUnlessPanic<K, V>(batchSize: nat, concurrency: nat, delay: nat, slack: nat,
                                       steps: seq<Step<K, V>>, b: nat)
    requires Runs(Initial(batchSize, concurrency, delay, slack), steps)
    requires var s: State<K, V> := Final(Initial(batchSize, concurrency, delay, slack), steps);
             b < |s.cells| && s.cells[b].released
    ensures var s: State<K, V> := Final(Initial(batchSize, concurrency, delay, slack), steps);
            s.cells[b].value.None? <==> Panic(b) in steps
  {
    hide Runs, Final, Total, CallOk, WellSized;
    var start: State<K, V> := Initial(batchSize, concurrency, delay, slack);
    AlwaysInv<K, V>(batchSize, concurrency, delay, slack, steps);
    StartOk<K, V>(batchSize, concurrency, delay, slack, _ => None);
    RunUnsets(start, steps, b);
  }

  /** In every reachable state the batch that is current is younger than `delay + slack`, and the next
      turn of the loop is scheduled no later than it comes of age. */
  lemma AgeBound<K, V>(batchSize: nat, concurrency: nat, delay: nat, slack: nat, steps: seq<Step<K, V>>)
    requires Runs(Initial(batchSize, concurrency, delay, slack), steps)
    ensures var s: State<K, V> := Final(Initial(batchSize, concurrency, delay, slack), steps);
            s.guarded.current.Some? ==>
              && s.timer.wakeAt <= s.guarded.current.value.createdAt + delay
              && Age(s.timer, s.guarded.current.value.createdAt) <= delay + slack
  {
    hide CallOk, CellsOk, Total, Runs, Final;
    AlwaysInv<K, V>(batchSize, concurrency, delay, slack, steps);
  }

  /** The turn of the loop takes batch `b`, which is at least `delay` old. */
  predicate TakesOld<K, V>(s: State<K, V>, step: Step<K, V>, b: nat) {
    && step.LoopTurn? && s.guarded.current.Some? && |s.guarded.spawned| == b
    && s.timer.now >= s.guarded.current.value.createdAt + s.timer.delay
  }

  ghost predicate TakenOld<K, V>(s: State<K, V>, steps: seq<Step<K, V>>, b: nat)
    requires Runs(s, steps)
    decreases |steps|
  {
    steps != [] && (TakesOld(s, steps[0], b) || TakenOld(Apply(s, steps[0]), steps[1..], b))
  }

  /** A step that dispatches a batch either has filled it or takes it because it is old. */
  lemma StepDispatches<K, V>(s: State<K, V>, step: Step<K, V>, b: nat)
    requires Inv(s) && Enabled(s, step)
    ensures s.guarded.spawned <= Apply(s, step).guarded.spawned
    ensures |s.guarded.spawned| <= b < |Apply(s, step).guarded.spawned| ==>
              |Apply(s, step).guarded.spawned[b]| == s.size || TakesOld(s, step, b)
  {
    hide Total, CallOk, CellsOk, WellSized, AddKeys, KeysOf;
    match step
    case Submit(keys) =>
      AddKeysCreation(s.guarded, keys, s.timer.now, s.size);
      AddKeysFull(s.guarded, keys, s.timer.now, s.size);
    case LoopTurn => DueIsOld(s.timer, Created(s.guarded));
    case _ =>
  }

  lemma {:induction false} RunDispatches<K, V>(s: State<K, V>, steps: seq<Step<K, V>>, b: nat)
    requires Inv(s) && Runs(s, steps) && |s.guarded.spawned| <= b < |Final(s, steps).guarded.spawned|
    ensures |Final(s, steps).guarded.spawned[b]| == s.size || TakenOld(s, steps, b)
    decreases |steps|
  {
    hide Inv, Enabled, Apply, TakesOld;
    var s' := Apply(s, steps[0]);
    StepKeeps(s, steps[0]);
    StepKeepsSettings(s, steps[0]);
    StepDispatches(s, steps[0], b);
    if b < |s'.guarded.spawned| {
      SpawnedStayAlways(s', steps[1..]);
    } else {
      RunDispatches(s', steps[1..], b);
    }
  }

  lemma {:induction false} SpawnedStayAlways<K, V>(s: State<K, V>, steps: seq<Step<K, V>>)
    requires Inv(s) && Runs(s, steps)
    ensures s.guarded.spawned <= Final(s, steps).guarded.spawned
    decreases |steps|
  {
    hide Inv, Enabled, Apply, TakesOld;
    if steps != [] {
      StepKeeps(s, steps[0]);
      StepDispatches(s, steps[0], |s.guarded.spawned|);
      SpawnedStayAlways(Apply(s, steps[0]), steps[1..]);
    }
  }

  /** Batching happens: in every run, a batch that was dispatched with fewer than `max(1, batch_size)`
      keys was taken by a turn of the timer loop, at an age of at least `delay`. */
  lemma DispatchedFullOrOld<K, V>(batchSize: nat, concurrency: nat, delay: nat, slack: nat,
                                  steps: seq<Step<K, V>>, b: nat)
    requires Runs(Initial(batchSize, concurrency, delay, slack), steps)
    requires b < |Final<K, V>(Initial(batchSize, concurrency, delay, slack), steps).guarded.spawned|
    ensures var start: State<K, V> := Initial(batchSize, concurrency, delay, slack);
            |Final(start, steps).guarded.spawned[b]| == AtLeastOne(batchSize) || TakenOld(start, steps, b)
  {
    hide Runs, Final, Inv;
    var start: State<K, V> := Initial(batchSize, concurrency, delay, slack);
    StartOk<K, V>(batchSize, concurrency, delay, slack, _ => None);
    RunDispatches(start, steps, b);
  }

  /** When each call was made: the time of its critical section. */
  ghost function CallTimes<K, V>(s: State<K, V>, steps: seq<Step<K, V>>, times: seq<nat>): seq<nat>
    requires Runs(s, steps)
    decreases |steps|
  {
    if steps == [] then times
    else CallTimes(Apply(s, steps[0]), steps[1..], TimesBehind(s, steps[0], times))
  }

  function TimesBehind<K, V>(s: State<K, V>, step: Step<K, V>, times: seq<nat>): seq<nat> {
    if step.Submit? then times + [s.timer.now] else times
  }

  /** No call that waits for the current batch is older than the batch. */
  ghost predicate NoneOlder<K, V>(s: State<K, V>, times: seq<nat>) {
    && |times| == |s.calls|
    && forall c :: 0 <= c < |s.calls| ==> NotOlder(s.guarded, s.calls[c].waiters, times[c])
  }

  ghost predicate NotOlder<K>(g: Guarded<K>, waiters: seq<Waiting<K>>, time: nat) {
    forall w :: w in waiters && g.current.Some? && w.batch == |g.spawned| ==> time >= g.current.value.createdAt
  }

  lemma StepNoneOlder<K, V>(s: State<K, V>, step: Step<K, V>, times: seq<nat>)
    requires Inv(s) && NoneOlder(s, times) && Enabled(s, step)
    ensures NoneOlder(Apply(s, step), TimesBehind(s, step, times))
  {
    hide Total, CellsOk, WellSized, AddKeys, KeysOf, WaitedKeys, Gather, CallOk;
    var s' := Apply(s, step);
    StepWaitersStay(s, step);
    if step.Submit? {
      AddKeysCreation(s.guarded, step.keys, s.timer.now, s.size);
    }
    forall c | 0 <= c < |s.calls|
      ensures NotOlder(s'.guarded, s'.calls[c].waiters, times[c])
    {
      WaitsForExisting(s, c);
      assert NotOlder(s.guarded, s.calls[c].waiters, times[c]);
      assert s'.calls[c].waiters == s.calls[c].waiters;
    }
  }

  lemma WaitsForExisting<K, V>(s: State<K, V>, c: nat)
    requires Inv(s) && c < |s.calls|
    ensures WaitedKeys(s.calls[c].waiters) == KeySet(s.calls[c].keys)
    ensures forall w :: w in s.calls[c].waiters ==>
              w.batch < Batches(s.guarded) && w.keys <= KeysOf(s.guarded, w.batch)
  {
    hide Total, CellsOk, WellSized, KeysOf, WaitedKeys, Gather;
    assert CallOk(s.guarded, s.cells, s.calls[c]);
  }

  lemma {:induction false} RunNoneOlder<K, V>(s: State<K, V>, steps: seq<Step<K, V>>, times: seq<nat>)
    requires Inv(s) && NoneOlder(s, times) && Runs(s, steps)
    ensures NoneOlder(Final(s, steps), CallTimes(s, steps, times))
    decreases |steps|
  {
    hide Inv, NoneOlder, Enabled, Apply, TimesBehind;
    if steps != [] {
      StepKeeps(s, steps[0]);
      StepNoneOlder(s, steps[0], times);
      RunNoneOlder(Apply(s, steps[0]), steps[1..], TimesBehind(s, steps[0], times));
    }
  }

  /** The keys that a call expects together are its keys, each from a batch that has been dispatched
      with it. */
  ghost predicate AllDispatched<K, V>(g: Guarded<K>, call: Call<K, V>) {
    && WaitedKeys(call.waiters) == KeySet(call.keys)
    && forall w :: w in call.waiters ==> w.batch < |g.spawned| && w.keys <= g.spawned[w.batch]
  }

  lemma OldIsDispatched<K, V>(s: State<K, V>, times: seq<nat>, c: nat)
    requires Inv(s) && NoneOlder(s, times) && c < |s.calls|
    ensures c < |times|
    ensures s.timer.now > times[c] + s.timer.delay + s.timer.slack ==> AllDispatched(s.guarded, s.calls[c])
  {
    hide Total, CellsOk, WellSized, WaitedKeys, CallOk;
    WaitsForExisting(s, c);
    assert NotOlder(s.guarded, s.calls[c].waiters, times[c]);
  }

  /** The age bound from the call: in every run, all keys of a `load_many` that was called more than
      `delay + slack` ago are in batches that have been dispatched. */
  lemma DispatchedInTime<K, V>(batchSize: nat, concurrency: nat, delay: nat, slack: nat,
                               steps: seq<Step<K, V>>, c: nat)
    requires Runs(Initial(batchSize, concurrency, delay, slack), steps)
    requires c < |Final<K, V>(Initial(batchSize, concurrency, delay, slack), steps).calls|
    ensures var start: State<K, V> := Initial(batchSize, concurrency, delay, slack);
            var s, times := Final(start, steps), CallTimes(start, steps, []);
            && |times| == |s.calls|
            && (s.timer.now > times[c] + delay + slack ==> AllDispatched(s.guarded, s.calls[c]))
  {
    hide Runs, Final, CallTimes, Inv, NoneOlder, AllDispatched;
    var start: State<K, V> := Initial(batchSize, concurrency, delay, slack);
    var s := Final(start, steps);
    StartOk<K, V>(batchSize, concurrency, delay, slack, _ => None);
    StartNoneOlder<K, V>(batchSize, concurrency, delay, slack);
    RunNoneOlder(start, steps, []);
    AlwaysInv<K, V>(batchSize, concurrency, delay, slack, steps);
    TimeOfEach(s, CallTimes(start, steps, []));
    OldIsDispatched(s, CallTimes(start, steps, []), c);
  }

  lemma StartNoneOlder<K, V>(batchSize: nat, concurrency: nat, delay: nat, slack: nat)
    ensures NoneOlder<K, V>(Initial(batchSize, concurrency, delay, slack), [])
  {
  }

  lemma TimeOfEach<K, V>(s: State<K, V>, times: seq<nat>)
    requires NoneOlder(s, times)
    ensures |times| == |s.calls|
  {
  }

  ghost predicate SomebodyExpects<K, V>(calls: seq<Call<K, V>>, b: nat, k: K) {
    exists c :: 0 <= c < |calls| && k in ExpectedKeys(calls[c].waiters, b)
  }

  /** Every key of every batch is expected from that batch by some call. */
  ghost predicate NothingUnwanted<K(!new), V>(s: State<K, V>) {
    forall b, k :: 0 <= b < Batches(s.guarded) && k in KeysOf(s.guarded, b) ==> SomebodyExpects(s.calls, b, k)
  }

  /** Calls keep their waiters. */
  ghost predicate WaitersStay<K, V>(calls: seq<Call<K, V>>, calls': seq<Call<K, V>>) {
    |calls| <= |calls'| && forall c :: 0 <= c < |calls| ==> calls'[c].waiters == calls[c].waiters
  }

  lemma ExpectsStays<K, V>(calls: seq<Call<K, V>>, calls': seq<Call<K, V>>, b: nat, k: K)
    requires SomebodyExpects(calls, b, k) && WaitersStay(calls, calls')
    ensures SomebodyExpects(calls', b, k)
  {
    var c :| 0 <= c < |calls| && k in ExpectedKeys(calls[c].waiters, b);
    assert calls'[c].waiters == calls[c].waiters;
  }

  lemma StepWaitersStay<K, V>(s: State<K, V>, step: Step<K, V>)
    requires Enabled(s, step)
    ensures WaitersStay(s.calls, Apply(s, step).calls)
  {
  }

  /** What a step adds to a batch is what its call expects. */
  lemma StepExpected<K, V>(s: State<K, V>, step: Step<K, V>, b: nat, k: K)
    requires Inv(s) && Enabled(s, step)
    requires b < Batches(Apply(s, step).guarded) && k in KeysOf(Apply(s, step).guarded, b)
    ensures k in KeysBefore(s.guarded, b) || SomebodyExpects(Apply(s, step).calls, b, k)
  {
    hide Total, CallOk, CellsOk, WellSized, AddKeys, ExpectedKeys;
    if step.Submit? {
      AddKeysExpected(s.guarded, step.keys, s.timer.now, s.size);
      var l := AddKeys(s.guarded, step.keys, s.timer.now, s.size);
      assert Apply(s, step).calls[|s.calls|].waiters == l.waiters;
    }
  }

  lemma StepWanted<K(!new), V>(s: State<K, V>, step: Step<K, V>)
    requires Inv(s) && NothingUnwanted(s) && Enabled(s, step)
    ensures NothingUnwanted(Apply(s, step))
  {
    hide Inv, Enabled, Apply, KeysOf, SomebodyExpects;
    var s' := Apply(s, step);
    StepWaitersStay(s, step);
    forall b, k | 0 <= b < Batches(s'.guarded) && k in KeysOf(s'.guarded, b)
      ensures SomebodyExpects(s'.calls, b, k)
    {
      StepExpected(s, step, b, k);
      if k in KeysBefore(s.guarded, b) {
        ExpectsStays(s.calls, s'.calls, b, k);
      }
    }
  }

  lemma {:induction false} RunWanted<K(!new), V>(s: State<K, V>, steps: seq<Step<K, V>>)
    requires Inv(s) && NothingUnwanted(s) && Runs(s, steps)
    ensures Inv(Final(s, steps)) && NothingUnwanted(Final(s, steps))
    decreases |steps|
  {
    hide Inv, Enabled, Apply, NothingUnwanted;
    if steps != [] {
      StepKeeps(s, steps[0]);
      StepWanted(s, steps[0]);
      RunWanted(Apply(s, steps[0]), steps[1..]);
    }
  }

  /** In every run, a batch holds exactly the keys that callers expect from it: nothing is fetched that
      nobody asked for, and nothing that was asked for is missing. */
  lemma FetchedIffExpected<K(!new), V>(batchSize: nat, concurrency: nat, delay: nat, slack: nat,
                                       steps: seq<Step<K, V>>, b: nat, k: K)
    requires Runs(Initial(batchSize, concurrency, delay, slack), steps)
    requires b < Batches(Final<K, V>(Initial(batchSize, concurrency, delay, slack), steps).guarded)
    ensures var s: State<K, V> := Final(Initial(batchSize, concurrency, delay, slack), steps);
            k in KeysOf(s.guarded, b) <==> SomebodyExpects(s.calls, b, k)
  {
    hide Inv, Runs, Final;
    var start: State<K, V> := Initial(batchSize, concurrency, delay, slack);
    StartOk<K, V>(batchSize, concurrency, delay, slack, _ => None);
    RunWanted(start, steps);
    var s := Final(start, steps);
    if SomebodyExpects(s.calls, b, k) {
      ExpectedIsFetched(s, b, k);
    }
  }

  lemma ExpectedIsFetched<K, V>(s: State<K, V>, b: nat, k: K)
    requires Inv(s) && b < Batches(s.guarded) && SomebodyExpects(s.calls, b, k)
    ensures k in KeysOf(s.guarded, b)
  {
    hide WellSized, Total, CellsOk, KeysOf, Gather, WaitedKeys;
    var c :| 0 <= c < |s.calls| && k in ExpectedKeys(s.calls[c].waiters, b);
    assert CallOk(s.guarded, s.cells, s.calls[c]);
  }

  /** `load`: in every run, the map that a call for a single key returns holds that key's value and
      nothing else, or nothing, so that its first value is what `load` returns. */
  lemma LoadOne<K, V>(batchSize: nat, concurrency: nat, delay: nat, slack: nat,
                      steps: seq<Step<K, V>>, f: K -> Option<V>, c: nat, key: K)
    requires Runs(Initial(batchSize, concurrency, delay, slack), steps)
    requires FaithfulAlways(Initial(batchSize, concurrency, delay, slack), steps, f)
    requires var s := Final(Initial(batchSize, concurrency, delay, slack), steps);
             c < |s.calls| && s.calls[c].keys == [key]
    ensures var s := Final(Initial(batchSize, concurrency, delay, slack), steps);
            s.calls[c].outcome.Some? && s.calls[c].outcome.value.Ok? ==>
              s.calls[c].outcome.value.value == if f(key).Some? then map[key := f(key).value] else map[]
  {
    hide Final, Runs, FaithfulAlways;
    var s := Final(Initial(batchSize, concurrency, delay, slack), steps);
    if s.calls[c].outcome.Some? && s.calls[c].outcome.value.Ok? {
      LoadManyAgreesAlways(batchSize, concurrency, delay, slack, steps, f, c);
      assert KeySet([key]) == {key};
    }
  }
}
