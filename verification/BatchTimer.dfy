/** The timer of `batch_loop`, which the batcher and the data loader share:
    crates/batching/src/batch.rs:248-273 and crates/batching/src/dataloader.rs:212-237. */
module BatchTimer {
  import opened Wrappers

  /** Instants and durations in some unit. The loop sleeps until `wakeAt` and then runs at most
      `slack` late; `slack` also covers the wait for the lock. */
  datatype Timer = Timer(now: nat, wakeAt: nat, delay: nat, slack: nat)

  /** `max(1)`. */
  function AtLeastOne(n: nat): nat {
    if n >= 1 then n else 1
  }

  /** `Duration::saturating_sub`. */
  function SaturatingSub(a: nat, b: nat): nat {
    if a >= b then a - b else 0
  }

  function Age(t: Timer, created: nat): nat {
    SaturatingSub(t.now, created)
  }

  /** Whether a turn of the loop dispatches the current batch. */
  predicate Due(t: Timer, created: Option<nat>) {
    created.Some? && SaturatingSub(t.delay, Age(t, created.value)) == 0
  }

  /** A batch is dispatched by a turn exactly when it is at least `delay` old. */
  lemma DueIsOld(t: Timer, created: Option<nat>)
    ensures created.Some? && created.value <= t.now ==> (Due(t, created) <==> t.now >= created.value + t.delay)
  {
  }

  /** The timer behind a turn of the loop. */
  function Turn(t: Timer, created: Option<nat>): Timer {
    var sleep := if created.None? || Due(t, created) then t.delay
                 else SaturatingSub(t.delay, Age(t, created.value));
    t.(wakeAt := t.now + sleep)
  }

  predicate MayTurn(t: Timer) {
    t.wakeAt <= t.now
  }

  predicate MayAdvance(t: Timer, to: nat) {
    t.now <= to <= t.wakeAt + t.slack
  }

  /** The loop is scheduled no later than the current batch comes of age. */
  ghost predicate OnTime(t: Timer, created: Option<nat>) {
    && t.wakeAt <= t.now + t.delay
    && t.now <= t.wakeAt + t.slack
    && (created.Some? ==> created.value <= t.now && t.wakeAt <= created.value + t.delay)
  }

  lemma TurnOnTime(t: Timer, created: Option<nat>)
    requires OnTime(t, created) && MayTurn(t)
    ensures OnTime(Turn(t, created), if Due(t, created) then None else created)
    ensures created.Some? && !Due(t, created) ==> Turn(t, created).wakeAt == created.value + t.delay
  {
  }

  lemma AdvanceOnTime(t: Timer, created: Option<nat>, to: nat)
    requires OnTime(t, created) && MayAdvance(t, to)
    ensures OnTime(t.(now := to), created)
  {
  }

  /** A batch may be created, or be replaced by another one, at any moment. */
  lemma CreateOnTime(t: Timer, created: Option<nat>)
    requires OnTime(t, created)
    ensures OnTime(t, Some(t.now)) && OnTime(t, None)
  {
  }

  /** How far the loop is from the turn that dispatches the current batch: twice the time by which it
      is scheduled too early for that, and one more while it sleeps. */
  function Distance(t: Timer, created: Option<nat>): nat {
    (if created.Some? then 2 * SaturatingSub(created.value + t.delay, t.wakeAt) else 0)
    + if t.now < t.wakeAt then 1 else 0
  }

  /** While there is a current batch, the loop can go on sleeping until its scheduled time, or it can
      take a turn, which dispatches the batch or brings the loop closer to doing so. */
  lemma TimerComesCloser(t: Timer, created: Option<nat>)
    requires OnTime(t, created) && created.Some?
    ensures t.now < t.wakeAt ==>
              MayAdvance(t, t.wakeAt) && Distance(t.(now := t.wakeAt), created) < Distance(t, created)
    ensures t.now >= t.wakeAt ==>
              MayTurn(t) && (Due(t, created) || Distance(Turn(t, created), created) < Distance(t, created))
  {
  }
}
