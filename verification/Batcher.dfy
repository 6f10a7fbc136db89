/** The batcher of crates/batching/src/batch.rs: what its two critical sections do to the current
    batch, as functions and as the code's own loops. */
module Batching {
  import opened Wrappers
  import opened BatchTimer
  import opened Bits
  import opened Tally

  /** A request together with the oneshot channel that its caller waits on. */
  datatype Item<Q> = Item(request: Q, channel: nat)

  datatype Batch<Q> = Batch(items: seq<Item<Q>>, createdAt: nat)

  /** The guarded `current_batch`, and the item lists that were handed to spawned tasks so far. */
  datatype Guarded<Q> = Guarded(current: Option<Batch<Q>>, spawned: seq<seq<Item<Q>>>)

  function CurrentItems<Q>(g: Guarded<Q>): seq<Item<Q>> {
    if g.current.Some? then g.current.value.items else []
  }

  function Created<Q>(g: Guarded<Q>): Option<nat> {
    if g.current.Some? then Some(g.current.value.createdAt) else None
  }

  /** One turn of the loop in `execute_many`. */
  function Push<Q>(g: Guarded<Q>, item: Item<Q>, now: nat, size: nat): Guarded<Q> {
    var batch := if g.current.Some? then g.current.value else Batch([], now);
    var items := batch.items + [item];
    if |items| >= size then Guarded(None, g.spawned + [items])
    else Guarded(Some(batch.(items := items)), g.spawned)
  }

  function PushAll<Q>(g: Guarded<Q>, items: seq<Item<Q>>, now: nat, size: nat): Guarded<Q> {
    if items == [] then g
    else Push(PushAll(g, items[..|items| - 1], now, size), items[|items| - 1], now, size)
  }

  /** The timer loop takes the current batch. */
  function Take<Q>(g: Guarded<Q>): Guarded<Q>
    requires g.current.Some?
  {
    Guarded(None, g.spawned + [g.current.value.items])
  }

  /** The items for the given requests, on fresh channels. */
  function ItemsFor<Q>(requests: seq<Q>, channel: nat): (items: seq<Item<Q>>)
    ensures |items| == |requests|
    ensures forall i :: 0 <= i < |items| ==> items[i] == Item(requests[i], channel + i)
  {
    seq(|requests|, i requires 0 <= i < |requests| => Item(requests[i], channel + i))
  }

  function Flatten<T>(xss: seq<seq<T>>): seq<T> {
    if xss == [] then [] else Flatten(xss[..|xss| - 1]) + xss[|xss| - 1]
  }

  lemma FlattenNothing<T>()
    ensures Flatten<T>([]) == []
  {
  }

  lemma FlattenExtend<T>(xss: seq<seq<T>>, xs: seq<T>)
    ensures Flatten(xss + [xs]) == Flatten(xss) + xs
  {
    assert (xss + [xs])[..|xss|] == xss;
  }

  /** Every item that was ever submitted, in the order of the batches. */
  function AllItems<Q>(g: Guarded<Q>): seq<Item<Q>> {
    Flatten(g.spawned) + CurrentItems(g)
  }

  /** When the lock is free, the current batch is neither empty nor full, and no batch that was
      spawned is empty or too large. */
  ghost predicate WellSized<Q>(g: Guarded<Q>, size: nat) {
    && size >= 1
    && (g.current.Some? ==> 1 <= |g.current.value.items| < size)
    && (forall b :: 0 <= b < |g.spawned| ==> 1 <= |g.spawned[b]| <= size)
  }

  lemma PushKeeps<Q>(g: Guarded<Q>, item: Item<Q>, now: nat, size: nat)
    requires WellSized(g, size)
    ensures var g' := Push(g, item, now, size);
            && WellSized(g', size)
            && AllItems(g') == AllItems(g) + [item]
            && g.spawned <= g'.spawned
            && (Created(g') == Created(g) || Created(g') == Some(now) || Created(g') == None)
  {
    var items := CurrentItems(g) + [item];
    FlattenExtend(g.spawned, items);
    assert Flatten(g.spawned) + items == AllItems(g) + [item];
  }

  lemma {:induction false} PushAllKeeps<Q>(g: Guarded<Q>, items: seq<Item<Q>>, now: nat, size: nat)
    requires WellSized(g, size)
    ensures var g' := PushAll(g, items, now, size);
            && WellSized(g', size)
            && AllItems(g') == AllItems(g) + items
            && g.spawned <= g'.spawned
            && (Created(g') == Created(g) || Created(g') == Some(now) || Created(g') == None)
  {
    hide Push, PushAll, WellSized, AllItems, Created;
    if items == [] {
      PushNothing(g, now, size);
      assert AllItems(g) + items == AllItems(g);
    } else {
      PushAllStep(g, items, now, size);
      var init := items[..|items| - 1];
      PushAllKeeps(g, init, now, size);
      PushKeeps(PushAll(g, init, now, size), items[|items| - 1], now, size);
      assert items == init + [items[|items| - 1]];
    }
  }

  lemma TakeKeeps<Q>(g: Guarded<Q>, size: nat)
    requires WellSized(g, size) && g.current.Some?
    ensures WellSized(Take(g), size) && AllItems(Take(g)) == AllItems(g) && g.spawned <= Take(g).spawned
  {
    FlattenExtend(g.spawned, g.current.value.items);
  }

  /** A batch that stays current keeps its creation time; a batch that becomes current has been created
      by this call, and holds only items of it. */
  ghost predicate KeepsCreation<Q>(g: Guarded<Q>, g': Guarded<Q>, items: seq<Item<Q>>, now: nat) {
    if g.current.Some? && |g'.spawned| == |g.spawned| then Created(g') == Created(g)
    else g'.current.Some? ==> Created(g') == Some(now) && forall x :: x in CurrentItems(g') ==> x in items
  }

  lemma {:induction false} PushAllCreation<Q>(g: Guarded<Q>, items: seq<Item<Q>>, now: nat, size: nat)
    requires WellSized(g, size)
    ensures KeepsCreation(g, PushAll(g, items, now, size), items, now)
  {
    hide PushAll, Push, WellSized, KeepsCreation, AllItems;
    if items == [] {
      PushNothing(g, now, size);
      NothingKeepsCreation(g, now);
    } else {
      var init, item := items[..|items| - 1], items[|items| - 1];
      PushAllStep(g, items, now, size);
      PushAllCreation(g, init, now, size);
      PushAllKeeps(g, init, now, size);
      PushCreation(g, PushAll(g, init, now, size), items, now, size);
    }
  }

  lemma NothingKeepsCreation<Q>(g: Guarded<Q>, now: nat)
    ensures KeepsCreation(g, g, [], now)
  {
  }

  lemma PushCreation<Q>(g: Guarded<Q>, h: Guarded<Q>, items: seq<Item<Q>>, now: nat, size: nat)
    requires items != [] && KeepsCreation(g, h, items[..|items| - 1], now)
    requires g.spawned <= h.spawned && WellSized(h, size)
    ensures KeepsCreation(g, Push(h, items[|items| - 1], now, size), items, now)
  {
    var h' := Push(h, items[|items| - 1], now, size);
    assert items == items[..|items| - 1] + [items[|items| - 1]];
    if h'.current.Some? {
      assert h'.spawned == h.spawned && CurrentItems(h') == CurrentItems(h) + [items[|items| - 1]];
    }
  }

  /** What is current behind the call was current before it, or is new. */
  lemma {:induction false} CurrentIsOldOrNew<Q>(g: Guarded<Q>, items: seq<Item<Q>>, now: nat, size: nat)
    ensures forall x :: x in CurrentItems(PushAll(g, items, now, size)) ==> x in CurrentItems(g) || x in items
  {
    if items != [] {
      CurrentIsOldOrNew(g, items[..|items| - 1], now, size);
    }
  }

  /** With `s` items pending and `n` new ones, `(s + n) / size` batches are spawned, each of them
      full, and `(s + n) % size` items stay current; together they are the old items followed by
      the new ones, in order. */
  lemma {:induction false} PushAllArithmetic<Q>(g: Guarded<Q>, items: seq<Item<Q>>, now: nat, size: nat)
    requires WellSized(g, size)
    ensures var g' := PushAll(g, items, now, size);
            var total := |CurrentItems(g)| + |items|;
            && |CurrentItems(g')| == total % size
            && |g'.spawned| == |g.spawned| + total / size
            && (forall b :: |g.spawned| <= b < |g'.spawned| ==> |g'.spawned[b]| == size)
            && g.spawned <= g'.spawned
            && Flatten(g'.spawned[|g.spawned|..]) + CurrentItems(g') == CurrentItems(g) + items
  {
    hide PushAll, Flatten, WellSized;
    PushAllKeeps(g, items, now, size);
    PushAllCounts(g, items, now, size);
    PushAllFull(g, items, now, size);
    var g' := PushAll(g, items, now, size);
    var added := g'.spawned[|g.spawned|..];
    assert g.spawned + added == g'.spawned;
    FlattenConcat(g.spawned, added);
    ConcatAssoc(Flatten(g.spawned), Flatten(added), CurrentItems(g'));
    ConcatAssoc(Flatten(g.spawned), CurrentItems(g), items);
    CancelPrefix(Flatten(g.spawned), Flatten(added) + CurrentItems(g'), CurrentItems(g) + items);
  }

  lemma CancelPrefix<T>(prefix: seq<T>, a: seq<T>, b: seq<T>)
    requires prefix + a == prefix + b
    ensures a == b
  {
    assert (prefix + a)[|prefix|..] == a && (prefix + b)[|prefix|..] == b;
  }

  lemma {:induction false} FlattenConcat<T>(xss: seq<seq<T>>, yss: seq<seq<T>>)
    ensures Flatten(xss + yss) == Flatten(xss) + Flatten(yss)
  {
    hide Flatten;
    if yss == [] {
      FlattenNothing<T>();
      assert xss + yss == xss;
    } else {
      var init, last := yss[..|yss| - 1], yss[|yss| - 1];
      FlattenConcat(xss, init);
      FlattenExtend(xss + init, last);
      FlattenExtend(init, last);
      assert xss + init + [last] == xss + yss && init + [last] == yss;
      ConcatAssoc(Flatten(xss), Flatten(init), last);
    }
  }

  lemma PushAllStep<Q>(g: Guarded<Q>, items: seq<Item<Q>>, now: nat, size: nat)
    requires items != []
    ensures PushAll(g, items, now, size) ==
            Push(PushAll(g, items[..|items| - 1], now, size), items[|items| - 1], now, size)
  {
  }

  /** The numbers of `PushAllArithmetic`. */
  lemma {:induction false} PushAllCounts<Q>(g: Guarded<Q>, items: seq<Item<Q>>, now: nat, size: nat)
    requires WellSized(g, size)
    ensures var g' := PushAll(g, items, now, size);
            var total := |CurrentItems(g)| + |items|;
            && |CurrentItems(g')| == total % size
            && |g'.spawned| == |g.spawned| + total / size
  {
    hide Push, PushAll, CurrentItems, Flatten, AllItems, WellSized;
    var total := |CurrentItems(g)| + |items|;
    SizesOf(g, size);
    DivModStep(total, size);
    if items == [] {
      PushNothing(g, now, size);
    } else {
      var init := items[..|items| - 1];
      PushAllStep(g, items, now, size);
      PushAllCounts(g, init, now, size);
      PushAllKeeps(g, init, now, size);
      PushCounts(PushAll(g, init, now, size), items[|items| - 1], now, size);
    }
  }

  lemma SizesOf<Q>(g: Guarded<Q>, size: nat)
    requires WellSized(g, size)
    ensures size >= 1 && |CurrentItems(g)| < size
  {
  }

  lemma PushNothing<Q>(g: Guarded<Q>, now: nat, size: nat)
    ensures PushAll(g, [], now, size) == g
  {
  }

  /** Every batch that the critical section spawns is full. */
  lemma {:induction false} PushAllFull<Q>(g: Guarded<Q>, items: seq<Item<Q>>, now: nat, size: nat)
    requires WellSized(g, size)
    ensures var g' := PushAll(g, items, now, size);
            forall b :: |g.spawned| <= b < |g'.spawned| ==> |g'.spawned[b]| == size
  {
    hide Push, PushAll, CurrentItems, Flatten, AllItems, WellSized;
    if items == [] {
      PushNothing(g, now, size);
    } else {
      var init := items[..|items| - 1];
      PushAllStep(g, items, now, size);
      PushAllFull(g, init, now, size);
      PushAllKeeps(g, init, now, size);
      PushCounts(PushAll(g, init, now, size), items[|items| - 1], now, size);
    }
  }

  lemma PushCounts<Q>(g: Guarded<Q>, item: Item<Q>, now: nat, size: nat)
    requires WellSized(g, size)
    ensures var g' := Push(g, item, now, size);
            var full := |CurrentItems(g)| + 1 == size;
            && |CurrentItems(g')| == (if full then 0 else |CurrentItems(g)| + 1)
            && |g'.spawned| == |g.spawned| + (if full then 1 else 0)
            && g'.spawned == g.spawned + (if full then [CurrentItems(g) + [item]] else [])
  {
  }

  /** The shared part of `Batcher`, between two acquisitions of its lock. */
  class Batcher<Q> {
    const batchSize: nat
    var currentBatch: Option<Batch<Q>>
    var spawned: seq<seq<Item<Q>>>
    var channels: nat
    var timer: Timer

    ghost function Shared(): Guarded<Q>
      reads this
    {
      Guarded(currentBatch, spawned)
    }

    ghost predicate Valid()
      reads this
    {
      && WellSized(Shared(), batchSize)
      && |AllItems(Shared())| == channels
      && OnTime(timer, Created(Shared()))
    }

    constructor (batchSize: nat, delay: nat, slack: nat)
      ensures Valid() && Shared() == Guarded(None, []) && channels == 0
      ensures this.batchSize == if batchSize >= 1 then batchSize else 1
    {
      this.batchSize := if batchSize >= 1 then batchSize else 1;
      this.currentBatch := None;
      this.spawned := [];
      this.channels := 0;
      this.timer := Timer(0, delay, delay, slack);
    }

    /** The critical section of `execute_many`. The receivers of the caller are the channels from
        the old value of `channels` on. */
    method ExecuteMany(requests: seq<Q>)
      requires Valid()
      modifies this
      ensures Valid() && timer == old(timer)
      ensures Shared() == PushAll(old(Shared()), ItemsFor(requests, old(channels)), timer.now, batchSize)
      ensures channels == old(channels) + |requests|
    {
      ghost var items := ItemsFor(requests, channels);
      for i := 0 to |requests|
        invariant Shared() == PushAll(old(Shared()), items[..i], timer.now, batchSize)
        invariant channels == old(channels) + i && timer == old(timer)
      {
        assert items[..i + 1][..i] == items[..i];
        if currentBatch.None? {
          currentBatch := Some(Batch([], timer.now));
        }
        var batch := currentBatch.value;
        batch := batch.(items := batch.items + [Item(requests[i], channels)]);
        currentBatch := Some(batch);
        channels := channels + 1;
        if |batch.items| >= batchSize {
          spawned := spawned + [batch.items];
          currentBatch := None;
        }
      }
      assert items[..|requests|] == items;
      PushAllKeeps(old(Shared()), items, timer.now, batchSize);
      CreateOnTime(timer, Created(old(Shared())));
    }

    /** One turn of `batch_loop`. */
    method LoopTurn()
      requires Valid() && MayTurn(timer)
      modifies this
      ensures Valid()
      ensures timer == Turn(old(timer), Created(old(Shared())))
      ensures Shared() == if Due(old(timer), Created(old(Shared()))) then Take(old(Shared())) else old(Shared())
      ensures channels == old(channels)
    {
      TurnOnTime(timer, Created(Shared()));
      if currentBatch.None? {
        timer := timer.(wakeAt := timer.now + timer.delay);
        return;
      }
      TakeKeeps(Shared(), batchSize);
      var remaining := SaturatingSub(timer.delay, Age(timer, currentBatch.value.createdAt));
      if remaining == 0 {
        spawned := spawned + [currentBatch.value.items];
        currentBatch := None;
        timer := timer.(wakeAt := timer.now + timer.delay);
      } else {
        timer := timer.(wakeAt := timer.now + remaining);
      }
    }
  }
}
