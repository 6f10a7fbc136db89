/** The data loader of crates/batching/src/dataloader.rs: what its two critical sections do to the
    current batch and to the caller's list of batches to wait for. */
module DataLoading {
  import opened Wrappers
  import opened BatchTimer
  import opened Tally

  /** Batches are numbered in the order of their creation; the number stands for the shared
      `BatchResult` of a batch. */
  datatype Batch<K> = Batch(items: set<K>, createdAt: nat)

  /** `BatchWaiting`: the keys that a caller expects from one batch. */
  datatype Waiting<K> = Waiting(keys: set<K>, batch: nat)

  /** The guarded `current_batch` and the key sets that were handed to spawned tasks so far. The
      number of the current batch is the number of spawned ones. */
  datatype Guarded<K> = Guarded(current: Option<Batch<K>>, spawned: seq<set<K>>)

  /** The critical section of `load_many` in progress. */
  datatype Section<K> = Section(guarded: Guarded<K>, waiters: seq<Waiting<K>>, newBatch: bool)

  function Created<K>(g: Guarded<K>): Option<nat> {
    if g.current.Some? then Some(g.current.value.createdAt) else None
  }

  /** The number of batches that exist. */
  function Batches<K>(g: Guarded<K>): nat {
    |g.spawned| + if g.current.Some? then 1 else 0
  }

  function KeysOf<K>(g: Guarded<K>, b: nat): set<K>
    requires b < Batches(g)
  {
    if b < |g.spawned| then g.spawned[b] else g.current.value.items
  }

  /** The key joins the current batch, or a new one; a batch that is full is spawned. */
  function Join<K>(g: Guarded<K>, key: K, now: nat, size: nat): Guarded<K> {
    var batch := if g.current.None? then Batch({}, now) else g.current.value;
    var items := batch.items + {key};
    if |items| >= size then Guarded(None, g.spawned + [items])
    else Guarded(Some(batch.(items := items)), g.spawned)
  }

  /** One turn of the loop in `load_many`. */
  function AddKey<K>(l: Section<K>, key: K, now: nat, size: nat): Section<K>
    requires l.newBatch || l.guarded.current.None? || l.waiters != []
  {
    var g := l.guarded;
    var newBatch := l.newBatch || g.current.None?;
    var waiters := if newBatch then l.waiters + [Waiting({}, |g.spawned|)] else l.waiters;
    var last := waiters[|waiters| - 1];
    var waiters' := waiters[|waiters| - 1 := last.(keys := last.keys + {key})];
    Section(Join(g, key, now, size), waiters', false)
  }

  function Enter<K>(g: Guarded<K>): Section<K> {
    Section(g, [], true)
  }

  /** The section behind all keys; the ensures clause is what makes `last_mut().unwrap()` safe. */
  function AddKeys<K>(g: Guarded<K>, keys: seq<K>, now: nat, size: nat): (l: Section<K>)
    ensures l.newBatch || l.guarded.current.None? || l.waiters != []
    ensures keys != [] ==> l.waiters != [] && !l.newBatch
  {
    if keys == [] then Enter(g)
    else AddKey(AddKeys(g, keys[..|keys| - 1], now, size), keys[|keys| - 1], now, size)
  }

  lemma AddNoKeys<K>(g: Guarded<K>, now: nat, size: nat)
    ensures AddKeys(g, [], now, size) == Enter(g)
  {
  }

  lemma AddKeysStep<K>(g: Guarded<K>, keys: seq<K>, i: nat, now: nat, size: nat)
    requires i < |keys|
    ensures AddKeys(g, keys[..i + 1], now, size) == AddKey(AddKeys(g, keys[..i], now, size), keys[i], now, size)
  {
    assert keys[..i + 1][..i] == keys[..i];
  }

  /** The timer loop takes the current batch. */
  function Take<K>(g: Guarded<K>): Guarded<K>
    requires g.current.Some?
  {
    Guarded(None, g.spawned + [g.current.value.items])
  }

  function KeySet<K>(keys: seq<K>): set<K> {
    set k | k in keys
  }

  /** The keys that the waiters expect together. */
  function WaitedKeys<K>(waiters: seq<Waiting<K>>): set<K> {
    set w, k | w in waiters && k in w.keys :: k
  }

  /** The keys that the waiters expect from one batch. */
  function ExpectedKeys<K>(waiters: seq<Waiting<K>>, b: nat): set<K> {
    set w, k | w in waiters && w.batch == b && k in w.keys :: k
  }

  function KeysBefore<K>(g: Guarded<K>, b: nat): set<K> {
    if b < Batches(g) then KeysOf(g, b) else {}
  }

  /** When the lock is free, the current batch is neither empty nor full, and no batch that was
      spawned is empty or too large. */
  ghost predicate WellSized<K>(g: Guarded<K>, size: nat) {
    && size >= 1
    && (g.current.Some? ==> 1 <= |g.current.value.items| < size)
    && (forall b :: 0 <= b < |g.spawned| ==> 1 <= |g.spawned[b]| <= size)
  }

  /** The keys that a caller expects from a batch are being fetched by that batch. */
  ghost predicate WaitersOk<K>(g: Guarded<K>, waiters: seq<Waiting<K>>) {
    forall w :: w in waiters ==> w.batch < Batches(g) && w.keys <= KeysOf(g, w.batch)
  }

  /** Existing batches keep their number, and the current one may gain keys. */
  ghost predicate Grows<K>(g: Guarded<K>, g': Guarded<K>) {
    && g.spawned <= g'.spawned
    && Batches(g) <= Batches(g')
    && (forall b :: 0 <= b < Batches(g) ==> KeysOf(g, b) <= KeysOf(g', b))
  }

  lemma WaitersGrow<K>(g: Guarded<K>, g': Guarded<K>, waiters: seq<Waiting<K>>)
    requires WaitersOk(g, waiters) && Grows(g, g')
    ensures WaitersOk(g', waiters)
  {
    forall w | w in waiters
      ensures w.batch < Batches(g') && w.keys <= KeysOf(g', w.batch)
    {
      assert KeysOf(g, w.batch) <= KeysOf(g', w.batch);
    }
  }

  /** Inside the section, the last waiter is the one for the current batch. */
  ghost predicate SectionOk<K>(l: Section<K>, size: nat) {
    && WellSized(l.guarded, size)
    && WaitersOk(l.guarded, l.waiters)
    && (!l.newBatch ==> l.waiters != [])
    && (!l.newBatch && l.guarded.current.Some? ==> l.waiters[|l.waiters| - 1].batch == |l.guarded.spawned|)
  }

  lemma JoinGrows<K>(g: Guarded<K>, key: K, now: nat, size: nat)
    requires WellSized(g, size)
    ensures var g' := Join(g, key, now, size);
            && Grows(g, g') && WellSized(g', size)
            && |g.spawned| < Batches(g') && key in KeysOf(g', |g.spawned|)
            && (g'.current.Some? ==> |g'.spawned| == |g.spawned|)
            && (Created(g') == Created(g) || Created(g') == Some(now) || Created(g') == None)
  {
    var g' := Join(g, key, now, size);
    var before := if g.current.None? then {} else g.current.value.items;
    var items := before + {key};
    assert |items| <= |before| + 1;
    assert |items| >= 1 by {
      assert items != {} by { assert key in items; }
    }
    assert KeysOf(g', |g.spawned|) == items;
  }

  lemma AddKeyKeeps<K>(l: Section<K>, key: K, now: nat, size: nat)
    requires SectionOk(l, size)
    ensures var l' := AddKey(l, key, now, size);
            SectionOk(l', size) && WaitedKeys(l'.waiters) == WaitedKeys(l.waiters) + {key}
  {
    hide WellSized, KeysOf, Grows, WaitedKeys, Join;
    JoinGrows(l.guarded, key, now, size);
    var l' := AddKey(l, key, now, size);
    var n := |l.guarded.spawned|;
    WaitersGrow(l.guarded, l'.guarded, l.waiters);
    var waiters := if l.newBatch || l.guarded.current.None? then l.waiters + [Waiting({}, n)] else l.waiters;
    var m := |waiters| - 1;
    assert WaitersOk(l'.guarded, waiters);
    assert l'.waiters == waiters[m := waiters[m].(keys := waiters[m].keys + {key})];
    assert waiters[m].batch == n;
    WaitersUpdate(l'.guarded, waiters, m, key);
    WaitedKeysUpdate(waiters, m, key);
    WaitedKeysOfEmpty(l.waiters, n);
  }

  lemma WaitersUpdate<K>(g: Guarded<K>, waiters: seq<Waiting<K>>, i: nat, key: K)
    requires WaitersOk(g, waiters) && i < |waiters| && key in KeysOf(g, waiters[i].batch)
    ensures WaitersOk(g, waiters[i := waiters[i].(keys := waiters[i].keys + {key})])
  {
    hide KeysOf;
  }

  lemma WaitedKeysOfEmpty<K>(waiters: seq<Waiting<K>>, n: nat)
    ensures WaitedKeys(waiters + [Waiting({}, n)]) == WaitedKeys(waiters)
  {
    forall k | k in WaitedKeys(waiters)
      ensures k in WaitedKeys(waiters + [Waiting({}, n)])
    {
      var w :| w in waiters && k in w.keys;
      assert w in waiters + [Waiting({}, n)];
    }
  }

  lemma WaitedKeysUpdate<K>(waiters: seq<Waiting<K>>, i: nat, key: K)
    requires i < |waiters|
    ensures WaitedKeys(waiters[i := waiters[i].(keys := waiters[i].keys + {key})]) == WaitedKeys(waiters) + {key}
  {
    var after := waiters[i := waiters[i].(keys := waiters[i].keys + {key})];
    forall k | k in WaitedKeys(waiters)
      ensures k in WaitedKeys(after)
    {
      var w :| w in waiters && k in w.keys;
      var j :| 0 <= j < |waiters| && waiters[j] == w;
      assert after[j] in after;
    }
    forall k | k in WaitedKeys(after)
      ensures k in WaitedKeys(waiters) || k == key
    {
      var w :| w in after && k in w.keys;
      var j :| 0 <= j < |after| && after[j] == w;
      assert waiters[j] in waiters;
    }
    assert after[i] in after;
  }

  /** Behind the critical section every key of the call is expected from exactly the batches that
      fetch it, no batch is empty or too large, and no older batch lost a key. */
  lemma {:induction false} AddKeysKeeps<K>(g: Guarded<K>, keys: seq<K>, now: nat, size: nat)
    requires WellSized(g, size)
    ensures var l := AddKeys(g, keys, now, size);
            && SectionOk(l, size)
            && Grows(g, l.guarded)
            && WaitedKeys(l.waiters) == KeySet(keys)
            && (Created(l.guarded) == Created(g) || Created(l.guarded) == Some(now) || Created(l.guarded) == None)
  {
    hide WellSized, KeysOf, Grows, WaitedKeys, WaitersOk, Join;
    if keys != [] {
      var init, key := keys[..|keys| - 1], keys[|keys| - 1];
      AddKeysKeeps(g, init, now, size);
      var l := AddKeys(g, init, now, size);
      AddKeyKeeps(l, key, now, size);
      JoinGrows(l.guarded, key, now, size);
      GrowsTrans(g, l.guarded, AddKeys(g, keys, now, size).guarded);
      assert keys == init + [key];
    } else {
      EnterKeeps(g, size);
    }
  }

  /** A key that a call adds to a batch is one that the call expects from that batch. */
  ghost predicate OnlyExpected<K>(g: Guarded<K>, l: Section<K>) {
    forall b :: 0 <= b < Batches(l.guarded) ==>
      KeysOf(l.guarded, b) <= KeysBefore(g, b) + ExpectedKeys(l.waiters, b)
  }

  lemma JoinAdds<K>(g: Guarded<K>, key: K, now: nat, size: nat, b: nat)
    requires WellSized(g, size)
    ensures var g' := Join(g, key, now, size);
            b < Batches(g') ==> KeysOf(g', b) <= KeysBefore(g, b) + if b == |g.spawned| then {key} else {}
  {
  }

  lemma ExpectedKeysUpdate<K>(waiters: seq<Waiting<K>>, i: nat, key: K, b: nat)
    requires i < |waiters|
    ensures var after := waiters[i := waiters[i].(keys := waiters[i].keys + {key})];
            && ExpectedKeys(waiters, b) <= ExpectedKeys(after, b)
            && (waiters[i].batch == b ==> key in ExpectedKeys(after, b))
  {
    var after := waiters[i := waiters[i].(keys := waiters[i].keys + {key})];
    assert after[i] in after;
    forall k | k in ExpectedKeys(waiters, b)
      ensures k in ExpectedKeys(after, b)
    {
      var w :| w in waiters && w.batch == b && k in w.keys;
      var j :| 0 <= j < |waiters| && waiters[j] == w;
      assert after[j] in after;
    }
  }

  lemma ExpectedKeysOfEmpty<K>(waiters: seq<Waiting<K>>, n: nat, b: nat)
    ensures ExpectedKeys(waiters, b) <= ExpectedKeys(waiters + [Waiting({}, n)], b)
  {
    forall k | k in ExpectedKeys(waiters, b)
      ensures k in ExpectedKeys(waiters + [Waiting({}, n)], b)
    {
      var w :| w in waiters && w.batch == b && k in w.keys;
      assert w in waiters + [Waiting({}, n)];
    }
  }

  lemma AddKeyExpected<K>(l: Section<K>, key: K, now: nat, size: nat, b: nat)
    requires SectionOk(l, size)
    ensures var l' := AddKey(l, key, now, size);
            && ExpectedKeys(l.waiters, b) <= ExpectedKeys(l'.waiters, b)
            && (b < Batches(l'.guarded) ==>
                  KeysOf(l'.guarded, b) <= KeysBefore(l.guarded, b) + ExpectedKeys(l'.waiters, b))
  {
    hide WellSized, KeysOf, KeysBefore, WaitedKeys, ExpectedKeys, Join, WaitersOk;
    var n := |l.guarded.spawned|;
    var waiters := if l.newBatch || l.guarded.current.None? then l.waiters + [Waiting({}, n)] else l.waiters;
    JoinAdds(l.guarded, key, now, size, b);
    ExpectedKeysOfEmpty(l.waiters, n, b);
    ExpectedKeysUpdate(waiters, |waiters| - 1, key, b);
    assert waiters[|waiters| - 1].batch == n;
  }

  /** Behind the critical section a batch fetches what it fetched before and what the call expects
      from it, and nothing else. */
  lemma {:induction false} AddKeysExpected<K>(g: Guarded<K>, keys: seq<K>, now: nat, size: nat)
    requires WellSized(g, size)
    ensures OnlyExpected(g, AddKeys(g, keys, now, size))
  {
    hide WellSized, KeysOf, KeysBefore, WaitedKeys, ExpectedKeys, WaitersOk, Join, AddKey, Grows;
    if keys == [] {
      KeysStay(g);
    } else {
      var init, key := keys[..|keys| - 1], keys[|keys| - 1];
      AddKeysExpected(g, init, now, size);
      AddKeysKeeps(g, init, now, size);
      var l, l' := AddKeys(g, init, now, size), AddKeys(g, keys, now, size);
      forall b | 0 <= b < Batches(l'.guarded)
        ensures KeysOf(l'.guarded, b) <= KeysBefore(g, b) + ExpectedKeys(l'.waiters, b)
      {
        AddKeyExpected(l, key, now, size, b);
        KeysBeforeIs(l.guarded, b);
      }
    }
  }

  lemma KeysStay<K>(g: Guarded<K>)
    ensures OnlyExpected(g, Enter(g))
  {
  }

  lemma KeysBeforeIs<K>(g: Guarded<K>, b: nat)
    ensures KeysBefore(g, b) == if b < Batches(g) then KeysOf(g, b) else {}
  {
  }

  lemma EnterKeeps<K>(g: Guarded<K>, size: nat)
    requires WellSized(g, size)
    ensures SectionOk(Enter(g), size) && Grows(g, g) && WaitedKeys<K>([]) == {}
  {
  }

  lemma GrowsTrans<K>(g: Guarded<K>, h: Guarded<K>, i: Guarded<K>)
    requires Grows(g, h) && Grows(h, i)
    ensures Grows(g, i)
  {
    hide KeysOf;
    forall b | 0 <= b < Batches(g)
      ensures KeysOf(g, b) <= KeysOf(i, b)
    {
      assert KeysOf(g, b) <= KeysOf(h, b) && KeysOf(h, b) <= KeysOf(i, b);
    }
  }

  /** The keys of the current batch. */
  function CurrentKeys<K>(g: Guarded<K>): set<K> {
    if g.current.Some? then g.current.value.items else {}
  }

  /** A batch is spawned exactly when a key fills it, and then holds `size` keys. */
  lemma JoinCounts<K>(g: Guarded<K>, key: K, now: nat, size: nat)
    requires WellSized(g, size)
    ensures var g' := Join(g, key, now, size);
            var keys := CurrentKeys(g) + {key};
            && g'.spawned == g.spawned + (if |keys| == size then [keys] else [])
            && CurrentKeys(g') == (if |keys| == size then {} else keys)
            && (key !in CurrentKeys(g) ==> |keys| == |CurrentKeys(g)| + 1)
  {
    assert |CurrentKeys(g) + {key}| <= |CurrentKeys(g)| + 1;
  }

  /** Every batch that the critical section spawns is full. */
  lemma {:induction false} AddKeysFull<K>(g: Guarded<K>, keys: seq<K>, now: nat, size: nat)
    requires WellSized(g, size)
    ensures var g' := AddKeys(g, keys, now, size).guarded;
            forall b :: |g.spawned| <= b < |g'.spawned| ==> |g'.spawned[b]| == size
  {
    hide WellSized, KeysOf, Grows, SectionOk, WaitedKeys, WaitersOk, Join, CurrentKeys;
    if keys != [] {
      var init := keys[..|keys| - 1];
      AddKeysFull(g, init, now, size);
      AddKeysKeeps(g, init, now, size);
      SectionSized(AddKeys(g, init, now, size), size);
      JoinCounts(AddKeys(g, init, now, size).guarded, keys[|keys| - 1], now, size);
    }
  }

  lemma SectionSized<K>(l: Section<K>, size: nat)
    requires SectionOk(l, size)
    ensures WellSized(l.guarded, size)
  {
  }

  /** New keys: they are pairwise distinct, and none is in the current batch. */
  ghost predicate AllNew<K>(g: Guarded<K>, keys: seq<K>) {
    && (forall i :: 0 <= i < |keys| ==> keys[i] !in CurrentKeys(g))
    && (forall i, j :: 0 <= i < j < |keys| ==> keys[i] != keys[j])
  }

  /** With `s` keys pending and `n` new ones, `(s + n) / size` batches are spawned, each of them full,
      and `(s + n) % size` keys stay current. */
  lemma AddKeysArithmetic<K>(g: Guarded<K>, keys: seq<K>, now: nat, size: nat)
    requires WellSized(g, size) && AllNew(g, keys)
    ensures var g' := AddKeys(g, keys, now, size).guarded;
            var total := |CurrentKeys(g)| + |keys|;
            && |CurrentKeys(g')| == total % size
            && |g'.spawned| == |g.spawned| + total / size
            && (forall b :: |g.spawned| <= b < |g'.spawned| ==> |g'.spawned[b]| == size)
  {
    hide CurrentKeys, AllNew;
    AddKeysCounts(g, keys, now, size);
    AddKeysFull(g, keys, now, size);
  }

  lemma AddKeysJoins<K>(g: Guarded<K>, keys: seq<K>, now: nat, size: nat)
    requires keys != []
    ensures AddKeys(g, keys, now, size).guarded ==
            Join(AddKeys(g, keys[..|keys| - 1], now, size).guarded, keys[|keys| - 1], now, size)
  {
  }

  /** The numbers of `AddKeysArithmetic`. */
  lemma {:induction false} AddKeysCounts<K>(g: Guarded<K>, keys: seq<K>, now: nat, size: nat)
    requires WellSized(g, size) && AllNew(g, keys)
    ensures var g' := AddKeys(g, keys, now, size).guarded;
            var total := |CurrentKeys(g)| + |keys|;
            && |CurrentKeys(g')| == total % size
            && |g'.spawned| == |g.spawned| + total / size
            && CurrentKeys(g') <= CurrentKeys(g) + KeySet(keys)
  {
    hide WellSized, KeysOf, Grows, SectionOk, WaitedKeys, Join, CurrentKeys, AllNew, KeySet, AddKeys;
    SizesOf(g, size);
    DivModStep(|CurrentKeys(g)| + |keys|, size);
    if keys == [] {
      AddNoKeys(g, now, size);
    } else {
      var init, key := keys[..|keys| - 1], keys[|keys| - 1];
      AddKeysJoins(g, keys, now, size);
      LastIsNew(g, keys);
      AddKeysCounts(g, init, now, size);
      AddKeysKeeps(g, init, now, size);
      SectionSized(AddKeys(g, init, now, size), size);
      JoinCounts(AddKeys(g, init, now, size).guarded, key, now, size);
    }
  }

  lemma LastIsNew<K>(g: Guarded<K>, keys: seq<K>)
    requires keys != [] && AllNew(g, keys)
    ensures var init, key := keys[..|keys| - 1], keys[|keys| - 1];
            && AllNew(g, init) && key !in CurrentKeys(g) + KeySet(init)
            && KeySet(keys) == KeySet(init) + {key}
  {
    assert keys == keys[..|keys| - 1] + [keys[|keys| - 1]];
  }

  lemma SizesOf<K>(g: Guarded<K>, size: nat)
    requires WellSized(g, size)
    ensures size >= 1 && |CurrentKeys(g)| < size
  {
  }

  /** A batch that stays current keeps its creation time; a batch that becomes current has been created
      by this call. */
  ghost predicate KeepsCreation<K>(g: Guarded<K>, g': Guarded<K>, now: nat) {
    if g.current.Some? && |g'.spawned| == |g.spawned| then Created(g') == Created(g)
    else g'.current.Some? ==> Created(g') == Some(now)
  }

  lemma {:induction false} AddKeysCreation<K>(g: Guarded<K>, keys: seq<K>, now: nat, size: nat)
    requires WellSized(g, size)
    ensures KeepsCreation(g, AddKeys(g, keys, now, size).guarded, now)
    ensures g.spawned <= AddKeys(g, keys, now, size).guarded.spawned
  {
    hide WellSized;
    if keys != [] {
      AddKeysCreation(g, keys[..|keys| - 1], now, size);
    }
  }

  lemma TakeKeeps<K>(g: Guarded<K>, size: nat)
    requires WellSized(g, size) && g.current.Some?
    ensures WellSized(Take(g), size) && Grows(g, Take(g)) && Batches(Take(g)) == Batches(g)
  {
  }

  /** The shared part of `DataLoader`, between two acquisitions of its lock. */
  class DataLoader<K(==)> {
    const batchSize: nat
    var currentBatch: Option<Batch<K>>
    var spawned: seq<set<K>>
    var timer: Timer

    ghost function Shared(): Guarded<K>
      reads this
    {
      Guarded(currentBatch, spawned)
    }

    ghost predicate Valid()
      reads this
    {
      WellSized(Shared(), batchSize) && OnTime(timer, Created(Shared()))
    }

    constructor (batchSize: nat, delay: nat, slack: nat)
      ensures Valid() && Shared() == Guarded(None, [])
      ensures this.batchSize == if batchSize >= 1 then batchSize else 1
    {
      this.batchSize := if batchSize >= 1 then batchSize else 1;
      this.currentBatch := None;
      this.spawned := [];
      this.timer := Timer(0, delay, delay, slack);
    }

    /** The critical section of `load_many`. */
    method LoadMany(items: seq<K>) returns (waiters: seq<Waiting<K>>)
      requires Valid()
      modifies this
      ensures Valid() && timer == old(timer)
      ensures var l := AddKeys(old(Shared()), items, timer.now, batchSize);
              Shared() == l.guarded && waiters == l.waiters
    {
      hide WellSized, KeysOf, WaitedKeys, WaitersOk, KeySet, Grows, AddKeys;
      var newBatch := true;
      waiters := [];
      AddNoKeys(Shared(), timer.now, batchSize);
      assert items[..0] == [];
      for i := 0 to |items|
        invariant timer == old(timer)
        invariant Section(Shared(), waiters, newBatch) == AddKeys(old(Shared()), items[..i], timer.now, batchSize)
      {
        AddKeysStep(old(Shared()), items, i, timer.now, batchSize);
        ghost var before := Section(Shared(), waiters, newBatch);
        if currentBatch.None? {
          currentBatch := Some(Batch({}, timer.now));
          newBatch := true;
        }
        var batch := currentBatch.value;
        batch := batch.(items := batch.items + {items[i]});
        currentBatch := Some(batch);
        if newBatch {
          newBatch := false;
          waiters := waiters + [Waiting({}, |spawned|)];
        }
        var last := waiters[|waiters| - 1];
        waiters := waiters[|waiters| - 1 := last.(keys := last.keys + {items[i]})];
        if |batch.items| >= batchSize {
          spawned := spawned + [batch.items];
          currentBatch := None;
        }
        assert Section(Shared(), waiters, newBatch) == AddKey(before, items[i], timer.now, batchSize);
      }
      assert items[..|items|] == items;
      AddKeysKeeps(old(Shared()), items, timer.now, batchSize);
      CreateOnTime(timer, Created(old(Shared())));
    }

    /** One turn of `batch_loop`. */
    method LoopTurn()
      requires Valid() && MayTurn(timer)
      modifies this
      ensures Valid()
      ensures timer == Turn(old(timer), Created(old(Shared())))
      ensures Shared() == if Due(old(timer), Created(old(Shared()))) then Take(old(Shared())) else old(Shared())
    {
      TurnOnTime(timer, Created(Shared()));
      if currentBatch.None? {
        timer := timer.(wakeAt := timer.now + timer.delay);
        return;
      }
      TakeKeeps(Shared(), batchSize);
      var remaining := SaturatingSub(timer.delay, Age(timer, currentBatch.value.createdAt));
      if remaining == 0 {
        spawned := spawned + [currentBatch.value.items];
        currentBatch := None;
        timer := timer.(wakeAt := timer.now + timer.delay);
      } else {
        timer := timer.(wakeAt := timer.now + remaining);
      }
    }
  }
}
