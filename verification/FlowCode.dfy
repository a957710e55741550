/** The methods of `Flow`, `FlowState`, `FlowSubscriber` and their guards, written as the
    sequence of atomic operations they perform on the shared state, with arbitrary
    interference from every other thread before each of them. */
module FlowCode {
  import opened Wrappers
  import opened Bits
  import opened FlowProtocol
  import opened FlowInvariant
  import opened FlowFull

  /** `s` becomes `s'` by any number of steps of threads other than `me`. */
  ghost predicate OthersRun<T(!new)>(s: State<T>, s': State<T>, me: Thread) {
    exists acts: seq<Action<T>> ::
      CanRun(s, acts) && Run(s, acts) == s' && forall k :: 0 <= k < |acts| ==> Actor(acts[k]) != me
  }

  /** `s` becomes `s'` by any number of steps of any threads. */
  ghost predicate Reaches<T(!new)>(s: State<T>, s': State<T>) {
    exists acts: seq<Action<T>> :: CanRun(s, acts) && Run(s, acts) == s'
  }

  /** What a thread can rely on while others run. */
  ghost predicate Stable<T>(s: State<T>, s': State<T>, me: Thread) {
    && Inv(s) && Inv(s')
    && Capacity(s') == Capacity(s) && |s'.cursors| == |s.cursors|
    && s.writable <= s'.writable && s.publishable <= s'.publishable && s.log <= s'.log
    && (forall i :: 0 <= i < |s.cursors| ==> s.cursors[i] <= s'.cursors[i])
    && (match me
        case Producer(p) =>
          && Phase(s', p) == Phase(s, p)
          // Nobody else writes the slot of a claim this thread holds.
          && (HoldsClaim(Phase(s, p)) ==>
                s'.buffer[Phase(s, p).claim % Capacity(s)] == s.buffer[Phase(s, p).claim % Capacity(s)])
        case Subscriber(i) =>
          i < |s.cursors| ==>
            && s'.subscribers[i] == s.subscribers[i] && s'.alive[i] == s.alive[i]
            && s'.cursors[i] == s.cursors[i] && s'.received[i] == s.received[i])
  }

  lemma StableStep<T>(s: State<T>, a: Action<T>, me: Thread)
    requires Inv(s) && Enabled(s, a) && Actor(a) != me
    ensures Stable(s, Next(s, a), me)
  {
    StepInv(s, a);
    if a.Write? && me.Producer? && HoldsClaim(Phase(s, me.p)) {
      ClaimsAvoidEachOther(s, me.p, a.p);
      SlotIsRemainder(Capacity(s), Phase(s, me.p).claim);
    }
  }

  lemma {:induction false} OthersRunStable<T>(s: State<T>, acts: seq<Action<T>>, me: Thread)
    requires Inv(s) && CanRun(s, acts)
    requires forall k :: 0 <= k < |acts| ==> Actor(acts[k]) != me
    ensures Stable(s, Run(s, acts), me)
    decreases |acts|
  {
    if acts != [] {
      StableStep(s, acts[0], me);
      OthersRunStable(Next(s, acts[0]), acts[1..], me);
      StableTransitive(s, Next(s, acts[0]), Run(s, acts), me);
    }
  }

  lemma StableTransitive<T>(s: State<T>, s': State<T>, s'': State<T>, me: Thread)
    requires Stable(s, s', me) && Stable(s', s'', me)
    ensures Stable(s, s'', me)
  {}

  lemma ReachesTransitive<T(!new)>(s: State<T>, s': State<T>, s'': State<T>)
    requires Reaches(s, s') && Reaches(s', s'')
    ensures Reaches(s, s'')
  {
    var a: seq<Action<T>> :| CanRun(s, a) && Run(s, a) == s';
    var b: seq<Action<T>> :| CanRun(s', b) && Run(s', b) == s'';
    RunAppend(s, a, b);
  }

  lemma StepReaches<T(!new)>(s: State<T>, a: Action<T>)
    requires Enabled(s, a)
    ensures Reaches(s, Next(s, a))
  {
    Prepend(s, a, []);
  }

  lemma ReachesItself<T(!new)>(s: State<T>)
    ensures Reaches(s, s)
  {
    assert CanRun(s, []) && Run(s, []) == s;
  }

  /** The flow was full at some moment between `s` and `s'`. */
  ghost predicate FullBetween<T(!new)>(s: State<T>, s': State<T>) {
    exists m: State<T> :: Reaches(s, m) && Reaches(m, s') && WellFormed(m) && Full(m)
  }

  lemma FullBetweenExtends<T(!new)>(s: State<T>, s': State<T>, s'': State<T>)
    requires FullBetween(s, s') && Reaches(s', s'')
    ensures FullBetween(s, s'')
  {
    var m: State<T> :| Reaches(s, m) && Reaches(m, s') && WellFormed(m) && Full(m);
    ReachesTransitive(m, s', s'');
  }

  /** A scan that found no room for `w` came by a full flow. */
  ghost predicate Accounts<T(!new)>(start: State<T>, s: State<T>, w: nat, min: nat) {
    start.writable <= w <= s.writable && (min + Capacity(s) <= w ==> FullBetween(start, s))
  }

  lemma HeldCursorBehind<T>(s: State<T>, p: nat)
    requires Enabled(s, LoadCursor(p))
    ensures s.cursors[Phase(s, p).next] + Capacity(s) <= s.writable ==> Full(s)
  {
    assert HoldsArc(s.producers[p], Phase(s, p).next);
    assert Upgradable(s, Phase(s, p).next);
  }

  class SharedFlow<T(!new, ==)> {
    var state: State<T>

    /** `Flow::new::<subscribers>(capacity)`; `None` is the panic on a bad capacity. */
    static method New(capacity: nat, subscribers: nat, blank: T) returns (flow: SharedFlow?<T>)
      // Overflow is checked, as in debug builds: with a capacity of zero, `capacity - 1` panics.
      ensures flow != null <==> capacity > 0 && IsPowerOfTwo(capacity)
      ensures flow != null ==> fresh(flow) && Initial(flow.state) && Inv(flow.state)
      ensures flow != null ==> Capacity(flow.state) == capacity && |flow.state.cursors| == subscribers
    {
      if capacity == 0 {
        return null;
      }
      PowerOfTwoTest(capacity);
      if And(capacity, capacity - 1) != 0 {
        return null;
      }
      flow := new SharedFlow<T>(State(
        seq(capacity, _ => blank), 0, 0,
        seq(subscribers, _ => 0), seq(subscribers, _ => true), map[],
        seq(subscribers, _ => Resting), [], seq(subscribers, _ => [])));
      InitialInv(flow.state);
    }

    constructor (state: State<T>)
      ensures this.state == state
    {
      this.state := state;
    }

    /** Everything the rest of the system may do between two atomic operations of `me`.
        It does nothing itself; callers know only that some run of others happened. */
    method Interfere(me: Thread)
      requires Inv(state)
      modifies this
      ensures OthersRun(old(state), state, me) && Reaches(old(state), state)
      ensures Stable(old(state), state, me)
    {
      assert CanRun(state, []) && Run(state, []) == state;
      OthersRunStable(state, [], me);
    }

    /** One atomic operation of the thread that runs the code. */
    method Atomically(a: Action<T>)
      requires Inv(state) && Enabled(state, a)
      modifies this
      ensures Inv(state) && state == Next(old(state), a) && Reaches(old(state), state)
    {
      StepInv(state, a);
      StepReaches(state, a);
      state := Next(state, a);
    }

    /** Interference, then one atomic operation of `Actor(a)`, extending the run from `start`. */
    method Do(ghost start: State<T>, a: Action<T>)
      requires Inv(state) && Reaches(start, state)
      requires forall s :: Stable(state, s, Actor(a)) ==> Enabled(s, a)
      modifies this
      ensures Inv(state) && Reaches(start, state) && Reaches(old(state), state)
      ensures exists s :: Stable(old(state), s, Actor(a)) && Enabled(s, a) && state == Next(s, a)
                          && Reaches(start, s) && Reaches(s, state)
    {
      Interfere(Actor(a));
      ReachesTransitive(start, old(state), state);
      ghost var s := state;
      Atomically(a);
      ReachesTransitive(start, s, state);
      ReachesTransitive(old(state), s, state);
    }

    method LoadNextWritable(ghost start: State<T>, p: nat) returns (v: nat)
      requires Inv(state) && Reaches(start, state) && Phase(state, p).Idle?
      modifies this
      ensures Inv(state) && Reaches(start, state) && |state.cursors| == old(|state.cursors|)
      ensures Phase(state, p) == LoadedWritable(v) && old(state).writable <= v <= state.writable
    {
      Do(start, LoadWritable(p));
      v := Phase(state, p).w;
    }

    method LoadNextPublishable(ghost start: State<T>, p: nat) returns (v: nat)
      requires Inv(state) && Reaches(start, state) && Phase(state, p).LoadedWritable?
      requires start.writable <= Phase(state, p).w <= state.writable
      modifies this
      ensures Inv(state) && Reaches(start, state) && |state.cursors| == old(|state.cursors|)
      ensures Phase(state, p) == Scanning(old(Phase(state, p)).w, v, 0)
      ensures Accounts(start, state, Phase(state, p).w, v)
    {
      Do(start, LoadPublishable(p));
      v := Phase(state, p).min;
    }

    /** `Weak::upgrade` of cursor `n`. */
    method UpgradeCursor(ghost start: State<T>, p: nat, n: nat) returns (upgraded: bool)
      requires Inv(state) && Reaches(start, state) && n < |state.cursors|
      requires Phase(state, p).Scanning? && Phase(state, p).next == n
      requires Accounts(start, state, Phase(state, p).w, Phase(state, p).min)
      modifies this
      ensures Inv(state) && Reaches(start, state) && |state.cursors| == old(|state.cursors|)
      ensures upgraded ==> Phase(state, p) == Upgraded(old(Phase(state, p)).w, old(Phase(state, p)).min, n)
      ensures !upgraded ==> Phase(state, p) == Scanning(old(Phase(state, p)).w, old(Phase(state, p)).min, n + 1)
      ensures Accounts(start, state, Phase(state, p).w, Phase(state, p).min)
    {
      hide FullBetween;
      hide Reaches;
      Do(start, Upgrade(p));
      if FullBetween(start, old(state)) {
        FullBetweenExtends(start, old(state), state);
      }
      upgraded := Phase(state, p).Upgraded?;
    }

    /** The minimum of what the scan has so far and the upgraded cursor's value. */
    method MinWithCursor(ghost start: State<T>, p: nat) returns (min: nat)
      requires Inv(state) && Reaches(start, state) && Phase(state, p).Upgraded? && Phase(state, p).next < |state.cursors|
      requires Accounts(start, state, Phase(state, p).w, Phase(state, p).min)
      modifies this
      ensures Inv(state) && Reaches(start, state) && |state.cursors| == old(|state.cursors|)
      ensures Phase(state, p) == Loaded(old(Phase(state, p)).w, min, old(Phase(state, p)).next)
      ensures min <= old(Phase(state, p)).min
      ensures Accounts(start, state, Phase(state, p).w, Phase(state, p).min)
    {
      hide Full;
      hide Upgradable;
      hide Reaches;
      Do(start, LoadCursor(p));
      hide Inv;
      if FullBetween(start, old(state)) {
        FullBetweenExtends(start, old(state), state);
      }
      ghost var s :| Stable(old(state), s, Producer(p)) && Enabled(s, LoadCursor(p)) && state == Next(s, LoadCursor(p))
                     && Reaches(start, s) && Reaches(s, state);
      HeldCursorBehind(s, p);
      min := Phase(state, p).min;
    }

    method DropUpgraded(ghost start: State<T>, p: nat)
      requires Inv(state) && Reaches(start, state) && Phase(state, p).Loaded?
      requires Accounts(start, state, Phase(state, p).w, Phase(state, p).min)
      modifies this
      ensures Inv(state) && Reaches(start, state) && |state.cursors| == old(|state.cursors|)
      ensures Phase(state, p) == Scanning(old(Phase(state, p)).w, old(Phase(state, p)).min, old(Phase(state, p)).next + 1)
      ensures Accounts(start, state, Phase(state, p).w, Phase(state, p).min)
    {
      hide FullBetween;
      hide Reaches;
      Do(start, ReleaseArc(p));
      if FullBetween(start, old(state)) {
        FullBetweenExtends(start, old(state), state);
      }
    }

    /** One turn of the loop over the subscribers' cursors. */
    method ScanCursor(ghost start: State<T>, p: nat, min: nat, n: nat) returns (min': nat)
      requires Inv(state) && Reaches(start, state) && n < |state.cursors|
      requires Phase(state, p).Scanning? && Phase(state, p).min == min && Phase(state, p).next == n
      requires Accounts(start, state, Phase(state, p).w, Phase(state, p).min)
      modifies this
      ensures Inv(state) && Reaches(start, state) && |state.cursors| == old(|state.cursors|)
      ensures Phase(state, p) == Scanning(old(Phase(state, p)).w, min', n + 1) && min' <= min
      ensures Accounts(start, state, Phase(state, p).w, Phase(state, p).min)
    {
      min' := min;
      var upgraded := UpgradeCursor(start, p, n);
      if upgraded {
        min' := MinWithCursor(start, p);
        DropUpgraded(start, p);
      }
    }

    method CompareExchangeWritable(ghost start: State<T>, p: nat) returns (won: bool)
      requires Inv(state) && Reaches(start, state) && Phase(state, p).Scanning? && Phase(state, p).next == |state.cursors|
      requires Accounts(start, state, Phase(state, p).w, Phase(state, p).min)
      modifies this
      ensures Inv(state) && Reaches(start, state)
      ensures won ==> Phase(state, p) == Claimed(old(Phase(state, p)).w)
                      && old(Phase(state, p)).min + Capacity(state) > old(Phase(state, p)).w
      ensures !won ==> Phase(state, p).Idle?
                       && (state.writable > start.writable || FullBetween(start, state))
    {
      hide FullBetween;
      hide Reaches;
      Do(start, Claim(p));
      if FullBetween(start, old(state)) {
        FullBetweenExtends(start, old(state), state);
      }
      won := Phase(state, p).Claimed?;
    }

    /** `FlowState::try_claim_publishable`, run by producer `p` amid interference. */
    method TryClaimPublishable(p: nat) returns (claimed: Option<nat>)
      requires Inv(state) && Phase(state, p).Idle?
      modifies this
      ensures Inv(state) && Reaches(old(state), state)
      ensures claimed.Some? ==> Phase(state, p) == Claimed(claimed.value) && claimed.value >= old(state).writable
      // `None`: another producer got a sequence meanwhile, or the flow was full at some moment.
      ensures claimed.None? ==> Phase(state, p).Idle?
                                && (state.writable > old(state).writable || FullBetween(old(state), state))
    {
      ghost var start := state;
      ReachesItself(start);
      var nextWritable := LoadNextWritable(start, p);
      var minReceivable := LoadNextPublishable(start, p);
      var n := 0;
      while n < |state.cursors|
        invariant Inv(state) && Reaches(start, state) && |state.cursors| == |start.cursors|
        invariant n <= |state.cursors| && Phase(state, p) == Scanning(nextWritable, minReceivable, n)
        invariant Accounts(start, state, nextWritable, minReceivable)
        decreases |start.cursors| - n
      {
        minReceivable := ScanCursor(start, p, minReceivable, n);
        n := n + 1;
      }
      var won := CompareExchangeWritable(start, p);
      claimed := if won then Some(nextWritable) else None;
    }

    /** `get_mut` and the store of `UnpublishedData::publish`. */
    method Store(ghost start: State<T>, p: nat, data: T)
      requires Inv(state) && Reaches(start, state) && Phase(state, p).Claimed?
      modifies this
      ensures Inv(state) && Reaches(start, state) && Capacity(state) == old(Capacity(state))
      ensures Phase(state, p) == Borrowed(old(Phase(state, p)).claim)
      ensures state.buffer[old(Phase(state, p)).claim % Capacity(state)] == data
    {
      hide Reaches;
      hide Upgradable;
      SlotIsRemainder(Capacity(state), Phase(state, p).claim);
      Do(start, BorrowMut(p));
      Do(start, Write(p, data));
    }

    method BeginDrop(ghost start: State<T>, p: nat)
      requires Inv(state) && Reaches(start, state) && Phase(state, p).Borrowed?
      modifies this
      ensures Inv(state) && Reaches(start, state) && Capacity(state) == old(Capacity(state))
      ensures Phase(state, p) == Publishing(old(Phase(state, p)).claim)
      ensures state.buffer[old(Phase(state, p)).claim % Capacity(state)]
           == old(state.buffer[Phase(state, p).claim % Capacity(state)])
    {
      Do(start, BeginPublish(p));
    }

    /** `FlowState::try_publish`; the weak compare-exchange may fail spuriously. */
    method TryPublish(ghost start: State<T>, p: nat, spurious: bool) returns (published: bool)
      requires Inv(state) && Reaches(start, state) && Phase(state, p).Publishing?
      modifies this
      ensures Inv(state) && Reaches(start, state) && Capacity(state) == old(Capacity(state))
      ensures published ==> Phase(state, p).Idle? && !spurious
                            && |state.log| == old(Phase(state, p)).claim + 1
                            && state.log[old(Phase(state, p)).claim]
                            == old(state.buffer[Phase(state, p).claim % Capacity(state)])
      ensures !published ==> Phase(state, p) == old(Phase(state, p))
                             && state.buffer[old(Phase(state, p)).claim % Capacity(state)]
                             == old(state.buffer[Phase(state, p).claim % Capacity(state)])
    {
      SlotIsRemainder(Capacity(state), Phase(state, p).claim);
      Do(start, Action<T>.TryPublish(p, spurious));
      published := Phase(state, p).Idle?;
    }

    /** `UnpublishedData::publish`: store `data` in the claimed slot and drop the guard,
        whose loop retries `try_publish`. The scheduler grants the loop `turns` iterations.
        Once it ends, the log holds `data` at exactly the claimed sequence. */
    method Publish(p: nat, data: T, turns: nat) returns (published: bool)
      requires Inv(state) && Phase(state, p).Claimed?
      modifies this
      ensures Inv(state) && Reaches(old(state), state)
      ensures published ==> Phase(state, p).Idle?
                            && old(Phase(state, p)).claim < |state.log|
                            && state.log[old(Phase(state, p)).claim] == data
      ensures !published ==> Phase(state, p) == Publishing(old(Phase(state, p)).claim)
                             && state.buffer[old(Phase(state, p)).claim % Capacity(state)] == data
    {
      ghost var start := state;
      ReachesItself(start);
      var sequence := Phase(state, p).claim;
      Store(start, p, data);
      BeginDrop(start, p);
      published := false;
      var turn := 0;
      while turn < turns && !published
        invariant Inv(state) && Reaches(start, state)
        invariant !published ==> Phase(state, p) == Publishing(sequence) && state.buffer[sequence % Capacity(state)] == data
        invariant published ==> Phase(state, p).Idle? && sequence < |state.log| && state.log[sequence] == data
      {
        var spurious: bool := *;
        published := TryPublish(start, p, spurious);
        turn := turn + 1;
      }
    }

    /** A subscriber nothing but its own thread touches. */
    predicate IsResting(i: nat)
      reads this
    {
      i < |state.cursors| && WellFormed(state) && state.alive[i] && state.subscribers[i].Resting?
    }

    /** `FlowSubscriber::receivable_seqs`. */
    method ReceivableSeqs(ghost start: State<T>, i: nat) returns (first: nat, end: nat)
      requires Inv(state) && Reaches(start, state) && IsResting(i)
      modifies this
      ensures Inv(state) && Reaches(start, state) && |state.cursors| == old(|state.cursors|)
      ensures state.alive[i] && state.subscribers[i] == Receiving(first, first, end)
      ensures first == old(state.cursors[i]) <= end && end >= old(state).publishable
      ensures state.cursors[i] == first && state.received[i] == old(state.received[i])
      ensures old(state).log <= state.log && end <= |state.log|
    {
      Do(start, LoadOwnCursor(i));
      Do(start, LoadEnd(i));
      first, end := state.subscribers[i].lo, state.subscribers[i].end;
      assert ReadOk(state, i);
    }

    /** `FlowState::get` of the next sequence in the snapshotted range. */
    method Get(ghost start: State<T>, i: nat) returns (data: T)
      requires Inv(state) && Reaches(start, state) && i < |state.cursors| && state.alive[i]
      requires state.subscribers[i].Receiving? && state.subscribers[i].next < state.subscribers[i].end
      modifies this
      ensures Inv(state) && Reaches(start, state) && |state.cursors| == old(|state.cursors|)
      ensures state.alive[i] && state.cursors[i] == old(state.cursors[i])
      ensures state.subscribers[i] == old(state.subscribers[i]).(next := old(state.subscribers[i]).next + 1)
      ensures state.received[i] == old(state.received[i]) + [data]
      ensures old(state.subscribers[i]).next < |state.log| && data == state.log[old(state.subscribers[i]).next]
      ensures old(state).log <= state.log
    {
      hide Reaches;
      hide Upgradable;
      SlotIsRemainder(Capacity(state), state.subscribers[i].next);
      Do(start, Borrow(i));
      data := state.received[i][|state.received[i]| - 1];
      assert ReadOk(state, i);
    }

    /** Dropping the borrowed data: `receive_up_to`, skipped if nothing was borrowed. */
    method ReceiveUpTo(ghost start: State<T>, i: nat)
      requires Inv(state) && Reaches(start, state) && i < |state.cursors| && state.alive[i]
      requires state.subscribers[i].Receiving?
      modifies this
      ensures Inv(state) && Reaches(start, state) && |state.cursors| == old(|state.cursors|) && IsResting(i)
      ensures state.cursors[i] == old(state.subscribers[i]).next
      ensures state.received[i] == old(state.received[i]) && old(state).log <= state.log
    {
      assert ReadOk(state, i);
      Do(start, Release(i));
    }

    /** `FlowSubscriber::try_next`, followed by dropping the returned guard. */
    method TryNext(i: nat) returns (data: Option<T>)
      requires Inv(state) && IsResting(i)
      modifies this
      ensures Inv(state) && Reaches(old(state), state) && IsResting(i)
      ensures data.Some? ==>
                && state.cursors[i] == old(state.cursors[i]) + 1
                && old(state.cursors[i]) < |state.log| && data.value == state.log[old(state.cursors[i])]
                && state.received[i] == old(state.received[i]) + [data.value]
      ensures data.None? ==> state.cursors[i] == old(state.cursors[i]) && state.received[i] == old(state.received[i])
      // `Ahead` is only ever reported to a subscriber that had read everything.
      ensures data.None? ==> old(state.cursors[i]) == old(state).publishable
    {
      ghost var start := state;
      ReachesItself(start);
      assert ReadOk(state, i);
      var first, end := ReceivableSeqs(start, i);
      if first < end {
        var v := Get(start, i);
        ReceiveUpTo(start, i);
        data := Some(v);
      } else {
        ReceiveUpTo(start, i);
        data := None;
      }
    }
  }
}
