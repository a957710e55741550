/** Concrete runs in which `None` is returned although the flow has a free slot. */
module FlowWitnesses {
  import opened FlowProtocol
  import opened FlowFull
  import opened Wrappers

  /** `acts` leads from a new flow to `s`. */
  ghost predicate Leads(s0: State<nat>, acts: seq<Action<nat>>, s: State<nat>) {
    Initial(s0) && CanRun(s0, acts) && Run(s0, acts) == s
  }

  lemma Starts(s0: State<nat>)
    requires Initial(s0)
    ensures Leads(s0, [], s0)
  {}

  lemma Then(s0: State<nat>, acts: seq<Action<nat>>, s: State<nat>, a: Action<nat>)
      returns (acts': seq<Action<nat>>, s': State<nat>)
    requires Leads(s0, acts, s) && Enabled(s, a)
    ensures Leads(s0, acts', s') && acts' == acts + [a] && s' == Next(s, a)
  {
    acts', s' := acts + [a], Next(s, a);
    Prepend(s, a, []);
    assert [a] + [] == [a];
    RunAppend(s0, acts, [a]);
  }

  /** An idle producer's scan of a flow with one subscriber, which nobody interrupts. */
  lemma ThenScan(s0: State<nat>, acts: seq<Action<nat>>, s: State<nat>, p: nat)
      returns (acts': seq<Action<nat>>, s': State<nat>)
    requires Leads(s0, acts, s) && |s.cursors| == 1 && WellFormed(s) && Upgradable(s, 0) && Phase(s, p).Idle?
    ensures Leads(s0, acts', s')
    ensures acts' == acts + [LoadWritable(p), LoadPublishable(p), Upgrade(p), LoadCursor(p), ReleaseArc(p)]
    ensures s' == SetPhase(s, p, Scanning(s.writable, Min(s.publishable, s.cursors[0]), 1))
  {
    hide Leads;
    acts', s' := Then(s0, acts, s, LoadWritable(p));
    acts', s' := Then(s0, acts', s', LoadPublishable(p));
    assert Upgradable(s', 0) by {
      if !s.alive[0] {
        var q :| q in s.producers && HoldsArc(s.producers[q], 0);
        assert q in s'.producers && HoldsArc(s'.producers[q], 0);
      }
    }
    acts', s' := Then(s0, acts', s', Upgrade(p));
    acts', s' := Then(s0, acts', s', LoadCursor(p));
    acts', s' := Then(s0, acts', s', ReleaseArc(p));
    assert s'.producers == s.producers[p := Scanning(s.writable, Min(s.publishable, s.cursors[0]), 1)];
  }

  /** A scan that stops while it holds the only subscriber's cursor. */
  lemma ThenHold(s0: State<nat>, acts: seq<Action<nat>>, s: State<nat>, p: nat)
      returns (acts': seq<Action<nat>>, s': State<nat>)
    requires Leads(s0, acts, s) && |s.cursors| == 1 && WellFormed(s) && s.alive[0] && Phase(s, p).Idle?
    ensures Leads(s0, acts', s') && acts' == acts + [LoadWritable(p), LoadPublishable(p), Upgrade(p)]
    ensures s' == SetPhase(s, p, Upgraded(s.writable, s.publishable, 0))
  {
    hide Leads;
    acts', s' := Then(s0, acts, s, LoadWritable(p));
    acts', s' := Then(s0, acts', s', LoadPublishable(p));
    acts', s' := Then(s0, acts', s', Upgrade(p));
    assert s'.producers == s.producers[p := Upgraded(s.writable, s.publishable, 0)];
  }

  /** Only producer 0 and subscriber 0 act. */
  predicate Alone(acts: seq<Action<nat>>) {
    forall k :: 0 <= k < |acts| ==> Actor(acts[k]) == Producer(0) || Actor(acts[k]) == Subscriber(0)
  }

  /** A flow of one slot that producer 0 has claimed. */
  lemma ClaimOne(v: nat) returns (s0: State<nat>, acts: seq<Action<nat>>, s: State<nat>)
    ensures Leads(s0, acts, s) && Alone(acts)
    ensures s == State([v], 1, 0, [0], [true], map[0 := Claimed(0)], [Resting], [], [[]])
  {
    hide Leads;
    s0 := State([v], 0, 0, [0], [true], map[], [Resting], [], [[]]);
    Starts(s0);
    acts, s := ThenScan(s0, [], s0, 0);
    acts, s := Then(s0, acts, s, Action.Claim(0));
    assert s.producers == map[0 := Claimed(0)];
  }

  lemma OneSlot()
    ensures Slot(1, 0) == 0
  {}

  /** The value is in the slot. */
  lemma WriteOne(v: nat) returns (s0: State<nat>, acts: seq<Action<nat>>, s: State<nat>)
    ensures Leads(s0, acts, s) && Alone(acts)
    ensures s == State([v], 1, 0, [0], [true], map[0 := ProducerPhase.Borrowed(0)], [Resting], [], [[]])
  {
    hide Leads;
    hide Slot;
    OneSlot();
    s0, acts, s := ClaimOne(v);
    acts, s := Then(s0, acts, s, BorrowMut(0));
    assert s.producers == map[0 := ProducerPhase.Borrowed(0)];
    acts, s := Then(s0, acts, s, Write(0, v));
    assert s.buffer == [v];
  }

  /** Its only value is published, and its subscriber has yet to read it. */
  lemma PublishOne(v: nat) returns (s0: State<nat>, acts: seq<Action<nat>>, s: State<nat>)
    ensures Leads(s0, acts, s) && Alone(acts)
    ensures s == State([v], 1, 1, [0], [true], map[0 := Idle], [Resting], [v], [[]])
  {
    hide Leads;
    hide Slot;
    OneSlot();
    s0, acts, s := WriteOne(v);
    acts, s := Then(s0, acts, s, BeginPublish(0));
    assert s.producers == map[0 := Publishing(0)];
    acts, s := Then(s0, acts, s, TryPublish(0, false));
    assert s.producers == map[0 := Idle];
  }

  lemma ThenReceive(s0: State<nat>, acts: seq<Action<nat>>, s: State<nat>)
      returns (acts': seq<Action<nat>>, s': State<nat>)
    requires Leads(s0, acts, s) && Alone(acts) && |s.buffer| == s.publishable == 1
    requires s.cursors == [0] && s.alive == [true] && s.subscribers == [Resting] && s.received == [[]]
    ensures Leads(s0, acts', s') && Alone(acts')
    ensures s' == s.(cursors := [1], received := [[s.buffer[0]]])
  {
    hide Leads;
    hide Slot;
    OneSlot();
    acts', s' := Then(s0, acts, s, LoadOwnCursor(0));
    assert s'.subscribers == [SubscriberPhase.LoadedCursor(0)];
    acts', s' := Then(s0, acts', s', LoadEnd(0));
    assert s'.subscribers == [Receiving(0, 0, 1)];
    acts', s' := Then(s0, acts', s', Borrow(0));
    assert s'.subscribers == [Receiving(0, 1, 1)] && s'.received[0] == [s.buffer[0]];
    acts', s' := Then(s0, acts', s', Release(0));
    assert s'.subscribers == [Resting] && s'.cursors == [1] && s'.received == [[s.buffer[0]]];
  }

  /** A stale scan: the subscriber makes room after its cursor was loaded, and a lone
      producer is told `None` although the flow is empty. */
  lemma StaleScanRefused() returns (s0: State<nat>, acts: seq<Action<nat>>, s: State<nat>)
    ensures Leads(s0, acts, s) && Alone(acts)
    ensures WellFormed(s) && !Full(s) && s.cursors == [s.publishable] && s.writable == s.publishable
    ensures Enabled(s, Action.Claim(0)) && Phase(Next(s, Action.Claim(0)), 0).Idle?
  {
    hide Leads;
    s0, acts, s := PublishOne(7);
    acts, s := ThenScan(s0, acts, s, 0);
    acts, s := ThenReceive(s0, acts, s);
    assert !Behind(s, 0);
  }

  /** A subscriber that has left still counts while another scan holds its cursor: `None`
      although no subscriber is left, the slot is free and no other producer claims. */
  lemma DroppedCursorRefuses() returns (s0: State<nat>, acts: seq<Action<nat>>, s: State<nat>)
    ensures Leads(s0, acts, s) && NoClaimBy(acts, 1)
    ensures s.alive == [false] && s.writable == s.publishable
    ensures Enabled(s, Action.Claim(0)) && Phase(Next(s, Action.Claim(0)), 0).Idle?
  {
    hide Leads;
    s0, acts, s := PublishOne(7);
    acts, s := ThenHold(s0, acts, s, 1);
    acts, s := Then(s0, acts, s, DropSubscriber(0));
    assert HoldsArc(s.producers[1], 0) && Upgradable(s, 0);
    acts, s := ThenScan(s0, acts, s, 0);
  }

  /** Two producers race on an empty flow of capacity two: the loser is told `None` although
      one slot is free. */
  lemma RaceLoserRefused() returns (s0: State<nat>, acts: seq<Action<nat>>, s: State<nat>)
    ensures Leads(s0, acts, s)
    ensures WellFormed(s) && !Full(s) && Capacity(s) == 2
    ensures Enabled(s, Action.Claim(1)) && Phase(Next(s, Action.Claim(1)), 1).Idle?
  {
    hide Leads;
    s0 := State([0, 0], 0, 0, [0], [true], map[], [Resting], [], [[]]);
    assert Bits.And(2, 1) == 0;
    Starts(s0);
    acts, s := ThenScan(s0, [], s0, 0);
    acts, s := ThenScan(s0, acts, s, 1);
    acts, s := Then(s0, acts, s, Action.Claim(0));
    assert !Behind(s, 0);
  }

  /** A subscriber between calls that has received something. */
  lemma ReceivedOne() returns (s: State<nat>)
    ensures Reachable(s)
    ensures s == State([7], 1, 1, [1], [true], map[0 := Idle], [Resting], [7], [[7]])
  {
    var s0, acts, s1 := PublishOne(7);
    acts, s := ThenReceive(s0, acts, s1);
  }
}
