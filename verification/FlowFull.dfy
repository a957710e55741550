/** When a claim is refused. The documentation of `try_claim_publishable` says that `None`
    means that the flow is full; this is what it does mean. */
module FlowFull {
  import opened FlowProtocol
  import opened FlowInvariant

  /** Cursor `i` is a whole lap behind. */
  predicate Behind<T>(s: State<T>, i: nat)
    requires WellFormed(s) && i < |s.cursors|
  {
    s.writable >= s.cursors[i] + Capacity(s)
  }

  /** One of the cursors from `next` on that a scan would still see is a whole lap behind. */
  predicate BlockedFrom<T>(s: State<T>, next: nat)
    requires WellFormed(s)
  {
    exists i :: next <= i < |s.cursors| && Upgradable(s, i) && Behind(s, i)
  }

  predicate Unpublished<T>(s: State<T>)
  {
    s.writable >= s.publishable + Capacity(s)
  }

  /** There is no room before what is still to be published, or before a cursor. */
  predicate Full<T>(s: State<T>)
    requires WellFormed(s)
  {
    Unpublished(s) || BlockedFrom(s, 0)
  }

  /** While nobody else is scanning, only the cursors of live subscribers count. */
  lemma FullForSoleProducer<T>(s: State<T>, p: nat)
    requires Inv(s) && Phase(s, p).Idle?
    requires forall p' :: p' in s.producers && p' != p ==> !s.producers[p'].Upgraded? && !s.producers[p'].Loaded?
    ensures Full(s) <==> || s.writable == s.publishable + Capacity(s)
                         || exists i :: 0 <= i < |s.cursors| && s.alive[i] && s.writable == s.cursors[i] + Capacity(s)
  {
    forall i | 0 <= i < |s.cursors|
      ensures Upgradable(s, i) <==> s.alive[i]
    {}
  }

  // One call of `try_claim_publishable` by `p`: `acts` are its steps up to the
  // compare-exchange, with whatever other threads do in between.

  predicate NoClaimBy<T>(acts: seq<Action<T>>, p: nat) {
    forall k :: 0 <= k < |acts| ==> acts[k] != Action.Claim(p)
  }

  predicate Calls<T>(s: State<T>, acts: seq<Action<T>>, p: nat) {
    && CanRun(s, acts) && acts != [] && acts[0] == LoadWritable(p) && NoClaimBy(acts, p)
    && Enabled(Run(s, acts), Action.Claim(p))
  }

  /** The call returns `None`. */
  predicate Refused<T>(s: State<T>, acts: seq<Action<T>>, p: nat)
    requires Calls(s, acts, p)
  {
    Phase(Next(Run(s, acts), Action.Claim(p)), p).Idle?
  }

  /** Another producer claims a sequence during the run. */
  predicate Raced<T>(s: State<T>, acts: seq<Action<T>>, p: nat)
    requires CanRun(s, acts)
    decreases |acts|
  {
    acts != []
    && ((acts[0].Claim? && acts[0].p != p && Phase(Next(s, acts[0]), acts[0].p).Claimed?)
        || Raced(Next(s, acts[0]), acts[1..], p))
  }

  /** The load `a` of `p`'s scan finds no room. */
  predicate Sees<T>(s: State<T>, a: Action<T>, p: nat)
    requires Enabled(s, a)
  {
    || (a == LoadPublishable(p) && Unpublished(s))
    || (a == LoadCursor(p) && Behind(s, Phase(s, p).next))
  }

  predicate SawNoRoom<T>(s: State<T>, acts: seq<Action<T>>, p: nat)
    requires CanRun(s, acts)
    decreases |acts|
  {
    acts != [] && (Sees(s, acts[0], p) || SawNoRoom(Next(s, acts[0]), acts[1..], p))
  }

  /** The flow is full at some moment of the run. */
  predicate WasFull<T>(s: State<T>, acts: seq<Action<T>>)
    requires CanRun(s, acts) && WellFormed(s)
    decreases |acts|
  {
    Full(s) || (acts != [] && WasFull(Next(s, acts[0]), acts[1..]))
  }

  predicate InScan(ph: ProducerPhase) {
    ph.LoadedWritable? || ph.Scanning? || ph.Upgraded? || ph.Loaded?
  }

  /** The scan's minimum so far leaves no room. */
  predicate Short<T>(s: State<T>, p: nat)
    requires InScan(Phase(s, p))
  {
    !Phase(s, p).LoadedWritable? && Phase(s, p).min + Capacity(s) <= Phase(s, p).w
  }

  lemma ScanStep<T>(s: State<T>, a: Action<T>, p: nat)
    requires Enabled(s, a) && InScan(Phase(s, p)) && a != Action.Claim(p)
    ensures InScan(Phase(Next(s, a), p)) && Phase(Next(s, a), p).w == Phase(s, p).w
    ensures Capacity(Next(s, a)) == Capacity(s)
    ensures Next(s, a).writable >= s.writable
    ensures Next(s, a).writable > s.writable <==> a.Claim? && a.p != p && Phase(Next(s, a), a.p).Claimed?
    ensures s.writable == Phase(s, p).w ==> (Short(Next(s, a), p) <==> Short(s, p) || Sees(s, a, p))
  {}

  /** What a scan arrives at is decided by the claims of others and by its own loads. */
  lemma {:induction false} ScanOutcome<T>(s: State<T>, acts: seq<Action<T>>, p: nat)
    requires CanRun(s, acts) && InScan(Phase(s, p)) && NoClaimBy(acts, p) && s.writable >= Phase(s, p).w
    ensures var s' := Run(s, acts);
            && InScan(Phase(s', p)) && Phase(s', p).w == Phase(s, p).w && s'.writable >= s.writable
            && (s'.writable == s.writable <==> !Raced(s, acts, p))
            && (s'.writable == Phase(s, p).w ==> (Short(s', p) <==> Short(s, p) || SawNoRoom(s, acts, p)))
    decreases |acts|
  {
    if acts != [] {
      ScanStep(s, acts[0], p);
      ScanOutcome(Next(s, acts[0]), acts[1..], p);
    }
  }

  /** The compare-exchange goes by the minimum found and the sequence loaded first. */
  lemma ClaimFailsIff<T>(s: State<T>, p: nat)
    requires Enabled(s, Action.Claim(p))
    ensures Phase(Next(s, Action.Claim(p)), p).Idle? <==> Short(s, p) || s.writable != Phase(s, p).w
  {}

  /** `None` is returned exactly when another producer claimed a sequence during the call or
      one of the call's own loads found no room. */
  lemma RefusedIff<T>(s: State<T>, acts: seq<Action<T>>, p: nat)
    requires Inv(s) && Calls(s, acts, p)
    ensures Refused(s, acts, p) <==> Raced(s, acts, p) || SawNoRoom(s, acts, p)
  {
    ScanOutcome(Next(s, acts[0]), acts[1..], p);
    ClaimFailsIff(Run(s, acts), p);
  }

  /** A load that finds no room finds the flow full. */
  lemma {:induction false} SawNoRoomWasFull<T>(s: State<T>, acts: seq<Action<T>>, p: nat)
    requires WellFormed(s) && CanRun(s, acts) && SawNoRoom(s, acts, p)
    ensures WasFull(s, acts)
    decreases |acts|
  {
    if Sees(s, acts[0], p) {
      if acts[0].LoadCursor? {
        assert HoldsArc(s.producers[p], Phase(s, p).next);
        assert Upgradable(s, Phase(s, p).next);
      }
    } else {
      SawNoRoomWasFull(Next(s, acts[0]), acts[1..], p);
    }
  }

  /** The documented direction, as far as it holds: `None` means that another producer got a
      sequence in the meantime, or that the flow was full at some moment of the call. */
  lemma NoneMeans<T>(s: State<T>, acts: seq<Action<T>>, p: nat)
    requires Inv(s) && Calls(s, acts, p) && Refused(s, acts, p)
    ensures Raced(s, acts, p) || WasFull(s, acts)
  {
    RefusedIff(s, acts, p);
    if SawNoRoom(s, acts, p) {
      SawNoRoomWasFull(s, acts, p);
    }
  }

  /** The other direction: a flow that is full of unpublished data or ahead of a live
      subscriber by a whole lap grants no claim, however stale the scan is. */
  lemma FullMeansNone<T>(s: State<T>, p: nat)
    requires Inv(s) && Enabled(s, Action.Claim(p))
    requires Unpublished(s) || exists i :: 0 <= i < |s.cursors| && s.alive[i] && Behind(s, i)
    ensures Phase(Next(s, Action.Claim(p)), p).Idle?
  {
    assert ScanOk(s, s.producers[p]);
  }

  // A call that nobody disturbs.

  /** Steps of other threads that leave the room alone: nothing is claimed, published,
      received or dropped, and no other scan lets go of a cursor. */
  predicate Undisturbed<T>(a: Action<T>, p: nat) {
    Actor(a) == Producer(p)
    || !(a.Claim? || a.TryPublish? || a.Release? || a.DropSubscriber? || a.ReleaseArc?)
  }

  predicate AllUndisturbed<T>(acts: seq<Action<T>>, p: nat) {
    forall k :: 0 <= k < |acts| ==> Undisturbed(acts[k], p)
  }

  /** What the loads of `p`'s scan that are still to come will find. */
  predicate WillSee<T>(s: State<T>, p: nat)
    requires WellFormed(s) && InScan(Phase(s, p))
  {
    match Phase(s, p)
    case LoadedWritable(_) => Full(s)
    case Scanning(_, _, next) => BlockedFrom(s, next)
    case Upgraded(_, _, next) => BlockedFrom(s, next)
    case Loaded(_, _, next) => BlockedFrom(s, next + 1)
  }

  lemma UndisturbedUpgradable<T>(s: State<T>, a: Action<T>, p: nat, i: nat)
    requires Enabled(s, a) && Undisturbed(a, p) && InScan(Phase(s, p)) && a != Action.Claim(p)
    requires i < |s.cursors|
    requires a.ReleaseArc? ==> i != Phase(s, p).next
    ensures WellFormed(Next(s, a)) && (Upgradable(Next(s, a), i) <==> Upgradable(s, i))
  {
    var s' := Next(s, a);
    if !s.alive[i] {
      if Upgradable(s, i) {
        var q :| q in s.producers && HoldsArc(s.producers[q], i);
        assert q in s'.producers && HoldsArc(s'.producers[q], i);
      }
      if Upgradable(s', i) {
        var q :| q in s'.producers && HoldsArc(s'.producers[q], i);
        assert Upgradable(s, i) by {
          if !(a.Upgrade? && a.p == q) {
            assert q in s.producers && HoldsArc(s.producers[q], i);
          }
        }
      }
    }
  }

  lemma WillSeeStep<T>(s: State<T>, a: Action<T>, p: nat)
    requires Enabled(s, a) && Undisturbed(a, p) && InScan(Phase(s, p)) && a != Action.Claim(p)
    ensures WellFormed(Next(s, a)) && InScan(Phase(Next(s, a), p))
    ensures WillSee(s, p) <==> Sees(s, a, p) || WillSee(Next(s, a), p)
  {
    var s' := Next(s, a);
    assert s'.writable == s.writable && s'.publishable == s.publishable && s'.cursors == s.cursors;
    forall i: nat | i < |s.cursors| && (a.ReleaseArc? ==> i != Phase(s, p).next)
      ensures Upgradable(s', i) <==> Upgradable(s, i)
    {
      UndisturbedUpgradable(s, a, p, i);
    }
    if a.LoadCursor? && a.p == p {
      assert HoldsArc(s.producers[p], Phase(s, p).next);
      assert Upgradable(s, Phase(s, p).next);
    }
  }

  lemma {:induction false} UndisturbedScan<T>(s: State<T>, acts: seq<Action<T>>, p: nat)
    requires WellFormed(s) && CanRun(s, acts) && InScan(Phase(s, p)) && NoClaimBy(acts, p)
    requires AllUndisturbed(acts, p) && Enabled(Run(s, acts), Action.Claim(p))
    ensures SawNoRoom(s, acts, p) <==> WillSee(s, p)
    ensures !Raced(s, acts, p)
    decreases |acts|
  {
    if acts != [] {
      WillSeeStep(s, acts[0], p);
      UndisturbedScan(Next(s, acts[0]), acts[1..], p);
    }
  }

  /** What a caller can check beforehand: a call that nobody disturbs returns `None` exactly
      when the flow is full before it. */
  lemma UndisturbedNoneIffFull<T>(s: State<T>, acts: seq<Action<T>>, p: nat)
    requires Inv(s) && Calls(s, acts, p) && AllUndisturbed(acts, p)
    ensures Refused(s, acts, p) <==> Full(s)
  {
    var s' := Next(s, acts[0]);
    UndisturbedScan(s', acts[1..], p);
    RefusedIff(s, acts, p);
    forall i: nat | i < |s.cursors|
      ensures Upgradable(s', i) <==> Upgradable(s, i)
    {
      if Upgradable(s, i) && !s.alive[i] {
        var q :| q in s.producers && HoldsArc(s.producers[q], i);
        assert q in s'.producers && HoldsArc(s'.producers[q], i);
      }
    }
  }

  /** In terms of the counters alone, for an only producer. */
  lemma SoleProducerNoneIffFull<T>(s: State<T>, acts: seq<Action<T>>, p: nat)
    requires Inv(s) && Calls(s, acts, p) && AllUndisturbed(acts, p)
    requires forall p' :: p' in s.producers && p' != p ==> !s.producers[p'].Upgraded? && !s.producers[p'].Loaded?
    ensures Refused(s, acts, p) <==>
              || s.writable == s.publishable + Capacity(s)
              || exists i :: 0 <= i < |s.cursors| && s.alive[i] && s.writable == s.cursors[i] + Capacity(s)
  {
    UndisturbedNoneIffFull(s, acts, p);
    FullForSoleProducer(s, p);
  }
}
