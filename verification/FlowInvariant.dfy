/** The inductive invariant of the flow, and the safety it gives the unsafe slot accesses. */
module FlowInvariant {
  import opened Bits
  import opened FlowProtocol

  ghost predicate Shape<T>(s: State<T>) {
    WellFormed(s) && IsPowerOfTwo(Capacity(s))
  }

  /** Live cursors <= publishable <= writable <= min(publishable, live cursors) + capacity. */
  predicate Window<T>(s: State<T>)
    requires WellFormed(s)
  {
    && s.publishable <= s.writable <= s.publishable + Capacity(s)
    && (forall i :: 0 <= i < |s.cursors| ==> s.cursors[i] <= s.publishable)
    && (forall i :: 0 <= i < |s.cursors| && s.alive[i] ==> s.writable <= s.cursors[i] + Capacity(s))
  }

  /** A scan's running minimum is a lower bound on everything it has passed, however stale. */
  predicate ScanOk<T>(s: State<T>, ph: ProducerPhase)
    requires WellFormed(s)
  {
    match ph
    case LoadedWritable(w) => w <= s.writable
    case Scanning(w, min, next) => PassedBelow(s, min, next)
    case Upgraded(w, min, next) => next < |s.cursors| && PassedBelow(s, min, next)
    case Loaded(w, min, next) => next < |s.cursors| && PassedBelow(s, min, next + 1)
    case _ => true
  }

  predicate PassedBelow<T>(s: State<T>, min: nat, next: nat)
    requires WellFormed(s)
  {
    && next <= |s.cursors|
    && min <= s.publishable
    && forall i :: 0 <= i < next && s.alive[i] ==> min <= s.cursors[i]
  }

  predicate Scans<T>(s: State<T>)
    requires WellFormed(s)
  {
    forall p :: p in s.producers ==> ScanOk(s, s.producers[p])
  }

  /** The outstanding claims are exactly `publishable..writable`, one holder each. */
  predicate ClaimsInWindow<T>(s: State<T>) {
    forall p :: p in s.producers && HoldsClaim(s.producers[p]) ==>
                  s.publishable <= s.producers[p].claim < s.writable
  }

  predicate ClaimsUnique<T>(s: State<T>) {
    forall p, p' :: p in s.producers && p' in s.producers && p != p'
                    && HoldsClaim(s.producers[p]) && HoldsClaim(s.producers[p'])
                    ==> s.producers[p].claim != s.producers[p'].claim
  }

  predicate Held<T>(s: State<T>, q: nat) {
    exists p :: p in s.producers && HoldsClaim(s.producers[p]) && s.producers[p].claim == q
  }

  predicate ClaimsCover<T>(s: State<T>) {
    forall q :: s.publishable <= q < s.writable ==> Held(s, q)
  }

  /** Whatever a live subscriber has yet to release still holds what was published there. */
  predicate Contents<T(==)>(s: State<T>)
    requires WellFormed(s)
  {
    && |s.log| == s.publishable
    && forall i, q :: 0 <= i < |s.cursors| && s.alive[i] && s.cursors[i] <= q < s.publishable ==>
         s.buffer[q % Capacity(s)] == s.log[q]
  }

  /** Each subscriber has been shown exactly a prefix of the log. */
  predicate ReadOk<T(==)>(s: State<T>, i: nat)
    requires WellFormed(s) && i < |s.cursors|
  {
    var upTo := match s.subscribers[i]
                case Receiving(_, next, _) => next
                case _ => s.cursors[i];
    && (match s.subscribers[i]
        case Resting => true
        case LoadedCursor(lo) => lo == s.cursors[i]
        case Receiving(lo, next, end) => lo == s.cursors[i] && lo <= next <= end <= s.publishable)
    && upTo <= |s.log|
    && s.received[i] == s.log[..upTo]
  }

  predicate Reads<T(==)>(s: State<T>)
    requires WellFormed(s)
  {
    forall i :: 0 <= i < |s.cursors| ==> ReadOk(s, i)
  }

  ghost predicate Inv<T>(s: State<T>) {
    && Shape(s) && Window(s) && Scans(s)
    && ClaimsInWindow(s) && ClaimsUnique(s) && ClaimsCover(s)
    && Contents(s) && Reads(s)
  }

  lemma SlotIsRemainder(capacity: nat, q: nat)
    requires capacity > 0 && IsPowerOfTwo(capacity)
    ensures Slot(capacity, q) == q % capacity
  {
    var k: nat :| capacity == Pow2(k);
    MaskIsRemainder(q, k);
  }

  lemma InitialInv<T>(s: State<T>)
    requires Initial(s)
    ensures Inv(s)
  {
    PowerOfTwoTest(Capacity(s));
  }

  // One lemma per conjunct that a step can disturb.

  lemma WindowStep<T>(s: State<T>, a: Action<T>)
    requires Inv(s) && Enabled(s, a)
    ensures Shape(Next(s, a)) && Window(Next(s, a))
  {
    if a.TryPublish? {
      assert HoldsClaim(s.producers[a.p]);
    } else if a.Claim? {
      assert ScanOk(s, s.producers[a.p]);
    } else if a.Release? {
      assert ReadOk(s, a.i);
    }
  }

  /** Cursors and both counters only grow, and subscribers only go away. */
  ghost predicate Grows<T>(s: State<T>, s': State<T>) {
    && WellFormed(s) && WellFormed(s') && |s'.cursors| == |s.cursors|
    && s.publishable <= s'.publishable && s.writable <= s'.writable
    && forall i :: 0 <= i < |s.cursors| ==> s.cursors[i] <= s'.cursors[i] && (s'.alive[i] ==> s.alive[i])
  }

  lemma StepGrows<T>(s: State<T>, a: Action<T>)
    requires Enabled(s, a)
    ensures Grows(s, Next(s, a))
  {}

  lemma ScanKept<T>(s: State<T>, s': State<T>, ph: ProducerPhase)
    requires Grows(s, s') && ScanOk(s, ph)
    ensures ScanOk(s', ph)
  {}

  lemma OwnScanStep<T>(s: State<T>, a: Action<T>, p: nat)
    requires Enabled(s, a) && s.publishable <= s.writable && Actor(a) == Producer(p) && ScanOk(s, Phase(s, p))
    ensures ScanOk(s, Phase(Next(s, a), p))
  {}

  lemma OthersKeepPhase<T>(s: State<T>, a: Action<T>, p: nat)
    requires Enabled(s, a) && Actor(a) != Producer(p)
    ensures Phase(Next(s, a), p) == Phase(s, p)
  {}

  lemma ScansStep<T>(s: State<T>, a: Action<T>)
    requires s.publishable <= s.writable && Enabled(s, a) && Scans(s)
    ensures WellFormed(Next(s, a)) && Scans(Next(s, a))
  {
    var s' := Next(s, a);
    StepGrows(s, a);
    forall p | p in s'.producers
      ensures ScanOk(s', Phase(s', p))
    {
      assert ScanOk(s, Phase(s, p));
      if Actor(a) == Producer(p) {
        OwnScanStep(s, a, p);
      } else {
        OthersKeepPhase(s, a, p);
      }
      ScanKept(s, s', Phase(s', p));
    }
  }

  lemma ClaimsInWindowStep<T>(s: State<T>, a: Action<T>)
    requires Shape(s) && ClaimsInWindow(s) && ClaimsUnique(s) && s.publishable <= s.writable && Enabled(s, a)
    ensures ClaimsInWindow(Next(s, a))
  {}

  lemma ClaimsUniqueStep<T>(s: State<T>, a: Action<T>)
    requires Shape(s) && ClaimsInWindow(s) && ClaimsUnique(s) && Enabled(s, a)
    ensures ClaimsUnique(Next(s, a))
  {}

  lemma CoverStep<T>(s: State<T>, a: Action<T>)
    requires Inv(s) && Enabled(s, a)
    ensures ClaimsCover(Next(s, a))
  {
    var s' := Next(s, a);
    forall q | s'.publishable <= q < s'.writable
      ensures Held(s', q)
    {
      if q < s.writable {
        assert Held(s, q);
        var p :| p in s.producers && HoldsClaim(s.producers[p]) && s.producers[p].claim == q;
        assert p in s'.producers && HoldsClaim(s'.producers[p]) && s'.producers[p].claim == q;
      } else {
        assert HoldsClaim(s'.producers[a.p]) && s'.producers[a.p].claim == q;
      }
    }
  }

  /** A write through a claim leaves alone every slot a live subscriber holds or has yet to read. */
  lemma ClaimAvoidsUnread<T>(s: State<T>, p: nat, i: nat, r: nat)
    requires Inv(s)
    requires p in s.producers && HoldsClaim(s.producers[p])
    requires i < |s.cursors| && s.alive[i] && s.cursors[i] <= r < s.publishable
    ensures Slot(Capacity(s), s.producers[p].claim) != Slot(Capacity(s), r)
  {
    var q := s.producers[p].claim;
    SlotIsRemainder(Capacity(s), q);
    SlotIsRemainder(Capacity(s), r);
    DistinctWithinLap(r, q, Capacity(s));
  }

  /** No two outstanding claims share a slot. */
  lemma ClaimsAvoidEachOther<T>(s: State<T>, p: nat, p': nat)
    requires Inv(s) && p != p'
    requires p in s.producers && HoldsClaim(s.producers[p])
    requires p' in s.producers && HoldsClaim(s.producers[p'])
    ensures Slot(Capacity(s), s.producers[p].claim) != Slot(Capacity(s), s.producers[p'].claim)
  {
    var q, q' := s.producers[p].claim, s.producers[p'].claim;
    SlotIsRemainder(Capacity(s), q);
    SlotIsRemainder(Capacity(s), q');
    if q < q' {
      DistinctWithinLap(q, q', Capacity(s));
    } else {
      DistinctWithinLap(q', q, Capacity(s));
    }
  }

  lemma ContentsStep<T>(s: State<T>, a: Action<T>)
    requires Inv(s) && Enabled(s, a)
    ensures Contents(Next(s, a))
  {
    var s' := Next(s, a);
    if a.Write? {
      var q := s.producers[a.p].claim;
      forall i, r | 0 <= i < |s.cursors| && s.alive[i] && s.cursors[i] <= r < s.publishable
        ensures s'.buffer[r % Capacity(s)] == s.log[r]
      {
        ClaimAvoidsUnread(s, a.p, i, r);
        SlotIsRemainder(Capacity(s), r);
      }
    } else if a.TryPublish? {
      SlotIsRemainder(Capacity(s), s.producers[a.p].claim);
    } else {
      assert s'.buffer == s.buffer && s'.log == s.log;
    }
  }

  lemma ReadStep<T>(s: State<T>, a: Action<T>, i: nat)
    requires Shape(s) && Contents(s) && ClaimsInWindow(s) && Enabled(s, a)
    requires i < |s.cursors| && ReadOk(s, i)
    ensures Shape(Next(s, a)) && i < |Next(s, a).cursors| && ReadOk(Next(s, a), i)
  {
    hide Slot;
    hide Upgradable;
    if a == Action<T>.Borrow(i) {
      var q := s.subscribers[i].next;
      SlotIsRemainder(Capacity(s), q);
      assert s.log[..q + 1] == s.log[..q] + [s.log[q]];
    } else if a.TryPublish? {
      assert s.log <= Next(s, a).log;
    }
  }

  lemma ReadsStep<T>(s: State<T>, a: Action<T>)
    requires Inv(s) && Enabled(s, a)
    ensures Shape(Next(s, a)) && Reads(Next(s, a))
  {
    forall i | 0 <= i < |Next(s, a).cursors|
      ensures ReadOk(Next(s, a), i)
    {
      ReadStep(s, a, i);
    }
  }

  /** Every step of every thread keeps the invariant. */
  lemma StepInv<T>(s: State<T>, a: Action<T>)
    requires Inv(s) && Enabled(s, a)
    ensures Inv(Next(s, a))
  {
    WindowStep(s, a);
    ScansStep(s, a);
    ClaimsInWindowStep(s, a);
    ClaimsUniqueStep(s, a);
    CoverStep(s, a);
    ContentsStep(s, a);
    ReadsStep(s, a);
  }

  lemma {:induction false} RunInv<T>(s: State<T>, acts: seq<Action<T>>)
    requires Inv(s) && CanRun(s, acts)
    ensures Inv(Run(s, acts))
    decreases |acts|
  {
    if acts != [] {
      StepInv(s, acts[0]);
      RunInv(Next(s, acts[0]), acts[1..]);
    }
  }

  lemma ReachableInv<T(!new)>(s: State<T>)
    requires Reachable(s)
    ensures Inv(s)
  {
    var s0: State<T>, acts: seq<Action<T>> :| Initial(s0) && CanRun(s0, acts) && Run(s0, acts) == s;
    InitialInv(s0);
    RunInv(s0, acts);
  }

  /** A mutable borrow of a slot. */
  predicate MutablyBorrowed<T>(s: State<T>, p: nat, slot: nat)
    requires WellFormed(s)
  {
    p in s.producers && HoldsClaim(s.producers[p]) && slot == Slot(Capacity(s), s.producers[p].claim)
  }

  /** A slot a subscriber has borrowed, or may still borrow before releasing its cursor. */
  ghost predicate SharedBorrowed<T>(s: State<T>, i: nat, slot: nat)
    requires WellFormed(s)
  {
    && i < |s.cursors| && s.alive[i]
    && exists r: nat :: s.cursors[i] <= r < s.publishable && slot == Slot(Capacity(s), r)
  }

  /** The safety contract of `get` and `get_mut`: in every reachable state a claimed slot
      has one writer and no reader, every slot is inside the buffer, and the window holds. */
  lemma SlotsAreExclusive<T(!new)>(s: State<T>)
    requires Reachable(s)
    ensures WellFormed(s) && Window(s)
    ensures forall p: nat, p': nat, slot: nat :: p != p' && MutablyBorrowed(s, p, slot) ==> !MutablyBorrowed(s, p', slot)
    ensures forall p: nat, i: nat, slot: nat :: MutablyBorrowed(s, p, slot) ==> !SharedBorrowed(s, i, slot)
    ensures forall p: nat, slot: nat :: MutablyBorrowed(s, p, slot) ==> slot < Capacity(s)
    ensures forall i: nat, slot: nat :: SharedBorrowed(s, i, slot) ==> slot < Capacity(s)
  {
    ReachableInv(s);
    forall p: nat, p': nat, slot: nat | p != p' && MutablyBorrowed(s, p, slot)
      ensures !MutablyBorrowed(s, p', slot)
    {
      if MutablyBorrowed(s, p', slot) {
        ClaimsAvoidEachOther(s, p, p');
      }
    }
    forall p: nat, i: nat, slot: nat | MutablyBorrowed(s, p, slot)
      ensures !SharedBorrowed(s, i, slot)
    {
      if SharedBorrowed(s, i, slot) {
        var r: nat :| s.cursors[i] <= r < s.publishable && slot == Slot(Capacity(s), r);
        ClaimAvoidsUnread(s, p, i, r);
      }
    }
    forall q: nat
      ensures Slot(Capacity(s), q) < Capacity(s)
    {
      SlotIsRemainder(Capacity(s), q);
    }
  }
}
