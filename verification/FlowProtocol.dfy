/** The lock-free multicast ring buffer as a state machine: every atomic load,
    compare-exchange, fetch-max, `Weak` upgrade, `Arc` release and slot borrow is one
    step, and any number of producers and subscribers interleave their steps freely. */
module FlowProtocol {
  import opened Bits
  import opened Wrappers

  /** Where a producer is between two of its atomic steps. */
  datatype ProducerPhase =
    | Idle
      // `next_writable_seq` has been loaded as `w`.
    | LoadedWritable(w: nat)
      // Cursors before `next` have been folded into `min`.
    | Scanning(w: nat, min: nat, next: nat)
      // The scan holds the upgraded `Arc` of cursor `next`, not yet loaded ...
    | Upgraded(w: nat, min: nat, next: nat)
      // ... and already loaded.
    | Loaded(w: nat, min: nat, next: nat)
      // `claim` is claimed, its slot not yet borrowed.
    | Claimed(claim: nat)
      // The slot of `claim` is mutably borrowed.
    | Borrowed(claim: nat)
      // The claim is being dropped: it spins on `try_publish`.
    | Publishing(claim: nat)

  /** Where a subscriber is between two of its atomic steps. */
  datatype SubscriberPhase =
    | Resting
      // Its own cursor has been loaded as `lo`.
    | LoadedCursor(lo: nat)
      // The range `lo..end` is snapshotted; slots `lo..next` have been borrowed.
    | Receiving(lo: nat, next: nat, end: nat)

  datatype State<T> = State(
    buffer: seq<T>,
    writable: nat,
    publishable: nat,
    cursors: seq<nat>,
    alive: seq<bool>,
    producers: map<nat, ProducerPhase>,
    subscribers: seq<SubscriberPhase>,
    // History: what has been published, and what each subscriber has been shown.
    log: seq<T>,
    received: seq<seq<T>>)

  datatype Thread = Producer(p: nat) | Subscriber(i: nat)

  datatype Action<T> =
    | LoadWritable(p: nat)
    | LoadPublishable(p: nat)
    | Upgrade(p: nat)
    | LoadCursor(p: nat)
    | ReleaseArc(p: nat)
    | Claim(p: nat)
    | BorrowMut(p: nat)
    | Write(p: nat, v: T)
    | BeginPublish(p: nat)
    | TryPublish(p: nat, spurious: bool)
    | LoadOwnCursor(i: nat)
    | LoadEnd(i: nat)
    | Borrow(i: nat)
    | Release(i: nat)
    | DropSubscriber(i: nat)

  function Actor<T>(a: Action<T>): Thread {
    match a
    case LoadOwnCursor(i) => Subscriber(i)
    case LoadEnd(i) => Subscriber(i)
    case Borrow(i) => Subscriber(i)
    case Release(i) => Subscriber(i)
    case DropSubscriber(i) => Subscriber(i)
    case LoadWritable(p) => Producer(p)
    case LoadPublishable(p) => Producer(p)
    case Upgrade(p) => Producer(p)
    case LoadCursor(p) => Producer(p)
    case ReleaseArc(p) => Producer(p)
    case Claim(p) => Producer(p)
    case BorrowMut(p) => Producer(p)
    case Write(p, _) => Producer(p)
    case BeginPublish(p) => Producer(p)
    case TryPublish(p, _) => Producer(p)
  }

  function Phase<T>(s: State<T>, p: nat): ProducerPhase {
    if p in s.producers then s.producers[p] else Idle
  }

  function Capacity<T>(s: State<T>): nat {
    |s.buffer|
  }

  /** The buffer index of a sequence: `(len - 1) & sequence`. */
  function Slot(capacity: nat, sequence: nat): nat
    requires capacity > 0
  {
    And(sequence, capacity - 1)
  }

  function Max(a: nat, b: nat): nat {
    if a >= b then a else b
  }

  predicate HoldsArc(ph: ProducerPhase, i: nat) {
    (ph.Upgraded? || ph.Loaded?) && ph.next == i
  }

  /** A `Weak` upgrade succeeds while the subscriber or any scanning producer holds the `Arc`. */
  predicate Upgradable<T>(s: State<T>, i: nat)
    requires i < |s.alive|
  {
    s.alive[i] || exists p :: p in s.producers && HoldsArc(s.producers[p], i)
  }

  predicate HoldsClaim(ph: ProducerPhase) {
    ph.Claimed? || ph.Borrowed? || ph.Publishing?
  }

  predicate WellFormed<T>(s: State<T>) {
    && Capacity(s) > 0
    && |s.cursors| == |s.alive| == |s.subscribers| == |s.received|
  }

  predicate Enabled<T>(s: State<T>, a: Action<T>)
  {
    && WellFormed(s)
    && match a
       case LoadWritable(p) => Phase(s, p).Idle?
       case LoadPublishable(p) => Phase(s, p).LoadedWritable?
       case Upgrade(p) => Phase(s, p).Scanning? && Phase(s, p).next < |s.cursors|
       case LoadCursor(p) => Phase(s, p).Upgraded? && Phase(s, p).next < |s.cursors|
       case ReleaseArc(p) => Phase(s, p).Loaded?
       case Claim(p) => Phase(s, p).Scanning? && Phase(s, p).next == |s.cursors|
       case BorrowMut(p) => Phase(s, p).Claimed?
       case Write(p, _) => Phase(s, p).Borrowed? && Slot(Capacity(s), Phase(s, p).claim) < Capacity(s)
       case BeginPublish(p) => Phase(s, p).Borrowed?
       case TryPublish(p, _) => Phase(s, p).Publishing? && Slot(Capacity(s), Phase(s, p).claim) < Capacity(s)
       case LoadOwnCursor(i) => i < |s.subscribers| && s.alive[i] && s.subscribers[i].Resting?
       case LoadEnd(i) => i < |s.subscribers| && s.alive[i] && s.subscribers[i].LoadedCursor?
       case Borrow(i) =>
         && i < |s.subscribers| && s.alive[i] && s.subscribers[i].Receiving?
         && s.subscribers[i].next < s.subscribers[i].end
         && Slot(Capacity(s), s.subscribers[i].next) < Capacity(s)
       case Release(i) => i < |s.subscribers| && s.alive[i] && s.subscribers[i].Receiving?
       case DropSubscriber(i) => i < |s.subscribers| && s.alive[i] && s.subscribers[i].Resting?
  }

  function SetPhase<T>(s: State<T>, p: nat, ph: ProducerPhase): State<T> {
    s.(producers := s.producers[p := ph])
  }

  function SetSubscriber<T>(s: State<T>, i: nat, ph: SubscriberPhase): State<T>
    requires i < |s.subscribers|
  {
    s.(subscribers := s.subscribers[i := ph])
  }

  /** The state after one atomic step. */
  function Next<T>(s: State<T>, a: Action<T>): State<T>
    requires Enabled(s, a)
  {
    match a
    case LoadWritable(p) =>
      SetPhase(s, p, LoadedWritable(s.writable))
    case LoadPublishable(p) =>
      SetPhase(s, p, Scanning(Phase(s, p).w, s.publishable, 0))
    case Upgrade(p) =>
      var ph := Phase(s, p);
      SetPhase(s, p, if Upgradable(s, ph.next) then Upgraded(ph.w, ph.min, ph.next)
                     else Scanning(ph.w, ph.min, ph.next + 1))
    case LoadCursor(p) =>
      var ph := Phase(s, p);
      SetPhase(s, p, Loaded(ph.w, Min(ph.min, s.cursors[ph.next]), ph.next))
    case ReleaseArc(p) =>
      var ph := Phase(s, p);
      SetPhase(s, p, Scanning(ph.w, ph.min, ph.next + 1))
    case Claim(p) =>
      var ph := Phase(s, p);
      if ph.min + Capacity(s) > ph.w && s.writable == ph.w then
        SetPhase(s, p, Claimed(ph.w)).(writable := ph.w + 1)
      else
        SetPhase(s, p, Idle)
    case BorrowMut(p) =>
      SetPhase(s, p, Borrowed(Phase(s, p).claim))
    case Write(p, v) =>
      s.(buffer := s.buffer[Slot(Capacity(s), Phase(s, p).claim) := v])
    case BeginPublish(p) =>
      SetPhase(s, p, Publishing(Phase(s, p).claim))
    case TryPublish(p, spurious) =>
      var q := Phase(s, p).claim;
      if s.publishable == q && !spurious then
        SetPhase(s, p, Idle).(publishable := q + 1, log := s.log + [s.buffer[Slot(Capacity(s), q)]])
      else s
    case LoadOwnCursor(i) =>
      SetSubscriber(s, i, SubscriberPhase.LoadedCursor(s.cursors[i]))
    case LoadEnd(i) =>
      var lo := s.subscribers[i].lo;
      SetSubscriber(s, i, Receiving(lo, lo, s.publishable))
    case Borrow(i) =>
      var ph := s.subscribers[i];
      var v := s.buffer[Slot(Capacity(s), ph.next)];
      SetSubscriber(s, i, ph.(next := ph.next + 1)).(received := s.received[i := s.received[i] + [v]])
    case Release(i) =>
      var ph := s.subscribers[i];
      var s' := SetSubscriber(s, i, Resting);
      if ph.next > ph.lo then s'.(cursors := s.cursors[i := Max(s.cursors[i], ph.next)]) else s'
    case DropSubscriber(i) =>
      s.(alive := s.alive[i := false])
  }

  /** Runs of the machine. */
  predicate CanRun<T>(s: State<T>, acts: seq<Action<T>>)
    decreases |acts|
  {
    acts == [] || (Enabled(s, acts[0]) && CanRun(Next(s, acts[0]), acts[1..]))
  }

  function Run<T>(s: State<T>, acts: seq<Action<T>>): State<T>
    requires CanRun(s, acts)
    decreases |acts|
  {
    if acts == [] then s else Run(Next(s, acts[0]), acts[1..])
  }

  lemma {:induction false} RunAppend<T>(s: State<T>, a: seq<Action<T>>, b: seq<Action<T>>)
    requires CanRun(s, a) && CanRun(Run(s, a), b)
    ensures CanRun(s, a + b) && Run(s, a + b) == Run(Run(s, a), b)
    decreases |a|
  {
    if a == [] {
      assert a + b == b;
    } else {
      assert (a + b)[1..] == a[1..] + b;
      RunAppend(Next(s, a[0]), a[1..], b);
    }
  }

  lemma Prepend<T>(s: State<T>, a: Action<T>, rest: seq<Action<T>>)
    requires Enabled(s, a) && CanRun(Next(s, a), rest)
    ensures CanRun(s, [a] + rest) && Run(s, [a] + rest) == Run(Next(s, a), rest)
  {
    assert ([a] + rest)[1..] == rest;
  }

  /** `Flow::new`: empty buffer slots hold `blank`, and every cursor starts at zero. */
  predicate Initial<T>(s: State<T>) {
    && WellFormed(s)
    && And(Capacity(s), Capacity(s) - 1) == 0
    && s.writable == 0 && s.publishable == 0 && s.log == []
    && s.producers == map[]
    && forall i :: 0 <= i < |s.cursors| ==>
         s.cursors[i] == 0 && s.alive[i] && s.subscribers[i].Resting? && s.received[i] == []
  }

  ghost predicate Reachable<T(!new)>(s: State<T>) {
    exists s0: State<T>, acts: seq<Action<T>> ::
      Initial(s0) && CanRun(s0, acts) && Run(s0, acts) == s
  }
}
