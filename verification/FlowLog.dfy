/** What the ring buffer is for: it refines a bounded multicast log, and publication
    makes progress in claim order. */
module FlowLog {
  import opened FlowProtocol
  import opened FlowInvariant

  /** The abstract log. Each subscriber sees `log` from the start; a live one is never
      more than `capacity` entries behind. */
  datatype Multicast<T> = Multicast(capacity: nat, log: seq<T>, alive: seq<bool>, seen: seq<nat>)

  predicate MulticastOk<T>(m: Multicast<T>) {
    && |m.alive| == |m.seen|
    && forall i :: 0 <= i < |m.seen| ==> m.seen[i] <= |m.log| && (m.alive[i] ==> |m.log| <= m.seen[i] + m.capacity)
  }

  /** One abstract event: a value is appended while nobody is a full lap behind, one live
      subscriber is shown the next value of the log, or one subscriber leaves. */
  predicate MulticastStep<T(==)>(m: Multicast<T>, m': Multicast<T>) {
    || (&& |m'.log| == |m.log| + 1 && m'.log[..|m.log|] == m.log
        && m' == m.(log := m'.log)
        && forall i :: 0 <= i < |m.seen| && i < |m.alive| && m.alive[i] ==> |m.log| < m.seen[i] + m.capacity)
    || (exists i :: 0 <= i < |m.seen| && i < |m.alive| && m.alive[i] && m.seen[i] < |m.log|
                    && m' == m.(seen := m.seen[i := m.seen[i] + 1]))
    || (exists i :: 0 <= i < |m.alive| && m.alive[i] && m' == m.(alive := m.alive[i := false]))
  }

  function Seen<T>(received: seq<seq<T>>): (r: seq<nat>)
    ensures |r| == |received|
    ensures forall i :: 0 <= i < |received| ==> r[i] == |received[i]|
  {
    seq(|received|, i requires 0 <= i < |received| => |received[i]|)
  }

  function Abstract<T>(s: State<T>): Multicast<T> {
    Multicast(Capacity(s), s.log, s.alive, Seen(s.received))
  }

  /** Every concrete step is an abstract step or invisible. */
  lemma StepRefines<T>(s: State<T>, a: Action<T>)
    requires Inv(s) && Enabled(s, a)
    ensures MulticastOk(Abstract(s))
    ensures Abstract(Next(s, a)) == Abstract(s) || MulticastStep(Abstract(s), Abstract(Next(s, a)))
  {
    var s' := Next(s, a);
    var m, m' := Abstract(s), Abstract(s');
    forall i | 0 <= i < |s.cursors|
      ensures s.cursors[i] <= m.seen[i] <= |m.log|
    {
      assert ReadOk(s, i);
    }
    match a
    case TryPublish(p, spurious) =>
      if s.publishable == Phase(s, p).claim && !spurious {
        assert HoldsClaim(s.producers[p]);
        assert m'.log[..|m.log|] == m.log;
      }
    case Borrow(i) =>
      assert ReadOk(s, i);
      assert m'.seen == m.seen[i := m.seen[i] + 1];
    case DropSubscriber(i) =>
      assert m' == m.(alive := m.alive[i := false]);
    case _ =>
  }

  ghost predicate MulticastRun<T>(m: Multicast<T>, m': Multicast<T>, trace: seq<Multicast<T>>) {
    && |trace| > 0 && trace[0] == m && trace[|trace| - 1] == m'
    && forall k :: 0 <= k < |trace| - 1 ==> trace[k] == trace[k + 1] || MulticastStep(trace[k], trace[k + 1])
  }

  /** Every run of the machine is a run of the abstract log. */
  lemma {:induction false} RunRefines<T>(s: State<T>, acts: seq<Action<T>>) returns (trace: seq<Multicast<T>>)
    requires Inv(s) && CanRun(s, acts)
    ensures MulticastRun(Abstract(s), Abstract(Run(s, acts)), trace)
    decreases |acts|
  {
    if acts == [] {
      trace := [Abstract(s)];
    } else {
      StepInv(s, acts[0]);
      StepRefines(s, acts[0]);
      var rest := RunRefines(Next(s, acts[0]), acts[1..]);
      trace := [Abstract(s)] + rest;
      forall k | 0 <= k < |trace| - 1
        ensures trace[k] == trace[k + 1] || MulticastStep(trace[k], trace[k + 1])
      {
        if k > 0 {
          assert trace[k] == rest[k - 1] && trace[k + 1] == rest[k];
        }
      }
    }
  }

  /** No gap, duplicate or overwritten value: every subscriber has been shown a prefix of
      the one log, so any two of them agree wherever both have read. */
  lemma SubscribersSeePrefixes<T(!new)>(s: State<T>, i: nat, j: nat)
    requires Reachable(s) && i < |s.received| && j < |s.received|
    ensures s.received[i] <= s.log
    ensures s.received[i] <= s.received[j] || s.received[j] <= s.received[i]
  {
    ReachableInv(s);
    assert ReadOk(s, i) && ReadOk(s, j);
  }

  /** The log never changes what it has published. */
  lemma {:induction false} LogOnlyGrows<T>(s: State<T>, acts: seq<Action<T>>)
    requires CanRun(s, acts)
    ensures s.log <= Run(s, acts).log
    ensures s.publishable <= Run(s, acts).publishable
    decreases |acts|
  {
    if acts != [] {
      LogOnlyGrows(Next(s, acts[0]), acts[1..]);
    }
  }

  /** A slot cannot be claimed before every live cursor has been released past it: the
      claim of sequence `q` leaves no live cursor at or below `q - capacity`. */
  lemma ClaimWaitsForRelease<T>(s: State<T>, a: Action<T>, i: nat)
    requires Inv(s) && Enabled(s, a) && a.Claim?
    requires Phase(Next(s, a), a.p).Claimed?
    requires i < |s.cursors| && s.alive[i]
    ensures Phase(Next(s, a), a.p).claim < s.cursors[i] + Capacity(s)
    ensures Phase(Next(s, a), a.p).claim == s.writable
  {
    assert ScanOk(s, s.producers[a.p]);
  }

  // Publication.

  /** Only the holder of the least outstanding claim can advance `publishable`, and it
      advances it past exactly that claim. */
  lemma OnlyLeastClaimPublishes<T>(s: State<T>, a: Action<T>)
    requires Inv(s) && Enabled(s, a)
    ensures Next(s, a).publishable != s.publishable ==>
              && a.TryPublish? && Phase(s, a.p) == Publishing(s.publishable)
              && Next(s, a).publishable == s.publishable + 1
              && Next(s, a).log == s.log + [s.buffer[Slot(Capacity(s), s.publishable)]]
  {}

  /** Outstanding claims and sequences of the window correspond one to one. */
  lemma OneHolderEach<T>(s: State<T>, q: nat) returns (p: nat)
    requires Inv(s) && s.publishable <= q < s.writable
    ensures HoldsClaim(Phase(s, p)) && Phase(s, p).claim == q
    ensures forall p': nat :: HoldsClaim(Phase(s, p')) && Phase(s, p').claim == q ==> p' == p
  {
    assert Held(s, q);
    p :| p in s.producers && HoldsClaim(s.producers[p]) && s.producers[p].claim == q;
    forall p': nat | HoldsClaim(Phase(s, p')) && Phase(s, p').claim == q
      ensures p' == p
    {
      assert p' in s.producers;
    }
  }

  /** How many lower claims a producer that holds `q` still waits for. */
  function Waiting<T>(s: State<T>, q: nat): int {
    q - s.publishable
  }

  /** While a claim is held the number of claims below it never grows, and it shrinks by
      one exactly when the least of them is published. */
  lemma WaitingShrinks<T>(s: State<T>, a: Action<T>, p: nat)
    requires Inv(s) && Enabled(s, a)
    requires HoldsClaim(Phase(s, p)) && HoldsClaim(Phase(Next(s, a), p))
    ensures Phase(Next(s, a), p).claim == Phase(s, p).claim
    ensures 0 <= Waiting(Next(s, a), Phase(s, p).claim) <= Waiting(s, Phase(s, p).claim)
    ensures Waiting(Next(s, a), Phase(s, p).claim) < Waiting(s, Phase(s, p).claim) <==>
              a.TryPublish? && Phase(s, a.p) == Publishing(s.publishable) && !a.spurious && a.p != p
  {
    StepInv(s, a);
    var s' := Next(s, a);
    assert p in s.producers && p in s'.producers;
    if a.TryPublish? && a.p != p {
      assert a.p in s.producers;
    }
  }

  /** Producer `p` holds a claim all through the run. */
  predicate Keeps<T>(s: State<T>, acts: seq<Action<T>>, p: nat)
    requires CanRun(s, acts)
    decreases |acts|
  {
    HoldsClaim(Phase(s, p)) && (acts == [] || Keeps(Next(s, acts[0]), acts[1..], p))
  }

  /** How many sequences are published during the run by others than `p`. */
  function OthersPublish<T>(s: State<T>, acts: seq<Action<T>>, p: nat): nat
    requires CanRun(s, acts)
    decreases |acts|
  {
    if acts == [] then 0
    else
      (if Actor(acts[0]) != Producer(p) && Next(s, acts[0]).publishable > s.publishable then 1 else 0)
      + OthersPublish(Next(s, acts[0]), acts[1..], p)
  }

  /** Over any run in which `p` keeps its claim, its waiting shrinks by exactly what others
      publish. Its next `try_publish` succeeds, unless it fails spuriously, exactly when as
      many publications have gone by as there were lower claims. */
  lemma {:induction false} WaitsForExactly<T>(s: State<T>, acts: seq<Action<T>>, p: nat)
    requires Inv(s) && CanRun(s, acts) && Keeps(s, acts, p)
    ensures Inv(Run(s, acts)) && HoldsClaim(Phase(Run(s, acts), p)) && Phase(Run(s, acts), p).claim == Phase(s, p).claim
    ensures Waiting(Run(s, acts), Phase(s, p).claim) == Waiting(s, Phase(s, p).claim) - OthersPublish(s, acts, p) >= 0
    ensures Enabled(Run(s, acts), TryPublish(p, false)) ==>
              (Phase(Next(Run(s, acts), TryPublish(p, false)), p).Idle? <==>
               OthersPublish(s, acts, p) == Waiting(s, Phase(s, p).claim))
    decreases |acts|
  {
    if acts != [] {
      StepInv(s, acts[0]);
      WaitingShrinks(s, acts[0], p);
      WaitsForExactly(Next(s, acts[0]), acts[1..], p);
    }
  }

  /** Up to three steps by its holder publish the least claim. */
  lemma PublishLeast<T>(s: State<T>) returns (acts: seq<Action<T>>)
    requires Inv(s) && s.publishable < s.writable
    ensures CanRun(s, acts) && 1 <= |acts| <= 3
    ensures Run(s, acts).publishable == s.publishable + 1
    ensures Run(s, acts).writable == s.writable
    ensures forall k :: 0 <= k < |acts| ==> acts[k].BorrowMut? || acts[k].BeginPublish? || acts[k].TryPublish?
  {
    var p := OneHolderEach(s, s.publishable);
    SlotIsRemainder(Capacity(s), s.publishable);
    var publish := TryPublish(p, false);
    match Phase(s, p)
    case Publishing(_) =>
      Prepend(s, publish, []);
      acts := [publish];
    case Borrowed(_) =>
      var s1 := Next(s, BeginPublish(p));
      Prepend(s1, publish, []);
      Prepend(s, BeginPublish(p), [publish]);
      acts := [BeginPublish(p), publish];
    case Claimed(_) =>
      var s1 := Next(s, BorrowMut(p));
      var s2 := Next(s1, BeginPublish(p));
      Prepend(s2, publish, []);
      Prepend(s1, BeginPublish(p), [publish]);
      Prepend(s, BorrowMut(p), [BeginPublish(p), publish]);
      acts := [BorrowMut(p), BeginPublish(p), publish];
      assert acts == [BorrowMut(p)] + [BeginPublish(p), publish];
  }

  /** From every reachable state the holders alone, without any spurious failure, publish
      every outstanding claim: no interleaving so far can have wedged the flow. */
  lemma {:induction false} ClaimsDrain<T>(s: State<T>) returns (acts: seq<Action<T>>)
    requires Inv(s)
    ensures CanRun(s, acts) && |acts| <= 3 * (s.writable - s.publishable)
    ensures Run(s, acts).publishable == Run(s, acts).writable == s.writable
    decreases s.writable - s.publishable
  {
    if s.publishable == s.writable {
      acts := [];
    } else {
      var first := PublishLeast(s);
      RunInv(s, first);
      var rest := ClaimsDrain(Run(s, first));
      RunAppend(s, first, rest);
      acts := first + rest;
    }
  }
}
