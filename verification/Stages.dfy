/** `Stage`: a batching consumer over one subscriber. Processors are added while the flow
    runs; `proc` reads a whole batch of slots before it releases the cursor once. */
module Stages {
  import opened FlowProtocol
  import opened FlowInvariant
  import opened FlowCode
  import FlowWitnesses

  /** One invocation of a processor closure: the sequence and data it was handed, how many
      sequences `context.remaining()` reported, and whether `end_of_procs` ran. */
  datatype Call<T> = Call(sequence: nat, data: T, remaining: nat, ended: bool)

  /** A processor: the cursor at its registration, and everything it was invoked on. */
  datatype Processor<T> = Processor(since: nat, calls: seq<Call<T>>)

  datatype ProcResult =
    // `Ok(n)` of the number of data processed.
    | Processed(n: nat)
    | Ahead
      // `assert_eq!` on the start of the receivable range failed.
    | Panicked

  /** Invoked on every sequence from registration up to `upTo`, once each, in order, with
      the value published there. */
  predicate Delivered<T(==)>(proc: Processor<T>, log: seq<T>, upTo: nat) {
    && proc.since <= upTo <= |log|
    && |proc.calls| == upTo - proc.since
    && forall k :: 0 <= k < |proc.calls| ==>
         proc.calls[k].sequence == proc.since + k && proc.calls[k].data == log[proc.since + k]
  }

  predicate AllDelivered<T(==)>(processors: seq<Processor<T>>, log: seq<T>, upTo: nat) {
    forall j :: 0 <= j < |processors| ==> Delivered(processors[j], log, upTo)
  }

  predicate Extends<T(==)>(before: Processor<T>, after: Processor<T>, from: nat, upTo: nat, end: nat)
  {
    && after.since == before.since
    && before.calls <= after.calls
    && from <= upTo
    && |after.calls| == |before.calls| + (upTo - from)
    && forall k :: |before.calls| <= k < |after.calls| ==>
         var q := from + (k - |before.calls|);
         && after.calls[k].sequence == q
         && after.calls[k].remaining == end - (q + 1)
         && after.calls[k].ended == (q + 1 == end)
  }

  predicate AllExtend<T(==)>(before: seq<Processor<T>>, after: seq<Processor<T>>, from: nat, upTo: nat, end: nat) {
    && |after| == |before|
    && forall j :: 0 <= j < |before| ==> Extends(before[j], after[j], from, upTo, end)
  }

  lemma AllDeliveredGrows<T>(processors: seq<Processor<T>>, log: seq<T>, log': seq<T>, upTo: nat)
    requires AllDelivered(processors, log, upTo) && log <= log'
    ensures AllDelivered(processors, log', upTo)
  {
    forall j | 0 <= j < |processors|
      ensures Delivered(processors[j], log', upTo)
    {
      assert Delivered(processors[j], log, upTo);
    }
  }

  /** One more call to every processor. */
  predicate AllCalled<T(==)>(before: seq<Processor<T>>, after: seq<Processor<T>>, call: Call<T>) {
    && |after| == |before|
    && forall j :: 0 <= j < |before| ==> after[j] == before[j].(calls := before[j].calls + [call])
  }

  lemma CallDelivers<T>(before: seq<Processor<T>>, after: seq<Processor<T>>, call: Call<T>, log: seq<T>)
    requires AllCalled(before, after, call) && AllDelivered(before, log, call.sequence)
    requires call.sequence < |log| && call.data == log[call.sequence]
    ensures AllDelivered(after, log, call.sequence + 1)
  {
    forall j | 0 <= j < |after|
      ensures Delivered(after[j], log, call.sequence + 1)
    {
      assert Delivered(before[j], log, call.sequence);
    }
  }

  lemma CallExtends<T>(first: seq<Processor<T>>, before: seq<Processor<T>>, after: seq<Processor<T>>, call: Call<T>, from: nat, end: nat)
    requires AllExtend(first, before, from, call.sequence, end) && AllCalled(before, after, call)
    requires call.sequence < end && call.remaining == end - (call.sequence + 1) && call.ended == (call.remaining == 0)
    ensures AllExtend(first, after, from, call.sequence + 1, end)
  {
    forall j | 0 <= j < |first|
      ensures Extends(first[j], after[j], from, call.sequence + 1, end)
    {
      assert Extends(first[j], before[j], from, call.sequence, end);
    }
  }

  /** Nothing other threads do between two calls of `proc` disturbs what was delivered. */
  lemma DeliverySurvivesOthers<T>(processors: seq<Processor<T>>, s: State<T>, s': State<T>, me: nat)
    requires me < |s.cursors| && Stable(s, s', Subscriber(me))
    requires AllDelivered(processors, s.log, s.cursors[me])
    ensures AllDelivered(processors, s'.log, s'.cursors[me])
  {
    AllDeliveredGrows(processors, s.log, s'.log, s.cursors[me]);
  }

  /** What the owner of a stage does next. */
  datatype Request = RunProc | RegisterProc

  function Registrations(script: seq<Request>): nat {
    if script == [] then 0
    else Registrations(script[..|script| - 1]) + (if script[|script| - 1].RegisterProc? then 1 else 0)
  }

  /** How many data the results account for. */
  function Total(results: seq<ProcResult>): nat {
    if results == [] then 0
    else
      var last := results[|results| - 1];
      Total(results[..|results| - 1]) + (if last.Processed? then last.n else 0)
  }

  /** Nothing is taken from a processor, and no processor is lost. */
  predicate AllKept<T(==)>(before: seq<Processor<T>>, after: seq<Processor<T>>) {
    && |before| <= |after|
    && forall j :: 0 <= j < |before| ==> after[j].since == before[j].since && before[j].calls <= after[j].calls
  }

  lemma KeptTransitive<T>(a: seq<Processor<T>>, b: seq<Processor<T>>, c: seq<Processor<T>>)
    requires AllKept(a, b) && AllKept(b, c)
    ensures AllKept(a, c)
  {}

  class Stage<T(!new, ==)> {
    const flow: SharedFlow<T>
    const me: nat
    // `context.receivable_seqs`
    var contextStart: nat
    var contextEnd: nat
    var processors: seq<Processor<T>>
    const maxProcsPerBatch: nat

    ghost predicate Valid()
      reads this, flow
    {
      && Inv(flow.state) && flow.IsResting(me)
      && AllDelivered(processors, flow.state.log, flow.state.cursors[me])
    }

    /** The context agrees with the subscriber's cursor about what comes next. */
    predicate Aligned()
      reads this, flow
    {
      me < |flow.state.cursors| && contextStart == flow.state.cursors[me]
    }

    /** `Stage::from`: the context starts at zero whatever the subscriber has received. */
    constructor (flow: SharedFlow<T>, me: nat)
      requires Inv(flow.state) && flow.IsResting(me)
      ensures Valid() && this.flow == flow && this.me == me && processors == []
      ensures maxProcsPerBatch == Capacity(flow.state) / 4
      ensures Aligned() <==> flow.state.cursors[me] == 0
    {
      this.flow := flow;
      this.me := me;
      contextStart, contextEnd := 0, 0;
      processors := [];
      maxProcsPerBatch := Capacity(flow.state) / 4;
    }

    /** `Stage::add_proc`: the new closure has missed everything already received. */
    method AddProc()
      requires Valid()
      modifies this`processors
      ensures Valid()
      ensures processors == old(processors) + [Processor(flow.state.cursors[me], [])]
    {
      assert ReadOk(flow.state, me);
      processors := processors + [Processor(flow.state.cursors[me], [])];
    }

    /** Run every closure on `data`, the value at `sequence`. */
    method Invoke(sequence: nat, data: T)
      requires contextStart <= contextEnd
      modifies this`processors
      ensures AllCalled(old(processors), processors,
                        Call(sequence, data, contextEnd - contextStart, contextEnd == contextStart))
    {
      ghost var call := Call(sequence, data, contextEnd - contextStart, contextEnd == contextStart);
      var j := 0;
      while j < |processors|
        invariant j <= |processors| == |old(processors)|
        invariant AllCalled(old(processors)[..j], processors[..j], call)
        invariant processors[j..] == old(processors)[j..]
      {
        var remaining := contextEnd - contextStart;
        var proc := processors[j];
        assert proc == old(processors)[j] by {
          assert processors[j..][0] == old(processors)[j..][0];
        }
        processors := processors[j := proc.(calls := proc.calls + [Call(sequence, data, remaining, remaining == 0)])];
        j := j + 1;
      }
      assert processors[..j] == processors && old(processors)[..j] == old(processors);
    }

    /** The state between two iterations of the loop in `Stage::proc`. */
    ghost predicate InBatch(begin: State<T>, first: nat, end: nat)
      reads this, flow
    {
      && Inv(flow.state) && Reaches(begin, flow.state)
      && me < |flow.state.cursors| && flow.state.alive[me] && flow.state.cursors[me] == first
      && contextEnd == end <= |flow.state.log|
      && flow.state.subscribers[me] == Receiving(first, contextStart, end)
      && first <= contextStart <= end
      && AllDelivered(processors, flow.state.log, contextStart)
    }

    /** One iteration: pop the next sequence, borrow its data, run every closure on it. */
    method ProcessNext(ghost begin: State<T>, ghost original: seq<Processor<T>>, ghost first: nat, ghost end: nat)
      returns (next: nat)
      requires InBatch(begin, first, end) && contextStart < contextEnd
      requires AllExtend(original, processors, first, contextStart, end)
      modifies this, flow
      ensures InBatch(begin, first, end)
      ensures next == old(contextStart) && contextStart == next + 1
      ensures AllExtend(original, processors, first, contextStart, end)
    {
      next := contextStart;
      contextStart := contextStart + 1;
      ghost var was, seen := processors, flow.state.log;
      var data := flow.Get(begin, me);
      AllDeliveredGrows(was, seen, flow.state.log, next);
      Invoke(next, data);
      ghost var call := Call(next, data, end - contextStart, end == contextStart);
      CallDelivers(was, processors, call, flow.state.log);
      CallExtends(original, was, processors, call, first, end);
    }

    /** Releases the cursor past everything the batch has read. */
    method EndBatch(ghost begin: State<T>, ghost first: nat, ghost end: nat)
      requires InBatch(begin, first, end)
      modifies flow
      ensures Valid() && Aligned() && Reaches(begin, flow.state)
      ensures end <= flow.state.publishable
    {
      ghost var seen := flow.state.log;
      flow.ReceiveUpTo(begin, me);
      AllDeliveredGrows(processors, seen, flow.state.log, contextStart);
    }

    /** Snapshots the receivable range, and checks its start against the context's. */
    method BeginBatch(ghost begin: State<T>) returns (ok: bool, first: nat, end: nat)
      requires Valid() && begin == flow.state
      modifies this`contextStart, this`contextEnd, flow
      ensures ok <==> old(Aligned())
      ensures first == old(flow.state.cursors[me])
      ensures ok ==> InBatch(begin, first, end) && contextStart == first
      ensures old(flow.state.publishable) <= end
      ensures !ok ==> Valid() && Reaches(begin, flow.state) && flow.state.cursors[me] == first
    {
      ReachesItself(begin);
      assert ReadOk(begin, me);
      first, end := flow.ReceivableSeqs(begin, me);
      ghost var log := flow.state.log;
      AllDeliveredGrows(processors, begin.log, log, first);
      ok := first == contextStart;
      if ok {
        contextStart, contextEnd := first, end;
      } else {
        flow.ReceiveUpTo(begin, me);
        AllDeliveredGrows(processors, log, flow.state.log, first);
      }
    }

    /** `Stage::proc`, amid publications, claims and other subscribers. */
    method Proc() returns (result: ProcResult)
      requires Valid()
      modifies this, flow
      ensures Valid() && Reaches(old(flow.state), flow.state)
      ensures result.Panicked? <==> !old(Aligned())
      ensures !result.Panicked? ==> Aligned()
      ensures result.Panicked? || result.Ahead? ==>
                processors == old(processors) && flow.state.cursors[me] == old(flow.state.cursors[me])
      ensures result.Ahead? ==> old(flow.state.publishable) == old(flow.state.cursors[me])
      // Each closure ran on the next `n` sequences: everything that was receivable, or a
      // full batch of `max_procs_per_batch + 1`.
      ensures result.Processed? ==>
                && 1 <= result.n <= maxProcsPerBatch + 1
                && (flow.state.cursors[me] == contextEnd || result.n == maxProcsPerBatch + 1)
                && flow.state.cursors[me] == old(flow.state.cursors[me]) + result.n
                && old(flow.state.publishable) <= contextEnd <= flow.state.publishable
                && AllExtend(old(processors), processors, old(flow.state.cursors[me]), flow.state.cursors[me], contextEnd)
    {
      ghost var begin := flow.state;
      assert ReadOk(begin, me);
      var ok, first, end := BeginBatch(begin);
      if !ok {
        return Panicked;
      }
      var lastReceivable := first + maxProcsPerBatch;
      var received, halted := false, false;
      while contextStart < contextEnd && !halted
        invariant InBatch(begin, first, end)
        invariant received <==> contextStart > first
        invariant contextStart <= lastReceivable + 1 && (halted <==> contextStart == lastReceivable + 1)
        invariant AllExtend(old(processors), processors, first, contextStart, end)
        invariant contextStart == first ==> processors == old(processors)
        decreases end - contextStart
      {
        var next := ProcessNext(begin, old(processors), first, end);
        received := true;
        if next >= lastReceivable {
          halted := true;
        }
      }
      EndBatch(begin, first, end);
      result := if received then Processed(contextStart - first) else Ahead;
    }

    /** Any number of calls of `proc` and `add_proc` in any order, with other threads running
        between and within them. The assertion never fails, and by `Valid` every processor
        has run on every sequence from its registration on, once each and in order. */
    method Drive(script: seq<Request>) returns (results: seq<ProcResult>)
      requires Valid() && Aligned()
      modifies this, flow
      ensures Valid() && Aligned() && Reaches(old(flow.state), flow.state)
      ensures |results| + Registrations(script) == |script|
      ensures forall k :: 0 <= k < |results| ==>
                results[k].Ahead? || (results[k].Processed? && 1 <= results[k].n <= maxProcsPerBatch + 1)
      ensures flow.state.cursors[me] == old(flow.state.cursors[me]) + Total(results)
      ensures AllKept(old(processors), processors)
      ensures |processors| == old(|processors|) + Registrations(script)
      ensures forall j :: old(|processors|) <= j < |processors| ==> old(flow.state.cursors[me]) <= processors[j].since
    {
      hide Reaches;
      hide Inv;
      hide AllDelivered;
      hide AllExtend;
      ghost var start := flow.state;
      ReachesItself(start);
      results := [];
      var k := 0;
      while k < |script|
        invariant Valid() && Aligned() && Reaches(start, flow.state)
        invariant k <= |script| && |results| + Registrations(script[..k]) == k
        invariant forall j :: 0 <= j < |results| ==>
                    results[j].Ahead? || (results[j].Processed? && 1 <= results[j].n <= maxProcsPerBatch + 1)
        invariant flow.state.cursors[me] == old(flow.state.cursors[me]) + Total(results)
        invariant AllKept(old(processors), processors)
        invariant |processors| == old(|processors|) + Registrations(script[..k])
        invariant forall j :: old(|processors|) <= j < |processors| ==> old(flow.state.cursors[me]) <= processors[j].since
      {
        LetOthersRun(start);
        assert script[..k + 1][..k] == script[..k];
        ghost var was := processors;
        if script[k].RegisterProc? {
          AddProc();
        } else {
          ghost var before := flow.state;
          var result := Proc();
          ReachesTransitive(start, before, flow.state);
          assert AllKept(was, processors) by {
            if result.Processed? {
              ExtendIsKept(was, processors, before.cursors[me], flow.state.cursors[me], contextEnd);
            }
          }
          assert (results + [result])[..|results|] == results;
          results := results + [result];
        }
        KeptTransitive(old(processors), was, processors);
        k := k + 1;
      }
      assert script[..k] == script;
    }

    /** The time between two calls. */
    method LetOthersRun(ghost start: State<T>)
      requires Valid() && Aligned() && Reaches(start, flow.state)
      modifies flow
      ensures Valid() && Aligned() && Reaches(start, flow.state)
      ensures flow.state.cursors[me] == old(flow.state.cursors[me])
    {
      flow.Interfere(Subscriber(me));
      ReachesTransitive(start, old(flow.state), flow.state);
      DeliverySurvivesOthers(processors, old(flow.state), flow.state, me);
    }
  }

  lemma ExtendIsKept<T>(before: seq<Processor<T>>, after: seq<Processor<T>>, from: nat, upTo: nat, end: nat)
    requires AllExtend(before, after, from, upTo, end)
    ensures AllKept(before, after)
  {
    forall j | 0 <= j < |before|
      ensures after[j].since == before[j].since && before[j].calls <= after[j].calls
    {
      assert Extends(before[j], after[j], from, upTo, end);
    }
  }

  /** A stage over a subscriber that has already received something fails its assertion at
      the first `proc`. */
  method ProcOverUsed<T(!new, ==)>(flow: SharedFlow<T>, me: nat) returns (result: ProcResult)
    requires Inv(flow.state) && flow.IsResting(me) && flow.state.cursors[me] > 0
    modifies flow
    ensures result == Panicked
  {
    var stage := new Stage(flow, me);
    result := stage.Proc();
  }

  /** There is such a subscriber: one value published, received and released is enough. */
  method UsedSubscriberPanics() returns (result: ProcResult)
    ensures result == Panicked
  {
    ghost var reached := FlowWitnesses.ReceivedOne();
    ReachableInv(reached);
    var flow := new SharedFlow(State([7], 1, 1, [1], [true], map[0 := Idle], [Resting], [7], [[7]]));
    assert flow.state == reached;
    result := ProcOverUsed(flow, 0);
  }
}
