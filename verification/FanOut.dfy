/**
 The fan-out: one goroutine per provider sends its result into a buffered channel, and a
 collector receives as many results as there are providers. A message is named by its sender.
 */
module FanOut {
  import opened Seqs

  datatype State = State(pending: set<nat>, channel: seq<nat>, received: seq<nat>)

  datatype Step = Send(sender: nat) | Receive

  function Ids(n: nat): (r: set<nat>)
    ensures |r| == n
    ensures forall i: nat :: i in r <==> i < n
  {
    if n == 0 then {} else Ids(n - 1) + {n - 1}
  }

  ghost predicate Init(n: nat, s: State) {
    s.channel == [] && s.received == [] && s.pending == Ids(n)
  }

  /** A send waits for room in the channel, a receive for a message and a collector still counting. */
  predicate Enabled(n: nat, s: State, step: Step) {
    match step
    case Send(i) => i in s.pending && |s.channel| < n
    case Receive => |s.received| < n && s.channel != []
  }

  function Apply(n: nat, s: State, step: Step): (t: State)
    requires Enabled(n, s, step)
  {
    match step
    case Send(i) => s.(pending := s.pending - {i}, channel := s.channel + [i])
    case Receive => s.(channel := s.channel[1..], received := s.received + [s.channel[0]])
  }

  ghost predicate Run(n: nat, states: seq<State>, steps: seq<Step>) {
    && |states| == |steps| + 1
    && Init(n, states[0])
    && forall i :: 0 <= i < |steps| ==> Enabled(n, states[i], steps[i]) && states[i + 1] == Apply(n, states[i], steps[i])
  }

  function Taken(s: State): (r: seq<nat>) {
    s.received + s.channel
  }

  /** Every sender is waiting, in the channel or collected, and in one of these places once. */
  ghost predicate Inv(n: nat, s: State) {
    && NoDuplicates(Taken(s))
    && (forall i: nat :: i in s.pending <==> i < n && i !in Taken(s))
    && (forall i: nat :: i in Taken(s) ==> i < n)
    && |s.pending| + |s.channel| + |s.received| == n
  }

  function Work(s: State): (w: nat) {
    2 * |s.pending| + |s.channel|
  }

  lemma StepKeepsInv(n: nat, s: State, step: Step)
    requires Inv(n, s) && Enabled(n, s, step)
    ensures Inv(n, Apply(n, s, step))
    ensures Work(Apply(n, s, step)) == Work(s) - 1
  {
    var t := Apply(n, s, step);
    match step
    case Send(i) =>
      assert Taken(t) == Taken(s) + [i];
    case Receive =>
      assert Taken(t) == Taken(s);
  }

  lemma {:induction false} RunKeepsInv(n: nat, states: seq<State>, steps: seq<Step>, k: nat)
    requires Run(n, states, steps) && k <= |steps|
    ensures Inv(n, states[k]) && Work(states[k]) == 2 * n - k
  {
    if k == 0 {
    } else {
      RunKeepsInv(n, states, steps, k - 1);
      StepKeepsInv(n, states[k - 1], steps[k - 1]);
    }
  }

  /** A sender that is ready is never held up by a full channel. */
  lemma NoSendBlocks(n: nat, states: seq<State>, steps: seq<Step>, k: nat, i: nat)
    requires Run(n, states, steps) && k <= |steps| && i in states[k].pending
    ensures Enabled(n, states[k], Send(i))
  {
    RunKeepsInv(n, states, steps, k);
    assert |states[k].pending| > 0;
  }

  /** Until everything is collected some step can be taken, and every run ends within 2n steps. */
  lemma RunsFinish(n: nat, states: seq<State>, steps: seq<Step>) returns (step: Step)
    requires Run(n, states, steps)
    ensures |steps| <= 2 * n
    ensures |steps| < 2 * n <==> |states[|steps|].received| < n
    ensures |steps| < 2 * n ==> Enabled(n, states[|steps|], step)
  {
    var s := states[|steps|];
    RunKeepsInv(n, states, steps, |steps|);
    if s.pending != {} {
      var i :| i in s.pending;
      step := Send(i);
      assert |s.pending| > 0;
    } else {
      step := Receive;
    }
  }

  function Messages<R>(inputs: seq<R>, ids: seq<nat>): (r: seq<R>)
    requires forall k :: 0 <= k < |ids| ==> ids[k] < |inputs|
    ensures |r| == |ids|
    ensures forall i :: 0 <= i < |ids| ==> r[i] == inputs[ids[i]]
  {
    seq(|ids|, i requires 0 <= i < |ids| => inputs[ids[i]])
  }

  lemma AllMessages<R>(inputs: seq<R>, ids: seq<nat>)
    requires NoDuplicates(ids) && forall i: nat :: i in ids <==> i < |inputs|
    requires forall k :: 0 <= k < |ids| ==> ids[k] < |inputs|
    ensures multiset(Messages(inputs, ids)) == multiset(inputs)
  {
    if ids == [] {
      assert 0 !in ids;
      assert inputs == [];
    } else {
      var upTo: seq<nat> := seq(|inputs|, i => i);
      forall i: nat
        ensures i in upTo <==> i < |inputs|
      {
        if i < |inputs| {
          assert upTo[i] == i;
        }
      }
      ListingsPermuted(ids, upTo);
      var at := (i: nat) => if i < |inputs| then inputs[i] else inputs[0];
      MapPermuted(at, ids, upTo);
      assert MapSeq(at, ids) == Messages(inputs, ids);
      assert MapSeq(at, upTo) == inputs;
    }
  }

  /** A complete run has collected exactly the providers' results, each once. */
  lemma CompleteRunCollects<R>(inputs: seq<R>, states: seq<State>, steps: seq<Step>)
    requires Run(|inputs|, states, steps) && |states[|steps|].received| == |inputs|
    ensures forall k :: 0 <= k < |states[|steps|].received| ==> states[|steps|].received[k] < |inputs|
    ensures multiset(Messages(inputs, states[|steps|].received)) == multiset(inputs)
    ensures states[|steps|].pending == {} && states[|steps|].channel == []
  {
    var s := states[|steps|];
    RunKeepsInv(|inputs|, states, steps, |steps|);
    assert |s.pending| == 0 && |s.channel| == 0;
    assert Taken(s) == s.received;
    assert forall i: nat :: i in s.received <==> i < |inputs| && i !in s.pending;
    assert forall k :: 0 <= k < |s.received| ==> s.received[k] in s.received;
    AllMessages(inputs, s.received);
  }

  /** Every order of arrival is the order of some complete run. */
  lemma {:induction false} EveryOrderOccurs(n: nat, order: seq<nat>, k: nat) returns (states: seq<State>, steps: seq<Step>)
    requires NoDuplicates(order) && (forall i: nat :: i in order <==> i < n) && k <= |order|
    ensures Run(n, states, steps) && states[|steps|].received == order[..k] && states[|steps|].channel == []
  {
    if k == 0 {
      states, steps := [State(Ids(n), [], [])], [];
    } else {
      states, steps := EveryOrderOccurs(n, order, k - 1);
      var s := states[|steps|];
      RunKeepsInv(n, states, steps, |steps|);
      var i := order[k - 1];
      assert i in order && i !in order[..k - 1] && Taken(s) == order[..k - 1];
      assert |s.pending| > 0;
      var t := Apply(n, s, Send(i));
      var u := Apply(n, t, Receive);
      states, steps := states + [t, u], steps + [Send(i), Receive];
      assert order[..k] == order[..k - 1] + [i];
    }
  }

  /** Spawns the senders and collects their results under an arbitrary scheduler. */
  method SearchProviders<R>(outcomes: seq<R>) returns (results: seq<R>)
    ensures multiset(results) == multiset(outcomes)
  {
    var n := |outcomes|;
    results := [];
    var pending: set<nat> := Ids(n);
    var channel: seq<nat> := [];
    ghost var received: seq<nat> := [];
    while |results| < n
      invariant Inv(n, State(pending, channel, received))
      invariant |results| == |received| && forall i :: 0 <= i < |received| ==> received[i] < n && results[i] == outcomes[received[i]]
      decreases 2 * |pending| + |channel|
    {
      ghost var s := State(pending, channel, received);
      if
      case pending != {} =>
        var i :| i in pending;
        StepKeepsInv(n, s, Send(i));
        pending, channel := pending - {i}, channel + [i];
      case channel != [] =>
        StepKeepsInv(n, s, Receive);
        assert channel[0] in Taken(s);
        results, received, channel := results + [outcomes[channel[0]]], received + [channel[0]], channel[1..];
    }
    assert |pending| == 0 && |channel| == 0;
    assert Taken(State(pending, channel, received)) == received;
    AllMessages(outcomes, received);
    assert results == Messages(outcomes, received);
  }
}
