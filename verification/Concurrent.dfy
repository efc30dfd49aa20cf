/**
 Whole calls interleaved: each reads the cache, looks at the clock, deletes what has expired, computes on
 a miss and stores, and any other call may take its steps in between.
 */
module Concurrent {
  import opened Seqs
  import opened Query
  import opened KeyTwins
  import opened Service
  import TtlMap

  /** How far a call has come; its place in the lookup is its reader in the cache state. */
  datatype Stage = Waiting | Looking | Missed | Computed(value: Output) | Answered(value: Output, hit: bool)

  datatype State = State(cache: TtlMap.State<Output>, stages: seq<Stage>)

  datatype Step =
    | Tick(span: nat)
    | Read(call: nat)
    | Check(call: nat, elapsed: int)
    | Delete(call: nat)
    | Run(call: nat, value: Output)
    | Store(call: nat)

  // ---- the steps, whatever is computed ----

  ghost predicate Init(keys: seq<string>, s: State) {
    && s.cache.entries == map[]
    && |s.stages| == |s.cache.readers| == |keys|
    && forall i :: 0 <= i < |keys| ==> s.stages[i] == Waiting && s.cache.readers[i] == TtlMap.Idle
  }

  predicate Enabled(keys: seq<string>, s: State, step: Step) {
    && (!step.Tick? ==> step.call < |s.stages| == |s.cache.readers| == |keys|)
    && match step
       case Tick(_) => true
       case Read(i) => s.stages[i].Waiting? && TtlMap.Enabled(s.cache, TtlMap.ReadSection(i, keys[i]))
       case Check(i, _) => s.stages[i].Looking? && TtlMap.Enabled(s.cache, TtlMap.ClockCheck(i))
       case Delete(i) => s.stages[i].Looking? && TtlMap.Enabled(s.cache, TtlMap.DeleteSection(i))
       case Run(i, _) => s.stages[i].Missed?
       case Store(i) => s.stages[i].Computed?
  }

  /** The cache after the critical section or clock check that the step consists of. */
  function NextCache(keys: seq<string>, ttl: int, s: State, step: Step): (c: TtlMap.State<Output>)
    requires Enabled(keys, s, step)
  {
    match step
    case Tick(d) => TtlMap.Apply(s.cache, TtlMap.Tick(d))
    case Read(i) => TtlMap.Apply(s.cache, TtlMap.ReadSection(i, keys[i]))
    case Check(i, _) => TtlMap.Apply(s.cache, TtlMap.ClockCheck(i))
    case Delete(i) => TtlMap.Apply(s.cache, TtlMap.DeleteSection(i))
    case Run(_, _) => s.cache
    case Store(i) => TtlMap.Apply(s.cache, TtlMap.SetSection(keys[i], s.stages[i].value, ttl))
  }

  /** Where a call stands once its own step has left the lookup at `reader`. */
  function NextStage(reader: TtlMap.Reader<Output>, stage: Stage, step: Step): (r: Stage) {
    match step
    case Tick(_) => stage
    case Read(_) => Looking
    case Check(_, elapsed) =>
      (match reader
       case Hit(_, _, v, _) => Answered(MarkHit(v, elapsed), true)
       case Miss(_) => Missed
       case _ => Looking)
    case Delete(_) => Missed
    case Run(_, v) => Computed(v)
    case Store(_) => if stage.Computed? then Answered(stage.value, false) else stage
  }

  function Apply(keys: seq<string>, ttl: int, s: State, step: Step): (t: State)
    requires Enabled(keys, s, step)
  {
    var c := NextCache(keys, ttl, s, step);
    CacheSizeStays(keys, ttl, s, step);
    if step.Tick? then State(c, s.stages)
    else State(c, s.stages[step.call := NextStage(c.readers[step.call], s.stages[step.call], step)])
  }

  lemma CacheSizeStays(keys: seq<string>, ttl: int, s: State, step: Step)
    requires Enabled(keys, s, step)
    ensures |NextCache(keys, ttl, s, step).readers| == |s.cache.readers|
  {
  }

  ghost predicate IsRun(keys: seq<string>, ttl: int, states: seq<State>, steps: seq<Step>) {
    && |states| == |steps| + 1
    && Init(keys, states[0])
    && forall k :: 0 <= k < |steps| ==>
         Enabled(keys, states[k], steps[k]) && states[k + 1] == Apply(keys, ttl, states[k], steps[k])
  }

  // ---- what holds of every computed value holds of everything stored and read ----

  type Test = (string, Output) -> bool

  ghost predicate ReaderInv(good: Test, key: string, r: TtlMap.Reader<Output>) {
    match r
    case HasRead(k, _, found) => k == key && (found.Some? ==> good(key, found.value.value))
    case Hit(k, _, v, _) => k == key && good(key, v)
    case _ => true
  }

  /** A good value, marked when it is a hit and only then. */
  ghost predicate IsReply(good: Test, key: string, v: Output, hit: bool) {
    if hit then exists w, elapsed :: good(key, w) && v == MarkHit(w, elapsed) else good(key, v)
  }

  ghost predicate StageInv(good: Test, key: string, stage: Stage) {
    match stage
    case Computed(v) => good(key, v)
    case Answered(v, hit) => IsReply(good, key, v, hit)
    case _ => true
  }

  ghost predicate Inv(good: Test, keys: seq<string>, s: State) {
    && |s.stages| == |s.cache.readers| == |keys|
    && TtlMap.AllValues(s.cache.entries, good)
    && (forall i :: 0 <= i < |keys| ==> ReaderInv(good, keys[i], s.cache.readers[i]))
    && (forall i :: 0 <= i < |keys| ==> StageInv(good, keys[i], s.stages[i]))
  }

  lemma EntriesStayGood(good: Test, keys: seq<string>, ttl: int, s: State, step: Step)
    requires Inv(good, keys, s) && Enabled(keys, s, step)
    ensures TtlMap.AllValues(NextCache(keys, ttl, s, step).entries, good)
  {
    if step.Store? {
      assert StageInv(good, keys[step.call], s.stages[step.call]);
    }
  }

  lemma ReadersStayGood(good: Test, keys: seq<string>, ttl: int, s: State, step: Step, i: nat)
    requires Inv(good, keys, s) && Enabled(keys, s, step) && i < |keys|
    ensures i < |NextCache(keys, ttl, s, step).readers|
    ensures ReaderInv(good, keys[i], NextCache(keys, ttl, s, step).readers[i])
  {
    assert ReaderInv(good, keys[i], s.cache.readers[i]);
  }

  lemma StageStaysGood(good: Test, key: string, reader: TtlMap.Reader<Output>, stage: Stage, step: Step)
    requires ReaderInv(good, key, reader) && StageInv(good, key, stage)
    requires step.Run? ==> good(key, step.value)
    ensures StageInv(good, key, NextStage(reader, stage, step))
  {
  }

  lemma StepKeepsInv(good: Test, keys: seq<string>, ttl: int, s: State, step: Step)
    requires Inv(good, keys, s) && Enabled(keys, s, step)
    requires step.Run? ==> good(keys[step.call], step.value)
    ensures Inv(good, keys, Apply(keys, ttl, s, step))
  {
    var c := NextCache(keys, ttl, s, step);
    CacheSizeStays(keys, ttl, s, step);
    EntriesStayGood(good, keys, ttl, s, step);
    forall i: nat | i < |keys|
      ensures ReaderInv(good, keys[i], c.readers[i])
    {
      ReadersStayGood(good, keys, ttl, s, step, i);
    }
    if !step.Tick? {
      var i := step.call;
      StageStaysGood(good, keys[i], c.readers[i], s.stages[i], step);
    }
  }

  ghost predicate AllComputedGood(good: Test, keys: seq<string>, steps: seq<Step>) {
    forall k :: 0 <= k < |steps| && steps[k].Run? && steps[k].call < |keys| ==> good(keys[steps[k].call], steps[k].value)
  }

  lemma {:induction false} RunKeepsInv(
      good: Test, keys: seq<string>, ttl: int, states: seq<State>, steps: seq<Step>, k: nat)
    requires IsRun(keys, ttl, states, steps) && AllComputedGood(good, keys, steps) && k <= |steps|
    ensures Inv(good, keys, states[k])
  {
    if k == 0 {
    } else {
      RunKeepsInv(good, keys, ttl, states, steps, k - 1);
      StepKeepsInv(good, keys, ttl, states[k - 1], steps[k - 1]);
    }
  }

  // ---- every call is answered ----

  /** Where a call stands fits where its lookup stands. */
  predicate Fits(reader: TtlMap.Reader<Output>, stage: Stage) {
    match stage
    case Waiting => reader.Idle?
    case Looking => reader.HasRead? || reader.Expired?
    case _ => reader.Hit? || reader.Miss?
  }

  /** How many steps of its own a call has left, at most. */
  function StepsLeft(reader: TtlMap.Reader<Output>, stage: Stage): (n: nat) {
    match stage
    case Waiting => 5
    case Looking => if reader.HasRead? then 4 else 3
    case Missed => 2
    case Computed(_) => 1
    case Answered(_, _) => 0
  }

  ghost predicate AllFit(s: State) {
    |s.stages| == |s.cache.readers| && forall i :: 0 <= i < |s.stages| ==> Fits(s.cache.readers[i], s.stages[i])
  }

  lemma StepFits(keys: seq<string>, ttl: int, s: State, step: Step)
    requires AllFit(s) && Enabled(keys, s, step) && !step.Tick?
    ensures var t := Apply(keys, ttl, s, step);
      && AllFit(t)
      && StepsLeft(t.cache.readers[step.call], t.stages[step.call]) < StepsLeft(s.cache.readers[step.call], s.stages[step.call])
      && forall i :: 0 <= i < |s.stages| && i != step.call ==>
           t.cache.readers[i] == s.cache.readers[i] && t.stages[i] == s.stages[i]
  {
    assert Fits(s.cache.readers[step.call], s.stages[step.call]);
  }

  lemma {:induction false} RunFits(keys: seq<string>, ttl: int, states: seq<State>, steps: seq<Step>, k: nat)
    requires IsRun(keys, ttl, states, steps) && k <= |steps|
    ensures AllFit(states[k]) && |states[k].stages| == |keys|
  {
    if k == 0 {
    } else {
      RunFits(keys, ttl, states, steps, k - 1);
      if !steps[k - 1].Tick? {
        StepFits(keys, ttl, states[k - 1], steps[k - 1]);
      }
    }
  }

  /**
   In every reachable state a call that is not answered can take a step, and each step of its own brings it
   nearer to its answer and leaves the others where they stand: no call waits for another, and five steps are enough.
   */
  lemma NoCallIsStuck(keys: seq<string>, ttl: int, states: seq<State>, steps: seq<Step>, i: nat, v: Output)
    returns (step: Step)
    requires IsRun(keys, ttl, states, steps) && i < |keys|
    ensures var s := states[|steps|];
      && i < |s.stages| == |s.cache.readers| && StepsLeft(s.cache.readers[i], s.stages[i]) <= 5
      && (!s.stages[i].Answered? ==>
            && !step.Tick? && step.call == i && Enabled(keys, s, step)
            && var t := Apply(keys, ttl, s, step);
               && i < |t.stages| == |t.cache.readers|
               && StepsLeft(t.cache.readers[i], t.stages[i]) < StepsLeft(s.cache.readers[i], s.stages[i]))
  {
    var s := states[|steps|];
    RunFits(keys, ttl, states, steps, |steps|);
    assert Fits(s.cache.readers[i], s.stages[i]);
    match s.stages[i]
    case Waiting => step := Read(i);
    case Looking => step := if s.cache.readers[i].HasRead? then Check(i, 0) else Delete(i);
    case Missed => step := Run(i, v);
    case Computed(_) => step := Store(i);
    case Answered(_, _) => step := Tick(0);
    if !s.stages[i].Answered? {
      StepFits(keys, ttl, s, step);
    }
  }

  // ---- the calls compute what the search computes ----

  /** The calls' inputs, and what they run against. */
  datatype Setting = Setting(inputs: seq<FlightsInput>, names: seq<string>, world: World, ttl: int)

  function KeysOf(e: Setting): (keys: seq<string>)
    ensures |keys| == |e.inputs|
  {
    MapSeq(BuildCacheKey, e.inputs)
  }

  /** The value is what call `i` computes under some schedule. */
  ghost predicate Computes(e: Setting, i: nat, v: Output)
    requires i < |e.inputs|
  {
    exists schedule, elapsed ::
      Feasible(e.inputs[i], e.world, schedule) && v == Compute(e.inputs[i], e.names, e.world, schedule, elapsed)
  }

  /** A run of whole calls, each of which computes, when it misses, under a schedule of its own. */
  ghost predicate CallsRun(e: Setting, states: seq<State>, steps: seq<Step>) {
    && IsRun(KeysOf(e), e.ttl, states, steps)
    && forall k :: 0 <= k < |steps| && steps[k].Run? && steps[k].call < |e.inputs| ==>
         Computes(e, steps[k].call, steps[k].value)
  }

  ghost function AnswerTest(e: Setting): (good: Test)
    ensures forall key, v :: good(key, v) <==> IsAnswer(e.inputs, e.names, e.world, key, v)
  {
    (key, v) => IsAnswer(e.inputs, e.names, e.world, key, v)
  }

  lemma ComputesAnAnswer(e: Setting, i: nat, v: Output)
    requires i < |e.inputs| && Computes(e, i, v)
    ensures IsAnswer(e.inputs, e.names, e.world, BuildCacheKey(e.inputs[i]), v)
  {
    var schedule, elapsed :|
      Feasible(e.inputs[i], e.world, schedule) && v == Compute(e.inputs[i], e.names, e.world, schedule, elapsed);
    ComputedIsAnswer(e.inputs, e.names, e.world, e.inputs[i], schedule, elapsed);
  }

  /** A stored answer can be looked up until one lifetime after, and no longer. */
  lemma StoreLasts(keys: seq<string>, ttl: int, s: State, step: Step, now: int)
    requires Enabled(keys, s, step) && step.Store?
    ensures var m := Apply(keys, ttl, s, step).cache.entries; var v := s.stages[step.call].value;
      TtlMap.Probe(m, keys[step.call], now) == if now <= s.cache.clock + ttl then Some(v) else None
  {
  }

  /** Every answer given in a run is one that some call's computation could have given, marked exactly when it is a hit. */
  lemma AnswersAreReplies(e: Setting, states: seq<State>, steps: seq<Step>, i: nat)
    requires CallsRun(e, states, steps) && i < |e.inputs|
    ensures i < |states[|steps|].stages|
    ensures states[|steps|].stages[i].Answered? ==>
              IsReply(AnswerTest(e), BuildCacheKey(e.inputs[i]), states[|steps|].stages[i].value, states[|steps|].stages[i].hit)
  {
    var keys, good := KeysOf(e), AnswerTest(e);
    forall k | 0 <= k < |steps| && steps[k].Run? && steps[k].call < |keys|
      ensures good(keys[steps[k].call], steps[k].value)
    {
      ComputesAnAnswer(e, steps[k].call, steps[k].value);
    }
    RunKeepsInv(good, keys, e.ttl, states, steps, |steps|);
    assert StageInv(good, keys[i], states[|steps|].stages[i]);
  }

  lemma ReplyAgrees(e: Setting, x: FlightsInput, v: Output, hit: bool, t: Schedule, elapsed: int)
    requires IsReply(AnswerTest(e), BuildCacheKey(x), v, hit)
    requires OwnsKey(x, e.inputs) && CaseBlind(e.world) && Attributed(e.names, e.world) && Feasible(x, e.world, t)
    ensures Equivalent(x.sort, Compute(x, e.names, e.world, t, elapsed), v)
  {
    var key, good := BuildCacheKey(x), AnswerTest(e);
    if !hit {
      AnswerAgrees(e.inputs, e.names, e.world, x, v, t, 0, elapsed);
    } else {
      var w, ms :| good(key, w) && v == MarkHit(w, ms);
      AnswerAgrees(e.inputs, e.names, e.world, x, w, t, ms, elapsed);
    }
  }

  /**
   Under every interleaving of whole calls, the answer to an input with no `|` and at most one airline is
   equivalent to computing it again under any schedule, whatever the other callers send. An input with more
   airlines needs the other callers to be free of `|`.
   */
  lemma AnswersAreTransparent(e: Setting, states: seq<State>, steps: seq<Step>, i: nat, t: Schedule, elapsed: int)
    requires CallsRun(e, states, steps) && i < |e.inputs| && i < |states[|steps|].stages|
    requires states[|steps|].stages[i].Answered?
    requires Unambiguous(e.inputs[i]) || forall y :: y in e.inputs ==> SeparatorFree(y)
    requires CaseBlind(e.world) && Attributed(e.names, e.world) && Feasible(e.inputs[i], e.world, t)
    ensures Equivalent(e.inputs[i].sort,
                       Compute(e.inputs[i], e.names, e.world, t, elapsed), states[|steps|].stages[i].value)
  {
    AnswersAreReplies(e, states, steps, i);
    WhoOwnsItsKey(e.inputs[i], e.inputs);
    ReplyAgrees(e, e.inputs[i], states[|steps|].stages[i].value, states[|steps|].stages[i].hit, t, elapsed);
  }
}
