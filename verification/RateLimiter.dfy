/** The shared rate limiter: the critical section as a class, and many callers interleaving around it. */
module RateLimiter {
  /** The zero time that an unused limiter holds. */
  const ZERO_TIME := 0

  datatype Verdict = Grant | Sleep(wait: int)

  /** The decision taken under the lock for a clock reading `now`, which may be older than `last`. */
  function Decide(interval: int, last: int, now: int): (v: Verdict) {
    if last == ZERO_TIME || now - last >= interval then Grant else Sleep(interval - (now - last))
  }

  /** A refused caller is told to wait until exactly one interval after the last stamp, by its own reading. */
  lemma SleepEndsOnTime(interval: int, last: int, now: int)
    ensures Decide(interval, last, now).Grant? <==> last == ZERO_TIME || now >= last + interval
    ensures Decide(interval, last, now).Sleep? ==>
              Decide(interval, last, now).wait > 0 && now + Decide(interval, last, now).wait == last + interval
  {
  }

  datatype WaitResult = Passed | ContextDone

  class Limiter {
    const interval: int
    var last: int

    constructor (interval: int)
      ensures this.interval == interval && last == ZERO_TIME
    {
      this.interval := interval;
      last := ZERO_TIME;
    }

    /** One critical section. */
    method CheckUnderLock(now: int) returns (v: Verdict)
      modifies this
      ensures v == Decide(interval, old(last), now)
      ensures v.Sleep? ==> now + v.wait == old(last) + interval
      ensures last == if v.Grant? then now else old(last)
    {
      if last == ZERO_TIME || now - last >= interval {
        last := now;
        return Grant;
      }
      v := Sleep(interval - (now - last));
    }

    /**
     Wait for a caller that has the limiter to itself: `clock` is the time on entry, `lag(k)` what passes
     beyond the k-th requested sleep, `done(k)` whether the context ends during that sleep, and `now` the time on return.
     */
    method Wait(clock: int, lag: nat -> nat, done: nat -> bool) returns (result: WaitResult, ghost checks: nat, now: int)
      requires last <= clock
      modifies this
      ensures checks <= 2
      ensures interval <= 0 ==> result == Passed && checks == 0 && now == clock && last == old(last)
      ensures interval > 0 && result == Passed ==>
                last == now && now >= clock && (old(last) == ZERO_TIME || now - old(last) >= interval)
      ensures interval > 0 && result == Passed ==>
                now == if old(last) == ZERO_TIME || clock >= old(last) + interval then clock else old(last) + interval + lag(0)
      ensures result == ContextDone <==> interval > 0 && old(last) != ZERO_TIME && clock < old(last) + interval && done(0)
      ensures result == ContextDone ==> last == old(last)
    {
      checks, now := 0, clock;
      if interval <= 0 {
        return Passed, checks, now;
      }
      var reading := clock;
      var round: nat := 0;
      while true
        invariant last == old(last) && last <= reading && clock <= reading && now == reading
        invariant checks == round <= 1
        invariant round == 0 ==> reading == clock
        invariant round == 1 ==> last != ZERO_TIME && clock < last + interval && reading == last + interval + lag(0) && !done(0)
        decreases 1 - round
      {
        var v := CheckUnderLock(reading);
        checks := checks + 1;
        if v.Grant? {
          return Passed, checks, now;
        }
        if done(round) {
          return ContextDone, checks, now;
        }
        reading := reading + v.wait + lag(round);
        now, round := reading, round + 1;
      }
    }
  }

  datatype Gated<R> = Forwarded(reply: R) | Refused

  /** A provider behind a limiter; `inner(now)` is what the provider answers when asked at `now`. */
  class LimitedProvider<R> {
    const inner: int -> R
    const limiter: Limiter

    constructor (inner: int -> R, limiter: Limiter)
      ensures this.inner == inner && this.limiter == limiter
    {
      this.inner := inner;
      this.limiter := limiter;
    }

    /** The provider is asked only after the limiter has let the caller pass, and not at all when the context ends. */
    method Search(clock: int, lag: nat -> nat, done: nat -> bool) returns (r: Gated<R>, now: int)
      requires limiter.last <= clock
      modifies limiter
      ensures r.Refused? ==> limiter.interval > 0 && done(0) && limiter.last == old(limiter.last)
      ensures r.Forwarded? ==> r.reply == inner(now) && now >= clock
      ensures r.Forwarded? && limiter.interval > 0 ==>
                limiter.last == now && (old(limiter.last) == ZERO_TIME || now - old(limiter.last) >= limiter.interval)
    {
      var passed, checks, at := limiter.Wait(clock, lag, done);
      now := at;
      if passed.ContextDone? {
        return Refused, now;
      }
      return Forwarded(inner(at)), now;
    }
  }

  // ---- many callers ----

  /** Where one caller stands; `fails` counts its failed checks, `seen` the grants before the latest of them. */
  datatype Caller =
    | Start(fails: nat, seen: nat)
    | HaveNow(now: int, fails: nat, seen: nat)
    | Asleep(deadline: int, fails: nat, seen: nat)
    | Granted(stamp: int, fails: nat, seen: nat)
    | Gone(fails: nat, seen: nat)

  /** `grants` are the granted stamps, `times` the clock at the checks that granted them. */
  datatype State = State(clock: int, last: int, callers: seq<Caller>, grants: seq<int>, times: seq<int>)

  datatype Step =
    | Tick(span: nat)
    | Read(caller: nat)
    | Check(caller: nat, lag: nat)
    | Wake(caller: nat)
    | Cancel(caller: nat)

  ghost predicate Init(s: State) {
    && 0 < s.clock && ZERO_TIME <= s.last <= s.clock
    && s.grants == [] && s.times == []
    && forall i :: 0 <= i < |s.callers| ==> s.callers[i] == Start(0, 0)
  }

  predicate Enabled(s: State, step: Step) {
    match step
    case Tick(_) => true
    case Read(i) => i < |s.callers| && s.callers[i].Start?
    case Check(i, _) => i < |s.callers| && s.callers[i].HaveNow?
    case Wake(i) => i < |s.callers| && s.callers[i].Asleep? && s.callers[i].deadline <= s.clock
    case Cancel(i) => i < |s.callers| && s.callers[i].Asleep?
  }

  function Move(s: State, i: nat, c: Caller): (t: State)
    requires i < |s.callers|
  {
    s.(callers := s.callers[i := c])
  }

  /** The clock reading a caller checks with was taken before the lock; a sleep lasts at least as long as asked. */
  function Apply(interval: int, s: State, step: Step): (t: State)
    requires Enabled(s, step)
  {
    match step
    case Tick(d) => s.(clock := s.clock + d)
    case Read(i) => Move(s, i, HaveNow(s.clock, s.callers[i].fails, s.callers[i].seen))
    case Check(i, lag) =>
      var c := s.callers[i];
      (match Decide(interval, s.last, c.now)
       case Grant => Move(s, i, Granted(c.now, c.fails, c.seen)).(last := c.now, grants := s.grants + [c.now], times := s.times + [s.clock])
       case Sleep(wait) => Move(s, i, Asleep(s.clock + wait + lag, c.fails + 1, |s.grants|)))
    case Wake(i) => Move(s, i, Start(s.callers[i].fails, s.callers[i].seen))
    case Cancel(i) => Move(s, i, Gone(s.callers[i].fails, s.callers[i].seen))
  }

  ghost predicate Run(interval: int, states: seq<State>, steps: seq<Step>) {
    && |states| == |steps| + 1
    && Init(states[0])
    && forall k :: 0 <= k < |steps| ==>
         Enabled(states[k], steps[k]) && states[k + 1] == Apply(interval, states[k], steps[k])
  }

  // ---- spacing ----

  ghost predicate Spaced(interval: int, grants: seq<int>) {
    forall k :: 0 <= k < |grants| - 1 ==> grants[k + 1] - grants[k] >= interval
  }

  /** A caller that failed and has seen every grant since will pass its next check. */
  ghost predicate Ready(interval: int, s: State, c: Caller) {
    match c
    case Start(fails, seen) => fails > 0 && seen == |s.grants| ==> s.clock - s.last >= interval
    case HaveNow(now, fails, seen) => now <= s.clock && now > 0 && (fails > 0 && seen == |s.grants| ==> now - s.last >= interval)
    case Asleep(deadline, fails, seen) => fails > 0 && (seen == |s.grants| ==> deadline - s.last >= interval)
    case Granted(_, _, _) => true
    case Gone(_, _) => true
  }

  ghost predicate Counted(s: State, c: Caller) {
    c.seen <= |s.grants| && c.fails <= c.seen + 1
  }

  function Ones(callers: seq<Caller>): (n: nat)
    ensures n <= |callers|
  {
    if callers == [] then 0
    else Ones(callers[..|callers| - 1]) + (if callers[|callers| - 1].Granted? then 1 else 0)
  }

  /** A stamp was read before the check that granted it. */
  ghost predicate StampsArePast(s: State) {
    |s.times| == |s.grants| && forall k :: 0 <= k < |s.grants| ==> s.grants[k] <= s.times[k]
  }

  ghost predicate GrantsInv(interval: int, s: State) {
    && 0 < s.clock && s.last <= s.clock
    && Spaced(interval, s.grants)
    && (s.grants != [] ==> s.last == s.grants[|s.grants| - 1] && s.last != ZERO_TIME)
    && |s.grants| == Ones(s.callers) && StampsArePast(s)
  }

  ghost predicate CallerInv(interval: int, s: State, c: Caller) {
    Ready(interval, s, c) && Counted(s, c)
  }

  ghost predicate Inv(interval: int, s: State) {
    && GrantsInv(interval, s)
    && forall i :: 0 <= i < |s.callers| ==> CallerInv(interval, s, s.callers[i])
  }

  lemma {:induction false} OnesUpdated(callers: seq<Caller>, i: nat, c: Caller)
    requires i < |callers|
    ensures Ones(callers[i := c]) ==
            Ones(callers) - (if callers[i].Granted? then 1 else 0) + (if c.Granted? then 1 else 0)
  {
    var n := |callers| - 1;
    if i == n {
      assert callers[i := c][..n] == callers[..n];
    } else {
      assert callers[i := c][..n] == callers[..n][i := c];
      OnesUpdated(callers[..n], i, c);
    }
  }

  lemma {:induction false} SomeoneWaits(callers: seq<Caller>, i: nat)
    requires i < |callers| && !callers[i].Granted?
    ensures Ones(callers) < |callers|
  {
    if i < |callers| - 1 {
      SomeoneWaits(callers[..|callers| - 1], i);
    }
  }

  lemma {:induction false} NobodyStarted(callers: seq<Caller>)
    requires forall i :: 0 <= i < |callers| ==> !callers[i].Granted?
    ensures Ones(callers) == 0
  {
    if callers == [] {
    } else {
      NobodyStarted(callers[..|callers| - 1]);
    }
  }

  lemma StepKeepsGrants(interval: int, s: State, step: Step)
    requires interval > 0 && Inv(interval, s) && Enabled(s, step)
    ensures GrantsInv(interval, Apply(interval, s, step))
  {
    if !step.Tick? {
      assert CallerInv(interval, s, s.callers[step.caller]);
      OnesUpdated(s.callers, step.caller, Apply(interval, s, step).callers[step.caller]);
    }
  }

  /** The caller that takes the step. */
  lemma StepKeepsMover(interval: int, s: State, step: Step)
    requires interval > 0 && GrantsInv(interval, s) && Enabled(s, step) && !step.Tick?
    requires CallerInv(interval, s, s.callers[step.caller])
    ensures CallerInv(interval, Apply(interval, s, step), Apply(interval, s, step).callers[step.caller])
  {
  }

  /** A caller that stands by: the clock only moves on, and a grant makes what it has seen out of date. */
  lemma StepKeepsBystander(interval: int, s: State, step: Step, c: Caller)
    requires interval > 0 && Enabled(s, step) && CallerInv(interval, s, c)
    ensures CallerInv(interval, Apply(interval, s, step), c)
  {
  }

  lemma StepKeepsInv(interval: int, s: State, step: Step)
    requires interval > 0 && Inv(interval, s) && Enabled(s, step)
    ensures Inv(interval, Apply(interval, s, step))
  {
    var t := Apply(interval, s, step);
    StepKeepsGrants(interval, s, step);
    forall i | 0 <= i < |t.callers|
      ensures CallerInv(interval, t, t.callers[i])
    {
      assert CallerInv(interval, s, s.callers[i]);
      if !step.Tick? && step.caller == i {
        StepKeepsMover(interval, s, step);
      } else {
        StepKeepsBystander(interval, s, step, s.callers[i]);
      }
    }
  }

  lemma {:induction false} RunKeepsInv(interval: int, states: seq<State>, steps: seq<Step>, k: nat)
    requires interval > 0 && Run(interval, states, steps) && k <= |steps|
    ensures Inv(interval, states[k]) && |states[k].callers| == |states[0].callers|
  {
    if k == 0 {
      NobodyStarted(states[0].callers);
    } else {
      RunKeepsInv(interval, states, steps, k - 1);
      StepKeepsInv(interval, states[k - 1], steps[k - 1]);
    }
  }

  lemma {:induction false} SpacedSpan(interval: int, grants: seq<int>, i: nat, j: nat)
    requires interval > 0 && Spaced(interval, grants) && i <= j < |grants|
    ensures grants[j] - grants[i] >= (j - i) * interval
  {
    if i == j {
    } else {
      SpacedSpan(interval, grants, i, j - 1);
      assert grants[(j - 1) + 1] - grants[j - 1] >= interval;
    }
  }

  /** In every run, whatever the interleaving and however old the readings, the i-th and j-th grants are at least (j - i) intervals apart. */
  lemma GrantsAreSpaced(interval: int, states: seq<State>, steps: seq<Step>, i: nat, j: nat)
    requires interval > 0 && Run(interval, states, steps)
    requires i <= j < |states[|steps|].grants|
    ensures states[|steps|].grants[j] - states[|steps|].grants[i] >= (j - i) * interval
  {
    RunKeepsInv(interval, states, steps, |steps|);
    SpacedSpan(interval, states[|steps|].grants, i, j);
  }

  /** The callers themselves are let through at most as much closer together as the earlier one's reading was old. */
  lemma ReleasesAreSpaced(interval: int, states: seq<State>, steps: seq<Step>, i: nat, j: nat)
    requires interval > 0 && Run(interval, states, steps)
    requires i <= j < |states[|steps|].grants|
    ensures var s := states[|steps|];
      |s.times| == |s.grants| && s.times[j] - s.times[i] >= (j - i) * interval - (s.times[i] - s.grants[i])
  {
    GrantsAreSpaced(interval, states, steps, i, j);
    RunKeepsInv(interval, states, steps, |steps|);
  }

  /** A stale reading can use the whole of that allowance: with an interval of 100, two callers pass one tick apart. */
  lemma StaleReadingBunches() returns (states: seq<State>, steps: seq<Step>)
    ensures Run(100, states, steps)
    ensures var s := states[|steps|]; s.grants == [100, 200] && s.times == [199, 200]
  {
    steps := [Tick(99), Read(0), Tick(99), Check(0, 0), Tick(1), Read(1), Check(1, 0)];
    var s0 := State(1, ZERO_TIME, [Start(0, 0), Start(0, 0)], [], []);
    var s1 := Apply(100, s0, steps[0]);
    var s2 := Apply(100, s1, steps[1]);
    var s3 := Apply(100, s2, steps[2]);
    var s4 := Apply(100, s3, steps[3]);
    var s5 := Apply(100, s4, steps[4]);
    var s6 := Apply(100, s5, steps[5]);
    var s7 := Apply(100, s6, steps[6]);
    states := [s0, s1, s2, s3, s4, s5, s6, s7];
  }

  /** A failed check sends its caller to sleep until one interval after the last stamp, later only by the age of its reading and the timer's lag. */
  lemma SleepersWakeOnTime(interval: int, states: seq<State>, steps: seq<Step>, k: nat)
    requires interval > 0 && Run(interval, states, steps) && k < |steps| && steps[k].Check?
    ensures var s, i := states[k], steps[k].caller; var c := states[k + 1].callers[i];
      && (c.Asleep? <==> s.last != ZERO_TIME && s.callers[i].now < s.last + interval)
      && (c.Asleep? ==> c.deadline == s.last + interval + (s.clock - s.callers[i].now) + steps[k].lag)
      && (!c.Asleep? ==> c.Granted? && c.stamp == s.callers[i].now == states[k + 1].last)
  {
  }

  // ---- liveness ----

  /** After its first failure a caller fails only if another grant came in between. */
  lemma FailureNeedsGrant(interval: int, states: seq<State>, steps: seq<Step>, k: nat)
    requires interval > 0 && Run(interval, states, steps) && k < |steps| && steps[k].Check?
    requires states[k].callers[steps[k].caller].fails > 0
    requires !states[k + 1].callers[steps[k].caller].Granted?
    ensures |states[k].grants| > states[k].callers[steps[k].caller].seen
  {
    RunKeepsInv(interval, states, steps, k);
  }

  /** With n callers, nobody fails more than n times, so nobody checks more than n + 1 times. */
  lemma ChecksBounded(interval: int, states: seq<State>, steps: seq<Step>, i: nat)
    requires interval > 0 && Run(interval, states, steps) && i < |states[|steps|].callers|
    ensures var s := states[|steps|]; var c := s.callers[i];
      c.fails <= |s.callers| && (c.Granted? ==> c.fails + 1 <= |s.callers| + 1)
  {
    FailsBounded(interval, states, steps, |steps|, i);
  }

  lemma {:induction false} FailsBounded(interval: int, states: seq<State>, steps: seq<Step>, k: nat, i: nat)
    requires interval > 0 && Run(interval, states, steps) && k <= |steps| && i < |states[k].callers|
    ensures |states[k].callers| == |states[0].callers|
    ensures states[k].callers[i].fails <= |states[k].callers|
  {
    RunKeepsInv(interval, states, steps, k);
    if k > 0 {
      RunKeepsInv(interval, states, steps, k - 1);
      if states[k].callers[i].Granted? {
        FailsBounded(interval, states, steps, k - 1, i);
      } else {
        SomeoneWaits(states[k].callers, i);
      }
    }
  }

  /** How many steps of its own a caller still has, when nobody fails more than n times. */
  function Rank(n: nat, c: Caller): (r: int) {
    match c
    case Start(fails, _) => 3 * (n - fails) + 2
    case HaveNow(_, fails, _) => 3 * (n - fails) + 1
    case Asleep(_, fails, _) => 3 * (n - fails) + 3
    case Granted(_, _, _) => 0
    case Gone(_, _) => 0
  }

  function Remaining(n: nat, callers: seq<Caller>): (r: int) {
    if callers == [] then 0 else Remaining(n, callers[..|callers| - 1]) + Rank(n, callers[|callers| - 1])
  }

  lemma {:induction false} RemainingUpdated(n: nat, callers: seq<Caller>, i: nat, c: Caller)
    requires i < |callers|
    ensures Remaining(n, callers[i := c]) == Remaining(n, callers) - Rank(n, callers[i]) + Rank(n, c)
  {
    var m := |callers| - 1;
    if i == m {
      assert callers[i := c][..m] == callers[..m];
    } else {
      assert callers[i := c][..m] == callers[..m][i := c];
      RemainingUpdated(n, callers[..m], i, c);
    }
  }

  lemma {:induction false} RemainingBounds(n: nat, callers: seq<Caller>)
    requires forall i :: 0 <= i < |callers| ==> callers[i].fails <= n
    ensures 0 <= Remaining(n, callers)
    ensures (forall i :: 0 <= i < |callers| ==> callers[i] == Start(0, 0)) ==> Remaining(n, callers) == |callers| * (3 * n + 2)
  {
    if callers == [] {
    } else {
      RemainingBounds(n, callers[..|callers| - 1]);
    }
  }

  function OwnSteps(steps: seq<Step>): (n: nat) {
    if steps == [] then 0 else OwnSteps(steps[..|steps| - 1]) + (if steps[|steps| - 1].Tick? then 0 else 1)
  }

  lemma {:induction false} StepsUsed(interval: int, states: seq<State>, steps: seq<Step>, k: nat)
    requires interval > 0 && Run(interval, states, steps) && k <= |steps|
    ensures var n := |states[0].callers|;
      OwnSteps(steps[..k]) + Remaining(n, states[k].callers) <= n * (3 * n + 2)
  {
    var n := |states[0].callers|;
    if k == 0 {
      RemainingBounds(n, states[0].callers);
    } else {
      StepsUsed(interval, states, steps, k - 1);
      assert steps[..k][..k - 1] == steps[..k - 1];
      var s, step := states[k - 1], steps[k - 1];
      RunKeepsInv(interval, states, steps, k - 1);
      if !step.Tick? {
        FailsBounded(interval, states, steps, k - 1, step.caller);
        FailsBounded(interval, states, steps, k, step.caller);
        RemainingUpdated(n, s.callers, step.caller, states[k].callers[step.caller]);
      }
    }
  }

  /** A caller not yet granted can take a step of its own, now or once the clock has moved on. */
  lemma SomeoneCanMove(s: State, i: nat) returns (d: nat, step: Step)
    requires i < |s.callers| && !s.callers[i].Granted? && !s.callers[i].Gone?
    ensures !step.Tick? && !step.Cancel? && step.caller == i
    ensures Enabled(s.(clock := s.clock + d), step)
  {
    d := 0;
    match s.callers[i]
    case Start(_, _) => step := Read(i);
    case HaveNow(_, _, _) => step := Check(i, 0);
    case Asleep(deadline, _, _) =>
      step := Wake(i);
      if deadline > s.clock {
        d := deadline - s.clock;
      }
  }

  predicate MovesAfter(s: State, d: nat, step: Step) {
    !step.Tick? && !step.Cancel? && Enabled(s.(clock := s.clock + d), step)
  }

  /** However long one waits, no caller has a step left. */
  ghost predicate Finished(s: State) {
    forall d: nat, step :: !MovesAfter(s, d, step)
  }

  /** No run can go on for ever without granting: the callers' own steps are bounded, and uncancelled callers never get stuck, so all are granted. */
  lemma EveryoneIsGranted(interval: int, states: seq<State>, steps: seq<Step>)
    requires interval > 0 && Run(interval, states, steps)
    requires forall k :: 0 <= k < |steps| ==> !steps[k].Cancel?
    ensures var n := |states[0].callers|; var s := states[|steps|];
      && OwnSteps(steps) <= n * (3 * n + 2)
      && (Finished(s) ==> forall i :: 0 <= i < |s.callers| ==> s.callers[i].Granted?)
  {
    var n, s := |states[0].callers|, states[|steps|];
    StepsUsed(interval, states, steps, |steps|);
    assert steps[..|steps|] == steps;
    forall i | 0 <= i < |s.callers|
      ensures s.callers[i].fails <= n
    {
      FailsBounded(interval, states, steps, |steps|, i);
    }
    RunKeepsInv(interval, states, steps, |steps|);
    RemainingBounds(n, s.callers);
    if Finished(s) {
      forall i | 0 <= i < |s.callers|
        ensures s.callers[i].Granted?
      {
        NobodyLeaves(interval, states, steps, |steps|, i);
        if !s.callers[i].Granted? {
          var d, step := SomeoneCanMove(s, i);
          assert MovesAfter(s, d, step);
        }
      }
    }
  }

  lemma {:induction false} NobodyLeaves(interval: int, states: seq<State>, steps: seq<Step>, k: nat, i: nat)
    requires interval > 0 && Run(interval, states, steps) && k <= |steps| && i < |states[k].callers|
    requires forall j :: 0 <= j < |steps| ==> !steps[j].Cancel?
    ensures !states[k].callers[i].Gone?
  {
    if k == 0 {
    } else {
      RunKeepsInv(interval, states, steps, k);
      RunKeepsInv(interval, states, steps, k - 1);
      NobodyLeaves(interval, states, steps, k - 1, i);
    }
  }
}
