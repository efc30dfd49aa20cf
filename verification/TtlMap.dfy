/** A map whose entries expire: its operations one at a time, and its critical sections interleaved. */
module TtlMap {
  import opened Seqs

  datatype Slot<V> = Slot(value: V, expiry: int)

  type Entries<V> = map<string, Slot<V>>

  function AfterSet<V>(m: Entries<V>, key: string, value: V, now: int, ttl: int): (r: Entries<V>) {
    m[key := Slot(value, now + ttl)]
  }

  /** The answer of a lookup at time `now`. */
  function Probe<V>(m: Entries<V>, key: string, now: int): (r: Option<V>) {
    if key in m && !(now > m[key].expiry) then Some(m[key].value) else None
  }

  /** An expired entry is deleted by the lookup that finds it. */
  function AfterGet<V>(m: Entries<V>, key: string, now: int): (r: Entries<V>) {
    if key in m && now > m[key].expiry then m - {key} else m
  }

  ghost predicate AllValues<V>(m: Entries<V>, good: (string, V) -> bool) {
    forall k :: k in m ==> good(k, m[k].value)
  }

  lemma OperationsKeepValues<V>(m: Entries<V>, good: (string, V) -> bool, key: string, now: int)
    requires AllValues(m, good)
    ensures AllValues(AfterGet(m, key, now), good)
    ensures forall v, t, ttl :: good(key, v) ==> AllValues(AfterSet(m, key, v, t, ttl), good)
    ensures Probe(m, key, now).Some? ==> good(key, Probe(m, key, now).value)
  {
  }

  lemma SetOnMiss<V>(m: Entries<V>, key: string, probed: int, v: V, stored: int, ttl: int)
    requires key !in m
    ensures Probe(m, key, probed) == None
    ensures AfterSet(AfterGet(m, key, probed), key, v, stored, ttl) == m[key := Slot(v, stored + ttl)]
  {
  }

  // ---- one operation at a time ----

  datatype Op<V> = Set(key: string, value: V, now: int, ttl: int) | Get(key: string, now: int)

  function EntriesAfter<V>(ops: seq<Op<V>>): (m: Entries<V>) {
    if ops == [] then map[]
    else
      var before := EntriesAfter(ops[..|ops| - 1]);
      match ops[|ops| - 1]
      case Set(k, v, now, ttl) => AfterSet(before, k, v, now, ttl)
      case Get(k, now) => AfterGet(before, k, now)
  }

  /** The ideal map remembers everything: the latest value set, while it lasts. */
  function LatestSet<V>(ops: seq<Op<V>>, key: string): (r: Option<Slot<V>>) {
    if ops == [] then None
    else
      var op := ops[|ops| - 1];
      if op.Set? && op.key == key then Some(Slot(op.value, op.now + op.ttl)) else LatestSet(ops[..|ops| - 1], key)
  }

  function IdealGet<V>(ops: seq<Op<V>>, key: string, now: int): (r: Option<V>) {
    match LatestSet(ops, key)
    case None => None
    case Some(slot) => if now <= slot.expiry then Some(slot.value) else None
  }

  ghost predicate ClockForward<V>(ops: seq<Op<V>>) {
    forall i, j :: 0 <= i < j < |ops| ==> ops[i].now <= ops[j].now
  }

  lemma {:induction false} EntriesAreLatest<V>(ops: seq<Op<V>>, key: string)
    requires ClockForward(ops)
    ensures var m := EntriesAfter(ops); var latest := LatestSet(ops, key);
      && (key in m ==> latest == Some(m[key]))
      && (key !in m && latest.Some? ==> ops != [] && latest.value.expiry < ops[|ops| - 1].now)
  {
    if ops == [] {
    } else {
      EntriesAreLatest(ops[..|ops| - 1], key);
    }
  }

  /** While the clock does not run backwards, deleting on lookup is invisible: every lookup answers as the ideal map does. */
  lemma RefinesIdealMap<V>(ops: seq<Op<V>>, key: string, now: int)
    requires ClockForward(ops + [Get(key, now)])
    ensures Probe(EntriesAfter(ops), key, now) == IdealGet(ops, key, now)
  {
    var all := ops + [Get(key, now)];
    assert forall i :: 0 <= i < |ops| ==> all[i] == ops[i];
    if ops != [] {
      assert all[|ops| - 1].now <= all[|ops|].now;
    }
    EntriesAreLatest(ops, key);
  }

  // ---- interleaved critical sections ----

  /** What has happened to the shared map, in lock order. */
  datatype Event<V> = Stored(key: string, slot: Slot<V>) | Dropped(key: string)

  /** A lookup between its sections; `at` is the length of the history when it read the map, `slot` what it found expired. */
  datatype Reader<V> =
    | Idle
    | HasRead(key: string, at: nat, found: Option<Slot<V>>)
    | Expired(key: string, at: nat, slot: Slot<V>)
    | Hit(key: string, at: nat, value: V, checked: int)
    | Miss(key: string)

  datatype State<V> = State(clock: int, entries: Entries<V>, history: seq<Event<V>>, readers: seq<Reader<V>>)

  datatype Step<V> =
    | Tick(span: nat)
    | SetSection(key: string, value: V, ttl: int)
    | ReadSection(reader: nat, key: string)
    | ClockCheck(reader: nat)
    | DeleteSection(reader: nat)

  predicate Enabled<V>(s: State<V>, step: Step<V>) {
    match step
    case Tick(_) => true
    case SetSection(_, _, _) => true
    case ReadSection(i, _) => i < |s.readers| && !s.readers[i].HasRead? && !s.readers[i].Expired?
    case ClockCheck(i) => i < |s.readers| && s.readers[i].HasRead?
    case DeleteSection(i) => i < |s.readers| && s.readers[i].Expired?
  }

  function Find<V>(m: Entries<V>, key: string): (r: Option<Slot<V>>) {
    if key in m then Some(m[key]) else None
  }

  function Apply<V>(s: State<V>, step: Step<V>): (t: State<V>)
    requires Enabled(s, step)
  {
    match step
    case Tick(d) => s.(clock := s.clock + d)
    case SetSection(k, v, ttl) =>
      s.(entries := AfterSet(s.entries, k, v, s.clock, ttl), history := s.history + [Stored(k, Slot(v, s.clock + ttl))])
    case ReadSection(i, k) => s.(readers := s.readers[i := HasRead(k, |s.history|, Find(s.entries, k))])
    case ClockCheck(i) =>
      var r := s.readers[i];
      (match r.found
       case None => s.(readers := s.readers[i := Miss(r.key)])
       case Some(slot) =>
         if s.clock > slot.expiry then s.(readers := s.readers[i := Expired(r.key, r.at, slot)])
         else s.(readers := s.readers[i := Hit(r.key, r.at, slot.value, s.clock)]))
    case DeleteSection(i) =>
      var k := s.readers[i].key;
      s.(entries := s.entries - {k}, history := s.history + [Dropped(k)], readers := s.readers[i := Miss(k)])
  }

  ghost predicate Init<V>(s: State<V>) {
    && s.entries == map[] && s.history == []
    && forall i :: 0 <= i < |s.readers| ==> s.readers[i] == Idle
  }

  ghost predicate Run<V>(states: seq<State<V>>, steps: seq<Step<V>>) {
    && |states| == |steps| + 1
    && Init(states[0])
    && forall k :: 0 <= k < |steps| ==> Enabled(states[k], steps[k]) && states[k + 1] == Apply(states[k], steps[k])
  }

  /** The last thing that happened to a key. */
  function LastEvent<V>(history: seq<Event<V>>, key: string): (r: Option<Event<V>>) {
    if history == [] then None
    else if history[|history| - 1].key == key then Some(history[|history| - 1])
    else LastEvent(history[..|history| - 1], key)
  }

  function LastStored<V>(history: seq<Event<V>>, key: string): (r: Option<Slot<V>>) {
    if history == [] then None
    else
      var e := history[|history| - 1];
      if e.Stored? && e.key == key then Some(e.slot) else LastStored(history[..|history| - 1], key)
  }

  function Present<V>(history: seq<Event<V>>, key: string): (r: Option<Slot<V>>) {
    match LastEvent(history, key)
    case Some(Stored(_, slot)) => Some(slot)
    case Some(Dropped(_)) => None
    case None => None
  }

  ghost predicate ReaderInv<V>(s: State<V>, r: Reader<V>) {
    match r
    case HasRead(k, at, found) => at <= |s.history| && found == Present(s.history[..at], k)
    case Hit(k, at, v, checked) =>
      && at <= |s.history| && checked <= s.clock
      && Present(s.history[..at], k).Some?
      && v == Present(s.history[..at], k).value.value && checked <= Present(s.history[..at], k).value.expiry
    case Expired(k, at, slot) =>
      at <= |s.history| && Present(s.history[..at], k) == Some(slot) && slot.expiry < s.clock
    case _ => true
  }

  ghost predicate Inv<V>(s: State<V>) {
    && (forall k :: Find(s.entries, k) == Present(s.history, k))
    && forall i :: 0 <= i < |s.readers| ==> ReaderInv(s, s.readers[i])
  }

  lemma EventAppended<V>(history: seq<Event<V>>, e: Event<V>, key: string)
    ensures Present(history + [e], key) ==
            if e.key == key then (if e.Stored? then Some(e.slot) else None) else Present(history, key)
  {
    assert (history + [e])[..|history|] == history;
  }

  lemma MapStepKeepsInv<V>(s: State<V>, step: Step<V>)
    requires Inv(s) && Enabled(s, step)
    ensures var t := Apply(s, step); forall k :: Find(t.entries, k) == Present(t.history, k)
  {
    var t := Apply(s, step);
    forall k
      ensures Find(t.entries, k) == Present(t.history, k)
    {
      assert Find(s.entries, k) == Present(s.history, k);
      if |t.history| > |s.history| {
        EventAppended(s.history, t.history[|s.history|], k);
      }
    }
  }

  lemma StepKeepsInv<V>(s: State<V>, step: Step<V>)
    requires Inv(s) && Enabled(s, step)
    ensures Inv(Apply(s, step))
  {
    var t := Apply(s, step);
    MapStepKeepsInv(s, step);
    forall i | 0 <= i < |t.readers|
      ensures ReaderInv(t, t.readers[i])
    {
      assert ReaderInv(s, s.readers[i]);
      assert forall n: nat :: n <= |s.history| ==> t.history[..n] == s.history[..n];
      assert s.history[..|s.history|] == s.history;
      if step.ReadSection? && step.reader == i {
        assert Find(s.entries, step.key) == Present(s.history, step.key);
      }
    }
  }

  lemma {:induction false} RunKeepsInv<V>(states: seq<State<V>>, steps: seq<Step<V>>, k: nat)
    requires Run(states, steps) && k <= |steps|
    ensures Inv(states[k])
  {
    if k == 0 {
    } else {
      RunKeepsInv(states, steps, k - 1);
      StepKeepsInv(states[k - 1], steps[k - 1]);
    }
  }

  lemma {:induction false} PresentIsLastStored<V>(history: seq<Event<V>>, key: string)
    ensures Present(history, key).Some? ==> LastStored(history, key) == Present(history, key)
    ensures Present(history, key).None? && LastStored(history, key).Some? ==> LastEvent(history, key) == Some(Dropped(key))
  {
    if history != [] && history[|history| - 1].key != key {
      PresentIsLastStored(history[..|history| - 1], key);
    }
  }

  /** In every interleaving a hit returns the value last stored under its key before it read, not yet expired when it looked at the clock. */
  lemma HitsAreFresh<V>(states: seq<State<V>>, steps: seq<Step<V>>, i: nat)
    requires Run(states, steps) && i < |states[|steps|].readers| && states[|steps|].readers[i].Hit?
    ensures var s := states[|steps|]; var r := s.readers[i];
      && r.at <= |s.history|
      && LastStored(s.history[..r.at], r.key).Some?
      && LastStored(s.history[..r.at], r.key).value.value == r.value
      && r.checked <= LastStored(s.history[..r.at], r.key).value.expiry
  {
    var s := states[|steps|];
    RunKeepsInv(states, steps, |steps|);
    assert ReaderInv(s, s.readers[i]);
    PresentIsLastStored(s.history[..s.readers[i].at], s.readers[i].key);
  }

  /** An entry is absent exactly when nothing was stored under its key, or a delete came after the last store. */
  lemma AbsentExactly<V>(states: seq<State<V>>, steps: seq<Step<V>>, key: string)
    requires Run(states, steps)
    ensures var s := states[|steps|];
      key !in s.entries <==> LastStored(s.history, key).None? || LastEvent(s.history, key) == Some(Dropped(key))
  {
    var s := states[|steps|];
    RunKeepsInv(states, steps, |steps|);
    assert Find(s.entries, key) == Present(s.history, key);
    PresentIsLastStored(s.history, key);
    NothingStored(s.history, key);
  }

  lemma {:induction false} NothingStored<V>(history: seq<Event<V>>, key: string)
    ensures LastStored(history, key).None? ==> Present(history, key).None?
  {
    if history != [] && history[|history| - 1].key != key {
      NothingStored(history[..|history| - 1], key);
    }
  }

  lemma {:induction false} LastEventSplit<V>(history: seq<Event<V>>, at: nat, key: string)
    requires at <= |history|
    ensures LastEvent(history, key) ==
            if LastEvent(history[at..], key).Some? then LastEvent(history[at..], key) else LastEvent(history[..at], key)
  {
    if at == |history| {
      assert history[..at] == history;
    } else {
      var init := history[..|history| - 1];
      LastEventSplit(init, at, key);
      assert init[at..] == history[at..][..|history[at..]| - 1] && init[..at] == history[..at];
    }
  }

  /**
   In every run, a delete that is about to happen removes an entry that a lookup would still return exactly
   when the last thing that happened to the key since the deleting lookup read it is a store that has not expired.
   */
  lemma DeleteDropsLiveIff<V>(states: seq<State<V>>, steps: seq<Step<V>>, i: nat)
    requires Run(states, steps) && i < |states[|steps|].readers| && states[|steps|].readers[i].Expired?
    ensures var s := states[|steps|]; var r := s.readers[i];
      && r.at <= |s.history|
      && (Probe(s.entries, r.key, s.clock).Some? <==>
            match LastEvent(s.history[r.at..], r.key)
            case Some(Stored(_, slot)) => s.clock <= slot.expiry
            case _ => false)
  {
    var s := states[|steps|];
    var r := s.readers[i];
    RunKeepsInv(states, steps, |steps|);
    assert ReaderInv(s, r);
    assert Find(s.entries, r.key) == Present(s.history, r.key);
    LastEventSplit(s.history, r.at, r.key);
  }

  lemma {:induction false} LastStoredOccurs<V>(history: seq<Event<V>>, key: string)
    requires LastStored(history, key).Some?
    ensures Stored(key, LastStored(history, key).value) in history
  {
    var n := |history| - 1;
    assert history[n] in history;
    if !(history[n].Stored? && history[n].key == key) {
      LastStoredOccurs(history[..n], key);
      assert forall e :: e in history[..n] ==> e in history;
    }
  }

  /** Whatever holds of every value stored under a key holds of every hit on it, in every interleaving. */
  lemma HitsInherit<V(!new)>(states: seq<State<V>>, steps: seq<Step<V>>, good: (string, V) -> bool, i: nat)
    requires Run(states, steps) && i < |states[|steps|].readers| && states[|steps|].readers[i].Hit?
    requires forall k, slot :: Stored(k, slot) in states[|steps|].history ==> good(k, slot.value)
    ensures good(states[|steps|].readers[i].key, states[|steps|].readers[i].value)
  {
    var s := states[|steps|];
    var r := s.readers[i];
    HitsAreFresh(states, steps, i);
    LastStoredOccurs(s.history[..r.at], r.key);
    assert forall e :: e in s.history[..r.at] ==> e in s.history;
  }

  /** The late delete: a reader that found an expired entry removes a newer one stored meanwhile. */
  lemma LateDeleteDropsNewer<V>(key: string, v: V, w: V) returns (states: seq<State<V>>, steps: seq<Step<V>>)
    ensures Run(states, steps)
    ensures var s := states[|steps|];
      key !in s.entries && LastStored(s.history, key) == Some(Slot(w, s.clock + 10))
  {
    steps := [SetSection(key, v, 0), Tick(1), ReadSection(0, key), ClockCheck(0), SetSection(key, w, 10), DeleteSection(0)];
    var s0: State<V> := State(0, map[], [], [Idle]);
    var s1 := Apply(s0, steps[0]);
    var s2 := Apply(s1, steps[1]);
    var s3 := Apply(s2, steps[2]);
    var s4 := Apply(s3, steps[3]);
    var s5 := Apply(s4, steps[4]);
    var s6 := Apply(s5, steps[5]);
    states := [s0, s1, s2, s3, s4, s5, s6];
    var h := s6.history;
    assert h == [Stored(key, Slot(v, 0)), Stored(key, Slot(w, 11)), Dropped(key)];
    assert h[..2] == [Stored(key, Slot(v, 0)), Stored(key, Slot(w, 11))];
    assert LastStored(h[..2], key) == Some(Slot(w, 11));
  }
}
