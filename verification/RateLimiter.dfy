/**
 The rate limiter: one counter per operation and caller, kept in a shared table that is pruned now
 and then. Proved to decide as if every counter were kept alone and never pruned.
 */
module RateLimiter {
  import opened Crypto

  const PRUNE_THRESHOLD := 1024
  const PRUNE_INTERVAL := 256

  datatype Operation = AnyRequest | PublicationRequest | DeliveryRequest

  datatype Key = Key(operation: Operation, caller: Name)

  datatype Limit = Limit(calls: nat, window: Timestamp)

  datatype Counter = Counter(startedAt: Timestamp, calls: nat)

  datatype Call = Call(key: Key, now: Timestamp)

  const FRESH := Counter(0, 0)

  // ----- one counter, never pruned -----

  predicate Expired(limit: Limit, c: Counter, now: Timestamp) {
    now < c.startedAt || now >= c.startedAt + limit.window
  }

  function Current(limit: Limit, c: Counter, now: Timestamp): Counter {
    if Expired(limit, c, now) then Counter(now, 0) else c
  }

  predicate Allows(limit: Limit, c: Counter, now: Timestamp) {
    limit.calls == 0 || Current(limit, c, now).calls < limit.calls
  }

  function Counted(limit: Limit, c: Counter, now: Timestamp): Counter {
    var current := Current(limit, c, now);
    if current.calls < limit.calls then current.(calls := current.calls + 1) else current
  }

  function CounterAfter(limit: Limit, times: seq<Timestamp>): Counter {
    if times == [] then FRESH
    else
      var n := |times| - 1;
      Counted(limit, CounterAfter(limit, times[..n]), times[n])
  }

  // ----- the shared table -----

  datatype Table = Table(counters: map<Key, Counter>, callsSincePrune: nat)

  predicate Prunable(limit: Limit, c: Counter, now: Timestamp) {
    now >= c.startedAt && now >= c.startedAt + limit.window
  }

  function Pruned(limit: Limit, counters: map<Key, Counter>, now: Timestamp): map<Key, Counter> {
    map k | k in counters && !Prunable(limit, counters[k], now) :: counters[k]
  }

  /** Every 256th call that finds the table large prunes it. */
  function Maintained(limit: Limit, t: Table, now: Timestamp): Table {
    if |t.counters| < PRUNE_THRESHOLD then t
    else if t.callsSincePrune + 1 < PRUNE_INTERVAL then t.(callsSincePrune := t.callsSincePrune + 1)
    else Table(Pruned(limit, t.counters, now), 0)
  }

  function Lookup(t: Table, key: Key): Counter {
    if key in t.counters then t.counters[key] else FRESH
  }

  function Accept(limit: Limit, t: Table, call: Call): (Table, bool) {
    if limit.calls == 0 then (t, true)
    else
      var m := Maintained(limit, t, call.now);
      var c := Lookup(m, call.key);
      (m.(counters := m.counters[call.key := Counted(limit, c, call.now)]), Allows(limit, c, call.now))
  }

  function TableAfter(limit: Limit, trace: seq<Call>): Table {
    if trace == [] then Table(map[], 0)
    else
      var n := |trace| - 1;
      Accept(limit, TableAfter(limit, trace[..n]), trace[n]).0
  }

  class Limiter {
    const limit: Limit
    var counters: map<Key, Counter>
    var callsSincePrune: nat

    ghost function View(): Table
      reads this
    {
      Table(counters, callsSincePrune)
    }

    constructor (limit: Limit)
      ensures this.limit == limit && View() == TableAfter(limit, [])
    {
      this.limit := limit;
      counters, callsSincePrune := map[], 0;
    }

    method Prune(now: Timestamp)
      modifies this`counters
      ensures counters == Pruned(limit, old(counters), now)
    {
      var left := counters.Keys;
      while left != {}
        invariant left <= counters.Keys <= old(counters).Keys
        invariant forall k | k in old(counters) ::
                    (k in counters <==> k in left || !Prunable(limit, old(counters)[k], now))
        invariant forall k | k in counters :: counters[k] == old(counters)[k]
        decreases left
      {
        var k :| k in left;
        left := left - {k};
        if now >= counters[k].startedAt && now >= counters[k].startedAt + limit.window {
          counters := counters - {k};
        }
      }
    }

    method Accepted(key: Key, now: Timestamp) returns (accepted: bool)
      modifies this
      ensures (View(), accepted) == Accept(limit, old(View()), Call(key, now))
    {
      if limit.calls == 0 {
        return true;
      }
      if |counters| >= PRUNE_THRESHOLD {
        callsSincePrune := callsSincePrune + 1;
        if callsSincePrune >= PRUNE_INTERVAL {
          callsSincePrune := 0;
          Prune(now);
        }
      }
      var counter := if key in counters then counters[key] else FRESH;
      if now < counter.startedAt || now >= counter.startedAt + limit.window {
        counter := Counter(now, 0);
      }
      accepted := counter.calls < limit.calls;
      if accepted {
        counter := counter.(calls := counter.calls + 1);
      }
      counters := counters[key := counter];
    }
  }

  // ----- noninterference -----

  function TimesOf(trace: seq<Call>, key: Key): seq<Timestamp> {
    if trace == [] then []
    else
      var n := |trace| - 1;
      TimesOf(trace[..n], key) + if trace[n].key == key then [trace[n].now] else []
  }

  /** A clock that starts at zero or later and never goes back. */
  ghost predicate Clock(times: seq<Timestamp>) {
    && (forall i | 0 <= i < |times| :: times[i] >= 0)
    && (forall i, j | 0 <= i < j < |times| :: times[i] <= times[j])
  }

  ghost predicate Ticks(trace: seq<Call>) {
    && (forall i | 0 <= i < |trace| :: trace[i].now >= 0)
    && (forall i, j | 0 <= i < j < |trace| :: trace[i].now <= trace[j].now)
  }

  function Last(trace: seq<Call>): Timestamp {
    if trace == [] then 0 else trace[|trace| - 1].now
  }

  /** The table holds a key's own counter, or nothing when that counter is untouched or over. */
  predicate Agrees(limit: Limit, t: Table, key: Key, own: Counter, last: Timestamp) {
    && 0 <= own.startedAt <= last
    && if key in t.counters then t.counters[key] == own
       else own == FRESH || last >= own.startedAt + limit.window
  }

  lemma AgreesStep(limit: Limit, t: Table, key: Key, own: Counter, last: Timestamp, call: Call)
    requires limit.calls > 0 && Agrees(limit, t, key, own, last) && 0 <= last <= call.now
    ensures var next := Accept(limit, t, call).0;
            Agrees(limit, next, key, if call.key == key then Counted(limit, own, call.now) else own, call.now)
    ensures call.key == key ==> Accept(limit, t, call).1 == Allows(limit, own, call.now)
  {
  }

  lemma {:induction false} TableAgrees(limit: Limit, trace: seq<Call>, key: Key)
    requires limit.calls > 0 && Ticks(trace)
    ensures Agrees(limit, TableAfter(limit, trace), key, CounterAfter(limit, TimesOf(trace, key)), Last(trace))
  {
    if trace != [] {
      hide Accept, Counted, Agrees;
      var n := |trace| - 1;
      TableAgrees(limit, trace[..n], key);
      var times := TimesOf(trace[..n], key);
      assert (times + [trace[n].now])[..|times|] == times && times + [] == times;
      AgreesStep(limit, TableAfter(limit, trace[..n]), key, CounterAfter(limit, times), Last(trace[..n]), trace[n]);
    }
  }

  /**
   Under a clock that never goes back, the shared, pruned limiter decides each call as a counter
   kept for that operation and caller alone would: pruning and other callers do not show.
   */
  lemma Noninterference(limit: Limit, trace: seq<Call>, call: Call)
    requires Ticks(trace + [call])
    ensures Accept(limit, TableAfter(limit, trace), call).1
            == Allows(limit, CounterAfter(limit, TimesOf(trace, call.key)), call.now)
  {
    if limit.calls > 0 {
      hide Accept, Agrees;
      var whole := trace + [call];
      assert whole[|trace|] == call;
      assert forall i | 0 <= i < |trace| :: whole[i] == trace[i];
      TableAgrees(limit, trace, call.key);
      AgreesStep(limit, TableAfter(limit, trace), call.key, CounterAfter(limit, TimesOf(trace, call.key)),
                 Last(trace), call);
    }
  }

  // ----- the bound -----

  /** Whether call number `i` of a counter is allowed. */
  predicate AllowedAt(limit: Limit, times: seq<Timestamp>, i: nat)
    requires i < |times|
  {
    Allows(limit, CounterAfter(limit, times[..i]), times[i])
  }

  /** Number of calls allowed at a time in `[from, from + length)`. */
  function AllowedIn(limit: Limit, times: seq<Timestamp>, from: Timestamp, length: int): nat {
    if times == [] then 0
    else
      var n := |times| - 1;
      AllowedIn(limit, times[..n], from, length)
      + if AllowedAt(limit, times, n) && from <= times[n] < from + length then 1 else 0
  }

  lemma {:induction false} CounterWithinLimit(limit: Limit, times: seq<Timestamp>)
    requires Clock(times)
    ensures var c := CounterAfter(limit, times);
            c.calls <= limit.calls && 0 <= c.startedAt && (times != [] ==> c.startedAt <= times[|times| - 1])
  {
    if times != [] {
      CounterWithinLimit(limit, times[..|times| - 1]);
    }
  }

  /** The most that can have been allowed in an interval of one window's length, by where the counter's window began. */
  function Most(limit: Limit, c: Counter, from: Timestamp): nat {
    if c.startedAt + limit.window <= from then 0
    else if c.startedAt <= from then c.calls
    else if c.startedAt < from + limit.window then limit.calls + c.calls
    else 2 * limit.calls
  }

  lemma {:induction false} AllowedAtMost(limit: Limit, times: seq<Timestamp>, from: Timestamp)
    requires limit.calls > 0 && Clock(times)
    ensures AllowedIn(limit, times, from, limit.window) <= Most(limit, CounterAfter(limit, times), from)
  {
    if times != [] {
      var n := |times| - 1;
      AllowedAtMost(limit, times[..n], from);
      CounterWithinLimit(limit, times[..n]);
    }
  }

  /** No half-open interval of one window's length sees more than twice the limit. */
  lemma NeverMoreThanTwice(limit: Limit, times: seq<Timestamp>, from: Timestamp)
    requires limit.calls > 0 && Clock(times)
    ensures AllowedIn(limit, times, from, limit.window) <= 2 * limit.calls
  {
    AllowedAtMost(limit, times, from);
    CounterWithinLimit(limit, times);
  }

  /** The counter's calls are exactly those allowed within its own window, and never exceed the limit. */
  lemma {:induction false} CounterWindow(limit: Limit, times: seq<Timestamp>)
    requires limit.calls > 0 && Clock(times)
    ensures var c := CounterAfter(limit, times);
            && c.calls <= limit.calls
            && AllowedIn(limit, times, c.startedAt, limit.window) == if limit.window > 0 then c.calls else 0
  {
    if times != [] {
      var n := |times| - 1;
      var before := CounterAfter(limit, times[..n]);
      CounterWindow(limit, times[..n]);
      CounterWithinLimit(limit, times[..n]);
      AllowedAtMost(limit, times[..n], times[n]);
    }
  }

  // ----- exactly which calls are allowed -----

  /** When the current window began: a call at or after the end of one window begins the next. */
  function WindowStart(times: seq<Timestamp>, window: Timestamp): Timestamp {
    if times == [] then 0
    else
      var n := |times| - 1;
      var started := WindowStart(times[..n], window);
      if times[n] >= started + window then times[n] else started
  }

  lemma {:induction false} StartedAtWindow(limit: Limit, times: seq<Timestamp>)
    requires Clock(times)
    ensures CounterAfter(limit, times).startedAt == WindowStart(times, limit.window)
  {
    if times != [] {
      StartedAtWindow(limit, times[..|times| - 1]);
      CounterWithinLimit(limit, times[..|times| - 1]);
    }
  }

  /**
   A call is refused if and only if there is a limit, the window that began last is not over, and the
   limit has been reached in it.
   */
  lemma RefusedIff(limit: Limit, times: seq<Timestamp>, now: Timestamp)
    requires Clock(times + [now])
    ensures var start := WindowStart(times, limit.window);
            !Allows(limit, CounterAfter(limit, times), now) <==>
              && limit.calls > 0 && now < start + limit.window
              && AllowedIn(limit, times, start, limit.window) >= limit.calls
  {
    var all := times + [now];
    assert all[..|times|] == times && all[|times|] == now;
    assert Clock(times) by {
      forall i, j | 0 <= i <= j < |times| ensures times[i] <= times[j] {
        assert all[i] <= all[j];
      }
      assert forall i | 0 <= i < |times| :: times[i] == all[i];
    }
    StartedAtWindow(limit, times);
    CounterWithinLimit(limit, times);
    if limit.calls > 0 {
      CounterWindow(limit, times);
    }
  }

  // ----- the bound of the shared limiter -----

  /** Number of calls of `key` that the shared limiter accepts at a time in `[from, from + length)`. */
  function AcceptedIn(limit: Limit, trace: seq<Call>, key: Key, from: Timestamp, length: int): nat {
    if trace == [] then 0
    else
      var n := |trace| - 1;
      var call := trace[n];
      AcceptedIn(limit, trace[..n], key, from, length)
      + if call.key == key && Accept(limit, TableAfter(limit, trace[..n]), call).1
        && from <= call.now < from + length then 1 else 0
  }

  lemma TicksPrefix(trace: seq<Call>)
    requires Ticks(trace) && trace != []
    ensures Ticks(trace[..|trace| - 1]) && trace == trace[..|trace| - 1] + [trace[|trace| - 1]]
  {
  }

  /** One more call counts when it is allowed and falls into the interval. */
  lemma AllowedInStep(limit: Limit, times: seq<Timestamp>, now: Timestamp, from: Timestamp, length: int)
    ensures AllowedIn(limit, times + [now], from, length)
            == AllowedIn(limit, times, from, length)
               + if Allows(limit, CounterAfter(limit, times), now) && from <= now < from + length then 1 else 0
  {
    hide Allows, CounterAfter;
    assert (times + [now])[..|times|] == times;
  }

  lemma {:induction false} SharedCount(limit: Limit, trace: seq<Call>, key: Key, from: Timestamp, length: int)
    requires Ticks(trace)
    ensures AcceptedIn(limit, trace, key, from, length) == AllowedIn(limit, TimesOf(trace, key), from, length)
  {
    if trace != [] {
      hide Accept, Allows, AllowedIn, Ticks, CounterAfter;
      var n := |trace| - 1;
      var call := trace[n];
      TicksPrefix(trace);
      SharedCount(limit, trace[..n], key, from, length);
      var times := TimesOf(trace[..n], key);
      if call.key == key {
        Noninterference(limit, trace[..n], call);
        AllowedInStep(limit, times, call.now, from, length);
      } else {
        assert times + [] == times;
      }
    } else {
      assert TimesOf(trace, key) == [];
    }
  }

  lemma {:induction false} TimesTick(trace: seq<Call>, key: Key)
    requires Ticks(trace)
    ensures Clock(TimesOf(trace, key))
    ensures forall i | 0 <= i < |TimesOf(trace, key)| :: TimesOf(trace, key)[i] <= Last(trace)
  {
    if trace != [] {
      TimesTick(trace[..|trace| - 1], key);
    }
  }

  /** Whatever else goes on, no operation and caller is accepted more than twice the limit in one window's time. */
  lemma SharedNeverMoreThanTwice(limit: Limit, trace: seq<Call>, key: Key, from: Timestamp)
    requires limit.calls > 0 && Ticks(trace)
    ensures AcceptedIn(limit, trace, key, from, limit.window) <= 2 * limit.calls
  {
    TimesTick(trace, key);
    SharedCount(limit, trace, key, from, limit.window);
    NeverMoreThanTwice(limit, TimesOf(trace, key), from);
  }

  function Burst(now: Timestamp, count: nat): seq<Timestamp> {
    seq(count, _ => now)
  }

  lemma CounterAfterStep(limit: Limit, times: seq<Timestamp>, now: Timestamp)
    ensures CounterAfter(limit, times + [now]) == Counted(limit, CounterAfter(limit, times), now)
  {
    assert (times + [now])[..|times|] == times;
  }

  /** A counter after `count` calls that were all allowed at the same time. */
  function AfterBurst(limit: Limit, c: Counter, now: Timestamp, count: nat): Counter {
    var current := Current(limit, c, now);
    if count == 0 then c else current.(calls := current.calls + count)
  }

  /** One more call at the same time, behind `count` of them, is allowed and counted. */
  lemma OneMoreOfBurst(limit: Limit, c: Counter, front: seq<Timestamp>, now: Timestamp, count: nat, from: Timestamp)
    requires from <= now < from + limit.window && Current(limit, c, now).calls + count < limit.calls
    requires CounterAfter(limit, front) == AfterBurst(limit, c, now, count)
    ensures AllowedIn(limit, front + [now], from, limit.window) == AllowedIn(limit, front, from, limit.window) + 1
    ensures CounterAfter(limit, front + [now]) == AfterBurst(limit, c, now, count + 1)
  {
    hide AllowedIn, CounterAfter;
    AllowedInStep(limit, front, now, from, limit.window);
    CounterAfterStep(limit, front, now);
  }

  lemma BurstFront(before: seq<Timestamp>, now: Timestamp, count: nat)
    ensures before + Burst(now, 0) == before
    ensures before + Burst(now, count + 1) == before + Burst(now, count) + [now]
  {
  }

  lemma {:induction false} BurstAllowed(limit: Limit, before: seq<Timestamp>, now: Timestamp, count: nat,
                                        from: Timestamp)
    requires limit.window > 0 && from <= now < from + limit.window
    requires Current(limit, CounterAfter(limit, before), now).calls + count <= limit.calls
    ensures AllowedIn(limit, before + Burst(now, count), from, limit.window)
            == AllowedIn(limit, before, from, limit.window) + count
    ensures CounterAfter(limit, before + Burst(now, count))
            == AfterBurst(limit, CounterAfter(limit, before), now, count)
  {
    hide CounterAfter, AllowedIn, Burst;
    if count == 0 {
      BurstFront(before, now, 0);
    } else {
      hide Current, AfterBurst;
      BurstFront(before, now, count - 1);
      BurstAllowed(limit, before, now, count - 1, from);
      OneMoreOfBurst(limit, CounterAfter(limit, before), before + Burst(now, count - 1), now, count - 1, from);
    }
  }

  /** A full burst at the end of the first window and another at the start of the next. */
  function TwoBursts(limit: Limit): seq<Timestamp> {
    Burst(limit.window - 1, limit.calls) + Burst(limit.window, limit.calls)
  }

  /** Twice the limit is reached, so the bound cannot be lowered. */
  lemma TwiceIsReached(limit: Limit)
    requires limit.calls > 0 && limit.window > 1
    ensures Clock(TwoBursts(limit))
    ensures AllowedIn(limit, TwoBursts(limit), limit.window - 1, limit.window) == 2 * limit.calls
  {
    var from := limit.window - 1;
    var first := Burst(from, limit.calls);
    assert [] + first == first;
    assert AllowedIn(limit, [], from, limit.window) == 0 && CounterAfter(limit, []) == FRESH;
    hide AllowedIn, CounterAfter, Burst;
    BurstAllowed(limit, [], from, limit.calls, from);
    BurstAllowed(limit, first, limit.window, limit.calls, from);
    BurstsTick(limit);
  }

  lemma BurstsTick(limit: Limit)
    requires limit.window > 1
    ensures Clock(TwoBursts(limit))
  {
  }
}
