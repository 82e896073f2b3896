/**
  The per-key attempt limiter of backend/app/core/rate_limit.py. A deque per key holds the accepted
  instants and is pruned on the left at each attempt; the module's docstring calls the window fixed, the
  code slides it.
 */
module RateLimit {
  type Events = map<string, seq<real>>

  datatype Outcome = Accepted | Refused(retryAfter: int)

  function Deque(events: Events, key: string): seq<real> {
    if key in events then events[key] else []
  }

  /** What is left after popping instants from the left while they lie at or before the cutoff. */
  function Prune(deque: seq<real>, cutoff: real): (kept: seq<real>)
    ensures kept != [] ==> cutoff < kept[0]
    ensures |kept| <= |deque|
  {
    if deque != [] && deque[0] <= cutoff then Prune(deque[1..], cutoff) else deque
  }

  function RetryAfter(first: real, window: real, now: real): int {
    var left := (window - (now - first)).Floor;
    if left < 1 then 1 else left
  }

  /** The dictionary and the answer after one attempt. */
  function Attempted(events: Events, key: string, limit: int, window: real, now: real): (Events, Outcome) {
    if limit <= 0 then (events, Accepted)
    else
      var kept := Prune(Deque(events, key), now - window);
      if limit <= |kept| then (events[key := kept], Refused(RetryAfter(kept[0], window, now)))
      else (events[key := kept + [now]], Accepted)
  }

  class RateLimiter {
    var events: Events

    constructor ()
      ensures events == map[]
    {
      events := map[];
    }

    /** One critical section of `enforce_rate_limit`; `now` is the clock reading the caller took. */
    method Enforce(key: string, limit: int, window: real, now: real) returns (outcome: Outcome)
      modifies this
      ensures (events, outcome) == Attempted(old(events), key, limit, window, now)
      ensures limit <= 0 ==> outcome == Accepted && events == old(events)
    {
      if limit <= 0 {
        return Accepted;
      }
      var cutoff := now - window;
      if key !in events {
        events := events[key := []];
      }
      ghost var kept := Prune(events[key], cutoff);
      assert kept == Prune(Deque(old(events), key), cutoff);
      while events[key] != [] && events[key][0] <= cutoff
        invariant key in events && events == old(events)[key := events[key]]
        invariant Prune(events[key], cutoff) == kept
        decreases |events[key]|
      {
        events := events[key := events[key][1..]];
      }
      if events[key] == [] {
        events := events - {key};
        events := events[key := []];
      }
      assert events[key] == kept && events == old(events)[key := kept];
      if limit <= |events[key]| {
        return Refused(RetryAfter(events[key][0], window, now));
      }
      events := events[key := events[key] + [now]];
      assert events == old(events)[key := kept + [now]];
      return Accepted;
    }

    method Clear(key: string)
      modifies this
      ensures events == old(events) - {key}
    {
      events := events - {key};
    }

    method Reset()
      modifies this
      ensures events == map[]
    {
      events := map[];
    }
  }

  // ---------------------------------------------------------------- runs

  /** What happens to the limiter, in the order its lock is taken. */
  datatype Op = Attempt(key: string, now: real) | Clear(key: string) | Reset

  /** The fixed limit and window of each key. */
  datatype Policy = Policy(limit: int, window: real)

  type Policies = string -> Policy

  function Step(events: Events, op: Op, policies: Policies): Events {
    match op
    case Attempt(key, now) => Attempted(events, key, policies(key).limit, policies(key).window, now).0
    case Clear(key) => events - {key}
    case Reset => map[]
  }

  function Run(ops: seq<Op>, policies: Policies): Events {
    if ops == [] then map[] else Step(Run(ops[..|ops| - 1], policies), ops[|ops| - 1], policies)
  }

  /** How many of the instants lie after `after`. */
  function After(times: seq<real>, after: real): nat {
    if times == [] then 0
    else After(times[..|times| - 1], after) + (if after < times[|times| - 1] then 1 else 0)
  }

  /** The reference limiter: every accepted instant since the last clear, nothing ever pruned. */
  function History(ops: seq<Op>, policies: Policies, key: string): seq<real> {
    if ops == [] then []
    else
      Extended(History(ops[..|ops| - 1], policies, key), ops[|ops| - 1], policies, key)
  }

  function Extended(before: seq<real>, op: Op, policies: Policies, key: string): seq<real> {
    match op
    case Attempt(k, now) =>
      if k == key && Allows(before, policies(key), now) then before + [now] else before
    case Clear(k) => if k == key then [] else before
    case Reset => []
  }

  /** Fewer than `limit` accepted instants lie after now minus the window. */
  predicate Allows(history: seq<real>, policy: Policy, now: real) {
    After(history, now - policy.window) < policy.limit
  }

  predicate IsAccepted(events: Events, policies: Policies, key: string, now: real) {
    Attempted(events, key, policies(key).limit, policies(key).window, now).1.Accepted?
  }

  /** The instants the code itself has accepted since the key was last cleared. */
  function AcceptedBy(ops: seq<Op>, policies: Policies, key: string): seq<real> {
    if ops == [] then []
    else
      var n := |ops| - 1;
      var before := AcceptedBy(ops[..n], policies, key);
      match ops[n]
      case Attempt(k, now) =>
        if k == key && IsAccepted(Run(ops[..n], policies), policies, key, now) then before + [now] else before
      case Clear(k) => if k == key then [] else before
      case Reset => []
  }

  /** How many of the instants lie in the window that opens just after `from` and closes at `to`. */
  function Within(times: seq<real>, from: real, to: real): nat {
    if times == [] then 0
    else
      var t := times[|times| - 1];
      Within(times[..|times| - 1], from, to) + (if from < t <= to then 1 else 0)
  }

  /** The code decides an attempt made after the run as the full history does. */
  predicate DecidesAlike(ops: seq<Op>, policies: Policies, key: string, now: real) {
    IsAccepted(Run(ops, policies), policies, key, now) <==> Allows(History(ops, policies, key), policies(key), now)
  }

  /** The window that opens just after `from` holds at most `limit` of the attempts the code accepted. */
  predicate WindowKept(ops: seq<Op>, policies: Policies, key: string, from: real) {
    Within(AcceptedBy(ops, policies, key), from, from + policies(key).window) <= policies(key).limit
  }

  /** The clock readings are in the order the lock is taken, and none is later than `now`. */
  ghost predicate InClockOrder(ops: seq<Op>, now: real) {
    && (forall i, j :: 0 <= i < j < |ops| && ops[i].Attempt? && ops[j].Attempt? ==> ops[i].now <= ops[j].now)
    && (forall i :: 0 <= i < |ops| && ops[i].Attempt? ==> ops[i].now <= now)
  }

  ghost predicate Limits(policies: Policies, key: string) {
    0 < policies(key).limit && 0.0 < policies(key).window
  }

  // ---------------------------------------------------------------- pruning loses nothing

  ghost predicate Sorted(times: seq<real>) {
    forall i, j :: 0 <= i < j < |times| ==> times[i] <= times[j]
  }

  ghost predicate AllAtMost(times: seq<real>, bound: real) {
    forall i :: 0 <= i < |times| ==> times[i] <= bound
  }

  lemma {:induction false} AfterConcat(a: seq<real>, b: seq<real>, after: real)
    ensures After(a + b, after) == After(a, after) + After(b, after)
    decreases |b|
  {
    if b == [] {
      assert a + b == a;
    } else {
      assert (a + b)[..|a + b| - 1] == a + b[..|b| - 1];
      AfterConcat(a, b[..|b| - 1], after);
    }
  }

  lemma {:induction false} AfterNone(times: seq<real>, after: real)
    requires AllAtMost(times, after)
    ensures After(times, after) == 0
    decreases |times|
  {
    if times != [] {
      AfterNone(times[..|times| - 1], after);
    }
  }

  lemma {:induction false} AfterAll(times: seq<real>, after: real)
    requires forall i :: 0 <= i < |times| ==> after < times[i]
    ensures After(times, after) == |times|
    decreases |times|
  {
    if times != [] {
      AfterAll(times[..|times| - 1], after);
    }
  }

  /** `deque` is the end of `history`, and everything before it lies at or before the cutoff. */
  ghost predicate Suffix(deque: seq<real>, history: seq<real>, cutoff: real) {
    var k := |history| - |deque|;
    && 0 <= k && AllAtMost(history[..k], cutoff)
    && forall i :: 0 <= i < |deque| ==> deque[i] == history[k + i]
  }

  lemma SuffixOfSuffix(inner: seq<real>, deque: seq<real>, history: seq<real>, early: real, late: real)
    requires Suffix(deque, history, early) && Suffix(inner, deque, late) && early <= late
    ensures Suffix(inner, history, late)
  {
    var k, m := |history| - |deque|, |deque| - |inner|;
    assert history[k..][m..] == history[k + m..];
    assert history[..k + m] == history[..k] + deque[..m];
  }

  lemma SuffixCounts(deque: seq<real>, history: seq<real>, early: real, late: real)
    requires Suffix(deque, history, early) && early <= late
    ensures After(history, late) == After(deque, late)
  {
    var k := |history| - |deque|;
    assert history == history[..k] + deque;
    AfterNone(history[..k], late);
    AfterConcat(history[..k], deque, late);
  }

  lemma SuffixSorted(deque: seq<real>, history: seq<real>, cutoff: real)
    requires Suffix(deque, history, cutoff) && Sorted(history)
    ensures Sorted(deque)
  {
  }

  /** Pruning takes instants at or before the cutoff off the left and nothing else. */
  lemma {:induction false} PruneIsSuffix(deque: seq<real>, cutoff: real)
    ensures Suffix(Prune(deque, cutoff), deque, cutoff)
    decreases |deque|
  {
    if deque != [] && deque[0] <= cutoff {
      PruneIsSuffix(deque[1..], cutoff);
      assert AllAtMost(deque[..1], cutoff);
      assert Suffix(deque[1..], deque, cutoff);
      SuffixOfSuffix(Prune(deque, cutoff), deque[1..], deque, cutoff, cutoff);
    } else {
      assert deque[0..] == deque;
    }
  }

  lemma AfterAllSorted(times: seq<real>, after: real)
    requires Sorted(times) && (times != [] ==> after < times[0])
    ensures After(times, after) == |times|
  {
    AfterAll(times, after);
  }

  /** Of a sorted deque, pruning keeps exactly the instants after the cutoff. */
  lemma PruneCounts(deque: seq<real>, cutoff: real)
    requires Sorted(deque)
    ensures |Prune(deque, cutoff)| == After(deque, cutoff)
  {
    var kept := Prune(deque, cutoff);
    PruneIsSuffix(deque, cutoff);
    assert After(deque, cutoff) == After(kept, cutoff) by {
      SuffixCounts(kept, deque, cutoff, cutoff);
    }
    assert After(kept, cutoff) == |kept| by {
      SuffixSorted(kept, deque, cutoff);
      AfterAllSorted(kept, cutoff);
    }
  }

  /** The deque of a key is the part of the full history that a later attempt can still see. */
  ghost predicate Fits(deque: seq<real>, history: seq<real>, policy: Policy, now: real) {
    && Sorted(history) && AllAtMost(history, now)
    && |deque| <= policy.limit
    && Suffix(deque, history, now - policy.window)
  }

  /** A fitting deque decides as the full history does, at every instant from `now` on. */
  lemma FittingDequeDecides(deque: seq<real>, history: seq<real>, policy: Policy, now: real, later: real)
    requires Fits(deque, history, policy, now) && now <= later
    ensures var cutoff := later - policy.window;
            && |Prune(deque, cutoff)| == After(history, cutoff)
            && Fits(Prune(deque, cutoff), history, policy, later)
  {
    var earlier, cutoff := now - policy.window, later - policy.window;
    assert |Prune(deque, cutoff)| == After(history, cutoff) by {
      SuffixSorted(deque, history, earlier);
      PruneCounts(deque, cutoff);
      SuffixCounts(deque, history, earlier, cutoff);
    }
    assert Suffix(Prune(deque, cutoff), history, cutoff) by {
      PruneIsSuffix(deque, cutoff);
      SuffixOfSuffix(Prune(deque, cutoff), deque, history, earlier, cutoff);
    }
  }

  lemma FitsGrows(deque: seq<real>, history: seq<real>, policy: Policy, now: real)
    requires Fits(deque, history, policy, now) && |deque| < policy.limit
    ensures Fits(deque + [now], history + [now], policy, now)
  {
    var k := |history| - |deque|;
    assert (history + [now])[k..] == history[k..] + [now];
    assert (history + [now])[..k] == history[..k];
  }

  lemma FitsLater(deque: seq<real>, history: seq<real>, policy: Policy, now: real, later: real)
    requires Fits(deque, history, policy, now) && now <= later
    ensures Fits(deque, history, policy, later)
  {
  }

  /** One attempt keeps the deque fitting, and is let through as the full history says. */
  lemma AttemptFits(deque: seq<real>, history: seq<real>, policy: Policy, now: real)
    requires Fits(deque, history, policy, now)
    ensures var kept := Prune(deque, now - policy.window);
            && (|kept| < policy.limit <==> Allows(history, policy, now))
            && (if |kept| < policy.limit then Fits(kept + [now], history + [now], policy, now)
                else Fits(kept, history, policy, now))
  {
    FittingDequeDecides(deque, history, policy, now, now);
    if |Prune(deque, now - policy.window)| < policy.limit {
      FitsGrows(Prune(deque, now - policy.window), history, policy, now);
    }
  }

  /** What one operation makes of a key's deque. */
  function NextDeque(deque: seq<real>, op: Op, policy: Policy, key: string): seq<real> {
    match op
    case Attempt(k, now) =>
      var kept := Prune(deque, now - policy.window);
      if k != key then deque else if |kept| < policy.limit then kept + [now] else kept
    case Clear(k) => if k == key then [] else deque
    case Reset => []
  }

  lemma StepDeque(events: Events, op: Op, policies: Policies, key: string)
    requires Limits(policies, key)
    ensures Deque(Step(events, op, policies), key) == NextDeque(Deque(events, key), op, policies(key), key)
  {
  }

  lemma NextFits(deque: seq<real>, op: Op, history: seq<real>, policies: Policies, key: string, at: real)
    requires Fits(deque, history, policies(key), at) && Limits(policies, key)
    requires op.Attempt? ==> op.now == at
    ensures Fits(NextDeque(deque, op, policies(key), key), Extended(history, op, policies, key), policies(key), at)
  {
    if op.Attempt? && op.key == key {
      AttemptFits(deque, history, policies(key), at);
    }
  }

  /** One operation keeps the deque of every key fitting. */
  lemma StepFits(events: Events, op: Op, history: seq<real>, policies: Policies, key: string, at: real)
    requires Fits(Deque(events, key), history, policies(key), at) && Limits(policies, key)
    requires op.Attempt? ==> op.now == at
    ensures Fits(Deque(Step(events, op, policies), key), Extended(history, op, policies, key), policies(key), at)
  {
    StepDeque(events, op, policies, key);
    NextFits(Deque(events, key), op, history, policies, key, at);
  }

  lemma {:induction false} RunFits(ops: seq<Op>, policies: Policies, key: string, now: real)
    requires InClockOrder(ops, now) && Limits(policies, key)
    ensures Fits(Deque(Run(ops, policies), key), History(ops, policies, key), policies(key), now)
    decreases |ops|
  {
    if ops != [] {
      var n := |ops| - 1;
      var at := if ops[n].Attempt? then ops[n].now else now;
      RunFits(ops[..n], policies, key, at);
      StepFits(Run(ops[..n], policies), ops[n], History(ops[..n], policies, key), policies, key, at);
      FitsLater(Deque(Run(ops, policies), key), History(ops, policies, key), policies(key), at, now);
    }
  }

  /** The pruned deque decides exactly as the unpruned history since the last clear: an attempt is accepted
      iff fewer than `limit` accepted instants lie after now minus the window. */
  lemma DecidesAsFullHistory(ops: seq<Op>, policies: Policies, key: string, now: real)
    requires InClockOrder(ops, now) && Limits(policies, key)
    ensures DecidesAlike(ops, policies, key, now)
  {
    RunFits(ops, policies, key, now);
    AttemptFits(Deque(Run(ops, policies), key), History(ops, policies, key), policies(key), now);
  }

  // ---------------------------------------------------------------- what the limiter guarantees

  lemma {:induction false} WithinAtMostAfter(times: seq<real>, from: real, to: real, after: real)
    requires after <= from
    ensures Within(times, from, to) <= After(times, after)
    decreases |times|
  {
    if times != [] {
      WithinAtMostAfter(times[..|times| - 1], from, to, after);
    }
  }

  lemma {:induction false} HistoryKeepsWindow(ops: seq<Op>, policies: Policies, key: string, from: real)
    requires Limits(policies, key)
    ensures Within(History(ops, policies, key), from, from + policies(key).window) <= policies(key).limit
    decreases |ops|
  {
    if ops != [] {
      var n := |ops| - 1;
      var policy := policies(key);
      var before := History(ops[..n], policies, key);
      HistoryKeepsWindow(ops[..n], policies, key, from);
      match ops[n]
      case Attempt(k, now) =>
        if k == key && Allows(before, policy, now) {
          assert (before + [now])[..|before|] == before;
          if from < now <= from + policy.window {
            WithinAtMostAfter(before, from, from + policy.window, now - policy.window);
          }
        }
      case Clear(k) =>
      case Reset =>
    }
  }

  /** The code accepts the attempts of the reference limiter and no others, so long as the clock readings are in
      the order the lock is taken; with a limit of one, in whatever order they are. */
  lemma {:induction false} AcceptedIsHistory(ops: seq<Op>, policies: Policies, key: string, now: real)
    requires Limits(policies, key) && (InClockOrder(ops, now) || policies(key).limit == 1)
    ensures AcceptedBy(ops, policies, key) == History(ops, policies, key)
    decreases |ops|
  {
    if ops != [] {
      var n := |ops| - 1;
      var at := if ops[n].Attempt? then ops[n].now else now;
      AcceptedIsHistory(ops[..n], policies, key, at);
      if ops[n].Attempt? && ops[n].key == key {
        if policies(key).limit == 1 {
          LimitOneDecides(ops[..n], policies, key, at);
        } else {
          DecidesAsFullHistory(ops[..n], policies, key, at);
        }
      }
    }
  }

  /** Any window of the configured length, wherever it is laid, holds at most `limit` of the attempts the code has
      accepted. */
  lemma WindowHoldsAtMostLimit(ops: seq<Op>, policies: Policies, key: string, now: real, from: real)
    requires Limits(policies, key) && (InClockOrder(ops, now) || policies(key).limit == 1)
    ensures WindowKept(ops, policies, key, from)
  {
    AcceptedIsHistory(ops, policies, key, now);
    HistoryKeepsWindow(ops, policies, key, from);
  }

  /** Deques are never longer than the limit and never empty, so a key that goes quiet and is looked at again leaves
      nothing behind; and they are sorted while the clock readings are in the order the lock is taken. */
  lemma DequesStaySmall(ops: seq<Op>, policies: Policies, key: string, now: real)
    requires Limits(policies, key)
    ensures var deque := Deque(Run(ops, policies), key);
            && |deque| <= policies(key).limit && (key in Run(ops, policies) ==> deque != [])
            && (InClockOrder(ops, now) ==> Sorted(deque))
  {
    NoLongDeque(ops, policies, key);
    NoEmptyDeque(ops, policies, key);
    if InClockOrder(ops, now) {
      RunFits(ops, policies, key, now);
      SuffixSorted(
        Deque(Run(ops, policies), key), History(ops, policies, key), now - policies(key).window);
    }
  }

  lemma {:induction false} NoLongDeque(ops: seq<Op>, policies: Policies, key: string)
    requires Limits(policies, key)
    ensures |Deque(Run(ops, policies), key)| <= policies(key).limit
    decreases |ops|
  {
    if ops != [] {
      NoLongDeque(ops[..|ops| - 1], policies, key);
      StepDeque(Run(ops[..|ops| - 1], policies), ops[|ops| - 1], policies, key);
    }
  }

  lemma {:induction false} NoEmptyDeque(ops: seq<Op>, policies: Policies, key: string)
    ensures key in Run(ops, policies) ==> Run(ops, policies)[key] != []
    decreases |ops|
  {
    if ops != [] {
      NoEmptyDeque(ops[..|ops| - 1], policies, key);
    }
  }

  /** The announced wait is what is left of the oldest instant's window, cut down to whole seconds, and at least one. */
  lemma RetryAfterIsWhatIsLeft(events: Events, key: string, limit: int, window: real, now: real)
    requires Attempted(events, key, limit, window, now).1.Refused?
    ensures var (after, outcome) := Attempted(events, key, limit, window, now);
            && Deque(after, key) != []
            && var left := Deque(after, key)[0] + window - now;
               && 1 <= outcome.retryAfter && left - 1.0 < outcome.retryAfter as real
               && (outcome.retryAfter as real <= left || outcome.retryAfter == 1)
  {
  }

  /** A limit that is not positive lets every attempt through and records none. */
  lemma NoLimitNoRecord(ops: seq<Op>, policies: Policies, key: string, now: real)
    requires policies(key).limit <= 0
    ensures IsAccepted(Run(ops, policies), policies, key, now) && Deque(Run(ops, policies), key) == []
    decreases |ops|
  {
    if ops != [] {
      NoLimitNoRecord(ops[..|ops| - 1], policies, key, now);
    }
  }

  /** The Retry-After answer is honest exactly when what is left of the window is at most one second or a
      whole number of seconds: otherwise it is cut down, and a client that waits just that long is refused. */
  lemma RetryAfterHonestIff(events: Events, key: string, limit: int, window: real, now: real)
    requires 0 < limit && Sorted(Deque(events, key))
    requires |Prune(Deque(events, key), now - window)| == limit
    ensures var (after, outcome) := Attempted(events, key, limit, window, now);
            var left := window - (now - after[key][0]);
            && outcome.Refused?
            && (Attempted(after, key, limit, window, now + outcome.retryAfter as real).1.Accepted?
                <==> left <= 1.0 || left == left.Floor as real)
  {
    var kept := Prune(Deque(events, key), now - window);
    var wait := RetryAfter(kept[0], window, now) as real;
    var left := window - (now - kept[0]);
    var cutoff := now + wait - window;
    assert left - wait == kept[0] - cutoff;
    assert kept[0] <= cutoff <==> left <= wait;
    assert kept[0] <= cutoff ==> |Prune(kept, cutoff)| <= |kept[1..]|;
  }

  // ---------------------------------------------------------------- a limit of one

  /** The deque holds the last accepted instant, which is the latest, or nothing because nothing was accepted. */
  ghost predicate HoldsLast(deque: seq<real>, history: seq<real>) {
    if history == [] then deque == []
    else deque == [history[|history| - 1]] && AllAtMost(history, history[|history| - 1])
  }

  lemma LatestDecides(history: seq<real>, after: real)
    requires history != [] && AllAtMost(history, history[|history| - 1])
    ensures After(history, after) < 1 <==> history[|history| - 1] <= after
  {
    if history[|history| - 1] <= after {
      AfterNone(history, after);
    }
  }

  lemma LimitOneStep(deque: seq<real>, history: seq<real>, policy: Policy, now: real)
    requires HoldsLast(deque, history) && policy.limit == 1 && 0.0 < policy.window
    ensures var kept := Prune(deque, now - policy.window);
            && (|kept| < 1 <==> Allows(history, policy, now))
            && (if |kept| < 1 then HoldsLast(kept + [now], history + [now]) else HoldsLast(kept, history))
  {
    if history != [] {
      LatestDecides(history, now - policy.window);
    }
  }

  lemma {:induction false} LimitOneHoldsLast(ops: seq<Op>, policies: Policies, key: string)
    requires Limits(policies, key) && policies(key).limit == 1
    ensures HoldsLast(Deque(Run(ops, policies), key), History(ops, policies, key))
    decreases |ops|
  {
    if ops != [] {
      var n := |ops| - 1;
      LimitOneHoldsLast(ops[..n], policies, key);
      StepDeque(Run(ops[..n], policies), ops[n], policies, key);
      if ops[n].Attempt? && ops[n].key == key {
        LimitOneStep(
          Deque(Run(ops[..n], policies), key), History(ops[..n], policies, key), policies(key), ops[n].now);
      }
    }
  }

  /** A limit of one decides as the full history whatever the order of the clock readings. */
  lemma LimitOneDecides(ops: seq<Op>, policies: Policies, key: string, now: real)
    requires Limits(policies, key) && policies(key).limit == 1
    ensures DecidesAlike(ops, policies, key, now)
  {
    LimitOneHoldsLast(ops, policies, key);
    LimitOneStep(Deque(Run(ops, policies), key), History(ops, policies, key), policies(key), now);
  }

  // ---------------------------------------------------------------- readings that lag

  /** The clock is read before the lock is taken: a reading may lag any earlier one by at most `lag`. */
  ghost predicate LagsAtMost(ops: seq<Op>, lag: real) {
    forall i, j :: 0 <= i < j < |ops| && ops[i].Attempt? && ops[j].Attempt? ==> ops[i].now - lag <= ops[j].now
  }

  /** Over all runs whose readings lag at most so much, the next attempt is decided as the full history decides. */
  ghost predicate DecidesExactly(policies: Policies, key: string, lag: real) {
    forall ops: seq<Op>, now: real ::
      LagsAtMost(ops + [Attempt(key, now)], lag) ==> DecidesAlike(ops, policies, key, now)
  }

  /** Over all such runs, every window of the configured length holds at most `limit` accepted attempts. */
  ghost predicate KeepsWindow(policies: Policies, key: string, lag: real) {
    forall ops: seq<Op>, from: real :: LagsAtMost(ops, lag) ==> WindowKept(ops, policies, key, from)
  }

  /** `n` attempts on the key at one instant. */
  function Fill(key: string, n: nat, at: real): (ops: seq<Op>)
    ensures |ops| == n && forall i :: 0 <= i < n ==> ops[i] == Attempt(key, at)
  {
    seq(n, i requires 0 <= i < n => Attempt(key, at))
  }

  function Repeat(n: nat, at: real): (times: seq<real>)
    ensures |times| == n && forall i :: 0 <= i < n ==> times[i] == at
  {
    seq(n, i requires 0 <= i < n => at)
  }

  lemma KeepsAll(times: seq<real>, cutoff: real)
    requires times != [] ==> cutoff < times[0]
    ensures Prune(times, cutoff) == times
  {
  }

  lemma {:induction false} DropsAll(times: seq<real>, cutoff: real)
    requires AllAtMost(times, cutoff)
    ensures Prune(times, cutoff) == []
    decreases |times|
  {
    if times != [] {
      DropsAll(times[1..], cutoff);
    }
  }

  /** One accepted attempt more, seen by the deque and by the list of what the code accepted. */
  lemma AcceptedSnoc(ops: seq<Op>, policies: Policies, key: string, now: real)
    requires Limits(policies, key)
    requires |Prune(Deque(Run(ops, policies), key), now - policies(key).window)| < policies(key).limit
    ensures var all := ops + [Attempt(key, now)];
            && IsAccepted(Run(ops, policies), policies, key, now)
            && Deque(Run(all, policies), key)
               == Prune(Deque(Run(ops, policies), key), now - policies(key).window) + [now]
            && AcceptedBy(all, policies, key) == AcceptedBy(ops, policies, key) + [now]
  {
    assert (ops + [Attempt(key, now)])[..|ops|] == ops;
    StepDeque(Run(ops, policies), Attempt(key, now), policies, key);
  }

  lemma FillSnoc(key: string, n: nat, at: real)
    ensures Fill(key, n + 1, at) == Fill(key, n, at) + [Attempt(key, at)]
    ensures Repeat(n + 1, at) == Repeat(n, at) + [at]
  {
  }

  lemma OneMoreFits(ops: seq<Op>, policies: Policies, key: string, n: nat, at: real)
    requires Limits(policies, key) && n < policies(key).limit
    requires Deque(Run(ops, policies), key) == Repeat(n, at) && AcceptedBy(ops, policies, key) == Repeat(n, at)
    ensures Deque(Run(ops + [Attempt(key, at)], policies), key) == Repeat(n, at) + [at]
    ensures AcceptedBy(ops + [Attempt(key, at)], policies, key) == Repeat(n, at) + [at]
  {
    KeepsAll(Repeat(n, at), at - policies(key).window);
    AcceptedSnoc(ops, policies, key, at);
  }

  /** A key can be filled up to its limit in one instant. */
  lemma {:induction false} FillIsAccepted(policies: Policies, key: string, n: nat, at: real)
    requires Limits(policies, key) && n <= policies(key).limit
    ensures Deque(Run(Fill(key, n, at), policies), key) == Repeat(n, at)
    ensures AcceptedBy(Fill(key, n, at), policies, key) == Repeat(n, at)
    decreases n
  {
    if n > 0 {
      FillIsAccepted(policies, key, n - 1, at);
      FillSnoc(key, n - 1, at);
      OneMoreFits(Fill(key, n - 1, at), policies, key, n - 1, at);
    }
  }

  /** The key filled at zero, then one attempt a whole window later, which prunes everything. */
  function Sweep(key: string, policy: Policy): seq<Op>
    requires 0 < policy.limit
  {
    Fill(key, policy.limit, 0.0) + [Attempt(key, policy.window)]
  }

  lemma SweepForgets(policies: Policies, key: string)
    requires Limits(policies, key)
    ensures var ops := Sweep(key, policies(key));
            && Deque(Run(ops, policies), key) == [policies(key).window]
            && AcceptedBy(ops, policies, key) == Repeat(policies(key).limit, 0.0) + [policies(key).window]
            && InClockOrder(ops, policies(key).window)
  {
    var policy := policies(key);
    FillIsAccepted(policies, key, policy.limit, 0.0);
    DropsAll(Repeat(policy.limit, 0.0), 0.0);
    assert policy.window - policy.window == 0.0;
    AcceptedSnoc(Fill(key, policy.limit, 0.0), policies, key, policy.window);
  }

  lemma {:induction false} RepeatCounts(n: nat, at: real, from: real, to: real)
    ensures After(Repeat(n, at), from) == if from < at then n else 0
    ensures Within(Repeat(n, at), from, to) == if from < at <= to then n else 0
    decreases n
  {
    if n > 0 {
      RepeatCounts(n - 1, at, from, to);
      assert Repeat(n, at)[..n - 1] == Repeat(n - 1, at);
    }
  }

  lemma {:induction false} WithinConcat(a: seq<real>, b: seq<real>, from: real, to: real)
    ensures Within(a + b, from, to) == Within(a, from, to) + Within(b, from, to)
    decreases |b|
  {
    if b == [] {
      assert a + b == a;
    } else {
      assert (a + b)[..|a + b| - 1] == a + b[..|b| - 1];
      WithinConcat(a, b[..|b| - 1], from, to);
    }
  }

  lemma WithinTwo(a: real, b: real, from: real, to: real)
    requires from < b <= to < a
    ensures Within([a] + [b], from, to) == 1
  {
    assert ([a] + [b])[..1] == [a];
    assert [a][..0] == [];
    assert Within([], from, to) == 0;
    assert Within([a], from, to) == 0;
  }

  /** The swept key takes an attempt whose reading lags the sweep. */
  lemma LateReadingIsAccepted(policies: Policies, key: string, late: real)
    requires Limits(policies, key) && 1 < policies(key).limit && late < 2.0 * policies(key).window
    ensures var policy := policies(key); var ops := Sweep(key, policy);
            && IsAccepted(Run(ops, policies), policies, key, late)
            && AcceptedBy(ops + [Attempt(key, late)], policies, key)
               == Repeat(policy.limit, 0.0) + [policy.window] + [late]
  {
    SweepForgets(policies, key);
    KeepsAll([policies(key).window], late - policies(key).window);
    AcceptedSnoc(Sweep(key, policies(key)), policies, key, late);
  }

  lemma StillSeen(policy: Policy, last: real, late: real)
    requires 0 < policy.limit && late < policy.window
    ensures !Allows(Repeat(policy.limit, 0.0) + [last], policy, late)
  {
    var cutoff := late - policy.window;
    RepeatCounts(policy.limit, 0.0, cutoff, late);
    AfterConcat(Repeat(policy.limit, 0.0), [last], cutoff);
  }

  /** The reference limiter still sees the first attempts and refuses it. */
  lemma LateReadingIsRefused(policies: Policies, key: string, late: real)
    requires Limits(policies, key) && late < policies(key).window
    ensures !Allows(History(Sweep(key, policies(key)), policies, key), policies(key), late)
  {
    SweepForgets(policies, key);
    AcceptedIsHistory(Sweep(key, policies(key)), policies, key, policies(key).window);
    StillSeen(policies(key), policies(key).window, late);
  }

  /** The first attempts and the late one lie in one window. */
  lemma LateReadingCrowds(n: nat, window: real, behind: real)
    requires 0.0 < behind < window
    ensures Within(Repeat(n, 0.0) + [window] + [window - behind], -behind, -behind + window) == n + 1
  {
    var zeros, late := Repeat(n, 0.0), window - behind;
    assert zeros + [window] + [late] == zeros + ([window] + [late]);
    RepeatCounts(n, 0.0, -behind, late);
    WithinConcat(zeros, [window] + [late], -behind, late);
    WithinTwo(window, late, -behind, late);
  }

  lemma SweepLags(policies: Policies, key: string, behind: real)
    requires Limits(policies, key) && 0.0 < behind < policies(key).window
    ensures LagsAtMost(Sweep(key, policies(key)) + [Attempt(key, policies(key).window - behind)], behind)
  {
    var policy := policies(key);
    var ops := Sweep(key, policy) + [Attempt(key, policy.window - behind)];
    assert forall i :: 0 <= i < policy.limit ==> ops[i] == Attempt(key, 0.0);
    assert ops[policy.limit] == Attempt(key, policy.window);
  }

  /** Some lag that is allowed and shorter than the window. */
  function ShortLag(lag: real, window: real): (behind: real)
    requires 0.0 < lag && 0.0 < window
    ensures 0.0 < behind <= lag && behind < window
  {
    if lag < window then lag else window / 2.0
  }

  lemma LagGrows(ops: seq<Op>, lag: real, more: real)
    requires LagsAtMost(ops, lag) && lag <= more
    ensures LagsAtMost(ops, more)
  {
  }

  lemma LagBreaksDecision(policies: Policies, key: string, lag: real)
    requires Limits(policies, key) && 0.0 < lag && 1 < policies(key).limit
    ensures !DecidesExactly(policies, key, lag)
  {
    var policy := policies(key);
    var behind := ShortLag(lag, policy.window);
    var late := policy.window - behind;
    var ops := Sweep(key, policy);
    SweepLags(policies, key, behind);
    LagGrows(ops + [Attempt(key, late)], behind, lag);
    LateReadingIsAccepted(policies, key, late);
    LateReadingIsRefused(policies, key, late);
    assert !DecidesAlike(ops, policies, key, late);
  }

  lemma LateReadingOverfills(policies: Policies, key: string, behind: real)
    requires Limits(policies, key) && 1 < policies(key).limit && 0.0 < behind < policies(key).window
    ensures var policy := policies(key);
            !WindowKept(Sweep(key, policy) + [Attempt(key, policy.window - behind)], policies, key, -behind)
  {
    var policy := policies(key);
    var late := policy.window - behind;
    var ops := Sweep(key, policy) + [Attempt(key, late)];
    assert AcceptedBy(ops, policies, key) == Repeat(policy.limit, 0.0) + [policy.window] + [late] by {
      LateReadingIsAccepted(policies, key, late);
    }
    LateReadingCrowds(policy.limit, policy.window, behind);
  }

  lemma LagBreaksWindow(policies: Policies, key: string, lag: real)
    requires Limits(policies, key) && 0.0 < lag && 1 < policies(key).limit
    ensures !KeepsWindow(policies, key, lag)
  {
    var policy := policies(key);
    var behind := ShortLag(lag, policy.window);
    var ops := Sweep(key, policy) + [Attempt(key, policy.window - behind)];
    SweepLags(policies, key, behind);
    LagGrows(ops, behind, lag);
    LateReadingOverfills(policies, key, behind);
  }

  lemma NoLagIsClockOrder(ops: seq<Op>, key: string, now: real, lag: real)
    requires LagsAtMost(ops + [Attempt(key, now)], lag) && lag <= 0.0
    ensures InClockOrder(ops, now)
  {
    var all := ops + [Attempt(key, now)];
    assert forall i :: 0 <= i < |ops| ==> all[i] == ops[i];
    assert all[|ops|] == Attempt(key, now);
  }

  /** The deque decides as the full history over all runs exactly when no reading lags an earlier one, or the
      limit is one. */
  lemma DecidesExactlyIff(policies: Policies, key: string, lag: real)
    requires Limits(policies, key)
    ensures DecidesExactly(policies, key, lag) <==> lag <= 0.0 || policies(key).limit == 1
  {
    if lag <= 0.0 || policies(key).limit == 1 {
      forall ops: seq<Op>, now: real | LagsAtMost(ops + [Attempt(key, now)], lag)
        ensures DecidesAlike(ops, policies, key, now)
      {
        if policies(key).limit == 1 {
          LimitOneDecides(ops, policies, key, now);
        } else {
          NoLagIsClockOrder(ops, key, now, lag);
          DecidesAsFullHistory(ops, policies, key, now);
        }
      }
    } else {
      LagBreaksDecision(policies, key, lag);
    }
  }

  /** Some instant no earlier than every reading. */
  lemma {:induction false} LatestReading(ops: seq<Op>) returns (now: real)
    ensures forall i :: 0 <= i < |ops| && ops[i].Attempt? ==> ops[i].now <= now
    decreases |ops|
  {
    if ops == [] {
      now := 0.0;
    } else {
      var n := |ops| - 1;
      now := LatestReading(ops[..n]);
      assert forall i :: 0 <= i < n ==> ops[..n][i] == ops[i];
      if ops[n].Attempt? && now < ops[n].now {
        now := ops[n].now;
      }
    }
  }

  /** And exactly then does every window hold at most `limit` of the attempts the code accepts. */
  lemma KeepsWindowIff(policies: Policies, key: string, lag: real)
    requires Limits(policies, key)
    ensures KeepsWindow(policies, key, lag) <==> lag <= 0.0 || policies(key).limit == 1
  {
    if lag <= 0.0 || policies(key).limit == 1 {
      forall ops: seq<Op>, from: real | LagsAtMost(ops, lag)
        ensures WindowKept(ops, policies, key, from)
      {
        var now := LatestReading(ops);
        WindowHoldsAtMostLimit(ops, policies, key, now, from);
      }
    } else {
      LagBreaksWindow(policies, key, lag);
    }
  }

  /** The cut-down Retry-After does mislead: with any window of at least two whole seconds a key can be filled so
      that the client refused half a second later, who waits as long as told, is refused again. */
  lemma RetryAfterMisleads(policies: Policies, key: string, seconds: nat)
    requires Limits(policies, key) && policies(key).window == seconds as real && 2 <= seconds
    ensures var policy := policies(key); var events := Run(Fill(key, policy.limit, 0.0), policies);
            var (after, outcome) := Attempted(events, key, policy.limit, policy.window, 0.5);
            && outcome == Refused(seconds - 1)
            && Attempted(after, key, policy.limit, policy.window, 0.5 + (seconds - 1) as real).1.Refused?
  {
    var policy := policies(key);
    var events := Run(Fill(key, policy.limit, 0.0), policies);
    FillIsAccepted(policies, key, policy.limit, 0.0);
    KeepsAll(Repeat(policy.limit, 0.0), 0.5 - policy.window);
    var after := Attempted(events, key, policy.limit, policy.window, 0.5).0;
    assert Deque(after, key) == Repeat(policy.limit, 0.0);
    var again := 0.5 + (seconds - 1) as real;
    assert again - policy.window == -0.5;
    KeepsAll(Repeat(policy.limit, 0.0), again - policy.window);
    assert (policy.window - 0.5).Floor == seconds - 1;
  }
}
