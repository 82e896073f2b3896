/**
  The maintenance switch of backend/app/core/maintenance.py as a protocol.

  One stored flag is cached in the process. A call of `is_enabled` reads the clock, consults
  the cache under the lock, and on a miss reads the database and stores the value back under
  the lock; between those points any other thread may run. A toggle writes the database first
  and drops the cached value afterwards. The two switches of the file (maintenance, read-only)
  are two instances of the same protocol.

  A database session reads from the snapshot its first query opened, as MySQL does by default. The session a
  call is given may have queried before; where an engine keeps no snapshots, every query is a session of its own.
 */
module Maintenance {
  import opened Common

  const TTL_SECONDS: real := 10.0

  datatype Cache = Cache(value: Option<bool>, at: real)

  const EMPTY_CACHE := Cache(None, 0.0)

  /** What one critical section of a reader answers: the cached value while it is young enough. */
  function Lookup(cache: Cache, now: real): Option<bool> {
    if cache.value.Some? && now - cache.at < TTL_SECONDS then cache.value else None
  }

  /** The module globals of one switch beside the stored flag, and its calls run without interruption. */
  class Switch {
    var stored: bool
    var cachedValue: Option<bool>
    var cachedAt: real

    function View(): Cache
      reads this
    {
      Cache(cachedValue, cachedAt)
    }

    constructor (stored: bool)
      ensures this.stored == stored && View() == EMPTY_CACHE
    {
      this.stored := stored;
      cachedValue, cachedAt := None, 0.0;
    }

    /** The first critical section of a reader. */
    method Consult(now: real) returns (hit: Option<bool>)
      ensures hit == Lookup(View(), now)
    {
      if cachedValue.Some? && now - cachedAt < TTL_SECONDS {
        return cachedValue;
      }
      return None;
    }

    /** The second critical section of a reader: stamped with the time taken before the database read. */
    method StoreBack(value: bool, now: real)
      modifies this`cachedValue, this`cachedAt
      ensures View() == Cache(Some(value), now)
    {
      cachedValue := Some(value);
      cachedAt := now;
    }

    method Invalidate()
      modifies this`cachedValue, this`cachedAt
      ensures View() == EMPTY_CACHE
    {
      cachedValue := None;
      cachedAt := 0.0;
    }

    /** A whole read that nothing interleaves with, told as a run of the protocol below; `snapshot` is what the
        caller's session sees of the flag, when it has queried before. */
    method IsEnabled(ghost s: State, ghost id: nat, ghost session: nat, snapshot: Option<bool>, now: real)
      returns (value: bool)
      requires s.log != [] && StoredFlag(s) == stored && s.cache == View() && s.clock == now
      requires id !in s.calls && MayBegin(s, session)
      requires session in s.sessions <==> snapshot.Some?
      requires snapshot.Some? ==> s.sessions[session].value == snapshot.value
      modifies this`cachedValue, this`cachedAt
      ensures var after := Run(s, [Begin(id, session), Check(id), Fetch(id), Store(id)]);
              && after.cache == View()
              && after.calls == s.calls[id := Returned(now, value, now)]
    {
      ghost var s1 := Step(s, Begin(id, session));
      ghost var s2 := Step(s1, Check(id));
      ghost var s3 := Step(s2, Fetch(id));
      ghost var s4 := Step(s3, Store(id));
      RunFour(s, Begin(id, session), Check(id), Fetch(id), Store(id));
      assert s1.calls[id] == Started(now, session);
      var hit := Consult(now);
      if hit.Some? {
        assert s2 == s1.(calls := s1.calls[id := Returned(now, hit.value, now)]);
        assert s4 == s2;
        return hit.value;
      }
      assert s2 == s1.(calls := s1.calls[id := Missed(now, session)]);
      value := if snapshot.Some? then snapshot.value else stored;
      assert s3.calls == s2.calls[id := Loaded(now, value)] && s3.cache == s2.cache;
      StoreBack(value, now);
    }

    /** A whole toggle that nothing interleaves with. */
    method SetEnabled(ghost s: State, ghost writer: nat, enabled: bool)
      requires s.log != [] && s.cache == View() && writer !in s.pending
      modifies this
      ensures stored == enabled
      ensures var after := Run(s, [WriteFlag(writer, enabled), Action.Invalidate(writer)]);
              && after.cache == View()
              && after.log != [] && StoredFlag(after) == enabled
              && after.pending == s.pending
    {
      stored := enabled;
      Invalidate();
      ghost var s1 := Step(s, WriteFlag(writer, enabled));
      RunTwo(s, WriteFlag(writer, enabled), Action.Invalidate(writer));
    }
  }

  // ---------------------------------------------------------------- the protocol

  /** A value the stored flag took, and when. */
  datatype Write = Write(at: real, value: bool)

  /** What a session's snapshot shows of the flag, and when it was opened. */
  datatype Snapshot = Snapshot(value: bool, at: real)

  /** Where one call of `is_enabled` has got to; `start` is the clock reading it took first. */
  datatype Call =
    | Started(start: real, session: nat)
    | Missed(start: real, session: nat)
    | Loaded(start: real, value: bool)
    | Returned(start: real, value: bool, end: real)

  /** `log` records every value the stored flag has had; `pending` are writers that have written but not yet
      dropped the cache. A writer of another process is one that never does. `sessions` are those that have
      queried, and `age` bounds how long before a call its session may have done so. */
  datatype State = State(
    clock: real, log: seq<Write>, cache: Cache, calls: map<nat, Call>, pending: set<nat>,
    sessions: map<nat, Snapshot>, age: real)

  datatype Action =
    | Tick(to: real)
    | Open(session: nat)
    | Begin(id: nat, session: nat)
    | Check(id: nat)
    | Fetch(id: nat)
    | Store(id: nat)
    | WriteFlag(writer: nat, on: bool)
    | Invalidate(writer: nat)

  function StoredFlag(s: State): bool
    requires s.log != []
  {
    s.log[|s.log| - 1].value
  }

  /** The session has not queried yet, or not too long ago. */
  predicate MayBegin(s: State, session: nat) {
    session in s.sessions ==> s.clock - s.sessions[session].at <= s.age
  }

  /** What a query of the session sees of the flag: its snapshot, or the stored flag if this is its first. */
  function Seen(s: State, session: nat): bool
    requires s.log != []
  {
    if session in s.sessions then s.sessions[session].value else StoredFlag(s)
  }

  /** A session's first query opens its snapshot. */
  function Opened(s: State, session: nat): map<nat, Snapshot>
    requires s.log != []
  {
    if session in s.sessions then s.sessions else s.sessions[session := Snapshot(StoredFlag(s), s.clock)]
  }

  /** One atomic step. An action whose thread is not at that point changes nothing. */
  function Step(s: State, a: Action): State {
    match a
    case Tick(to) =>
      if s.clock <= to then s.(clock := to) else s
    case Open(session) =>
      if s.log != [] then s.(sessions := Opened(s, session)) else s
    case Begin(id, session) =>
      if id !in s.calls && MayBegin(s, session) then s.(calls := s.calls[id := Started(s.clock, session)]) else s
    case Check(id) =>
      if id in s.calls && s.calls[id].Started? then
        var c := s.calls[id];
        match Lookup(s.cache, c.start)
        case Some(v) => s.(calls := s.calls[id := Returned(c.start, v, s.clock)])
        case None => s.(calls := s.calls[id := Missed(c.start, c.session)])
      else s
    case Fetch(id) =>
      if id in s.calls && s.calls[id].Missed? && s.log != [] then
        var c := s.calls[id];
        s.(calls := s.calls[id := Loaded(c.start, Seen(s, c.session))], sessions := Opened(s, c.session))
      else s
    case Store(id) =>
      if id in s.calls && s.calls[id].Loaded? then
        var c := s.calls[id];
        s.(cache := Cache(Some(c.value), c.start),
           calls := s.calls[id := Returned(c.start, c.value, s.clock)])
      else s
    case WriteFlag(w, on) =>
      if w !in s.pending then
        s.(log := s.log + [Write(s.clock, on)], pending := s.pending + {w})
      else s
    case Invalidate(w) =>
      if w in s.pending then s.(cache := EMPTY_CACHE, pending := s.pending - {w}) else s
  }

  function Run(s: State, acts: seq<Action>): State
    decreases |acts|
  {
    if acts == [] then s else Run(Step(s, acts[0]), acts[1..])
  }

  lemma RunTwo(s: State, a: Action, b: Action)
    ensures Run(s, [a, b]) == Step(Step(s, a), b)
  {
    assert [a, b][1..] == [b];
    assert Run(Step(s, a), [b]) == Step(Step(s, a), b);
  }

  lemma RunFour(s: State, a: Action, b: Action, c: Action, d: Action)
    ensures Run(s, [a, b, c, d]) == Step(Step(Step(Step(s, a), b), c), d)
  {
    assert [a, b, c, d][1..] == [b, c, d];
    assert [b, c, d][1..] == [c, d];
    RunTwo(Step(Step(s, a), b), c, d);
  }

  lemma {:induction false} RunConcat(s: State, a: seq<Action>, b: seq<Action>)
    ensures Run(s, a + b) == Run(Run(s, a), b)
    decreases |a|
  {
    if a == [] {
      assert a + b == b;
    } else {
      assert (a + b)[1..] == a[1..] + b;
      RunConcat(Step(s, a[0]), a[1..], b);
    }
  }

  lemma RunOne(s: State, a: Action)
    ensures Run(s, [a]) == Step(s, a)
  {
    assert [a][1..] == [];
  }

  /** A call that finds nothing young in the cache reads from its session. */
  lemma CallReads(s: State, id: nat, session: nat)
    requires s.log != [] && id !in s.calls && MayBegin(s, session) && Lookup(s.cache, s.clock).None?
    ensures Run(s, [Begin(id, session), Check(id), Fetch(id)])
            == s.(calls := s.calls[id := Loaded(s.clock, Seen(s, session))], sessions := Opened(s, session))
  {
    var s1 := Step(s, Begin(id, session));
    var s2 := Step(s1, Check(id));
    assert [Begin(id, session), Check(id), Fetch(id)][1..] == [Check(id), Fetch(id)];
    RunTwo(s1, Check(id), Fetch(id));
    assert s2 == s.(calls := s.calls[id := Missed(s.clock, session)]);
    assert Step(s2, Fetch(id)).calls == s.calls[id := Loaded(s.clock, Seen(s, session))];
  }

  /** And, left alone, stores and returns what it has read. */
  lemma CallAnswers(s: State, id: nat, session: nat)
    requires s.log != [] && id !in s.calls && MayBegin(s, session) && Lookup(s.cache, s.clock).None?
    ensures Run(s, WholeCall(id, session))
            == s.(cache := Cache(Some(Seen(s, session)), s.clock),
                  calls := s.calls[id := Returned(s.clock, Seen(s, session), s.clock)],
                  sessions := Opened(s, session))
  {
    RunConcat(s, [Begin(id, session), Check(id), Fetch(id)], [Store(id)]);
    CallReads(s, id, session);
    var read := Run(s, [Begin(id, session), Check(id), Fetch(id)]);
    RunOne(read, Store(id));
    assert Step(read, Store(id)).calls == s.calls[id := Returned(s.clock, Seen(s, session), s.clock)];
  }

  /** A toggle, left alone, adds one write and drops the cache. */
  lemma ToggleDone(s: State, w: nat, on: bool)
    requires w !in s.pending
    ensures Run(s, [WriteFlag(w, on), Invalidate(w)]) == s.(log := s.log + [Write(s.clock, on)], cache := EMPTY_CACHE)
  {
    RunTwo(s, WriteFlag(w, on), Invalidate(w));
    assert s.pending + {w} - {w} == s.pending;
  }

  function WholeCall(id: nat, session: nat): seq<Action> {
    [Begin(id, session), Check(id), Fetch(id)] + [Store(id)]
  }

  ghost predicate Init(s: State) {
    && |s.log| == 1 && s.log[0].at <= s.clock && 0.0 <= s.age
    && s.cache == EMPTY_CACHE && s.calls == map[] && s.pending == {} && s.sessions == map[]
  }

  // ---------------------------------------------------------------- what a value may be

  /** The stored flag was `v` at instant `t` (at the instant of a write it was both values). */
  ghost predicate FlagAt(log: seq<Write>, t: real, v: bool) {
    exists i :: HoldsFrom(log, i, t, v)
  }

  ghost predicate HoldsFrom(log: seq<Write>, i: int, t: real, v: bool) {
    && 0 <= i < |log| && log[i].value == v && log[i].at <= t
    && (i + 1 < |log| ==> t <= log[i + 1].at)
  }

  /** The flag was `v` at some instant later than `after` and no later than `until`. */
  ghost predicate Held(log: seq<Write>, after: real, until: real, v: bool) {
    exists t :: after < t <= until && FlagAt(log, t, v)
  }

  /** The flag was `v` at some instant of the closed span. */
  ghost predicate HeldSince(log: seq<Write>, from: real, until: real, v: bool) {
    exists t :: from <= t <= until && FlagAt(log, t, v)
  }

  ghost predicate LogOrdered(log: seq<Write>, clock: real) {
    && log != []
    && (forall i, j :: 0 <= i < j < |log| ==> log[i].at <= log[j].at)
    && (forall i :: 0 <= i < |log| ==> log[i].at <= clock)
  }

  /** How far back a call's answer can lie. */
  function Reach(s: State): real {
    TTL_SECONDS + s.age
  }

  /** A snapshot shows the flag as it was when it was opened. */
  ghost predicate SnapshotFits(s: State, x: Snapshot) {
    x.at <= s.clock && FlagAt(s.log, x.at, x.value)
  }

  /** A call has a snapshot of no more than `age` before it; the value it carries was the flag's since then, and
      what it returned was true inside its own staleness window. */
  ghost predicate CallFits(s: State, c: Call) {
    && c.start <= s.clock
    && match c
       case Started(start, session) => session in s.sessions ==> start - s.age <= s.sessions[session].at
       case Missed(start, session) => session in s.sessions ==> start - s.age <= s.sessions[session].at
       case Loaded(start, value) => HeldSince(s.log, start - s.age, s.clock, value)
       case Returned(start, value, end) => end <= s.clock && Held(s.log, start - Reach(s), end, value)
  }

  ghost predicate CacheFits(s: State) {
    s.cache.value.Some? ==> HeldSince(s.log, s.cache.at - s.age, s.clock, s.cache.value.value)
  }

  ghost predicate Inv(s: State) {
    && LogOrdered(s.log, s.clock) && 0.0 <= s.age
    && CacheFits(s)
    && (forall k :: k in s.sessions ==> SnapshotFits(s, s.sessions[k]))
    && (forall id :: id in s.calls ==> CallFits(s, s.calls[id]))
  }

  lemma FlagAtSurvives(log: seq<Write>, w: Write, t: real, v: bool)
    requires FlagAt(log, t, v) && t <= w.at
    ensures FlagAt(log + [w], t, v)
  {
    var i :| HoldsFrom(log, i, t, v);
    assert HoldsFrom(log + [w], i, t, v);
  }

  lemma CurrentFlag(s: State)
    requires LogOrdered(s.log, s.clock)
    ensures FlagAt(s.log, s.clock, StoredFlag(s))
  {
    assert HoldsFrom(s.log, |s.log| - 1, s.clock, StoredFlag(s));
  }

  /** What was true up to now stays true as time passes and of the longer log. */
  lemma CallFitsLater(s: State, n: State, c: Call)
    requires CallFits(s, c) && s.clock <= n.clock && n.age == s.age && n.sessions == s.sessions
    requires forall t, v :: t <= s.clock && FlagAt(s.log, t, v) ==> FlagAt(n.log, t, v)
    ensures CallFits(n, c)
  {
    if c.Loaded? {
      var t :| c.start - s.age <= t <= s.clock && FlagAt(s.log, t, c.value);
      assert FlagAt(n.log, t, c.value);
    }
    if c.Returned? {
      var t :| c.start - Reach(s) < t <= c.end && FlagAt(s.log, t, c.value);
      assert FlagAt(n.log, t, c.value);
    }
  }

  lemma CacheFitsLater(s: State, n: State)
    requires CacheFits(s) && s.clock <= n.clock && n.age == s.age && n.cache == s.cache
    requires forall t, v :: t <= s.clock && FlagAt(s.log, t, v) ==> FlagAt(n.log, t, v)
    ensures CacheFits(n)
  {
    if s.cache.value.Some? {
      var v := s.cache.value.value;
      var t :| s.cache.at - s.age <= t <= s.clock && FlagAt(s.log, t, v);
      assert FlagAt(n.log, t, v);
    }
  }

  lemma SnapshotFitsLater(s: State, n: State, x: Snapshot)
    requires SnapshotFits(s, x) && s.clock <= n.clock
    requires forall t, v :: t <= s.clock && FlagAt(s.log, t, v) ==> FlagAt(n.log, t, v)
    ensures SnapshotFits(n, x)
  {
  }

  lemma TimeKeepsInv(s: State, n: State)
    requires Inv(s) && LogOrdered(n.log, n.clock) && s.clock <= n.clock && n.age == s.age
    requires n.cache == s.cache && n.calls == s.calls && n.sessions == s.sessions
    requires forall t, v :: t <= s.clock && FlagAt(s.log, t, v) ==> FlagAt(n.log, t, v)
    ensures Inv(n)
  {
    CacheFitsLater(s, n);
    forall id | id in s.calls
      ensures CallFits(n, s.calls[id])
    {
      CallFitsLater(s, n, s.calls[id]);
    }
    forall k | k in s.sessions
      ensures SnapshotFits(n, s.sessions[k])
    {
      SnapshotFitsLater(s, n, s.sessions[k]);
    }
  }

  lemma WriteKeepsInv(s: State, w: nat, on: bool)
    requires Inv(s)
    ensures Inv(Step(s, WriteFlag(w, on)))
  {
    var entry := Write(s.clock, on);
    forall t, v | t <= s.clock && FlagAt(s.log, t, v)
      ensures FlagAt(s.log + [entry], t, v)
    {
      FlagAtSurvives(s.log, entry, t, v);
    }
    TimeKeepsInv(s, s.(log := s.log + [entry]));
  }

  /** Opening a snapshot disturbs no call: one on that session has begun by now. */
  lemma OpenKeepsInv(s: State, session: nat)
    requires Inv(s)
    ensures Inv(s.(sessions := Opened(s, session)))
  {
    CurrentFlag(s);
  }

  /** What a call reads from its session was the flag's value no more than `age` before the call. */
  lemma SeenFits(s: State, c: Call)
    requires Inv(s) && c.Missed? && CallFits(s, c)
    ensures HeldSince(s.log, c.start - s.age, s.clock, Seen(s, c.session))
  {
    CurrentFlag(s);
    if c.session in s.sessions {
      assert SnapshotFits(s, s.sessions[c.session]);
    }
  }

  /** One call moving on, with the sessions and the log as they were, keeps the others fitting. */
  lemma CallMoves(s: State, id: nat, c: Call)
    requires Inv(s) && CallFits(s, c)
    ensures Inv(s.(calls := s.calls[id := c]))
  {
  }

  lemma CheckKeepsInv(s: State, id: nat)
    requires Inv(s) && id in s.calls && s.calls[id].Started?
    ensures Inv(Step(s, Check(id)))
  {
    var c := s.calls[id];
    assert CallFits(s, c);
    if Lookup(s.cache, c.start).Some? {
      var v := s.cache.value.value;
      var t :| s.cache.at - s.age <= t <= s.clock && FlagAt(s.log, t, v);
      assert Held(s.log, c.start - Reach(s), s.clock, v);
      CallMoves(s, id, Returned(c.start, v, s.clock));
    } else {
      CallMoves(s, id, Missed(c.start, c.session));
    }
  }

  lemma FetchKeepsInv(s: State, id: nat)
    requires Inv(s) && id in s.calls && s.calls[id].Missed?
    ensures Inv(Step(s, Fetch(id)))
  {
    var c := s.calls[id];
    assert CallFits(s, c);
    SeenFits(s, c);
    OpenKeepsInv(s, c.session);
    CallMoves(s.(sessions := Opened(s, c.session)), id, Loaded(c.start, Seen(s, c.session)));
  }

  lemma StoreKeepsInv(s: State, id: nat)
    requires Inv(s) && id in s.calls && s.calls[id].Loaded?
    ensures Inv(Step(s, Store(id)))
  {
    var c := s.calls[id];
    assert CallFits(s, c);
    var t :| c.start - s.age <= t <= s.clock && FlagAt(s.log, t, c.value);
    assert Held(s.log, c.start - Reach(s), s.clock, c.value);
    CallMoves(s, id, Returned(c.start, c.value, s.clock));
  }

  /** Every step of every thread keeps the invariant, the racing store after an invalidation included:
      the stamp a reader stores is older than its database read, never younger. */
  lemma StepKeepsInv(s: State, a: Action)
    requires Inv(s)
    ensures Inv(Step(s, a))
  {
    match a
    case Tick(to) => TimeKeepsInv(s, Step(s, a));
    case WriteFlag(w, on) => WriteKeepsInv(s, w, on);
    case Open(session) => OpenKeepsInv(s, session);
    case Check(id) => if id in s.calls && s.calls[id].Started? { CheckKeepsInv(s, id); }
    case Fetch(id) => if id in s.calls && s.calls[id].Missed? { FetchKeepsInv(s, id); }
    case Store(id) => if id in s.calls && s.calls[id].Loaded? { StoreKeepsInv(s, id); }
    case Begin(id, session) => if MayBegin(s, session) { CallMoves(s, id, Started(s.clock, session)); }
    case Invalidate(w) =>
  }

  lemma {:induction false} RunKeepsInv(s: State, acts: seq<Action>)
    requires Inv(s)
    ensures Inv(Run(s, acts)) && Run(s, acts).age == s.age
    decreases |acts|
  {
    if acts != [] {
      StepKeepsInv(s, acts[0]);
      RunKeepsInv(Step(s, acts[0]), acts[1..]);
    }
  }

  /** Under every interleaving of any number of readers, writers and sessions, each returned value was the stored
      flag's at some instant later than (call start minus ten seconds minus `age`) and no later than the return. */
  lemma EveryAnswerIsFresh(s: State, acts: seq<Action>, id: nat)
    requires Init(s)
    requires id in Run(s, acts).calls && Run(s, acts).calls[id].Returned?
    ensures var end := Run(s, acts); var c := end.calls[id];
            Held(end.log, c.start - 10.0 - s.age, c.end, c.value)
  {
    RunKeepsInv(s, acts);
    assert CallFits(Run(s, acts), Run(s, acts).calls[id]);
  }

  /** A window that opens at write k or later and closes before the next write only saw write k's value. */
  lemma WindowAfterWrite(log: seq<Write>, clock: real, k: nat, after: real, until: real, v: bool)
    requires LogOrdered(log, clock) && Held(log, after, until, v)
    requires k < |log| && log[k].at <= after && (k + 1 < |log| ==> until < log[k + 1].at)
    ensures v == log[k].value
  {
    var t :| after < t <= until && FlagAt(log, t, v);
    var i :| HoldsFrom(log, i, t, v);
    assert i == k;
  }

  /** A call that starts at least TTL and `age` after write k and returns before the next write answers write k's
      value, even when a reader in flight stored an older value after the invalidation. */
  lemma SettledAfterTtl(s: State, acts: seq<Action>, id: nat, k: nat)
    requires Init(s)
    requires id in Run(s, acts).calls && Run(s, acts).calls[id].Returned?
    requires var end := Run(s, acts); var c := end.calls[id];
             && k < |end.log|
             && end.log[k].at + TTL_SECONDS + s.age <= c.start
             && (k + 1 < |end.log| ==> c.end < end.log[k + 1].at)
    ensures Run(s, acts).calls[id].value == Run(s, acts).log[k].value
  {
    EveryAnswerIsFresh(s, acts, id);
    RunKeepsInv(s, acts);
    var end := Run(s, acts);
    var c := end.calls[id];
    WindowAfterWrite(end.log, end.clock, k, c.start - TTL_SECONDS - s.age, c.end, c.value);
  }

  // ---------------------------------------------------------------- immediate visibility

  ghost predicate NoWrites(acts: seq<Action>) {
    forall i :: 0 <= i < |acts| ==> !acts[i].WriteFlag?
  }

  /** From here on, and until the next write, every call that has not begun yet answers the stored flag. */
  ghost predicate ImmediatelyVisible(s: State)
    requires s.log != []
  {
    forall acts: seq<Action>, id: nat ::
      NoWrites(acts) && id !in s.calls && id in Run(s, acts).calls && Run(s, acts).calls[id].Returned?
      ==> Run(s, acts).calls[id].value == StoredFlag(s)
  }

  /** The call is on its way to store something else than the stored flag. */
  predicate IsStale(s: State, c: Call)
    requires s.log != []
  {
    match c
    case Started(_, session) => Seen(s, session) != StoredFlag(s)
    case Missed(_, session) => Seen(s, session) != StoredFlag(s)
    case Loaded(_, value) => value != StoredFlag(s)
    case Returned(_, _, _) => false
  }

  /** A reader that read, or will read from its session, the old value, started less than TTL ago by its own stamp
      and has yet to store it. */
  predicate CarriesStale(s: State, id: nat)
    requires s.log != []
  {
    id in s.calls && IsStale(s, s.calls[id]) && s.clock - s.calls[id].start < TTL_SECONDS
  }

  /** A session opened before the write that may yet ask. */
  predicate MayAskStale(s: State, session: nat)
    requires s.log != []
  {
    session in s.sessions && s.sessions[session].value != StoredFlag(s) && MayBegin(s, session)
  }

  /** `since` is the instant of the invalidation, `known` the calls that were open then. */
  ghost predicate Clean(s: State, since: real, known: set<nat>) {
    && s.log != [] && since <= s.clock
    && (s.cache.value.Some? && s.cache.value.value != StoredFlag(s) ==> TTL_SECONDS <= since - s.cache.at)
    && (forall k :: k in s.sessions && s.sessions[k].value != StoredFlag(s) ==> s.age < since - s.sessions[k].at)
    && (forall id :: id in s.calls ==> CleanCall(s, since, s.calls[id], id in known))
  }

  ghost predicate CleanCall(s: State, since: real, c: Call, known: bool)
    requires s.log != []
  {
    && (IsStale(s, c) ==> TTL_SECONDS <= since - c.start)
    && (!known ==> since <= c.start && (c.Returned? ==> c.value == StoredFlag(s)))
  }

  /** A session opened now shows the stored flag, so no call on it becomes stale. */
  lemma OpenKeepsClean(s: State, session: nat, since: real, known: set<nat>)
    requires Clean(s, since, known)
    ensures Clean(s.(sessions := Opened(s, session)), since, known)
  {
    var n := s.(sessions := Opened(s, session));
    forall id | id in n.calls
      ensures CleanCall(n, since, n.calls[id], id in known)
    {
      assert CleanCall(s, since, s.calls[id], id in known);
    }
  }

  lemma CallKeepsClean(s: State, a: Action, since: real, known: set<nat>)
    requires Clean(s, since, known) && (a.Begin? || a.Check? || a.Store?)
    ensures Clean(Step(s, a), since, known)
  {
    var n := Step(s, a);
    forall id | id in n.calls
      ensures CleanCall(n, since, n.calls[id], id in known)
    {
      if id in s.calls {
        assert CleanCall(s, since, s.calls[id], id in known);
      }
    }
  }

  lemma FetchKeepsClean(s: State, id: nat, since: real, known: set<nat>)
    requires Clean(s, since, known) && id in s.calls && s.calls[id].Missed?
    ensures Clean(Step(s, Fetch(id)), since, known)
  {
    assert CleanCall(s, since, s.calls[id], id in known);
    OpenKeepsClean(s, s.calls[id].session, since, known);
  }

  lemma PauseKeepsClean(s: State, a: Action, since: real, known: set<nat>)
    requires Clean(s, since, known) && (a.Tick? || a.Invalidate?)
    ensures Clean(Step(s, a), since, known)
  {
    var n := Step(s, a);
    forall id | id in n.calls
      ensures CleanCall(n, since, n.calls[id], id in known)
    {
      assert CleanCall(s, since, s.calls[id], id in known);
    }
  }

  lemma StepKeepsClean(s: State, a: Action, since: real, known: set<nat>)
    requires Clean(s, since, known) && !a.WriteFlag?
    ensures Clean(Step(s, a), since, known) && Step(s, a).log == s.log
  {
    match a
    case Open(session) => OpenKeepsClean(s, session, since, known);
    case Fetch(id) => if id in s.calls && s.calls[id].Missed? { FetchKeepsClean(s, id, since, known); }
    case Tick(to) => PauseKeepsClean(s, a, since, known);
    case Invalidate(w) => PauseKeepsClean(s, a, since, known);
    case WriteFlag(w, on) =>
    case Begin(id, session) => CallKeepsClean(s, a, since, known);
    case Check(id) => CallKeepsClean(s, a, since, known);
    case Store(id) => CallKeepsClean(s, a, since, known);
  }

  lemma {:induction false} CleanStays(s: State, acts: seq<Action>, since: real, known: set<nat>)
    requires Clean(s, since, known) && NoWrites(acts)
    ensures Clean(Run(s, acts), since, known) && StoredFlag(Run(s, acts)) == StoredFlag(s)
    decreases |acts|
  {
    if acts != [] {
      StepKeepsClean(s, acts[0], since, known);
      CleanStays(Step(s, acts[0]), acts[1..], since, known);
    }
  }

  /** With the cache just dropped, the change is visible at once to every later call exactly when no reader is
      on its way to store the old value and no session opened before the write may yet ask. The file's docstring
      promises it without either condition. */
  lemma VisibleAtOnceIff(s: State)
    requires Inv(s) && s.cache == EMPTY_CACHE
    ensures ImmediatelyVisible(s)
            <==> && (forall id :: id in s.calls ==> !CarriesStale(s, id))
                 && (forall k :: k in s.sessions ==> !MayAskStale(s, k))
  {
    if exists j :: j in s.calls && CarriesStale(s, j) {
      var j :| j in s.calls && CarriesStale(s, j);
      var k := FreshNat(s.calls.Keys);
      var session := FreshNat(s.sessions.Keys);
      StaleStoreSeen(s, j, k, session);
    } else if exists k :: k in s.sessions && MayAskStale(s, k) {
      var k :| k in s.sessions && MayAskStale(s, k);
      var id := FreshNat(s.calls.Keys);
      StaleSessionSeen(s, k, id);
    } else {
      NothingStaleIsVisible(s);
    }
  }

  lemma NothingStaleIsVisible(s: State)
    requires Inv(s) && s.cache == EMPTY_CACHE
    requires forall id :: id in s.calls ==> !CarriesStale(s, id)
    requires forall k :: k in s.sessions ==> !MayAskStale(s, k)
    ensures ImmediatelyVisible(s)
  {
    forall id | id in s.calls
      ensures CleanCall(s, s.clock, s.calls[id], id in s.calls.Keys)
    {
      assert !CarriesStale(s, id);
    }
    forall k | k in s.sessions && s.sessions[k].value != StoredFlag(s)
      ensures s.age < s.clock - s.sessions[k].at
    {
      assert !MayAskStale(s, k);
    }
    forall acts: seq<Action>, id: nat | NoWrites(acts) && id !in s.calls
      && id in Run(s, acts).calls && Run(s, acts).calls[id].Returned?
      ensures Run(s, acts).calls[id].value == StoredFlag(s)
    {
      CleanStays(s, acts, s.clock, s.calls.Keys);
      assert CleanCall(Run(s, acts), s.clock, Run(s, acts).calls[id], id in s.calls.Keys);
    }
  }

  /** The racing store: the reader finishes, and the next call after the invalidation answers the old value. */
  lemma StaleStoreSeen(s: State, j: nat, k: nat, session: nat)
    requires Inv(s) && s.cache == EMPTY_CACHE && CarriesStale(s, j) && k !in s.calls && session !in s.sessions
    ensures !ImmediatelyVisible(s)
  {
    var first, second := [Check(j), Fetch(j), Store(j)], [Begin(k, session), Check(k)];
    var acts := first + second;
    RunConcat(s, first, second);
    var stale := Stored(s, j);
    var r := Run(s, first);
    RunTwo(r, Begin(k, session), Check(k));
    assert Run(s, acts).calls[k] == Returned(s.clock, stale, s.clock);
    assert NoWrites(acts);
  }

  /** A stale reader runs to its end: what it stores is stale, under its own stamp. */
  lemma Stored(s: State, j: nat) returns (stale: bool)
    requires s.log != [] && s.cache == EMPTY_CACHE && CarriesStale(s, j)
    ensures stale != StoredFlag(s)
    ensures var r := Run(s, [Check(j), Fetch(j), Store(j)]);
            && r.cache == Cache(Some(stale), s.calls[j].start)
            && r.calls.Keys == s.calls.Keys && r.sessions == s.sessions
            && r.clock == s.clock && r.age == s.age
  {
    var s1 := Step(s, Check(j));
    var s2 := Step(s1, Fetch(j));
    assert [Check(j), Fetch(j), Store(j)][1..] == [Fetch(j), Store(j)];
    RunTwo(s1, Fetch(j), Store(j));
    stale := s2.calls[j].value;
  }

  /** A session opened before the write asks after it: nobody was in flight, and the answer is the old value. */
  lemma StaleSessionSeen(s: State, session: nat, id: nat)
    requires Inv(s) && s.cache == EMPTY_CACHE && MayAskStale(s, session) && id !in s.calls
    ensures !ImmediatelyVisible(s)
  {
    var acts := WholeCall(id, session);
    CallAnswers(s, id, session);
    assert Run(s, acts).calls[id].value != StoredFlag(s);
    assert NoWrites(acts);
  }

  /** With no reader in flight at the invalidation and no session that sees the old value, the first call after it
      answers the new one. */
  lemma QuietToggleIsImmediate(s: State, acts: seq<Action>, id: nat)
    requires Inv(s) && s.cache == EMPTY_CACHE
    requires forall j :: j in s.calls ==> s.calls[j].Returned?
    requires forall k :: k in s.sessions ==> s.sessions[k].value == StoredFlag(s)
    requires NoWrites(acts) && id !in s.calls
    requires id in Run(s, acts).calls && Run(s, acts).calls[id].Returned?
    ensures Run(s, acts).calls[id].value == StoredFlag(s)
  {
    NothingStaleIsVisible(s);
  }

  /** A reader reads, and the flag is toggled before it stores. */
  function Raced(s: State): seq<Action>
    requires s.log != []
  {
    [Begin(0, 0), Check(0), Fetch(0)] + [WriteFlag(0, !StoredFlag(s)), Invalidate(0)]
  }

  lemma AfterRace(s: State)
    requires Init(s)
    ensures Run(s, Raced(s)) == s.(
              calls := map[0 := Loaded(s.clock, StoredFlag(s))],
              sessions := map[0 := Snapshot(StoredFlag(s), s.clock)],
              log := s.log + [Write(s.clock, !StoredFlag(s))])
  {
    var reading := [Begin(0, 0), Check(0), Fetch(0)];
    RunConcat(s, reading, [WriteFlag(0, !StoredFlag(s)), Invalidate(0)]);
    assert Run(s, reading)
      == s.(calls := map[0 := Loaded(s.clock, StoredFlag(s))], sessions := map[0 := Snapshot(StoredFlag(s), s.clock)])
    by {
      CallReads(s, 0, 0);
    }
    ToggleDone(Run(s, reading), 0, !StoredFlag(s));
  }

  /** The protocol reaches the racing state, so the first condition above is not idle. */
  lemma RaceIsReachable(s: State)
    requires Init(s)
    ensures var r := Run(s, Raced(s));
            && Inv(r) && r.cache == EMPTY_CACHE && r.pending == {}
            && StoredFlag(r) != StoredFlag(s) && !ImmediatelyVisible(r)
  {
    AfterRace(s);
    RunKeepsInv(s, Raced(s));
    StaleStoreSeen(Run(s, Raced(s)), 0, 1, 1);
  }

  // ---------------------------------------------------------------- a session that outlives a toggle

  /** A session queries, and the flag is toggled. */
  function Toggled(s: State): (acts: seq<Action>)
    requires s.log != []
  {
    [Open(0)] + [WriteFlag(0, !StoredFlag(s)), Invalidate(0)]
  }

  lemma AfterToggle(s: State)
    requires Init(s)
    ensures Run(s, Toggled(s)) == s.(
              sessions := map[0 := Snapshot(StoredFlag(s), s.clock)],
              log := s.log + [Write(s.clock, !StoredFlag(s))])
  {
    RunConcat(s, [Open(0)], [WriteFlag(0, !StoredFlag(s)), Invalidate(0)]);
    RunOne(s, Open(0));
    ToggleDone(Step(s, Open(0)), 0, !StoredFlag(s));
  }

  /** The protocol reaches a state with nobody in flight in which the toggle is not visible at once, so the second
      condition above is not idle either. */
  lemma OldSessionIsReachable(s: State)
    requires Init(s)
    ensures var r := Run(s, Toggled(s));
            && Inv(r) && r.cache == EMPTY_CACHE && r.calls == map[] && r.pending == {}
            && StoredFlag(r) != StoredFlag(s) && !ImmediatelyVisible(r)
  {
    AfterToggle(s);
    RunKeepsInv(s, Toggled(s));
    StaleSessionSeen(Run(s, Toggled(s)), 0, 0);
  }

  /** The bound the file states: no answer is staler than TTL, in any run. */
  ghost predicate TtlHolds(s: State) {
    forall acts: seq<Action>, id: nat ::
      id in Run(s, acts).calls && Run(s, acts).calls[id].Returned? ==> AnswersWithinTtl(Run(s, acts), id)
  }

  ghost predicate AnswersWithinTtl(s: State, id: nat)
    requires id in s.calls && s.calls[id].Returned?
  {
    var c := s.calls[id];
    Held(s.log, c.start - TTL_SECONDS, c.end, c.value)
  }

  /** A call on the old session, as late as it may begin. */
  lemma OldSessionAnswers(s: State, r: State)
    requires Init(s) && r == Run(s, Toggled(s))
    ensures var late := Run(r, [Tick(s.clock + s.age)] + WholeCall(0, 0));
            && late.clock == s.clock + s.age && late.log == r.log
            && late.cache == Cache(Some(StoredFlag(s)), s.clock + s.age)
            && late.calls.Keys == {0} && late.sessions.Keys == {0}
  {
    var tick := Tick(s.clock + s.age);
    AfterToggle(s);
    RunConcat(r, [tick], WholeCall(0, 0));
    RunOne(r, tick);
    CallAnswers(Step(r, tick), 0, 0);
  }

  /** A call on a session of its own that finds the cached value still young. */
  lemma CachedAnswer(s: State, at: real)
    requires s.cache.value.Some? && s.clock <= at && at - s.cache.at < TTL_SECONDS
    requires 1 !in s.calls && 1 !in s.sessions
    ensures var end := Run(s, [Tick(at)] + [Begin(1, 1), Check(1)]);
            end.log == s.log && 1 in end.calls && end.calls[1] == Returned(at, s.cache.value.value, at)
  {
    RunConcat(s, [Tick(at)], [Begin(1, 1), Check(1)]);
    RunOne(s, Tick(at));
    RunTwo(Step(s, Tick(at)), Begin(1, 1), Check(1));
  }

  lemma OldValueIsOver(log: seq<Write>, after: real, until: real)
    requires |log| == 2 && log[0].value != log[1].value && log[1].at <= after
    ensures !Held(log, after, until, log[0].value)
  {
  }

  lemma OldSessionBreaksTtl(s: State)
    requires Init(s) && 0.0 < s.age
    ensures !TtlHolds(s)
  {
    var r := Run(s, Toggled(s));
    var slow := [Tick(s.clock + s.age)] + WholeCall(0, 0);
    var left := if s.age < TTL_SECONDS then s.age else TTL_SECONDS;
    var at := s.clock + s.age + TTL_SECONDS - left;
    var last := [Tick(at)] + [Begin(1, 1), Check(1)];
    AfterToggle(s);
    OldSessionAnswers(s, r);
    CachedAnswer(Run(r, slow), at);
    RunConcat(s, Toggled(s), slow + last);
    RunConcat(r, slow, last);
    OldValueIsOver(r.log, at - TTL_SECONDS, at);
    var end := Run(s, Toggled(s) + (slow + last));
    assert !AnswersWithinTtl(end, 1);
  }

  /** No answer of any run is staler than TTL exactly when every call is its session's first query, or as good as. */
  lemma TtlHoldsIff(s: State)
    requires Init(s)
    ensures TtlHolds(s) <==> s.age == 0.0
  {
    if s.age == 0.0 {
      forall acts: seq<Action>, id: nat | id in Run(s, acts).calls && Run(s, acts).calls[id].Returned?
        ensures AnswersWithinTtl(Run(s, acts), id)
      {
        EveryAnswerIsFresh(s, acts, id);
      }
    } else {
      OldSessionBreaksTtl(s);
    }
  }
}
