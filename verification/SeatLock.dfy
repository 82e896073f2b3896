/**
  Guarded adds that overlap (`create_member` and `reactivate_seat` of
  backend/app/services/institute_admin_service.py): each locks the row of its institute, counts, and writes and
  commits under the lock. The count is a plain read, so in a session that has queried before it is taken from the
  snapshot that query opened, as MySQL does by default.
 */
module SeatLock {
  import opened Common
  import opened Seats

  type Users = map<int, User>

  /** Where a request has got to; once it has counted, the check has let it through or not. */
  datatype Phase = Arrived | Holding | Counted(open: bool) | Finished

  /** A request for a seat: an add or a return, its institute, and the snapshot its session has open. */
  datatype Request = Request(event: Event, institute: int, snapshot: Option<Users>, phase: Phase)

  /** `locks` says which request holds an institute's row; `early`, whether a query before the lock opens the
      snapshot that the count will read. */
  datatype State = State(users: Users, locks: map<int, nat>, requests: map<nat, Request>, early: bool)

  datatype Action =
    | Arrive(t: nat, event: Event)
    | Query(t: nat)
    | Lock(t: nat)
    | Count(t: nat)
    | Finish(t: nat)
    | Meanwhile(event: Event)

  function ResourceOf(e: Event): Resource {
    if e.Added? then e.resource else Students
  }

  /** An add of somebody who will take a seat, or the return of a student whose seat was handed back. */
  predicate AsksForSeat(users: Users, e: Event) {
    match e
    case Added(_, u, resource, _) => Takes(u, u.institute, resource)
    case Reactivated(id, _) => id in users && MayReturn(users[id])
    case _ => false
  }

  function InstituteOf(users: Users, e: Event): int
    requires AsksForSeat(users, e)
  {
    if e.Added? then e.user.institute else users[e.id].institute
  }

  /** The row the request writes. */
  function Seated(users: Users, e: Event): Users {
    match e
    case Added(id, u, _, _) => if id in users then users else users[id := u]
    case Reactivated(id, _) => if id in users then users[id := users[id].(state := Active)] else users
    case _ => users
  }

  /** What the count of a request sees of the roster. */
  function Seen(s: State, r: Request): Users {
    if r.snapshot.Some? then r.snapshot.value else s.users
  }

  function LetsThrough(s: State, r: Request): bool
    requires r.event.Added? || r.event.Reactivated?
  {
    Seats.Open(Seen(s, r), r.institute, ResourceOf(r.event), r.event.books)
  }

  /** One step of one request, or another event of the roster, which needs no lock. A step whose request is not at
      that point changes nothing. */
  function Step(s: State, a: Action): State {
    match a
    case Arrive(t, e) =>
      if t !in s.requests && AsksForSeat(s.users, e) then
        s.(requests := s.requests[t := Request(e, InstituteOf(s.users, e), None, Arrived)])
      else s
    case Query(t) =>
      if s.early && t in s.requests && s.requests[t].phase.Arrived? && s.requests[t].snapshot.None? then
        s.(requests := s.requests[t := s.requests[t].(snapshot := Some(s.users))])
      else s
    case Lock(t) =>
      if t in s.requests && s.requests[t].phase.Arrived? && s.requests[t].institute !in s.locks then
        s.(requests := s.requests[t := s.requests[t].(phase := Holding)],
           locks := s.locks[s.requests[t].institute := t])
      else s
    case Count(t) =>
      if && t in s.requests && s.requests[t].phase.Holding?
         && (s.requests[t].event.Added? || s.requests[t].event.Reactivated?) then
        s.(requests := s.requests[t := s.requests[t].(phase := Counted(LetsThrough(s, s.requests[t])))])
      else s
    case Finish(t) =>
      if t in s.requests && s.requests[t].phase.Counted? then
        var r := s.requests[t];
        s.(users := if r.phase.open then Seated(s.users, r.event) else s.users,
           requests := s.requests[t := r.(phase := Finished)],
           locks := s.locks - {r.institute})
      else s
    case Meanwhile(e) =>
      if e.Moved? || e.Freed? || e.Deleted? then s.(users := Seats.Step(s.users, e)) else s
  }

  function Run(s: State, acts: seq<Action>): State
    decreases |acts|
  {
    if acts == [] then s else Run(Step(s, acts[0]), acts[1..])
  }

  lemma {:induction false} RunConcat(s: State, a: seq<Action>, b: seq<Action>)
    ensures Run(s, a + b) == Run(Run(s, a), b)
    decreases |a|
  {
    if a == [] {
      assert a + b == b;
    } else {
      assert (a + b)[1..] == a[1..] + b;
      RunConcat(Step(s, a[0]), a[1..], b);
    }
  }

  ghost predicate Init(s: State) {
    s.locks == map[] && s.requests == map[]
  }

  // ---------------------------------------------------------------- a count no older than the lock

  /** The request asks for a seat of its institute and resource, whoever moved or left since it arrived. */
  ghost predicate Places(users: Users, r: Request) {
    match r.event
    case Added(_, u, resource, _) => Takes(u, r.institute, resource) && u.institute == r.institute
    case Reactivated(id, _) => id in users && users[id].role == Student && users[id].institute == r.institute
    case _ => false
  }

  /** A request that has counted holds its institute's row, and what it counted is still so. */
  ghost predicate RequestFits(s: State, t: nat, r: Request) {
    && Places(s.users, r) && r.snapshot.None?
    && (r.phase.Holding? || r.phase.Counted? ==> r.institute in s.locks && s.locks[r.institute] == t)
    && (r.phase.Counted? && r.phase.open ==> LetsThrough(s, r))
  }

  ghost predicate Inv(s: State) {
    !s.early && forall t :: t in s.requests ==> RequestFits(s, t, s.requests[t])
  }

  function Max(a: int, b: int): int {
    if a < b then b else a
  }

  /** Writing the row takes one seat, of the request's own institute and resource. */
  lemma SeatedCounts(users: Users, r: Request, institute: int, resource: Resource)
    requires Places(users, r)
    ensures Occupied(Seated(users, r.event), institute, resource)
            <= Occupied(users, institute, resource)
               + if institute == r.institute && resource == ResourceOf(r.event) then 1 else 0
  {
    match r.event
    case Added(id, u, _, _) =>
      if id !in users {
        AddedOccupant(users, id, u, institute, resource);
      }
    case Reactivated(id, _) =>
      ChangedOccupant(users, id, users[id].(state := Active), institute, resource);
  }

  lemma SeatedPlaces(users: Users, e: Event, r: Request)
    requires Places(users, r)
    ensures Places(Seated(users, e), r)
  {
  }

  /** The other events take no seat. */
  lemma MeanwhileCounts(users: Users, e: Event, institute: int, resource: Resource)
    requires e.Moved? || e.Freed? || e.Deleted?
    ensures Occupied(Seats.Step(users, e), institute, resource) <= Occupied(users, institute, resource)
  {
    StepConservesSeats(users, e, institute, resource);
  }

  lemma MeanwhileKeepsInv(s: State, e: Event)
    requires Inv(s) && (e.Moved? || e.Freed? || e.Deleted?)
    ensures Inv(Step(s, Meanwhile(e)))
  {
    var n := Step(s, Meanwhile(e));
    forall t | t in n.requests
      ensures RequestFits(n, t, n.requests[t])
    {
      var r := s.requests[t];
      assert RequestFits(s, t, r);
      MeanwhileCounts(s.users, e, r.institute, ResourceOf(r.event));
    }
  }

  /** The row written under one institute's lock leaves what the holders of other locks have counted. */
  lemma FinishKeepsInv(s: State, t: nat)
    requires Inv(s) && t in s.requests && s.requests[t].phase.Counted?
    ensures Inv(Step(s, Finish(t)))
  {
    var n := Step(s, Finish(t));
    var done := s.requests[t];
    assert RequestFits(s, t, done);
    forall u | u in n.requests
      ensures RequestFits(n, u, n.requests[u])
    {
      var r := s.requests[u];
      assert RequestFits(s, u, r);
      SeatedPlaces(s.users, done.event, r);
      if u != t && r.institute != done.institute {
        SeatedCounts(s.users, done, r.institute, ResourceOf(r.event));
      }
    }
  }

  lemma StepKeepsInv(s: State, a: Action)
    requires Inv(s)
    ensures Inv(Step(s, a))
  {
    match a
    case Meanwhile(e) => if e.Moved? || e.Freed? || e.Deleted? { MeanwhileKeepsInv(s, e); }
    case Finish(t) => if t in s.requests && s.requests[t].phase.Counted? { FinishKeepsInv(s, t); }
    case _ => RequestMoves(s, a);
  }

  lemma RequestMoves(s: State, a: Action)
    requires Inv(s) && !a.Meanwhile? && !a.Finish?
    ensures Inv(Step(s, a))
  {
    var n := Step(s, a);
    forall t | t in n.requests
      ensures RequestFits(n, t, n.requests[t])
    {
      if t in s.requests {
        assert RequestFits(s, t, s.requests[t]);
      }
    }
  }

  // ---------------------------------------------------------------- the cap

  /** Every request for a seat here is checked against a limit of at most so much. */
  ghost predicate LimitsAtMost(s: State, institute: int, resource: Resource, limit: int) {
    forall t :: t in s.requests ==> LimitAtMost(s.requests[t], institute, resource, limit)
  }

  ghost predicate LimitAtMost(r: Request, institute: int, resource: Resource, limit: int) {
    r.institute == institute && ResourceOf(r.event) == resource && (r.event.Added? || r.event.Reactivated?) ==>
      var checked := EffectiveLimit(r.event.books, resource);
      checked.Some? ==> checked.value <= limit
  }

  /** Requests stay, with what they ask for. */
  lemma RequestStays(s: State, a: Action, t: nat)
    requires t in s.requests
    ensures var n := Step(s, a);
            && t in n.requests && n.requests[t].event == s.requests[t].event
            && n.requests[t].institute == s.requests[t].institute
  {
  }

  lemma {:induction false} LimitsBefore(s: State, acts: seq<Action>, institute: int, resource: Resource, limit: int)
    requires LimitsAtMost(Run(s, acts), institute, resource, limit)
    ensures LimitsAtMost(s, institute, resource, limit)
    decreases |acts|
  {
    if acts != [] {
      var n := Step(s, acts[0]);
      LimitsBefore(n, acts[1..], institute, resource, limit);
      forall t | t in s.requests
        ensures LimitAtMost(s.requests[t], institute, resource, limit)
      {
        RequestStays(s, acts[0], t);
        assert LimitAtMost(n.requests[t], institute, resource, limit);
      }
    }
  }

  lemma StepKeepsCap(s: State, a: Action, institute: int, resource: Resource, limit: int, cap: int)
    requires Inv(s) && LimitsAtMost(s, institute, resource, limit) && limit <= cap
    requires Occupied(s.users, institute, resource) <= cap
    ensures Occupied(Step(s, a).users, institute, resource) <= cap
  {
    match a
    case Meanwhile(e) =>
      if e.Moved? || e.Freed? || e.Deleted? {
        MeanwhileCounts(s.users, e, institute, resource);
      }
    case Finish(t) =>
      if t in s.requests && s.requests[t].phase.Counted? {
        assert RequestFits(s, t, s.requests[t]) && LimitAtMost(s.requests[t], institute, resource, limit);
        SeatedCounts(s.users, s.requests[t], institute, resource);
      }
    case _ =>
  }

  /** While every count is no older than its lock, no interleaving of requests seats more than were seated at the
      start or than the limit allows. */
  lemma {:induction false} FreshCountsKeepCap(
    s: State, acts: seq<Action>, institute: int, resource: Resource, limit: int, cap: int)
    requires Inv(s) && LimitsAtMost(Run(s, acts), institute, resource, limit) && limit <= cap
    requires Occupied(s.users, institute, resource) <= cap
    ensures Occupied(Run(s, acts).users, institute, resource) <= cap
    decreases |acts|
  {
    if acts != [] {
      LimitsBefore(s, acts, institute, resource, limit);
      StepKeepsCap(s, acts[0], institute, resource, limit, cap);
      StepKeepsInv(s, acts[0]);
      FreshCountsKeepCap(Step(s, acts[0]), acts[1..], institute, resource, limit, cap);
    }
  }

  // ---------------------------------------------------------------- a count older than the lock

  /** Somebody new who takes a seat, and an agreement that allows so many. */
  function NewUser(institute: int, resource: Resource): User {
    User(institute, if resource.Students? then Student else Instructor, false, Active)
  }

  function Agreement(limit: int): Books {
    Books(Some(Institute(true, Some(limit), Some(limit))), Running, [])
  }

  function AddOf(id: int, institute: int, resource: Resource, limit: int): Event {
    Added(id, NewUser(institute, resource), resource, Agreement(limit))
  }

  /** The request has queried and waits, while the roster it saw had a seat left. */
  ghost predicate Waits(s: State, t: nat, institute: int, resource: Resource, limit: int) {
    && t in s.requests && s.requests[t].phase.Arrived? && s.requests[t].institute == institute
    && s.requests[t].event == AddOf(t, institute, resource, limit) && !resource.Unknown?
    && s.requests[t].snapshot.Some? && Occupied(s.requests[t].snapshot.value, institute, resource) < limit
  }

  lemma AskAndQuery(s: State, t: nat, institute: int, resource: Resource, limit: int)
    requires s.early && t !in s.requests && !resource.Unknown? && Occupied(s.users, institute, resource) < limit
    ensures var e := AddOf(t, institute, resource, limit); var n := Run(s, [Arrive(t, e)] + [Query(t)]);
            && n == s.(requests := s.requests[t := Request(e, institute, Some(s.users), Arrived)])
            && Waits(n, t, institute, resource, limit)
  {
    var e := AddOf(t, institute, resource, limit);
    RunConcat(s, [Arrive(t, e)], [Query(t)]);
    RunOne(s, Arrive(t, e));
    RunOne(Step(s, Arrive(t, e)), Query(t));
  }

  lemma RunOne(s: State, a: Action)
    ensures Run(s, [a]) == Step(s, a)
  {
    assert [a][1..] == [];
  }

  /** It locks, counts in its old snapshot and writes its row. */
  lemma LockCountWrite(s: State, t: nat, institute: int, resource: Resource, limit: int)
    requires Waits(s, t, institute, resource, limit) && institute !in s.locks && t !in s.users
    ensures var n := Run(s, [Lock(t)] + ([Count(t)] + [Finish(t)])); var r := s.requests[t];
            && n.users == s.users[t := NewUser(institute, resource)]
            && n.locks == s.locks && n.early == s.early
            && n.requests == s.requests[t := r.(phase := Finished)]
  {
    var s1 := Step(s, Lock(t));
    var s2 := Step(s1, Count(t));
    RunConcat(s, [Lock(t)], [Count(t)] + [Finish(t)]);
    RunConcat(s1, [Count(t)], [Finish(t)]);
    RunOne(s, Lock(t));
    RunOne(s1, Count(t));
    RunOne(s2, Finish(t));
    assert s2.requests[t].phase == Counted(true);
    assert s.locks[institute := t] - {institute} == s.locks;
  }

  /** What a run of new requests, numbered from `base`, leaves of the others. */
  ghost predicate OthersKept(s: State, n: State, base: nat) {
    && n.locks == s.locks && n.early == s.early
    && (forall t :: t in s.requests ==> t in n.requests && n.requests[t] == s.requests[t])
    && (forall t :: t in n.requests ==> t in s.requests || base <= t)
    && (forall id :: id in n.users ==> id in s.users || base <= id)
  }

  /** Nothing is numbered `base` or above. */
  ghost predicate Below(s: State, base: nat) {
    (forall t :: t in s.requests ==> t < base) && (forall id :: id in s.users ==> id < base)
  }

  /** One more request around a run of others: it queries before them and writes after them. */
  lemma AroundOthers(
    s: State, waiting: State, crowded: State, end: State, base: nat, institute: int, resource: Resource, limit: int)
    requires Below(s, base) && institute !in s.locks && !resource.Unknown?
    requires var e := AddOf(base, institute, resource, limit);
             waiting == s.(requests := s.requests[base := Request(e, institute, Some(s.users), Arrived)])
    requires Occupied(s.users, institute, resource) < limit
    requires OthersKept(waiting, crowded, base + 1) && LimitsAtMost(crowded, institute, resource, limit)
    requires end == Run(crowded, [Lock(base)] + ([Count(base)] + [Finish(base)]))
    ensures OthersKept(s, end, base) && LimitsAtMost(end, institute, resource, limit)
    ensures Occupied(end.users, institute, resource) == Occupied(crowded.users, institute, resource) + 1
  {
    assert Waits(crowded, base, institute, resource, limit);
    LockCountWrite(crowded, base, institute, resource, limit);
    AddedOccupant(crowded.users, base, NewUser(institute, resource), institute, resource);
    forall t | t in end.requests
      ensures LimitAtMost(end.requests[t], institute, resource, limit)
    {
      assert LimitAtMost(crowded.requests[t], institute, resource, limit);
    }
  }

  /** Any number of requests that have all queried while a seat was left get a seat each. */
  lemma {:induction false} Overfill(
    s: State, n: nat, base: nat, institute: int, resource: Resource, limit: int) returns (acts: seq<Action>)
    requires s.early && institute !in s.locks && !resource.Unknown? && Occupied(s.users, institute, resource) < limit
    requires Below(s, base) && LimitsAtMost(s, institute, resource, limit)
    ensures var end := Run(s, acts);
            && Occupied(end.users, institute, resource) == Occupied(s.users, institute, resource) + n
            && OthersKept(s, end, base) && LimitsAtMost(end, institute, resource, limit)
    decreases n
  {
    if n == 0 {
      acts := [];
    } else {
      var asks := [Arrive(base, AddOf(base, institute, resource, limit))] + [Query(base)];
      var writes := [Lock(base)] + ([Count(base)] + [Finish(base)]);
      AskAndQuery(s, base, institute, resource, limit);
      var waiting := Run(s, asks);
      var inner := Overfill(waiting, n - 1, base + 1, institute, resource, limit);
      var crowded := Run(waiting, inner);
      AroundOthers(s, waiting, crowded, Run(crowded, writes), base, institute, resource, limit);
      acts := asks + (inner + writes);
      RunConcat(s, asks, inner + writes);
      RunConcat(waiting, inner, writes);
    }
  }

  /** Two are enough where one seat is left: both count it free, and both sit down. */
  lemma TwoAddsOverfill(s: State, institute: int, resource: Resource, limit: int) returns (acts: seq<Action>)
    requires Init(s) && s.early && !resource.Unknown? && Occupied(s.users, institute, resource) == limit - 1
    ensures LimitsAtMost(Run(s, acts), institute, resource, limit)
    ensures Occupied(Run(s, acts).users, institute, resource) == limit + 1
  {
    var above := FreshInt(s.users.Keys);
    acts := Overfill(s, 2, if above < 0 then 0 else above, institute, resource, limit);
  }

  /** Enough accounts are deleted that a seat is left. */
  lemma {:induction false} MakeRoom(s: State, institute: int, resource: Resource, limit: int)
    returns (acts: seq<Action>)
    requires 0 < limit
    ensures var n := Run(s, acts);
            && Occupied(n.users, institute, resource) < limit && n.users.Keys == s.users.Keys
            && n.locks == s.locks && n.requests == s.requests && n.early == s.early
    decreases Occupied(s.users, institute, resource)
  {
    if Occupied(s.users, institute, resource) < limit {
      acts := [];
    } else {
      var id := MemberOf(Occupants(s.users, institute, resource));
      var a := Meanwhile(Deleted(id));
      StepConservesSeats(s.users, Deleted(id), institute, resource);
      RunOne(s, a);
      var rest := MakeRoom(Step(s, a), institute, resource, limit);
      acts := [a] + rest;
      RunConcat(s, [a], rest);
    }
  }

  /** Over every interleaving, no more are seated than at the start or than the limit allows. */
  ghost predicate CapHolds(s: State, institute: int, resource: Resource, limit: int) {
    forall acts: seq<Action> :: LimitsAtMost(Run(s, acts), institute, resource, limit) ==>
      StaysUnder(s, Run(s, acts), institute, resource, limit)
  }

  ghost predicate StaysUnder(s: State, n: State, institute: int, resource: Resource, limit: int) {
    Occupied(n.users, institute, resource) <= Max(Occupied(s.users, institute, resource), limit)
  }

  lemma OldCountsBreakCap(s: State, institute: int, resource: Resource, limit: int)
    requires Init(s) && s.early && !resource.Unknown? && 0 < limit
    ensures !CapHolds(s, institute, resource, limit)
  {
    var cap := Max(Occupied(s.users, institute, resource), limit);
    var room := MakeRoom(s, institute, resource, limit);
    var roomy := Run(s, room);
    var above := FreshInt(roomy.users.Keys);
    var fill := Overfill(
      roomy, cap - Occupied(roomy.users, institute, resource) + 1, if above < 0 then 0 else above,
      institute, resource, limit);
    RunConcat(s, room, fill);
    assert !StaysUnder(s, Run(s, room + fill), institute, resource, limit);
  }

  /** The cap holds over every interleaving exactly when no count is older than its lock, or the limit lets nobody
      in at all. That the lock is held from the count to the commit is not enough. */
  lemma CapHoldsIff(s: State, institute: int, resource: Resource, limit: int)
    requires Init(s) && !resource.Unknown?
    ensures CapHolds(s, institute, resource, limit) <==> !s.early || limit <= 0
  {
    if !s.early {
      forall acts: seq<Action> | LimitsAtMost(Run(s, acts), institute, resource, limit)
        ensures StaysUnder(s, Run(s, acts), institute, resource, limit)
      {
        FreshCountsKeepCap(
          s, acts, institute, resource, limit, Max(Occupied(s.users, institute, resource), limit));
      }
    } else if limit <= 0 {
      forall acts: seq<Action> | LimitsAtMost(Run(s, acts), institute, resource, limit)
        ensures StaysUnder(s, Run(s, acts), institute, resource, limit)
      {
        NobodyLetIn(s, acts, institute, resource, limit);
      }
    } else {
      OldCountsBreakCap(s, institute, resource, limit);
    }
  }

  // ---------------------------------------------------------------- a limit that lets nobody in

  /** Under such a limit no request for a seat here is let through, whatever it counts. */
  ghost predicate NobodyOpen(s: State, institute: int, resource: Resource) {
    forall t :: t in s.requests ==> NotOpen(s.users, s.requests[t], institute, resource)
  }

  ghost predicate NotOpen(users: Users, r: Request, institute: int, resource: Resource) {
    && Places(users, r)
    && (r.institute == institute && ResourceOf(r.event) == resource ==> !(r.phase.Counted? && r.phase.open))
  }

  lemma StepAddsNobody(s: State, a: Action, institute: int, resource: Resource)
    requires NobodyOpen(s, institute, resource)
    ensures Occupied(Step(s, a).users, institute, resource) <= Occupied(s.users, institute, resource)
  {
    if a.Finish? && a.t in s.requests {
      assert NotOpen(s.users, s.requests[a.t], institute, resource);
      SeatedCounts(s.users, s.requests[a.t], institute, resource);
    }
    if a.Meanwhile? && (a.event.Moved? || a.event.Freed? || a.event.Deleted?) {
      MeanwhileCounts(s.users, a.event, institute, resource);
    }
  }

  /** No step but its own count changes what a request is let do, and no step unseats the row it is about. */
  lemma StepKeepsPlaces(s: State, a: Action, r: Request)
    requires Places(s.users, r)
    ensures Places(Step(s, a).users, r)
  {
  }

  lemma StepLetsNobodyIn(s: State, a: Action, institute: int, resource: Resource, limit: int)
    requires NobodyOpen(s, institute, resource) && LimitsAtMost(s, institute, resource, limit) && limit <= 0
    ensures NobodyOpen(Step(s, a), institute, resource)
  {
    var n := Step(s, a);
    forall t | t in n.requests
      ensures NotOpen(n.users, n.requests[t], institute, resource)
    {
      if t in s.requests {
        var r := s.requests[t];
        assert NotOpen(s.users, r, institute, resource) && LimitAtMost(r, institute, resource, limit);
        StepKeepsPlaces(s, a, r);
      }
    }
  }

  lemma {:induction false} NobodyLetIn(
    s: State, acts: seq<Action>, institute: int, resource: Resource, limit: int)
    requires NobodyOpen(s, institute, resource) && LimitsAtMost(Run(s, acts), institute, resource, limit) && limit <= 0
    ensures Occupied(Run(s, acts).users, institute, resource) <= Occupied(s.users, institute, resource)
    decreases |acts|
  {
    if acts != [] {
      LimitsBefore(s, acts, institute, resource, limit);
      StepAddsNobody(s, acts[0], institute, resource);
      StepLetsNobodyIn(s, acts[0], institute, resource, limit);
      NobodyLetIn(Step(s, acts[0]), acts[1..], institute, resource, limit);
    }
  }
}
