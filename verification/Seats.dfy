/**
  Seat accounting: the limit check of backend/app/dependencies/limits.py over the seat states of
  backend/app/models/user.py, and the events of the roster that take seats and give them back
  (backend/app/services/institute_admin_service.py).
 */
module Seats {
  import opened Common

  datatype AccessState = Active | Suspended | Expired | Released

  datatype Role = Student | Instructor | OtherRole(name: string)

  datatype User = User(institute: int, role: Role, deleted: bool, state: AccessState)

  datatype Resource = Students | Staff | Unknown(name: string)

  /** A plan's two limits; a missing number counts for nothing. */
  datatype Plan = Plan(studentLimit: Option<int>, staffLimit: Option<int>)

  /** What a check reads besides the users: the institute's row if there is one, the state of its current
      subscription, and the plans of its paid terms (a term may have lost its plan). */
  datatype Institute = Institute(draft: bool, studentLimit: Option<int>, staffLimit: Option<int>)

  datatype TermState = Running | Grace | OtherState

  datatype Books = Books(institute: Option<Institute>, term: TermState, paid: seq<Option<Plan>>)

  datatype Verdict = Allowed | LimitReached(count: nat, limit: int) | NotConfigured | NoSubscription | UnknownResource

  // ---------------------------------------------------------------- counting

  predicate HoldsSeat(u: User) {
    !u.deleted && (u.state == Active || u.state == Suspended || u.state == Expired)
  }

  predicate IsOf(u: User, institute: int, resource: Resource) {
    u.institute == institute
    && match resource
       case Students => u.role == Student
       case Staff => u.role == Instructor
       case Unknown(_) => false
  }

  /** The user takes a seat of this resource at this institute. */
  predicate Takes(u: User, institute: int, resource: Resource) {
    IsOf(u, institute, resource) && HoldsSeat(u)
  }

  function Occupants(users: map<int, User>, institute: int, resource: Resource): set<int> {
    set id | id in users && Takes(users[id], institute, resource)
  }

  function Occupied(users: map<int, User>, institute: int, resource: Resource): nat {
    |Occupants(users, institute, resource)|
  }

  /** Whose rows are counted: the institute's own of that role, not deleted, whose seat was not handed back. */
  ghost function RowsOf(users: map<int, User>, institute: int, role: Role): set<int> {
    set id | id in users && users[id].institute == institute && users[id].role == role
             && !users[id].deleted && users[id].state != Released
  }

  lemma WhoIsCounted(users: map<int, User>, institute: int)
    ensures Occupied(users, institute, Students) == |RowsOf(users, institute, Student)|
    ensures Occupied(users, institute, Staff) == |RowsOf(users, institute, Instructor)|
  {
    forall id
      ensures id in Occupants(users, institute, Students) <==> id in RowsOf(users, institute, Student)
      ensures id in Occupants(users, institute, Staff) <==> id in RowsOf(users, institute, Instructor)
    {
    }
    assert Occupants(users, institute, Students) == RowsOf(users, institute, Student);
    assert Occupants(users, institute, Staff) == RowsOf(users, institute, Instructor);
  }

  function LimitOf(p: Plan, resource: Resource): int {
    match resource
    case Students => if p.studentLimit.Some? then p.studentLimit.value else 0
    case Staff => if p.staffLimit.Some? then p.staffLimit.value else 0
    case Unknown(_) => 0
  }

  /** Seats summed over the paid terms. */
  function LimitTotal(paid: seq<Option<Plan>>, resource: Resource): int {
    if paid == [] then 0
    else
      var last := paid[|paid| - 1];
      LimitTotal(paid[..|paid| - 1], resource) + (if last.Some? then LimitOf(last.value, resource) else 0)
  }

  method PlanLimitTotal(paid: seq<Option<Plan>>, resource: Resource) returns (total: int)
    ensures total == LimitTotal(paid, resource)
  {
    total := 0;
    for i := 0 to |paid|
      invariant total == LimitTotal(paid[..i], resource)
    {
      assert paid[..i + 1][..i] == paid[..i];
      if paid[i].None? {
        continue;
      }
      var value := LimitOf(paid[i].value, resource);
      if value != 0 {
        total := total + value;
      }
    }
    assert paid[..|paid|] == paid;
  }

  /** A term adds its plan's own number of students or of staff, a term without plan or number adds nothing, and
      no term is no seat. */
  lemma EachTermAddsItsOwn(
    paid: seq<Option<Plan>>, students: Option<int>, staff: Option<int>, resource: Resource)
    ensures LimitTotal([], resource) == 0 && LimitTotal(paid + [None], resource) == LimitTotal(paid, resource)
    ensures var more := paid + [Some(Plan(students, staff))];
            && LimitTotal(more, Students)
               == LimitTotal(paid, Students) + (if students == None then 0 else students.value)
            && LimitTotal(more, Staff) == LimitTotal(paid, Staff) + (if staff == None then 0 else staff.value)
  {
    assert (paid + [None])[..|paid|] == paid;
    assert (paid + [Some(Plan(students, staff))])[..|paid|] == paid;
  }

  /** A second plan adds its seats to the first's; the order of the terms does not matter. */
  lemma {:induction false} LimitIsAdditive(a: seq<Option<Plan>>, b: seq<Option<Plan>>, resource: Resource)
    ensures LimitTotal(a + b, resource) == LimitTotal(a, resource) + LimitTotal(b, resource)
    decreases |b|
  {
    if b == [] {
      assert a + b == a;
    } else {
      assert (a + b)[..|a + b| - 1] == a + b[..|b| - 1];
      LimitIsAdditive(a, b[..|b| - 1], resource);
    }
  }

  /** Still being onboarded: the agreement's own numbers count. */
  ghost predicate OnDraft(books: Books) {
    books.institute.Some? && books.institute.value.draft
  }

  /** The limit the check compares against, when there is one. */
  function EffectiveLimit(books: Books, resource: Resource): Option<int> {
    if books.institute.Some? && books.institute.value.draft then
      match resource
      case Students => books.institute.value.studentLimit
      case Staff => books.institute.value.staffLimit
      case Unknown(_) => None
    else if books.term.OtherState? then None
    else Some(LimitTotal(books.paid, resource))
  }

  /** A student's seat can be handed back once they can no longer log in, and taken again once handed back. */
  predicate MayRelease(u: User) {
    u.role == Student && !u.deleted && (u.state == Suspended || u.state == Expired)
  }

  predicate MayReturn(u: User) {
    u.role == Student && !u.deleted && u.state == Released
  }

  class Roster {
    var users: map<int, User>

    constructor (users: map<int, User>)
      ensures this.users == users
    {
      this.users := users;
    }

    /** `enforce_limit`: an add may go ahead exactly when there is a limit and it is not yet reached. */
    method EnforceLimit(institute: int, resource: Resource, books: Books) returns (v: Verdict)
      ensures v == Allowed <==>
              && !resource.Unknown?
              && EffectiveLimit(books, resource).Some?
              && Occupied(users, institute, resource) < EffectiveLimit(books, resource).value
      ensures OnDraft(books) && resource == Students ==>
                (v == Allowed <==> && books.institute.value.studentLimit.Some?
                                   && Occupied(users, institute, Students) < books.institute.value.studentLimit.value)
      ensures OnDraft(books) && resource == Staff ==>
                (v == Allowed <==> && books.institute.value.staffLimit.Some?
                                   && Occupied(users, institute, Staff) < books.institute.value.staffLimit.value)
      ensures !OnDraft(books) && (resource == Students || resource == Staff) ==>
                (v == Allowed <==> && (books.term == Running || books.term == Grace)
                                   && Occupied(users, institute, resource) < LimitTotal(books.paid, resource))
      ensures v.UnknownResource? <==> resource.Unknown?
      ensures v.NotConfigured? || v.NoSubscription? <==> !resource.Unknown? && EffectiveLimit(books, resource).None?
      ensures v.NotConfigured? ==> books.institute.Some? && books.institute.value.draft
      ensures v.NoSubscription? ==> books.term.OtherState? && !(books.institute.Some? && books.institute.value.draft)
      ensures v.LimitReached? ==>
                && v.count == Occupied(users, institute, resource)
                && EffectiveLimit(books, resource) == Some(v.limit) && v.limit <= v.count
    {
      if resource.Unknown? {
        return UnknownResource;
      }
      var count := Occupied(users, institute, resource);
      if books.institute.Some? && books.institute.value.draft {
        var draft := books.institute.value;
        var agreed := if resource.Students? then draft.studentLimit else draft.staffLimit;
        if agreed.None? {
          return NotConfigured;
        }
        return if agreed.value <= count then LimitReached(count, agreed.value) else Allowed;
      }
      if books.term.OtherState? {
        return NoSubscription;
      }
      var limit := PlanLimitTotal(books.paid, resource);
      return if limit <= count then LimitReached(count, limit) else Allowed;
    }

    /** A guarded add: the check first, the row after it. */
    method Add(id: int, u: User, resource: Resource, books: Books) returns (v: Verdict)
      requires id !in users && Takes(u, u.institute, resource)
      modifies this
      ensures users == if v == Allowed then old(users)[id := u] else old(users)
      ensures v == Allowed ==>
                && Occupied(users, u.institute, resource) == Occupied(old(users), u.institute, resource) + 1
                && EffectiveLimit(books, resource).Some?
                && Occupied(users, u.institute, resource) <= EffectiveLimit(books, resource).value
    {
      v := EnforceLimit(u.institute, resource, books);
      if v == Allowed {
        AddedOccupant(users, id, u, u.institute, resource);
        users := users[id := u];
      }
    }

    /** A guarded return: a student whose seat was handed back takes one again. */
    method Reactivate(id: int, books: Books) returns (v: Verdict)
      requires id in users && MayReturn(users[id])
      modifies this
      ensures users == if v == Allowed then old(users)[id := old(users)[id].(state := Active)] else old(users)
      ensures v == Allowed ==> var institute := old(users)[id].institute;
                && Occupied(users, institute, Students) == Occupied(old(users), institute, Students) + 1
                && EffectiveLimit(books, Students).Some?
                && Occupied(users, institute, Students) <= EffectiveLimit(books, Students).value
    {
      v := EnforceLimit(users[id].institute, Students, books);
      if v == Allowed {
        ChangedOccupant(users, id, users[id].(state := Active), users[id].institute, Students);
        users := users[id := users[id].(state := Active)];
      }
    }
  }

  /** Two sets that differ at most at one member differ in size by what becomes of it. */
  lemma DifferAtOne(before: set<int>, after: set<int>, id: int)
    requires forall i :: i != id ==> (i in before <==> i in after)
    ensures |after| + (if id in before then 1 else 0) == |before| + (if id in after then 1 else 0)
  {
    var others := before - {id};
    forall i
      ensures i in others <==> i in after - {id}
    {
    }
    assert others == after - {id};
    if id in before {
      assert before == others + {id};
    } else {
      assert before == others;
    }
    if id in after {
      assert after == others + {id};
    } else {
      assert after == others;
    }
  }

  lemma AddedOccupant(users: map<int, User>, id: int, u: User, institute: int, resource: Resource)
    requires id !in users
    ensures Occupied(users[id := u], institute, resource)
            == Occupied(users, institute, resource) + SeatOf(u, institute, resource)
  {
    DifferAtOne(Occupants(users, institute, resource), Occupants(users[id := u], institute, resource), id);
  }

  function SeatOf(u: User, institute: int, resource: Resource): nat {
    if Takes(u, institute, resource) then 1 else 0
  }

  lemma ChangedOccupant(users: map<int, User>, id: int, u: User, institute: int, resource: Resource)
    requires id in users
    ensures Occupied(users[id := u], institute, resource) + SeatOf(users[id], institute, resource)
            == Occupied(users, institute, resource) + SeatOf(u, institute, resource)
  {
    DifferAtOne(Occupants(users, institute, resource), Occupants(users[id := u], institute, resource), id);
  }

  // ---------------------------------------------------------------- runs

  /** What happens to the roster: a guarded add with the books as they stand, a guarded return to a seat handed
      back, a move among the seat-holding states, a seat handed back, an account deleted. */
  datatype Event =
    | Added(id: int, user: User, resource: Resource, books: Books)
    | Reactivated(id: int, books: Books)
    | Moved(id: int, to: AccessState)
    | Freed(id: int)
    | Deleted(id: int)

  /** The limit check lets one more through. */
  predicate Open(users: map<int, User>, institute: int, resource: Resource, books: Books) {
    && EffectiveLimit(books, resource).Some?
    && Occupied(users, institute, resource) < EffectiveLimit(books, resource).value
  }

  /** The event takes a seat, and the check lets it. */
  predicate Passes(users: map<int, User>, e: Event) {
    match e
    case Added(id, u, resource, books) =>
      id !in users && Takes(u, u.institute, resource) && Open(users, u.institute, resource, books)
    case Reactivated(id, books) =>
      id in users && MayReturn(users[id]) && Open(users, users[id].institute, Students, books)
    case _ => false
  }

  /** The roster after the event. */
  function Step(users: map<int, User>, e: Event): map<int, User> {
    match e
    case Added(id, u, _, _) => if Passes(users, e) then users[id := u] else users
    case Reactivated(id, _) => if Passes(users, e) then users[id := users[id].(state := Active)] else users
    case Moved(id, to) =>
      if id in users && HoldsSeat(users[id]) && to != Released then users[id := users[id].(state := to)] else users
    case Freed(id) =>
      if id in users && MayRelease(users[id]) then users[id := users[id].(state := Released)] else users
    case Deleted(id) =>
      if id in users then users[id := users[id].(deleted := true)] else users
  }

  function Run(users: map<int, User>, events: seq<Event>): map<int, User> {
    if events == [] then users else Step(Run(users, events[..|events| - 1]), events[|events| - 1])
  }

  /** The seat an add or a return takes, and the seat a release or a deletion of a seat holder gives back. */
  function TakenBy(users: map<int, User>, e: Event, institute: int, resource: Resource): nat {
    if !Passes(users, e) then 0
    else if e.Added? then SeatOf(e.user, institute, resource)
    else SeatOf(users[e.id].(state := Active), institute, resource)
  }

  function GivenBackBy(users: map<int, User>, e: Event, institute: int, resource: Resource): nat {
    if e.id in users && (e.Deleted? || (e.Freed? && MayRelease(users[e.id])))
    then SeatOf(users[e.id], institute, resource) else 0
  }

  /** The same over a run. */
  function Taken(users: map<int, User>, events: seq<Event>, institute: int, resource: Resource): nat {
    if events == [] then 0
    else
      var n := |events| - 1;
      Taken(users, events[..n], institute, resource)
      + TakenBy(Run(users, events[..n]), events[n], institute, resource)
  }

  function GivenBack(users: map<int, User>, events: seq<Event>, institute: int, resource: Resource): nat {
    if events == [] then 0
    else
      var n := |events| - 1;
      GivenBack(users, events[..n], institute, resource)
      + GivenBackBy(Run(users, events[..n]), events[n], institute, resource)
  }

  /** What can become of an account: only the event's own row changes. A seat is handed back only by a student who is
      suspended or expired, and taken again only by a student whose seat was handed back, when the check lets them;
      no account comes or is deleted any other way than by its event. */
  lemma WhatBecomesOf(users: map<int, User>, e: Event, id: int)
    ensures id != e.id ==> (id in Step(users, e) <==> id in users) && (id in users ==> Step(users, e)[id] == users[id])
    ensures id in users ==> id in Step(users, e)
    ensures id !in users && id in Step(users, e) ==>
              && e.Added? && Step(users, e)[id] == e.user
              && Occupied(users, e.user.institute, e.resource) < EffectiveOrNone(e.books, e.resource)
    ensures id in users ==>
              var u, v := users[id], Step(users, e)[id];
              && v == u.(state := v.state, deleted := v.deleted)
              && (v.deleted != u.deleted ==> e.Deleted? && v.deleted)
              && (v.state == Released && u.state != Released ==>
                    e.Freed? && u.role == Student && !u.deleted && (u.state == Suspended || u.state == Expired))
              && (u.state == Released && v.state != Released ==>
                    && e.Reactivated? && u.role == Student && !u.deleted && v.state == Active
                    && Occupied(users, u.institute, Students) < EffectiveOrNone(e.books, Students))
  {
  }

  /** And those that may be handed back or taken again are. */
  lemma SeatsComeAndGo(users: map<int, User>, id: int, books: Books)
    requires id in users && users[id].role == Student && !users[id].deleted
    ensures users[id].state == Suspended || users[id].state == Expired ==>
              Step(users, Freed(id))[id].state == Released
    ensures users[id].state == Released
            && Occupied(users, users[id].institute, Students) < EffectiveOrNone(books, Students) ==>
              Step(users, Reactivated(id, books))[id].state == Active
    ensures Step(users, Deleted(id))[id].deleted
  {
  }

  /** The limit, or none that anyone is below. */
  ghost function EffectiveOrNone(books: Books, resource: Resource): int {
    var limit := EffectiveLimit(books, resource);
    if limit.Some? then limit.value else -1
  }

  lemma StepConservesSeats(users: map<int, User>, e: Event, institute: int, resource: Resource)
    ensures Occupied(Step(users, e), institute, resource) + GivenBackBy(users, e, institute, resource)
            == Occupied(users, institute, resource) + TakenBy(users, e, institute, resource)
  {
    match e
    case Added(id, u, _, _) =>
      if Passes(users, e) {
        AddedOccupant(users, id, u, institute, resource);
      }
    case Reactivated(id, _) =>
      if id in users {
        ChangedOccupant(users, id, users[id].(state := Active), institute, resource);
      }
    case Moved(id, to) =>
      if id in users {
        ChangedOccupant(users, id, users[id].(state := to), institute, resource);
      }
    case Freed(id) =>
      if id in users {
        ChangedOccupant(users, id, users[id].(state := Released), institute, resource);
      }
    case Deleted(id) =>
      if id in users {
        ChangedOccupant(users, id, users[id].(deleted := true), institute, resource);
      }
  }

  /** Seats are conserved: over any run, what is occupied is what was, plus the adds and returns, minus the releases
      and deletions of seat holders. A move among the seat-holding states never mints or loses one. */
  lemma {:induction false} SeatsAreConserved(
    users: map<int, User>, events: seq<Event>, institute: int, resource: Resource)
    ensures Occupied(Run(users, events), institute, resource) + GivenBack(users, events, institute, resource)
            == Occupied(users, institute, resource) + Taken(users, events, institute, resource)
    decreases |events|
  {
    if events != [] {
      var n := |events| - 1;
      SeatsAreConserved(users, events[..n], institute, resource);
      StepConservesSeats(Run(users, events[..n]), events[n], institute, resource);
    }
  }

  /** The limit the event was checked against, if it took a seat of this resource here. */
  function CheckedLimit(users: map<int, User>, e: Event, institute: int, resource: Resource): Option<int> {
    if TakenBy(users, e, institute, resource) == 0 then None
    else EffectiveLimit(e.books, if e.Added? then e.resource else Students)
  }

  /** The greatest of what was occupied at the start and the limits that seats were taken under since. */
  function Ceiling(users: map<int, User>, events: seq<Event>, institute: int, resource: Resource): int {
    if events == [] then Occupied(users, institute, resource)
    else
      var n := |events| - 1;
      var before := Ceiling(users, events[..n], institute, resource);
      var limit := CheckedLimit(Run(users, events[..n]), events[n], institute, resource);
      if limit.Some? && before < limit.value then limit.value else before
  }

  /** A user takes seats of one resource only, so the seat was checked for what it is. */
  lemma CheckedForWhatItIs(users: map<int, User>, e: Event, institute: int, resource: Resource)
    requires TakenBy(users, e, institute, resource) > 0
    ensures TakenBy(users, e, institute, resource) == 1
    ensures e.Added? ==> e.resource == resource && e.user.institute == institute
    ensures e.Reactivated? ==> resource == Students && users[e.id].institute == institute
    ensures CheckedLimit(users, e, institute, resource).Some?
    ensures Occupied(users, institute, resource) < CheckedLimit(users, e, institute, resource).value
  {
  }

  /** No run seats more than were seated at the start or than some limit allowed at which a seat was taken:
      releasing, reactivating, suspending and expiring in any order print no seats. */
  lemma {:induction false} NeverAboveCeiling(
    users: map<int, User>, events: seq<Event>, institute: int, resource: Resource)
    ensures Occupied(Run(users, events), institute, resource) <= Ceiling(users, events, institute, resource)
    decreases |events|
  {
    if events != [] {
      var n := |events| - 1;
      var now := Run(users, events[..n]);
      NeverAboveCeiling(users, events[..n], institute, resource);
      StepConservesSeats(now, events[n], institute, resource);
      if TakenBy(now, events[n], institute, resource) > 0 {
        CheckedForWhatItIs(now, events[n], institute, resource);
      }
    }
  }

  /** Every seat the run takes here is taken under a limit of at most so much. */
  ghost predicate LimitsAtMost(
    users: map<int, User>, events: seq<Event>, institute: int, resource: Resource, limit: int)
  {
    forall i :: 0 <= i < |events| ==>
      var checked := CheckedLimit(Run(users, events[..i]), events[i], institute, resource);
      checked.Some? ==> checked.value <= limit
  }

  /** An institute that starts within a limit, and whose limit never goes above it, stays within it. */
  lemma {:induction false} AddsStayWithinLimit(
    users: map<int, User>, events: seq<Event>, institute: int, resource: Resource, limit: int)
    requires Occupied(users, institute, resource) <= limit && LimitsAtMost(users, events, institute, resource, limit)
    ensures Occupied(Run(users, events), institute, resource) <= limit
    ensures Ceiling(users, events, institute, resource) <= limit
    decreases |events|
  {
    NeverAboveCeiling(users, events, institute, resource);
    if events != [] {
      var n := |events| - 1;
      assert LimitsAtMost(users, events[..n], institute, resource, limit) by {
        assert forall i :: 0 <= i < n ==> events[..n][i] == events[i] && events[..n][..i] == events[..i];
      }
      AddsStayWithinLimit(users, events[..n], institute, resource, limit);
    }
  }
}
