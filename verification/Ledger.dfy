/**
  The module-entitlement ledger of migration 0084: every purchase ever made is replayed, oldest first,
  into one expiry per (user, module). Buying adds the plan's days to each of its modules, starting from
  whichever is later, the purchase or what was left of the module.
 */
module Ledger {
  import opened Common

  /** Instants are microseconds, the resolution of a datetime. */
  const DAY: int := 86_400_000_000

  /** A row of the replay query. The start column is never null; `place` is where its cell sorts, `startsAt` the
      instant the code reads from it. Text that is no date reads as `None` and counts as bought now. */
  datatype Purchase = Purchase(user: int, id: int, plan: int, place: int, startsAt: Option<int>)

  datatype Grant = Grant(boughtAt: int, days: int, subscription: int)

  datatype Entry = Entry(expiresAt: int, grantedDays: int, lastSubscription: int)

  type Key = (int, int)

  /** The three tables that say what a plan contains. */
  datatype Contents = Contents(
    planModules: seq<(int, int)>, planCourses: seq<(int, int)>, courseModules: seq<(int, int)>)

  // ---------------------------------------------------------------- what a plan contains

  ghost predicate PlanContains(t: Contents, plan: int, moduleId: int) {
    || (plan, moduleId) in t.planModules
    || exists course :: (plan, course) in t.planCourses && (course, moduleId) in t.courseModules
  }

  function Matches(plan: int, course: int, courseModules: seq<(int, int)>): seq<(int, int)> {
    if courseModules == [] then []
    else (if courseModules[0].0 == course then [(plan, courseModules[0].1)] else [])
         + Matches(plan, course, courseModules[1..])
  }

  /** The rows of the plan_courses / course_modules join. */
  function Join(planCourses: seq<(int, int)>, courseModules: seq<(int, int)>): seq<(int, int)> {
    if planCourses == [] then []
    else Matches(planCourses[0].0, planCourses[0].1, courseModules) + Join(planCourses[1..], courseModules)
  }

  lemma {:induction false} MatchesRows(plan: int, course: int, rows: seq<(int, int)>, p: int, m: int)
    ensures (p, m) in Matches(plan, course, rows) <==> p == plan && (course, m) in rows
  {
    if rows != [] {
      MatchesRows(plan, course, rows[1..], p, m);
      assert rows == [rows[0]] + rows[1..];
    }
  }

  lemma {:induction false} JoinRows(planCourses: seq<(int, int)>, courseModules: seq<(int, int)>, p: int, m: int)
    ensures (p, m) in Join(planCourses, courseModules)
            <==> exists course :: (p, course) in planCourses && (course, m) in courseModules
  {
    if planCourses != [] {
      MatchesRows(planCourses[0].0, planCourses[0].1, courseModules, p, m);
      JoinRows(planCourses[1..], courseModules, p, m);
      assert planCourses == [planCourses[0]] + planCourses[1..];
      assert (p, m) in Matches(planCourses[0].0, planCourses[0].1, courseModules)
        ==> (p, planCourses[0].1) in planCourses;
    }
  }

  type PlanModules = pm: map<int, set<int>> | forall p :: p in pm ==> pm[p] != {} witness map[]

  predicate Holds(pm: map<int, set<int>>, plan: int, moduleId: int) {
    plan in pm && moduleId in pm[plan]
  }

  /** `plan_modules.setdefault(plan_id, set()).add(module_id)` over the rows of one query. */
  method AddRows(rows: seq<(int, int)>, before: PlanModules) returns (pm: PlanModules)
    ensures forall p, m :: Holds(pm, p, m) <==> Holds(before, p, m) || (p, m) in rows
  {
    pm := before;
    for i := 0 to |rows|
      invariant forall p, m :: Holds(pm, p, m) <==> Holds(before, p, m) || (p, m) in rows[..i]
    {
      var (plan, moduleId) := rows[i];
      assert rows[..i + 1] == rows[..i] + [rows[i]];
      pm := pm[plan := (if plan in pm then pm[plan] else {}) + {moduleId}];
    }
    assert rows[..|rows|] == rows;
  }

  /** A plan grants its own modules and those of its courses, and nothing else. */
  method BuildPlanModules(t: Contents) returns (pm: PlanModules)
    ensures forall p, m :: Holds(pm, p, m) <==> PlanContains(t, p, m)
  {
    pm := AddRows(t.planModules, map[]);
    pm := AddRows(Join(t.planCourses, t.courseModules), pm);
    forall p, m
      ensures Holds(pm, p, m) <==> PlanContains(t, p, m)
    {
      JoinRows(t.planCourses, t.courseModules, p, m);
    }
  }

  // ---------------------------------------------------------------- one student, one module

  function Max(a: int, b: int): int {
    if a < b then b else a
  }

  /** The rule: start from whichever is later and add the days. */
  function Stack(previous: Option<Entry>, g: Grant): Entry {
    match previous
    case None => Entry(g.boughtAt + g.days * DAY, g.days, g.subscription)
    case Some(e) =>
      Entry(Max(g.boughtAt, e.expiresAt) + g.days * DAY, e.grantedDays + g.days, g.subscription)
  }

  function Fold(gs: seq<Grant>): Option<Entry> {
    if gs == [] then None else Some(Stack(Fold(gs[..|gs| - 1]), gs[|gs| - 1]))
  }

  function DaysOf(durations: map<int, int>, plan: int): int {
    if plan in durations then durations[plan] else 0
  }

  /** The purchase is one of this user's and gives this module some days. */
  predicate Contributes(p: Purchase, pm: PlanModules, durations: map<int, int>, key: Key) {
    p.user == key.0 && Holds(pm, p.plan, key.1) && 0 < DaysOf(durations, p.plan)
  }

  function BoughtAt(p: Purchase, now: int): int {
    if p.startsAt.Some? then p.startsAt.value else now
  }

  function GrantOf(p: Purchase, durations: map<int, int>, now: int): Grant {
    Grant(BoughtAt(p, now), DaysOf(durations, p.plan), p.id)
  }

  /** The grants of one (user, module), in the order of the purchases. */
  function GrantsFor(ps: seq<Purchase>, pm: PlanModules, durations: map<int, int>, now: int, key: Key): (gs: seq<Grant>)
    ensures forall i :: 0 <= i < |gs| ==> 0 < gs[i].days
  {
    if ps == [] then []
    else
      var last := ps[|ps| - 1];
      GrantsFor(ps[..|ps| - 1], pm, durations, now, key)
      + (if Contributes(last, pm, durations, key) then [GrantOf(last, durations, now)] else [])
  }

  /** The ledger holds, for every key at once, exactly the fold over that key's own grants. */
  ghost predicate LedgerIs(
    ledger: map<Key, Entry>, ps: seq<Purchase>, pm: PlanModules, durations: map<int, int>, now: int)
  {
    forall key: Key :: KeyIs(ledger, ps, pm, durations, now, key)
  }

  ghost predicate KeyIs(
    ledger: map<Key, Entry>, ps: seq<Purchase>, pm: PlanModules, durations: map<int, int>, now: int, key: Key)
  {
    EntryIs(ledger, key, Fold(GrantsFor(ps, pm, durations, now, key)))
  }

  ghost predicate EntryIs(ledger: map<Key, Entry>, key: Key, e: Option<Entry>) {
    (key in ledger <==> e.Some?) && (key in ledger ==> ledger[key] == e.value)
  }

  /** The ledger in the middle of one purchase: `g` is stacked onto the modules of `touched` only, on top
      of the grants `so` that every key had before. */
  ghost predicate Midway(ledger: map<Key, Entry>, so: Key -> seq<Grant>, user: int, touched: set<int>, g: Grant) {
    forall key: Key :: EntryIs(ledger, key, Fold(so(key) + OnlyIf(key.0 == user && key.1 in touched, g)))
  }

  function OnlyIf(c: bool, g: Grant): seq<Grant> {
    if c then [g] else []
  }

  lemma MidwayStep(
    ledger: map<Key, Entry>, so: Key -> seq<Grant>, user: int, touched: set<int>, g: Grant, moduleId: int)
    requires Midway(ledger, so, user, touched, g) && moduleId !in touched
    ensures var key := (user, moduleId);
            var entry := if key in ledger then Some(ledger[key]) else None;
            Midway(ledger[key := Stack(entry, g)], so, user, touched + {moduleId}, g)
  {
    var here := (user, moduleId);
    var entry := if here in ledger then Some(ledger[here]) else None;
    var after := ledger[here := Stack(entry, g)];
    forall key: Key
      ensures EntryIs(after, key, Fold(so(key) + OnlyIf(key.0 == user && key.1 in touched + {moduleId}, g)))
    {
      assert EntryIs(ledger, key, Fold(so(key) + OnlyIf(key.0 == user && key.1 in touched, g)));
      if key == here {
        assert so(key) + [] == so(key);
        FoldSnoc(so(key), g);
      }
    }
  }

  /** The body of the inner loop: one module's entry. */
  method GrantModule(before: map<Key, Entry>, key: Key, g: Grant) returns (ledger: map<Key, Entry>)
    ensures ledger == before[key := Stack(if key in before then Some(before[key]) else None, g)]
  {
    var base := if key in before then Max(g.boughtAt, before[key].expiresAt) else g.boughtAt;
    var expiry := base + g.days * DAY;
    if key in before {
      ledger := before[key := Entry(expiry, before[key].grantedDays + g.days, g.subscription)];
    } else {
      ledger := before[key := Entry(expiry, g.days, g.subscription)];
    }
  }

  /** The inner loop: one purchase stacked onto every module of its plan. */
  method StackOnto(before: map<Key, Entry>, user: int, modules: set<int>, g: Grant, ghost so: Key -> seq<Grant>)
    returns (ledger: map<Key, Entry>)
    requires Midway(before, so, user, {}, g)
    ensures Midway(ledger, so, user, modules, g)
  {
    ledger := before;
    var rest := modules;
    ghost var touched := {};
    while rest != {}
      invariant touched + rest == modules && touched !! rest
      invariant Midway(ledger, so, user, touched, g)
    {
      ghost var some := MemberOf(rest);
      var moduleId :| moduleId in rest;
      var key := (user, moduleId);
      MidwayStep(ledger, so, user, touched, g, moduleId);
      ledger := GrantModule(ledger, key, g);
      rest := rest - {moduleId};
      touched := touched + {moduleId};
    }
    assert touched == modules;
  }

  lemma MidwayStarts(
    ledger: map<Key, Entry>, ps: seq<Purchase>, pm: PlanModules, durations: map<int, int>, now: int,
    user: int, g: Grant)
    requires LedgerIs(ledger, ps, pm, durations, now)
    ensures Midway(ledger, (key: Key) => GrantsFor(ps, pm, durations, now, key), user, {}, g)
  {
    var so := (key: Key) => GrantsFor(ps, pm, durations, now, key);
    forall key: Key
      ensures EntryIs(ledger, key, Fold(so(key) + OnlyIf(key.0 == user && key.1 in {}, g)))
    {
      assert so(key) + [] == so(key);
      assert KeyIs(ledger, ps, pm, durations, now, key);
    }
  }

  /** Stacking a purchase onto every module of its plan is the replay of one more row. */
  lemma MidwayEnds(
    ledger: map<Key, Entry>, ps: seq<Purchase>, p: Purchase, pm: PlanModules, durations: map<int, int>, now: int,
    touched: set<int>)
    requires Midway(ledger, (key: Key) => GrantsFor(ps, pm, durations, now, key),
                    p.user, touched, GrantOf(p, durations, now))
    requires touched == if p.plan in pm && 0 < DaysOf(durations, p.plan) then pm[p.plan] else {}
    ensures LedgerIs(ledger, ps + [p], pm, durations, now)
  {
    var so := (key: Key) => GrantsFor(ps, pm, durations, now, key);
    var g := GrantOf(p, durations, now);
    forall key: Key
      ensures KeyIs(ledger, ps + [p], pm, durations, now, key)
    {
      assert (ps + [p])[..|ps|] == ps;
      assert EntryIs(ledger, key, Fold(so(key) + OnlyIf(key.0 == p.user && key.1 in touched, g)));
      assert Contributes(p, pm, durations, key) <==> key.0 == p.user && key.1 in touched;
    }
  }

  /** The body of the outer loop: one purchase. */
  method ReplayOne(
    before: map<Key, Entry>, p: Purchase, pm: PlanModules, durations: map<int, int>, now: int,
    ghost ps: seq<Purchase>) returns (ledger: map<Key, Entry>)
    requires LedgerIs(before, ps, pm, durations, now)
    ensures LedgerIs(ledger, ps + [p], pm, durations, now)
  {
    var g := GrantOf(p, durations, now);
    var modules := if p.plan in pm && 0 < g.days then pm[p.plan] else {};
    MidwayStarts(before, ps, pm, durations, now, p.user, g);
    ledger := StackOnto(before, p.user, modules, g, (key: Key) => GrantsFor(ps, pm, durations, now, key));
    MidwayEnds(ledger, ps, p, pm, durations, now, modules);
  }

  /** The replay loop: one pass over all purchases, updating one dictionary. */
  method Replay(ps: seq<Purchase>, pm: PlanModules, durations: map<int, int>, now: int)
    returns (ledger: map<Key, Entry>)
    ensures LedgerIs(ledger, ps, pm, durations, now)
  {
    ledger := map[];
    assert LedgerIs(ledger, [], pm, durations, now);
    for i := 0 to |ps|
      invariant LedgerIs(ledger, ps[..i], pm, durations, now)
    {
      ledger := ReplayOne(ledger, ps[i], pm, durations, now, ps[..i]);
      assert ps[..i + 1] == ps[..i] + [ps[i]];
    }
    assert ps[..|ps|] == ps;
  }

  // ---------------------------------------------------------------- told by the rows alone

  /** The purchase is the student's, its plan contains the module and has a positive number of days. */
  ghost predicate Buys(p: Purchase, t: Contents, durations: map<int, int>, key: Key) {
    p.user == key.0 && PlanContains(t, p.plan, key.1) && p.plan in durations && 0 < durations[p.plan]
  }

  /** The days of all the purchases that buy the module. */
  ghost function DaysBought(ps: seq<Purchase>, t: Contents, durations: map<int, int>, key: Key): int {
    if ps == [] then 0
    else
      var p := ps[|ps| - 1];
      DaysBought(ps[..|ps| - 1], t, durations, key) + (if Buys(p, t, durations, key) then durations[p.plan] else 0)
  }

  /** The instant of purchase k, or now if it cannot be read, and every day bought from it on, in microseconds. */
  ghost function ReachOfRow(ps: seq<Purchase>, k: int, t: Contents, durations: map<int, int>, now: int, key: Key): int
    requires 0 <= k < |ps|
  {
    (match ps[k].startsAt case Some(at) => at case None => now)
    + DaysBought(ps[k..], t, durations, key) * 86_400_000_000
  }

  /** What the purchase rows, read in their order, make of one key: an entry iff some purchase buys the module, with
      all the days bought and the greatest reach of any of those purchases, and the last of them remembered. */
  ghost predicate RowsMake(
    ledger: map<Key, Entry>, key: Key, t: Contents, ps: seq<Purchase>, durations: map<int, int>, now: int)
  {
    && (key in ledger <==> exists k :: 0 <= k < |ps| && Buys(ps[k], t, durations, key))
    && (key in ledger ==> EntryOfRows(ledger[key], key, t, ps, durations, now))
  }

  ghost predicate EntryOfRows(
    e: Entry, key: Key, t: Contents, ps: seq<Purchase>, durations: map<int, int>, now: int)
  {
    && e.grantedDays == DaysBought(ps, t, durations, key)
    && IsGreatestReach(e.expiresAt, key, t, ps, durations, now)
    && IsLastBought(e.lastSubscription, key, t, ps, durations)
  }

  ghost predicate IsGreatestReach(
    instant: int, key: Key, t: Contents, ps: seq<Purchase>, durations: map<int, int>, now: int)
  {
    && (forall k :: 0 <= k < |ps| && Buys(ps[k], t, durations, key)
          ==> ReachOfRow(ps, k, t, durations, now, key) <= instant)
    && (exists k :: 0 <= k < |ps| && Buys(ps[k], t, durations, key)
          && ReachOfRow(ps, k, t, durations, now, key) == instant)
  }

  ghost predicate IsLastBought(id: int, key: Key, t: Contents, ps: seq<Purchase>, durations: map<int, int>) {
    exists k :: 0 <= k < |ps| && Buys(ps[k], t, durations, key) && ps[k].id == id
      && forall j :: k < j < |ps| ==> !Buys(ps[j], t, durations, key)
  }

  lemma SuffixSnoc(ps: seq<Purchase>, k: nat, t: Contents, durations: map<int, int>, key: Key)
    requires k < |ps|
    ensures var n := |ps| - 1;
            DaysBought(ps[k..], t, durations, key)
            == DaysBought(ps[..n][k..], t, durations, key)
               + if Buys(ps[n], t, durations, key) then durations[ps[n].plan] else 0
  {
    var n := |ps| - 1;
    assert ps[k..][..n - k] == ps[..n][k..];
    assert ps[k..][n - k] == ps[n];
  }

  lemma ReachSkips(ps: seq<Purchase>, k: nat, t: Contents, durations: map<int, int>, now: int, key: Key)
    requires k < |ps| - 1 && !Buys(ps[|ps| - 1], t, durations, key)
    ensures ReachOfRow(ps, k, t, durations, now, key) == ReachOfRow(ps[..|ps| - 1], k, t, durations, now, key)
  {
    SuffixSnoc(ps, k, t, durations, key);
    assert ps[..|ps| - 1][k] == ps[k];
  }

  lemma GreatestReachSkips(
    instant: int, key: Key, t: Contents, ps: seq<Purchase>, durations: map<int, int>, now: int)
    requires ps != [] && !Buys(ps[|ps| - 1], t, durations, key)
    requires IsGreatestReach(instant, key, t, ps[..|ps| - 1], durations, now)
    ensures IsGreatestReach(instant, key, t, ps, durations, now)
  {
    var n := |ps| - 1;
    var init := ps[..n];
    var top :| 0 <= top < n && Buys(init[top], t, durations, key)
               && ReachOfRow(init, top, t, durations, now, key) == instant;
    ReachSkips(ps, top, t, durations, now, key);
    assert init[top] == ps[top];
    forall k | 0 <= k < |ps| && Buys(ps[k], t, durations, key)
      ensures ReachOfRow(ps, k, t, durations, now, key) <= instant
    {
      ReachSkips(ps, k, t, durations, now, key);
      assert init[k] == ps[k];
    }
  }

  lemma LastBoughtSkips(id: int, key: Key, t: Contents, ps: seq<Purchase>, durations: map<int, int>)
    requires ps != [] && !Buys(ps[|ps| - 1], t, durations, key)
    requires IsLastBought(id, key, t, ps[..|ps| - 1], durations)
    ensures IsLastBought(id, key, t, ps, durations)
  {
    var n := |ps| - 1;
    var init := ps[..n];
    var last :| 0 <= last < n && Buys(init[last], t, durations, key) && init[last].id == id
                && forall j :: last < j < n ==> !Buys(init[j], t, durations, key);
    assert init[last] == ps[last];
    forall j | last < j < |ps|
      ensures !Buys(ps[j], t, durations, key)
    {
      if j < n {
        assert init[j] == ps[j];
      }
    }
  }

  /** A row that buys nothing leaves the entry as it was. */
  lemma EntrySkips(e: Entry, key: Key, t: Contents, ps: seq<Purchase>, durations: map<int, int>, now: int)
    requires ps != [] && !Buys(ps[|ps| - 1], t, durations, key)
    requires EntryOfRows(e, key, t, ps[..|ps| - 1], durations, now)
    ensures EntryOfRows(e, key, t, ps, durations, now)
  {
    GreatestReachSkips(e.expiresAt, key, t, ps, durations, now);
    LastBoughtSkips(e.lastSubscription, key, t, ps, durations);
  }

  /** The reach of a purchase as one more is bought after it, and of the last one itself. */
  lemma ReachGrows(ps: seq<Purchase>, k: nat, t: Contents, durations: map<int, int>, now: int, key: Key)
    requires k < |ps| - 1 && Buys(ps[|ps| - 1], t, durations, key)
    ensures ReachOfRow(ps, k, t, durations, now, key)
            == ReachOfRow(ps[..|ps| - 1], k, t, durations, now, key) + durations[ps[|ps| - 1].plan] * 86_400_000_000
  {
    var n := |ps| - 1;
    SuffixSnoc(ps, k, t, durations, key);
    assert ps[..n][k] == ps[k];
    Distribute(DaysBought(ps[..n][k..], t, durations, key), durations[ps[n].plan]);
  }

  lemma Distribute(a: int, b: int)
    ensures (a + b) * 86_400_000_000 == a * 86_400_000_000 + b * 86_400_000_000
  {
  }

  lemma ReachOfLast(ps: seq<Purchase>, t: Contents, durations: map<int, int>, now: int, key: Key)
    requires ps != [] && Buys(ps[|ps| - 1], t, durations, key)
    ensures var p := ps[|ps| - 1];
            ReachOfRow(ps, |ps| - 1, t, durations, now, key)
            == (match p.startsAt case Some(at) => at case None => now) + durations[p.plan] * 86_400_000_000
  {
    var n := |ps| - 1;
    SuffixSnoc(ps, n, t, durations, key);
    assert ps[..n][n..] == [];
  }

  /** A row that buys the module stacks its days onto what the rows before it made. */
  lemma EntryStacks(
    before: Option<Entry>, e: Entry, key: Key, t: Contents, ps: seq<Purchase>, durations: map<int, int>, now: int)
    requires ps != [] && Buys(ps[|ps| - 1], t, durations, key)
    requires before.Some? ==> EntryOfRows(before.value, key, t, ps[..|ps| - 1], durations, now)
    requires before.None? ==> forall k :: 0 <= k < |ps| - 1 ==> !Buys(ps[k], t, durations, key)
    requires var p := ps[|ps| - 1];
             var at := match p.startsAt case Some(i) => i case None => now;
             var base := if before.Some? && at < before.value.expiresAt then before.value.expiresAt else at;
             && e.expiresAt == base + durations[p.plan] * 86_400_000_000
             && e.grantedDays == (if before.Some? then before.value.grantedDays else 0) + durations[p.plan]
             && e.lastSubscription == p.id
    ensures EntryOfRows(e, key, t, ps, durations, now)
  {
    var n := |ps| - 1;
    ReachOfLast(ps, t, durations, now, key);
    forall k | 0 <= k < n
      ensures ps[..n][k] == ps[k] && ReachOfRow(ps, k, t, durations, now, key)
              == ReachOfRow(ps[..n], k, t, durations, now, key) + durations[ps[n].plan] * 86_400_000_000
    {
      ReachGrows(ps, k, t, durations, now, key);
    }
    if before.Some? {
      StackedReach(before.value, e, key, t, ps, durations, now);
    } else {
      NoneBought(ps[..n], t, durations, key);
    }
  }

  lemma StackedReach(
    before: Entry, e: Entry, key: Key, t: Contents, ps: seq<Purchase>, durations: map<int, int>, now: int)
    requires ps != [] && Buys(ps[|ps| - 1], t, durations, key)
    requires EntryOfRows(before, key, t, ps[..|ps| - 1], durations, now)
    requires forall k :: 0 <= k < |ps| - 1 ==>
               ReachOfRow(ps, k, t, durations, now, key)
               == ReachOfRow(ps[..|ps| - 1], k, t, durations, now, key) + durations[ps[|ps| - 1].plan] * 86_400_000_000
    requires var last := ReachOfRow(ps, |ps| - 1, t, durations, now, key);
             var stacked := before.expiresAt + durations[ps[|ps| - 1].plan] * 86_400_000_000;
             e.expiresAt == if last < stacked then stacked else last
    ensures forall k :: 0 <= k < |ps| && Buys(ps[k], t, durations, key)
              ==> ReachOfRow(ps, k, t, durations, now, key) <= e.expiresAt
    ensures exists k :: 0 <= k < |ps| && Buys(ps[k], t, durations, key)
              && ReachOfRow(ps, k, t, durations, now, key) == e.expiresAt
  {
    var n := |ps| - 1;
    var top :| 0 <= top < n && Buys(ps[..n][top], t, durations, key)
               && ReachOfRow(ps[..n], top, t, durations, now, key) == before.expiresAt;
    assert Buys(ps[top], t, durations, key);
    forall k | 0 <= k < |ps| && Buys(ps[k], t, durations, key)
      ensures ReachOfRow(ps, k, t, durations, now, key) <= e.expiresAt
    {
      if k < n {
        assert Buys(ps[..n][k], t, durations, key);
      }
    }
    if e.expiresAt == ReachOfRow(ps, n, t, durations, now, key) {
      assert Buys(ps[n], t, durations, key);
    } else {
      assert ReachOfRow(ps, top, t, durations, now, key) == e.expiresAt;
    }
  }

  lemma {:induction false} NoneBought(ps: seq<Purchase>, t: Contents, durations: map<int, int>, key: Key)
    requires forall k :: 0 <= k < |ps| ==> !Buys(ps[k], t, durations, key)
    ensures DaysBought(ps, t, durations, key) == 0
    decreases |ps|
  {
    if ps != [] {
      NoneBought(ps[..|ps| - 1], t, durations, key);
    }
  }

  lemma ContributesIsBuys(p: Purchase, t: Contents, pm: PlanModules, durations: map<int, int>, key: Key)
    requires Holds(pm, p.plan, key.1) <==> PlanContains(t, p.plan, key.1)
    ensures Contributes(p, pm, durations, key) <==> Buys(p, t, durations, key)
  {
  }

  ghost predicate AnyBuys(ps: seq<Purchase>, t: Contents, durations: map<int, int>, key: Key) {
    exists k :: 0 <= k < |ps| && Buys(ps[k], t, durations, key)
  }

  lemma AnyBuysSnoc(ps: seq<Purchase>, t: Contents, durations: map<int, int>, key: Key)
    requires ps != []
    ensures AnyBuys(ps, t, durations, key)
            <==> AnyBuys(ps[..|ps| - 1], t, durations, key) || Buys(ps[|ps| - 1], t, durations, key)
  {
    var init := ps[..|ps| - 1];
    if AnyBuys(init, t, durations, key) {
      var k :| 0 <= k < |init| && Buys(init[k], t, durations, key);
      assert ps[k] == init[k];
    }
    if AnyBuys(ps, t, durations, key) {
      var k :| 0 <= k < |ps| && Buys(ps[k], t, durations, key);
      assert k < |init| ==> init[k] == ps[k];
    }
  }

  /** A key has an entry exactly when some purchase buys it. */
  lemma {:induction false} EntryIffBought(
    key: Key, t: Contents, ps: seq<Purchase>, pm: PlanModules, durations: map<int, int>, now: int)
    requires forall p, m :: Holds(pm, p, m) <==> PlanContains(t, p, m)
    ensures Fold(GrantsFor(ps, pm, durations, now, key)).Some? <==> AnyBuys(ps, t, durations, key)
    decreases |ps|
  {
    if ps != [] {
      EntryIffBought(key, t, ps[..|ps| - 1], pm, durations, now);
      AnyBuysSnoc(ps, t, durations, key);
      FoldOfLast(ps, pm, durations, now, key);
      ContributesIsBuys(ps[|ps| - 1], t, pm, durations, key);
    }
  }

  /** One more grant, in the row's own columns. */
  lemma StackOfRow(before: Option<Entry>, p: Purchase, durations: map<int, int>, now: int)
    requires p.plan in durations
    ensures var e := Stack(before, GrantOf(p, durations, now));
            var at := match p.startsAt case Some(i) => i case None => now;
            var base := if before.Some? && at < before.value.expiresAt then before.value.expiresAt else at;
            && e.expiresAt == base + durations[p.plan] * 86_400_000_000
            && e.grantedDays == (if before.Some? then before.value.grantedDays else 0) + durations[p.plan]
            && e.lastSubscription == p.id
  {
  }

  /** One key of the ledger, from the rows alone: the fold the replay keeps, read back into the rows' own columns. */
  lemma {:induction false} FoldFromRows(
    key: Key, t: Contents, ps: seq<Purchase>, pm: PlanModules, durations: map<int, int>, now: int)
    requires forall p, m :: Holds(pm, p, m) <==> PlanContains(t, p, m)
    requires Fold(GrantsFor(ps, pm, durations, now, key)).Some?
    ensures EntryOfRows(Fold(GrantsFor(ps, pm, durations, now, key)).value, key, t, ps, durations, now)
    decreases |ps|
  {
    var n := |ps| - 1;
    var before := Fold(GrantsFor(ps[..n], pm, durations, now, key));
    FoldOfLast(ps, pm, durations, now, key);
    ContributesIsBuys(ps[n], t, pm, durations, key);
    if before.Some? {
      FoldFromRows(key, t, ps[..n], pm, durations, now);
    }
    if Buys(ps[n], t, durations, key) {
      FirstOrLater(key, t, ps, pm, durations, now);
      StackOfRow(before, ps[n], durations, now);
      EntryStacks(before, Stack(before, GrantOf(ps[n], durations, now)), key, t, ps, durations, now);
    } else {
      EntrySkips(before.value, key, t, ps, durations, now);
    }
  }

  lemma FirstOrLater(
    key: Key, t: Contents, ps: seq<Purchase>, pm: PlanModules, durations: map<int, int>, now: int)
    requires ps != [] && forall p, m :: Holds(pm, p, m) <==> PlanContains(t, p, m)
    ensures Fold(GrantsFor(ps[..|ps| - 1], pm, durations, now, key)).None?
            ==> forall k :: 0 <= k < |ps| - 1 ==> !Buys(ps[k], t, durations, key)
  {
    EntryIffBought(key, t, ps[..|ps| - 1], pm, durations, now);
    assert forall k :: 0 <= k < |ps| - 1 ==> ps[..|ps| - 1][k] == ps[k];
  }

  /** What the last row of a list adds to a key's fold. */
  lemma FoldOfLast(ps: seq<Purchase>, pm: PlanModules, durations: map<int, int>, now: int, key: Key)
    requires ps != []
    ensures var n := |ps| - 1; var before := Fold(GrantsFor(ps[..n], pm, durations, now, key));
            Fold(GrantsFor(ps, pm, durations, now, key))
            == if Contributes(ps[n], pm, durations, key) then Some(Stack(before, GrantOf(ps[n], durations, now)))
               else before
  {
    var n := |ps| - 1;
    var before := GrantsFor(ps[..n], pm, durations, now, key);
    if Contributes(ps[n], pm, durations, key) {
      FoldSnoc(before, GrantOf(ps[n], durations, now));
    } else {
      assert before + [] == before;
    }
  }

  lemma LedgerFromRows(
    ledger: map<Key, Entry>, key: Key, t: Contents, ps: seq<Purchase>, pm: PlanModules, durations: map<int, int>,
    now: int)
    requires forall p, m :: Holds(pm, p, m) <==> PlanContains(t, p, m)
    requires KeyIs(ledger, ps, pm, durations, now, key)
    ensures RowsMake(ledger, key, t, ps, durations, now)
  {
    EntryIffBought(key, t, ps, pm, durations, now);
    if key in ledger {
      FoldFromRows(key, t, ps, pm, durations, now);
    }
  }

  /** The whole backfill over the tables. */
  method Upgrade(t: Contents, ps: seq<Purchase>, durations: map<int, int>, now: int)
    returns (ledger: map<Key, Entry>, pm: PlanModules)
    ensures forall p, m :: Holds(pm, p, m) <==> PlanContains(t, p, m)
    ensures LedgerIs(ledger, ps, pm, durations, now)
    ensures forall key: Key :: RowsMake(ledger, key, t, ps, durations, now)
  {
    pm := BuildPlanModules(t);
    if |pm| == 0 {
      ledger := map[];
      forall key: Key
        ensures KeyIs(ledger, ps, pm, durations, now, key)
      {
        NothingHeldNothingGranted(ps, pm, durations, now, key);
      }
    } else {
      ledger := Replay(ps, pm, durations, now);
    }
    forall key: Key
      ensures RowsMake(ledger, key, t, ps, durations, now)
    {
      assert KeyIs(ledger, ps, pm, durations, now, key);
      LedgerFromRows(ledger, key, t, ps, pm, durations, now);
    }
  }

  lemma {:induction false} NothingHeldNothingGranted(
    ps: seq<Purchase>, pm: PlanModules, durations: map<int, int>, now: int, key: Key)
    requires pm == map[]
    ensures GrantsFor(ps, pm, durations, now, key) == []
  {
    if ps != [] {
      NothingHeldNothingGranted(ps[..|ps| - 1], pm, durations, now, key);
    }
  }

  // ---------------------------------------------------------------- closed form

  function SumDays(gs: seq<Grant>): int {
    if gs == [] then 0 else SumDays(gs[..|gs| - 1]) + gs[|gs| - 1].days
  }

  /** What purchase k alone would force: its own instant and every day bought from it on. */
  function Reach(gs: seq<Grant>, k: int): int
    requires 0 <= k < |gs|
  {
    gs[k].boughtAt + SumDays(gs[k..]) * DAY
  }

  /** The expiry is the greatest reach of any purchase; the days are all the days bought. */
  lemma {:induction false} ClosedForm(gs: seq<Grant>)
    requires gs != []
    ensures var e := Fold(gs).value;
            && (forall k :: 0 <= k < |gs| ==> Reach(gs, k) <= e.expiresAt)
            && (exists k :: 0 <= k < |gs| && Reach(gs, k) == e.expiresAt)
            && e.grantedDays == SumDays(gs)
            && e.lastSubscription == gs[|gs| - 1].subscription
    decreases |gs|
  {
    var n := |gs| - 1;
    var init := gs[..n];
    var e := Fold(gs).value;
    assert gs[n..] == [gs[n]];
    assert SumDays([gs[n]]) == gs[n].days by { assert [gs[n]][..0] == []; }
    assert Reach(gs, n) == gs[n].boughtAt + gs[n].days * DAY;
    forall k | 0 <= k < n
      ensures Reach(gs, k) == Reach(init, k) + gs[n].days * DAY
    {
      assert gs[k..][..n - k] == init[k..];
      assert gs[k..][n - k] == gs[n];
    }
    if n > 0 {
      ClosedForm(init);
      var f := Fold(init).value;
      if gs[n].boughtAt <= f.expiresAt {
        var k :| 0 <= k < n && Reach(init, k) == f.expiresAt;
        assert Reach(gs, k) == e.expiresAt;
      } else {
        assert Reach(gs, n) == e.expiresAt;
      }
    }
  }

  // ---------------------------------------------------------------- conservation

  /** The interval each purchase added, in order. */
  function Intervals(gs: seq<Grant>): (spans: seq<(int, int)>)
    ensures |spans| == |gs|
  {
    if gs == [] then []
    else
      var earlier := gs[..|gs| - 1];
      var g := gs[|gs| - 1];
      var base := if earlier == [] then g.boughtAt else Max(g.boughtAt, Fold(earlier).value.expiresAt);
      Intervals(earlier) + [(base, base + g.days * DAY)]
  }

  function TotalLength(spans: seq<(int, int)>): int {
    if spans == [] then 0
    else TotalLength(spans[..|spans| - 1]) + spans[|spans| - 1].1 - spans[|spans| - 1].0
  }

  ghost predicate Positive(gs: seq<Grant>) {
    forall i :: 0 <= i < |gs| ==> 0 < gs[i].days
  }

  ghost predicate InOrder(spans: seq<(int, int)>) {
    forall i, j :: 0 <= i < j < |spans| ==> spans[i].1 <= spans[j].0
  }

  ghost predicate Proper(spans: seq<(int, int)>) {
    forall i :: 0 <= i < |spans| ==> spans[i].0 < spans[i].1
  }

  lemma InOrderSnoc(spans: seq<(int, int)>, last: (int, int))
    requires InOrder(spans) && Proper(spans) && last.0 < last.1
    requires spans != [] ==> spans[|spans| - 1].1 <= last.0
    ensures InOrder(spans + [last]) && Proper(spans + [last])
  {
    var all := spans + [last];
    forall i, j | 0 <= i < j < |all|
      ensures all[i].1 <= all[j].0
    {
      if j == |spans| && i < j - 1 {
        assert spans[i].1 <= spans[j - 1].0;
      }
    }
  }

  lemma IntervalsSnoc(gs: seq<Grant>)
    requires gs != []
    ensures var earlier := gs[..|gs| - 1]; var g := gs[|gs| - 1]; var spans := Intervals(gs);
            var base := if earlier == [] then g.boughtAt else Max(g.boughtAt, Fold(earlier).value.expiresAt);
            && spans == Intervals(earlier) + [(base, base + g.days * DAY)]
            && TotalLength(spans) == TotalLength(Intervals(earlier)) + g.days * DAY
            && Fold(gs).value.expiresAt == base + g.days * DAY
  {
    var spans := Intervals(gs);
    assert spans[..|spans| - 1] == Intervals(gs[..|gs| - 1]);
  }

  lemma {:induction false} SpansInOrder(gs: seq<Grant>)
    requires gs != [] && Positive(gs)
    ensures InOrder(Intervals(gs)) && Proper(Intervals(gs))
    ensures Intervals(gs)[|gs| - 1].1 == Fold(gs).value.expiresAt
    decreases |gs|
  {
    var n := |gs| - 1;
    IntervalsSnoc(gs);
    assert 0 < gs[n].days * DAY;
    if n > 0 {
      SpansInOrder(gs[..n]);
      InOrderSnoc(Intervals(gs[..n]), Intervals(gs)[n]);
    } else {
      InOrderSnoc([], Intervals(gs)[0]);
    }
  }

  lemma {:induction false} SpansStartLater(gs: seq<Grant>, i: nat)
    requires i < |gs|
    ensures gs[i].boughtAt <= Intervals(gs)[i].0
    decreases |gs|
  {
    var earlier := gs[..|gs| - 1];
    if i < |gs| - 1 {
      SpansStartLater(earlier, i);
      assert Intervals(gs)[i] == Intervals(earlier)[i];
      assert gs[i] == earlier[i];
    }
  }

  lemma DaysAdd(a: int, b: int)
    ensures (a + b) * DAY == a * DAY + b * DAY
  {
  }

  lemma DaysSnoc(gs: seq<Grant>)
    requires gs != []
    ensures var before := Fold(gs[..|gs| - 1]);
            Fold(gs).value.grantedDays == (if before.None? then 0 else before.value.grantedDays) + gs[|gs| - 1].days
  {
  }

  lemma {:induction false} SpansTotal(gs: seq<Grant>)
    requires gs != []
    ensures TotalLength(Intervals(gs)) == Fold(gs).value.grantedDays * DAY
    decreases |gs|
  {
    var earlier := gs[..|gs| - 1];
    IntervalsSnoc(gs);
    DaysSnoc(gs);
    if earlier == [] {
      assert TotalLength(Intervals(earlier)) == 0;
    } else {
      SpansTotal(earlier);
      DaysAdd(Fold(earlier).value.grantedDays, gs[|gs| - 1].days);
    }
  }

  /** No paid day is lost or counted twice: the added intervals are disjoint and in order, start no earlier
      than their purchases, end at the expiry and together are as long as all the days bought. */
  lemma Conservation(gs: seq<Grant>)
    requires gs != [] && Positive(gs)
    ensures var spans := Intervals(gs); var e := Fold(gs).value;
            && InOrder(spans) && Proper(spans)
            && (forall i :: 0 <= i < |spans| ==> gs[i].boughtAt <= spans[i].0)
            && spans[|spans| - 1].1 == e.expiresAt
            && TotalLength(spans) == e.grantedDays * DAY
  {
    SpansInOrder(gs);
    SpansTotal(gs);
    forall i | 0 <= i < |gs|
      ensures gs[i].boughtAt <= Intervals(gs)[i].0
    {
      SpansStartLater(gs, i);
    }
  }

  ghost predicate Chronological(gs: seq<Grant>) {
    forall i, j :: 0 <= i < j < |gs| ==> gs[i].boughtAt <= gs[j].boughtAt
  }

  lemma {:induction false} TailAtMostAll(gs: seq<Grant>, k: nat)
    requires k <= |gs| && Positive(gs)
    ensures 0 <= SumDays(gs[k..]) <= SumDays(gs)
    decreases |gs|
  {
    if gs != [] {
      var init := gs[..|gs| - 1];
      if k < |gs| {
        TailAtMostAll(init, k);
        assert gs[k..][..|gs| - 1 - k] == init[k..];
      } else {
        TailAtMostAll(init, |init|);
      }
    }
  }

  /** In chronological order the expiry lies between "all days from the first purchase" and
      "all days from the last". */
  lemma ChronologicalBounds(gs: seq<Grant>)
    requires gs != [] && Positive(gs) && Chronological(gs)
    ensures var e := Fold(gs).value;
            gs[0].boughtAt + e.grantedDays * DAY <= e.expiresAt <= gs[|gs| - 1].boughtAt + e.grantedDays * DAY
  {
    ClosedForm(gs);
    assert gs[0..] == gs;
    assert Reach(gs, 0) == gs[0].boughtAt + SumDays(gs) * DAY;
    var k :| 0 <= k < |gs| && Reach(gs, k) == Fold(gs).value.expiresAt;
    TailAtMostAll(gs, k);
  }

  // ---------------------------------------------------------------- order

  ghost predicate NoLater(a: Option<Entry>, b: Option<Entry>) {
    a.Some? && b.Some? && a.value.expiresAt <= b.value.expiresAt && a.value.grantedDays == b.value.grantedDays
  }

  lemma FoldSnoc(gs: seq<Grant>, g: Grant)
    ensures Fold(gs + [g]) == Some(Stack(Fold(gs), g))
  {
    assert (gs + [g])[..|gs|] == gs;
  }

  lemma FoldPair(u: seq<Grant>, a: Grant, b: Grant)
    ensures Fold(u + [a, b] + []) == Some(Stack(Some(Stack(Fold(u), a)), b))
  {
    assert u + [a, b] + [] == (u + [a]) + [b];
    FoldSnoc(u + [a], b);
    FoldSnoc(u, a);
  }

  lemma StackPair(e: Option<Entry>, a: Grant, b: Grant)
    requires a.boughtAt <= b.boughtAt && 0 < a.days && 0 < b.days
    ensures var x, y := Some(Stack(Some(Stack(e, a)), b)), Some(Stack(Some(Stack(e, b)), a));
            NoLater(x, y) && (a.boughtAt == b.boughtAt ==> NoLater(y, x))
  {
  }

  /** What is behind stays behind whatever is bought next. */
  lemma StackMonotone(x: Option<Entry>, y: Option<Entry>, g: Grant)
    requires NoLater(x, y)
    ensures NoLater(Some(Stack(x, g)), Some(Stack(y, g)))
  {
  }

  lemma FoldLast(u: seq<Grant>, w: seq<Grant>, g: Grant)
    ensures Fold(u + (w + [g])) == Some(Stack(Fold(u + w), g))
  {
    assert u + (w + [g]) == (u + w) + [g];
    FoldSnoc(u + w, g);
  }

  /** Two neighbouring purchases in chronological order end no later than swapped, whatever comes
      before and after; bought at the same instant they commute. */
  lemma {:induction false} Exchange(u: seq<Grant>, a: Grant, b: Grant, v: seq<Grant>)
    requires a.boughtAt <= b.boughtAt && 0 < a.days && 0 < b.days
    ensures NoLater(Fold(u + [a, b] + v), Fold(u + [b, a] + v))
    ensures a.boughtAt == b.boughtAt ==> NoLater(Fold(u + [b, a] + v), Fold(u + [a, b] + v))
    decreases |v|
  {
    if v == [] {
      FoldPair(u, a, b);
      FoldPair(u, b, a);
      StackPair(Fold(u), a, b);
    } else {
      var w, g := v[..|v| - 1], v[|v| - 1];
      Exchange(u, a, b, w);
      assert v == w + [g];
      FoldLast(u + [a, b], w, g);
      FoldLast(u + [b, a], w, g);
      StackMonotone(Fold(u + [a, b] + w), Fold(u + [b, a] + w), g);
      if a.boughtAt == b.boughtAt {
        StackMonotone(Fold(u + [b, a] + w), Fold(u + [a, b] + w), g);
      }
    }
  }

  /** Purchases made at the same instant commute: same expiry, same days. */
  lemma SameInstantCommutes(u: seq<Grant>, a: Grant, b: Grant, v: seq<Grant>)
    requires a.boughtAt == b.boughtAt && 0 < a.days && 0 < b.days
    ensures var x := Fold(u + [a, b] + v).value; var y := Fold(u + [b, a] + v).value;
            x.expiresAt == y.expiresAt && x.grantedDays == y.grantedDays
  {
    Exchange(u, a, b, v);
  }

  lemma {:induction false} MoveToEnd(u: seq<Grant>, m: Grant, v: seq<Grant>)
    requires 0 < m.days && Positive(v) && forall i :: 0 <= i < |v| ==> v[i].boughtAt <= m.boughtAt
    ensures NoLater(Fold(u + v + [m]), Fold(u + [m] + v))
    decreases |v|
  {
    if v == [] {
      assert u + v + [m] == u + [m] + v;
      FoldSnoc(u, m);
    } else {
      var b, w := v[0], v[1..];
      Exchange(u, b, m, w);
      MoveToEnd(u + [b], m, w);
      assert u + [m] + v == u + [m, b] + w;
      assert u + [b, m] + w == (u + [b]) + [m] + w;
      assert u + v + [m] == (u + [b]) + w + [m];
    }
  }

  /** Chronological replay yields the earliest expiry, and the same days, among all orders. */
  lemma {:induction false} ChronologicalIsEarliest(gs: seq<Grant>, other: seq<Grant>)
    requires gs != [] && Positive(gs) && Chronological(gs) && multiset(gs) == multiset(other)
    ensures NoLater(Fold(gs), Fold(other))
    decreases |gs|
  {
    var n := |gs| - 1;
    var init, m := gs[..n], gs[n];
    var i := LastOf(gs, other);
    var u, v := other[..i], other[i + 1..];
    assert NoLater(Fold(u + v + [m]), Fold(other)) by {
      RestIsEarlier(gs, other, v);
      MoveToEnd(u, m, v);
    }
    if init == [] {
      assert |multiset(u + v)| == 0;
      assert u + v + [m] == gs;
    } else {
      ChronologicalIsEarliest(init, u + v);
      FoldSnoc(init, m);
      FoldSnoc(u + v, m);
      StackMonotone(Fold(init), Fold(u + v), m);
    }
  }

  lemma RestIsEarlier(gs: seq<Grant>, other: seq<Grant>, v: seq<Grant>)
    requires gs != [] && Positive(gs) && Chronological(gs) && multiset(gs) == multiset(other)
    requires forall g :: g in v ==> g in other
    ensures Positive(v) && forall j :: 0 <= j < |v| ==> v[j].boughtAt <= gs[|gs| - 1].boughtAt
  {
    forall j | 0 <= j < |v|
      ensures v[j].boughtAt <= gs[|gs| - 1].boughtAt && 0 < v[j].days
    {
      assert v[j] in v && v[j] in other;
      assert v[j] in multiset(gs);
      assert v[j] in gs;
    }
  }

  /** No purchase is shortchanged, and a run of purchases that never overlap ends where the last one says. */
  lemma NeverEarlierThanAnyPurchase(gs: seq<Grant>, k: nat)
    requires k < |gs| && Positive(gs)
    ensures gs[k].boughtAt + gs[k].days * DAY <= Fold(gs).value.expiresAt
    ensures (forall j :: 0 < j < |gs| ==> Fold(gs[..j]).value.expiresAt <= gs[j].boughtAt)
            ==> Fold(gs).value.expiresAt == gs[|gs| - 1].boughtAt + gs[|gs| - 1].days * DAY
  {
    ClosedForm(gs);
    assert Reach(gs, k) <= Fold(gs).value.expiresAt;
    assert gs[k..] == [gs[k]] + gs[k + 1..];
    SumDaysCons(gs[k], gs[k + 1..]);
    TailAtMostAll(gs[k + 1..], |gs[k + 1..]|);
    var n := |gs| - 1;
    if n > 0 && forall j :: 0 < j < |gs| ==> Fold(gs[..j]).value.expiresAt <= gs[j].boughtAt {
      assert Fold(gs[..n]).value.expiresAt <= gs[n].boughtAt;
    }
  }

  lemma {:induction false} SumDaysCons(g: Grant, gs: seq<Grant>)
    ensures SumDays([g] + gs) == g.days + SumDays(gs)
    decreases |gs|
  {
    if gs == [] {
      assert [g] + gs == [g];
      assert [g][..0] == [];
    } else {
      var init := gs[..|gs| - 1];
      SumDaysCons(g, init);
      assert ([g] + gs)[..|gs|] == [g] + init;
    }
  }

  // ---------------------------------------------------------------- over the purchase rows

  /** The query's order: by user, then by the start's cell, then by id. */
  predicate RowBefore(a: Purchase, b: Purchase) {
    || a.user < b.user
    || (a.user == b.user && (a.place < b.place || (a.place == b.place && a.id <= b.id)))
  }

  ghost predicate QueryOrder(ps: seq<Purchase>) {
    forall i, j :: 0 <= i < j < |ps| ==> RowBefore(ps[i], ps[j])
  }

  /** By student, then by the start's cell, then by id; so of any two rows one is first, and only of the same row
      are both. */
  lemma RowsHaveOneOrder(a: Purchase, b: Purchase, c: Purchase)
    ensures a.user < b.user ==> RowBefore(a, b)
    ensures a.user == b.user && a.place < b.place ==> RowBefore(a, b)
    ensures a.user == b.user && a.place == b.place && a.id < b.id ==> RowBefore(a, b)
    ensures RowBefore(a, b) || RowBefore(b, a)
    ensures RowBefore(a, b) && RowBefore(b, a) ==> a.user == b.user && a.place == b.place && a.id == b.id
    ensures RowBefore(a, b) && RowBefore(b, c) ==> RowBefore(a, c)
  {
  }

  /** Cells that hold dates sort as the dates do. */
  ghost predicate DatesSortAsInstants(ps: seq<Purchase>) {
    forall i, j ::
      && 0 <= i < |ps| && 0 <= j < |ps| && ps[i].place <= ps[j].place
      && ps[i].startsAt.Some? && ps[j].startsAt.Some?
      ==> ps[i].startsAt.value <= ps[j].startsAt.value
  }

  type Choice = Purchase -> bool

  /** The purchases that give the key something. */
  function Giving(pm: PlanModules, durations: map<int, int>, key: Key): Choice {
    (p: Purchase) => Contributes(p, pm, durations, key)
  }

  /** The chosen purchases stand in the order of the instants they count from. */
  ghost predicate InstantOrder(ps: seq<Purchase>, now: int, chosen: Choice) {
    forall i, j :: 0 <= i < j < |ps| && chosen(ps[i]) && chosen(ps[j]) ==> BoughtAt(ps[i], now) <= BoughtAt(ps[j], now)
  }

  /** No cell that cannot be read sorts before a date that is past, or after one that is still to come. */
  ghost predicate UnreadableInPlace(ps: seq<Purchase>, now: int, chosen: Choice) {
    forall i, j :: 0 <= i < j < |ps| && chosen(ps[i]) && chosen(ps[j]) ==>
      && (ps[i].startsAt.None? && ps[j].startsAt.Some? ==> now <= ps[j].startsAt.value)
      && (ps[i].startsAt.Some? && ps[j].startsAt.None? ==> ps[i].startsAt.value <= now)
  }

  /** Every grant of the list counts from `limit` or earlier. */
  ghost predicate AllBy(gs: seq<Grant>, limit: int) {
    forall k :: 0 <= k < |gs| ==> gs[k].boughtAt <= limit
  }

  ghost predicate ChosenBy(ps: seq<Purchase>, now: int, chosen: Choice, limit: int) {
    forall i :: 0 <= i < |ps| && chosen(ps[i]) ==> BoughtAt(ps[i], now) <= limit
  }

  lemma {:induction false} AllByIff(
    ps: seq<Purchase>, pm: PlanModules, durations: map<int, int>, now: int, key: Key, limit: int)
    ensures AllBy(GrantsFor(ps, pm, durations, now, key), limit)
            <==> ChosenBy(ps, now, Giving(pm, durations, key), limit)
    decreases |ps|
  {
    if ps != [] {
      var n := |ps| - 1;
      var before := GrantsFor(ps[..n], pm, durations, now, key);
      AllByIff(ps[..n], pm, durations, now, key, limit);
      ChosenBySnoc(ps, now, Giving(pm, durations, key), limit);
      if Contributes(ps[n], pm, durations, key) {
        AllBySnoc(before, GrantOf(ps[n], durations, now), limit);
      } else {
        assert before + [] == before;
      }
    }
  }

  lemma AllBySnoc(gs: seq<Grant>, g: Grant, limit: int)
    ensures AllBy(gs + [g], limit) <==> AllBy(gs, limit) && g.boughtAt <= limit
  {
    if AllBy(gs + [g], limit) {
      assert (gs + [g])[|gs|] == g;
      assert forall k :: 0 <= k < |gs| ==> gs[k] == (gs + [g])[k];
    }
  }

  lemma ChosenBySnoc(ps: seq<Purchase>, now: int, chosen: Choice, limit: int)
    requires ps != []
    ensures ChosenBy(ps, now, chosen, limit)
            <==> ChosenBy(ps[..|ps| - 1], now, chosen, limit)
                 && (chosen(ps[|ps| - 1]) ==> BoughtAt(ps[|ps| - 1], now) <= limit)
  {
    assert forall i :: 0 <= i < |ps| - 1 ==> ps[..|ps| - 1][i] == ps[i];
  }

  lemma InstantOrderSnoc(ps: seq<Purchase>, now: int, chosen: Choice)
    requires ps != []
    ensures InstantOrder(ps, now, chosen)
            <==> InstantOrder(ps[..|ps| - 1], now, chosen)
                 && (chosen(ps[|ps| - 1]) ==> ChosenBy(ps[..|ps| - 1], now, chosen, BoughtAt(ps[|ps| - 1], now)))
  {
    assert forall i :: 0 <= i < |ps| - 1 ==> ps[..|ps| - 1][i] == ps[i];
  }

  lemma ChronologicalSnoc(gs: seq<Grant>, g: Grant)
    ensures Chronological(gs + [g]) <==> Chronological(gs) && AllBy(gs, g.boughtAt)
  {
    var all := gs + [g];
    assert forall k :: 0 <= k < |gs| ==> gs[k] == all[k];
    assert all[|gs|] == g;
  }

  /** The grants of a key are chronological exactly when its purchases stand in the order of their instants. */
  lemma {:induction false} ChronologicalIff(
    ps: seq<Purchase>, pm: PlanModules, durations: map<int, int>, now: int, key: Key)
    ensures Chronological(GrantsFor(ps, pm, durations, now, key))
            <==> InstantOrder(ps, now, Giving(pm, durations, key))
    decreases |ps|
  {
    if ps != [] {
      var n := |ps| - 1;
      var before := GrantsFor(ps[..n], pm, durations, now, key);
      ChronologicalIff(ps[..n], pm, durations, now, key);
      InstantOrderSnoc(ps, now, Giving(pm, durations, key));
      if Contributes(ps[n], pm, durations, key) {
        ChronologicalSnoc(before, GrantOf(ps[n], durations, now));
        AllByIff(ps[..n], pm, durations, now, key, BoughtAt(ps[n], now));
      } else {
        assert before + [] == before;
      }
    }
  }

  /** Of purchases of one student, those that hold dates are in the order of their instants; so all are, exactly
      when the ones that cannot be read are in place. */
  lemma InstantOrderIff(ps: seq<Purchase>, now: int, chosen: Choice, user: int)
    requires QueryOrder(ps) && DatesSortAsInstants(ps)
    requires forall i :: 0 <= i < |ps| && chosen(ps[i]) ==> ps[i].user == user
    ensures InstantOrder(ps, now, chosen) <==> UnreadableInPlace(ps, now, chosen)
  {
    forall i, j | 0 <= i < j < |ps| && chosen(ps[i]) && chosen(ps[j])
      ensures ps[i].place <= ps[j].place
    {
      assert RowBefore(ps[i], ps[j]);
    }
  }

  /** The query's order replays a key's purchases chronologically exactly when no start that cannot be read
      stands before a past one or after a future one. */
  lemma QueryOrderIsChronologicalIff(
    ps: seq<Purchase>, pm: PlanModules, durations: map<int, int>, now: int, key: Key)
    requires QueryOrder(ps) && DatesSortAsInstants(ps)
    ensures Chronological(GrantsFor(ps, pm, durations, now, key))
            <==> UnreadableInPlace(ps, now, Giving(pm, durations, key))
  {
    ChronologicalIff(ps, pm, durations, now, key);
    InstantOrderIff(ps, now, Giving(pm, durations, key), key.0);
  }

  lemma {:induction false} GrantsAppend(
    a: seq<Purchase>, b: seq<Purchase>, pm: PlanModules, durations: map<int, int>, now: int, key: Key)
    ensures GrantsFor(a + b, pm, durations, now, key)
            == GrantsFor(a, pm, durations, now, key) + GrantsFor(b, pm, durations, now, key)
    decreases |b|
  {
    if b == [] {
      assert a + b == a;
    } else {
      var n := |b| - 1;
      assert (a + b)[..|a + b| - 1] == a + b[..n];
      GrantsAppend(a, b[..n], pm, durations, now, key);
    }
  }

  /** Reading the same rows in another order gives each key the same grants, in another order. */
  lemma {:induction false} GrantsOfReordering(
    ps: seq<Purchase>, other: seq<Purchase>, pm: PlanModules, durations: map<int, int>, now: int, key: Key)
    requires multiset(ps) == multiset(other)
    ensures multiset(GrantsFor(ps, pm, durations, now, key)) == multiset(GrantsFor(other, pm, durations, now, key))
    decreases |ps|
  {
    if ps == [] {
      assert |multiset(other)| == 0;
    } else {
      var n := |ps| - 1;
      var p := ps[n];
      var i := LastOf(ps, other);
      var u, v := other[..i], other[i + 1..];
      GrantsOfReordering(ps[..n], u + v, pm, durations, now, key);
      GrantsAppend(u, v, pm, durations, now, key);
      GrantsAppend(u + [p], v, pm, durations, now, key);
      GrantsAppend(u, [p], pm, durations, now, key);
      GrantsAppend(ps[..n], [p], pm, durations, now, key);
    }
  }

  /** The backfill's query order gives every student the earliest expiry any replay order could give,
      provided any start of theirs that cannot be read is in place. */
  lemma BackfillOrderIsEarliest(
    ps: seq<Purchase>, other: seq<Purchase>, pm: PlanModules, durations: map<int, int>, now: int, key: Key)
    requires QueryOrder(ps) && DatesSortAsInstants(ps) && multiset(ps) == multiset(other)
    requires UnreadableInPlace(ps, now, Giving(pm, durations, key))
    requires GrantsFor(ps, pm, durations, now, key) != []
    ensures NoLater(Fold(GrantsFor(ps, pm, durations, now, key)), Fold(GrantsFor(other, pm, durations, now, key)))
  {
    QueryOrderIsChronologicalIff(ps, pm, durations, now, key);
    GrantsOfReordering(ps, other, pm, durations, now, key);
    ChronologicalIsEarliest(
      GrantsFor(ps, pm, durations, now, key), GrantsFor(other, pm, durations, now, key));
  }

  lemma FoldOfTwo(a: Grant, b: Grant)
    ensures Fold([a, b]) == Some(Stack(Some(Stack(None, a)), b))
  {
    assert [a, b] == ([] + [a]) + [b];
    FoldSnoc([], a);
    FoldSnoc([] + [a], b);
  }

  /** Out of order costs: of two purchases, replaying the earlier first is the better exactly because it is. */
  lemma PairOrderIff(a: Grant, b: Grant)
    requires 0 < a.days && 0 < b.days
    ensures NoLater(Fold([a, b]), Fold([b, a])) <==> a.boughtAt <= b.boughtAt
  {
    FoldOfTwo(a, b);
    FoldOfTwo(b, a);
  }

  lemma GrantsOfTwo(p: Purchase, q: Purchase, pm: PlanModules, durations: map<int, int>, now: int, key: Key)
    requires Contributes(p, pm, durations, key) && Contributes(q, pm, durations, key)
    ensures GrantsFor([p, q], pm, durations, now, key) == [GrantOf(p, durations, now), GrantOf(q, durations, now)]
  {
    assert [p, q][..1] == [p] && [p][..0] == [];
    assert GrantsFor([], pm, durations, now, key) == [];
    assert GrantsFor([p], pm, durations, now, key) == [GrantOf(p, durations, now)];
  }

  /** A purchase whose cell sorts before another's but counts from a later instant, unreadable or written in another
      form: the query replays the two out of order, and the other order ends earlier. */
  lemma MisplacedStartCosts(
    p: Purchase, q: Purchase, pm: PlanModules, durations: map<int, int>, now: int, key: Key)
    requires Contributes(p, pm, durations, key) && Contributes(q, pm, durations, key)
    requires p.place < q.place && BoughtAt(q, now) < BoughtAt(p, now)
    ensures QueryOrder([p, q]) && !Chronological(GrantsFor([p, q], pm, durations, now, key))
    ensures !NoLater(Fold(GrantsFor([p, q], pm, durations, now, key)), Fold(GrantsFor([q, p], pm, durations, now, key)))
  {
    var a, b := GrantOf(p, durations, now), GrantOf(q, durations, now);
    GrantsOfTwo(p, q, pm, durations, now, key);
    GrantsOfTwo(q, p, pm, durations, now, key);
    PairOrderIff(a, b);
    assert [a, b][0] == a && [a, b][1] == b;
  }
}
