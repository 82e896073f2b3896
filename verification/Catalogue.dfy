/**
  The plan catalogue split: migration 0039 retires the shared audience, migration 0040 gives every institute
  that still holds a direct-student plan a copy of that plan in the institute catalogue.
 */
module Catalogue {
  import opened Common
  import opened Numerals

  /** The columns 0040 copies by name. */
  datatype Terms = Terms(
    description: string, price: int, currency: string, durationDays: int, studentLimit: int, testLimit: int,
    staffLimit: int, graceDays: int, features: string)

  datatype Plan = Plan(
    name: string, audience: string, isActive: bool, isPublished: bool, isInternal: bool, terms: Terms)

  datatype Subscription = Subscription(planId: int, instituteId: Option<int>)

  const DIRECT := "direct_students"
  const INSTITUTES := "institutes"
  const BOTH := "both"

  /** The four tables, by primary key. */
  datatype Tables = Tables(
    plans: map<int, Plan>, subscriptions: map<int, Subscription>,
    planModules: set<(int, int)>, planCourses: set<(int, int)>)

  /** What the database itself enforces: unique names and foreign keys to plans. */
  ghost predicate Wellformed(t: Tables) {
    && (forall p, q :: p in t.plans && q in t.plans && t.plans[p].name == t.plans[q].name ==> p == q)
    && (forall s :: s in t.subscriptions ==> t.subscriptions[s].planId in t.plans)
    && (forall link :: link in t.planModules ==> link.0 in t.plans)
    && (forall link :: link in t.planCourses ==> link.0 in t.plans)
  }

  predicate OfInstitute(s: Subscription) {
    s.instituteId.Some?
  }

  predicate DirectNotInternal(p: Plan) {
    p.audience == DIRECT && !p.isInternal
  }

  /** Some institute has a subscription to the plan. */
  predicate InstituteHeld(subscriptions: map<int, Subscription>, p: int) {
    exists s :: s in subscriptions && OfInstitute(subscriptions[s]) && subscriptions[s].planId == p
  }

  /** The plans of 0040's first query. */
  function StrandedIds(t: Tables): set<int> {
    set p | p in t.plans && DirectNotInternal(t.plans[p]) && InstituteHeld(t.subscriptions, p)
  }

  function Linked(links: set<(int, int)>, p: int): set<int> {
    set link | link in links && link.0 == p :: link.1
  }

  function Names(t: Tables): set<string> {
    set p | p in t.plans :: t.plans[p].name
  }

  // ---------------------------------------------------------------- a free name

  /** The names `_unique_name` tries, in order. */
  function Candidate(base: string, k: nat): string {
    if k == 0 then base else base + " " + Decimal(k + 1)
  }

  lemma CandidatesDiffer(base: string, j: nat, k: nat)
    requires Candidate(base, j) == Candidate(base, k)
    ensures j == k
  {
    if j != 0 && k != 0 {
      assert Decimal(j + 1) == Candidate(base, j)[|base| + 1..];
      assert Decimal(k + 1) == Candidate(base, k)[|base| + 1..];
      DecimalInjective(j + 1, k + 1);
    }
  }

  ghost predicate AreCandidates(tried: set<string>, base: string, tries: nat) {
    forall u :: u in tried ==> exists k :: 0 <= k < tries && u == Candidate(base, k)
  }

  lemma NextIsNew(tried: set<string>, base: string, tries: nat)
    requires AreCandidates(tried, base, tries)
    ensures Candidate(base, tries) !in tried
    ensures AreCandidates(tried + {Candidate(base, tries)}, base, tries + 1)
  {
    forall k | 0 <= k < tries
      ensures Candidate(base, k) != Candidate(base, tries)
    {
      if Candidate(base, k) == Candidate(base, tries) {
        CandidatesDiffer(base, k, tries);
      }
    }
  }

  /** The name itself, then the name and a number from two up. */
  lemma AsWritten(used: set<string>, base: string, tries: nat)
    requires forall k :: 0 <= k < tries ==> Candidate(base, k) in used
    ensures Candidate(base, tries) == if tries == 0 then base else base + " " + Decimal(tries + 1)
    ensures tries > 0 ==> base in used
    ensures forall n :: 2 <= n <= tries ==> base + " " + Decimal(n) in used
  {
    assert tries > 0 ==> Candidate(base, 0) in used;
    forall n | 2 <= n <= tries
      ensures base + " " + Decimal(n) in used
    {
      assert Candidate(base, n - 1) in used;
    }
  }

  /** The search ends on every finite table: each taken candidate uses up one of its names. The answer is the
      first candidate that is free. */
  method UniqueName(used: set<string>, base: string) returns (name: string, ghost tries: nat)
    ensures name !in used && name == Candidate(base, tries)
    ensures name == if tries == 0 then base else base + " " + Decimal(tries + 1)
    ensures tries > 0 ==> base in used
    ensures forall n :: 2 <= n <= tries ==> base + " " + Decimal(n) in used
  {
    name := base;
    var suffix := 2;
    tries := 0;
    ghost var tried: set<string> := {};
    while name in used
      invariant name == Candidate(base, tries) && suffix == tries + 2
      invariant tried <= used && AreCandidates(tried, base, tries)
      invariant forall k :: 0 <= k < tries ==> Candidate(base, k) in used
      decreases used - tried
    {
      NextIsNew(tried, base, tries);
      tried := tried + {name};
      name := base + " " + Decimal(suffix);
      suffix := suffix + 1;
      tries := tries + 1;
    }
    AsWritten(used, base, tries);
  }

  // ---------------------------------------------------------------- one clone

  const CLONE_SUFFIX := " (Institutes)"

  function Repointed(subscriptions: map<int, Subscription>, from: int, to: int): map<int, Subscription> {
    map s | s in subscriptions ::
      if OfInstitute(subscriptions[s]) && subscriptions[s].planId == from
      then subscriptions[s].(planId := to) else subscriptions[s]
  }

  /** The links of `from` again under `to`. */
  function Copied(links: set<(int, int)>, from: int, to: int): set<(int, int)> {
    links + set link | link in links && link.0 == from :: (to, link.1)
  }

  /** The tables after plan `p` has been copied to the new id `c` under the new name. */
  function Cloned(t: Tables, p: int, c: int, name: string): Tables
    requires p in t.plans
  {
    Tables(
      t.plans[c := t.plans[p].(name := name, audience := INSTITUTES, isPublished := false, isInternal := false)],
      Repointed(t.subscriptions, p, c),
      Copied(t.planModules, p, c),
      Copied(t.planCourses, p, c))
  }

  /** Where 0039 puts a plan: a shared plan goes where it was used, every other plan stays. */
  function SplitAudience(t: Tables, p: int): string
    requires p in t.plans
  {
    if t.plans[p].audience != BOTH then t.plans[p].audience
    else if InstituteHeld(t.subscriptions, p) then INSTITUTES else DIRECT
  }

  function SplitPlans(t: Tables): map<int, Plan> {
    map p | p in t.plans :: t.plans[p].(audience := SplitAudience(t, p))
  }

  /** The first update: shared plans that an institute ever subscribed to. */
  function UsedToInstitutes(t: Tables): map<int, Plan> {
    map p | p in t.plans ::
      if t.plans[p].audience == BOTH && InstituteHeld(t.subscriptions, p)
      then t.plans[p].(audience := INSTITUTES) else t.plans[p]
  }

  /** The second update: the shared plans that are left. */
  function RestToDirect(plans: map<int, Plan>): map<int, Plan> {
    map p | p in plans :: if plans[p].audience == BOTH then plans[p].(audience := DIRECT) else plans[p]
  }

  lemma SplitInTwo(t: Tables)
    ensures RestToDirect(UsedToInstitutes(t)) == SplitPlans(t)
  {
    var first := UsedToInstitutes(t);
    assert INSTITUTES[0] != BOTH[0];
    forall p | p in t.plans
      ensures RestToDirect(first)[p] == SplitPlans(t)[p]
    {
      assert first[p].(audience := SplitAudience(t, p)) == SplitPlans(t)[p];
    }
  }

  /** A shared plan goes to the institutes exactly when some subscription of an institute names it; nothing else
      changes. */
  ghost predicate SplitByUse(before: Tables, plans: map<int, Plan>) {
    && plans.Keys == before.plans.Keys
    && forall p :: p in plans ==>
         plans[p] == before.plans[p].(audience :=
           if before.plans[p].audience != "both" then before.plans[p].audience
           else if exists s :: s in before.subscriptions && before.subscriptions[s].instituteId != None
                               && before.subscriptions[s].planId == p then "institutes"
           else "direct_students")
  }

  lemma SplitIsByUse(t: Tables)
    ensures SplitByUse(t, SplitPlans(t))
  {
    forall p | p in t.plans
      ensures InstituteHeld(t.subscriptions, p)
              <==> exists s :: s in t.subscriptions && t.subscriptions[s].instituteId != None
                               && t.subscriptions[s].planId == p
    {
    }
  }

  class Database {
    var plans: map<int, Plan>
    var subscriptions: map<int, Subscription>
    var planModules: set<(int, int)>
    var planCourses: set<(int, int)>

    function View(): Tables
      reads this
    {
      Tables(plans, subscriptions, planModules, planCourses)
    }

    /** Migration 0039: the two updates, in their order. */
    method SplitAudiences()
      modifies this`plans
      ensures plans == SplitPlans(old(View()))
      ensures SplitByUse(old(View()), plans)
    {
      SplitInTwo(View());
      SplitIsByUse(View());
      plans := UsedToInstitutes(View());
      plans := RestToDirect(plans);
    }

    /** The body of 0040's loop: a new row under a free name, both link tables, the institute subscriptions. */
    method CloneOne(p: int) returns (ghost c: int, ghost name: string, ghost tries: nat)
      requires p in plans
      modifies this
      ensures c !in old(plans) && name !in Names(old(View()))
      ensures name == Candidate(old(plans[p].name) + CLONE_SUFFIX, tries)
      ensures View() == Cloned(old(View()), p, c, name)
    {
      var original := plans[p];
      var cloneName;
      cloneName, tries := UniqueName(Names(View()), original.name + CLONE_SUFFIX);
      var cloneId := FreshId(plans.Keys);
      plans := plans[cloneId :=
        original.(name := cloneName, audience := INSTITUTES, isPublished := false, isInternal := false)];
      planModules := Copied(planModules, p, cloneId);
      planCourses := Copied(planCourses, p, cloneId);
      subscriptions := Repointed(subscriptions, p, cloneId);
      c, name := cloneId, cloneName;
    }

    /** One more clone, on top of those of `done`. */
    method CloneNext(ghost before: Tables, ghost cloneOf: map<int, int>, ghost done: set<int>, p: int)
      returns (ghost c: int)
      requires Moved(before, View(), cloneOf, done) && p in before.plans && p !in done
      modifies this
      ensures Moved(before, View(), cloneOf[p := c], done + {p})
    {
      ghost var now := View();
      OriginalStays(before, now, cloneOf, done, p);
      ghost var name, tries;
      c, name, tries := CloneOne(p);
      MovedOneMore(before, now, cloneOf, done, p, c, name, tries);
    }

    /** The loop of 0040 over the plans it is given. */
    method CloneAll(ghost before: Tables, stranded: set<int>) returns (ghost cloneOf: map<int, int>)
      requires Wellformed(before) && before == View() && forall p :: p in stranded ==> p in before.plans
      modifies this
      ensures Moved(before, View(), cloneOf, stranded)
    {
      var rest := stranded;
      cloneOf := map[];
      MovedNothing(before);
      assert stranded - rest == {};
      while rest != {}
        invariant rest <= stranded
        invariant Moved(before, View(), cloneOf, stranded - rest)
      {
        ghost var some := MemberOf(rest);
        var p :| p in rest;
        ghost var c := CloneNext(before, cloneOf, stranded - rest, p);
        assert stranded - (rest - {p}) == stranded - rest + {p};
        cloneOf := cloneOf[p := c];
        rest := rest - {p};
      }
      assert stranded - rest == stranded;
    }

    /** Migration 0040: the rows of the first query are fixed before the loop begins. */
    method CloneStranded() returns (ghost cloneOf: map<int, int>)
      requires Wellformed(View())
      modifies this
      ensures Moved(old(View()), View(), cloneOf, StrandedIds(old(View())))
    {
      cloneOf := CloneAll(View(), StrandedIds(View()));
    }
  }

  /** An autoincrement id: one that no row has. */
  method FreshId(ids: set<int>) returns (id: int)
    ensures id !in ids
  {
    id := 1;
    var rest := ids;
    while rest != {}
      invariant rest <= ids && forall i :: i in ids && i !in rest ==> i < id
    {
      ghost var some := MemberOf(rest);
      var i :| i in rest;
      if id <= i {
        id := i + 1;
      }
      rest := rest - {i};
    }
  }

  // ---------------------------------------------------------------- what 0040 has done

  /** The clone is a plan of its own with everything the original sold. */
  ghost predicate IsCloneOf(before: Tables, after: Tables, p: int, c: int) {
    && p in before.plans && c in after.plans && c !in before.plans
    && after.plans[c].terms == before.plans[p].terms
    && after.plans[c].isActive == before.plans[p].isActive
    && after.plans[c].audience == INSTITUTES && !after.plans[c].isPublished && !after.plans[c].isInternal
    && (exists k :: after.plans[c].name == Candidate(before.plans[p].name + CLONE_SUFFIX, k))
    && Linked(after.planModules, c) == Linked(before.planModules, p)
    && Linked(after.planCourses, c) == Linked(before.planCourses, p)
  }

  /** Where a subscription points once the plans of `done` have been cloned. */
  function Target(s: Subscription, cloneOf: map<int, int>): int {
    if OfInstitute(s) && s.planId in cloneOf then cloneOf[s.planId] else s.planId
  }

  ghost predicate PlansKept(before: Tables, after: Tables) {
    forall p :: p in before.plans ==>
      && p in after.plans && after.plans[p] == before.plans[p]
      && Linked(after.planModules, p) == Linked(before.planModules, p)
      && Linked(after.planCourses, p) == Linked(before.planCourses, p)
  }

  ghost predicate IsClone(cloneOf: map<int, int>, c: int) {
    exists p :: p in cloneOf && cloneOf[p] == c
  }

  ghost predicate AllCloned(before: Tables, after: Tables, cloneOf: map<int, int>) {
    forall p :: p in cloneOf ==> IsCloneOf(before, after, p, cloneOf[p])
  }

  ghost predicate Injective(f: map<int, int>) {
    forall p, q :: p in f && q in f && f[p] == f[q] ==> p == q
  }

  ghost predicate OnlyClonesAdded(before: Tables, after: Tables, cloneOf: map<int, int>) {
    forall c :: c in after.plans && c !in before.plans ==> IsClone(cloneOf, c)
  }

  ghost predicate OnePerStranded(before: Tables, after: Tables, cloneOf: map<int, int>, done: set<int>) {
    && cloneOf.Keys == done
    && AllCloned(before, after, cloneOf)
    && Injective(cloneOf)
    && OnlyClonesAdded(before, after, cloneOf)
  }

  ghost predicate SubscriptionsMoved(before: Tables, after: Tables, cloneOf: map<int, int>) {
    && after.subscriptions.Keys == before.subscriptions.Keys
    && forall s :: s in before.subscriptions ==>
         after.subscriptions[s] ==
         before.subscriptions[s].(planId := Target(before.subscriptions[s], cloneOf))
  }

  /** Everything 0040 promises about the plans of `done`, and nothing else changed. */
  ghost predicate Moved(before: Tables, after: Tables, cloneOf: map<int, int>, done: set<int>) {
    && Wellformed(after)
    && PlansKept(before, after)
    && OnePerStranded(before, after, cloneOf, done)
    && SubscriptionsMoved(before, after, cloneOf)
  }

  lemma MovedNothing(t: Tables)
    requires Wellformed(t)
    ensures Moved(t, t, map[], {})
  {
  }

  lemma CopiedLinks(links: set<(int, int)>, from: int, to: int, p: int)
    requires from != to && Linked(links, to) == {}
    ensures Linked(Copied(links, from, to), p) == if p == to then Linked(links, from) else Linked(links, p)
  {
    forall m
      ensures m in Linked(Copied(links, from, to), p)
              <==> m in (if p == to then Linked(links, from) else Linked(links, p))
    {
      if p == to {
        assert (to, m) in links ==> m in Linked(links, to);
        assert m in Linked(Copied(links, from, to), p) <==> (p, m) in Copied(links, from, to);
        assert m in Linked(links, from) <==> (from, m) in links;
      } else {
        assert m in Linked(Copied(links, from, to), p) <==> (p, m) in Copied(links, from, to);
        assert m in Linked(links, p) <==> (p, m) in links;
      }
    }
  }

  lemma CloneKeepsWellformed(t: Tables, p: int, c: int, name: string)
    requires Wellformed(t) && p in t.plans && c !in t.plans && name !in Names(t)
    ensures Wellformed(Cloned(t, p, c, name))
  {
    assert forall q :: q in t.plans ==> t.plans[q].name in Names(t);
  }

  lemma NoLinksYet(links: set<(int, int)>, plans: map<int, Plan>, c: int)
    requires (forall link :: link in links ==> link.0 in plans) && c !in plans
    ensures Linked(links, c) == {}
  {
  }

  lemma CloneKeepsPlans(before: Tables, now: Tables, p: int, c: int, name: string)
    requires Wellformed(now) && PlansKept(before, now) && p in before.plans && c !in now.plans
    ensures PlansKept(before, Cloned(now, p, c, name))
  {
    var after := Cloned(now, p, c, name);
    NoLinksYet(now.planModules, now.plans, c);
    NoLinksYet(now.planCourses, now.plans, c);
    forall q | q in before.plans
      ensures Linked(after.planModules, q) == Linked(now.planModules, q)
      ensures Linked(after.planCourses, q) == Linked(now.planCourses, q)
    {
      CopiedLinks(now.planModules, p, c, q);
      CopiedLinks(now.planCourses, p, c, q);
    }
  }

  lemma CloneIsClone(before: Tables, now: Tables, p: int, c: int, name: string, k: nat)
    requires Wellformed(now) && PlansKept(before, now) && p in before.plans && c !in now.plans
    requires name == Candidate(before.plans[p].name + CLONE_SUFFIX, k)
    ensures IsCloneOf(before, Cloned(now, p, c, name), p, c)
  {
    NoLinksYet(now.planModules, now.plans, c);
    NoLinksYet(now.planCourses, now.plans, c);
    CopiedLinks(now.planModules, p, c, c);
    CopiedLinks(now.planCourses, p, c, c);
  }

  lemma CloneStaysClone(before: Tables, now: Tables, q: int, d: int, p: int, c: int, name: string)
    requires Wellformed(now) && IsCloneOf(before, now, q, d) && p in now.plans && c !in now.plans
    ensures IsCloneOf(before, Cloned(now, p, c, name), q, d)
  {
    NoLinksYet(now.planModules, now.plans, c);
    NoLinksYet(now.planCourses, now.plans, c);
    CopiedLinks(now.planModules, p, c, d);
    CopiedLinks(now.planCourses, p, c, d);
  }

  lemma IsCloneGrows(cloneOf: map<int, int>, p: int, c: int, d: int)
    requires p !in cloneOf && (d == c || IsClone(cloneOf, d))
    ensures IsClone(cloneOf[p := c], d)
  {
    var more := cloneOf[p := c];
    if d == c {
      assert more[p] == d;
    } else {
      var q :| q in cloneOf && cloneOf[q] == d;
      assert more[q] == d;
    }
  }

  lemma CloneAddsOne(
    before: Tables, now: Tables, cloneOf: map<int, int>, done: set<int>, p: int, c: int, name: string, k: nat)
    requires Wellformed(now) && PlansKept(before, now) && OnePerStranded(before, now, cloneOf, done)
    requires p in before.plans && p !in done && c !in now.plans
    requires name == Candidate(before.plans[p].name + CLONE_SUFFIX, k)
    ensures OnePerStranded(before, Cloned(now, p, c, name), cloneOf[p := c], done + {p})
  {
    var after := Cloned(now, p, c, name);
    var more := cloneOf[p := c];
    assert AllCloned(before, after, more) by {
      CloneIsClone(before, now, p, c, name, k);
      forall q | q in cloneOf
        ensures IsCloneOf(before, after, q, cloneOf[q])
      {
        CloneStaysClone(before, now, q, cloneOf[q], p, c, name);
      }
    }
    assert Injective(more) by {
      forall q | q in cloneOf
        ensures cloneOf[q] != c
      {
        assert IsCloneOf(before, now, q, cloneOf[q]);
      }
    }
    assert OnlyClonesAdded(before, after, more) by {
      forall d | d in after.plans && d !in before.plans
        ensures IsClone(more, d)
      {
        IsCloneGrows(cloneOf, p, c, d);
      }
    }
  }

  lemma CloneMovesSubscriptions(
    before: Tables, now: Tables, cloneOf: map<int, int>, p: int, c: int, name: string)
    requires SubscriptionsMoved(before, now, cloneOf)
    requires p !in cloneOf && p in now.plans && !IsClone(cloneOf, p)
    ensures SubscriptionsMoved(before, Cloned(now, p, c, name), cloneOf[p := c])
  {
    forall s | s in before.subscriptions
      ensures Repointed(now.subscriptions, p, c)[s]
              == before.subscriptions[s].(planId := Target(before.subscriptions[s], cloneOf[p := c]))
    {
      var sub := before.subscriptions[s];
      assert now.subscriptions[s] == sub.(planId := Target(sub, cloneOf));
      assert OfInstitute(sub) && sub.planId in cloneOf ==> IsClone(cloneOf, cloneOf[sub.planId]);
    }
  }

  /** A plan of the table at the start is still there, and is nobody's clone. */
  lemma OriginalStays(before: Tables, now: Tables, cloneOf: map<int, int>, done: set<int>, p: int)
    requires Moved(before, now, cloneOf, done) && p in before.plans
    ensures p in now.plans && now.plans[p] == before.plans[p] && !IsClone(cloneOf, p)
  {
    forall q | q in cloneOf
      ensures cloneOf[q] != p
    {
      assert IsCloneOf(before, now, q, cloneOf[q]);
    }
  }

  lemma MovedOneMore(
    before: Tables, now: Tables, cloneOf: map<int, int>, done: set<int>, p: int, c: int, name: string, k: nat)
    requires Moved(before, now, cloneOf, done)
    requires p in before.plans && p !in done && c !in now.plans && name !in Names(now)
    requires name == Candidate(before.plans[p].name + CLONE_SUFFIX, k)
    ensures p in now.plans && Moved(before, Cloned(now, p, c, name), cloneOf[p := c], done + {p})
  {
    OriginalStays(before, now, cloneOf, done, p);
    CloneKeepsWellformed(now, p, c, name);
    CloneKeepsPlans(before, now, p, c, name);
    CloneAddsOne(before, now, cloneOf, done, p, c, name, k);
    CloneMovesSubscriptions(before, now, cloneOf, p, c, name);
  }

  // ---------------------------------------------------------------- the same, by the columns

  /** A row carries a copy of the other as 0040 makes it. */
  ghost predicate IsCopy(copy: Plan, original: Plan) {
    && copy == original.(name := copy.name, audience := "institutes", isPublished := false, isInternal := false)
    && (|| copy.name == original.name + " (Institutes)"
        || exists n :: n >= 2 && copy.name == original.name + " (Institutes) " + Decimal(n))
  }

  lemma CloneIsCopy(before: Tables, after: Tables, p: int, c: int)
    requires IsCloneOf(before, after, p, c)
    ensures IsCopy(after.plans[c], before.plans[p])
  {
    var k: nat :| after.plans[c].name == Candidate(before.plans[p].name + CLONE_SUFFIX, k);
    if k > 0 {
      assert CLONE_SUFFIX + " " == " (Institutes) ";
      assert after.plans[c].name == before.plans[p].name + " (Institutes) " + Decimal(k + 1);
    }
  }

  lemma LinkedAlike(a: set<(int, int)>, p: int, b: set<(int, int)>, q: int)
    requires Linked(a, p) == Linked(b, q)
    ensures forall m :: (p, m) in a <==> (q, m) in b
  {
    forall m
      ensures (p, m) in a <==> (q, m) in b
    {
      assert (p, m) in a <==> m in Linked(a, p);
      assert (q, m) in b <==> m in Linked(b, q);
    }
  }

  /** Which plans are copied: the direct-student plans that are not internal and that some institute's
      subscription names. */
  lemma WhichAreCloned(before: Tables, after: Tables, cloneOf: map<int, int>, p: int)
    requires Moved(before, after, cloneOf, StrandedIds(before))
    ensures p in cloneOf <==>
            && p in before.plans && before.plans[p].audience == "direct_students" && !before.plans[p].isInternal
            && exists s :: s in before.subscriptions && before.subscriptions[s].instituteId != None
                           && before.subscriptions[s].planId == p
  {
    assert p in cloneOf <==> p in StrandedIds(before);
  }

  /** What becomes of each row: a copied plan's copy, with its modules and its courses; every plan of before, as it
      was; every subscription, with an institute's moved from a copied plan to the copy; and no other plan. */
  lemma RowByRow(before: Tables, after: Tables, cloneOf: map<int, int>)
    requires Moved(before, after, cloneOf, StrandedIds(before))
    ensures forall p :: p in cloneOf ==> var c := cloneOf[p];
              && p in before.plans && c in after.plans && c !in before.plans
              && IsCopy(after.plans[c], before.plans[p])
              && (forall m :: (c, m) in after.planModules <==> (p, m) in before.planModules)
              && (forall m :: (c, m) in after.planCourses <==> (p, m) in before.planCourses)
    ensures forall p :: p in before.plans ==>
              && p in after.plans && after.plans[p] == before.plans[p]
              && (forall m :: (p, m) in after.planModules <==> (p, m) in before.planModules)
              && (forall m :: (p, m) in after.planCourses <==> (p, m) in before.planCourses)
    ensures after.subscriptions.Keys == before.subscriptions.Keys
    ensures forall s :: s in before.subscriptions ==> var sub := before.subscriptions[s];
              after.subscriptions[s] ==
              if sub.instituteId != None && sub.planId in cloneOf then sub.(planId := cloneOf[sub.planId]) else sub
    ensures forall c :: c in after.plans && c !in before.plans ==> exists p :: p in cloneOf && cloneOf[p] == c
  {
    forall p | p in cloneOf
      ensures IsCloneOf(before, after, p, cloneOf[p]) && IsCopy(after.plans[cloneOf[p]], before.plans[p])
      ensures forall m :: (cloneOf[p], m) in after.planModules <==> (p, m) in before.planModules
      ensures forall m :: (cloneOf[p], m) in after.planCourses <==> (p, m) in before.planCourses
    {
      CloneIsCopy(before, after, p, cloneOf[p]);
      LinkedAlike(after.planModules, cloneOf[p], before.planModules, p);
      LinkedAlike(after.planCourses, cloneOf[p], before.planCourses, p);
    }
    forall p | p in before.plans
      ensures forall m :: (p, m) in after.planModules <==> (p, m) in before.planModules
      ensures forall m :: (p, m) in after.planCourses <==> (p, m) in before.planCourses
    {
      LinkedAlike(after.planModules, p, before.planModules, p);
      LinkedAlike(after.planCourses, p, before.planCourses, p);
    }
    forall c | c in after.plans && c !in before.plans
      ensures exists p :: p in cloneOf && cloneOf[p] == c
    {
      assert IsClone(cloneOf, c);
    }
  }

  // ---------------------------------------------------------------- what that means

  /** What a subscriber holds: the copied terms, whether the plan is live, its modules and its courses. */
  datatype Holding = Holding(terms: Terms, isActive: bool, modules: set<int>, courses: set<int>)

  function HoldingOf(t: Tables, s: int): Holding
    requires s in t.subscriptions && t.subscriptions[s].planId in t.plans
  {
    var p := t.subscriptions[s].planId;
    Holding(t.plans[p].terms, t.plans[p].isActive, Linked(t.planModules, p), Linked(t.planCourses, p))
  }

  /** Every subscriber, institute or student, holds after 0040 exactly what they held before. */
  lemma EveryHoldingIsKept(before: Tables, after: Tables, cloneOf: map<int, int>, s: int)
    requires Wellformed(before) && Moved(before, after, cloneOf, StrandedIds(before))
    requires s in before.subscriptions
    ensures s in after.subscriptions && HoldingOf(after, s) == HoldingOf(before, s)
    ensures after.subscriptions[s].instituteId == before.subscriptions[s].instituteId
    ensures !OfInstitute(before.subscriptions[s]) ==> after.subscriptions[s] == before.subscriptions[s]
  {
    var p := before.subscriptions[s].planId;
    if OfInstitute(before.subscriptions[s]) && p in cloneOf {
      assert IsCloneOf(before, after, p, cloneOf[p]);
    }
  }

  lemma InstituteLeftDirect(before: Tables, after: Tables, cloneOf: map<int, int>, s: int)
    requires Wellformed(before) && Moved(before, after, cloneOf, StrandedIds(before))
    requires s in after.subscriptions && OfInstitute(after.subscriptions[s])
    ensures !DirectNotInternal(after.plans[after.subscriptions[s].planId])
  {
    var sub := before.subscriptions[s];
    assert after.subscriptions[s] == sub.(planId := Target(sub, cloneOf));
    if sub.planId in cloneOf {
      assert IsCloneOf(before, after, sub.planId, cloneOf[sub.planId]);
    } else {
      assert InstituteHeld(before.subscriptions, sub.planId);
      assert sub.planId !in StrandedIds(before);
    }
  }

  /** No institute is left on a direct-student plan, internal plans apart. */
  lemma NoInstituteIsStranded(before: Tables, after: Tables, cloneOf: map<int, int>)
    requires Wellformed(before) && Moved(before, after, cloneOf, StrandedIds(before))
    ensures StrandedIds(after) == {}
  {
    forall s | s in after.subscriptions && OfInstitute(after.subscriptions[s])
      ensures !DirectNotInternal(after.plans[after.subscriptions[s].planId])
    {
      InstituteLeftDirect(before, after, cloneOf, s);
    }
    forall p | p in after.plans && DirectNotInternal(after.plans[p])
      ensures !InstituteHeld(after.subscriptions, p)
    {
    }
  }

  lemma NewPlansAreClones(before: Tables, after: Tables, cloneOf: map<int, int>, done: set<int>)
    requires PlansKept(before, after) && OnePerStranded(before, after, cloneOf, done)
    ensures var clones := set p | p in cloneOf.Keys :: cloneOf[p];
            after.plans.Keys == before.plans.Keys + clones && before.plans.Keys !! clones
  {
    forall p | p in cloneOf
      ensures cloneOf[p] !in before.plans && cloneOf[p] in after.plans
    {
      assert IsCloneOf(before, after, p, cloneOf[p]);
    }
    var clones := set p | p in cloneOf.Keys :: cloneOf[p];
    forall d | d in after.plans && d !in before.plans
      ensures d in clones
    {
      assert IsClone(cloneOf, d);
    }
    assert forall d :: d in after.plans.Keys <==> d in before.plans.Keys + clones;
  }

  /** Exactly one new plan per stranded plan. */
  lemma OneClonePerStranded(before: Tables, after: Tables, cloneOf: map<int, int>)
    requires Moved(before, after, cloneOf, StrandedIds(before))
    ensures |after.plans| == |before.plans| + |StrandedIds(before)|
  {
    NewPlansAreClones(before, after, cloneOf, StrandedIds(before));
    InjectiveImage(cloneOf, cloneOf.Keys);
    assert |after.plans| == |after.plans.Keys| && |before.plans| == |before.plans.Keys|;
  }

  lemma {:induction false} InjectiveImage(f: map<int, int>, keys: set<int>)
    requires keys <= f.Keys && Injective(f)
    ensures |set p | p in keys :: f[p]| == |keys|
    decreases |keys|
  {
    var image := set p | p in keys :: f[p];
    if keys == {} {
      assert image == {};
    } else {
      var p := MemberOf(keys);
      var rest := keys - {p};
      InjectiveImage(f, rest);
      assert image == (set q | q in rest :: f[q]) + {f[p]};
      assert f[p] !in set q | q in rest :: f[q];
    }
  }

  /** Running 0040 again changes nothing. */
  method RunTwice(db: Database) returns (ghost once: Tables)
    requires Wellformed(db.View())
    modifies db
    ensures exists cloneOf :: Moved(old(db.View()), once, cloneOf, StrandedIds(old(db.View())))
    ensures db.View() == once
  {
    ghost var before := db.View();
    ghost var cloneOf := db.CloneStranded();
    once := db.View();
    NoInstituteIsStranded(before, once, cloneOf);
    ghost var again := db.CloneStranded();
    NothingMoved(once, db.View(), again);
  }

  lemma SamePlans(before: Tables, after: Tables)
    requires PlansKept(before, after) && after.plans.Keys <= before.plans.Keys
    ensures after.plans == before.plans
  {
    assert after.plans.Keys == before.plans.Keys by {
      assert forall p :: p in before.plans ==> p in after.plans;
    }
    forall p | p in after.plans
      ensures after.plans[p] == before.plans[p]
    {
      assert p in before.plans;
    }
  }

  lemma NothingMoved(before: Tables, after: Tables, cloneOf: map<int, int>)
    requires Wellformed(before) && Moved(before, after, cloneOf, {})
    ensures after == before
  {
    forall c | c in after.plans
      ensures c in before.plans
    {
      assert !IsClone(cloneOf, c);
    }
    SamePlans(before, after);
    forall s | s in before.subscriptions
      ensures after.subscriptions[s] == before.subscriptions[s]
    {
    }
    assert after.subscriptions == before.subscriptions;
    SameLinks(before.planModules, after.planModules, before.plans);
    SameLinks(before.planCourses, after.planCourses, before.plans);
  }

  lemma SameLinks(a: set<(int, int)>, b: set<(int, int)>, plans: map<int, Plan>)
    requires forall link :: link in a || link in b ==> link.0 in plans
    requires forall p :: p in plans ==> Linked(a, p) == Linked(b, p)
    ensures a == b
  {
    forall link
      ensures link in a <==> link in b
    {
      if link in a || link in b {
        assert Linked(a, link.0) == Linked(b, link.0);
        assert link in a <==> link.1 in Linked(a, link.0);
        assert link in b <==> link.1 in Linked(b, link.0);
      }
    }
  }

  // ---------------------------------------------------------------- 0039, and the two in a row

  lemma HoldingsReleased(first: Tables, last: Tables, cloneOf: map<int, int>)
    requires Wellformed(first) && Wellformed(first.(plans := SplitPlans(first)))
    requires Moved(first.(plans := SplitPlans(first)), last, cloneOf, StrandedIds(first.(plans := SplitPlans(first))))
    ensures forall s :: s in last.subscriptions ==>
              s in first.subscriptions && HoldingOf(last, s) == HoldingOf(first, s)
  {
    var split := first.(plans := SplitPlans(first));
    forall s | s in last.subscriptions
      ensures s in first.subscriptions && HoldingOf(last, s) == HoldingOf(first, s)
    {
      EveryHoldingIsKept(split, last, cloneOf, s);
      assert HoldingOf(split, s) == HoldingOf(first, s);
    }
  }

  lemma NothingShared(split: Tables, last: Tables, cloneOf: map<int, int>, p: int)
    requires Moved(split, last, cloneOf, StrandedIds(split)) && p in last.plans
    requires forall q :: q in split.plans ==> split.plans[q].audience != "both"
    ensures last.plans[p].audience != "both"
  {
    if p !in split.plans {
      assert IsClone(cloneOf, p);
      var q :| q in cloneOf && cloneOf[q] == p;
      assert IsCloneOf(split, last, q, p);
    }
  }

  /** The catalogue release: after both migrations no plan is shared, and an institute's plan is one of the
      institute catalogue, an internal one, or was of some audience the release does not know. */
  method Release(db: Database)
    requires Wellformed(db.View())
    modifies db
    ensures Wellformed(db.View()) && db.subscriptions.Keys == old(db.subscriptions).Keys
    ensures forall p :: p in db.plans ==> db.plans[p].audience != "both"
    ensures forall s :: s in db.subscriptions && db.subscriptions[s].instituteId != None ==>
              var p := db.plans[db.subscriptions[s].planId]; p.audience != "direct_students" || p.isInternal
    ensures forall s :: s in db.subscriptions ==> HoldingOf(db.View(), s) == HoldingOf(old(db.View()), s)
  {
    ghost var first := db.View();
    db.SplitAudiences();
    ghost var split := db.View();
    assert split == first.(plans := SplitPlans(first)) && Wellformed(split);
    ghost var cloneOf := db.CloneStranded();
    ghost var last := db.View();
    HoldingsReleased(first, last, cloneOf);
    forall p | p in last.plans
      ensures last.plans[p].audience != "both"
    {
      NothingShared(split, last, cloneOf, p);
    }
    forall s | s in last.subscriptions && OfInstitute(last.subscriptions[s])
      ensures !DirectNotInternal(last.plans[last.subscriptions[s].planId])
    {
      InstituteLeftDirect(split, last, cloneOf, s);
    }
  }
}
