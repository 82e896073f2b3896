/**
  The sittings backfill of migration 0085, run on what 0084 left: each non-cancelled purchase whose plan
  contains a module is one sitting of it. The new column starts at 1 for every row and only counts above 1
  are written.
 */
module Sittings {
  import opened Common
  import opened Ledger

  predicate Includes(p: Purchase, pm: PlanModules, key: Key) {
    p.user == key.0 && Holds(pm, p.plan, key.1)
  }

  /** How many of the user's purchases contain the module, whatever their length. */
  function Bought(ps: seq<Purchase>, pm: PlanModules, key: Key): nat {
    if ps == [] then 0
    else Bought(ps[..|ps| - 1], pm, key) + (if Includes(ps[|ps| - 1], pm, key) then 1 else 0)
  }

  function CountAt(counts: map<Key, nat>, key: Key): nat {
    if key in counts then counts[key] else 0
  }

  ghost predicate Counted(counts: map<Key, nat>, so: Key -> nat, user: int, touched: set<int>) {
    forall key: Key :: CountAt(counts, key) == so(key) + (if key.0 == user && key.1 in touched then 1 else 0)
  }

  ghost predicate Tallies(counts: map<Key, nat>, ps: seq<Purchase>, pm: PlanModules) {
    forall key: Key :: CountAt(counts, key) == Bought(ps, pm, key)
  }

  /** One purchase adds one to each module of its plan. */
  method CountOne(before: map<Key, nat>, user: int, modules: set<int>, ghost so: Key -> nat)
    returns (counts: map<Key, nat>)
    requires Counted(before, so, user, {})
    ensures Counted(counts, so, user, modules)
  {
    counts := before;
    var rest := modules;
    ghost var touched := {};
    while rest != {}
      invariant touched + rest == modules && touched !! rest
      invariant Counted(counts, so, user, touched)
    {
      ghost var some := MemberOf(rest);
      var moduleId :| moduleId in rest;
      var key := (user, moduleId);
      ghost var was := counts;
      counts := counts[key := (if key in counts then counts[key] else 0) + 1];
      rest := rest - {moduleId};
      assert Counted(counts, so, user, touched + {moduleId}) by {
        forall k: Key
          ensures CountAt(counts, k) == so(k) + (if k.0 == user && k.1 in touched + {moduleId} then 1 else 0)
        {
          assert CountAt(was, k) == so(k) + (if k.0 == user && k.1 in touched then 1 else 0);
        }
      }
      touched := touched + {moduleId};
    }
    assert touched == modules;
  }

  /** The counting loop, over the rows in whatever order the database returns them. */
  method Tally(ps: seq<Purchase>, pm: PlanModules) returns (counts: map<Key, nat>)
    ensures Tallies(counts, ps, pm)
  {
    counts := map[];
    for i := 0 to |ps|
      invariant Tallies(counts, ps[..i], pm)
    {
      var p := ps[i];
      var modules := if p.plan in pm then pm[p.plan] else {};
      counts := CountOne(counts, p.user, modules, (key: Key) => Bought(ps[..i], pm, key));
      assert Tallies(counts, ps[..i + 1], pm) by {
        forall key: Key
          ensures CountAt(counts, key) == Bought(ps[..i + 1], pm, key)
        {
          assert ps[..i + 1][..i] == ps[..i];
          assert Includes(p, pm, key) <==> key.0 == p.user && key.1 in modules;
        }
      }
    }
    assert ps[..|ps|] == ps;
  }

  /** The column default and the updates over it: one sitting for each purchase, never fewer than one. */
  method Upgrade(entitlements: set<Key>, ps: seq<Purchase>, pm: PlanModules) returns (sittings: map<Key, nat>)
    ensures sittings.Keys == entitlements
    ensures forall key :: key in sittings ==>
              sittings[key] == if 1 < Bought(ps, pm, key) then Bought(ps, pm, key) else 1
  {
    sittings := map key | key in entitlements :: 1;
    var counts := Tally(ps, pm);
    var rest := counts.Keys;
    while rest != {}
      invariant rest <= counts.Keys && sittings.Keys == entitlements
      invariant forall key :: key in sittings ==>
                  sittings[key] == if 1 < CountAt(counts, key) && key !in rest then CountAt(counts, key) else 1
    {
      ghost var some := MemberOf(rest);
      var key :| key in rest;
      if 1 < counts[key] && key in sittings {
        sittings := sittings[key := counts[key]];
      }
      rest := rest - {key};
    }
  }

  // ---------------------------------------------------------------- agreement with the ledger

  lemma {:induction false} BoughtAppend(a: seq<Purchase>, b: seq<Purchase>, pm: PlanModules, key: Key)
    ensures Bought(a + b, pm, key) == Bought(a, pm, key) + Bought(b, pm, key)
    decreases |b|
  {
    if b == [] {
      assert a + b == a;
    } else {
      assert (a + b)[..|a + b| - 1] == a + b[..|b| - 1];
      BoughtAppend(a, b[..|b| - 1], pm, key);
    }
  }

  /** The count does not depend on the order of the rows. */
  lemma {:induction false} BoughtOfReordering(ps: seq<Purchase>, other: seq<Purchase>, pm: PlanModules, key: Key)
    requires multiset(ps) == multiset(other)
    ensures Bought(ps, pm, key) == Bought(other, pm, key)
    decreases |ps|
  {
    if ps == [] {
      assert |multiset(other)| == 0;
    } else {
      var i := LastOf(ps, other);
      var u, v := other[..i], other[i + 1..];
      BoughtOfReordering(ps[..|ps| - 1], u + v, pm, key);
      BoughtAppend(u, v, pm, key);
      BoughtAppend(u + [other[i]], v, pm, key);
      BoughtAppend(u, [other[i]], pm, key);
      BoughtAppend(ps[..|ps| - 1], [other[i]], pm, key);
    }
  }

  /** Every purchase of the module has a plan of positive length. */
  ghost predicate AllTimed(ps: seq<Purchase>, pm: PlanModules, durations: map<int, int>, key: Key) {
    forall i :: 0 <= i < |ps| && Includes(ps[i], pm, key) ==> 0 < DaysOf(durations, ps[i].plan)
  }

  /** The ledger folds in at most as many grants as there are sittings, and exactly as many when (and only
      when) no purchase of the module had a plan without days. */
  lemma {:induction false} GrantsAtMostBought(
    ps: seq<Purchase>, pm: PlanModules, durations: map<int, int>, now: int, key: Key)
    ensures var grants := |GrantsFor(ps, pm, durations, now, key)|; var bought := Bought(ps, pm, key);
            && grants <= bought
            && (grants == bought <==> AllTimed(ps, pm, durations, key))
    decreases |ps|
  {
    if ps != [] {
      var n := |ps| - 1;
      GrantsAtMostBought(ps[..n], pm, durations, now, key);
      if AllTimed(ps[..n], pm, durations, key) {
        assert AllTimed(ps, pm, durations, key)
          <==> (Includes(ps[n], pm, key) ==> 0 < DaysOf(durations, ps[n].plan));
      } else {
        var i :| 0 <= i < n && Includes(ps[..n][i], pm, key) && DaysOf(durations, ps[..n][i].plan) <= 0;
        assert ps[i] == ps[..n][i];
      }
    }
  }

  /** For every entitlement the ledger left, the sittings are exactly the purchases that included the module:
      the default of one is never wrong, because a row exists only where something was bought. */
  lemma SittingsAreThePurchases(
    ledger: map<Key, Entry>, sittings: map<Key, nat>, replayed: seq<Purchase>, counted: seq<Purchase>,
    pm: PlanModules, durations: map<int, int>, now: int, key: Key)
    requires multiset(replayed) == multiset(counted)
    requires LedgerIs(ledger, replayed, pm, durations, now) && key in ledger && key in sittings
    requires sittings[key] == if 1 < Bought(counted, pm, key) then Bought(counted, pm, key) else 1
    ensures sittings[key] == Bought(replayed, pm, key)
    ensures |GrantsFor(replayed, pm, durations, now, key)| <= sittings[key]
    ensures |GrantsFor(replayed, pm, durations, now, key)| == sittings[key]
            <==> AllTimed(replayed, pm, durations, key)
  {
    assert KeyIs(ledger, replayed, pm, durations, now, key);
    BoughtOfReordering(replayed, counted, pm, key);
    GrantsAtMostBought(replayed, pm, durations, now, key);
  }

  /** The two migrations in sequence over the same tables. */
  method BothMigrations(
    t: Contents, replayed: seq<Purchase>, counted: seq<Purchase>, durations: map<int, int>, now: int)
    returns (ledger: map<Key, Entry>, sittings: map<Key, nat>, ghost pm: PlanModules)
    requires multiset(replayed) == multiset(counted)
    ensures forall p, m :: Holds(pm, p, m) <==> PlanContains(t, p, m)
    ensures LedgerIs(ledger, replayed, pm, durations, now)
    ensures sittings.Keys == ledger.Keys
    ensures forall key :: key in ledger ==> sittings[key] == Bought(replayed, pm, key)
    ensures forall key :: key in ledger ==> sittings[key] == |PurchasesOf(replayed, t, key)|
  {
    ledger, pm := Ledger.Upgrade(t, replayed, durations, now);
    var built := BuildPlanModules(t);
    SamePlanModules(built, pm);
    sittings := Upgrade(ledger.Keys, counted, built);
    forall key | key in ledger
      ensures sittings[key] == Bought(replayed, pm, key)
    {
      SittingsAreThePurchases(ledger, sittings, replayed, counted, pm, durations, now, key);
    }
    forall key | key in ledger
      ensures sittings[key] == |PurchasesOf(replayed, t, key)|
    {
      BoughtIsCount(replayed, t, pm, key);
    }
  }

  /** The student's purchases whose plan contains the module, by their place in the list. */
  ghost function PurchasesOf(ps: seq<Purchase>, t: Contents, key: Key): set<int> {
    set i | 0 <= i < |ps| && ps[i].user == key.0 && PlanContains(t, ps[i].plan, key.1)
  }

  lemma PurchasesSnoc(ps: seq<Purchase>, t: Contents, key: Key)
    requires ps != []
    ensures var n := |ps| - 1; var before := PurchasesOf(ps[..n], t, key);
            && n !in before
            && PurchasesOf(ps, t, key)
               == if ps[n].user == key.0 && PlanContains(t, ps[n].plan, key.1) then before + {n} else before
  {
    var n := |ps| - 1;
    var after := if ps[n].user == key.0 && PlanContains(t, ps[n].plan, key.1)
      then PurchasesOf(ps[..n], t, key) + {n} else PurchasesOf(ps[..n], t, key);
    forall i
      ensures i in PurchasesOf(ps, t, key) <==> i in after
    {
      if 0 <= i < n {
        assert ps[..n][i] == ps[i];
      }
    }
  }

  lemma {:induction false} BoughtIsCount(ps: seq<Purchase>, t: Contents, pm: PlanModules, key: Key)
    requires forall p, m :: Holds(pm, p, m) <==> PlanContains(t, p, m)
    ensures Bought(ps, pm, key) == |PurchasesOf(ps, t, key)|
    decreases |ps|
  {
    if ps != [] {
      var n := |ps| - 1;
      BoughtIsCount(ps[..n], t, pm, key);
      PurchasesSnoc(ps, t, key);
      assert Holds(pm, ps[n].plan, key.1) <==> PlanContains(t, ps[n].plan, key.1);
    }
  }

  /** The mapping from plans to modules is fixed by what the tables contain. */
  lemma SamePlanModules(a: PlanModules, b: PlanModules)
    requires forall p, m :: Holds(a, p, m) <==> Holds(b, p, m)
    ensures a == b
  {
    forall p | p in a
      ensures p in b && a[p] == b[p]
    {
      var m := MemberOf(a[p]);
      assert Holds(a, p, m) && Holds(b, p, m);
      forall k
        ensures k in a[p] <==> k in b[p]
      {
        assert Holds(a, p, k) <==> Holds(b, p, k);
      }
    }
    forall p | p in b
      ensures p in a
    {
      var m := MemberOf(b[p]);
      assert Holds(b, p, m) && Holds(a, p, m);
    }
  }
}
