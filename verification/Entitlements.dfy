/**
  Granting a plan as the running service does it (`grant_plan` of
  backend/app/services/entitlement_service.py), and when granting every purchase as of its start leaves the rows
  that the two backfills, 0084 and 0085, rebuild.
 */
module Entitlements {
  import opened Common
  import opened Ledger
  import Sittings

  datatype Row = Row(expiresAt: int, grantedDays: int, lastSubscription: int, sittings: nat)

  /** One module's row after one grant, which also buys one more sitting. */
  function GrantRow(previous: Option<Row>, g: Grant): Row {
    match previous
    case None => Row(g.boughtAt + g.days * DAY, g.days, g.subscription, 1)
    case Some(r) =>
      Row(Max(g.boughtAt, r.expiresAt) + g.days * DAY, r.grantedDays + g.days, g.subscription, r.sittings + 1)
  }

  function RowAt(rows: map<Key, Row>, key: Key): Option<Row> {
    if key in rows then Some(rows[key]) else None
  }

  class Service {
    var rows: map<Key, Row>

    constructor ()
      ensures rows == map[]
    {
      rows := map[];
    }

    /** `grant_plan`: every module of the plan gains the days from its own expiry, the others are not disturbed. */
    method GrantPlan(user: int, modules: set<int>, g: Grant)
      modifies this
      ensures forall key: Key ::
                RowAt(rows, key)
                == if key.0 == user && key.1 in modules then Some(GrantRow(RowAt(old(rows), key), g))
                   else RowAt(old(rows), key)
    {
      ghost var before := rows;
      var rest := modules;
      while rest != {}
        invariant rest <= modules
        invariant forall key: Key ::
                    RowAt(rows, key)
                    == if key.0 == user && key.1 in modules && key.1 !in rest
                       then Some(GrantRow(RowAt(before, key), g)) else RowAt(before, key)
      {
        ghost var some := MemberOf(rest);
        var moduleId :| moduleId in rest;
        var key := (user, moduleId);
        assert RowAt(rows, key) == RowAt(before, key);
        if key in rows {
          var row := rows[key];
          rows := rows[key := Row(
            Max(g.boughtAt, row.expiresAt) + g.days * DAY, row.grantedDays + g.days, g.subscription, row.sittings + 1)];
        } else {
          rows := rows[key := Row(g.boughtAt + g.days * DAY, g.days, g.subscription, 1)];
        }
        rest := rest - {moduleId};
      }
    }

    /** `replay_subscriptions`: the purchases in turn, each granted as of its own start. */
    method GrantEach(ps: seq<Purchase>, pm: PlanModules, durations: map<int, int>, now: int)
      requires rows == map[]
      modifies this
      ensures forall key: Key :: RowAt(rows, key) == LiveRow(ps, pm, durations, now, key)
    {
      for i := 0 to |ps|
        invariant forall key: Key :: RowAt(rows, key) == LiveRow(ps[..i], pm, durations, now, key)
      {
        var p := ps[i];
        assert ps[..i + 1][..i] == ps[..i];
        ghost var before := rows;
        GrantPlan(p.user, if p.plan in pm then pm[p.plan] else {}, GrantOf(p, durations, now));
        forall key: Key
          ensures RowAt(rows, key) == LiveRow(ps[..i + 1], pm, durations, now, key)
        {
          assert RowAt(before, key) == LiveRow(ps[..i], pm, durations, now, key);
        }
      }
      assert ps[..|ps|] == ps;
    }
  }

  /** One module's row after every purchase of a list has been granted in turn. */
  function LiveRow(ps: seq<Purchase>, pm: PlanModules, durations: map<int, int>, now: int, key: Key): Option<Row> {
    if ps == [] then None
    else
      var before := LiveRow(ps[..|ps| - 1], pm, durations, now, key);
      var p := ps[|ps| - 1];
      if Sittings.Includes(p, pm, key) then Some(GrantRow(before, GrantOf(p, durations, now))) else before
  }

  /** The live row's sittings are the purchases that included the module, always. */
  lemma {:induction false} LiveSittings(
    ps: seq<Purchase>, pm: PlanModules, durations: map<int, int>, now: int, key: Key)
    ensures var row := LiveRow(ps, pm, durations, now, key); var bought := Sittings.Bought(ps, pm, key);
            (row.None? <==> bought == 0) && (row.Some? ==> row.value.sittings == bought)
    decreases |ps|
  {
    if ps != [] {
      LiveSittings(ps[..|ps| - 1], pm, durations, now, key);
    }
  }

  /** A ledger entry and a count of sittings, as one row. */
  function RowOf(entry: Option<Entry>, sittings: nat): Option<Row> {
    match entry
    case None => None
    case Some(e) => Some(Row(e.expiresAt, e.grantedDays, e.lastSubscription, sittings))
  }

  /** The row the two backfills rebuild. */
  function RebuiltRow(ps: seq<Purchase>, pm: PlanModules, durations: map<int, int>, now: int, key: Key): Option<Row> {
    RowOf(Fold(GrantsFor(ps, pm, durations, now, key)), Sittings.Bought(ps, pm, key))
  }

  /** The purchases that include the module, with or without days. */
  function Including(pm: PlanModules, key: Key): Choice {
    (p: Purchase) => Sittings.Includes(p, pm, key)
  }

  /** Nothing includes the module, or the last purchase that does has days. */
  predicate LastHasDays(ps: seq<Purchase>, pm: PlanModules, durations: map<int, int>, key: Key) {
    if ps == [] then true
    else
      var p := ps[|ps| - 1];
      if Sittings.Includes(p, pm, key) then 0 < DaysOf(durations, p.plan)
      else LastHasDays(ps[..|ps| - 1], pm, durations, key)
  }

  /** Each purchase of the module is of a plan of no negative length, and they have ids of their own. */
  ghost predicate ProperPurchases(ps: seq<Purchase>, pm: PlanModules, durations: map<int, int>, key: Key) {
    && (forall i :: 0 <= i < |ps| && Sittings.Includes(ps[i], pm, key) ==> 0 <= DaysOf(durations, ps[i].plan))
    && (forall i, j :: 0 <= i < j < |ps| && Sittings.Includes(ps[i], pm, key) && Sittings.Includes(ps[j], pm, key)
          ==> ps[i].id != ps[j].id)
  }

  /** Beside the ledger's entry, the live row may end later, but only as late as the last purchase: from there on
      both are the same base to build on. */
  ghost predicate SameBaseFrom(entry: Option<Entry>, row: Option<Row>, limit: int) {
    && (row.None? ==> entry.None?)
    && (row.Some? && entry.None? ==> row.value.expiresAt <= limit && row.value.grantedDays == 0)
    && (row.Some? && entry.Some? ==>
          && Max(limit, row.value.expiresAt) == Max(limit, entry.value.expiresAt)
          && row.value.grantedDays == entry.value.grantedDays)
  }

  lemma SameBaseLater(entry: Option<Entry>, row: Option<Row>, limit: int, later: int)
    requires SameBaseFrom(entry, row, limit) && limit <= later
    ensures SameBaseFrom(entry, row, later)
  {
  }

  /** One more purchase on the same base: with days both rows come out alike, without days only the live one moves. */
  lemma SameBaseGrows(entry: Option<Entry>, row: Option<Row>, g: Grant)
    requires SameBaseFrom(entry, row, g.boughtAt) && 0 <= g.days
    ensures var after := GrantRow(row, g);
            if 0 < g.days then
              var e := Stack(entry, g);
              && after.expiresAt == e.expiresAt && after.grantedDays == e.grantedDays
              && after.lastSubscription == e.lastSubscription
            else SameBaseFrom(entry, Some(after), g.boughtAt)
  {
  }

  /** While nothing is bought the row stands still, so the base stays the same from the last purchase on. */
  lemma {:induction false} SameBase(
    ps: seq<Purchase>, pm: PlanModules, durations: map<int, int>, now: int, key: Key, limit: int)
    requires InstantOrder(ps, now, Including(pm, key)) && ProperPurchases(ps, pm, durations, key)
    requires ChosenBy(ps, now, Including(pm, key), limit)
    ensures SameBaseFrom(
      Fold(GrantsFor(ps, pm, durations, now, key)), LiveRow(ps, pm, durations, now, key), limit)
    decreases |ps|
  {
    if ps != [] {
      var n := |ps| - 1;
      var p := ps[n];
      ProperSnoc(ps, pm, durations, key);
      InstantOrderSnoc(ps, now, Including(pm, key));
      ChosenBySnoc(ps, now, Including(pm, key), limit);
      FoldOfLast(ps, pm, durations, now, key);
      if Sittings.Includes(p, pm, key) {
        var at := BoughtAt(p, now);
        SameBase(ps[..n], pm, durations, now, key, at);
        var entry := Fold(GrantsFor(ps[..n], pm, durations, now, key));
        var row := LiveRow(ps[..n], pm, durations, now, key);
        var g := GrantOf(p, durations, now);
        SameBaseGrows(entry, row, g);
        SameBaseLater(Fold(GrantsFor(ps, pm, durations, now, key)), Some(GrantRow(row, g)), at, limit);
      } else {
        SameBase(ps[..n], pm, durations, now, key, limit);
      }
    }
  }

  lemma ProperSnoc(ps: seq<Purchase>, pm: PlanModules, durations: map<int, int>, key: Key)
    requires ps != [] && ProperPurchases(ps, pm, durations, key)
    ensures ProperPurchases(ps[..|ps| - 1], pm, durations, key)
  {
    assert forall i :: 0 <= i < |ps| - 1 ==> ps[..|ps| - 1][i] == ps[i];
  }

  /** The ledger's entry names one of the purchases that include the module. */
  lemma {:induction false} EntryNamesPurchase(
    ps: seq<Purchase>, pm: PlanModules, durations: map<int, int>, now: int, key: Key) returns (i: nat)
    requires GrantsFor(ps, pm, durations, now, key) != []
    ensures i < |ps| && Sittings.Includes(ps[i], pm, key)
    ensures Fold(GrantsFor(ps, pm, durations, now, key)).value.lastSubscription == ps[i].id
    decreases |ps|
  {
    var n := |ps| - 1;
    FoldOfLast(ps, pm, durations, now, key);
    if Contributes(ps[n], pm, durations, key) {
      i := n;
    } else {
      assert GrantsFor(ps, pm, durations, now, key) == GrantsFor(ps[..n], pm, durations, now, key);
      i := EntryNamesPurchase(ps[..n], pm, durations, now, key);
    }
  }

  /** Purchases in order of time: the backfills rebuild exactly what the service leaves when it grants every
      purchase as of its start, exactly when the last purchase of the module is of a plan with days. A plan
      without days before that leaves no trace. */
  lemma {:induction false} RebuiltIsLiveIff(
    ps: seq<Purchase>, pm: PlanModules, durations: map<int, int>, now: int, key: Key)
    requires InstantOrder(ps, now, Including(pm, key)) && ProperPurchases(ps, pm, durations, key)
    ensures RebuiltRow(ps, pm, durations, now, key) == LiveRow(ps, pm, durations, now, key)
            <==> LastHasDays(ps, pm, durations, key)
    decreases |ps|
  {
    if ps != [] {
      var n := |ps| - 1;
      ProperSnoc(ps, pm, durations, key);
      InstantOrderSnoc(ps, now, Including(pm, key));
      FoldOfLast(ps, pm, durations, now, key);
      if !Sittings.Includes(ps[n], pm, key) {
        RebuiltIsLiveIff(ps[..n], pm, durations, now, key);
      } else if 0 < DaysOf(durations, ps[n].plan) {
        LastWithDaysAgrees(ps, pm, durations, now, key);
      } else {
        LastWithoutDaysParts(ps, pm, durations, now, key);
      }
    }
  }

  lemma LastWithDaysAgrees(ps: seq<Purchase>, pm: PlanModules, durations: map<int, int>, now: int, key: Key)
    requires InstantOrder(ps, now, Including(pm, key)) && ProperPurchases(ps, pm, durations, key)
    requires ps != [] && Contributes(ps[|ps| - 1], pm, durations, key)
    ensures RebuiltRow(ps, pm, durations, now, key) == LiveRow(ps, pm, durations, now, key)
  {
    var n := |ps| - 1;
    ProperSnoc(ps, pm, durations, key);
    InstantOrderSnoc(ps, now, Including(pm, key));
    SameBase(ps[..n], pm, durations, now, key, BoughtAt(ps[n], now));
    SameBaseGrows(
      Fold(GrantsFor(ps[..n], pm, durations, now, key)), LiveRow(ps[..n], pm, durations, now, key),
      GrantOf(ps[n], durations, now));
    FoldOfLast(ps, pm, durations, now, key);
    LiveSittings(ps, pm, durations, now, key);
  }

  lemma LastWithoutDaysParts(ps: seq<Purchase>, pm: PlanModules, durations: map<int, int>, now: int, key: Key)
    requires ProperPurchases(ps, pm, durations, key)
    requires ps != [] && Sittings.Includes(ps[|ps| - 1], pm, key) && DaysOf(durations, ps[|ps| - 1].plan) <= 0
    ensures RebuiltRow(ps, pm, durations, now, key) != LiveRow(ps, pm, durations, now, key)
  {
    var n := |ps| - 1;
    FoldOfLast(ps, pm, durations, now, key);
    var before := GrantsFor(ps[..n], pm, durations, now, key);
    assert before + [] == before;
    if before != [] {
      var i := EntryNamesPurchase(ps[..n], pm, durations, now, key);
      assert ps[i].id != ps[n].id;
    }
  }

  lemma RowOfStack(entry: Option<Entry>, sittings: nat, g: Grant)
    requires entry.None? ==> sittings == 0
    ensures RowOf(Some(Stack(entry, g)), sittings + 1) == Some(GrantRow(RowOf(entry, sittings), g))
  {
  }

  lemma RebuiltSnoc(ps: seq<Purchase>, pm: PlanModules, durations: map<int, int>, now: int, key: Key)
    requires ps != [] && (Sittings.Includes(ps[|ps| - 1], pm, key) ==> 0 < DaysOf(durations, ps[|ps| - 1].plan))
    requires Fold(GrantsFor(ps[..|ps| - 1], pm, durations, now, key)).None?
             ==> Sittings.Bought(ps[..|ps| - 1], pm, key) == 0
    ensures var p := ps[|ps| - 1]; var before := RebuiltRow(ps[..|ps| - 1], pm, durations, now, key);
            RebuiltRow(ps, pm, durations, now, key)
            == if Sittings.Includes(p, pm, key) then Some(GrantRow(before, GrantOf(p, durations, now))) else before
  {
    var n := |ps| - 1;
    FoldOfLast(ps, pm, durations, now, key);
    RowOfStack(
      Fold(GrantsFor(ps[..n], pm, durations, now, key)), Sittings.Bought(ps[..n], pm, key),
      GrantOf(ps[n], durations, now));
  }

  /** In whatever order the purchases stand, plans that all have days leave no difference. */
  lemma {:induction false} TimedPlansAgreeInAnyOrder(
    ps: seq<Purchase>, pm: PlanModules, durations: map<int, int>, now: int, key: Key)
    requires Sittings.AllTimed(ps, pm, durations, key)
    ensures RebuiltRow(ps, pm, durations, now, key) == LiveRow(ps, pm, durations, now, key)
    decreases |ps|
  {
    if ps != [] {
      var n := |ps| - 1;
      assert forall i :: 0 <= i < n ==> ps[..n][i] == ps[i];
      TimedPlansAgreeInAnyOrder(ps[..n], pm, durations, now, key);
      LiveSittings(ps[..n], pm, durations, now, key);
      RebuiltSnoc(ps, pm, durations, now, key);
    }
  }
}
