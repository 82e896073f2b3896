/**
  Retakes and the unique indexes on test_attempts: the backfill of migration 0058 in both dialects, and the
  stored generated column with which 0054 and 0058 stand in for a partial unique index on MySQL.
 */
module Attempts {
  import opened Common

  datatype Attempt = Attempt(user: int, moduleId: int, sitting: int, status: string, isRetake: bool)

  type Table = map<int, Attempt>

  predicate SamePaper(a: Attempt, b: Attempt) {
    a.user == b.user && a.moduleId == b.moduleId
  }

  // ---------------------------------------------------------------- the backfill

  /** The self-join finds an older attempt at the same paper. */
  predicate HasOlder(rows: Table, id: int) {
    id in rows && exists other :: other in rows && SamePaper(rows[id], rows[other]) && other < id
  }

  /** MIN(id) of the row's (user, module) group. */
  predicate IsGroupMin(rows: Table, id: int) {
    id in rows && forall other :: other in rows && SamePaper(rows[id], rows[other]) ==> id <= other
  }

  /** The rows that have an older attempt beside them are marked, and nothing else changes. */
  function Backfilled(rows: Table): Table {
    map id | id in rows :: if HasOlder(rows, id) then rows[id].(isRetake := true) else rows[id]
  }

  class AttemptTable {
    var rows: Table

    constructor (rows: Table)
      ensures this.rows == rows
    {
      this.rows := rows;
    }

    /** The MySQL form: join the table to itself on student and module, the first row newer than the second, and
        set the flag of the first row of every pair. */
    method MarkBySelfJoin()
      modifies this
      ensures rows == Backfilled(old(rows))
    {
      var pairs := set t1, t2 | t1 in rows && t2 in rows && SamePaper(rows[t1], rows[t2]) && t2 < t1 :: (t1, t2);
      var rest := pairs;
      ghost var before := rows;
      while rest != {}
        invariant rest <= pairs && rows.Keys == before.Keys
        invariant forall id :: id in before ==>
                    rows[id] == if AmongFirst(pairs - rest, id) then before[id].(isRetake := true) else before[id]
      {
        ghost var some := MemberOf(rest);
        var pair :| pair in rest;
        AmongFirstGrows(pairs - rest, pair);
        assert pairs - (rest - {pair}) == pairs - rest + {pair};
        rows := rows[pair.0 := rows[pair.0].(isRetake := true)];
        rest := rest - {pair};
      }
      forall id | id in before
        ensures AmongFirst(pairs, id) <==> HasOlder(before, id)
      {
        JoinedIffOlder(before, pairs, id);
      }
      assert pairs - {} == pairs;
    }

    /** The other form: collect the least id of every group, then update every row not collected. */
    method MarkByGroupMin()
      modifies this
      ensures rows == Backfilled(old(rows))
    {
      var mins := GroupMins(rows);
      NotCollectedIffOlder(rows, mins);
      rows := map id | id in rows :: if id !in mins.Values then rows[id].(isRetake := true) else rows[id];
    }
  }

  /** The row is the newer one of some pair. */
  ghost predicate AmongFirst(pairs: set<(int, int)>, id: int) {
    exists pair :: pair in pairs && pair.0 == id
  }

  lemma AmongFirstGrows(pairs: set<(int, int)>, pair: (int, int))
    ensures forall id :: AmongFirst(pairs + {pair}, id) <==> AmongFirst(pairs, id) || id == pair.0
  {
    forall id | AmongFirst(pairs, id) || id == pair.0
      ensures AmongFirst(pairs + {pair}, id)
    {
      if id == pair.0 {
        assert pair in pairs + {pair};
      } else {
        var other :| other in pairs && other.0 == id;
        assert other in pairs + {pair};
      }
    }
  }

  lemma JoinedIffOlder(rows: Table, pairs: set<(int, int)>, id: int)
    requires forall pair :: pair in pairs <==>
               pair.0 in rows && pair.1 in rows && SamePaper(rows[pair.0], rows[pair.1]) && pair.1 < pair.0
    ensures AmongFirst(pairs, id) <==> HasOlder(rows, id)
  {
    if HasOlder(rows, id) {
      var other :| other in rows && SamePaper(rows[id], rows[other]) && other < id;
      assert (id, other) in pairs;
    }
  }

  ghost predicate AreGroupMins(rows: Table, ids: set<int>, mins: map<(int, int), int>) {
    && (forall k :: k in mins ==> mins[k] in rows && Group(rows[mins[k]]) == k)
    && (forall id :: id in ids && id in rows ==> Group(rows[id]) in mins && mins[Group(rows[id])] <= id)
  }

  /** SELECT MIN(id) ... GROUP BY user_id, module_id. */
  method GroupMins(rows: Table) returns (mins: map<(int, int), int>)
    ensures AreGroupMins(rows, rows.Keys, mins)
  {
    mins := map[];
    var rest := rows.Keys;
    ghost var seen: set<int> := {};
    while rest != {}
      invariant seen + rest == rows.Keys && AreGroupMins(rows, seen, mins)
    {
      ghost var some := MemberOf(rest);
      var id :| id in rest;
      var k := Group(rows[id]);
      if k !in mins || id < mins[k] {
        mins := mins[k := id];
      }
      rest := rest - {id};
      seen := seen + {id};
    }
    assert seen == rows.Keys;
  }

  function Group(a: Attempt): (int, int) {
    (a.user, a.moduleId)
  }

  lemma CollectedIffMin(rows: Table, mins: map<(int, int), int>, id: int)
    requires id in rows
    requires AreGroupMins(rows, rows.Keys, mins)
    ensures id in mins.Values <==> IsGroupMin(rows, id)
  {
    var k := Group(rows[id]);
    if id in mins.Values {
      var g :| g in mins && mins[g] == id;
      assert g == k;
      forall other | other in rows && SamePaper(rows[id], rows[other])
        ensures id <= other
      {
        assert Group(rows[other]) == k;
      }
    }
    if IsGroupMin(rows, id) {
      assert SamePaper(rows[id], rows[mins[k]]);
      assert mins[k] == id;
    }
  }

  lemma NotCollectedIffOlder(rows: Table, mins: map<(int, int), int>)
    requires AreGroupMins(rows, rows.Keys, mins)
    ensures forall id :: id in rows ==> (id !in mins.Values <==> HasOlder(rows, id))
  {
    forall id | id in rows
      ensures id !in mins.Values <==> HasOlder(rows, id)
    {
      CollectedIffMin(rows, mins, id);
      OlderIffNotMin(rows, id);
    }
  }

  lemma OlderIffNotMin(rows: Table, id: int)
    requires id in rows
    ensures HasOlder(rows, id) <==> !IsGroupMin(rows, id)
  {
  }

  /** The two dialects mark the same rows: having an older attempt beside it is not being the least of a group. */
  lemma DialectsAgree(rows: Table)
    ensures forall id :: id in rows ==> (HasOlder(rows, id) <==> !IsGroupMin(rows, id))
  {
  }

  lemma {:induction false} OldestExists(rows: Table, ids: set<int>, id: int) returns (oldest: int)
    requires id in ids && ids <= rows.Keys
    ensures oldest in ids && SamePaper(rows[id], rows[oldest])
    ensures forall other :: other in ids && SamePaper(rows[id], rows[other]) ==> oldest <= other
    decreases |ids|
  {
    if exists other :: other in ids && other < id && SamePaper(rows[id], rows[other]) {
      var other :| other in ids && other < id && SamePaper(rows[id], rows[other]);
      oldest := OldestExists(rows, ids - {id}, other);
    } else {
      oldest := id;
    }
  }

  ghost predicate Fresh(rows: Table) {
    forall id :: id in rows ==> !rows[id].isRetake
  }

  /** On a freshly added flag the backfill leaves exactly one original per student and module, the oldest,
      and touches nothing but the flag. */
  lemma OneOriginalEach(rows: Table, id: int) returns (oldest: int)
    requires Fresh(rows) && id in rows
    ensures var after := Backfilled(rows);
            && oldest in after && after[oldest].user == rows[id].user && after[oldest].moduleId == rows[id].moduleId
            && !after[oldest].isRetake && after.Keys == rows.Keys
            && (forall other :: other in after && after[other].user == rows[id].user
                                && after[other].moduleId == rows[id].moduleId ==>
                  oldest <= other && (!after[other].isRetake ==> other == oldest))
            && after[id] == rows[id].(isRetake := id != oldest)
  {
    oldest := OldestExists(rows, rows.Keys, id);
    var after := Backfilled(rows);
    forall other | other in after && SamePaper(after[id], after[other])
      ensures oldest <= other && (!after[other].isRetake ==> other == oldest)
    {
      assert SamePaper(rows[id], rows[other]);
      if other != oldest {
        assert SamePaper(rows[other], rows[oldest]) && oldest < other;
        assert HasOlder(rows, other);
      }
    }
    assert !HasOlder(rows, oldest);
  }

  // ---------------------------------------------------------------- the unique indexes

  /** What an index keeps apart: a student's modules, or a student's sittings of a module. */
  datatype Key = OfModule(user: int, moduleId: int) | OfSitting(user: int, moduleId: int, sitting: int)

  /** A unique index over the rows in `scope`, by the columns of `key`. */
  datatype Index = Index(scope: Attempt -> bool, key: Attempt -> Key)

  function ByModule(): Attempt -> Key { (a: Attempt) => OfModule(a.user, a.moduleId) }
  function BySitting(): Attempt -> Key { (a: Attempt) => OfSitting(a.user, a.moduleId, a.sitting) }

  function ActiveScope(): Attempt -> bool { (a: Attempt) => a.status == "in_progress" }
  function OriginalScope(): Attempt -> bool { (a: Attempt) => !a.isRetake }
  function EveryRow(): Attempt -> bool { (a: Attempt) => true }

  /** The index over attempts in progress that 0054 makes good on MySQL. */
  const IN_PROGRESS := Index(ActiveScope(), ByModule())

  /** The index over originals as 0058 makes it, and as 0085 and the model declare it. */
  const ORIGINALS_0058 := Index(OriginalScope(), ByModule())
  const ORIGINALS := Index(OriginalScope(), BySitting())

  /** The same columns over every row, which is what MySQL was left with where the condition was dropped. */
  function Unconditional(x: Index): Index {
    Index(EveryRow(), x.key)
  }

  /** A write to the table: a row inserted or overwritten, or a row removed. */
  datatype Write = Put(id: int, row: Attempt) | Remove(id: int)

  function Written(rows: Table, w: Write): Table {
    match w
    case Put(id, row) => rows[id := row]
    case Remove(id) => rows - {id}
  }

  ghost predicate Unique(x: Index, rows: Table) {
    forall i, j :: i in rows && j in rows && x.scope(rows[i]) && x.scope(rows[j]) && x.key(rows[i]) == x.key(rows[j])
      ==> i == j
  }

  /** A partial unique index keeps the rows in scope: their key to their id. */
  datatype PartialEngine = PartialEngine(rows: Table, index: map<Key, int>)

  /** The generated slot holds the module of a row in scope and NULL otherwise. */
  function Slot(scope: Attempt -> bool, a: Attempt): Option<int> {
    if scope(a) then Some(a.moduleId) else None
  }

  /** A plain unique index over (user, slot). NULLs are distinct from each other, so an entry with a NULL slot
      is kept apart by its row's id and never collides. */
  datatype SlotKey = SlotKey(user: int, slot: Option<int>, nullOf: Option<int>)

  datatype SlotEngine = SlotEngine(rows: Table, index: map<SlotKey, int>)

  function KeyOf(scope: Attempt -> bool, id: int, a: Attempt): SlotKey {
    var slot := Slot(scope, a);
    SlotKey(a.user, slot, if slot.None? then Some(id) else None)
  }

  /** The index without the old entry of the row that is about to be written. */
  function WithoutOld(x: Index, e: PartialEngine, id: int): map<Key, int> {
    if id in e.rows && x.scope(e.rows[id]) then e.index - {x.key(e.rows[id])} else e.index
  }

  /** One write to the partial index: take the old row's entry out, look for a collision, put the new one in. */
  function PartialStep(x: Index, e: PartialEngine, w: Write): Option<PartialEngine> {
    var without := WithoutOld(x, e, w.id);
    match w
    case Remove(id) => Some(PartialEngine(e.rows - {id}, without))
    case Put(id, row) =>
      if x.scope(row) then
        if x.key(row) in without then None
        else Some(PartialEngine(e.rows[id := row], without[x.key(row) := id]))
      else Some(PartialEngine(e.rows[id := row], without))
  }

  /** The same write to the index over the generated column. */
  function SlotStep(scope: Attempt -> bool, e: SlotEngine, w: Write): Option<SlotEngine> {
    var without := if w.id in e.rows then e.index - {KeyOf(scope, w.id, e.rows[w.id])} else e.index;
    match w
    case Remove(id) => Some(SlotEngine(e.rows - {id}, without))
    case Put(id, row) =>
      if KeyOf(scope, id, row) in without then None
      else Some(SlotEngine(e.rows[id := row], without[KeyOf(scope, id, row) := id]))
  }

  /** A refused write leaves the table as it was and the trace goes on. */
  function PartialRun(x: Index, e: PartialEngine, ws: seq<Write>): (PartialEngine, seq<bool>)
    decreases |ws|
  {
    if ws == [] then (e, [])
    else
      var next := PartialStep(x, e, ws[0]);
      var (last, answers) := PartialRun(x, if next.Some? then next.value else e, ws[1..]);
      (last, [next.Some?] + answers)
  }

  function SlotRun(scope: Attempt -> bool, e: SlotEngine, ws: seq<Write>): (SlotEngine, seq<bool>)
    decreases |ws|
  {
    if ws == [] then (e, [])
    else
      var next := SlotStep(scope, e, ws[0]);
      var (last, answers) := SlotRun(scope, if next.Some? then next.value else e, ws[1..]);
      (last, [next.Some?] + answers)
  }

  ghost predicate PartialFits(x: Index, e: PartialEngine) {
    && (forall id :: id in e.rows && x.scope(e.rows[id]) ==>
          x.key(e.rows[id]) in e.index && e.index[x.key(e.rows[id])] == id)
    && (forall k :: k in e.index ==>
          e.index[k] in e.rows && x.scope(e.rows[e.index[k]]) && x.key(e.rows[e.index[k]]) == k)
  }

  ghost predicate SlotFits(scope: Attempt -> bool, e: SlotEngine) {
    && (forall id :: id in e.rows ==>
          KeyOf(scope, id, e.rows[id]) in e.index && e.index[KeyOf(scope, id, e.rows[id])] == id)
    && (forall k :: k in e.index ==>
          e.index[k] in e.rows && KeyOf(scope, e.index[k], e.rows[e.index[k]]) == k)
  }

  lemma PartialStepFits(x: Index, e: PartialEngine, w: Write)
    requires PartialFits(x, e)
    ensures PartialStep(x, e, w).Some? ==> PartialFits(x, PartialStep(x, e, w).value)
  {
  }

  lemma SlotStepFits(scope: Attempt -> bool, e: SlotEngine, w: Write)
    requires SlotFits(scope, e)
    ensures SlotStep(scope, e, w).Some? ==> SlotFits(scope, SlotStep(scope, e, w).value)
  {
  }

  /** What the index means: the table is unique, and a write is taken exactly when the table it leads to is. */
  lemma PartialAcceptsIffUnique(x: Index, e: PartialEngine, w: Write)
    requires PartialFits(x, e)
    ensures Unique(x, e.rows)
    ensures PartialStep(x, e, w).Some? <==> Unique(x, Written(e.rows, w))
    ensures PartialStep(x, e, w).Some? ==> PartialStep(x, e, w).value.rows == Written(e.rows, w)
  {
    var without := WithoutOld(x, e, w.id);
    var after := Written(e.rows, w);
    if w.Put? && x.scope(w.row) && x.key(w.row) in without {
      var other := without[x.key(w.row)];
      assert other != w.id && x.key(after[w.id]) == x.key(after[other]);
    }
  }

  // ---------------------------------------------------------------- the slot that stands in for a condition

  lemma OneStepAlike(x: Index, p: PartialEngine, s: SlotEngine, w: Write)
    requires x.key == ByModule() && PartialFits(x, p) && SlotFits(x.scope, s) && p.rows == s.rows
    ensures PartialStep(x, p, w).Some? <==> SlotStep(x.scope, s, w).Some?
    ensures PartialStep(x, p, w).Some? ==>
              PartialStep(x, p, w).value.rows == SlotStep(x.scope, s, w).value.rows
  {
    if w.Put? && x.scope(w.row) {
      var pw := WithoutOld(x, p, w.id);
      var sw := if w.id in s.rows then s.index - {KeyOf(x.scope, w.id, s.rows[w.id])} else s.index;
      var k := KeyOf(x.scope, w.id, w.row);
      if x.key(w.row) in pw {
        var other := pw[x.key(w.row)];
        assert KeyOf(x.scope, other, s.rows[other]) == k;
      }
      if k in sw {
        var other := sw[k];
        assert x.scope(p.rows[other]) && x.key(p.rows[other]) == x.key(w.row);
      }
    }
  }

  /** On every trace of inserts, updates and deletions the index over the generated slot gives the same
      answers, and leaves the same table, as the partial index it stands in for. */
  lemma {:induction false} SlotEmulatesPartial(x: Index, p: PartialEngine, s: SlotEngine, ws: seq<Write>)
    requires x.key == ByModule() && PartialFits(x, p) && SlotFits(x.scope, s) && p.rows == s.rows
    ensures PartialRun(x, p, ws).1 == SlotRun(x.scope, s, ws).1
    ensures PartialRun(x, p, ws).0.rows == SlotRun(x.scope, s, ws).0.rows
    ensures Unique(x, PartialRun(x, p, ws).0.rows)
    decreases |ws|
  {
    if ws == [] {
      PartialAcceptsIffUnique(x, p, Remove(0));
    } else {
      OneStepAlike(x, p, s, ws[0]);
      PartialStepFits(x, p, ws[0]);
      SlotStepFits(x.scope, s, ws[0]);
      var np, ns := PartialStep(x, p, ws[0]), SlotStep(x.scope, s, ws[0]);
      SlotEmulatesPartial(
        x, if np.Some? then np.value else p, if ns.Some? then ns.value else s, ws[1..]);
    }
  }

  // ---------------------------------------------------------------- two indexes on one trace

  /** The row another row would have beside it: in scope as it is, with the same key. */
  predicate Collides(x: Index, rows: Table, w: Write) {
    w.Put? && x.scope(w.row)
    && exists other :: other in rows && other != w.id && x.scope(rows[other]) && x.key(rows[other]) == x.key(w.row)
  }

  /** A unique table stays unique exactly when the write puts no row in scope beside one with its key. */
  lemma UniqueIffNoCollision(x: Index, rows: Table, w: Write)
    requires Unique(x, rows)
    ensures Unique(x, Written(rows, w)) <==> !Collides(x, rows, w)
  {
    var after := Written(rows, w);
    if Collides(x, rows, w) {
      var other :| other in rows && other != w.id && x.scope(rows[other]) && x.key(rows[other]) == x.key(w.row);
      assert x.scope(after[w.id]) && x.scope(after[other]) && x.key(after[w.id]) == x.key(after[other]);
    }
  }

  /** What the declared indexes keep apart: two originals of one sitting, two originals of one paper as long as the
      index of 0058 stood, and two attempts in progress at one paper. */
  lemma WhatIsKeptApart(rows: Table, id: int, row: Attempt)
    ensures Collides(ORIGINALS, rows, Put(id, row)) <==>
            && !row.isRetake
            && exists other :: other in rows && other != id && !rows[other].isRetake
                               && rows[other].user == row.user && rows[other].moduleId == row.moduleId
                               && rows[other].sitting == row.sitting
    ensures Collides(ORIGINALS_0058, rows, Put(id, row)) <==>
            && !row.isRetake
            && exists other :: other in rows && other != id && !rows[other].isRetake
                               && rows[other].user == row.user && rows[other].moduleId == row.moduleId
    ensures Collides(IN_PROGRESS, rows, Put(id, row)) <==>
            && row.status == "in_progress"
            && exists other :: other in rows && other != id && rows[other].status == "in_progress"
                               && rows[other].user == row.user && rows[other].moduleId == row.moduleId
  {
    forall other | other in rows
      ensures ORIGINALS.key(rows[other]) == ORIGINALS.key(row)
              <==> rows[other].user == row.user && rows[other].moduleId == row.moduleId
                   && rows[other].sitting == row.sitting
      ensures ORIGINALS_0058.key(rows[other]) == ORIGINALS_0058.key(row)
              <==> rows[other].user == row.user && rows[other].moduleId == row.moduleId
    {
    }
  }

  /** The answers an index gives on a trace. */
  function Answers(x: Index, rows: Table, ws: seq<Write>): seq<bool>
    decreases |ws|
  {
    if ws == [] then []
    else [!Collides(x, rows, ws[0])] + Answers(x, Let(x, rows, ws[0]), ws[1..])
  }

  /** The table after a write as the index lets it. */
  function Let(x: Index, rows: Table, w: Write): Table {
    if Collides(x, rows, w) then rows else Written(rows, w)
  }

  /** The table a trace leads to as the index lets it. */
  function Reached(x: Index, rows: Table, ws: seq<Write>): Table {
    if ws == [] then rows else Let(x, Reached(x, rows, ws[..|ws| - 1]), ws[|ws| - 1])
  }

  /** The table a trace leads to when every write is taken. */
  function AfterAll(rows: Table, ws: seq<Write>): Table {
    if ws == [] then rows else Written(AfterAll(rows, ws[..|ws| - 1]), ws[|ws| - 1])
  }

  function AllTaken(ws: seq<Write>): seq<bool> {
    seq(|ws|, i => true)
  }

  /** On every trace the index answers by what it means. */
  lemma {:induction false} RunAnswers(x: Index, e: PartialEngine, ws: seq<Write>)
    requires PartialFits(x, e)
    ensures PartialRun(x, e, ws).1 == Answers(x, e.rows, ws)
    decreases |ws|
  {
    if ws != [] {
      PartialAcceptsIffUnique(x, e, ws[0]);
      UniqueIffNoCollision(x, e.rows, ws[0]);
      PartialStepFits(x, e, ws[0]);
      var next := PartialStep(x, e, ws[0]);
      RunAnswers(x, if next.Some? then next.value else e, ws[1..]);
    }
  }

  lemma AnswersLength(x: Index, rows: Table, ws: seq<Write>)
    ensures |Answers(x, rows, ws)| == |ws|
    decreases |ws|
  {
    if ws != [] {
      AnswersLength(x, Let(x, rows, ws[0]), ws[1..]);
    }
  }

  lemma {:induction false} ReachedCons(x: Index, rows: Table, ws: seq<Write>)
    requires ws != []
    ensures Reached(x, rows, ws) == Reached(x, Let(x, rows, ws[0]), ws[1..])
    decreases |ws|
  {
    var n := |ws| - 1;
    if n > 0 {
      ReachedCons(x, rows, ws[..n]);
      assert ws[..n][1..] == ws[1..][..n - 1];
    } else {
      assert ws[1..] == [] && ws[..n] == [];
    }
  }

  /** Answer k is about write k, at the table the writes before it have led to. */
  lemma {:induction false} AnswerAt(x: Index, rows: Table, ws: seq<Write>, k: nat)
    requires k < |ws|
    ensures |Answers(x, rows, ws)| == |ws|
    ensures Answers(x, rows, ws)[k] == !Collides(x, Reached(x, rows, ws[..k]), ws[k])
    decreases |ws|
  {
    AnswersLength(x, rows, ws);
    if k > 0 {
      AnswersLength(x, Let(x, rows, ws[0]), ws[1..]);
      AnswerAt(x, Let(x, rows, ws[0]), ws[1..], k - 1);
      ReachedCons(x, rows, ws[..k]);
      assert ws[..k][1..] == ws[1..][..k - 1] && ws[..k][0] == ws[0];
    } else {
      assert ws[..k] == [];
    }
  }

  /** No write of the trace puts a row in scope while another row in scope has its key. */
  ghost predicate NeverCollides(x: Index, rows: Table, ws: seq<Write>) {
    forall k :: 0 <= k < |ws| ==> !Collides(x, AfterAll(rows, ws[..k]), ws[k])
  }

  lemma {:induction false} ReachedIsAll(x: Index, rows: Table, ws: seq<Write>, k: nat)
    requires k <= |ws|
    requires forall i :: 0 <= i < k ==> !Collides(x, AfterAll(rows, ws[..i]), ws[i])
    ensures Reached(x, rows, ws[..k]) == AfterAll(rows, ws[..k])
    decreases k
  {
    if k > 0 {
      ReachedIsAll(x, rows, ws, k - 1);
      assert ws[..k][..k - 1] == ws[..k - 1];
    }
  }

  lemma {:induction false} AllTakenReachesAll(x: Index, rows: Table, ws: seq<Write>, k: nat)
    requires k <= |ws|
    requires forall i :: 0 <= i < k ==> !Collides(x, Reached(x, rows, ws[..i]), ws[i])
    ensures Reached(x, rows, ws[..k]) == AfterAll(rows, ws[..k])
    decreases k
  {
    if k > 0 {
      AllTakenReachesAll(x, rows, ws, k - 1);
      assert ws[..k][..k - 1] == ws[..k - 1];
    }
  }

  /** The index 0085 leaves on MySQL is not unique and takes every write. It answers a trace as the declared one
      would exactly when no write of the trace puts a row in scope beside one with its key. */
  lemma NonUniqueAgreesIff(x: Index, rows: Table, ws: seq<Write>)
    ensures Answers(x, rows, ws) == AllTaken(ws) <==> NeverCollides(x, rows, ws)
  {
    AnswersLength(x, rows, ws);
    forall k | 0 <= k < |ws|
      ensures Answers(x, rows, ws)[k] == !Collides(x, Reached(x, rows, ws[..k]), ws[k])
    {
      AnswerAt(x, rows, ws, k);
    }
    if Answers(x, rows, ws) == AllTaken(ws) {
      forall k | 0 <= k < |ws|
        ensures !Collides(x, AfterAll(rows, ws[..k]), ws[k])
      {
        assert forall i :: 0 <= i < |ws| ==> AllTaken(ws)[i];
        AllTakenReachesAll(x, rows, ws, k);
      }
    }
    if NeverCollides(x, rows, ws) {
      forall k | 0 <= k < |ws|
        ensures Answers(x, rows, ws)[k]
      {
        ReachedIsAll(x, rows, ws, k);
      }
    }
  }

  lemma TwoAnswers(x: Index, a: Write, b: Write)
    ensures Answers(x, map[], [a, b]) == [true, !Collides(x, Written(map[], a), b)]
  {
    var ws := [a, b];
    assert !Collides(x, map[], a);
    assert ws[1..] == [b] && [b][1..] == [];
    assert Answers(x, Written(map[], a), [b]) == [!Collides(x, Written(map[], a), b)] + [];
  }

  /** So two originals of one sitting are both taken there, where the declared index refuses the second. */
  lemma TwoOriginalsOfOneSitting(first: Attempt, second: Attempt)
    requires !first.isRetake && !second.isRetake && SamePaper(first, second) && first.sitting == second.sitting
    ensures var ws := [Put(1, first), Put(2, second)];
            && Answers(ORIGINALS, map[], ws) == [true, false]
            && !NeverCollides(ORIGINALS, map[], ws)
  {
    var ws := [Put(1, first), Put(2, second)];
    var one := Written(map[], ws[0]);
    assert one[1] == first;
    assert Collides(ORIGINALS, one, ws[1]);
    TwoAnswers(ORIGINALS, ws[0], ws[1]);
    NonUniqueAgreesIff(ORIGINALS, map[], ws);
    assert AllTaken(ws)[1];
  }

  /** A second sitting's original is what the index by sitting is for: it takes what that of 0058 refused. */
  lemma SecondSittingIsTaken(first: Attempt, second: Attempt)
    requires !first.isRetake && !second.isRetake && SamePaper(first, second) && first.sitting != second.sitting
    ensures var ws := [Put(1, first), Put(2, second)];
            Answers(ORIGINALS, map[], ws) == [true, true] && Answers(ORIGINALS_0058, map[], ws) == [true, false]
  {
    var one := Written(map[], Put(1, first));
    assert one[1] == first;
    WhatIsKeptApart(one, 2, second);
    TwoAnswers(ORIGINALS, Put(1, first), Put(2, second));
    TwoAnswers(ORIGINALS_0058, Put(1, first), Put(2, second));
  }

  /** The write gives its row the key of another, in scope or not. */
  predicate Meets(x: Index, rows: Table, w: Write) {
    w.Put? && exists other :: other in rows && other != w.id && x.key(rows[other]) == x.key(w.row)
  }

  /** No write of the trace that the partial index takes gives its row the key of any other row. */
  ghost predicate NeverMeets(x: Index, rows: Table, ws: seq<Write>) {
    forall k :: 0 <= k < |ws| ==>
      var now := Reached(x, rows, ws[..k]);
      Collides(x, now, ws[k]) || !Meets(x, now, ws[k])
  }

  /** The unconditional index refuses what meets another row, and so all that the partial one refuses. */
  lemma UnconditionalIsStricter(x: Index, rows: Table, w: Write)
    ensures Collides(Unconditional(x), rows, w) <==> Meets(x, rows, w)
    ensures Collides(x, rows, w) ==> Meets(x, rows, w)
  {
    if Meets(x, rows, w) {
      var other :| other in rows && other != w.id && x.key(rows[other]) == x.key(w.row);
      assert Unconditional(x).scope(rows[other]);
    }
  }

  lemma {:induction false} SameAnswersSameTable(x: Index, y: Index, rows: Table, ws: seq<Write>, k: nat)
    requires k <= |ws|
    requires forall i :: 0 <= i < k ==>
               (Collides(x, Reached(x, rows, ws[..i]), ws[i]) <==> Collides(y, Reached(x, rows, ws[..i]), ws[i]))
    ensures Reached(y, rows, ws[..k]) == Reached(x, rows, ws[..k])
    decreases k
  {
    if k > 0 {
      SameAnswersSameTable(x, y, rows, ws, k - 1);
      assert ws[..k][..k - 1] == ws[..k - 1];
    }
  }

  /** Two indexes answer a trace alike exactly when they do so write by write, along the tables of the first. */
  lemma AnswersAlikeIff(x: Index, y: Index, rows: Table, ws: seq<Write>)
    ensures Answers(y, rows, ws) == Answers(x, rows, ws)
            <==> forall k :: 0 <= k < |ws| ==>
                   (Collides(x, Reached(x, rows, ws[..k]), ws[k]) <==> Collides(y, Reached(x, rows, ws[..k]), ws[k]))
  {
    AnswersLength(x, rows, ws);
    AnswersLength(y, rows, ws);
    forall k | 0 <= k < |ws|
      ensures Answers(x, rows, ws)[k] == !Collides(x, Reached(x, rows, ws[..k]), ws[k])
      ensures Answers(y, rows, ws)[k] == !Collides(y, Reached(y, rows, ws[..k]), ws[k])
    {
      AnswerAt(x, rows, ws, k);
      AnswerAt(y, rows, ws, k);
    }
    if Answers(y, rows, ws) == Answers(x, rows, ws) {
      AlikeUpTo(x, y, rows, ws, |ws|);
    } else if forall k :: 0 <= k < |ws| ==>
        (Collides(x, Reached(x, rows, ws[..k]), ws[k]) <==> Collides(y, Reached(x, rows, ws[..k]), ws[k])) {
      forall k | 0 <= k < |ws|
        ensures Answers(y, rows, ws)[k] == Answers(x, rows, ws)[k]
      {
        SameAnswersSameTable(x, y, rows, ws, k);
      }
    }
  }

  lemma {:induction false} AlikeUpTo(x: Index, y: Index, rows: Table, ws: seq<Write>, n: nat)
    requires n <= |ws|
    requires forall k :: 0 <= k < |ws| ==>
               (Collides(x, Reached(x, rows, ws[..k]), ws[k]) <==> Collides(y, Reached(y, rows, ws[..k]), ws[k]))
    ensures forall k :: 0 <= k < n ==>
              (Collides(x, Reached(x, rows, ws[..k]), ws[k]) <==> Collides(y, Reached(x, rows, ws[..k]), ws[k]))
    decreases n
  {
    if n > 0 {
      AlikeUpTo(x, y, rows, ws, n - 1);
      assert Reached(y, rows, ws[..n - 1]) == Reached(x, rows, ws[..n - 1]) by {
        SameAnswersSameTable(x, y, rows, ws, n - 1);
      }
    }
  }

  /** Before 0054 MySQL kept the index without its condition. It answers a trace as the partial index exactly when
      no write that the partial one takes gives its row the key of any other row. */
  lemma UnconditionalAgreesIff(x: Index, rows: Table, ws: seq<Write>)
    ensures Answers(Unconditional(x), rows, ws) == Answers(x, rows, ws) <==> NeverMeets(x, rows, ws)
  {
    AnswersAlikeIff(x, Unconditional(x), rows, ws);
    forall k | 0 <= k < |ws|
      ensures (Collides(x, Reached(x, rows, ws[..k]), ws[k])
               <==> Collides(Unconditional(x), Reached(x, rows, ws[..k]), ws[k]))
              <==> Collides(x, Reached(x, rows, ws[..k]), ws[k]) || !Meets(x, Reached(x, rows, ws[..k]), ws[k])
    {
      UnconditionalIsStricter(x, Reached(x, rows, ws[..k]), ws[k]);
    }
  }

  /** One such write is a new attempt at a paper whose earlier attempt is over. */
  lemma UnconditionalIndexRefusesMore(first: Attempt, second: Attempt)
    requires SamePaper(first, second) && first.status != "in_progress" && second.status == "in_progress"
    ensures var x := IN_PROGRESS; var ws := [Put(1, first), Put(2, second)];
            && Answers(x, map[], ws) == [true, true]
            && Answers(Unconditional(x), map[], ws) == [true, false]
  {
    var x := IN_PROGRESS;
    var one := Written(map[], Put(1, first));
    assert one[1] == first;
    assert !Collides(x, one, Put(2, second));
    assert Collides(Unconditional(x), one, Put(2, second));
    TwoAnswers(x, Put(1, first), Put(2, second));
    TwoAnswers(Unconditional(x), Put(1, first), Put(2, second));
  }

  // ---------------------------------------------------------------- backfill, then index

  /** After the backfill the index over originals can be created: the table already meets it, and so it meets
      the wider one of 0085. */
  lemma BackfillAllowsIndex(rows: Table)
    requires Fresh(rows)
    ensures Unique(ORIGINALS_0058, Backfilled(rows)) && Unique(ORIGINALS, Backfilled(rows))
  {
    var after := Backfilled(rows);
    forall i, j | i in after && j in after && !after[i].isRetake && !after[j].isRetake && SamePaper(after[i], after[j])
      ensures i == j
    {
      var oldest := OneOriginalEach(rows, i);
    }
  }
}
