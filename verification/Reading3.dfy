/** Migration 0072: Reading 3 parts learn to accept more than one source text per question. */
module Reading3 {
  import opened Common

  const MULTIPLE := "mcq_multiple"
  const DEFAULT_TYPES := ["matching_reusable"]

  datatype Allowed = Absent | Null | Types(types: seq<string>)

  /** The two constraint keys the migration names, and all the others. */
  datatype Constraints = Constraints(allowed: Allowed, multiAnswer: Option<bool>, others: map<string, string>)

  datatype Part = Part(isReading3: bool, constraints: Option<Constraints>)

  /** `constraints.get(...) or [default]`: an absent, null or empty list counts as the default. */
  function AllowedTypes(a: Allowed): seq<string> {
    if a.Types? && a.types != [] then a.types else DEFAULT_TYPES
  }

  function WithoutMultiple(types: seq<string>): seq<string> {
    if types == [] then []
    else (if types[0] != MULTIPLE then [types[0]] else []) + WithoutMultiple(types[1..])
  }

  function WithMultiple(types: seq<string>): seq<string> {
    if MULTIPLE in types then types else types + [MULTIPLE]
  }

  function Rewritten(p: Part, add: bool): Part {
    if !p.isReading3 || p.constraints.None? then p
    else
      var c := p.constraints.value;
      var allowed := AllowedTypes(c.allowed);
      p.(constraints := Some(
        if add then c.(allowed := Types(WithMultiple(allowed)), multiAnswer := Some(true))
        else c.(allowed := Types(WithoutMultiple(allowed)), multiAnswer := None)))
  }

  class PartTable {
    var rows: map<int, Part>

    constructor (rows: map<int, Part>)
      ensures this.rows == rows
    {
      this.rows := rows;
    }

    /** The loop over the Reading 3 rows. */
    method Rewrite(add: bool)
      modifies this
      ensures rows.Keys == old(rows).Keys
      ensures forall id :: id in rows ==> rows[id] == Rewritten(old(rows)[id], add)
    {
      var rest := set id | id in rows && rows[id].isReading3;
      while rest != {}
        invariant rows.Keys == old(rows).Keys && rest <= rows.Keys
        invariant forall id :: id in rows ==>
                    rows[id] == if id in rest || !old(rows)[id].isReading3 then old(rows)[id]
                                else Rewritten(old(rows)[id], add)
      {
        ghost var some := MemberOf(rest);
        var id :| id in rest;
        if rows[id].constraints.Some? {
          var c := rows[id].constraints.value;
          var allowed := AllowedTypes(c.allowed);
          if add {
            if MULTIPLE !in allowed {
              allowed := allowed + [MULTIPLE];
            }
            c := c.(multiAnswer := Some(true));
          } else {
            allowed := WithoutMultiple(allowed);
            c := c.(multiAnswer := None);
          }
          c := c.(allowed := Types(allowed));
          rows := rows[id := rows[id].(constraints := Some(c))];
        }
        rest := rest - {id};
      }
    }
  }

  lemma {:induction false} WithoutIsSameIff(types: seq<string>)
    ensures MULTIPLE !in WithoutMultiple(types)
    ensures WithoutMultiple(types) == types <==> MULTIPLE !in types
    ensures |WithoutMultiple(types)| <= |types|
    decreases |types|
  {
    if types != [] {
      WithoutIsSameIff(types[1..]);
      assert types == [types[0]] + types[1..];
    }
  }

  lemma {:induction false} WithoutAppend(a: seq<string>, b: seq<string>)
    ensures WithoutMultiple(a + b) == WithoutMultiple(a) + WithoutMultiple(b)
    decreases |a|
  {
    if a == [] {
      assert a + b == b;
    } else {
      assert (a + b)[1..] == a[1..] + b;
      WithoutAppend(a[1..], b);
    }
  }

  /** Undoing the upgrade restores a part exactly when it had a list of types of its own, without the new type
      and without the new flag, or had nothing the migration touches. */
  lemma RoundTripIff(p: Part)
    ensures Rewritten(Rewritten(p, true), false) == p <==>
            || !p.isReading3 || p.constraints.None?
            || (&& p.constraints.value.allowed.Types? && p.constraints.value.allowed.types != []
                && MULTIPLE !in p.constraints.value.allowed.types
                && p.constraints.value.multiAnswer == None)
  {
    if p.isReading3 && p.constraints.Some? {
      var types := AllowedTypes(p.constraints.value.allowed);
      WithoutIsSameIff(types);
      WithoutAppend(types, [MULTIPLE]);
      assert [MULTIPLE][1..] == [];
      assert WithoutMultiple([MULTIPLE]) == [];
      assert MULTIPLE !in types ==> WithoutMultiple(WithMultiple(types)) == types;
      assert MULTIPLE in types ==> WithoutMultiple(WithMultiple(types)) != types;
      var up := Rewritten(p, true).constraints.value;
      assert AllowedTypes(up.allowed) == WithMultiple(types);
      assert Rewritten(Rewritten(p, true), false).constraints.value
          == up.(allowed := Types(WithoutMultiple(WithMultiple(types))), multiAnswer := None);
    }
  }

  /** A part whose list is absent, null or empty ends with the type it had by default and the new one. */
  lemma DefaultThenMultiple(p: Part)
    requires p.isReading3 && p.constraints.Some?
    ensures p.constraints.value.allowed in {Absent, Null, Types([])} ==>
              Rewritten(p, true).constraints.value.allowed == Types(["matching_reusable", "mcq_multiple"])
    ensures forall types :: p.constraints.value.allowed == Types(types) && types != [] ==>
              Rewritten(p, true).constraints.value.allowed
              == Types(if "mcq_multiple" in types then types else types + ["mcq_multiple"])
    ensures Rewritten(p, false).constraints.value.multiAnswer == None
  {
    assert MULTIPLE[1] != DEFAULT_TYPES[0][1];
  }

  /** The upgrade only adds: every type allowed before is allowed after, in its old place, and a second run
      changes nothing. */
  lemma UpgradeOnlyAdds(p: Part)
    requires p.isReading3 && p.constraints.Some?
    ensures var after := Rewritten(p, true).constraints.value;
            && AllowedTypes(p.constraints.value.allowed) <= after.allowed.types
            && MULTIPLE in after.allowed.types && after.multiAnswer == Some(true)
            && after.others == p.constraints.value.others
    ensures Rewritten(Rewritten(p, true), true) == Rewritten(p, true)
  {
  }
}
