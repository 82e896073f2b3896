/** Small helpers shared by the other modules. */
module Common {

  datatype Option<+T> = None | Some(value: T)

  /** A finite set of numbers has a number above all of its own. */
  lemma {:induction false} FreshInt(used: set<int>) returns (n: int)
    ensures forall u :: u in used ==> u < n
    decreases |used|
  {
    if used == {} {
      n := 0;
    } else {
      var u := MemberOf(used);
      var below := FreshInt(used - {u});
      n := if below <= u then u + 1 else below;
      assert forall v :: v in used ==> v == u || v in used - {u};
    }
  }

  lemma FreshNat(used: set<nat>) returns (n: nat)
    ensures forall u :: u in used ==> u < n
  {
    var m := FreshInt(used);
    n := if m < 0 then 0 else m;
  }

  lemma MemberOf<T>(s: set<T>) returns (x: T)
    requires s != {}
    ensures x in s
  {
    x :| x in s;
  }

  /** The last element of one ordering of some elements stands somewhere in any other ordering,
      and taking it out of both leaves the same elements. */
  lemma LastOf<T>(s: seq<T>, t: seq<T>) returns (i: nat)
    requires s != [] && multiset(s) == multiset(t)
    ensures i < |t| && t[i] == s[|s| - 1]
    ensures s == s[..|s| - 1] + [t[i]] && t == t[..i] + [t[i]] + t[i + 1..]
    ensures multiset(s[..|s| - 1]) == multiset(t[..i] + t[i + 1..])
  {
    var m := s[|s| - 1];
    var init := s[..|s| - 1];
    assert s == init + [m];
    assert m in multiset(t);
    i :| 0 <= i < |t| && t[i] == m;
    var u, v := t[..i], t[i + 1..];
    assert t == u + [m] + v;
    assert multiset(t) == multiset(u) + multiset{m} + multiset(v);
    assert multiset(u + v) == multiset(t) - multiset{m};
    assert multiset(s) == multiset(init) + multiset{m};
    assert multiset(init) == multiset(s) - multiset{m};
  }

  /** The same elements, last to first. */
  function Reverse<T>(parts: seq<T>): (r: seq<T>)
    ensures |r| == |parts| && forall i :: 0 <= i < |r| ==> r[i] == parts[|parts| - 1 - i]
  {
    if parts == [] then [] else Reverse(parts[1..]) + [parts[0]]
  }

  lemma ReverseAppend<T>(a: seq<T>, b: seq<T>)
    ensures Reverse(a + b) == Reverse(b) + Reverse(a)
  {
  }

  lemma ReverseTwice<T>(a: seq<T>)
    ensures Reverse(Reverse(a)) == a
  {
  }
}
