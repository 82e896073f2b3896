/** The in-process cache of backend/app/core/cache.py and the map with expiries it stands for. */
module TtlCache {
  import opened Common

  datatype Entry<V> = Entry(value: V, expiresAt: Option<real>)

  type Store<V> = map<string, Entry<V>>

  predicate Expired<V>(e: Entry<V>, now: real) {
    e.expiresAt.Some? && e.expiresAt.value < now
  }

  /** No time to live, or one of zero, never expires. */
  function ExpiryOf(ttl: Option<int>, now: real): Option<real> {
    if ttl.Some? && ttl.value != 0 then Some(now + ttl.value as real) else None
  }

  class Cache<V> {
    var store: Store<V>

    constructor ()
      ensures store == map[]
    {
      store := map[];
    }

    method Get(key: string, now: real) returns (r: Option<V>)
      modifies this
      ensures (store, r) == Fetched(old(store), key, now)
    {
      if key !in store {
        return None;
      }
      var entry := store[key];
      if entry.expiresAt.Some? && entry.expiresAt.value < now {
        store := store - {key};
        return None;
      }
      return Some(entry.value);
    }

    method Set(key: string, value: V, ttl: Option<int>, now: real)
      modifies this
      ensures store == old(store)[key := Entry(value, ExpiryOf(ttl, now))]
    {
      var expiresAt := if ttl.Some? && ttl.value != 0 then Some(now + ttl.value as real) else None;
      store := store[key := Entry(value, expiresAt)];
    }

    method Delete(key: string)
      modifies this
      ensures store == old(store) - {key}
    {
      store := store - {key};
    }

    method ClearAll() returns (count: nat)
      modifies this
      ensures store == map[] && count == |old(store)|
    {
      count := |store|;
      store := map[];
    }
  }

  /** The store and the answer after a read, eviction included. */
  function Fetched<V>(store: Store<V>, key: string, now: real): (Store<V>, Option<V>) {
    if key !in store then (store, None)
    else if Expired(store[key], now) then (store - {key}, None)
    else (store, Some(store[key].value))
  }

  // ---------------------------------------------------------------- runs

  /** What is done to the cache, in the order its lock is taken; a read takes its clock under the lock. */
  datatype Op<V> =
    | Get(key: string, now: real)
    | Set(key: string, value: V, ttl: Option<int>, at: real)
    | Delete(key: string)
    | ClearAll

  function Step<V>(store: Store<V>, op: Op<V>): Store<V> {
    match op
    case Get(key, now) => Fetched(store, key, now).0
    case Set(key, value, ttl, at) => store[key := Entry(value, ExpiryOf(ttl, at))]
    case Delete(key) => store - {key}
    case ClearAll => map[]
  }

  function Run<V>(ops: seq<Op<V>>): Store<V> {
    if ops == [] then map[] else Step(Run(ops[..|ops| - 1]), ops[|ops| - 1])
  }

  /** The reference: the latest set of the key that no delete or clear has followed. Nothing is evicted. */
  function Latest<V>(ops: seq<Op<V>>, key: string): Option<Entry<V>> {
    if ops == [] then None
    else
      var before := Latest(ops[..|ops| - 1], key);
      match ops[|ops| - 1]
      case Get(_, _) => before
      case Set(k, value, ttl, at) => if k == key then Some(Entry(value, ExpiryOf(ttl, at))) else before
      case Delete(k) => if k == key then None else before
      case ClearAll => None
  }

  /** What a read at `now` should answer. */
  function Answer<V>(e: Option<Entry<V>>, now: real): Option<V> {
    if e.None? || Expired(e.value, now) then None else Some(e.value.value)
  }

  ghost predicate ReadsUpTo<V>(ops: seq<Op<V>>, now: real) {
    && (forall i, j :: 0 <= i < j < |ops| && ops[i].Get? && ops[j].Get? ==> ops[i].now <= ops[j].now)
    && (forall i :: 0 <= i < |ops| && ops[i].Get? ==> ops[i].now <= now)
  }

  /** The store holds the reference entry, or the entry has already expired and was swept out. */
  ghost predicate Fits<V>(store: Store<V>, key: string, reference: Option<Entry<V>>, now: real) {
    if key in store then reference == Some(store[key])
    else reference.None? || Expired(reference.value, now)
  }

  lemma {:induction false} RunFits<V>(ops: seq<Op<V>>, key: string, now: real)
    requires ReadsUpTo(ops, now)
    ensures Fits(Run(ops), key, Latest(ops, key), now)
    decreases |ops|
  {
    if ops != [] {
      var n := |ops| - 1;
      RunFits(ops[..n], key, if ops[n].Get? then ops[n].now else now);
    }
  }

  /** Every read answers the latest set not yet deleted, cleared or expired: sweeping on read cannot be seen. */
  lemma ReadsRefineMap<V>(ops: seq<Op<V>>, key: string, now: real)
    requires ReadsUpTo(ops, now)
    ensures Fetched(Run(ops), key, now).1 == Answer(Latest(ops, key), now)
  {
    RunFits(ops, key, now);
  }

  /** The operation sets the key, deletes it or clears everything. */
  ghost predicate Concerns<V>(op: Op<V>, key: string) {
    ((op.Set? || op.Delete?) && op.key == key) || op.ClearAll?
  }

  lemma {:induction false} LatestSkips<V>(ops: seq<Op<V>>, i: nat, key: string)
    requires i < |ops| && forall j :: i < j < |ops| ==> !Concerns(ops[j], key)
    ensures Latest(ops, key) == Latest(ops[..i + 1], key)
    decreases |ops|
  {
    var n := |ops| - 1;
    if i < n {
      LatestSkips(ops[..n], i, key);
      assert ops[..n][..i + 1] == ops[..i + 1];
    } else {
      assert ops[..i + 1] == ops;
    }
  }

  lemma LatestAt<V>(ops: seq<Op<V>>, i: nat, key: string)
    requires i < |ops| && Concerns(ops[i], key)
    ensures Latest(ops[..i + 1], key)
            == if ops[i].Set? then Some(Entry(ops[i].value, ExpiryOf(ops[i].ttl, ops[i].at))) else None
  {
    var upTo := ops[..i + 1];
    assert upTo[|upTo| - 1] == ops[i];
  }

  /** After a set that nothing later concerns: the value, while its time to live lasts, and for good where it has
      none. After a deletion or a clear: nothing. */
  lemma ReadAfter<V>(ops: seq<Op<V>>, i: nat, key: string, now: real)
    requires ReadsUpTo(ops, now) && i < |ops| && Concerns(ops[i], key)
    requires forall j :: i < j < |ops| ==> !Concerns(ops[j], key)
    ensures var op := ops[i];
            Fetched(Run(ops), key, now).1 ==
            if op.Set? && (op.ttl == None || op.ttl == Some(0) || now <= op.at + op.ttl.value as real)
            then Some(op.value) else None
  {
    LatestSkips(ops, i, key);
    LatestAt(ops, i, key);
    ReadsRefineMap(ops, key, now);
  }

  /** A key that was never set is never there. */
  lemma {:induction false} NeverSetNeverRead<V>(ops: seq<Op<V>>, key: string, now: real)
    requires forall i :: 0 <= i < |ops| ==> !(ops[i].Set? && ops[i].key == key)
    ensures key !in Run(ops) && Fetched(Run(ops), key, now).1 == None
    decreases |ops|
  {
    if ops != [] {
      NeverSetNeverRead(ops[..|ops| - 1], key, now);
    }
  }

  // ---------------------------------------------------------------- what a clear counts

  /** Keys set since the last clear. */
  function Touched<V>(ops: seq<Op<V>>): set<string> {
    if ops == [] then {}
    else
      var before := Touched(ops[..|ops| - 1]);
      match ops[|ops| - 1]
      case Set(k, _, _, _) => before + {k}
      case ClearAll => {}
      case _ => before
  }

  lemma {:induction false} StoredWereTouched<V>(ops: seq<Op<V>>)
    ensures Run(ops).Keys <= Touched(ops)
    decreases |ops|
  {
    if ops != [] {
      StoredWereTouched(ops[..|ops| - 1]);
    }
  }

  lemma {:induction false} SmallerSet<T>(a: set<T>, b: set<T>)
    requires a <= b
    ensures |a| <= |b|
    decreases |a|
  {
    if a != {} {
      var x := MemberOf(a);
      SmallerSet(a - {x}, b - {x});
    }
  }

  /** A clear counts at least the keys that still answer and at most the keys set since the last one. */
  lemma ClearCountsBetween<V>(ops: seq<Op<V>>, now: real, live: set<string>)
    requires ReadsUpTo(ops, now)
    requires forall key :: key in live <==> Answer(Latest(ops, key), now).Some?
    ensures |live| <= |Run(ops)| <= |Touched(ops)|
  {
    forall key | key in live
      ensures key in Run(ops)
    {
      RunFits(ops, key, now);
    }
    SmallerSet(live, Run(ops).Keys);
    StoredWereTouched(ops);
    SmallerSet(Run(ops).Keys, Touched(ops));
  }
}
