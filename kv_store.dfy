/** The in-memory stand-in for the key-value store the backend talks to. Only
    the two operations the handlers use are modelled: `set` (an upsert) and
    `getByPrefix` (every entry whose key starts with a prefix, in no particular
    order). A store outage is an input: `fault` is `Some(details)` when the
    backing service cannot be reached, and then nothing is written. */
module Kv {
  import opened Js

  datatype Entry<V> = Entry(key: string, value: V)

  datatype Outcome = Pass | Fail(details: string)

  predicate HasPrefix(s: string, prefix: string) {
    prefix <= s
  }

  /** The part of the store a prefix scan must return. */
  ghost function Scan<V(!new)>(m: map<string, V>, prefix: string): (r: map<string, V>)
    ensures forall k :: k in r <==> k in m && HasPrefix(k, prefix)
    ensures forall k :: k in r ==> r[k] == m[k]
  {
    map k | k in m && HasPrefix(k, prefix) :: m[k]
  }

  /** `r` lists every entry of `m` exactly once and nothing else. */
  ghost predicate ListsExactly<V(!new)>(r: seq<Entry<V>>, m: map<string, V>) {
    forall e :: multiset(r)[e] == if e.key in m && m[e.key] == e.value then 1 else 0
  }

  class KvStore<V(!new)> {
    var entries: map<string, V>

    constructor ()
      ensures entries == map[]
    {
      entries := map[];
    }

    /** `kv.set(key, value)`: upserts `value` under `key` unless the store is down. */
    method Set(key: string, value: V, fault: Option<string>) returns (outcome: Outcome)
      modifies this
      ensures fault.None? ==> outcome == Pass && entries == old(entries)[key := value]
      ensures fault.Some? ==> outcome == Fail(fault.value) && entries == old(entries)
    {
      if fault.Some? {
        outcome := Fail(fault.value);
      } else {
        entries := entries[key := value];
        outcome := Pass;
      }
    }

    /** `kv.getByPrefix(prefix)`: every entry whose key starts with `prefix`,
        each exactly once, in an order the caller may not rely on. */
    method GetByPrefix(prefix: string, fault: Option<string>) returns (r: Option<seq<Entry<V>>>)
      ensures fault.None? <==> r.Some?
      ensures r.Some? ==> ListsExactly(r.value, Scan(entries, prefix))
    {
      if fault.Some? {
        return None;
      }
      var found: seq<Entry<V>> := [];
      var rest := entries.Keys;
      while rest != {}
        invariant rest <= entries.Keys
        invariant forall e ::
          multiset(found)[e] == (if e.key in entries && e.key !in rest && HasPrefix(e.key, prefix) && entries[e.key] == e.value then 1 else 0)
        decreases rest
      {
        var k :| k in rest;
        if HasPrefix(k, prefix) {
          found := found + [Entry(k, entries[k])];
        }
        rest := rest - {k};
      }
      r := Some(found);
    }
  }

  /** A listing has exactly as many elements as the map has keys: a scan after
      N writes under distinct keys returns N entries. */
  lemma {:induction false} ListingLength<V(!new)>(r: seq<Entry<V>>, m: map<string, V>)
    requires ListsExactly(r, m)
    ensures |r| == |m|
  {
    if r == [] {
      assert forall k :: k in m ==> multiset(r)[Entry(k, m[k])] == 1;
      assert m.Keys == {};
    } else {
      var e := r[0];
      assert multiset(r)[e] >= 1;
      assert e.key in m && m[e.key] == e.value;
      var m' := map k | k in m && k != e.key :: m[k];
      assert r == [e] + r[1..];
      assert multiset(r) == multiset{e} + multiset(r[1..]);
      forall x ensures multiset(r[1..])[x] == if x.key in m' && m'[x.key] == x.value then 1 else 0 {
        if x == e {
        } else if x.key == e.key {
          assert multiset(r)[x] == 0;
        }
      }
      ListingLength(r[1..], m');
      assert m.Keys == m'.Keys + {e.key};
    }
  }

  /** The only listing of a one-entry map is that entry. */
  lemma SingletonListing<V(!new)>(r: seq<Entry<V>>, key: string, value: V)
    requires ListsExactly(r, map[key := value])
    ensures r == [Entry(key, value)]
  {
    ListingLength(r, map[key := value]);
    assert multiset(r)[r[0]] > 0;
  }

  /** Writing one fresh key under the prefix makes the scan one entry longer
      and puts exactly that entry in it. */
  lemma ScanAfterFreshWrite<V(!new)>(m: map<string, V>, prefix: string, key: string, value: V)
    requires HasPrefix(key, prefix) && key !in m
    ensures Scan(m[key := value], prefix) == Scan(m, prefix)[key := value]
    ensures |Scan(m[key := value], prefix)| == |Scan(m, prefix)| + 1
  {
  }
}
