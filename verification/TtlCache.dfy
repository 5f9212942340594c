/** A bounded map of entries with expiry times: `read_fresh` and `insert_with_cap`. */
module TtlCache {
  import opened Posix

  type Key = string

  datatype Entry<V> = Entry(value: V, expiresAt: nat)

  /** The entries that have not expired. */
  function Fresh<V>(m: map<Key, Entry<V>>, now: nat): map<Key, Entry<V>> {
    map k | k in m && m[k].expiresAt > now :: m[k]
  }

  predicate Soonest<V>(m: map<Key, Entry<V>>, k: Key) {
    k in m && forall j :: j in m ==> m[k].expiresAt <= m[j].expiresAt
  }

  /** What is left before an insert: expired entries and then one victim go, each only at the cap. */
  function MakeRoom<V>(m: map<Key, Entry<V>>, cap: nat, now: nat, victim: Key): map<Key, Entry<V>> {
    if |m| < cap then m
    else
      var live := Fresh(m, now);
      if |live| < cap then live else live - {victim}
  }

  /** `victim` is a legal choice: needed only if pruning is not enough, and then the soonest to expire. */
  predicate LegalVictim<V>(m: map<Key, Entry<V>>, cap: nat, now: nat, victim: Key) {
    |m| >= cap && |Fresh(m, now)| >= cap && Fresh(m, now) != map[] ==> Soonest(Fresh(m, now), victim)
  }

  lemma SmallerMap<V>(a: map<Key, Entry<V>>, b: map<Key, Entry<V>>)
    requires a.Keys <= b.Keys
    ensures |a| <= |b|
  {
    SmallerSet(a.Keys, b.Keys);
  }

  lemma {:induction false} SmallerSet<T>(a: set<T>, b: set<T>)
    requires a <= b
    ensures |a| <= |b|
  {
    if a != {} {
      var x :| x in a;
      SmallerSet(a - {x}, b - {x});
    }
  }

  /** With a cap of at least one the map never exceeds it. */
  lemma InsertWithinCap<V>(m: map<Key, Entry<V>>, cap: nat, now: nat, victim: Key, key: Key, e: Entry<V>)
    requires 1 <= cap && |m| <= cap && LegalVictim(m, cap, now, victim)
    ensures |MakeRoom(m, cap, now, victim)[key := e]| <= cap
  {
    var live, room := Fresh(m, now), MakeRoom(m, cap, now, victim);
    SmallerMap(live, m);
    assert |room| < cap by {
      if |m| >= cap && |live| >= cap {
        assert live != map[];
        assert room.Keys == live.Keys - {victim};
        assert |room.Keys| == |live.Keys| - 1;
      }
    }
    assert room[key := e].Keys == room.Keys + {key};
    assert |room.Keys + {key}| <= |room.Keys| + 1;
  }

  /** There is always a legal choice. */
  lemma SomeVictim<V>(m: map<Key, Entry<V>>, cap: nat, now: nat) returns (victim: Key)
    ensures LegalVictim(m, cap, now, victim)
  {
    victim := "";
    var live := Fresh(m, now);
    if live != map[] { victim := SomeSoonest(live, live.Keys); }
  }

  lemma {:induction false} SomeSoonest<V>(m: map<Key, Entry<V>>, keys: set<Key>) returns (k: Key)
    requires keys != {} && keys <= m.Keys
    ensures k in keys && forall j :: j in keys ==> m[k].expiresAt <= m[j].expiresAt
    decreases |keys|
  {
    k :| k in keys;
    if keys != {k} {
      var best := SomeSoonest(m, keys - {k});
      if m[best].expiresAt < m[k].expiresAt { k := best; }
    }
  }

  /** An insert drops a fresh entry only if the fresh ones alone fill the map, and then only the soonest to expire. */
  lemma EvictsOnlyWhenFull<V>(m: map<Key, Entry<V>>, cap: nat, now: nat, victim: Key, k: Key)
    requires LegalVictim(m, cap, now, victim) && k in m && k !in MakeRoom(m, cap, now, victim)
    ensures |m| >= cap
    ensures m[k].expiresAt > now ==> |Fresh(m, now)| >= cap && k == victim && Soonest(Fresh(m, now), k)
  {
    if m[k].expiresAt > now {
      assert k in Fresh(m, now);
      assert Fresh(m, now) != map[];
    }
  }

  class TtlMap<V(==)> {
    var m: map<Key, Entry<V>>

    method ReadFresh(key: Key, now: nat) returns (hit: Option<V>)
      ensures hit.Some? <==> key in Fresh(m, now)
      ensures hit.Some? ==> hit.value == m[key].value && now < m[key].expiresAt
    {
      hit := None;
      if key in m && m[key].expiresAt > now {
        hit := Some(m[key].value);
      }
    }

    /** The clock is read once for pruning and once more for the new entry. */
    method InsertWithCap(key: Key, value: V, ttl: nat, cap: nat, pruneAt: nat, insertAt: nat) returns (ghost victim: Key)
      modifies this
      ensures LegalVictim(old(m), cap, pruneAt, victim)
      ensures m == MakeRoom(old(m), cap, pruneAt, victim)[key := Entry(value, insertAt + ttl)]
      ensures forall k :: k in m && k != key ==> k in old(m) && m[k] == old(m)[k]
      ensures forall k :: k in old(m) && k !in m ==>
                |old(m)| >= cap && (old(m)[k].expiresAt <= pruneAt || Soonest(Fresh(old(m), pruneAt), k))
      ensures old(|m|) >= cap ==> forall k :: k in m && k != key ==> m[k].expiresAt > pruneAt
      ensures old(|m|) < cap || |Fresh(old(m), pruneAt)| < cap ==>
                forall k :: k in old(m) && old(m)[k].expiresAt > pruneAt ==> k in m
    {
      victim := key;
      if |m| >= cap {
        m := map k | k in m && m[k].expiresAt > pruneAt :: m[k];
        if |m| >= cap && m != map[] {
          var k := SoonestKey(m);
          victim := k;
          m := m - {k};
        } else {
          assert m - {victim} == m || |m| < cap;
        }
      }
      m := m[key := Entry(value, insertAt + ttl)];
    }
  }

  /** `min_by_key` over the entries in whatever order the hash map yields them. */
  method SoonestKey<V>(m: map<Key, Entry<V>>) returns (best: Key)
    requires m != map[]
    ensures Soonest(m, best)
  {
    assert m.Keys != {};
    best :| best in m.Keys;
    var rest := m.Keys - {best};
    while rest != {}
      invariant best in m && rest <= m.Keys
      invariant forall j :: j in m.Keys - rest ==> m[best].expiresAt <= m[j].expiresAt
      decreases |rest|
    {
      var k :| k in rest;
      if m[k].expiresAt < m[best].expiresAt {
        best := k;
      }
      rest := rest - {k};
    }
    assert m.Keys - rest == m.Keys;
  }
}
