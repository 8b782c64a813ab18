/**
 A register map: a key -> element map in which every key holds an independent
 last-writer-wins register. The dictionary keeps two of these, one for
 additions and one for removals.
 */
module LwwRegister {
  import opened CrdtElement

  type Register<V> = map<string, Element<V>>

  /**
   One write into a register map, as `add` and `remove` do it: an absent key
   takes the new element; a present key takes it only when its timestamp is
   strictly newer, so on a tie the element already stored wins.
   */
  function Put<V>(m: Register<V>, key: string, e: Element<V>): (r: Register<V>)
    ensures r.Keys == m.Keys + {key}
    ensures forall k :: k in m && k != key ==> r[k] == m[k]
    ensures key !in m ==> r[key] == e
    ensures key in m ==> r[key] == e || r[key] == m[key]
    ensures key in m ==> r[key].timestamp == if m[key].timestamp < e.timestamp then e.timestamp else m[key].timestamp
    ensures key in m && e.timestamp <= m[key].timestamp ==> r[key] == m[key]
  {
    if key !in m then m[key := e]
    else if m[key].timestamp < e.timestamp then m[key := e]
    else m
  }

  /**
   The entry that survives for `k` when `o`'s entries are written into `m`:
   the newer of the two, `m`'s entry on a tie.
   */
  function Winner<V>(m: Register<V>, o: Register<V>, k: string): Element<V>
    requires k in m || k in o
  {
    if k in o && (k !in m || m[k].timestamp < o[k].timestamp) then o[k] else m[k]
  }

  /**
   The reference definition of merging one register map into another: per key,
   the entry with the larger timestamp, the receiving map's entry on a tie.
   */
  function Join<V>(m: Register<V>, o: Register<V>): (r: Register<V>)
    ensures r.Keys == m.Keys + o.Keys
    ensures forall k :: k in r ==> (k in m && r[k] == m[k]) || (k in o && r[k] == o[k])
    ensures forall k :: k in m ==> m[k].timestamp <= r[k].timestamp
    ensures forall k :: k in o ==> o[k].timestamp <= r[k].timestamp
    ensures forall k :: k in m && (k in o ==> o[k].timestamp <= m[k].timestamp) ==> r[k] == m[k]
  {
    map k | k in m.Keys + o.Keys :: Winner(m, o, k)
  }

  /**
   Two replicas' maps never hold different values for one key under the same
   timestamp (the usual last-writer-wins assumption).
   */
  ghost predicate Compatible<V>(m: Register<V>, o: Register<V>)
  {
    forall k :: k in m && k in o && m[k].timestamp == o[k].timestamp ==> Same(m[k], o[k])
  }

  /** Writing one more of `o`'s entries is one more step of the join. */
  lemma JoinPutStep<V>(m: Register<V>, o: Register<V>, key: string, e: Element<V>)
    requires key !in o
    ensures Join(m, o[key := e]) == Put(Join(m, o), key, e)
  {
    var lhs, rhs := Join(m, o[key := e]), Put(Join(m, o), key, e);
    assert lhs.Keys == rhs.Keys;
    forall k | k in lhs
      ensures lhs[k] == rhs[k]
    {
      if k == key {
        assert lhs[k] == Winner(m, o[key := e], k);
      }
    }
  }

  /** Merging into an empty map yields the other map. */
  lemma JoinIntoEmpty<V>(o: Register<V>)
    ensures Join(map[], o) == o
  {
  }

  /** Joining the same map twice changes nothing more than joining it once. */
  lemma JoinIdempotent<V>(m: Register<V>, o: Register<V>)
    ensures Join(Join(m, o), o) == Join(m, o)
  {
    var once := Join(m, o);
    var twice := Join(once, o);
    forall k | k in twice
      ensures twice[k] == once[k]
    {
    }
  }

  /**
   Grouping does not matter: in both orders the survivor is the newest entry,
   and among entries with the newest timestamp the leftmost replica's.
   */
  lemma JoinAssociative<V>(a: Register<V>, b: Register<V>, c: Register<V>)
    ensures Join(Join(a, b), c) == Join(a, Join(b, c))
  {
    var lhs, rhs := Join(Join(a, b), c), Join(a, Join(b, c));
    assert lhs.Keys == rhs.Keys;
    forall k | k in lhs
      ensures lhs[k] == rhs[k]
    {
    }
  }

  /** Order does not matter when no key carries two values under one timestamp. */
  lemma JoinCommutative<V>(m: Register<V>, o: Register<V>)
    requires Compatible(m, o)
    ensures Join(m, o) == Join(o, m)
  {
    var lhs, rhs := Join(m, o), Join(o, m);
    assert lhs.Keys == rhs.Keys;
    forall k | k in lhs
      ensures lhs[k] == rhs[k]
    {
      if k in m && k in o && m[k].timestamp == o[k].timestamp {
        assert m[k] == o[k];
      }
    }
  }

  /** Without the assumption the order matters: on a tie the receiving map keeps its entry. */
  lemma JoinTieKeepsReceiver<V>(key: string, x: Element<V>, y: Element<V>)
    requires x.timestamp == y.timestamp && x != y
    ensures Join(map[key := x], map[key := y]) != Join(map[key := y], map[key := x])
  {
    assert Join(map[key := x], map[key := y])[key] == x;
    assert Join(map[key := y], map[key := x])[key] == y;
  }

  /** Taking one more key out of the set still to be removed from `o` adds its entry back. */
  lemma LessPendingStep<V>(o: Register<V>, pending: set<string>, key: string)
    requires key in pending && key in o
    ensures o - (pending - {key}) == (o - pending)[key := o[key]]
  {
  }
}
