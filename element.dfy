/**
 The timestamped cell that both register maps of the dictionary store.
 */
module CrdtElement {

  /** Seconds since the epoch. Timestamps are only ever compared, never computed with. */
  type Timestamp = real

  /** An immutable (value, timestamp) pair: a datatype value cannot change after construction. */
  datatype Element<V> = Element(value: V, timestamp: Timestamp)

  /**
   The element equality of the source: the timestamp takes no part in identity,
   so two elements are equal exactly when restamping one with the other's
   timestamp makes them the same datum.
   */
  predicate Same<V(==)>(a: Element<V>, b: Element<V>)
    ensures Same(a, b) <==> a.(timestamp := b.timestamp) == b
  {
    a.value == b.value
  }

  /** Hashing feeds only the value to the hasher; `hasher` stands for the value's own hash. */
  function HashInto<V(==,!new)>(e: Element<V>, hasher: V -> int): (r: int)
    ensures forall other: Element<V> :: Same(e, other) ==> hasher(other.value) == r
  {
    hasher(e.value)
  }

  /** Element equality is an equivalence relation, inherited from value equality. */
  lemma SameIsEquivalence<V>(a: Element<V>, b: Element<V>, c: Element<V>)
    ensures Same(a, a)
    ensures Same(a, b) <==> Same(b, a)
    ensures Same(a, b) && Same(b, c) ==> Same(a, c)
  {
  }

  /** Equal elements hash alike, since the hash depends on the value alone. */
  lemma SameHashesAlike<V(!new)>(a: Element<V>, b: Element<V>, hasher: V -> int)
    requires Same(a, b)
    ensures HashInto(a, hasher) == HashInto(b, hasher)
  {
  }

  /**
   Two cells holding one value at different times are distinct data but equal
   elements, with equal hashes: a hash-based container keeps only one of them.
   */
  lemma TimestampNotPartOfIdentity<V(!new)>(v: V, t1: Timestamp, t2: Timestamp, hasher: V -> int)
    requires t1 != t2
    ensures Element(v, t1) != Element(v, t2)
    ensures Same(Element(v, t1), Element(v, t2))
    ensures HashInto(Element(v, t1), hasher) == HashInto(Element(v, t2), hasher)
  {
  }
}
