/**
 The abstract value of one replica of the last-writer-wins element dictionary:
 its two register maps, the operations on them as pure functions, the visible
 projection, and the laws of merging replicas.
 */
module LwwState {
  import opened CrdtElement
  import opened LwwRegister

  datatype Option<T> = None | Some(value: T)

  /** A replica: the latest addition and the latest removal recorded per key. */
  datatype State<V> = State(additions: Register<V>, removals: Register<V>)

  /** A fresh replica holds no entries. */
  function Empty<V>(): State<V>
  {
    State(map[], map[])
  }

  /** `add`: an LWW write into the additions; the removals are left alone. */
  function AddState<V>(s: State<V>, key: string, value: V, timestamp: Timestamp): (r: State<V>)
    ensures r.removals == s.removals
    ensures r.additions.Keys == s.additions.Keys + {key}
  {
    State(Put(s.additions, key, Element(value, timestamp)), s.removals)
  }

  /** `remove`: an LWW write into the removals; the additions are left alone. */
  function RemoveState<V>(s: State<V>, key: string, value: V, timestamp: Timestamp): (r: State<V>)
    ensures r.additions == s.additions
    ensures r.removals.Keys == s.removals.Keys + {key}
  {
    State(s.additions, Put(s.removals, key, Element(value, timestamp)))
  }

  /**
   A key is shadowed when its removal is at least as recent as its addition:
   ties favour removal.
   */
  predicate Shadowed<V>(additions: Register<V>, removals: Register<V>, key: string)
    requires key in additions
  {
    key in removals && additions[key].timestamp <= removals[key].timestamp
  }

  /**
   `allItems`: the sub-map of the additions made of the keys that no removal
   shadows. It is never stored, only computed from the two maps.
   */
  function Visible<V>(s: State<V>): (r: Register<V>)
    ensures r.Keys <= s.additions.Keys
    ensures forall k :: k in r ==> r[k] == s.additions[k]
    ensures forall k :: k in s.additions ==> (k in r <==> !Shadowed(s.additions, s.removals, k))
  {
    map k | k in s.additions && !Shadowed(s.additions, s.removals, k) :: s.additions[k]
  }

  /** The subscript: the visible element for `key`, if any. */
  function Lookup<V>(s: State<V>, key: string): (r: Option<Element<V>>)
    ensures r.Some? <==> key in s.additions && (key !in s.removals || s.removals[key].timestamp < s.additions[key].timestamp)
    ensures r.Some? ==> r.value == s.additions[key]
  {
    var items := Visible(s);
    if key in items then Some(items[key]) else None
  }

  /** `update`: `add`, but only while the key is visible. */
  function UpdateState<V>(s: State<V>, key: string, value: V, timestamp: Timestamp): (r: State<V>)
    ensures r.removals == s.removals
    ensures r.additions ==
      if Lookup(s, key).Some? && s.additions[key].timestamp < timestamp
      then s.additions[key := Element(value, timestamp)]
      else s.additions
  {
    if Lookup(s, key).Some? then AddState(s, key, value, timestamp) else s
  }

  /** `merge(with:)`: each of `other`'s two maps joined into the receiver's. */
  function MergeState<V>(s: State<V>, other: State<V>): (r: State<V>)
    ensures r.additions.Keys == s.additions.Keys + other.additions.Keys
    ensures r.removals.Keys == s.removals.Keys + other.removals.Keys
  {
    State(Join(s.additions, other.additions), Join(s.removals, other.removals))
  }

  /** Two replicas that never record different values for one key at one timestamp. */
  ghost predicate Agree<V>(a: State<V>, b: State<V>)
  {
    Compatible(a.additions, b.additions) && Compatible(a.removals, b.removals)
  }

  // ---------------------------------------------------------------------------
  // Single operations

  /** An `add` newer than anything recorded for the key makes its value visible. */
  lemma NewerAddWins<V>(s: State<V>, key: string, value: V, timestamp: Timestamp)
    requires key in s.additions ==> s.additions[key].timestamp < timestamp
    requires key in s.removals ==> s.removals[key].timestamp < timestamp
    ensures Lookup(AddState(s, key, value, timestamp), key) == Some(Element(value, timestamp))
  {
  }

  /** An `add` no newer than the stored addition changes nothing, equal timestamps included. */
  lemma OlderAddIgnored<V>(s: State<V>, key: string, value: V, timestamp: Timestamp)
    requires key in s.additions && timestamp <= s.additions[key].timestamp
    ensures AddState(s, key, value, timestamp) == s
  {
  }

  /** A `remove` at least as recent as the key's addition hides it; in particular one at the same timestamp. */
  lemma RemovalAtOrAfterAddHides<V>(s: State<V>, key: string, value: V, timestamp: Timestamp)
    requires key in s.additions ==> s.additions[key].timestamp <= timestamp
    ensures Lookup(RemoveState(s, key, value, timestamp), key) == None
  {
  }

  /** A `remove` older than the visible addition leaves the key visible with its element. */
  lemma StaleRemovalIgnored<V>(s: State<V>, key: string, value: V, timestamp: Timestamp)
    requires Lookup(s, key).Some? && timestamp < Lookup(s, key).value.timestamp
    ensures Lookup(RemoveState(s, key, value, timestamp), key) == Lookup(s, key)
  {
  }

  /** `add`, `remove` and `update` on one key leave every other key's visible entry alone. */
  lemma OperationsAreLocal<V>(s: State<V>, key: string, other: string, value: V, timestamp: Timestamp)
    requires key != other
    ensures Lookup(AddState(s, key, value, timestamp), other) == Lookup(s, other)
    ensures Lookup(RemoveState(s, key, value, timestamp), other) == Lookup(s, other)
    ensures Lookup(UpdateState(s, key, value, timestamp), other) == Lookup(s, other)
  {
  }

  /**
   `update` never changes whether the key is visible: a hidden key stays hidden
   (the call is ignored), a visible one stays visible and shows the new value
   when the update is the newest addition.
   */
  lemma UpdateKeepsVisibility<V>(s: State<V>, key: string, value: V, timestamp: Timestamp)
    ensures Lookup(UpdateState(s, key, value, timestamp), key).Some? <==> Lookup(s, key).Some?
    ensures Lookup(s, key).Some? && Lookup(s, key).value.timestamp < timestamp ==>
      Lookup(UpdateState(s, key, value, timestamp), key) == Some(Element(value, timestamp))
    ensures Lookup(s, key).Some? && timestamp <= Lookup(s, key).value.timestamp ==>
      UpdateState(s, key, value, timestamp) == s
  {
  }

  // ---------------------------------------------------------------------------
  // Sequences of operations

  datatype Kind = Addition | Removal

  /** One local mutation, with its timestamp made explicit. */
  datatype Op<V> = Op(kind: Kind, key: string, value: V, timestamp: Timestamp)

  function Apply<V>(s: State<V>, op: Op<V>): State<V>
  {
    match op.kind
    case Addition => AddState(s, op.key, op.value, op.timestamp)
    case Removal => RemoveState(s, op.key, op.value, op.timestamp)
  }

  /** The operations performed in order, first to last. */
  function ApplyAll<V>(s: State<V>, ops: seq<Op<V>>): State<V>
    decreases |ops|
  {
    if ops == [] then s else ApplyAll(Apply(s, ops[0]), ops[1..])
  }

  function RegisterOf<V>(s: State<V>, kind: Kind): Register<V>
  {
    match kind
    case Addition => s.additions
    case Removal => s.removals
  }

  /**
   `r` holds, per key, an element at least as recent as the one in `start` and
   as every operation of the kind on that key, and that element is either the
   one from `start` or the payload of one of those operations.
   */
  ghost predicate HoldsLatest<V>(start: Register<V>, r: Register<V>, ops: seq<Op<V>>, kind: Kind)
  {
    && (forall k :: k in start ==> k in r && start[k].timestamp <= r[k].timestamp)
    && (forall i :: 0 <= i < |ops| && ops[i].kind == kind ==>
          ops[i].key in r && ops[i].timestamp <= r[ops[i].key].timestamp)
    && (forall k :: k in r ==>
          (k in start && r[k] == start[k]) ||
          exists i :: 0 <= i < |ops| && ops[i] == Op(kind, k, r[k].value, r[k].timestamp))
  }

  /**
   After any sequence of `add`s and `remove`s, each map holds for each key the
   element with the greatest timestamp among the operations of its kind on that
   key (and what it held before).
   */
  lemma {:induction false} ApplyAllHoldsLatest<V>(s: State<V>, ops: seq<Op<V>>, kind: Kind)
    ensures HoldsLatest(RegisterOf(s, kind), RegisterOf(ApplyAll(s, ops), kind), ops, kind)
    decreases |ops|
  {
    if ops != [] {
      var s' := Apply(s, ops[0]);
      var start, mid, r := RegisterOf(s, kind), RegisterOf(s', kind), RegisterOf(ApplyAll(s, ops), kind);
      ApplyAllHoldsLatest(s', ops[1..], kind);
      assert HoldsLatest(mid, r, ops[1..], kind);
      // What the first operation does to the register of this kind.
      assert ops[0].kind == kind ==> mid == Put(start, ops[0].key, Element(ops[0].value, ops[0].timestamp));
      assert ops[0].kind != kind ==> mid == start;
      forall k | k in start
        ensures k in r && start[k].timestamp <= r[k].timestamp
      {
        assert k in mid && start[k].timestamp <= mid[k].timestamp;
      }
      forall i | 0 <= i < |ops| && ops[i].kind == kind
        ensures ops[i].key in r && ops[i].timestamp <= r[ops[i].key].timestamp
      {
        if i == 0 {
          assert ops[0].key in mid && ops[0].timestamp <= mid[ops[0].key].timestamp;
        } else {
          assert ops[1..][i - 1] == ops[i];
        }
      }
      forall k | k in r
        ensures (k in start && r[k] == start[k]) ||
                exists i :: 0 <= i < |ops| && ops[i] == Op(kind, k, r[k].value, r[k].timestamp)
      {
        if k in mid && r[k] == mid[k] {
          if !(k in start && mid[k] == start[k]) {
            assert ops[0] == Op(kind, k, r[k].value, r[k].timestamp);
          }
        } else {
          var j :| 0 <= j < |ops[1..]| && ops[1..][j] == Op(kind, k, r[k].value, r[k].timestamp);
          assert ops[j + 1] == ops[1..][j];
        }
      }
    }
  }

  // ---------------------------------------------------------------------------
  // Merge laws

  /** Merging into a fresh replica copies the other replica. */
  lemma MergeIntoEmpty<V>(b: State<V>)
    ensures MergeState(Empty(), b) == b
  {
    JoinIntoEmpty(b.additions);
    JoinIntoEmpty(b.removals);
  }

  /** Merging the same replica a second time changes nothing. */
  lemma MergeIdempotent<V>(a: State<V>, b: State<V>)
    ensures MergeState(MergeState(a, b), b) == MergeState(a, b)
  {
    JoinIdempotent(a.additions, b.additions);
    JoinIdempotent(a.removals, b.removals);
  }

  /** Chained merges give the same maps, and so the same projection, however they are grouped. */
  lemma MergeAssociative<V>(a: State<V>, b: State<V>, c: State<V>)
    ensures MergeState(MergeState(a, b), c) == MergeState(a, MergeState(b, c))
    ensures Visible(MergeState(MergeState(a, b), c)) == Visible(MergeState(a, MergeState(b, c)))
  {
    JoinAssociative(a.additions, b.additions, c.additions);
    JoinAssociative(a.removals, b.removals, c.removals);
  }

  /** Replicas that agree on equal timestamps merge to the same maps in either order. */
  lemma MergeCommutative<V>(a: State<V>, b: State<V>)
    requires Agree(a, b)
    ensures MergeState(a, b) == MergeState(b, a)
    ensures Visible(MergeState(a, b)) == Visible(MergeState(b, a))
  {
    JoinCommutative(a.additions, b.additions);
    JoinCommutative(a.removals, b.removals);
  }

  /**
   Two replicas that exchange states converge: after `a` merges `b`, merging
   the result back into `b` yields the same maps.
   */
  lemma ReplicasConverge<V>(a: State<V>, b: State<V>)
    requires Agree(a, b)
    ensures MergeState(b, MergeState(a, b)) == MergeState(a, b)
  {
    calc {
      MergeState(b, MergeState(a, b));
      { MergeAssociative(b, a, b); }
      MergeState(MergeState(b, a), b);
      { MergeCommutative(a, b); }
      MergeState(MergeState(a, b), b);
      { MergeIdempotent(a, b); }
      MergeState(a, b);
    }
  }

  /** The keys a replica has ever recorded, added or removed. */
  function KeysOf<V>(s: State<V>): set<string>
  {
    s.additions.Keys + s.removals.Keys
  }

  /** Replicas over disjoint keys merge to the union of what each shows. */
  lemma MergeDisjointIsUnion<V>(a: State<V>, b: State<V>)
    requires KeysOf(a) !! KeysOf(b)
    ensures Visible(MergeState(a, b)) == Visible(a) + Visible(b)
  {
    var m := MergeState(a, b);
    var lhs, rhs := Visible(m), Visible(a) + Visible(b);
    forall k | k in m.additions
      ensures (k in lhs <==> k in rhs) && (k in lhs ==> lhs[k] == rhs[k])
    {
      if k in a.additions {
        assert m.additions[k] == a.additions[k];
        assert k in m.removals ==> k in a.removals && m.removals[k] == a.removals[k];
      } else {
        assert m.additions[k] == b.additions[k];
        assert k in m.removals ==> k in b.removals && m.removals[k] == b.removals[k];
      }
    }
    assert lhs.Keys == rhs.Keys;
  }
}
