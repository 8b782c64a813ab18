/**
 The replica object: a class whose two register maps the mutators update in
 place. Each method is specified against the pure operations of LwwState.
 */
module LwwDictionary {
  import opened CrdtElement
  import opened LwwRegister
  import opened LwwState

  class CRDTDictionary<V> {
    var additions: Register<V>
    var removals: Register<V>

    /** The abstract value of this replica. */
    ghost function Model(): State<V>
      reads this
    {
      State(additions, removals)
    }

    /** A new replica is empty. */
    constructor ()
      ensures Model() == Empty()
    {
      additions := map[];
      removals := map[];
    }

    /** Records an addition; the timestamp the source defaults to the clock is a parameter here. */
    method Add(key: string, value: V, timestamp: Timestamp)
      modifies this
      ensures Model() == AddState(old(Model()), key, value, timestamp)
    {
      var newValue := Element(value, timestamp);
      if key !in additions {
        additions := additions[key := newValue];
        return;
      }
      if additions[key].timestamp < timestamp {
        additions := additions[key := newValue];
      }
    }

    /** Records a removal (a tombstone carrying a value that nothing reads back). */
    method Remove(key: string, value: V, timestamp: Timestamp)
      modifies this
      ensures Model() == RemoveState(old(Model()), key, value, timestamp)
    {
      var newValue := Element(value, timestamp);
      if key !in removals {
        removals := removals[key := newValue];
        return;
      }
      if removals[key].timestamp < timestamp {
        removals := removals[key := newValue];
      }
    }

    /** The visible entries: the additions that no removal shadows. */
    function AllItems(): (r: Register<V>)
      reads this
      ensures r.Keys <= additions.Keys
      ensures forall k :: k in r ==> r[k] == additions[k]
      ensures forall k :: k in additions && k !in removals ==> k in r
      ensures forall k :: k in additions && k in removals ==> (k in r <==> removals[k].timestamp < additions[k].timestamp)
    {
      Visible(State(additions, removals))
    }

    /** The subscript: the visible element stored for `key`, or None when absent or hidden. */
    function Get(key: string): (r: Option<Element<V>>)
      reads this
      ensures r == Lookup(Model(), key)
    {
      var items := AllItems();
      if key in items then Some(items[key]) else None
    }

    /** An `add` that is silently ignored unless the key is currently visible. */
    method Update(key: string, value: V, timestamp: Timestamp)
      modifies this
      ensures Model() == UpdateState(old(Model()), key, value, timestamp)
    {
      if Get(key) == None {
        return;
      }
      Add(key, value, timestamp);
    }

    /**
     Replays every entry of `other` through `Add` and `Remove`, in whatever
     order the keys are visited. The other replica's maps are read as they were
     on entry, so merging a replica into itself is covered too.
     */
    method Merge(other: CRDTDictionary<V>)
      modifies this
      ensures Model() == MergeState(old(Model()), old(other.Model()))
    {
      var otherAdditions, otherRemovals := other.additions, other.removals;

      var pending := otherAdditions.Keys;
      while pending != {}
        invariant pending <= otherAdditions.Keys
        invariant additions == Join(old(additions), otherAdditions - pending)
        invariant removals == old(removals)
        decreases pending
      {
        var key :| key in pending;
        var element := otherAdditions[key];
        JoinPutStep(old(additions), otherAdditions - pending, key, element);
        LessPendingStep(otherAdditions, pending, key);
        Add(key, element.value, element.timestamp);
        pending := pending - {key};
      }
      assert otherAdditions - pending == otherAdditions;

      pending := otherRemovals.Keys;
      while pending != {}
        invariant pending <= otherRemovals.Keys
        invariant additions == Join(old(additions), otherAdditions)
        invariant removals == Join(old(removals), otherRemovals - pending)
        decreases pending
      {
        var key :| key in pending;
        var element := otherRemovals[key];
        JoinPutStep(old(removals), otherRemovals - pending, key, element);
        LessPendingStep(otherRemovals, pending, key);
        Remove(key, element.value, element.timestamp);
        pending := pending - {key};
      }
      assert otherRemovals - pending == otherRemovals;
    }
  }
}
