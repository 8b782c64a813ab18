/**
 Clients of the replica class that replay the repository's test scenarios with
 explicit timestamps (the clock readings of the tests become increasing
 constants) and check what the specifications alone let them conclude.
 */
module LwwScenarios {
  import opened CrdtElement
  import opened LwwState
  import opened LwwDictionary

  const DistantFuture: Timestamp := 64092211200.0

  /**
   Add, remove, update: the removed key stays hidden. Then add newer and update
   newer: the update is visible. Returns what the subscript shows after each step.
   */
  method AddRemoveAddThenUpdate() returns (afterRemove: Option<Element<string>>, afterHiddenUpdate: Option<Element<string>>, afterUpdate: Option<Element<string>>)
    ensures afterRemove == None
    ensures afterHiddenUpdate == None
    ensures afterUpdate == Some(Element("value2", 4.0))
  {
    var d := new CRDTDictionary<string>();
    d.Add("key", "value", 1.0);
    d.Remove("key", "value", 2.0);
    afterRemove := d.Get("key");
    d.Update("key", "value2", 2.5);
    afterHiddenUpdate := d.Get("key");
    d.Add("key", "value", 3.0);
    d.Update("key", "value2", 4.0);
    afterUpdate := d.Get("key");
  }

  /** The first replica of the merge tests: both keys added and removed, `key2` re-added far ahead. */
  method FirstReplica() returns (a: CRDTDictionary<string>)
    ensures fresh(a)
    ensures a.additions == map["key" := Element("value", 1.0), "key2" := Element("value3", DistantFuture)]
    ensures a.removals == map["key" := Element("value", 2.0), "key2" := Element("value", 4.0)]
  {
    a := new CRDTDictionary<string>();
    a.Add("key", "value", 1.0);
    a.Remove("key", "value", 2.0);
    a.Add("key2", "value", 3.0);
    a.Remove("key2", "value", 4.0);
    a.Add("key2", "value3", DistantFuture);
  }

  /** The second replica of the merge tests, written later than the first. */
  method SecondReplica() returns (b: CRDTDictionary<string>)
    ensures fresh(b)
    ensures b.additions == map["key" := Element("value2", 5.0), "key2" := Element("value2", 6.0)]
    ensures b.removals == map["key2" := Element("value2", 7.0)]
  {
    b := new CRDTDictionary<string>();
    b.Add("key", "value2", 5.0);
    b.Add("key2", "value2", 6.0);
    b.Remove("key2", "value2", 7.0);
  }

  /** The tests' two keys are different keys. */
  lemma TwoKeys()
    ensures |{"key", "key2"}| == 2
  {
    assert |"key"| != |"key2"|;
  }

  /** Merging the second replica into the first: newer additions win per key. */
  method MergeOnce() returns (a: CRDTDictionary<string>, b: CRDTDictionary<string>)
    ensures fresh(a) && fresh(b) && a != b
    ensures a.additions.Keys == {"key", "key2"} && a.removals.Keys == {"key", "key2"}
    ensures |a.additions| == 2 && |a.removals| == 2
    ensures a.Get("key") == Some(Element("value2", 5.0))
    ensures a.Get("key2") == Some(Element("value3", DistantFuture))
    ensures a.Model() == MergeState(a.Model(), b.Model())
  {
    a := FirstReplica();
    b := SecondReplica();
    ghost var before := a.Model();
    a.Merge(b);
    assert a.additions["key"] == Element("value2", 5.0);
    assert a.additions["key2"] == Element("value3", DistantFuture);
    MergeIdempotent(before, b.Model());
    TwoKeys();
  }

  /**
   Merging the same replica a second time. Returns the map sizes and what the
   subscript shows for both keys afterwards: the same as after the first merge.
   */
  method MergeAdditionsAndRemovals() returns (additionsCount: nat, removalsCount: nat, atKey: Option<Element<string>>, atKey2: Option<Element<string>>)
    ensures additionsCount == 2 && removalsCount == 2
    ensures atKey == Some(Element("value2", 5.0))
    ensures atKey2 == Some(Element("value3", DistantFuture))
  {
    var a, b := MergeOnce();
    ghost var once := a.Model();
    a.Merge(b);
    assert a.additions == once.additions && a.removals == once.removals;
    additionsCount, removalsCount := |a.additions|, |a.removals|;
    atKey, atKey2 := a.Get("key"), a.Get("key2");
  }
}
