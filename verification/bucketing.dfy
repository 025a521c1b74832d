/**
 * Filing tagged routes into buckets keyed by `(major, minor, custom_prefix)`,
 * as the `defaultdict(list)` of the versioning routine does: a key is added
 * the first time a route carries it, and each bucket lists its routes in the
 * order they came.
 */
module Bucketing {
  import opened Results
  import opened OrderedDict
  import opened Tags
  import opened KeyOrder

  /** The bucket a tagged route belongs to. */
  function KeyOf(t: Tagged): Key {
    Key(t.version.major, t.version.minor, t.customPrefix)
  }

  function TagKeys(ts: seq<Tagged>): (ks: seq<Key>)
    ensures |ks| == |ts|
    ensures forall i :: 0 <= i < |ts| ==> ks[i] == KeyOf(ts[i])
  {
    seq(|ts|, i requires 0 <= i < |ts| => KeyOf(ts[i]))
  }

  function RoutesOf(ts: seq<Tagged>): (rs: seq<Route>)
    ensures |rs| == |ts|
    ensures forall i :: 0 <= i < |ts| ==> rs[i] == ts[i].route
  {
    seq(|ts|, i requires 0 <= i < |ts| => ts[i].route)
  }

  lemma TagKeysSnoc(ts: seq<Tagged>)
    requires ts != []
    ensures TagKeys(ts) == TagKeys(ts[..|ts| - 1]) + [KeyOf(ts[|ts| - 1])]
  {
  }

  /** The routes of `ts` whose key is `k`, in input order. */
  function RoutesWithKey(ts: seq<Tagged>, k: Key): (rs: seq<Route>)
    ensures rs == [] <==> k !in TagKeys(ts)
    decreases |ts|
  {
    if ts == [] then []
    else
      var init := RoutesWithKey(ts[..|ts| - 1], k);
      TagKeysSnoc(ts);
      if KeyOf(ts[|ts| - 1]) == k then init + [ts[|ts| - 1].route] else init
  }

  /**
   * The bucket dictionary: one entry per distinct key, in order of first
   * appearance, holding exactly the routes with that key in input order.
   */
  function Bucket(ts: seq<Tagged>): (b: seq<(Key, seq<Route>)>)
    ensures Keys(b) == Dedup(TagKeys(ts))
    ensures forall k :: k in TagKeys(ts) ==> Get(b, k) == Some(RoutesWithKey(ts, k))
    ensures forall k :: k !in TagKeys(ts) ==> Get(b, k) == None
    decreases |ts|
  {
    if ts == [] then []
    else
      var init := ts[..|ts| - 1];
      var t := ts[|ts| - 1];
      var p := Bucket(init);
      TagKeysSnoc(ts);
      DedupSnoc(TagKeys(init), KeyOf(t));
      Put(p, KeyOf(t), Get(p, KeyOf(t)).GetOr([]) + [t.route])
  }

  /** The routes of the buckets `ks`, bucket after bucket. */
  function Concat(b: seq<(Key, seq<Route>)>, ks: seq<Key>): seq<Route>
    decreases |ks|
  {
    if ks == [] then [] else Concat(b, ks[..|ks| - 1]) + Get(b, ks[|ks| - 1]).GetOr([])
  }

  /** The routes of `ts` whose key is among `ks`, in input order. */
  function RoutesIn(ts: seq<Tagged>, ks: seq<Key>): seq<Route>
    decreases |ts|
  {
    if ts == [] then []
    else if KeyOf(ts[|ts| - 1]) in ks then RoutesIn(ts[..|ts| - 1], ks) + [ts[|ts| - 1].route]
    else RoutesIn(ts[..|ts| - 1], ks)
  }

  lemma {:induction false} RoutesInSnoc(ts: seq<Tagged>, ks: seq<Key>, k: Key)
    requires k !in ks
    ensures multiset(RoutesIn(ts, ks + [k])) == multiset(RoutesIn(ts, ks)) + multiset(RoutesWithKey(ts, k))
    decreases |ts|
  {
    if ts != [] {
      RoutesInSnoc(ts[..|ts| - 1], ks, k);
    }
  }

  lemma {:induction false} RoutesInNoKeys(ts: seq<Tagged>)
    ensures RoutesIn(ts, []) == []
    decreases |ts|
  {
    if ts != [] {
      RoutesInNoKeys(ts[..|ts| - 1]);
    }
  }

  lemma {:induction false} RoutesInSameKeys(ts: seq<Tagged>, ks1: seq<Key>, ks2: seq<Key>)
    requires forall k :: k in ks1 <==> k in ks2
    ensures RoutesIn(ts, ks1) == RoutesIn(ts, ks2)
    decreases |ts|
  {
    if ts != [] {
      RoutesInSameKeys(ts[..|ts| - 1], ks1, ks2);
    }
  }

  lemma {:induction false} RoutesInEveryKey(ts: seq<Tagged>, ks: seq<Key>)
    requires forall i :: 0 <= i < |ts| ==> KeyOf(ts[i]) in ks
    ensures RoutesIn(ts, ks) == RoutesOf(ts)
    decreases |ts|
  {
    if ts != [] {
      RoutesInEveryKey(ts[..|ts| - 1], ks);
      assert RoutesOf(ts) == RoutesOf(ts[..|ts| - 1]) + [ts[|ts| - 1].route];
    }
  }

  lemma ConcatStep(ts: seq<Tagged>, ks: seq<Key>)
    requires ks != [] && ks[|ks| - 1] in TagKeys(ts)
    ensures Concat(Bucket(ts), ks) == Concat(Bucket(ts), ks[..|ks| - 1]) + RoutesWithKey(ts, ks[|ks| - 1])
  {
  }

  lemma {:induction false} ConcatBuckets(ts: seq<Tagged>, ks: seq<Key>)
    requires Distinct(ks)
    requires forall k :: k in ks ==> k in TagKeys(ts)
    ensures multiset(Concat(Bucket(ts), ks)) == multiset(RoutesIn(ts, ks))
    decreases |ks|
  {
    if ks != [] {
      var init := ks[..|ks| - 1];
      var k := ks[|ks| - 1];
      assert ks == init + [k];
      assert Distinct(init);
      ConcatStep(ts, ks);
      ConcatBuckets(ts, init);
      RoutesInSnoc(ts, init, k);
    } else {
      RoutesInNoKeys(ts);
    }
  }

  /**
   * Bucketing is a partition: taking the buckets in sorted key order and
   * listing their routes gives every input route exactly as often as it
   * came, none lost and none duplicated.
   */
  lemma BucketPartition(ts: seq<Tagged>)
    ensures Distinct(Keys(Bucket(ts)))
    ensures multiset(Concat(Bucket(ts), SortKeys(Keys(Bucket(ts))))) == multiset(RoutesOf(ts))
  {
    var b := Bucket(ts);
    assert Keys(b) == Dedup(TagKeys(ts));
    var ks := SortKeys(Keys(b));
    assert forall k :: k in ks <==> k in TagKeys(ts);
    StrictlySortedDistinct(ks);
    ConcatBuckets(ts, ks);
    RoutesInSameKeys(ts, ks, TagKeys(ts));
    RoutesInEveryKey(ts, TagKeys(ts));
  }
}
