/**
 * Insertion-ordered dictionaries with the semantics of Python's dict: assigning to a new key appends it, assigning to an existing
 * key replaces its value and keeps its position.  A dictionary is an
 * association list whose keys are pairwise distinct.
 */
module OrderedDict {
  import opened Results
  import opened Seqs

  /** Pairwise distinct elements. */
  predicate Distinct<T(==)>(s: seq<T>) {
    forall i, j :: 0 <= i < j < |s| ==> s[i] != s[j]
  }

  function Keys<K, V>(d: seq<(K, V)>): (ks: seq<K>)
    ensures |ks| == |d|
    ensures forall i :: 0 <= i < |d| ==> ks[i] == d[i].0
  {
    seq(|d|, i requires 0 <= i < |d| => d[i].0)
  }

  function Values<K, V>(d: seq<(K, V)>): (vs: seq<V>)
    ensures |vs| == |d|
    ensures forall i :: 0 <= i < |d| ==> vs[i] == d[i].1
  {
    seq(|d|, i requires 0 <= i < |d| => d[i].1)
  }

  /** The value stored under `k`, if any. */
  function Get<K(==), V>(d: seq<(K, V)>, k: K): Option<V>
    decreases |d|
  {
    if d == [] then None else if d[0].0 == k then Some(d[0].1) else Get(d[1..], k)
  }

  /** A key is found exactly when it is present, and then with the value stored beside it. */
  lemma {:induction false} GetSpec<K, V>(d: seq<(K, V)>, k: K)
    ensures Get(d, k).Some? <==> k in Keys(d)
    ensures Distinct(Keys(d)) ==> forall i :: 0 <= i < |d| && d[i].0 == k ==> Get(d, k) == Some(d[i].1)
    decreases |d|
  {
    if d != [] {
      GetSpec(d[1..], k);
      assert Keys(d) == [d[0].0] + Keys(d[1..]);
      if Distinct(Keys(d)) {
        assert Distinct(Keys(d[1..]));
        forall i | 0 <= i < |d| && d[i].0 == k
          ensures Get(d, k) == Some(d[i].1)
        {
          if i > 0 {
            assert d[1..][i - 1] == d[i];
          }
        }
      }
    }
  }

  lemma ConsParts<T>(e: T, t: seq<T>)
    ensures ([e] + t)[0] == e && ([e] + t)[1..] == t
  {
  }

  lemma KeysFront<K, V>(d: seq<(K, V)>)
    requires d != []
    ensures Keys(d) == [d[0].0] + Keys(d[1..])
  {
  }

  /**
   * `d[k] = v`: a key already present keeps its position and takes the new
   * value; a new key goes to the end. No other key changes.
   */
  function Put<K(==,!new), V>(d: seq<(K, V)>, k: K, v: V): (r: seq<(K, V)>)
    ensures Keys(r) == if k in Keys(d) then Keys(d) else Keys(d) + [k]
    ensures Get(r, k) == Some(v)
    ensures forall k' :: k' != k ==> Get(r, k') == Get(d, k')
    decreases |d|
  {
    if d == [] then [(k, v)]
    else if d[0].0 == k then
      var r := [(k, v)] + d[1..];
      ConsParts((k, v), d[1..]);
      KeysFront(d);
      KeysFront(r);
      r
    else
      var tail := Put(d[1..], k, v);
      var r := [d[0]] + tail;
      ConsParts(d[0], tail);
      KeysFront(d);
      KeysFront(r);
      Assoc([d[0].0], Keys(d[1..]), [k]);
      r
  }

  /** Assigns every entry of `es` in turn, as a loop of `d[k] = v` does. */
  function PutAll<K(==,!new), V>(d: seq<(K, V)>, es: seq<(K, V)>): seq<(K, V)>
    decreases |es|
  {
    if es == [] then d
    else Put(PutAll(d, es[..|es| - 1]), es[|es| - 1].0, es[|es| - 1].1)
  }

  /** The first occurrence of every element, in order of first occurrence. */
  function Dedup<T(==,!new)>(s: seq<T>): (r: seq<T>)
    ensures Distinct(r)
    ensures forall x :: x in r <==> x in s
    decreases |s|
  {
    if s == [] then []
    else
      var p := Dedup(s[..|s| - 1]);
      assert forall x :: x in s <==> x in s[..|s| - 1] || x == s[|s| - 1];
      if s[|s| - 1] in p then p else p + [s[|s| - 1]]
  }

  lemma KeysSnoc<K, V>(es: seq<(K, V)>)
    requires es != []
    ensures Keys(es) == Keys(es[..|es| - 1]) + [es[|es| - 1].0]
  {
  }

  lemma EntriesSnoc<K, V>(d: seq<(K, V)>, e: (K, V))
    ensures Keys(d + [e]) == Keys(d) + [e.0]
    ensures Values(d + [e]) == Values(d) + [e.1]
  {
  }

  lemma DedupSnoc<T(!new)>(s: seq<T>, x: T)
    ensures Dedup(s + [x]) == if x in Dedup(s) then Dedup(s) else Dedup(s) + [x]
  {
    assert (s + [x])[..|s + [x]| - 1] == s;
  }

  lemma {:induction false} DedupDistinct<T(!new)>(s: seq<T>)
    requires Distinct(s)
    ensures Dedup(s) == s
    decreases |s|
  {
    if s != [] {
      DedupDistinct(s[..|s| - 1]);
      assert s == s[..|s| - 1] + [s[|s| - 1]];
    }
  }

  /** The value of the last entry of `es` whose key is `k`. */
  function LastValue<K(==), V>(es: seq<(K, V)>, k: K): V
    requires k in Keys(es)
    decreases |es|
  {
    if es[|es| - 1].0 == k then es[|es| - 1].1
    else
      KeysSnoc(es);
      LastValue(es[..|es| - 1], k)
  }

  lemma {:induction false} PutAllKeys<K(!new), V>(d: seq<(K, V)>, es: seq<(K, V)>)
    requires Distinct(Keys(d))
    ensures Keys(PutAll(d, es)) == Dedup(Keys(d) + Keys(es))
    decreases |es|
  {
    if es == [] {
      DedupDistinct(Keys(d));
      assert Keys(d) + Keys(es) == Keys(d);
    } else {
      var init := es[..|es| - 1];
      var k := es[|es| - 1].0;
      PutAllKeys(d, init);
      KeysSnoc(es);
      var ks := Keys(d) + Keys(init);
      assert Keys(d) + Keys(es) == ks + [k];
      DedupSnoc(ks, k);
    }
  }

  lemma {:induction false} PutAllGet<K(!new), V>(d: seq<(K, V)>, es: seq<(K, V)>, x: K)
    ensures x in Keys(es) ==> Get(PutAll(d, es), x) == Some(LastValue(es, x))
    ensures x !in Keys(es) ==> Get(PutAll(d, es), x) == Get(d, x)
    decreases |es|
  {
    if es != [] {
      var init := es[..|es| - 1];
      var k := es[|es| - 1].0;
      assert Keys(es) == Keys(init) + [k];
      if x != k {
        PutAllGet(d, init, x);
      }
    }
  }

  /**
   * After assigning `es` to a dictionary, its keys are the old keys followed
   * by the new ones in order of first assignment, every assigned key holds
   * the value of its last assignment, and every other key is untouched.
   */
  lemma PutAllSpec<K(!new), V>(d: seq<(K, V)>, es: seq<(K, V)>)
    requires Distinct(Keys(d))
    ensures Keys(PutAll(d, es)) == Dedup(Keys(d) + Keys(es))
    ensures Distinct(Keys(PutAll(d, es)))
    ensures forall k :: k in Keys(es) ==> Get(PutAll(d, es), k) == Some(LastValue(es, k))
    ensures forall k :: k !in Keys(es) ==> Get(PutAll(d, es), k) == Get(d, k)
  {
    PutAllKeys(d, es);
    forall k
      ensures k in Keys(es) ==> Get(PutAll(d, es), k) == Some(LastValue(es, k))
      ensures k !in Keys(es) ==> Get(PutAll(d, es), k) == Get(d, k)
    {
      PutAllGet(d, es, k);
    }
  }

  /** Assigning two batches one after the other is assigning their concatenation. */
  lemma {:induction false} PutAllConcat<K(!new), V>(d: seq<(K, V)>, a: seq<(K, V)>, b: seq<(K, V)>)
    ensures PutAll(PutAll(d, a), b) == PutAll(d, a + b)
    decreases |b|
  {
    if b == [] {
      AppendEmpty(a);
    } else {
      PutAllConcat(d, a, b[..|b| - 1]);
      SplitBack(a, b);
    }
  }

  /** The last value assigned to each of `ks`, in the order of `ks`. */
  function LastValues<K(==), V>(es: seq<(K, V)>, ks: seq<K>): (vs: seq<V>)
    requires forall i :: 0 <= i < |ks| ==> ks[i] in Keys(es)
    ensures |vs| == |ks|
  {
    seq(|ks|, i requires 0 <= i < |ks| => LastValue(es, ks[i]))
  }

  /**
   * A dictionary built from nothing by assigning `es` holds one entry per
   * distinct key, in order of first assignment, each with its last value.
   */
  lemma FreshPutAll<K(!new), V>(es: seq<(K, V)>)
    ensures Keys(PutAll([], es)) == Dedup(Keys(es))
    ensures Values(PutAll([], es)) == LastValues(es, Dedup(Keys(es)))
  {
    var empty: seq<(K, V)> := [];
    var d := PutAll(empty, es);
    PutAllSpec(empty, es);
    assert Keys(empty) + Keys(es) == Keys(es);
    forall i | 0 <= i < |d|
      ensures d[i].1 == LastValue(es, d[i].0)
    {
      GetSpec(d, d[i].0);
    }
  }

  /** The last assignment of `k` in `a + b` is in `b` when `b` assigns `k` at all. */
  lemma {:induction false} LastValueConcat<K, V>(a: seq<(K, V)>, b: seq<(K, V)>, k: K)
    requires k in Keys(a) || k in Keys(b)
    ensures Keys(a + b) == Keys(a) + Keys(b)
    ensures k in Keys(b) ==> LastValue(a + b, k) == LastValue(b, k)
    ensures k !in Keys(b) ==> LastValue(a + b, k) == LastValue(a, k)
    decreases |b|
  {
    assert Keys(a + b) == Keys(a) + Keys(b);
    if b == [] {
      assert a + b == a;
    } else {
      var init := b[..|b| - 1];
      assert (a + b)[..|a + b| - 1] == a + init;
      assert Keys(b) == Keys(init) + [b[|b| - 1].0];
      if b[|b| - 1].0 != k {
        LastValueConcat(a, init, k);
      }
    }
  }

  /** When every entry carries the same value, that is the last value of any key. */
  lemma {:induction false} LastValueUniform<K, V>(es: seq<(K, V)>, k: K, v: V)
    requires k in Keys(es)
    requires forall i :: 0 <= i < |es| ==> es[i].1 == v
    ensures LastValue(es, k) == v
    decreases |es|
  {
    if es[|es| - 1].0 != k {
      assert Keys(es) == Keys(es[..|es| - 1]) + [es[|es| - 1].0];
      LastValueUniform(es[..|es| - 1], k, v);
    }
  }
}
