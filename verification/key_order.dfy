/**
 * Bucket keys `(major, minor, custom_prefix)` and the order `sorted` puts
 * them in: tuples compare component by component, integers numerically and
 * strings lexicographically by code point, a proper prefix first.
 */
module KeyOrder {
  import opened OrderedDict

  datatype Key = Key(major: int, minor: int, prefix: string)

  /** String comparison `a < b`. */
  predicate StrLess(a: string, b: string)
    decreases |a|
  {
    if |a| == 0 then |b| > 0
    else |b| > 0 && (a[0] < b[0] || (a[0] == b[0] && StrLess(a[1..], b[1..])))
  }

  /** Tuple comparison `a < b` on bucket keys. */
  predicate KeyLess(a: Key, b: Key) {
    || a.major < b.major
    || (a.major == b.major && a.minor < b.minor)
    || (a.major == b.major && a.minor == b.minor && StrLess(a.prefix, b.prefix))
  }

  predicate KeyLe(a: Key, b: Key) {
    a == b || KeyLess(a, b)
  }

  /** `a` is a proper prefix of `b`. */
  predicate ProperPrefix(a: string, b: string) {
    |a| < |b| && a == b[..|a|]
  }

  /** `a` and `b` agree before position `i`, where `a` has the smaller character. */
  predicate SmallerAt(a: string, b: string, i: int) {
    0 <= i < |a| && i < |b| && a[..i] == b[..i] && a[i] < b[i]
  }

  lemma ProperPrefixStep(a: string, b: string)
    requires |a| > 0 && |b| > 0
    ensures ProperPrefix(a, b) <==> a[0] == b[0] && ProperPrefix(a[1..], b[1..])
  {
    if a[0] == b[0] && ProperPrefix(a[1..], b[1..]) {
      assert a == [a[0]] + a[1..] && b[..|a|] == [b[0]] + b[1..][..|a| - 1];
    }
    if ProperPrefix(a, b) {
      assert a[0] == b[..|a|][0];
      assert a[1..] == b[..|a|][1..] == b[1..][..|a| - 1];
    }
  }

  lemma SmallerAtStep(a: string, b: string)
    requires |a| > 0 && |b| > 0
    ensures (exists i :: SmallerAt(a, b, i)) <==>
      a[0] < b[0] || (a[0] == b[0] && exists i :: SmallerAt(a[1..], b[1..], i))
  {
    if i :| SmallerAt(a, b, i) {
      if i > 0 {
        assert a[0] == a[..i][0] && b[0] == b[..i][0];
        assert a[1..][..i - 1] == a[..i][1..] && b[1..][..i - 1] == b[..i][1..];
        assert SmallerAt(a[1..], b[1..], i - 1);
      }
    }
    if a[0] < b[0] {
      assert SmallerAt(a, b, 0);
    } else if a[0] == b[0] {
      if i :| SmallerAt(a[1..], b[1..], i) {
        assert a[..i + 1] == [a[0]] + a[1..][..i] && b[..i + 1] == [b[0]] + b[1..][..i];
        assert SmallerAt(a, b, i + 1);
      }
    }
  }

  /**
   * `a < b` on strings holds exactly when `a` is a proper prefix of `b`, or
   * the two agree up to some position where `a` has the smaller character.
   */
  lemma {:induction false} StrLessMeaning(a: string, b: string)
    ensures StrLess(a, b) <==> ProperPrefix(a, b) || exists i :: SmallerAt(a, b, i)
    decreases |a|
  {
    if |a| > 0 && |b| > 0 {
      StrLessMeaning(a[1..], b[1..]);
      ProperPrefixStep(a, b);
      SmallerAtStep(a, b);
    }
  }

  lemma {:induction false} StrLessIrreflexive(a: string)
    ensures !StrLess(a, a)
    decreases |a|
  {
    if |a| > 0 {
      StrLessIrreflexive(a[1..]);
    }
  }

  lemma {:induction false} StrLessTransitive(a: string, b: string, c: string)
    requires StrLess(a, b) && StrLess(b, c)
    ensures StrLess(a, c)
    decreases |a|
  {
    if |a| > 0 && a[0] == b[0] && b[0] == c[0] {
      StrLessTransitive(a[1..], b[1..], c[1..]);
    }
  }

  lemma {:induction false} StrLessTotal(a: string, b: string)
    ensures a == b || StrLess(a, b) || StrLess(b, a)
    decreases |a|
  {
    if |a| > 0 && |b| > 0 && a[0] == b[0] {
      StrLessTotal(a[1..], b[1..]);
      if a[1..] == b[1..] {
        assert a == [a[0]] + a[1..] && b == [b[0]] + b[1..];
      }
    }
  }

  /** Key comparison is a strict total order, so sorting the keys has one answer. */
  lemma KeyLessStrictTotal(a: Key, b: Key, c: Key)
    ensures !KeyLess(a, a)
    ensures KeyLess(a, b) && KeyLess(b, c) ==> KeyLess(a, c)
    ensures a == b || KeyLess(a, b) || KeyLess(b, a)
  {
    StrLessIrreflexive(a.prefix);
    if KeyLess(a, b) && KeyLess(b, c) && a.major == c.major && a.minor == c.minor {
      StrLessTransitive(a.prefix, b.prefix, c.prefix);
    }
    StrLessTotal(a.prefix, b.prefix);
  }

  /** Strictly ascending order: no key twice. */
  predicate StrictlySorted(s: seq<Key>) {
    forall i, j :: 0 <= i < j < |s| ==> KeyLess(s[i], s[j])
  }

  /** Puts a new key into a strictly ascending sequence, before the first key it is below. */
  function Insert(k: Key, s: seq<Key>): (r: seq<Key>)
    requires StrictlySorted(s) && k !in s
    ensures StrictlySorted(r)
    ensures |r| == |s| + 1
    ensures forall x :: x in r <==> x == k || x in s
  {
    if s == [] then [k]
    else if KeyLess(k, s[0]) then
      assert StrictlySorted([k] + s) by {
        forall j | 0 <= j < |s|
          ensures KeyLess(k, s[j])
        {
          KeyLessStrictTotal(k, s[0], s[j]);
        }
      }
      [k] + s
    else
      KeyLessStrictTotal(k, s[0], k);
      var tail := Insert(k, s[1..]);
      assert forall x :: x in s <==> x == s[0] || x in s[1..];
      assert StrictlySorted([s[0]] + tail) by {
        forall j | 0 <= j < |tail|
          ensures KeyLess(s[0], tail[j])
        {
          assert tail[j] in tail;
        }
      }
      [s[0]] + tail
  }

  /** `sorted(keys)` for the distinct keys of a dictionary: the keys in ascending order. */
  function SortKeys(ks: seq<Key>): (r: seq<Key>)
    requires Distinct(ks)
    ensures StrictlySorted(r)
    ensures |r| == |ks|
    ensures forall x :: x in r <==> x in ks
  {
    if ks == [] then []
    else
      assert forall x :: x in ks <==> x == ks[0] || x in ks[1..];
      assert Distinct(ks[1..]);
      Insert(ks[0], SortKeys(ks[1..]))
  }

  lemma StrictlySortedDistinct(s: seq<Key>)
    requires StrictlySorted(s)
    ensures Distinct(s)
  {
    forall i, j | 0 <= i < j < |s|
      ensures s[i] != s[j]
    {
      KeyLessStrictTotal(s[i], s[j], s[j]);
    }
  }

  /** Two strictly ascending sequences of the same keys are the same sequence. */
  lemma {:induction false} StrictlySortedUnique(a: seq<Key>, b: seq<Key>)
    requires StrictlySorted(a) && StrictlySorted(b)
    requires forall k :: k in a <==> k in b
    ensures a == b
    decreases |a|
  {
    if a != [] {
      assert a[0] in b;
    }
    if b != [] {
      assert b[0] in a;
    }
    if a != [] && b != [] {
      var i :| 0 <= i < |a| && a[i] == b[0];
      var j :| 0 <= j < |b| && b[j] == a[0];
      assert KeyLe(a[0], b[0]) by {
        if i > 0 {
          assert KeyLess(a[0], a[i]);
        }
      }
      assert KeyLe(b[0], a[0]) by {
        if j > 0 {
          assert KeyLess(b[0], b[j]);
        }
      }
      KeyLessStrictTotal(a[0], b[0], a[0]);
      assert a[0] == b[0];
      forall k
        ensures k in a[1..] <==> k in b[1..]
      {
        if k in a[1..] {
          var p :| 1 <= p < |a| && a[p] == k;
          KeyLessStrictTotal(a[0], a[0], a[0]);
          assert k in b;
        }
        if k in b[1..] {
          var p :| 1 <= p < |b| && b[p] == k;
          KeyLessStrictTotal(b[0], b[0], b[0]);
          assert k in a;
        }
      }
      StrictlySortedUnique(a[1..], b[1..]);
      assert a == [a[0]] + a[1..] && b == [b[0]] + b[1..];
    }
  }
}
