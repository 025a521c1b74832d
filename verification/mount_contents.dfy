/**
 * Which routes each sub-application receives. In plain mode mount `i` holds,
 * for every `path|method` answered by a route of a version up to its own,
 * the last such route in visiting order; in inverted mode the dictionary is
 * scoped by mount prefix and a mount takes the entries whose mount prefix
 * starts with its custom prefix.
 */
module MountContents {
  import opened Results
  import opened OrderedDict
  import opened Tags
  import opened KeyOrder
  import opened Bucketing
  import opened Versioning
  import opened VersioningProperties
  import Template
  import opened Seqs

  /** Some route of `rs` answers `pm`. */
  predicate Answers(rs: seq<Route>, pm: string) {
    exists j :: 0 <= j < |rs| && pm in PathMethods(rs[j])
  }

  /** The last route of `rs` that answers `pm`. */
  function LastDefiner(rs: seq<Route>, pm: string): Route
    requires Answers(rs, pm)
    decreases |rs|
  {
    var n := |rs| - 1;
    if pm in PathMethods(rs[n]) then rs[n]
    else
      assert Answers(rs[..n], pm) by {
        var j :| 0 <= j < |rs| && pm in PathMethods(rs[j]);
        assert rs[..n][j] == rs[j];
      }
      LastDefiner(rs[..n], pm)
  }

  /** The route `LastDefiner` picks answers `pm`, and no route after it does. */
  lemma {:induction false} LastDefinerSpec(rs: seq<Route>, pm: string)
    requires Answers(rs, pm)
    ensures exists j :: && 0 <= j < |rs| && rs[j] == LastDefiner(rs, pm) && pm in PathMethods(rs[j])
                        && forall j' :: j < j' < |rs| ==> pm !in PathMethods(rs[j'])
    decreases |rs|
  {
    var n := |rs| - 1;
    if pm in PathMethods(rs[n]) {
      assert rs[n] == LastDefiner(rs, pm);
    } else {
      var init := rs[..n];
      assert Answers(init, pm) by {
        var j :| 0 <= j < |rs| && pm in PathMethods(rs[j]);
        assert init[j] == rs[j];
      }
      LastDefinerSpec(init, pm);
      var j :| && 0 <= j < |init| && init[j] == LastDefiner(init, pm) && pm in PathMethods(init[j])
               && forall j' :: j < j' < |init| ==> pm !in PathMethods(init[j']);
      assert rs[j] == LastDefiner(rs, pm);
      forall j' | j < j' < |rs|
        ensures pm !in PathMethods(rs[j'])
      {
        if j' < n {
          assert init[j'] == rs[j'];
        }
      }
    }
  }

  lemma AnswersConcat(a: seq<Route>, b: seq<Route>, pm: string)
    ensures Answers(a + b, pm) <==> Answers(a, pm) || Answers(b, pm)
  {
    if Answers(a + b, pm) {
      var j :| 0 <= j < |a + b| && pm in PathMethods((a + b)[j]);
      if j >= |a| {
        assert b[j - |a|] == (a + b)[j];
      }
    }
    if Answers(a, pm) {
      var j :| 0 <= j < |a| && pm in PathMethods(a[j]);
      assert (a + b)[j] == a[j];
    }
    if Answers(b, pm) {
      var j :| 0 <= j < |b| && pm in PathMethods(b[j]);
      assert (a + b)[|a| + j] == b[j];
    }
  }

  /** The last route answering `pm` in `a + b` is in `b` when `b` answers `pm` at all. */
  lemma {:induction false} LastDefinerConcat(a: seq<Route>, b: seq<Route>, pm: string)
    requires Answers(a, pm) || Answers(b, pm)
    ensures Answers(a + b, pm)
    ensures Answers(b, pm) ==> LastDefiner(a + b, pm) == LastDefiner(b, pm)
    ensures !Answers(b, pm) ==> LastDefiner(a + b, pm) == LastDefiner(a, pm)
    decreases |b|
  {
    AnswersConcat(a, b, pm);
    if b == [] {
      assert a + b == a;
    } else {
      var n := |b| - 1;
      assert (a + b)[..|a + b| - 1] == a + b[..n];
      assert b == b[..n] + [b[n]];
      AnswersConcat(b[..n], [b[n]], pm);
      if pm !in PathMethods(b[n]) {
        assert !Answers([b[n]], pm);
        LastDefinerConcat(a, b[..n], pm);
      }
    }
  }

  /** The assignments of `a + b` are those of `a`, then those of `b`. */
  lemma {:induction false} EntriesConcat(scope: Option<string>, a: seq<Route>, b: seq<Route>)
    ensures Entries(scope, a + b) == Entries(scope, a) + Entries(scope, b)
    decreases |b|
  {
    if b == [] {
      AppendEmpty(a);
      AppendEmpty(Entries(scope, a));
    } else {
      var init := b[..|b| - 1];
      EntriesConcat(scope, a, init);
      SplitBack(a, b);
      Assoc(Entries(scope, a), Entries(scope, init), MethodEntries(scope, b[|b| - 1]));
    }
  }

  lemma KeysConcat<K, V>(a: seq<(K, V)>, b: seq<(K, V)>)
    ensures Keys(a + b) == Keys(a) + Keys(b)
  {
  }

  /** One route's assignments use its scope, and assign exactly its `path|method` strings. */
  lemma MethodEntriesKeys(scope: Option<string>, r: Route)
    ensures forall key :: key in Keys(MethodEntries(scope, r)) ==> key == KeyFor(scope, key.pathMethod)
    ensures forall pm :: KeyFor(scope, pm) in Keys(MethodEntries(scope, r)) <==> pm in PathMethods(r)
  {
    var es := MethodEntries(scope, r);
    forall pm
      ensures KeyFor(scope, pm) in Keys(es) <==> pm in PathMethods(r)
    {
      if pm in PathMethods(r) {
        var i :| 0 <= i < |PathMethods(r)| && PathMethods(r)[i] == pm;
        assert Keys(es)[i] == KeyFor(scope, pm);
      }
    }
  }

  /**
   * The dictionary keys a list of routes assigns all carry the scope, and a
   * `path|method` is assigned exactly when some route of the list answers it.
   */
  lemma {:induction false} EntriesKeys(scope: Option<string>, rs: seq<Route>)
    ensures forall key :: key in Keys(Entries(scope, rs)) ==> key == KeyFor(scope, key.pathMethod)
    ensures forall pm :: KeyFor(scope, pm) in Keys(Entries(scope, rs)) <==> Answers(rs, pm)
    decreases |rs|
  {
    if rs == [] {
    } else {
      var n := |rs| - 1;
      var init := rs[..n];
      EntriesKeys(scope, init);
      MethodEntriesKeys(scope, rs[n]);
      KeysConcat(Entries(scope, init), MethodEntries(scope, rs[n]));
      assert rs == init + [rs[n]];
      forall pm
        ensures Answers(rs, pm) <==> Answers(init, pm) || pm in PathMethods(rs[n])
      {
        AnswersConcat(init, [rs[n]], pm);
        assert Answers([rs[n]], pm) <==> pm in PathMethods(rs[n]) by {
          if pm in PathMethods(rs[n]) {
            assert [rs[n]][0] == rs[n];
          }
        }
      }
    }
  }

  lemma AnswersInit(rs: seq<Route>, pm: string)
    requires Answers(rs, pm) && pm !in PathMethods(rs[|rs| - 1])
    ensures Answers(rs[..|rs| - 1], pm)
  {
    var j :| 0 <= j < |rs| && pm in PathMethods(rs[j]);
    assert rs[..|rs| - 1][j] == rs[j];
  }

  /** The route a list of routes leaves under a `path|method` is the last one answering it. */
  lemma {:induction false} EntriesLast(scope: Option<string>, rs: seq<Route>, pm: string)
    requires Answers(rs, pm)
    ensures KeyFor(scope, pm) in Keys(Entries(scope, rs))
    ensures LastValue(Entries(scope, rs), KeyFor(scope, pm)) == LastDefiner(rs, pm)
    decreases |rs|
  {
    var n := |rs| - 1;
    var init := rs[..n];
    var key := KeyFor(scope, pm);
    var a := Entries(scope, init);
    var m := MethodEntries(scope, rs[n]);
    assert Entries(scope, rs) == a + m;
    MethodEntriesKeys(scope, rs[n]);
    if pm in PathMethods(rs[n]) {
      LastValueConcat(a, m, key);
      LastValueUniform(m, key, rs[n]);
    } else {
      AnswersInit(rs, pm);
      EntriesLast(scope, init, pm);
      LastValueConcat(a, m, key);
    }
  }

  /** In plain mode the loop assigns the routes of the visited buckets, bucket after bucket. */
  lemma {:induction false} PlainCumEntries(opts: Options, b: seq<(Key, seq<Route>)>, ks: seq<Key>)
    requires !opts.invertPrefix
    ensures CumEntries(opts, b, ks) == Entries(None, Concat(b, ks))
    decreases |ks|
  {
    if ks != [] {
      var init := ks[..|ks| - 1];
      PlainCumEntries(opts, b, init);
      EntriesConcat(None, Concat(b, init), Get(b, ks[|ks| - 1]).GetOr([]));
    }
  }

  /** The routes of the buckets among `ks` that are mounted under `mp`, bucket after bucket. */
  function RoutesUnder(opts: Options, b: seq<(Key, seq<Route>)>, ks: seq<Key>, mp: string): seq<Route>
    decreases |ks|
  {
    if ks == [] then []
    else
      var k := ks[|ks| - 1];
      RoutesUnder(opts, b, ks[..|ks| - 1], mp) + if MountPrefix(opts, k) == Ok(mp) then BucketRoutes(b, k) else []
  }

  /**
   * In inverted mode every key the loop assigns is scoped; `(mp, pm)` is
   * assigned exactly when a bucket mounted under `mp` answers `pm`, and then
   * holds the last such route.
   */
  lemma {:induction false} InvertedCumEntries(opts: Options, b: seq<(Key, seq<Route>)>, ks: seq<Key>, mp: string, pm: string)
    requires opts.invertPrefix
    ensures forall key :: key in Keys(CumEntries(opts, b, ks)) ==> key.Scoped?
    ensures Scoped(mp, pm) in Keys(CumEntries(opts, b, ks)) <==> Answers(RoutesUnder(opts, b, ks, mp), pm)
    ensures Answers(RoutesUnder(opts, b, ks, mp), pm) ==>
      LastValue(CumEntries(opts, b, ks), Scoped(mp, pm)) == LastDefiner(RoutesUnder(opts, b, ks, mp), pm)
    decreases |ks|
  {
    if ks == [] {
      assert !Answers([], pm);
    } else {
      var init := ks[..|ks| - 1];
      var k := ks[|ks| - 1];
      var a := CumEntries(opts, b, init);
      var e := BucketEntries(opts, b, k);
      var key := Scoped(mp, pm);
      InvertedCumEntries(opts, b, init, mp, pm);
      KeysConcat(a, e);
      var ru := RoutesUnder(opts, b, init, mp);
      var extra := if MountPrefix(opts, k) == Ok(mp) then BucketRoutes(b, k) else [];
      assert RoutesUnder(opts, b, ks, mp) == ru + extra;
      AnswersConcat(ru, extra, pm);
      match MountPrefix(opts, k)
      case Err(_) =>
        assert e == [];
        assert !Answers(extra, pm);
        assert a + e == a;
        if Answers(ru, pm) {
          LastDefinerConcat(ru, extra, pm);
        }
      case Ok(m) =>
        EntriesKeys(Some(m), BucketRoutes(b, k));
        if m == mp {
          if Answers(extra, pm) {
            EntriesLast(Some(m), BucketRoutes(b, k), pm);
            LastValueConcat(a, e, key);
            LastDefinerConcat(ru, extra, pm);
          } else if Answers(ru, pm) {
            LastValueConcat(a, e, key);
            LastDefinerConcat(ru, extra, pm);
          }
        } else {
          assert key !in Keys(e);
          assert !Answers(extra, pm);
          if Answers(ru, pm) {
            LastValueConcat(a, e, key);
            LastDefinerConcat(ru, extra, pm);
          }
        }
    }
  }

  /** The entries of `d` whose keys match `cp`, in dictionary order. */
  function MatchingEntries(d: seq<(DedupKey, Route)>, cp: string): seq<(DedupKey, Route)>
    decreases |d|
  {
    if d == [] then []
    else if Matches(d[|d| - 1].0, cp) then MatchingEntries(d[..|d| - 1], cp) + [d[|d| - 1]]
    else MatchingEntries(d[..|d| - 1], cp)
  }

  /**
   * Collecting the matching keys and then looking each one up gives the
   * matching entries of the dictionary, in its order.
   */
  lemma {:induction false} MatchingEntriesFacts(d: seq<(DedupKey, Route)>, cp: string)
    ensures Matching(Keys(d), cp) == Keys(MatchingEntries(d, cp))
    ensures MatchingValues(d, cp) == Values(MatchingEntries(d, cp))
    ensures forall e :: e in MatchingEntries(d, cp) <==> e in d && Matches(e.0, cp)
    decreases |d|
  {
    if d != [] {
      var init := d[..|d| - 1];
      var e := d[|d| - 1];
      var f := MatchingEntries(init, cp);
      MatchingEntriesFacts(init, cp);
      assert d == init + [e];
      KeysSnoc(d);
      assert Keys(d)[..|d| - 1] == Keys(init);
      EntriesSnoc(f, e);
      assert forall x :: x in d <==> x in init || x == e;
    }
  }

  /** With the empty custom prefix every scoped entry matches. */
  lemma {:induction false} MatchingEverything(d: seq<(DedupKey, Route)>)
    requires forall key :: key in Keys(d) ==> key.Scoped?
    ensures MatchingValues(d, "") == Values(d)
    decreases |d|
  {
    if d != [] {
      var init := d[..|d| - 1];
      assert Keys(d) == Keys(init) + [d[|d| - 1].0];
      MatchingEverything(init);
      assert Values(d) == Values(init) + [d[|d| - 1].1];
    }
  }

  /** The routes of the buckets up to `ks[i]` in visiting order. */
  function MountedRoutes(routes: seq<Route>, opts: Options, i: int): seq<Route>
    requires 0 <= i < |Versions(routes, opts)|
  {
    Concat(Buckets(routes, opts), Versions(routes, opts)[..i + 1])
  }

  /** The routes of `ts` whose key is at most `top`, in input order. */
  function RoutesUpTo(ts: seq<Tagged>, top: Key): seq<Route>
    decreases |ts|
  {
    if ts == [] then []
    else if KeyLe(KeyOf(ts[|ts| - 1]), top) then RoutesUpTo(ts[..|ts| - 1], top) + [ts[|ts| - 1].route]
    else RoutesUpTo(ts[..|ts| - 1], top)
  }

  lemma {:induction false} RoutesInUpTo(ts: seq<Tagged>, ks: seq<Key>, top: Key)
    requires forall t :: t in ts ==> (KeyOf(t) in ks <==> KeyLe(KeyOf(t), top))
    ensures RoutesIn(ts, ks) == RoutesUpTo(ts, top)
    decreases |ts|
  {
    if ts != [] {
      RoutesInUpTo(ts[..|ts| - 1], ks, top);
    }
  }

  /** A key of the input is among the first `i + 1` visited exactly when it is at most the `i`-th. */
  lemma SortedPrefix(ks: seq<Key>, i: int, k: Key)
    requires StrictlySorted(ks)
    requires 0 <= i < |ks| && k in ks
    ensures k in ks[..i + 1] <==> KeyLe(k, ks[i])
  {
    var j :| 0 <= j < |ks| && ks[j] == k;
    if j < i {
      assert KeyLess(ks[j], ks[i]);
    } else if j > i {
      assert KeyLess(ks[i], ks[j]);
      KeyLessStrictTotal(ks[i], ks[j], ks[i]);
      StrictlySortedDistinct(ks);
    } else {
      assert ks[..i + 1][i] == k;
    }
  }

  /** The first `i + 1` buckets in ascending key order hold the routes of keys up to the `i`-th. */
  lemma SortedBucketsUpTo(ts: seq<Tagged>, ks: seq<Key>, i: int)
    requires StrictlySorted(ks)
    requires forall k :: k in ks <==> k in TagKeys(ts)
    requires 0 <= i < |ks|
    ensures multiset(Concat(Bucket(ts), ks[..i + 1])) == multiset(RoutesUpTo(ts, ks[i]))
  {
    var top := ks[..i + 1];
    StrictlySortedDistinct(ks);
    assert Distinct(top) by {
      forall a, c | 0 <= a < c < |top|
        ensures top[a] != top[c]
      {
        assert top[a] == ks[a] && top[c] == ks[c];
      }
    }
    assert forall k :: k in top ==> k in ks;
    ConcatBuckets(ts, top);
    forall t | t in ts
      ensures KeyOf(t) in top <==> KeyLe(KeyOf(t), ks[i])
    {
      var j :| 0 <= j < |ts| && ts[j] == t;
      assert KeyOf(t) in TagKeys(ts) by {
        assert TagKeys(ts)[j] == KeyOf(t);
      }
      SortedPrefix(ks, i, KeyOf(t));
    }
    RoutesInUpTo(ts, top, ks[i]);
  }

  /**
   * Mount `i` is fed the routes of every version up to its own in the key
   * order, each as often as it came, and no others.
   */
  lemma MountedRoutesUpTo(routes: seq<Route>, opts: Options, i: int)
    requires 0 <= i < |Versions(routes, opts)|
    ensures multiset(MountedRoutes(routes, opts, i))
         == multiset(RoutesUpTo(Tag(routes, opts.defaultVersion), Versions(routes, opts)[i]))
  {
    VersionsFacts(routes, opts);
    SortedBucketsUpTo(Tag(routes, opts.defaultVersion), Versions(routes, opts), i);
  }

  /**
   * A fresh dictionary filled with the plain assignments of `rs` holds one
   * route per answered `path|method`, in order of first appearance, and
   * that route is the last one answering it.
   */
  lemma FreshPlainEntries(rs: seq<Route>)
    ensures var E := Entries(None, rs);
      var K := Dedup(Keys(E));
      var vs := Values(PutAll([], E));
      && |vs| == |K|
      && (forall j :: 0 <= j < |K| ==>
            && K[j] == Plain(K[j].pathMethod)
            && Answers(rs, K[j].pathMethod)
            && vs[j] == LastDefiner(rs, K[j].pathMethod))
      && (forall pm :: Plain(pm) in K <==> Answers(rs, pm))
  {
    var E := Entries(None, rs);
    var K := Dedup(Keys(E));
    FreshPutAll(E);
    EntriesKeys(None, rs);
    var vs := Values(PutAll([], E));
    assert vs == LastValues(E, K);
    forall j | 0 <= j < |K|
      ensures && K[j] == Plain(K[j].pathMethod)
              && Answers(rs, K[j].pathMethod)
              && vs[j] == LastDefiner(rs, K[j].pathMethod)
    {
      assert K[j] in Keys(E);
      EntriesLast(None, rs, K[j].pathMethod);
    }
  }

  /**
   * In plain mode mount `i` holds one route per `path|method` answered by
   * the routes of versions up to its own, in order of first appearance:
   * the last route answering it. Every such `path|method` is there.
   */
  lemma PlainMount(routes: seq<Route>, opts: Options, i: int)
    requires Buildable(routes, opts)
    requires !opts.invertPrefix
    requires 0 <= i < |Versions(routes, opts)|
    ensures Build(routes, opts).Ok?
    ensures i < |Build(routes, opts).value|
    ensures var rs := MountedRoutes(routes, opts, i);
      var K := Dedup(Keys(Entries(None, rs)));
      var m := Build(routes, opts).value[i];
      && |m.routes| == |K|
      && (forall j :: 0 <= j < |K| ==>
            && K[j] == Plain(K[j].pathMethod)
            && Answers(rs, K[j].pathMethod)
            && m.routes[j] == LastDefiner(rs, K[j].pathMethod))
      && (forall pm :: Plain(pm) in K <==> Answers(rs, pm))
  {
    BuildableOk(routes, opts);
    var ks := Versions(routes, opts);
    var b := Buckets(routes, opts);
    var rs := MountedRoutes(routes, opts, i);
    MountAt(routes, opts, i);
    PlainCumEntries(opts, b, ks[..i + 1]);
    FreshPlainEntries(rs);
  }

  /** Lists holding the same routes, each as often, answer the same `path|method` strings. */
  lemma AnswersMultiset(a: seq<Route>, b: seq<Route>, pm: string)
    requires multiset(a) == multiset(b)
    ensures Answers(a, pm) <==> Answers(b, pm)
  {
    if Answers(a, pm) {
      var j :| 0 <= j < |a| && pm in PathMethods(a[j]);
      assert a[j] in multiset(b);
      var k :| 0 <= k < |b| && b[k] == a[j];
    }
    if Answers(b, pm) {
      var j :| 0 <= j < |b| && pm in PathMethods(b[j]);
      assert b[j] in multiset(a);
      var k :| 0 <= k < |a| && a[k] == b[j];
    }
  }

  /** The routes of keys up to `top` answer `pm` exactly when one tagged route with such a key does. */
  lemma {:induction false} AnswersUpTo(ts: seq<Tagged>, top: Key, pm: string)
    ensures Answers(RoutesUpTo(ts, top), pm) <==>
      exists j :: 0 <= j < |ts| && KeyLe(KeyOf(ts[j]), top) && pm in PathMethods(ts[j].route)
    decreases |ts|
  {
    if ts == [] {
    } else {
      var n := |ts| - 1;
      var init := ts[..n];
      AnswersUpTo(init, top, pm);
      if KeyLe(KeyOf(ts[n]), top) {
        AnswersConcat(RoutesUpTo(init, top), [ts[n].route], pm);
        assert Answers([ts[n].route], pm) <==> pm in PathMethods(ts[n].route) by {
          assert [ts[n].route][0] == ts[n].route;
        }
      }
      if exists j :: 0 <= j < |ts| && KeyLe(KeyOf(ts[j]), top) && pm in PathMethods(ts[j].route) {
        var j :| 0 <= j < |ts| && KeyLe(KeyOf(ts[j]), top) && pm in PathMethods(ts[j].route);
        if j < n {
          assert init[j] == ts[j];
        }
      }
      if exists j :: 0 <= j < |init| && KeyLe(KeyOf(init[j]), top) && pm in PathMethods(init[j].route) {
        var j :| 0 <= j < |init| && KeyLe(KeyOf(init[j]), top) && pm in PathMethods(init[j].route);
        assert ts[j] == init[j];
      }
    }
  }

  /**
   * Routes `ms` that hold, for each `path|method` some route of `rs` answers,
   * the last such route answer exactly what `rs` answers.
   */
  lemma AnswersLastDefiners(rs: seq<Route>, K: seq<DedupKey>, ms: seq<Route>, pm: string)
    requires |ms| == |K|
    requires forall j :: 0 <= j < |K| ==>
      Answers(rs, K[j].pathMethod) && ms[j] == LastDefiner(rs, K[j].pathMethod)
    requires Plain(pm) in K <==> Answers(rs, pm)
    requires forall j :: 0 <= j < |K| ==> K[j] == Plain(K[j].pathMethod)
    ensures Answers(ms, pm) <==> Answers(rs, pm)
  {
    if Answers(ms, pm) {
      var j :| 0 <= j < |ms| && pm in PathMethods(ms[j]);
      LastDefinerSpec(rs, K[j].pathMethod);
    }
    if Answers(rs, pm) {
      var j :| 0 <= j < |K| && K[j] == Plain(pm);
      assert K[j].pathMethod == pm;
      LastDefinerSpec(rs, pm);
      assert pm in PathMethods(ms[j]);
    }
  }

  /**
   * In plain mode mount `i` answers a `path|method` exactly when some input
   * route of a version up to the `i`-th in the key order answers it.
   */
  lemma PlainMountUpTo(routes: seq<Route>, opts: Options, i: int, pm: string)
    requires Buildable(routes, opts)
    requires !opts.invertPrefix
    requires 0 <= i < |Versions(routes, opts)|
    ensures Build(routes, opts).Ok?
    ensures i < |Build(routes, opts).value|
    ensures Answers(Build(routes, opts).value[i].routes, pm) <==>
      exists j :: && 0 <= j < |routes|
                  && KeyLe(KeyOf(Tag(routes, opts.defaultVersion)[j]), Versions(routes, opts)[i])
                  && pm in PathMethods(routes[j])
    ensures var K := Dedup(Keys(Entries(None, MountedRoutes(routes, opts, i))));
      Plain(pm) in K <==>
        exists j :: && 0 <= j < |routes|
                    && KeyLe(KeyOf(Tag(routes, opts.defaultVersion)[j]), Versions(routes, opts)[i])
                    && pm in PathMethods(routes[j])
  {
    var ts := Tag(routes, opts.defaultVersion);
    var top := Versions(routes, opts)[i];
    var rs := MountedRoutes(routes, opts, i);
    var K := Dedup(Keys(Entries(None, rs)));
    PlainMount(routes, opts, i);
    AnswersLastDefiners(rs, K, Build(routes, opts).value[i].routes, pm);
    MountedRoutesUpTo(routes, opts, i);
    AnswersMultiset(rs, RoutesUpTo(ts, top), pm);
    AnswersUpTo(ts, top, pm);
  }

  /**
   * For a dictionary holding, under each of its keys, the last value `es`
   * assigns to it, the entries matching `cp` hold those values too.
   */
  lemma MatchingLastValues(d: seq<(DedupKey, Route)>, es: seq<(DedupKey, Route)>, cp: string)
    requires forall x :: 0 <= x < |d| ==> d[x].0 in Keys(es) && d[x].1 == LastValue(es, d[x].0)
    ensures var K := Matching(Keys(d), cp);
      var vs := MatchingValues(d, cp);
      && |vs| == |K|
      && (forall j :: 0 <= j < |K| ==> K[j] in Keys(es) && Matches(K[j], cp) && vs[j] == LastValue(es, K[j]))
      && (forall key :: key in Keys(d) && Matches(key, cp) ==> key in K)
  {
    var F := MatchingEntries(d, cp);
    MatchingEntriesFacts(d, cp);
    forall j | 0 <= j < |F|
      ensures F[j].0 in Keys(es) && Matches(F[j].0, cp) && F[j].1 == LastValue(es, F[j].0)
    {
      assert F[j] in F;
    }
    forall key | key in Keys(d) && Matches(key, cp)
      ensures key in Keys(F)
    {
      var x :| 0 <= x < |d| && Keys(d)[x] == key;
      assert d[x] in F;
      var y :| 0 <= y < |F| && F[y] == d[x];
      assert Keys(F)[y] == key;
    }
  }

  /**
   * The entries of a fresh dictionary filled from `es` that match `cp`: one
   * per matching key, in order of first assignment, each holding the value of
   * the key's last assignment; every matching key assigned is among them.
   */
  lemma FreshMatching(es: seq<(DedupKey, Route)>, cp: string)
    ensures var K := Matching(Dedup(Keys(es)), cp);
      var vs := MatchingValues(PutAll([], es), cp);
      && |vs| == |K|
      && (forall j :: 0 <= j < |K| ==> K[j] in Keys(es) && Matches(K[j], cp) && vs[j] == LastValue(es, K[j]))
      && (forall key :: key in Keys(es) && Matches(key, cp) ==> key in K)
  {
    var d := PutAll([], es);
    FreshPutAll(es);
    forall x | 0 <= x < |d|
      ensures d[x].0 in Keys(es) && d[x].1 == LastValue(es, d[x].0)
    {
      assert Keys(d)[x] == d[x].0;
      assert Values(d)[x] == d[x].1;
    }
    MatchingLastValues(d, es, cp);
  }

  /**
   * In inverted mode mount `i` holds the dictionary entries whose mount
   * prefix starts with its custom prefix: under a key `(mp, pm)` the last
   * route answering `pm` among the buckets so far mounted under `mp`. Every
   * such key whose mount prefix starts with the custom prefix is there.
   */
  lemma InvertedMount(routes: seq<Route>, opts: Options, i: int)
    requires Buildable(routes, opts)
    requires opts.invertPrefix
    requires 0 <= i < |Versions(routes, opts)|
    ensures Build(routes, opts).Ok?
    ensures i < |Build(routes, opts).value|
    ensures var b := Buckets(routes, opts);
      var ks := Versions(routes, opts)[..i + 1];
      var cp := Versions(routes, opts)[i].prefix;
      var K := Matching(Dedup(Keys(CumEntries(opts, b, ks))), cp);
      var m := Build(routes, opts).value[i];
      && |m.routes| == |K|
      && (forall j :: 0 <= j < |K| ==>
            && K[j].Scoped?
            && StartsWith(K[j].mount, cp)
            && Answers(RoutesUnder(opts, b, ks, K[j].mount), K[j].pathMethod)
            && m.routes[j] == LastDefiner(RoutesUnder(opts, b, ks, K[j].mount), K[j].pathMethod))
      && (forall mp, pm :: StartsWith(mp, cp) && Answers(RoutesUnder(opts, b, ks, mp), pm) ==> Scoped(mp, pm) in K)
  {
    BuildableOk(routes, opts);
    var b := Buckets(routes, opts);
    var ks := Versions(routes, opts)[..i + 1];
    var cp := Versions(routes, opts)[i].prefix;
    var E := CumEntries(opts, b, ks);
    var K := Matching(Dedup(Keys(E)), cp);
    MountAt(routes, opts, i);
    FreshMatching(E, cp);
    forall j | 0 <= j < |K|
      ensures Answers(RoutesUnder(opts, b, ks, K[j].mount), K[j].pathMethod)
      ensures LastValue(E, K[j]) == LastDefiner(RoutesUnder(opts, b, ks, K[j].mount), K[j].pathMethod)
    {
      InvertedCumEntries(opts, b, ks, K[j].mount, K[j].pathMethod);
    }
    forall mp, pm | StartsWith(mp, cp) && Answers(RoutesUnder(opts, b, ks, mp), pm)
      ensures Scoped(mp, pm) in K
    {
      InvertedCumEntries(opts, b, ks, mp, pm);
    }
  }

  /**
   * In inverted mode a bucket without custom prefix mounts every entry of
   * the dictionary, whatever mount prefix it was assigned under.
   */
  lemma UnprefixedMountsAll(routes: seq<Route>, opts: Options, i: int)
    requires Buildable(routes, opts)
    requires opts.invertPrefix
    requires 0 <= i < |Versions(routes, opts)|
    requires Versions(routes, opts)[i].prefix == ""
    ensures Build(routes, opts).Ok?
    ensures i < |Build(routes, opts).value|
    ensures var ks := Versions(routes, opts)[..i + 1];
      Build(routes, opts).value[i].routes == Values(PutAll([], CumEntries(opts, Buckets(routes, opts), ks)))
  {
    BuildableOk(routes, opts);
    var b := Buckets(routes, opts);
    var ks := Versions(routes, opts)[..i + 1];
    var E := CumEntries(opts, b, ks);
    MountAt(routes, opts, i);
    FreshPutAll(E);
    forall key | key in Keys(PutAll([], E))
      ensures key.Scoped?
    {
      InvertedCumEntries(opts, b, ks, "", "");
    }
    MatchingEverything(PutAll([], E));
  }

  /**
   * With `/latest` requested the result ends with one more mount: the label
   * of the last bucket without its custom prefix, no documentation paths,
   * and every entry of the final dictionary. In plain mode that is the
   * route set of the last versioned mount.
   */
  lemma LatestMount(routes: seq<Route>, opts: Options)
    requires Buildable(routes, opts)
    requires opts.enableLatest
    ensures Build(routes, opts).Ok?
    ensures var ks := Versions(routes, opts);
      && ks != []
      && |Build(routes, opts).value| == |ks| + 1
    ensures var ks := Versions(routes, opts);
      var last := ks[|ks| - 1];
      var v := Template.Format(opts.versionFormat, last.major, last.minor);
      var mounts := Build(routes, opts).value;
      && v.Ok?
      && mounts[|ks|]
         == Mount("/latest", v.value, Values(PutAll([], CumEntries(opts, Buckets(routes, opts), ks))), [])
      && mounts[|ks| - 1].semver == last.prefix + mounts[|ks|].semver
      && (!opts.invertPrefix ==> mounts[|ks|].routes == mounts[|ks| - 1].routes)
  {
    BuildableOk(routes, opts);
    var ks := Versions(routes, opts);
    var b := Buckets(routes, opts);
    BuildVisitsSortedKeys(routes, opts);
    BuildMounts(routes, opts);
    ProcessState(opts, b, ks);
    var n := |ks| - 1;
    MountAt(routes, opts, n);
    assert ks[..n + 1] == ks;
  }
}
