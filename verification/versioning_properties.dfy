/**
 * What the versioning routine guarantees: when it fails, the order in which
 * buckets are visited, the prefix and label of each mount, which routes each
 * mount receives, and what `/latest` receives.
 */
module VersioningProperties {
  import opened Results
  import opened OrderedDict
  import opened Tags
  import opened KeyOrder
  import opened Bucketing
  import opened Versioning
  import Template
  import Decimal

  /** A template that can be filled; whether it can does not depend on the numbers. */
  predicate TemplateOk(template: string) {
    Template.Format(template, 0, 0).Ok?
  }

  /** Both templates of the options can be filled. */
  predicate TemplatesOk(opts: Options) {
    TemplateOk(opts.versionPrefix) && TemplateOk(opts.versionFormat)
  }

  /**
   * When the routine succeeds, stated on its inputs: the templates are only
   * filled when some route exists, and `/latest` needs at least one bucket.
   */
  predicate Buildable(routes: seq<Route>, opts: Options) {
    && (routes != [] ==> TemplatesOk(opts))
    && (opts.enableLatest ==> routes != [])
  }

  lemma TemplateOkAnyVersion(template: string, major: int, minor: int)
    ensures Template.Format(template, major, minor).Ok? == TemplateOk(template)
    ensures !TemplateOk(template) ==>
      Template.Format(template, major, minor) == Template.Format(template, 0, 0)
  {
    Template.FormatOutcomeIndependent(template, 0, 0, major, minor);
  }

  /** The assignments of the buckets `ks`, bucket after bucket. */
  function CumEntries(opts: Options, b: seq<(Key, seq<Route>)>, ks: seq<Key>): seq<(DedupKey, Route)>
    decreases |ks|
  {
    if ks == [] then [] else CumEntries(opts, b, ks[..|ks| - 1]) + BucketEntries(opts, b, ks[|ks| - 1])
  }

  lemma CumEntriesSnoc(opts: Options, b: seq<(Key, seq<Route>)>, ks: seq<Key>, i: int)
    requires 0 <= i < |ks|
    ensures CumEntries(opts, b, ks[..i + 1]) == CumEntries(opts, b, ks[..i]) + BucketEntries(opts, b, ks[i])
  {
    assert ks[..i + 1][..i] == ks[..i];
  }

  /** One more bucket is one more turn of the loop, on the state the earlier buckets left. */
  lemma ProcessSnoc(opts: Options, b: seq<(Key, seq<Route>)>, ks: seq<Key>)
    requires ks != [] && TemplatesOk(opts)
    ensures var init := Process(opts, b, ks[..|ks| - 1]);
      && init.Ok?
      && Step(opts, b, init.value.unique, ks[|ks| - 1]).Ok?
      && Process(opts, b, ks).value.mounts
         == init.value.mounts + [Step(opts, b, init.value.unique, ks[|ks| - 1]).value.0]
      && Process(opts, b, ks).value.unique
         == PutAll(init.value.unique, BucketEntries(opts, b, ks[|ks| - 1]))
  {
    ProcessOk(opts, b, ks);
    ProcessOk(opts, b, ks[..|ks| - 1]);
  }

  /**
   * After the loop over `ks`, one mount was made per bucket and the
   * dictionary holds every assignment of those buckets.
   */
  lemma {:induction false} ProcessState(opts: Options, b: seq<(Key, seq<Route>)>, ks: seq<Key>)
    requires ks != [] ==> TemplatesOk(opts)
    ensures Process(opts, b, ks).Ok?
    ensures |Process(opts, b, ks).value.mounts| == |ks|
    ensures Process(opts, b, ks).value.unique == PutAll([], CumEntries(opts, b, ks))
    decreases |ks|
  {
    ProcessOk(opts, b, ks);
    if ks != [] {
      var init := ks[..|ks| - 1];
      ProcessSnoc(opts, b, ks);
      ProcessState(opts, b, init);
      PutAllConcat([], CumEntries(opts, b, init), BucketEntries(opts, b, ks[|ks| - 1]));
    }
  }

  /** The loop fails exactly when some visited bucket's prefix or label cannot be built. */
  lemma {:induction false} ProcessOutcome(opts: Options, b: seq<(Key, seq<Route>)>, ks: seq<Key>)
    ensures ks == [] ==> Process(opts, b, ks).Ok?
    ensures ks != [] && !TemplateOk(opts.versionPrefix) ==>
      Process(opts, b, ks) == Err(Template.Format(opts.versionPrefix, 0, 0).error)
    ensures ks != [] && TemplateOk(opts.versionPrefix) && !TemplateOk(opts.versionFormat) ==>
      Process(opts, b, ks) == Err(Template.Format(opts.versionFormat, 0, 0).error)
    ensures TemplateOk(opts.versionPrefix) && TemplateOk(opts.versionFormat) ==> Process(opts, b, ks).Ok?
    decreases |ks|
  {
    if ks != [] {
      var k := ks[|ks| - 1];
      ProcessOutcome(opts, b, ks[..|ks| - 1]);
      TemplateOkAnyVersion(opts.versionPrefix, k.major, k.minor);
      TemplateOkAnyVersion(opts.versionFormat, k.major, k.minor);
    }
  }

  lemma VersionsFacts(routes: seq<Route>, opts: Options)
    ensures StrictlySorted(Versions(routes, opts))
    ensures forall k :: k in Versions(routes, opts) <==> k in TagKeys(Tag(routes, opts.defaultVersion))
    ensures Versions(routes, opts) == [] <==> routes == []
  {
    var ts := Tag(routes, opts.defaultVersion);
    assert Keys(Buckets(routes, opts)) == Dedup(TagKeys(ts));
    if routes != [] {
      assert TagKeys(ts)[0] in Dedup(TagKeys(ts));
    }
  }

  /**
   * When the routine fails and with which error. Without routes no template
   * is ever filled, so only the latest alias can fail, on the unbound
   * version; with routes the mount template is filled first, then the label
   * template, then nothing else can fail.
   */
  lemma BuildOutcome(routes: seq<Route>, opts: Options)
    ensures routes == [] ==>
      Build(routes, opts) == if opts.enableLatest then Err(UnboundVersion) else Ok([])
    ensures routes != [] && !TemplateOk(opts.versionPrefix) ==>
      Build(routes, opts) == Err(Template.Format(opts.versionPrefix, 0, 0).error)
    ensures routes != [] && TemplateOk(opts.versionPrefix) && !TemplateOk(opts.versionFormat) ==>
      Build(routes, opts) == Err(Template.Format(opts.versionFormat, 0, 0).error)
    ensures routes != [] ==>
      (Build(routes, opts).Ok? <==> TemplateOk(opts.versionPrefix) && TemplateOk(opts.versionFormat))
  {
    var ks := Versions(routes, opts);
    VersionsFacts(routes, opts);
    ProcessOutcome(opts, Buckets(routes, opts), ks);
    if ks != [] {
      var last := ks[|ks| - 1];
      TemplateOkAnyVersion(opts.versionFormat, last.major, last.minor);
    }
  }

  /** The loop succeeds exactly when it visits no bucket or both templates can be filled. */
  lemma ProcessOk(opts: Options, b: seq<(Key, seq<Route>)>, ks: seq<Key>)
    ensures Process(opts, b, ks).Ok? <==> (ks != [] ==> TemplatesOk(opts))
  {
    ProcessOutcome(opts, b, ks);
  }

  /**
   * The routine succeeds exactly when the templates can be filled (or there
   * is no route to fill them for) and `/latest`, when asked for, has a
   * version to point at.
   */
  lemma BuildableOk(routes: seq<Route>, opts: Options)
    ensures Build(routes, opts).Ok? <==> Buildable(routes, opts)
  {
    BuildOutcome(routes, opts);
  }

  /**
   * Buckets are visited in strictly ascending key order, each distinct key
   * of the input once, and each gives one mount, followed by `/latest` when
   * asked for.
   */
  lemma BuildVisitsSortedKeys(routes: seq<Route>, opts: Options)
    requires Buildable(routes, opts)
    ensures Build(routes, opts).Ok?
    ensures StrictlySorted(Versions(routes, opts))
    ensures forall k :: k in Versions(routes, opts) <==>
      exists i :: 0 <= i < |routes| && k == KeyOf(VersionToRoute(routes[i], opts.defaultVersion))
    ensures |Build(routes, opts).value| == |Versions(routes, opts)| + if opts.enableLatest then 1 else 0
  {
    BuildableOk(routes, opts);
    VersionsFacts(routes, opts);
    TagKeysOfRoutes(routes, opts.defaultVersion);
    BuildLength(routes, opts);
  }

  lemma TagKeysOfRoutes(routes: seq<Route>, default: Version)
    ensures forall k :: k in TagKeys(Tag(routes, default)) <==>
      exists i :: 0 <= i < |routes| && k == KeyOf(VersionToRoute(routes[i], default))
  {
    var ts := Tag(routes, default);
    forall k
      ensures k in TagKeys(ts) <==> exists i :: 0 <= i < |routes| && k == KeyOf(VersionToRoute(routes[i], default))
    {
      if k in TagKeys(ts) {
        var i :| 0 <= i < |ts| && TagKeys(ts)[i] == k;
        assert KeyOf(VersionToRoute(routes[i], default)) == k;
      }
      if exists i :: 0 <= i < |routes| && k == KeyOf(VersionToRoute(routes[i], default)) {
        var i :| 0 <= i < |routes| && k == KeyOf(VersionToRoute(routes[i], default));
        assert TagKeys(ts)[i] == k;
      }
    }
  }

  lemma BuildLength(routes: seq<Route>, opts: Options)
    requires Buildable(routes, opts)
    ensures Build(routes, opts).Ok?
    ensures |Build(routes, opts).value| == |Versions(routes, opts)| + if opts.enableLatest then 1 else 0
  {
    BuildableOk(routes, opts);
    ProcessState(opts, Buckets(routes, opts), Versions(routes, opts));
  }

  lemma BuildMounts(routes: seq<Route>, opts: Options)
    requires Buildable(routes, opts)
    ensures Build(routes, opts).Ok?
    ensures Process(opts, Buckets(routes, opts), Versions(routes, opts)).Ok?
    ensures var st := Process(opts, Buckets(routes, opts), Versions(routes, opts)).value;
      && |Build(routes, opts).value| >= |st.mounts|
      && Build(routes, opts).value[..|st.mounts|] == st.mounts
  {
    BuildableOk(routes, opts);
  }

  /** Mount `i` of the result is mount `i` of the loop. */
  lemma BuildMount(routes: seq<Route>, opts: Options, i: int)
    requires Buildable(routes, opts)
    requires 0 <= i < |Versions(routes, opts)|
    ensures Build(routes, opts).Ok?
    ensures var st := Process(opts, Buckets(routes, opts), Versions(routes, opts));
      st.Ok? && i < |st.value.mounts| && Build(routes, opts).value[i] == st.value.mounts[i]
  {
    BuildableOk(routes, opts);
    var ks := Versions(routes, opts);
    var b := Buckets(routes, opts);
    BuildMounts(routes, opts);
    ProcessState(opts, b, ks);
    var st := Process(opts, b, ks).value;
    assert Build(routes, opts).value[..|st.mounts|][i] == st.mounts[i];
  }

  /** Mount `i` of the loop is the step at bucket `i` from the dictionary the earlier buckets left. */
  lemma {:induction false} ProcessMount(opts: Options, b: seq<(Key, seq<Route>)>, ks: seq<Key>, i: int)
    requires TemplatesOk(opts)
    requires 0 <= i < |ks|
    ensures Step(opts, b, PutAll([], CumEntries(opts, b, ks[..i])), ks[i]).Ok?
    ensures Process(opts, b, ks).Ok? && i < |Process(opts, b, ks).value.mounts|
    ensures Process(opts, b, ks).value.mounts[i]
         == Step(opts, b, PutAll([], CumEntries(opts, b, ks[..i])), ks[i]).value.0
    decreases |ks|
  {
    var n := |ks| - 1;
    if i < n {
      var init := ks[..n];
      ProcessEarlierMount(opts, b, ks, i);
      ProcessMount(opts, b, init, i);
      assert init[..i] == ks[..i] && init[i] == ks[i];
      var d := PutAll([], CumEntries(opts, b, ks[..i]));
      assert Process(opts, b, init).value.mounts[i] == Step(opts, b, d, ks[i]).value.0;
      assert Process(opts, b, ks).value.mounts[i] == Process(opts, b, init).value.mounts[i];
    } else {
      assert i == n;
      ProcessLastMount(opts, b, ks);
    }
  }

  lemma ProcessEarlierMount(opts: Options, b: seq<(Key, seq<Route>)>, ks: seq<Key>, i: int)
    requires TemplatesOk(opts)
    requires 0 <= i < |ks| - 1
    ensures Process(opts, b, ks).Ok? && Process(opts, b, ks[..|ks| - 1]).Ok?
    ensures |Process(opts, b, ks[..|ks| - 1]).value.mounts| == |ks| - 1
    ensures Process(opts, b, ks).value.mounts[i] == Process(opts, b, ks[..|ks| - 1]).value.mounts[i]
  {
    var init := ks[..|ks| - 1];
    ProcessSnoc(opts, b, ks);
    ProcessState(opts, b, init);
    var st := Process(opts, b, init).value;
    var last := Step(opts, b, st.unique, ks[|ks| - 1]).value.0;
    assert (st.mounts + [last])[i] == st.mounts[i];
  }

  lemma ProcessLastMount(opts: Options, b: seq<(Key, seq<Route>)>, ks: seq<Key>)
    requires ks != [] && TemplatesOk(opts)
    ensures var d := PutAll([], CumEntries(opts, b, ks[..|ks| - 1]));
      && Step(opts, b, d, ks[|ks| - 1]).Ok?
      && Process(opts, b, ks).Ok?
      && |Process(opts, b, ks).value.mounts| == |ks|
      && Process(opts, b, ks).value.mounts[|ks| - 1] == Step(opts, b, d, ks[|ks| - 1]).value.0
  {
    var init := ks[..|ks| - 1];
    ProcessSnoc(opts, b, ks);
    ProcessState(opts, b, init);
    var st := Process(opts, b, init).value;
    var last := Step(opts, b, st.unique, ks[|ks| - 1]).value.0;
    assert (st.mounts + [last])[|ks| - 1] == last;
  }

  lemma MountIsStep(routes: seq<Route>, opts: Options, i: int)
    requires Buildable(routes, opts)
    requires 0 <= i < |Versions(routes, opts)|
    ensures Build(routes, opts).Ok?
    ensures var ks := Versions(routes, opts);
      var b := Buckets(routes, opts);
      var s := Step(opts, b, PutAll([], CumEntries(opts, b, ks[..i])), ks[i]);
      s.Ok? && i < |Build(routes, opts).value| && Build(routes, opts).value[i] == s.value.0
  {
    BuildableOk(routes, opts);
    BuildMount(routes, opts, i);
    ProcessMount(opts, Buckets(routes, opts), Versions(routes, opts), i);
  }

  lemma CumPutAll(opts: Options, b: seq<(Key, seq<Route>)>, ks: seq<Key>, i: int)
    requires 0 <= i < |ks|
    ensures PutAll(PutAll([], CumEntries(opts, b, ks[..i])), BucketEntries(opts, b, ks[i]))
         == PutAll([], CumEntries(opts, b, ks[..i + 1]))
  {
    CumEntriesSnoc(opts, b, ks, i);
    PutAllConcat([], CumEntries(opts, b, ks[..i]), BucketEntries(opts, b, ks[i]));
  }

  lemma StepFacts(opts: Options, b: seq<(Key, seq<Route>)>, d: seq<(DedupKey, Route)>, k: Key)
    requires Step(opts, b, d, k).Ok?
    ensures var p := Template.Format(opts.versionPrefix, k.major, k.minor);
      var v := Template.Format(opts.versionFormat, k.major, k.minor);
      var m := Step(opts, b, d, k).value.0;
      var d' := PutAll(d, BucketEntries(opts, b, k));
      && p.Ok? && v.Ok?
      && m.prefix == (if opts.invertPrefix then k.prefix + p.value else p.value + k.prefix)
      && m.semver == k.prefix + v.value
      && m.docs == [m.prefix + "/docs", m.prefix + "/openapi.json"]
      && m.routes == (if opts.invertPrefix then MatchingValues(d', k.prefix) else Values(d'))
  {
  }

  /**
   * Mount `i` is bucket `i` in visiting order: its prefix is the formatted
   * mount template with the custom prefix after it (before it in inverted
   * mode), its label is the custom prefix followed by the formatted label
   * template, its documentation paths are under its prefix, and its routes
   * come from the dictionary after buckets `0..i` were assigned.
   */
  lemma MountAt(routes: seq<Route>, opts: Options, i: int)
    requires Buildable(routes, opts)
    requires 0 <= i < |Versions(routes, opts)|
    ensures Build(routes, opts).Ok?
    ensures i < |Build(routes, opts).value|
    ensures var k := Versions(routes, opts)[i];
      var p := Template.Format(opts.versionPrefix, k.major, k.minor);
      var v := Template.Format(opts.versionFormat, k.major, k.minor);
      var d := PutAll([], CumEntries(opts, Buckets(routes, opts), Versions(routes, opts)[..i + 1]));
      var m := Build(routes, opts).value[i];
      && p.Ok? && v.Ok?
      && m.prefix == (if opts.invertPrefix then k.prefix + p.value else p.value + k.prefix)
      && m.semver == k.prefix + v.value
      && m.docs == [m.prefix + "/docs", m.prefix + "/openapi.json"]
      && m.routes == (if opts.invertPrefix then MatchingValues(d, k.prefix) else Values(d))
  {
    BuildableOk(routes, opts);
    var ks := Versions(routes, opts);
    var b := Buckets(routes, opts);
    var d0 := PutAll([], CumEntries(opts, b, ks[..i]));
    MountIsStep(routes, opts, i);
    StepFacts(opts, b, d0, ks[i]);
    CumPutAll(opts, b, ks, i);
  }

  /**
   * With every keyword argument left at its default, the routine always
   * succeeds, mounts one application per bucket and no `/latest`, and
   * mounts bucket `(major, minor, prefix)` at `/v<major>_<minor><prefix>`
   * under the label `<prefix><major>.<minor>`.
   */
  lemma DefaultsMount(routes: seq<Route>, i: int)
    requires 0 <= i < |Versions(routes, Defaults)|
    ensures Build(routes, Defaults).Ok?
    ensures |Build(routes, Defaults).value| == |Versions(routes, Defaults)|
    ensures var k := Versions(routes, Defaults)[i];
      var m := Build(routes, Defaults).value[i];
      && m.prefix == "/v" + Decimal.IntToString(k.major) + "_" + Decimal.IntToString(k.minor) + k.prefix
      && m.semver == k.prefix + (Decimal.IntToString(k.major) + "." + Decimal.IntToString(k.minor))
      && m.docs == [m.prefix + "/docs", m.prefix + "/openapi.json"]
  {
    var k := Versions(routes, Defaults)[i];
    Template.DefaultPrefixFormat(0, 0);
    Template.DefaultLabelFormat(0, 0);
    assert Buildable(routes, Defaults);
    BuildLength(routes, Defaults);
    MountAt(routes, Defaults, i);
    Template.DefaultPrefixFormat(k.major, k.minor);
    Template.DefaultLabelFormat(k.major, k.minor);
  }
}
