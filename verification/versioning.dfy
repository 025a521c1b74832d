/**
 * The versioning routine: read the tag of every route, file the routes into
 * buckets by `(major, minor, custom_prefix)`, visit the buckets in ascending
 * order, and for each one mount the routes seen so far, de-duplicated by
 * path and method, under a prefix and a label built from templates.
 * Optionally a `/latest` alias receives the final set of routes.
 *
 * The framework objects are replaced by their effect: the result is the list
 * of sub-applications mounted on the parent, in mounting order.
 */
module Versioning {
  import opened Results
  import opened OrderedDict
  import opened Tags
  import opened KeyOrder
  import opened Bucketing
  import Template

  /** The keyword arguments of the versioning routine. */
  datatype Options = Options(
    versionFormat: string,    // label template, `{major}.{minor}` by default
    versionPrefix: string,    // mount template, `/v{major}_{minor}` by default
    invertPrefix: bool,       // put the custom prefix before the version prefix
    defaultVersion: Version,  // version of routes whose handler carries none, 1.0 by default
    enableLatest: bool        // also mount the final route set under `/latest`
  )

  /** The keyword arguments' default values. */
  const Defaults: Options :=
    Options(Template.DefaultVersionFormat, Template.DefaultVersionPrefix, false, Version(1, 0), false)

  /**
   * A key of the de-duplication dictionary: the string `path|method`, or in
   * inverted mode the pair of the mount prefix and that string.
   */
  datatype DedupKey = Plain(pathMethod: string) | Scoped(mount: string, pathMethod: string)

  /**
   * A sub-application mounted on the parent: its mount prefix, its version
   * label, its routes in order, and the documentation paths the parent
   * registers for it.
   */
  datatype Mount = Mount(prefix: string, semver: string, routes: seq<Route>, docs: seq<string>)

  /** The de-duplication string of a path and one of its methods. */
  function PathMethod(path: string, verb: string): string {
    path + "|" + verb
  }

  /** Every `path|method` a route answers, in the order of its methods. */
  function PathMethods(r: Route): (pms: seq<string>)
    ensures |pms| == |r.methods|
    ensures forall i :: 0 <= i < |r.methods| ==> pms[i] == PathMethod(r.path, r.methods[i])
  {
    seq(|r.methods|, i requires 0 <= i < |r.methods| => PathMethod(r.path, r.methods[i]))
  }

  /** The dictionary key of a `path|method`: bare, or scoped by a mount prefix. */
  function KeyFor(scope: Option<string>, pm: string): DedupKey {
    match scope
    case None => Plain(pm)
    case Some(m) => Scoped(m, pm)
  }

  /** The assignments one route makes to the dictionary: one per method. */
  function MethodEntries(scope: Option<string>, r: Route): (es: seq<(DedupKey, Route)>)
    ensures |es| == |r.methods|
    ensures forall i :: 0 <= i < |es| ==> es[i] == (KeyFor(scope, PathMethods(r)[i]), r)
  {
    seq(|r.methods|, i requires 0 <= i < |r.methods| => (KeyFor(scope, PathMethods(r)[i]), r))
  }

  /** The assignments a list of routes makes, route after route. */
  function Entries(scope: Option<string>, rs: seq<Route>): seq<(DedupKey, Route)>
    decreases |rs|
  {
    if rs == [] then [] else Entries(scope, rs[..|rs| - 1]) + MethodEntries(scope, rs[|rs| - 1])
  }

  /** The prefix a bucket is mounted under. */
  function MountPrefix(opts: Options, k: Key): (r: Result<string>)
    ensures r.Ok? <==> Template.Format(opts.versionPrefix, k.major, k.minor).Ok?
    ensures r.Err? ==> r.error == Template.Format(opts.versionPrefix, k.major, k.minor).error
    ensures r.Ok? ==> |r.value| == |k.prefix| + |Template.Format(opts.versionPrefix, k.major, k.minor).value|
  {
    var p :- Template.Format(opts.versionPrefix, k.major, k.minor);
    Ok(if opts.invertPrefix then k.prefix + p else p + k.prefix)
  }

  /** The version label of a bucket: its custom prefix, then the formatted version. */
  function Label(opts: Options, k: Key): (r: Result<string>)
    ensures r.Ok? <==> Template.Format(opts.versionFormat, k.major, k.minor).Ok?
    ensures r.Err? ==> r.error == Template.Format(opts.versionFormat, k.major, k.minor).error
    ensures r.Ok? ==> StartsWith(r.value, k.prefix)
  {
    var v :- Template.Format(opts.versionFormat, k.major, k.minor);
    Ok(k.prefix + v)
  }

  /** The routes filed under `k`. */
  function BucketRoutes(b: seq<(Key, seq<Route>)>, k: Key): seq<Route> {
    Get(b, k).GetOr([])
  }

  /** The assignments processing bucket `k` makes to the de-duplication dictionary. */
  function BucketEntries(opts: Options, b: seq<(Key, seq<Route>)>, k: Key): seq<(DedupKey, Route)> {
    if !opts.invertPrefix then Entries(None, BucketRoutes(b, k))
    else
      match MountPrefix(opts, k)
      case Ok(m) => Entries(Some(m), BucketRoutes(b, k))
      case Err(_) => []
  }

  function StartsWith(s: string, p: string): bool {
    |p| <= |s| && s[..|p|] == p
  }

  /** A scoped key whose mount prefix starts with the custom prefix `cp`. */
  predicate Matches(k: DedupKey, cp: string) {
    k.Scoped? && StartsWith(k.mount, cp)
  }

  /** The keys that match `cp`, in order. */
  function Matching(ks: seq<DedupKey>, cp: string): seq<DedupKey>
    decreases |ks|
  {
    if ks == [] then []
    else if Matches(ks[|ks| - 1], cp) then Matching(ks[..|ks| - 1], cp) + [ks[|ks| - 1]]
    else Matching(ks[..|ks| - 1], cp)
  }

  /** The routes of the dictionary entries whose keys match `cp`, in dictionary order. */
  function MatchingValues(d: seq<(DedupKey, Route)>, cp: string): seq<Route>
    decreases |d|
  {
    if d == [] then []
    else if Matches(d[|d| - 1].0, cp) then MatchingValues(d[..|d| - 1], cp) + [d[|d| - 1].1]
    else MatchingValues(d[..|d| - 1], cp)
  }

  /** The mounts made so far and the de-duplication dictionary. */
  datatype State = State(mounts: seq<Mount>, unique: seq<(DedupKey, Route)>)

  /**
   * One turn of the loop over sorted buckets: build the prefix and label,
   * assign the bucket's routes to the dictionary, and mount what the
   * dictionary then holds (in inverted mode, only the entries whose mount
   * prefix starts with the bucket's custom prefix).
   */
  function Step(opts: Options, b: seq<(Key, seq<Route>)>, d: seq<(DedupKey, Route)>, k: Key)
    : (r: Result<(Mount, seq<(DedupKey, Route)>)>)
    ensures r.Ok? <==> MountPrefix(opts, k).Ok? && Label(opts, k).Ok?
    ensures MountPrefix(opts, k).Err? ==> r == Err(MountPrefix(opts, k).error)
    ensures MountPrefix(opts, k).Ok? && Label(opts, k).Err? ==> r == Err(Label(opts, k).error)
    ensures r.Ok? ==> |r.value.0.docs| == 2
    ensures r.Ok? ==> StartsWith(r.value.0.docs[0], r.value.0.prefix) && StartsWith(r.value.0.docs[1], r.value.0.prefix)
  {
    var prefix :- MountPrefix(opts, k);
    var semver :- Label(opts, k);
    var d' := PutAll(d, BucketEntries(opts, b, k));
    var routes := if opts.invertPrefix then MatchingValues(d', k.prefix) else Values(d');
    Ok((Mount(prefix, semver, routes, [prefix + "/docs", prefix + "/openapi.json"]), d'))
  }

  /** The loop over the buckets `ks`, in the order given, stopping at the first error. */
  function Process(opts: Options, b: seq<(Key, seq<Route>)>, ks: seq<Key>): (r: Result<State>)
    ensures r.Ok? ==> |r.value.mounts| == |ks|
    decreases |ks|
  {
    if ks == [] then Ok(State([], []))
    else
      var st :- Process(opts, b, ks[..|ks| - 1]);
      var step :- Step(opts, b, st.unique, ks[|ks| - 1]);
      Ok(State(st.mounts + [step.0], step.1))
  }

  /** Every route of the application with its version and custom prefix. */
  function Tag(routes: seq<Route>, default: Version): (ts: seq<Tagged>)
    ensures |ts| == |routes|
    ensures forall i :: 0 <= i < |routes| ==> ts[i] == VersionToRoute(routes[i], default)
  {
    seq(|routes|, i requires 0 <= i < |routes| => VersionToRoute(routes[i], default))
  }

  function Buckets(routes: seq<Route>, opts: Options): seq<(Key, seq<Route>)> {
    Bucket(Tag(routes, opts.defaultVersion))
  }

  /** The bucket keys in the order they are visited. */
  function Versions(routes: seq<Route>, opts: Options): seq<Key> {
    SortKeys(Keys(Buckets(routes, opts)))
  }

  /**
   * The versioning routine: the sub-applications mounted on the parent, one
   * per bucket in ascending key order, then `/latest` when asked for.
   */
  function Build(routes: seq<Route>, opts: Options): (r: Result<seq<Mount>>)
    ensures routes == [] ==> r == if opts.enableLatest then Err(UnboundVersion) else Ok([])
    ensures r.Ok? ==> |r.value| == |Versions(routes, opts)| + if opts.enableLatest then 1 else 0
    ensures r.Ok? && opts.enableLatest ==>
      r.value[|r.value| - 1].prefix == "/latest" && r.value[|r.value| - 1].docs == []
  {
    var ks := Versions(routes, opts);
    var st :- Process(opts, Buckets(routes, opts), ks);
    if !opts.enableLatest then Ok(st.mounts)
    else if ks == [] then Err(UnboundVersion)
    else
      var last := ks[|ks| - 1];
      var semver :- Template.Format(opts.versionFormat, last.major, last.minor);
      Ok(st.mounts + [Mount("/latest", semver, Values(st.unique), [])])
  }
}
