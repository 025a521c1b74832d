/**
 * Version tags on route handlers: the decorator that stamps a version and a
 * custom prefix onto a handler, and the lookup that reads them back from a
 * route, falling back to a default version and the empty prefix.
 */
module Tags {
  import opened Results

  /** An API version, compared as the pair (major, minor). */
  datatype Version = Version(major: int, minor: int)

  /**
   * A route handler. `apiVersion` and `customPrefix` are the two attributes
   * the decorator sets; a handler nobody decorated has neither, and each is
   * looked up on its own.
   */
  datatype Endpoint = Endpoint(name: string, apiVersion: Option<Version>, customPrefix: Option<string>)

  /** A route of the application: its path, its HTTP methods in order, and its handler. */
  datatype Route = Route(path: string, methods: seq<string>, endpoint: Endpoint)

  /** A route together with the version and custom prefix it is filed under. */
  datatype Tagged = Tagged(version: Version, route: Route, customPrefix: string)

  /**
   * `@version(major, minor, prefix)` applied to a handler: the same handler,
   * carrying the version `(major, minor)` and the custom prefix.
   */
  function Stamp(e: Endpoint, major: int, minor: int := 0, prefix: string := ""): (r: Endpoint)
    ensures r.name == e.name
    ensures r.apiVersion == Some(Version(major, minor))
    ensures r.customPrefix == Some(prefix)
  {
    e.(apiVersion := Some(Version(major, minor)), customPrefix := Some(prefix))
  }

  /**
   * Reads the version and custom prefix of a route's handler. A missing
   * version is `default`, a missing prefix is empty, and the route itself is
   * passed through unchanged.
   */
  function VersionToRoute(route: Route, default: Version): (t: Tagged)
    ensures t.route == route
    ensures route.endpoint.apiVersion.None? ==> t.version == default
    ensures route.endpoint.apiVersion.Some? ==> t.version == route.endpoint.apiVersion.value
    ensures route.endpoint.customPrefix.None? ==> t.customPrefix == ""
    ensures route.endpoint.customPrefix.Some? ==> t.customPrefix == route.endpoint.customPrefix.value
  {
    Tagged(route.endpoint.apiVersion.GetOr(default), route, route.endpoint.customPrefix.GetOr(""))
  }

  /**
   * Reading back a stamped handler gives exactly the stamped tag, whatever
   * the default; omitted decorator arguments read back as minor 0 and the
   * empty prefix.
   */
  lemma StampThenLookup(path: string, methods: seq<string>, e: Endpoint,
                        major: int, minor: int, prefix: string, default: Version)
    ensures VersionToRoute(Route(path, methods, Stamp(e, major, minor, prefix)), default)
         == Tagged(Version(major, minor), Route(path, methods, Stamp(e, major, minor, prefix)), prefix)
    ensures VersionToRoute(Route(path, methods, Stamp(e, major)), default).version == Version(major, 0)
    ensures VersionToRoute(Route(path, methods, Stamp(e, major)), default).customPrefix == ""
  {
  }

  /** Decorating twice leaves the tag of the outermost decorator, the one applied last. */
  lemma StampOverrides(e: Endpoint, major1: int, minor1: int, prefix1: string,
                       major2: int, minor2: int, prefix2: string)
    ensures Stamp(Stamp(e, major1, minor1, prefix1), major2, minor2, prefix2)
         == Stamp(e, major2, minor2, prefix2)
  {
  }
}
