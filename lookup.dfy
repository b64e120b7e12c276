/**
  How a request path is resolved to a handler: the reserved error path is delegated to the
  host, then a version-prefix pass compares prefixed paths by exact string equality, then
  a fallback pass asks the host's two pattern matchers, route by route.
*/
module Lookup {
  import opened Wrappers
  import opened RegisterHelper
  import opened HostTable

  datatype LookupResult =
    | Delegated               // handed to the host's own lookup unchanged
    | Found(handler: HandlerRef)
    | NotFound                // the host's routing failure for this method, path and headers

  /** The path the host reserves for error pages. */
  const ErrorPath: string := "/error"

  /** Whether the file allow-list lets version key `k` be tried: always when file configuration is off. */
  predicate KeyAllowed(k: string, fileEnabled: bool, allowList: seq<string>)
  {
    !fileEnabled || k in allowList
  }

  /** Whether some route lists `target` among its Ant patterns (exact string comparison). */
  predicate SomeRouteHasPath(order: seq<Route>, target: string)
  {
    exists i :: 0 <= i < |order| && HasPath(order[i].mapping, target)
  }

  /**
    Whether version key `k` ends the prefix pass for `path`: it is allowed, and either `path`
    is one of the final paths recorded under it, or some route lists `k + path`.
  */
  predicate Decides(path: string, k: string, prefixes: map<string, seq<string>>,
                    fileEnabled: bool, allowList: seq<string>, order: seq<Route>)
    requires k in prefixes
  {
    KeyAllowed(k, fileEnabled, allowList) && (path in prefixes[k] || SomeRouteHasPath(order, k + path))
  }

  /** The position, in key iteration order `keys`, of the first key that decides the prefix pass. */
  function FirstDecidingKey(path: string, keys: seq<string>, prefixes: map<string, seq<string>>,
                            fileEnabled: bool, allowList: seq<string>, order: seq<Route>): (j: int)
    requires forall k :: k in keys ==> k in prefixes
    ensures 0 <= j <= |keys|
    ensures forall i :: 0 <= i < j ==> !Decides(path, keys[i], prefixes, fileEnabled, allowList, order)
    ensures j < |keys| ==> Decides(path, keys[j], prefixes, fileEnabled, allowList, order)
  {
    if keys == [] then 0
    else if Decides(path, keys[0], prefixes, fileEnabled, allowList, order) then 0
    else 1 + FirstDecidingKey(path, keys[1..], prefixes, fileEnabled, allowList, order)
  }

  /**
    The version-prefix pass: the first deciding key either rejects the path as a directly
    accessed final path, or yields the handler of the first route listing key + path. None
    when no key decides and the fallback pass runs.
  */
  function PrefixPass(path: string, keys: seq<string>, prefixes: map<string, seq<string>>,
                      fileEnabled: bool, allowList: seq<string>, order: seq<Route>): Option<LookupResult>
    requires forall k :: k in keys ==> k in prefixes
  {
    var j := FirstDecidingKey(path, keys, prefixes, fileEnabled, allowList, order);
    if j == |keys| then None
    else if path in prefixes[keys[j]] then Some(NotFound)
    else Some(Found(order[FirstWithPathIndex(order, keys[j] + path)].handler))
  }

  /**
    Whether a route matches `path` in the fallback pass: one of its parsed patterns matches
    under the parsed-pattern matcher `pm`, or one of its Ant patterns matches under `am`.
  */
  predicate RouteMatches(r: Route, path: string, pm: (PathPattern, string) -> bool, am: (string, string) -> bool)
  {
    || (r.mapping.pathPatterns.Some? && exists p :: p in r.mapping.pathPatterns.value && pm(p, path))
    || (r.mapping.antPatterns.Some? && exists p :: p in r.mapping.antPatterns.value && am(p, path))
  }

  /** The position of the first route, in iteration order `order`, that matches `path` in the fallback pass. */
  function FirstMatchingRoute(order: seq<Route>, path: string,
                              pm: (PathPattern, string) -> bool, am: (string, string) -> bool): (i: int)
    ensures 0 <= i <= |order|
    ensures forall j :: 0 <= j < i ==> !RouteMatches(order[j], path, pm, am)
    ensures i < |order| ==> RouteMatches(order[i], path, pm, am)
  {
    if order == [] then 0
    else if RouteMatches(order[0], path, pm, am) then 0
    else 1 + FirstMatchingRoute(order[1..], path, pm, am)
  }

  /** The fallback pass: the first matching route's handler, or not found. */
  function Fallback(order: seq<Route>, path: string,
                    pm: (PathPattern, string) -> bool, am: (string, string) -> bool): (r: LookupResult)
    ensures r.NotFound? <==> forall j :: 0 <= j < |order| ==> !RouteMatches(order[j], path, pm, am)
    ensures r.Found? ==> exists j :: 0 <= j < |order| && RouteMatches(order[j], path, pm, am) && r.handler == order[j].handler
    ensures r.Found? ==> var i := FirstMatchingRoute(order, path, pm, am); i < |order| && r.handler == order[i].handler
    ensures !r.Delegated?
  {
    var i := FirstMatchingRoute(order, path, pm, am);
    if i < |order| then Found(order[i].handler) else NotFound
  }

  /** The whole lookup of `path`. */
  function Resolve(path: string, keys: seq<string>, prefixes: map<string, seq<string>>,
                   fileEnabled: bool, allowList: seq<string>, order: seq<Route>,
                   pm: (PathPattern, string) -> bool, am: (string, string) -> bool): (r: LookupResult)
    requires forall k :: k in keys ==> k in prefixes
    ensures r.Delegated? <==> path == ErrorPath
  {
    if path == ErrorPath then Delegated
    else match PrefixPass(path, keys, prefixes, fileEnabled, allowList, order)
      case Some(res) => res
      case None => Fallback(order, path, pm, am)
  }

  /**
    The fallback matchers are consulted only when no allowed version key decides: then the
    lookup is exactly the fallback pass; otherwise the result does not depend on them.
  */
  lemma FallbackOnlyWhenNoKeyDecides(path: string, keys: seq<string>, prefixes: map<string, seq<string>>,
                                     fileEnabled: bool, allowList: seq<string>, order: seq<Route>,
                                     pm: (PathPattern, string) -> bool, am: (string, string) -> bool,
                                     pm2: (PathPattern, string) -> bool, am2: (string, string) -> bool)
    requires forall k :: k in keys ==> k in prefixes
    requires path != ErrorPath
    ensures (forall i :: 0 <= i < |keys| ==> !Decides(path, keys[i], prefixes, fileEnabled, allowList, order)) ==>
              Resolve(path, keys, prefixes, fileEnabled, allowList, order, pm, am) == Fallback(order, path, pm, am)
    ensures (exists i :: 0 <= i < |keys| && Decides(path, keys[i], prefixes, fileEnabled, allowList, order)) ==>
              Resolve(path, keys, prefixes, fileEnabled, allowList, order, pm, am)
              == Resolve(path, keys, prefixes, fileEnabled, allowList, order, pm2, am2)
  {
  }

  /**
    A request for a final path recorded under an allowed key is never served through that
    key or a later one: it is rejected as not found, unless an earlier allowed key already
    has a route for its own prefixed form of the path.
  */
  lemma DirectAccessRejected(path: string, keys: seq<string>, prefixes: map<string, seq<string>>,
                             fileEnabled: bool, allowList: seq<string>, order: seq<Route>,
                             pm: (PathPattern, string) -> bool, am: (string, string) -> bool, j: int)
    requires forall k :: k in keys ==> k in prefixes
    requires path != ErrorPath
    requires 0 <= j < |keys| && KeyAllowed(keys[j], fileEnabled, allowList) && path in prefixes[keys[j]]
    ensures var r := Resolve(path, keys, prefixes, fileEnabled, allowList, order, pm, am);
            r == NotFound ||
            exists i, q :: 0 <= i < j && 0 <= q < |order| && KeyAllowed(keys[i], fileEnabled, allowList)
                           && HasPath(order[q].mapping, keys[i] + path) && r == Found(order[q].handler)
  {
    var i := FirstDecidingKey(path, keys, prefixes, fileEnabled, allowList, order);
    assert Decides(path, keys[j], prefixes, fileEnabled, allowList, order);
    assert i <= j;
    if path !in prefixes[keys[i]] {
      var q := FirstWithPathIndex(order, keys[i] + path);
      assert i != j;
    }
  }

  /**
    When the first allowed key that decides does so through a route, the lookup returns the
    handler of the first route, in table iteration order, listing exactly key + path.
  */
  lemma PrefixedRouteFound(path: string, keys: seq<string>, prefixes: map<string, seq<string>>,
                           fileEnabled: bool, allowList: seq<string>, order: seq<Route>,
                           pm: (PathPattern, string) -> bool, am: (string, string) -> bool, j: int)
    requires forall k :: k in keys ==> k in prefixes
    requires path != ErrorPath
    requires 0 <= j < |keys| && KeyAllowed(keys[j], fileEnabled, allowList)
    requires path !in prefixes[keys[j]] && SomeRouteHasPath(order, keys[j] + path)
    requires forall i :: 0 <= i < j ==> !Decides(path, keys[i], prefixes, fileEnabled, allowList, order)
    ensures var q := FirstWithPathIndex(order, keys[j] + path);
            q < |order| && Resolve(path, keys, prefixes, fileEnabled, allowList, order, pm, am) == Found(order[q].handler)
  {
    assert FirstDecidingKey(path, keys, prefixes, fileEnabled, allowList, order) == j;
  }

  /**
    With version v1 registered at /v1/api/x, a request for /api/x is served by that route,
    while a request for /v1/api/x itself is not found, whatever the fallback matchers say.
  */
  lemma VersionedLookupExample(h: HandlerRef, pm: (PathPattern, string) -> bool, am: (string, string) -> bool)
    ensures var route := Route(Mapping(Some(["/v1/api/x"]), None, {GET}), h);
            var prefixes := map["/v1" := ["/v1/api/x"]];
            && Resolve("/api/x", ["/v1"], prefixes, false, [], [route], pm, am) == Found(h)
            && Resolve("/v1/api/x", ["/v1"], prefixes, false, [], [route], pm, am) == NotFound
  {
    var route := Route(Mapping(Some(["/v1/api/x"]), None, {GET}), h);
    assert "/v1" + "/api/x" == "/v1/api/x";
    assert HasPath(route.mapping, "/v1" + "/api/x");
  }
}
