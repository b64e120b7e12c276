/**
  The version-aware handler mapping: it owns the version index, the priority table, the
  list of unactivated versions and (standing in for the host framework's registry) the
  route table, and updates them in place as endpoints are registered. Each method is
  proved to follow the pure definitions in Registration, HostTable and Lookup.
*/
module HandlerMapping {
  import opened Wrappers
  import opened DualMaps
  import opened VersionPolicy
  import opened VersionInfo
  import opened RegisterHelper
  import opened HostTable
  import opened Lookup
  import Registration

  /** Version lookup compares the prefixed request path with a registered pattern by exact string equality. */
  predicate PathMatch(pattern: string, lookupPath: string)
  {
    pattern == lookupPath
  }

  class DualRequestMappingHandlerMapping {
    const props: Properties
    const fileEnabled: bool
    /** Version key ("/" + version) to the final paths registered under it. */
    const versionPrefixes: DualMap<string>
    /** Final path to the priority of the route registered there. */
    var interfacePriorities: map<string, int>
    var unactivatedVersions: seq<string>
    /** The versions the configuration file allows, an input to lookup. */
    var fileConfiguration: seq<string>
    /** The host registry's route table. */
    var routes: seq<Route>

    /** The engine state the registration definition speaks about. */
    function State(): Registration.State
      reads this, versionPrefixes
    {
      Registration.State(versionPrefixes.entries, interfacePriorities, unactivatedVersions, routes)
    }

    constructor (props: Properties, fileEnabled: bool, fileConfiguration: seq<string>)
      ensures this.props == props && this.fileEnabled == fileEnabled
      ensures this.fileConfiguration == fileConfiguration
      ensures fresh(versionPrefixes)
      ensures State() == Registration.State(map[], map[], [], [])
    {
      this.props := props;
      this.fileEnabled := fileEnabled;
      this.fileConfiguration := fileConfiguration;
      versionPrefixes := new DualMap<string>();
      interfacePriorities := map[];
      unactivatedVersions := [];
      routes := [];
    }

    /** The host's registration: refused, leaving the table as it was, when an equal mapping is registered. */
    method HostRegister(m: Mapping, h: HandlerRef) returns (ok: bool)
      modifies this
      ensures HostTable.Register(old(routes), m, h) == (if ok then Some(routes) else None)
      ensures !ok ==> routes == old(routes)
      ensures interfacePriorities == old(interfacePriorities) && unactivatedVersions == old(unactivatedVersions)
      ensures fileConfiguration == old(fileConfiguration)
    {
      if HasMapping(routes, m) {
        return false;
      }
      routes := routes + [Route(m, h)];
      return true;
    }

    /** Registers an injected mapping; the host's duplicate fault is caught and reported as `accepted == false`. */
    method RegisterHandlerMethodD(m: Mapping, h: HandlerRef) returns (accepted: bool)
      modifies this
      ensures HostTable.Register(old(routes), m, h) == (if accepted then Some(routes) else None)
      ensures !accepted ==> routes == old(routes)
      ensures interfacePriorities == old(interfacePriorities) && unactivatedVersions == old(unactivatedVersions)
      ensures fileConfiguration == old(fileConfiguration)
    {
      accepted := HostRegister(m, h);
    }

    /**
      Unregisters the first route, in the table's iteration order `order`, whose Ant patterns
      list `path`; nothing happens when there is none.
    */
    method UnregisterPath(path: string, order: seq<Route>)
      modifies this
      ensures routes == HostTable.UnregisterPath(old(routes), order, path)
      ensures interfacePriorities == old(interfacePriorities) && unactivatedVersions == old(unactivatedVersions)
      ensures fileConfiguration == old(fileConfiguration)
    {
      var i := 0;
      while i < |order|
        invariant 0 <= i <= |order|
        invariant forall j :: 0 <= j < i ==> !HasPath(order[j].mapping, path)
      {
        var info := order[i].mapping;
        if info.antPatterns.Some? && path in info.antPatterns.value {
          assert FirstWithPathIndex(order, path) == i;
          routes := RemoveMapping(routes, info);
          return;
        }
        i := i + 1;
      }
    }

    /**
      One registration event, as Registration.Register defines it: `states` is the version
      information map and `order` the route table's iteration order at the time of the call.
    */
    method RegisterHandlerMethod(e: Registration.Endpoint, mapping: Mapping, states: map<string, bool>, order: seq<Route>)
      returns (outcome: Registration.Outcome)
      modifies this, versionPrefixes
      ensures (State(), outcome) == Registration.Register(props, states, old(State()), e, mapping, order)
      ensures fileConfiguration == old(fileConfiguration)
    {
      if !props.start || e.exempt {
        var ok := HostRegister(mapping, e.handler);
        return if ok then Registration.PassedThrough else Registration.Failed(Registration.DuplicateMapping);
      }
      var path := GetMethodPath(mapping);
      if path.Err? {
        return Registration.Failed(Registration.MethodPathMissing);
      }
      var cv := Registration.GetCV(e);
      if cv.None? {
        var ok := HostRegister(mapping, e.handler);
        return if ok then Registration.PassedThrough else Registration.Failed(Registration.DuplicateMapping);
      }
      var v := cv.value;
      if v in unactivatedVersions {
        return Registration.AlreadyUnactivated;
      }
      if Status(states, v) == StatusDisabled {
        unactivatedVersions := unactivatedVersions + [v];
        return Registration.Deactivated;
      }
      var newPath := Registration.FinalPath(v, path.value);
      if !VersionIsOk(props, v, path.value) {
        return Registration.NotAllowed;
      }
      if |versionPrefixes.entries.Keys| >= props.maxNum {
        return Registration.TooManyVersions;
      }
      match e.priority {
        case Some(p) =>
          if newPath in interfacePriorities {
            var existing := interfacePriorities[newPath];
            var outranks := SortingMethod(props.sortingMethod, p, existing);
            if outranks.Err? {
              return Registration.Failed(Registration.InvalidSortingMode);
            }
            if outranks.value {
              UnregisterPath(newPath, order);
              interfacePriorities := interfacePriorities[newPath := p];
              var injected := InterfaceInjection(mapping, newPath, v, versionPrefixes);
              var ok := RegisterHandlerMethodD(injected, e.handler);
              return Registration.Replaced(ok);
            } else if p == existing {
              return Registration.EqualPriority;
            } else {
              return Registration.IgnoredLower;
            }
          } else {
            interfacePriorities := interfacePriorities[newPath := p];
            var injected := InterfaceInjection(mapping, newPath, v, versionPrefixes);
            var ok := RegisterHandlerMethodD(injected, e.handler);
            return Registration.Registered(ok);
          }
        case None =>
          interfacePriorities := interfacePriorities[newPath := 0];
          var injected := InterfaceInjection(mapping, newPath, v, versionPrefixes);
          var ok := RegisterHandlerMethodD(injected, e.handler);
          return Registration.Registered(ok);
      }
    }

    /**
      Resolves a request path as Lookup.Resolve defines it. `keyOrder` is the version index's
      key iteration order and `handlerMethods` the route table in its iteration order; the
      two matchers stand for the host's parsed-pattern and Ant-pattern matching.
    */
    method LookupHandlerMethod(path: string, keyOrder: seq<string>, handlerMethods: seq<Route>,
                               pm: (PathPattern, string) -> bool, am: (string, string) -> bool)
      returns (r: LookupResult)
      requires forall k :: k in keyOrder <==> k in versionPrefixes.entries
      requires forall i, j :: 0 <= i < j < |keyOrder| ==> keyOrder[i] != keyOrder[j]
      requires multiset(handlerMethods) == multiset(routes)
      ensures r == Resolve(path, keyOrder, versionPrefixes.entries, fileEnabled, fileConfiguration, handlerMethods, pm, am)
    {
      if path == ErrorPath {
        return Delegated;
      }
      var prefixes := versionPrefixes.entries;
      var i := 0;
      while i < |keyOrder|
        invariant 0 <= i <= |keyOrder|
        invariant forall a :: 0 <= a < i ==> !Decides(path, keyOrder[a], prefixes, fileEnabled, fileConfiguration, handlerMethods)
      {
        var k := keyOrder[i];
        if fileEnabled && k !in fileConfiguration {
          i := i + 1;
          continue;
        }
        if path in prefixes[k] {
          assert FirstDecidingKey(path, keyOrder, prefixes, fileEnabled, fileConfiguration, handlerMethods) == i;
          return NotFound;
        }
        var newLookupPath := k + path;
        var q := 0;
        while q < |handlerMethods|
          invariant 0 <= q <= |handlerMethods|
          invariant forall b :: 0 <= b < q ==> !HasPath(handlerMethods[b].mapping, newLookupPath)
        {
          var info := handlerMethods[q].mapping;
          if info.antPatterns.Some? {
            var patterns := info.antPatterns.value;
            var s := 0;
            while s < |patterns|
              invariant 0 <= s <= |patterns|
              invariant forall c :: 0 <= c < s ==> patterns[c] != newLookupPath
            {
              if PathMatch(patterns[s], newLookupPath) {
                assert FirstWithPathIndex(handlerMethods, newLookupPath) == q;
                assert FirstDecidingKey(path, keyOrder, prefixes, fileEnabled, fileConfiguration, handlerMethods) == i;
                return Found(handlerMethods[q].handler);
              }
              s := s + 1;
            }
          }
          q := q + 1;
        }
        i := i + 1;
      }
      assert FirstDecidingKey(path, keyOrder, prefixes, fileEnabled, fileConfiguration, handlerMethods) == |keyOrder|;
      var q := 0;
      while q < |handlerMethods|
        invariant 0 <= q <= |handlerMethods|
        invariant forall b :: 0 <= b < q ==> !RouteMatches(handlerMethods[b], path, pm, am)
      {
        var info := handlerMethods[q].mapping;
        if info.pathPatterns.Some? {
          var patterns := info.pathPatterns.value;
          var s := 0;
          while s < |patterns|
            invariant 0 <= s <= |patterns|
            invariant forall c :: 0 <= c < s ==> !pm(patterns[c], path)
          {
            if pm(patterns[s], path) {
              assert FirstMatchingRoute(handlerMethods, path, pm, am) == q;
              return Found(handlerMethods[q].handler);
            }
            s := s + 1;
          }
        }
        if info.antPatterns.Some? {
          var patterns := info.antPatterns.value;
          var s := 0;
          while s < |patterns|
            invariant 0 <= s <= |patterns|
            invariant forall c :: 0 <= c < s ==> !am(patterns[c], path)
          {
            if am(patterns[s], path) {
              assert FirstMatchingRoute(handlerMethods, path, pm, am) == q;
              return Found(handlerMethods[q].handler);
            }
            s := s + 1;
          }
        }
        q := q + 1;
      }
      return NotFound;
    }
  }
}
