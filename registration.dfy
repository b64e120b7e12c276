/**
  What one registration event does to the routing engine's state: whether the endpoint
  is passed through unchanged, refused, registered under its version-prefixed path, or
  replaces a lower-priority route at that path. The imperative handler mapping class is
  proved to follow this function step for step.
*/
module Registration {
  import opened Wrappers
  import opened DualMaps
  import opened VersionPolicy
  import opened VersionInfo
  import opened RegisterHelper
  import opened HostTable

  /** The metadata of a handler method that the engine reads. */
  datatype Endpoint = Endpoint(
    handler: HandlerRef,
    methodVersion: Option<string>,   // version annotation on the method
    classVersion: Option<string>,    // version annotation on the declaring class
    priority: Option<int>,           // priority annotation on the method (its default value is 0)
    exempt: bool)                    // the method is marked as not versioned

  datatype RegistrationError =
    | MethodPathMissing      // the mapping has no path to version
    | InvalidSortingMode     // the tie-break mode is neither MAX nor MIN
    | DuplicateMapping       // the host refused an unversioned mapping as a duplicate

  /** What happened to one registration event. */
  datatype Outcome =
    | PassedThrough              // the original mapping went to the host unchanged
    | Failed(error: RegistrationError)  // an exception escaped to the caller
    | AlreadyUnactivated         // the version was already recorded as unactivated
    | Deactivated                // the version is disabled; it is now recorded as unactivated
    | NotAllowed                 // the blacklist or whitelist refused the version
    | TooManyVersions            // the version index already holds the maximum number of keys
    | Registered(accepted: bool) // injected at a fresh or unprioritised path; false: host refused, conflict reported
    | Replaced(accepted: bool)   // a lower-priority route was unregistered first
    | EqualPriority              // same priority as the existing route: conflict reported
    | IgnoredLower               // the existing route outranks this one

  /** The engine's state: the version index, the priority table, the unactivated versions and the host table. */
  datatype State = State(
    prefixes: map<string, seq<string>>,
    priorities: map<string, int>,
    unactivated: seq<string>,
    routes: seq<Route>)

  /** The endpoint's version: the method's annotation when present, else the class's. */
  function GetCV(e: Endpoint): (v: Option<string>)
    ensures e.methodVersion.Some? ==> v == e.methodVersion
    ensures e.methodVersion.None? ==> v == e.classVersion
  {
    if e.methodVersion.Some? then e.methodVersion else e.classVersion
  }

  /** The path a versioned endpoint is exposed at: its version's key followed by the declared path. */
  function FinalPath(version: string, path: string): (p: string)
    ensures p == VersionKey(version) + path
    ensures |p| == |version| + |path| + 1 && p[0] == '/'
  {
    "/" + version + path
  }

  /** The host registration of the original mapping; a duplicate fault escapes. */
  function PassThrough(st: State, e: Endpoint, mapping: Mapping): (State, Outcome)
  {
    match HostTable.Register(st.routes, mapping, e.handler)
    case Some(t) => (st.(routes := t), PassedThrough)
    case None => (st, Failed(DuplicateMapping))
  }

  /**
    Records the final path under the version's key, then hands the rewritten mapping to the
    host; a duplicate fault is caught and reported. The flag says whether the host accepted it.
  */
  function Inject(st: State, e: Endpoint, mapping: Mapping, version: string, finalPath: string): (State, bool)
  {
    var prefixes := Appended(st.prefixes, VersionKey(version), finalPath);
    var injected := Mapping(Some([finalPath]), None, mapping.methods);
    match HostTable.Register(st.routes, injected, e.handler)
    case Some(t) => (st.(prefixes := prefixes, routes := t), true)
    case None => (st.(prefixes := prefixes), false)
  }

  /**
    One registration event. `states` is the version information map (name to enabled) and
    `order` the host table's iteration order at the time of the call, used when a route
    is unregistered by path.
  */
  function Register(props: Properties, states: map<string, bool>, st: State,
                    e: Endpoint, mapping: Mapping, order: seq<Route>): (State, Outcome)
  {
    if !props.start || e.exempt then PassThrough(st, e, mapping)
    else match GetMethodPath(mapping)
      case Err(_) => (st, Failed(MethodPathMissing))
      case Ok(path) =>
        match GetCV(e)
        case None => PassThrough(st, e, mapping)
        case Some(v) =>
          if v in st.unactivated then (st, AlreadyUnactivated)
          else if Status(states, v) == StatusDisabled then
            (st.(unactivated := st.unactivated + [v]), Deactivated)
          else if !VersionIsOk(props, v, path) then (st, NotAllowed)
          else if |st.prefixes.Keys| >= props.maxNum then (st, TooManyVersions)
          else
            var finalPath := FinalPath(v, path);
            match e.priority
            case None =>
              var (s, ok) := Inject(st.(priorities := st.priorities[finalPath := 0]), e, mapping, v, finalPath);
              (s, Registered(ok))
            case Some(p) =>
              if finalPath !in st.priorities then
                var (s, ok) := Inject(st.(priorities := st.priorities[finalPath := p]), e, mapping, v, finalPath);
                (s, Registered(ok))
              else
                var existing := st.priorities[finalPath];
                match SortingMethod(props.sortingMethod, p, existing)
                case Err(_) => (st, Failed(InvalidSortingMode))
                case Ok(outranks) =>
                  if outranks then
                    var cleared := st.(routes := UnregisterPath(st.routes, order, finalPath),
                                       priorities := st.priorities[finalPath := p]);
                    var (s, ok) := Inject(cleared, e, mapping, v, finalPath);
                    (s, Replaced(ok))
                  else if p == existing then (st, EqualPriority)
                  else (st, IgnoredLower)
  }

  /** The endpoint passed every gate and its mapping was rewritten and handed to the host. */
  predicate Injected(o: Outcome)
  {
    o.Registered? || o.Replaced?
  }

  /**
    With versioning off, an exempt method, or no version on method or class, the original
    mapping goes to the host unchanged and the version index, priority table and
    unactivated list are untouched.
  */
  lemma UnversionedPassesThrough(props: Properties, states: map<string, bool>, st: State,
                                 e: Endpoint, mapping: Mapping, order: seq<Route>)
    requires !props.start || e.exempt || (GetMethodPath(mapping).Ok? && GetCV(e).None?)
    ensures var (s, o) := Register(props, states, st, e, mapping, order);
            && s.prefixes == st.prefixes && s.priorities == st.priorities && s.unactivated == st.unactivated
            && (o == PassedThrough <==> !HasMapping(st.routes, mapping))
            && (o == PassedThrough ==> s.routes == st.routes + [Route(mapping, e.handler)])
            && (o != PassedThrough ==> o == Failed(DuplicateMapping) && s.routes == st.routes)
  {
  }

  /** A method-level version makes the class-level one irrelevant. */
  lemma MethodVersionOverridesClass(props: Properties, states: map<string, bool>, st: State,
                                    e: Endpoint, mapping: Mapping, order: seq<Route>, other: Option<string>)
    requires e.methodVersion.Some?
    ensures Register(props, states, st, e, mapping, order)
         == Register(props, states, st, e.(classVersion := other), mapping, order)
  {
  }

  /** The gates every versioned registration passes before its priority is looked at. */
  predicate Admitted(props: Properties, states: map<string, bool>, st: State, v: string, path: string)
  {
    && v !in st.unactivated
    && Status(states, v) != StatusDisabled
    && VersionIsOk(props, v, path)
    && |st.prefixes.Keys| < props.maxNum
  }

  /**
    A version already recorded as unactivated is never registered: nothing changes. A
    disabled version is refused and appended to the unactivated list, which it was not on.
  */
  lemma UnactivatedNeverRegistered(props: Properties, states: map<string, bool>, st: State,
                                   e: Endpoint, mapping: Mapping, order: seq<Route>)
    requires props.start && !e.exempt && GetMethodPath(mapping).Ok? && GetCV(e).Some?
    ensures var v := GetCV(e).value;
            var (s, o) := Register(props, states, st, e, mapping, order);
            && (v in st.unactivated ==> s == st && o == AlreadyUnactivated)
            && (v !in st.unactivated && Status(states, v) == StatusDisabled ==>
                  s == st.(unactivated := st.unactivated + [v]) && o == Deactivated)
  {
  }

  /** The unactivated list only ever grows, and by a version it did not hold, so it never holds duplicates. */
  lemma UnactivatedStaysDistinct(props: Properties, states: map<string, bool>, st: State,
                                 e: Endpoint, mapping: Mapping, order: seq<Route>)
    requires forall i, j :: 0 <= i < j < |st.unactivated| ==> st.unactivated[i] != st.unactivated[j]
    ensures var s := Register(props, states, st, e, mapping, order).0;
            && st.unactivated <= s.unactivated
            && |s.unactivated| <= |st.unactivated| + 1
            && forall i, j :: 0 <= i < j < |s.unactivated| ==> s.unactivated[i] != s.unactivated[j]
  {
  }

  /** The version index never holds more keys than the configured maximum, once empty or within it. */
  ghost predicate WithinVersionLimit(props: Properties, st: State)
  {
    |st.prefixes.Keys| <= props.maxNum || st.prefixes == map[]
  }

  lemma {:induction false} VersionLimitPreserved(props: Properties, states: map<string, bool>, st: State,
                                                e: Endpoint, mapping: Mapping, order: seq<Route>)
    requires WithinVersionLimit(props, st)
    ensures WithinVersionLimit(props, Register(props, states, st, e, mapping, order).0)
  {
    var (s, o) := Register(props, states, st, e, mapping, order);
    if s.prefixes != st.prefixes {
      var path := GetMethodPath(mapping).value;
      var v := GetCV(e).value;
      assert |st.prefixes.Keys| < props.maxNum;
      assert s.prefixes == Appended(st.prefixes, VersionKey(v), FinalPath(v, path));
      PutKeys(st.prefixes, VersionKey(v), FinalPath(v, path));
      assert |s.prefixes.Keys| <= |st.prefixes.Keys| + 1;
    }
  }

  /** Once the index holds the maximum number of keys, even a version it already knows is refused. */
  lemma LimitRefusesKnownVersions(props: Properties, states: map<string, bool>, st: State,
                                  e: Endpoint, mapping: Mapping, order: seq<Route>)
    requires props.start && !e.exempt && GetMethodPath(mapping).Ok? && GetCV(e).Some?
    requires var v := GetCV(e).value;
             v !in st.unactivated && Status(states, v) != StatusDisabled
             && VersionIsOk(props, v, GetMethodPath(mapping).value)
    requires |st.prefixes.Keys| >= props.maxNum
    ensures Register(props, states, st, e, mapping, order) == (st, TooManyVersions)
  {
  }

  /**
    Whenever the rewritten mapping is handed to the host, the final path (the version key
    followed by the declared path) is appended under the version key, whether or not the
    host accepts it; when it does, the new route's only pattern is that final path and its
    methods are the original's.
  */
  lemma InjectionRecordsFinalPath(props: Properties, states: map<string, bool>, st: State,
                                  e: Endpoint, mapping: Mapping, order: seq<Route>)
    requires Injected(Register(props, states, st, e, mapping, order).1)
    ensures GetMethodPath(mapping).Ok? && GetCV(e).Some?
    ensures var v := GetCV(e).value;
            var finalPath := FinalPath(v, GetMethodPath(mapping).value);
            var (s, o) := Register(props, states, st, e, mapping, order);
            && Admitted(props, states, st, v, GetMethodPath(mapping).value)
            && s.prefixes == Appended(st.prefixes, VersionKey(v), finalPath)
            && s.priorities == st.priorities[finalPath := if e.priority.Some? then e.priority.value else 0]
            && (o.accepted ==> s.routes[|s.routes| - 1] == Route(Mapping(Some([finalPath]), None, mapping.methods), e.handler))
  {
  }

  /**
    An explicit priority at a final path that already has one: if it outranks the stored
    priority, the old route is unregistered before the new one is registered and the stored
    priority becomes the new one; an equal priority is reported as a conflict and a lower
    one is ignored, and in both those cases nothing changes.
  */
  lemma PriorityConflictResolution(props: Properties, states: map<string, bool>, st: State,
                                   e: Endpoint, mapping: Mapping, order: seq<Route>)
    requires props.start && !e.exempt && GetMethodPath(mapping).Ok? && GetCV(e).Some?
    requires Admitted(props, states, st, GetCV(e).value, GetMethodPath(mapping).value)
    requires e.priority.Some?
    requires FinalPath(GetCV(e).value, GetMethodPath(mapping).value) in st.priorities
    requires IsMaxMode(props.sortingMethod) || IsMinMode(props.sortingMethod)
    ensures var v := GetCV(e).value;
            var finalPath := FinalPath(v, GetMethodPath(mapping).value);
            var p := e.priority.value;
            var existing := st.priorities[finalPath];
            var injected := Mapping(Some([finalPath]), None, mapping.methods);
            var cleared := UnregisterPath(st.routes, order, finalPath);
            var (s, o) := Register(props, states, st, e, mapping, order);
            && (SortingMethod(props.sortingMethod, p, existing) == Ok(true) ==>
                  && o.Replaced?
                  && s.priorities[finalPath] == p
                  && s.prefixes == Appended(st.prefixes, VersionKey(v), finalPath)
                  && (o.accepted <==> !HasMapping(cleared, injected))
                  && s.routes == (if o.accepted then cleared + [Route(injected, e.handler)] else cleared))
            && (p == existing ==> s == st && o == EqualPriority)
            && (SortingMethod(props.sortingMethod, p, existing) == Ok(false) && p != existing ==>
                  s == st && o == IgnoredLower)
  {
    SortingMethodIsStrict(props.sortingMethod, e.priority.value, e.priority.value);
  }

  /** An unrecognised tie-break mode aborts a conflicting registration before anything changes. */
  lemma InvalidSortingModeFails(props: Properties, states: map<string, bool>, st: State,
                                e: Endpoint, mapping: Mapping, order: seq<Route>)
    requires props.start && !e.exempt && GetMethodPath(mapping).Ok? && GetCV(e).Some?
    requires Admitted(props, states, st, GetCV(e).value, GetMethodPath(mapping).value)
    requires e.priority.Some?
    requires FinalPath(GetCV(e).value, GetMethodPath(mapping).value) in st.priorities
    requires !IsMaxMode(props.sortingMethod) && !IsMinMode(props.sortingMethod)
    ensures Register(props, states, st, e, mapping, order) == (st, Failed(InvalidSortingMode))
  {
  }

  /**
    Without a priority annotation the stored priority of the final path is set to 0 even if
    a higher one was stored, the final path is recorded in the index, and a duplicate fault
    from the host is reported rather than propagated.
  */
  lemma UnprioritisedOverwritesPriority(props: Properties, states: map<string, bool>, st: State,
                                        e: Endpoint, mapping: Mapping, order: seq<Route>)
    requires props.start && !e.exempt && GetMethodPath(mapping).Ok? && GetCV(e).Some?
    requires Admitted(props, states, st, GetCV(e).value, GetMethodPath(mapping).value)
    requires e.priority.None?
    ensures var v := GetCV(e).value;
            var finalPath := FinalPath(v, GetMethodPath(mapping).value);
            var injected := Mapping(Some([finalPath]), None, mapping.methods);
            var (s, o) := Register(props, states, st, e, mapping, order);
            && o == Registered(!HasMapping(st.routes, injected))
            && s.priorities == st.priorities[finalPath := 0]
            && s.prefixes == Appended(st.prefixes, VersionKey(v), finalPath)
            && s.unactivated == st.unactivated
  {
  }

  /** Handing a rewritten mapping to the host keeps the host table free of duplicates. */
  lemma InjectKeepsUnique(st: State, e: Endpoint, mapping: Mapping, version: string, finalPath: string)
    requires NoDuplicateMappings(st.routes)
    ensures NoDuplicateMappings(Inject(st, e, mapping, version, finalPath).0.routes)
  {
  }

  /** The host table never holds two equal mappings: every registration keeps it so. */
  lemma RoutesStayUnique(props: Properties, states: map<string, bool>, st: State,
                         e: Endpoint, mapping: Mapping, order: seq<Route>)
    requires NoDuplicateMappings(st.routes)
    requires multiset(order) == multiset(st.routes)
    ensures NoDuplicateMappings(Register(props, states, st, e, mapping, order).0.routes)
  {
    if !props.start || e.exempt || GetMethodPath(mapping).Err? || GetCV(e).None? {
    } else {
      var path := GetMethodPath(mapping).value;
      var v := GetCV(e).value;
      var finalPath := FinalPath(v, path);
      if v in st.unactivated || Status(states, v) == StatusDisabled || !VersionIsOk(props, v, path)
         || |st.prefixes.Keys| >= props.maxNum {
      } else if e.priority.None? {
        InjectKeepsUnique(st.(priorities := st.priorities[finalPath := 0]), e, mapping, v, finalPath);
      } else if finalPath !in st.priorities {
        InjectKeepsUnique(st.(priorities := st.priorities[finalPath := e.priority.value]), e, mapping, v, finalPath);
      } else if SortingMethod(props.sortingMethod, e.priority.value, st.priorities[finalPath]) == Ok(true) {
        UnregisterPathRemovesFirst(st.routes, order, finalPath);
        var cleared := st.(routes := UnregisterPath(st.routes, order, finalPath),
                           priorities := st.priorities[finalPath := e.priority.value]);
        InjectKeepsUnique(cleared, e, mapping, v, finalPath);
      }
    }
  }
}
