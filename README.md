# MultipleVersionsCoexist — a verified model of the version-aware routing engine

MultipleVersionsCoexist lets one server expose several live versions of the same API path.
For example, `/v1/api/hello` and `/v2/api/hello` can be served by different handlers of `/api/hello`.
It does this by rewriting every versioned endpoint onto `"/" + version + path` at registration time.
It resolves requests against those rewritten routes with a version-prefix pass before a pattern-matching fallback.

This project models that core in Dafny and proves its properties:

- **Registration state machine** (`registration.dfy`, `handler_mapping.dfy`).
  - It decides whether an endpoint is passed through, refused, registered under its version-prefixed path, or replaces a lower-priority route.
  - Its state is the version index, the priority table, the unactivated-version list and the host route table.
  - The class `DualRequestMappingHandlerMapping` keeps these as fields and updates them in place.
  - Its `RegisterHandlerMethod` is proved to follow the pure definition `Registration.Register` step for step.
  - Properties are proved as lemmas about that definition.
- **Lookup** (`lookup.dfy`, `handler_mapping.dfy`).
  - The error path is delegated to the host.
  - The version-prefix pass uses exact string equality and is characterised by its first deciding key.
  - The fallback pass consults two matchers that are left uninterpreted.
  - The class's nested loops are proved equal to `Lookup.Resolve`.
- **Registration helpers** (`register_helper.dfy`): the MAX/MIN priority tie-break, mapping injection and declared-path extraction.
- **Host route table** (`host_table.dfy`): registration refuses an equal mapping, and unregistration by path removes one route.
- **Activation policy**:
  - the whitelist/blacklist test (`version_policy.dfy`);
  - the version information list with its name-to-enabled map and status codes 1 and 2 (`version_info.dfy`);
  - the active-version refresh (`environment_loader.dfy`).
- **The version index multimap** `DualMap.put` (`dual_map.dfy`).
- **The retry loop** of the asynchronous executor (`retry.dfy`).
- **Configuration string rules**:
  - allow-list line normalisation and cache replacement in the file watcher (`file_watcher.dfy`);
  - the configuration-file suffix rule and initialisation (`multi_version_file.dfy`).

`Option` and `Result` live in `wrappers.dfy`.

The host framework's iteration orders are explicit parameters of the operations that iterate:

- the keys of the version index;
- the route table;
- the version map.

Each is constrained to be an enumeration, or a permutation, of the collection it stands for.

Three behaviours of the code a reader may not expect, each modelled as written:

- **Endpoints without a priority annotation.**
  - Such an endpoint does not go through the priority comparison a prioritised one gets.
  - The code overwrites the stored priority of the final path with 0 unconditionally (DualRequestMappingHandlerMapping.java:194-199).
  - It then relies on the host's duplicate fault, which it catches and reports (DualRequestMappingHandlerMapping.java:202-208).
- **Paths recorded in the version index.**
  - The index records the final, prefixed paths, not the declared ones (DualRequestMappingHandlerMapping.java:180, 191, 197).
  - So the "direct access" check in lookup rejects a request for a final path.
- **Fallback matchers.**
  - A route's two kinds of pattern are not alternatives: the code tries its parsed patterns and then its Ant patterns (DualRequestMappingHandlerMapping.java:248-265).

One more detail of the code is modelled as written:

- The declared path is extracted before the version is looked at (DualRequestMappingHandlerMapping.java:147-148).
- So a mapping without any pattern fails even when the endpoint is unversioned.

## Model

| member | source | states |
|---|---|---|
| DualMaps.DualMap.Put | src/main/java/org/bailiun/multipleversionscoexist/en/DualMap.java:57-61 | the new index is the old one with `value` appended under `key` (a new key gets `[value]`), and the returned list is the key's list after the addition |
| DualMaps.Appended | en/DualMap.java:9-13 | an absent key gets `[value]`; a present key gets its old list plus `value` at the end (duplicates kept); every other key keeps its list and presence |
| DualMaps.PutKeys | src/main/java/org/bailiun/multipleversionscoexist/en/DualMap.java:58 | the key set after a put is the old key set plus the key, so it grows by at most one |
| DualMaps.PutAddsOneValue | src/main/java/org/bailiun/multipleversionscoexist/en/DualMap.java:58-59 | the total number of stored values grows by exactly one per put |
| VersionPolicy.VersionIsOk | src/main/java/org/bailiun/multipleversionscoexist/Properties/MultiVersionProperties.java:69-79 | true exactly when the version is not blacklisted and is whitelisted; a blacklisted version is refused even when whitelisted; an empty whitelist refuses everything; the path plays no part |
| VersionPolicy.DefaultsAdmitNoVersion | src/main/java/org/bailiun/multipleversionscoexist/Properties/MultiVersionProperties.java:58-64 | the defaults are start on, MAX, at most 10 versions and empty lists, under which no version is admitted |
| VersionInfo.Status | src/main/java/org/bailiun/multipleversionscoexist/en/VersionInfoList.java:61-66 | the code is 1 or 2, 2 exactly for names recorded as disabled, 1 for unknown names |
| VersionInfo.VersionInfoList.Add | src/main/java/org/bailiun/multipleversionscoexist/en/VersionInfoList.java:77-80 | the name's entry is overwritten with the element's state, the element is appended, the result is true, and the map stays in step with the list |
| VersionInfo.VersionInfoList.AddAll | src/main/java/org/bailiun/multipleversionscoexist/en/VersionInfoList.java:123-128 | the map becomes the old map with the elements recorded in order, all elements are appended, the result says whether the collection was non-empty, and the map stays in step |
| VersionInfo.PutAllLastWins | src/main/java/org/bailiun/multipleversionscoexist/en/VersionInfoList.java:124-126 | the last element carrying a name decides that name's entry |
| VersionInfo.PutAllConcat | src/main/java/org/bailiun/multipleversionscoexist/en/VersionInfoList.java:123-128 | adding two collections one after the other records the same map as adding them joined |
| VersionInfo.PutAllUntouched | src/main/java/org/bailiun/multipleversionscoexist/en/VersionInfoList.java:124-126 | a name no added element carries keeps its presence and state in the map |
| VersionInfo.PutAllKeys | src/main/java/org/bailiun/multipleversionscoexist/en/VersionInfoList.java:124-126 | recording elements adds exactly their names to the key set |
| VersionInfo.SyncedKeys | src/main/java/org/bailiun/multipleversionscoexist/en/VersionInfoList.java:123-128 | after only additions, the map's keys are exactly the element names in the list |
| VersionInfo.VersionInfoList.Remove | src/main/java/org/bailiun/multipleversionscoexist/en/VersionInfoList.java:91-94 | an index in range returns the element, removes it from the list and its name from the map; an index out of range fails with nothing changed |
| VersionInfo.RemoveCanDesynchronise | src/main/java/org/bailiun/multipleversionscoexist/en/VersionInfoList.java:91-94 | with two elements of the same name, removing the first drops the name from the map though the remaining element still carries it |
| VersionInfo.EnabledVersions | src/main/java/org/bailiun/multipleversionscoexist/en/VersionInfoList.java:142-147 | lists exactly the names recorded as enabled |
| VersionInfo.UnableVersions | src/main/java/org/bailiun/multipleversionscoexist/en/VersionInfoList.java:161-166 | lists exactly the names recorded as disabled |
| VersionInfo.EnabledAndUnablePartitionKeys | src/main/java/org/bailiun/multipleversionscoexist/en/VersionInfoList.java:142-166 | the enabled and disabled lists are disjoint and together cover exactly the map's keys |
| EnvironmentLoader.ActiveSet | src/main/java/org/bailiun/multipleversionscoexist/config/VersionEnvironmentLoader.java:107-124 | a version is active exactly when it is whitelisted, not blacklisted and, when a list is given, not unactivated |
| EnvironmentLoader.ActiveSetBounds | src/main/java/org/bailiun/multipleversionscoexist/config/VersionEnvironmentLoader.java:109-110 | no blacklisted version is active, and the active set lies within the whitelist |
| EnvironmentLoader.NoUnactivatedLeavesFilteredWhitelist | src/main/java/org/bailiun/multipleversionscoexist/config/VersionEnvironmentLoader.java:115-118 | an absent or empty unactivated list leaves exactly whitelist minus blacklist |
| EnvironmentLoader.VersionEnvironmentLoader.RefreshActiveVersions | src/main/java/org/bailiun/multipleversionscoexist/config/VersionEnvironmentLoader.java:107-124 | the active set becomes the active set of the configuration and the argument, whatever it held before, so repeating the call changes nothing |
| RegisterHelper.SortingMethod | src/main/java/org/bailiun/multipleversionscoexist/Realization/DefaultMulRegisterHandlerMethod.java:71-79 | under MAX (any case) the result is `a > b`, under MIN `b > a`, and any other mode is a configuration failure |
| RegisterHelper.SortingMethodIsStrict | src/main/java/org/bailiun/multipleversionscoexist/Realization/DefaultMulRegisterHandlerMethod.java:72-77 | for a valid mode no priority outranks itself, two priorities never outrank each other, and of two different priorities one outranks the other |
| RegisterHelper.ModesExclusive | src/main/java/org/bailiun/multipleversionscoexist/Realization/DefaultMulRegisterHandlerMethod.java:72-76 | no mode string selects both strategies |
| RegisterHelper.ModesIgnoreCase | src/main/java/org/bailiun/multipleversionscoexist/Realization/DefaultMulRegisterHandlerMethod.java:72-76 | "max", "Max", "min", "mIn" select their strategies; "MAXIMUM" and "" select none |
| RegisterHelper.GetMethodPath | src/main/java/org/bailiun/multipleversionscoexist/Realization/DefaultMulRegisterHandlerMethod.java:81-89 | the first Ant pattern when an Ant condition exists, else the first parsed pattern's text, else a failure; also a failure when the chosen condition lists nothing |
| RegisterHelper.VersionKey | src/main/java/org/bailiun/multipleversionscoexist/Realization/DefaultMulRegisterHandlerMethod.java:66 | the key is the version behind a single slash |
| RegisterHelper.InterfaceInjection | src/main/java/org/bailiun/multipleversionscoexist/Realization/DefaultMulRegisterHandlerMethod.java:62-68 | the new mapping's only pattern is the given path and its methods are the original's; the path is appended under "/" + version and every other key is untouched |
| HostTable.Register | src/main/java/org/bailiun/multipleversionscoexist/config/DualRequestMappingHandlerMapping.java:202-208 | the host refuses exactly when an equal mapping is registered; otherwise the route is appended, and a table without duplicates stays so |
| HostTable.RemoveMapping | src/main/java/org/bailiun/multipleversionscoexist/config/DualRequestMappingHandlerMapping.java:300 | the table keeps exactly the routes whose mapping differs, never grows, and is unchanged when the mapping is absent |
| HostTable.RemoveMappingKeepsUnique | src/main/java/org/bailiun/multipleversionscoexist/config/DualRequestMappingHandlerMapping.java:300 | unregistering keeps the table free of duplicate mappings |
| HostTable.RemoveMappingRemovesOne | src/main/java/org/bailiun/multipleversionscoexist/config/DualRequestMappingHandlerMapping.java:300 | in a table without duplicates, unregistering a present mapping removes exactly one route |
| HostTable.FirstWithPathIndex | src/main/java/org/bailiun/multipleversionscoexist/config/DualRequestMappingHandlerMapping.java:296-299 | the position of the first route in iteration order whose Ant patterns contain the path, or the length when none does |
| HostTable.FirstWithPath | src/main/java/org/bailiun/multipleversionscoexist/config/DualRequestMappingHandlerMapping.java:296-299 | none exactly when no route's Ant patterns contain the path; otherwise the mapping of the first such route in iteration order, which contains the path |
| HostTable.UnregisterPathRemovesFirst | src/main/java/org/bailiun/multipleversionscoexist/config/DualRequestMappingHandlerMapping.java:295-301 | unregistering by path removes at most one route, the first listing the path; nothing changes when none does; uniqueness is kept |
| Registration.GetCV | src/main/java/org/bailiun/multipleversionscoexist/config/DualRequestMappingHandlerMapping.java:306-309 | the method's version when present, else the class's |
| Registration.FinalPath | src/main/java/org/bailiun/multipleversionscoexist/config/DualRequestMappingHandlerMapping.java:158 | the final path is the version key followed by the declared path, so it starts with "/" |
| Registration.UnversionedPassesThrough | src/main/java/org/bailiun/multipleversionscoexist/config/DualRequestMappingHandlerMapping.java:139-161 | with versioning off, an exempt method or no version, the original mapping goes to the host unchanged (or the duplicate fault escapes) and no index field is touched |
| Registration.MethodVersionOverridesClass | src/main/java/org/bailiun/multipleversionscoexist/config/DualRequestMappingHandlerMapping.java:306-309 | with a method-level version the class-level version makes no difference |
| Registration.UnactivatedNeverRegistered | src/main/java/org/bailiun/multipleversionscoexist/config/DualRequestMappingHandlerMapping.java:151-157 | an unactivated version changes nothing; a disabled version is refused and appended to the unactivated list |
| Registration.UnactivatedStaysDistinct | src/main/java/org/bailiun/multipleversionscoexist/config/DualRequestMappingHandlerMapping.java:151-157 | the unactivated list only grows, by at most one, and never holds a version twice |
| Registration.VersionLimitPreserved | src/main/java/org/bailiun/multipleversionscoexist/config/DualRequestMappingHandlerMapping.java:166-169 | the number of version keys never exceeds the maximum (or the index stays empty) |
| Registration.LimitRefusesKnownVersions | src/main/java/org/bailiun/multipleversionscoexist/config/DualRequestMappingHandlerMapping.java:163-169 | once the index holds the maximum number of keys, an admitted version is refused with nothing changed, even one already in the index |
| Registration.InjectionRecordsFinalPath | src/main/java/org/bailiun/multipleversionscoexist/config/DualRequestMappingHandlerMapping.java:171-199 | whenever the rewritten mapping reaches the host, every gate was passed, the final path is appended under the version key, its priority is stored, and an accepted route carries only the final path with the original methods |
| Registration.PriorityConflictResolution | src/main/java/org/bailiun/multipleversionscoexist/config/DualRequestMappingHandlerMapping.java:172-187 | a higher priority unregisters the old route before registering the new one and stores the new priority; an equal priority is a conflict and a lower one is ignored, both changing nothing |
| Registration.InvalidSortingModeFails | src/main/java/org/bailiun/multipleversionscoexist/config/DualRequestMappingHandlerMapping.java:174-176 | with an unknown tie-break mode a conflicting registration fails before anything changes |
| Registration.UnprioritisedOverwritesPriority | src/main/java/org/bailiun/multipleversionscoexist/config/DualRequestMappingHandlerMapping.java:194-199 | without a priority the stored priority becomes 0 even over a higher one, the final path is recorded, and a host duplicate is reported rather than propagated |
| Registration.RoutesStayUnique | src/main/java/org/bailiun/multipleversionscoexist/config/DualRequestMappingHandlerMapping.java:138-208 | every registration keeps the host table free of duplicate mappings |
| Lookup.FirstDecidingKey | src/main/java/org/bailiun/multipleversionscoexist/config/DualRequestMappingHandlerMapping.java:220-241 | the first allowed key, in key order, under which the path is recorded or for which some route lists key + path |
| Lookup.FirstMatchingRoute | src/main/java/org/bailiun/multipleversionscoexist/config/DualRequestMappingHandlerMapping.java:245-266 | the first route, in table order, with a parsed pattern or an Ant pattern matching the path |
| Lookup.Fallback | src/main/java/org/bailiun/multipleversionscoexist/config/DualRequestMappingHandlerMapping.java:243-267 | not found exactly when no route matches; otherwise the handler of the first matching route in iteration order |
| Lookup.Resolve | src/main/java/org/bailiun/multipleversionscoexist/config/DualRequestMappingHandlerMapping.java:214-217 | delegated to the host exactly for the error path |
| Lookup.FallbackOnlyWhenNoKeyDecides | src/main/java/org/bailiun/multipleversionscoexist/config/DualRequestMappingHandlerMapping.java:220-267 | when no allowed key decides, lookup is the fallback pass; otherwise the result does not depend on the matchers |
| Lookup.DirectAccessRejected | src/main/java/org/bailiun/multipleversionscoexist/config/DualRequestMappingHandlerMapping.java:225-228 | a request for a final path recorded under an allowed key is not found, unless an earlier allowed key already serves its own prefixed form |
| Lookup.PrefixedRouteFound | src/main/java/org/bailiun/multipleversionscoexist/config/DualRequestMappingHandlerMapping.java:229-238 | when the first deciding key decides through a route, lookup returns the first route listing exactly key + path |
| Lookup.VersionedLookupExample | src/main/java/org/bailiun/multipleversionscoexist/config/DualRequestMappingHandlerMapping.java:214-241 | with v1 registered at /v1/api/x, /api/x is served by that route and /v1/api/x is not found |
| HandlerMapping.DualRequestMappingHandlerMapping.constructor | src/main/java/org/bailiun/multipleversionscoexist/config/DualRequestMappingHandlerMapping.java:84-96 | the index, priority table, unactivated list and route table start empty |
| HandlerMapping.DualRequestMappingHandlerMapping.HostRegister | src/main/java/org/bailiun/multipleversionscoexist/config/DualRequestMappingHandlerMapping.java:204 | the host table changes as HostTable.Register says, and a refused registration leaves it unchanged |
| HandlerMapping.DualRequestMappingHandlerMapping.RegisterHandlerMethodD | src/main/java/org/bailiun/multipleversionscoexist/config/DualRequestMappingHandlerMapping.java:202-208 | registers the injected mapping; a duplicate fault is caught and reported, leaving the table unchanged |
| HandlerMapping.DualRequestMappingHandlerMapping.UnregisterPath | src/main/java/org/bailiun/multipleversionscoexist/config/DualRequestMappingHandlerMapping.java:295-301 | the table becomes HostTable.UnregisterPath of the old table |
| HandlerMapping.DualRequestMappingHandlerMapping.RegisterHandlerMethod | src/main/java/org/bailiun/multipleversionscoexist/config/DualRequestMappingHandlerMapping.java:138-200 | the new state and the outcome are exactly those of Registration.Register on the old state |
| HandlerMapping.DualRequestMappingHandlerMapping.LookupHandlerMethod | src/main/java/org/bailiun/multipleversionscoexist/config/DualRequestMappingHandlerMapping.java:214-268 | the result is Lookup.Resolve of the current index, allow-list and route order |
| RetryExecutor.AttemptFailure | src/main/java/org/bailiun/multipleversionscoexist/config/SynchronousOperationAsyncRetryExecutor.java:28-34 | a task exception, an interrupted wait, a wait over the timeout, or a throwing success callback fails the attempt; otherwise it succeeds |
| RetryExecutor.SynchronousOperationAsyncRetryExecutor.SubmitWithRetry | src/main/java/org/bailiun/multipleversionscoexist/config/SynchronousOperationAsyncRetryExecutor.java:23-48 | the loop's trace is exactly the worker definition's |
| RetryExecutor.LoopIsWorker | src/main/java/org/bailiun/multipleversionscoexist/config/SynchronousOperationAsyncRetryExecutor.java:26-45 | the loop, carrying its attempt and success-call counts, produces the worker's run from that step with those counts added |
| RetryExecutor.QuietFailureContinues | src/main/java/org/bailiun/multipleversionscoexist/config/SynchronousOperationAsyncRetryExecutor.java:31-45 | a failed attempt within budget followed by a sleep that completes adds one attempt and one sleep, adds one success-callback call when the attempt was in time and the callback is present, and leaves the ending and the failure-callback calls to the rest of the run |
| RetryExecutor.InTimeCountZero | src/main/java/org/bailiun/multipleversionscoexist/config/SynchronousOperationAsyncRetryExecutor.java:29-31 | no success-callback call is counted over a stretch of attempts exactly when none of them ends in time |
| RetryExecutor.InTimeFailureMeansCallbackThrew | src/main/java/org/bailiun/multipleversionscoexist/config/SynchronousOperationAsyncRetryExecutor.java:29-34 | an attempt that ends in time and still fails is one whose present success callback threw, and that exception is its cause |
| RetryExecutor.AttemptsBounded | src/main/java/org/bailiun/multipleversionscoexist/config/SynchronousOperationAsyncRetryExecutor.java:25-36 | with a budget n >= 0 the task runs at least once and at most n + 1 times, with fewer sleeps than attempts |
| RetryExecutor.NegativeBudgetDoesNothing | src/main/java/org/bailiun/multipleversionscoexist/config/SynchronousOperationAsyncRetryExecutor.java:26 | a negative budget makes no attempt and runs no callback |
| RetryExecutor.ExactlyOneEnding | src/main/java/org/bailiun/multipleversionscoexist/config/SynchronousOperationAsyncRetryExecutor.java:26-45 | every run ends once; the failure callback runs at most once, only on giving up, after all n + 1 attempts, with the last attempt's exception |
| RetryExecutor.SuccessShortCircuits | src/main/java/org/bailiun/multipleversionscoexist/config/SynchronousOperationAsyncRetryExecutor.java:28-45 | the first successful attempt ends the loop: no further attempt and no failure callback; a present success callback runs once for it and once for every earlier in-time attempt, so exactly once when no earlier attempt was in time |
| RetryExecutor.AllFailuresGiveUp | src/main/java/org/bailiun/multipleversionscoexist/config/SynchronousOperationAsyncRetryExecutor.java:28-41 | when all attempts fail, n + 1 attempts and n sleeps happen and the failure callback runs once with the last exception; a present success callback runs once per in-time attempt, so never when none was in time |
| RetryExecutor.InterruptedSleepCrashes | src/main/java/org/bailiun/multipleversionscoexist/config/SynchronousOperationAsyncRetryExecutor.java:28-44 | a refused or interrupted sleep ends the worker with no further attempt and no failure callback, after exactly the sleeps before it and one success-callback call per in-time attempt |
| RetryExecutor.SleepFailureEnds | src/main/java/org/bailiun/multipleversionscoexist/config/SynchronousOperationAsyncRetryExecutor.java:34-44 | a failed attempt within budget whose sleep fails is the last step: one attempt, no sleep, no failure callback |
| RetryExecutor.NegativeIntervalCrashes | src/main/java/org/bailiun/multipleversionscoexist/config/SynchronousOperationAsyncRetryExecutor.java:40-44 | a negative retry interval makes the first sleep throw, so the first failed attempt within budget ends the worker |
| RetryExecutor.AbsentCallbacksSkipped | src/main/java/org/bailiun/multipleversionscoexist/config/SynchronousOperationAsyncRetryExecutor.java:31-37 | an absent callback is never called |
| RetryExecutor.TimeoutIsFailure | src/main/java/org/bailiun/multipleversionscoexist/config/SynchronousOperationAsyncRetryExecutor.java:29-34 | a wait over the timeout fails the attempt with a timeout, with the same attempts and sleeps as a task exception |
| RetryExecutor.WorkerIgnoresEarlierSteps | src/main/java/org/bailiun/multipleversionscoexist/config/SynchronousOperationAsyncRetryExecutor.java:26-45 | the run from a step on depends only on what happens from that step on |
| RetryExecutor.DefaultPolicyBounds | src/main/java/org/bailiun/multipleversionscoexist/config/MultipleVersionsAutoConfiguration.java:36 | under the default policy (3, 1000, 5000) the task runs at most four times with at most three sleeps |
| RetryExecutor.Inc32 | src/main/java/org/bailiun/multipleversionscoexist/config/SynchronousOperationAsyncRetryExecutor.java:35 | a 32-bit increment: adds one below the largest value, wraps to the smallest at it |
| RetryExecutor.Run32MatchesWorker | src/main/java/org/bailiun/multipleversionscoexist/config/SynchronousOperationAsyncRetryExecutor.java:25-45 | with a budget below the largest 32-bit value the loop with the 32-bit counter ends as the worker definition does |
| RetryExecutor.WrappedCounterNeverGivesUp | src/main/java/org/bailiun/multipleversionscoexist/config/SynchronousOperationAsyncRetryExecutor.java:25-45 | with the largest budget and every attempt failing with a sleep that completes, the loop with the 32-bit counter is still running after any number of turns, so it never gives up |
| RetryExecutor.LargestBudgetGivesUp | src/main/java/org/bailiun/multipleversionscoexist/config/SynchronousOperationAsyncRetryExecutor.java:26-38 | with unbounded counting the largest budget gives up after exactly 2^31 failed attempts |
| FileWatcher.TrimStart | src/main/java/org/bailiun/multipleversionscoexist/config/DynamicFileWatcher.java:137 | removes exactly the leading characters up to the space |
| FileWatcher.TrimEnd | src/main/java/org/bailiun/multipleversionscoexist/config/DynamicFileWatcher.java:137 | removes exactly the trailing characters up to the space |
| FileWatcher.TrimEmptyIffBlank | src/main/java/org/bailiun/multipleversionscoexist/config/DynamicFileWatcher.java:137 | trimming leaves nothing exactly when every character is a space or control character |
| FileWatcher.TrimIsSlice | src/main/java/org/bailiun/multipleversionscoexist/config/DynamicFileWatcher.java:137 | trimming keeps a contiguous middle part of the line and removes only space or control characters around it |
| FileWatcher.TrimEnds | src/main/java/org/bailiun/multipleversionscoexist/config/DynamicFileWatcher.java:137 | a non-empty trimmed line starts and ends with a character above the space |
| FileWatcher.TrimIdempotent | src/main/java/org/bailiun/multipleversionscoexist/config/DynamicFileWatcher.java:138 | trimming twice is trimming once, so the key built from a line does not depend on how often it is trimmed |
| FileWatcher.NormalizeLine | src/main/java/org/bailiun/multipleversionscoexist/config/DynamicFileWatcher.java:137-138 | every kept entry is non-empty and starts with "/" |
| FileWatcher.NormalizeLines | src/main/java/org/bailiun/multipleversionscoexist/config/DynamicFileWatcher.java:136-139 | the allow-list is never longer than the file |
| FileWatcher.NormalizeLinesAppend | src/main/java/org/bailiun/multipleversionscoexist/config/DynamicFileWatcher.java:136-139 | normalising two pieces of a file is normalising each, so the relative order of lines is kept |
| FileWatcher.NormalizeLinesMembers | src/main/java/org/bailiun/multipleversionscoexist/config/DynamicFileWatcher.java:136-139 | an entry is in the allow-list exactly when some line normalises to it |
| FileWatcher.NormalizeLineCases | src/main/java/org/bailiun/multipleversionscoexist/config/DynamicFileWatcher.java:181-185 | blank lines are dropped; lines starting with "/" are kept verbatim; others become "/" + trimmed line, whose displayed form is the trimmed line |
| FileWatcher.NormalizeLinesIdempotent | src/main/java/org/bailiun/multipleversionscoexist/config/DynamicFileWatcher.java:182-183 | normalising an allow-list again changes nothing |
| FileWatcher.IndentedKeyGetsSecondSlash | src/main/java/org/bailiun/multipleversionscoexist/config/DynamicFileWatcher.java:183 | a line " /v1" becomes "//v1", because the slash test looks at the untrimmed line |
| FileWatcher.DynamicFileWatcher.Run | src/main/java/org/bailiun/multipleversionscoexist/config/DynamicFileWatcher.java:132-151 | with file configuration on, the cache becomes the normalised file or the read fails with the cache untouched; the refresh task is scheduled exactly when the interval is positive |
| FileWatcher.DynamicFileWatcher.WatchConfigFile | src/main/java/org/bailiun/multipleversionscoexist/config/DynamicFileWatcher.java:176-192 | the cache is replaced exactly when file configuration is on and the file exists; an unreadable file fails; otherwise nothing changes |
| MultiVersionFileConfig.LastDot | src/main/java/org/bailiun/multipleversionscoexist/Properties/MultiVersionFile.java:88 | the position of the last dot, or -1 when there is none |
| MultiVersionFileConfig.RawSplit | src/main/java/org/bailiun/multipleversionscoexist/Properties/MultiVersionFile.java:88 | at least one segment, none containing a dot |
| MultiVersionFileConfig.JoinRawSplit | src/main/java/org/bailiun/multipleversionscoexist/Properties/MultiVersionFile.java:88 | joining the segments with dots gives back the path |
| MultiVersionFileConfig.RawSplitJoin | src/main/java/org/bailiun/multipleversionscoexist/Properties/MultiVersionFile.java:88 | splitting joined dot-free segments gives back the segments |
| MultiVersionFileConfig.DropTrailingEmpty | src/main/java/org/bailiun/multipleversionscoexist/Properties/MultiVersionFile.java:88 | a prefix of the segments that ends in a non-empty one, and only empty segments are dropped |
| MultiVersionFileConfig.JavaSplit | src/main/java/org/bailiun/multipleversionscoexist/Properties/MultiVersionFile.java:88 | a path without a dot is its only segment; no segment contains a dot |
| MultiVersionFileConfig.SuffixRule | src/main/java/org/bailiun/multipleversionscoexist/Properties/MultiVersionFile.java:88-91 | fails with an index error exactly when the split is empty; otherwise the path is kept exactly when its last segment is "txt", and gets the default file name appended otherwise |
| MultiVersionFileConfig.TxtSuffixSplit | src/main/java/org/bailiun/multipleversionscoexist/Properties/MultiVersionFile.java:88-89 | anything followed by ".txt" splits to segments ending in "txt" |
| MultiVersionFileConfig.TxtPathUnchanged | src/main/java/org/bailiun/multipleversionscoexist/Properties/MultiVersionFile.java:88-89 | a path ending in ".txt" is kept |
| MultiVersionFileConfig.SuffixRuleIdempotent | src/main/java/org/bailiun/multipleversionscoexist/Properties/MultiVersionFile.java:88-91 | applying the rule to its own result changes nothing |
| MultiVersionFileConfig.NoDotPaths | src/main/java/org/bailiun/multipleversionscoexist/Properties/MultiVersionFile.java:89-91 | a path without a dot gets "VersionConfig.txt" appended with no separator, "" becomes "VersionConfig.txt", and "txt" alone is kept |
| MultiVersionFileConfig.TrailingDotDropped | src/main/java/org/bailiun/multipleversionscoexist/Properties/MultiVersionFile.java:88 | for a path containing a dot, one more trailing dot leaves the split unchanged, because the empty last segment is dropped |
| MultiVersionFileConfig.TrailingDotKept | src/main/java/org/bailiun/multipleversionscoexist/Properties/MultiVersionFile.java:88-89 | "a.txt." is kept as a text file path |
| MultiVersionFileConfig.InnerTxtNotEnough | src/main/java/org/bailiun/multipleversionscoexist/Properties/MultiVersionFile.java:88-90 | only the last segment counts: "a.txt.md" gets the default file name appended |
| MultiVersionFileConfig.AllDotsFail | src/main/java/org/bailiun/multipleversionscoexist/Properties/MultiVersionFile.java:88-89 | a path made only of dots splits into nothing and the rule fails with an index error |
| MultiVersionFileConfig.MultiVersionFile.constructor | src/main/java/org/bailiun/multipleversionscoexist/Properties/MultiVersionFile.java:66-70 | file configuration off, refresh time 5000, empty path |
| MultiVersionFileConfig.MultiVersionFile.Init | src/main/java/org/bailiun/multipleversionscoexist/Properties/MultiVersionFile.java:85-97 | with file configuration off nothing changes; otherwise the path becomes the suffix rule's result (an index error escapes, path unchanged) and a failed file creation is reported after the path was rewritten |

## Left out

- Spring MVC internals are reduced to what the engine reads.
  - The registry is a sequence of routes.
  - A request mapping is its Ant patterns, parsed patterns and HTTP methods.
  - Mapping equality stands for the host's duplicate test.
  - The not-found exception is the `NotFound` outcome.
  - The host's own lookup for the error path is the `Delegated` outcome.
  - The "first" pattern of a condition is the first of the sequence given.
- The parsed-pattern and Ant-pattern matchers are library code. They are function parameters with no assumed behaviour.
- Hash-map iteration orders are parameters. This applies to the version index keys, the route table and the version map.
- `PrintIllegalStateException` only writes diagnostics. A reported conflict appears as the `EqualPriority` or `Registered(false)`/`Replaced(false)` outcome.
- Aspect-oriented plumbing and reflective method lookup are not modelled: `SynchronousOperationAspect`, `SynOpeImplementation`, `SynOpeImplementationInitialization`.
- Concurrency in the retry executor is not modelled: the thread pool, futures, and tasks that time out but keep running.
  - Each attempt's ending is given by an `Environment`.
  - The sleep interval is counted, not timed.
- File, directory and scheduler I/O are parameters.
  - The file's contents are `ConfigFile`.
  - Creating the configuration file is the `createFails` flag.
  - Scheduling is reported as whether the interval is positive.
- Console output is not modelled, including `VersionMeta.toString` and `MultiVersionInfo.print`.
- Configuration wiring and annotation declarations are not modelled. A priority annotation's default value 0 is just a priority of 0.
- Methods `VersionInfoList` inherits from its list type are not modelled because they do not update the name map: `set`, `remove(Object)`, `clear` and the rest.
- `afterPropertiesSet` only hands the unactivated list to the loader; `RefreshActiveVersions` models what the loader then does. The handler's file allow-list is an input field.
- RetryExecutor.SynchronousOperationAsyncRetryExecutor.SubmitWithRetry counts attempts with an unbounded integer. The source's 32-bit counter wraps at the largest budget (see Findings).
- RetryExecutor.AttemptFailure: with a negative timeout every attempt counts as timed out. The host's future would still return the result of a task that had already finished; that race is not modelled.
- Priorities and the version maximum are unbounded integers. The code only compares them, so 32-bit width does not matter there.

## Findings

| source | as written | input that shows it | evidently intended | confidence | as-written member | corrected member |
|---|---|---|---|---|---|---|
| src/main/java/org/bailiun/multipleversionscoexist/config/SynchronousOperationAsyncRetryExecutor.java:35-36 | `attempts++` on a 32-bit int, then `attempts > maxRetry` decides whether to give up | maxRetry = 2147483647 and every attempt failing: after the last budgeted failure the counter wraps to -2147483648, the give-up test is false and the loop guard stays true, so the worker retries forever and never calls the failure callback | give up after maxRetry + 1 attempts and call the failure callback once | low; not executed | RetryExecutor.WrappedCounterNeverGivesUp | RetryExecutor.LargestBudgetGivesUp |
