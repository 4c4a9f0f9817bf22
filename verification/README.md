# Verified models of the utility library's concurrent and algorithmic parts

This project models, in Dafny 4.11, the parts of the Go library whose correctness is not
evident from reading one function, and proves what they keep over all their runs and inputs.
`dafny verify dfyconfig.toml` checks everything.

## What is modelled

**The test runner** (`samples.dfy`, `suite.dfy`, `runner*.dfy`, `continuous.dfy`).
`Samples` holds one worker's loop body as methods over events: callbacks called and results sent,
in order, with the user's callbacks as an oracle. `Suites` is the label index as a class:
`Add` updates it, `Flatten` selects a run's cases. `Runner` is a sampled run as an interleaved
step system: the spawner (`wg.Add`, then `go`, per test), one worker per test, the buffered
channel with its closed bit, the wait-group counter, the collector and the timer. Every channel
or wait-group operation is one step, the timer may fire at any moment, and a send on a closed
channel, a second close or a negative counter is a reachable panic that the proofs exclude.
`RunnerSafety` proves what every interleaving keeps, `RunnerTraces` that each worker calls and
sends what its sequential loop does, `RunnerLiveness` that every run ends and that a run that
cannot continue is complete. `Continuous` is the second runner as a step system
of its own, related to the first.

**Offline-token restrictions** (`offline.dfy`, `scopes.dfy`). The poller and the validator are
methods of one class; a history of polls has two instants per poll, one after the organizations
and one after the flag. A request's three critical sections are three instants of that history.
The result is an exact condition on timing: for every content of the published sets, every token
and every setting, the three reads agree with one instant of the request if and only if, whenever
the request found the flag on and something has been published, the flag was on at some instant
of the request at or after the last publication (for the read of the count and for the read of
the membership).

**The region proxy** (`region.dfy`, `region_concurrent.dfy`). The two-key cache and the handler
are classes; entries may vanish before any cache operation, which covers the size limit and
expiry. `ConcurrentProxy` interleaves the handlers of many requests step by step.

**Dashboards and metrics** (`regex.dfy`, `path_templates.dfy`, `queries.dfy`, `dashboard.dfy`,
`strings.dfy`). `Regex` gives leftmost-first matching for the fragment that both path
normalisers use; both are reduced to one left-to-right scanner. `Queries` holds the seven
generated expressions as templates and `Dashboard` the id allocation over all panel kinds.

**Log extras and deprecation patterns** (`extras.dfy`, `deprecation.dfy`), each as a method with
the source's loop, a function that specifies it, and laws about that function.

## Where the code falls short of a plain reading

Each is stated as an exact condition, or with a concrete input, in the member named.

- Cached and uncached routing agree under all evictions exactly when whatever a request leaves
  in the cache serves every later request that shares an id with it, whatever the ids and the
  answers are (`RegionProxy.SharedIdsServeExactly`; `ConcurrentProxy.AllServeExactly` for
  interleaved requests).
- A failed directory lookup is cached as "" before its error is looked at
  (`pkg/middleware/region_proxy.go:120-125`), so the next request for that cluster is served
  locally. When shared ids name one cluster, the condition above is therefore that no id of a
  failed lookup is used again (`RegionProxy.CachedRoutesAgreeExactly`,
  `ConcurrentProxy.ConcurrentRoutesAgreeExactly`).
- A failed local check caches nothing. Without evictions, sequential requests are resolved exactly
  when they have an id and share none with an earlier request resolved without such an error
  (`RegionProxy.ResolvedExactly`). Concurrent ones may miss together
  (`ConcurrentProxy.MissesMayOverlap`): one that has not started yet can still be resolved exactly
  when none of its ids is stored (`ConcurrentProxy.MayResolveExactly`).
- Three separate reads can restrict a token although no instant of the request would have
  (`Offline.LateRestrictionExample`; the exact condition is `Offline.AlwaysExplainedExactly`).
  A token error also needs such a condition, because it rests on the flag and the count.
- Deleting the account filter from a query does not always give the query without service
  accounts: a path or service that ends in all but the closing quote of the filter is completed
  by the label's own quote (`Queries.QuoteCompletesTheFilterInPath`,
  `Queries.QuoteCompletesTheFilterInService`; exactly when: `Queries.DeletingTheFilterSkipsExactly`).
- The two normalisers differ when a brace has a newline before its closing brace
  (`PathTemplates.NormalisersAgreeExactly`).
- After a caller's list of odd length, logged extras can depend on the iteration order of the
  callback map: they do whenever two callbacks are not nil and no answer reads as the dangling
  key after the list (`Extras.OddListDependsOnOrder`). They do not exactly when any two callbacks
  that are not nil both answer with the dangling key, or exactly two are not nil and their
  assignments agree (`Extras.ListOrderIndependentExactly`). The latter without the former needs a
  name that imitates a position or the marker (`Extras.UnimitatedOrderIndependentExactly`,
  `Extras.ImitatedPositionsHideTheOrder`). So all lists of a length are safe exactly when the
  length is even (`Extras.OrderIndependentExactly`).
- Case selection depends on the order of the labels when the listed labels hold different error
  tests (`Suites.FlattenOrderIndependentExactly`).
- A custom dashboard row has the id of a generated row directly before it
  (`Dashboard.RowIdsCollideExactly`).

## Assumptions

- User callbacks, the local check, the directory and the accounts service answer as oracles or
  parameters; callbacks return, and a request without an error comes with a response.
- `SampleCount` is not negative (a negative one makes `make(chan ...)` panic).
- `glog.Fatalf` ends the process: an addition that calls it has no index afterwards.
- There is one poller.
- Whoever owns the channel of a continuous run goes on receiving, so that a send completes.
- Strings are sequences of characters; invalid UTF-8 is not considered.
- Each configured custom panel has a targets slice of its own, as decoding a configuration
  makes them.

## Model

| member | source | states |
|---|---|---|
| Samples.FirstFailure | pkg/test/framework.go:173-185 | the assertions before the returned index all pass and the one at it fails, or all pass |
| Samples.Emit | pkg/test/framework.go:150-195 | a sample puts one result on the channel, under its test's name, unless setup failed, and then none |
| Samples.SentExactly | pkg/test/framework.go:150-195 | in the answers alone: after a request error its message, the latency and size 0 are sent; after a response the latency and the response's size, with the message of the first failing assertion or no error; an empty message counts as none |
| Samples.FailedSampleExactly | pkg/test/framework.go:146-162 | a failed setup ends the sample at once; a failed request is sent at once, and nothing follows |
| Samples.AssertedSampleExactly | pkg/test/framework.go:146-201 | otherwise setup, request, the assertions up to the first failing one, one send and teardown happen in this order |
| Samples.SampleSendsOnce | pkg/test/framework.go:145-202 | among everything a sample does, the sends are exactly that one result, also when an assertion failed |
| Samples.SampleAppends | pkg/test/framework.go:145-202 | what a sample does does not depend on the samples before it |
| Samples.TeardownExactly | pkg/test/framework.go:150-201 | teardown is called if and only if setup and request succeeded, once and last |
| Samples.AssertionsUpToFirstFailure | pkg/test/framework.go:173-185 | within a sample, an assertion is called if and only if setup and request succeeded and all earlier ones passed |
| Samples.WorkerIsItsSamples | pkg/test/framework.go:144-205 | a worker's events are those of its samples one after the other |
| Samples.WorkerCalls | pkg/test/framework.go:145-202 | over all its samples a worker calls setup, request, each assertion and teardown exactly as often as there are samples that get that far |
| Samples.ErrorReportedExactly | pkg/test/framework.go:300-321 | a result carries an error if and only if its sample failed with a non-empty message |
| Samples.RunAssertions | pkg/test/framework.go:172-185 | the assertion loop stops at the first failure, sends it at once, and returns the deciding error |
| Samples.Worker | pkg/test/framework.go:144-205 | a worker's calls and sends over all samples are those specified, continues included |
| Samples.ContinuousWorker | pkg/test/continuous_framework.go:67-125 | the second worker body, with returns for continues, does exactly what one sample does |
| Suites.TestSuite.Add | pkg/test/framework.go:263-294 | halts, or leaves the index that the additions' specification gives |
| Suites.TestSuite.AddTestCases | pkg/test/framework.go:257-261 | cases are added in order until one halts |
| Suites.TestSuite.Flatten | pkg/test/framework.go:98-112 | the selected cases, whatever the iteration order within a label |
| Suites.AddedMeaning | pkg/test/framework.go:276-293 | an addition puts the case under its labels and, unless it is the error test, under "all", and changes no other bucket |
| Suites.AddedPlaces | pkg/test/framework.go:268-293 | after an addition the case is at its name under each of its labels, and under "all" unless it is named "error"; every other entry is as before |
| Suites.AddHaltsExactly | pkg/test/framework.go:268-293 | an addition halts if and only if the name is taken under "all" or one of its labels, a label is repeated, or a case not named "error" lists "all" |
| Suites.IndexHoldsAdded | pkg/test/framework.go:263-294 | from empty, a bucket holds exactly the added cases that belong there, each under its own name |
| Suites.AdditionsAreConsistent | pkg/test/framework.go:263-294 | after every sequence of additions, entries are under their own names and agree with "all" except for the error test |
| Suites.FlattenedMeaning | pkg/test/framework.go:104-112 | a name is selected if and only if a listed label has it, with the case of the first such label |
| Suites.SelectedExactly | pkg/test/framework.go:104-112 | the same in the index alone: present under some listed label, with the value of the first one |
| Suites.FlattenOrderIndependentExactly | pkg/test/framework.go:98-112 | the selection depends only on the set of labels if and only if those labels agree on the error test |
| Runner.Outcome | pkg/test/framework.go:145-202 | sample i of a test sends at most one result, under that test's name |
| Runner.Collect | pkg/test/framework.go:218-233 | the collector groups an arriving stream by name in order of arrival; names without results are absent |
| RunnerSafety.StepKeepsInv | pkg/test/framework.go:133-238 | every enabled step of every goroutine keeps: no panic, per-test flow, wait-group count, spawner and channel state |
| RunnerSafety.RunKeepsInv | pkg/test/framework.go:133-238 | so every reachable state of every interleaving has it |
| RunnerSafety.SenderHasRoom | pkg/test/framework.go:116-117 | whoever is about to send finds the channel open and not full |
| RunnerSafety.NeverBlocksNeverPanics | pkg/test/framework.go:133-211 | in every run, also after a timeout: no worker about to send finds the channel closed or the number of tests times samples queued, the counter equals the live workers plus the one being launched, and closing happens after all workers exited |
| RunnerSafety.SendsWithinCapacity | pkg/test/framework.go:114-117 | the sends of all workers together never exceed the number of tests times the number of samples, whoever received them |
| RunnerSafety.ResultsArePrefixes | pkg/test/framework.go:213-238 | at every moment, timeout included, each test's list is a prefix, in sample order, of what its own worker sent, itself a prefix of all it will send |
| RunnerSafety.ReturnedMeansComplete | pkg/test/framework.go:208-233 | returning because the channel closed returns every result; tests without any are absent |
| RunnerSafety.EmittedCount | pkg/test/framework.go:145-202 | a complete list has one entry per sample, less the samples of that test whose setup failed |
| RunnerSafety.EmittedIsWorkers | pkg/test/framework.go:144-205 | the step system's sends of a test are those of the sequential worker loop |
| RunnerTraces.WorkersFollowTheirLoops | pkg/test/framework.go:133-205 | in every interleaving, what a worker has called and sent so far is the corresponding prefix of the sequential loop, teardown included |
| RunnerTraces.ExitedWorkersDidAll | pkg/test/framework.go:144-205 | a worker that has exited has done exactly what the sequential loop does |
| RunnerTraces.EveryoneMayMove | pkg/test/framework.go:133-238 | at every reachable state no worker, spawner or collector with something to do is held up, and the timer may fire as long as the collector waits |
| RunnerTraces.ReturnedIsFinal | pkg/test/framework.go:213-238 | once the collector has returned, no step changes the results; the timer's step only makes it return |
| RunnerLiveness.DeadlockFree | pkg/test/framework.go:133-238 | in every state that keeps the invariant and is not final, a step other than the timer's is enabled |
| RunnerLiveness.StepLosesMeasure | pkg/test/framework.go:133-238 | every step, the timer's included, decreases a measure of spawns, samples, queue and collector |
| RunnerLiveness.RunsAreFinite | pkg/test/framework.go:133-238 | no run has more steps than the initial measure |
| RunnerLiveness.MaximalRunsComplete | pkg/test/framework.go:133-238 | a run that cannot continue has closed the channel and ended all workers, and without a timeout returned the complete results |
| RunnerLiveness.CanComplete | pkg/test/framework.go:133-238 | every run extends to one that cannot continue, without the timer if it has not fired yet |
| Continuous.RunKeepsInv | pkg/test/continuous_framework.go:60-127 | in every interleaving each goroutine has sent its one outcome, or nothing yet |
| Continuous.GoroutinesFollowTheirSample | pkg/test/continuous_framework.go:60-127 | in every interleaving, what a goroutine has called and sent so far is the corresponding prefix of one sample |
| Continuous.RunsAreFinite | pkg/test/continuous_framework.go:60-127 | no continuous run has more steps than its initial measure |
| Continuous.CanGoQuiet | pkg/test/continuous_framework.go:60-127 | every continuous run can be continued until no goroutine can move |
| Continuous.QuietRunsSentAll | pkg/test/continuous_framework.go:60-127 | when no goroutine can move, each case has sent exactly its outcome and nothing else was sent |
| Continuous.QuietRunsDidAll | pkg/test/continuous_framework.go:60-127 | when no goroutine can move, each has done exactly one sample, teardown included |
| Continuous.SameResultsAsOneSample | pkg/test/continuous_framework.go:36-127 | a finished continuous run sends, as a multiset, what any untimed-out sampled run with one sample collects |
| Offline.TokenMiddleware.PopulateOfflineRestrictedOrgs | pkg/middleware/token_validation.go:429-480 | succeeds if and only if the label call did and, where labels were found, the organization call too; then the set is that of the external ids (empty without labels), and otherwise the old one |
| Offline.TokenMiddleware.CheckEnforceOfflineOrgRestrictions | pkg/middleware/token_validation.go:413-425 | a successful flag call sets the flag; a failed one leaves it |
| Offline.TokenMiddleware.Check | pkg/middleware/token_validation.go:355-409 | a poll publishes organizations, then the flag, whether or not the former failed |
| Offline.TokenMiddleware.PollAll | pkg/middleware/token_validation.go:287-321 | after any sequence of polls the fields are the history's last state |
| Offline.TokenMiddleware.ValidateOfflineAccessByOrg | pkg/middleware/token_validation.go:228-285 | with no poll in between, the check is the decision on what is published now |
| Offline.LastPublication | pkg/middleware/token_validation.go:445-479 | the latest instant right after a publication, none since |
| Offline.PollPublishes | pkg/middleware/token_validation.go:355-480 | one poll, by its replies alone: a failed label or organization call keeps the set, no label empties it, otherwise it is the external ids; a failed flag call keeps the flag |
| Offline.PublishedIsLatestSuccess | pkg/middleware/token_validation.go:429-498 | at every instant the set is empty if no poll so far has had both calls succeed (or found no label), and otherwise that of the latest such poll |
| Offline.FlagIsLatestSuccess | pkg/middleware/token_validation.go:413-425 | at every instant the flag is the latest successful answer, initially off |
| Offline.DecideExactly | pkg/middleware/token_validation.go:228-285 | each verdict, in the fields of the token: restricted exactly for a person whose scope text holds `offline_access` and whose organization is published, no organization id exactly if such a token has none, a token error exactly for an invalid or required but missing one, allowed otherwise |
| Offline.ValidateExactly | pkg/middleware/token_validation.go:228-285 | the same for the three reads, each at its own instant |
| Offline.AcceptanceIsAtomic | pkg/middleware/token_validation.go:228-285 | every acceptance is the atomic decision at some instant of the request, whatever is polled meanwhile |
| Offline.TimingExplains | pkg/middleware/token_validation.go:228-285 | under the timing condition every verdict, rejections included, is atomic at an instant up to the last read it rests on |
| Offline.AlwaysExplainedExactly | pkg/middleware/token_validation.go:228-285 | the verdicts are atomic for all contents, tokens and settings if and only if the timing condition holds |
| Offline.QuietSwitchOffIsAtomic | pkg/middleware/token_validation.go:228-285 | every verdict is atomic if no publication follows a switch-off of the flag within the request |
| Offline.OnePollIsAtomic | pkg/middleware/token_validation.go:388-409 | because a poll publishes organizations before the flag, a request overlapping one poll at most is atomic |
| Offline.LateRestrictionExample | pkg/middleware/token_validation.go:229-282 | a concrete history and request whose restriction no instant explains |
| Scopes.Collect | pkg/middleware/token_validation.go:191-218 | the nested loops select the configured scopes that are (or are not) presented |
| Scopes.ValidateScopes | pkg/middleware/token_validation.go:156-224 | the whole decision with its early exits, missing scopes before denied ones |
| Scopes.ValidateExactly | pkg/middleware/token_validation.go:138-224 | each verdict, in the scopes listed and presented: missing ones exactly if a required scope is not presented, denied ones exactly if otherwise a denied scope is; reported are exactly those, in order and as often as listed |
| Scopes.ValidateAllExactly | pkg/middleware/token_validation.go:138-285 | the scopes decide exactly when the organization check allows; nothing is checked when validation is off |
| Scopes.SelectKeepsMultiplicity | pkg/middleware/token_validation.go:191-218 | exactly the wanted scopes are reported, as often as configured |
| Scopes.SelectKeepsOrder | pkg/middleware/token_validation.go:191-218 | and in the configured order |
| Scopes.WholeScopeIsSubstring | pkg/middleware/token_validation.go:187-259 | a scope in the space-separated list passes the substring test guarding the organization check |
| Scopes.AcceptedMeansScopesOk | pkg/middleware/token_validation.go:138-224 | acceptance by both validations implies every required scope present and no denied one, for tokens whose scopes are checked |
| Scopes.RestrictedOfflineTokenIsRefused | pkg/middleware/token_validation.go:138-285 | a person's token listing `offline_access`, whichever claim names its organization, is refused for it if and only if the flag read is on, the count read is not zero and the membership read finds it |
| RegionProxy.ClusterCache.Get | pkg/middleware/region_proxy.go:201-209 | a lookup sees what evictions left |
| RegionProxy.ClusterCache.Put | pkg/middleware/region_proxy.go:211-217 | a write adds one entry to what evictions left |
| RegionProxy.Proxy.CheckCache | pkg/middleware/region_proxy.go:201-209 | the first id with an entry gives the value |
| RegionProxy.Proxy.UpdateCache | pkg/middleware/region_proxy.go:211-217 | every non-empty id gets the value |
| RegionProxy.Proxy.Handle | pkg/middleware/region_proxy.go:96-132 | route, cache afterwards and whether the request was resolved, including the write before the error check |
| RegionProxy.Proxy.HandleAll | pkg/middleware/region_proxy.go:95-133 | the routes of a whole sequence of requests through one cache |
| RegionProxy.UncachedExactly | pkg/middleware/region_proxy.go:95-133 | routing by the oracles alone: no id, a local error, a local cluster, and the directory asked by id, or by external id without one; a failed lookup is an error and an empty region means the next handler |
| RegionProxy.StoredExactly | pkg/middleware/region_proxy.go:108-125 | what is cached, by the oracles alone: nothing after a local error, the empty region for a local cluster or a failed lookup, otherwise the directory's region |
| RegionProxy.BeforeExactly | pkg/middleware/region_proxy.go:201-217 | evictions remove their keys and keep every other entry |
| RegionProxy.HitExactly | pkg/middleware/region_proxy.go:99-106 | without evictions, a request with an entry under its id, or else its external id, goes to that entry's region and changes nothing |
| RegionProxy.MissExactly | pkg/middleware/region_proxy.go:106-126 | without evictions, any other request with an id is routed as uncached and leaves its region under its non-empty ids, and nothing else |
| RegionProxy.CachedRegionsAreTheDirectorys | pkg/middleware/region_proxy.go:106-128 | in every run the empty string is no key, and a non-empty cached region is what the directory, asked by id or by external id without one, gives for an earlier request with that id that was not local |
| RegionProxy.DispatchedRegionsAreTheDirectorys | pkg/middleware/region_proxy.go:106-128 | a region dispatched to is what the directory, asked by id or by external id without one, gives for this request or one sharing an id |
| RegionProxy.CachedRoutesAgree | pkg/middleware/region_proxy.go:95-133 | with ids naming one cluster each and no repeated failure, routing equals uncached routing under any evictions |
| RegionProxy.ServedRoutesAgree | pkg/middleware/region_proxy.go:95-133 | if whatever a request leaves serves every later request sharing an id, routing equals uncached routing under any evictions |
| RegionProxy.SharedIdsServeExactly | pkg/middleware/region_proxy.go:95-133 | for arbitrary ids and answers, routing agrees under all evictions if and only if whatever a request leaves serves every later request sharing an id |
| RegionProxy.ResolvedAtMostOnce | pkg/middleware/region_proxy.go:106-126 | for sequential requests without evictions, ids once resolved (short of a local error) are never resolved again |
| RegionProxy.ResolvedExactly | pkg/middleware/region_proxy.go:99-126 | for sequential requests without evictions, a request is resolved if and only if it has an id and shares none with an earlier request resolved without a local error |
| RegionProxy.RepeatedFailureDiverges | pkg/middleware/region_proxy.go:120-125 | a repeated failed lookup is answered differently with the cache |
| RegionProxy.CachedRoutesAgreeExactly | pkg/middleware/region_proxy.go:95-133 | when shared ids name one cluster, that condition is that no id of a failed lookup is used again |
| ConcurrentProxy.StepKeepsInv | pkg/middleware/region_proxy.go:96-132 | every cache operation, resolution or eviction of interleaved requests keeps every entry traceable to a request that resolved it |
| ConcurrentProxy.AloneIsHandled | pkg/middleware/region_proxy.go:95-133 | from every reachable state, a request that runs alone answers and leaves the entries exactly as the sequential handler does |
| ConcurrentProxy.ServedAnswersAgree | pkg/middleware/region_proxy.go:95-133 | if whatever a request leaves serves all others sharing an id, every answer of every interleaving is the uncached one |
| ConcurrentProxy.AllServeExactly | pkg/middleware/region_proxy.go:95-133 | for arbitrary ids and answers, all interleavings and evictions answer as without the cache if and only if whatever a request leaves serves all others sharing an id |
| ConcurrentProxy.ConcurrentRoutesAgreeExactly | pkg/middleware/region_proxy.go:95-133 | when shared ids name one cluster, that condition is that no failed lookup shares an id with another request |
| ConcurrentProxy.MissesMayOverlap | pkg/middleware/region_proxy.go:106-120 | any two requests, also for one cluster, may both miss and resolve, in a run without evictions |
| ConcurrentProxy.StoredServesLater | pkg/middleware/region_proxy.go:106-128 | a request that starts once one of its ids is stored is answered from the cache and never resolved, as long as nothing is evicted |
| ConcurrentProxy.MayResolveExactly | pkg/middleware/region_proxy.go:106-120 | from any reachable state, a request with an id that has not started yet can still be resolved without a further eviction if and only if none of its ids is stored |
| ConcurrentProxy.EvictingLetsResolveExactly | pkg/middleware/region_proxy.go:106-120 | at every moment any entries may vanish, and no others do; such a request can then be resolved if and only if all its stored ids are among them |
| ConcurrentProxy.ConcurrentRegionsAreTheDirectorys | pkg/middleware/region_proxy.go:106-128 | failures included, non-empty cached regions are what the directory, asked by id or by external id without one, gives for a request with that id |
| PathTemplates.GreedyMatch | pkg/client/metrics_middleware.go:89 | `{[^}]*}` matches at a brace up to the first closing brace, if there is one |
| PathTemplates.LazyMatch | pkg/grafana/generate_grafana.go:980 | `\{(.*?)}` matches the same stretch, unless a newline is in it |
| PathTemplates.NormalisersAreScans | pkg/grafana/generate_grafana.go:980-984 | both regular-expression replacements equal one left-to-right scan |
| PathTemplates.NormalisersAgreeExactly | pkg/client/metrics_middleware.go:89-168 | the two normalisers give the same text if and only if no brace has a newline before its closing brace |
| PathTemplates.NewlineFreeNormalisersAgree | pkg/grafana/generate_grafana.go:980-984 | they agree on every single-line template |
| PathTemplates.NormalisersAreIdempotent | pkg/grafana/generate_grafana.go:982-984 | both are idempotent; afterwards no "{" has a "}" behind it (for the dashboard's: on its line) |
| PathTemplates.PlaceholderBecomesDash | pkg/client/metrics_middleware.go:88-168 | in both normalisers a placeholder (for the dashboard's: on one line) becomes "-", what precedes it is kept and what follows is normalised |
| PathTemplates.NormalTextIsKept | pkg/grafana/generate_grafana.go:980-984 | a text in which no "{" has a "}" behind it is kept as it is; by the dashboard's also one with a newline in between |
| Queries.TemplatesAreSafe | pkg/grafana/generate_grafana.go:987-1036 | the seven templates hold no marker or filter in their fixed text and no label without a label or marker behind it |
| Queries.TemplatesAreExpressions | pkg/grafana/generate_grafana.go:987-1036 | the seven templates, formatted, are the seven expressions written out with their metrics, labels and ranges |
| Queries.PreparedAsIntendedExactly | pkg/grafana/generate_grafana.go:986-1057 | replacing the marker in the formatted text touches only the template's placeholders if and only if service and path lack the marker |
| Queries.PreparedText | pkg/grafana/generate_grafana.go:986-1057 | so for a service and a path without the marker, those expressions with the account filter, or without any, are generated |
| Queries.DeletingTheFilterSkipsExactly | pkg/grafana/generate_grafana.go:1039-1055 | deleting the filter from the one rendering gives the other if and only if service and path, with their closing quotes, lack the filter |
| Queries.QuoteCompletesTheFilterInPath | pkg/grafana/generate_grafana.go:1039-1055 | a path beginning with a slash and lacking the filter for which deleting it nevertheless fails, in every template and for every service |
| Queries.QuoteCompletesTheFilterInService | pkg/grafana/generate_grafana.go:1039-1055 | likewise a service, for every path |
| Queries.QueriesHoldReducedTemplate | pkg/grafana/generate_grafana.go:103-106 | the path text in a generated query is the path label the client metrics would record for the same single-line template |
| Dashboard.Keys | pkg/grafana/generate_grafana.go:1094-1102 | exactly the map's keys, each once, in some order |
| Dashboard.LessExactly | pkg/grafana/generate_grafana.go:97-98 | the order is that of texts: a proper prefix first, otherwise the smaller character at the first difference |
| Dashboard.AscendingIsUnique | pkg/grafana/generate_grafana.go:97-98 | a strictly sorted list is determined by its elements, so rows do not depend on the map's order |
| Dashboard.AddPaths | pkg/grafana/generate_grafana.go:97-117 | an OpenAPI document adds one row of five items per path, titled by the paths in that order, counters advanced accordingly |
| Dashboard.FillTargets | pkg/grafana/generate_grafana.go:152-157 | the targets are overwritten in place with the service filled in and letters from 'A' on |
| Dashboard.CreateCustom | pkg/grafana/generate_grafana.go:130-163 | one item per panel with consecutive ids, plugin version by type, the panel's own targets, all filled in |
| Dashboard.AddPanel | pkg/grafana/generate_grafana.go:61-124 | each kind of panel adds its planned rows and advances all three counters alike |
| Dashboard.PlansOfExactly | pkg/grafana/generate_grafana.go:61-124 | the rows of each kind of panel: one titled by its path, one titled "$route", one per document path in ascending order, one with an item per custom panel, none for other kinds |
| Dashboard.GenerateGrafana | pkg/grafana/generate_grafana.go:56-125 | the rows are those planned, in order, all numbered as specified, and every custom target in the configuration is filled in once |
| Dashboard.ItemIdsCount | pkg/grafana/generate_grafana.go:56-125 | the item ids in dashboard order are exactly 1 to N |
| Dashboard.RowIdsCollideExactly | pkg/grafana/generate_grafana.go:61-124 | a row's id is the number of rows before it, plus one unless it is custom, and its position is one less; two rows share an id if and only if a custom row directly follows a generated one |
| Extras.ContextToLegacyExtra | pkg/ocmlogger/logger.go:405-437 | nil for an empty list, otherwise the map of its fields |
| Extras.DecimalReadsBack | pkg/ocmlogger/logger.go:414-423 | the text of a position is decimal digits without a leading zero that read back as the position |
| Extras.PositionTexts | pkg/ocmlogger/logger.go:414-423 | the names that stand for a key that is no string, or an empty one |
| Extras.NamedFieldExactly | pkg/ocmlogger/logger.go:405-437 | a literal key holds what follows its last occurrence, or "(MISSING)" at the end, if no later key is without a name |
| Extras.ExtraPresence | pkg/ocmlogger/logger.go:405-437 | a field is present if and only if some even position holds its key |
| Extras.ExtraLastWins | pkg/ocmlogger/logger.go:405-437 | the last occurrence of a key gives the value; "(MISSING)" for a dangling key, which means an odd length |
| Extras.ExtraMerges | pkg/ocmlogger/logger.go:405-437 | appending to an even list is the right-biased merge of the two maps when the appended keys are non-empty strings |
| Extras.ExtrasFromContext | pkg/ocmlogger/logger.go:389-398 | key and answer of every callback that is not nil, in some order of the map |
| Extras.EvenListLogs | pkg/ocmlogger/logger.go:321-331 | after an even list, the logged extras are the caller's merged with the callbacks' answers, whatever the order |
| Extras.PositionalNeverReads | pkg/ocmlogger/logger.go:414-423 | an answer that is not a non-empty string never reads as a dangling key of that kind, because the positions differ |
| Extras.OddListTakesFirstKey | pkg/ocmlogger/logger.go:321-331 | after any odd list, the dangling key takes the first non-nil callback's key as its value, if no answer reads as the dangling key at a position after the list |
| Extras.OddListDependsOnOrder | pkg/ocmlogger/logger.go:321-331 | so every such odd list with two non-nil callbacks is logged differently in two orders |
| Extras.TwoAgreeExactly | pkg/ocmlogger/logger.go:321-331 | after an odd list, two non-nil callbacks are logged alike in both orders if and only if the three assignments they make to the list's fields agree |
| Extras.PositionalShows | pkg/ocmlogger/logger.go:321-331 | after an odd list, with three or more non-nil callbacks, one answer that is not a non-empty string makes the order show, whatever the keys |
| Extras.ListOrderIndependentExactly | pkg/ocmlogger/logger.go:321-331 | list by list, for any answers: logging is independent of the map order if and only if the list is even, or any two non-nil callbacks both answer with the dangling key, or exactly two are not nil and their assignments agree |
| Extras.UnimitatedOrderIndependentExactly | pkg/ocmlogger/logger.go:321-331 | when no answer that is not a non-empty string comes from a callback named "(MISSING)" or reads as the dangling key, the third case falls away |
| Extras.ImitatedPositionsHideTheOrder | pkg/ocmlogger/logger.go:414-430 | two callbacks with different answers, one of them not a string, whose order nevertheless does not show |
| Extras.OrderIndependentExactly | pkg/ocmlogger/logger.go:321-331 | with two or more callbacks under non-empty keys, all lists of a length are logged independently of the order, whatever the answers, if and only if the length is even |
| Deprecation.MatchesPattern | pkg/middleware/deprecation.go:84-101 | the loop decides segment-wise matching |
| Deprecation.ParameterExactly | pkg/middleware/deprecation.go:92 | a parameter is a name in braces |
| Deprecation.MatchesSegmentwise | pkg/middleware/deprecation.go:84-101 | path and pattern without their outer slashes have as many segments, equal but where the pattern's is in braces |
| Deprecation.MatchesExactly | pkg/middleware/deprecation.go:84-101 | a path matches if and only if slash-free texts for the parameters turn the trimmed pattern into it |
| Deprecation.SlashesDoNotMatter | pkg/middleware/deprecation.go:85-86 | leading and trailing slashes of either argument change nothing |
| Deprecation.MatchesItself | pkg/middleware/deprecation.go:84-101 | matching is reflexive, and without parameters it is equality up to outer slashes |
| Deprecation.MatchDeprecatedEndpoint | pkg/middleware/deprecation.go:69-81 | the result is the lookup for some iteration order of the map |
| Deprecation.LookupExactly | pkg/middleware/deprecation.go:69-81 | without an exact key, the endpoint of the first matching pattern in the order, or none |
| Deprecation.FoundWhateverTheOrder | pkg/middleware/deprecation.go:69-81 | for every order the found flag says whether some pattern matches, and an exact key wins |
| Deprecation.EndpointOrderIndependentExactly | pkg/middleware/deprecation.go:69-81 | the endpoint is the same for every order if and only if there is an exact key or all matching patterns lead to one endpoint |

## Left out

- Goroutines and locks as such: concurrent parts are step systems on values, with one step per channel, wait-group, lock or cache operation.
- Real time: latencies are oracle values, polls and the timer happen at any moment, and the timer's reset has no effect on when it may fire.
- Callbacks before and after a suite, their failures, and the suite's connection and specification.
- Panicking or non-terminating callbacks.
- Building tokens, claims, search strings, requests and responses; HTTP status codes, headers and sunset dates.
- A missing SDK connection, with which nothing is ever published.
- Two pollers at once (`Start` beside `StartPollingAMSForRestrictedOrgs`).
- The internals of the expiring cache: any entry may vanish before any operation.
- Custom dispatchers and error handlers, and a dispatch that fails on an unparsable host name.
- `reducePath` without a matching route, and the metric registry.
- The exception branch of `prepareExpressions` and the expressions of `5items` panels, which are user-supplied text.
- The literal content of generated panels, and JSON and YAML output.
- The sorting algorithm of the standard library: `SortStrings` inserts one by one; strings are compared by character, not by byte.
- Case folding of panel types: a panel says whether its type is "timeseries".
- Targets shared between panels of one configuration.
- The Sentry event id appended after capture, log levels, and the other logger settings.
- Callbacks registered under an empty key after a list of even length: their field names contain their positions.
- Splitting and replacing with an empty separator, and invalid UTF-8.
- `utils/retry.go`: the loop belongs to the backoff library.
- `utils/validation_helpers.go` and `pkg/csv`: single checks and the field-by-field reading of one record.
- The HTTP logging transports and the error factory: writing requests, responses and errors out, and choosing what to log by path prefix.
- The Jira, segment and notifications clients: building requests, copying fields and paging through an external service.
- `pkg/middleware/standard_claims.go` and `pkg/middleware/token.go`: mapping claims to fields, and exchanging a header for a token with the accounts service.
- Queries.QueriesHoldReducedTemplate: equates the two path texts only; the queries read `api_inbound` series while the client records `api_outbound` ones, and a template holding a quote breaks the label.
