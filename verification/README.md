# Verification of open-artifact's storage, caching and naming core

open-artifact keeps artifacts of several package formats in one object bucket. This project models the
parts of it whose correctness is not visible from any one function, and proves what they promise together:

- **Blob writes** (`BlobWrite`, `WriteFile`). Any number of writers race on one key through probe, stream and
  hash, digest verification, conditional commit and sidecar write; any number of readers ask for metadata;
  every step may fail, and a failing commit may have landed. `BlobWrite` is the protocol as a state machine,
  `WriteFile` the imperative write, each of whose calls is shown to be a run of that machine.
- **Cold fills** (`Tee`, `ColdFill`). The two threads and the pipe by which a proxy serves an upstream body while
  storing it, composed with the write protocol.
- **Caches**. `MemoCache`, `ProjectCache`, `PolicyCache`, `Packument` and `NegCache` each hold a class proved
  against a small specification of the cache; `Flight`, `ProjectCache`, `PolicyCache` and `Packument` each hold a
  protocol in which requests, loads and changes overlap at every step the locks allow. `UrlFlight` puts signed
  URLs through `MemoCache` and `Flight`; `PolicyStaleness`, `PackumentAge` and `PackumentBound` say how old the
  answers of those protocols can be; `LruLaw`, `ProjectHits` and `PackumentServing` say what they do serve, and
  `FlightProgress` and `PolicyProgress` that nobody gets stuck.
- **The key space as an index** (`Text`, `Escape`, `Paths`, `Listing`, `Sorting`, `Index`, `FileIndex`). Names
  are percent-encoded (section 2.1 of RFC 3986, with '+' for a space) into keys; delimiter listings of the
  bucket are the only index.
- **Codecs and decisions** (`Maven`, `MavenUpload`, `Npm`, `PyPI`, `Filter`).

A run is a sequence of events folded over a step function (`Runs`), so a theorem about `Exec` or `Run` holds of
every interleaving. Hash functions, glob matching, duration parsing, field splitting and trimming are function
values passed in, so every theorem holds whatever they compute.

## Where the code and its comments part

- A comment says that signing latency only widens the margin between a cached URL's removal and its expiry
  (pkg/core/blobstore/store.go:100-102). The cache counts from the time the URL is stored, so latency eats the
  margin; `MemoCache.UrlOutlivesEntryExactly` gives the exact condition, and `UrlFlight.UrlsExpireExactly` the one
  for whole calls, those that wait for another call's computation included.
- The comment on reading a file says the content is verified against the recorded digest
  (pkg/core/blobstore/store.go:889-891); the code streams it unverified.
- The catalog and the data plane compute the same directory for a namespace except when the deployment prefix
  ends in a slash and holds something else: then the data plane's keys hold a doubled slash and the catalog's
  emptiness check does not see them. `Paths.StoreAndCatalogAgree` is the exact condition. The command line
  refuses such prefixes, and the rest of the key space is proved for the prefixes it accepts.
- A policy load that read the catalog before a change and inserts after the change's hook puts the old policy
  back; a change whose write landed but failed runs no hook and leaves it there. `PolicyCache.EntryIsCurrentExactly`
  says exactly when an entry is stale, `PolicyStaleness.OverlapRevivesOldSpec` gives the run, and
  `PolicyStaleness.ChangesAreMissedExactly` says for which configurations a get started after a change returned can
  miss it. An entry found by the second look, inside the singleflight group, is handed to everyone who joins
  before the group lets go, so staleness outlasts the TTL by the length of such a call:
  `PolicyStaleness.StaleAnswersRunOutExactly` is the exact time.
- A packument fetch puts a packument it found in the memo back into the memo. Requests that overlap can hand a
  packument on this way. How old an answer from upstream can get is bounded if and only if no fetch can last a
  memo TTL: `PackumentBound.BoundedExactly`. Below that the least bound is a memo TTL and twice the longest fetch,
  and where snapshots outlive memo entries a durable TTL and a third fetch more: `PackumentBound.LeastBound`. With
  instantaneous fetches it is within the intended one (`PackumentAge.ServedIsYoung`). The default memo TTL is ten
  seconds (pkg/surface/npm/handler.go:45) and an upstream may take thirty to begin its response
  (pkg/proxy/httpclient/client.go:36), so by default there is no bound.
- Blob and sidecar can come apart exactly when an overwriting writer meets another with a different record:
  `BlobWrite.TearingExactly`. Create-only keys are never torn.
- The checksum of a checksum of an artifact's metadata is verified against a file that no accepted path stores
  (`Maven.NoPathStoresStrayTargets`), so its upload is always refused (`MavenUpload.StrayChecksumsAreRefused`).
  Remembered 404s are shared between Maven groups that differ only in where dots and slashes stand:
  `Maven.SharedNegKeys`, `Maven.DottedGroupsCollide`.
- Stored Maven checksums can become false exactly where files may be overwritten: `MavenUpload.BreakingExactly`.

## Model

| member | source | states |
|---|---|---|
| BlobWrite.CreateOnlyHasOneWinner | pkg/core/blobstore/store.go:654-745 | in every run of create-only writers at most one commits and one reports success; the object is that writer's whole verified body, sidecar and reported record hold its digest, size, annotations and exactly the declared digests, and a refusal means another one committed |
| BlobWrite.CreateOnlyIsImmutable | pkg/core/blobstore/store.go:656-673 | a committed create-only object keeps its bytes through any continuation of the run |
| BlobWrite.StoredBytesAreComplete | pkg/core/blobstore/store.go:700-727 | overwriting or not, a stored object is some committed writer's complete body carrying its declared digests |
| BlobWrite.TearingExactly | pkg/core/blobstore/store.go:729-744 | a run can leave a sidecar that does not describe the blob if and only if an overwriting writer's body differs in size, digest or a declared digest from another's |
| BlobWrite.ConflictTears | pkg/core/blobstore/store.go:729-744 | the run that tears, for every conflicting pair |
| BlobWrite.MetaIsTrue | pkg/core/blobstore/store.go:840-887 | on a create-only key every answered metadata query, from the sidecar, the blob or cached attributes, carries the stored bytes' digest and size |
| BlobWrite.MetaIsAnswered | pkg/core/blobstore/store.go:840-887 | a query that meets no failure is answered with them, with or without a readable sidecar |
| BlobWrite.MetaPrefersSidecar | pkg/core/blobstore/store.go:840-887 | on any key the sidecar answers first, a cached size stands in for asking the store, and a read that fails is answered neither with a digest nor with absence |
| BlobWrite.ExecKeepsInv | pkg/core/blobstore/store.go:654-745 | the invariant of all runs: who may be where with which bytes, and whose record the sidecar is |
| WriteFile.AllAvailable | pkg/core/blobstore/store.go:690-696 | the scan of declared hashes says whether all are available |
| WriteFile.CheckDigests | pkg/core/blobstore/store.go:707-722 | the loop over verifiers accepts exactly matching digests and records them all |
| WriteFile.CopyBody | pkg/core/blobstore/store.go:700-706 | streaming in chunks of any size is a run of the protocol's read steps |
| WriteFile.Bucket.Begin | pkg/core/blobstore/store.go:655-699 | probe and opening as a run of the protocol |
| WriteFile.Bucket.Commit | pkg/core/blobstore/store.go:723-745 | commit and sidecar write as a run of the protocol |
| WriteFile.Bucket.WriteFile | pkg/core/blobstore/store.go:654-745 | one call is a run of the protocol and touches no other key; it succeeds or is refused for exactly the documented reason, a success holds every declared digest and met no failure, and a failure leaves nothing, the body, or body and record, by where it failed |
| Tee.RunIsAProtocolRun | pkg/surface/http.go:176-207 | whatever the two threads do, the store sees a run of the write protocol |
| Tee.CachedIsWhatWasDelivered | pkg/surface/http.go:166-207 | once the fill has committed, the client has the whole body without error, and a create-only key holds exactly those bytes |
| Tee.ClientIsUnaffectedByFill | pkg/surface/http.go:147-164 | the client gets a prefix of the body, all of it unless upstream or client failed, whatever the fill does |
| Tee.CleanReturnMeansCached | pkg/surface/http.go:176-207 | two nil errors mean the whole body was delivered and stored |
| ColdFill.FillFailsExactly | pkg/surface/http.go:176-207 | a fill fails only if the copy failed, a step of its write failed in the store, the declared digests cannot be met or another writer committed first; on a create-only key if and only if |
| ColdFill.FillsSucceed | pkg/surface/http.go:176-207 | from any point of any run at which nothing of that has happened the call's own threads can finish with two nil errors, client and store both holding the whole body |
| ColdFill.ColdFillSucceeds | pkg/surface/http.go:176-207 | in particular from the start, under a free key |
| ColdFill.BrokenCopyIsReported | pkg/surface/http.go:196-205 | a client that takes only part of a chunk, or an upstream that breaks off, makes the copy fail |
| Tee.NeverDeadlocks | pkg/surface/http.go:177-186 | until the call returns one of its own threads can move without any failure |
| Tee.StepUsesWork | pkg/surface/http.go:176-207 | every own step that does something lowers a measure of the remaining work |
| Tee.OwnStepsAreBounded | pkg/surface/http.go:176-207 | the number of own steps is bounded by the body's length, so the call terminates |
| MemoCache.RunKeepsBound | pkg/core/blobstore/cache.go:176-197 | after any calls keys are distinct and a positive capacity is kept |
| MemoCache.OneCall | pkg/core/blobstore/cache.go:155-197 | what one call does to a key it does not touch |
| MemoCache.LeastRecentlyUsed | pkg/core/blobstore/cache.go:155-197 | the entry at the front stays, until its key is touched again, unless a lookup finds it expired or as many other keys as the capacity are touched |
| LruLaw.RecentKeysHit | pkg/core/blobstore/cache.go:155-197 | after a store or a hit of a key, and while fewer other keys than the capacity are touched, a lookup within the expiry of the key's last store returns what it stored |
| LruLaw.HitsExactly | pkg/core/blobstore/cache.go:155-172 | a lookup hits if and only if the key has an entry not past its expiry |
| LruLaw.TouchedIsFirst | pkg/core/blobstore/cache.go:155-188 | every store and every hit brings its key to the front |
| MemoCache.EntryIsLastSave | pkg/core/blobstore/cache.go:176-188 | a cached entry is the last value stored under its key, with the expiry of that store |
| MemoCache.HitIsFreshLastSave | pkg/core/blobstore/cache.go:155-172 | a hit returns the last stored value, no more than a TTL after it was stored |
| MemoCache.UrlOutlivesEntryExactly | pkg/core/blobstore/cache.go:51-60 | a URL is never served past its validity if and only if signing-to-storing took at most the margin |
| MemoCache.LateUrlIsServed | pkg/core/blobstore/cache.go:155-197 | the cache serves a URL after its validity, in the run that saves it, if and only if it was saved later than the margin after its signing |
| MemoCache.CachedUrlsAreValid | pkg/core/blobstore/store.go:100-103 | in every run of stores within the margin every URL hit is still valid |
| MemoCache.Cache.PeekKey | pkg/core/blobstore/cache.go:155-172 | the lookup on map and list refines the specification's |
| MemoCache.Cache.StoreKey | pkg/core/blobstore/cache.go:176-197 | the store, eviction loop included, refines the specification's |
| MemoCache.Cache.MoveToFront | pkg/core/blobstore/cache.go:170-186 | relinking moves one entry to the front and keeps map and list in step |
| MemoCache.Cache.Evict | pkg/core/blobstore/cache.go:189-196 | the eviction loop cuts the list to its capacity and drops just those keys from the map |
| Flight.OneComputationPerKey | pkg/core/blobstore/cache.go:98-122 | at most one computation per key runs at a time |
| Flight.ResultsAreOwn | pkg/core/blobstore/cache.go:98-122 | every caller returns the result of a computation of its own key, and waits only for a flight that will publish |
| Flight.ComputationsAreSeparated | pkg/core/blobstore/cache.go:203-219 | between a successful computation and the next of the same key its entry expired or was evicted |
| FlightProgress.CallsReturn | pkg/core/blobstore/cache.go:98-122 | from any point of any run every call can return, by its own steps and those of the flight it waits for |
| FlightProgress.LossesAreTrue | pkg/core/blobstore/cache.go:155-197 | a step is recorded as losing a key's entry if and only if it takes one from the cache |
| UrlFlight.RunIsAFlightRun | pkg/core/blobstore/cache.go:203-219 | noting when calls began leaves the runs of the singleflight as they are |
| UrlFlight.ExecKeepsInv | pkg/core/blobstore/store.go:916-943 | the invariant of runs whose calls take at most delta: how long before its call a result was signed, and an entry a call may find stored |
| UrlFlight.ReturnedUrlsAreValid | pkg/core/blobstore/store.go:926-943 | when calls take no longer than the margin, every URL a call returns, found, computed or handed over by another call, is valid as it returns |
| UrlFlight.UrlsExpireExactly | pkg/core/blobstore/cache.go:48-60 | with two calls for one key, some call returns an expired URL in some run if and only if calls may take longer than the margin |
| ProjectCache.CachedPagesAreCurrent | pkg/surface/pypi/handler.go:521-554 | a cached page comes from a load begun after its last invalidation, shows everything published and nothing unstored |
| ProjectCache.ReadYourUploads | pkg/surface/pypi/handler.go:283-287 | a page request started after an upload's invalidation lists that upload's file, whatever was in flight |
| ProjectCache.AnswersNeed | pkg/surface/pypi/handler.go:404-435 | every answer shows what was published when its request started and nothing unstored |
| ProjectHits.HitsExactly | pkg/surface/pypi/handler.go:521-554 | a request is answered from the cache if and only if the last load of its project during which nothing was invalidated ended less than a TTL ago with no invalidation of the project since, and then with that load's page |
| ProjectHits.RequestsAreAnswered | pkg/surface/pypi/handler.go:404-435 | every request under way can be answered by its own steps |
| ProjectHits.UploadsTakeEffect | pkg/surface/pypi/handler.go:240-287 | an upload is stored and published, or refused because its file is stored already |
| ProjectCache.PageCache.BeginGet | pkg/surface/pypi/handler.go:525-532 | the first critical section: a live page or the generation |
| ProjectCache.PageCache.FinishGet | pkg/surface/pypi/handler.go:538-542 | the second: kept only under an unchanged generation |
| ProjectCache.PageCache.InvalidateKey | pkg/surface/pypi/handler.go:546-554 | the third: a new generation without the key's page |
| ProjectCache.PageCache.Get | pkg/surface/pypi/handler.go:521-544 | an uninterrupted get as the composition of the two sections |
| PolicyCache.EntryIsCurrentExactly | pkg/namespace/authz.go:147-189 | with no change under way, an entry is the catalog's newest if and only if no change landed between its load's read and insertion and none landed since whose write failed |
| PolicyCache.ApartRunsAreTransparent | pkg/namespace/authz.go:117-125 | when no change lands between a load's read and its insertion and no failed write landed, every cached entry, a missing namespace's included, is what a load would read now |
| PolicyCache.CompletedChangesAreSeen | pkg/namespace/authz.go:147-172 | a get started after a change returned sees it or a later one, unless the call in the group that answers it, or the load behind the entry it found, overlapped a change |
| PolicyStaleness.ChangesAreMissedExactly | pkg/namespace/authz.go:147-172 | some run answers a get with a spec older than a change that had returned before the get started if and only if caching is on, there are two gets, and some change can come after a spec that loads |
| PolicyStaleness.StaleAnswersRunOut | pkg/namespace/authz.go:154-171 | when calls in the group take at most delta and changes have stopped landing, every get started a TTL and delta later, twice delta if a load was between read and insertion, is answered with the current spec |
| PolicyStaleness.StaleAnswersRunOutExactly | pkg/namespace/authz.go:154-171 | that is the exact time: with caching on, three gets and a change to miss, no shorter one holds in all such runs |
| PolicyStaleness.OverlapRevivesOldSpec | pkg/namespace/authz.go:155-171 | the run in which an overlapping load puts an old spec back after its invalidation |
| PolicyProgress.GetsAreAnswered | pkg/namespace/authz.go:147-172 | while the stored spec can be loaded every get that has not failed can be answered at once |
| PolicyProgress.DirectGetsAreCurrent | pkg/namespace/authz.go:148-150 | with caching off a get is answered with the spec the catalog has |
| PolicyProgress.FailuresAreLoads | pkg/namespace/authz.go:158-161 | a get fails only by a load that fails, its own or that of the call it waits for, and a failed load is not cached |
| PolicyProgress.OnlyReportedChangesComplete | pkg/namespace/store.go:82-102 | only a change reported as written runs its hook |
| PolicyCache.Cache.FreshEntry | pkg/namespace/authz.go:175-182 | an entry is served until its expiry |
| PolicyCache.Cache.InsertLoaded | pkg/namespace/authz.go:164-167 | a load's answer replaces the name's entry and no other |
| PolicyCache.Cache.Invalidate | pkg/namespace/authz.go:185-189 | the hook drops the name's entry and no other |
| PolicyCache.Cache.Get | pkg/namespace/authz.go:147-172 | an uninterrupted get: hit, load and insert, or an uncached failure |
| Packument.ServedIsTraced | pkg/surface/npm/proxy.go:378-501 | every served packument was given by the upstream for this package at an earlier instant of the run, or made up by a fallback at one, out of versions, times and tags stored then |
| PackumentBound.BoundedExactly | pkg/surface/npm/proxy.go:378-398 | over all runs whose fetches take at most delta, the ages of answers without a fallback are bounded if and only if delta is less than the memo TTL, or there is no memo |
| PackumentBound.LeastBound | pkg/surface/npm/proxy.go:378-449 | then the least bound is a memo TTL and two fetches, less one instant, and where snapshots outlive memo entries a durable TTL and a third fetch more, less another |
| PackumentBound.OverlapHasNoAgeBound | pkg/surface/npm/proxy.go:387-397 | when fetches can last a memo TTL, for every n a run that serves, without a fallback, a packument n memo TTLs old |
| PackumentBound.RootsHold | pkg/surface/npm/proxy.go:387-417 | the invariant behind the smaller bound: while a snapshot is young, the memo outlives it or a request from before it is still to fill the memo |
| PackumentAge.ServedIsRecent | pkg/surface/npm/proxy.go:378-449 | an answer went through a fallback within a memo TTL and two fetches, or was given by the upstream within that and the greatest age of a snapshot |
| PackumentBound.MaxAgeIsReached | pkg/surface/npm/proxy.go:378-449 | for all TTLs and fetch lengths a run that serves an answer of exactly the least bound's age |
| PackumentAge.ServedIsYoung | pkg/surface/npm/proxy.go:378-449 | with the clock still during fetches, an answer saw a fallback within the memo TTL or came from upstream within memo plus durable TTL |
| Packument.AbsenceIsTheLastWord | pkg/surface/npm/proxy.go:384-386 | a 404 is answered only if the last recorded conclusive response was a 404, from memory only within the negative TTL |
| PackumentServing.AbsenceIsRemembered | pkg/surface/npm/proxy.go:384-386 | a recorded 404 answers every request within its TTL at once, unless a live memo entry does, until another response is recorded |
| PackumentServing.MemoIsServed | pkg/surface/npm/proxy.go:381-383 | a packument put into the memo answers every request within the memo TTL at once, until another is put |
| PackumentServing.LastRecordedIsServed | pkg/surface/npm/proxy.go:436-460 | a document that was given and kept, if only the document, is what a readable fallback serves until another response is recorded |
| PackumentServing.FallBackServes | pkg/surface/npm/proxy.go:454-501 | with the upstream down a readable snapshot is served at any age; else every stored version that can be read, with its noted time and the tags; unavailable if and only if there is neither |
| PackumentServing.SnapshotExactly | pkg/surface/npm/proxy.go:436-441 | after any attempts to keep one, the snapshot has the document last kept and the time of the last attempt that kept its record too, or, if none did, of the last that kept a document |
| PackumentAge.AgeHolds | pkg/surface/npm/proxy.go:378-398 | the invariant of runs whose fetches are shorter than a memo TTL: when the memo came alive, and what waiting and putting requests may hold |
| Packument.FetchIsARun | pkg/surface/npm/proxy.go:378-398 | the sequential fetch is a run of the protocol by one request |
| Packument.Engine.Get | pkg/surface/npm/proxy.go:86-96 | a memo hit is an unexpired entry, never with a non-positive TTL |
| Packument.Engine.Put | pkg/surface/npm/proxy.go:98-105 | a put sets the key's entry and expiry and no other key's |
| Packument.Engine.FetchPackument | pkg/surface/npm/proxy.go:378-398 | memo, negative cache, load and put compute the specified outcome and state of the key and touch no other |
| Packument.Engine.KeepSnapshot | pkg/surface/npm/proxy.go:436-441 | the snapshot kept: document and time, the document alone under the recorded time of the one before, or nothing |
| Packument.Engine.LoadPackument | pkg/surface/npm/proxy.go:404-449 | young snapshot, else upstream with its bookkeeping, else fallback |
| Packument.Engine.FallbackPackument | pkg/surface/npm/proxy.go:454-465 | the same of the engine's own fallback |
| Packument.Engine.Synthesize | pkg/surface/npm/proxy.go:471-501 | whatever order versions are walked in: the documents of the readable ones, the noted times, the readable tags, and nothing when no version is left |
| Packument.SynthesisReports | pkg/surface/npm/proxy.go:471-501 | a synthesized packument lists some version and says nothing that is not stored |
| NegCache.HasIsLastMark | pkg/proxy/negcache/negcache.go:54-85 | after any calls under a monotone clock, Has holds if and only if the triple's last Mark or Delete is a Mark younger than the TTL |
| NegCache.CacheKeyInjective | pkg/proxy/negcache/negcache.go:87-91 | triples with NUL-free namespace and format share a key only if equal |
| NegCache.Cache.Mark | pkg/proxy/negcache/negcache.go:54-59 | from then on exactly this triple is remembered for exactly a TTL, and every other as before |
| NegCache.Cache.Has | pkg/proxy/negcache/negcache.go:63-76 | yes if and only if the last Mark or Delete of that very triple among the calls made is a Mark younger than the TTL; dropping an expired entry changes no later answer |
| NegCache.Cache.Delete | pkg/proxy/negcache/negcache.go:80-85 | from then on exactly this triple is not remembered, and every other as before |
| Escape.UnescapeEscape | pkg/core/blobstore/paths.go:61-99 | decoding an encoded name gives the name back, for every byte string |
| Escape.EscapedIsOneSegment | pkg/core/blobstore/paths.go:48-63 | an encoded name is one path segment and starts with a dot only if the name does |
| Escape.EscapeInjective | pkg/core/blobstore/paths.go:61-63 | different names encode differently |
| Escape.EscapedExactly | pkg/core/blobstore/paths.go:61-63 | a name's encoding is the one text of unreserved bytes, '+' and upper-case escapes of other bytes that decodes to it |
| Escape.HexValuesExactly | pkg/core/blobstore/paths.go:91-99 | decoding reads hexadecimal digits of either case |
| Paths.StoreAndCatalogAgree | pkg/namespace/registry.go:156-162 | data plane and catalog use the same directory exactly for prefixes that end in no slash or are only slashes |
| Paths.NamespacesExactly | pkg/namespace/validate.go:58-77 | which names a namespace may have: length, bytes, ends and reserved names |
| Paths.KeyIsJoined | pkg/core/blobstore/paths.go:101-179 | every key is its object's segments below the root, joined by single slashes |
| Paths.SegmentRoundTrip | pkg/core/blobstore/paths.go:91-99 | a listed segment decodes to the name it was encoded from and never looks like a dot entry or sidecar |
| Paths.KeyRoundTrip | pkg/core/blobstore/paths.go:101-179 | namespace, format, level, kind and names of every object can be read off its key |
| Paths.KeysAreDistinct | pkg/core/blobstore/paths.go:101-179 | distinct objects of all families have distinct keys |
| Listing.UnderScope | pkg/core/blobstore/store.go:230-252 | which objects a scope's listing covers, and under which child |
| Listing.UnderPackage | pkg/core/blobstore/store.go:325-374 | which objects a package's directory covers, and under which child |
| Listing.UnderVersion | pkg/core/blobstore/store.go:552-569 | which objects a version's directory covers |
| Listing.UnderNamespace | pkg/namespace/store.go:192-207 | which objects a namespace's directory covers, and under which child |
| Listing.UnderTags | pkg/core/blobstore/store.go:445-467 | which objects a package's tag directory covers, and under which child |
| Index.ScopeChildren | pkg/core/blobstore/store.go:129-142 | the visible children of a scope are the encoded names of its packages |
| Index.BelowPackage | pkg/core/blobstore/store.go:325-341 | something lies below a package's directory exactly when something of the package is stored |
| Index.BelowVersion | pkg/core/blobstore/store.go:552-569 | the same for a version |
| Index.FormatDirs | pkg/namespace/store.go:192-207 | the visible child directories of a namespace are the formats something is stored under |
| Index.Bucket.ListChildNames | pkg/core/blobstore/store.go:230-252 | the sorted visible child names, each once when no name is both file and directory |
| Index.Bucket.ListChildDirs | pkg/namespace/store.go:212-234 | the sorted visible child directories |
| Index.Bucket.HasDescendant | pkg/core/blobstore/store.go:257-271 | whether any key lies below a directory |
| Index.Bucket.Packages | pkg/core/blobstore/store.go:129-142 | every package exactly once: precisely those PackageExists affirms |
| Index.Bucket.PackageExists | pkg/core/blobstore/store.go:325-341 | true exactly when something of the package is stored |
| Index.Bucket.Versions | pkg/core/blobstore/store.go:357-374 | every version exactly once: precisely those VersionExists affirms |
| Index.Bucket.VersionExists | pkg/core/blobstore/store.go:552-569 | true exactly when something of the version is stored |
| Index.Bucket.IsEmpty | pkg/namespace/store.go:192-207 | true exactly when no format of the namespace holds a package |
| Index.Bucket.DeleteNamespace | pkg/namespace/store.go:167-186 | succeeds exactly for an existing, readable namespace without packages, and then removes its record and leaves every other object as it was |
| Index.Bucket.PutNamespace | pkg/namespace/store.go:82-102 | a valid name's record is written with the spec and every other object stays as it was |
| Index.Bucket.Create | pkg/core/blobstore/store.go:146-161 | a record is created, or refused when it exists and may not be overwritten, and every other object stays |
| Index.Bucket.DeleteCache | pkg/core/blobstore/store.go:959-972 | a cache file goes with its sidecar and every other object stays as it was |
| Index.Bucket.SetTag | pkg/core/blobstore/store.go:519-527 | one write of the tag's own object |
| Index.Bucket.TagTargets | pkg/core/blobstore/store.go:469-517 | exactly the package's tags, each with its trimmed target, whatever order the reads complete in |
| Index.TagWritesCommute | pkg/core/blobstore/tags.go:26-32 | writes to distinct tags leave the same bucket in any order |
| Index.InterleavingsAgree | pkg/core/blobstore/store.go:469-527 | whatever order SetTag calls on distinct tags take effect in, TagTargets answers the same map |
| Index.WrittenTags | pkg/core/blobstore/store.go:469-527 | after them each written tag has its own trimmed target and every other tag what it had |
| FileIndex.UnderFiles | pkg/core/blobstore/paths.go:122-170 | a level's file folder covers its blobs under their encoded names and its sidecars behind a dot |
| FileIndex.FileChildren | pkg/core/blobstore/store.go:596-613 | the visible children of the folder are the encoded names of the blobs |
| FileIndex.Files | pkg/core/blobstore/store.go:596-613 | every file of a level exactly once, sidecars never |
| FileIndex.VersionLinks | pkg/surface/pypi/handler.go:410-432 | the links of one version's files, each once |
| FileIndex.ProjectLinks | pkg/surface/pypi/handler.go:404-432 | every file stored for the project exactly once and nothing else |
| FileIndex.BuildProjectPage | pkg/surface/pypi/handler.go:404-435 | the page shows each of them once with its own details, sorted by file name and URL, and fails exactly when one's metadata cannot be read |
| FileIndex.LinksAreOrdered | pkg/surface/pypi/handler.go:428-433 | file name, then URL, is a total order, so the sorted page is determined |
| FileIndex.LinksAreOrderedBy | pkg/surface/pypi/handler.go:428-433 | by file name first, by URL only among links of one file name |
| Sorting.LessEqExactly | pkg/core/blobstore/store.go:250 | names are ordered by prefix, and else by the first byte that differs |
| Maven.OrderIsIrrelevant | pkg/surface/maven/codec.go:173-185 | the checksum suffix found does not depend on the order a map is walked in |
| Maven.ChecksumInFinds | pkg/surface/maven/codec.go:173-185 | a found suffix splits the name into target and suffix; none found means none fits |
| Maven.CoordinateIsThePath | pkg/surface/maven/proxy.go:474-482 | the upstream path of every accepted path but the catalog's is its decoded segments joined |
| Maven.ParsedSegments | pkg/surface/maven/codec.go:61-136 | a parsed request holds every segment in its place |
| Maven.AcceptedExactly | pkg/surface/maven/codec.go:96-136 | segments are accepted if and only if they name an artifact's file, metadata of an artifact or of a snapshot version, or the catalog, and as what they name |
| Maven.SegmentsExactly | pkg/surface/maven/codec.go:156-171 | which bytes a segment may hold, and that it may not start with a dot |
| Maven.DecodesExactly | pkg/surface/maven/codec.go:61-95 | a path decodes if and only if it is absolute and its parts, each unescaped, are a valid namespace, the fixed root and at least one segment, all valid |
| Maven.SnapshotsExactly | pkg/surface/maven/codec.go:186-188 | a version is a snapshot if and only if it ends in "-snapshot", in whatever case |
| Maven.PathsDecode | pkg/surface/maven/codec.go:61-95 | a namespace and valid segments written out as a path decode to themselves |
| Maven.StoresItsSegments | pkg/surface/maven/handler.go:222-242 | the segments can be read back from the level and file a request addresses, which are valid store names |
| Maven.PathsAreFiles | pkg/surface/maven/codec.go:61-136 | two accepted paths address the same key if and only if they decode to the same namespace and segments |
| Maven.TargetsAreSiblings | pkg/surface/maven/handler.go:188-242 | a checksum is verified against the file its target's own path stores, except exactly for checksums of checksums of artifact metadata |
| Maven.NoPathStoresStrayTargets | pkg/surface/maven/handler.go:188-242 | for those, no accepted path stores the file looked for |
| Maven.StrayPaths | pkg/surface/maven/codec.go:98-116 | such paths exist under every group, artifact and version that is no snapshot |
| Maven.SharedNegKeys | pkg/surface/maven/proxy.go:488-490 | two files share a remembered 404 if and only if dotted group, artifact, version and file agree |
| Maven.DotlessGroups | pkg/surface/maven/proxy.go:488-490 | groups without dots in their segments are told apart by their dotted form |
| Maven.DottedGroupsCollide | pkg/surface/maven/proxy.go:488-490 | for every artifact, version and plain file, two parsed paths of different packages that share a remembered 404 |
| MavenUpload.StoredChecksumsAreTrue | pkg/surface/maven/handler.go:77-123 | where nothing may be overwritten, every stored checksum file has its target beside it and holds its digest, however uploads overlapped |
| MavenUpload.StoredStays | pkg/surface/maven/handler.go:244-246 | what is stored where nothing may be overwritten stays |
| MavenUpload.BreakingExactly | pkg/surface/maven/handler.go:77-123 | beside any accepted path a stored checksum can become false, for some uploads by paths in some run, if and only if files there may be overwritten and some digest tells two bodies apart |
| MavenUpload.ReplacingBreaksChecksums | pkg/surface/maven/handler.go:244-246 | where files may be overwritten, replacing a target by a body its stored checksum does not fit makes that checksum false |
| MavenUpload.ReplacesExactly | pkg/surface/maven/handler.go:244-246 | a stored file is replaced if and only if the handler always overwrites or the file belongs to a snapshot version |
| MavenUpload.VerifiesExactly | pkg/surface/maven/codec.go:191-208 | a checksum file is accepted if and only if its first field is the target's digest, in any case |
| MavenUpload.ChecksumsGetStored | pkg/surface/maven/handler.go:96-118 | a run that stores a file and then its checksum, for every digest |
| MavenUpload.StrayChecksumsAreRefused | pkg/surface/maven/handler.go:188-199 | uploading a checksum of a checksum of artifact metadata is refused for want of its target, whatever uploads by paths came before |
| MavenUpload.PathsAreAddressed | pkg/surface/maven/handler.go:222-242 | every accepted path stores at a place those theorems speak of |
| MavenUpload.Handler.Upload | pkg/surface/maven/handler.go:77-123 | one upload: refused for a missing target, a mismatch or an existing file, else stored; a refusal changes nothing |
| Npm.CoreRoundTrip | pkg/surface/npm/codec.go:65-123 | the store name of every accepted package name is valid and decodes to that name |
| Npm.CoreInjective | pkg/surface/npm/codec.go:60-70 | different package names, scoped or not, never share a store name |
| Npm.AcceptedExactly | pkg/surface/npm/codec.go:65-99 | a package name is accepted if and only if it has at most 214 bytes and is a valid name, or a valid scope and name behind '@', and it parses to those |
| Npm.SegmentsExactly | pkg/surface/npm/codec.go:129-147 | which bytes a scope or name may hold, and which it may not start with |
| Npm.DecodesExactly | pkg/surface/npm/codec.go:105-123 | a store name decodes if and only if it is "u/" and a name, or "s/", a scope and a name cut at the first slash, and to those |
| Npm.DerivedVersionIsTheDefault | pkg/surface/npm/handler.go:779-804 | a version is derived from a file name exactly when the file is that version's default tarball, with or without extension |
| Npm.FindTarball | pkg/surface/npm/handler.go:748-774 | finds a version holding the file whenever one exists, the derived one first, and fails exactly when the derived version is no valid name |
| Npm.ScanVersions | pkg/surface/npm/handler.go:760-773 | the scan finds a holder among the listed versions or none of them is one |
| Npm.ScanIsComplete | pkg/surface/npm/handler.go:760-773 | a version that holds a file is listed, so the scan misses none |
| PyPI.NormalFormsIdentify | pkg/surface/pypi/codec.go:82-87 | two accepted ASCII names have one normal form if and only if a chain of case changes, separator changes and run contractions or expansions joins them, as the "Normalized Names" section of PEP 503 intends |
| PyPI.NormalizeIsIdempotent | pkg/surface/pypi/codec.go:82-87 | a normal form is accepted and is its own normal form |
| PyPI.NormalFormExactly | pkg/surface/pypi/codec.go:82-87 | the normal form of a name is the one equivalent name without upper-case letters, without separators but '-' and without two of those in a row |
| PyPI.Reaches | pkg/surface/pypi/codec.go:82-87 | every name rewrites step by step to its normal form |
| Filter.Compile | pkg/proxy/filter/filter.go:117-127 | the chain of the filters the specs write out, kind, patterns and rules or age, or the index of the first spec that writes out none |
| Filter.CompilesExactly | pkg/proxy/filter/filter.go:136-182 | a spec compiles to a filter if and only if it writes out that well-formed filter |
| Filter.DeciderRules | pkg/proxy/filter/filter.go:208-231 | the chain decides as its first filter that does not abstain, and saturating ages change nothing |
| Filter.AbstainsExactly | pkg/proxy/filter/filter.go:208-218 | a filter abstains if and only if it is no delay, no pattern of it fits the package, and of each rule the package or the version pattern does not fit |
| Filter.NoDecider | pkg/proxy/filter/filter.go:230-231 | when every filter abstains the artifact is allowed |
| Filter.FirstDecider | pkg/proxy/filter/filter.go:205-231 | either all filters abstain or one is the first not to |
| Filter.AsksExactly | pkg/proxy/filter/filter.go:219-222 | metadata is needed if and only if the first filter not to abstain is a delay and no publish time is known |
| Filter.AllowedStays | pkg/proxy/filter/filter.go:223-227 | an allowed artifact stays allowed as time passes |
| Filter.DelayEndsTheChain | pkg/proxy/filter/filter.go:219-229 | no filter after the first delay has any effect |
| Filter.LazyIsEager | pkg/surface/pypi/proxy.go:431-456 | deciding lazily, as the PyPI and Maven proxies do, allows exactly what deciding with the resolved time allows; an unresolved time denies only where it was asked for |
| Filter.SameUntilAsked | pkg/surface/maven/proxy.go:324-353 | a decision that needs no metadata is the same with any publish time at any instant |
| Filter.KnownTimeIsUsed | pkg/surface/pypi/proxy.go:441-448 | a publish time known beforehand is never resolved again |

## Left out

- Overwritten keys: beyond complete bodies and the exact condition for tearing, nothing is promised of sidecars of keys written with overwriting, which are npm metadata, cache files and Maven snapshots.
- Backends: put-if-absent is taken to be atomic and listings to show the current keys; backends without an atomic put-if-absent, eventual consistency and several processes sharing a bucket are not modelled.
- WriteFile.Bucket.WriteFile: one call runs without interference; interference is the subject of the protocol it is a run of.
- WriteFile.Bucket.Commit: timestamps in the record are not modelled, and neither are those of the recomputed record.
- MemoCache.Cache.MoveToFront: list elements are handles into a map instead of linked objects, so aliasing of list nodes is not captured.
- Flight.ResultsAreOwn: panics in a computation are not modelled.
- BlobWrite.MetaIsTrue: access checks and the reading of file contents are not modelled.
- FileIndex.BuildProjectPage: link URLs and the reading of metadata are given functions of the file.
- ProjectHits.UploadsTakeEffect: the checks of names, version and declared digest before an upload's write are not modelled.
- ProjectCache.ReadYourUploads: the cache key joining namespace and project is taken as the project, and the generation counter as unbounded.
- PolicyCache.EntryIsCurrentExactly: one namespace is followed, since hooks, loads and entries of different names do not interact.
- Packument.Engine.Synthesize: the package's own name field, rendering and tarball URLs are not modelled, and in the protocol the reads of one synthesis happen at one instant.
- PackumentBound.BoundedExactly: the length of a fetch is a parameter; timeouts that would bound it are not modelled, and neither are snapshots left by an earlier process.
- PolicyStaleness.StaleAnswersRunOut: the length of a call is a parameter, as nothing in the source bounds it.
- UrlFlight.ReturnedUrlsAreValid: the length of a call is a parameter, the clock is one clock, and a backend that signs for less than the lifetime asked for is not modelled.
- Index.Bucket.PutNamespace: validation and normalisation of the spec itself are not modelled.
- Index.Bucket.IsEmpty: files stored directly under a format directory do not count, as in the source.
- Index.Bucket.TagTargets: reads that fail or tags deleted between listing and reading are not modelled.
- Maven.PathsAreFiles: error kinds of rejected paths are one and the same.
- MavenUpload.StoredChecksumsAreTrue: package and version records written along the way and body size limits are not modelled; a file write is one step that may land and still fail, as the write protocol justifies.
- Npm.FindTarball: a failing existence check or listing is not modelled.
- PyPI.NormalFormsIdentify: letter case outside ASCII is not folded.
- Filter.LazyIsEager: the npm proxy, which never resolves a time, is the case of an unresolved one.
- The PyPI index memo and its fallback repeat the packument cache's protocol.
- The Maven proxy's metadata key, which ignores version and file, and the PyPI file key join parts without escaping; only the Maven file key is analysed.
- Debian and generic surfaces, HTTP routing, JSON, HTML and XML, authentication and authorization rules, configuration, logging and metrics.
