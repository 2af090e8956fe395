# Verified model of the navigation engine's reporting, submission and lookup logic

This project models, in Dafny 4.11, the parts of the engine that decide something rather than drive a browser, and proves
what they promise:

* the n8n transform: a mutually recursive sanitizer over values, JSON held in strings, URLs, query strings and repeatedly
  encoded parameters; the search for the reporting rows in a possibly cyclic item; first occurrences and the final order;
* the analytics reporting rows and the engine's own click classification, which resolve the same click twice at different
  grains; attribution of evidence to pages; the order and numbering of the journey;
* the Submit protocol: the adaptive observation after a click, the fourteen-guard fallback and the retry loop;
* the run-record store with its two backends, its interleavings, and the admission limiter;
* the dealer lookup: trigger-to-field association in the element tree, the activation ladder, bounded waits and clicks,
  the XML walk, the bounded record of requests;
* the accounting of the low-memory resource routing.

What the browser, the page, the clock, the network, Redis and the regular expressions answer is an input: an arbitrary
function or record that every theorem quantifies over. `dafny verify dfyconfig.toml` checks everything.

## How the model is laid out

| files | part of the system |
|---|---|
| `Wrappers`, `Bounds`, `Text`, `Order` | options, the string tests of the sanitizer, stable sort and first occurrences |
| `Codec` | JSON, percent-encoding and URL codecs as functions with laws |
| `Percent`, `JsonWitness`, `UrlWitness`, `CodecWitness` | a codec that obeys all the laws: percent-encoding of UTF-8 as it is, a JSON and a URL reader and printer of their own |
| `Sanitizer`, `SanitizerIdempotence`, `SanitizerRedaction`, `SanitizerReach`, `Aliases`, `ItemGraph`, `DiscoveryOrder`, `Discovery`, `ReportingItems` | the n8n transform |
| `UrlRelations`, `Evidence`, `ClickResolution`, `ClickRefinement`, `LogicalEvents`, `ClickSignals`, `ClickRows`, `Attribution`, `Journey`, `Report`, `RowMeaning` | classification and reporting rows |
| `BusinessRequests`, `SubmissionObserver`, `SubmitPlan`, `SubmitLoop` | the Submit protocol |
| `TaskRecords`, `TaskStores`, `StoreSimulation`, `RunLifetimes`, `RedisInterleaving`, `Admission` | run records and admission |
| `DomTree`, `TriggerAssociation`, `StageWait`, `DealerLadder`, `DealerOutcome`, `XmlStructure`, `XmlScanner`, `NetworkCapture` | dealer lookup |
| `Tallies`, `ResourceRouting` | resource routing |

Loops and objects of the source are methods and classes here, each proved against a function of its inputs or of the old
state; the theorems are lemmas about those functions.

## Where the code falls short of what is said about it

Each of these is proved. Where the promise holds for some inputs and fails for others, the condition is exact.

* Sanitizing twice is not always sanitizing once. A relative URL whose normalised path starts with two slashes is read again
  as naming a host, which the second pass drops (`SecondPassCanDiffer`, input `/.//x?cid=1`; `SecondPassDiffers` gives the
  family under a lawful codec). `ValueIdempotent` decides it for every value: some relative URL with a sensitive key has a
  path that starts with two slashes and then names a host.
* The first pass drops the host of a rewritten scheme-relative URL: `//a/p?cid=1` leaves as `/p?cid=%5Bredacted%5D`
  (`FirstPassDropsHost`). A rewritten relative URL means the same afterwards exactly when it names no host and its path
  does not start with two slashes (`RelativeMeaningExactly`).
* An object loses its `__proto__` key, and only that one (`KeysKept`).
* The sanitizer reaches 24 levels down and through three rounds of decoding, and no further (`SecretsAreGone`,
  `EncodedSecretsAreGone`; `BeyondIsUntouched`, `FourTimesUntouched`).
* "DOM structure decides, visual distance only breaks ties" fails at one exact tie: a field one hop nearer at exactly 600 px
  loses to an earlier one at 0 px (`OneHopCanLose`, `FewestHopsExactly`).
* The retry guard of the Submit loop looks at one business request, the decisive one of the observer's last reading. When
  that reading holds none, a rejected one, or a failed one in front, the guard lets the attempt pass, whatever else was sent
  (`LandedPassesGuardExactly`, `SecondClickExactly`). So Submit is clicked again after 200 followed by 422
  (`AcceptedThenRejectedIsRetried`).
* The attempt selects the business requests once more, after the observer (`src/actions/fillForm.ts:2082`), but no guard of the
  retry or the fallback looks at that selection. A request that starts in between does not hold the second click back, although it is in
  the attempt's own record (`LateRequestIsRetried`, `LateRequestMeetsFallback`). When the observer saw no business request,
  every one found later has started or been reclassified since (`LaterBusinessIsUnseen`).
* An attempt that the page confirmed is sent again when a field is left invalid, the form is still there, the observer's
  requests do not hold it back, and rejected consent groups, if nothing else was rejected, were answered
  (`SuccessThenClickExactly`, `ConfirmedIsRetried`).
* Aliases are made after sanitizing. A key that is not sensitive as it is written can leave its value under an alias that is:
  `_gaXYZ` as `_ga_xyz` (`ExposedExactly`, `AliasCanExpose`).
* The comment at `src/api/redisTaskStore.ts:30-32` says that no concurrent writer exists. The heartbeat timer is one: it can
  set a completed record back to running and drop its result (`HeartbeatUndoesCompletion`, `CompletedStaysExactly`).
* A write to an expired, unread record revives it in memory but not in Redis (`ExpiredWriteTellsApart`).
* A rejected `createRun` keeps its limiter slot for good (`RejectedCreatesKeepSlots`).
* The fallback of evidence attribution wants markers in step order, but the caller leaves the start marker in front
  wherever its step lies. It picks the latest marker at or before the evidence unless the start marker is the latest of them
  and others are there too (`FallbackIsLatestExactly`, `StartMarkerCanBeLate`).
* A capture on a click's step joins no page (`ClickStepJoinsNoPage`). An event is reported exactly when a capture off the
  clicks' steps yields it in its owner's window, or a capture in a click's own window does (`ReportedExactly`); a request on
  the step of a click without analytics is lost (`CaptureCanBeLost`).
* The tag pattern of the XML analysis ends a tag at its first `>`, inside an attribute too, and knows only names of ASCII
  letters, digits and `_.:-` that begin with a letter or `_`. A document is read as it is exactly when the pattern knows all
  its names and, up to their first `>`, only tags that close themselves end in a slash (`ScannedExactly`). With `"/>"` in an
  attribute, or a first letter such as `é`, a record can be missed (`RecordCanBeMissed`, `ForeignRecordMissed`).
* An action can be reported as captured although none of its items was confirmed (`CapturedExactly`).
* A location selection that committed ends as an unresolved lookup exactly when a dealer was clicked after it and the last
  dealer click committed nothing (`CommittedLocationUnresolvedExactly`, `LookupOnForgetfulPage`).

## Model

| member | source | states |
|---|---|---|
| Sanitizer.ReencodeLoop | n8n/buildAnalyticsReportingRows.ts:101-105 | the loop encodes exactly as many times as asked |
| Sanitizer.SanitizeParamLoop | n8n/buildAnalyticsReportingRows.ts:203-229 | the decoding loop with its early exits computes the recursive meaning of sanitizing a parameter: the first recognised shape within four rounds, sanitized and encoded back |
| Sanitizer.RewriteParams | n8n/buildAnalyticsReportingRows.ts:165-178 | the query loop's `changed` flag is true exactly when a sensitive key occurs or some entry differs |
| SanitizerIdempotence.ValueIdempotent | n8n/buildAnalyticsReportingRows.ts:107-229 | for every value and depth, sanitizing twice equals sanitizing once if and only if the value is stable |
| SanitizerIdempotence.ShapeIdempotent | n8n/buildAnalyticsReportingRows.ts:126-133 | a sanitized text is recognised as the shape it had, and is a fixed point exactly when stable |
| SanitizerIdempotence.JsonIdempotent | n8n/buildAnalyticsReportingRows.ts:135-148 | a sanitized JSON string is again a JSON container string and no URL, through any nesting of strings in strings |
| SanitizerIdempotence.UrlIdempotent | n8n/buildAnalyticsReportingRows.ts:156-182 | a sanitized URL still looks like a URL, and a second pass changes nothing exactly when it is stable |
| SanitizerIdempotence.AbsoluteIdempotent | n8n/buildAnalyticsReportingRows.ts:156-182 | for an absolute URL only its entries decide whether the second pass changes it |
| SanitizerIdempotence.RelativeIdempotent | n8n/buildAnalyticsReportingRows.ts:156-182 | a rewritten relative URL is a fixed point exactly when its entries are; if its path starts with two slashes, exactly when no host follows them or its entries are and none is sensitive |
| SanitizerIdempotence.QueryIdempotent | n8n/buildAnalyticsReportingRows.ts:184-196 | a sanitized query string is still taken for a query string and for nothing else |
| SanitizerIdempotence.ParamIdempotent | n8n/buildAnalyticsReportingRows.ts:203-229 | a parameter decoded up to three times and encoded back is a fixed point exactly when its inner text is stable |
| SanitizerIdempotence.UnwrapReencoded | n8n/buildAnalyticsReportingRows.ts:198-229 | text encoded as often as it had been decoded is found again at the same depth with the same shape |
| SanitizerIdempotence.EscapedIsPlain | n8n/buildAnalyticsReportingRows.ts:71-91 | percent-encoded text is never taken for a URL, a JSON document or a query string |
| SanitizerIdempotence.SanitizedProper | n8n/buildAnalyticsReportingRows.ts:107-124 | a sanitized value is one that JSON can print and read back |
| SanitizerRedaction.ValueRedacted | n8n/buildAnalyticsReportingRows.ts:107-148 | the output mirrors the input at every level: same nesting, lengths, keys and scalars, with the placeholder exactly under sensitive keys |
| SanitizerRedaction.TextRedacted | n8n/buildAnalyticsReportingRows.ts:126-196 | a sanitized text, read back through its own codec, mirrors the original read the same way: fragment and path kept, the origin of an absolute URL too |
| SanitizerRedaction.RelativeMeaningExactly | n8n/buildAnalyticsReportingRows.ts:156-182 | a rewritten relative URL reads back as the same URL, redacted, if and only if it names no host and its path does not start with two slashes |
| SanitizerRedaction.ParamRedacted | n8n/buildAnalyticsReportingRows.ts:203-229 | a sanitized parameter is encoded as many times as before around a redacted text of the same shape |
| SanitizerRedaction.KeysKept | n8n/buildAnalyticsReportingRows.ts:112-119 | an object keeps its keys, in order, if and only if none is `__proto__` |
| SanitizerReach.SecretsAreGone | n8n/buildAnalyticsReportingRows.ts:67-229 | for every lawful codec: at the end of any trail of at most 24 levels, through array places, keys, JSON in strings, parameters of URLs and queries and up to three rounds of decoding, what goes by a sensitive key is read as `[redacted]` along the same path in the sanitized value |
| SanitizerReach.TrailCarries | n8n/buildAnalyticsReportingRows.ts:107-229 | and whatever else is met on the way is read along the same path, sanitized from there on |
| SanitizerReach.RowSecretsAreGone | n8n/buildAnalyticsReportingRows.ts:446-456 | so in a row that leaves with its aliases |
| SanitizerReach.RelativeSecretsAreGone | n8n/buildAnalyticsReportingRows.ts:156-182 | a relative URL that does not read back is still printed with its secrets replaced |
| SanitizerReach.BeyondIsUntouched | n8n/buildAnalyticsReportingRows.ts:107-108 | 25 levels down everything is as it was |
| SanitizerReach.EncodedSecretsAreGone | n8n/buildAnalyticsReportingRows.ts:203-229 | a parameter encoded up to three times around a URL, a JSON container or, once encoded, a query leaves encoded as often, and its secrets are read as `[redacted]` |
| SanitizerReach.FourTimesUntouched | n8n/buildAnalyticsReportingRows.ts:203-229 | one encoded four times is left alone, whatever is inside |
| SanitizerReach.DecodedIsUnwrapped | n8n/buildAnalyticsReportingRows.ts:203-229 | what the first three rounds of decoding come upon is what the sanitizer unwraps |
| SanitizerReach.UnwrappedIsDecoded | n8n/buildAnalyticsReportingRows.ts:203-229 | and it unwraps nothing else |
| SanitizerReach.UrlExactly | n8n/buildAnalyticsReportingRows.ts:71-76 | which texts are taken for URLs, character by character |
| SanitizerReach.QueryExactly | n8n/buildAnalyticsReportingRows.ts:73-91 | which for query strings |
| SanitizerReach.QueryIsRead | n8n/buildAnalyticsReportingRows.ts:184-196 | two or more parameters, encoded and joined, are read as the same parameters |
| Aliases.AddSnakeCaseAliases | n8n/buildAnalyticsReportingRows.ts:257-264 | the loop over the row's first keys adds an alias where none, own or inherited, is in the way |
| Aliases.AliasReads | n8n/buildAnalyticsReportingRows.ts:250-264 | after it every name reads as it did, and a name the row neither has nor inherits reads as the first key that turns into it |
| Aliases.RunAlias | n8n/buildAnalyticsReportingRows.ts:250-255 | a key of a run of capitals and a word has the alias with an underscore between them, `http_server` for `HTTPServer` |
| Aliases.ExposedExactly | n8n/buildAnalyticsReportingRows.ts:446-456 | a row leaves with an unredacted value under a sensitive name if and only if the name is an alias of a key that is not sensitive as it is written |
| Aliases.AliasCanExpose | n8n/buildAnalyticsReportingRows.ts:250-255 | the family of keys with capitals behind small letters, `_gaXYZ` among them, for which it happens |
| Aliases.AliasesAddedOnce | n8n/buildAnalyticsReportingRows.ts:257-264 | no alias has an alias of its own: a second pass over the keys adds nothing |
| CodecWitness.SecondPassDiffers | n8n/buildAnalyticsReportingRows.ts:156-182 | under a codec shown to obey every law, the second pass changes `/.//host?cid=value`, for every host and value |
| CodecWitness.FirstPassDropsHost | n8n/buildAnalyticsReportingRows.ts:156-182 | under the same codec the first pass takes the host off `//host/path?cid=value` |
| Discovery.FindContainerRecursively | n8n/buildAnalyticsReportingRows.ts:364-385 | terminates on cyclic graphs, expands no object twice, returns a container exactly when one lies within the bound: at the least number of links, and of those the first in dictionary order of entry positions |
| Discovery.DiscoverContainer | n8n/buildAnalyticsReportingRows.ts:396-421 | succeeds exactly when a container lies within six links; the first matching wrapper path wins, and without one the first place of the search |
| Discovery.WrapperPathsAre | n8n/buildAnalyticsReportingRows.ts:331-342 | the ten wrapper paths and their order |
| DiscoveryOrder.VisitedBefore | n8n/buildAnalyticsReportingRows.ts:364-385 | whatever stands at a path before all that waits has been visited by that path or an earlier one |
| DiscoveryOrder.VisitRanked | n8n/buildAnalyticsReportingRows.ts:368-383 | visiting an object and queueing its entries keeps the queue in the order of paths, and every entry known by its own path or an earlier one |
| Discovery.PathIsLinked | n8n/buildAnalyticsReportingRows.ts:346-353 | what a path reads lies as many links away as the path is long |
| Discovery.VisitedUpTo | n8n/buildAnalyticsReportingRows.ts:364-385 | every object closer than the whole queue has been visited at its own distance or less |
| Order.Deduplicate | src/capture-modules/analyticsReportingRows.ts:558-569 | the loop with its set of seen identities keeps the first occurrences |
| Order.KeptIsFirst | src/capture-modules/analyticsReportingRows.ts:558-569 | each kept item is the first of its identity, and kept items stay in order |
| Order.StableSortSorted | n8n/buildAnalyticsReportingRows.ts:463 | the runtime's sort, for any total preorder, leaves the list sorted |
| Order.StableSortStable | src/capture-modules/analyticsReportingRows.ts:572-581 | items that compare equal keep their order |
| ReportingItems.AddItem | n8n/buildAnalyticsReportingRows.ts:439-458 | one item's rows are added as the sanitized first occurrences of all rows read so far, with the seen identities to match |
| ReportingItems.BuildAnalyticsReportingRowsItems | n8n/buildAnalyticsReportingRows.ts:430-466 | the loops across items yield first occurrences over all items, sanitized and sorted, or nothing when one discovery throws |
| ReportingItems.TransformKeepsRows | n8n/buildAnalyticsReportingRows.ts:430-466 | rows leave in journey order, each event identity exactly once, as the first row that carries it, rows without one as often as they came |
| ReportingItems.TransformAddsNothing | n8n/buildAnalyticsReportingRows.ts:430-466 | every row that leaves is an input row, sanitized and with its aliases |
| ReportingItems.RowReads | n8n/buildAnalyticsReportingRows.ts:446-456 | what a row that leaves holds under any name: its own, redacted or sanitized, or that of the first key that turns into the name |
| ReportingItems.TransformExposesNothing | n8n/buildAnalyticsReportingRows.ts:430-466 | no row leaves with an unredacted value under a sensitive name when every key that turns into one is sensitive as it is written |
| ReportingItems.SortedInputKeepsOrder | n8n/buildAnalyticsReportingRows.ts:460-463 | the final sort is a no-op on rows already in journey order |
| UrlRelations.RelationshipSymmetric | src/capture-modules/analyticsCaptureClassification.ts:496-537 | the relationship of two URLs does not depend on which one is asked about |
| UrlRelations.RelationshipExactly | src/capture-modules/analyticsCaptureClassification.ts:496-537 | which relationship two texts are in, if and only if, over what the parser reads of them |
| UrlRelations.BestIsMostSpecific | src/capture-modules/analyticsCaptureClassification.ts:549-555 | the reported relationship is one some target has and no target beats |
| Evidence.PhysicalPageChangeExactly | src/capture-modules/analyticsCaptureClassification.ts:591-634 | when evidence counts as a page change, if and only if, in terms of its fields and the targets |
| ClickSignals.StateOrClickExactly | src/capture-modules/analyticsCaptureClassification.ts:591-607 | when evidence is virtual page state, form or configurator state, or a click, if and only if, in terms of its fields |
| ClickSignals.PlainExactly | src/capture-modules/analyticsCaptureClassification.ts:609-634 | which of the other three classes everything else has, if and only if, for any targets |
| ClickSignals.RicherExactly | src/capture-modules/analyticsCaptureClassification.ts:692-700 | one record scores above another if and only if it is no auto-event and the other is, or they are alike in that and it has more of the five details |
| ClickSignals.SignalledExactly | src/capture-modules/analyticsCaptureClassification.ts:343-440 | a capture is classified as a click if and only if its records tell of no virtual state and hold a destination, an identifier, the element's text or an interaction's name, under the keys listed |
| ClickSignals.PlaceExactly | src/capture-modules/analyticsCaptureClassification.ts:343-440 | the place and the kind of an event are what the first record that has any holds under the keys listed |
| Evidence.BusinessEventOutranksAutoEvent | src/capture-modules/analyticsCaptureClassification.ts:692-700 | a named business event scores above a tag manager's auto-event whatever else either carries |
| ClickResolution.FindConflict | src/capture-modules/analyticsCaptureClassification.ts:710-722 | the pair loop finds a conflict exactly when two destinations are different destinations |
| ClickResolution.PickRichest | src/capture-modules/analyticsReportingRows.ts:607-622 | the loop keeps the first of the highest-scoring clicks |
| ClickResolution.ResolveClickTag | src/capture-modules/analyticsReportingRows.ts:590-624 | status and primary of a click, from its entries |
| ClickResolution.ClassifyActionAnalyticsCapture | src/capture-modules/analyticsCaptureClassification.ts:806-1027 | the engine's counting loops, gates and best-score loop compute its action status and its primary click, as the next rows characterise it |
| ClickResolution.GatesExactly | src/capture-modules/analyticsCaptureClassification.ts:930-1003 | the engine stops at required consent that was not granted, then at an incomplete capture, and at nothing else |
| ClickResolution.ReportingGatesExactly | src/capture-modules/analyticsReportingRows.ts:590-624 | so do the reporting rows |
| ClickResolution.CapturedExactly | src/capture-modules/analyticsCaptureClassification.ts:893-1027 | an action counts as captured if and only if the gates pass and some item is a click or a change of page or state, or the dataLayer grew without being replaced |
| ClickResolution.UnconfirmedExactly | src/capture-modules/analyticsCaptureClassification.ts:1003-1019 | past the gates an uncaptured action is uncertain with captures and has no tag without any |
| ClickSignals.ResolvedExactly | src/capture-modules/analyticsCaptureClassification.ts:897-950 | over all items read: captured when there is a click and no two clicks conflict, unresolved when two do or there is none and some item is unresolved, otherwise not observed |
| ClickSignals.CapturedBySignals | src/capture-modules/analyticsCaptureClassification.ts:806-950 | past the gates an action's click is captured if and only if some capture of its window signals one and no two that do name different destinations |
| ClickSignals.PrimaryIsRichest | src/capture-modules/analyticsCaptureClassification.ts:925-940 | its primary record is then one of those, and none of them is richer |
| ClickSignals.ReportedBySignals | src/capture-modules/analyticsReportingRows.ts:741-790 | the reporting rows take the click for captured if and only if some event of the window, read alone, signals one and no two that do name different destinations |
| ClickRefinement.DedupeConflicts | src/capture-modules/analyticsReportingRows.ts:558-605 | dropping repeated events neither adds nor removes a destination conflict |
| ClickRefinement.DedupeRichest | src/capture-modules/analyticsReportingRows.ts:558-622 | dropping repeated events leaves the same richest record |
| ClickRefinement.FilterDedupe | src/capture-modules/analyticsReportingRows.ts:743-755 | selecting clicks and dropping repeats commute, since equal identities are classified alike |
| ClickRefinement.ResolveAfterDedupe | src/capture-modules/analyticsReportingRows.ts:743-774 | resolution gives the same status and the same record with or without dropping repeats first |
| ClickRefinement.EntriesMatchItems | src/capture-modules/analyticsReportingRows.ts:433-556 | with one event a capture, the reporting layer reads the engine's items, one a capture, in order |
| ClickRefinement.ReportingRefinesEngine | src/capture-modules/analyticsReportingRows.ts:768-790 | with one event a capture, the reporting layer reports the engine's status and the entry of the engine's primary capture |
| ClickRefinement.EmptyPushDiffers | src/capture-modules/analyticsReportingRows.ts:201-217 | without that condition the layers can differ: a push that holds no object |
| ClickRows.PushEventRows | src/capture-modules/analyticsReportingRows.ts:800-809 | one row a sorted entry is appended, in order |
| ClickRows.BuildRowsForCtaClick | src/capture-modules/analyticsReportingRows.ts:684-811 | the row builder yields the click's row, then candidates, associated and raw events, each group sorted |
| ClickRows.EachEventInOneRow | src/capture-modules/analyticsReportingRows.ts:741-810 | each distinct event of a click's window is named by exactly one of its rows, and no other event is |
| ClickRows.RowsNameEntries | src/capture-modules/analyticsReportingRows.ts:741-810 | the rows of a click name each event as often as the deduplicated window carries it |
| ClickRows.ClickRowNamesEventIffCaptured | src/capture-modules/analyticsReportingRows.ts:773-794 | the click's own row carries an event exactly when its tag status is captured |
| RowMeaning.OwnRowTold | src/capture-modules/analyticsReportingRows.ts:773-794 | its correlation is confirmed when captured, no tag observed when there was none, and otherwise unresolved |
| RowMeaning.ClickRowsTold | src/capture-modules/analyticsReportingRows.ts:743-810 | every other row of a click has the role and the correlation of its event's class |
| RowMeaning.ClickGroupsInOrder | src/capture-modules/analyticsReportingRows.ts:800-809 | candidates, results and raw captures follow one another, each group in the sort order |
| ClickRows.ClickRowsAtStep | src/capture-modules/analyticsReportingRows.ts:684-811 | all rows of a click stand on its step |
| Attribution.PickOwningMarkerIndex | src/capture-modules/analyticsReportingRows.ts:857-881 | the two loops pick the lowest-index nearest URL match, otherwise the last marker at or before the evidence |
| Attribution.OwnerUnique | src/capture-modules/analyticsReportingRows.ts:857-881 | that choice is unique |
| Attribution.MatchExactly | src/capture-modules/analyticsReportingRows.ts:838-842 | a URL matches a page when it is that page's, up to tracking parameters, or of the same origin and path |
| Attribution.FallbackIsLatestExactly | src/capture-modules/analyticsReportingRows.ts:855-880 | with all but the start marker sorted, the fallback is the latest marker at or before the evidence unless the start marker is the latest of them and others are there too |
| Attribution.FallbackOnSortedMarkers | src/capture-modules/analyticsReportingRows.ts:849-880 | fully sorted markers never meet the exception |
| Attribution.StartMarkerCanBeLate | src/capture-modules/analyticsReportingRows.ts:1112-1117 | two markers, as the caller builds them, that do meet it |
| Attribution.AttributeEvidence | src/capture-modules/analyticsReportingRows.ts:1119-1141 | each marker's list holds, in order, exactly the items it owns |
| Attribution.AttributionPartitions | src/capture-modules/analyticsReportingRows.ts:1119-1141 | the markers' lists together with the items on click steps are the whole capture list |
| RowMeaning.MatchedUrls | src/capture-modules/analyticsReportingRows.ts:844-847 | a request is matched by the page, the destination and the virtual page it names, a push by the page it was made on |
| Journey.EntryNames | src/capture-modules/analyticsReportingRows.ts:1168-1181 | the rows of a click or page entry name an event once if its own window holds it, otherwise not at all |
| Journey.EntryRowsAtStep | src/capture-modules/analyticsReportingRows.ts:1168-1181 | every entry contributes rows, all on its own step |
| Journey.BuildAnalyticsReportingRows | src/capture-modules/analyticsReportingRows.ts:1143-1183 | the final loops put the start block first, then entries in step order, numbered |
| Journey.JourneyOrdered | src/capture-modules/analyticsReportingRows.ts:1163-1183 | sequence numbers are 1 to n, the start block leads on the start step, and afterwards the step never falls |
| Journey.EachPageEventInOneRow | src/capture-modules/analyticsReportingRows.ts:901-946 | a page window, where no label can match, names each of its distinct events in exactly one row |
| RowMeaning.ReportedPageRowsTold | src/capture-modules/analyticsReportingRows.ts:936-945 | in a page's window of a report a change of page is a confirmed result and everything else a raw capture, against the page's own targets |
| RowMeaning.PageRowsInOrder | src/capture-modules/analyticsReportingRows.ts:936 | the rows of a page's window stand in the sort order |
| Journey.JourneyNames | src/capture-modules/analyticsReportingRows.ts:1143-1183 | the numbered, sorted journey names an event as often as windows hold it |
| Report.BuildReport | src/capture-modules/analyticsReportingRows.ts:1112-1183 | attribution of both kinds of capture, page windows and the merged journey together give the report, and its rows name exactly the events that the captures hold |
| Report.NamedOncePerWindow | src/capture-modules/analyticsReportingRows.ts:1112-1183 | the whole report has one row naming an event for each window that holds it, and no other |
| Report.HoldsExactly | src/capture-modules/analyticsReportingRows.ts:433-556 | a window holds an event exactly when one of its captures expands to it, that is when it is an object of a push, a request, or a body of a request there |
| LogicalEvents.YieldsExactly | src/capture-modules/analyticsReportingRows.ts:433-556 | a capture is expanded to exactly the events it holds, and to as many: each object of a push, alone or in a bundle, with its place; a request, or each body of one without a name and with several |
| LogicalEvents.ObjectFlattened | src/capture-modules/analyticsReportingRows.ts:201-217 | each object of a push is expanded to the event at its own place in the order |
| LogicalEvents.FlattenedFrom | src/capture-modules/analyticsReportingRows.ts:201-217 | and every event of the expansion comes from such an object |
| Report.CapturedEventsReported | src/capture-modules/analyticsReportingRows.ts:1112-1183 | over the captures themselves: an event is in the report if and only if a capture off the clicks' steps holds it, as part of its page, or a capture in a click's own analytics does |
| Report.PushObjectReported | src/capture-modules/analyticsReportingRows.ts:201-217 | every object of a push off the clicks' steps, alone or in a bundle, has a row with the push's meta and that payload, one row when action ids are distinct |
| Report.RequestBodyReported | src/capture-modules/analyticsReportingRows.ts:433-500 | so has every body of a request without a name of its own and with at least two bodies |
| Report.ReportedExactly | src/capture-modules/analyticsReportingRows.ts:1112-1183 | an event is reported if and only if a capture off the clicks' steps yields it in its owner's window or a capture of a click's own window does |
| Report.ReportedOnce | src/capture-modules/analyticsReportingRows.ts:1112-1183 | when no two windows share an action id, no event is named twice |
| Report.AttributedEventReported | src/capture-modules/analyticsReportingRows.ts:1112-1183 | every event of every capture that is not on a click's step is named by the report, by exactly one row when action ids are distinct |
| Report.ClickEventReported | src/capture-modules/analyticsReportingRows.ts:1163-1183 | so is every event of a click's own window |
| Report.ClickStepJoinsNoPage | src/capture-modules/analyticsReportingRows.ts:1119-1141 | a capture on a click's step joins no page, whatever its URL |
| Report.CaptureCanBeLost | src/capture-modules/analyticsReportingRows.ts:1115-1141 | a request on the step of a click without analytics has events, and no row names them |
| BusinessRequests.SelectedAreBusiness | src/actions/submissionObserver.ts:126-153 | selected requests are never third-party or tracking, all state-changing ones are selected, and something is selected exactly when some request qualifies |
| BusinessRequests.SelectedExactly | src/actions/submissionObserver.ts:126-153 | which requests are selected, if and only if: the site's own state-changing ones, or when there is none its own that serve no other known purpose |
| BusinessRequests.DecisiveExactly | src/actions/submissionObserver.ts:391-392 | the decisive request is the first that was rejected, or without one the first |
| BusinessRequests.GuardMissesExactly | src/actions/submissionObserver.ts:388-396 | over any list of requests the decisive one fails to hold a retry back exactly when there is none, one was rejected, or the first failed unanswered |
| BusinessRequests.LaterBusinessIsUnseen | src/actions/dealerLookupNetwork.ts:407-530 | when the live list held no business request at first, each one found in it later has started or been reclassified since |
| SubmitLoop.LandedPassesGuardExactly | src/actions/fillForm.ts:2185-2196 | every attempt passes the retry guard exactly when the observer saw no business request, a rejected one, or a failed one in front; the requests found later do not count |
| SubmitLoop.SecondClickExactly | src/actions/fillForm.ts:2171-2311 | Submit is clicked a second time if and only if the observer's requests let the first attempt pass and, within two retries, rejected consent groups were all answered and the form is ready, or the dealer or a field is left to correct, or the fallback's conditions hold |
| SubmitLoop.RetryExactly | src/actions/fillForm.ts:2171-2248 | the retry is the one after consent recovery, or the one after a re-fill, each if and only if, over the first attempt, the dealer's state and what the recovery reports |
| SubmitLoop.RejectedConsentNeedsAnswers | src/actions/fillForm.ts:2171-2248 | an uncommitted dealer always warrants the retry that the guard allows; after a rejection of consent groups alone it is made if and only if all of them were answered and readiness holds |
| SubmitLoop.SuccessThenClickExactly | src/actions/fillForm.ts:2106-2248 | after an observation that ended in success Submit is clicked again if and only if a field is left invalid, the observer's requests let it pass and, when consent groups alone were rejected with the dealer committed, all were answered and the form is ready; then the page did not change and the form is still there |
| SubmitLoop.AcceptedThenRejectedIsRetried | src/actions/fillForm.ts:2171-2248 | a whole run: the observer reports 200 and then 422, and Submit is clicked a second time |
| SubmitLoop.LateRequestIsRetried | src/actions/fillForm.ts:2068-2082 | a whole run: a request starts after the observer's last reading, and Submit is clicked a second time |
| SubmitLoop.LateRequestMeetsFallback | src/actions/fillForm.ts:2260-2305 | the same on a page that stayed still for the full hard cap: the fallback clicks |
| SubmitLoop.ConfirmedIsRetried | src/actions/fillForm.ts:2106-2246 | a whole run: the page confirms, one field stays invalid, and Submit is clicked a second time |
| SubmissionObserver.AnswersAloneNeverSucceed | src/actions/submissionObserver.ts:534-542 | while the form stays and nothing on the page speaks of success, no run succeeds, whatever the requests are answered |
| SubmissionObserver.DeadlineBounds | src/actions/submissionObserver.ts:370-499 | the deadline never falls, never passes the hard cap, and is extended at most ceil((cap - base) / extension) times |
| SubmissionObserver.DefaultWindows | src/actions/submissionObserver.ts:16-18 | with the default windows at most three extensions, and never past 75 seconds |
| SubmissionObserver.UnknownIsLate | src/actions/submissionObserver.ts:479-497 | giving up never comes before the base window is over |
| SubmissionObserver.TurnAdvances | src/actions/submissionObserver.ts:479-498 | a turn that goes on is before the cap and the next comes later, so the observation ends |
| SubmissionObserver.ReadTurn | src/actions/submissionObserver.ts:422-477 | one turn's tests in order give the decisive signal, if any, and success comes with its evidence |
| SubmissionObserver.VerdictExactly | src/actions/submissionObserver.ts:422-477 | as what a turn ends the observation, each if and only if: over the page's notices and signs of success, the answer's status code, invalid fields and a challenge |
| SubmissionObserver.ChallengeIsLookedFor | src/actions/submissionObserver.ts:470-477 | a challenge is looked for in every turn more than two seconds after the one before |
| SubmissionObserver.SignalsExactly | src/actions/submissionObserver.ts:534-542 | each sign of success is reported if and only if it was there |
| SubmissionObserver.ProgressExtends | src/actions/submissionObserver.ts:413-421 | while a request is pending, the control disabled, something loading, the page changing or the form being replaced, giving up waits for the hard cap, and a deadline moves by the extension |
| SubmissionObserver.RunTurns | src/actions/submissionObserver.ts:423-499 | the loop always ends, at the first turn that decides or whose deadline is past and may not be extended, with the extensions, signals and snapshot of that turn |
| SubmissionObserver.ObserveSubmissionOutcome | src/actions/submissionObserver.ts:363-532 | the observation is the report of that turn; the outcome is unknown exactly when nothing decided, and the report has all that its readers rely on |
| SubmissionObserver.ReportedHolds | src/actions/submissionObserver.ts:500-532 | success is reported exactly with signals, an unknown outcome never before the base window, and the reported request is the decisive one of the last reading |
| SubmissionObserver.ReportedExactly | src/actions/submissionObserver.ts:500-532 | form, control, progress, time and success of the report, in terms of the last page seen |
| SubmissionObserver.RequestReported | src/actions/submissionObserver.ts:383-404 | a business request is reported exactly when one is among the requests read last |
| SubmissionObserver.ObserveStillPage | src/actions/submissionObserver.ts:363-532 | on a page where nothing happens the observation waits out the base window and ends unknown, under every sound configuration |
| SubmitPlan.NeverReachedExactly | src/actions/submitAttemptPlan.ts:34-53 | an attempt counts as never having reached the site if and only if it was clicked and observed with no business request, nothing decisive and no validation cause |
| SubmitPlan.OutcomeExactly | src/actions/submitAttemptPlan.ts:34-53 | how an observed attempt without success is classified, if and only if, for each class |
| SubmitPlan.TenGuardsDecide | src/actions/submitAttemptPlan.ts:39-118 | of the fourteen guards ten decide; the other four follow from what the observer guarantees |
| SubmitLoop.RetryLoop | src/actions/fillForm.ts:2171-2248 | the loop, whatever its second turn meets, makes exactly the one retry that the first attempt warrants, after consent recovery only when every rejected group was answered and readiness holds, and none after a request that was pending or answered below 400 |
| SubmitLoop.FallbackRunsExactly | src/actions/submitAttemptPlan.ts:79-118 | the fourteen guards and the opt-in hold if and only if the first attempt stayed silent for the full cap, as the observer saw it, and the form is still sendable |
| SubmitLoop.RunSubmit | src/actions/fillForm.ts:2145-2311 | Submit is clicked at most twice on every run; whether the second click is a consent retry, a re-fill or the fallback, each if and only if, in terms of the first attempt and the page; a second click only past the guard on the observer's requests, and if the observer saw none, all that was found later is unseen; a fallback only after an attempt that was silent for the full hard cap |
| TaskRecords.UpdateStamps | src/api/redisTaskStore.ts:71-98 | every stored record is stamped with the time of storing |
| TaskRecords.OnlyCreateMakesRunning | src/api/inMemoryTaskStore.ts:21-76 | taken as one step, no operation but createRun makes a record running |
| TaskStores.InMemoryTaskStore.CreateRun | src/api/inMemoryTaskStore.ts:22-38 | the map after the operation, and the record returned |
| TaskStores.InMemoryTaskStore.GetRun | src/api/inMemoryTaskStore.ts:40-49 | the map after lazy expiry or stale detection; an answer exactly while the record lives, stale if and only if it was before or had been running and idle past the threshold, with the reason the owner decides |
| TaskStores.InMemoryTaskStore.CompleteRun | src/api/inMemoryTaskStore.ts:51-57 | the map after the operation, expired or not |
| TaskStores.InMemoryTaskStore.FailRun | src/api/inMemoryTaskStore.ts:59-65 | the map after the operation, expired or not |
| TaskStores.InMemoryTaskStore.Heartbeat | src/api/inMemoryTaskStore.ts:67-75 | only a running record is touched |
| TaskStores.RedisTaskStore.CreateRun | src/api/redisTaskStore.ts:46-58 | the keyed store after the write, and the record returned |
| TaskStores.RedisTaskStore.GetRun | src/api/redisTaskStore.ts:60-69 | the same answers from the keyed store; it writes back only a newly detected stale record, with a fresh lifetime |
| TaskStores.RedisTaskStore.CompleteRun | src/api/redisTaskStore.ts:71-78 | read, then write with a fresh lifetime, or nothing |
| TaskStores.RedisTaskStore.FailRun | src/api/redisTaskStore.ts:80-87 | read, then write with a fresh lifetime, or nothing |
| TaskStores.RedisTaskStore.Heartbeat | src/api/redisTaskStore.ts:89-98 | only a running record is written back |
| StoreSimulation.StepSimulates | src/api/inMemoryTaskStore.ts:14-77 | one operation gives the same answer on both backends and keeps them alike if and only if it does not hit an expired record |
| StoreSimulation.BackendsAnswerAlike | src/api/redisTaskStore.ts:34-99 | for every run of calls under a nondecreasing clock that never hits an expired record, both backends answer alike call by call |
| StoreSimulation.ExpiredWriteTellsApart | src/api/inMemoryTaskStore.ts:51-75 | a write that does hit one makes the next getRun answer differently |
| RunLifetimes.BeatingRunsStayRunning | src/api/staleDetection.ts:12-28 | on both backends, from createRun on and until the run is completed, failed or created again: while heartbeats and readings come within the threshold and the lifetime of the last stamp, every getRun answers running |
| RunLifetimes.IdleRunsStayStale | src/api/staleDetection.ts:16-28 | a running record asked for past the threshold is answered as stale from then on; no heartbeat brings it back |
| RunLifetimes.EndedRunsStayEnded | src/api/inMemoryTaskStore.ts:40-75 | a live run that is completed or failed is answered with the same result or error until its lifetime has passed, then with nothing |
| RedisInterleaving.CompletedStaysExactly | src/api/redisTaskStore.ts:60-98 | in every interleaving a completed record stays completed with its result if and only if nothing in flight will store something else |
| RedisInterleaving.CompletedStaysWhenAlone | src/api/redisTaskStore.ts:71-78 | so it does when no other operation is between its read and its write as completeRun writes |
| RedisInterleaving.HeartbeatUndoesCompletion | src/api/runner.ts:110-197 | a trace in which a heartbeat sets a completed record back to running without its result |
| RedisInterleaving.RunningNeedsCreate | src/api/redisTaskStore.ts:46-98 | once nothing stored or in flight is running, only createRun can make a record running, in any interleaving |
| Admission.ConcurrencyLimiter.TryAcquire | src/api/concurrencyLimiter.ts:24-30 | a slot is taken exactly when one is free |
| Admission.ConcurrencyLimiter.Release | src/api/concurrencyLimiter.ts:31-33 | one slot is given back, clamped at zero |
| Admission.StepCounted | src/api/server.ts:133-144 | each step of a request keeps the counter equal to creates in progress, runs executing and rejected creates, at most the maximum |
| Admission.AdmittedExactly | src/api/server.ts:133-137 | a request is admitted if and only if fewer slots than the maximum are held |
| Admission.AlwaysCounted | src/api/server.ts:133-144 | so in every interleaving, and release never meets its zero clamp |
| Admission.RejectedCreatesKeepSlots | src/api/server.ts:139-144 | slots taken by rejected creates are never given back in any run |
| ResourceRouting.Routing.RegisterPage | src/api/browserResourceRouting.ts:171-229 | a known page only has the duplicate noted, a new one starts with empty tallies |
| ResourceRouting.Routing.RouteRequest | src/api/browserResourceRouting.ts:249-278 | exactly the page's own tally, registered late if need be, or the unattributed one counts the request |
| ResourceRouting.Routing.OnResponse | src/api/browserResourceRouting.ts:171-229 | measured bytes go to the page's own tally for allowed types only |
| ResourceRouting.Routing.OnClose | src/api/browserResourceRouting.ts:171-229 | the page's state moves to the finalized list as it is |
| ResourceRouting.Routing.Detach | src/api/browserResourceRouting.ts:320-337 | pages still open are finalized without being marked closed |
| ResourceRouting.Routing.Diagnostics | src/api/browserResourceRouting.ts:283-309 | run totals equal, type by type, what the whole history amounts to |
| ResourceRouting.TalliedCountsRequests | src/api/browserResourceRouting.ts:266-274 | images, media and fonts are all blocked and everything else all allowed: the history's totals are the requests routed, and the allowed bytes are all the bytes measured for the type |
| ResourceRouting.EstimateIsSum | src/api/browserResourceRouting.ts:71-79 | the run-level estimate of blocked bytes is the sum of the page-level ones and the unattributed one |
| Tallies.AddTo | src/api/browserResourceRouting.ts:62-69 | finding or adding the type's tally raises that type by the amount and no other |
| DomTree.MeasureHops | src/actions/dealerLookup.ts:294-316 | the two upward walks, bounded by the form, measure the links through the meeting element, which exists |
| DomTree.MeetIsLowest | src/actions/dealerLookup.ts:294-304 | the element where the first walk stops is the lowest common ancestor |
| DomTree.HopsIsDistance | src/actions/dealerLookup.ts:294-316 | the hop count is the length of a path through the tree and no path is shorter |
| TriggerAssociation.AssociateField | src/actions/dealerLookup.ts:271-331 | the first field whose id the trigger's aria-controls or aria-owns names, or whose aria-describedby names the trigger's, wins outright; otherwise the first of the least-scoring accepted fields |
| TriggerAssociation.AcceptedExactly | src/actions/dealerLookup.ts:138-144 | a field is accepted at most twenty links of the shortest path and 600 px away, and scores 600 a link and one a pixel |
| TriggerAssociation.FewestHopsExactly | src/actions/dealerLookup.ts:138-144 | the winner has the fewest hops of all accepted fields if and only if no field at 0 px ties with only later, one-hop-nearer fields at the cutoff |
| TriggerAssociation.OneHopCanLose | src/actions/dealerLookup.ts:138-144 | a form with that tie |
| TriggerAssociation.DebugPass | src/actions/dealerLookup.ts:339-424 | the diagnostic pass, which knows the answer only by its id, describes every pair |
| TriggerAssociation.AssociateAndExplain | src/actions/dealerLookup.ts:271-424 | a pair is marked the winner exactly when some pair is accepted; it is one, accepted, with the least final score |
| TriggerAssociation.ClaimPass | src/actions/fillForm.ts:735-739 | one pass gives each field still free its first claiming trigger |
| TriggerAssociation.ChooseTriggers | src/actions/fillForm.ts:732-754 | after both passes a field has the first trigger with lookup wording, or the first of any when there is none |
| StageWait.DeadlineWithinMaximum | src/actions/dealerLookup.ts:757-784 | the deadline never falls, lies between the base window and the maximum, and moves only by an extension |
| StageWait.StageWindows | src/actions/dealerLookup.ts:49-56 | a stage waits six seconds, at most nine when extended |
| StageWait.ExtendsOnce | src/actions/dealerLookup.ts:768-777 | at most one turn of a wait extends it |
| StageWait.TurnAdvances | src/actions/dealerLookup.ts:764-783 | a turn that goes on is before the maximum, so the wait ends within its maximum and one poll |
| StageWait.WorkExtends | src/actions/dealerLookup.ts:768-781 | the first deadline that passes while something is loading or pending, before the maximum, is moved by the extension; any other ends the wait |
| StageWait.PollForStageResult | src/actions/dealerLookup.ts:757-784 | the wait ends at the first result or the first unextendable deadline, never before the base window, and reports what it saw pending |
| StageWait.ClickStageResult | src/actions/dealerLookup.ts:969-992 | at most four presses, each but the last on an element that had gone: a click that landed is never repeated |
| DealerLadder.TypeValue | src/actions/dealerLookup.ts:1621-1650 | keys are typed first, the value is set directly only when that failed or was not kept |
| DealerLadder.Follow | src/actions/dealerLookup.ts:1656-1663 | after an observation its result is taken, or its activity starts a full wait at once |
| DealerLadder.Activate | src/actions/dealerLookup.ts:1652-1716 | the steps taken are a prefix of arrow key, Enter, Tab and, where there is a trigger not ruled out, its click; all of them without a result or a reported skip; activity hands over to a full wait at once; no step follows a wait that ended pending or with loading visible |
| DealerOutcome.SelectDealer | src/actions/dealerLookup.ts:1902-1930 | one or two dealer clicks, the second only when the first committed nothing and a further result came |
| DealerOutcome.Select | src/actions/dealerLookup.ts:1813-2035 | location click, at most one confirm, the dealer stage, and an outcome that says no more than the page showed; without a dealer click, unverified, a selectable result no control confirmed counts as the dealer and anything else as a location |
| DealerOutcome.FirstStage | src/actions/dealerLookup.ts:1621-1720 | without a result some full wait has run |
| DealerOutcome.ResolveDealerLookup | src/actions/dealerLookup.ts:1503-2035 | every run's event log is input, a prefix of the ladder, at most one location click, one confirm and two dealer clicks; unresolved exactly when unverified; the evidence label names a signal that held |
| DealerOutcome.CommittedLocationUnresolvedExactly | src/actions/dealerLookup.ts:1902-1957 | after a committed location the lookup ends unresolved if and only if a dealer was clicked and the last dealer click committed nothing |
| DealerOutcome.LookupOnForgetfulPage | src/actions/dealerLookup.ts:1813-1957 | a run, in either mode, on a page where that happens |
| XmlStructure.StreamTaken | src/actions/dealerLookupNetwork.ts:237-285 | walking the tags of any element adds exactly its tree's counts, non-leaf names and error names for the three depths, and leaves the stack as it was |
| XmlStructure.StreamAllTaken | src/actions/dealerLookupNetwork.ts:237-285 | the same for any list of siblings |
| XmlStructure.TallyCounts | src/actions/dealerLookupNetwork.ts:278-282 | a level's count map gives each name's number of elements and nothing else |
| XmlStructure.AnalysisOfTree | src/actions/dealerLookupNetwork.ts:237-305 | for the tags of every tree: the root's name, the record count as the largest group of like-named elements with children below the root or its single wrapper, the first-met name among equals, and the error signal |
| XmlStructure.WrapperMeansOneChild | src/actions/dealerLookupNetwork.ts:296 | the wrapper test on the counts is that the root has exactly one child |
| XmlStructure.RecordCountAt | src/actions/dealerLookupNetwork.ts:288-294 | the loop over a count map keeps the first most frequent record name |
| XmlScanner.AnalyzeXmlStructure | src/actions/dealerLookupNetwork.ts:237-305 | the loop over the pattern's matches and the record choice compute the analysis of the walk over the tags found |
| XmlScanner.ScanRendered | src/actions/dealerLookupNetwork.ts:243-251 | in every document text each tag whose name the pattern can begin is found once, in order, with the part of the name it knows, and ends at its first `>` |
| XmlScanner.ScannedExactly | src/actions/dealerLookupNetwork.ts:243-251 | for every document text, whatever its names: the tags found are its own if and only if the pattern knows every name and each tag, up to its first `>`, ends in a slash exactly when it closes itself |
| XmlScanner.AnalysisOfDocument | src/actions/dealerLookupNetwork.ts:225-313 | then the analysis of the text describes the tree it is written for |
| XmlScanner.RecordCanBeMissed | src/actions/dealerLookupNetwork.ts:243-305 | a list with one record is analysed as holding none when an attribute of the record holds `"/>"` |
| XmlScanner.ForeignRecordMissed | src/actions/dealerLookupNetwork.ts:243-305 | so is one whose record has a name that begins with a character the pattern does not know |
| NetworkCapture.Capture.OnRequest | src/actions/dealerLookupNetwork.ts:438-473 | a request not taken for tracking is dropped only at 200 entries, of which at least 120 were not tracking when they started |
| NetworkCapture.Capture.OnResponse | src/actions/dealerLookupNetwork.ts:475-503 | an answer settles its request once, and changes no other entry |
| NetworkCapture.Capture.OnStructureRead | src/actions/dealerLookupNetwork.ts:491-501 | reading the body may reclassify the request and changes nothing else |
| NetworkCapture.Capture.OnRequestFailed | src/actions/dealerLookupNetwork.ts:505-511 | a failure settles its request once, and changes no other entry |
| NetworkCapture.Capture.Stop | src/actions/dealerLookupNetwork.ts:544-565 | kept plus omitted equals everything observed |
| NetworkCapture.KeptBounds | src/actions/dealerLookupNetwork.ts:553-557 | at most twelve in start order; a non-tracking request is left out only when twelve others are kept and no tracking one is |
| NetworkCapture.FewTrackingKept | src/actions/dealerLookupNetwork.ts:555-557 | at most three tracking requests are kept |
| NetworkCapture.EarlyOnesKept | src/actions/dealerLookupNetwork.ts:553-557 | the first twelve non-tracking requests are kept, and of the first three tracking ones as many as there is room for |
| NetworkCapture.KeptExactly | src/actions/dealerLookupNetwork.ts:553-557 | how many of either kind are kept |

## Left out

- JSON, percent-encoding and URL parsing are functions with laws (RFC 8259; section 2.1 of RFC 3986; the WHATWG URL rules for paths that start with two slashes). The codec of `CodecWitness` obeys the laws; its JSON has a notation of its own, and of path normalisation it knows leading dot segments only.
- Strings are well-formed Unicode; `encodeURIComponent` throwing on a lone surrogate is not modelled.
- Numbers in values are their printed texts; which texts those are is a predicate of the codec.
- The sensitive-key patterns, the tracking and lookup vocabularies, label normalisation and lower-casing are uninterpreted predicates and functions.
- The adoption status added to the n8n rows.
- SHA-256 in event ids is taken as injective: an id is the identity it is computed from.
- The evidence fields copied onto reporting rows, and correlation sources; a row keeps what says which event it is.
- The trigger segment, the classification reason and the extracted location fields of the engine's classification.
- Redis drops a key strictly after its lifetime and shares one clock with the store; the interleaving model follows one run id and fixes what an operation will store when it reads.
- `createRun` gets a fresh run id from the server; HTTP parsing, authentication and validation before admission are not modelled.
- Readings of one poll are grouped: the clock may move between them, the page does not.
- Consent recovery and the rerun dealer search enter the Submit loop as their reported results.
- The dealer-search retries before the first Submit (`src/actions/fillForm.ts:1783-1792`) only lower the retry budget, which is an input.
- Routing errors, navigation counts, context ids and stub bodies of the resource routing.
- The response bodies behind the request evidence, and the vocabulary that classifies a request's purpose.
- Stripping comments, CDATA, processing instructions and the document type, name sanitizing and the list of recurring names in the XML analysis; the scanner is given the stripped text.
- Pixel distances and scores are exact reals. In floating point 599.9999999999999 px and seventeen hops also round to the tie at the cutoff.
- The late-result observation, the failure explanation and the step records of the dealer lookup, which do not feed back into it.
- The trigger's own click scope marking in `tagAndFindLookupTriggers`, after the field has been chosen.
- StageWait.PollForStageResult: bounds every turn but the last by the maximum; how long one poll itself takes is up to the page.
- Browser actions, page readers, form scoring, fill planning, and the small pure helpers of the engine, which would add only easy members.
