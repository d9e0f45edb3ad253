# Simple.OData.Client engine core, modelled in Dafny

This project models the core of the Simple.OData.Client engine and proves properties of the model. It takes a component at a time.

- **Response tree builder** (`ResponseReaderBase`, in `response_reader_base.dfy`)
  - A stack of response nodes, driven by feed, entry and navigation-link start and end events, builds nested entry dictionaries.
  - Link values that are empty dictionaries become null.
  - A per-link annotations key is added when annotations are on.
  - Batch replay hands each queued action its sub-response in order and stops at the first failure.
- **Response envelope** (`ODataResponse`, in `odata_response.dfy`)
  - Each factory fills one variant: entries, entry, batch, or status and exception.
  - The projections `AsEntries`, `AsEntry`, `AsScalar` and `AsArray`.
  - The `__result` wrapper unwrap, decided by the first entry only.
- **V3 response reader** (`ResponseReader` of the V3 adapter, in `v3_response_reader.dfy`)
  - Payload-kind dispatch precedence.
  - The sticky `hasResponse` field.
  - The batch, collection and entry/feed reading loops.
  - Entry conversion with annotations.
  - The recursive conversion of complex and collection values.
- **Client internals** (`ODataClient.Internals`, in `client_internals.dfy`)
  - The key check.
  - The re-fetch key rebuilt after an update.
  - The result policy of a request: batch placeholder, 204, GET versus result required, and ignored NotFound.
  - The insert follow-up lookup.
  - The swallowed re-fetch and unlink calls after an update.
  - Link, unlink, delete, function and action.
  - The bulk update and delete iterations.
  - In-place removal of system properties.
- **Metadata cache** (`MetadataCache`, in `metadata_cache.dfy`)
  - The resolved and unresolved states, with `Clear` and both `SetMetadataDocument` overloads.
  - The registry of caches per service URI, with `ClearAll`.
  - The protocol versions taken from a version header.
  - The protocol version read from a metadata document.
- **Session** (`Session`, in `session.dfy`)
  - Construction: the missing-URI error and cache sharing.
  - The adapter, created at most once.
  - Metadata taken from the settings' document when there is one, otherwise from one request.
  - The HTTP connection, created once and released by `Dispose`.
  - The payload format resolved from the adapter.

Shared values are in `values.dfy`:
- The dynamic `object` values stored in result dictionaries.
- Dictionaries as insertion-ordered pairs: `Add` fails on a duplicate key, like `Dictionary.Add`.
- Annotation records, the errors as .NET exception kinds, and the fixed literals `__result`, `__annotations` and `__resourcetype`.

The OData library's readers are replaced by data:
- a set of detected payload kinds;
- a sequence of reader events per reader;
- batch operation messages;
- a parsed XML document given as its root node and the nodes after it.

HTTP replies, thrown exceptions and the results of nested calls are inputs. The calls the client would make (requests, look-ups, re-fetches, unlinks) are outputs, so their number and order can be stated.

Two behaviours are easy to get wrong, and the model follows the code in both:
- **Protocol version override.** `GetMetadataProtocolVersion` inspects only the first element after the root and then stops. It does not take the maximum over all later elements.
- **Missing `Version` attribute.** A document whose root has no `Version` attribute yields a null version rather than an error. An error is raised only when the document cannot be read.

## Model

| member | source | states |
|---|---|---|
| ODataResponses.FromFeed | Simple.OData.Client.Core/ODataResponse.cs:81-88 | the response holds exactly the given entries and annotations; entry, batch, status and exception stay at their defaults |
| ODataResponses.FromEntry | Simple.OData.Client.Core/ODataResponse.cs:90-96 | only the entry is set; every other field is default |
| ODataResponses.FromCollection | Simple.OData.Client.Core/ODataResponse.cs:98-104 | one single-key dictionary `{__result: x}` per collection value, same count and order; nothing else set |
| ODataResponses.FromBatch | Simple.OData.Client.Core/ODataResponse.cs:106-112 | only the batch is set |
| ODataResponses.FromStatusCode | Simple.OData.Client.Core/ODataResponse.cs:114-121 | only status code and exception are set, to the arguments |
| ODataResponses.FromStatusCodeAndStream | Simple.OData.Client.Core/ODataResponse.cs:123-141 | status always recorded; an exception carrying status and body exists if and only if status >= 400 |
| ODataResponses.ExtractDictionary | Simple.OData.Client.Core/ODataResponse.cs:143-155 | a one-key `__result` dictionary whose value is a dictionary is unwrapped to that value; anything else is returned unchanged |
| ODataResponses.AsEntries | Simple.OData.Client.Core/ODataResponse.cs:27-41 | with entries: unwrap every entry if and only if the first contains `__result`, else the entries unchanged; without entries: the unwrapped entry, or nothing |
| ODataResponses.AsEntry | Simple.OData.Client.Core/ODataResponse.cs:48-55 | null exactly when `AsEntries` is empty, otherwise its first element |
| ODataResponses.AsScalar | Simple.OData.Client.Core/ODataResponse.cs:62-71 | the default for no entry, an empty entry or a null first value; else the converted first value |
| ODataResponses.AsArray | Simple.OData.Client.Core/ODataResponse.cs:73-79 | one element per value across `AsEntries`; the k-th value of the j-th entry, converted, sits right after the values of the entries before it |
| ODataResponses.AllValuesLength | Simple.OData.Client.Core/ODataResponse.cs:73-79 | the flattened values number the sum of the entries' sizes |
| ODataResponses.AllValuesAt | Simple.OData.Client.Core/ODataResponse.cs:73-79 | flattening the entries puts the k-th value of the j-th entry right after the values of the entries before it |
| ODataResponses.AllValuesIndex | Simple.OData.Client.Core/ODataResponse.cs:73-79 | the same placement, for every entry and value at once, with the flattened length |
| ODataResponses.ExtractUnwraps | Simple.OData.Client.Core/ODataResponse.cs:143-155 | wrapping a dictionary under `__result` and extracting gives it back |
| ODataResponses.CollectionEntries | Simple.OData.Client.Core/ODataResponse.cs:29-34 | `AsEntries` of a collection response has one element per value, the value itself when it is a dictionary, else the wrapper |
| ODataResponses.CollectionArray | Simple.OData.Client.Core/ODataResponse.cs:73-79 | `AsArray` of a collection of non-dictionaries is the converted collection |
| ODataResponses.WrappedValues | Simple.OData.Client.Core/ODataResponse.cs:98-104 | the values of the wrapper dictionaries are the collection, in order |
| ODataResponses.CollectionScalar | Simple.OData.Client.Core/ODataResponse.cs:62-71 | `AsScalar` of a one-value collection is that value converted, or the default for null |
| ODataResponses.FeedEntries | Simple.OData.Client.Core/ODataResponse.cs:29-34 | a feed whose first entry has no `__result` is returned as given; `AsEntry` is its head |
| ODataResponses.EntryEntries | Simple.OData.Client.Core/ODataResponse.cs:35-40 | an entry response gives the one unwrapped entry |
| ODataResponses.StatusAndBatchHaveNoEntries | Simple.OData.Client.Core/ODataResponse.cs:35-40 | status and batch responses have no entries |
| ResponseReaderBase.EndAnnotations | Simple.OData.Client.Core/Adapter/ResponseReaderBase.cs:67-71 | the end-event annotations when the frame has none, else the frame's merged with them |
| ResponseReaderBase.FeedEnded | Simple.OData.Client.Core/Adapter/ResponseReaderBase.cs:65-84 | the stack shrinks by one; with a parent left, only its feed and annotations change, to the popped frame's; otherwise the popped frame is the root |
| ResponseReaderBase.AttachEntry | Simple.OData.Client.Core/Adapter/ResponseReaderBase.cs:101-104 | a parent with a feed gets the entry appended; otherwise its entry is replaced |
| ResponseReaderBase.EntryEnded | Simple.OData.Client.Core/Adapter/ResponseReaderBase.cs:94-110 | fails exactly when conversion fails; else the stack shrinks by one and the converted entry goes to the parent, or becomes the root |
| ResponseReaderBase.Normalised | Simple.OData.Client.Core/Adapter/ResponseReaderBase.cs:126-128 | an empty dictionary becomes null; any other value is kept |
| ResponseReaderBase.LinkEnded | Simple.OData.Client.Core/Adapter/ResponseReaderBase.cs:120-133 | pops the link frame and changes only the parent's entry, by the link's pairs; fails exactly when one of those keys is already present |
| ResponseReaderBase.LinkAnnotationsKeyIsNew | Simple.OData.Client.Core/Adapter/ResponseReaderBase.cs:131-132 | the annotations key of a link never equals the link's name |
| ResponseReaderBase.LinkPairsCases | Simple.OData.Client.Core/Adapter/ResponseReaderBase.cs:124-132 | a null link value adds no link key; a non-null one is stored normalised; the annotations key is added exactly when annotations are on and the frame has feed annotations |
| ResponseReaderBase.Nest | Simple.OData.Client.Core/Adapter/ResponseReaderBase.cs:56-133 | the handlers' frame discipline keeps the stack of frame kinds properly nested |
| ResponseReaderBase.StartFeed | Simple.OData.Client.Core/Adapter/ResponseReaderBase.cs:56-63 | pushes exactly one frame with an empty feed and the given annotations |
| ResponseReaderBase.EndFeed | Simple.OData.Client.Core/Adapter/ResponseReaderBase.cs:65-84 | stack and root become `FeedEnded` of the old ones |
| ResponseReaderBase.StartEntry | Simple.OData.Client.Core/Adapter/ResponseReaderBase.cs:86-92 | pushes exactly one frame with an empty entry |
| ResponseReaderBase.EndEntry | Simple.OData.Client.Core/Adapter/ResponseReaderBase.cs:94-110 | stack and root become `EntryEnded` of the old ones, or the conversion error is thrown |
| ResponseReaderBase.StartNavigationLink | Simple.OData.Client.Core/Adapter/ResponseReaderBase.cs:112-118 | pushes exactly one frame holding the link name |
| ResponseReaderBase.EndNavigationLink | Simple.OData.Client.Core/Adapter/ResponseReaderBase.cs:120-133 | the stack becomes `LinkEnded` of the old one, or the duplicate-key error is thrown |
| ResponseReaderBase.AssignBatchActionResults | Simple.OData.Client.Core/Adapter/ResponseReaderBase.cs:23-52 | the actions invoked and the exception thrown are those of the `Replay` specification |
| ResponseReaderBase.ReplayInvokesInOrder | Simple.OData.Client.Core/Adapter/ResponseReaderBase.cs:27-31 | invoked actions are in increasing index order, each with an in-range response, and every earlier in-range response was a success |
| ResponseReaderBase.ReplayStopsAtFailure | Simple.OData.Client.Core/Adapter/ResponseReaderBase.cs:33-51 | when an action has an in-range failing response, replay throws and invokes no action at or after it; when every earlier action with a response was served, it throws that response's exception (or the status error) |
| ResponseReaderBase.ReplayCompletes | Simple.OData.Client.Core/Adapter/ResponseReaderBase.cs:27-52 | a replay that throws nothing invoked exactly the actions with an in-range response, each response a success and each action passing |
| V3ResponseReader.DispatchOf | Simple.OData.Client.V3.Adapter/ResponseReader.cs:45-102 | precedence: Error, then Value (unsupported with Collection), then Batch, Feed, Collection, Property; all else to the entry reader, each case an if-and-only-if |
| V3ResponseReader.PropertyValue | Simple.OData.Client.V3.Adapter/ResponseReader.cs:282-298 | a primitive value is returned unchanged |
| V3ResponseReader.ComplexValueConversion | Simple.OData.Client.V3.Adapter/ResponseReader.cs:284-288 | a complex value becomes the dictionary of its property names and converted values, failing on a duplicate name |
| V3ResponseReader.CollectionValueConversion | Simple.OData.Client.V3.Adapter/ResponseReader.cs:289-293 | a collection value becomes the list of its converted items, in order |
| V3ResponseReader.AddProperties | Simple.OData.Client.V3.Adapter/ResponseReader.cs:213-216 | adds every property with its converted value, in order; fails exactly when a name repeats or a value fails to convert |
| V3ResponseReader.ItemValues | Simple.OData.Client.V3.Adapter/ResponseReader.cs:291-292 | converts every item, keeping count and order; fails exactly when one fails |
| V3ResponseReader.FeedAnnotationsOf | Simple.OData.Client.V3.Adapter/ResponseReader.cs:227-237 | the feed's id, count, delta link, next-page link and instance annotations |
| V3ResponseReader.MediaAnnotationsOf | Simple.OData.Client.V3.Adapter/ResponseReader.cs:271-280 | null exactly for a null stream reference; else its four fields |
| V3ResponseReader.EntryAnnotationsOf | Simple.OData.Client.V3.Adapter/ResponseReader.cs:239-269 | id, read link and edit link only for a type with an id, null otherwise; type name, ETag, association links, instance annotations and media annotations always |
| V3ResponseReader.LastSegment | Simple.OData.Client.V3.Adapter/ResponseReader.cs:220 | the suffix of the type name after its last dot, the whole name without one |
| V3ResponseReader.Annotate | Simple.OData.Client.V3.Adapter/ResponseReader.cs:217-223 | adds `__resourcetype` (the last dot-separated segment of the type name) then `__annotations` to the entry; succeeds exactly when the entry has neither key, and otherwise fails with the duplicate key of the first `Add` that throws |
| V3ResponseReader.ConvertEntry | Simple.OData.Client.V3.Adapter/ResponseReader.cs:208-225 | a null entry leaves the dictionary unchanged; otherwise every property is added, and with annotations on and a type name, the resource type and annotations too; in that case the conversion succeeds exactly when every property is added and the result holds neither annotation key |
| V3ResponseReader.UntilCompleted | Simple.OData.Client.V3.Adapter/ResponseReader.cs:170-173 | the longest prefix of the reader's states before `Completed` |
| V3ResponseReader.KindsAfter | Simple.OData.Client.V3.Adapter/ResponseReader.cs:175-200 | each reader state keeps the stack of frame kinds nested |
| V3ResponseReader.Step | Simple.OData.Client.V3.Adapter/ResponseReader.cs:175-200 | each reader state applied to its base handler keeps every frame matching its kind and the root a feed or entry frame |
| V3ResponseReader.Run | Simple.OData.Client.V3.Adapter/ResponseReader.cs:170-201 | the loop over reader states keeps frame shapes and the root shape |
| V3ResponseReader.Finish | Simple.OData.Client.V3.Adapter/ResponseReader.cs:203-205 | a root with a feed gives a feed response with its annotations, otherwise an entry response; no root throws a null reference |
| V3ResponseReader.CollectionFrom | Simple.OData.Client.V3.Adapter/ResponseReader.cs:143-160 | the converted Value items up to `Completed`, in order; fails exactly when one fails to convert |
| V3ResponseReader.CollectionResponse | Simple.OData.Client.V3.Adapter/ResponseReader.cs:139-163 | a collection response of those items |
| V3ResponseReader.PropertyResponse | Simple.OData.Client.V3.Adapter/ResponseReader.cs:81-97 | `hasResponse` after the call is the old one or whether the value is neither null nor empty text; with it set, a one-entry feed mapping the property name (or `__result`) to the converted value, or the conversion's error; without it, an empty feed |
| V3ResponseReader.ResponseOf | Simple.OData.Client.V3.Adapter/ResponseReader.cs:33-104 | `hasResponse` never goes back to false and becomes true when a non-Property kind is detected; an Error kind gives the status code alone; a Value kind gives the text under `__result`, or NotImplemented alongside a Collection kind; then batch, feed, collection and property each give their own reader's response; anything else is read as an entry |
| V3ResponseReader.BatchResponse | Simple.OData.Client.V3.Adapter/ResponseReader.cs:106-137 | one sub-response per operation in order, ignoring change-set states; 204 is status only and >= 400 is status with an exception |
| V3ResponseReader.BatchFrom | Simple.OData.Client.V3.Adapter/ResponseReader.cs:110-134 | the sub-responses from one batch state on, classified the same way |
| V3ResponseReader.OperationResponse | Simple.OData.Client.V3.Adapter/ResponseReader.cs:116-129 | one operation's sub-response matches its status (204: status only; 400 or more: status and body) and succeeds without a read in those cases; any other status gives exactly the operation's message read as a response without annotations; `hasResponse` never goes back to false |
| V3ResponseReader.ResponseReader.GetResponse | Simple.OData.Client.V3.Adapter/ResponseReader.cs:33-104 | response and new `hasResponse` are those of `ResponseOf` |
| V3ResponseReader.ResponseReader.ReadBatch | Simple.OData.Client.V3.Adapter/ResponseReader.cs:106-137 | the loop's result and `hasResponse` are those of `BatchResponse` |
| V3ResponseReader.ResponseReader.ReadOperation | Simple.OData.Client.V3.Adapter/ResponseReader.cs:116-129 | the operation's sub-response and the reader's `hasResponse` afterwards are those of `OperationResponse` |
| V3ResponseReader.ResponseReader.ReadCollection | Simple.OData.Client.V3.Adapter/ResponseReader.cs:139-163 | the loop's result is `CollectionResponse` |
| V3ResponseReader.ResponseReader.ReadEntries | Simple.OData.Client.V3.Adapter/ResponseReader.cs:165-206 | the loop's result is `EntriesOf` |
| V3ResponseReader.ResponseReader.Handle | Simple.OData.Client.V3.Adapter/ResponseReader.cs:175-200 | one reader state changes the node stack and the root as `Step` says, and fails exactly when `Step` does, with its error |
| V3ResponseReader.NoRootIsNullReference | Simple.OData.Client.V3.Adapter/ResponseReader.cs:203-205 | a stream with no state before `Completed` throws a null reference |
| V3ResponseReader.SingleEntryIsRead | Simple.OData.Client.V3.Adapter/ResponseReader.cs:165-206 | entry start then entry end gives an entry response of the converted entry |
| V3ResponseReader.EntryPairsRun | Simple.OData.Client.V3.Adapter/ResponseReader.cs:170-201 | inside a feed, entry start/end pairs append the converted entries in order, and the feed end closes the feed with merged annotations |
| V3ResponseReader.FlatFeedIsRead | Simple.OData.Client.V3.Adapter/ResponseReader.cs:165-206 | a flat feed gives a feed response of all converted entries in order, annotated with the start annotations merged with the end ones; the first conversion failure is thrown |
| V3ResponseReader.BatchFromParsed | Simple.OData.Client.V3.Adapter/ResponseReader.cs:110-134 | each sub-response of an operation with another status is that operation's message read as a response without annotations; when the batch is read with `hasResponse` set, as it always is, that read is the one with the flag set |
| V3ResponseReader.BatchResponseParsed | Simple.OData.Client.V3.Adapter/ResponseReader.cs:106-137 | the same for a whole batch response, operation by operation |
| V3ResponseReader.AllReadOkCons | Simple.OData.Client.V3.Adapter/ResponseReader.cs:110-134 | every operation of a list reads without error exactly when its first one does and all the rest do |
| V3ResponseReader.FailsFirstCons | Simple.OData.Client.V3.Adapter/ResponseReader.cs:110-134 | the first failing read of a list is its first operation when that one fails, or else the first failing read of the rest after a first operation that reads |
| V3ResponseReader.BatchFromUnparsed | Simple.OData.Client.V3.Adapter/ResponseReader.cs:116-121 | a batch with no operation to parse (only 204 and error statuses) never fails |
| V3ResponseReader.BatchFromSucceeds | Simple.OData.Client.V3.Adapter/ResponseReader.cs:110-134 | with `hasResponse` set, the batch read succeeds if and only if every parsed operation's message reads without error |
| V3ResponseReader.BatchFromFirstFailure | Simple.OData.Client.V3.Adapter/ResponseReader.cs:110-134 | with `hasResponse` set, a failed batch read carries the error of a parsed operation whose message fails to read, all operations before it reading without error |
| V3ResponseReader.BatchResponseOutcome | Simple.OData.Client.V3.Adapter/ResponseReader.cs:106-137 | a whole batch response: never an error when no operation is parsed; with `hasResponse` set, an error exactly when some parsed operation fails to read, and then the first such operation's error |
| Values.AddBoth | Simple.OData.Client.V3.Adapter/ResponseReader.cs:219-222 | two dictionary adds of distinct keys succeed exactly when the dictionary has neither key, append both pairs in order, and otherwise fail with the first duplicate key |
| V3ResponseReader.PropertyOnFreshReader | Simple.OData.Client.V3.Adapter/ResponseReader.cs:81-97 | on a fresh reader, a property that is neither null nor empty text gives the one-entry feed of its name (or `__result`) and converted value, or the conversion's error, and sets `hasResponse` |
| V3ResponseReader.EmptyPropertyOnFreshReader | Simple.OData.Client.V3.Adapter/ResponseReader.cs:81-97 | a null or empty property on a fresh reader gives an empty feed and leaves `hasResponse` false |
| V3ResponseReader.PropertyAfterResponse | Simple.OData.Client.V3.Adapter/ResponseReader.cs:42-43 | after any non-Property response, even a null property yields its one-entry feed, keyed by its name or `__result` |
| ClientInternals.AssertHasKey | Simple.OData.Client.Core/ODataClient.Internals.cs:338-342 | fails with "No entry key specified." if and only if there is neither a key nor a filter key |
| ClientInternals.EntryKey | Simple.OData.Client.Core/ODataClient.Internals.cs:91-92 | the explicit key, else the filter key; present exactly when the key check passes |
| ClientInternals.Within | Simple.OData.Client.Core/ODataClient.Internals.cs:93-97 | the pairs whose key is in the set, pairs of the original only |
| ClientInternals.UpdatedKeyMeaning | Simple.OData.Client.Core/ODataClient.Internals.cs:93-97 | the re-fetch key has unique keys, exactly the original key's names, the written value where the write data has the field, else the original value |
| ClientInternals.UpdatedKey | Simple.OData.Client.Core/ODataClient.Internals.cs:88-100 | the loop builds `UpdatedKeyOf` of the key and the write data |
| ClientInternals.Failure | Simple.OData.Client.Core/ODataClient.Internals.cs:246-266 | the exception of a request: a thrown one, or a read response that fails to parse |
| ClientInternals.RequestResult | Simple.OData.Client.Core/ODataClient.Internals.cs:234-267 | batch: the batch result, else the empty, else the default; the response is parsed only for a success other than 204 that is a GET or needs a result, else the default; an ignored NotFound gives the empty result, every other error is rethrown |
| ClientInternals.Executions | Simple.OData.Client.Core/ODataClient.Internals.cs:237-245 | no request is sent in batch mode, and otherwise exactly one: the request itself |
| ClientInternals.BatchResultIgnoresReply | Simple.OData.Client.Core/ODataClient.Internals.cs:237-242 | in batch mode the reply has no bearing on the result |
| ClientInternals.OnlyIgnoredNotFoundIsSwallowed | Simple.OData.Client.Core/ODataClient.Internals.cs:260-266 | an error is thrown if and only if it is not a NotFound with ignoring enabled, and it is the request's own |
| ClientInternals.InsertEntry | Simple.OData.Client.Core/ODataClient.Internals.cs:13-35 | the look-up follows only when the result is null, a result is required and the keys match, and then its outcome is the result |
| ClientInternals.BatchInsertLooksNothingUp | Simple.OData.Client.Core/ODataClient.Internals.cs:19-32 | a batch insert sends nothing and returns the entry data |
| ClientInternals.InsertLooksUpAtMostOnce | Simple.OData.Client.Core/ODataClient.Internals.cs:27-32 | at most two calls, the look-up only when a result is required, keys match and not in batch |
| ClientInternals.RemovedLinks | Simple.OData.Client.Core/ODataClient.Internals.cs:68-71 | one exact link name per link whose data is null |
| ClientInternals.ExecuteUpdateEntry | Simple.OData.Client.Core/ODataClient.Internals.cs:37-86 | key check first; one re-fetch with the rebuilt key when no result came back and one is required, its failure swallowed; then one unlink per null link, in order, each failure swallowed; the update's own error is thrown |
| ClientInternals.Unlinks | Simple.OData.Client.Core/ODataClient.Internals.cs:73-83 | one unlink request per removed link, in order, each for the command's collection and key |
| ClientInternals.UnlinkCalls | Simple.OData.Client.Core/ODataClient.Internals.cs:73-83 | the loop issues exactly `Unlinks` |
| ClientInternals.LinkEntry | Simple.OData.Client.Core/ODataClient.Internals.cs:133-185 | key check first; then the request unless in batch; fails exactly when that request throws |
| ClientInternals.DeleteEntry | Simple.OData.Client.Core/ODataClient.Internals.cs:110-123 | the request unless in batch; fails exactly when that request throws |
| ClientInternals.FunctionResult | Simple.OData.Client.Core/ODataClient.Internals.cs:187-211 | empty in batch or for an ignored NotFound, the response's entries when read, null when not read |
| ClientInternals.Sequenced | Simple.OData.Client.Core/ODataClient.Internals.cs:269-317 | all results in order if and only if every step succeeds; otherwise the first failing step's error |
| ClientInternals.IterateUpdate | Simple.OData.Client.Core/ODataClient.Internals.cs:269-294 | null for no entries found; one update result per entry, in entry order; the first failure is thrown |
| ClientInternals.IterateDelete | Simple.OData.Client.Core/ODataClient.Internals.cs:296-317 | 0 for no entries found; the number of entries when all deletes pass; otherwise the first failure |
| ClientInternals.SystemKeys | Simple.OData.Client.Core/ODataClient.Internals.cs:326-330 | the keys `__resourcetype`, `__annotations` and those starting with `__annotations_` |
| ClientInternals.SystemPropertiesRemovedMeaning | Simple.OData.Client.Core/ODataClient.Internals.cs:319-336 | unchanged unless annotations are on and `__resourcetype` is present; then exactly the system keys go, every other pair stays; removal is idempotent |
| ClientInternals.RemoveSystemProperties | Simple.OData.Client.Core/ODataClient.Internals.cs:319-336 | the dictionary becomes `SystemPropertiesRemoved` of its old contents, in place |
| ClientInternals.SystemKeyList | Simple.OData.Client.Core/ODataClient.Internals.cs:323-330 | the collected keys are exactly the entry's system keys: the resource type and every annotations key |
| ClientInternals.RemoveKeys | Simple.OData.Client.Core/ODataClient.Internals.cs:331-334 | the dictionary loses exactly the listed keys, in place; the other pairs keep their values and order |
| MetadataCaches.Attribute | Simple.OData.Client.Core/MetadataCache.cs:100 | an element's attribute value if it has that attribute; null otherwise, and always for a non-element |
| MetadataCaches.OrdinalCompare | Simple.OData.Client.Core/MetadataCache.cs:113 | ordinal comparison by sign; zero exactly for equal strings |
| MetadataCaches.OrdinalCompareFlips | Simple.OData.Client.Core/MetadataCache.cs:113 | swapping the arguments negates the comparison |
| MetadataCaches.OrdinalCompareTransitive | Simple.OData.Client.Core/MetadataCache.cs:113 | ordinal greater-than is transitive |
| MetadataCaches.FirstElement | Simple.OData.Client.Core/MetadataCache.cs:106-108 | the first element among the nodes read, none exactly when no node is an element |
| MetadataCaches.DeclaredVersion | Simple.OData.Client.Core/MetadataCache.cs:110-112 | an element's `m:MaxDataServiceVersion` when it is non-empty, else its `m:DataServiceVersion` |
| MetadataCaches.ProtocolVersionBounds | Simple.OData.Client.Core/MetadataCache.cs:100-121 | a root version other than 1.0, 2.0 or 3.0 is returned as is; otherwise the result is never ordinally below it, a different result is the first element's declared version, and that version is taken exactly when it is non-empty and ordinally greater than the root's |
| MetadataCaches.OnlyFirstElementCounts | Simple.OData.Client.Core/MetadataCache.cs:106-117 | nodes after the first element do not affect the version |
| MetadataCaches.GetMetadataProtocolVersion | Simple.OData.Client.Core/MetadataCache.cs:95-122 | the reader loop with its break computes `ProtocolVersionOf` the document |
| MetadataCaches.IndexOf | Simple.OData.Client.Core/MetadataCache.cs:78 | the first position of the separator |
| MetadataCaches.Split | Simple.OData.Client.Core/MetadataCache.cs:78 | at least one piece, none containing the separator |
| MetadataCaches.JoinSplit | Simple.OData.Client.Core/MetadataCache.cs:78 | joining the pieces with the separator gives the value back |
| MetadataCaches.SplitJoin | Simple.OData.Client.Core/MetadataCache.cs:78 | splitting separator-free pieces joined by the separator gives the pieces back |
| MetadataCaches.NonEmpty | Simple.OData.Client.Core/MetadataCache.cs:78 | keeps only non-empty strings of the input, and every non-empty one |
| MetadataCaches.NonEmptyAppend | Simple.OData.Client.Core/MetadataCache.cs:78 | filtering a concatenation is concatenating the filtered parts, so the pieces keep their order |
| MetadataCaches.NonEmptySingle | Simple.OData.Client.Core/MetadataCache.cs:78 | one string is kept exactly when it is non-empty |
| MetadataCaches.HeaderVersions | Simple.OData.Client.Core/MetadataCache.cs:78 | every header version is non-empty and free of `;` |
| MetadataCaches.HeaderVersionsCons | Simple.OData.Client.Core/MetadataCache.cs:78 | the versions of a header are the first value's non-empty `;`-pieces, then those of the remaining values |
| MetadataCaches.HeaderVersionsPair | Simple.OData.Client.Core/MetadataCache.cs:78 | `a;b` with both parts non-empty and `;`-free lists `a` then `b` |
| MetadataCaches.HeaderVersionsExample | Simple.OData.Client.Core/MetadataCache.cs:78 | the header value `3.0;NetFx` lists `3.0` then `NetFx` |
| MetadataCaches.SingleHeaderVersion | Simple.OData.Client.Core/MetadataCache.cs:78 | a single value without `;` is one version |
| MetadataCaches.HeaderValues | Simple.OData.Client.Core/MetadataCache.cs:75-76 | a header's values when the name is present, none exactly when it is absent |
| MetadataCaches.SupportedProtocolVersions | Simple.OData.Client.Core/MetadataCache.cs:72-93 | the DataServiceVersion header's versions, else OData-Version's, else the document's version; a document that cannot be read gives "Unable to identify OData protocol version" |
| MetadataCaches.MetadataCache.MetadataDocument | Simple.OData.Client.Core/MetadataCache.cs:17-31 | the document if and only if resolved; otherwise "Service metadata is not resolved" |
| MetadataCaches.MetadataCache.Clear | Simple.OData.Client.Core/MetadataCache.cs:43-50 | unresolved and an empty version list |
| MetadataCaches.MetadataCache.SetMetadataDocument | Simple.OData.Client.Core/MetadataCache.cs:52-57 | resolved with the string; the version list is the document's one version, or unchanged while the parse error is thrown |
| MetadataCaches.MetadataCache.SetMetadataDocumentFromResponse | Simple.OData.Client.Core/MetadataCache.cs:59-65 | resolved with the response content; the version list is the supported versions, or unchanged while the error is thrown |
| MetadataCaches.CacheRegistry.GetOrAdd | Simple.OData.Client.Core/MetadataCache.cs:13 | the registered cache for a known URI with nothing changed, else a fresh unresolved cache registered under it |
| MetadataCaches.CacheRegistry.ClearAll | Simple.OData.Client.Core/MetadataCache.cs:35-41 | every registered cache is cleared |
| Sessions.Session.FromSettings | Simple.OData.Client.Core/Session.cs:32-42 | throws "Unable to create client session with no URI specified" without a URI or with an empty one; otherwise the given settings and the cache shared through get-or-add, the registry gaining at most that one entry |
| Sessions.Session.FromMetadata | Simple.OData.Client.Core/Session.cs:19-30 | a null URI throws a null reference with nothing registered; otherwise new settings with the URI, the document and no payload format, and the cache shared through get-or-add, the registry gaining at most that one entry |
| Sessions.Session.CreateAdapter | Simple.OData.Client.Core/Session.cs:129-155 | a fetch happens if and only if the cache is unresolved and the settings have no document; a resolved cache is not touched; otherwise the cache's document and versions become those of the settings' document or of the fetched response, and the error thrown is the XML error, the request's error or "Unable to identify OData protocol version"; the adapter is built over the resolved cache |
| Sessions.Session.GetAdapter | Simple.OData.Client.Core/Session.cs:78-92 | once an adapter exists it is returned again, with no fetch and nothing changed; otherwise the cache is resolved as by `CreateAdapter`, with the same errors, and the created adapter is kept |
| Sessions.Session.ResolveAdapter | Simple.OData.Client.Core/Session.cs:70-76 | a chosen payload format is kept; an unspecified one becomes the adapter's default; the one request is sent exactly when there is no adapter yet, the cache is unresolved and the settings have no document; with no adapter the cache ends as the resolution leaves it, with one the cache is untouched; it succeeds exactly when an adapter is kept; the HTTP connection is unchanged |
| Sessions.Session.GetHttpConnection | Simple.OData.Client.Core/Session.cs:99-111 | the existing connection with nothing changed, else a fresh one over the settings, which is kept |
| Sessions.Session.Dispose | Simple.OData.Client.Core/Session.cs:44-54 | the connection is disposed and forgotten; without one nothing changes |
| Sessions.Session.ClearMetadataCache | Simple.OData.Client.Core/Session.cs:64-68 | the shared cache becomes unresolved with no versions |

## Left out

- Locks, `async`/`await`, cancellation tokens and `Task.WaitAll` are not modelled. Each step runs alone, so double-checked locking reads as "at most once". Exceptions that `Task.WaitAll` wraps in an aggregate exception are passed on unwrapped.
- HTTP transport, XML parsing and the OData library readers are not modelled. They appear as inputs: reply values, a parse function that may fail, reader-state sequences, payload-kind sets and header lists.
- Header lookup is by exact name; HTTP's case-insensitive header names are not modelled.
- The helpers the core calls but does not define are parameters: `ODataFeedAnnotations.Merge`, `ResponseNode.Value`, `IsTypeWithId`, `Utils.Convert`, the key-name matching of the insert follow-up, the exact link-name lookup and the adapter factory's default payload format.
- `WebRequestException` construction is reduced to its status code and body.
- The command text, `FormatEntryKeyAsync` and the request writer, which chooses the request method and body, are outside the model. The request is an input.
- `ExecuteBatchActionsAsync` is covered only through batch reading and `AssignBatchActionResults`. The batch request writer is outside the model.
- `DynamicPropertiesContainerName`, `AsEntries<T>` and `AsEntry<T>` are not modelled: object mapping is reflection.
- The outcomes of unlink calls after an update are not modelled. The code discards each one.
- The entry reader is specified for well-formed reader-state streams only, as the OData reader guarantees. Malformed streams are excluded by a precondition.
- The dictionaries of a command are assumed to have unique keys (`ValidCommand`), as every .NET dictionary does.
- MetadataCaches.OrdinalCompare: compares characters as Unicode scalar values, whereas .NET compares UTF-16 code units. The two orders differ only between surrogate pairs and characters above U+E000.
- MetadataCaches.GetMetadataProtocolVersion: does not model an XML error raised while reading past the root. Such an error is folded into the parse function's failure.
- Sessions.Session.CreateAdapter: the adapter factory is not modelled beyond building an adapter over the cache. An error it may raise on a cache cleared by another thread is not modelled.
- HttpConnection construction and disposal are reduced to a disposed flag.
- ClientInternals.IsSystemKey: the `__annotations_` prefix test is ordinal, whereas `string.StartsWith(string)` in .NET is culture-sensitive. The two differ only for text that culture rules treat as equal to that prefix.
