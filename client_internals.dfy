/**
 * The execution policies of the client (ODataClient.Internals): the check
 * that a command names an entry, the re-fetch key rebuilt after an update,
 * the decision what a request yields (batch placeholder, parsed response,
 * default, ignored NotFound), the follow-up lookup after an insert, the
 * swallowed fallbacks after an update, bulk iteration and the removal of
 * system properties from an entry.
 *
 * The transport and the metadata are inputs: a request's reply, the
 * result of a lookup, the links the metadata finds in the written data.
 * What a policy asks of its collaborators is returned as a list of calls.
 */
module ClientInternals {
  import opened Values
  import opened ODataResponses

  // Commands and requests.

  /** The parts of a FluentCommand the policies read. */
  datatype Command = Command(
    collectionName: string,
    hasKey: bool,
    keyValues: Entry,
    filterAsKey: Option<Entry>,
    commandData: Entry)

  /** Every dictionary of a command has unique keys, as a Dictionary does. */
  predicate ValidCommand(c: Command) {
    && UniqueKeys(c.keyValues)
    && (c.filterAsKey.Some? ==> UniqueKeys(c.filterAsKey.value))
    && UniqueKeys(c.commandData)
  }

  /** The request a request writer built: its method, whether a result was asked for, its entry data. */
  datatype ODataRequest = ODataRequest(isGet: bool, resultRequired: bool, entryData: Entry)

  /** The client settings the policies read, and whether the client is writing a batch. */
  datatype Settings = Settings(isBatch: bool, ignoreResourceNotFound: bool, includeAnnotations: bool)

  /**
   * What executing a request produced: an HTTP status and the response the
   * response reader makes of it, or an exception raised by the request runner.
   */
  datatype Reply = Answered(statusCode: int, response: Result<ODataResponse>) | Thrown(error: Error)

  /** A call a policy makes on a collaborator, in the order made. */
  datatype Call =
    | Execute(request: ODataRequest)          // the request runner
    | LookUp(commandText: string)             // GetEntryAsync after an insert
    | Refetch(key: Entry)                     // FindEntryAsync by the re-fetch key after an update
    | Unlink(collectionName: string, key: Entry, association: string)

  const NoEntryKeyMessage: string := "No entry key specified."

  /** Throws unless the command has a key or a filter that names one entry. */
  function AssertHasKey(c: Command): (r: Outcome)
    ensures r.Fail? <==> !c.hasKey && c.filterAsKey.None?
    ensures r.Fail? ==> r.error == InvalidOperation(NoEntryKeyMessage)
  {
    if !c.hasKey && c.filterAsKey.None? then Fail(InvalidOperation(NoEntryKeyMessage)) else Pass
  }

  /** The key of the entry a command addresses: its key values, else its filter as a key. */
  function EntryKey(c: Command): (k: Option<Entry>)
    ensures k.Some? <==> AssertHasKey(c).Pass?
    ensures c.hasKey ==> k == Some(c.keyValues)
    ensures !c.hasKey ==> k == c.filterAsKey
  {
    if c.hasKey then Some(c.keyValues) else c.filterAsKey
  }

  // The re-fetch key after an update.

  /** The keys of a dictionary, as a set. */
  function KeySet(e: Entry): (ks: set<string>)
    ensures forall k :: k in ks <==> ContainsKey(e, k)
  {
    set i | 0 <= i < |e| :: e[i].0
  }

  /** The pairs of `e` whose key is in `ks`, in their order. */
  function Within(e: Entry, ks: set<string>): (r: Entry)
    ensures forall k :: ContainsKey(r, k) <==> ContainsKey(e, k) && k in ks
    ensures forall p :: p in r ==> p in e
  {
    if e == [] then []
    else
      var init := Within(e[..|e| - 1], ks);
      var last := e[|e| - 1];
      KeysSnoc(e[..|e| - 1], last);
      assert e[..|e| - 1] + [last] == e;
      if last.0 in ks then
        KeysSnoc(init, last);
        init + [last]
      else
        init
  }

  /** The keys after appending one pair: the old keys and the new one. */
  lemma KeysSnoc(e: Entry, p: (string, Value))
    ensures forall k :: ContainsKey(e + [p], k) <==> ContainsKey(e, k) || k == p.0
  {
    ContainsKeyAppend(e, p.0, p.1);
  }

  /**
   * The key the updated entry is looked up by: the original key's pairs
   * that the written data does not touch, then the written pairs for the
   * key's other fields.
   */
  function UpdatedKeyOf(entryKey: Entry, entryData: Entry): Entry {
    Without(entryKey, KeySet(entryData)) + Within(entryData, KeySet(entryKey))
  }

  /**
   * The re-fetch key has exactly the original key's field names, with the
   * written value wherever the data writes that field and the original
   * value elsewhere.
   */
  lemma UpdatedKeyMeaning(entryKey: Entry, entryData: Entry)
    requires UniqueKeys(entryKey) && UniqueKeys(entryData)
    ensures UniqueKeys(UpdatedKeyOf(entryKey, entryData))
    ensures forall k :: ContainsKey(UpdatedKeyOf(entryKey, entryData), k) <==> ContainsKey(entryKey, k)
    ensures forall k :: ContainsKey(entryKey, k) ==>
              Lookup(UpdatedKeyOf(entryKey, entryData), k) ==
                if ContainsKey(entryData, k) then Lookup(entryData, k) else Lookup(entryKey, k)
  {
    var kept := Without(entryKey, KeySet(entryData));
    var written := Within(entryData, KeySet(entryKey));
    KeysAppend(kept, written);
    WithoutUnique(entryKey, KeySet(entryData));
    WithinUnique(entryData, KeySet(entryKey));
    DisjointUnique(kept, written);
    forall k | ContainsKey(entryKey, k)
      ensures Lookup(kept + written, k) == if ContainsKey(entryData, k) then Lookup(entryData, k) else Lookup(entryKey, k)
    {
      LookupAppend(kept, written, k);
      if ContainsKey(entryData, k) {
        LookupUnique(written, k, Lookup(entryData, k).value);
      } else {
        LookupUnique(kept, k, Lookup(entryKey, k).value);
      }
    }
  }

  lemma {:induction false} WithinUnique(e: Entry, ks: set<string>)
    requires UniqueKeys(e)
    ensures UniqueKeys(Within(e, ks))
  {
    if e != [] {
      var init := e[..|e| - 1];
      assert UniqueKeys(init);
      WithinUnique(init, ks);
      var r := Within(init, ks);
      if e[|e| - 1].0 in ks {
        forall p | p in r ensures p.0 != e[|e| - 1].0 {
          var j :| 0 <= j < |init| && init[j] == p;
        }
      }
    }
  }

  /** Two dictionaries with unique and disjoint keys make one with unique keys. */
  lemma DisjointUnique(a: Entry, b: Entry)
    requires UniqueKeys(a) && UniqueKeys(b)
    requires forall k :: ContainsKey(a, k) ==> !ContainsKey(b, k)
    ensures UniqueKeys(a + b)
  {
    forall i, j | 0 <= i < j < |a + b| ensures (a + b)[i].0 != (a + b)[j].0 {
      if j < |a| {
        assert (a + b)[i] == a[i] && (a + b)[j] == a[j];
      } else if i >= |a| {
        assert (a + b)[i] == b[i - |a|] && (a + b)[j] == b[j - |a|];
      } else {
        assert (a + b)[i] == a[i] && (a + b)[j] == b[j - |a|];
        assert Keys(a)[i] == a[i].0 && ContainsKey(a, a[i].0);
        assert Keys(b)[j - |a|] == b[j - |a|].0 && ContainsKey(b, b[j - |a|].0);
      }
    }
  }

  lemma {:induction false} LookupAppend(a: Entry, b: Entry, k: string)
    ensures Lookup(a + b, k) == if ContainsKey(a, k) then Lookup(a, k) else Lookup(b, k)
  {
    if a == [] {
      assert a + b == b;
    } else {
      assert (a + b)[0] == a[0] && (a + b)[1..] == a[1..] + b;
      assert Keys(a) == [a[0].0] + Keys(a[1..]);
      LookupAppend(a[1..], b, k);
    }
  }

  /** In a dictionary with unique keys, the pair under `k` is the one pair with key `k`. */
  lemma {:induction false} LookupUnique(e: Entry, k: string, v: Value)
    requires UniqueKeys(e) && (k, v) in e
    ensures Lookup(e, k) == Some(v)
  {
    if e[0] != (k, v) {
      assert e[0].0 != k by {
        var j :| 0 <= j < |e| && e[j] == (k, v);
      }
      assert (k, v) in e[1..];
      LookupUnique(e[1..], k, v);
    }
  }

  /** The key built so far extended by pair `i` of the data, when the pair writes a key field. */
  lemma UpdatedKeyStep(entryKey: Entry, entryData: Entry, i: nat)
    requires UniqueKeys(entryData) && i < |entryData|
    ensures var kept := Without(entryKey, KeySet(entryData));
            var item := entryData[i];
            && (item.0 in KeySet(entryKey) ==>
                  && !ContainsKey(kept + Within(entryData[..i], KeySet(entryKey)), item.0)
                  && kept + Within(entryData[..i + 1], KeySet(entryKey)) ==
                       kept + Within(entryData[..i], KeySet(entryKey)) + [item])
            && (item.0 !in KeySet(entryKey) ==>
                  Within(entryData[..i + 1], KeySet(entryKey)) == Within(entryData[..i], KeySet(entryKey)))
  {
    var keyFields := KeySet(entryKey);
    var kept := Without(entryKey, KeySet(entryData));
    var written := Within(entryData[..i], keyFields);
    var item := entryData[i];
    assert entryData[..i + 1][..i] == entryData[..i] && entryData[..i + 1][i] == item;
    if item.0 in keyFields {
      assert Within(entryData[..i + 1], keyFields) == written + [item];
      assert kept + (written + [item]) == kept + written + [item];
      KeysAppend(kept, written);
      assert ContainsKey(entryData, item.0);
    }
  }

  /**
   * GetUpdatedResult's key: the untouched key pairs, then each written pair
   * whose field is a key field added one at a time, in the data's order.
   */
  method UpdatedKey(entryKey: Entry, entryData: Entry) returns (updatedKey: Entry)
    requires UniqueKeys(entryKey) && UniqueKeys(entryData)
    ensures updatedKey == UpdatedKeyOf(entryKey, entryData)
  {
    var keyFields := KeySet(entryKey);
    updatedKey := Without(entryKey, KeySet(entryData));
    var i := 0;
    while i < |entryData|
      invariant 0 <= i <= |entryData|
      invariant updatedKey == Without(entryKey, KeySet(entryData)) + Within(entryData[..i], keyFields)
    {
      var item := entryData[i];
      UpdatedKeyStep(entryKey, entryData, i);
      if item.0 in keyFields {
        var added := Add(updatedKey, item.0, item.1);
        updatedKey := added.value;
      }
      i := i + 1;
    }
    assert entryData[..|entryData|] == entryData;
  }

  // What a request yields (ExecuteRequestWithResultAsync).

  /** A success status (HttpResponseMessage.IsSuccessStatusCode). */
  predicate IsSuccess(statusCode: int) {
    200 <= statusCode <= 299
  }

  /** Whether an answered request has its response read: a success other than 204, for a GET or when a result is required. */
  predicate ReadsResponse(request: ODataRequest, statusCode: int) {
    IsSuccess(statusCode) && statusCode != NoContent && (request.isGet || request.resultRequired)
  }

  /** A NotFound WebRequestException when the settings ignore it. */
  predicate IsIgnored(settings: Settings, e: Error) {
    settings.ignoreResourceNotFound && e.WebRequest? && e.code == NotFound
  }

  /** The first present of two optional results, else the default. */
  function Either<T>(first: Option<T>, second: Option<T>, dflt: T): T {
    if first.Some? then first.value else if second.Some? then second.value else dflt
  }

  /** The error the request failed with, if it did: the runner's exception or the reader's. */
  function Failure(request: ODataRequest, reply: Reply): (f: Option<Error>)
    ensures reply.Thrown? ==> f == Some(reply.error)
    ensures reply.Answered? ==>
              (f.Some? <==> ReadsResponse(request, reply.statusCode) && reply.response.Err?)
    ensures f.Some? && reply.Answered? ==> f.value == reply.response.error
  {
    match reply
    case Thrown(e) => Some(e)
    case Answered(status, response) =>
      if ReadsResponse(request, status) && response.Err? then Some(response.error) else None
  }

  /**
   * The result of one request. In a batch nothing is executed: the batch
   * result, else the empty result, else the default. Otherwise the
   * response is read only when ReadsResponse holds and the default is
   * returned when it does not; a failure is rethrown unless it is a
   * NotFound the settings ignore, for which the empty result (else the
   * default) is returned.
   */
  function RequestResult<T>(settings: Settings, request: ODataRequest, reply: Reply,
                            createResult: ODataResponse -> T, createEmpty: Option<T>, createBatch: Option<T>,
                            dflt: T): (r: Result<T>)
    ensures settings.isBatch ==> r == Ok(Either(createBatch, createEmpty, dflt))
    ensures !settings.isBatch && Failure(request, reply).Some? ==>
              r == if IsIgnored(settings, Failure(request, reply).value) then Ok(Either(createEmpty, None, dflt))
                   else Err(Failure(request, reply).value)
    ensures !settings.isBatch && reply.Answered? && !ReadsResponse(request, reply.statusCode) ==> r == Ok(dflt)
    ensures !settings.isBatch && reply.Answered? && ReadsResponse(request, reply.statusCode) && reply.response.Ok? ==>
              r == Ok(createResult(reply.response.value))
  {
    if settings.isBatch then Ok(Either(createBatch, createEmpty, dflt))
    else
      var failure := Failure(request, reply);
      if failure.Some? then
        if IsIgnored(settings, failure.value) then Ok(Either(createEmpty, None, dflt)) else Err(failure.value)
      else if ReadsResponse(request, reply.statusCode) then Ok(createResult(reply.response.value))
      else Ok(dflt)
  }

  /** The calls a request makes: none in a batch, one execution otherwise. */
  function Executions(settings: Settings, request: ODataRequest): (calls: seq<Call>)
    ensures settings.isBatch <==> calls == []
    ensures !settings.isBatch ==> calls == [Execute(request)]
  {
    if settings.isBatch then [] else [Execute(request)]
  }

  /** In a batch the result does not depend on what the request would have produced. */
  lemma BatchResultIgnoresReply<T>(settings: Settings, request: ODataRequest, reply1: Reply, reply2: Reply,
                                   createResult: ODataResponse -> T, createEmpty: Option<T>, createBatch: Option<T>,
                                   dflt: T)
    requires settings.isBatch
    ensures RequestResult(settings, request, reply1, createResult, createEmpty, createBatch, dflt) ==
            RequestResult(settings, request, reply2, createResult, createEmpty, createBatch, dflt)
  {
  }

  /**
   * Only an ignored NotFound is swallowed: a request that failed yields an
   * error exactly when the failure is not an ignored NotFound, and then it
   * is that failure.
   */
  lemma OnlyIgnoredNotFoundIsSwallowed<T>(settings: Settings, request: ODataRequest, reply: Reply,
                                          createResult: ODataResponse -> T, createEmpty: Option<T>,
                                          createBatch: Option<T>, dflt: T)
    requires !settings.isBatch && Failure(request, reply).Some?
    ensures var r := RequestResult(settings, request, reply, createResult, createEmpty, createBatch, dflt);
            && (r.Err? <==> !IsIgnored(settings, Failure(request, reply).value))
            && (r.Err? ==> r.error == Failure(request, reply).value)
  {
  }

  // Insert, update, link, unlink, delete, functions and actions.

  /**
   * ExecuteInsertEntryAsync: the insert request's entry (its entry data in
   * a batch), then one lookup of the inserted entry when there is no entry,
   * a result is required and the declared key names all match the data's
   * keys (`keysMatch`, from Utils.AllMatch); `lookedUp` is what that lookup
   * yields.
   */
  function InsertEntry(settings: Settings, commandText: string, request: ODataRequest, reply: Reply,
                       resultRequired: bool, keysMatch: bool, lookedUp: Result<Option<Entry>>)
    : (r: (Result<Option<Entry>>, seq<Call>))
    ensures var first := RequestResult(settings, request, reply, AsEntry, Some(None), Some(Some(request.entryData)), None);
            var following := first.Ok? && first.value.None? && resultRequired && keysMatch;
            && r.1 == Executions(settings, request) + (if following then [LookUp(commandText)] else [])
            && r.0 == if following then lookedUp else first
  {
    var first := RequestResult(settings, request, reply, AsEntry, Some(None), Some(Some(request.entryData)), None);
    if first.Ok? && first.value.None? && resultRequired && keysMatch then
      (lookedUp, Executions(settings, request) + [LookUp(commandText)])
    else
      (first, Executions(settings, request))
  }

  /** In a batch an insert yields its own entry data and looks nothing up. */
  lemma BatchInsertLooksNothingUp(settings: Settings, commandText: string, request: ODataRequest, reply: Reply,
                                  resultRequired: bool, keysMatch: bool, lookedUp: Result<Option<Entry>>)
    requires settings.isBatch
    ensures InsertEntry(settings, commandText, request, reply, resultRequired, keysMatch, lookedUp) ==
            (Ok(Some(request.entryData)), [])
  {
  }

  /**
   * An insert looks its entry up at most once, and only when a result is
   * required and the key names match.
   */
  lemma InsertLooksUpAtMostOnce(settings: Settings, commandText: string, request: ODataRequest, reply: Reply,
                                resultRequired: bool, keysMatch: bool, lookedUp: Result<Option<Entry>>)
    ensures var calls := InsertEntry(settings, commandText, request, reply, resultRequired, keysMatch, lookedUp).1;
            && |calls| <= 2
            && (LookUp(commandText) in calls ==> resultRequired && keysMatch && !settings.isBatch)
  {
  }

  /** A navigation link the metadata found in written data, with the data written to it (null: remove the link). */
  datatype ReferenceLink = ReferenceLink(linkName: string, linkData: Option<Entry>)

  /** The exact names of the links whose data is null, in order: the associations to remove. */
  function RemovedLinks(links: seq<ReferenceLink>, exactName: string -> string): (names: seq<string>)
    ensures |names| == NullLinks(links)
    ensures forall a :: a in names <==> exists l :: l in links && l.linkData.None? && exactName(l.linkName) == a
  {
    if links == [] then []
    else
      var rest := RemovedLinks(links[1..], exactName);
      assert forall l :: l in links <==> l == links[0] || l in links[1..];
      if links[0].linkData.None? then [exactName(links[0].linkName)] + rest else rest
  }

  /** The number of links whose data is null. */
  function NullLinks(links: seq<ReferenceLink>): nat {
    if links == [] then 0 else (if links[0].linkData.None? then 1 else 0) + NullLinks(links[1..])
  }

  /**
   * ExecuteUpdateEntryAsync. The key check comes first. When the update
   * yields no entry but a result is required, the entry is re-fetched by
   * the updated key and a failure of the re-fetch is swallowed. Then one
   * unlink is issued per link whose data is null, each failure swallowed;
   * the update's result is returned.
   */
  method ExecuteUpdateEntry(settings: Settings, command: Command, request: ODataRequest, reply: Reply,
                            resultRequired: bool, refetch: Entry -> Result<Option<Entry>>,
                            links: seq<ReferenceLink>, exactName: string -> string)
    returns (result: Result<Option<Entry>>, calls: seq<Call>)
    requires ValidCommand(command)
    ensures AssertHasKey(command).Fail? ==> result == Err(InvalidOperation(NoEntryKeyMessage)) && calls == []
    ensures AssertHasKey(command).Pass? ==>
              var key := EntryKey(command).value;
              var first := RequestResult(settings, request, reply, AsEntry, Some(None), Some(Some(request.entryData)), None);
              var refetching := first.Ok? && first.value.None? && resultRequired;
              var newKey := UpdatedKeyOf(key, command.commandData);
              && (first.Err? ==> result == first && calls == Executions(settings, request))
              && (first.Ok? ==>
                    && result == Ok(if refetching && refetch(newKey).Ok? then refetch(newKey).value else first.value)
                    && calls == Executions(settings, request)
                                + (if refetching then [Refetch(newKey)] else [])
                                + Unlinks(command.collectionName, key, RemovedLinks(links, exactName)))
  {
    var check := AssertHasKey(command);
    if check.Fail? {
      return Err(check.error), [];
    }
    var key := EntryKey(command).value;
    var first := RequestResult(settings, request, reply, AsEntry, Some(None), Some(Some(request.entryData)), None);
    calls := Executions(settings, request);
    if first.Err? {
      return first, calls;
    }
    var entry := first.value;
    if entry.None? && resultRequired {
      var newKey := UpdatedKey(key, command.commandData);
      calls := calls + [Refetch(newKey)];
      var refetched := refetch(newKey);
      if refetched.Ok? {
        entry := refetched.value;
      }
    }
    var removed := RemovedLinks(links, exactName);
    var unlinks := UnlinkCalls(command.collectionName, key, removed);
    calls := calls + unlinks;
    result := Ok(entry);
  }

  /** The unlink requests for the removed links, one per link, in order. */
  function Unlinks(collectionName: string, key: Entry, removed: seq<string>): (calls: seq<Call>)
    ensures |calls| == |removed|
    ensures forall i :: 0 <= i < |removed| ==> calls[i] == Unlink(collectionName, key, removed[i])
  {
    MapSeq((a: string) => Unlink(collectionName, key, a), removed)
  }

  /** The unlink requests, issued one removed link at a time. */
  method UnlinkCalls(collectionName: string, key: Entry, removed: seq<string>) returns (calls: seq<Call>)
    ensures calls == Unlinks(collectionName, key, removed)
  {
    calls := [];
    var i := 0;
    while i < |removed|
      invariant 0 <= i <= |removed| && |calls| == i
      invariant forall j :: 0 <= j < i ==> calls[j] == Unlink(collectionName, key, removed[j])
    {
      calls := calls + [Unlink(collectionName, key, removed[i])];
      i := i + 1;
    }
  }

  /** A link or unlink: the key check, then the request, unless in a batch; a failure of the request is thrown. */
  function LinkEntry(settings: Settings, command: Command, request: ODataRequest, reply: Reply): (r: (Outcome, seq<Call>))
    ensures AssertHasKey(command).Fail? ==> r == (AssertHasKey(command), [])
    ensures AssertHasKey(command).Pass? ==> r.1 == Executions(settings, request)
    ensures AssertHasKey(command).Pass? ==> (r.0.Fail? <==> !settings.isBatch && reply.Thrown?)
    ensures r.0.Fail? && AssertHasKey(command).Pass? ==> r.0.error == reply.error
  {
    var check := AssertHasKey(command);
    if check.Fail? then (check, [])
    else (ExecutedOutcome(settings, reply), Executions(settings, request))
  }

  /** A delete: the request, unless in a batch; a failure of the request is thrown. */
  function DeleteEntry(settings: Settings, request: ODataRequest, reply: Reply): (r: (Outcome, seq<Call>))
    ensures r.1 == Executions(settings, request)
    ensures r.0.Fail? <==> !settings.isBatch && reply.Thrown?
    ensures r.0.Fail? ==> r.0.error == reply.error
  {
    (ExecutedOutcome(settings, reply), Executions(settings, request))
  }

  /** The outcome of a request whose response is disposed unread. */
  function ExecutedOutcome(settings: Settings, reply: Reply): Outcome {
    if !settings.isBatch && reply.Thrown? then Fail(reply.error) else Pass
  }

  /**
   * ExecuteFunctionAsync and ExecuteActionAsync: the entries of the
   * response; an empty sequence in a batch or for an ignored NotFound; null
   * (None) when the response is not read.
   */
  function FunctionResult(settings: Settings, request: ODataRequest, reply: Reply): (r: Result<Option<seq<Entry>>>)
    ensures settings.isBatch ==> r == Ok(Some([]))
    ensures !settings.isBatch && reply.Answered? && ReadsResponse(request, reply.statusCode) && reply.response.Ok? ==>
              r == Ok(Some(AsEntries(reply.response.value)))
    ensures !settings.isBatch && reply.Answered? && !ReadsResponse(request, reply.statusCode) ==> r == Ok(None)
    ensures !settings.isBatch && Failure(request, reply).Some? ==>
              r == if IsIgnored(settings, Failure(request, reply).value) then Ok(Some([]))
                   else Err(Failure(request, reply).value)
  {
    RequestResult(settings, request, reply, (x: ODataResponse) => Some(AsEntries(x)), Some(Some([])), None, None)
  }

  // Bulk operations (the two IterateEntriesAsync overloads).

  /** Each element through `f`, in order; the first failure is the result. */
  function Sequenced<A, B>(f: A -> Result<B>, xs: seq<A>): (r: Result<seq<B>>)
    ensures r.Ok? <==> forall i :: 0 <= i < |xs| ==> f(xs[i]).Ok?
    ensures r.Ok? ==> |r.value| == |xs| && forall i :: 0 <= i < |xs| ==> f(xs[i]) == Ok(r.value[i])
    ensures r.Err? ==> exists i :: 0 <= i < |xs| && f(xs[i]) == Err(r.error) && forall j :: 0 <= j < i ==> f(xs[j]).Ok?
  {
    if xs == [] then Ok([])
    else
      var first := f(xs[0]);
      var rest := Sequenced(f, xs[1..]);
      if first.Err? then Err(first.error)
      else if rest.Err? then
        var i :| 0 <= i < |xs[1..]| && f(xs[1..][i]) == Err(rest.error) && forall j :: 0 <= j < i ==> f(xs[1..][j]).Ok?;
        assert f(xs[i + 1]) == Err(rest.error);
        assert forall j :: 0 <= j < i + 1 ==> f(xs[j]).Ok? by {
          forall j | 0 <= j < i + 1 ensures f(xs[j]).Ok? {
            if j > 0 { assert xs[j] == xs[1..][j - 1]; }
          }
        }
        Err(rest.error)
      else
        var all := [first.value] + rest.value;
        assert forall i :: 1 <= i < |xs| ==> xs[i] == xs[1..][i - 1];
        Ok(all)
  }

  /**
   * The update variant: every found entry updated in turn, one result per
   * entry in entry order. `found` is what FindEntriesAsync yields (None:
   * null, and then the result is null too); the first failure is thrown.
   */
  method IterateUpdate(found: Result<Option<seq<Entry>>>, collectionName: string, entryData: Entry,
                       resultRequired: bool, update: (string, Entry, Entry, bool) -> Result<Option<Entry>>)
    returns (r: Result<Option<seq<Option<Entry>>>>)
    ensures found.Err? ==> r == Err(found.error)
    ensures found == Ok(None) ==> r == Ok(None)
    ensures found.Ok? && found.value.Some? ==>
              var step := (e: Entry) => update(collectionName, e, entryData, resultRequired);
              var all := Sequenced(step, found.value.value);
              r == if all.Ok? then Ok(Some(all.value)) else Err(all.error)
  {
    if found.Err? {
      return Err(found.error);
    }
    if found.value.None? {
      return Ok(None);
    }
    var entries := found.value.value;
    var step := (e: Entry) => update(collectionName, e, entryData, resultRequired);
    var results: seq<Option<Entry>> := [];
    var i := 0;
    while i < |entries|
      invariant 0 <= i <= |entries|
      invariant Sequenced(step, entries[..i]) == Ok(results)
    {
      var one := update(collectionName, entries[i], entryData, resultRequired);
      if one.Err? {
        SequencedFails(step, entries, i);
        return Err(one.error);
      }
      SequencedSnoc(step, entries, i);
      results := results + [one.value];
      i := i + 1;
    }
    assert entries[..|entries|] == entries;
    r := Ok(Some(results));
  }

  lemma SequencedSnoc<A, B>(f: A -> Result<B>, xs: seq<A>, i: nat)
    requires i < |xs| && Sequenced(f, xs[..i]).Ok? && f(xs[i]).Ok?
    ensures Sequenced(f, xs[..i + 1]) == Ok(Sequenced(f, xs[..i]).value + [f(xs[i]).value])
  {
    var whole := Sequenced(f, xs[..i + 1]);
    var init := Sequenced(f, xs[..i]).value;
    var grown := init + [f(xs[i]).value];
    forall j | 0 <= j < i + 1 ensures f(xs[..i + 1][j]) == Ok(grown[j]) {
      if j < i {
        assert xs[..i + 1][j] == xs[..i][j];
        assert f(xs[..i][j]) == Ok(init[j]);
      } else {
        assert xs[..i + 1][j] == xs[i];
      }
    }
    assert whole.Ok?;
    forall j | 0 <= j < i + 1 ensures whole.value[j] == grown[j] {
      assert f(xs[..i + 1][j]) == Ok(whole.value[j]);
    }
    assert whole.value == grown;
  }

  /** A failure at `i` after successes before it is the first failure of the whole sequence. */
  lemma SequencedFails<A, B>(f: A -> Result<B>, xs: seq<A>, i: nat)
    requires i < |xs| && Sequenced(f, xs[..i]).Ok? && f(xs[i]).Err?
    ensures Sequenced(f, xs).Err? && Sequenced(f, xs).error == f(xs[i]).error
  {
    var r := Sequenced(f, xs);
    assert forall j :: 0 <= j < i ==> xs[..i][j] == xs[j];
    assert forall j :: 0 <= j < i ==> f(xs[j]).Ok?;
    assert !f(xs[i]).Ok?;
    assert r.Err?;
    var k :| 0 <= k < |xs| && f(xs[k]) == Err(r.error) && forall j :: 0 <= j < k ==> f(xs[j]).Ok?;
    assert k == i;
  }

  /**
   * The delete variant: every found entry deleted in turn; the number
   * deleted, 0 when nothing is found. The first failure is thrown.
   */
  method IterateDelete(found: Result<Option<seq<Entry>>>, collectionName: string, delete: (string, Entry) -> Outcome)
    returns (r: Result<nat>)
    ensures found.Err? ==> r == Err(found.error)
    ensures found == Ok(None) ==> r == Ok(0)
    ensures found.Ok? && found.value.Some? ==>
              var entries := found.value.value;
              && (r.Ok? <==> forall i :: 0 <= i < |entries| ==> delete(collectionName, entries[i]).Pass?)
              && (r.Ok? ==> r.value == |entries|)
              && (r.Err? ==> exists i :: 0 <= i < |entries| && delete(collectionName, entries[i]) == Fail(r.error)
                                        && forall j :: 0 <= j < i ==> delete(collectionName, entries[j]).Pass?)
  {
    if found.Err? {
      return Err(found.error);
    }
    var count := 0;
    if found.value.Some? {
      var entries := found.value.value;
      while count < |entries|
        invariant 0 <= count <= |entries|
        invariant forall j :: 0 <= j < count ==> delete(collectionName, entries[j]).Pass?
      {
        var outcome := delete(collectionName, entries[count]);
        if outcome.Fail? {
          return Err(outcome.error);
        }
        count := count + 1;
      }
    }
    r := Ok(count);
  }

  // System properties (RemoveSystemProperties).

  /** The keys the client adds to results: the resource type, the annotations and the per-link annotations. */
  predicate IsSystemKey(k: string) {
    k == ResourceTypeLiteral || k == AnnotationsLiteral || StartsWith(k, AnnotationsLiteral + "_")
  }

  /** The system keys of `e`. */
  function SystemKeys(e: Entry): (ks: set<string>)
    ensures forall k :: k in ks <==> ContainsKey(e, k) && IsSystemKey(k)
  {
    set i | 0 <= i < |e| && IsSystemKey(e[i].0) :: e[i].0
  }

  /**
   * The entry after RemoveSystemProperties: when annotations are included
   * and the entry has a resource type, without its system keys; otherwise
   * unchanged.
   */
  function SystemPropertiesRemoved(e: Entry, includeAnnotations: bool): Entry {
    if includeAnnotations && ContainsKey(e, ResourceTypeLiteral) then Without(e, SystemKeys(e)) else e
  }

  /**
   * Removal keeps every other key with its value and order, and takes out
   * every system key; without annotations or a resource type nothing
   * changes. Removing twice is removing once.
   */
  lemma SystemPropertiesRemovedMeaning(e: Entry, includeAnnotations: bool)
    ensures var r := SystemPropertiesRemoved(e, includeAnnotations);
            && (!includeAnnotations || !ContainsKey(e, ResourceTypeLiteral) ==> r == e)
            && (includeAnnotations && ContainsKey(e, ResourceTypeLiteral) ==>
                  && (forall k :: ContainsKey(r, k) <==> ContainsKey(e, k) && !IsSystemKey(k))
                  && (forall p :: p in e && !IsSystemKey(p.0) ==> p in r))
            && SystemPropertiesRemoved(r, includeAnnotations) == r
  {
    var r := SystemPropertiesRemoved(e, includeAnnotations);
    if includeAnnotations && ContainsKey(e, ResourceTypeLiteral) {
      WithoutKeeps(e, SystemKeys(e));
      assert !ContainsKey(r, ResourceTypeLiteral);
    }
  }

  /** Without keeps every pair whose key is not removed. */
  lemma {:induction false} WithoutKeeps(e: Entry, ks: set<string>)
    ensures forall p :: p in e && p.0 !in ks ==> p in Without(e, ks)
  {
    if e != [] {
      WithoutKeeps(e[1..], ks);
      assert forall p :: p in e ==> p == e[0] || p in e[1..];
    }
  }

  /** The elements of a sequence, as a set. */
  function Elements(s: seq<string>): (r: set<string>)
    ensures forall x :: x in r <==> x in s
  {
    set x | x in s
  }

  lemma ElementsSnoc(s: seq<string>, x: string)
    ensures Elements(s + [x]) == Elements(s) + {x}
  {
  }

  lemma SystemKeysSnoc(e: Entry, i: nat)
    requires i < |e|
    ensures SystemKeys(e[..i + 1]) == SystemKeys(e[..i]) + (if IsSystemKey(e[i].0) then {e[i].0} else {})
  {
    assert e[..i + 1] == e[..i] + [e[i]];
    KeysSnoc(e[..i], e[i]);
  }

  /** A dictionary updated in place. */
  class EntryMap {
    var pairs: Entry

    constructor (pairs: Entry)
      ensures this.pairs == pairs
    {
      this.pairs := pairs;
    }
  }

  /** The first loop of RemoveSystemProperties: the system keys of `e`, in enumeration order. */
  method SystemKeyList(e: Entry) returns (removeKeys: seq<string>)
    ensures Elements(removeKeys) == SystemKeys(e)
  {
    removeKeys := [];
    var i := 0;
    while i < |e|
      invariant 0 <= i <= |e|
      invariant Elements(removeKeys) == SystemKeys(e[..i])
    {
      var key := e[i].0;
      SystemKeysSnoc(e, i);
      if key == ResourceTypeLiteral {
        ElementsSnoc(removeKeys, key);
        removeKeys := removeKeys + [key];
      }
      if key == AnnotationsLiteral || StartsWith(key, AnnotationsLiteral + "_") {
        ElementsSnoc(removeKeys, key);
        removeKeys := removeKeys + [key];
      }
      i := i + 1;
    }
    assert e[..|e|] == e;
  }

  /** Removing one more key of the list is removing the longer prefix. */
  lemma RemoveOneMore(e: Entry, keys: seq<string>, j: nat)
    requires j < |keys|
    ensures Without(Without(e, Elements(keys[..j])), {keys[j]}) == Without(e, Elements(keys[..j + 1]))
  {
    WithoutTwice(e, Elements(keys[..j]), {keys[j]});
    assert keys[..j + 1] == keys[..j] + [keys[j]];
    ElementsSnoc(keys[..j], keys[j]);
  }

  /**
   * RemoveSystemProperties: collects the system keys, then removes each
   * one from the dictionary in place.
   */
  method RemoveSystemProperties(entryData: EntryMap, includeAnnotations: bool)
    modifies entryData
    ensures entryData.pairs == SystemPropertiesRemoved(old(entryData.pairs), includeAnnotations)
  {
    if includeAnnotations && ContainsKey(entryData.pairs, ResourceTypeLiteral) {
      var removeKeys := SystemKeyList(entryData.pairs);
      RemoveKeys(entryData, removeKeys);
    }
  }

  /** Removes the listed keys one at a time. */
  method RemoveKeys(entryData: EntryMap, removeKeys: seq<string>)
    modifies entryData
    ensures entryData.pairs == Without(old(entryData.pairs), Elements(removeKeys))
  {
    ghost var e := entryData.pairs;
    WithoutNothing(e, {});
    assert Elements(removeKeys[..0]) == {};
    var j := 0;
    while j < |removeKeys|
      invariant 0 <= j <= |removeKeys|
      invariant entryData.pairs == Without(e, Elements(removeKeys[..j]))
    {
      RemoveOneMore(e, removeKeys, j);
      entryData.pairs := Without(entryData.pairs, {removeKeys[j]});
      j := j + 1;
    }
    assert removeKeys[..|removeKeys|] == removeKeys;
  }
}
