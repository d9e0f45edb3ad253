/**
 * A client session (Session): the settings it was made from, the metadata
 * cache it shares with every session on the same service URI, and the
 * adapter and HTTP connection it creates lazily.
 *
 * Locks only serialise these steps, so the model runs them one after the
 * other. The metadata request, the parsing of documents and the adapter
 * factory's choice of payload format are parameters.
 */
module Sessions {
  import opened Values
  import opened MetadataCaches

  const NoUriMessage: string := "Unable to create client session with no URI specified"

  datatype PayloadFormat = Unspecified | Atom | Json

  /** ODataClientSettings, shared by reference with whoever built it. */
  class ClientSettings {
    /** BaseUri.AbsoluteUri, null when BaseUri is null. */
    var baseUri: Option<string>
    var metadataDocument: Option<string>
    var payloadFormat: PayloadFormat

    constructor (baseUri: Option<string>, metadataDocument: Option<string>, payloadFormat: PayloadFormat)
      ensures this.baseUri == baseUri && this.metadataDocument == metadataDocument
      ensures this.payloadFormat == payloadFormat
    {
      this.baseUri := baseUri;
      this.metadataDocument := metadataDocument;
      this.payloadFormat := payloadFormat;
    }
  }

  /** What the adapter factory builds over a metadata cache. */
  class Adapter {
    const metadata: MetadataCache
    const defaultPayloadFormat: PayloadFormat

    constructor (metadata: MetadataCache, defaultPayloadFormat: PayloadFormat)
      ensures this.metadata == metadata && this.defaultPayloadFormat == defaultPayloadFormat
    {
      this.metadata := metadata;
      this.defaultPayloadFormat := defaultPayloadFormat;
    }
  }

  class HttpConnection {
    const settings: ClientSettings
    var disposed: bool

    constructor (settings: ClientSettings)
      ensures this.settings == settings && !disposed
    {
      this.settings := settings;
      disposed := false;
    }

    method Dispose()
      modifies this
      ensures disposed
    {
      disposed := true;
    }
  }

  class Session {
    const settings: ClientSettings
    const metadataCache: MetadataCache
    var adapter: Option<Adapter>
    var httpConnection: Option<HttpConnection>

    constructor (settings: ClientSettings, metadataCache: MetadataCache)
      ensures this.settings == settings && this.metadataCache == metadataCache
      ensures adapter.None? && httpConnection.None?
    {
      this.settings := settings;
      this.metadataCache := metadataCache;
      adapter := None;
      httpConnection := None;
    }

    /** The objects Dispose may change: the session and its open connection. */
    function DisposeFrame(): set<object>
      reads this
    {
      if httpConnection.Some? then {this, httpConnection.value} else {this}
    }

    /**
     * Session(settings) through FromSettings: throws without a base URI;
     * otherwise uses the settings as given and the cache registered for the
     * URI, registering a new one for a URI seen for the first time.
     */
    static method FromSettings(settings: ClientSettings, registry: CacheRegistry) returns (r: Result<Session>)
      modifies registry
      ensures settings.baseUri.None? || settings.baseUri.value == "" ==>
                r == Err(InvalidOperation(NoUriMessage)) && registry.instances == old(registry.instances)
      ensures r.Ok? ==>
                && settings.baseUri.Some? && settings.baseUri.value != ""
                && fresh(r.value) && r.value.settings == settings
                && r.value.adapter.None? && r.value.httpConnection.None?
                && SharesCache(registry, old(registry.instances), settings.baseUri.value, r.value.metadataCache)
      ensures settings.baseUri.Some? && settings.baseUri.value != "" ==> r.Ok?
    {
      if settings.baseUri.None? || settings.baseUri.value == "" {
        return Err(InvalidOperation(NoUriMessage));
      }
      var cache := registry.GetOrAdd(settings.baseUri.value);
      var session := new Session(settings, cache);
      r := Ok(session);
    }

    /**
     * Session(baseUri, metadataString) through FromMetadata: a null URI
     * throws a null reference when its AbsoluteUri is read, before anything
     * is registered; otherwise new settings holding the URI and the
     * document, with no payload format chosen, and the cache registered for
     * the URI.
     */
    static method FromMetadata(baseUri: Option<string>, metadataString: Option<string>, registry: CacheRegistry)
      returns (r: Result<Session>)
      modifies registry
      ensures baseUri.None? ==> r == Err(NullReference) && registry.instances == old(registry.instances)
      ensures baseUri.Some? ==> r.Ok?
      ensures r.Ok? ==>
                && fresh(r.value) && fresh(r.value.settings)
                && r.value.settings.baseUri == baseUri
                && r.value.settings.metadataDocument == metadataString
                && r.value.settings.payloadFormat == Unspecified
                && r.value.adapter.None? && r.value.httpConnection.None?
                && SharesCache(registry, old(registry.instances), baseUri.value, r.value.metadataCache)
    {
      if baseUri.None? {
        return Err(NullReference);
      }
      var settings := new ClientSettings(baseUri, metadataString, Unspecified);
      var cache := registry.GetOrAdd(baseUri.value);
      var session := new Session(settings, cache);
      r := Ok(session);
    }

    /**
     * CreateAdapter: an unresolved cache is resolved from the settings'
     * document when there is one, else from one metadata request, whose
     * response `fetch` stands for; a resolved cache is left alone. Then the
     * factory builds an adapter over the cache. `fetched` says whether the
     * request was sent.
     */
    method CreateAdapter(fetch: Result<MetadataResponse>, parse: XmlParser, defaultFormat: PayloadFormat)
      returns (r: Result<Adapter>, fetched: bool)
      modifies metadataCache
      ensures fetched <==> !old(metadataCache.IsResolved()) && IsNullOrEmpty(settings.metadataDocument)
      ensures old(metadataCache.IsResolved()) ==> unchanged(metadataCache) && r.Ok?
      ensures !old(metadataCache.IsResolved()) && !IsNullOrEmpty(settings.metadataDocument) ==>
                && metadataCache.document == settings.metadataDocument
                && (r.Ok? <==> parse(settings.metadataDocument.value).Ok?)
      ensures fetched ==>
                && (fetch.Err? ==> r == Err(fetch.error) && unchanged(metadataCache))
                && (fetch.Ok? ==> metadataCache.document == Some(fetch.value.content) &&
                                  (r.Ok? <==> SupportedProtocolVersions(fetch.value, parse).Ok?))
      ensures r.Ok? ==>
                && fresh(r.value) && r.value.metadata == metadataCache && metadataCache.IsResolved()
                && r.value.defaultPayloadFormat == defaultFormat
      ensures Resolution(settings.metadataDocument, fetch, parse,
                         old(metadataCache.document), old(metadataCache.protocolVersions),
                         metadataCache.document, metadataCache.protocolVersions, OutcomeOf(r))
    {
      fetched := false;
      if !metadataCache.IsResolved() {
        if !(settings.metadataDocument.None? || settings.metadataDocument.value == "") {
          var outcome := metadataCache.SetMetadataDocument(settings.metadataDocument.value, parse);
          if outcome.Fail? {
            return Err(outcome.error), fetched;
          }
        } else {
          fetched := true;
          if fetch.Err? {
            return Err(fetch.error), fetched;
          }
          var outcome := metadataCache.SetMetadataDocumentFromResponse(fetch.value, parse);
          if outcome.Fail? {
            return Err(outcome.error), fetched;
          }
        }
      }
      var created := new Adapter(metadataCache, defaultFormat);
      r := Ok(created);
    }

    /**
     * The Adapter getter: the adapter created by the first successful read,
     * the same one on every later read, which sends no request.
     */
    method GetAdapter(fetch: Result<MetadataResponse>, parse: XmlParser, defaultFormat: PayloadFormat)
      returns (r: Result<Adapter>, fetched: bool)
      modifies this, metadataCache
      ensures old(adapter).Some? ==>
                r == Ok(old(adapter).value) && !fetched && unchanged(this) && unchanged(metadataCache)
      ensures old(adapter).None? ==>
                && fetched == (!old(metadataCache.IsResolved()) && IsNullOrEmpty(settings.metadataDocument))
                && (r.Ok? ==> fresh(r.value) && r.value.metadata == metadataCache &&
                              r.value.defaultPayloadFormat == defaultFormat && metadataCache.IsResolved())
                && Resolution(settings.metadataDocument, fetch, parse,
                              old(metadataCache.document), old(metadataCache.protocolVersions),
                              metadataCache.document, metadataCache.protocolVersions, OutcomeOf(r))
      ensures r.Ok? <==> adapter.Some?
      ensures r.Ok? ==> adapter == Some(r.value)
      ensures httpConnection == old(httpConnection)
    {
      fetched := false;
      if adapter.None? {
        var created;
        created, fetched := CreateAdapter(fetch, parse, defaultFormat);
        if created.Err? {
          return created, fetched;
        }
        adapter := Some(created.value);
      }
      r := Ok(adapter.value);
    }

    /**
     * ResolveAdapterAsync: reads the adapter, first taking its default
     * payload format into the settings when none is chosen; a chosen format
     * is kept. At most one metadata request is sent.
     */
    method ResolveAdapter(fetch: Result<MetadataResponse>, parse: XmlParser, defaultFormat: PayloadFormat)
      returns (r: Result<Adapter>, fetched: bool)
      modifies this, metadataCache, settings
      ensures old(settings.payloadFormat) != Unspecified ==> settings.payloadFormat == old(settings.payloadFormat)
      ensures old(settings.payloadFormat) == Unspecified && r.Ok? ==>
                settings.payloadFormat == r.value.defaultPayloadFormat
      ensures old(adapter).Some? ==> r == Ok(old(adapter).value) && !fetched
      ensures old(adapter).None? && r.Ok? ==> fresh(r.value) && r.value.defaultPayloadFormat == defaultFormat
      ensures fetched ==> !old(metadataCache.IsResolved()) && IsNullOrEmpty(old(settings.metadataDocument))
      ensures fetched <==>
                old(adapter).None? && !old(metadataCache.IsResolved()) && IsNullOrEmpty(old(settings.metadataDocument))
      ensures r.Ok? ==> adapter == Some(r.value)
      ensures r.Ok? <==> adapter.Some?
      ensures old(adapter).Some? ==> unchanged(metadataCache)
      ensures old(adapter).None? ==>
                Resolution(old(settings.metadataDocument), fetch, parse,
                           old(metadataCache.document), old(metadataCache.protocolVersions),
                           metadataCache.document, metadataCache.protocolVersions, OutcomeOf(r))
      ensures httpConnection == old(httpConnection)
      ensures settings.baseUri == old(settings.baseUri) && settings.metadataDocument == old(settings.metadataDocument)
    {
      fetched := false;
      if settings.payloadFormat == Unspecified {
        var first;
        first, fetched := GetAdapter(fetch, parse, defaultFormat);
        if first.Err? {
          return first, fetched;
        }
        settings.payloadFormat := first.value.defaultPayloadFormat;
      }
      var again;
      ghost var before := adapter;
      r, again := GetAdapter(fetch, parse, defaultFormat);
      assert before.Some? ==> !again;
      fetched := fetched || again;
    }

    /** GetHttpConnection: the open connection, created on first use. */
    method GetHttpConnection() returns (connection: HttpConnection)
      modifies this
      ensures old(httpConnection).Some? ==> connection == old(httpConnection).value && unchanged(this)
      ensures old(httpConnection).None? ==>
                fresh(connection) && !connection.disposed && connection.settings == settings
      ensures httpConnection == Some(connection) && adapter == old(adapter)
    {
      if httpConnection.None? {
        var created := new HttpConnection(settings);
        httpConnection := Some(created);
      }
      connection := httpConnection.value;
    }

    /** Dispose: disposes and forgets the open connection; without one it does nothing. */
    method Dispose()
      modifies DisposeFrame()
      ensures httpConnection.None? && adapter == old(adapter)
      ensures old(httpConnection).Some? ==> old(httpConnection).value.disposed
      ensures old(httpConnection).None? ==> unchanged(this)
    {
      if httpConnection.Some? {
        httpConnection.value.Dispose();
        httpConnection := None;
      }
    }

    /** ClearMetadataCache: the shared cache becomes unresolved. */
    method ClearMetadataCache()
      modifies metadataCache
      ensures !metadataCache.IsResolved() && metadataCache.protocolVersions == Some([])
    {
      metadataCache.Clear();
    }
  }

  /** Pass for an adapter, else the failure's error. */
  function OutcomeOf(r: Result<Adapter>): (o: Outcome)
    ensures o.Pass? <==> r.Ok?
    ensures r.Err? ==> o.error == r.error
  {
    if r.Ok? then Pass else Fail(r.error)
  }

  /**
   * How creating an adapter leaves the metadata cache, from its document
   * and versions `before` to those `after`, with `outcome` the success or
   * the error thrown. A resolved cache is kept. An unresolved one takes the
   * settings' document when there is one: its version, or the XML error
   * with the versions unchanged. Otherwise it takes the fetched response:
   * nothing changes when the request fails; else the content becomes the
   * document and the supported versions the versions, or their error is
   * thrown with the versions unchanged.
   */
  predicate Resolution(settingsDocument: Option<string>, fetch: Result<MetadataResponse>, parse: XmlParser,
                       documentBefore: Option<string>, versionsBefore: Option<seq<Option<string>>>,
                       documentAfter: Option<string>, versionsAfter: Option<seq<Option<string>>>,
                       outcome: Outcome)
  {
    if documentBefore.Some? then
      documentAfter == documentBefore && versionsAfter == versionsBefore && outcome == Pass
    else if !IsNullOrEmpty(settingsDocument) then
      && documentAfter == settingsDocument
      && match parse(settingsDocument.value)
         case Err(e) => outcome == Fail(e) && versionsAfter == versionsBefore
         case Ok(doc) => outcome == Pass && versionsAfter == Some([ProtocolVersionOf(doc)])
    else
      match fetch
      case Err(e) => outcome == Fail(e) && documentAfter == documentBefore && versionsAfter == versionsBefore
      case Ok(response) =>
        && documentAfter == Some(response.content)
        && match SupportedProtocolVersions(response, parse)
           case Err(e) => outcome == Fail(e) && versionsAfter == versionsBefore
           case Ok(versions) => outcome == Pass && versionsAfter == Some(versions)
  }

  /**
   * After get-or-add on `uri`: `cache` is registered under it, it is the
   * cache already registered there if there was one, and each other
   * registration is kept: nothing else is registered.
   */
  ghost predicate SharesCache(registry: CacheRegistry, before: map<string, MetadataCache>, uri: string, cache: MetadataCache)
    reads registry, cache
  {
    && uri in registry.instances && registry.instances[uri] == cache
    && (uri in before ==> cache == before[uri])
    && (uri !in before ==> !cache.IsResolved())
    && (forall u :: u in before ==> u in registry.instances && registry.instances[u] == before[u])
    && registry.instances == before[uri := cache]
  }
}
