/**
 * The per-service metadata cache (MetadataCache): a document that is either
 * resolved or not, the protocol versions the service supports, the reading
 * of those versions from response headers or from the document itself, and
 * the registry that holds one cache per service URI.
 *
 * The XML of a metadata document is given as the node its reader moves to
 * first (the root element) and the nodes it reads after it, each an element
 * with its attributes or some other node; parsing a string into that form is
 * a parameter that may fail.
 */
module MetadataCaches {
  import opened Values

  // Literals (HttpLiteral and ODataProtocolVersion).

  const V1: string := "1.0"
  const V2: string := "2.0"
  const V3: string := "3.0"
  const DataServiceVersion: string := "DataServiceVersion"
  const ODataVersion: string := "OData-Version"
  const MaxDataServiceVersion: string := "MaxDataServiceVersion"
  const VersionAttribute: string := "Version"

  const NotResolvedMessage: string := "Service metadata is not resolved"
  const NoVersionMessage: string := "Unable to identify OData protocol version"

  // The metadata document as its reader sees it.

  datatype XmlNode = Element(attributes: seq<(string, string)>) | OtherNode

  datatype XmlDocument = XmlDocument(root: XmlNode, following: seq<XmlNode>)

  /** XmlReader.Create over a string, up to MoveToContent; fails on a string that is not XML. */
  type XmlParser = string -> Result<XmlDocument>

  /** XmlReader.GetAttribute: the value of the named attribute of an element, null otherwise. */
  function Attribute(node: XmlNode, name: string): (v: Option<string>)
    ensures v.Some? ==> node.Element? && (name, v.value) in node.attributes
    ensures v.None? ==> !node.Element? || forall a :: a in node.attributes ==> a.0 != name
  {
    if node.Element? then FirstValue(node.attributes, name) else None
  }

  function FirstValue(pairs: seq<(string, string)>, name: string): (v: Option<string>)
    ensures v.Some? ==> (name, v.value) in pairs
    ensures v.None? ==> forall a :: a in pairs ==> a.0 != name
  {
    if pairs == [] then None
    else if pairs[0].0 == name then Some(pairs[0].1)
    else FirstValue(pairs[1..], name)
  }

  predicate IsNullOrEmpty(v: Option<string>) {
    v.None? || v.value == ""
  }

  /**
   * string.Compare with StringComparison.Ordinal, by sign: character by
   * character, a proper prefix first.
   */
  function OrdinalCompare(a: string, b: string): (c: int)
    ensures -1 <= c <= 1
    ensures c == 0 <==> a == b
  {
    if a == [] && b == [] then 0
    else if a == [] then -1
    else if b == [] then 1
    else if a[0] < b[0] then -1
    else if a[0] > b[0] then 1
    else
      var c := OrdinalCompare(a[1..], b[1..]);
      assert a == [a[0]] + a[1..] && b == [b[0]] + b[1..];
      c
  }

  /** Comparing the other way round flips the sign. */
  lemma {:induction false} OrdinalCompareFlips(a: string, b: string)
    ensures OrdinalCompare(b, a) == -OrdinalCompare(a, b)
  {
    if a != [] && b != [] && a[0] == b[0] {
      OrdinalCompareFlips(a[1..], b[1..]);
    }
  }

  /** Ordinal order is transitive. */
  lemma {:induction false} OrdinalCompareTransitive(a: string, b: string, c: string)
    requires OrdinalCompare(a, b) > 0 && OrdinalCompare(b, c) > 0
    ensures OrdinalCompare(a, c) > 0
  {
    if a != [] && b != [] && c != [] && a[0] == b[0] && b[0] == c[0] {
      OrdinalCompareTransitive(a[1..], b[1..], c[1..]);
    }
  }

  /** The first element among `nodes`, if any. */
  function FirstElement(nodes: seq<XmlNode>): (e: Option<XmlNode>)
    ensures e.Some? ==> e.value.Element? && e.value in nodes
    ensures e.None? <==> forall i :: 0 <= i < |nodes| ==> !nodes[i].Element?
  {
    if nodes == [] then None
    else if nodes[0].Element? then Some(nodes[0])
    else
      var e := FirstElement(nodes[1..]);
      assert forall i :: 1 <= i < |nodes| ==> nodes[i] == nodes[1..][i - 1];
      e
  }

  /** The version an element declares: its MaxDataServiceVersion, else its DataServiceVersion. */
  function DeclaredVersion(element: XmlNode): (v: Option<string>)
    ensures !IsNullOrEmpty(Attribute(element, "m:" + MaxDataServiceVersion)) ==>
              v == Attribute(element, "m:" + MaxDataServiceVersion)
    ensures IsNullOrEmpty(Attribute(element, "m:" + MaxDataServiceVersion)) ==>
              v == Attribute(element, "m:" + DataServiceVersion)
  {
    var max := Attribute(element, "m:" + MaxDataServiceVersion);
    if IsNullOrEmpty(max) then Attribute(element, "m:" + DataServiceVersion) else max
  }

  predicate IsKnownVersion(v: Option<string>) {
    v == Some(V1) || v == Some(V2) || v == Some(V3)
  }

  /**
   * The protocol version of a metadata document: the root's Version; for a
   * version 1, 2 or 3 root, the first element after it may raise it to the
   * version it declares when that is ordinally greater.
   */
  function ProtocolVersionOf(doc: XmlDocument): Option<string> {
    var rootVersion := Attribute(doc.root, VersionAttribute);
    if !IsKnownVersion(rootVersion) then rootVersion
    else
      match FirstElement(doc.following)
      case None => rootVersion
      case Some(element) =>
        var declared := DeclaredVersion(element);
        if !IsNullOrEmpty(declared) && OrdinalCompare(declared.value, rootVersion.value) > 0 then declared
        else rootVersion
  }

  /**
   * The document's version is the root's unless the root is version 1, 2 or
   * 3; it is never ordinally below the root's; when it differs, it is what
   * the first element declares; and for a version 1, 2 or 3 root it is the
   * first element's declared version exactly when that one is non-empty
   * and ordinally greater.
   */
  lemma ProtocolVersionBounds(doc: XmlDocument)
    ensures var rootVersion := Attribute(doc.root, VersionAttribute);
            var v := ProtocolVersionOf(doc);
            && (!IsKnownVersion(rootVersion) ==> v == rootVersion)
            && (IsKnownVersion(rootVersion) ==> v.Some? && OrdinalCompare(v.value, rootVersion.value) >= 0)
            && (v != rootVersion ==> FirstElement(doc.following).Some? &&
                                     v == DeclaredVersion(FirstElement(doc.following).value))
    ensures var rootVersion := Attribute(doc.root, VersionAttribute);
            var first := FirstElement(doc.following);
            IsKnownVersion(rootVersion) && first.Some? ==>
              var declared := DeclaredVersion(first.value);
              ProtocolVersionOf(doc) ==
                if !IsNullOrEmpty(declared) && OrdinalCompare(declared.value, rootVersion.value) > 0
                then declared else rootVersion
    ensures var rootVersion := Attribute(doc.root, VersionAttribute);
            IsKnownVersion(rootVersion) && FirstElement(doc.following).None? ==>
              ProtocolVersionOf(doc) == rootVersion
  {
  }

  /** Elements after the first one have no say in the version. */
  lemma OnlyFirstElementCounts(root: XmlNode, before: seq<XmlNode>, element: XmlNode,
                               after1: seq<XmlNode>, after2: seq<XmlNode>)
    requires forall i :: 0 <= i < |before| ==> !before[i].Element?
    requires element.Element?
    ensures ProtocolVersionOf(XmlDocument(root, before + [element] + after1)) ==
            ProtocolVersionOf(XmlDocument(root, before + [element] + after2))
  {
    FirstElementAfter(before, element, after1);
    FirstElementAfter(before, element, after2);
  }

  lemma {:induction false} FirstElementAfter(before: seq<XmlNode>, element: XmlNode, after: seq<XmlNode>)
    requires forall i :: 0 <= i < |before| ==> !before[i].Element?
    requires element.Element?
    ensures FirstElement(before + [element] + after) == Some(element)
  {
    var nodes := before + [element] + after;
    if before == [] {
      assert nodes[0] == element;
    } else {
      assert nodes[1..] == before[1..] + [element] + after;
      assert !nodes[0].Element?;
      FirstElementAfter(before[1..], element, after);
    }
  }

  /**
   * GetMetadataProtocolVersion over a parsed document: reads nodes until the
   * first element, takes its declared version if it is greater, and stops.
   */
  method GetMetadataProtocolVersion(doc: XmlDocument) returns (protocolVersion: Option<string>)
    ensures protocolVersion == ProtocolVersionOf(doc)
  {
    protocolVersion := Attribute(doc.root, VersionAttribute);
    if protocolVersion == Some(V1) || protocolVersion == Some(V2) || protocolVersion == Some(V3) {
      var i := 0;
      while i < |doc.following|
        invariant 0 <= i <= |doc.following|
        invariant FirstElement(doc.following) == FirstElement(doc.following[i..])
        invariant protocolVersion == Attribute(doc.root, VersionAttribute)
      {
        var node := doc.following[i];
        assert doc.following[i..][1..] == doc.following[i + 1..];
        if node.Element? {
          var version := Attribute(node, "m:" + MaxDataServiceVersion);
          if version.None? || version.value == "" {
            version := Attribute(node, "m:" + DataServiceVersion);
          }
          if !(version.None? || version.value == "") && OrdinalCompare(version.value, protocolVersion.value) > 0 {
            protocolVersion := version;
          }
          break;
        }
        i := i + 1;
      }
    }
  }

  // Versions from response headers.

  /** The first index of `c` in `s`. */
  function IndexOf(s: string, c: char): (i: nat)
    requires c in s
    ensures i < |s| && s[i] == c && c !in s[..i]
  {
    if s[0] == c then 0
    else
      var i := IndexOf(s[1..], c) + 1;
      assert s[..i] == [s[0]] + s[1..][..i - 1];
      i
  }

  /** The index of a `c` with none before it is the first index of `c`. */
  lemma {:induction false} IndexOfFirst(s: string, c: char, j: nat)
    requires j < |s| && s[j] == c
    requires forall k :: 0 <= k < j ==> s[k] != c
    ensures IndexOf(s, c) == j
  {
    if j > 0 {
      IndexOfFirst(s[1..], c, j - 1);
    }
  }

  /** string.Split on one separator: the pieces between separators, empty ones included. */
  function Split(s: string, c: char): (pieces: seq<string>)
    ensures |pieces| >= 1
    ensures forall i :: 0 <= i < |pieces| ==> c !in pieces[i]
    decreases |s|
  {
    if c !in s then [s]
    else
      var i := IndexOf(s, c);
      var rest := Split(s[i + 1..], c);
      [s[..i]] + rest
  }

  /** The pieces joined back with the separator between them. */
  function Join(pieces: seq<string>, c: char): string
    requires |pieces| >= 1
  {
    if |pieces| == 1 then pieces[0] else pieces[0] + [c] + Join(pieces[1..], c)
  }

  /** Splitting loses nothing: joining the pieces gives the string back. */
  lemma {:induction false} JoinSplit(s: string, c: char)
    ensures Join(Split(s, c), c) == s
    decreases |s|
  {
    if c in s {
      var i := IndexOf(s, c);
      JoinSplit(s[i + 1..], c);
      assert Split(s, c)[1..] == Split(s[i + 1..], c);
      assert s == s[..i] + [c] + s[i + 1..];
    }
  }

  /** A piece without the separator, then the separator, splits off as the first piece. */
  lemma SplitCons(head: string, c: char, tail: string)
    requires c !in head
    ensures Split(head + [c] + tail, c) == [head] + Split(tail, c)
  {
    var s := head + [c] + tail;
    assert s[|head|] == c;
    assert forall k :: 0 <= k < |head| ==> s[k] == head[k];
    IndexOfFirst(s, c, |head|);
    assert s[..|head|] == head;
    assert s[|head| + 1..] == tail;
  }

  /** Joining pieces that hold no separator and splitting again gives the pieces back. */
  lemma {:induction false} SplitJoin(pieces: seq<string>, c: char)
    requires |pieces| >= 1
    requires forall i :: 0 <= i < |pieces| ==> c !in pieces[i]
    ensures Split(Join(pieces, c), c) == pieces
    decreases |pieces|
  {
    if |pieces| > 1 {
      SplitCons(pieces[0], c, Join(pieces[1..], c));
      SplitJoin(pieces[1..], c);
      assert pieces == [pieces[0]] + pieces[1..];
    } else {
      assert Join(pieces, c) == pieces[0];
    }
  }

  /** The pieces of every value, value by value (SelectMany of Split). */
  function SplitAll(values: seq<string>, c: char): (pieces: seq<string>)
    ensures forall i :: 0 <= i < |pieces| ==> c !in pieces[i]
  {
    if values == [] then []
    else
      var head := Split(values[0], c);
      var rest := SplitAll(values[1..], c);
      assert forall i :: |head| <= i < |head + rest| ==> (head + rest)[i] == rest[i - |head|];
      head + rest
  }

  /** The non-empty strings, in order (Where x.Length > 0). */
  function NonEmpty(xs: seq<string>): (r: seq<string>)
    ensures forall i :: 0 <= i < |r| ==> r[i] != "" && r[i] in xs
    ensures forall x :: x in xs && x != "" ==> x in r
  {
    if xs == [] then []
    else
      var rest := NonEmpty(xs[1..]);
      assert forall x :: x in xs ==> x == xs[0] || x in xs[1..];
      if xs[0] == "" then rest else [xs[0]] + rest
  }

  /**
   * The versions a version header lists: its values split on ';', empty
   * pieces dropped. Each is non-empty and holds no ';'; HeaderVersionsCons
   * gives them value by value, in order.
   */
  function HeaderVersions(values: seq<string>): (versions: seq<string>)
    ensures forall i :: 0 <= i < |versions| ==> versions[i] != "" && ';' !in versions[i]
  {
    var pieces := SplitAll(values, ';');
    var versions := NonEmpty(pieces);
    assert forall i :: 0 <= i < |versions| ==> versions[i] in pieces;
    versions
  }

  /** A value without ';' is one version. */
  lemma SingleHeaderVersion(value: string)
    requires value != "" && ';' !in value
    ensures HeaderVersions([value]) == [value]
  {
    assert Split(value, ';') == [value];
    assert SplitAll([value], ';') == [value] by {
      assert SplitAll([value][1..], ';') == [];
    }
    assert NonEmpty([value]) == [value] by {
      assert NonEmpty([value][1..]) == [];
    }
  }

  /** Dropping empty strings distributes over concatenation, so it keeps the order. */
  lemma {:induction false} NonEmptyAppend(xs: seq<string>, ys: seq<string>)
    ensures NonEmpty(xs + ys) == NonEmpty(xs) + NonEmpty(ys)
  {
    if xs == [] {
      assert xs + ys == ys;
    } else {
      assert (xs + ys)[0] == xs[0];
      assert (xs + ys)[1..] == xs[1..] + ys;
      NonEmptyAppend(xs[1..], ys);
    }
  }

  /** One string is kept exactly when it is non-empty. */
  lemma NonEmptySingle(x: string)
    ensures NonEmpty([x]) == if x == "" then [] else [x]
  {
    assert NonEmpty([x][1..]) == [];
  }

  /** The versions of a header, value by value: the first value's non-empty pieces come first. */
  lemma HeaderVersionsCons(value: string, values: seq<string>)
    ensures HeaderVersions([value] + values) == NonEmpty(Split(value, ';')) + HeaderVersions(values)
  {
    assert ([value] + values)[1..] == values;
    assert SplitAll([value] + values, ';') == Split(value, ';') + SplitAll(values, ';');
    NonEmptyAppend(Split(value, ';'), SplitAll(values, ';'));
  }

  /** A value holding two non-empty versions separated by ';' lists both, in order. */
  lemma HeaderVersionsPair(first: string, second: string)
    requires first != "" && ';' !in first
    requires second != "" && ';' !in second
    ensures HeaderVersions([first + [';'] + second]) == [first, second]
  {
    assert Split(first + [';'] + second, ';') == [first, second] by {
      SplitCons(first, ';', second);
    }
    var value := first + [';'] + second;
    HeaderVersionsCons(value, []);
    assert [value] + [] == [value];
    assert HeaderVersions([]) == [] by {
      assert SplitAll([], ';') == [];
    }
    assert [first, second] == [first] + [second];
    NonEmptyAppend([first], [second]);
    NonEmptySingle(first);
    NonEmptySingle(second);
  }

  /** A header "3.0;NetFx" lists two versions, in that order. */
  lemma HeaderVersionsExample()
    ensures HeaderVersions(["3.0;NetFx"]) == ["3.0", "NetFx"]
  {
    assert "3.0;NetFx" == "3.0" + [';'] + "NetFx";
    HeaderVersionsPair("3.0", "NetFx");
  }

  /** HTTP response headers, each name with its values (HttpResponseHeaders.TryGetValues). */
  type Headers = seq<(string, seq<string>)>

  function HeaderValues(headers: Headers, name: string): (v: Option<seq<string>>)
    ensures v.Some? ==> (name, v.value) in headers
    ensures v.None? ==> forall h :: h in headers ==> h.0 != name
  {
    if headers == [] then None
    else if headers[0].0 == name then Some(headers[0].1)
    else HeaderValues(headers[1..], name)
  }

  /** A metadata response: its headers and its content read as a string. */
  datatype MetadataResponse = MetadataResponse(headers: Headers, content: string)

  /**
   * GetSupportedProtocolVersionsAsync: the DataServiceVersion header's
   * versions, else the OData-Version header's; without either, the version
   * of the document, and when the document cannot be read, an error.
   */
  function SupportedProtocolVersions(response: MetadataResponse, parse: XmlParser): (r: Result<seq<Option<string>>>)
    ensures HeaderValues(response.headers, DataServiceVersion).Some? ==>
              r == Ok(MapSeq(Wrap, HeaderVersions(HeaderValues(response.headers, DataServiceVersion).value)))
    ensures HeaderValues(response.headers, DataServiceVersion).None? &&
            HeaderValues(response.headers, ODataVersion).Some? ==>
              r == Ok(MapSeq(Wrap, HeaderVersions(HeaderValues(response.headers, ODataVersion).value)))
    ensures HeaderValues(response.headers, DataServiceVersion).None? &&
            HeaderValues(response.headers, ODataVersion).None? ==>
              r == match parse(response.content)
                   case Err(_) => Err(InvalidOperation(NoVersionMessage))
                   case Ok(doc) => Ok([ProtocolVersionOf(doc)])
  {
    var dataServiceVersion := HeaderValues(response.headers, DataServiceVersion);
    var oDataVersion := HeaderValues(response.headers, ODataVersion);
    if dataServiceVersion.Some? then Ok(MapSeq(Wrap, HeaderVersions(dataServiceVersion.value)))
    else if oDataVersion.Some? then Ok(MapSeq(Wrap, HeaderVersions(oDataVersion.value)))
    else
      match parse(response.content)
      case Err(_) => Err(InvalidOperation(NoVersionMessage))
      case Ok(doc) => Ok([ProtocolVersionOf(doc)])
  }

  function Wrap(s: string): Option<string> {
    Some(s)
  }

  // The cache.

  class MetadataCache {
    /** The metadata document, null while unresolved. */
    var document: Option<string>
    /** ProtocolVersions: null until first set or cleared. */
    var protocolVersions: Option<seq<Option<string>>>

    constructor ()
      ensures document.None? && protocolVersions.None?
    {
      document := None;
      protocolVersions := None;
    }

    predicate IsResolved()
      reads this
    {
      document.Some?
    }

    /** The metadata document, or an error while unresolved. */
    function MetadataDocument(): (r: Result<string>)
      reads this
      ensures r.Ok? <==> IsResolved()
      ensures r.Ok? ==> r.value == document.value
      ensures r.Err? ==> r.error == InvalidOperation(NotResolvedMessage)
    {
      if document.None? then Err(InvalidOperation(NotResolvedMessage)) else Ok(document.value)
    }

    method Clear()
      modifies this
      ensures !IsResolved() && protocolVersions == Some([])
    {
      document := None;
      protocolVersions := Some([]);
    }

    /**
     * SetMetadataDocument(string): the document is stored first; when it
     * cannot be read as XML the error is thrown and the versions stay as
     * they were, otherwise they are the one version the document declares.
     */
    method SetMetadataDocument(metadataString: string, parse: XmlParser) returns (r: Outcome)
      modifies this
      ensures document == Some(metadataString) && IsResolved()
      ensures parse(metadataString).Err? ==>
                r == Fail(parse(metadataString).error) && protocolVersions == old(protocolVersions)
      ensures parse(metadataString).Ok? ==>
                r == Pass && protocolVersions == Some([ProtocolVersionOf(parse(metadataString).value)])
    {
      document := Some(metadataString);
      var parsed := parse(metadataString);
      if parsed.Err? {
        return Fail(parsed.error);
      }
      var version := GetMetadataProtocolVersion(parsed.value);
      protocolVersions := Some([version]);
      r := Pass;
    }

    /**
     * SetMetadataDocument(response): the document is the response content;
     * the versions are the supported ones, or the error is thrown and they
     * stay as they were.
     */
    method SetMetadataDocumentFromResponse(response: MetadataResponse, parse: XmlParser) returns (r: Outcome)
      modifies this
      ensures document == Some(response.content) && IsResolved()
      ensures SupportedProtocolVersions(response, parse).Err? ==>
                r == Fail(SupportedProtocolVersions(response, parse).error) && protocolVersions == old(protocolVersions)
      ensures SupportedProtocolVersions(response, parse).Ok? ==>
                r == Pass && protocolVersions == Some(SupportedProtocolVersions(response, parse).value)
    {
      document := Some(response.content);
      var versions := SupportedProtocolVersions(response, parse);
      if versions.Err? {
        return Fail(versions.error);
      }
      protocolVersions := Some(versions.value);
      r := Pass;
    }
  }

  /** MetadataCache.Instances: one cache per service URI. */
  class CacheRegistry {
    var instances: map<string, MetadataCache>

    constructor ()
      ensures instances == map[]
    {
      instances := map[];
    }

    /** The cache registered for `uri`, or a new unresolved one registered under it. */
    method GetOrAdd(uri: string) returns (cache: MetadataCache)
      modifies this
      ensures uri in old(instances) ==> cache == old(instances)[uri] && instances == old(instances)
      ensures uri !in old(instances) ==>
                && fresh(cache) && !cache.IsResolved() && cache.protocolVersions.None?
                && instances == old(instances)[uri := cache]
    {
      if uri in instances {
        cache := instances[uri];
      } else {
        cache := new MetadataCache();
        instances := instances[uri := cache];
      }
    }

    /** Clears every registered cache. */
    method ClearAll()
      modifies instances.Values
      ensures forall uri :: uri in instances ==>
                !instances[uri].IsResolved() && instances[uri].protocolVersions == Some([])
    {
      var todo := instances.Keys;
      while todo != {}
        invariant todo <= instances.Keys
        invariant forall uri :: uri in instances && uri !in todo ==>
                    !instances[uri].IsResolved() && instances[uri].protocolVersions == Some([])
        decreases |todo|
      {
        var uri :| uri in todo;
        instances[uri].Clear();
        todo := todo - {uri};
      }
    }
  }
}
