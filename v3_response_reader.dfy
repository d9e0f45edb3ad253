/**
 * The OData V3 response reader: it classifies a response message by the
 * payload kinds the message reader detects, converts the reader's complex
 * and collection values into result dictionaries and lists, and drives the
 * tree builder of ResponseReaderBase from the entry and feed reader's
 * states. A batch response is read operation by operation, each
 * operation's message being classified by its status code and, when it
 * has content, read like a response of its own.
 *
 * The Microsoft.Data.OData reader is replaced by the datatypes below: the
 * payload kinds, the values it reports, and the sequences of states its
 * three readers pass through.
 */
module V3ResponseReader {
  import opened Values
  import opened ODataResponses
  import opened ResponseReaderBase

  // What the OData message reader reports.

  datatype PayloadKind =
    | FeedPayload | EntryPayload | PropertyPayload | EntityReferenceLinkPayload | EntityReferenceLinksPayload
    | ValuePayload | BinaryValuePayload | CollectionPayload | ServiceDocumentPayload | MetadataDocumentPayload
    | ErrorPayload | BatchPayload | ParameterPayload

  /** A property value: a complex value, a collection value, or any other (primitive) object. */
  datatype ODataValue =
    | ComplexValue(properties: seq<ODataProperty>)
    | CollectionValue(items: seq<ODataValue>)
    | Primitive(value: Value)

  datatype ODataProperty = ODataProperty(name: string, value: ODataValue)

  datatype ODataFeed = ODataFeed(
    id: Option<string>,
    count: Option<int>,
    deltaLink: Option<string>,
    nextPageLink: Option<string>,
    instanceAnnotations: seq<(string, string)>)

  datatype StreamReference = StreamReference(
    contentType: Option<string>,
    readLink: Option<string>,
    editLink: Option<string>,
    eTag: Option<string>)

  datatype ODataEntry = ODataEntry(
    typeName: Option<string>,
    properties: seq<ODataProperty>,
    id: Option<string>,
    readLink: Option<string>,
    editLink: Option<string>,
    eTag: Option<string>,
    associationLinks: Option<seq<(Option<string>, Option<string>)>>,
    mediaResource: Option<StreamReference>,
    instanceAnnotations: seq<(string, string)>)

  /** A state of the entry/feed reader, with the item it reports in that state. */
  datatype ReaderEvent =
    | FeedStart(feed: ODataFeed)
    | FeedEnd(feed: ODataFeed)
    | EntryStart
    | EntryEnd(item: Option<ODataEntry>)
    | NavigationLinkStart(linkName: string)
    | NavigationLinkEnd
    | Completed
    | OtherReaderState

  /** A state of the collection reader. */
  datatype CollectionState =
    | CollectionStart
    | CollectionItem(item: ODataValue)
    | CollectionEnd
    | CollectionCompleted
    | OtherCollectionState

  /** A state of the batch reader; an operation carries its response message. */
  datatype BatchState =
    | ChangesetStart
    | Operation(message: ResponseMessage)
    | ChangesetEnd
    | OtherBatchState

  /**
   * A response message as the readers see it: its status, the payload kinds
   * detected in it, its content as text, and what each reader would report.
   */
  datatype ResponseMessage = ResponseMessage(
    statusCode: int,
    payloadKinds: set<PayloadKind>,
    text: string,
    events: seq<ReaderEvent>,
    collectionStates: seq<CollectionState>,
    propertyName: Option<string>,
    propertyValue: ODataValue,
    batchStates: seq<BatchState>)

  /**
   * The collaborators the reader consults: the metadata's IsTypeWithId,
   * ODataFeedAnnotations.Merge and ResponseNode.Value.
   */
  datatype Env = Env(isTypeWithId: Option<string> -> bool, merge: MergeAnnotations, nodeValue: NodeValue)

  // Payload-kind dispatch.

  datatype Route = StatusOnly | ValueText | Unsupported | BatchRoute | FeedRoute | CollectionRoute | PropertyRoute | EntryRoute

  /** Which branch of GetResponseAsync a set of detected payload kinds takes. */
  function DispatchOf(kinds: set<PayloadKind>): (r: Route)
    ensures r == StatusOnly <==> ErrorPayload in kinds
    ensures r == ValueText <==> ErrorPayload !in kinds && ValuePayload in kinds && CollectionPayload !in kinds
    ensures r == Unsupported <==> ErrorPayload !in kinds && ValuePayload in kinds && CollectionPayload in kinds
    ensures r == BatchRoute <==> ErrorPayload !in kinds && ValuePayload !in kinds && BatchPayload in kinds
    ensures r == FeedRoute <==>
              ErrorPayload !in kinds && ValuePayload !in kinds && BatchPayload !in kinds && FeedPayload in kinds
    ensures r == CollectionRoute <==>
              ErrorPayload !in kinds && ValuePayload !in kinds && BatchPayload !in kinds && FeedPayload !in kinds &&
              CollectionPayload in kinds
    ensures r == PropertyRoute <==>
              ErrorPayload !in kinds && ValuePayload !in kinds && BatchPayload !in kinds && FeedPayload !in kinds &&
              CollectionPayload !in kinds && PropertyPayload in kinds
    ensures r == EntryRoute <==>
              ErrorPayload !in kinds && ValuePayload !in kinds && BatchPayload !in kinds && FeedPayload !in kinds &&
              CollectionPayload !in kinds && PropertyPayload !in kinds
  {
    if ErrorPayload in kinds then StatusOnly
    else if ValuePayload in kinds then (if CollectionPayload in kinds then Unsupported else ValueText)
    else if BatchPayload in kinds then BatchRoute
    else if FeedPayload in kinds then FeedRoute
    else if CollectionPayload in kinds then CollectionRoute
    else if PropertyPayload in kinds then PropertyRoute
    else EntryRoute
  }

  /** Some detected kind is not Property: the reader then has a response. */
  predicate HasNonPropertyKind(kinds: set<PayloadKind>) {
    kinds - {PropertyPayload} != {}
  }

  lemma NonPropertyKind(kinds: set<PayloadKind>, kind: PayloadKind)
    requires kind in kinds && kind != PropertyPayload
    ensures HasNonPropertyKind(kinds)
  {
    assert kind in kinds - {PropertyPayload};
  }

  // Value conversion (GetPropertyValue).

  /**
   * A complex value becomes a dictionary of its converted properties (built
   * by ToDictionary, which throws on a repeated name), a collection value
   * the list of its converted items, anything else itself.
   */
  function PropertyValue(v: ODataValue): (r: Result<Value>)
    ensures v.Primitive? ==> r == Ok(v.value)
    decreases v
  {
    match v
    case ComplexValue(properties) =>
      var fields := AddProperties([], properties, 0);
      if fields.Err? then Err(fields.error) else Ok(Dict(fields.value))
    case CollectionValue(items) =>
      var values := ItemValues(items, 0);
      if values.Err? then Err(values.error) else Ok(List(values.value))
    case Primitive(x) => Ok(x)
  }

  /**
   * A complex value converts when every property value converts and no
   * name repeats; it becomes a dictionary with one pair per property, in
   * order, holding the converted value.
   */
  lemma ComplexValueConversion(properties: seq<ODataProperty>)
    ensures var r := PropertyValue(ComplexValue(properties));
            && (r.Ok? <==> Addable([], properties, 0))
            && (r.Ok? ==> r.value.Dict? && |r.value.fields| == |properties| &&
                          forall i :: 0 <= i < |properties| ==>
                            r.value.fields[i] == (properties[i].name, PropertyValue(properties[i].value).value))
  {
  }

  /** A collection value converts when every item converts; it becomes the list of converted items, in order. */
  lemma CollectionValueConversion(items: seq<ODataValue>)
    ensures var r := PropertyValue(CollectionValue(items));
            && (r.Ok? <==> forall i :: 0 <= i < |items| ==> PropertyValue(items[i]).Ok?)
            && (r.Ok? ==> r.value.List? && |r.value.items| == |items| &&
                          forall i :: 0 <= i < |items| ==> r.value.items[i] == PropertyValue(items[i]).value)
  {
  }

  /** Properties `k..` can be added to `entry`: each converts, and no name is present already or repeated. */
  predicate Addable(entry: Entry, properties: seq<ODataProperty>, k: nat)
    decreases properties, |properties| - k, 1
  {
    forall i :: k <= i < |properties| ==>
      && PropertyValue(properties[i].value).Ok?
      && !ContainsKey(entry, properties[i].name)
      && forall j :: k <= j < i ==> properties[j].name != properties[i].name
  }

  /** Properties `k..` are addable when property `k` converts and is new, and the rest are addable after it. */
  lemma AddableStep(entry: Entry, properties: seq<ODataProperty>, k: nat, v: Value)
    requires k < |properties|
    ensures Addable(entry, properties, k) <==>
              && PropertyValue(properties[k].value).Ok?
              && !ContainsKey(entry, properties[k].name)
              && Addable(entry + [(properties[k].name, v)], properties, k + 1)
    decreases properties, |properties| - k, 2
  {
    ContainsKeyAppend(entry, properties[k].name, v);
  }

  /** Adds properties `k..`, each converted, with Dictionary.Add semantics and in order. */
  function AddProperties(entry: Entry, properties: seq<ODataProperty>, k: nat): (r: Result<Entry>)
    requires k <= |properties|
    ensures r.Ok? <==> Addable(entry, properties, k)
    ensures r.Ok? ==>
              && |r.value| == |entry| + |properties| - k
              && r.value[..|entry|] == entry
              && forall i :: k <= i < |properties| ==>
                   r.value[|entry| + i - k] == (properties[i].name, PropertyValue(properties[i].value).value)
    decreases properties, |properties| - k, 3
  {
    if k == |properties| then Ok(entry)
    else
      var v := PropertyValue(properties[k].value);
      if v.Err? then Err(v.error)
      else
        var added := Add(entry, properties[k].name, v.value);
        if added.Err? then Err(added.error)
        else
          var r := AddProperties(added.value, properties, k + 1);
          AddableStep(entry, properties, k, v.value);
          if r.Ok? then
            assert r.value[..|entry|] == r.value[..|added.value|][..|entry|];
            assert r.value[|entry|] == r.value[..|added.value|][|entry|] == (properties[k].name, v.value);
            r
          else r
  }

  /** Converts items `k..` of a collection, in order; the first failure is the result. */
  function ItemValues(items: seq<ODataValue>, k: nat): (r: Result<seq<Value>>)
    requires k <= |items|
    ensures r.Ok? <==> forall i :: k <= i < |items| ==> PropertyValue(items[i]).Ok?
    ensures r.Ok? ==> |r.value| == |items| - k &&
                      forall i :: k <= i < |items| ==> r.value[i - k] == PropertyValue(items[i]).value
    decreases items, |items| - k
  {
    if k == |items| then Ok([])
    else
      var v := PropertyValue(items[k]);
      if v.Err? then Err(v.error)
      else
        var rest := ItemValues(items, k + 1);
        if rest.Err? then Err(rest.error) else Ok([v.value] + rest.value)
  }

  // Annotations, as field-selection rules.

  function FeedAnnotationsOf(feed: ODataFeed): (a: FeedAnnotations)
    ensures a.id == feed.id && a.count == feed.count
    ensures a.deltaLink == feed.deltaLink && a.nextPageLink == feed.nextPageLink
    ensures a.instanceAnnotations == feed.instanceAnnotations
  {
    FeedAnnotations(feed.id, feed.count, feed.deltaLink, feed.nextPageLink, feed.instanceAnnotations)
  }

  function MediaAnnotationsOf(value: Option<StreamReference>): (m: Option<MediaAnnotations>)
    ensures m.None? <==> value.None?
    ensures m.Some? ==> m.value.contentType == value.value.contentType && m.value.readLink == value.value.readLink &&
                        m.value.editLink == value.value.editLink && m.value.eTag == value.value.eTag
  {
    if value.None? then None
    else Some(MediaAnnotations(value.value.contentType, value.value.readLink, value.value.editLink, value.value.eTag))
  }

  /** The id and the two links are copied only for a type that has an id; they are null otherwise. */
  function EntryAnnotationsOf(env: Env, e: ODataEntry): (a: EntryAnnotations)
    ensures env.isTypeWithId(e.typeName) ==> a.id == e.id && a.readLink == e.readLink && a.editLink == e.editLink
    ensures !env.isTypeWithId(e.typeName) ==> a.id.None? && a.readLink.None? && a.editLink.None?
    ensures a.typeName == e.typeName && a.eTag == e.eTag && a.instanceAnnotations == e.instanceAnnotations
    ensures a.associationLinks == e.associationLinks
    ensures a.mediaResource == MediaAnnotationsOf(e.mediaResource)
  {
    var withId := env.isTypeWithId(e.typeName);
    EntryAnnotations(
      if withId then e.id else None,
      e.typeName,
      if withId then e.readLink else None,
      if withId then e.editLink else None,
      e.eTag,
      e.associationLinks,
      MediaAnnotationsOf(e.mediaResource),
      e.instanceAnnotations)
  }

  /** The text after the last '.', the whole text when there is none (`Split('.').Last()`). */
  function LastSegment(s: string): (r: string)
    ensures '.' !in r
    ensures |r| <= |s| && r == s[|s| - |r|..]
    ensures |r| < |s| ==> s[|s| - |r| - 1] == '.'
  {
    if s == [] then []
    else if s[|s| - 1] == '.' then []
    else
      var init := LastSegment(s[..|s| - 1]);
      assert s[..|s| - 1][|s| - 1 - |init|..] + [s[|s| - 1]] == s[|s| - |init| - 1..];
      init + [s[|s| - 1]]
  }

  /** The two pairs ConvertEntry adds with annotations: the short type name, then the entry annotations. */
  function AnnotationPairs(env: Env, e: ODataEntry): Entry
    requires e.typeName.Some?
  {
    [(ResourceTypeLiteral, Str(LastSegment(e.typeName.value))), (AnnotationsLiteral, EntryAnn(EntryAnnotationsOf(env, e)))]
  }

  /** The two annotation keys differ. */
  lemma AnnotationKeysDiffer()
    ensures ResourceTypeLiteral != AnnotationsLiteral
  {
    assert ResourceTypeLiteral[2] == 'r' && AnnotationsLiteral[2] == 'a';
  }

  /**
   * Adds the two annotation pairs with Dictionary.Add: it fails exactly
   * when either key is taken already, on the first one taken.
   */
  function Annotate(env: Env, entry: Entry, e: ODataEntry): (r: Result<Entry>)
    requires e.typeName.Some?
    ensures r.Ok? <==> !ContainsKey(entry, ResourceTypeLiteral) && !ContainsKey(entry, AnnotationsLiteral)
    ensures r.Err? ==>
              r.error == DuplicateKey(if ContainsKey(entry, ResourceTypeLiteral) then ResourceTypeLiteral else AnnotationsLiteral)
    ensures r.Ok? ==> r.value == entry + AnnotationPairs(env, e)
  {
    AnnotationKeysDiffer();
    AddBoth(entry, ResourceTypeLiteral, Str(LastSegment(e.typeName.value)),
            AnnotationsLiteral, EntryAnn(EntryAnnotationsOf(env, e)))
  }

  /**
   * ConvertEntry: the entry frame is left as it is for a null entry;
   * otherwise every property is added, converted, and with annotations the
   * short type name and the entry annotations besides.
   */
  function ConvertEntry(env: Env, entry: Entry, item: Option<ODataEntry>, includeAnnotations: bool): (r: Result<Entry>)
    ensures item.None? ==> r == Ok(entry)
    ensures item.Some? && !includeAnnotations ==> (r.Ok? <==> Addable(entry, item.value.properties, 0))
    ensures item.Some? && includeAnnotations && item.value.typeName.None? ==> r.Err?
    ensures item.Some? && includeAnnotations && item.value.typeName.Some? ==>
              var added := AddProperties(entry, item.value.properties, 0);
              (r.Ok? <==> added.Ok? && !ContainsKey(added.value, ResourceTypeLiteral) &&
                          !ContainsKey(added.value, AnnotationsLiteral))
    ensures item.Some? && r.Ok? ==>
              var ps := item.value.properties;
              && |r.value| == |entry| + |ps| + (if includeAnnotations then 2 else 0)
              && r.value[..|entry|] == entry
              && (forall i :: 0 <= i < |ps| ==>
                    PropertyValue(ps[i].value).Ok? && r.value[|entry| + i] == (ps[i].name, PropertyValue(ps[i].value).value))
              && (includeAnnotations ==> r.value[|entry| + |ps|..] == AnnotationPairs(env, item.value))
  {
    if item.None? then Ok(entry)
    else
      var odataEntry := item.value;
      var withProperties := AddProperties(entry, odataEntry.properties, 0);
      if withProperties.Err? then Err(withProperties.error)
      else if !includeAnnotations then withProperties
      else if odataEntry.typeName.None? then Err(NullReference)
      else
        var r := Annotate(env, withProperties.value, odataEntry);
        if r.Ok? then
          assert r.value[..|withProperties.value|] == withProperties.value;
          assert r.value[..|entry|] == withProperties.value[..|entry|];
          r
        else r
  }

  /** ConvertEntry as the tree builder takes it. */
  function Converter(env: Env): ConvertEntry<Option<ODataEntry>> {
    (e: Entry, item: Option<ODataEntry>, includeAnnotations: bool) => ConvertEntry(env, e, item, includeAnnotations)
  }

  // The entry/feed reader loop.

  /** The reader's states up to the first Completed (where the loop breaks). */
  function UntilCompleted(events: seq<ReaderEvent>): (r: seq<ReaderEvent>)
    ensures |r| <= |events| && r == events[..|r|]
    ensures forall i :: 0 <= i < |r| ==> !r[i].Completed?
    ensures |r| < |events| ==> events[|r|].Completed?
  {
    if events == [] || events[0].Completed? then []
    else [events[0]] + UntilCompleted(events[1..])
  }

  /** The move of the nesting discipline a reader state makes, if any. */
  function MoveOf(ev: ReaderEvent): Option<Move> {
    match ev
    case FeedStart(_) => Some(StartFeedMove)
    case FeedEnd(_) => Some(EndFeedMove)
    case EntryStart => Some(StartEntryMove)
    case EntryEnd(_) => Some(EndEntryMove)
    case NavigationLinkStart(_) => Some(StartLinkMove)
    case NavigationLinkEnd => Some(EndLinkMove)
    case _ => None
  }

  function KindsAfter(kinds: seq<Kind>, ev: ReaderEvent): (r: Option<seq<Kind>>)
    ensures Nested(kinds) && r.Some? ==> Nested(r.value)
  {
    match MoveOf(ev)
    case None => Some(kinds)
    case Some(m) => Nest(kinds, m)
  }

  /** The open items after a run of states, or None when the run breaks the nesting. */
  function KindsFrom(kinds: seq<Kind>, events: seq<ReaderEvent>): (r: Option<seq<Kind>>)
    ensures Nested(kinds) && r.Some? ==> Nested(r.value)
    decreases |events|
  {
    if events == [] then Some(kinds)
    else match KindsAfter(kinds, events[0])
      case None => None
      case Some(next) => KindsFrom(next, events[1..])
  }

  /** The states an OData reader reports are properly nested. */
  predicate WellFormed(events: seq<ReaderEvent>) {
    KindsFrom([], events).Some?
  }

  /** One state of the reader loop: the base handler its state selects. */
  function Step(env: Env, kinds: seq<Kind>, t: Tree, ev: ReaderEvent, includeAnnotations: bool): (r: Result<Tree>)
    requires Nested(kinds) && FitsAll(kinds, t.nodes) && RootFits(t.root) && KindsAfter(kinds, ev).Some?
    ensures r.Ok? ==> FitsAll(KindsAfter(kinds, ev).value, r.value.nodes) && RootFits(r.value.root)
  {
    match ev
    case FeedStart(feed) =>
      var frame := FeedFrame(Some(FeedAnnotationsOf(feed)));
      PushFits(kinds, t.nodes, FeedKind, frame);
      Ok(Tree(t.nodes + [frame], t.root))
    case FeedEnd(feed) =>
      var ended := FeedEnded(t, Some(FeedAnnotationsOf(feed)), env.merge);
      assert |kinds| >= 2 ==> MayHold(kinds[|kinds| - 2], FeedKind);
      PopFits(kinds, t.nodes, ended.nodes);
      Ok(ended)
    case EntryStart =>
      PushFits(kinds, t.nodes, EntryKind, EntryFrame);
      Ok(Tree(t.nodes + [EntryFrame], t.root))
    case EntryEnd(item) =>
      var ended := EntryEnded(t, item, includeAnnotations, Converter(env));
      assert |kinds| >= 2 ==> MayHold(kinds[|kinds| - 2], EntryKind);
      if ended.Err? then ended
      else
        PopFits(kinds, t.nodes, ended.value.nodes);
        ended
    case NavigationLinkStart(name) =>
      PushFits(kinds, t.nodes, LinkKind, LinkFrame(name));
      Ok(Tree(t.nodes + [LinkFrame(name)], t.root))
    case NavigationLinkEnd =>
      var nodes := LinkEnded(t.nodes, includeAnnotations, env.nodeValue);
      assert MayHold(kinds[|kinds| - 2], LinkKind);
      if nodes.Err? then Err(nodes.error)
      else
        PopFits(kinds, t.nodes, nodes.value);
        Ok(Tree(nodes.value, t.root))
    case _ => Ok(t)
  }

  /** The tree after a run of states; every frame keeps the kind of its item. */
  function Run(env: Env, kinds: seq<Kind>, t: Tree, events: seq<ReaderEvent>, includeAnnotations: bool): (r: Result<Tree>)
    requires Nested(kinds) && FitsAll(kinds, t.nodes) && RootFits(t.root) && KindsFrom(kinds, events).Some?
    ensures r.Ok? ==> FitsAll(KindsFrom(kinds, events).value, r.value.nodes) && RootFits(r.value.root)
    decreases |events|
  {
    if events == [] then Ok(t)
    else
      var next := KindsAfter(kinds, events[0]).value;
      var stepped := Step(env, kinds, t, events[0], includeAnnotations);
      if stepped.Err? then Err(stepped.error)
      else Run(env, next, stepped.value, events[1..], includeAnnotations)
  }

  /** The response of the entry reader: from a root feed frame a feed, from a root entry frame an entry. */
  function Finish(root: Option<ResponseNode>): (r: Result<ODataResponse>)
    requires RootFits(root)
    ensures root.None? ==> r == Err(NullReference)
    ensures root.Some? && root.value.feed.Some? ==> r == Ok(FromFeed(root.value.feed.value, root.value.feedAnnotations))
    ensures root.Some? && root.value.feed.None? ==> r == Ok(FromEntry(root.value.entry.value))
  {
    if root.None? then Err(NullReference)
    else if root.value.feed.Some? then Ok(FromFeed(root.value.feed.value, root.value.feedAnnotations))
    else Ok(FromEntry(root.value.entry.value))
  }

  function EntriesOf(env: Env, events: seq<ReaderEvent>, includeAnnotations: bool): Result<ODataResponse>
    requires WellFormed(UntilCompleted(events))
  {
    var t := Run(env, [], Tree([], None), UntilCompleted(events), includeAnnotations);
    if t.Err? then Err(t.error) else Finish(t.value.root)
  }

  // The collection reader loop.

  /** The items the collection reader reports before Completed, in order. */
  function ItemsFrom(states: seq<CollectionState>, i: nat): seq<ODataValue>
    requires i <= |states|
    decreases |states| - i
  {
    if i == |states| || states[i].CollectionCompleted? then []
    else if states[i].CollectionItem? then [states[i].item] + ItemsFrom(states, i + 1)
    else ItemsFrom(states, i + 1)
  }

  /** Every value converts. */
  predicate AllConverted(items: seq<ODataValue>) {
    forall j :: 0 <= j < |items| ==> PropertyValue(items[j]).Ok?
  }

  /** The converted items from state `i` on; the first failed conversion is the result. */
  function CollectionFrom(states: seq<CollectionState>, i: nat): (r: Result<seq<Value>>)
    requires i <= |states|
    ensures r.Ok? <==> AllConverted(ItemsFrom(states, i))
    ensures r.Ok? ==> |r.value| == |ItemsFrom(states, i)| &&
                      forall j :: 0 <= j < |r.value| ==> r.value[j] == PropertyValue(ItemsFrom(states, i)[j]).value
    decreases |states| - i
  {
    if i == |states| || states[i].CollectionCompleted? then Ok([])
    else if states[i].CollectionItem? then
      var items := ItemsFrom(states, i);
      assert items == [states[i].item] + ItemsFrom(states, i + 1);
      var v := PropertyValue(states[i].item);
      if v.Err? then
        assert items[0] == states[i].item;
        assert !AllConverted(items);
        Err(v.error)
      else
        var rest := CollectionFrom(states, i + 1);
        if rest.Err? then
          FailureShifts(states[i].item, ItemsFrom(states, i + 1));
          Err(rest.error)
        else
          assert forall j :: 0 < j < |items| ==> items[j] == ItemsFrom(states, i + 1)[j - 1];
          Ok([v.value] + rest.value)
    else
      assert ItemsFrom(states, i) == ItemsFrom(states, i + 1);
      CollectionFrom(states, i + 1)
  }

  lemma FailureShifts(x: ODataValue, xs: seq<ODataValue>)
    requires !AllConverted(xs)
    ensures !AllConverted([x] + xs)
  {
    var j :| 0 <= j < |xs| && !PropertyValue(xs[j]).Ok?;
    assert ([x] + xs)[j + 1] == xs[j];
  }

  function CollectionResponse(states: seq<CollectionState>): (r: Result<ODataResponse>)
    ensures r.Ok? <==> AllConverted(ItemsFrom(states, 0))
    ensures r.Ok? ==>
              var items := ItemsFrom(states, 0);
              && r.value.entries.Some? && |r.value.entries.value| == |items|
              && forall i :: 0 <= i < |items| ==> r.value.entries.value[i] == [(ResultLiteral, PropertyValue(items[i]).value)]
  {
    var values := CollectionFrom(states, 0);
    if values.Err? then Err(values.error) else Ok(FromCollection(values.value))
  }

  // The property payload.

  /** A property value that gives the reader a response: not null, and not an empty string. */
  predicate MakesResponse(v: ODataValue) {
    v != Primitive(Null) && v != Primitive(Str(""))
  }

  /**
   * A property payload: once the reader has a response, a one-entry feed
   * mapping the property's name (or "__result" when it has none) to its
   * converted value, or the conversion's error; before that, an empty feed.
   */
  function PropertyResponse(name: Option<string>, value: ODataValue, hasResponse: bool): (r: (Result<ODataResponse>, bool))
    ensures r.1 == (hasResponse || MakesResponse(value))
    ensures !r.1 ==> r.0 == Ok(FromFeed([], None))
    ensures r.1 && PropertyValue(value).Err? ==> r.0 == Err(PropertyValue(value).error)
    ensures r.1 && PropertyValue(value).Ok? ==>
              r.0 == Ok(FromFeed([[(if name.Some? then name.value else ResultLiteral, PropertyValue(value).value)]], None))
  {
    var has := hasResponse || MakesResponse(value);
    if has then
      var converted := PropertyValue(value);
      if converted.Err? then (Err(converted.error), has)
      else (Ok(FromFeed([[(if name.Some? then name.value else ResultLiteral, converted.value)]], None)), has)
    else (Ok(FromFeed([], None)), has)
  }

  // The whole reader, batch included.

  /** A batch operation's message that is read as a response of its own. */
  predicate IsParsed(statusCode: int) {
    statusCode != NoContent && statusCode < BadRequest
  }

  /** The reader's states of every message read with the entry reader are well formed. */
  predicate Readable(msg: ResponseMessage)
    decreases msg, 1
  {
    match DispatchOf(msg.payloadKinds)
    case FeedRoute => WellFormed(UntilCompleted(msg.events))
    case EntryRoute => WellFormed(UntilCompleted(msg.events))
    case BatchRoute => OperationsReadable(msg, 0)
    case _ => true
  }

  predicate OperationsReadable(msg: ResponseMessage, k: nat)
    decreases msg, 0, |msg.batchStates| - k
  {
    k < |msg.batchStates| ==>
      && (msg.batchStates[k].Operation? && IsParsed(msg.batchStates[k].message.statusCode) ==>
            Readable(msg.batchStates[k].message))
      && OperationsReadable(msg, k + 1)
  }

  /** The operation messages of a batch from state `k` on, in order. */
  function OperationsFrom(states: seq<BatchState>, k: nat): seq<ResponseMessage>
    requires k <= |states|
    decreases |states| - k
  {
    if k == |states| then []
    else if states[k].Operation? then [states[k].message] + OperationsFrom(states, k + 1)
    else OperationsFrom(states, k + 1)
  }

  /** The sub-response of an operation with no content or an error status, by its status alone. */
  predicate Classified(operation: ResponseMessage, response: ODataResponse) {
    && (operation.statusCode == NoContent ==> response == FromStatusCode(NoContent, None))
    && (operation.statusCode != NoContent && operation.statusCode >= BadRequest ==>
          response == FromStatusCodeAndStream(operation.statusCode, operation.text))
  }

  /** Each sub-response is classified against the operation at its position. */
  predicate AllClassified(operations: seq<ResponseMessage>, responses: seq<ODataResponse>) {
    |responses| == |operations| && forall i :: 0 <= i < |responses| ==> Classified(operations[i], responses[i])
  }

  lemma AllClassifiedCons(operation: ResponseMessage, response: ODataResponse,
                          operations: seq<ResponseMessage>, responses: seq<ODataResponse>)
    requires Classified(operation, response) && AllClassified(operations, responses)
    ensures AllClassified([operation] + operations, [response] + responses)
  {
    assert forall i :: 0 < i <= |responses| ==>
             ([operation] + operations)[i] == operations[i - 1] && ([response] + responses)[i] == responses[i - 1];
  }

  /**
   * The response of GetResponseAsync and the reader's `hasResponse` after
   * it, which is set once any detected kind is not Property and then stays
   * set.
   */
  function ResponseOf(env: Env, msg: ResponseMessage, includeAnnotations: bool, hasResponse: bool)
    : (r: (Result<ODataResponse>, bool))
    requires Readable(msg)
    ensures hasResponse ==> r.1
    ensures HasNonPropertyKind(msg.payloadKinds) ==> r.1
    // An error payload is answered by the status code alone.
    ensures ErrorPayload in msg.payloadKinds ==> r == (Ok(FromStatusCode(msg.statusCode, None)), true)
    // A raw value is the text under "__result"; a raw value together with a collection is not supported.
    ensures ErrorPayload !in msg.payloadKinds && ValuePayload in msg.payloadKinds ==>
              r.1 && r.0 == if CollectionPayload in msg.payloadKinds then Err(NotImplemented)
                            else Ok(FromFeed([[(ResultLiteral, Str(msg.text))]], None))
    ensures DispatchOf(msg.payloadKinds) == BatchRoute ==> r == BatchResponse(env, msg, true)
    ensures DispatchOf(msg.payloadKinds) == FeedRoute ==> r == (EntriesOf(env, msg.events, includeAnnotations), true)
    ensures DispatchOf(msg.payloadKinds) == CollectionRoute ==> r == (CollectionResponse(msg.collectionStates), true)
    // A property keeps the flag unless some other kind was detected alongside it.
    ensures DispatchOf(msg.payloadKinds) == PropertyRoute ==>
              r == PropertyResponse(msg.propertyName, msg.propertyValue,
                                    hasResponse || HasNonPropertyKind(msg.payloadKinds))
    // With no kind routed elsewhere the entry reader runs; any detected kind sets the flag.
    ensures DispatchOf(msg.payloadKinds) == EntryRoute ==>
              r == (EntriesOf(env, msg.events, includeAnnotations), hasResponse || msg.payloadKinds != {})
    decreases msg, 1
  {
    var has := hasResponse || HasNonPropertyKind(msg.payloadKinds);
    match DispatchOf(msg.payloadKinds)
    case StatusOnly =>
      NonPropertyKind(msg.payloadKinds, ErrorPayload);
      (Ok(FromStatusCode(msg.statusCode, None)), has)
    case ValueText =>
      NonPropertyKind(msg.payloadKinds, ValuePayload);
      (Ok(FromFeed([[(ResultLiteral, Str(msg.text))]], None)), has)
    case Unsupported =>
      NonPropertyKind(msg.payloadKinds, ValuePayload);
      (Err(NotImplemented), has)
    case BatchRoute =>
      NonPropertyKind(msg.payloadKinds, BatchPayload);
      BatchResponse(env, msg, has)
    case FeedRoute =>
      NonPropertyKind(msg.payloadKinds, FeedPayload);
      (EntriesOf(env, msg.events, includeAnnotations), has)
    case CollectionRoute =>
      NonPropertyKind(msg.payloadKinds, CollectionPayload);
      (CollectionResponse(msg.collectionStates), has)
    case PropertyRoute => PropertyResponse(msg.propertyName, msg.propertyValue, has)
    case EntryRoute =>
      assert HasNonPropertyKind(msg.payloadKinds) == (msg.payloadKinds != {}) by {
        assert msg.payloadKinds - {PropertyPayload} == msg.payloadKinds;
      }
      (EntriesOf(env, msg.events, includeAnnotations), has)
  }

  /** A batch: one sub-response per operation, in order, each classified by its status. */
  function BatchResponse(env: Env, msg: ResponseMessage, hasResponse: bool): (r: (Result<ODataResponse>, bool))
    requires OperationsReadable(msg, 0)
    ensures hasResponse ==> r.1
    ensures r.0.Ok? ==>
              var operations := OperationsFrom(msg.batchStates, 0);
              && r.0.value.batch.Some? && |r.0.value.batch.value| == |operations|
              && (forall i :: 0 <= i < |operations| ==> Classified(operations[i], r.0.value.batch.value[i]))
              && NoEntries(r.0.value) && NoEntry(r.0.value) && NoStatus(r.0.value)
    decreases msg, 0, |msg.batchStates| + 1
  {
    var sub := BatchFrom(env, msg, 0, hasResponse);
    (if sub.0.Err? then Err(sub.0.error) else Ok(FromBatch(sub.0.value)), sub.1)
  }

  /**
   * The sub-response of one operation: by its status when it has no
   * content or an error status, else its message read without annotations.
   */
  function OperationResponse(env: Env, operation: ResponseMessage, hasResponse: bool)
    : (r: (Result<ODataResponse>, bool))
    requires IsParsed(operation.statusCode) ==> Readable(operation)
    ensures hasResponse ==> r.1
    ensures r.0.Ok? ==> Classified(operation, r.0.value)
    ensures !IsParsed(operation.statusCode) ==> r.0.Ok? && r.1 == hasResponse
    ensures IsParsed(operation.statusCode) ==> r == ResponseOf(env, operation, false, hasResponse)
    decreases operation, 2
  {
    if operation.statusCode == NoContent then (Ok(FromStatusCode(operation.statusCode, None)), hasResponse)
    else if operation.statusCode >= BadRequest then
      (Ok(FromStatusCodeAndStream(operation.statusCode, operation.text)), hasResponse)
    else ResponseOf(env, operation, false, hasResponse)
  }

  /** The sub-responses of the operations from state `k` on; a failed read ends the batch. */
  function BatchFrom(env: Env, msg: ResponseMessage, k: nat, hasResponse: bool)
    : (r: (Result<seq<ODataResponse>>, bool))
    requires k <= |msg.batchStates| && OperationsReadable(msg, k)
    ensures hasResponse ==> r.1
    ensures r.0.Ok? ==> AllClassified(OperationsFrom(msg.batchStates, k), r.0.value)
    decreases msg, 0, |msg.batchStates| - k
  {
    if k == |msg.batchStates| then (Ok([]), hasResponse)
    else if !msg.batchStates[k].Operation? then BatchFrom(env, msg, k + 1, hasResponse)
    else
      var operation := msg.batchStates[k].message;
      var one := OperationResponse(env, operation, hasResponse);
      if one.0.Err? then (Err(one.0.error), one.1)
      else
        var rest := BatchFrom(env, msg, k + 1, one.1);
        if rest.0.Err? then rest
        else
          assert OperationsFrom(msg.batchStates, k) == [operation] + OperationsFrom(msg.batchStates, k + 1);
          AllClassifiedCons(operation, one.0.value, OperationsFrom(msg.batchStates, k + 1), rest.0.value);
          (Ok([one.0.value] + rest.0.value), rest.1)
  }

  /** BatchFrom at a state that is not the last, one state unfolded. */
  lemma BatchFromStep(env: Env, msg: ResponseMessage, k: nat, hasResponse: bool)
    requires k < |msg.batchStates| && OperationsReadable(msg, k)
    ensures OperationsReadable(msg, k + 1)
    ensures msg.batchStates[k].Operation? && IsParsed(msg.batchStates[k].message.statusCode) ==>
              Readable(msg.batchStates[k].message)
    ensures BatchFrom(env, msg, k, hasResponse) ==
              if !msg.batchStates[k].Operation? then BatchFrom(env, msg, k + 1, hasResponse)
              else
                var one := OperationResponse(env, msg.batchStates[k].message, hasResponse);
                if one.0.Err? then (Err(one.0.error), one.1)
                else
                  var rest := BatchFrom(env, msg, k + 1, one.1);
                  if rest.0.Err? then rest else (Ok([one.0.value] + rest.0.value), rest.1)
  {
  }

  /** The operations from a state that is not an operation are those from the next state. */
  lemma OperationsFromSkip(states: seq<BatchState>, k: nat)
    requires k < |states| && !states[k].Operation?
    ensures OperationsFrom(states, k) == OperationsFrom(states, k + 1)
  {
  }

  /** The operations from an operation state: that operation, then those from the next state. */
  lemma OperationsFromCons(states: seq<BatchState>, k: nat)
    requires k < |states| && states[k].Operation?
    ensures OperationsFrom(states, k) == [states[k].message] + OperationsFrom(states, k + 1)
  {
  }

  /**
   * A sub-response of a parsed operation is what GetResponseAsync makes of
   * the operation's message without annotations, with the reader flag as
   * it stood before that operation.
   */
  predicate ParsedAs(env: Env, operation: ResponseMessage, response: ODataResponse) {
    IsParsed(operation.statusCode) ==>
      && Readable(operation)
      && (ResponseOf(env, operation, false, false).0 == Ok(response) ||
          ResponseOf(env, operation, false, true).0 == Ok(response))
  }

  /**
   * A sub-response of a parsed operation is what GetResponseAsync makes of
   * the operation's message without annotations once the reader has a
   * response, as it always has inside a batch.
   */
  predicate ReadAs(env: Env, operation: ResponseMessage, response: ODataResponse) {
    IsParsed(operation.statusCode) ==>
      Readable(operation) && ResponseOf(env, operation, false, true).0 == Ok(response)
  }

  /** Each sub-response satisfies ParsedAs against the operation at its position. */
  predicate AllParsedAs(env: Env, operations: seq<ResponseMessage>, responses: seq<ODataResponse>) {
    |responses| == |operations| && forall i :: 0 <= i < |responses| ==> ParsedAs(env, operations[i], responses[i])
  }

  /** Each sub-response satisfies ReadAs against the operation at its position. */
  predicate AllReadAs(env: Env, operations: seq<ResponseMessage>, responses: seq<ODataResponse>) {
    |responses| == |operations| && forall i :: 0 <= i < |responses| ==> ReadAs(env, operations[i], responses[i])
  }

  lemma AllParsedAsCons(env: Env, operation: ResponseMessage, response: ODataResponse,
                        operations: seq<ResponseMessage>, responses: seq<ODataResponse>)
    requires ParsedAs(env, operation, response) && AllParsedAs(env, operations, responses)
    ensures AllParsedAs(env, [operation] + operations, [response] + responses)
  {
    var os, rs := [operation] + operations, [response] + responses;
    forall i | 0 <= i < |rs|
      ensures ParsedAs(env, os[i], rs[i])
    {
      if i > 0 {
        assert os[i] == operations[i - 1] && rs[i] == responses[i - 1];
      }
    }
  }

  lemma AllReadAsCons(env: Env, operation: ResponseMessage, response: ODataResponse,
                      operations: seq<ResponseMessage>, responses: seq<ODataResponse>)
    requires ReadAs(env, operation, response) && AllReadAs(env, operations, responses)
    ensures AllReadAs(env, [operation] + operations, [response] + responses)
  {
    var os, rs := [operation] + operations, [response] + responses;
    forall i | 0 <= i < |rs|
      ensures ReadAs(env, os[i], rs[i])
    {
      if i > 0 {
        assert os[i] == operations[i - 1] && rs[i] == responses[i - 1];
      }
    }
  }

  /**
   * Every sub-response of a parsed operation is that operation's message
   * read as a response, with the flag set when the batch is read with it.
   */
  lemma {:induction false} BatchFromParsed(env: Env, msg: ResponseMessage, k: nat, hasResponse: bool)
    requires k <= |msg.batchStates| && OperationsReadable(msg, k)
    ensures var r := BatchFrom(env, msg, k, hasResponse);
            r.0.Ok? ==> AllParsedAs(env, OperationsFrom(msg.batchStates, k), r.0.value)
    ensures var r := BatchFrom(env, msg, k, hasResponse);
            hasResponse && r.0.Ok? ==> AllReadAs(env, OperationsFrom(msg.batchStates, k), r.0.value)
    decreases |msg.batchStates| - k
  {
    if k < |msg.batchStates| {
      BatchFromStep(env, msg, k, hasResponse);
      if !msg.batchStates[k].Operation? {
        OperationsFromSkip(msg.batchStates, k);
        BatchFromParsed(env, msg, k + 1, hasResponse);
      } else {
        OperationsFromCons(msg.batchStates, k);
        var operation := msg.batchStates[k].message;
        var one := OperationResponse(env, operation, hasResponse);
        if one.0.Ok? {
          BatchFromParsed(env, msg, k + 1, one.1);
          var rest := BatchFrom(env, msg, k + 1, one.1);
          if rest.0.Ok? {
            var later := OperationsFrom(msg.batchStates, k + 1);
            assert ParsedAs(env, operation, one.0.value);
            AllParsedAsCons(env, operation, one.0.value, later, rest.0.value);
            if hasResponse {
              assert ReadAs(env, operation, one.0.value) && one.1;
              AllReadAsCons(env, operation, one.0.value, later, rest.0.value);
            }
          }
        }
      }
    }
  }

  /** A batch's sub-responses, operation by operation, are those operations' messages read as responses. */
  lemma BatchResponseParsed(env: Env, msg: ResponseMessage, hasResponse: bool)
    requires OperationsReadable(msg, 0)
    ensures var r := BatchResponse(env, msg, hasResponse);
            r.0.Ok? ==> AllParsedAs(env, OperationsFrom(msg.batchStates, 0), r.0.value.batch.value)
    ensures var r := BatchResponse(env, msg, hasResponse);
            hasResponse && r.0.Ok? ==> AllReadAs(env, OperationsFrom(msg.batchStates, 0), r.0.value.batch.value)
  {
    BatchFromParsed(env, msg, 0, hasResponse);
  }

  /** A parsed operation's message reads without error once the reader has a response. */
  predicate ReadsOk(env: Env, operation: ResponseMessage) {
    IsParsed(operation.statusCode) ==> Readable(operation) && ResponseOf(env, operation, false, true).0.Ok?
  }

  /** A parsed operation's message fails to read with `e` once the reader has a response. */
  predicate ReadFails(env: Env, operation: ResponseMessage, e: Error) {
    IsParsed(operation.statusCode) && Readable(operation) && ResponseOf(env, operation, false, true).0 == Err(e)
  }

  /** Every parsed operation of `operations` reads without error once the reader has a response. */
  predicate AllReadOk(env: Env, operations: seq<ResponseMessage>) {
    forall i :: 0 <= i < |operations| ==> ReadsOk(env, operations[i])
  }

  /**
   * Some parsed operation of `operations` fails to read with `e`, and every
   * operation before it reads without error.
   */
  predicate FailsFirst(env: Env, operations: seq<ResponseMessage>, e: Error) {
    exists i :: 0 <= i < |operations| && ReadFails(env, operations[i], e) &&
                forall j :: 0 <= j < i ==> ReadsOk(env, operations[j])
  }

  lemma AllReadOkCons(env: Env, operation: ResponseMessage, later: seq<ResponseMessage>)
    ensures AllReadOk(env, [operation] + later) <==> ReadsOk(env, operation) && AllReadOk(env, later)
  {
    var operations := [operation] + later;
    if ReadsOk(env, operation) && AllReadOk(env, later) {
      forall i | 0 < i < |operations|
        ensures ReadsOk(env, operations[i])
      {
        assert operations[i] == later[i - 1];
      }
      assert ReadsOk(env, operations[0]);
    }
    if AllReadOk(env, operations) {
      assert ReadsOk(env, operations[0]);
      forall i | 0 <= i < |later|
        ensures ReadsOk(env, later[i])
      {
        assert later[i] == operations[i + 1];
      }
    }
  }

  /** No operation of `operations` is parsed: each has no content or an error status. */
  predicate NoneParsed(operations: seq<ResponseMessage>) {
    forall i :: 0 <= i < |operations| ==> !IsParsed(operations[i].statusCode)
  }

  lemma NoneParsedCons(operation: ResponseMessage, later: seq<ResponseMessage>)
    requires NoneParsed([operation] + later)
    ensures !IsParsed(operation.statusCode) && NoneParsed(later)
  {
    var operations := [operation] + later;
    assert operations[0] == operation;
    forall i | 0 <= i < |later|
      ensures !IsParsed(later[i].statusCode)
    {
      assert later[i] == operations[i + 1];
    }
  }

  lemma FailsFirstCons(env: Env, operation: ResponseMessage, later: seq<ResponseMessage>, e: Error)
    ensures ReadFails(env, operation, e) ==> FailsFirst(env, [operation] + later, e)
    ensures ReadsOk(env, operation) && FailsFirst(env, later, e) ==> FailsFirst(env, [operation] + later, e)
  {
    var operations := [operation] + later;
    if ReadFails(env, operation, e) {
      assert ReadFails(env, operations[0], e);
    }
    if ReadsOk(env, operation) && FailsFirst(env, later, e) {
      var i :| 0 <= i < |later| && ReadFails(env, later[i], e) && forall j :: 0 <= j < i ==> ReadsOk(env, later[j]);
      assert operations[i + 1] == later[i];
      assert forall j :: 0 < j <= i ==> operations[j] == later[j - 1];
    }
  }

  /** A batch read never fails when no operation is parsed: 204 and error statuses are taken as they are. */
  lemma {:induction false} BatchFromUnparsed(env: Env, msg: ResponseMessage, k: nat, hasResponse: bool)
    requires k <= |msg.batchStates| && OperationsReadable(msg, k)
    requires NoneParsed(OperationsFrom(msg.batchStates, k))
    ensures BatchFrom(env, msg, k, hasResponse).0.Ok?
    decreases |msg.batchStates| - k
  {
    if k < |msg.batchStates| {
      BatchFromStep(env, msg, k, hasResponse);
      if !msg.batchStates[k].Operation? {
        OperationsFromSkip(msg.batchStates, k);
        BatchFromUnparsed(env, msg, k + 1, hasResponse);
      } else {
        OperationsFromCons(msg.batchStates, k);
        NoneParsedCons(msg.batchStates[k].message, OperationsFrom(msg.batchStates, k + 1));
        var one := OperationResponse(env, msg.batchStates[k].message, hasResponse);
        BatchFromUnparsed(env, msg, k + 1, one.1);
      }
    }
  }

  /**
   * With the flag set, as inside GetResponseAsync, a batch read succeeds
   * exactly when every parsed operation's message reads without error.
   */
  lemma {:induction false} BatchFromSucceeds(env: Env, msg: ResponseMessage, k: nat)
    requires k <= |msg.batchStates| && OperationsReadable(msg, k)
    ensures BatchFrom(env, msg, k, true).0.Ok? <==> AllReadOk(env, OperationsFrom(msg.batchStates, k))
    decreases |msg.batchStates| - k
  {
    if k < |msg.batchStates| {
      BatchFromStep(env, msg, k, true);
      if !msg.batchStates[k].Operation? {
        OperationsFromSkip(msg.batchStates, k);
        BatchFromSucceeds(env, msg, k + 1);
      } else {
        OperationsFromCons(msg.batchStates, k);
        var operation := msg.batchStates[k].message;
        AllReadOkCons(env, operation, OperationsFrom(msg.batchStates, k + 1));
        var one := OperationResponse(env, operation, true);
        assert one.1 && (one.0.Ok? <==> ReadsOk(env, operation));
        BatchFromSucceeds(env, msg, k + 1);
      }
    }
  }

  /**
   * With the flag set, a failed batch read fails with the error of a
   * parsed operation whose message fails to read, every operation before
   * it reading without error.
   */
  lemma {:induction false} BatchFromFirstFailure(env: Env, msg: ResponseMessage, k: nat)
    requires k <= |msg.batchStates| && OperationsReadable(msg, k)
    ensures var r := BatchFrom(env, msg, k, true);
            r.0.Err? ==> FailsFirst(env, OperationsFrom(msg.batchStates, k), r.0.error)
    decreases |msg.batchStates| - k
  {
    if k < |msg.batchStates| {
      BatchFromStep(env, msg, k, true);
      if !msg.batchStates[k].Operation? {
        OperationsFromSkip(msg.batchStates, k);
        BatchFromFirstFailure(env, msg, k + 1);
      } else {
        OperationsFromCons(msg.batchStates, k);
        var operation := msg.batchStates[k].message;
        var one := OperationResponse(env, operation, true);
        if one.0.Ok? {
          assert one.1 && ReadsOk(env, operation);
          BatchFromFirstFailure(env, msg, k + 1);
          var rest := BatchFrom(env, msg, k + 1, true);
          if rest.0.Err? {
            FailsFirstCons(env, operation, OperationsFrom(msg.batchStates, k + 1), rest.0.error);
          }
        } else {
          assert ReadFails(env, operation, one.0.error);
          FailsFirstCons(env, operation, OperationsFrom(msg.batchStates, k + 1), one.0.error);
        }
      }
    }
  }

  /**
   * A whole batch response: never an error when no operation is parsed;
   * read with the flag set, an error exactly when some parsed operation's
   * message fails to read, and then the error of the first such one.
   */
  lemma BatchResponseOutcome(env: Env, msg: ResponseMessage, hasResponse: bool)
    requires OperationsReadable(msg, 0)
    ensures NoneParsed(OperationsFrom(msg.batchStates, 0)) ==> BatchResponse(env, msg, hasResponse).0.Ok?
    ensures BatchResponse(env, msg, true).0.Ok? <==> AllReadOk(env, OperationsFrom(msg.batchStates, 0))
    ensures var r := BatchResponse(env, msg, true);
            r.0.Err? ==> FailsFirst(env, OperationsFrom(msg.batchStates, 0), r.0.error)
  {
    if NoneParsed(OperationsFrom(msg.batchStates, 0)) {
      BatchFromUnparsed(env, msg, 0, hasResponse);
    }
    BatchFromSucceeds(env, msg, 0);
    BatchFromFirstFailure(env, msg, 0);
  }

  /** The sub-responses read so far, put in front of the rest of a batch. */
  function Prepend(done: seq<ODataResponse>, rest: (Result<seq<ODataResponse>>, bool)): (Result<seq<ODataResponse>>, bool) {
    (if rest.0.Ok? then Ok(done + rest.0.value) else rest.0, rest.1)
  }

  lemma PrependOne(done: seq<ODataResponse>, one: ODataResponse, rest: (Result<seq<ODataResponse>>, bool))
    ensures Prepend(done + [one], rest) ==
              Prepend(done, if rest.0.Err? then rest else (Ok([one] + rest.0.value), rest.1))
  {
    if rest.0.Ok? {
      assert done + [one] + rest.0.value == done + ([one] + rest.0.value);
    }
  }

  /** The converted collection items read so far, put in front of the rest. */
  function PrependValues(done: seq<Value>, rest: Result<seq<Value>>): Result<seq<Value>> {
    if rest.Ok? then Ok(done + rest.value) else rest
  }

  /**
   * The reader. `hasResponse` only ever becomes true: once a response with
   * a non-Property payload kind (or a non-empty property) has been read, a
   * later empty property still yields a one-entry feed.
   */
  class ResponseReader {
    var hasResponse: bool
    const env: Env

    constructor (env: Env)
      ensures this.env == env && !hasResponse
    {
      this.env := env;
      hasResponse := false;
    }

    method GetResponse(msg: ResponseMessage, includeAnnotations: bool) returns (r: Result<ODataResponse>)
      requires Readable(msg)
      modifies this
      ensures (r, hasResponse) == ResponseOf(env, msg, includeAnnotations, old(hasResponse))
      decreases msg, 1
    {
      var kinds := msg.payloadKinds;
      if HasNonPropertyKind(kinds) {
        hasResponse := true;
      }
      if ErrorPayload in kinds {
        r := Ok(FromStatusCode(msg.statusCode, None));
      } else if ValuePayload in kinds {
        if CollectionPayload in kinds {
          r := Err(NotImplemented);
        } else {
          r := Ok(FromFeed([[(ResultLiteral, Str(msg.text))]], None));
        }
      } else if BatchPayload in kinds {
        r := ReadBatch(msg);
      } else if FeedPayload in kinds {
        r := ReadEntries(msg.events, includeAnnotations);
      } else if CollectionPayload in kinds {
        r := ReadCollection(msg.collectionStates);
      } else if PropertyPayload in kinds {
        if MakesResponse(msg.propertyValue) {
          hasResponse := true;
        }
        if hasResponse {
          var converted := PropertyValue(msg.propertyValue);
          if converted.Err? {
            return Err(converted.error);
          }
          var name := if msg.propertyName.Some? then msg.propertyName.value else ResultLiteral;
          r := Ok(FromFeed([[(name, converted.value)]], None));
        } else {
          r := Ok(FromFeed([], None));
        }
      } else {
        r := ReadEntries(msg.events, includeAnnotations);
      }
    }

    /** One operation of a batch, as OperationResponse says. */
    method ReadOperation(operation: ResponseMessage) returns (r: Result<ODataResponse>)
      requires IsParsed(operation.statusCode) ==> Readable(operation)
      modifies this
      ensures (r, hasResponse) == OperationResponse(env, operation, old(hasResponse))
      decreases operation, 2
    {
      if operation.statusCode == NoContent {
        r := Ok(FromStatusCode(operation.statusCode, None));
      } else if operation.statusCode >= BadRequest {
        r := Ok(FromStatusCodeAndStream(operation.statusCode, operation.text));
      } else {
        r := GetResponse(operation, false);
      }
    }

    method ReadBatch(msg: ResponseMessage) returns (r: Result<ODataResponse>)
      requires OperationsReadable(msg, 0)
      modifies this
      ensures (r, hasResponse) == BatchResponse(env, msg, old(hasResponse))
      decreases msg, 0
    {
      ghost var whole := BatchFrom(env, msg, 0, hasResponse);
      var batch: seq<ODataResponse> := [];
      var k := 0;
      assert whole.0.Ok? ==> [] + whole.0.value == whole.0.value;
      while k < |msg.batchStates|
        invariant k <= |msg.batchStates| && OperationsReadable(msg, k)
        invariant whole == Prepend(batch, BatchFrom(env, msg, k, hasResponse))
        decreases |msg.batchStates| - k
      {
        ghost var here := BatchFrom(env, msg, k, hasResponse);
        BatchFromStep(env, msg, k, hasResponse);
        if msg.batchStates[k].Operation? {
          var parsed := ReadOperation(msg.batchStates[k].message);
          if parsed.Err? {
            assert here == (Err(parsed.error), hasResponse);
            return Err(parsed.error);
          }
          var one := parsed.value;
          PrependOne(batch, one, BatchFrom(env, msg, k + 1, hasResponse));
          batch := batch + [one];
        }
        k := k + 1;
      }
      assert batch + [] == batch;
      r := Ok(FromBatch(batch));
    }

    method ReadCollection(states: seq<CollectionState>) returns (r: Result<ODataResponse>)
      ensures r == CollectionResponse(states)
    {
      var collection: seq<Value> := [];
      var i := 0;
      assert CollectionFrom(states, 0).Ok? ==> [] + CollectionFrom(states, 0).value == CollectionFrom(states, 0).value;
      while i < |states|
        invariant i <= |states|
        invariant CollectionFrom(states, 0) == PrependValues(collection, CollectionFrom(states, i))
        decreases |states| - i
      {
        if states[i].CollectionCompleted? {
          break;
        }
        if states[i].CollectionItem? {
          var v := PropertyValue(states[i].item);
          if v.Err? {
            return Err(v.error);
          }
          ghost var rest := CollectionFrom(states, i + 1);
          if rest.Ok? {
            assert collection + [v.value] + rest.value == collection + ([v.value] + rest.value);
          }
          collection := collection + [v.value];
        }
        i := i + 1;
      }
      assert CollectionFrom(states, i) == Ok([]);
      assert collection + [] == collection;
      r := Ok(FromCollection(collection));
    }

    /** One state of the reader loop, handled on the node stack as Step says. */
    method Handle(nodeStack: NodeStack, rootNode: Option<ResponseNode>, ghost kinds: seq<Kind>, ev: ReaderEvent,
                  includeAnnotations: bool) returns (r: Result<Option<ResponseNode>>)
      requires Nested(kinds) && FitsAll(kinds, nodeStack.nodes) && RootFits(rootNode) && KindsAfter(kinds, ev).Some?
      modifies nodeStack
      ensures match Step(env, kinds, Tree(old(nodeStack.nodes), rootNode), ev, includeAnnotations)
              case Err(e) => r == Err(e)
              case Ok(t) => r == Ok(t.root) && nodeStack.nodes == t.nodes
    {
      r := Ok(rootNode);
      match ev {
        case FeedStart(feed) =>
          StartFeed(nodeStack, Some(FeedAnnotationsOf(feed)));
        case FeedEnd(feed) =>
          var root := EndFeed(nodeStack, Some(FeedAnnotationsOf(feed)), rootNode, env.merge);
          r := Ok(root);
        case EntryStart =>
          StartEntry(nodeStack);
        case EntryEnd(item) =>
          r := EndEntry(nodeStack, rootNode, item, includeAnnotations, Converter(env));
        case NavigationLinkStart(name) =>
          StartNavigationLink(nodeStack, name);
        case NavigationLinkEnd =>
          var ended := EndNavigationLink(nodeStack, includeAnnotations, env.nodeValue);
          if ended.Fail? {
            r := Err(ended.error);
          }
        case _ =>
      }
    }

    method ReadEntries(events: seq<ReaderEvent>, includeAnnotations: bool) returns (r: Result<ODataResponse>)
      requires WellFormed(UntilCompleted(events))
      ensures r == EntriesOf(env, events, includeAnnotations)
    {
      ghost var todo := UntilCompleted(events);
      ghost var whole := Run(env, [], Tree([], None), todo, includeAnnotations);
      ghost var kinds: seq<Kind> := [];
      var rootNode: Option<ResponseNode> := None;
      var nodeStack := new NodeStack();
      var i := 0;
      while i < |events|
        invariant i <= |todo|
        invariant Nested(kinds) && FitsAll(kinds, nodeStack.nodes) && RootFits(rootNode)
        invariant KindsFrom(kinds, todo[i..]).Some?
        invariant whole == Run(env, kinds, Tree(nodeStack.nodes, rootNode), todo[i..], includeAnnotations)
        decreases |events| - i
      {
        var ev := events[i];
        if ev.Completed? {
          break;
        }
        assert todo[i..] == [ev] + todo[i + 1..];
        RunCons(env, kinds, Tree(nodeStack.nodes, rootNode), ev, todo[i + 1..], includeAnnotations);
        ghost var next := KindsAfter(kinds, ev).value;
        var handled := Handle(nodeStack, rootNode, kinds, ev, includeAnnotations);
        if handled.Err? {
          return Err(handled.error);
        }
        rootNode := handled.value;
        kinds := next;
        i := i + 1;
      }
      assert todo[i..] == [];
      assert whole == Ok(Tree(nodeStack.nodes, rootNode));
      assert EntriesOf(env, events, includeAnnotations) == Finish(rootNode);
      if rootNode.None? {
        r := Err(NullReference);
      } else if rootNode.value.feed.Some? {
        r := Ok(FromFeed(rootNode.value.feed.value, rootNode.value.feedAnnotations));
      } else {
        r := Ok(FromEntry(rootNode.value.entry.value));
      }
    }
  }

  // What the entry reader yields for the shapes of response it is given.

  lemma KindsFromCons(kinds: seq<Kind>, ev: ReaderEvent, rest: seq<ReaderEvent>)
    ensures KindsFrom(kinds, [ev] + rest) ==
              match KindsAfter(kinds, ev)
              case None => None
              case Some(next) => KindsFrom(next, rest)
  {
    assert ([ev] + rest)[0] == ev && ([ev] + rest)[1..] == rest;
  }

  lemma UntilCompletedCons(ev: ReaderEvent, rest: seq<ReaderEvent>)
    requires !ev.Completed?
    ensures UntilCompleted([ev] + rest) == [ev] + UntilCompleted(rest)
  {
    assert ([ev] + rest)[0] == ev && ([ev] + rest)[1..] == rest;
  }

  lemma RunCons(env: Env, kinds: seq<Kind>, t: Tree, ev: ReaderEvent, rest: seq<ReaderEvent>, includeAnnotations: bool)
    requires Nested(kinds) && FitsAll(kinds, t.nodes) && RootFits(t.root) && KindsFrom(kinds, [ev] + rest).Some?
    ensures KindsAfter(kinds, ev).Some? && KindsFrom(KindsAfter(kinds, ev).value, rest).Some?
    ensures var stepped := Step(env, kinds, t, ev, includeAnnotations);
            Run(env, kinds, t, [ev] + rest, includeAnnotations) ==
              if stepped.Err? then Err(stepped.error)
              else Run(env, KindsAfter(kinds, ev).value, stepped.value, rest, includeAnnotations)
  {
    KindsFromCons(kinds, ev, rest);
    assert ([ev] + rest)[0] == ev && ([ev] + rest)[1..] == rest;
  }

  /** An empty response, or one that completes at once, has no root frame. */
  lemma NoRootIsNullReference(env: Env, events: seq<ReaderEvent>, includeAnnotations: bool)
    requires events == [] || events[0].Completed?
    ensures WellFormed(UntilCompleted(events)) && EntriesOf(env, events, includeAnnotations) == Err(NullReference)
  {
  }

  /** A single entry is read back as that entry, converted. */
  lemma SingleEntryIsRead(env: Env, item: Option<ODataEntry>, includeAnnotations: bool)
    ensures var events := [EntryStart, EntryEnd(item)];
            && WellFormed(UntilCompleted(events))
            && EntriesOf(env, events, includeAnnotations) ==
                 match ConvertEntry(env, [], item, includeAnnotations)
                 case Err(e) => Err(e)
                 case Ok(entry) => Ok(FromEntry(entry))
  {
    var last: seq<ReaderEvent> := [EntryEnd(item)];
    var events := [EntryStart] + last;
    assert events == [EntryStart, EntryEnd(item)];
    UntilCompletedCons(EntryEnd(item), []);
    UntilCompletedCons(EntryStart, last);
    assert UntilCompleted(events) == events;
    SingleEntryRun(env, item, includeAnnotations);
  }

  /** The reader loop over a single entry: the entry frame, converted, becomes the root. */
  lemma SingleEntryRun(env: Env, item: Option<ODataEntry>, includeAnnotations: bool)
    ensures KindsFrom([], [EntryStart, EntryEnd(item)]) == Some([])
    ensures Run(env, [], Tree([], None), [EntryStart, EntryEnd(item)], includeAnnotations) ==
              match ConvertEntry(env, [], item, includeAnnotations)
              case Err(e) => Err(e)
              case Ok(entry) => Ok(Tree([], Some(EntryFrame.(entry := Some(entry)))))
  {
    var last: seq<ReaderEvent> := [EntryEnd(item)];
    assert [EntryStart] + last == [EntryStart, EntryEnd(item)];
    RootEntryEndRun(env, item, includeAnnotations);
    assert [] + [EntryKind] == [EntryKind];
    KindsFromCons([], EntryStart, last);
    assert [] + [EntryFrame] == [EntryFrame];
    RunCons(env, [], Tree([], None), EntryStart, last, includeAnnotations);
  }

  /** The end of a top-level entry makes its frame, converted, the root. */
  lemma RootEntryEndRun(env: Env, item: Option<ODataEntry>, includeAnnotations: bool)
    ensures KindsFrom([EntryKind], [EntryEnd(item)]) == Some([])
    ensures Run(env, [EntryKind], Tree([EntryFrame], None), [EntryEnd(item)], includeAnnotations) ==
              match ConvertEntry(env, [], item, includeAnnotations)
              case Err(e) => Err(e)
              case Ok(entry) => Ok(Tree([], Some(EntryFrame.(entry := Some(entry)))))
  {
    assert [EntryKind][..0] == [];
    assert [EntryEnd(item)] == [EntryEnd(item)] + [];
    KindsFromCons([EntryKind], EntryEnd(item), []);
    RunCons(env, [EntryKind], Tree([EntryFrame], None), EntryEnd(item), [], includeAnnotations);
    assert Converter(env)([], item, includeAnnotations) == ConvertEntry(env, [], item, includeAnnotations);
  }

  /** One EntryStart/EntryEnd pair per item, followed by `tail`: the entries of a feed without links. */
  function EntryPairs(items: seq<Option<ODataEntry>>, tail: seq<ReaderEvent>): (events: seq<ReaderEvent>)
    ensures |events| == 2 * |items| + |tail|
  {
    if items == [] then tail else [EntryStart] + ([EntryEnd(items[0])] + EntryPairs(items[1..], tail))
  }

  /** Every item converted into an empty entry frame, in order; the first failure is the result. */
  function ConvertAll(env: Env, items: seq<Option<ODataEntry>>, includeAnnotations: bool): (r: Result<seq<Entry>>)
    ensures r.Ok? ==> |r.value| == |items|
  {
    if items == [] then Ok([])
    else
      var first := ConvertEntry(env, [], items[0], includeAnnotations);
      if first.Err? then Err(first.error)
      else
        var rest := ConvertAll(env, items[1..], includeAnnotations);
        if rest.Err? then Err(rest.error) else Ok([first.value] + rest.value)
  }

  /** The reader never stops early inside a run of entry pairs. */
  lemma {:induction false} EntryPairsComplete(items: seq<Option<ODataEntry>>, tail: seq<ReaderEvent>)
    ensures UntilCompleted(EntryPairs(items, tail)) == EntryPairs(items, UntilCompleted(tail))
  {
    if items != [] {
      var rest := EntryPairs(items[1..], tail);
      UntilCompletedCons(EntryEnd(items[0]), rest);
      UntilCompletedCons(EntryStart, [EntryEnd(items[0])] + rest);
      EntryPairsComplete(items[1..], tail);
    }
  }

  lemma {:induction false} EntryPairsNest(items: seq<Option<ODataEntry>>, tail: seq<ReaderEvent>)
    ensures KindsFrom([FeedKind], EntryPairs(items, tail)) == KindsFrom([FeedKind], tail)
  {
    if items != [] {
      var rest := EntryPairs(items[1..], tail);
      assert [FeedKind] + [EntryKind] == [FeedKind, EntryKind];
      assert [FeedKind, EntryKind][..1] == [FeedKind];
      KindsFromCons([FeedKind], EntryStart, [EntryEnd(items[0])] + rest);
      KindsFromCons([FeedKind, EntryKind], EntryEnd(items[0]), rest);
      EntryPairsNest(items[1..], tail);
    }
  }

  /** The feed frame `node` once `entries` are appended and the feed end's annotations merged in. */
  function ClosedFeed(env: Env, node: ResponseNode, entries: seq<Entry>, feedEnd: ODataFeed): ResponseNode
    requires node.feed.Some? && node.feedAnnotations.Some?
  {
    node.(feed := Some(node.feed.value + entries),
          feedAnnotations := Some(env.merge(node.feedAnnotations.value, Some(FeedAnnotationsOf(feedEnd)))))
  }

  /** The end of a top-level feed frame makes it the root, its annotations merged. */
  lemma FeedEndRun(env: Env, node: ResponseNode, feedEnd: ODataFeed, includeAnnotations: bool)
    requires node.feed.Some? && node.feedAnnotations.Some?
    ensures KindsFrom([FeedKind], [FeedEnd(feedEnd)]) == Some([])
    ensures Run(env, [FeedKind], Tree([node], None), [FeedEnd(feedEnd)], includeAnnotations) ==
              Ok(Tree([], Some(ClosedFeed(env, node, [], feedEnd))))
  {
    assert [FeedKind][..0] == [];
    assert [FeedEnd(feedEnd)] == [FeedEnd(feedEnd)] + [];
    KindsFromCons([FeedKind], FeedEnd(feedEnd), []);
    RunCons(env, [FeedKind], Tree([node], None), FeedEnd(feedEnd), [], includeAnnotations);
    assert node.feed.value + [] == node.feed.value;
  }

  /** The start of an entry inside a top-level feed frame pushes an entry frame. */
  lemma EntryStartRun(env: Env, node: ResponseNode, rest: seq<ReaderEvent>, includeAnnotations: bool)
    requires node.feed.Some? && KindsFrom([FeedKind, EntryKind], rest).Some?
    ensures KindsFrom([FeedKind], [EntryStart] + rest) == KindsFrom([FeedKind, EntryKind], rest)
    ensures Run(env, [FeedKind], Tree([node], None), [EntryStart] + rest, includeAnnotations) ==
              Run(env, [FeedKind, EntryKind], Tree([node, EntryFrame], None), rest, includeAnnotations)
  {
    assert [FeedKind] + [EntryKind] == [FeedKind, EntryKind];
    KindsFromCons([FeedKind], EntryStart, rest);
    assert [node] + [EntryFrame] == [node, EntryFrame];
    RunCons(env, [FeedKind], Tree([node], None), EntryStart, rest, includeAnnotations);
  }

  /** The end of that entry pops its frame and appends the converted entry to the feed. */
  lemma EntryEndRun(env: Env, node: ResponseNode, item: Option<ODataEntry>, rest: seq<ReaderEvent>,
                    includeAnnotations: bool)
    requires node.feed.Some? && KindsFrom([FeedKind], rest).Some?
    ensures KindsFrom([FeedKind, EntryKind], [EntryEnd(item)] + rest) == KindsFrom([FeedKind], rest)
    ensures var first := ConvertEntry(env, [], item, includeAnnotations);
            Run(env, [FeedKind, EntryKind], Tree([node, EntryFrame], None), [EntryEnd(item)] + rest, includeAnnotations) ==
              if first.Err? then Err(first.error)
              else Run(env, [FeedKind], Tree([node.(feed := Some(node.feed.value + [first.value]))], None), rest,
                       includeAnnotations)
  {
    assert [FeedKind, EntryKind][..1] == [FeedKind];
    KindsFromCons([FeedKind, EntryKind], EntryEnd(item), rest);
    var entered := Tree([node, EntryFrame], None);
    RunCons(env, [FeedKind, EntryKind], entered, EntryEnd(item), rest, includeAnnotations);
    var first := ConvertEntry(env, [], item, includeAnnotations);
    assert Converter(env)([], item, includeAnnotations) == first;
    if first.Ok? {
      var grown := node.(feed := Some(node.feed.value + [first.value]));
      assert EntryEnded(entered, item, includeAnnotations, Converter(env)) == Ok(Tree([grown], None));
    }
  }

  /** One entry pair inside a top-level feed frame appends the converted entry to the frame's feed. */
  lemma EntryPairRun(env: Env, node: ResponseNode, item: Option<ODataEntry>, rest: seq<ReaderEvent>,
                     includeAnnotations: bool)
    requires node.feed.Some? && KindsFrom([FeedKind], rest).Some?
    ensures KindsFrom([FeedKind], [EntryStart] + ([EntryEnd(item)] + rest)) == KindsFrom([FeedKind], rest)
    ensures var first := ConvertEntry(env, [], item, includeAnnotations);
            Run(env, [FeedKind], Tree([node], None), [EntryStart] + ([EntryEnd(item)] + rest), includeAnnotations) ==
              if first.Err? then Err(first.error)
              else Run(env, [FeedKind], Tree([node.(feed := Some(node.feed.value + [first.value]))], None), rest,
                       includeAnnotations)
  {
    EntryEndRun(env, node, item, rest, includeAnnotations);
    EntryStartRun(env, node, [EntryEnd(item)] + rest, includeAnnotations);
  }

  /** The entry pairs for `items`, one pair consumed. */
  lemma EntryPairsStep(env: Env, node: ResponseNode, items: seq<Option<ODataEntry>>, tail: seq<ReaderEvent>,
                       includeAnnotations: bool)
    requires node.feed.Some? && items != [] && KindsFrom([FeedKind], tail).Some?
    ensures KindsFrom([FeedKind], EntryPairs(items, tail)).Some?
    ensures KindsFrom([FeedKind], EntryPairs(items[1..], tail)).Some?
    ensures var first := ConvertEntry(env, [], items[0], includeAnnotations);
            Run(env, [FeedKind], Tree([node], None), EntryPairs(items, tail), includeAnnotations) ==
              if first.Err? then Err(first.error)
              else Run(env, [FeedKind], Tree([node.(feed := Some(node.feed.value + [first.value]))], None),
                       EntryPairs(items[1..], tail), includeAnnotations)
  {
    EntryPairsNest(items, tail);
    EntryPairsNest(items[1..], tail);
    EntryPairRun(env, node, items[0], EntryPairs(items[1..], tail), includeAnnotations);
  }

  /**
   * Inside a top-level feed frame, the entry pairs append the converted
   * entries to the frame's feed, and the end of the feed makes the frame
   * the root with its annotations merged.
   */
  lemma {:induction false} EntryPairsRun(env: Env, node: ResponseNode, items: seq<Option<ODataEntry>>,
                                         feedEnd: ODataFeed, includeAnnotations: bool)
    requires node.feed.Some? && node.feedAnnotations.Some?
    ensures KindsFrom([FeedKind], EntryPairs(items, [FeedEnd(feedEnd)])).Some?
    ensures Run(env, [FeedKind], Tree([node], None), EntryPairs(items, [FeedEnd(feedEnd)]), includeAnnotations) ==
              match ConvertAll(env, items, includeAnnotations)
              case Err(e) => Err(e)
              case Ok(entries) => Ok(Tree([], Some(ClosedFeed(env, node, entries, feedEnd))))
    decreases |items|
  {
    var tail := [FeedEnd(feedEnd)];
    if items == [] {
      FeedEndRun(env, node, feedEnd, includeAnnotations);
    } else {
      EntryPairsStep(env, node, items, tail, includeAnnotations);
      var first := ConvertEntry(env, [], items[0], includeAnnotations);
      if first.Ok? {
        var grown := node.(feed := Some(node.feed.value + [first.value]));
        EntryPairsRun(env, grown, items[1..], feedEnd, includeAnnotations);
        var more := ConvertAll(env, items[1..], includeAnnotations);
        assert ConvertAll(env, items, includeAnnotations) ==
               if more.Err? then Err(more.error) else Ok([first.value] + more.value);
        if more.Ok? {
          ClosedFeedGrows(env, node, first.value, more.value, feedEnd);
        }
      }
    }
  }

  /** Closing a feed grown by one entry is closing the original with that entry in front. */
  lemma ClosedFeedGrows(env: Env, node: ResponseNode, entry: Entry, more: seq<Entry>, feedEnd: ODataFeed)
    requires node.feed.Some? && node.feedAnnotations.Some?
    ensures ClosedFeed(env, node.(feed := Some(node.feed.value + [entry])), more, feedEnd) ==
            ClosedFeed(env, node, [entry] + more, feedEnd)
  {
    assert node.feed.value + [entry] + more == node.feed.value + ([entry] + more);
  }

  /** The reader loop over a top-level feed: the feed frame, closed, becomes the root. */
  lemma FlatFeedRun(env: Env, feedStart: ODataFeed, items: seq<Option<ODataEntry>>, feedEnd: ODataFeed,
                    includeAnnotations: bool)
    ensures var events := [FeedStart(feedStart)] + EntryPairs(items, [FeedEnd(feedEnd)]);
            && UntilCompleted(events) == events
            && KindsFrom([], events).Some?
            && Run(env, [], Tree([], None), events, includeAnnotations) ==
                 match ConvertAll(env, items, includeAnnotations)
                 case Err(e) => Err(e)
                 case Ok(entries) => Ok(Tree([], Some(ClosedFeed(env, FeedFrame(Some(FeedAnnotationsOf(feedStart))),
                                                                 entries, feedEnd))))
  {
    var tail := [FeedEnd(feedEnd)];
    var body := EntryPairs(items, tail);
    UntilCompletedCons(FeedEnd(feedEnd), []);
    assert tail + [] == tail;
    EntryPairsComplete(items, tail);
    UntilCompletedCons(FeedStart(feedStart), body);
    var node := FeedFrame(Some(FeedAnnotationsOf(feedStart)));
    EntryPairsRun(env, node, items, feedEnd, includeAnnotations);
    assert [] + [FeedKind] == [FeedKind];
    KindsFromCons([], FeedStart(feedStart), body);
    assert [] + [node] == [node];
    RunCons(env, [], Tree([], None), FeedStart(feedStart), body, includeAnnotations);
  }

  /**
   * A feed of entries without links is read back as the feed of the
   * converted entries, in order, with the start annotations merged with the
   * end annotations; a failed conversion fails the read.
   */
  lemma FlatFeedIsRead(env: Env, feedStart: ODataFeed, items: seq<Option<ODataEntry>>, feedEnd: ODataFeed,
                       includeAnnotations: bool)
    ensures var events := [FeedStart(feedStart)] + EntryPairs(items, [FeedEnd(feedEnd)]);
            && WellFormed(UntilCompleted(events))
            && EntriesOf(env, events, includeAnnotations) ==
                 match ConvertAll(env, items, includeAnnotations)
                 case Err(e) => Err(e)
                 case Ok(entries) =>
                   Ok(FromFeed(entries, Some(env.merge(FeedAnnotationsOf(feedStart), Some(FeedAnnotationsOf(feedEnd))))))
  {
    FlatFeedRun(env, feedStart, items, feedEnd, includeAnnotations);
    var converted := ConvertAll(env, items, includeAnnotations);
    if converted.Ok? {
      assert [] + converted.value == converted.value;
    }
  }

  // hasResponse across responses read by the same reader.

  /**
   * On a fresh reader, a response whose only payload kind is Property and
   * whose value is null or an empty string is an empty feed.
   */
  lemma EmptyPropertyOnFreshReader(env: Env, msg: ResponseMessage, includeAnnotations: bool)
    requires msg.payloadKinds == {PropertyPayload} && !MakesResponse(msg.propertyValue)
    ensures Readable(msg)
    ensures var (r, has) := ResponseOf(env, msg, includeAnnotations, false);
            r == Ok(FromFeed([], None)) && !has
  {
    assert !HasNonPropertyKind(msg.payloadKinds) by {
      assert msg.payloadKinds - {PropertyPayload} == {};
    }
  }

  /**
   * Once a response with some non-Property payload kind has been read, a
   * later property response is a one-entry feed even when its value is
   * empty.
   */
  lemma PropertyAfterResponse(env: Env, first: ResponseMessage, second: ResponseMessage, includeAnnotations: bool,
                              hasResponse: bool)
    requires Readable(first) && HasNonPropertyKind(first.payloadKinds)
    requires DispatchOf(second.payloadKinds) == PropertyRoute && PropertyValue(second.propertyValue).Ok?
    ensures var afterFirst := ResponseOf(env, first, includeAnnotations, hasResponse).1;
            var r := ResponseOf(env, second, includeAnnotations, afterFirst).0;
            && r.Ok? && r.value.entries.Some? && |r.value.entries.value| == 1
            && r.value.entries.value[0] ==
                 [(if second.propertyName.Some? then second.propertyName.value else ResultLiteral,
                   PropertyValue(second.propertyValue).value)]
  {
  }

  /**
   * On a fresh reader, a property response whose value is neither null nor
   * an empty string is the one-entry feed of the named (or "__result")
   * converted value, or the conversion's error, and the reader then has a
   * response.
   */
  lemma PropertyOnFreshReader(env: Env, msg: ResponseMessage, includeAnnotations: bool)
    requires DispatchOf(msg.payloadKinds) == PropertyRoute && MakesResponse(msg.propertyValue)
    ensures Readable(msg)
    ensures var (r, has) := ResponseOf(env, msg, includeAnnotations, false);
            && has
            && r == match PropertyValue(msg.propertyValue)
                    case Err(e) => Err(e)
                    case Ok(v) => Ok(FromFeed([[(if msg.propertyName.Some? then msg.propertyName.value else ResultLiteral, v)]], None))
  {
  }
}
