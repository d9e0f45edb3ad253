/**
 * The response envelope (ODataResponse): a record that each factory fills
 * in one part of, and the projections that read an entry sequence, a
 * single entry, a scalar or an array back out of it.
 */
module ODataResponses {
  import opened Values

  /**
   * The envelope. Its setters are private and assigned only by the
   * factories below, so a value of this type is what one factory built.
   */
  datatype ODataResponse = ODataResponse(
    statusCode: int,
    entries: Option<seq<Entry>>,
    entry: Option<Entry>,
    annotations: Option<FeedAnnotations>,
    batch: Option<seq<ODataResponse>>,
    exception: Option<Error>)

  /** The envelope the private constructor creates, every property at its default. */
  const Blank: ODataResponse := ODataResponse(0, None, None, None, None, None)

  // The four parts of an envelope. A factory sets one of them and leaves
  // the other three at their defaults.

  predicate NoEntries(r: ODataResponse) { r.entries.None? && r.annotations.None? }
  predicate NoEntry(r: ODataResponse) { r.entry.None? }
  predicate NoBatch(r: ODataResponse) { r.batch.None? }
  predicate NoStatus(r: ODataResponse) { r.statusCode == 0 && r.exception.None? }

  function FromFeed(entries: seq<Entry>, annotations: Option<FeedAnnotations>): (r: ODataResponse)
    ensures r.entries == Some(entries) && r.annotations == annotations
    ensures NoEntry(r) && NoBatch(r) && NoStatus(r)
  {
    Blank.(entries := Some(entries), annotations := annotations)
  }

  function FromEntry(entry: Entry): (r: ODataResponse)
    ensures r.entry == Some(entry)
    ensures NoEntries(r) && NoBatch(r) && NoStatus(r)
  {
    Blank.(entry := Some(entry))
  }

  /** Wraps every collection value into a one-key dictionary under ResultLiteral. */
  function FromCollection(collection: seq<Value>): (r: ODataResponse)
    ensures r.entries.Some? && |r.entries.value| == |collection|
    ensures forall i :: 0 <= i < |collection| ==> r.entries.value[i] == [(ResultLiteral, collection[i])]
    ensures r.annotations.None? && NoEntry(r) && NoBatch(r) && NoStatus(r)
  {
    Blank.(entries := Some(MapSeq((x: Value) => [(ResultLiteral, x)], collection)))
  }

  function FromBatch(batch: seq<ODataResponse>): (r: ODataResponse)
    ensures r.batch == Some(batch)
    ensures NoEntries(r) && NoEntry(r) && NoStatus(r)
  {
    Blank.(batch := Some(batch))
  }

  /** The overload taking an optional exception (null by default). */
  function FromStatusCode(statusCode: int, exception: Option<Error>): (r: ODataResponse)
    ensures r.statusCode == statusCode && r.exception == exception
    ensures NoEntries(r) && NoEntry(r) && NoBatch(r)
  {
    Blank.(statusCode := statusCode, exception := exception)
  }

  /**
   * The overload taking the response stream, given here as the text that
   * Utils.StreamToString reads from it: a client or server error status
   * becomes a WebRequestException carrying that text.
   */
  function FromStatusCodeAndStream(statusCode: int, content: string): (r: ODataResponse)
    ensures r.statusCode == statusCode
    ensures r.exception.Some? <==> statusCode >= BadRequest
    ensures r.exception.Some? ==> r.exception.value == WebRequest(statusCode, Some(content))
    ensures NoEntries(r) && NoEntry(r) && NoBatch(r)
  {
    if statusCode >= BadRequest then
      Blank.(statusCode := statusCode, exception := Some(WebRequest(statusCode, Some(content))))
    else
      Blank.(statusCode := statusCode)
  }

  /** A dictionary that only wraps another dictionary under ResultLiteral. */
  predicate IsWrapper(value: Entry) {
    |value| == 1 && value[0].0 == ResultLiteral && value[0].1.Dict?
  }

  /** Unwraps `{ResultLiteral: dictionary}`; any other dictionary is returned as it is. */
  function ExtractDictionary(value: Entry): (r: Entry)
    ensures IsWrapper(value) ==> r == value[0].1.fields
    ensures !IsWrapper(value) ==> r == value
  {
    if |value| == 1 && ContainsKey(value, ResultLiteral) && value[0].1.Dict? then
      value[0].1.fields
    else
      value
  }

  /**
   * The entry sequence. Whether the entries are unwrapped is decided by
   * the FIRST entry alone: if it has a ResultLiteral key, every entry goes
   * through ExtractDictionary.
   */
  function AsEntries(r: ODataResponse): (es: seq<Entry>)
    ensures r.entries.None? ==> es == if r.entry.Some? then [ExtractDictionary(r.entry.value)] else []
    ensures r.entries.Some? && FirstIsResult(r.entries.value) ==>
              |es| == |r.entries.value| &&
              forall i :: 0 <= i < |es| ==> es[i] == ExtractDictionary(r.entries.value[i])
    ensures r.entries.Some? && !FirstIsResult(r.entries.value) ==> es == r.entries.value
  {
    if r.entries.Some? then
      if FirstIsResult(r.entries.value) then MapSeq(ExtractDictionary, r.entries.value)
      else r.entries.value
    else if r.entry.Some? then [ExtractDictionary(r.entry.value)]
    else []
  }

  predicate FirstIsResult(entries: seq<Entry>) {
    |entries| > 0 && ContainsKey(entries[0], ResultLiteral)
  }

  /** The first entry of AsEntries, or null when there is none. */
  function AsEntry(r: ODataResponse): (e: Option<Entry>)
    ensures e.None? <==> AsEntries(r) == []
    ensures e.Some? ==> e.value == AsEntries(r)[0]
  {
    var es := AsEntries(r);
    if |es| > 0 then Some(es[0]) else None
  }

  /**
   * The first value of the first entry, converted by `convert` (Utils.Convert
   * to T); `dflt` (default(T)) when there is no entry, the entry is empty or
   * that value is null.
   */
  function AsScalar<T>(r: ODataResponse, convert: Value -> T, dflt: T): (x: T)
    ensures AsEntry(r).None? ==> x == dflt
    ensures AsEntry(r).Some? && AsEntry(r).value == [] ==> x == dflt
    ensures AsEntry(r).Some? && AsEntry(r).value != [] ==>
              x == if AsEntry(r).value[0].1 == Null then dflt else convert(AsEntry(r).value[0].1)
  {
    var e := AsEntry(r);
    var v := if e.None? || |e.value| == 0 then Null else e.value[0].1;
    if v == Null then dflt else convert(v)
  }

  /** The values of `e` in enumeration order (Dictionary.Values). */
  function ValuesOf(e: Entry): (vs: seq<Value>)
    ensures |vs| == |e|
    ensures forall i :: 0 <= i < |e| ==> vs[i] == e[i].1
  {
    seq(|e|, i requires 0 <= i < |e| => e[i].1)
  }

  /** Every value of every entry, entry by entry (LINQ SelectMany). */
  function AllValues(es: seq<Entry>): seq<Value> {
    if es == [] then [] else ValuesOf(es[0]) + AllValues(es[1..])
  }

  /** The number of values across all entries. */
  function ValueCount(es: seq<Entry>): nat {
    if es == [] then 0 else |es[0]| + ValueCount(es[1..])
  }

  /** The position of the k-th value of the j-th entry: after the values of the entries before it. */
  function Offset(es: seq<Entry>, j: nat, k: nat): nat
    requires j <= |es|
  {
    ValueCount(es[..j]) + k
  }

  /**
   * Every value of every entry of AsEntries, each converted: one element
   * per value, the k-th value of the j-th entry at its Offset.
   */
  function AsArray<T>(r: ODataResponse, convert: Value -> T): (a: seq<T>)
    ensures |a| == ValueCount(AsEntries(r))
    ensures forall j, k :: 0 <= j < |AsEntries(r)| && 0 <= k < |AsEntries(r)[j]| ==>
              Offset(AsEntries(r), j, k) < |a| && a[Offset(AsEntries(r), j, k)] == convert(AsEntries(r)[j][k].1)
  {
    AllValuesIndex(AsEntries(r));
    MapSeq(convert, AllValues(AsEntries(r)))
  }

  lemma {:induction false} AllValuesLength(es: seq<Entry>)
    ensures |AllValues(es)| == ValueCount(es)
  {
    if es != [] {
      AllValuesLength(es[1..]);
    }
  }

  /** The k-th value of the j-th entry is at its Offset among all the values. */
  lemma {:induction false} AllValuesAt(es: seq<Entry>, j: nat, k: nat)
    requires j < |es| && k < |es[j]|
    ensures Offset(es, j, k) < |AllValues(es)|
    ensures AllValues(es)[Offset(es, j, k)] == es[j][k].1
  {
    AllValuesLength(es);
    AllValuesLength(es[1..]);
    if j == 0 {
      assert es[..j] == [];
    } else {
      AllValuesAt(es[1..], j - 1, k);
      assert es[..j][1..] == es[1..][..j - 1];
      assert es[..j][0] == es[0];
    }
  }

  lemma AllValuesIndex(es: seq<Entry>)
    ensures |AllValues(es)| == ValueCount(es)
    ensures forall j, k :: 0 <= j < |es| && 0 <= k < |es[j]| ==>
              Offset(es, j, k) < |AllValues(es)| && AllValues(es)[Offset(es, j, k)] == es[j][k].1
  {
    AllValuesLength(es);
    forall j, k | 0 <= j < |es| && 0 <= k < |es[j]| {
      AllValuesAt(es, j, k);
    }
  }

  // Round trips between the factories and the projections.

  /** ExtractDictionary undoes wrapping a dictionary under ResultLiteral. */
  lemma ExtractUnwraps(e: Entry)
    ensures ExtractDictionary([(ResultLiteral, Dict(e))]) == e
  {
  }

  /**
   * A collection read back as entries: one entry per value, in order; a
   * dictionary value is unwrapped, any other value stays wrapped.
   */
  lemma CollectionEntries(collection: seq<Value>)
    ensures |AsEntries(FromCollection(collection))| == |collection|
    ensures forall i :: 0 <= i < |collection| ==>
              AsEntries(FromCollection(collection))[i] ==
                if collection[i].Dict? then collection[i].fields else [(ResultLiteral, collection[i])]
  {
    var r := FromCollection(collection);
    if |collection| > 0 {
      assert Keys(r.entries.value[0]) == [ResultLiteral];
      assert FirstIsResult(r.entries.value);
    }
    forall i | 0 <= i < |collection|
      ensures AsEntries(r)[i] ==
                if collection[i].Dict? then collection[i].fields else [(ResultLiteral, collection[i])]
    {
      assert r.entries.value[i] == [(ResultLiteral, collection[i])];
    }
  }

  /** Scalar values of a collection come back out of AsArray unchanged and in order. */
  lemma {:induction false} CollectionArray<T>(collection: seq<Value>, convert: Value -> T)
    requires forall i :: 0 <= i < |collection| ==> !collection[i].Dict?
    ensures AsArray(FromCollection(collection), convert) == MapSeq(convert, collection)
  {
    CollectionEntries(collection);
    var es := AsEntries(FromCollection(collection));
    WrappedValues(collection, es);
  }

  lemma {:induction false} WrappedValues(collection: seq<Value>, es: seq<Entry>)
    requires |es| == |collection|
    requires forall i :: 0 <= i < |collection| ==> es[i] == [(ResultLiteral, collection[i])]
    ensures AllValues(es) == collection
  {
    if es != [] {
      WrappedValues(collection[1..], es[1..]);
      assert ValuesOf(es[0]) == [collection[0]];
      assert collection == [collection[0]] + collection[1..];
    }
  }

  /** A single scalar read back: the scalar of a one-value collection is that value, converted. */
  lemma CollectionScalar<T>(x: Value, convert: Value -> T, dflt: T)
    requires !x.Dict?
    ensures AsScalar(FromCollection([x]), convert, dflt) == if x == Null then dflt else convert(x)
  {
    CollectionEntries([x]);
  }

  /** A feed whose first entry has no ResultLiteral key is read back as it was built. */
  lemma FeedEntries(entries: seq<Entry>, annotations: Option<FeedAnnotations>)
    requires !FirstIsResult(entries)
    ensures AsEntries(FromFeed(entries, annotations)) == entries
    ensures AsEntry(FromFeed(entries, annotations)) == if entries == [] then None else Some(entries[0])
  {
  }

  /** A single entry is read back through ExtractDictionary. */
  lemma EntryEntries(entry: Entry)
    ensures AsEntries(FromEntry(entry)) == [ExtractDictionary(entry)]
    ensures AsEntry(FromEntry(entry)) == Some(ExtractDictionary(entry))
  {
  }

  /** Envelopes without entries (batch or status) project to no entries at all. */
  lemma StatusAndBatchHaveNoEntries(statusCode: int, exception: Option<Error>, batch: seq<ODataResponse>)
    ensures AsEntries(FromStatusCode(statusCode, exception)) == []
    ensures AsEntries(FromBatch(batch)) == []
  {
  }
}
