/**
 * Values shared by every component of the client engine: the dynamic
 * `object` values that the client stores in its result dictionaries, the
 * insertion-ordered dictionaries themselves, the annotation records, the
 * errors that the modelled code throws, and the fixed literals.
 */
module Values {

  datatype Option<+T> = None | Some(value: T)

  /** The exception a modelled operation throws, by its .NET kind. */
  datatype Error =
    | InvalidOperation(message: string)               // InvalidOperationException
    | DuplicateKey(key: string)                       // ArgumentException from Dictionary.Add / ToDictionary
    | NullReference                                   // NullReferenceException
    | NotImplemented                                  // NotImplementedException
    | WebRequest(code: int, content: Option<string>)  // WebRequestException (status code, response body)
    | Raised(description: string)                     // any other exception raised by a collaborator

  /** The outcome of an operation that may throw. */
  datatype Result<+T> = Ok(value: T) | Err(error: Error)

  /** An `Ok` outcome carrying nothing (for operations returning `void`). */
  datatype Outcome = Pass | Fail(error: Error)

  /** HTTP status codes the core compares against. */
  const NoContent: int := 204
  const BadRequest: int := 400
  const NotFound: int := 404

  /** Keys the client adds to result dictionaries (FluentCommand's literals). */
  const ResultLiteral: string := "__result"
  const AnnotationsLiteral: string := "__annotations"
  const ResourceTypeLiteral: string := "__resourcetype"

  /** Annotations of a feed (ODataFeedAnnotations). */
  datatype FeedAnnotations = FeedAnnotations(
    id: Option<string>,
    count: Option<int>,
    deltaLink: Option<string>,
    nextPageLink: Option<string>,
    instanceAnnotations: seq<(string, string)>)

  /** Annotations of a media resource (ODataMediaAnnotations). */
  datatype MediaAnnotations = MediaAnnotations(
    contentType: Option<string>,
    readLink: Option<string>,
    editLink: Option<string>,
    eTag: Option<string>)

  /** Annotations of an entry (ODataEntryAnnotations). */
  datatype EntryAnnotations = EntryAnnotations(
    id: Option<string>,
    typeName: Option<string>,
    readLink: Option<string>,
    editLink: Option<string>,
    eTag: Option<string>,
    associationLinks: Option<seq<(Option<string>, Option<string>)>>,
    mediaResource: Option<MediaAnnotations>,
    instanceAnnotations: seq<(string, string)>)

  /**
   * A value held in a result dictionary. `Null` is the null reference,
   * `Dict` an IDictionary<string, object>, `List` a List<object> (a feed
   * stored under a link name is a `List` of `Dict`s), `Opaque` any other
   * object the client passes through unchanged.
   */
  datatype Value =
    | Null
    | Str(s: string)
    | Num(n: int)
    | Bool(b: bool)
    | Opaque(tag: string)
    | Dict(fields: seq<(string, Value)>)
    | List(items: seq<Value>)
    | FeedAnn(feedAnnotations: FeedAnnotations)
    | EntryAnn(entryAnnotations: EntryAnnotations)

  /**
   * A Dictionary<string, object>, as its pairs in enumeration order. An
   * entry of .NET's Dictionary from which nothing was removed enumerates in
   * insertion order, which AsScalar and AsArray observe.
   */
  type Entry = seq<(string, Value)>

  function Keys(e: Entry): (ks: seq<string>)
    ensures |ks| == |e|
    ensures forall i :: 0 <= i < |e| ==> ks[i] == e[i].0
  {
    seq(|e|, i requires 0 <= i < |e| => e[i].0)
  }

  predicate ContainsKey(e: Entry, k: string) {
    k in Keys(e)
  }

  /** No key occurs twice: what every Dictionary satisfies. */
  predicate UniqueKeys(e: Entry) {
    forall i, j :: 0 <= i < j < |e| ==> e[i].0 != e[j].0
  }

  /** The value stored under `k`, the dictionary indexer. */
  function Lookup(e: Entry, k: string): (r: Option<Value>)
    ensures r.Some? <==> ContainsKey(e, k)
    ensures r.Some? ==> (k, r.value) in e
  {
    if e == [] then None
    else if e[0].0 == k then Some(e[0].1)
    else Lookup(e[1..], k)
  }

  /** Dictionary.Add: appends a new key, throws when the key is present. */
  function Add(e: Entry, k: string, v: Value): (r: Result<Entry>)
    ensures r.Err? <==> ContainsKey(e, k)
    ensures r.Err? ==> r.error == DuplicateKey(k)
    ensures r.Ok? ==> r.value == e + [(k, v)]
    ensures r.Ok? && UniqueKeys(e) ==> UniqueKeys(r.value)
  {
    if ContainsKey(e, k) then Err(DuplicateKey(k)) else Ok(e + [(k, v)])
  }

  /** Two Dictionary.Add calls in a row: the second runs only when the first succeeds. */
  function AddBoth(e: Entry, k1: string, v1: Value, k2: string, v2: Value): (r: Result<Entry>)
    ensures k1 != k2 ==> (r.Ok? <==> !ContainsKey(e, k1) && !ContainsKey(e, k2))
    ensures r.Err? ==> r.error == DuplicateKey(if ContainsKey(e, k1) then k1 else k2)
    ensures r.Ok? ==> r.value == e + [(k1, v1), (k2, v2)]
  {
    var first := Add(e, k1, v1);
    if first.Err? then Err(first.error)
    else
      ContainsKeyAppend(e, k1, v1);
      var r := Add(first.value, k2, v2);
      assert r.Ok? ==> r.value == e + [(k1, v1), (k2, v2)];
      r
  }

  /** The pairs of `e` whose key is not in `ks`, in their order. */
  function Without(e: Entry, ks: set<string>): (r: Entry)
    ensures forall k :: ContainsKey(r, k) <==> ContainsKey(e, k) && k !in ks
    ensures |r| <= |e|
    ensures forall p :: p in r ==> p in e
  {
    if e == [] then []
    else
      var head: Entry := if e[0].0 in ks then [] else [e[0]];
      var rest := Without(e[1..], ks);
      KeysAppend(head, rest);
      assert Keys(e) == [e[0].0] + Keys(e[1..]);
      assert Keys(head) == if e[0].0 in ks then [] else [e[0].0];
      assert forall k :: ContainsKey(head + rest, k) <==> k in Keys(head) || ContainsKey(rest, k);
      assert forall k :: ContainsKey(e, k) <==> k == e[0].0 || ContainsKey(e[1..], k);
      head + rest
  }

  lemma KeysAppend(a: Entry, b: Entry)
    ensures Keys(a + b) == Keys(a) + Keys(b)
  {
  }

  /** The keys after appending one pair: the old keys and the new one. */
  lemma ContainsKeyAppend(e: Entry, k: string, v: Value)
    ensures forall n :: ContainsKey(e + [(k, v)], n) <==> ContainsKey(e, n) || n == k
  {
    KeysAppend(e, [(k, v)]);
    assert Keys([(k, v)]) == [k];
  }

  lemma {:induction false} WithoutTwice(e: Entry, a: set<string>, b: set<string>)
    ensures Without(Without(e, a), b) == Without(e, a + b)
  {
    if e != [] {
      WithoutTwice(e[1..], a, b);
      var rest := Without(e[1..], a);
      if e[0].0 in a {
        assert Without(e, a) == rest;
      } else {
        assert Without(e, a) == [e[0]] + rest;
        assert ([e[0]] + rest)[1..] == rest;
      }
    }
  }

  lemma {:induction false} WithoutUnique(e: Entry, ks: set<string>)
    requires UniqueKeys(e)
    ensures UniqueKeys(Without(e, ks))
  {
    if e != [] {
      assert UniqueKeys(e[1..]);
      WithoutUnique(e[1..], ks);
      var rest := Without(e[1..], ks);
      if e[0].0 !in ks {
        forall p | p in rest ensures p.0 != e[0].0 {
          var j :| 0 <= j < |e[1..]| && e[1..][j] == p;
          assert e[j + 1] == p;
        }
      }
    }
  }

  lemma {:induction false} WithoutNothing(e: Entry, ks: set<string>)
    requires forall i :: 0 <= i < |e| ==> e[i].0 !in ks
    ensures Without(e, ks) == e
  {
    if e != [] {
      WithoutNothing(e[1..], ks);
      assert [e[0]] + e[1..] == e;
    }
  }

  predicate StartsWith(s: string, prefix: string) {
    |prefix| <= |s| && s[..|prefix|] == prefix
  }

  /** One value per element, in order (LINQ Select). */
  function MapSeq<A, B>(f: A -> B, s: seq<A>): (r: seq<B>)
    ensures |r| == |s|
    ensures forall i :: 0 <= i < |s| ==> r[i] == f(s[i])
  {
    seq(|s|, i requires 0 <= i < |s| => f(s[i]))
  }
}
