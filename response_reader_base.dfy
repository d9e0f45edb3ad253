/**
 * ResponseReaderBase: the stack machine that turns the feed, entry and
 * navigation-link start and end events of a response reader into nested
 * result dictionaries, and the in-order replay of a batch response onto
 * the actions that were queued for it.
 *
 * The `Stack<ResponseNode>` the handlers share is the class NodeStack; the
 * nodes are held by value, which is safe because a node that is popped is
 * either dropped or becomes the root, and is never updated again. For each
 * handler a function gives the new stack (and root) in terms of the old
 * one; the handler methods are proved to compute exactly that.
 */
module ResponseReaderBase {
  import opened Values
  import opened ODataResponses

  /** One frame of the stack: a feed under construction, an entry, or a navigation link. */
  datatype ResponseNode = ResponseNode(
    feed: Option<seq<Entry>>,
    feedAnnotations: Option<FeedAnnotations>,
    entry: Option<Entry>,
    linkName: Option<string>)

  /**
   * ODataFeedAnnotations.Merge, which combines annotations already on a feed
   * frame with those seen at its end, is outside this model; the handlers
   * take it as a parameter.
   */
  type MergeAnnotations = (FeedAnnotations, Option<FeedAnnotations>) -> FeedAnnotations

  /** The getter ResponseNode.Value, outside this model, taken as a parameter. */
  type NodeValue = ResponseNode -> Value

  /** The abstract ConvertEntry: fills a popped entry frame from the reader's entry item. */
  type ConvertEntry<-E> = (Entry, E, bool) -> Result<Entry>

  /** The stack (top last) and the root slot the handlers write through `ref rootNode`. */
  datatype Tree = Tree(nodes: seq<ResponseNode>, root: Option<ResponseNode>)

  function Top(nodes: seq<ResponseNode>): ResponseNode
    requires nodes != []
  {
    nodes[|nodes| - 1]
  }

  function Parent(nodes: seq<ResponseNode>): ResponseNode
    requires |nodes| >= 2
  {
    nodes[|nodes| - 2]
  }

  /** The frame StartFeed pushes: an empty feed with the given annotations. */
  function FeedFrame(annotations: Option<FeedAnnotations>): ResponseNode {
    ResponseNode(Some([]), annotations, None, None)
  }

  /** The frame StartEntry pushes: an empty entry. */
  const EntryFrame: ResponseNode := ResponseNode(None, None, Some([]), None)

  /** The frame StartNavigationLink pushes: only the link name. */
  function LinkFrame(linkName: string): ResponseNode {
    ResponseNode(None, None, None, Some(linkName))
  }

  /** The annotations of a feed frame at its end: the end annotations, or both merged. */
  function EndAnnotations(existing: Option<FeedAnnotations>, atEnd: Option<FeedAnnotations>,
                          merge: MergeAnnotations): (r: Option<FeedAnnotations>)
    ensures existing.None? ==> r == atEnd
    ensures existing.Some? ==> r == Some(merge(existing.value, atEnd))
  {
    if existing.None? then atEnd else Some(merge(existing.value, atEnd))
  }

  /** The stack after EndFeed; the popped frame, with its final annotations, is `FinishedFeed`. */
  function FinishedFeed(t: Tree, atEnd: Option<FeedAnnotations>, merge: MergeAnnotations): ResponseNode
    requires t.nodes != []
  {
    var feedNode := Top(t.nodes);
    feedNode.(feedAnnotations := EndAnnotations(feedNode.feedAnnotations, atEnd, merge))
  }

  function FeedEnded(t: Tree, atEnd: Option<FeedAnnotations>, merge: MergeAnnotations): (r: Tree)
    requires t.nodes != []
    ensures |r.nodes| == |t.nodes| - 1
    ensures r.nodes == [] ==> r.root == Some(FinishedFeed(t, atEnd, merge))
    ensures r.nodes != [] ==>
              && r.root == t.root
              && r.nodes[..|r.nodes| - 1] == t.nodes[..|t.nodes| - 2]
              && Top(r.nodes) == Parent(t.nodes).(feed := Top(t.nodes).feed,
                                                  feedAnnotations := FinishedFeed(t, atEnd, merge).feedAnnotations)
  {
    var feedNode := FinishedFeed(t, atEnd, merge);
    var rest := t.nodes[..|t.nodes| - 1];
    if rest == [] then
      Tree([], Some(feedNode))
    else
      var parent := Top(rest);
      Tree(rest[..|rest| - 1] + [parent.(feed := feedNode.feed, feedAnnotations := feedNode.feedAnnotations)], t.root)
  }

  /** Where an ended entry goes: appended to a parent feed, else set as the parent's entry. */
  function AttachEntry(parent: ResponseNode, e: Entry): (p: ResponseNode)
    ensures parent.feed.Some? ==> p == parent.(feed := Some(parent.feed.value + [e]))
    ensures parent.feed.None? ==> p == parent.(entry := Some(e))
  {
    if parent.feed.Some? then parent.(feed := Some(parent.feed.value + [e]))
    else parent.(entry := Some(e))
  }

  function EntryEnded<E>(t: Tree, item: E, includeAnnotations: bool, convert: ConvertEntry<E>): (r: Result<Tree>)
    requires t.nodes != [] && Top(t.nodes).entry.Some?
    ensures r.Err? <==> convert(Top(t.nodes).entry.value, item, includeAnnotations).Err?
    ensures r.Ok? ==>
              var converted := convert(Top(t.nodes).entry.value, item, includeAnnotations).value;
              && |r.value.nodes| == |t.nodes| - 1
              && (r.value.nodes == [] ==> r.value.root == Some(Top(t.nodes).(entry := Some(converted))))
              && (r.value.nodes != [] ==>
                    && r.value.root == t.root
                    && r.value.nodes[..|r.value.nodes| - 1] == t.nodes[..|t.nodes| - 2]
                    && Top(r.value.nodes) == AttachEntry(Parent(t.nodes), converted))
  {
    var entryNode := Top(t.nodes);
    var rest := t.nodes[..|t.nodes| - 1];
    var converted := convert(entryNode.entry.value, item, includeAnnotations);
    if converted.Err? then Err(converted.error)
    else if rest == [] then Ok(Tree([], Some(entryNode.(entry := Some(converted.value)))))
    else Ok(Tree(rest[..|rest| - 1] + [AttachEntry(Top(rest), converted.value)], t.root))
  }

  /** A link value that is an empty dictionary is stored as null. */
  function Normalised(v: Value): (r: Value)
    ensures v.Dict? && v.fields == [] ==> r == Null
    ensures !(v.Dict? && v.fields == []) ==> r == v
  {
    if v.Dict? && v.fields == [] then Null else v
  }

  /** The key under which a link's feed annotations are stored: "<AnnotationsLiteral>_<linkName>". */
  function LinkAnnotationsKey(linkName: string): string {
    AnnotationsLiteral + "_" + linkName
  }

  /** What EndNavigationLink adds to the parent entry, in order. */
  function LinkPairs(linkNode: ResponseNode, includeAnnotations: bool, nodeValue: NodeValue): Entry
    requires linkNode.linkName.Some?
  {
    var name := linkNode.linkName.value;
    var v := nodeValue(linkNode);
    (if v != Null then [(name, Normalised(v))] else []) +
    (if includeAnnotations && linkNode.feedAnnotations.Some?
     then [(LinkAnnotationsKey(name), FeedAnn(linkNode.feedAnnotations.value))] else [])
  }

  /**
   * Whether EndNavigationLink throws: the parent entry already holds the
   * link name (when a value is stored under it) or the annotations key
   * (when annotations are stored).
   */
  predicate LinkConflicts(parentEntry: Entry, linkNode: ResponseNode, includeAnnotations: bool, nodeValue: NodeValue)
    requires linkNode.linkName.Some?
  {
    || (nodeValue(linkNode) != Null && ContainsKey(parentEntry, linkNode.linkName.value))
    || (includeAnnotations && linkNode.feedAnnotations.Some? &&
        ContainsKey(parentEntry, LinkAnnotationsKey(linkNode.linkName.value)))
  }

  /** The stack after EndNavigationLink; the root is not touched. */
  function LinkEnded(nodes: seq<ResponseNode>, includeAnnotations: bool, nodeValue: NodeValue): (r: Result<seq<ResponseNode>>)
    requires |nodes| >= 2 && Top(nodes).linkName.Some? && Parent(nodes).entry.Some?
    ensures r.Ok? ==>
              && |r.value| == |nodes| - 1
              && r.value[..|r.value| - 1] == nodes[..|nodes| - 2]
              && Top(r.value) == Parent(nodes).(entry := Some(Parent(nodes).entry.value +
                                                             LinkPairs(Top(nodes), includeAnnotations, nodeValue)))
    ensures r.Err? <==> LinkConflicts(Parent(nodes).entry.value, Top(nodes), includeAnnotations, nodeValue)
  {
    var linkNode := Top(nodes);
    var rest := nodes[..|nodes| - 1];
    var parent := Top(rest);
    var name := linkNode.linkName.value;
    var v := nodeValue(linkNode);
    var e0 := parent.entry.value;
    var e1 := if v != Null then Add(e0, name, Normalised(v)) else Ok(e0);
    if e1.Err? then Err(e1.error)
    else
      var e2 := if includeAnnotations && linkNode.feedAnnotations.Some?
                then Add(e1.value, LinkAnnotationsKey(name), FeedAnn(linkNode.feedAnnotations.value))
                else Ok(e1.value);
      LinkAnnotationsKeyIsNew(name);
      KeysAppend(e0, if v != Null then [(name, Normalised(v))] else []);
      assert ContainsKey(e1.value, LinkAnnotationsKey(name)) <==> ContainsKey(e0, LinkAnnotationsKey(name));
      if e2.Err? then Err(e2.error)
      else
        assert e2.value == e0 + LinkPairs(linkNode, includeAnnotations, nodeValue);
        Ok(rest[..|rest| - 1] + [parent.(entry := Some(e2.value))])
  }

  lemma LinkAnnotationsKeyIsNew(name: string)
    ensures LinkAnnotationsKey(name) != name
  {
    assert |LinkAnnotationsKey(name)| > |name|;
  }

  /**
   * The three cases of EndNavigationLink for the link name: an empty
   * dictionary is stored as null, another non-null value is stored as it
   * is, a null value adds no key; and the annotations key is added exactly
   * when annotations are included and the link frame carries feed
   * annotations.
   */
  lemma LinkPairsCases(linkNode: ResponseNode, includeAnnotations: bool, nodeValue: NodeValue)
    requires linkNode.linkName.Some?
    ensures var pairs := LinkPairs(linkNode, includeAnnotations, nodeValue);
            var name := linkNode.linkName.value;
            var v := nodeValue(linkNode);
            && (v == Null ==> !ContainsKey(pairs, name))
            && (v.Dict? && v.fields == [] ==> Lookup(pairs, name) == Some(Null))
            && (v != Null && !(v.Dict? && v.fields == []) ==> Lookup(pairs, name) == Some(v))
            && (ContainsKey(pairs, LinkAnnotationsKey(name)) <==>
                  includeAnnotations && linkNode.feedAnnotations.Some?)
  {
    var name := linkNode.linkName.value;
    var v := nodeValue(linkNode);
    var pairs := LinkPairs(linkNode, includeAnnotations, nodeValue);
    LinkAnnotationsKeyIsNew(name);
    var own: Entry := if v != Null then [(name, Normalised(v))] else [];
    var ann: Entry := if includeAnnotations && linkNode.feedAnnotations.Some?
                      then [(LinkAnnotationsKey(name), FeedAnn(linkNode.feedAnnotations.value))] else [];
    assert pairs == own + ann;
    KeysAppend(own, ann);
    assert Keys(own) == if v != Null then [name] else [];
    assert Keys(ann) == if includeAnnotations && linkNode.feedAnnotations.Some? then [LinkAnnotationsKey(name)] else [];
    if v != Null {
      assert pairs[0] == (name, Normalised(v));
      assert Lookup(pairs, name) == Some(Normalised(v));
    }
  }

  // The nesting discipline the handlers rely on. An OData reader reports
  // a feed at the top or inside a navigation link, an entry at the top or
  // inside a feed or a link, and a navigation link inside an entry; each
  // end event closes the innermost open item.

  datatype Kind = FeedKind | EntryKind | LinkKind

  datatype Move = StartFeedMove | EndFeedMove | StartEntryMove | EndEntryMove | StartLinkMove | EndLinkMove

  function Last(kinds: seq<Kind>): Kind
    requires kinds != []
  {
    kinds[|kinds| - 1]
  }

  /** The open items after a move, or None when the move breaks the nesting. */
  function Nest(kinds: seq<Kind>, m: Move): (r: Option<seq<Kind>>)
    ensures Nested(kinds) && r.Some? ==> Nested(r.value)
  {
    match m
    case StartFeedMove =>
      if kinds == [] || Last(kinds) == LinkKind then Some(kinds + [FeedKind]) else None
    case StartEntryMove =>
      if kinds == [] || Last(kinds) != EntryKind then Some(kinds + [EntryKind]) else None
    case StartLinkMove =>
      if kinds != [] && Last(kinds) == EntryKind then Some(kinds + [LinkKind]) else None
    case EndFeedMove =>
      if kinds != [] && Last(kinds) == FeedKind then Some(kinds[..|kinds| - 1]) else None
    case EndEntryMove =>
      if kinds != [] && Last(kinds) == EntryKind then Some(kinds[..|kinds| - 1]) else None
    case EndLinkMove =>
      if kinds != [] && Last(kinds) == LinkKind then Some(kinds[..|kinds| - 1]) else None
  }

  /** Each open item sits where the reader may report it. */
  predicate Nested(kinds: seq<Kind>) {
    && (kinds != [] ==> kinds[0] != LinkKind)
    && forall i :: 0 < i < |kinds| ==> MayHold(kinds[i - 1], kinds[i])
  }

  /** Whether an item of kind `inner` may be reported directly inside one of kind `outer`. */
  predicate MayHold(outer: Kind, inner: Kind) {
    match inner
    case FeedKind => outer == LinkKind
    case EntryKind => outer != EntryKind
    case LinkKind => outer == EntryKind
  }

  /** A frame is of the kind of the item it stands for. */
  predicate Fits(k: Kind, n: ResponseNode) {
    match k
    case FeedKind => n.feed.Some?
    case EntryKind => n.entry.Some? && n.feed.None?
    case LinkKind => n.linkName.Some?
  }

  predicate FitsAll(kinds: seq<Kind>, nodes: seq<ResponseNode>) {
    |kinds| == |nodes| && forall i :: 0 <= i < |kinds| ==> Fits(kinds[i], nodes[i])
  }

  /** Pushing a frame of the pushed item's kind keeps every frame fitting. */
  lemma PushFits(kinds: seq<Kind>, nodes: seq<ResponseNode>, k: Kind, n: ResponseNode)
    requires FitsAll(kinds, nodes) && Fits(k, n)
    ensures FitsAll(kinds + [k], nodes + [n])
  {
    assert forall i :: 0 <= i < |kinds| ==> (kinds + [k])[i] == kinds[i] && (nodes + [n])[i] == nodes[i];
  }

  /**
   * Popping the top frame and rewriting its parent keeps every frame
   * fitting, provided the rewritten parent still fits the parent's kind.
   */
  lemma PopFits(kinds: seq<Kind>, nodes: seq<ResponseNode>, rest: seq<ResponseNode>)
    requires FitsAll(kinds, nodes) && kinds != [] && |rest| == |nodes| - 1
    requires rest != [] ==> rest[..|rest| - 1] == nodes[..|nodes| - 2] && Fits(kinds[|kinds| - 2], Top(rest))
    ensures FitsAll(kinds[..|kinds| - 1], rest)
  {
    if rest != [] {
      forall i | 0 <= i < |rest|
        ensures Fits(kinds[..|kinds| - 1][i], rest[i])
      {
        if i < |rest| - 1 {
          assert rest[i] == rest[..|rest| - 1][i];
        }
      }
    }
  }

  /** A root is a finished feed or a finished entry. */
  predicate RootFits(root: Option<ResponseNode>) {
    root.Some? ==> root.value.feed.Some? || (root.value.entry.Some? && root.value.feed.None?)
  }

  // The handlers, over the shared node stack.

  class NodeStack {
    var nodes: seq<ResponseNode>

    constructor ()
      ensures nodes == []
    {
      nodes := [];
    }

    method Push(n: ResponseNode)
      modifies this
      ensures nodes == old(nodes) + [n]
    {
      nodes := nodes + [n];
    }

    method Pop() returns (n: ResponseNode)
      requires nodes != []
      modifies this
      ensures n == Top(old(nodes)) && nodes == old(nodes)[..|old(nodes)| - 1]
    {
      n := nodes[|nodes| - 1];
      nodes := nodes[..|nodes| - 1];
    }

    method Peek() returns (n: ResponseNode)
      requires nodes != []
      ensures n == Top(nodes)
    {
      n := nodes[|nodes| - 1];
    }

    /** Updates the top frame in place (the handlers assign the fields of `Peek()`). */
    method SetTop(n: ResponseNode)
      requires nodes != []
      modifies this
      ensures nodes == old(nodes)[..|old(nodes)| - 1] + [n]
    {
      nodes := nodes[..|nodes| - 1] + [n];
    }

    function Any(): bool
      reads this
    {
      nodes != []
    }
  }

  method StartFeed(nodeStack: NodeStack, feedAnnotations: Option<FeedAnnotations>)
    modifies nodeStack
    ensures nodeStack.nodes == old(nodeStack.nodes) + [FeedFrame(feedAnnotations)]
  {
    nodeStack.Push(FeedFrame(feedAnnotations));
  }

  method EndFeed(nodeStack: NodeStack, feedAnnotations: Option<FeedAnnotations>, rootNode: Option<ResponseNode>,
                 merge: MergeAnnotations) returns (rootNode': Option<ResponseNode>)
    requires nodeStack.nodes != []
    modifies nodeStack
    ensures Tree(nodeStack.nodes, rootNode') == FeedEnded(Tree(old(nodeStack.nodes), rootNode), feedAnnotations, merge)
  {
    ghost var t := Tree(nodeStack.nodes, rootNode);
    var feedNode := nodeStack.Pop();
    if feedNode.feedAnnotations.None? {
      feedNode := feedNode.(feedAnnotations := feedAnnotations);
    } else {
      feedNode := feedNode.(feedAnnotations := Some(merge(feedNode.feedAnnotations.value, feedAnnotations)));
    }
    var entries := feedNode.feed;
    rootNode' := rootNode;
    if nodeStack.Any() {
      var parent := nodeStack.Peek();
      parent := parent.(feed := entries);
      parent := parent.(feedAnnotations := feedNode.feedAnnotations);
      nodeStack.SetTop(parent);
    } else {
      rootNode' := Some(feedNode);
    }
  }

  method StartEntry(nodeStack: NodeStack)
    modifies nodeStack
    ensures nodeStack.nodes == old(nodeStack.nodes) + [EntryFrame]
  {
    nodeStack.Push(EntryFrame);
  }

  method EndEntry<E>(nodeStack: NodeStack, rootNode: Option<ResponseNode>, entry: E, includeAnnotations: bool,
                     convert: ConvertEntry<E>) returns (r: Result<Option<ResponseNode>>)
    requires nodeStack.nodes != [] && Top(nodeStack.nodes).entry.Some?
    modifies nodeStack
    ensures var t := EntryEnded(Tree(old(nodeStack.nodes), rootNode), entry, includeAnnotations, convert);
            && r.Ok? == t.Ok?
            && (r.Ok? ==> Tree(nodeStack.nodes, r.value) == t.value)
            && (r.Err? ==> r.error == t.error)
  {
    var entryNode := nodeStack.Pop();
    var converted := convert(entryNode.entry.value, entry, includeAnnotations);
    if converted.Err? {
      return Err(converted.error);
    }
    entryNode := entryNode.(entry := Some(converted.value));
    if nodeStack.Any() {
      var parent := nodeStack.Peek();
      if parent.feed.Some? {
        parent := parent.(feed := Some(parent.feed.value + [entryNode.entry.value]));
      } else {
        parent := parent.(entry := entryNode.entry);
      }
      nodeStack.SetTop(parent);
      r := Ok(rootNode);
    } else {
      r := Ok(Some(entryNode));
    }
  }

  method StartNavigationLink(nodeStack: NodeStack, linkName: string)
    modifies nodeStack
    ensures nodeStack.nodes == old(nodeStack.nodes) + [LinkFrame(linkName)]
  {
    nodeStack.Push(LinkFrame(linkName));
  }

  method EndNavigationLink(nodeStack: NodeStack, includeAnnotations: bool, nodeValue: NodeValue)
    returns (r: Outcome)
    requires |nodeStack.nodes| >= 2 && Top(nodeStack.nodes).linkName.Some? && Parent(nodeStack.nodes).entry.Some?
    modifies nodeStack
    ensures var t := LinkEnded(old(nodeStack.nodes), includeAnnotations, nodeValue);
            && r.Pass? == t.Ok?
            && (r.Pass? ==> nodeStack.nodes == t.value)
            && (r.Fail? ==> r.error == t.error)
  {
    var linkNode := nodeStack.Pop();
    var parent := nodeStack.Peek();
    var entry := parent.entry.value;
    var name := linkNode.linkName.value;
    var linkValue := nodeValue(linkNode);
    if linkValue != Null {
      if linkValue.Dict? && linkValue.fields == [] {
        linkValue := Null;
      }
      var added := Add(entry, name, linkValue);
      if added.Err? {
        return Fail(added.error);
      }
      entry := added.value;
    }
    if includeAnnotations && linkNode.feedAnnotations.Some? {
      var added := Add(entry, LinkAnnotationsKey(name), FeedAnn(linkNode.feedAnnotations.value));
      if added.Err? {
        return Fail(added.error);
      }
      entry := added.value;
    }
    nodeStack.SetTop(parent.(entry := Some(entry)));
    r := Pass;
  }

  // Batch replay.

  /** A sub-response that signals failure: it carries an exception or an error status. */
  predicate IsFailure(r: ODataResponse) {
    r.exception.Some? || r.statusCode >= BadRequest
  }

  /** The exception replay throws for a failed sub-response. */
  function FailureOf(r: ODataResponse): Error
    requires IsFailure(r)
  {
    if r.exception.Some? then r.exception.value else WebRequest(r.statusCode, None)
  }

  /**
   * Whether action `i` has a sub-response: its response index lies within
   * the batch. A negative index is never looked up; a non-negative one
   * reads `Batch.Count`, which throws when Batch is null.
   */
  predicate HasResponse(batch: seq<ODataResponse>, responseIndexes: seq<int>, i: nat)
    requires i < |responseIndexes|
  {
    0 <= responseIndexes[i] < |batch|
  }

  /**
   * The replay from action `i` on: the actions invoked, in order, and how
   * the replay ends. `invoke(i, response)` is what action `i` does when it
   * is given its sub-response (it may throw).
   */
  function Replay(batch: Option<seq<ODataResponse>>, responseIndexes: seq<int>, actionCount: nat,
                  invoke: (nat, ODataResponse) -> Outcome, i: nat): (seq<nat>, Outcome)
    requires i <= actionCount <= |responseIndexes|
    decreases actionCount - i
  {
    if i == actionCount then ([], Pass)
    else if responseIndexes[i] < 0 then Replay(batch, responseIndexes, actionCount, invoke, i + 1)
    else if batch.None? then ([], Fail(NullReference))
    else if responseIndexes[i] >= |batch.value| then Replay(batch, responseIndexes, actionCount, invoke, i + 1)
    else
      var response := batch.value[responseIndexes[i]];
      if IsFailure(response) then ([], Fail(FailureOf(response)))
      else match invoke(i, response)
        case Fail(e) => ([i], Fail(e))
        case Pass =>
          var rest := Replay(batch, responseIndexes, actionCount, invoke, i + 1);
          ([i] + rest.0, rest.1)
  }

  method AssignBatchActionResults(batchResponse: ODataResponse, actionCount: nat, responseIndexes: seq<int>,
                                  invoke: (nat, ODataResponse) -> Outcome)
    returns (invoked: seq<nat>, outcome: Outcome)
    requires actionCount <= |responseIndexes|
    ensures (invoked, outcome) == Replay(batchResponse.batch, responseIndexes, actionCount, invoke, 0)
  {
    ghost var whole := Replay(batchResponse.batch, responseIndexes, actionCount, invoke, 0);
    var exceptions: seq<Error> := [];
    invoked := [];
    var actionIndex := 0;
    while actionIndex < actionCount && |exceptions| == 0
      invariant actionIndex <= actionCount
      invariant |exceptions| <= 1
      invariant exceptions == [] ==>
                  && whole.0 == invoked + Replay(batchResponse.batch, responseIndexes, actionCount, invoke, actionIndex).0
                  && whole.1 == Replay(batchResponse.batch, responseIndexes, actionCount, invoke, actionIndex).1
      invariant exceptions != [] ==> whole.0 == invoked && whole.1 == Fail(exceptions[0])
      decreases actionCount - actionIndex
    {
      ghost var here := Replay(batchResponse.batch, responseIndexes, actionCount, invoke, actionIndex);
      ghost var next := Replay(batchResponse.batch, responseIndexes, actionCount, invoke, actionIndex + 1);
      var responseIndex := responseIndexes[actionIndex];
      if responseIndex >= 0 {
        if batchResponse.batch.None? {
          assert here == ([], Fail(NullReference));
          assert invoked + here.0 == invoked;
          return invoked, Fail(NullReference);
        }
        if responseIndex < |batchResponse.batch.value| {
          var actionResponse := batchResponse.batch.value[responseIndex];
          if actionResponse.exception.Some? {
            assert here == ([], Fail(actionResponse.exception.value));
            assert invoked + here.0 == invoked;
            exceptions := exceptions + [actionResponse.exception.value];
          } else if actionResponse.statusCode >= BadRequest {
            assert here == ([], Fail(WebRequest(actionResponse.statusCode, None)));
            assert invoked + here.0 == invoked;
            exceptions := exceptions + [WebRequest(actionResponse.statusCode, None)];
          } else {
            var done := invoke(actionIndex, actionResponse);
            ghost var before := invoked;
            invoked := invoked + [actionIndex];
            if done.Fail? {
              assert here == ([actionIndex], done);
              return invoked, done;
            }
            assert here == ([actionIndex] + next.0, next.1);
            assert before + ([actionIndex] + next.0) == invoked + next.0;
          }
        } else {
          assert here == next;
        }
      } else {
        assert here == next;
      }
      actionIndex := actionIndex + 1;
    }
    if |exceptions| > 0 {
      outcome := Fail(exceptions[0]);
    } else {
      assert Replay(batchResponse.batch, responseIndexes, actionCount, invoke, actionIndex) == ([], Pass);
      assert invoked + [] == invoked;
      outcome := Pass;
    }
  }

  predicate Increasing(s: seq<nat>) {
    forall p, q :: 0 <= p < q < |s| ==> s[p] < s[q]
  }

  /** Action `a`, from `i` on, has a sub-response that is not a failure. */
  predicate Invokable(batch: Option<seq<ODataResponse>>, responseIndexes: seq<int>, actionCount: nat, i: nat, a: nat) {
    && i <= a < actionCount <= |responseIndexes|
    && batch.Some?
    && HasResponse(batch.value, responseIndexes, a)
    && !IsFailure(batch.value[responseIndexes[a]])
  }

  /** Every action from `i` on that has a sub-response and comes before `a` is in `invoked` and succeeded. */
  predicate ServedBefore(batch: Option<seq<ODataResponse>>, responseIndexes: seq<int>,
                         invoke: (nat, ODataResponse) -> Outcome, i: nat, a: nat, invoked: seq<nat>) {
    forall j :: i <= j < a && j < |responseIndexes| && batch.Some? && HasResponse(batch.value, responseIndexes, j) ==>
      j in invoked && invoke(j, batch.value[responseIndexes[j]]).Pass?
  }

  /**
   * The actions replay invokes are in range, increasing, and each of them
   * got a sub-response that is not a failure; every action with a
   * sub-response before an invoked one was invoked as well and succeeded.
   */
  lemma {:induction false} ReplayInvokesInOrder(batch: Option<seq<ODataResponse>>, responseIndexes: seq<int>,
                                                actionCount: nat, invoke: (nat, ODataResponse) -> Outcome, i: nat)
    requires i <= actionCount <= |responseIndexes|
    ensures var invoked := Replay(batch, responseIndexes, actionCount, invoke, i).0;
            && Increasing(invoked)
            && (forall p :: 0 <= p < |invoked| ==> Invokable(batch, responseIndexes, actionCount, i, invoked[p]))
            && (forall p :: 0 <= p < |invoked| ==> ServedBefore(batch, responseIndexes, invoke, i, invoked[p], invoked))
    decreases actionCount - i
  {
    if i < actionCount {
      ReplayInvokesInOrder(batch, responseIndexes, actionCount, invoke, i + 1);
      var rest := Replay(batch, responseIndexes, actionCount, invoke, i + 1).0;
      var invoked := Replay(batch, responseIndexes, actionCount, invoke, i).0;
      if batch.Some? && HasResponse(batch.value, responseIndexes, i) {
        var response := batch.value[responseIndexes[i]];
        if !IsFailure(response) && invoke(i, response).Pass? {
          assert invoked == [i] + rest;
          forall p | 0 < p < |invoked|
            ensures Invokable(batch, responseIndexes, actionCount, i + 1, invoked[p])
            ensures ServedBefore(batch, responseIndexes, invoke, i + 1, invoked[p], rest)
          {
            assert invoked[p] == rest[p - 1];
          }
          forall p | 0 <= p < |invoked|
            ensures ServedBefore(batch, responseIndexes, invoke, i, invoked[p], invoked)
          {
            if p > 0 {
              assert ServedBefore(batch, responseIndexes, invoke, i + 1, invoked[p], rest);
            }
          }
        } else {
          assert invoked == [] || invoked == [i];
        }
      } else if responseIndexes[i] < 0 || batch.Some? {
        assert invoked == rest;
        forall p | 0 <= p < |invoked|
          ensures ServedBefore(batch, responseIndexes, invoke, i, invoked[p], invoked)
        {
          assert ServedBefore(batch, responseIndexes, invoke, i + 1, invoked[p], rest);
        }
      }
    }
  }

  /**
   * Fail fast: when action `k` has a failed sub-response, replay throws and
   * no action from `k` on is invoked. When every earlier action with a
   * sub-response was served, the exception thrown is that of `k`'s.
   */
  lemma {:induction false} ReplayStopsAtFailure(batch: seq<ODataResponse>, responseIndexes: seq<int>,
                                                actionCount: nat, invoke: (nat, ODataResponse) -> Outcome,
                                                i: nat, k: nat)
    requires i <= k < actionCount <= |responseIndexes|
    requires HasResponse(batch, responseIndexes, k) && IsFailure(batch[responseIndexes[k]])
    ensures var invoked := Replay(Some(batch), responseIndexes, actionCount, invoke, i).0;
            var outcome := Replay(Some(batch), responseIndexes, actionCount, invoke, i).1;
            outcome.Fail? && forall p :: 0 <= p < |invoked| ==> invoked[p] < k
    ensures (forall j :: i <= j < k && HasResponse(batch, responseIndexes, j) ==>
               !IsFailure(batch[responseIndexes[j]]) && invoke(j, batch[responseIndexes[j]]).Pass?) ==>
              Replay(Some(batch), responseIndexes, actionCount, invoke, i).1 == Fail(FailureOf(batch[responseIndexes[k]]))
    decreases actionCount - i
  {
    if i < k {
      ReplayStopsAtFailure(batch, responseIndexes, actionCount, invoke, i + 1, k);
    }
  }

  /**
   * A replay that completes invoked exactly the actions that have a
   * sub-response, and each of them succeeded.
   */
  lemma {:induction false} ReplayCompletes(batch: seq<ODataResponse>, responseIndexes: seq<int>,
                                           actionCount: nat, invoke: (nat, ODataResponse) -> Outcome, i: nat)
    requires i <= actionCount <= |responseIndexes|
    ensures var invoked := Replay(Some(batch), responseIndexes, actionCount, invoke, i).0;
            var outcome := Replay(Some(batch), responseIndexes, actionCount, invoke, i).1;
            outcome.Pass? ==>
              forall j :: i <= j < actionCount ==>
                (j in invoked <==> HasResponse(batch, responseIndexes, j)) &&
                (HasResponse(batch, responseIndexes, j) ==>
                   !IsFailure(batch[responseIndexes[j]]) && invoke(j, batch[responseIndexes[j]]).Pass?)
    decreases actionCount - i
  {
    if i < actionCount {
      ReplayCompletes(batch, responseIndexes, actionCount, invoke, i + 1);
      ReplayInvokesInOrder(Some(batch), responseIndexes, actionCount, invoke, i + 1);
    }
  }
}
