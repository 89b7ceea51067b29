/**
 The document stream over a server cursor: the first batch, then getMore until the cursor id is 0.
 The server is a list of answers it gives in turn; how it cuts the result into batches is its choice.
 */
module MongoCursor {
  import opened Wrappers
  import Pump = RowPump

  /** A document as the JSON text the gateway shows. */
  type Document = string

  /** An element of a batch; elements that are not documents are skipped. */
  datatype Element = Doc(doc: Document) | Other

  /** An answer to getMore: the new cursor id (0 if absent) and the next batch (empty if absent), or an error. */
  datatype Reply = Batch(id: int, elements: seq<Element>) | Failed(error: string)

  datatype StreamItem = Item(doc: Document) | Fault(error: string)

  /** What polling yields: an item, the end of the stream, or nothing yet. */
  datatype Polled = Yield(item: StreamItem) | Finished | Waiting

  function Docs(elements: seq<Element>): seq<Document> {
    if elements == [] then []
    else (if elements[0].Doc? then [elements[0].doc] else []) + Docs(elements[1..])
  }

  /** The documents of a batch, all of them and in order; what is no document is left out. */
  lemma {:induction false} DocsInOrder(a: seq<Element>, b: seq<Element>)
    ensures Docs(a + b) == Docs(a) + Docs(b)
  {
    if a == [] {
      assert a + b == b;
    } else {
      assert (a + b)[1..] == a[1..] + b;
      DocsInOrder(a[1..], b);
    }
  }

  lemma DocsOfOne(d: Document)
    ensures Docs([Doc(d)]) == [d] && Docs([Other]) == [] && Docs([]) == []
  {
    assert [Doc(d)][1..] == [] && [Other][1..] == [];
  }

  lemma {:induction false} AllDocsAreKept(docs: seq<Document>)
    ensures Docs(AsElements(docs)) == docs
  {
    if docs != [] {
      assert AsElements(docs)[1..] == AsElements(docs[1..]);
      AllDocsAreKept(docs[1..]);
    }
  }

  function AsElements(docs: seq<Document>): (es: seq<Element>)
    ensures |es| == |docs| && forall i :: 0 <= i < |es| ==> es[i] == Doc(docs[i])
  {
    seq(|docs|, i requires 0 <= i < |docs| => Doc(docs[i]))
  }

  function Items(docs: seq<Document>): (items: seq<StreamItem>)
    ensures |items| == |docs|
    ensures forall i :: 0 <= i < |items| ==> items[i] == Item(docs[i])
  {
    seq(|docs|, i requires 0 <= i < |docs| => Item(docs[i]))
  }

  /** The collection part of a namespace: everything after the first dot, nothing if there is none. */
  function NsToColl(ns: string): string {
    if ns == "" then ""
    else if ns[0] == '.' then ns[1..]
    else NsToColl(ns[1..])
  }

  lemma {:induction false} DottedCollectionIsKept(db: string, coll: string)
    requires '.' !in db
    ensures NsToColl(db + "." + coll) == coll
  {
    if db == "" {
      assert db + "." + coll == "." + coll;
    } else {
      assert (db + "." + coll)[1..] == db[1..] + "." + coll;
      DottedCollectionIsKept(db[1..], coll);
    }
  }

  lemma {:induction false} NoDotNoCollection(ns: string)
    requires '.' !in ns
    ensures NsToColl(ns) == ""
  {
    if ns != "" {
      NoDotNoCollection(ns[1..]);
    }
  }

  // ── The reference ──

  /** The items of a stream, and whether it ends (it stalls when the server stops answering). */
  datatype Trace = Trace(items: seq<StreamItem>, ended: bool)

  function StreamOf(buf: seq<Document>, id: int, coll: string, replies: seq<Reply>): Trace
    decreases |replies|
  {
    if id == 0 || coll == "" then Trace(Items(buf), true)
    else if replies == [] then Trace(Items(buf), false)
    else
      match replies[0]
      case Failed(e) => Trace(Items(buf) + [Fault(e)], true)
      case Batch(id', elements) =>
        var rest := StreamOf(Docs(elements), id', coll, replies[1..]);
        Trace(Items(buf) + rest.items, rest.ended)
  }

  lemma StreamUnfolds(buf: seq<Document>, id: int, coll: string, replies: seq<Reply>)
    ensures var t := StreamOf(buf, id, coll, replies);
            if buf != [] then
              t.items == [Item(buf[0])] + StreamOf(buf[1..], id, coll, replies).items &&
              t.ended == StreamOf(buf[1..], id, coll, replies).ended
            else if id == 0 || coll == "" then t == Trace([], true)
            else if replies == [] then t == Trace([], false)
            else if replies[0].Failed? then t == Trace([Fault(replies[0].error)], true)
            else t == StreamOf(Docs(replies[0].elements), replies[0].id, coll, replies[1..])
  {
    if buf != [] {
      assert Items(buf) == [Item(buf[0])] + Items(buf[1..]);
    } else {
      assert Items([]) == [];
      if id != 0 && coll != "" && replies != [] && replies[0].Batch? {
        var rest := StreamOf(Docs(replies[0].elements), replies[0].id, coll, replies[1..]);
        assert [] + rest.items == rest.items;
      }
    }
  }

  // ── The polling loop ──

  /** The cursor id in force after `n` answers. */
  function CursorId(id: int, replies: seq<Reply>, n: nat): int
    requires n <= |replies|
  {
    if n == 0 then id
    else
      match replies[n - 1]
      case Batch(next, _) => next
      case Failed(_) => 0
  }

  /** Each getMore names the cursor id of the answer before it. */
  predicate AskInTurn(asked: seq<(int, string)>, id: int, replies: seq<Reply>) {
    |asked| <= |replies| && forall j :: 0 <= j < |asked| ==> asked[j].0 == CursorId(id, replies, j)
  }

  class CursorState {
    var id: int
    const coll: string
    var buf: seq<Document>
    /** The answers the server has still to give, and the getMore commands it was sent. */
    var replies: seq<Reply>
    var requests: seq<(int, string)>

    constructor (firstBatch: seq<Document>, cursorId: int, ns: string, answers: seq<Reply>)
      ensures id == cursorId && coll == NsToColl(ns) && buf == firstBatch && replies == answers && requests == []
    {
      id, coll, buf, replies, requests := cursorId, NsToColl(ns), firstBatch, answers, [];
    }

    ghost function Ahead(): Trace
      reads this
    {
      StreamOf(buf, id, coll, replies)
    }

    /** One poll: a buffered document, else getMore until one arrives, the cursor ends or the server fails. */
    method Next() returns (polled: Polled)
      modifies this
      ensures polled.Yield? ==> old(Ahead()).items == [polled.item] + Ahead().items && old(Ahead()).ended == Ahead().ended
      ensures polled.Finished? ==> old(Ahead()) == Trace([], true) && Ahead() == Trace([], true)
      ensures polled.Waiting? ==> old(Ahead()) == Trace([], false)
      ensures polled.Yield? && polled.item.Fault? ==> Ahead() == Trace([], true)
      ensures forall k :: |old(requests)| <= k < |requests| ==> requests[k].0 != 0 && requests[k].1 == coll
      ensures |requests| >= |old(requests)| && |replies| == |old(replies)| - (|requests| - |old(requests)|)
      ensures old(requests) <= requests && AskInTurn(requests[|old(requests)|..], old(id), old(replies))
      ensures |replies| < |old(replies)| || |buf| < |old(buf)| || polled.Finished? || polled.Waiting?
      ensures |replies| == |old(replies)| ==> |buf| <= |old(buf)|
      ensures |replies| <= |old(replies)|
    {
      hide StreamOf;
      ghost var goal := Ahead();
      while true
        invariant Ahead() == goal
        invariant |replies| == |old(replies)| ==> buf == old(buf)
        invariant |replies| <= |old(replies)|
        invariant old(requests) <= requests && |requests| - |old(requests)| <= |old(replies)|
        invariant replies == old(replies)[|requests| - |old(requests)|..]
        invariant id == CursorId(old(id), old(replies), |requests| - |old(requests)|)
        invariant AskInTurn(requests[|old(requests)|..], old(id), old(replies))
        invariant forall k :: |old(requests)| <= k < |requests| ==> requests[k].0 != 0 && requests[k].1 == coll
        decreases |replies|
      {
        StreamUnfolds(buf, id, coll, replies);
        if buf != [] {
          polled := Yield(Item(buf[0]));
          buf := buf[1..];
          return;
        }
        if id == 0 || coll == "" {
          return Finished;
        }
        if replies == [] {
          return Waiting;
        }
        assert (requests + [(id, coll)])[|old(requests)|..] == requests[|old(requests)|..] + [(id, coll)];
        requests := requests + [(id, coll)];
        var reply := replies[0];
        replies := replies[1..];
        match reply {
          case Failed(e) =>
            id := 0;
            StreamUnfolds(buf, id, coll, replies);
            return Yield(Fault(e));
          case Batch(newId, elements) =>
            id := newId;
            buf := Docs(elements);
        }
      }
    }
  }

  /** Polling to the end yields exactly the reference stream. */
  method Drain(cursor: CursorState) returns (items: seq<StreamItem>, ended: bool)
    modifies cursor
    ensures Trace(items, ended) == old(cursor.Ahead())
  {
    hide StreamOf;
    ghost var goal := cursor.Ahead();
    items := [];
    while true
      invariant items + cursor.Ahead().items == goal.items && cursor.Ahead().ended == goal.ended
      decreases |cursor.replies|, |cursor.buf|
    {
      var polled := cursor.Next();
      match polled {
        case Yield(item) =>
          assert items + ([item] + cursor.Ahead().items) == items + [item] + cursor.Ahead().items;
          items := items + [item];
        case Finished =>
          assert items + [] == items;
          return items, true;
        case Waiting =>
          assert items + [] == items;
          return items, false;
      }
    }
  }

  // ── The theorems ──

  /** An error is the last item, and the stream then ends. */
  predicate FaultOnlyLast(t: Trace) {
    forall i :: 0 <= i < |t.items| && t.items[i].Fault? ==> i == |t.items| - 1 && t.ended
  }

  /** An error is yielded at most once, as the last item, and the stream then ends. */
  lemma {:induction false} FaultIsLast(buf: seq<Document>, id: int, coll: string, replies: seq<Reply>)
    ensures FaultOnlyLast(StreamOf(buf, id, coll, replies))
    decreases |replies|
  {
    if id != 0 && coll != "" && replies != [] && replies[0].Batch? {
      FaultIsLast(Docs(replies[0].elements), replies[0].id, coll, replies[1..]);
    }
  }

  function Flatten(batches: seq<seq<Document>>): seq<Document> {
    if batches == [] then [] else batches[0] + Flatten(batches[1..])
  }

  /** The server cuts the rest of a result into `batches`, with a live id on all but the last answer. */
  predicate Serves(replies: seq<Reply>, batches: seq<seq<Document>>) {
    && |replies| == |batches|
    && (forall j :: 0 <= j < |replies| ==> replies[j].Batch? && Docs(replies[j].elements) == batches[j])
    && (forall j :: 0 <= j < |replies| ==> (replies[j].id == 0 <==> j == |replies| - 1))
  }

  /** However the server cuts the result, the stream is the first batch and all next batches in order. */
  lemma {:induction false} StreamIsTheWholeResult(first: seq<Document>, id: int, coll: string, replies: seq<Reply>, batches: seq<seq<Document>>)
    requires coll != "" && Serves(replies, batches) && (id == 0 <==> batches == [])
    ensures StreamOf(first, id, coll, replies) == Trace(Items(first + Flatten(batches)), true)
    decreases |batches|
  {
    if batches == [] {
      assert first + [] == first;
    } else {
      assert Serves(replies[1..], batches[1..]) by {
        assert forall j :: 0 <= j < |replies| - 1 ==> replies[1..][j] == replies[j + 1];
        assert forall j :: 0 <= j < |batches| - 1 ==> batches[1..][j] == batches[j + 1];
      }
      assert replies[0].Batch? && Docs(replies[0].elements) == batches[0];
      assert replies[0].id == 0 <==> batches[1..] == [];
      StreamIsTheWholeResult(batches[0], replies[0].id, coll, replies[1..], batches[1..]);
      assert Items(first) + Items(batches[0] + Flatten(batches[1..])) == Items(first + (batches[0] + Flatten(batches[1..])));
    }
  }

  /** When getMore fails after some batches, those batches and then the one error are the stream. */
  lemma {:induction false} FailureEndsTheStream(first: seq<Document>, id: int, coll: string, replies: seq<Reply>, batches: seq<seq<Document>>, error: string)
    requires coll != "" && id != 0 && |replies| > |batches|
    requires forall j :: 0 <= j < |batches| ==> replies[j].Batch? && replies[j].id != 0 && Docs(replies[j].elements) == batches[j]
    requires replies[|batches|] == Failed(error)
    ensures StreamOf(first, id, coll, replies) == Trace(Items(first + Flatten(batches)) + [Fault(error)], true)
    decreases |batches|
  {
    if batches == [] {
      assert first + [] == first;
    } else {
      assert forall j :: 0 <= j < |replies| - 1 ==> replies[1..][j] == replies[j + 1];
      assert forall j :: 0 <= j < |batches| - 1 ==> batches[1..][j] == batches[j + 1];
      assert replies[0].Batch?;
      FailureEndsTheStream(batches[0], replies[0].id, coll, replies[1..], batches[1..], error);
      assert Items(first) + (Items(batches[0] + Flatten(batches[1..])) + [Fault(error)]) ==
             Items(first + (batches[0] + Flatten(batches[1..]))) + [Fault(error)];
    }
  }

  /** Without a collection name nothing more is asked for: the first batch is the stream. */
  lemma NoCollectionEndsTheStream(first: seq<Document>, id: int, replies: seq<Reply>)
    ensures StreamOf(first, id, "", replies) == Trace(Items(first), true)
  {
    StreamUnfolds(first, id, "", replies);
    assert Items(first) + [] == Items(first);
  }

  // ── Feeding the row pump ──

  /** Each document is a row of one column. */
  function AsRows(items: seq<StreamItem>): (rows: seq<Pump.Item>)
    ensures |rows| == |items|
    ensures forall i :: 0 <= i < |rows| ==>
              rows[i] == (if items[i].Item? then Pump.Row(Pump.MappedRow(["doc"], [items[i].doc], None)) else Pump.Failure(items[i].error))
  {
    seq(|items|, i requires 0 <= i < |items| =>
      if items[i].Item? then Pump.Row(Pump.MappedRow(["doc"], [items[i].doc], None)) else Pump.Failure(items[i].error))
  }

  function Cells(docs: seq<Document>): (rows: seq<seq<string>>)
    ensures |rows| == |docs|
    ensures forall i :: 0 <= i < |rows| ==> rows[i] == [docs[i]]
  {
    seq(|docs|, i requires 0 <= i < |docs| => [docs[i]])
  }

  /** The events of a cursor query do not depend on how the server cuts the result into batches. */
  lemma BatchingIsInvisible(first: seq<Document>, id: int, replies: seq<Reply>, batches: seq<seq<Document>>,
                            first': seq<Document>, id': int, replies': seq<Reply>, batches': seq<seq<Document>>,
                            coll: string, limit: nat)
    requires coll != "" && Serves(replies, batches) && (id == 0 <==> batches == [])
    requires Serves(replies', batches') && (id' == 0 <==> batches' == [])
    requires first + Flatten(batches) == first' + Flatten(batches')
    ensures Pump.Expected(AsRows(StreamOf(first, id, coll, replies).items), limit) ==
            Pump.Expected(AsRows(StreamOf(first', id', coll, replies').items), limit)
  {
    hide Pump.Expected, StreamOf;
    StreamIsTheWholeResult(first, id, coll, replies, batches);
    StreamIsTheWholeResult(first', id', coll, replies', batches');
  }

  /** They are those of the eager leg over all documents, when there are any. */
  lemma CursorQueryIsEager(first: seq<Document>, id: int, coll: string, replies: seq<Reply>, batches: seq<seq<Document>>, limit: nat)
    requires coll != "" && Serves(replies, batches) && (id == 0 <==> batches == []) && limit > 0
    ensures first + Flatten(batches) != [] <==>
            Pump.Expected(AsRows(StreamOf(first, id, coll, replies).items), limit) ==
            Pump.Eager(["doc"], Cells(first + Flatten(batches)), limit)
  {
    hide Pump.Expected, Pump.Eager, StreamOf;
    StreamIsTheWholeResult(first, id, coll, replies, batches);
    var docs := first + Flatten(batches);
    assert AsRows(Items(docs)) == Pump.AsItems(["doc"], Cells(docs));
    Pump.PumpRefinesEager(["doc"], Cells(docs), limit);
  }
}
