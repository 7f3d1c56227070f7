/**
 * `recommendedService`: calls for recommended modules are gathered into
 * batches of at most 100 queries; a batch fetches each distinct reference id
 * once and answers the queries from the fetched data. The HTTP request is a
 * function parameter `fetch` from reference id to response.
 */
module RecommendedService {
  /** `maxBatchSize` of the batch scheduler. */
  const MaxBatchSize: nat := 100

  datatype Query = Query(referenceId: string)

  /** Index of the first occurrence of `x` in `s`. */
  function FirstIndex<T(==)>(s: seq<T>, x: T): (i: nat)
    requires x in s
    ensures i < |s| && s[i] == x && x !in s[..i]
  {
    if s[0] == x then 0 else
      assert s == [s[0]] + s[1..];
      1 + FirstIndex(s[1..], x)
  }

  /** `[...new Set(ids)]`: the distinct ids in order of first occurrence. */
  function Dedupe(ids: seq<string>): (r: seq<string>)
    ensures forall x :: x in r <==> x in ids
  {
    if ids == [] then []
    else
      var d := Dedupe(ids[..|ids| - 1]);
      assert ids == ids[..|ids| - 1] + [ids[|ids| - 1]];
      if ids[|ids| - 1] in d then d else d + [ids[|ids| - 1]]
  }

  predicate Distinct<T(==)>(s: seq<T>) {
    forall i, j :: 0 <= i < j < |s| ==> s[i] != s[j]
  }

  /** Each id is fetched once, and in the order the ids were first asked for. */
  lemma {:induction false} DedupeDistinctInOrder(ids: seq<string>)
    ensures Distinct(Dedupe(ids))
    ensures forall i, j :: 0 <= i < j < |Dedupe(ids)| ==>
      FirstIndex(ids, Dedupe(ids)[i]) < FirstIndex(ids, Dedupe(ids)[j])
  {
    if ids != [] {
      var pre := ids[..|ids| - 1];
      var last := ids[|ids| - 1];
      DedupeDistinctInOrder(pre);
      var d := Dedupe(pre);
      assert ids == pre + [last];
      forall x | x in d
        ensures FirstIndex(ids, x) == FirstIndex(pre, x)
      {
        FirstIndexPrefix(pre, last, x);
      }
      if last !in d {
        assert last !in pre;
        FirstIndexNew(pre, last);
        assert Dedupe(ids) == d + [last];
        forall i | 0 <= i < |d|
          ensures FirstIndex(ids, d[i]) < FirstIndex(ids, last) && d[i] != last
        {
          assert d[i] in pre;
        }
      } else {
        assert Dedupe(ids) == d;
      }
    }
  }

  lemma {:induction false} FirstIndexPrefix(pre: seq<string>, last: string, x: string)
    requires x in pre
    ensures FirstIndex(pre + [last], x) == FirstIndex(pre, x)
  {
    assert (pre + [last])[0] == pre[0];
    if pre[0] != x {
      assert (pre + [last])[1..] == pre[1..] + [last];
      FirstIndexPrefix(pre[1..], last, x);
    }
  }

  lemma {:induction false} FirstIndexNew(pre: seq<string>, last: string)
    requires last !in pre
    ensures FirstIndex(pre + [last], last) == |pre|
  {
    if pre != [] {
      assert (pre + [last])[1..] == pre[1..] + [last];
      FirstIndexNew(pre[1..], last);
    }
  }

  /** `new Map(results.map(...))`: the fetched data by reference id. */
  function ResultMap<D>(uniqueIds: seq<string>, fetch: string -> D): (m: map<string, D>)
    ensures forall id :: id in m <==> id in uniqueIds
  {
    map id | id in uniqueIds :: fetch(id)
  }

  /** What one batch does: the ids it fetches and one answer per query. */
  datatype BatchOutcome<D> = BatchOutcome(fetched: seq<string>, items: seq<D>)

  /** The batch `fetcher`. */
  function Fetcher<D>(queries: seq<Query>, fetch: string -> D): (r: BatchOutcome<D>)
    ensures r.fetched == Dedupe(ReferenceIds(queries))
    ensures |r.items| == |queries|
  {
    var uniqueIds := Dedupe(ReferenceIds(queries));
    var resultMap := ResultMap(uniqueIds, fetch);
    BatchOutcome(uniqueIds, seq(|queries|, i requires 0 <= i < |queries| => resultMap[ReferenceIds(queries)[i]]))
  }

  /** The reference id of each query, in queue order. */
  function ReferenceIds(queries: seq<Query>): (r: seq<string>)
    ensures |r| == |queries|
  {
    seq(|queries|, i requires 0 <= i < |queries| => queries[i].referenceId)
  }

  /**
   * The fetcher keeps its promise: the i-th item is the response for the
   * i-th query's reference id, and each distinct id is requested exactly
   * once, in order of first appearance.
   */
  lemma FetcherAnswersEachQuery<D>(queries: seq<Query>, fetch: string -> D)
    ensures var r := Fetcher(queries, fetch);
      && (forall i :: 0 <= i < |queries| ==> r.items[i] == fetch(queries[i].referenceId))
      && Distinct(r.fetched)
      && (forall id :: id in r.fetched <==> exists i :: 0 <= i < |queries| && queries[i].referenceId == id)
  {
    var ids := ReferenceIds(queries);
    DedupeDistinctInOrder(ids);
    forall id | id in ids
      ensures exists i :: 0 <= i < |queries| && queries[i].referenceId == id
    {
      var i :| 0 <= i < |ids| && ids[i] == id;
      assert queries[i].referenceId == id;
    }
  }

  /** The `resolver` as written: every caller of the batch gets `items[0]`. */
  function ResolverAsWritten<D>(items: seq<D>, query: Query): D
    requires |items| > 0
  {
    items[0]
  }

  /** The answers the callers of one batch receive, as written. */
  function ServeBatchAsWritten<D>(queries: seq<Query>, fetch: string -> D): (r: seq<D>)
    requires |queries| > 0
    ensures |r| == |queries|
  {
    var items := Fetcher(queries, fetch).items;
    seq(|queries|, i requires 0 <= i < |queries| => ResolverAsWritten(items, queries[i]))
  }

  /** As written, every caller of a batch receives the first query's data. */
  lemma ServeBatchAsWrittenGivesFirst<D>(queries: seq<Query>, fetch: string -> D)
    requires |queries| > 0
    ensures forall i :: 0 <= i < |queries| ==> ServeBatchAsWritten(queries, fetch)[i] == fetch(queries[0].referenceId)
  {
    FetcherAnswersEachQuery(queries, fetch);
  }

  /**
   * Two calls in one window for different reference ids: the second caller
   * receives the first one's recommendations.
   */
  lemma SecondCallerGetsFirstData(fetch: string -> int)
    requires fetch("a") != fetch("b")
    ensures ServeBatchAsWritten([Query("a"), Query("b")], fetch)[1] == fetch("a")
    ensures ServeBatchAsWritten([Query("a"), Query("b")], fetch)[1] != fetch("b")
  {
    ServeBatchAsWrittenGivesFirst([Query("a"), Query("b")], fetch);
  }

  /** A fetched response labelled with its reference id. */
  datatype Labelled<D> = Labelled(referenceId: string, data: D)

  /** The corrected fetcher: the items carry the reference id they answer. */
  function LabelledFetcher<D>(queries: seq<Query>, fetch: string -> D): (r: seq<Labelled<D>>)
    ensures |r| == |queries|
  {
    var items := Fetcher(queries, fetch).items;
    seq(|queries|, i requires 0 <= i < |queries| => Labelled(queries[i].referenceId, items[i]))
  }

  /** The corrected resolver: the data of the first item labelled with the query's id. */
  function Resolver<D>(items: seq<Labelled<D>>, query: Query): (r: D)
    requires exists i :: 0 <= i < |items| && items[i].referenceId == query.referenceId
    ensures exists i :: 0 <= i < |items| && items[i].referenceId == query.referenceId && items[i].data == r
  {
    if items[0].referenceId == query.referenceId then items[0].data
    else Resolver(items[1..], query)
  }

  /** The answers the callers of one batch receive, with the corrected resolver. */
  function ServeBatch<D>(queries: seq<Query>, fetch: string -> D): (r: seq<D>)
    ensures |r| == |queries|
  {
    var items := LabelledFetcher(queries, fetch);
    seq(|queries|, i requires 0 <= i < |queries| =>
      assert items[i].referenceId == queries[i].referenceId;
      Resolver(items, queries[i]))
  }

  /** With the corrected resolver every caller gets the response for its own id. */
  lemma ServeBatchAnswersOwnId<D>(queries: seq<Query>, fetch: string -> D)
    ensures forall i :: 0 <= i < |queries| ==> ServeBatch(queries, fetch)[i] == fetch(queries[i].referenceId)
  {
    FetcherAnswersEachQuery(queries, fetch);
    var items := LabelledFetcher(queries, fetch);
    forall i | 0 <= i < |queries|
      ensures ServeBatch(queries, fetch)[i] == fetch(queries[i].referenceId)
    {
      assert items[i].referenceId == queries[i].referenceId;
      assert ServeBatch(queries, fetch)[i] == Resolver(items, queries[i]);
      var j :| 0 <= j < |items| && items[j].referenceId == queries[i].referenceId
        && items[j].data == ServeBatch(queries, fetch)[i];
      assert items[j].data == fetch(queries[j].referenceId);
    }
  }

  /**
   * The scheduler: calls arriving in one window are dispatched in order in
   * batches of at most `MaxBatchSize` queries.
   */
  function Batches(queue: seq<Query>): (r: seq<seq<Query>>)
    ensures forall b :: b in r ==> 0 < |b| <= MaxBatchSize
    decreases |queue|
  {
    if queue == [] then []
    else if |queue| <= MaxBatchSize then [queue]
    else [queue[..MaxBatchSize]] + Batches(queue[MaxBatchSize..])
  }

  function Flatten<T>(xss: seq<seq<T>>): seq<T> {
    if xss == [] then [] else xss[0] + Flatten(xss[1..])
  }

  /** Batching loses and reorders no call. */
  lemma {:induction false} BatchesPartitionQueue(queue: seq<Query>)
    ensures Flatten(Batches(queue)) == queue
    decreases |queue|
  {
    if queue != [] && |queue| > MaxBatchSize {
      BatchesPartitionQueue(queue[MaxBatchSize..]);
      assert queue == queue[..MaxBatchSize] + queue[MaxBatchSize..];
    } else if queue != [] {
      assert Flatten([queue]) == queue + Flatten([]);
    }
  }

  /** `fetchRecommendedModulesByReferenceId` for each call of a window, as written. */
  function ServeWindowAsWritten<D>(referenceIds: seq<string>, fetch: string -> D): (r: seq<D>)
    ensures |r| == |referenceIds|
    decreases |referenceIds|
  {
    if referenceIds == [] then []
    else
      var n := if |referenceIds| <= MaxBatchSize then |referenceIds| else MaxBatchSize;
      ServeBatchAsWritten(Queries(referenceIds[..n]), fetch) + ServeWindowAsWritten(referenceIds[n..], fetch)
  }

  /** `fetchRecommendedModulesByReferenceId` for each call of a window, corrected. */
  function ServeWindow<D>(referenceIds: seq<string>, fetch: string -> D): (r: seq<D>)
    ensures |r| == |referenceIds|
    decreases |referenceIds|
  {
    if referenceIds == [] then []
    else
      var n := if |referenceIds| <= MaxBatchSize then |referenceIds| else MaxBatchSize;
      ServeBatch(Queries(referenceIds[..n]), fetch) + ServeWindow(referenceIds[n..], fetch)
  }

  /** The `{ referenceId }` query each call enqueues. */
  function Queries(referenceIds: seq<string>): (r: seq<Query>)
    ensures |r| == |referenceIds|
    ensures ReferenceIds(r) == referenceIds
  {
    seq(|referenceIds|, i requires 0 <= i < |referenceIds| => Query(referenceIds[i]))
  }

  /** A window of n calls is dispatched in ceil(n / 100) batches. */
  lemma {:induction false} WindowUsesBatches(referenceIds: seq<string>)
    ensures |Batches(Queries(referenceIds))| == (|referenceIds| + MaxBatchSize - 1) / MaxBatchSize
    decreases |referenceIds|
  {
    if |referenceIds| > MaxBatchSize {
      assert Queries(referenceIds)[MaxBatchSize..] == Queries(referenceIds[MaxBatchSize..]);
      WindowUsesBatches(referenceIds[MaxBatchSize..]);
    }
  }

  /** Each (non-empty) batch served in turn with the resolver as written. */
  function ServeEachAsWritten<D>(batches: seq<seq<Query>>, fetch: string -> D): seq<D>
    requires forall b :: b in batches ==> |b| > 0
  {
    if batches == [] then []
    else
      assert batches[0] in batches;
      ServeBatchAsWritten(batches[0], fetch) + ServeEachAsWritten(batches[1..], fetch)
  }

  /** Each batch served in turn with the corrected resolver. */
  function ServeEach<D>(batches: seq<seq<Query>>, fetch: string -> D): seq<D> {
    if batches == [] then [] else ServeBatch(batches[0], fetch) + ServeEach(batches[1..], fetch)
  }

  /**
   * Serving a window is serving each of the scheduler's batches of its
   * queries in turn, both as written and corrected.
   */
  lemma {:induction false} WindowServesBatches<D>(referenceIds: seq<string>, fetch: string -> D)
    ensures ServeWindowAsWritten(referenceIds, fetch) == ServeEachAsWritten(Batches(Queries(referenceIds)), fetch)
    ensures ServeWindow(referenceIds, fetch) == ServeEach(Batches(Queries(referenceIds)), fetch)
    decreases |referenceIds|
  {
    var q := Queries(referenceIds);
    if |referenceIds| > MaxBatchSize {
      assert q[..MaxBatchSize] == Queries(referenceIds[..MaxBatchSize]);
      assert q[MaxBatchSize..] == Queries(referenceIds[MaxBatchSize..]);
      WindowServesBatches(referenceIds[MaxBatchSize..], fetch);
      assert Batches(q)[1..] == Batches(q[MaxBatchSize..]);
    } else if referenceIds != [] {
      assert referenceIds[..|referenceIds|] == referenceIds;
      assert Batches(q) == [q];
      assert ServeEach([q], fetch) == ServeBatch(q, fetch) + ServeEach([], fetch);
      assert ServeEachAsWritten([q], fetch) == ServeBatchAsWritten(q, fetch) + ServeEachAsWritten([], fetch);
    }
  }

  /** As written, each call receives the data of the first call of its batch. */
  lemma {:induction false} ServeWindowAsWrittenGivesBatchHead<D>(referenceIds: seq<string>, fetch: string -> D)
    ensures forall i :: 0 <= i < |referenceIds| ==>
      ServeWindowAsWritten(referenceIds, fetch)[i] == fetch(referenceIds[(i / MaxBatchSize) * MaxBatchSize])
    decreases |referenceIds|
  {
    if referenceIds != [] {
      var n := if |referenceIds| <= MaxBatchSize then |referenceIds| else MaxBatchSize;
      var head := Queries(referenceIds[..n]);
      var rest := referenceIds[n..];
      assert head[0] == Query(referenceIds[0]);
      ServeBatchAsWrittenGivesFirst(head, fetch);
      ServeWindowAsWrittenGivesBatchHead(rest, fetch);
      var a := ServeBatchAsWritten(head, fetch);
      var b := ServeWindowAsWritten(rest, fetch);
      var r := ServeWindowAsWritten(referenceIds, fetch);
      assert r == a + b;
      forall i | 0 <= i < |referenceIds|
        ensures r[i] == fetch(referenceIds[(i / MaxBatchSize) * MaxBatchSize])
      {
        if i < n {
          assert r[i] == a[i];
          assert i / MaxBatchSize == 0;
        } else {
          var k := i - n;
          assert r[i] == b[k];
          BatchHeadShift(i);
          assert rest[(k / MaxBatchSize) * MaxBatchSize] == referenceIds[(i / MaxBatchSize) * MaxBatchSize];
        }
      }
    }
  }

  /** A call past the first batch has its batch head one batch further on. */
  lemma BatchHeadShift(i: int)
    requires i >= MaxBatchSize
    ensures (i / MaxBatchSize) * MaxBatchSize == ((i - MaxBatchSize) / MaxBatchSize) * MaxBatchSize + MaxBatchSize
  {
    assert i / MaxBatchSize == (i - MaxBatchSize) / MaxBatchSize + 1;
  }

  /** Corrected, each call receives the response for its own reference id. */
  lemma {:induction false} ServeWindowAnswersOwnId<D>(referenceIds: seq<string>, fetch: string -> D)
    ensures forall i :: 0 <= i < |referenceIds| ==> ServeWindow(referenceIds, fetch)[i] == fetch(referenceIds[i])
    decreases |referenceIds|
  {
    if referenceIds != [] {
      var n := if |referenceIds| <= MaxBatchSize then |referenceIds| else MaxBatchSize;
      var head := Queries(referenceIds[..n]);
      ServeBatchAnswersOwnId(head, fetch);
      ServeWindowAnswersOwnId(referenceIds[n..], fetch);
      var r := ServeWindow(referenceIds, fetch);
      forall i | 0 <= i < |referenceIds|
        ensures r[i] == fetch(referenceIds[i])
      {
        if i < n {
          assert r[i] == ServeBatch(head, fetch)[i];
        } else {
          assert r[i] == ServeWindow(referenceIds[n..], fetch)[i - n];
        }
      }
    }
  }
}
