/** Item normalization (`normalizeItems`, `normalizeItem`).

    Items are taken in consecutive batches of `batchSize` (default 5).  Every
    item of a batch is sent to the service and all of the batch's answers are
    awaited together (`Promise.all`); the batch's results are appended in item
    order.  The first failing item makes the whole call fail: nothing is
    returned and later batches are never sent.  The service is the oracle
    `gateway`, told the item's position in the input and the item (the
    consolidated mapping that goes into the prompt is fixed for the whole call
    and so is part of the oracle); `JSON.parse` is the oracle `parse`. */
module Normalizer {
  import opened Wrappers
  import opened Gateway
  import opened Slicing
  import Objects
  import Consolidation
  import JsonRepair

  const DefaultBatchSize: nat := 5

  /** `normalizeItem`: one call and one parse, no repair and no retry; a
      thrown call or an unparsable response is a failure. */
  function NormalizeItem<I, N>(pos: nat, item: I,
                               gateway: (nat, I) -> Option<string>,
                               parse: string -> Option<N>): (r: Result<N, CallError>)
    ensures r.Success? <==> gateway(pos, item).Some? && parse(gateway(pos, item).value).Some?
    ensures r.Success? ==> r.value == parse(gateway(pos, item).value).value
    ensures r.Failure? ==> (r.error == GatewayFailed <==> gateway(pos, item).None?)
  {
    match gateway(pos, item)
    case None => Failure(GatewayFailed)
    case Some(content) =>
      match parse(content)
      case Some(normalized) => Success(normalized)
      case None => Failure(ParseFailed)
  }

  /** Unlike a chunk of the consolidation, an item gets no repair: a response
      that parses only after `fixIncompleteJSON` still fails the item, where
      the consolidation's parse step would have recovered it. */
  lemma NoRepairForItems<I, D>(pos: nat, item: I, text: string,
                               gateway: (nat, I) -> Option<string>,
                               parse: string -> Option<Objects.Object<D>>)
    requires gateway(pos, item) == Some(text)
    requires parse(text).None? && parse(JsonRepair.Repaired(text)).Some?
    ensures NormalizeItem(pos, item, gateway, parse) == Failure(ParseFailed)
    ensures Consolidation.ParseWithRepair(text, parse) == Success(parse(JsonRepair.Repaired(text)).value)
  {
  }

  /** `Promise.all` over settled results, taken in index order. */
  function AllOrFirstError<N>(rs: seq<Result<N, CallError>>): Result<seq<N>, CallError> {
    if rs == [] then Success([])
    else
      match AllOrFirstError(rs[..|rs| - 1])
      case Failure(e) => Failure(e)
      case Success(vs) =>
        match rs[|rs| - 1]
        case Success(v) => Success(vs + [v])
        case Failure(e) => Failure(e)
  }

  /** `Promise.all` gives all values in order when every result succeeded,
      and otherwise the error of the earliest failure. */
  lemma {:induction false} AllOrFirstErrorMeaning<N>(rs: seq<Result<N, CallError>>)
    ensures AllOrFirstError(rs).Success? <==> forall j :: 0 <= j < |rs| ==> rs[j].Success?
    ensures AllOrFirstError(rs).Success? ==>
      |AllOrFirstError(rs).value| == |rs| && forall j :: 0 <= j < |rs| ==> AllOrFirstError(rs).value[j] == rs[j].value
    ensures AllOrFirstError(rs).Failure? ==>
      exists j :: 0 <= j < |rs| && rs[j].Failure? && AllOrFirstError(rs).error == rs[j].error &&
                  forall i :: 0 <= i < j ==> rs[i].Success?
  {
    if rs != [] {
      var init, last := rs[..|rs| - 1], rs[|rs| - 1];
      AllOrFirstErrorMeaning(init);
      assert forall j :: 0 <= j < |init| ==> rs[j] == init[j];
      match AllOrFirstError(init)
      case Failure(e) =>
        var j :| 0 <= j < |init| && init[j].Failure? && e == init[j].error &&
                 forall i :: 0 <= i < j ==> init[i].Success?;
        assert rs[j].Failure? && AllOrFirstError(rs).error == rs[j].error;
      case Success(vs) =>
        if last.Failure? {
          assert AllOrFirstError(rs) == Failure(last.error);
        } else {
          assert AllOrFirstError(rs) == Success(vs + [last.value]);
        }
    }
  }

  /** The success half of `AllOrFirstErrorMeaning`, for one outcome. */
  lemma AllSucceeded<N>(rs: seq<Result<N, CallError>>, vs: seq<N>)
    requires AllOrFirstError(rs) == Success(vs)
    ensures forall j :: 0 <= j < |rs| ==> rs[j].Success?
    ensures |vs| == |rs| && forall j :: 0 <= j < |rs| ==> vs[j] == rs[j].value
  {
    AllOrFirstErrorMeaning(rs);
  }

  /** Awaiting the whole input at once or batch after batch gives the same
      outcome: all values in order, or the earliest failure. */
  lemma {:induction false} AllOrFirstErrorAppend<N>(a: seq<Result<N, CallError>>, b: seq<Result<N, CallError>>)
    ensures AllOrFirstError(a + b) ==
      match AllOrFirstError(a)
      case Failure(e) => Failure(e)
      case Success(x) =>
        match AllOrFirstError(b)
        case Failure(e) => Failure(e)
        case Success(y) => Success(x + y)
    decreases |b|
  {
    if b == [] {
      assert a + b == a;
      if AllOrFirstError(a).Success? {
        assert AllOrFirstError(a).value + [] == AllOrFirstError(a).value;
      }
    } else {
      var init := b[..|b| - 1];
      AllOrFirstErrorAppend(a, init);
      assert (a + b)[..|a + b| - 1] == a + init;
      assert (a + b)[|a + b| - 1] == b[|b| - 1];
      match AllOrFirstError(a)
      case Failure(_) =>
      case Success(x) =>
        match AllOrFirstError(init)
        case Failure(_) =>
        case Success(y) =>
          if b[|b| - 1].Success? {
            assert x + (y + [b[|b| - 1].value]) == (x + y) + [b[|b| - 1].value];
          }
    }
  }

  /** What each item's request yields, in input order. */
  function ItemResults<I, N>(items: seq<I>, gateway: (nat, I) -> Option<string>,
                             parse: string -> Option<N>): seq<Result<N, CallError>>
  {
    seq(|items|, j requires 0 <= j < |items| => NormalizeItem(j, items[j], gateway, parse))
  }

  /** `normalizeItems`.  The result is what awaiting every item at once would
      give; `batches` records the batches that were sent: all of them, the
      consecutive `batchSize` slices of the input, on success; on failure
      those up to and including the batch of the earliest failing item. */
  method NormalizeItems<I, N>(items: seq<I>, gateway: (nat, I) -> Option<string>,
                              parse: string -> Option<N>, batchSize: nat := DefaultBatchSize)
    returns (r: Result<seq<N>, CallError>, ghost batches: seq<seq<I>>)
    requires batchSize > 0
    ensures r == AllOrFirstError(ItemResults(items, gateway, parse))
    ensures r.Success? <==> forall j :: 0 <= j < |items| ==> ItemResults(items, gateway, parse)[j].Success?
    ensures r.Success? ==> |r.value| == |items| && batches == Chunks(items, batchSize)
    ensures r.Success? ==> forall j :: 0 <= j < |items| ==> r.value[j] == ItemResults(items, gateway, parse)[j].value
    ensures |items| == 0 ==> r == Success([])
    ensures r.Failure? ==>
      exists j :: 0 <= j < |items| && ItemResults(items, gateway, parse)[j].Failure? &&
                  (forall i :: 0 <= i < j ==> ItemResults(items, gateway, parse)[i].Success?) &&
                  |batches| == j / batchSize + 1
    ensures |batches| <= CeilDiv(|items|, batchSize) && batches == Chunks(items, batchSize)[..|batches|]
  {
    var normalizedItems: seq<N> := [];
    batches := [];
    ghost var results := ItemResults(items, gateway, parse);
    var i := 0;
    while i < |items|
      invariant i == |batches| * batchSize
      invariant i - batchSize < |items|
      invariant |batches| <= CeilDiv(|items|, batchSize)
      invariant batches == Chunks(items, batchSize)[..|batches|]
      invariant AllOrFirstError(results[..Min(i, |items|)]) == Success(normalizedItems)
    {
      var batch := JsSlice(items, i, i + batchSize);
      var batchResults := seq(|batch|, k requires 0 <= k < |batch| => NormalizeItem(i + k, batch[k], gateway, parse));
      ghost var end := i + |batch|;
      BatchResultsInOrder(items, gateway, parse, i, batchSize, batchResults);
      NextChunk(items, batchSize, batches, i);
      MulSucc(|batches|, batchSize);
      batches := batches + [batch];
      var batchOutcome := AllOrFirstError(batchResults);
      if batchOutcome.Failure? {
        r := Failure(batchOutcome.error);
        FailingBatch(results, i, end, normalizedItems);
        EarliestFailureInBatch(results, |batches| - 1, i, end, batchSize);
        return;
      }
      assert Min(i, |items|) == i;
      SucceedingBatch(results, i, end, normalizedItems);
      normalizedItems := normalizedItems + batchOutcome.value;
      i := i + batchSize;
      assert Min(i, |items|) == end;
    }
    assert results[..Min(i, |items|)] == results;
    AllChunks(items, batchSize, batches, i);
    AllSucceeded(results, normalizedItems);
    r := Success(normalizedItems);
  }

  /** `batch.map(normalizeItem)` yields the item results of the batch's
      positions, in order. */
  lemma BatchResultsInOrder<I, N>(items: seq<I>, gateway: (nat, I) -> Option<string>,
                                  parse: string -> Option<N>, i: nat, n: nat,
                                  batchResults: seq<Result<N, CallError>>)
    requires i < |items|
    requires var batch := JsSlice(items, i, i + n);
      batchResults == seq(|batch|, k requires 0 <= k < |batch| => NormalizeItem(i + k, batch[k], gateway, parse))
    ensures i + |batchResults| <= |items|
    ensures batchResults == ItemResults(items, gateway, parse)[i..i + |batchResults|]
  {
  }

  /** When the batch at `i .. end` fails after every earlier item succeeded,
      the whole input fails with that batch's earliest failure. */
  lemma FailingBatch<N>(results: seq<Result<N, CallError>>, i: nat, end: nat, done: seq<N>)
    requires i <= end <= |results|
    requires AllOrFirstError(results[..i]) == Success(done)
    requires AllOrFirstError(results[i..end]).Failure?
    ensures AllOrFirstError(results) == Failure(AllOrFirstError(results[i..end]).error)
  {
    var batch := results[i..end];
    assert results[..end] == results[..i] + batch;
    AllOrFirstErrorAppend(results[..i], batch);
    assert results[..end] + results[end..] == results;
    AllOrFirstErrorAppend(results[..end], results[end..]);
  }

  /** In that situation the earliest failing item lies in the failing batch:
      its position divided by the batch size is the batch number `b`. */
  lemma EarliestFailureInBatch<N>(results: seq<Result<N, CallError>>, b: nat, i: nat, end: nat, n: nat)
    requires n > 0 && i == b * n && i < end <= i + n && end <= |results|
    requires AllOrFirstError(results[..i]).Success?
    requires AllOrFirstError(results[i..end]).Failure?
    ensures exists j :: 0 <= j < |results| && results[j].Failure? &&
                        (forall i' :: 0 <= i' < j ==> results[i'].Success?) &&
                        j / n == b
  {
    var batch := results[i..end];
    AllOrFirstErrorMeaning(batch);
    AllOrFirstErrorMeaning(results[..i]);
    var k :| 0 <= k < |batch| && batch[k].Failure? &&
             forall i' :: 0 <= i' < k ==> batch[i'].Success?;
    var j := i + k;
    assert results[j] == batch[k];
    forall i' | 0 <= i' < j
      ensures results[i'].Success?
    {
      if i' < i {
        assert results[..i][i'] == results[i'];
      } else {
        assert batch[i' - i] == results[i'];
      }
    }
    DivInBlock(b, k, n);
  }

  /** A batch that succeeds appends its values to those of the items before it. */
  lemma SucceedingBatch<N>(results: seq<Result<N, CallError>>, i: nat, end: nat, done: seq<N>)
    requires i <= end <= |results|
    requires AllOrFirstError(results[..i]) == Success(done)
    requires AllOrFirstError(results[i..end]).Success?
    ensures AllOrFirstError(results[..end]) == Success(done + AllOrFirstError(results[i..end]).value)
  {
    assert results[..end] == results[..i] + results[i..end];
    AllOrFirstErrorAppend(results[..i], results[i..end]);
  }

  lemma DivInBlock(b: nat, k: nat, n: nat)
    requires k < n
    ensures (b * n + k) / n == b
  {
    var x := b * n + k;
    var q, r := x / n, x % n;
    assert x == q * n + r && 0 <= r < n;
    assert (b + 1) * n == b * n + n;
    assert (q + 1) * n == q * n + n;
    if q > b {
      MulMonotone(b + 1, q, n);
    } else if q < b {
      MulMonotone(q + 1, b, n);
    }
  }
}
