/** Attribute consolidation (`consolidateAttributes`, `processChunk`).

    The raw attribute mapping is cut into consecutive chunks of 20 keys.  Each
    chunk is sent to the service up to three times until one attempt succeeds;
    a successful chunk result is spread over the running result, a chunk whose
    three attempts all fail is skipped.  The service and `JSON.parse` are the
    oracles `gateway` and `parse` (see module Gateway); the gateway is told the
    chunk and the attempt number (0, 1, 2) so that repeated calls may answer
    differently. */
module Consolidation {
  import opened Wrappers
  import opened Gateway
  import opened Slicing
  import opened Objects
  import JsonRepair

  const ChunkSize: nat := 20
  const MaxAttempts: nat := 3

  /** Splits the mapping into consecutive chunks of `ChunkSize` keys: piece
      `j` holds keys `j*20 .. j*20+19` with their original values. */
  method SplitIntoChunks<R>(m: Object<R>) returns (chunks: seq<Object<R>>)
    ensures chunks == Chunks(m, ChunkSize)
    ensures IsChunking(chunks, m, ChunkSize)
    ensures |chunks| == CeilDiv(|m|, ChunkSize)
  {
    chunks := [];
    var keys := Keys(m);
    var i := 0;
    while i < |keys|
      invariant i == |chunks| * ChunkSize
      invariant i - ChunkSize < |m|
      invariant |chunks| <= CeilDiv(|m|, ChunkSize)
      invariant chunks == Chunks(m, ChunkSize)[..|chunks|]
    {
      var chunkKeys := JsSlice(keys, i, i + ChunkSize);
      forall j | 0 <= j < |chunkKeys|
        ensures chunkKeys[j] == m[i + j].0
      {
        KeysAt(m, i + j);
      }
      var chunk := CopyEntries(m, chunkKeys, i);
      assert chunk == JsSlice(m, i, i + ChunkSize);
      NextChunk(m, ChunkSize, chunks, i);
      chunks := chunks + [chunk];
      i := i + ChunkSize;
    }
    AllChunks(m, ChunkSize, chunks, i);
    ChunksIsChunking(m, ChunkSize);
  }

  /** Builds one chunk: `const chunk = {}` followed by `chunk[key] =
      attributeMapping[key]` for each key of the slice, in order. */
  method CopyEntries<R>(m: Object<R>, chunkKeys: seq<Key>, lo: nat) returns (chunk: Object<R>)
    requires lo + |chunkKeys| <= |m|
    requires forall j :: 0 <= j < |chunkKeys| ==> chunkKeys[j] == m[lo + j].0
    ensures chunk == m[lo..lo + |chunkKeys|]
  {
    chunk := [];
    for j := 0 to |chunkKeys|
      invariant chunk == m[lo..lo + j]
    {
      var key := chunkKeys[j];
      LookupAt(m, lo + j);
      CopyStep(m, lo, j, chunk);
      chunk := Put(chunk, key, Lookup(m, key).value);
    }
  }

  /** One step of the copy: assigning the next property of the mapping to
      the chunk built so far extends the chunk by exactly that property. */
  lemma CopyStep<R>(m: Object<R>, lo: nat, j: nat, chunk: Object<R>)
    requires lo + j < |m| && chunk == m[lo..lo + j]
    ensures Put(chunk, m[lo + j].0, m[lo + j].1) == m[lo..lo + j + 1]
  {
    NotEarlier(m, lo, lo + j);
    AppendSlice(m, lo, lo + j, chunk);
  }

  /** The key at position `p` is not among the keys at positions `lo .. p-1`. */
  lemma {:induction false} NotEarlier<R>(m: Object<R>, lo: nat, p: nat)
    requires lo <= p < |m|
    ensures m[p].0 !in Keys(m[lo..p])
  {
    if lo > 0 {
      NotEarlier(m[1..], lo - 1, p - 1);
      assert m[1..][lo - 1..p - 1] == m[lo..p];
    } else if p > 0 {
      NotEarlier(m[1..], 0, p - 1);
      assert m[1..][..p - 1] == m[1..p];
      KeysAt(m, p);
      KeyInTail(m, p);
      assert Keys(m[0..p]) == [m[0].0] + Keys(m[1..p]);
    } else {
      assert m[lo..p] == [];
    }
  }

  lemma KeyInTail<R>(m: Object<R>, p: nat)
    requires 0 < p < |m|
    ensures m[p].0 != m[0].0
  {
    KeysAt(m[1..], p - 1);
  }

  /** Every key of the mapping lies in exactly one chunk, and that chunk
      gives it the mapping's value. */
  lemma KeyInExactlyOneChunk<R>(m: Object<R>, p: nat)
    requires p < |m|
    ensures var cs := Chunks(m, ChunkSize);
      && p / ChunkSize < |cs|
      && Lookup(cs[p / ChunkSize], m[p].0) == Lookup(m, m[p].0)
      && forall j :: 0 <= j < |cs| && j != p / ChunkSize ==> m[p].0 !in Keys(cs[j])
  {
    var cs := Chunks(m, ChunkSize);
    var c := p / ChunkSize;
    var q := p - c * ChunkSize;
    assert 0 <= q < ChunkSize;
    CeilDivBounds(|m|, ChunkSize);
    assert c < |cs|;
    var chunk := cs[c];
    assert chunk == JsSlice(m, c * ChunkSize, c * ChunkSize + ChunkSize);
    assert q < |chunk| && chunk[q] == m[p];
    forall i | 0 <= i < q
      ensures chunk[i].0 != chunk[q].0
    {
      assert chunk[i] == m[c * ChunkSize + i];
      if chunk[i].0 == chunk[q].0 {
        SameKeySamePosition(m, c * ChunkSize + i, p);
      }
    }
    LookupFirst(chunk, q);
    LookupAt(m, p);
    forall j | 0 <= j < |cs| && j != c
      ensures m[p].0 !in Keys(cs[j])
    {
      OnlyInOwnChunk(m, p, j);
    }
  }

  lemma OnlyInOwnChunk<R>(m: Object<R>, p: nat, j: nat)
    requires p < |m| && j < CeilDiv(|m|, ChunkSize) && j != p / ChunkSize
    ensures m[p].0 !in Keys(Chunks(m, ChunkSize)[j])
  {
    var chunk := Chunks(m, ChunkSize)[j];
    assert chunk == JsSlice(m, j * ChunkSize, j * ChunkSize + ChunkSize);
    if m[p].0 in Keys(chunk) {
      var q :| 0 <= q < |chunk| && Keys(chunk)[q] == m[p].0;
      KeysAt(chunk, q);
      assert chunk[q] == m[j * ChunkSize + q];
      SameKeySamePosition(m, j * ChunkSize + q, p);
      assert false;
    }
  }

  lemma {:induction false} SameKeySamePosition<R>(m: Object<R>, p: nat, q: nat)
    requires p < |m| && q < |m| && m[p].0 == m[q].0
    ensures p == q
  {
    if p > 0 && q > 0 {
      SameKeySamePosition(m[1..], p - 1, q - 1);
    } else if p > 0 {
      KeyInTail(m, p);
    } else if q > 0 {
      KeyInTail(m, q);
    }
  }

  /** The parse step of `processChunk`: parse the text; only when that fails,
      repair it once and parse again. */
  function ParseWithRepair<D>(text: string, parse: string -> Option<Object<D>>): Result<Object<D>, CallError> {
    match parse(text)
    case Some(v) => Success(v)
    case None =>
      match parse(JsonRepair.Repaired(text))
      case Some(v) => Success(v)
      case None => Failure(ParseFailed)
  }

  /** What attempt number `attempt` on `chunk` yields. */
  function AttemptOutcome<R, D>(chunk: seq<(Key, R)>, attempt: nat,
                                gateway: (seq<(Key, R)>, nat) -> Option<string>,
                                parse: string -> Option<Object<D>>): Result<Object<D>, CallError>
  {
    match gateway(chunk, attempt)
    case None => Failure(GatewayFailed)
    case Some(text) => ParseWithRepair(text, parse)
  }

  /** `processChunk`: one attempt.  A thrown service call is a failed attempt;
      a response that parses is the result with no repair; otherwise the
      repaired text is parsed once and its failure is the attempt's failure. */
  method ProcessChunk<R, D>(chunk: seq<(Key, R)>, attempt: nat,
                            gateway: (seq<(Key, R)>, nat) -> Option<string>,
                            parse: string -> Option<Object<D>>)
    returns (r: Result<Object<D>, CallError>)
    ensures gateway(chunk, attempt).None? ==> r == Failure(GatewayFailed)
    ensures gateway(chunk, attempt).Some? ==>
      var text := gateway(chunk, attempt).value;
      && (parse(text).Some? ==> r == Success(parse(text).value))
      && (parse(text).None? && parse(JsonRepair.Repaired(text)).Some? ==> r == Success(parse(JsonRepair.Repaired(text)).value))
      && (parse(text).None? && parse(JsonRepair.Repaired(text)).None? ==> r == Failure(ParseFailed))
  {
    var response := gateway(chunk, attempt);
    if response.None? {
      return Failure(GatewayFailed);
    }
    var content := response.value;
    var result := parse(content);
    if result.None? {
      var fixedContent := JsonRepair.FixIncompleteJson(content);
      result := parse(fixedContent);
    }
    r := if result.Some? then Success(result.value) else Failure(ParseFailed);
  }

  /** The result of the first successful attempt among attempts `k .. 2`. */
  function FirstSuccess<R, D>(chunk: seq<(Key, R)>, k: nat,
                              gateway: (seq<(Key, R)>, nat) -> Option<string>,
                              parse: string -> Option<Object<D>>): Option<Object<D>>
    decreases MaxAttempts - k
  {
    if k >= MaxAttempts then None
    else match AttemptOutcome(chunk, k, gateway, parse)
      case Success(v) => Some(v)
      case Failure(_) => FirstSuccess(chunk, k + 1, gateway, parse)
  }

  /** A chunk succeeds exactly when one of its three attempts does, and then
      with the result of the earliest successful attempt. */
  lemma {:induction false} FirstSuccessIsEarliest<R, D>(chunk: seq<(Key, R)>, k: nat,
                                                        gateway: (seq<(Key, R)>, nat) -> Option<string>,
                                                        parse: string -> Option<Object<D>>)
    requires k <= MaxAttempts
    ensures FirstSuccess(chunk, k, gateway, parse).Some? <==>
            exists a :: k <= a < MaxAttempts && AttemptOutcome(chunk, a, gateway, parse).Success?
    ensures forall a :: k <= a < MaxAttempts && AttemptOutcome(chunk, a, gateway, parse).Success? &&
                        (forall b :: k <= b < a ==> AttemptOutcome(chunk, b, gateway, parse).Failure?) ==>
                        FirstSuccess(chunk, k, gateway, parse) == Some(AttemptOutcome(chunk, a, gateway, parse).value)
    decreases MaxAttempts - k
  {
    if k < MaxAttempts {
      FirstSuccessIsEarliest(chunk, k + 1, gateway, parse);
    }
  }

  /** The retry loop for one chunk (the `while (retries > 0 && !success)`
      loop): attempts 0, 1, 2 in turn, stopping at the first success. */
  method RetryChunk<R, D>(chunk: seq<(Key, R)>,
                          gateway: (seq<(Key, R)>, nat) -> Option<string>,
                          parse: string -> Option<Object<D>>)
    returns (outcome: Option<Object<D>>, attempts: nat)
    ensures 1 <= attempts <= MaxAttempts
    ensures forall a :: 0 <= a < attempts - 1 ==> AttemptOutcome(chunk, a, gateway, parse).Failure?
    ensures outcome.Some? ==> AttemptOutcome(chunk, attempts - 1, gateway, parse) == Success(outcome.value)
    ensures outcome.None? ==> attempts == MaxAttempts && AttemptOutcome(chunk, attempts - 1, gateway, parse).Failure?
    ensures outcome == FirstSuccess(chunk, 0, gateway, parse)
  {
    var retries := MaxAttempts;
    var success := false;
    outcome := None;
    attempts := 0;
    while retries > 0 && !success
      invariant 0 <= retries <= MaxAttempts
      decreases retries + (if success then 0 else 1)
      invariant attempts == MaxAttempts - retries + (if success then 1 else 0)
      invariant forall a :: 0 <= a < MaxAttempts - retries ==> AttemptOutcome(chunk, a, gateway, parse).Failure?
      invariant success ==> retries > 0 && outcome.Some? &&
                            AttemptOutcome(chunk, attempts - 1, gateway, parse) == Success(outcome.value)
      invariant !success ==> outcome.None? && FirstSuccess(chunk, 0, gateway, parse) == FirstSuccess(chunk, attempts, gateway, parse)
      invariant success ==> outcome == FirstSuccess(chunk, 0, gateway, parse)
    {
      var r := ProcessChunk(chunk, attempts, gateway, parse);
      if r.Success? {
        outcome := Some(r.value);
        success := true;
      } else {
        retries := retries - 1;
      }
      attempts := attempts + 1;
    }
  }

  /** The running result after a chunk: spread the chunk's result over it,
      or leave it as it was when the chunk was skipped. */
  function Absorb<D>(acc: Object<D>, outcome: Option<Object<D>>): Object<D> {
    match outcome
    case None => acc
    case Some(r) => Spread(acc, r)
  }

  /** The consolidated result after the given chunks, in order. */
  function Folded<R, D>(cs: seq<seq<(Key, R)>>,
                        gateway: (seq<(Key, R)>, nat) -> Option<string>,
                        parse: string -> Option<Object<D>>): Object<D>
  {
    if cs == [] then []
    else Absorb(Folded(cs[..|cs| - 1], gateway, parse), FirstSuccess(cs[|cs| - 1], 0, gateway, parse))
  }

  /** `consolidateAttributes`: always returns; the result is the spread, in
      chunk order, of the results of the chunks that succeeded. */
  method Consolidate<R, D>(attributeMapping: Object<R>,
                           gateway: (seq<(Key, R)>, nat) -> Option<string>,
                           parse: string -> Option<Object<D>>)
    returns (consolidated: Object<D>)
    ensures consolidated == Folded(Chunks(attributeMapping, ChunkSize), gateway, parse)
    ensures |attributeMapping| == 0 ==> consolidated == []
  {
    var chunks := SplitIntoChunks(attributeMapping);
    consolidated := [];
    for i := 0 to |chunks|
      invariant consolidated == Folded(chunks[..i], gateway, parse)
    {
      var outcome, _ := RetryChunk(chunks[i], gateway, parse);
      ghost var before := consolidated;
      if outcome.Some? {
        consolidated := Spread(consolidated, outcome.value);
      }
      assert consolidated == Absorb(before, outcome);
      ghost var upTo := chunks[..i + 1];
      assert upTo[..i] == chunks[..i] && upTo[i] == chunks[i];
      assert Folded(upTo, gateway, parse) == Absorb(Folded(chunks[..i], gateway, parse), outcome);
    }
    assert chunks[..|chunks|] == chunks;
  }

  /** Reference description of the result, key by key: the value a key has in
      the last successful chunk result that holds it, or nothing. */
  function LastProvided<R, D>(cs: seq<seq<(Key, R)>>, k: Key,
                              gateway: (seq<(Key, R)>, nat) -> Option<string>,
                              parse: string -> Option<Object<D>>): Option<D>
  {
    if cs == [] then None
    else
      var outcome := FirstSuccess(cs[|cs| - 1], 0, gateway, parse);
      if outcome.Some? && k in Keys(outcome.value) then Lookup(outcome.value, k)
      else LastProvided(cs[..|cs| - 1], k, gateway, parse)
  }

  /** Later chunks override earlier ones, keys of earlier chunks that later
      chunks lack survive, and keys no successful chunk produced are absent. */
  lemma {:induction false} FoldedLookup<R, D>(cs: seq<seq<(Key, R)>>, k: Key,
                                              gateway: (seq<(Key, R)>, nat) -> Option<string>,
                                              parse: string -> Option<Object<D>>)
    ensures Lookup(Folded(cs, gateway, parse), k) == LastProvided(cs, k, gateway, parse)
  {
    if cs != [] {
      FoldedLookup(cs[..|cs| - 1], k, gateway, parse);
      var outcome := FirstSuccess(cs[|cs| - 1], 0, gateway, parse);
      if outcome.Some? {
        SpreadLookup(Folded(cs[..|cs| - 1], gateway, parse), outcome.value, k);
      }
    }
  }

  /** A chunk whose three attempts all fail has no effect at all: the result
      is the one the other chunks give without it. */
  lemma {:induction false} FailedChunkHasNoEffect<R, D>(before: seq<seq<(Key, R)>>, chunk: seq<(Key, R)>,
                                                        after: seq<seq<(Key, R)>>,
                                                        gateway: (seq<(Key, R)>, nat) -> Option<string>,
                                                        parse: string -> Option<Object<D>>)
    requires FirstSuccess(chunk, 0, gateway, parse).None?
    ensures Folded(before + [chunk] + after, gateway, parse) == Folded(before + after, gateway, parse)
    decreases |after|
  {
    var with := before + [chunk] + after;
    var without := before + after;
    if after == [] {
      assert with[..|with| - 1] == before;
      assert without == before;
    } else {
      var init := after[..|after| - 1];
      FailedChunkHasNoEffect(before, chunk, init, gateway, parse);
      assert with[..|with| - 1] == before + [chunk] + init;
      assert without[..|without| - 1] == before + init;
      assert with[|with| - 1] == without[|without| - 1];
    }
  }
}
