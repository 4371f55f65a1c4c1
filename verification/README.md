# Attribute consolidation and item normalization, modelled in Dafny

The repository drives a text-generation service in two passes over game-item
data. The first pass, `consolidateAttributes`, sends a large mapping of
attribute names to the service in chunks of 20 keys. Each chunk is tried up
to three times. A response that does not parse is repaired once by
`fixIncompleteJSON` and parsed again. The results of the chunks that
succeed are merged with object spread. The second pass, `normalizeItems`,
sends items to the service in batches of `batchSize` (default 5). It awaits
each batch with `Promise.all` and fails as a whole on the first item that
fails.

This project models those three pieces of logic and proves what they
promise:

- `wrappers.dfy`: `Option` and `Result`.
- `gateway.dfy`: the failure kinds of one service exchange.
- `slicing.dfy`: `Array.prototype.slice` and the consecutive slicing that
  both loops `for (i = 0; i < n; i += size)` perform. It includes an
  independent description of a slicing (`IsChunking`) and a proof that the
  slicing is unique.
- `objects.dfy`: JavaScript objects as ordered lists of properties with
  distinct keys. It covers property assignment (`Put`) and the shallow
  spread `{ ...a, ...b }` (`Spread`).
- `json_repair.dfy`: the scanner of `fixIncompleteJSON` as a specification
  function (`Scan`, `Repaired`) and the imperative routine proved against
  it.
- `consolidation.dfy`: the chunking loop, `processChunk`'s
  parse-then-repair step, the retry loop and the merge loop of
  `consolidateAttributes`.
- `normalizer.dfy`: `normalizeItem` and the batching loop of
  `normalizeItems`.

The service and `JSON.parse` are not modelled. They are oracles: total
function values passed in as parameters.

- **Consolidation gateway.** It is told the chunk and the attempt number
  (0, 1 or 2), so a retry may get a different answer. It returns the
  response text, or `None` when the call throws.
- **Normalization gateway.** It is told the item's position in the input
  and the item.
- **Parse.** It returns the parsed value, or `None` when parsing throws.

The code has none of the following, and neither has the model:

- truncation of item fields or stripping of icon fields;
- rate-limit backoff, or pauses between items or batches;
- dropping of failed items: one failing item makes `normalizeItems` fail
  as a whole;
- a batch size other than 5 by default;
- retry rules that depend on the kind of failure: in consolidation every
  failure is retried alike, three attempts in all; in normalization no
  failure is retried.

The repair is only as good as its scanner. A quote counts as escaped
whenever the character before it is a backslash, so a string that ends in
an escaped backslash (`"\\"` in JSON) never closes in the scanner's view.
Valid JSON holding such a string is altered by the repair, and a response
cut off after one is not closed properly (`EscapedBackslashNeverCloses`,
`TruncatedAfterEscapedBackslash`).

## Model

| member | source | states |
|---|---|---|
| JsonRepair.FixIncompleteJson | gptHelper.js:133-157 | The output is the input, then one `"` exactly when the scan ends inside a string, then `}` repeated max(final depth, 0) times. The input is a prefix of the output. The only appended `"` sits right after the input, and every other appended character is `}`, never `]`. When the scan ends outside a string at depth ≤ 0 (text the scanner sees as balanced, the empty string), the output equals the input. |
| JsonRepair.InStringIsParity | gptHelper.js:140 | The scan is inside a string exactly when it has seen an odd number of quotes not preceded by a backslash. |
| JsonRepair.EscapedQuoteKeepsFlag | gptHelper.js:140 | A `"` preceded by a backslash leaves the in-string flag unchanged. Any other `"` flips it, including a `"` at index 0. |
| JsonRepair.PlainTextKeepsState | gptHelper.js:139-145 | Text containing no quote and no bracket changes neither the depth nor the in-string flag. |
| JsonRepair.QuotedTextIgnored | gptHelper.js:140-144 | Brackets inside quoted text do not move the depth. A quoted run opened outside a string, whose inner quotes are all escaped, leaves the scanner state exactly as it was before the run. |
| JsonRepair.ScanClosers | gptHelper.js:151-154 | Appending n `}` outside a string lowers the depth by exactly n and stays outside strings. |
| JsonRepair.RepairCloses | gptHelper.js:146-154 | Rescanning the repaired text ends outside any string. The depth ends at 0, or at its original value when that was already ≤ 0. The one exception is input that the scanner sees ending inside a string and that ends with a backslash. "Inside a string" is the scanner's view, which can differ from JSON's (see the next rows). |
| JsonRepair.TrailingBackslashStaysOpen | gptHelper.js:140-148 | That exception is real: the repair of `"\` appends a quote that is itself escaped, so the repaired text still ends inside a string. |
| JsonRepair.EscapedBackslashNeverCloses | gptHelper.js:140-154 | The scanner's view differs from JSON's: in `["\\"]` the closing quote follows a backslash, so the scan ends inside a string at depth 1. The repair turns this valid JSON into `["\\"]"}`. |
| JsonRepair.TruncatedAfterEscapedBackslash | gptHelper.js:140-154 | After such a string, text cut inside the next string, `{"\\":"x`, scans as outside any string at depth 1. The repair appends only `}` and no closing quote. |
| JsonRepair.RepairIdempotent | gptHelper.js:133-157 | Repairing repaired text changes nothing, under the same condition as RepairCloses. |
| Slicing.JsSlice | gptHelper.js:20 | `slice(start, end)` clamps both bounds to the length. When start ≤ end its length is the difference of the clamped bounds, and when start > end it is empty. Element k is element start+k of the source. |
| Slicing.ChunksIsChunking | gptHelper.js:14-20 | The slices of size n cover the sequence exactly and in order. None is empty, none has more than n elements, and all but the last have exactly n. There are ceil(len/n) of them. |
| Slicing.ChunkingUnique | gptHelper.js:14-20 | Any list of pieces with the shape above is exactly the slicing the loop produces. |
| Slicing.NextChunk | normalizer.js:45-46 | At loop offset i = b·n with i < len, the loop cuts piece b of the slicing, and b < ceil(len/n). |
| Slicing.AllChunks | normalizer.js:45 | When the stepped loop exits, the pieces it cut are the whole slicing, ceil(len/n) of them. |
| Slicing.CeilDivUnique | normalizer.js:50 | ceil(len/n) is the one count c with (c−1)·n < len ≤ c·n. |
| Objects.Put | gptHelper.js:22 | After `m[k] = v`, an existing key keeps its position and a new key is appended at the end. |
| Objects.PutLookup | gptHelper.js:22 | After `m[k] = v`, reading k gives v, and every other key reads as before. |
| Objects.SpreadLookup | gptHelper.js:38 | In `{ ...a, ...b }`, a key of b has b's value, a key only in a keeps a's value, and no other key is present. |
| Objects.SpreadKeys | gptHelper.js:38 | The keys of `{ ...a, ...b }` are a's keys in their order, followed by b's new keys in b's order. |
| Consolidation.SplitIntoChunks | gptHelper.js:14-25 | The chunks are the consecutive 20-key slices of the mapping, with their original values. They form a slicing, and there are ceil(n/20) of them. |
| Consolidation.CopyEntries | gptHelper.js:19-23 | Assigning the slice's keys one by one onto `{}` gives exactly those properties of the mapping, in order. |
| Consolidation.CopyStep | gptHelper.js:22 | Each assignment in that loop appends exactly the next property, because its key cannot already be in the chunk. |
| Consolidation.KeyInExactlyOneChunk | gptHelper.js:16-25 | Every key of the mapping lies in exactly one chunk, number ⌊position/20⌋, and that chunk maps it to the mapping's value. |
| Consolidation.ProcessChunk | gptHelper.js:83-105 | A thrown call is a failed attempt. A response that parses is the result, with no repair. Otherwise the repaired text is parsed once, and if that parse fails too the attempt fails. |
| Consolidation.RetryChunk | gptHelper.js:33-48 | There are between 1 and 3 attempts, and all attempts before the last failed. On success the last attempt succeeded and no attempt follows it. With no success there were exactly 3 attempts. The outcome is the earliest successful attempt's result. |
| Consolidation.FirstSuccessIsEarliest | gptHelper.js:35-43 | A chunk succeeds exactly when one of its three attempts does, and then with the result of the earliest one. |
| Consolidation.Consolidate | gptHelper.js:10-55 | The call always returns. The result is the left-to-right spread of the chunk results that succeeded, with skipped chunks contributing nothing. An empty mapping gives `{}`. |
| Consolidation.FoldedLookup | gptHelper.js:29-38 | Key by key, the result holds the value from the last successful chunk result that has the key, and lacks keys no successful chunk produced. |
| Consolidation.FailedChunkHasNoEffect | gptHelper.js:41-47 | A chunk whose three attempts all fail leaves the result exactly as if that chunk did not exist, wherever it sits. |
| Normalizer.NormalizeItem | normalizer.js:26-40 | An item succeeds exactly when the call returns and its text parses. The value is the parse of that text. A failure says whether the call or the parse failed. |
| Normalizer.NoRepairForItems | normalizer.js:34 | An item's response that parses only after repair still fails the item, while the consolidation's parse step would recover it. |
| Normalizer.AllOrFirstErrorMeaning | normalizer.js:47-48 | `Promise.all` succeeds exactly when every result does, and then gives all values in order. Otherwise it fails with the error of the earliest failure. |
| Normalizer.AllSucceeded | normalizer.js:48-49 | When all results succeed, the output has one value per result, in order. |
| Normalizer.AllOrFirstErrorAppend | normalizer.js:45-51 | Awaiting batch after batch and concatenating gives the same outcome as awaiting everything at once. |
| Normalizer.BatchResultsInOrder | normalizer.js:46-47 | `batch.map(normalizeItem)` yields, in order, the results of the items at the batch's positions. |
| Normalizer.SucceedingBatch | normalizer.js:48-49 | A succeeding batch appends its values after those of the earlier items. |
| Normalizer.FailingBatch | normalizer.js:45-48 | A failing batch after successful ones makes the whole input fail with that batch's earliest error. |
| Normalizer.EarliestFailureInBatch | normalizer.js:45-48 | In that case the earliest failing item lies in the failing batch. |
| Normalizer.NormalizeItems | normalizer.js:43-53 | The call succeeds exactly when every item does. Output j is then item j's result, one per item, and the batches sent are the consecutive `batchSize` slices. Otherwise it fails with the earliest failing item's error, and the batches sent stop at that item's batch. An empty input gives `[]`. `batchSize` defaults to 5. |

## Left out

- The OpenAI client, prompts, model parameters, `dotenv` setup and all logging are left out (gptHelper.js:1-8, 57-91 and 106-128; normalizer.js:1-32). The service is an oracle that returns text or fails.
- `JSON.parse` is an abstract partial function; no JSON grammar is modelled. In consolidation, `parse` stands for `JSON.parse` together with the logging of gptHelper.js:107-116. It returns `None` exactly when `JSON.parse` throws, or when those lines throw on its value. They throw on `null` content (parsed as `null`), on a property whose value is `null` (line 111), and on an `aliases` of length above 1 with no `join` (line 112). For a number, boolean, string or array, `parse` returns the object the spread sees: `{}` for `42`, index keys for a string or an array.
- Consolidation.ProcessChunk: in the code a throw at gptHelper.js:107-116 fails the attempt with no repair, because it lies outside the inner `try`. The model cannot tell that throw from a failed `JSON.parse`, so it tries the repair. The two differ only when the repair changes the text and the changed text parses to a value those lines accept.
- The concurrency of `Promise.all` inside a batch is modelled in index order. When several items of one batch fail, the code rejects with whichever fails first in time; the model reports the earliest by position.
- JavaScript orders integer-like keys (such as `"1"`) before other keys in an object. Keys are modelled as plain strings kept in insertion order.
- Objects.Put: the key `__proto__` is treated as an ordinary property. In the code, `chunk[key] = ...` at gptHelper.js:22 on a plain `{}` calls the inherited `__proto__` setter for that key, which changes the chunk's prototype and adds no property, while `JSON.parse` and `Object.keys` do treat it as an own key. For a mapping with the key `__proto__`, the chunk holding it is sent to the service without that key in the code, but with it in the model. The rows built on Put (Consolidation.CopyEntries, Consolidation.CopyStep, Consolidation.SplitIntoChunks, Consolidation.KeyInExactlyOneChunk) hold only for mappings without that key. The spread of gptHelper.js:38 defines own properties and is not affected.
- Strings are sequences of UTF-16 code units in JavaScript and sequences of `char` here; no encoding is modelled.
- Normalizer.NormalizeItems: requires `batchSize > 0`. With 0 the loop at normalizer.js:45 never advances on a non-empty input, and a negative or fractional size is not modelled.
- Normalizer.NormalizeItems: the consolidated mapping passed to every prompt is fixed for the call and is part of the gateway oracle rather than a parameter.
- main.js (file reading and writing, summary statistics, a percentage formatted with `toFixed`), scan.py and archive/gel.py are not part of this model. They are I/O around library parsers.
