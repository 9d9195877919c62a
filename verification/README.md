# Search dispatch and mock embeddings of docs-mcp-server, in Dafny

This project models two sequential pieces of the documentation search server:

- **`SearchTool.execute`** (module `SearchTool`, `search_tool.dfy`): the search
  tool fills in option defaults. In exact-match mode it passes the caller's
  version to the store's search unchanged. Otherwise it asks the store for the
  best matching version, and that match may be null. It then runs the search.
  A `VersionNotFoundError` becomes a result with no entries plus the error's
  message and available versions. Every other error is rethrown unchanged.
  The document store is an injected oracle: two total functions give the
  completion (a normal value or a thrown error) of `findBestVersion` and of
  `searchStore`. An `Execution` holds the outcome and the ordered list of
  store calls made, so "resolution was / was not called" is a plain
  postcondition.
- **`MockEmbeddings`** (module `MockEmbeddings`, `mock_embeddings.dfy`): the
  deterministic embedding provider. Its `simpleHash` is a rolling hash over
  UTF-16 code units. Each step is `h := ToInt32(31*h + c)`, written in the
  source as `((hash << 5) - hash) + char` followed by `hash & hash`. The model
  does this arithmetic exactly. The JavaScript operators `<<` and `&` and the
  ToInt32/ToUint32 coercions are in module `JsInt32` (`js_int32.dfy`), and `&`
  is defined bit by bit. `embedDocuments` and `embedQuery` are modelled
  structurally: one vector per text, in order, each of the configured length.

A small `Wrappers` module (`wrappers.dfy`) holds `Option`. For an option
field or the embedder's dimension, `None` means the field was omitted
(`undefined`). For `findBestVersion`'s `bestMatch`, and for the version passed
to `searchStore`, `None` means `null`.

Behaviours of the code worth knowing, all kept by the model:

- `generateMockEmbedding` divides every component by the magnitude even when the magnitude is 0 (src/store/embeddings/MockEmbeddings.ts:31-32). The model adds no error for that case.
- `execute` passes a null `bestMatch` straight to `searchStore` (src/tools/SearchTool.ts:48, 57-64). The model passes `None`.
- `execute` checks neither `library` nor `limit`, so the model accepts any string and any integer.
- The "Normalize to 0-1" comment at src/store/embeddings/MockEmbeddings.ts:42 is wrong for the hash -2^31, whose normalised value is 2^31 / (2^31 - 1) > 1 (see `MockEmbeddings.NormalizedHashCanExceedOne`).

## Model

| member | source | states |
|---|---|---|
| `SearchTool.ApplyDefaults` | src/tools/SearchTool.ts:35 | an omitted version becomes "latest", an omitted limit 5, an omitted exactMatch false; given values, the library and the query are kept as they are |
| `SearchTool.Catch` | src/tools/SearchTool.ts:68-84 | the outcome is a normal result exactly when the error is a `VersionNotFoundError`; that result has no entries and copies the message and available versions; any other error is rethrown unchanged |
| `SearchTool.TryBlock` | src/tools/SearchTool.ts:41-67 | the `try` block makes one or two calls: in exact-match mode only the search, with the given version; otherwise `findBestVersion(library, version)` first, then, if it returned, a search of its bestMatch (null included) with library, query and limit unchanged; every call but the last returns normally; the block throws exactly when its last call throws, with that call's error; otherwise the last call was the search, and the block yields that search's entries |
| `SearchTool.Execute` | src/tools/SearchTool.ts:34-85 | one or two store calls, with resolution strictly before search when there are two; exact match makes the single call a search with the defaulted version; best effort calls `findBestVersion(library, version)` first and searches its bestMatch, null included; if resolution throws, no search happens; library, query and limit reach the search unchanged; only the last call can throw, and then the catch clause decides the outcome; otherwise the search's entries are returned unmodified with no error field |
| `SearchTool.ExecuteIsPolicy` | src/tools/SearchTool.ts:41-84 | `execute` is exactly the case table over the store's answers (exact / match / null match / thrown); it satisfies the table, and no other execution does |
| `SearchTool.OmittedOptionsTakeDefaults` | src/tools/SearchTool.ts:35 | omitting version, limit and exactMatch behaves the same as passing "latest", 5 and false |
| `SearchTool.ExactMatchIgnoresResolver` | src/tools/SearchTool.ts:42-64 | in exact-match mode, the execution does not depend on the store's version resolver at all |
| `SearchTool.ResolutionErrorIgnoresSearch` | src/tools/SearchTool.ts:44-77 | when resolution throws, the execution does not depend on the store's search at all |
| `SearchTool.NotFoundTranslatedAlike` | src/tools/SearchTool.ts:41-77 | a `VersionNotFoundError` gives the same structured result whether resolution or the search threw it |
| `SearchTool.ResolvedSearchScenario` | src/tools/SearchTool.ts:44-67 | "foo" at "2.x", resolved to "2.3.1" with two entries, returns both entries with no error after exactly the two calls |
| `SearchTool.VersionNotFoundScenario` | src/tools/SearchTool.ts:46-77 | "bar" at "9.9.9", not found, returns no entries with the error's available versions after only the resolution call |
| `JsInt32.ToUint32` | src/store/embeddings/MockEmbeddings.ts:40 | the result lies in [0, 2^32) and is congruent to the input modulo 2^32 |
| `JsInt32.ToInt32` | src/store/embeddings/MockEmbeddings.ts:40 | the result lies in [-2^31, 2^31) and is congruent to the input modulo 2^32 |
| `JsInt32.ToInt32Unique` | src/store/embeddings/MockEmbeddings.ts:40 | any int32 congruent to x modulo 2^32 is ToInt32(x), so the two properties above determine the coercion |
| `JsInt32.ToInt32Congruent` | src/store/embeddings/MockEmbeddings.ts:40 | ToInt32 depends only on its argument modulo 2^32 |
| `JsInt32.ShiftLeft` | src/store/embeddings/MockEmbeddings.ts:39 | `x << n` is an int32 congruent to x * 2^(n mod 32) modulo 2^32 |
| `JsInt32.ShiftLeftFive` | src/store/embeddings/MockEmbeddings.ts:39 | `x << 5` is congruent to 32x modulo 2^32 |
| `JsInt32.BitwiseAndSelf` | src/store/embeddings/MockEmbeddings.ts:40 | a number below 2^n anded with itself over n bits is itself |
| `JsInt32.BitAnd` | src/store/embeddings/MockEmbeddings.ts:40 | JavaScript `x & y`, the bitwise and of the two 32-bit patterns read as a signed value, is always an int32 (its value for x = y is `JsInt32.BitAndSelf`) |
| `JsInt32.BitAndSelf` | src/store/embeddings/MockEmbeddings.ts:40 | `x & x` equals ToInt32(x): the statement `hash = hash & hash` only truncates |
| `MockEmbeddings.HashStep` | src/store/embeddings/MockEmbeddings.ts:39-40 | one hash step yields an int32 congruent to 31h + c modulo 2^32 |
| `MockEmbeddings.JsHashStep` | src/store/embeddings/MockEmbeddings.ts:39-40 | one loop iteration as written, `((hash << 5) - hash) + char` then `hash & hash`, always leaves an int32 (its value is `MockEmbeddings.JsHashStepIsHashStep`) |
| `MockEmbeddings.JsHashStepIsHashStep` | src/store/embeddings/MockEmbeddings.ts:39-40 | the shift, subtract, add and `& hash` of the source compute ToInt32(31h + c), for every integer h |
| `MockEmbeddings.HashFromAppend` | src/store/embeddings/MockEmbeddings.ts:37-41 | folding over a + b folds over a and then continues over b |
| `MockEmbeddings.HashSnoc` | src/store/embeddings/MockEmbeddings.ts:37-41 | the hash is a left fold: hash(s + [c]) = ToInt32(31 * hash(s) + c) |
| `MockEmbeddings.HashFromInRange` | src/store/embeddings/MockEmbeddings.ts:37-41 | after at least one step, or from an int32 start, the running hash is an int32 |
| `MockEmbeddings.HashInRange` | src/store/embeddings/MockEmbeddings.ts:36-41 | the hash of every text lies in [-2^31, 2^31 - 1] |
| `MockEmbeddings.SimpleHash` | src/store/embeddings/MockEmbeddings.ts:35-43 | the loop as written returns the normalised left-fold hash; the value is at least 0, and 0 for the empty text |
| `MockEmbeddings.EmptyHash` | src/store/embeddings/MockEmbeddings.ts:36-42 | the empty text hashes to 0 and normalises to 0 |
| `MockEmbeddings.NormalizeHash` | src/store/embeddings/MockEmbeddings.ts:42 | \|h\| / 2147483647 is at least 0; for an int32 h, it is at most 1 exactly when h is not -2^31 |
| `MockEmbeddings.NormalizedHashCanExceedOne` | src/store/embeddings/MockEmbeddings.ts:35-42 | the code units 2325, 9, 30, 12, 2 hash to -2^31, whose normalised value exceeds 1 |
| `MockEmbeddings.NewMockEmbedder` | src/store/embeddings/MockEmbeddings.ts:8 | the dimension defaults to 1536 when omitted and is kept when given |
| `MockEmbeddings.VectorLength` | src/store/embeddings/MockEmbeddings.ts:24 | the loop runs `dimension` times for a non-negative dimension and 0 times for a negative one |
| `MockEmbeddings.Components` | src/store/embeddings/MockEmbeddings.ts:22-28 | pushing components 0 .. n-1 gives n values, value i being the component function at index i |
| `MockEmbeddings.GenerateMockEmbedding` | src/store/embeddings/MockEmbeddings.ts:19-33 | every generated vector has the configured length |
| `MockEmbeddings.EmbedDocuments` | src/store/embeddings/MockEmbeddings.ts:10-13 | one vector per text, the i-th being the embedding of the i-th text |
| `MockEmbeddings.EmbedQuery` | src/store/embeddings/MockEmbeddings.ts:15-17 | the query embedding is the sole vector of the one-text batch, and has the configured length |
| `MockEmbeddings.EmbedDocumentsDimension` | src/store/embeddings/MockEmbeddings.ts:10-13 | every vector of a batch has the configured length |
| `MockEmbeddings.EmbedDocumentsAppend` | src/store/embeddings/MockEmbeddings.ts:10-13 | embedding a concatenated batch concatenates the embeddings, so order is preserved |
| `MockEmbeddings.SameHashSameEmbedding` | src/store/embeddings/MockEmbeddings.ts:19-21 | texts with the same hash get the same vector; the vector depends only on the code units |
| `MockEmbeddings.EmbeddingComponents` | src/store/embeddings/MockEmbeddings.ts:21-28 | component i of a text's vector is the component function at the text's normalised hash and index i |

## Left out

- Logging (`logger.info`, `logger.error`): it has no effect on results.
- `async`/`Promise`: `execute`, `embedDocuments` and `embedQuery` are modelled as synchronous functions.
- The internals of `DocumentManagementService` are not part of this model. This covers `findBestVersion`'s semver matching, `searchStore`'s null-to-"" normalisation and the ranking. Both calls are oracles, and the model uses only the `bestMatch` field of `findBestVersion`'s result.
- Floating point in `generateMockEmbedding`: `Math.sin`, `Math.cos`, `Math.sqrt` and the division by the magnitude. Each embedder carries an uninterpreted function from (normalised hash, index) to the component value. Unit norm and a zero magnitude (which the code does not handle) are therefore not modelled.
- MockEmbeddings.NormalizeHash: uses exact real division, whereas JavaScript rounds to the nearest double. The comparisons with 1 are the same under both.
- Strings in `SearchTool` are Dafny strings. They are opaque there, so their UTF-16 encoding does not matter.
- The embedder's `dimension` and the search `limit` are integers, not arbitrary JavaScript numbers. The limit is only passed through to `searchStore`.
- An explicit `null` option (`{version: null}`, or `new MockEmbeddings(null)`) is not modelled, because the TypeScript types exclude it. JavaScript defaults apply only to `undefined`, so such a `null` would be kept rather than replaced by the default.
- Provider selection, `ProviderConfigurationError` and cancellation are not in the modelled code. `simple-test.ts` is a console script with no logic of its own.
