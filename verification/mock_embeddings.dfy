/**
 * The deterministic mock embedding provider (`MockEmbeddings`): a 32-bit
 * rolling hash of the text, normalised to a real number, spread over a
 * vector of the configured dimension.
 *
 * Texts are JavaScript strings, i.e. sequences of UTF-16 code units. The
 * floating-point part of the per-component formula (sine, cosine, the square
 * root and the division by the magnitude) is not modelled: an embedder
 * carries it as an uninterpreted function from (normalised hash, index) to
 * the component's value.
 */
module MockEmbeddings {
  import opened Wrappers
  import opened JsInt32

  /** One UTF-16 code unit, the value `charCodeAt` returns. */
  type CodeUnit = c: int | 0 <= c < 0x1_0000

  type Text = seq<CodeUnit>

  type Vector = seq<real>

  const DEFAULT_DIMENSION: int := 1536

  /** The divisor of the hash normalisation, 2^31 - 1. */
  const HASH_SCALE: int := 2147483647

  // ---------------------------------------------------------------------------
  // The rolling hash
  // ---------------------------------------------------------------------------

  /** One step of the hash, stated arithmetically: h := ToInt32(31 * h + c). */
  function HashStep(h: int, c: CodeUnit): (r: int)
    ensures InInt32(r)
    ensures (r - (31 * h + c)) % TWO_32 == 0
  {
    ToInt32(31 * h + c)
  }

  /** The hash folded over `text` from the running value `h`, one code unit at a time, first to last. */
  function HashFrom(h: int, text: Text): int
    decreases |text|
  {
    if |text| == 0 then h else HashFrom(HashStep(h, text[0]), text[1..])
  }

  /** The reference hash of a text: the fold of HashStep from 0. */
  function Int32Hash(text: Text): int
  {
    HashFrom(0, text)
  }

  /** Folding over a concatenation folds over the first part, then the second. */
  lemma {:induction false} HashFromAppend(h: int, a: Text, b: Text)
    decreases |a|
    ensures HashFrom(h, a + b) == HashFrom(HashFrom(h, a), b)
  {
    if |a| > 0 {
      assert (a + b)[1..] == a[1..] + b;
      HashFromAppend(HashStep(h, a[0]), a[1..], b);
    } else {
      assert a + b == b;
    }
  }

  /** The hash is a left fold: appending one code unit applies one more step. */
  lemma HashSnoc(text: Text, c: CodeUnit)
    ensures Int32Hash(text + [c]) == HashStep(Int32Hash(text), c)
  {
    HashFromAppend(0, text, [c]);
  }

  /** The running hash stays an int32 once at least one code unit has been folded in. */
  lemma {:induction false} HashFromInRange(h: int, text: Text)
    decreases |text|
    requires InInt32(h) || |text| > 0
    ensures InInt32(HashFrom(h, text))
  {
    if |text| > 0 {
      HashFromInRange(HashStep(h, text[0]), text[1..]);
    }
  }

  /**
   * One iteration of the loop as written: `hash = ((hash << 5) - hash) + char`
   * followed by `hash = hash & hash`. The subtraction and addition are exact
   * on doubles, since every operand is below 2^33 in magnitude.
   */
  function JsHashStep(hash: int, code: CodeUnit): (r: int)
    ensures InInt32(r)
  {
    var sum := (ShiftLeft(hash, 5) - hash) + code;
    BitAnd(sum, sum)
  }

  /** The shift-and-subtract step is the multiply-by-31 step modulo 2^32. */
  lemma JsHashStepIsHashStep(hash: int, code: CodeUnit)
    ensures JsHashStep(hash, code) == HashStep(hash, code)
  {
    var sum := (ShiftLeft(hash, 5) - hash) + code;
    BitAndSelf(sum);
    ShiftLeftFive(hash);
    assert sum - (31 * hash + code) == ShiftLeft(hash, 5) - 32 * hash;
    ToInt32Congruent(sum, 31 * hash + code);
  }

  /** `Math.abs(hash) / 2147483647`, in exact real arithmetic. */
  function NormalizeHash(hash: int): (r: real)
    ensures 0.0 <= r
    ensures InInt32(hash) ==> (r <= 1.0 <==> hash != MIN_INT32)
  {
    var a := if hash < 0 then -hash else hash;
    a as real / HASH_SCALE as real
  }

  /** The value `simpleHash` returns for a text. */
  function NormalizedHash(text: Text): real
  {
    NormalizeHash(Int32Hash(text))
  }

  /**
   * `simpleHash` as written: a loop over the code units applying the
   * shift/subtract/add step and the `& hash` truncation, then the normalisation.
   */
  method SimpleHash(str: Text) returns (normalized: real)
    ensures normalized == NormalizeHash(Int32Hash(str))
    ensures 0.0 <= normalized
    ensures |str| == 0 ==> normalized == 0.0
  {
    var hash := 0;
    var i := 0;
    while i < |str|
      invariant 0 <= i <= |str|
      invariant hash == Int32Hash(str[..i])
    {
      var code := str[i];
      JsHashStepIsHashStep(hash, code);
      HashSnoc(str[..i], code);
      assert str[..i + 1] == str[..i] + [code];
      hash := JsHashStep(hash, code);
      i := i + 1;
    }
    assert str[..i] == str;
    normalized := NormalizeHash(hash);
  }

  /** The hash of a text, as an int32, is never outside [-2^31, 2^31 - 1]. */
  lemma HashInRange(text: Text)
    ensures InInt32(Int32Hash(text))
  {
    HashFromInRange(0, text);
  }

  /** The empty text hashes to 0. */
  lemma EmptyHash()
    ensures Int32Hash([]) == 0
    ensures NormalizedHash([]) == 0.0
  {
  }

  /**
   * The "normalise to 0-1" comment does not hold for every text: the five code
   * units below drive the running hash to exactly 2^31 before truncation, so
   * the hash is -2^31 and the normalised value is 2^31 / (2^31 - 1) > 1.
   */
  lemma NormalizedHashCanExceedOne()
    ensures Int32Hash([2325, 9, 30, 12, 2]) == MIN_INT32
    ensures NormalizedHash([2325, 9, 30, 12, 2]) > 1.0
  {
    var t: Text := [2325, 9, 30, 12, 2];
    assert HashStep(0, 2325) == 2325;
    assert HashStep(2325, 9) == 72084;
    assert HashStep(72084, 30) == 2234634;
    assert HashStep(2234634, 12) == 69273666;
    assert HashStep(69273666, 2) == MIN_INT32;
    assert Int32Hash(t) == HashFrom(0, t);
    assert HashFrom(0, t) == HashFrom(2325, t[1..]);
    assert t[1..] == [9, 30, 12, 2];
    assert HashFrom(2325, [9, 30, 12, 2]) == HashFrom(72084, [30, 12, 2]);
    assert HashFrom(72084, [30, 12, 2]) == HashFrom(2234634, [12, 2]);
    assert HashFrom(2234634, [12, 2]) == HashFrom(69273666, [2]);
    assert HashFrom(69273666, [2]) == HashFrom(MIN_INT32, []);
  }

  // ---------------------------------------------------------------------------
  // Embeddings
  // ---------------------------------------------------------------------------

  /**
   * A configured mock embedder. `component(h, i)` is the i-th component of
   * the unit vector generated from the normalised hash h.
   */
  datatype MockEmbedder = MockEmbedder(dimension: int, component: (real, nat) -> real)

  /** The constructor, with the dimension defaulting to 1536 when omitted (`undefined`). */
  function NewMockEmbedder(dimension: Option<int>, component: (real, nat) -> real): (e: MockEmbedder)
    ensures dimension.None? ==> e.dimension == DEFAULT_DIMENSION
    ensures dimension.Some? ==> e.dimension == dimension.value
  {
    MockEmbedder(dimension.GetOr(DEFAULT_DIMENSION), component)
  }

  /** How many times `for (let i = 0; i < dimension; i++)` runs. */
  function VectorLength(dimension: int): (n: nat)
    ensures dimension >= 0 ==> n == dimension
    ensures dimension < 0 ==> n == 0
  {
    if dimension > 0 then dimension else 0
  }

  /** The components for indices 0 .. n-1, pushed in index order. */
  function Components(component: (real, nat) -> real, hash: real, n: nat): (v: Vector)
    ensures |v| == n
    ensures forall i :: 0 <= i < n ==> v[i] == component(hash, i)
  {
    if n == 0 then [] else Components(component, hash, n - 1) + [component(hash, n - 1)]
  }

  /** `generateMockEmbedding`: one vector of the embedder's dimension from the text's hash. */
  function GenerateMockEmbedding(e: MockEmbedder, text: Text): (v: Vector)
    ensures |v| == VectorLength(e.dimension)
  {
    Components(e.component, NormalizedHash(text), VectorLength(e.dimension))
  }

  /** `embedDocuments`: the map of GenerateMockEmbedding over the texts. */
  function EmbedDocuments(e: MockEmbedder, texts: seq<Text>): (vs: seq<Vector>)
    ensures |vs| == |texts|
    ensures forall i :: 0 <= i < |texts| ==> vs[i] == GenerateMockEmbedding(e, texts[i])
  {
    if |texts| == 0 then [] else [GenerateMockEmbedding(e, texts[0])] + EmbedDocuments(e, texts[1..])
  }

  /** `embedQuery`: the embedding of one text, interchangeable with a one-text batch. */
  function EmbedQuery(e: MockEmbedder, text: Text): (v: Vector)
    ensures v == EmbedDocuments(e, [text])[0]
    ensures |v| == VectorLength(e.dimension)
  {
    GenerateMockEmbedding(e, text)
  }

  /** Every vector of a batch has the embedder's dimension. */
  lemma EmbedDocumentsDimension(e: MockEmbedder, texts: seq<Text>)
    ensures forall v :: v in EmbedDocuments(e, texts) ==> |v| == VectorLength(e.dimension)
  {
  }

  /** Embedding a concatenated batch concatenates the embeddings: order is preserved. */
  lemma EmbedDocumentsAppend(e: MockEmbedder, a: seq<Text>, b: seq<Text>)
    ensures EmbedDocuments(e, a + b) == EmbedDocuments(e, a) + EmbedDocuments(e, b)
  {
  }

  /** A vector is determined by the text's hash: texts that hash alike embed alike. */
  lemma SameHashSameEmbedding(e: MockEmbedder, a: Text, b: Text)
    requires Int32Hash(a) == Int32Hash(b)
    ensures GenerateMockEmbedding(e, a) == GenerateMockEmbedding(e, b)
  {
  }

  /** The i-th component of a text's vector is the component function at the text's normalised hash. */
  lemma EmbeddingComponents(e: MockEmbedder, text: Text, i: int)
    requires 0 <= i < VectorLength(e.dimension)
    ensures GenerateMockEmbedding(e, text)[i] == e.component(NormalizedHash(text), i)
  {
  }
}
