/**
 * What the wake-word engine does with the values its three inference
 * sessions return: the recursive flatten of a nested output, the
 * classifier's sequence length read from its input shape, and the score
 * taken from the classifier's output.
 */
module OnnxOutput {
  import opened Common

  /** Number of values in one embedding (`EMB_DIM`). */
  const EMB_DIM: int := 96
  /** Sequence length used when the classifier's shape cannot be read. */
  const DEFAULT_SEQ_LEN: int := 16

  /**
   * The runtime value of a session output (`OnnxValue.value`): a float
   * array, an array of further values (`Array<*>`, e.g. `float[][]`), or
   * anything else (a `long[]`, a map, `null`).
   */
  datatype OnnxValue =
    | FloatArray(values: seq<real>)
    | ObjectArray(items: seq<OnnxValue>)
    | Other

  /** The float leaves of a value, depth first and left to right. */
  function Leaves(x: OnnxValue): seq<real>
    decreases x, 1
  {
    match x
    case FloatArray(v) => v
    case ObjectArray(items) => LeavesOf(x, items)
    case Other => []
  }

  function LeavesOf(ghost parent: OnnxValue, items: seq<OnnxValue>): seq<real>
    requires forall i | 0 <= i < |items| :: items[i] < parent
    decreases parent, 0, |items|
  {
    if items == [] then [] else Leaves(items[0]) + LeavesOf(parent, items[1..])
  }

  /** The local `rec(x)` of `flattenOnnx`: appends the float leaves of `x` to the list `acc`. */
  function Rec(acc: seq<real>, x: OnnxValue): seq<real>
    decreases x, 1
  {
    match x
    case FloatArray(v) => acc + v
    case ObjectArray(items) => RecEach(acc, x, items)
    case Other => acc
  }

  /** `x.forEach { rec(it) }`. */
  function RecEach(acc: seq<real>, ghost parent: OnnxValue, items: seq<OnnxValue>): seq<real>
    requires forall i | 0 <= i < |items| :: items[i] < parent
    decreases parent, 0, |items|
  {
    if items == [] then acc else RecEach(Rec(acc, items[0]), parent, items[1..])
  }

  /** `flattenOnnx(any)`. */
  function FlattenOnnx(x: OnnxValue): seq<real> {
    match x
    case FloatArray(v) => v
    case ObjectArray(_) => Rec([], x)
    case Other => []
  }

  /** Appending through `rec` adds exactly the leaves of the value, in order. */
  lemma {:induction false} RecAppendsLeaves(acc: seq<real>, x: OnnxValue)
    ensures Rec(acc, x) == acc + Leaves(x)
    decreases x, 1
  {
    match x
    case FloatArray(v) =>
    case ObjectArray(items) => RecEachAppendsLeaves(acc, x, items);
    case Other =>
  }

  lemma {:induction false} RecEachAppendsLeaves(acc: seq<real>, parent: OnnxValue, items: seq<OnnxValue>)
    requires forall i | 0 <= i < |items| :: items[i] < parent
    ensures RecEach(acc, parent, items) == acc + LeavesOf(parent, items)
    decreases parent, 0, |items|
  {
    if items != [] {
      RecAppendsLeaves(acc, items[0]);
      RecEachAppendsLeaves(Rec(acc, items[0]), parent, items[1..]);
    }
  }

  /**
   * `flattenOnnx` returns a float array as it is, the depth-first
   * concatenation of the float leaves of a nested array (other leaves
   * ignored), and nothing for any other value.
   */
  lemma FlattenOnnxIsLeaves(x: OnnxValue)
    ensures x.FloatArray? ==> FlattenOnnx(x) == x.values
    ensures x.ObjectArray? ==> FlattenOnnx(x) == Leaves(x)
    ensures x.Other? ==> FlattenOnnx(x) == []
  {
    RecAppendsLeaves([], x);
  }

  /** The leaves of an array split at any point are the leaves of the two parts. */
  lemma {:induction false} LeavesOfAppend(parent: OnnxValue, a: seq<OnnxValue>, b: seq<OnnxValue>)
    requires forall i | 0 <= i < |a| :: a[i] < parent
    requires forall i | 0 <= i < |b| :: b[i] < parent
    ensures LeavesOf(parent, a + b) == LeavesOf(parent, a) + LeavesOf(parent, b)
    decreases |a|
  {
    if a == [] {
      assert a + b == b;
    } else {
      var ab := a + b;
      var rest := a[1..];
      assert ab[0] == a[0] && ab[1..] == rest + b;
      forall i | 0 <= i < |rest|
        ensures rest[i] < parent
      {
        assert rest[i] == a[i + 1];
      }
      LeavesOfAppend(parent, rest, b);
      assert LeavesOf(parent, ab) == Leaves(a[0]) + LeavesOf(parent, rest + b);
      assert LeavesOf(parent, a) == Leaves(a[0]) + LeavesOf(parent, rest);
    }
  }

  /** A nested array of float arrays flattens to their concatenation: `[[1,2],[3]]` gives `[1,2,3]`. */
  lemma FlattenOfRows(r0: seq<real>, r1: seq<real>)
    ensures FlattenOnnx(ObjectArray([FloatArray(r0), FloatArray(r1)])) == r0 + r1
  {
    var items := [FloatArray(r0), FloatArray(r1)];
    var x := ObjectArray(items);
    FlattenOnnxIsLeaves(x);
    assert items[1..] == [FloatArray(r1)];
    assert LeavesOf(x, items[1..]) == r1 + LeavesOf(x, []);
    assert LeavesOf(x, items) == r0 + LeavesOf(x, items[1..]);
  }

  /** Leaves that are not float arrays contribute nothing. */
  lemma FlattenSkipsOther(r: seq<real>)
    ensures FlattenOnnx(ObjectArray([Other, FloatArray(r), Other])) == r
  {
    var items := [Other, FloatArray(r), Other];
    var x := ObjectArray(items);
    FlattenOnnxIsLeaves(x);
    assert items[1..] == [FloatArray(r), Other];
    assert items[1..][1..] == [Other];
    assert LeavesOf(x, [Other]) == [];
    assert LeavesOf(x, items[1..]) == r + LeavesOf(x, [Other]);
  }

  // ---------------------------------------------------------------------
  // SEQ_LEN from the classifier's input shape

  /**
   * The source's test, with its `Long.toInt()` conversions: rank at least 3,
   * a positive second dimension, and a third dimension that is 96 or dynamic.
   */
  predicate ShapeAcceptedAsWritten(shp: seq<int>) {
    |shp| >= 3 && (ToInt32(shp[2]) == EMB_DIM || shp[2] < 0) && shp[1] > 0
  }

  /**
   * `SEQ_LEN` as the source computes it: `shp[1].toInt()` when the shape is
   * accepted, else 16; `None` is an input without tensor info or shape.
   */
  function SeqLenAsWritten(shape: Option<seq<int>>): int {
    match shape
    case Some(shp) => if ShapeAcceptedAsWritten(shp) then ToInt32(shp[1]) else DEFAULT_SEQ_LEN
    case None => DEFAULT_SEQ_LEN
  }

  /**
   * A second dimension of 2^32 passes the `> 0` test on the `Long` but
   * truncates to 0, so the engine would size its embedding ring at 0 and
   * divide by zero on the first embedding.
   */
  lemma SeqLenAsWrittenCanBeZero()
    ensures SeqLenAsWritten(Some([1, 0x1_0000_0000, 96])) == 0
  {
    assert ShapeAcceptedAsWritten([1, 0x1_0000_0000, 96]);
  }

  /** `SEQ_LEN * EMB_DIM` as the source multiplies it, in `Int`: the size of the embedding ring. */
  function EmbRingSizeAsWritten(shape: Option<seq<int>>): int {
    ToInt32(SeqLenAsWritten(shape) * EMB_DIM)
  }

  /**
   * A second dimension that fits an `Int` can still make `SEQ_LEN * 96`
   * wrap: 44739243 gives a ring of 32 floats, too small for one 96-value
   * embedding, and 30000000 gives a negative array size.
   */
  lemma EmbRingAsWrittenWraps()
    ensures SeqLenAsWritten(Some([1, 44739243, 96])) == 44739243
    ensures EmbRingSizeAsWritten(Some([1, 44739243, 96])) == 32 < EMB_DIM
    ensures EmbRingSizeAsWritten(Some([1, 30000000, 96])) < 0
  {
    assert ShapeAcceptedAsWritten([1, 44739243, 96]);
    assert ShapeAcceptedAsWritten([1, 30000000, 96]);
  }

  /**
   * The intended test: the dimensions are compared as they are, and the
   * ring of `SEQ_LEN` embeddings of 96 values must fit an `Int`-sized array.
   */
  predicate ShapeAccepted(shp: seq<int>) {
    |shp| >= 3 && (shp[2] == EMB_DIM || shp[2] < 0) && 0 < shp[1] && shp[1] * EMB_DIM <= INT_MAX
  }

  /** `SEQ_LEN`, corrected so that it is positive and `SEQ_LEN * 96` never overflows. */
  function SeqLen(shape: Option<seq<int>>): (r: int)
    ensures 1 <= r && r * EMB_DIM <= INT_MAX
    ensures shape.Some? && ShapeAccepted(shape.value) ==> r == shape.value[1]
    ensures !(shape.Some? && ShapeAccepted(shape.value)) ==> r == DEFAULT_SEQ_LEN
  {
    match shape
    case Some(shp) => if ShapeAccepted(shp) then shp[1] else DEFAULT_SEQ_LEN
    case None => DEFAULT_SEQ_LEN
  }

  /**
   * On every shape whose dimensions fit an `Int`, the corrected and the
   * written derivation agree exactly when the written ring size does not
   * overflow.
   */
  lemma SeqLenAgreesInRange(shape: Option<seq<int>>)
    requires shape.Some? ==> forall i | 0 <= i < |shape.value| :: IsInt32(shape.value[i])
    ensures SeqLen(shape) == SeqLenAsWritten(shape) <==> IsInt32(SeqLenAsWritten(shape) * EMB_DIM)
  {
  }

  // ---------------------------------------------------------------------
  // Classifier score

  /** `coerceIn(0f, 1f)`. */
  function Clamp01(x: real): (r: real)
    ensures 0.0 <= r <= 1.0
    ensures 0.0 <= x <= 1.0 ==> r == x
    ensures x < 0.0 ==> r == 0.0
    ensures x > 1.0 ==> r == 1.0
  {
    if x < 0.0 then 0.0 else if x > 1.0 then 1.0 else x
  }

  /** `runKeyword(seq).coerceIn(0f, 1f)` given the flattened classifier output. */
  function KeywordScore(flat: seq<real>): (score: real)
    ensures 0.0 <= score <= 1.0
    ensures flat == [] ==> score == 0.0
    ensures flat != [] ==> score == Clamp01(flat[0])
  {
    Clamp01(if flat != [] then flat[0] else 0.0)
  }
}
