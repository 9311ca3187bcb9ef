/** The class BCastList itself: scanning the axes from the innermost one and combining them. */
module BCast {
  import opened Basics
  import opened DivMod
  import opened BroadcastRule
  import opened BatchIndices
  import opened BCastLists
  import opened SuffixMatching

  ghost predicate Int32Dims(xs: seq<Shape>) {
    forall i, k | 0 <= i < |xs| && 0 <= k < |xs[i]| :: xs[i][k] < TWO_31
  }

  /** The reduction axes so far: outermost last, all of the j innermost axes where the input has size 1. */
  ghost predicate UnitAxesSoFar(axes: seq<nat>, copy: Shape, j: nat, rank: nat)
    requires j <= rank == |copy|
  {
    && (forall p, q | 0 <= p < q < |axes| :: axes[p] > axes[q])
    && (forall k: nat :: k in axes <==> rank - j <= k < rank && copy[rank - 1 - k] == 1)
  }

  /** The vectors of the class, as values: innermost axis first. */
  datatype Axes = Axes(reshape: seq<Shape>, bcast: seq<Shape>, grad: seq<seq<nat>>, result: Shape)

  /** The state after the j innermost axes. */
  ghost predicate Combined(s: Axes, output: Shape, copy: seq<Shape>, j: nat, rank: nat)
    requires SameRank(copy, rank) && j <= rank
  {
    && |s.reshape| == |s.bcast| == |s.grad| == |copy|
    && |output| == j
    && (forall i | 0 <= i < |copy| :: Lane(s.reshape[i], s.bcast[i], copy[i][..j], output, s.result))
    && (forall i | 0 <= i < |copy| :: UnitAxesSoFar(s.grad[i], copy[i], j, rank))
    && (forall k | 0 <= k < j :: AgreeAt(copy, k) && IsOutputDim(copy, k, output[k]))
  }

  /** What fewer_dims_optimization keeps: the last entries follow the pattern of the last axis pushed. */
  ghost predicate Runs(reshape: seq<Shape>, bcast: seq<Shape>, result: Shape, prevIsOne: seq<bool>, setOne: bool)
  {
    && |reshape| == |bcast| == |prevIsOne| && SameRank(reshape, |result|) && SameRank(bcast, |result|)
    && (setOne <==> result != [])
    && Coalesced(reshape, result)
    && (setOne ==> LastPattern(reshape, bcast, result, prevIsOne))
  }

  ghost predicate LastPattern(reshape: seq<Shape>, bcast: seq<Shape>, result: Shape, isOne: seq<bool>)
    requires |reshape| == |bcast| == |isOne| && SameRank(reshape, |result|) && SameRank(bcast, |result|)
  {
    && |result| > 0 && isOne == Pattern(reshape, |result| - 1)
    && forall i | 0 <= i < |reshape| :: isOne[i] || bcast[i][|result| - 1] == 1
  }

  /** Column j of the operands, with the pattern and the output size that ScanAxis finds. */
  ghost predicate Column(copy: seq<Shape>, j: nat, isOne: seq<bool>, e: nat)
  {
    && |isOne| == |copy| && (forall i | 0 <= i < |copy| :: j < |copy[i]| && (isOne[i] <==> copy[i][j] == 1))
    && AgreeAt(copy, j) && IsOutputDim(copy, j, e)
  }

  function Grown(grad: seq<nat>, isOne: bool, axis: nat): seq<nat> {
    if isOne then grad + [axis] else grad
  }

  function Factor(isOne: bool, e: nat): nat {
    if isOne then e else 1
  }

  ghost predicate Pushed(s: Axes, t: Axes, copy: seq<Shape>, j: nat, isOne: seq<bool>, e: nat, axis: nat)
    requires Column(copy, j, isOne, e)
  {
    && |s.reshape| == |s.bcast| == |s.grad| == |t.reshape| == |t.bcast| == |t.grad| == |copy|
    && t.result == s.result + [e]
    && forall i | 0 <= i < |copy| ::
      && t.reshape[i] == s.reshape[i] + [copy[i][j]]
      && t.bcast[i] == s.bcast[i] + [Factor(isOne[i], e)]
      && t.grad[i] == Grown(s.grad[i], isOne[i], axis)
  }

  ghost predicate Merged(s: Axes, t: Axes, copy: seq<Shape>, j: nat, isOne: seq<bool>, e: nat, axis: nat)
    requires Column(copy, j, isOne, e)
  {
    && |s.reshape| == |s.bcast| == |s.grad| == |t.reshape| == |t.bcast| == |t.grad| == |copy|
    && |s.result| > 0 && t.result == ScaleLast(s.result, e)
    && forall i | 0 <= i < |copy| ::
      && |s.reshape[i]| > 0 && t.reshape[i] == ScaleLast(s.reshape[i], copy[i][j])
      && |s.bcast[i]| > 0 && t.bcast[i] == ScaleLast(s.bcast[i], Factor(isOne[i], e))
      && t.grad[i] == Grown(s.grad[i], isOne[i], axis)
  }

  ghost predicate Skipped(s: Axes, t: Axes, copy: seq<Shape>, axis: nat)
  {
    && |s.reshape| == |s.bcast| == |s.grad| == |t.reshape| == |t.bcast| == |t.grad| == |copy|
    && t.result == s.result && t.reshape == s.reshape && t.bcast == s.bcast
    && forall i | 0 <= i < |copy| :: t.grad[i] == s.grad[i] + [axis]
  }

  lemma UnitAxesGrow(axes: seq<nat>, copy: Shape, j: nat, rank: nat)
    requires j < rank == |copy| && UnitAxesSoFar(axes, copy, j, rank)
    ensures UnitAxesSoFar(Grown(axes, copy[j] == 1, rank - 1 - j), copy, j + 1, rank)
  {
    var axis := rank - 1 - j;
    var grown := Grown(axes, copy[j] == 1, axis);
    forall p, q | 0 <= p < q < |grown| ensures grown[p] > grown[q] {
      assert axes[p] in axes;
    }
    forall k: nat ensures k in grown <==> rank - (j + 1) <= k < rank && copy[rank - 1 - k] == 1 {
      assert k in grown <==> k in axes || (copy[j] == 1 && k == axis);
    }
  }

  lemma OutputSoFar(copy: seq<Shape>, j: nat, rank: nat, output: Shape, e: nat)
    requires SameRank(copy, rank) && j < rank && |output| == j
    requires forall k | 0 <= k < j :: AgreeAt(copy, k) && IsOutputDim(copy, k, output[k])
    requires AgreeAt(copy, j) && IsOutputDim(copy, j, e)
    ensures forall k | 0 <= k < j + 1 :: AgreeAt(copy, k) && IsOutputDim(copy, k, (output + [e])[k])
  {}

  lemma NothingCombined(s: Axes, copy: seq<Shape>, rank: nat, fewerDims: bool)
    requires SameRank(copy, rank) && s.result == []
    requires s.reshape == s.bcast == seq(|copy|, _ => []) && s.grad == seq(|copy|, _ => [])
    ensures Kept(s, [], copy, 0, rank, fewerDims, seq(|copy|, _ => false), false)
    ensures Product(Reverse([])) == 1
  {
    assert TileIndex([], [], 0) == BroadcastIndex([], [], 0);
    assert Represents([], [], [], []);
    forall i | 0 <= i < |copy| ensures Lane(s.reshape[i], s.bcast[i], copy[i][..0], [], s.result) {
      assert copy[i][..0] == [];
    }
    assert Combined(s, [], copy, 0, rank);
  }

  lemma PushCombined(s: Axes, t: Axes, output: Shape, copy: seq<Shape>, j: nat, rank: nat, isOne: seq<bool>, e: nat)
    requires SameRank(copy, rank) && j < rank && |output| == j && Combined(s, output, copy, j, rank)
    requires Column(copy, j, isOne, e) && Pushed(s, t, copy, j, isOne, e, rank - 1 - j)
    ensures Combined(t, output + [e], copy, j + 1, rank)
  {
    hide Lane, UnitAxesSoFar;
    forall i | 0 <= i < |copy|
      ensures Lane(t.reshape[i], t.bcast[i], copy[i][..j + 1], output + [e], t.result)
      ensures UnitAxesSoFar(t.grad[i], copy[i], j + 1, rank)
    {
      UnitAxesGrow(s.grad[i], copy[i], j, rank);
      assert copy[i][..j + 1] == copy[i][..j] + [copy[i][j]];
      LanePush(s.reshape[i], s.bcast[i], copy[i][..j], output, s.result, copy[i][j], Factor(isOne[i], e), e);
    }
    OutputSoFar(copy, j, rank, output, e);
  }

  lemma MergeCombined(s: Axes, t: Axes, output: Shape, copy: seq<Shape>, j: nat, rank: nat, isOne: seq<bool>, e: nat)
    requires SameRank(copy, rank) && j < rank && |output| == j && Combined(s, output, copy, j, rank)
    requires Column(copy, j, isOne, e) && Merged(s, t, copy, j, isOne, e, rank - 1 - j)
    requires |s.bcast| == |isOne| && SameRank(s.reshape, |s.result|) && SameRank(s.bcast, |s.result|) && LastPattern(s.reshape, s.bcast, s.result, isOne)
    ensures Combined(t, output + [e], copy, j + 1, rank)
  {
    hide Lane, UnitAxesSoFar;
    forall i | 0 <= i < |copy|
      ensures Lane(t.reshape[i], t.bcast[i], copy[i][..j + 1], output + [e], t.result)
      ensures UnitAxesSoFar(t.grad[i], copy[i], j + 1, rank)
    {
      UnitAxesGrow(s.grad[i], copy[i], j, rank);
      MergeLane(s.reshape[i], s.bcast[i], copy[i], j, output, s.result, isOne[i], e);
    }
    OutputSoFar(copy, j, rank, output, e);
  }

  lemma SkipCombined(s: Axes, t: Axes, output: Shape, copy: seq<Shape>, j: nat, rank: nat)
    requires SameRank(copy, rank) && j < rank && |output| == j && Combined(s, output, copy, j, rank)
    requires Skipped(s, t, copy, rank - 1 - j) && AgreeAt(copy, j) && IsOutputDim(copy, j, 1)
    ensures Combined(t, output + [1], copy, j + 1, rank)
  {
    forall i | 0 <= i < |copy|
      ensures Lane(t.reshape[i], t.bcast[i], copy[i][..j + 1], output + [1], t.result)
      ensures UnitAxesSoFar(t.grad[i], copy[i], j + 1, rank)
    {
      UnitAxesGrow(s.grad[i], copy[i], j, rank);
      assert copy[i][..j + 1] == copy[i][..j] + [1];
      LaneSkip(s.reshape[i], s.bcast[i], copy[i][..j], output, s.result);
    }
    OutputSoFar(copy, j, rank, output, 1);
  }

  lemma MergeLane(reshape: Shape, bcast: Shape, copy: Shape, j: nat, out: Shape, result: Shape, isOne: bool, e: nat)
    requires j < |copy| && Lane(reshape, bcast, copy[..j], out, result) && |reshape| > 0
    requires (isOne <==> copy[j] == 1) && (copy[j] == 1 || copy[j] == e)
    requires if isOne then reshape[|reshape| - 1] == 1 else bcast[|bcast| - 1] == 1
    ensures Lane(ScaleLast(reshape, copy[j]), ScaleLast(bcast, Factor(isOne, e)), copy[..j + 1], out + [e], ScaleLast(result, e))
  {
    assert copy[..j + 1] == copy[..j] + [copy[j]];
    LaneMerge(reshape, bcast, copy[..j], out, result, copy[j], Factor(isOne, e), e);
  }

  lemma PushRuns(s: Axes, t: Axes, copy: seq<Shape>, j: nat, isOne: seq<bool>, e: nat, axis: nat, prevIsOne: seq<bool>, setOne: bool)
    requires Column(copy, j, isOne, e) && e != 1 && Pushed(s, t, copy, j, isOne, e, axis)
    requires Runs(s.reshape, s.bcast, s.result, prevIsOne, setOne) && (setOne ==> isOne != prevIsOne)
    ensures Runs(t.reshape, t.bcast, t.result, isOne, true)
  {
    var n := |s.result|;
    assert Pattern(t.reshape, n) == isOne;
    forall k, l | 0 <= k < l < n + 1 && l == k + 1 ensures Pattern(t.reshape, k) != Pattern(t.reshape, l) {
      assert Pattern(t.reshape, k) == Pattern(s.reshape, k);
      if l < n {
        assert Pattern(t.reshape, l) == Pattern(s.reshape, l);
      }
    }
  }

  lemma ProductIsOne(a: nat, d: nat)
    requires a == 1 <==> d == 1
    ensures a * d == 1 <==> a == 1
  {
    if a > 1 && d > 1 {
      MulMonotone(2, a, d);
    }
  }

  lemma ScaleLastAt(s: Shape, d: nat)
    requires |s| > 0
    ensures forall k | 0 <= k < |s| - 1 :: ScaleLast(s, d)[k] == s[k]
    ensures ScaleLast(s, d)[|s| - 1] == s[|s| - 1] * d
  {}

  lemma MergeRuns(s: Axes, t: Axes, copy: seq<Shape>, j: nat, isOne: seq<bool>, e: nat, axis: nat)
    requires Column(copy, j, isOne, e) && e != 1 && Merged(s, t, copy, j, isOne, e, axis)
    requires Runs(s.reshape, s.bcast, s.result, isOne, true)
    ensures Runs(t.reshape, t.bcast, t.result, isOne, true)
  {
    var n := |s.result|;
    ScaleLastAt(s.result, e);
    assert t.result[n - 1] != 1 by {
      ProductNotOne(s.result[n - 1], e);
    }
    forall k: nat | k < n ensures Pattern(t.reshape, k) == Pattern(s.reshape, k) {
      forall i | 0 <= i < |copy| ensures t.reshape[i][k] == 1 <==> s.reshape[i][k] == 1 {
        ScaleLastAt(s.reshape[i], copy[i][j]);
        ProductIsOne(s.reshape[i][n - 1], copy[i][j]);
      }
    }
    forall i | 0 <= i < |copy| ensures isOne[i] || t.bcast[i][n - 1] == 1 {
      ScaleLastAt(s.bcast[i], Factor(isOne[i], e));
    }
  }

  lemma ProductNotOne(a: nat, e: nat)
    requires a != 1 && e != 1
    ensures a * e != 1
  {
    ProductIsOne(a, e);
  }

  /** What the loop keeps: the state so far, and either the runs or one entry per axis. */
  ghost predicate Kept(s: Axes, output: Shape, copy: seq<Shape>, j: nat, rank: nat, fewerDims: bool, prevIsOne: seq<bool>, setOne: bool)
    requires SameRank(copy, rank) && j <= rank
  {
    && Combined(s, output, copy, j, rank)
    && (if fewerDims then Runs(s.reshape, s.bcast, s.result, prevIsOne, setOne) else forall i | 0 <= i < |copy| :: s.reshape[i] == copy[i][..j])
  }

  lemma MergeKept(s: Axes, t: Axes, output: Shape, copy: seq<Shape>, j: nat, rank: nat, isOne: seq<bool>, e: nat)
    requires SameRank(copy, rank) && j < rank && |output| == j && e != 1
    requires Kept(s, output, copy, j, rank, true, isOne, true)
    requires Column(copy, j, isOne, e) && Merged(s, t, copy, j, isOne, e, rank - 1 - j)
    ensures Kept(t, output + [e], copy, j + 1, rank, true, isOne, true)
  {
    hide Lane, UnitAxesSoFar;
    MergeCombined(s, t, output, copy, j, rank, isOne, e);
    MergeRuns(s, t, copy, j, isOne, e, rank - 1 - j);
  }

  lemma PushKept(s: Axes, t: Axes, output: Shape, copy: seq<Shape>, j: nat, rank: nat, fewerDims: bool, isOne: seq<bool>, e: nat,
                 prevIsOne: seq<bool>, setOne: bool)
    requires SameRank(copy, rank) && j < rank && |output| == j
    requires Kept(s, output, copy, j, rank, fewerDims, prevIsOne, setOne)
    requires Column(copy, j, isOne, e) && Pushed(s, t, copy, j, isOne, e, rank - 1 - j)
    requires fewerDims ==> e != 1 && (setOne ==> isOne != prevIsOne)
    ensures Kept(t, output + [e], copy, j + 1, rank, fewerDims, isOne, true)
  {
    hide Lane, UnitAxesSoFar;
    PushCombined(s, t, output, copy, j, rank, isOne, e);
    if fewerDims {
      PushRuns(s, t, copy, j, isOne, e, rank - 1 - j, prevIsOne, setOne);
    } else {
      PrefixGrows(s.reshape, t.reshape, copy, j);
    }
  }

  lemma PrefixGrows(s: seq<Shape>, t: seq<Shape>, copy: seq<Shape>, j: nat)
    requires |s| == |t| == |copy| && forall i | 0 <= i < |copy| :: j < |copy[i]| && t[i] == s[i] + [copy[i][j]]
    requires forall i | 0 <= i < |copy| :: s[i] == copy[i][..j]
    ensures forall i | 0 <= i < |copy| :: t[i] == copy[i][..j + 1]
  {}

  /** The loop starts with the vectors of all operands, and once an axis has been kept none of them is empty. */
  lemma KeptLengths(s: Axes, output: Shape, copy: seq<Shape>, j: nat, rank: nat, prevIsOne: seq<bool>, fewerDims: bool, setOne: bool)
    requires SameRank(copy, rank) && j <= rank && Kept(s, output, copy, j, rank, fewerDims, prevIsOne, setOne)
    ensures |s.reshape| == |s.bcast| == |s.grad| == |copy|
    ensures fewerDims && setOne ==> |s.result| > 0 && forall i | 0 <= i < |copy| :: |s.reshape[i]| > 0 && |s.bcast[i]| > 0
  {
    hide Lane, UnitAxesSoFar, AgreeAt, IsOutputDim, Coalesced, LastPattern;
  }

  /** Without coalescing the state of the loop does not matter. */
  lemma KeptPlain(s: Axes, output: Shape, copy: seq<Shape>, j: nat, rank: nat, p: seq<bool>, b: bool, q: seq<bool>, c: bool)
    requires SameRank(copy, rank) && j <= rank && Kept(s, output, copy, j, rank, false, p, b)
    ensures Kept(s, output, copy, j, rank, false, q, c)
  {}

  lemma SkipKept(s: Axes, t: Axes, output: Shape, copy: seq<Shape>, j: nat, rank: nat, isOne: seq<bool>,
                 prevIsOne: seq<bool>, setOne: bool)
    requires SameRank(copy, rank) && j < rank && |output| == j
    requires Kept(s, output, copy, j, rank, true, prevIsOne, setOne)
    requires Column(copy, j, isOne, 1) && Skipped(s, t, copy, rank - 1 - j)
    ensures Kept(t, output + [1], copy, j + 1, rank, true, prevIsOne, setOne)
  {
    SkipCombined(s, t, output, copy, j, rank);
  }

  /** The size of the axis goes through an int: for a compatible axis it is found exactly when it is below 2^31. */
  method ScanAxis(copy: seq<Shape>, j: nat) returns (ok: bool, outputDimSet: bool, outputDim: int, isOne: seq<bool>)
    requires forall i | 0 <= i < |copy| :: j < |copy[i]|
    ensures forall e: nat | IsOutputDim(copy, j, e) :: (ok && e == if outputDimSet then outputDim else 1) <==> e < TWO_31
    ensures Int32Dims(copy) ==> (ok <==> AgreeAt(copy, j)) && (ok && outputDimSet ==> 0 <= outputDim != 1)
    ensures Int32Dims(copy) && ok ==> Column(copy, j, isOne, if outputDimSet then outputDim else 1)
  {
    ok, outputDimSet, outputDim, isOne := true, false, -1, [];
    for i := 0 to |copy|
      invariant |isOne| == i && forall h | 0 <= h < i :: isOne[h] <==> copy[h][j] == 1
      invariant outputDimSet ==> exists h | 0 <= h < i :: copy[h][j] != 1 && outputDim == ToInt32(copy[h][j])
      invariant forall h | 0 <= h < i :: copy[h][j] == 1 || (outputDimSet && (copy[h][j] < TWO_31 ==> copy[h][j] == outputDim))
    {
      if copy[i][j] == 1 {
        isOne := isOne + [true];
      } else {
        isOne := isOne + [false];
        if !outputDimSet || copy[i][j] == outputDim {
          outputDim := ToInt32(copy[i][j]);
          outputDimSet := true;
        } else {
          ok := false;
          assert Int32Dims(copy) ==> !AgreeAt(copy, j) by {
            var h :| 0 <= h < i && copy[h][j] != 1 && outputDim == ToInt32(copy[h][j]);
          }
          return;
        }
      }
    }
  }

  /** The table sends every output position to the input position that the NumPy rule reads. */
  ghost predicate IsIndexTable(table: seq<nat>, input: Shape, output: Shape)
  {
    && |input| == |output| && |table| == Product(output)
    && forall o | 0 <= o < |table| :: table[o] == BroadcastIndex(input, output, o) && table[o] < Product(input)
  }

  method ElementCount(x: Shape) returns (elements: nat)
    ensures elements == Product(x)
  {
    assert Product(x[..0]) == 1;
    hide Product, Room;
    elements := 1;
    for i := 0 to |x|
      invariant elements == Product(x[..i]) <= Room(x)
    {
      assert x[..i + 1] == x[..i] + [x[i]];
      ProductSnoc(x[..i], x[i]);
      PrefixInRoom(x, i + 1);
      elements := elements * x[i];
    }
    assert x[..|x|] == x;
  }

  lemma {:induction false} ProductSnoc(s: Shape, d: nat)
    ensures Product(s + [d]) == Product(s) * d
  {
    if s == [] {
      assert [] + [d] == [d] + [];
      ProductCons(d, []);
    } else {
      assert s + [d] == [s[0]] + (s[1..] + [d]) && s == [s[0]] + s[1..];
      ProductCons(s[0], s[1..] + [d]);
      ProductCons(s[0], s[1..]);
      ProductSnoc(s[1..], d);
      MulAssociative(s[0], Product(s[1..]), d);
    }
  }

  // ---------------------------------------------------------------- the range of the numbers

  predicate AtMost(s: Shape, limit: nat) {
    forall k | 0 <= k < |s| :: s[k] <= limit
  }

  /** No number in the vectors exceeds the limit. */
  ghost predicate Bounded(s: Axes, limit: nat) {
    && AtMost(s.result, limit) && |s.reshape| == |s.bcast|
    && forall i | 0 <= i < |s.reshape| :: AtMost(s.reshape[i], limit) && AtMost(s.bcast[i], limit)
  }

  lemma Loosen(s: Axes, low: nat, high: nat)
    requires Bounded(s, low) && low <= high
    ensures Bounded(s, high)
  {}

  lemma LaneInRoom(reshape: Shape, bcast: Shape, copy: Shape, output: Shape, result: Shape)
    requires Lane(reshape, bcast, copy, output, result)
    ensures AtMost(reshape, Room(result)) && AtMost(bcast, Room(result))
  {
    hide Room, Reverse;
    RoomReverse(result);
    ReverseTwice(reshape);
    ReverseTwice(bcast);
    forall k | 0 <= k < |reshape| ensures reshape[k] <= Room(result) && bcast[k] <= Room(result) {
      EntriesInRoom(Reverse(reshape), Reverse(bcast), |reshape| - 1 - k);
    }
  }

  lemma LanesInRoom(s: Axes, output: Shape, copy: seq<Shape>, j: nat, rank: nat)
    requires SameRank(copy, rank) && j <= rank && Combined(s, output, copy, j, rank) && Room(s.result) <= Room(output)
    ensures Bounded(s, Room(output))
  {
    hide Room, Lane;
    RoomOf(s.result);
    forall i | 0 <= i < |s.reshape| ensures AtMost(s.reshape[i], Room(output)) && AtMost(s.bcast[i], Room(output)) {
      LaneInRoom(s.reshape[i], s.bcast[i], copy[i][..j], output, s.result);
    }
  }

  /** Axis j takes no more room in the vectors than in the output shape. */
  lemma AxisInRoom(before: Shape, after: Shape, output: Shape, e: nat)
    requires Room(before) <= Room(output)
    requires after == before + [e] || (|before| > 0 && after == ScaleLast(before, e)) || (e == 1 && after == before)
    ensures Room(after) <= Room(output + [e])
  {
    RoomSnoc(output, e);
    RoomSnoc(before, e);
    hide Room, AtLeastOne, ScaleLast;
    MulMonotone(Room(before), Room(output), AtLeastOne(e));
    if |before| > 0 { RoomScaled(before, e); }
  }

  /** The product of the output sizes does not fit into an int64 although every operand's does. */
  lemma OutputCanOverflow()
    ensures var x, y, output := [0x4000_0000, 0x4000_0000, 1], [1, 1, 0x4000_0000], [0x4000_0000, 0x4000_0000, 0x4000_0000];
      && Int32Dims([x, y]) && SameRank([x, y], 3) && Compatible([x, y], 3) && IsBroadcastShape([x, y], output)
      && Product(x) < TWO_63 && Product(y) < TWO_63 && Product(output) > TWO_64
  {
    var d := 0x4000_0000;
    var x, y, output := [d, d, 1], [1, 1, d], [d, d, d];
    assert x[1..] == [d, 1] && x[1..][1..] == [1] && y[1..] == [1, d] && y[1..][1..] == [d];
    assert output[1..] == [d, d] && output[1..][1..] == [d];
    assert Product([1]) == 1 && Product([d]) == d && Product([d, 1]) == d && Product([1, d]) == d && Product([d, d]) == d * d;
  }

  method CompareShapes(x: seq<Shape>) returns (allEqual: bool, largestRank: nat)
    requires |x| > 0
    ensures allEqual <==> AllEqual(x)
    ensures largestRank == MaxRank(x)
  {
    allEqual, largestRank := true, 0;
    for i := 0 to |x|
      invariant allEqual <==> forall h | 0 <= h < i :: x[h] == x[0]
      invariant largestRank == MaxRank(x[..i])
    {
      assert x[..i + 1][..i] == x[..i];
      if x[i] != x[0] {
        allEqual := false;
      }
      if |x[i]| > largestRank {
        largestRank := |x[i]|;
      }
    }
    assert x[..|x|] == x;
  }

  /** The aligned shapes, innermost axis first. */
  method ReverseAndExtend(x: seq<Shape>, largestRank: nat) returns (copy: seq<Shape>)
    requires Int32Dims(x) && largestRank == MaxRank(x)
    ensures |copy| == |x| && SameRank(copy, largestRank) && Int32Dims(copy)
    ensures forall i | 0 <= i < |x| :: copy[i] == Reverse(AlignAll(x)[i])
  {
    hide Reverse;
    copy := [];
    for i := 0 to |x|
      invariant |copy| == i && SameRank(copy, largestRank) && Int32Dims(copy)
      invariant forall h | 0 <= h < i :: copy[h] == Reverse(Align(x[h], largestRank))
    {
      var c := Reverse(x[i]);
      assert forall k | 0 <= k < |c| :: c[k] == x[i][|x[i]| - 1 - k];
      if |c| < largestRank {
        c := c + seq(largestRank - |c|, _ => 1);
      }
      assert c == Reverse(Align(x[i], largestRank));
      copy := copy + [c];
    }
  }

  lemma AllEqualMeans(x: seq<Shape>)
    requires |x| > 0
    ensures AllEqual(x) <==> forall i, h | 0 <= i < |x| && 0 <= h < |x| :: x[i] == x[h]
  {}

  lemma ReadyOperandRead(reshape: Shape, bcast: Shape, result: Shape, x: Shape, output: Shape, axes: seq<nat>)
    requires |x| <= |output| && OperandReady(reshape, bcast, result, Align(x, |output|), output, axes)
    ensures ReadsOperand(reshape, bcast, x, output)
  {
    OperandRead(reshape, bcast, x, output);
  }

  lemma IndexTableRead(table: seq<nat>, x: Shape, output: Shape)
    requires |x| <= |output| && IsIndexTable(table, Align(x, |output|), output)
    ensures IsReadTable(table, x, output)
  {
    TableRead(table, x, output);
  }

  class BCastList {
    var valid: bool
    var broadcastingRequired: bool
    var reshape: seq<Shape>
    var bcast: seq<Shape>
    var result: Shape
    var output: Shape
    var gradReduceIdx: seq<seq<nat>>
    var outputBatchSize: nat
    var batchIndices: seq<seq<nat>>

    /** What the constructor promises for these operands. */
    ghost predicate Built(x: seq<Shape>, fewerDims: bool, returnFlattenedBatchIndices: bool)
      requires |x| > 0
      reads this
    {
      var aligned, rank := AlignAll(x), MaxRank(x);
      var tables := valid && returnFlattenedBatchIndices && broadcastingRequired && outputBatchSize > 0;
      && (valid <==> Compatible(aligned, rank))
      && (broadcastingRequired <==> !AllEqual(x))
      && (valid ==> Ready(aligned, rank))
      && (valid && AllEqual(x) && fewerDims ==> forall i | 0 <= i < |x| :: gradReduceIdx[i] == [])
      && (valid && !(AllEqual(x) && fewerDims) ==> forall i | 0 <= i < |x| :: IsUnitAxes(aligned[i], gradReduceIdx[i]))
      && (valid && fewerDims ==> |result| == 1 || (SameRank(reshape, |result|) && Coalesced(reshape, result)))
      && (valid && !fewerDims && rank > 0 ==> reshape == aligned)
      && (if tables then HasTables(aligned, rank) else batchIndices == seq(|x|, _ => []))
      && (valid ==> AllAtMost(Room(output)))
      && (valid && Room(output) < TWO_63 ==> AllAtMost(TWO_63 - 1))
      && (valid && outputBatchSize > 0 ==> (AllAtMost(TWO_63 - 1) <==> Product(output) < TWO_63))
    }

    /** The same for the operands as they are given, with their axes counted from the innermost one. */
    ghost predicate FollowsRule(x: seq<Shape>, fewerDims: bool, returnFlattenedBatchIndices: bool)
      requires |x| > 0
      reads this
    {
      && (valid <==> Matching(x))
      && (broadcastingRequired <==> exists i, h :: 0 <= i < |x| && 0 <= h < |x| && x[i] != x[h])
      && (valid ==> IsMatchedShape(x, output) && outputBatchSize == Product(output))
      && (valid ==> ReadsOperands(x))
      && (valid && !(AllEqual(x) && fewerDims) ==> ReducesOperands(x))
      && (valid && !fewerDims && output != [] ==> KeepsAxes(x))
      && (valid && returnFlattenedBatchIndices && broadcastingRequired && outputBatchSize > 0 ==> TabulatesOperands(x))
    }

    ghost predicate ReadsOperands(x: seq<Shape>)
      reads this
    {
      && |reshape| == |bcast| == |x|
      && forall i | 0 <= i < |x| :: |x[i]| <= |output| && ReadsOperand(reshape[i], bcast[i], x[i], output)
    }

    ghost predicate ReducesOperands(x: seq<Shape>)
      reads this
    {
      && |gradReduceIdx| == |x|
      && forall i | 0 <= i < |x| :: |x[i]| <= |output| && IsReducedAxes(gradReduceIdx[i], x[i], |output|)
    }

    ghost predicate TabulatesOperands(x: seq<Shape>)
      reads this
    {
      && |batchIndices| == |x|
      && forall i | 0 <= i < |x| :: |x[i]| <= |output| && IsReadTable(batchIndices[i], x[i], output)
    }

    /** Without coalescing the reshaped operand has every axis: 1s where the operand has none, then its own sizes. */
    ghost predicate KeepsAxes(x: seq<Shape>)
      reads this
    {
      && |reshape| == |x|
      && forall i | 0 <= i < |x| :: |x[i]| <= |output| && reshape[i] == seq(|output| - |x[i]|, _ => 1) + x[i]
    }

    lemma BuiltFollowsRule(x: seq<Shape>, fewerDims: bool, returnFlattenedBatchIndices: bool)
      requires |x| > 0 && Built(x, fewerDims, returnFlattenedBatchIndices)
      ensures FollowsRule(x, fewerDims, returnFlattenedBatchIndices)
    {
      hide Compatible, AllAtMost, Coalesced, Room, Product, AllEqual, Matching, IsMatchedShape, IsBroadcastShape,
           ReadsOperand, IsReducedAxes, IsReadTable, IsUnitAxes, IsIndexTable, OperandReady, MaxRank;
      CompatibleIffMatching(x);
      AllEqualMeans(x);
      if valid {
        OutputMatched(x, output);
        forall i | 0 <= i < |x| ensures |x[i]| <= |output| && ReadsOperand(reshape[i], bcast[i], x[i], output) {
          ReadyOperandRead(reshape[i], bcast[i], result, x[i], output, gradReduceIdx[i]);
        }
        forall i | 0 <= i < |x| && IsUnitAxes(AlignAll(x)[i], gradReduceIdx[i])
          ensures IsReducedAxes(gradReduceIdx[i], x[i], |output|)
        {
          UnitAxesReduced(gradReduceIdx[i], x[i], |output|);
        }
        if returnFlattenedBatchIndices && broadcastingRequired && outputBatchSize > 0 {
          forall i | 0 <= i < |x| ensures IsReadTable(batchIndices[i], x[i], output) {
            IndexTableRead(batchIndices[i], x[i], output);
          }
        }
      }
    }

    constructor (x: seq<Shape>, fewerDims: bool, returnFlattenedBatchIndices: bool)
      requires |x| > 0 && ((AllEqual(x) && fewerDims) || Int32Dims(x))
      ensures Built(x, fewerDims, returnFlattenedBatchIndices)
      ensures FollowsRule(x, fewerDims, returnFlattenedBatchIndices)
    {
      valid, broadcastingRequired := true, true;
      reshape, bcast, gradReduceIdx, batchIndices := seq(|x|, _ => []), seq(|x|, _ => []), seq(|x|, _ => []), seq(|x|, _ => []);
      result, output := [], [];
      outputBatchSize := 1;
      new;
      Build(x, fewerDims, returnFlattenedBatchIndices);
      BuiltFollowsRule(x, fewerDims, returnFlattenedBatchIndices);
    }

    /** The body of the constructor, after the fields have got their first values. */
    method Build(x: seq<Shape>, fewerDims: bool, returnFlattenedBatchIndices: bool)
      requires |x| > 0 && ((AllEqual(x) && fewerDims) || Int32Dims(x))
      requires reshape == bcast == seq(|x|, _ => []) && gradReduceIdx == seq(|x|, _ => [])
      requires batchIndices == seq(|x|, _ => []) && broadcastingRequired
      requires valid && result == [] && output == [] && outputBatchSize == 1
      modifies this
      ensures Built(x, fewerDims, returnFlattenedBatchIndices)
    {
      hide Compatible, Ready, HasTables, AllAtMost, IsUnitAxes, Coalesced, Room, Product, AllEqual, SameRank;
      var allEqual, largestRank := CompareShapes(x);
      if allEqual {
        broadcastingRequired := false;
      }
      if allEqual && fewerDims {
        FastPath(x);
        return;
      }
      GeneralPath(x, largestRank, fewerDims, returnFlattenedBatchIndices);
    }

    /** The path for identical shapes. */
    method FastPath(x: seq<Shape>)
      requires |x| > 0 && AllEqual(x) && result == []
      requires reshape == bcast == seq(|x|, _ => []) && gradReduceIdx == seq(|x|, _ => [])
      modifies this`reshape, this`bcast, this`result, this`output, this`outputBatchSize
      ensures Compatible(AlignAll(x), MaxRank(x)) && Ready(AlignAll(x), MaxRank(x)) && |result| == 1
      ensures AllAtMost(Room(output)) && (outputBatchSize > 0 ==> (AllAtMost(TWO_63 - 1) <==> Product(output) < TWO_63))
      ensures Room(output) < TWO_63 ==> AllAtMost(TWO_63 - 1)
    {
      hide OperandReady, IsBroadcastShape, Compatible, Product, Room, AllAtMost;
      IdenticalOperands(x);
      SameShape(x[0]);
      WithinInt64();
    }

    /** The path for operands whose shapes differ, or that keeps every dimension. */
    method GeneralPath(x: seq<Shape>, largestRank: nat, fewerDims: bool, returnFlattenedBatchIndices: bool)
      requires |x| > 0 && Int32Dims(x) && largestRank == MaxRank(x)
      requires reshape == bcast == seq(|x|, _ => []) && gradReduceIdx == seq(|x|, _ => [])
      requires batchIndices == seq(|x|, _ => [])
      requires valid && result == [] && output == [] && outputBatchSize == 1
      modifies this`valid, this`reshape, this`bcast, this`result, this`output, this`gradReduceIdx, this`outputBatchSize,
               this`batchIndices
      ensures valid <==> Compatible(AlignAll(x), largestRank)
      ensures valid ==> Ready(AlignAll(x), largestRank) && AllAtMost(Room(output))
      ensures valid && outputBatchSize > 0 ==> (AllAtMost(TWO_63 - 1) <==> Product(output) < TWO_63)
      ensures valid && Room(output) < TWO_63 ==> AllAtMost(TWO_63 - 1)
      ensures valid ==> forall i | 0 <= i < |x| :: IsUnitAxes(AlignAll(x)[i], gradReduceIdx[i])
      ensures valid && fewerDims ==> |result| == 1 || (SameRank(reshape, |result|) && Coalesced(reshape, result))
      ensures valid && !fewerDims && largestRank > 0 ==> reshape == AlignAll(x)
      ensures if valid && returnFlattenedBatchIndices && broadcastingRequired && outputBatchSize > 0
              then HasTables(AlignAll(x), largestRank)
              else batchIndices == seq(|x|, _ => [])
    {
      hide Reverse, OperandReady, IsUnitAxes, Kept, IsBroadcastShape, Compatible, IsIndexTable, Product;
      var copy := ReverseAndExtend(x, largestRank);
      CompatibleReversed(copy, AlignAll(x), largestRank);
      var prevIsOne, setOne := CombineAxes(copy, largestRank, fewerDims);
      if !valid {
        return;
      }
      ghost var state, out := State(), output;
      Finish();
      FinishedInRoom(state, State(), out);
      OutputInRoom(output);
      WithinInt64();
      AllFinished(state, State(), out, copy, AlignAll(x), largestRank, fewerDims, prevIsOne, setOne);
      if returnFlattenedBatchIndices && broadcastingRequired && outputBatchSize > 0 {
        FillTables(AlignAll(x), largestRank);
      }
    }

    /** No number in the fields exceeds the limit. */
    ghost predicate AllAtMost(limit: nat)
      reads this
    {
      Bounded(State(), limit) && AtMost(output, limit) && outputBatchSize <= limit
    }

    /** When the output is not empty, all numbers are int64s exactly when its number of elements is one; when it is
        empty, they are if the product of its other sizes is. */
    lemma WithinInt64()
      requires AllAtMost(Room(output)) && outputBatchSize == Product(output)
      ensures outputBatchSize > 0 ==> (AllAtMost(TWO_63 - 1) <==> Product(output) < TWO_63)
      ensures Room(output) < TWO_63 ==> AllAtMost(TWO_63 - 1)
    {
      RoomOf(output);
      hide Room, Product;
      if Room(output) < TWO_63 {
        Loosen(State(), Room(output), TWO_63 - 1);
      }
    }

    /** The helper shapes mean what the NumPy rule says, for every operand. */
    ghost predicate Ready(aligned: seq<Shape>, rank: nat)
      requires SameRank(aligned, rank)
      reads this
    {
      && |output| == rank && IsBroadcastShape(aligned, output) && outputBatchSize == Product(output)
      && |reshape| == |bcast| == |gradReduceIdx| == |aligned|
      && forall i | 0 <= i < |aligned| ::
          OperandReady(reshape[i], bcast[i], result, aligned[i], output, gradReduceIdx[i])
    }

    ghost predicate HasTables(aligned: seq<Shape>, rank: nat)
      requires SameRank(aligned, rank)
      reads this
    {
      && |output| == rank && |batchIndices| == |aligned|
      && forall i | 0 <= i < |aligned| :: IsIndexTable(batchIndices[i], aligned[i], output)
    }

    /** The fast path for identical shapes. */
    method SameShape(x: Shape)
      requires |reshape| == |bcast| && result == []
      requires forall i | 0 <= i < |reshape| :: reshape[i] == bcast[i] == []
      modifies this`reshape, this`bcast, this`result, this`output, this`outputBatchSize
      ensures output == x && result == [Product(x)] && outputBatchSize == Product(x)
      ensures |reshape| == |bcast| == old(|reshape|)
      ensures forall i | 0 <= i < |reshape| :: reshape[i] == [Product(x)] && bcast[i] == [1]
      ensures AllAtMost(Room(x))
    {
      RoomOf(x);
      hide Room, Product;
      var elements := ElementCount(x);
      output := x;
      result := result + [elements];
      outputBatchSize := elements;
      for i := 0 to |reshape|
        invariant output == x && result == [Product(x)] && outputBatchSize == Product(x)
        invariant |reshape| == |bcast| == old(|reshape|)
        invariant forall h | 0 <= h < |reshape| ::
            if h < i then reshape[h] == [Product(x)] && bcast[h] == [1] else reshape[h] == bcast[h] == []
      {
        reshape := reshape[i := reshape[i] + [elements]];
        bcast := bcast[i := bcast[i] + [1]];
      }
    }

    method FillTables(ghost aligned: seq<Shape>, ghost rank: nat)
      requires SameRank(aligned, rank) && Ready(aligned, rank) && outputBatchSize > 0 && |batchIndices| == |aligned|
      modifies this`batchIndices
      ensures HasTables(aligned, rank)
    {
      for i := 0 to |reshape|
        invariant |batchIndices| == |aligned|
        invariant forall h | 0 <= h < i :: IsIndexTable(batchIndices[h], aligned[h], output)
      {
        assert OperandReady(reshape[i], bcast[i], result, aligned[i], output, gradReduceIdx[i]);
        var table := ComputeBatchIndices(outputBatchSize, reshape[i], bcast[i]);
        batchIndices := batchIndices[i := table[..]];
      }
    }

    ghost function State(): Axes
      reads this
    {
      Axes(reshape, bcast, gradReduceIdx, result)
    }

    /** An axis on which every operand has size 1. */
    method AllOnesAxis(copy: seq<Shape>, j: nat, isOne: seq<bool>, fewerDims: bool, axis: nat)
      requires |reshape| == |bcast| == |gradReduceIdx| == |copy| && Column(copy, j, isOne, 1)
      modifies this`reshape, this`bcast, this`result, this`gradReduceIdx
      ensures fewerDims ==> Skipped(old(State()), State(), copy, axis)
      ensures !fewerDims ==> Pushed(old(State()), State(), copy, j, isOne, 1, axis)
    {
      if !fewerDims {
        for i := 0 to |reshape|
          invariant |reshape| == |bcast| == old(|reshape|) && gradReduceIdx == old(gradReduceIdx) && result == old(result)
          invariant forall h | 0 <= h < |reshape| ::
              && reshape[h] == (if h < i then old(reshape)[h] + [1] else old(reshape)[h])
              && bcast[h] == (if h < i then old(bcast)[h] + [1] else old(bcast)[h])
        {
          bcast := bcast[i := bcast[i] + [1]];
          reshape := reshape[i := reshape[i] + [1]];
        }
        result := result + [1];
      }
      ghost var r, b := reshape, bcast;
      for i := 0 to |gradReduceIdx|
        invariant |gradReduceIdx| == old(|reshape|) && reshape == r && bcast == b
        invariant result == if fewerDims then old(result) else old(result) + [1]
        invariant forall h | 0 <= h < |gradReduceIdx| ::
            gradReduceIdx[h] == (if h < i then old(gradReduceIdx)[h] + [axis] else old(gradReduceIdx)[h])
      {
        gradReduceIdx := gradReduceIdx[i := gradReduceIdx[i] + [axis]];
      }
    }

    /** An axis with the pattern of the previous one: the last entries are multiplied. */
    method MergeAxis(copy: seq<Shape>, j: nat, isOne: seq<bool>, outputDim: nat, axis: nat)
      requires |reshape| == |bcast| == |gradReduceIdx| == |copy| && |result| > 0 && Column(copy, j, isOne, outputDim)
      requires forall i | 0 <= i < |copy| :: |reshape[i]| > 0 && |bcast[i]| > 0
      modifies this`reshape, this`bcast, this`result, this`gradReduceIdx
      ensures |reshape| == |bcast| == |gradReduceIdx| == |copy|
      ensures Merged(old(State()), State(), copy, j, isOne, outputDim, axis)
    {
      result := ScaleLast(result, outputDim);
      ghost var res := result;
      for i := 0 to |copy|
        invariant |reshape| == |bcast| == |gradReduceIdx| == |copy| && result == res
        invariant forall h | i <= h < |copy| ::
            reshape[h] == old(reshape)[h] && bcast[h] == old(bcast)[h] && gradReduceIdx[h] == old(gradReduceIdx)[h]
        invariant forall h | 0 <= h < i ::
            && reshape[h] == ScaleLast(old(reshape)[h], copy[h][j])
            && bcast[h] == ScaleLast(old(bcast)[h], Factor(isOne[h], outputDim))
            && gradReduceIdx[h] == Grown(old(gradReduceIdx)[h], isOne[h], axis)
      {
        reshape := reshape[i := ScaleLast(reshape[i], copy[i][j])];
        bcast := bcast[i := ScaleLast(bcast[i], if isOne[i] then outputDim else 1)];
        if isOne[i] {
          gradReduceIdx := gradReduceIdx[i := gradReduceIdx[i] + [axis]];
        }
      }
    }

    /** An axis with a pattern of its own: new entries are pushed. */
    method PushAxis(copy: seq<Shape>, j: nat, isOne: seq<bool>, outputDim: nat, axis: nat)
      requires |reshape| == |bcast| == |gradReduceIdx| == |copy| && Column(copy, j, isOne, outputDim)
      modifies this`reshape, this`bcast, this`result, this`gradReduceIdx
      ensures |reshape| == |bcast| == |gradReduceIdx| == |copy|
      ensures Pushed(old(State()), State(), copy, j, isOne, outputDim, axis)
    {
      result := result + [outputDim];
      ghost var res := result;
      for i := 0 to |copy|
        invariant |reshape| == |bcast| == |gradReduceIdx| == |copy| && result == res
        invariant forall h | i <= h < |copy| ::
            reshape[h] == old(reshape)[h] && bcast[h] == old(bcast)[h] && gradReduceIdx[h] == old(gradReduceIdx)[h]
        invariant forall h | 0 <= h < i ::
            && reshape[h] == old(reshape)[h] + [copy[h][j]]
            && bcast[h] == old(bcast)[h] + [Factor(isOne[h], outputDim)]
            && gradReduceIdx[h] == Grown(old(gradReduceIdx)[h], isOne[h], axis)
      {
        reshape := reshape[i := reshape[i] + [copy[i][j]]];
        bcast := bcast[i := bcast[i] + [if isOne[i] then outputDim else 1]];
        if isOne[i] {
          gradReduceIdx := gradReduceIdx[i := gradReduceIdx[i] + [axis]];
        }
      }
    }

    /** One turn of the loop over the axes, after the output size e of axis j has been pushed. */
    method CombineAxis(copy: seq<Shape>, j: nat, rank: nat, fewerDims: bool, isOne: seq<bool>, outputDimSet: bool,
                       e: nat, prevIsOne: seq<bool>, setOne: bool)
      returns (nextIsOne: seq<bool>, nextSetOne: bool)
      requires SameRank(copy, rank) && j < rank && Column(copy, j, isOne, e) && (outputDimSet <==> e != 1)
      requires |output| == j + 1 && output[j] == e && Kept(State(), output[..j], copy, j, rank, fewerDims, prevIsOne, setOne)
      requires Room(result) <= Room(output[..j])
      modifies this`reshape, this`bcast, this`result, this`gradReduceIdx
      ensures Kept(State(), output, copy, j + 1, rank, fewerDims, nextIsOne, nextSetOne)
      ensures Room(result) <= Room(output) && Bounded(State(), Room(output))
      ensures |reshape| == |bcast| == |gradReduceIdx| == |copy|
    {
      hide Room, Bounded, Column, Kept;
      ghost var before := State();
      KeptLengths(before, output[..j], copy, j, rank, prevIsOne, fewerDims, setOne);
      assert output == output[..j] + [e];
      var axis := rank - 1 - j;
      if !outputDimSet {
        AllOnesAxis(copy, j, isOne, fewerDims, axis);
        if fewerDims {
          SkipKept(before, State(), output[..j], copy, j, rank, isOne, prevIsOne, setOne);
        } else {
          PushKept(before, State(), output[..j], copy, j, rank, fewerDims, isOne, e, prevIsOne, setOne);
          KeptPlain(State(), output, copy, j + 1, rank, isOne, true, prevIsOne, setOne);
        }
        nextIsOne, nextSetOne := prevIsOne, setOne;
        TurnInRoom(before, State(), output, copy, j, rank, fewerDims, nextIsOne, nextSetOne);
        return;
      } else if fewerDims && isOne == prevIsOne && setOne {
        MergeAxis(copy, j, isOne, e, axis);
        MergeKept(before, State(), output[..j], copy, j, rank, isOne, e);
      } else {
        PushAxis(copy, j, isOne, e, axis);
        PushKept(before, State(), output[..j], copy, j, rank, fewerDims, isOne, e, prevIsOne, setOne);
      }
      nextSetOne := true;
      nextIsOne := isOne;
      TurnInRoom(before, State(), output, copy, j, rank, fewerDims, nextIsOne, nextSetOne);
    }

    method PushOutput(dim: nat)
      requires outputBatchSize == Product(Reverse(output))
      modifies this`output, this`outputBatchSize
      ensures output == old(output) + [dim] && outputBatchSize == Product(Reverse(output)) <= Room(output)
    {
      OneMoreOutputDim(output, dim);
      RoomOf(Reverse(output + [dim]));
      RoomReverse(output + [dim]);
      output := output + [dim];
      outputBatchSize := outputBatchSize * dim;
    }

    /** The loop over the axes; `copy` holds the aligned shapes innermost axis first. */
    method CombineAxes(copy: seq<Shape>, rank: nat, fewerDims: bool) returns (prevIsOne: seq<bool>, setOne: bool)
      requires |copy| > 0 && SameRank(copy, rank) && Int32Dims(copy)
      requires reshape == bcast == seq(|copy|, _ => []) && gradReduceIdx == seq(|copy|, _ => [])
      requires valid && result == [] && output == [] && outputBatchSize == 1
      modifies this`valid, this`reshape, this`bcast, this`result, this`output, this`gradReduceIdx, this`outputBatchSize
      ensures valid <==> Compatible(copy, rank)
      ensures valid ==> outputBatchSize == Product(Reverse(output)) && |reshape| == |bcast| == |gradReduceIdx| == |copy|
      ensures valid ==> Kept(State(), output, copy, rank, rank, fewerDims, prevIsOne, setOne)
      ensures valid ==> Room(result) <= Room(output) && Bounded(State(), Room(output))
    {
      NothingCombined(State(), copy, rank, fewerDims);
      NothingMultiplied(State(), output);
      assert forall i | 0 <= i < |copy| :: |copy[i]| == rank;
      hide *;
      prevIsOne, setOne := seq(|copy|, _ => false), false;
      for j := 0 to rank
        invariant valid && outputBatchSize == Product(Reverse(output))
        invariant |output| == j && forall k | 0 <= k < j :: AgreeAt(copy, k)
        invariant Kept(State(), output, copy, j, rank, fewerDims, prevIsOne, setOne)
        invariant Room(result) <= Room(output) && Bounded(State(), Room(output))
      {
        var ok;
        ok, prevIsOne, setOne := TakeAxis(copy, j, rank, fewerDims, prevIsOne, setOne);
        if !ok {
          valid := false;
          Disagrees(copy, rank, j);
          return;
        }
      }
      AllAgree(copy, rank);
      KeptLengths(State(), output, copy, rank, rank, prevIsOne, fewerDims, setOne);
    }

    /** The body of the loop over the axes. */
    method TakeAxis(copy: seq<Shape>, j: nat, rank: nat, fewerDims: bool, prevIsOne: seq<bool>, setOne: bool)
      returns (ok: bool, nextIsOne: seq<bool>, nextSetOne: bool)
      requires SameRank(copy, rank) && j < rank && Int32Dims(copy)
      requires |output| == j && outputBatchSize == Product(Reverse(output)) && Room(result) <= Room(output)
      requires Kept(State(), output, copy, j, rank, fewerDims, prevIsOne, setOne)
      modifies this`reshape, this`bcast, this`result, this`output, this`gradReduceIdx, this`outputBatchSize
      ensures ok <==> AgreeAt(copy, j)
      ensures ok ==> |output| == j + 1 && outputBatchSize == Product(Reverse(output)) <= Room(output)
      ensures ok ==> Kept(State(), output, copy, j + 1, rank, fewerDims, nextIsOne, nextSetOne)
      ensures ok ==> Room(result) <= Room(output) && Bounded(State(), Room(output))
    {
      hide Kept, Product, Column, AgreeAt, Reverse, Room, Bounded, IsOutputDim, ToInt32;
      nextIsOne, nextSetOne := prevIsOne, setOne;
      var outputDimSet, outputDim, isOne;
      ok, outputDimSet, outputDim, isOne := ScanAxis(copy, j);
      if !ok {
        return;
      }
      hide Int32Dims;
      ghost var out, state := output, State();
      var dim: nat := if outputDimSet then outputDim else 1;
      PushOutput(dim);
      assert output[..j] == out && State() == state;
      nextIsOne, nextSetOne := CombineAxis(copy, j, rank, fewerDims, isOne, outputDimSet, dim, prevIsOne, setOne);
    }

    /** After the loop: an empty result becomes [1], and everything is put outermost axis first. */
    method Finish()
      requires |reshape| == |bcast| == |gradReduceIdx|
      modifies this`reshape, this`bcast, this`result, this`output, this`gradReduceIdx
      ensures output == Reverse(old(output)) && Finished(old(State()), State())
    {
      hide Reverse;
      if result == [] {
        result := result + [1];
        for i := 0 to |reshape|
          invariant |reshape| == |bcast| == old(|reshape|) && result == [1]
          invariant output == old(output) && gradReduceIdx == old(gradReduceIdx)
          invariant forall h | 0 <= h < |reshape| ::
              && reshape[h] == (if h < i then old(reshape)[h] + [1] else old(reshape)[h])
              && bcast[h] == (if h < i then old(bcast)[h] + [1] else old(bcast)[h])
        {
          reshape := reshape[i := reshape[i] + [1]];
          bcast := bcast[i := bcast[i] + [1]];
        }
      }
      ghost var before := State();
      for i := 0 to |reshape|
        invariant |reshape| == |bcast| == |gradReduceIdx| == |before.reshape| && result == before.result && output == old(output)
        invariant forall h | 0 <= h < |reshape| ::
            && reshape[h] == (if h < i then Reverse(before.reshape[h]) else before.reshape[h])
            && bcast[h] == (if h < i then Reverse(before.bcast[h]) else before.bcast[h])
            && gradReduceIdx[h] == (if h < i then Reverse(before.grad[h]) else before.grad[h])
      {
        reshape := reshape[i := Reverse(reshape[i])];
        bcast := bcast[i := Reverse(bcast[i])];
        gradReduceIdx := gradReduceIdx[i := Reverse(gradReduceIdx[i])];
      }
      result := Reverse(result);
      output := Reverse(output);
      ReverseOne();
    }
  }

  // ---------------------------------------------------------------- back to outermost-first order

  lemma ReverseOne()
    ensures Reverse([1]) == [1]
  {}

  lemma ReverseTwice<T>(s: seq<T>)
    ensures Reverse(Reverse(s)) == s
  {}

  /** Axis l of the reversed shapes is axis k of the shapes. */
  ghost predicate SameAxis(copy: seq<Shape>, l: nat, aligned: seq<Shape>, k: nat)
  {
    && |copy| == |aligned|
    && forall i | 0 <= i < |copy| :: l < |copy[i]| && k < |aligned[i]| && copy[i][l] == aligned[i][k]
  }

  lemma SameAxisAgrees(copy: seq<Shape>, l: nat, aligned: seq<Shape>, k: nat)
    requires SameAxis(copy, l, aligned, k)
    ensures AgreeAt(copy, l) <==> AgreeAt(aligned, k)
    ensures forall d: nat :: IsOutputDim(copy, l, d) <==> IsOutputDim(aligned, k, d)
    ensures Pattern(copy, l) == Pattern(aligned, k)
  {}

  lemma ReversedAxis(copy: seq<Shape>, aligned: seq<Shape>, rank: nat, k: nat)
    requires |copy| == |aligned| && SameRank(copy, rank) && SameRank(aligned, rank) && k < rank
    requires forall i | 0 <= i < |copy| :: copy[i] == Reverse(aligned[i])
    ensures SameAxis(copy, rank - 1 - k, aligned, k)
  {
    hide Reverse;
  }

  lemma CompatibleReversed(copy: seq<Shape>, aligned: seq<Shape>, rank: nat)
    requires |copy| == |aligned| && SameRank(copy, rank) && SameRank(aligned, rank)
    requires forall i | 0 <= i < |copy| :: copy[i] == Reverse(aligned[i])
    ensures Compatible(copy, rank) <==> Compatible(aligned, rank)
  {
    hide Reverse, AgreeAt;
    forall k: nat | k < rank ensures AgreeAt(copy, rank - 1 - k) <==> AgreeAt(aligned, k) {
      ReversedAxis(copy, aligned, rank, k);
      SameAxisAgrees(copy, rank - 1 - k, aligned, k);
    }
    forall l: nat | l < rank ensures AgreeAt(copy, l) <==> AgreeAt(aligned, rank - 1 - l) {
      assert rank - 1 - (rank - 1 - l) == l;
    }
  }

  lemma OutputReversed(copy: seq<Shape>, aligned: seq<Shape>, output: Shape)
    requires |copy| == |aligned| && SameRank(copy, |output|) && SameRank(aligned, |output|)
    requires forall i | 0 <= i < |copy| :: copy[i] == Reverse(aligned[i])
    requires forall k | 0 <= k < |output| :: IsOutputDim(copy, k, output[k])
    ensures IsBroadcastShape(aligned, Reverse(output))
  {
    hide Reverse, IsOutputDim;
    forall k: nat | k < |output| ensures IsOutputDim(aligned, k, Reverse(output)[k]) {
      OutputDimReversed(copy, aligned, |output|, k, output[|output| - 1 - k]);
    }
  }

  lemma OutputDimReversed(copy: seq<Shape>, aligned: seq<Shape>, rank: nat, k: nat, d: nat)
    requires |copy| == |aligned| && SameRank(copy, rank) && SameRank(aligned, rank) && k < rank
    requires forall i | 0 <= i < |copy| :: copy[i] == Reverse(aligned[i])
    requires IsOutputDim(copy, rank - 1 - k, d)
    ensures IsOutputDim(aligned, k, d)
  {
    hide Reverse;
    ReversedAxis(copy, aligned, rank, k);
    SameAxisAgrees(copy, rank - 1 - k, aligned, k);
  }

  lemma UnitAxesReversed(axes: seq<nat>, copy: Shape, input: Shape)
    requires copy == Reverse(input) && UnitAxesSoFar(axes, copy, |copy|, |copy|)
    ensures IsUnitAxes(input, Reverse(axes))
  {
    hide Reverse;
    var r := Reverse(axes);
    forall p, q | 0 <= p < q < |r| ensures r[p] < r[q] {
      assert r[p] == axes[|axes| - 1 - p] && r[q] == axes[|axes| - 1 - q];
    }
    forall k: nat ensures k in r <==> k < |input| && input[k] == 1 {
      if k in axes {
        var p :| 0 <= p < |axes| && axes[p] == k;
        assert r[|axes| - 1 - p] == k;
      }
      if k in r {
        var p :| 0 <= p < |r| && r[p] == k;
        assert axes[|axes| - 1 - p] == k;
      }
      if k < |input| {
        assert copy[|copy| - 1 - k] == input[k];
      }
    }
  }

  lemma UnitAxesReduceToInput(reshape: Shape, bcast: Shape, input: Shape, output: Shape, axes: seq<nat>)
    requires Represents(reshape, bcast, input, output) && IsUnitAxes(input, axes)
    requires forall k | 0 <= k < |input| :: input[k] == 1 || input[k] == output[k]
    ensures ReducesToInput(reshape, bcast, output, axes)
  {
    forall o1: nat, o2: nat | o1 < Product(output) && o2 < Product(output)
      ensures TileIndex(reshape, bcast, o1) == TileIndex(reshape, bcast, o2)
        <==> (forall k: nat | k < |output| && k !in axes :: Unravel(output, o1)[k] == Unravel(output, o2)[k])
    {
      SameReadIffSameKeptCoordinates(input, output, o1, o2);
      assert forall k: nat | k < |output| :: k !in axes <==> input[k] != 1;
    }
  }

  lemma PatternsReversed(reshape: seq<Shape>, result: Shape, reversed: seq<Shape>)
    requires |reshape| == |reversed| && SameRank(reshape, |result|) && Coalesced(reshape, result)
    requires forall i | 0 <= i < |reshape| :: reversed[i] == Reverse(reshape[i])
    ensures SameRank(reversed, |result|) && Coalesced(reversed, Reverse(result))
  {
    hide Reverse, SameAxis;
    var n := |result|;
    forall k, l | 0 <= k < l < n && l == k + 1 ensures Pattern(reversed, k) != Pattern(reversed, l) {
      PatternReversed(reshape, reversed, n, k);
      PatternReversed(reshape, reversed, n, l);
      assert Pattern(reshape, n - 1 - l) != Pattern(reshape, n - 1 - k);
    }
  }

  lemma PatternReversed(reshape: seq<Shape>, reversed: seq<Shape>, n: nat, k: nat)
    requires |reshape| == |reversed| && SameRank(reshape, n) && SameRank(reversed, n) && k < n
    requires forall i | 0 <= i < |reshape| :: reversed[i] == Reverse(reshape[i])
    ensures Pattern(reversed, k) == Pattern(reshape, n - 1 - k)
  {
    hide Reverse;
    ReversedAxis(reversed, reshape, n, n - 1 - k);
    SameAxisAgrees(reversed, k, reshape, n - 1 - k);
  }

  /** All operands are scalars in effect: one entry of 1 stands for no entry. */
  lemma OnlyOneEntry(input: Shape, output: Shape)
    requires Represents([], [], input, output)
    ensures Represents([1], [1], input, output) && Tiled([1], [1]) == [1]
  {
    TiledCons(1, [], 1, []);
    ProductCons(1, []);
    KeptCons(1, [], 1, []);
    assert [1] + [] == [1];
    forall o: nat | o < Product(output) ensures TileIndex([1], [1], o) == BroadcastIndex(input, output, o) {
      TileIndexAt(1, [], 1, [], 1, 0, 0, 0);
      assert TileIndex([], [], 0) == BroadcastIndex(input, output, 0);
    }
  }

  function Padded(s: Shape, result: Shape): Shape {
    if result == [] then s + [1] else s
  }

  /** One operand's vectors after Finish, given its vectors after the loop. */
  lemma LaneFinished(reshape: Shape, bcast: Shape, copy: Shape, input: Shape, output: Shape, result: Shape)
    requires Lane(reshape, bcast, copy, output, result) && copy == Reverse(input)
    ensures Represents(Reverse(Padded(reshape, result)), Reverse(Padded(bcast, result)), input, Reverse(output))
    ensures Tiled(Reverse(Padded(reshape, result)), Reverse(Padded(bcast, result)))
         == if result == [] then [1] else Reverse(result)
  {
    ReverseTwice(input);
    if result == [] {
      OnlyOneEntry(input, Reverse(output));
      ReverseOne();
      assert reshape + [1] == [1] && bcast + [1] == [1];
    }
  }

  lemma FitsOutput(aligned: seq<Shape>, output: Shape, i: nat)
    requires SameRank(aligned, |output|) && IsBroadcastShape(aligned, output) && i < |aligned|
    ensures forall k | 0 <= k < |output| :: aligned[i][k] == 1 || aligned[i][k] == output[k]
  {}

  /** The effect of Finish on the vectors. */
  ghost predicate Finished(s: Axes, t: Axes) {
    && |s.reshape| == |s.bcast| == |s.grad| == |t.reshape| == |t.bcast| == |t.grad|
    && t.result == (if s.result == [] then [1] else Reverse(s.result))
    && forall i | 0 <= i < |s.reshape| ::
      && t.reshape[i] == Reverse(Padded(s.reshape[i], s.result))
      && t.bcast[i] == Reverse(Padded(s.bcast[i], s.result))
      && t.grad[i] == Reverse(s.grad[i])
  }

  /** What the class promises about operand i. */
  ghost predicate OperandReady(reshape: Shape, bcast: Shape, result: Shape, input: Shape, output: Shape, axes: seq<nat>)
  {
    && Represents(reshape, bcast, input, output)
    && Tiled(reshape, bcast) == result
    && ReducesToInput(reshape, bcast, output, axes)
  }

  lemma OperandFinished(s: Axes, output: Shape, copy: seq<Shape>, aligned: seq<Shape>, rank: nat, i: nat)
    requires |aligned| == |copy| && SameRank(copy, rank) && SameRank(aligned, rank)
    requires forall h | 0 <= h < |copy| :: copy[h] == Reverse(aligned[h])
    requires Combined(s, output, copy, rank, rank) && i < |copy|
    ensures OperandReady(Reverse(Padded(s.reshape[i], s.result)), Reverse(Padded(s.bcast[i], s.result)),
                         if s.result == [] then [1] else Reverse(s.result),
                         aligned[i], Reverse(output), Reverse(s.grad[i]))
    ensures IsUnitAxes(aligned[i], Reverse(s.grad[i]))
  {
    hide Reverse;
    assert copy[i][..rank] == copy[i];
    LaneFinished(s.reshape[i], s.bcast[i], copy[i], aligned[i], output, s.result);
    OutputReversed(copy, aligned, output);
    FitsOutput(aligned, Reverse(output), i);
    UnitAxesReversed(s.grad[i], copy[i], aligned[i]);
    UnitAxesReduceToInput(Reverse(Padded(s.reshape[i], s.result)), Reverse(Padded(s.bcast[i], s.result)),
                          aligned[i], Reverse(output), Reverse(s.grad[i]));
  }

  lemma AllFinished(s: Axes, t: Axes, output: Shape, copy: seq<Shape>, aligned: seq<Shape>, rank: nat,
                    fewerDims: bool, prevIsOne: seq<bool>, setOne: bool)
    requires |aligned| == |copy| && SameRank(copy, rank) && SameRank(aligned, rank)
    requires forall h | 0 <= h < |copy| :: copy[h] == Reverse(aligned[h])
    requires Kept(s, output, copy, rank, rank, fewerDims, prevIsOne, setOne) && Finished(s, t)
    ensures |output| == rank && IsBroadcastShape(aligned, Reverse(output))
    ensures forall i | 0 <= i < |aligned| ::
        OperandReady(t.reshape[i], t.bcast[i], t.result, aligned[i], Reverse(output), t.grad[i])
    ensures forall i | 0 <= i < |aligned| :: IsUnitAxes(aligned[i], t.grad[i])
    ensures fewerDims ==> |t.result| == 1 || (SameRank(t.reshape, |t.result|) && Coalesced(t.reshape, t.result))
    ensures !fewerDims && rank > 0 && |aligned| > 0 ==> t.reshape == aligned
  {
    hide Reverse, OperandReady, IsUnitAxes, Lane, UnitAxesSoFar;
    assert Combined(s, output, copy, rank, rank);
    OutputReversed(copy, aligned, output);
    forall i | 0 <= i < |aligned|
      ensures OperandReady(t.reshape[i], t.bcast[i], t.result, aligned[i], Reverse(output), t.grad[i])
      ensures IsUnitAxes(aligned[i], t.grad[i])
    {
      OperandFinished(s, output, copy, aligned, rank, i);
    }
    if fewerDims {
      if s.result != [] {
        PatternsReversed(s.reshape, s.result, t.reshape);
      }
    } else if rank > 0 && |aligned| > 0 {
      LanesUnmerged(s, t, output, copy, aligned, rank);
    }
  }

  lemma LanesUnmerged(s: Axes, t: Axes, output: Shape, copy: seq<Shape>, aligned: seq<Shape>, rank: nat)
    requires |aligned| == |copy| > 0 && SameRank(copy, rank) && SameRank(aligned, rank) && rank > 0
    requires forall h | 0 <= h < |copy| :: copy[h] == Reverse(aligned[h])
    requires Combined(s, output, copy, rank, rank) && Finished(s, t)
    requires forall i | 0 <= i < |copy| :: s.reshape[i] == copy[i][..rank]
    ensures t.reshape == aligned
  {
    hide Reverse, Represents, UnitAxesSoFar;
    assert |s.result| == |s.reshape[0]| == rank by {
      assert Lane(s.reshape[0], s.bcast[0], copy[0][..rank], output, s.result);
    }
    forall i | 0 <= i < |copy| ensures t.reshape[i] == aligned[i] {
      assert copy[i][..rank] == copy[i];
      ReverseTwice(aligned[i]);
    }
  }

  lemma IdenticalOperands(x: seq<Shape>)
    requires |x| > 0 && AllEqual(x)
    ensures MaxRank(x) == |x[0]| && AlignAll(x) == x
    ensures Compatible(x, |x[0]|) && IsBroadcastShape(x, x[0])
    ensures OperandReady([Product(x[0])], [1], [Product(x[0])], x[0], x[0], [])
  {
    IdenticalShapes(x[0]);
  }

  /** Identical shapes: every operand, seen as a vector, is read in order. */
  lemma IdenticalShapes(x: Shape)
    ensures Represents([Product(x)], [1], x, x) && Tiled([Product(x)], [1]) == [Product(x)]
    ensures ReducesToInput([Product(x)], [1], x, [])
  {
    var n := Product(x);
    TiledCons(n, [], 1, []);
    ProductCons(n, []);
    KeptCons(n, [], 1, []);
    assert [n] + [] == [n] && [1] + [] == [1];
    forall o: nat | o < n ensures TileIndex([n], [1], o) == BroadcastIndex(x, x, o) == o {
      TileIndexAt(n, [], 1, [], 1, o, 0, o);
      DivModUnique(o, n, 0, o);
      FullSizeInputIsReadInOrder(x, x, o);
    }
    forall o1: nat, o2: nat | o1 < n && o2 < n
      ensures o1 == o2 <==> (forall k: nat | k < |x| && k !in [] :: Unravel(x, o1)[k] == Unravel(x, o2)[k])
    {
      UnravelRavel(x, o1);
      UnravelRavel(x, o2);
      assert Unravel(x, o1) == Unravel(x, o2)
        <==> (forall k: nat | k < |x| :: Unravel(x, o1)[k] == Unravel(x, o2)[k]);
    }
  }

  lemma NothingMultiplied(s: Axes, output: Shape)
    requires output == [] && s.result == [] && |s.reshape| == |s.bcast|
    requires forall i | 0 <= i < |s.reshape| :: s.reshape[i] == s.bcast[i] == []
    ensures Room(s.result) <= Room(output) && Bounded(s, Room(output)) && Product(Reverse(output)) == 1
  {}

  lemma AllAgree(copy: seq<Shape>, rank: nat)
    requires SameRank(copy, rank) && forall k | 0 <= k < rank :: AgreeAt(copy, k)
    ensures Compatible(copy, rank)
  {}

  lemma Disagrees(copy: seq<Shape>, rank: nat, k: nat)
    requires SameRank(copy, rank) && k < rank && !AgreeAt(copy, k)
    ensures !Compatible(copy, rank)
  {}

  lemma TurnInRoom(s: Axes, t: Axes, output: Shape, copy: seq<Shape>, j: nat, rank: nat, fewerDims: bool,
                   prevIsOne: seq<bool>, setOne: bool)
    requires SameRank(copy, rank) && j < rank && |output| == j + 1
    requires Kept(t, output, copy, j + 1, rank, fewerDims, prevIsOne, setOne) && Room(s.result) <= Room(output[..j])
    requires || t.result == s.result + [output[j]] || (|s.result| > 0 && t.result == ScaleLast(s.result, output[j]))
             || (output[j] == 1 && t.result == s.result)
    ensures Room(t.result) <= Room(output) && Bounded(t, Room(output))
  {
    hide Room, Combined;
    assert output == output[..j] + [output[j]] && Combined(t, output, copy, j + 1, rank);
    AxisInRoom(s.result, t.result, output[..j], output[j]);
    LanesInRoom(t, output, copy, j + 1, rank);
  }

  lemma FinishedInRoom(s: Axes, t: Axes, output: Shape)
    requires Bounded(s, Room(output)) && Finished(s, t)
    ensures Bounded(t, Room(Reverse(output)))
  {
    hide Room, Reverse;
    RoomReverse(output);
    ReverseOne();
  }

  lemma OutputInRoom(output: Shape)
    ensures AtMost(output, Room(output)) && Product(output) <= Room(output)
  {
    RoomOf(output);
  }

  lemma OneMoreOutputDim(output: Shape, dim: nat)
    ensures Product(Reverse(output + [dim])) == Product(Reverse(output)) * dim
  {
    ReverseSnoc(output, dim);
    ProductCons(dim, Reverse(output));
  }
}
