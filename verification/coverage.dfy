/**
 The default coverage of a filter node. `GetCoverage` follows the source as
 written, whose fold step unions the running result with itself; the
 corrected `UnionCoverage` unions the running result with each input's
 coverage, as the source's comment describes.
 */
module Coverage {
  import opened Wrappers
  import opened Geometry
  import opened Filters

  // ---------------------------------------------------------------------------
  // As written
  // ---------------------------------------------------------------------------

  /** One iteration of the coverage loop as written: a later coverage is ignored. */
  function StepAsWritten(result: Option<Rect>, coverage: Option<Rect>): Option<Rect>
  {
    if coverage.None? then result
    else if result.None? then coverage
    else Some(Union(result.value, result.value))
  }

  /** The coverage an input reports when nested nodes use the loop as written. */
  function InputCoverage(input: FilterInput): Option<Rect>
    decreases input
  {
    match input
    case Leaf(_, coverage) => coverage
    case Filter(node) => GetCoverage(node)
  }

  /** The coverage loop as written, over `inputs` from the running `result`. */
  function FoldAsWritten(result: Option<Rect>, inputs: seq<FilterInput>): Option<Rect>
    decreases inputs
  {
    if |inputs| == 0 then result
    else FoldAsWritten(StepAsWritten(result, InputCoverage(inputs[0])), inputs[1..])
  }

  /** The default coverage of a node, as written. */
  function GetCoverage(node: FilterNode): Option<Rect>
    decreases node
  {
    if |node.inputs| == 0 then None
    else FoldAsWritten(None, node.inputs)
  }

  /** The coverage of the first input in `inputs` that has one. */
  function FirstPresent(inputs: seq<FilterInput>): Option<Rect>
  {
    if |inputs| == 0 then None
    else if InputCoverage(inputs[0]).Some? then InputCoverage(inputs[0])
    else FirstPresent(inputs[1..])
  }

  /** Once the loop holds a coverage it keeps it; before that it picks the first present one. */
  lemma {:induction false} FoldAsWrittenKeepsFirst(result: Option<Rect>, inputs: seq<FilterInput>)
    ensures FoldAsWritten(result, inputs)
         == if result.Some? then result else FirstPresent(inputs)
    decreases inputs
  {
    if |inputs| > 0 {
      if result.Some? {
        UnionIdempotent(result.value);
      }
      FoldAsWrittenKeepsFirst(StepAsWritten(result, InputCoverage(inputs[0])), inputs[1..]);
    }
  }

  lemma {:induction false} FirstPresentSpec(inputs: seq<FilterInput>)
    ensures FirstPresent(inputs).None?
        <==> forall i :: 0 <= i < |inputs| ==> InputCoverage(inputs[i]).None?
    ensures forall k :: 0 <= k < |inputs| && InputCoverage(inputs[k]).Some?
                        && (forall j :: 0 <= j < k ==> InputCoverage(inputs[j]).None?)
                        ==> FirstPresent(inputs) == InputCoverage(inputs[k])
    decreases inputs
  {
    if |inputs| > 0 {
      FirstPresentSpec(inputs[1..]);
      assert forall i :: 1 <= i < |inputs| ==> inputs[i] == inputs[1..][i - 1];
    }
  }

  /**
   As written, a node's coverage is absent exactly when the node has no
   inputs or no input has a coverage, and otherwise it is the coverage of
   the first input that has one: later coverages are never united in.
   */
  lemma GetCoverageIsFirstPresent(node: FilterNode)
    ensures GetCoverage(node) == FirstPresent(node.inputs)
    ensures GetCoverage(node).None?
        <==> forall i :: 0 <= i < |node.inputs| ==> InputCoverage(node.inputs[i]).None?
    ensures forall k :: 0 <= k < |node.inputs| && InputCoverage(node.inputs[k]).Some?
                        && (forall j :: 0 <= j < k ==> InputCoverage(node.inputs[j]).None?)
                        ==> GetCoverage(node) == InputCoverage(node.inputs[k])
  {
    FoldAsWrittenKeepsFirst(None, node.inputs);
    FirstPresentSpec(node.inputs);
  }

  // ---------------------------------------------------------------------------
  // Corrected: the union of the inputs' coverages
  // ---------------------------------------------------------------------------

  /** One iteration of the corrected loop: absent coverages are skipped, present ones united. */
  function StepUnion(result: Option<Rect>, coverage: Option<Rect>): Option<Rect>
  {
    if coverage.None? then result
    else if result.None? then coverage
    else Some(Union(result.value, coverage.value))
  }

  /** The coverage an input reports when nested nodes use the corrected loop. */
  function UnionInputCoverage(input: FilterInput): Option<Rect>
    decreases input
  {
    match input
    case Leaf(_, coverage) => coverage
    case Filter(node) => UnionCoverage(node)
  }

  /** The corrected coverage loop over `inputs` from the running `result`. */
  function FoldUnion(result: Option<Rect>, inputs: seq<FilterInput>): Option<Rect>
    decreases inputs
  {
    if |inputs| == 0 then result
    else FoldUnion(StepUnion(result, UnionInputCoverage(inputs[0])), inputs[1..])
  }

  /** The default coverage of a node: the union of its inputs' coverages. */
  function UnionCoverage(node: FilterNode): Option<Rect>
    decreases node
  {
    if |node.inputs| == 0 then None
    else FoldUnion(None, node.inputs)
  }

  /** Every coverage the corrected loop sees ends up inside its result. */
  lemma {:induction false} FoldUnionBounds(result: Option<Rect>, inputs: seq<FilterInput>)
    ensures FoldUnion(result, inputs).None?
        <==> result.None? && forall i :: 0 <= i < |inputs| ==> UnionInputCoverage(inputs[i]).None?
    ensures result.Some? ==> Contains(FoldUnion(result, inputs).value, result.value)
    ensures forall i :: 0 <= i < |inputs| && UnionInputCoverage(inputs[i]).Some?
                        ==> Contains(FoldUnion(result, inputs).value, UnionInputCoverage(inputs[i]).value)
    decreases inputs
  {
    if |inputs| > 0 {
      var next := StepUnion(result, UnionInputCoverage(inputs[0]));
      FoldUnionBounds(next, inputs[1..]);
      assert forall i :: 1 <= i < |inputs| ==> inputs[i] == inputs[1..][i - 1];
      if result.Some? && next.Some? {
        ContainsTransitive(FoldUnion(next, inputs[1..]).value, next.value, result.value);
      }
      if UnionInputCoverage(inputs[0]).Some? {
        ContainsTransitive(FoldUnion(next, inputs[1..]).value, next.value,
                           UnionInputCoverage(inputs[0]).value);
      }
    } else {
      if result.Some? {
        ContainsReflexive(result.value);
      }
    }
  }

  /** A rectangle holding the start value and every input's coverage holds the corrected result. */
  lemma {:induction false} FoldUnionLeast(result: Option<Rect>, inputs: seq<FilterInput>, bound: Rect)
    requires result.Some? ==> Contains(bound, result.value)
    requires forall i :: 0 <= i < |inputs| && UnionInputCoverage(inputs[i]).Some?
                         ==> Contains(bound, UnionInputCoverage(inputs[i]).value)
    ensures FoldUnion(result, inputs).Some? ==> Contains(bound, FoldUnion(result, inputs).value)
    decreases inputs
  {
    if |inputs| > 0 {
      assert forall i :: 1 <= i < |inputs| ==> inputs[i] == inputs[1..][i - 1];
      FoldUnionLeast(StepUnion(result, UnionInputCoverage(inputs[0])), inputs[1..], bound);
    }
  }

  /**
   The corrected coverage of a node is absent exactly when every input's
   coverage is, and otherwise it holds every input's coverage.
   */
  lemma UnionCoverageBounds(node: FilterNode)
    ensures UnionCoverage(node).None?
        <==> forall i :: 0 <= i < |node.inputs| ==> UnionInputCoverage(node.inputs[i]).None?
    ensures forall i :: 0 <= i < |node.inputs| && UnionInputCoverage(node.inputs[i]).Some?
                        ==> Contains(UnionCoverage(node).value, UnionInputCoverage(node.inputs[i]).value)
  {
    FoldUnionBounds(None, node.inputs);
  }

  /** The corrected coverage is the smallest rectangle holding every input's coverage. */
  lemma UnionCoverageIsLeast(node: FilterNode, bound: Rect)
    requires forall i :: 0 <= i < |node.inputs| && UnionInputCoverage(node.inputs[i]).Some?
                         ==> Contains(bound, UnionInputCoverage(node.inputs[i]).value)
    ensures UnionCoverage(node).Some? ==> Contains(bound, UnionCoverage(node).value)
  {
    FoldUnionLeast(None, node.inputs, bound);
  }

  /**
   The defect changes the extent of a coverage but never whether there is
   one: at every depth of the graph both loops report absence together.
   */
  lemma {:induction false} InputAbsenceAgrees(input: FilterInput)
    ensures InputCoverage(input).None? <==> UnionInputCoverage(input).None?
    decreases input
  {
    match input
    case Leaf(_, _) =>
    case Filter(node) => AbsenceAgrees(node);
  }

  lemma {:induction false} AbsenceAgrees(node: FilterNode)
    ensures GetCoverage(node).None? <==> UnionCoverage(node).None?
    decreases node
  {
    forall i | 0 <= i < |node.inputs|
      ensures InputCoverage(node.inputs[i]).None? <==> UnionInputCoverage(node.inputs[i]).None?
    {
      InputAbsenceAgrees(node.inputs[i]);
    }
    GetCoverageIsFirstPresent(node);
    UnionCoverageBounds(node);
  }

  /**
   As written, a later input's coverage is dropped: when the first present
   coverage `a` of a node does not contain the coverage `b` of a later leaf
   input, the node's coverage is `a` and misses `b`, while the corrected
   union holds `b`.
   */
  lemma CoverageDropsLaterInputs(node: FilterNode, j: nat, k: nat, a: Rect, b: Rect)
    requires j < k < |node.inputs|
    requires forall i :: 0 <= i < j ==> InputCoverage(node.inputs[i]).None?
    requires InputCoverage(node.inputs[j]) == Some(a)
    requires node.inputs[k].Leaf? && node.inputs[k].coverage == Some(b)
    requires !Contains(a, b)
    ensures GetCoverage(node) == Some(a)
    ensures !Contains(GetCoverage(node).value, b)
    ensures UnionCoverage(node).Some? && Contains(UnionCoverage(node).value, b)
  {
    GetCoverageIsFirstPresent(node);
    UnionCoverageBounds(node);
  }

  /** The coverages of a node over two leaves with known coverages. */
  lemma TwoLeafCoverages(a: Rect, b: Rect, blendMode: BlendMode)
    ensures var node := BlendNode([Leaf(0, Some(a)), Leaf(1, Some(b))], blendMode);
            GetCoverage(node) == Some(a) && UnionCoverage(node) == Some(Union(a, b))
  {
    var inputs := [Leaf(0, Some(a)), Leaf(1, Some(b))];
    var node := BlendNode(inputs, blendMode);
    GetCoverageIsFirstPresent(node);
    assert inputs[1..] == [Leaf(1, Some(b))] && inputs[1..][1..] == [];
    assert FoldUnion(None, inputs) == FoldUnion(Some(a), inputs[1..]);
  }

  /** Two disjoint unit squares meet the conditions of `CoverageDropsLaterInputs`. */
  lemma CoverageDropsWitness()
    ensures var a := Rect(Point(0, 0), Size(1, 1));
            var b := Rect(Point(2, 2), Size(1, 1));
            var node := BlendNode([Leaf(0, Some(a)), Leaf(1, Some(b))], 3);
            && GetCoverage(node) == Some(a)
            && !Contains(a, b)
            && UnionCoverage(node) == Some(Rect(Point(0, 0), Size(3, 3)))
  {
    var a := Rect(Point(0, 0), Size(1, 1));
    var b := Rect(Point(2, 2), Size(1, 1));
    TwoLeafCoverages(a, b, 3);
    assert Union(a, b) == Rect(Point(0, 0), Size(3, 3));
  }

  // ---------------------------------------------------------------------------
  // Coverage of the blend fold
  // ---------------------------------------------------------------------------

  /** As written, the fold chain's coverage is the first present coverage among its operands. */
  lemma {:induction false} FoldBlendFirstPresent(blendMode: BlendMode, acc: FilterInput,
                                                 rest: seq<FilterInput>)
    ensures InputCoverage(FoldBlend(blendMode, acc, rest)) == FirstPresent([acc] + rest)
    decreases |rest|
  {
    assert ([acc] + rest)[0] == acc && ([acc] + rest)[1..] == rest;
    if |rest| > 0 {
      var pair := BlendNode([acc, rest[0]], blendMode);
      FoldBlendFirstPresent(blendMode, Filter(pair), rest[1..]);
      GetCoverageIsFirstPresent(pair);
      assert pair.inputs[1..] == [rest[0]] && [rest[0]][1..] == [];
      assert ([Filter(pair)] + rest[1..])[1..] == rest[1..];
      assert rest == [rest[0]] + rest[1..];
    }
  }

  /** With the corrected loop, folding one input at a time is the same as one loop over all inputs. */
  lemma {:induction false} FoldBlendUnion(blendMode: BlendMode, acc: FilterInput,
                                          rest: seq<FilterInput>)
    ensures UnionInputCoverage(FoldBlend(blendMode, acc, rest))
         == FoldUnion(UnionInputCoverage(acc), rest)
    decreases |rest|
  {
    if |rest| > 0 {
      var pair := BlendNode([acc, rest[0]], blendMode);
      FoldBlendUnion(blendMode, Filter(pair), rest[1..]);
      assert pair.inputs[1..] == [rest[0]] && [rest[0]][1..] == [];
      var step := StepUnion(UnionInputCoverage(acc), UnionInputCoverage(rest[0]));
      assert FoldUnion(StepUnion(None, UnionInputCoverage(acc)), pair.inputs[1..])
          == FoldUnion(step, []);
      assert UnionCoverage(pair) == FoldUnion(None, pair.inputs);
      assert pair.inputs[0] == acc;
      assert FoldUnion(None, pair.inputs)
          == FoldUnion(StepUnion(None, UnionInputCoverage(acc)), pair.inputs[1..]);
      assert UnionInputCoverage(Filter(pair)) == step;
    }
  }

  /**
   Folding an advanced blend pairwise does not move its coverage: the chain
   covers what a single blend node over all the inputs covers, both as
   written and with the corrected union.
   */
  lemma BlendFoldKeepsCoverage(blendMode: BlendMode, inputs: seq<FilterInput>)
    requires |inputs| >= 1
    ensures InputCoverage(FoldBlend(blendMode, inputs[0], inputs[1..]))
         == GetCoverage(BlendNode(inputs, blendMode))
    ensures UnionInputCoverage(FoldBlend(blendMode, inputs[0], inputs[1..]))
         == UnionCoverage(BlendNode(inputs, blendMode))
  {
    assert inputs == [inputs[0]] + inputs[1..];
    FoldBlendFirstPresent(blendMode, inputs[0], inputs[1..]);
    GetCoverageIsFirstPresent(BlendNode(inputs, blendMode));
    FoldBlendUnion(blendMode, inputs[0], inputs[1..]);
  }
}
