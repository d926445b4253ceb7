/**
 The filter composition graph and the factories of `FilterContents` that
 assemble it: the blend fold, the separable Gaussian blur and the
 border-mask blur.
 */
module Filters {
  import opened Wrappers
  import opened Geometry

  /**
   The underlying value of the blend-mode enumeration. Modes up to
   `LastPipelineBlendMode` are hardware-native, modes above it up to
   `LastAdvancedBlendMode` need a shader pass, and larger values are invalid.
   The values are those of kModulate and kColorBurn in the enumeration;
   no proof depends on them beyond their use in the guards.
   */
  type BlendMode = int

  const LastPipelineBlendMode: BlendMode := 13
  const LastAdvancedBlendMode: BlendMode := 15

  datatype BlurStyle = Normal | Solid | Outer | Inner

  /** A blur radius parameter; its conversion to a kernel radius is not modelled. */
  datatype Sigma = Sigma(sigma: real)

  /**
   An edge of the graph: either a concrete source (a texture or another
   contents object) whose coverage is already known, or another filter node.
   */
  datatype FilterInput =
    | Leaf(source: nat, coverage: Option<Rect>)
    | Filter(node: FilterNode)

  /** A filter node: its ordered inputs and its kind-specific parameters. */
  datatype FilterNode =
    | BlendNode(inputs: seq<FilterInput>, blendMode: BlendMode)
    | DirectionalBlurNode(inputs: seq<FilterInput>, sigma: Sigma, direction: Vector2,
                          blurStyle: BlurStyle, sourceOverride: Option<FilterInput>)
    | BorderMaskBlurNode(inputs: seq<FilterInput>, sigmaX: Sigma, sigmaY: Sigma,
                         blurStyle: BlurStyle)

  /** Replaces a node's input list and keeps every parameter. */
  function SetInputs(node: FilterNode, inputs: seq<FilterInput>): (r: FilterNode)
    ensures r.inputs == inputs
    ensures r.(inputs := node.inputs) == node
  {
    node.(inputs := inputs)
  }

  /** Setting inputs twice keeps only the second list; restoring the old list restores the node. */
  lemma SetInputsLastWins(node: FilterNode, first: seq<FilterInput>, second: seq<FilterInput>)
    ensures SetInputs(SetInputs(node, first), second) == SetInputs(node, second)
    ensures SetInputs(SetInputs(node, first), node.inputs) == node
  {
  }

  /**
   The reference left fold: `acc` blended with each element of `rest` in
   turn, every step a binary blend node with operands `{acc, next}`.
   */
  function FoldBlend(blendMode: BlendMode, acc: FilterInput, rest: seq<FilterInput>): FilterInput
    decreases |rest|
  {
    if |rest| == 0 then acc
    else FoldBlend(blendMode, Filter(BlendNode([acc, rest[0]], blendMode)), rest[1..])
  }

  /** Folding one more input wraps the previous fold as the left operand. */
  lemma {:induction false} FoldBlendSnoc(blendMode: BlendMode, acc: FilterInput,
                                         rest: seq<FilterInput>, last: FilterInput)
    ensures FoldBlend(blendMode, acc, rest + [last])
         == Filter(BlendNode([FoldBlend(blendMode, acc, rest), last], blendMode))
    decreases |rest|
  {
    if |rest| == 0 {
      assert (rest + [last])[1..] == [];
    } else {
      var acc' := Filter(BlendNode([acc, rest[0]], blendMode));
      assert (rest + [last])[1..] == rest[1..] + [last];
      FoldBlendSnoc(blendMode, acc', rest[1..], last);
    }
  }

  /** Descends `depth` times into the first operand of a blend chain. */
  function LeftSpine(input: FilterInput, depth: nat): FilterInput
    decreases depth
  {
    if depth == 0 then input
    else match input
      case Filter(BlendNode(ops, _)) =>
        if |ops| == 0 then input else LeftSpine(ops[0], depth - 1)
      case _ => input
  }

  /**
   The fold of `rest` onto `acc` is a chain of |rest| binary blend nodes:
   the node `depth` steps below the root blends the node below it (or `acc`
   at the bottom) with `rest[|rest| - 1 - depth]`, and every node carries
   the requested mode.
   */
  lemma {:induction false} FoldBlendShape(blendMode: BlendMode, acc: FilterInput,
                                          rest: seq<FilterInput>, depth: nat)
    requires depth < |rest|
    ensures LeftSpine(FoldBlend(blendMode, acc, rest), depth).Filter?
    ensures LeftSpine(FoldBlend(blendMode, acc, rest), depth).node
         == BlendNode([if depth == |rest| - 1 then acc
                       else LeftSpine(FoldBlend(blendMode, acc, rest), depth + 1),
                       rest[|rest| - 1 - depth]], blendMode)
    decreases |rest|
  {
    var n := |rest|;
    var front := rest[..n - 1];
    assert rest == front + [rest[n - 1]];
    FoldBlendSnoc(blendMode, acc, front, rest[n - 1]);
    var below := FoldBlend(blendMode, acc, front);
    if depth == 0 {
      if n == 1 {
        assert FoldBlend(blendMode, acc, front) == acc;
      }
    } else {
      FoldBlendShape(blendMode, acc, front, depth - 1);
      assert front[|front| - 1 - (depth - 1)] == rest[n - 1 - depth];
    }
  }

  /**
   Folds over inputs of the same length are equal only when their
   operands are equal: the fold keeps every input, in order.
   */
  lemma {:induction false} FoldBlendInjective(blendMode: BlendMode, a: FilterInput, s: seq<FilterInput>,
                                              b: FilterInput, t: seq<FilterInput>)
    requires |s| == |t|
    requires FoldBlend(blendMode, a, s) == FoldBlend(blendMode, b, t)
    ensures a == b && s == t
    decreases |s|
  {
    if |s| > 0 {
      FoldBlendInjective(blendMode, Filter(BlendNode([a, s[0]], blendMode)), s[1..],
                         Filter(BlendNode([b, t[0]], blendMode)), t[1..]);
      assert s == [s[0]] + s[1..] && t == [t[0]] + t[1..];
    }
  }

  /**
   Builds the blend graph for `inputs`. An out-of-range mode yields no node;
   a pipeline mode, or fewer than two inputs, yields one N-ary blend node; an
   advanced mode folds the inputs pairwise from the left.
   */
  method MakeBlend(blendMode: BlendMode, inputs: seq<FilterInput>) returns (r: Option<FilterNode>)
    ensures r.None? <==> blendMode > LastAdvancedBlendMode
    ensures blendMode <= LastAdvancedBlendMode
            && (|inputs| < 2 || blendMode <= LastPipelineBlendMode)
            ==> r == Some(BlendNode(inputs, blendMode))
    ensures LastPipelineBlendMode < blendMode <= LastAdvancedBlendMode && |inputs| >= 2
            ==> && r.Some?
                && Filter(r.value) == FoldBlend(blendMode, inputs[0], inputs[1..])
                && r.value.BlendNode? && r.value.blendMode == blendMode
                && |r.value.inputs| == 2 && r.value.inputs[1] == inputs[|inputs| - 1]
  {
    if blendMode > LastAdvancedBlendMode {
      return None;
    }

    if |inputs| < 2 || blendMode <= LastPipelineBlendMode {
      return Some(BlendNode(inputs, blendMode));
    }

    if blendMode <= LastAdvancedBlendMode {
      var blendInput := inputs[0];
      var newBlend: Option<FilterNode> := None;
      var i := 1;
      while i < |inputs|
        invariant 1 <= i <= |inputs|
        invariant newBlend.None? <==> i == 1
        invariant i < |inputs| ==> blendInput == FoldBlend(blendMode, inputs[0], inputs[1..i])
        invariant newBlend.Some? ==>
          && Filter(newBlend.value) == FoldBlend(blendMode, inputs[0], inputs[1..i])
          && newBlend.value.BlendNode?
          && |newBlend.value.inputs| == 2
          && newBlend.value.inputs[1] == inputs[i - 1]
          && newBlend.value.blendMode == blendMode
      {
        newBlend := Some(BlendNode([blendInput, inputs[i]], blendMode));
        assert inputs[1..i + 1] == inputs[1..i] + [inputs[i]];
        FoldBlendSnoc(blendMode, inputs[0], inputs[1..i], inputs[i]);
        if i < |inputs| - 1 {
          blendInput := Filter(newBlend.value);
        }
        i := i + 1;
      }
      // The loop ran at least once because there are two or more inputs.
      assert inputs[1..i] == inputs[1..];
      return Some(newBlend.value);
    }

    // Every mode was sent down one of the branches above.
    assert false;
  }

  /** A single blur pass along `direction`, over the sole input `input`. */
  function MakeDirectionalGaussianBlur(input: FilterInput, sigma: Sigma, direction: Vector2,
                                       blurStyle: BlurStyle,
                                       sourceOverride: Option<FilterInput> := None): (r: FilterNode)
    ensures r.DirectionalBlurNode? && r.inputs == [input]
    ensures r.sigma == sigma && r.direction == direction
    ensures r.blurStyle == blurStyle && r.sourceOverride == sourceOverride
  {
    DirectionalBlurNode([input], sigma, direction, blurStyle, sourceOverride)
  }

  /**
   A 2-D Gaussian blur as two passes: horizontal over `input` in the normal
   style, then vertical over the horizontal pass, in the caller's style,
   sampling edges from the original `input`.
   */
  function MakeGaussianBlur(input: FilterInput, sigmaX: Sigma, sigmaY: Sigma,
                            blurStyle: BlurStyle): (r: FilterNode)
    ensures r.DirectionalBlurNode? && |r.inputs| == 1
    ensures r.sigma == sigmaY && r.direction == Point(0, 1) && r.blurStyle == blurStyle
    ensures r.sourceOverride == Some(input)
    ensures r.inputs[0].Filter? && r.inputs[0].node
         == DirectionalBlurNode([input], sigmaX, Point(1, 0), Normal, None)
  {
    var xBlur := MakeDirectionalGaussianBlur(input, sigmaX, Point(1, 0), Normal);
    MakeDirectionalGaussianBlur(Filter(xBlur), sigmaY, Point(0, 1), blurStyle, Some(input))
  }

  /**
   The second pass samples edges from the original input, never from the
   intermediate horizontal pass it blurs.
   */
  lemma GaussianBlurOverrideIsOriginal(input: FilterInput, sigmaX: Sigma, sigmaY: Sigma,
                                       blurStyle: BlurStyle)
    ensures var r := MakeGaussianBlur(input, sigmaX, sigmaY, blurStyle);
            r.sourceOverride != Some(r.inputs[0])
  {
  }

  /** The separable decomposition keeps every argument: it can be read back. */
  lemma GaussianBlurInjective(input: FilterInput, sigmaX: Sigma, sigmaY: Sigma, blurStyle: BlurStyle,
                              input': FilterInput, sigmaX': Sigma, sigmaY': Sigma, blurStyle': BlurStyle)
    requires MakeGaussianBlur(input, sigmaX, sigmaY, blurStyle)
          == MakeGaussianBlur(input', sigmaX', sigmaY', blurStyle')
    ensures input == input' && sigmaX == sigmaX' && sigmaY == sigmaY' && blurStyle == blurStyle'
  {
  }

  /** A single border-mask blur node over the sole input `input`. */
  function MakeBorderMaskBlur(input: FilterInput, sigmaX: Sigma, sigmaY: Sigma,
                              blurStyle: BlurStyle): (r: FilterNode)
    ensures r.BorderMaskBlurNode? && r.inputs == [input]
    ensures r.sigmaX == sigmaX && r.sigmaY == sigmaY && r.blurStyle == blurStyle
  {
    BorderMaskBlurNode([input], sigmaX, sigmaY, blurStyle)
  }
}
