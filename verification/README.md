# Filter composition graph

A model of the filter layer of the Impeller renderer (`FilterContents`): the
graph of filter nodes joined by filter inputs, the factories that build it
(the blend fold, the separable Gaussian blur, the border-mask blur), the
default coverage computation, and the snapshot and render protocol.

- `wrappers.dfy` — `Option`, standing for `std::optional` and null pointers.
- `geometry.dfy` — integer points, non-negative sizes, rectangles, `Contains`,
  `Union` and the algebra of union the proofs use.
- `filters.dfy` — `FilterInput` (a leaf with a known optional coverage, or a
  nested node) and `FilterNode` (blend, directional blur, border-mask blur);
  `SetInputs`; the factories. `MakeBlend` is a method with the source's loop;
  `FoldBlend` is the textbook left fold it is proved against.
- `coverage.dfy` — `GetCoverage` as written and the corrected `UnionCoverage`,
  with their characterisations and the coverage of the blend fold.
- `rendering.dfy` — `RenderToSnapshot` and `Render` over a renderer oracle
  whose `makeSubpass` returns an optional texture and whose `drawTexture`
  returns whether drawing succeeded. A pass is the sequence of draw calls
  submitted to it. The protocol is written once for a given coverage
  (`SnapshotWithin`, `RenderWithin`) and instantiated with the coverage as
  written (`RenderToSnapshot`, `Render`) and with the corrected union
  (`RenderCorrected`).

The blend-mode enumeration is modelled by its underlying integer, with the
thresholds `LastPipelineBlendMode` (13, kModulate) and `LastAdvancedBlendMode`
(15, kColorBurn); `entity.h` is not part of this model. The proofs do not
depend on these values beyond the guards that use them.

The source's comment on `GetCoverage` promises the union of the inputs'
coverages, but the loop unions the running result with itself (see
Findings). `GetCoverage` models the loop as written, and `Render` and
`RenderToSnapshot` use it as the source does; `UnionCoverage` is the
corrected loop and `RenderCorrected` the protocol on it. The two coverages
agree on whether a coverage exists at all (`Coverage.AbsenceAgrees`), but
not on its extent or on whether it has area, so the defect changes the
size and placement of the snapshot and can turn a render that should
succeed into a failure (`Rendering.EmptyFirstCoverageFailsRender`,
`Rendering.RenderDropsLaterArea`, `Rendering.RenderDefectWitness`).

## Model

| member | source | states |
|---|---|---|
| `Filters.MakeBlend` | entity/contents/filters/filter_contents.cc:30-63 | No node exactly when the mode is above the last advanced mode; one N-ary blend node holding all inputs in order with the requested mode when there are fewer than two inputs or the mode is a pipeline mode; otherwise the left fold of the inputs, whose root is a binary blend node with the requested mode and the last input as second operand. The final `assert false` proves the unreachable statement dead, and the loop always assigns the node it returns. |
| `Filters.FoldBlend` | entity/contents/filters/filter_contents.cc:47-59 | No contract of its own: the reference left fold `blend(…blend(acc, rest[0])…, rest[n−1])` that `MakeBlend`'s loop is proved equal to; characterised by `FoldBlendShape` and `FoldBlendInjective`. |
| `Filters.FoldBlendSnoc` | entity/contents/filters/filter_contents.cc:50-57 | Folding one more input wraps the previous fold as the left operand of a new binary blend node: the step the source's loop takes. |
| `Filters.FoldBlendShape` | entity/contents/filters/filter_contents.cc:47-59 | The fold of n inputs is a chain of n−1 binary blend nodes, all with the requested mode: the node k steps below the root blends the node beneath it with input n−1−k, and the bottom node blends the first two inputs. |
| `Filters.FoldBlendInjective` | entity/contents/filters/filter_contents.cc:50-57 | Two folds over equally many inputs are equal only if the inputs are equal in the same order: operand order is preserved, so swapping two inputs yields a different graph. |
| `Filters.SetInputs` | entity/contents/filters/filter_contents.cc:108-110 | The node's inputs become the given list and every other parameter is unchanged. |
| `Filters.SetInputsLastWins` | entity/contents/filters/filter_contents.cc:108-110 | Setting inputs twice keeps only the second list; setting the old list back restores the node. |
| `Filters.MakeDirectionalGaussianBlur` | entity/contents/filters/filter_contents.cc:65-78 | A directional blur node whose sole input is the argument and whose sigma, direction, style and source override are the parameters. |
| `Filters.MakeGaussianBlur` | entity/contents/filters/filter_contents.cc:80-90 | A vertical pass (sigma_y, direction (0,1), caller's style, source override the original input) whose sole input is a horizontal pass (sigma_x, direction (1,0), normal style, no override) over the original input. |
| `Filters.GaussianBlurOverrideIsOriginal` | entity/contents/filters/filter_contents.cc:87-88 | The second pass's source override is never the intermediate horizontal pass it blurs. |
| `Filters.GaussianBlurInjective` | entity/contents/filters/filter_contents.cc:80-90 | The two-pass graph determines the input, both sigmas and the style it was built from. |
| `Filters.MakeBorderMaskBlur` | entity/contents/filters/filter_contents.cc:92-102 | A border-mask blur node whose sole input is the argument and whose two sigmas and style are the parameters. |
| `Geometry.UnionIdempotent` | entity/contents/filters/filter_contents.cc:160 | The union of a rectangle with itself is that rectangle, so the as-written fold step leaves the running coverage unchanged. |
| `Coverage.GetCoverage` | entity/contents/filters/filter_contents.cc:141-163 | No contract of its own: the default coverage as written, absent for a node without inputs and otherwise the loop `FoldAsWritten`; characterised by `GetCoverageIsFirstPresent`. |
| `Coverage.FoldAsWritten` | entity/contents/filters/filter_contents.cc:150-161 | No contract of its own: the loop as written, whose step `StepAsWritten` skips absent coverages, takes the first present one and then unions the result with itself (lines 153-160); characterised by `FoldAsWrittenKeepsFirst`. |
| `Coverage.FoldAsWrittenKeepsFirst` | entity/contents/filters/filter_contents.cc:150-161 | The loop as written keeps the first coverage it holds; before it holds one it yields the first present input coverage. |
| `Coverage.FirstPresentSpec` | entity/contents/filters/filter_contents.cc:150-161 | The first present coverage is absent exactly when every input's coverage is absent, and otherwise is the coverage of the earliest input that has one. |
| `Coverage.GetCoverageIsFirstPresent` | entity/contents/filters/filter_contents.cc:141-163 | As written, a node's coverage is absent when it has no inputs or no input has a coverage, and otherwise equals the first present input coverage. |
| `Coverage.CoverageDropsLaterInputs` | entity/contents/filters/filter_contents.cc:156-160 | For any node whose first present input coverage `a` does not contain the coverage `b` of a later leaf input, the as-written coverage is `a` and misses `b`, while the corrected union contains `b`. |
| `Coverage.TwoLeafCoverages` | entity/contents/filters/filter_contents.cc:146-162 | A node over two leaves with coverages `a` then `b` has coverage `a` as written and `a ∪ b` corrected. |
| `Coverage.CoverageDropsWitness` | entity/contents/filters/filter_contents.cc:156-160 | The unit squares at (0,0) and (2,2) meet those conditions: the as-written coverage is the first square, the corrected one the 3×3 rectangle. |
| `Coverage.UnionCoverage` | entity/contents/filters/filter_contents.cc:141-163 | No contract of its own: the corrected default coverage, the union promised at lines 142-143; characterised by `UnionCoverageBounds` and `UnionCoverageIsLeast`. |
| `Coverage.FoldUnion` | entity/contents/filters/filter_contents.cc:150-161 | No contract of its own: the corrected loop, whose step unions the running result with each present input coverage; characterised by `FoldUnionBounds` and `FoldUnionLeast`. |
| `Coverage.FoldUnionBounds` | entity/contents/filters/filter_contents.cc:150-161 | The corrected loop's result is absent exactly when the start value and every input coverage are absent, and it contains each of them. |
| `Coverage.FoldUnionLeast` | entity/contents/filters/filter_contents.cc:150-161 | Any rectangle containing the start value and every input coverage contains the corrected loop's result. |
| `Coverage.UnionCoverageBounds` | entity/contents/filters/filter_contents.cc:141-163 | The corrected coverage of a node is absent exactly when every input's coverage is absent, and it contains each input's coverage. |
| `Coverage.UnionCoverageIsLeast` | entity/contents/filters/filter_contents.cc:141-144 | The corrected coverage is the smallest rectangle containing every input's coverage: any bound of them all bounds it. |
| `Coverage.InputAbsenceAgrees` | entity/contents/filters/filter_contents.cc:146-162 | For any input, at any nesting depth, the as-written and corrected coverages are absent together. |
| `Coverage.AbsenceAgrees` | entity/contents/filters/filter_contents.cc:146-162 | For any node, the as-written and corrected coverages are absent together. |
| `Coverage.FoldBlendFirstPresent` | entity/contents/filters/filter_contents.cc:50-57 | As written, a blend fold's coverage is the first present coverage among its operands. |
| `Coverage.FoldBlendUnion` | entity/contents/filters/filter_contents.cc:50-57 | With the corrected union, a blend fold's coverage is the union of the accumulator's and every later operand's coverage. |
| `Coverage.BlendFoldKeepsCoverage` | entity/contents/filters/filter_contents.cc:39-59 | The advanced-mode fold chain covers exactly what a single N-ary blend node over the same inputs covers, as written and corrected. |
| `Rendering.SnapshotWithin` | entity/contents/filters/filter_contents.cc:169-185 | For a given coverage: a snapshot exists exactly when the coverage is present, has area, and the subpass of the coverage's size yields a texture; it holds that texture, translated to the coverage origin. |
| `Rendering.RenderWithin` | entity/contents/filters/filter_contents.cc:116-138 | For a given coverage: none gives success with nothing drawn; no snapshot gives failure with nothing drawn; otherwise exactly one draw call is added — the whole snapshot texture over the coverage rectangle with the entity's blend mode and stencil depth — and its result is the render's result. |
| `Rendering.RenderToSnapshot` | entity/contents/filters/filter_contents.cc:165-186 | The snapshot step on the coverage as written: a snapshot exists exactly when that coverage is present, has area, and the subpass of its size yields a texture; it holds that texture, translated to that coverage's origin. |
| `Rendering.SnapshotLandsOnCoverage` | entity/contents/filters/filter_contents.cc:174-185 | When the renderer allocates the size asked for, the snapshot's texture placed by its transform is exactly the coverage as written. |
| `Rendering.Render` | entity/contents/filters/filter_contents.cc:112-139 | On the coverage as written: none gives success with nothing drawn; no snapshot gives failure with nothing drawn; otherwise exactly one draw call over that coverage is added and decides the result. |
| `Rendering.RenderOutcome` | entity/contents/filters/filter_contents.cc:112-139 | A render succeeds exactly when the coverage as written is absent or a snapshot was drawn successfully; it adds at most one draw call and changes nothing already in the pass. |
| `Rendering.EmptyCoverageFailsRender` | entity/contents/filters/filter_contents.cc:115-125 | A present coverage as written with zero area yields no snapshot, so `Render` fails and draws nothing, unlike an absent coverage. |
| `Rendering.EmptyFirstCoverageFailsRender` | entity/contents/filters/filter_contents.cc:115-125 | When the first input with a coverage has a zero-area one, `Render` fails and draws nothing, whatever later inputs cover. |
| `Rendering.RenderCorrected` | entity/contents/filters/filter_contents.cc:112-139 | The protocol on the corrected union: success with nothing drawn when it is absent, and a draw call over the union whenever the union has area and the subpass succeeds. |
| `Rendering.RenderDropsLaterArea` | entity/contents/filters/filter_contents.cc:115-125 | For any two leaf coverages `a` then `b` where `a` has no area but `a ∪ b` has, and a renderer that always allocates and draws: `Render` fails and draws nothing, while `RenderCorrected` succeeds with exactly one draw over `a ∪ b`. |
| `Rendering.RenderDefectWitness` | entity/contents/filters/filter_contents.cc:160 | With coverages (0,0) 0×5 then (10,10) 5×5 and a renderer that always allocates and draws, `Render` fails and draws nothing while `RenderCorrected` succeeds with one draw over the 15×15 union. |

## Findings

| source | as written | input that shows it | evidently intended | confidence | as-written member | corrected member |
|---|---|---|---|---|---|---|
| entity/contents/filters/filter_contents.cc:160 | `result = result->Union(result.value())` unions the running coverage with itself, so every coverage after the first present one is ignored | two inputs with coverages at (0,0) size 1×1 and at (2,2) size 1×1: the node's coverage is the first rectangle only | `result = result->Union(coverage.value())`, the union of all input coverages promised by the comment at lines 142-143 | high; not executed | `Coverage.CoverageDropsLaterInputs` | `Coverage.UnionCoverageBounds` |

## Left out

- `impeller/compositor/pipeline_descriptor.h`: declarations bound to Metal only; the bodies of its hashing and equality are not part of this model.
- `renderer.MakeSubpass` and `TextureContents::Render`: modelled as the oracles `makeSubpass` and `drawTexture` of `Renderer`. `makeSubpass` receives the size and the filter, reduced entity and bounds the callback captures; `drawTexture` receives the draw call and the pass as it stands before the draw. Neither receives the renderer's own state (the content context), so their results cannot depend on it.
- `RenderFilter`, the pixel work of each node kind, is not modelled: the subpass request only records the filter, entity and bounds the callback captures.
- Coverage overrides of the node kinds (blur growth by the kernel radius, sigma-to-radius conversion) live in files that are not part of this model; every node uses the default coverage.
- The coverage of a concrete input (`FilterInput::GetCoverage` for a texture or contents) is not part of this model: a leaf input carries its optional coverage.
- Floating-point geometry: coordinates are integers and sizes non-negative integers, so `ISize(bounds->size)` is the size itself and rounding is not modelled; `Sigma` is carried as a value and never computed with.
- Shared ownership: `shared_ptr` reference counting, graph sharing and the lambda's capture by value are not modelled; nodes are immutable values, so two factory calls with equal arguments give equal graphs.
- The entity is reduced to its blend mode and stencil depth; its transform and path are not read by this layer, and the derived entity's path is modelled as the coverage rectangle.
- `VALIDATION_LOG` diagnostics are not modelled; an invalid blend mode shows only as the absent result.
- Rendering.Render: when the final draw fails, the draw call is still recorded in the pass, since what a failing `TextureContents::Render` leaves in the pass is not part of this model.
