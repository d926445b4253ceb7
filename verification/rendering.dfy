/**
 The render protocol of a filter node. The renderer is an oracle: its
 `makeSubpass` allocates and fills an offscreen texture or fails, and its
 `drawTexture` stands for drawing a resolved texture into the target pass.

 The protocol reads the node's coverage once per step. `RenderToSnapshot`
 and `Render` use the coverage as written (`GetCoverage`);
 `RenderCorrected` runs the same protocol on the corrected `UnionCoverage`.
 */
module Rendering {
  import opened Wrappers
  import opened Geometry
  import opened Filters
  import opened Coverage

  datatype Texture = Texture(id: nat, size: Size)

  /** Placement transforms; a snapshot made here is only ever translated. */
  datatype Matrix = Translation(offset: Point)

  /** A resolved texture and where it is placed. */
  datatype Snapshot = Snapshot(texture: Texture, transform: Matrix)

  /** The parts of the drawing entity a filter reads. */
  datatype Entity = Entity(blendMode: BlendMode, stencilDepth: nat)

  /** What the recorded subpass callback captures: the filter, the entity and the bounds. */
  datatype SubpassRequest = SubpassRequest(filter: FilterNode, entity: Entity, bounds: Rect)

  /**
   One textured-rectangle submission: the texture, the region of it that is
   sampled, the rectangle it is drawn into, and the derived entity's blend
   mode and stencil depth.
   */
  datatype DrawCall = DrawCall(texture: Texture, sourceRect: Rect, coverage: Rect,
                               blendMode: BlendMode, stencilDepth: nat)

  /**
   `makeSubpass` receives the requested size and what the callback captures;
   `drawTexture` receives the draw call and the pass as it stands before it.
   */
  datatype Renderer = Renderer(makeSubpass: (Size, SubpassRequest) -> Option<Texture>,
                               drawTexture: (DrawCall, seq<DrawCall>) -> bool)

  /** Whether `Render` succeeded, and the draw calls the pass holds afterwards. */
  datatype RenderResult = RenderResult(ok: bool, pass: seq<DrawCall>)

  /** A renderer whose offscreen textures have the size that was asked for. */
  ghost predicate HonoursSizes(renderer: Renderer)
  {
    forall size, request :: renderer.makeSubpass(size, request).Some?
                            ==> renderer.makeSubpass(size, request).value.size == size
  }

  /**
   The snapshot step for a node whose coverage is `bounds`. No snapshot
   results when there is no coverage, when it has no area, or when the
   subpass fails; a snapshot is placed at the coverage's origin.
   */
  function SnapshotWithin(renderer: Renderer, entity: Entity, filter: FilterNode,
                          bounds: Option<Rect>): (r: Option<Snapshot>)
    ensures r.Some? <==>
      && bounds.Some? && !bounds.value.IsEmpty()
      && renderer.makeSubpass(bounds.value.size, SubpassRequest(filter, entity, bounds.value)).Some?
    ensures r.Some? ==>
      && Some(r.value.texture)
         == renderer.makeSubpass(bounds.value.size, SubpassRequest(filter, entity, bounds.value))
      && r.value.transform == Translation(bounds.value.origin)
  {
    if bounds.None? || bounds.value.IsEmpty() then None
    else
      var texture := renderer.makeSubpass(bounds.value.size,
                                          SubpassRequest(filter, entity, bounds.value));
      if texture.None? then None
      else Some(Snapshot(texture.value, Translation(bounds.value.origin)))
  }

  /**
   The render step for a node whose coverage is `bounds`. Without coverage
   there is nothing to draw and the render succeeds; when no snapshot can be
   made it fails; otherwise the snapshot's whole texture is drawn over the
   coverage rectangle with the entity's blend mode and stencil depth, and
   the draw decides success.
   */
  function RenderWithin(renderer: Renderer, entity: Entity, filter: FilterNode,
                        bounds: Option<Rect>, pass: seq<DrawCall>): (r: RenderResult)
    ensures bounds.None? ==> r.ok && r.pass == pass
    ensures bounds.Some? && SnapshotWithin(renderer, entity, filter, bounds).None?
            ==> !r.ok && r.pass == pass
    ensures SnapshotWithin(renderer, entity, filter, bounds).Some? ==>
      var texture := SnapshotWithin(renderer, entity, filter, bounds).value.texture;
      && |r.pass| == |pass| + 1 && r.pass[..|pass|] == pass
      && r.pass[|pass|] == DrawCall(texture, MakeSize(texture.size), bounds.value,
                                    entity.blendMode, entity.stencilDepth)
      && r.ok == renderer.drawTexture(r.pass[|pass|], pass)
  {
    if bounds.None? then RenderResult(true, pass)
    else
      var snapshot := SnapshotWithin(renderer, entity, filter, bounds);
      if snapshot.None? then RenderResult(false, pass)
      else
        var texture := snapshot.value.texture;
        var call := DrawCall(texture, MakeSize(texture.size), bounds.value,
                             entity.blendMode, entity.stencilDepth);
        RenderResult(renderer.drawTexture(call, pass), pass + [call])
  }

  /**
   Renders `filter` into an offscreen texture the size of its coverage as
   written: no snapshot without a coverage, for one without area, or when
   the subpass fails; otherwise the subpass's texture at the coverage origin.
   */
  function RenderToSnapshot(renderer: Renderer, entity: Entity, filter: FilterNode): (r: Option<Snapshot>)
    ensures r.Some? <==>
      && GetCoverage(filter).Some?
      && !GetCoverage(filter).value.IsEmpty()
      && renderer.makeSubpass(GetCoverage(filter).value.size,
                              SubpassRequest(filter, entity, GetCoverage(filter).value)).Some?
    ensures r.Some? ==>
      && Some(r.value.texture)
         == renderer.makeSubpass(GetCoverage(filter).value.size,
                                 SubpassRequest(filter, entity, GetCoverage(filter).value))
      && r.value.transform == Translation(GetCoverage(filter).value.origin)
  {
    SnapshotWithin(renderer, entity, filter, GetCoverage(filter))
  }

  /**
   Renders `filter` into `pass` using its coverage as written. No coverage:
   success with nothing drawn. No snapshot: failure with nothing drawn.
   Otherwise one draw call over the coverage decides success.
   */
  function Render(renderer: Renderer, entity: Entity, filter: FilterNode,
                  pass: seq<DrawCall>): (r: RenderResult)
    ensures GetCoverage(filter).None? ==> r.ok && r.pass == pass
    ensures GetCoverage(filter).Some? && RenderToSnapshot(renderer, entity, filter).None?
            ==> !r.ok && r.pass == pass
    ensures RenderToSnapshot(renderer, entity, filter).Some? ==>
      var texture := RenderToSnapshot(renderer, entity, filter).value.texture;
      && |r.pass| == |pass| + 1 && r.pass[..|pass|] == pass
      && r.pass[|pass|] == DrawCall(texture, MakeSize(texture.size), GetCoverage(filter).value,
                                    entity.blendMode, entity.stencilDepth)
      && r.ok == renderer.drawTexture(r.pass[|pass|], pass)
  {
    RenderWithin(renderer, entity, filter, GetCoverage(filter), pass)
  }

  /** The same protocol on the corrected coverage, the union of the inputs' coverages. */
  function RenderCorrected(renderer: Renderer, entity: Entity, filter: FilterNode,
                           pass: seq<DrawCall>): (r: RenderResult)
    ensures UnionCoverage(filter).None? ==> r.ok && r.pass == pass
    ensures UnionCoverage(filter).Some? && !UnionCoverage(filter).value.IsEmpty()
            && renderer.makeSubpass(UnionCoverage(filter).value.size,
                                    SubpassRequest(filter, entity, UnionCoverage(filter).value)).Some?
            ==> |r.pass| == |pass| + 1 && r.pass[|pass|].coverage == UnionCoverage(filter).value
  {
    RenderWithin(renderer, entity, filter, UnionCoverage(filter), pass)
  }

  /**
   A render succeeds exactly when there is no coverage, or when a snapshot
   was made and drawing it succeeded; nothing else is ever added to the pass.
   */
  lemma RenderOutcome(renderer: Renderer, entity: Entity, filter: FilterNode, pass: seq<DrawCall>)
    ensures var r := Render(renderer, entity, filter, pass);
            r.ok <==> GetCoverage(filter).None?
                      || (&& RenderToSnapshot(renderer, entity, filter).Some?
                          && renderer.drawTexture(r.pass[|r.pass| - 1], pass))
    ensures var r := Render(renderer, entity, filter, pass);
            |r.pass| <= |pass| + 1 && r.pass[..|pass|] == pass
  {
  }

  /**
   A coverage with a position but no pixels is not the same as no coverage:
   no snapshot is made, so `Render` reports failure where an absent
   coverage would report success.
   */
  lemma EmptyCoverageFailsRender(renderer: Renderer, entity: Entity, filter: FilterNode,
                                 pass: seq<DrawCall>)
    requires GetCoverage(filter).Some? && GetCoverage(filter).value.IsEmpty()
    ensures RenderToSnapshot(renderer, entity, filter).None?
    ensures !Render(renderer, entity, filter, pass).ok
    ensures Render(renderer, entity, filter, pass).pass == pass
  {
  }

  /**
   With a renderer that allocates the size asked for, a snapshot's texture
   placed by its transform lands exactly on the node's coverage as written.
   */
  lemma SnapshotLandsOnCoverage(renderer: Renderer, entity: Entity, filter: FilterNode)
    requires HonoursSizes(renderer)
    requires RenderToSnapshot(renderer, entity, filter).Some?
    ensures var s := RenderToSnapshot(renderer, entity, filter).value;
            Translate(MakeSize(s.texture.size), s.transform.offset) == GetCoverage(filter).value
  {
  }

  /**
   The coverage defect reaches the render result: when the first input with
   a coverage has a zero-area one, `Render` fails whatever the later inputs
   cover.
   */
  lemma EmptyFirstCoverageFailsRender(renderer: Renderer, entity: Entity, filter: FilterNode,
                                      pass: seq<DrawCall>, j: nat)
    requires j < |filter.inputs|
    requires forall i :: 0 <= i < j ==> InputCoverage(filter.inputs[i]).None?
    requires InputCoverage(filter.inputs[j]).Some? && InputCoverage(filter.inputs[j]).value.IsEmpty()
    ensures !Render(renderer, entity, filter, pass).ok
    ensures Render(renderer, entity, filter, pass).pass == pass
  {
    GetCoverageIsFirstPresent(filter);
  }

  /**
   A node over two leaves whose first coverage has no area but whose union
   does: with a renderer that always allocates and always draws, the
   protocol as written fails and draws nothing, while the corrected one
   draws once over the union.
   */
  lemma RenderDropsLaterArea(renderer: Renderer, entity: Entity, a: Rect, b: Rect, blendMode: BlendMode)
    requires forall size, request :: renderer.makeSubpass(size, request).Some?
    requires forall call, pass :: renderer.drawTexture(call, pass)
    requires a.IsEmpty() && !Union(a, b).IsEmpty()
    ensures var filter := BlendNode([Leaf(0, Some(a)), Leaf(1, Some(b))], blendMode);
            && !Render(renderer, entity, filter, []).ok
            && Render(renderer, entity, filter, []).pass == []
            && RenderCorrected(renderer, entity, filter, []).ok
            && |RenderCorrected(renderer, entity, filter, []).pass| == 1
            && RenderCorrected(renderer, entity, filter, []).pass[0].coverage == Union(a, b)
  {
    var filter := BlendNode([Leaf(0, Some(a)), Leaf(1, Some(b))], blendMode);
    var u := Union(a, b);
    TwoLeafCoverages(a, b, blendMode);
    EmptyFirstCoverageFailsRender(renderer, entity, filter, [], 0);
    var t := renderer.makeSubpass(u.size, SubpassRequest(filter, entity, u));
    assert t.Some?;
    assert renderer.drawTexture(DrawCall(t.value, MakeSize(t.value.size), u,
                                         entity.blendMode, entity.stencilDepth), []);
  }

  /**
   A zero-area first coverage followed by a 5-by-5 one: the protocol as
   written fails and draws nothing, while the corrected one draws over the
   15-by-15 union.
   */
  lemma RenderDefectWitness(renderer: Renderer, entity: Entity, a: Rect, b: Rect)
    requires forall size, request :: renderer.makeSubpass(size, request).Some?
    requires forall call, pass :: renderer.drawTexture(call, pass)
    requires a == Rect(Point(0, 0), Size(0, 5)) && b == Rect(Point(10, 10), Size(5, 5))
    ensures var filter := BlendNode([Leaf(0, Some(a)), Leaf(1, Some(b))], 3);
            && !Render(renderer, entity, filter, []).ok
            && Render(renderer, entity, filter, []).pass == []
            && RenderCorrected(renderer, entity, filter, []).ok
            && |RenderCorrected(renderer, entity, filter, []).pass| == 1
            && RenderCorrected(renderer, entity, filter, []).pass[0].coverage
               == Rect(Point(0, 0), Size(15, 15))
  {
    assert Union(a, b) == Rect(Point(0, 0), Size(15, 15));
    RenderDropsLaterArea(renderer, entity, a, b, 3);
  }
}
