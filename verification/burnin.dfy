/** The phosphor burn-in pass: two textures used in turn ("ping-pong"), one
    written this frame and the other read as the decayed history, with one
    optional bind group per texture and a uniform block of beam parameters.
    GPU objects are opaque handles. */
module BurnIn {
  import opened Wrappers

  /** An opaque texture-view handle. */
  datatype View = View(id: nat)

  /** What a burn-in bind group binds besides the uniforms and the sampler:
      the view of the freshly rendered frame and the history view. */
  datatype BindGroup = BindGroup(frame: View, history: View)

  /** A draw issued by `render`: the pipeline with `bindGroup`, vertices
      0..3, one instance. */
  datatype Draw = Draw(bindGroup: BindGroup, vertexCount: nat, instanceCount: nat)

  /** The uniform block written by `update`. */
  datatype Uniforms = Uniforms(
    decay: real,
    brightness: real,
    beamYStart: real,
    beamYEnd: real,
    currentField: nat,
    interlaceEnabled: nat,
    screenHeight: real,
    padding: real)

  /** The uniform block the pipeline is created with: decay 0.92, full
      brightness, a beam band covering the screen, no interlacing. */
  function InitialUniforms(): (u: Uniforms)
    ensures u.beamYStart == 0.0 && u.beamYEnd == 1.0 && u.interlaceEnabled == 0
  {
    Uniforms(0.92, 1.0, 0.0, 1.0, 0, 0, 600.0, 0.0)
  }

  /** The other slot of the pair. */
  function Other(t: nat): (r: nat)
    requires t < 2
    ensures r < 2 && r != t
  {
    1 - t
  }

  lemma OtherOther(t: nat)
    requires t < 2
    ensures Other(Other(t)) == t
  {
  }

  /** The u32 flag a boolean is written as. */
  function Flag(b: bool): (n: nat)
    ensures n < 2 && (n == 1 <==> b)
  {
    if b then 1 else 0
  }

  class BurnInPipeline {
    var views: seq<View>
    /** Which texture is written this frame (0 or 1). */
    var currentTarget: nat
    var bindGroups: seq<Option<BindGroup>>
    var uniforms: Uniforms

    /** Two distinct views, two bind-group slots, a target that names one. */
    predicate Valid()
      reads this
    {
      |views| == 2 && views[0] != views[1] && |bindGroups| == 2 && currentTarget < 2
    }

    /** The state part of `BurnInPipeline::new`; `v0` and `v1` are the views
        of the two freshly created textures. */
    constructor (v0: View, v1: View)
      requires v0 != v1
      ensures Valid()
      ensures views == [v0, v1] && currentTarget == 0 && bindGroups == [None, None]
      ensures uniforms == InitialUniforms()
    {
      views := [v0, v1];
      currentTarget := 0;
      bindGroups := [None, None];
      uniforms := InitialUniforms();
    }

    /** `resize`: new textures, both bind groups dropped, the target kept. */
    method Resize(v0: View, v1: View)
      requires Valid() && v0 != v1
      modifies this
      ensures Valid()
      ensures views == [v0, v1] && bindGroups == [None, None]
      ensures currentTarget == old(currentTarget) && uniforms == old(uniforms)
    {
      views := [v0, v1];
      bindGroups := [None, None];
    }

    /** `prepare_bind_groups`: a bind group reading the frame and the
        texture not being written, stored in the slot being written. */
    method PrepareBindGroups(frame: View)
      requires Valid()
      modifies this
      ensures Valid()
      ensures bindGroups[currentTarget] == Some(BindGroup(frame, views[Other(currentTarget)]))
      ensures bindGroups[currentTarget].value.history != views[currentTarget]
      ensures bindGroups[Other(currentTarget)] == old(bindGroups[Other(currentTarget)])
      ensures views == old(views) && currentTarget == old(currentTarget) && uniforms == old(uniforms)
    {
      var readIdx := 1 - currentTarget;
      bindGroups := bindGroups[currentTarget := Some(BindGroup(frame, views[readIdx]))];
    }

    /** `target_view`: the texture written this frame. */
    function TargetView(): (v: View)
      requires Valid()
      reads this
      ensures v == views[currentTarget] && v != views[Other(currentTarget)]
    {
      views[currentTarget]
    }

    /** `output_view`: the burn-in result, which is the texture just written. */
    function OutputView(): (v: View)
      requires Valid()
      reads this
      ensures v == TargetView()
    {
      views[currentTarget]
    }

    /** `render`: a full-screen triangle with the current slot's bind group,
        or nothing when that slot is empty. */
    function Render(): (d: Option<Draw>)
      requires Valid()
      reads this
      ensures d.Some? <==> bindGroups[currentTarget].Some?
      ensures d.Some? ==> d.value == Draw(bindGroups[currentTarget].value, 3, 1)
    {
      match bindGroups[currentTarget]
      case Some(bg) => Some(Draw(bg, 3, 1))
      case None => None
    }

    /** `swap`: the history for the next frame is the texture just written. */
    method Swap()
      requires Valid()
      modifies this
      ensures Valid()
      ensures currentTarget == Other(old(currentTarget))
      ensures views == old(views) && bindGroups == old(bindGroups) && uniforms == old(uniforms)
    {
      currentTarget := 1 - currentTarget;
    }

    /** `update`: the uniform block, with the interlace switch as a 0/1 flag. */
    method Update(decay: real, brightness: real, beamYStart: real, beamYEnd: real,
                  currentField: nat, interlaceEnabled: bool, screenHeight: real)
      requires Valid()
      modifies this
      ensures Valid()
      ensures uniforms.decay == decay && uniforms.brightness == brightness
      ensures uniforms.beamYStart == beamYStart && uniforms.beamYEnd == beamYEnd
      ensures uniforms.currentField == currentField && uniforms.screenHeight == screenHeight
      ensures uniforms.interlaceEnabled < 2 && (uniforms.interlaceEnabled == 1 <==> interlaceEnabled)
      ensures uniforms.padding == 0.0
      ensures views == old(views) && currentTarget == old(currentTarget) && bindGroups == old(bindGroups)
    {
      uniforms := Uniforms(decay, brightness, beamYStart, beamYEnd, currentField,
                           Flag(interlaceEnabled), screenHeight, 0.0);
    }
  }

  /** Two swaps leave the target where it was. */
  method SwapTwice(p: BurnInPipeline)
    requires p.Valid()
    modifies p
    ensures p.Valid()
    ensures p.currentTarget == old(p.currentTarget) && p.views == old(p.views)
    ensures p.bindGroups == old(p.bindGroups)
  {
    p.Swap();
    p.Swap();
  }
}
