/**
 The scene once its shaders are loaded: what building it asks of the
 renderer, what one animation tick asks, and what the resize handler
 asks. A `Stage` keeps the renderer log and the state that log leaves.
 Camera motion (orbit controls, roll, shake) and the projection of the
 black hole's centre are not modelled; the projected point is a
 parameter of the tick.
 */
module Frame {
  import opened Results
  import opened HexColour
  import opened RenderTrace

  /** What the window reports: `innerWidth`, `innerHeight` and
      `devicePixelRatio`. */
  datatype Viewport = Viewport(width: nat, height: nat, dpr: real)

  /** Browsers report a positive device pixel ratio. */
  predicate ValidViewport(v: Viewport) {
    v.dpr > 0.0
  }

  /** `Math.min(2, window.devicePixelRatio)` */
  function PixelRatio(dpr: real): (r: real)
    ensures r <= 2.0 && r <= dpr
    ensures r == 2.0 || r == dpr
  {
    if dpr < 2.0 then dpr else 2.0
  }

  /** `sizes.width / sizes.height`; a zero height has no finite aspect. */
  function Aspect(width: nat, height: nat): (a: Option<real>)
    ensures a.Some? <==> height > 0
    ensures a.Some? ==> a.value * height as real == width as real
  {
    if height == 0 then None else Some(width as real / height as real)
  }

  /** A size in CSS pixels scaled by the renderer's pixel ratio. */
  function Scaled(width: nat, height: nat, ratio: real): Extent {
    Extent(width as real * ratio, height as real * ratio)
  }

  /** The noise texture is baked once into a fixed 256 × 256 target. */
  const NoiseExtent := Extent(256.0, 256.0)

  /** A projected point in normalised device coordinates or in texture
      coordinates. */
  datatype Point = Point(x: real, y: real)

  /** `x * 0.5 + 0.5`: device coordinates to texture coordinates. */
  function ToUv(x: real): real {
    x * 0.5 + 0.5
  }

  function ToNdc(u: real): real {
    (u - 0.5) * 2.0
  }

  function Convergence(ndc: Point): Point {
    Point(ToUv(ndc.x), ToUv(ndc.y))
  }

  /** The on-screen box [-1, 1] is exactly what lands in [0, 1]. */
  lemma ConvergenceOnScreen(x: real)
    ensures -1.0 <= x <= 1.0 <==> 0.0 <= ToUv(x) <= 1.0
    ensures x < -1.0 <==> ToUv(x) < 0.0
  {
  }

  /** The black hole at the centre of the view converges at the middle of
      the composed image. */
  lemma ConvergenceCentre()
    ensures Convergence(Point(0.0, 0.0)) == Point(0.5, 0.5)
  {
  }

  lemma ConvergenceRoundTrip(x: real, u: real)
    ensures ToNdc(ToUv(x)) == x
    ensures ToUv(ToNdc(u)) == u
  {
  }

  /** The renderer state the scene is drawn with. */
  datatype Stage = Stage(width: nat, height: nat, aspect: Option<real>, device: Device, log: seq<Effect>)

  /** The material texture bindings that never change after creation:
      the disc samples the noise, the composition samples the scene and
      distortion images. */
  predicate Bound(u: map<Uniform, Value>) {
    && DiscNoises in u && u[DiscNoises] == Texture(Some(Noise))
    && CompositionDefault in u && u[CompositionDefault] == Texture(Some(PreDistortion))
    && CompositionDistortion in u && u[CompositionDistortion] == Texture(Some(Distortion))
  }

  /** Uniform `u` currently holds `x`. */
  predicate Holds(d: Device, u: Uniform, x: Value) {
    u in d.uniforms && d.uniforms[u] == x
  }

  predicate SizedTo(d: Device, t: Target, e: Extent) {
    t in d.targetSizes && d.targetSizes[t] == e
  }

  /** The composition targets follow the drawing buffer. */
  predicate TargetsFollow(d: Device, width: nat, height: nat) {
    var e := Scaled(width, height, d.ratio);
    SizedTo(d, Default, e) && SizedTo(d, Distortion, e) && SizedTo(d, PreDistortion, e)
  }

  /** What holds of the stage between events. */
  predicate Healthy(st: Stage) {
    && st.device == PerformAll(Fresh, st.log)
    && RendersOf(st.log, NoiseScene) == 1
    && SizedTo(st.device, Noise, NoiseExtent)
    && TargetsFollow(st.device, st.width, st.height)
    && 0.0 < st.device.ratio <= 2.0
    && st.device.size == Extent(st.width as real, st.height as real)
    && st.aspect == Aspect(st.width, st.height)
    && st.device.target == None
    && Bound(st.device.uniforms)
  }

  /** `setRenderTarget(t)`, `setClearColor(c)`, `render(scene, camera)`,
      `setRenderTarget(null)`. */
  function Offscreen(t: Target, c: Colour, scene: SceneId, camera: CameraId): seq<Effect> {
    [SetRenderTarget(Some(t)), SetClearColor(c), Render(scene, camera), SetRenderTarget(None)]
  }

  /** Renderer setup and the one-off noise bake. */
  function SetupEffects(v: Viewport): seq<Effect> {
    var r := PixelRatio(v.dpr);
    [SetClearColor(Background), SetPixelRatio(r), SetSize(v.width as real, v.height as real),
     SetTargetSize(Noise, 256.0, 256.0)]
    + [SetRenderTarget(Some(Noise)), Render(NoiseScene, NoiseCamera), SetRenderTarget(None)]
  }

  /** The disc material: time 0 and the baked noise. */
  const DiscMaterial: seq<Effect> :=
    [WriteUniform(DiscTime, Scalar(0.0)), WriteUniform(DiscNoises, Texture(Some(Noise)))]

  /** The composition targets, allocated at the drawing-buffer size. */
  function CompositionTargets(v: Viewport): seq<Effect> {
    var e := Scaled(v.width, v.height, PixelRatio(v.dpr));
    [SetTargetSize(Default, e.width, e.height), SetTargetSize(Distortion, e.width, e.height),
     SetTargetSize(PreDistortion, e.width, e.height)]
  }

  /** The composition material: time 0, the scene and distortion images,
      and a convergence point at the origin. */
  const CompositionMaterial: seq<Effect> :=
    [WriteUniform(CompositionTime, Scalar(0.0)), WriteUniform(CompositionDefault, Texture(Some(PreDistortion))),
     WriteUniform(CompositionDistortion, Texture(Some(Distortion))), WriteUniform(ConvergencePosition, Pair(0.0, 0.0))]

  /** The dither material's initial uniforms. */
  function DitherMaterial(v: Viewport): seq<Effect> {
    var e := Scaled(v.width, v.height, PixelRatio(v.dpr));
    [WriteUniform(DitherInput, Texture(None)), WriteUniform(DitherResolution, Pair(e.width, e.height)),
     WriteUniform(GridSize, Scalar(3.0)), WriteUniform(Intensity, Scalar(0.7)), WriteUniform(DitherTime, Scalar(0.0)),
     WriteUniform(DitherBackground, Colour3(Rgb(Some(0.0), Some(0.0), Some(0.0)))), WriteUniform(Contrast, Scalar(1.2))]
  }

  function MaterialEffects(v: Viewport): seq<Effect> {
    DiscMaterial + CompositionTargets(v) + CompositionMaterial + DitherMaterial(v)
  }

  function BuildEffects(v: Viewport): seq<Effect> {
    SetupEffects(v) + MaterialEffects(v)
  }

  /** The scene as `initScene` leaves it just before the first tick. */
  function Build(v: Viewport): Stage {
    var log := BuildEffects(v);
    Stage(v.width, v.height, Aspect(v.width, v.height), PerformAll(Fresh, log), log)
  }

  /** The uniform writes at the start of a tick. */
  function TickWrites(st: Stage, time: real, ndc: Point): seq<Effect> {
    var e := Scaled(st.width, st.height, st.device.ratio);
    var c := Convergence(ndc);
    [WriteUniform(DiscTime, Scalar(time)), WriteUniform(DitherTime, Scalar(time)),
     WriteUniform(DitherResolution, Pair(e.width, e.height)),
     WriteUniform(ConvergencePosition, Pair(c.x, c.y)), WriteUniform(CompositionTime, Scalar(time))]
  }

  /** The three off-screen passes of a tick. */
  const TickOffscreen: seq<Effect> :=
    Offscreen(PreDistortion, Background, MainScene, MainCamera)
    + Offscreen(Distortion, Black, DistortionScene, MainCamera)
    + Offscreen(Default, Background, CompositionScene, CompositionCamera)

  /** The dither pass to the canvas and the request for the next frame. */
  const TickFinal: seq<Effect> :=
    [WriteUniform(DitherInput, Texture(Some(Default))), Render(DitherScene, DitherCamera), RequestFrame]

  function TickEffects(st: Stage, time: real, ndc: Point): seq<Effect> {
    TickWrites(st, time, ndc) + TickOffscreen + TickFinal
  }

  /** `tick()`: does nothing once unmounted. */
  function Tick(st: Stage, mounted: bool, time: real, ndc: Point): (r: Stage)
    ensures st.log <= r.log
  {
    if !mounted then st
    else
      var es := TickEffects(st, time, ndc);
      st.(device := PerformAll(st.device, es), log := st.log + es)
  }

  function ResizeEffects(v: Viewport): seq<Effect> {
    var r := PixelRatio(v.dpr);
    var e := Scaled(v.width, v.height, r);
    [SetPixelRatio(r), SetSize(v.width as real, v.height as real),
     SetTargetSize(Distortion, e.width, e.height), SetTargetSize(Default, e.width, e.height),
     SetTargetSize(PreDistortion, e.width, e.height)]
  }

  /** `handleResize` reading the window's new viewport. */
  function Resize(st: Stage, v: Viewport): (r: Stage)
    ensures st.log <= r.log
  {
    var es := ResizeEffects(v);
    Stage(v.width, v.height, Aspect(v.width, v.height), PerformAll(st.device, es), st.log + es)
  }

  /** Setting the dither background to three channel values. */
  function SetBackground(st: Stage, rgb: Rgb): (r: Stage)
    ensures st.log <= r.log
  {
    var es := [WriteUniform(DitherBackground, Colour3(rgb))];
    st.(device := PerformAll(st.device, es), log := st.log + es)
  }

  /** An off-screen pass draws once into its target and leaves the
      renderer drawing to the canvas again. */
  lemma OffscreenStep(d: Device, t: Target, c: Colour, scene: SceneId, camera: CameraId)
    ensures PerformAll(d, Offscreen(t, c, scene, camera)) == d.(target := None, clear := c)
    ensures Passes(d, Offscreen(t, c, scene, camera)) == [Pass(scene, camera, Some(t), c, Reads(scene, d.uniforms))]
  {
    var a, b, r, z := SetRenderTarget(Some(t)), SetClearColor(c), Render(scene, camera), SetRenderTarget(None);
    assert Offscreen(t, c, scene, camera) == [a] + ([b] + ([r] + ([z] + [])));
    var d1 := d.(target := Some(t));
    var d2 := d1.(clear := c);
    var d3 := d2.(target := None);
    PerformCons(d, a, [b] + ([r] + ([z] + [])));
    PerformCons(d1, b, [r] + ([z] + []));
    PerformCons(d2, r, [z] + []);
    PerformCons(d2, z, []);
    PassesCons(d, a, [b] + ([r] + ([z] + [])));
    PassesCons(d1, b, [r] + ([z] + []));
    PassesCons(d2, r, [z] + []);
    PassesCons(d2, z, []);
  }

  /** The uniforms a tick's opening writes leave. */
  function AfterTickWrites(u: map<Uniform, Value>, st: Stage, time: real, ndc: Point): map<Uniform, Value> {
    var e := Scaled(st.width, st.height, st.device.ratio);
    var c := Convergence(ndc);
    u[DiscTime := Scalar(time)][DitherTime := Scalar(time)][DitherResolution := Pair(e.width, e.height)]
     [ConvergencePosition := Pair(c.x, c.y)][CompositionTime := Scalar(time)]
  }

  lemma WritesStep(d: Device, st: Stage, time: real, ndc: Point)
    ensures PerformAll(d, TickWrites(st, time, ndc)) == d.(uniforms := AfterTickWrites(d.uniforms, st, time, ndc))
    ensures Passes(d, TickWrites(st, time, ndc)) == []
  {
    var es := TickWrites(st, time, ndc);
    var d1 := Perform(d, es[0]);
    var d2 := Perform(d1, es[1]);
    var d3 := Perform(d2, es[2]);
    var d4 := Perform(d3, es[3]);
    var d5 := Perform(d4, es[4]);
    assert es[1..][1..][1..][1..][1..] == [];
    assert PerformAll(d4, es[1..][1..][1..][1..]) == d5;
    assert PerformAll(d2, es[1..][1..]) == PerformAll(d3, es[1..][1..][1..]);
    assert PerformAll(d, es) == PerformAll(d1, es[1..]);
    PassesWithoutRender(d, es);
  }

  lemma FinalStep(d: Device)
    ensures PerformAll(d, TickFinal) == d.(uniforms := d.uniforms[DitherInput := Texture(Some(Default))], frames := d.frames + 1)
    ensures Passes(d, TickFinal) == [Pass(DitherScene, DitherCamera, d.target, d.clear, {Default})]
  {
    var w, r, q := TickFinal[0], TickFinal[1], TickFinal[2];
    assert TickFinal == [w] + ([r] + ([q] + []));
    FinalDevice(d, w, r, q);
    FinalPasses(d, w, r, q);
  }

  lemma FinalDevice(d: Device, w: Effect, r: Effect, q: Effect)
    requires w == WriteUniform(DitherInput, Texture(Some(Default))) && r.Render? && q == RequestFrame
    ensures PerformAll(d, [w] + ([r] + ([q] + [])))
         == d.(uniforms := d.uniforms[DitherInput := Texture(Some(Default))], frames := d.frames + 1)
  {
    var d1 := Perform(d, w);
    PerformCons(d, w, [r] + ([q] + []));
    PerformCons(d1, r, [q] + []);
    PerformCons(d1, q, []);
  }

  lemma FinalPasses(d: Device, w: Effect, r: Effect, q: Effect)
    requires w == WriteUniform(DitherInput, Texture(Some(Default))) && r == Render(DitherScene, DitherCamera)
    requires q == RequestFrame
    ensures Passes(d, [w] + ([r] + ([q] + []))) == [Pass(DitherScene, DitherCamera, d.target, d.clear, {Default})]
  {
    var d1 := Perform(d, w);
    PassesCons(d, w, [r] + ([q] + []));
    PassesCons(d1, r, [q] + []);
    PassesCons(d1, q, []);
    assert Reads(DitherScene, d1.uniforms) == {Default};
  }

  /** The draw calls of one tick, in order: the scene into the
      pre-distortion target over the background colour, the distortion
      mask into its target over black, the composition into the default
      target, and the dither of the default target onto the canvas. */
  const TickPlan: seq<Pass> := [
    Pass(MainScene, MainCamera, Some(PreDistortion), Background, {Noise}),
    Pass(DistortionScene, MainCamera, Some(Distortion), Black, {}),
    Pass(CompositionScene, CompositionCamera, Some(Default), Background, {PreDistortion, Distortion}),
    Pass(DitherScene, DitherCamera, None, Background, {Default})
  ]

  lemma OffscreenPhase(d: Device)
    requires Bound(d.uniforms)
    ensures PerformAll(d, TickOffscreen) == d.(target := None, clear := Background)
    ensures Passes(d, TickOffscreen) == TickPlan[..3]
  {
    OffscreenDevice(d);
    OffscreenPasses(d);
  }

  lemma OffscreenDevice(d: Device)
    ensures PerformAll(d, TickOffscreen) == d.(target := None, clear := Background)
  {
    var o1 := Offscreen(PreDistortion, Background, MainScene, MainCamera);
    var o2 := Offscreen(Distortion, Black, DistortionScene, MainCamera);
    var o3 := Offscreen(Default, Background, CompositionScene, CompositionCamera);
    OffscreenStep(d, PreDistortion, Background, MainScene, MainCamera);
    var d1 := d.(target := None, clear := Background);
    OffscreenStep(d1, Distortion, Black, DistortionScene, MainCamera);
    var d2 := d.(target := None, clear := Black);
    OffscreenStep(d2, Default, Background, CompositionScene, CompositionCamera);
    PerformAllAppend(d, o1, o2);
    PerformAllAppend(d, o1 + o2, o3);
  }

  lemma OffscreenPasses(d: Device)
    requires Bound(d.uniforms)
    ensures Passes(d, TickOffscreen) == TickPlan[..3]
  {
    var o1 := Offscreen(PreDistortion, Background, MainScene, MainCamera);
    var o2 := Offscreen(Distortion, Black, DistortionScene, MainCamera);
    var o3 := Offscreen(Default, Background, CompositionScene, CompositionCamera);
    var d1 := d.(target := None, clear := Background);
    var d2 := d.(target := None, clear := Black);
    OffscreenStep(d, PreDistortion, Background, MainScene, MainCamera);
    OffscreenStep(d1, Distortion, Black, DistortionScene, MainCamera);
    OffscreenStep(d2, Default, Background, CompositionScene, CompositionCamera);
    PassesThree(d, o1, o2, o3);
    BoundReads(d.uniforms);
    TickPlanPrefix();
  }

  lemma TickPlanPrefix()
    ensures TickPlan[..3] == [TickPlan[0]] + [TickPlan[1]] + [TickPlan[2]]
  {
  }

  /** The passes of three logs played back to back. */
  lemma PassesThree(d: Device, a: seq<Effect>, b: seq<Effect>, c: seq<Effect>)
    ensures Passes(d, a + b + c)
         == Passes(d, a) + Passes(PerformAll(d, a), b) + Passes(PerformAll(PerformAll(d, a), b), c)
  {
    PassesAppend(d, a, b);
    PassesAppend(d, a + b, c);
    PerformAllAppend(d, a, b);
  }

  /** What the bound materials sample. */
  lemma BoundReads(u: map<Uniform, Value>)
    requires Bound(u)
    ensures Reads(MainScene, u) == {Noise}
    ensures Reads(DistortionScene, u) == {}
    ensures Reads(CompositionScene, u) == {PreDistortion, Distortion}
  {
  }

  /** One tick from any renderer whose materials are bound as built. */
  lemma TickStep(d: Device, st: Stage, time: real, ndc: Point)
    requires Bound(d.uniforms)
    ensures PerformAll(d, TickEffects(st, time, ndc))
            == d.(target := None, clear := Background, frames := d.frames + 1,
                  uniforms := AfterTickWrites(d.uniforms, st, time, ndc)[DitherInput := Texture(Some(Default))])
    ensures Passes(d, TickEffects(st, time, ndc)) == TickPlan
  {
    var w := TickWrites(st, time, ndc);
    WritesStep(d, st, time, ndc);
    var d1 := d.(uniforms := AfterTickWrites(d.uniforms, st, time, ndc));
    OffscreenPhase(d1);
    var d2 := d1.(target := None, clear := Background);
    FinalStep(d2);
    PerformAllAppend(d, w, TickOffscreen);
    PerformAllAppend(d, w + TickOffscreen, TickFinal);
    PassesAppend(d, w, TickOffscreen);
    PassesAppend(d, w + TickOffscreen, TickFinal);
  }

  /** Renderer setup and the noise bake: drawing to the canvas again,
      the noise target allocated at 256 × 256 and drawn exactly once. */
  lemma SetupStep(v: Viewport)
    ensures PerformAll(Fresh, SetupEffects(v))
            == Device(None, Background, PixelRatio(v.dpr), Extent(v.width as real, v.height as real),
                      map[Noise := NoiseExtent], map[], 0)
    ensures Passes(Fresh, SetupEffects(v)) == [Pass(NoiseScene, NoiseCamera, Some(Noise), Background, {})]
    ensures RendersOf(SetupEffects(v), NoiseScene) == 1
  {
    var es := SetupEffects(v);
    var d1 := Perform(Fresh, es[0]);
    var d2 := Perform(d1, es[1]);
    var d3 := Perform(d2, es[2]);
    var d4 := Perform(d3, es[3]);
    var d5 := Perform(d4, es[4]);
    var t := es[1..][1..][1..][1..];
    assert t == [SetRenderTarget(Some(Noise)), Render(NoiseScene, NoiseCamera), SetRenderTarget(None)];
    assert t[1..][1..][1..] == [];
    assert PerformAll(d5, t[1..][1..]) == d5.(target := None);
    assert PerformAll(d5, t[1..]) == d5.(target := None);
    assert PerformAll(d4, t) == PerformAll(d5, t[1..]);
    assert PerformAll(d2, es[1..][1..]) == PerformAll(d3, es[1..][1..][1..]);
    assert Fresh.targetSizes[Noise := NoiseExtent] == map[Noise := NoiseExtent];
    assert PerformAll(Fresh, es) == PerformAll(d1, es[1..]);
    assert Passes(d5, t[1..]) == [Pass(NoiseScene, NoiseCamera, Some(Noise), Background, {})] + Passes(d5, t[1..][1..]);
    assert Passes(d2, es[1..][1..]) == Passes(d3, es[1..][1..][1..]);
    assert Passes(Fresh, es) == Passes(d1, es[1..]);
    assert RendersOf(t[1..][1..], NoiseScene) == 0;
    assert RendersOf(t[1..], NoiseScene) == 1;
    assert RendersOf(t, NoiseScene) == 1;
    assert RendersOf(es[1..][1..][1..], NoiseScene) == RendersOf(t, NoiseScene);
    assert RendersOf(es[1..][1..], NoiseScene) == RendersOf(es[1..][1..][1..], NoiseScene);
    assert RendersOf(es, NoiseScene) == RendersOf(es[1..][1..], NoiseScene);
    assert RendersOf(es, NoiseScene) == 1;
  }

  lemma TargetsStep(d: Device, v: Viewport)
    ensures var e := Scaled(v.width, v.height, PixelRatio(v.dpr));
            PerformAll(d, CompositionTargets(v))
            == d.(targetSizes := d.targetSizes[Default := e][Distortion := e][PreDistortion := e])
  {
    var es := CompositionTargets(v);
    var d1 := Perform(d, es[0]);
    var d2 := Perform(d1, es[1]);
    assert es[1..][1..][1..] == [];
    assert PerformAll(d1, es[1..]) == PerformAll(d2, es[1..][1..]);
    assert PerformAll(d, es) == PerformAll(d1, es[1..]);
  }

  /** Creating the materials allocates the composition targets and
      touches nothing else of the renderer. */
  lemma MaterialDevice(d: Device, v: Viewport)
    ensures var r := PerformAll(d, MaterialEffects(v));
            var e := Scaled(v.width, v.height, PixelRatio(v.dpr));
            && r.target == d.target && r.clear == d.clear && r.ratio == d.ratio && r.size == d.size
            && r.frames == d.frames
            && r.targetSizes == d.targetSizes[Default := e][Distortion := e][PreDistortion := e]
    ensures Passes(d, MaterialEffects(v)) == []
    ensures RendersOf(MaterialEffects(v), NoiseScene) == 0
  {
    MaterialConfigures(v);
    ConfiguresKeeps(d, MaterialEffects(v), NoiseScene);
    MaterialSizes(d, v);
  }

  lemma MaterialConfigures(v: Viewport)
    ensures Configures(MaterialEffects(v))
  {
    var a, b := DiscMaterial, CompositionTargets(v);
    var c, x := CompositionMaterial, DitherMaterial(v);
    assert Configures(a) && Configures(b) && Configures(c) && Configures(x);
    ConfiguresAppend(a, b);
    ConfiguresAppend(a + b, c);
    ConfiguresAppend(a + b + c, x);
  }

  lemma MaterialSizes(d: Device, v: Viewport)
    ensures var e := Scaled(v.width, v.height, PixelRatio(v.dpr));
            PerformAll(d, MaterialEffects(v)).targetSizes
            == d.targetSizes[Default := e][Distortion := e][PreDistortion := e]
  {
    var a, b := DiscMaterial, CompositionTargets(v);
    var c, x := CompositionMaterial, DitherMaterial(v);
    PerformAllAppend(d, a, b);
    PerformAllAppend(d, a + b, c);
    PerformAllAppend(d, a + b + c, x);
    var d1 := PerformAll(d, a);
    PerformAllKeeps(d, a);
    TargetsStep(d1, v);
    var d2 := PerformAll(d1, b);
    PerformAllKeeps(d2, c);
    PerformAllKeeps(PerformAll(d2, c), x);
  }

  /** Each material's uniforms are created with their initial values. */
  lemma DiscMaterialStep(d: Device)
    ensures PerformAll(d, DiscMaterial)
            == d.(uniforms := d.uniforms[DiscTime := Scalar(0.0)][DiscNoises := Texture(Some(Noise))])
  {
    var es := DiscMaterial;
    var d0 := d;
    var d1 := Perform(d0, es[0]);
    var d2 := Perform(d1, es[1]);
    assert es[1..][1..] == [];
    assert PerformAll(d1, es[1..]) == PerformAll(d2, es[1..][1..]);
    assert PerformAll(d0, es) == PerformAll(d1, es[1..]);
  }

  lemma CompositionMaterialStep(d: Device)
    ensures PerformAll(d, CompositionMaterial)
            == d.(uniforms := d.uniforms[CompositionTime := Scalar(0.0)][CompositionDefault := Texture(Some(PreDistortion))]
                                        [CompositionDistortion := Texture(Some(Distortion))][ConvergencePosition := Pair(0.0, 0.0)])
  {
    var es := CompositionMaterial;
    var d0 := d;
    var d1 := Perform(d0, es[0]);
    var d2 := Perform(d1, es[1]);
    var d3 := Perform(d2, es[2]);
    var d4 := Perform(d3, es[3]);
    assert es[1..][1..][1..][1..] == [];
    assert PerformAll(d3, es[1..][1..][1..]) == PerformAll(d4, es[1..][1..][1..][1..]);
    assert PerformAll(d2, es[1..][1..]) == PerformAll(d3, es[1..][1..][1..]);
    assert PerformAll(d1, es[1..]) == PerformAll(d2, es[1..][1..]);
    assert PerformAll(d0, es) == PerformAll(d1, es[1..]);
  }

  lemma DitherMaterialStep(d: Device, v: Viewport)
    ensures var e := Scaled(v.width, v.height, PixelRatio(v.dpr));
            PerformAll(d, DitherMaterial(v))
            == d.(uniforms := d.uniforms[DitherInput := Texture(None)][DitherResolution := Pair(e.width, e.height)]
                                        [GridSize := Scalar(3.0)][Intensity := Scalar(0.7)][DitherTime := Scalar(0.0)]
                                        [DitherBackground := Colour3(Rgb(Some(0.0), Some(0.0), Some(0.0)))][Contrast := Scalar(1.2)])
  {
    var es := DitherMaterial(v);
    var d0 := d;
    var d1 := Perform(d0, es[0]);
    var d2 := Perform(d1, es[1]);
    var d3 := Perform(d2, es[2]);
    var d4 := Perform(d3, es[3]);
    var d5 := Perform(d4, es[4]);
    var d6 := Perform(d5, es[5]);
    var d7 := Perform(d6, es[6]);
    assert es[1..][1..][1..][1..][1..][1..][1..] == [];
    assert PerformAll(d6, es[1..][1..][1..][1..][1..][1..]) == PerformAll(d7, es[1..][1..][1..][1..][1..][1..][1..]);
    assert PerformAll(d5, es[1..][1..][1..][1..][1..]) == PerformAll(d6, es[1..][1..][1..][1..][1..][1..]);
    assert PerformAll(d4, es[1..][1..][1..][1..]) == PerformAll(d5, es[1..][1..][1..][1..][1..]);
    assert PerformAll(d3, es[1..][1..][1..]) == PerformAll(d4, es[1..][1..][1..][1..]);
    assert PerformAll(d2, es[1..][1..]) == PerformAll(d3, es[1..][1..][1..]);
    assert PerformAll(d1, es[1..]) == PerformAll(d2, es[1..][1..]);
    assert PerformAll(d0, es) == PerformAll(d1, es[1..]);
  }

  /** The uniforms as the materials are created. */
  lemma MaterialUniforms(d: Device, v: Viewport)
    ensures var u := PerformAll(d, MaterialEffects(v)).uniforms;
            var e := Scaled(v.width, v.height, PixelRatio(v.dpr));
            && u == d.uniforms[DiscTime := Scalar(0.0)][DiscNoises := Texture(Some(Noise))]
                     [CompositionTime := Scalar(0.0)][CompositionDefault := Texture(Some(PreDistortion))]
                     [CompositionDistortion := Texture(Some(Distortion))][ConvergencePosition := Pair(0.0, 0.0)]
                     [DitherInput := Texture(None)][DitherResolution := Pair(e.width, e.height)]
                     [GridSize := Scalar(3.0)][Intensity := Scalar(0.7)][DitherTime := Scalar(0.0)]
                     [DitherBackground := Colour3(Rgb(Some(0.0), Some(0.0), Some(0.0)))][Contrast := Scalar(1.2)]
  {
    var a, b := DiscMaterial, CompositionTargets(v);
    var c, x := CompositionMaterial, DitherMaterial(v);
    PerformAllAppend(d, a, b);
    PerformAllAppend(d, a + b, c);
    PerformAllAppend(d, a + b + c, x);
    DiscMaterialStep(d);
    var d1 := PerformAll(d, a);
    TargetsStep(d1, v);
    var d2 := PerformAll(d1, b);
    CompositionMaterialStep(d2);
    var d3 := PerformAll(d2, c);
    DitherMaterialStep(d3, v);
  }

  /** What building the scene leaves: the renderer drawing to the canvas
      with the background clear colour at a pixel ratio of at most 2,
      the noise baked once into its 256 × 256 target, the composition
      targets at the drawing-buffer size, every material at its initial
      values, and no frame requested yet. */
  lemma BuildState(v: Viewport)
    requires ValidViewport(v)
    ensures var d := Build(v).device;
            var e := Scaled(v.width, v.height, PixelRatio(v.dpr));
            && d.target == None && d.clear == Background && d.frames == 0
            && d.ratio == PixelRatio(v.dpr) && 0.0 < d.ratio <= 2.0
            && d.size == Extent(v.width as real, v.height as real)
            && SizedTo(d, Noise, NoiseExtent) && TargetsFollow(d, v.width, v.height)
            && Bound(d.uniforms)
            && Holds(d, GridSize, Scalar(3.0)) && Holds(d, Intensity, Scalar(0.7))
            && Holds(d, Contrast, Scalar(1.2))
            && Holds(d, DitherBackground, Colour3(Rgb(Some(0.0), Some(0.0), Some(0.0))))
            && Holds(d, DitherInput, Texture(None))
            && Holds(d, DitherResolution, Pair(e.width, e.height))
    ensures Passes(Fresh, Build(v).log) == [Pass(NoiseScene, NoiseCamera, Some(Noise), Background, {})]
    ensures RendersOf(Build(v).log, NoiseScene) == 1
  {
    BuildDevice(v);
    BuildLog(v);
  }

  lemma BuildDevice(v: Viewport)
    requires ValidViewport(v)
    ensures var d := PerformAll(Fresh, BuildEffects(v));
            var e := Scaled(v.width, v.height, PixelRatio(v.dpr));
            && d.target == None && d.clear == Background && d.frames == 0
            && d.ratio == PixelRatio(v.dpr) && 0.0 < d.ratio <= 2.0
            && d.size == Extent(v.width as real, v.height as real)
            && SizedTo(d, Noise, NoiseExtent) && TargetsFollow(d, v.width, v.height)
            && Bound(d.uniforms)
            && Holds(d, GridSize, Scalar(3.0)) && Holds(d, Intensity, Scalar(0.7))
            && Holds(d, Contrast, Scalar(1.2))
            && Holds(d, DitherBackground, Colour3(Rgb(Some(0.0), Some(0.0), Some(0.0))))
            && Holds(d, DitherInput, Texture(None))
            && Holds(d, DitherResolution, Pair(e.width, e.height))
  {
    var su, mu := SetupEffects(v), MaterialEffects(v);
    SetupStep(v);
    var d0 := PerformAll(Fresh, su);
    PerformAllAppend(Fresh, su, mu);
    MaterialDevice(d0, v);
    MaterialUniforms(d0, v);
  }

  lemma BuildLog(v: Viewport)
    ensures Passes(Fresh, BuildEffects(v)) == [Pass(NoiseScene, NoiseCamera, Some(Noise), Background, {})]
    ensures RendersOf(BuildEffects(v), NoiseScene) == 1
  {
    var su, mu := SetupEffects(v), MaterialEffects(v);
    SetupStep(v);
    MaterialDevice(PerformAll(Fresh, su), v);
    PassesAppend(Fresh, su, mu);
    RendersOfAppend(su, mu, NoiseScene);
  }

  lemma BuildHealthy(v: Viewport)
    requires ValidViewport(v)
    ensures Healthy(Build(v))
  {
    BuildState(v);
  }

  lemma TickEffectsNoNoise(st: Stage, time: real, ndc: Point)
    ensures RendersOf(TickEffects(st, time, ndc), NoiseScene) == 0
    ensures FrameRequests(TickEffects(st, time, ndc)) == 1
  {
    TickNoNoise(st, time, ndc);
    TickOneFrame(st, time, ndc);
  }

  lemma TickNoNoise(st: Stage, time: real, ndc: Point)
    ensures RendersOf(TickEffects(st, time, ndc), NoiseScene) == 0
  {
    var w := TickWrites(st, time, ndc);
    RendersOfNone(w, NoiseScene);
    RendersOfNone(TickOffscreen, NoiseScene);
    RendersOfNone(TickFinal, NoiseScene);
    RendersOfAppend(w, TickOffscreen, NoiseScene);
    RendersOfAppend(w + TickOffscreen, TickFinal, NoiseScene);
  }

  lemma TickOneFrame(st: Stage, time: real, ndc: Point)
    ensures FrameRequests(TickEffects(st, time, ndc)) == 1
  {
    var w := TickWrites(st, time, ndc);
    FrameRequestsAppend(w, TickOffscreen);
    FrameRequestsAppend(w + TickOffscreen, TickFinal);
    FrameRequestsNone(w);
    FrameRequestsNone(TickOffscreen);
    assert TickFinal[1..][1..][1..] == [];
    assert FrameRequests(TickFinal[1..][1..]) == 1;
  }

  /** A tick keeps the stage healthy. */
  lemma TickHealthy(st: Stage, mounted: bool, time: real, ndc: Point)
    requires Healthy(st)
    ensures Healthy(Tick(st, mounted, time, ndc))
  {
    if mounted {
      var es := TickEffects(st, time, ndc);
      TickStep(st.device, st, time, ndc);
      PerformAllAppend(Fresh, st.log, es);
      RendersOfAppend(st.log, es, NoiseScene);
      TickEffectsNoNoise(st, time, ndc);
    }
  }

  /** Once unmounted, a pending tick changes nothing. */
  lemma TickUnmounted(st: Stage, time: real, ndc: Point)
    ensures Tick(st, false, time, ndc) == st
  {
  }

  /** The draw calls a mounted tick adds to the log are the four passes
      in order, and it asks for exactly one more frame, as its last call. */
  lemma TickDraws(st: Stage, time: real, ndc: Point)
    requires Healthy(st)
    ensures var next := Tick(st, true, time, ndc);
            && Passes(Fresh, next.log) == Passes(Fresh, st.log) + TickPlan
            && next.device.frames == st.device.frames + 1
            && FrameRequests(next.log) == FrameRequests(st.log) + 1
            && next.log[|next.log| - 1] == RequestFrame
  {
    var es := TickEffects(st, time, ndc);
    TickStep(st.device, st, time, ndc);
    PassesAppend(Fresh, st.log, es);
    FrameRequestsAppend(st.log, es);
    TickEffectsNoNoise(st, time, ndc);
  }

  /** After a tick every animated uniform holds this tick's value, the
      dither plane samples the default target, and every other uniform —
      the dither parameters and background among them — is untouched. */
  lemma TickUniforms(st: Stage, time: real, ndc: Point)
    requires Healthy(st)
    ensures var d := Tick(st, true, time, ndc).device;
            var e := Scaled(st.width, st.height, st.device.ratio);
            var c := Convergence(ndc);
            && Holds(d, DiscTime, Scalar(time)) && Holds(d, DitherTime, Scalar(time))
            && Holds(d, CompositionTime, Scalar(time))
            && Holds(d, ConvergencePosition, Pair(c.x, c.y))
            && Holds(d, DitherResolution, Pair(e.width, e.height))
            && Holds(d, DitherInput, Texture(Some(Default)))
    ensures forall u :: u !in TickWritten ==>
              (u in Tick(st, true, time, ndc).device.uniforms <==> u in st.device.uniforms)
              && (u in st.device.uniforms ==> Tick(st, true, time, ndc).device.uniforms[u] == st.device.uniforms[u])
  {
    TickStep(st.device, st, time, ndc);
  }

  /** The uniforms a tick writes. */
  const TickWritten: set<Uniform> :=
    {DiscTime, DitherTime, DitherResolution, ConvergencePosition, CompositionTime, DitherInput}

  /** `p` is drawn into a target before any pass of `ps` samples it, or
      belongs to `baked`; no pass samples the target it draws into. */
  predicate DrawnBeforeSampled(ps: seq<Pass>, baked: set<Target>) {
    forall k, t :: 0 <= k < |ps| && t in ps[k].samples ==>
      && ps[k].target != Some(t)
      && (t in baked || exists j :: 0 <= j < k && ps[j].target == Some(t))
  }

  /** Within one tick every off-screen image is drawn before it is
      sampled, only the noise comes from the build, no pass samples its
      own target, and only the last pass draws to the canvas. */
  lemma TickPlanOrdered()
    ensures DrawnBeforeSampled(TickPlan, {Noise})
    ensures forall k :: 0 <= k < |TickPlan| ==> (TickPlan[k].target == None <==> k == |TickPlan| - 1)
  {
    forall k, t | 0 <= k < |TickPlan| && t in TickPlan[k].samples
      ensures TickPlan[k].target != Some(t)
      ensures t in {Noise} || exists j :: 0 <= j < k && TickPlan[j].target == Some(t)
    {
      if k == 2 {
        if t == PreDistortion {
          assert TickPlan[0].target == Some(t);
        } else {
          assert TickPlan[1].target == Some(t);
        }
      } else if k == 3 {
        assert TickPlan[2].target == Some(t);
      }
    }
  }

  lemma ResizeStep(d: Device, v: Viewport)
    ensures var r := PixelRatio(v.dpr);
            var e := Scaled(v.width, v.height, r);
            PerformAll(d, ResizeEffects(v))
            == d.(ratio := r, size := Extent(v.width as real, v.height as real),
                  targetSizes := d.targetSizes[Distortion := e][Default := e][PreDistortion := e])
    ensures RendersOf(ResizeEffects(v), NoiseScene) == 0
    ensures Passes(d, ResizeEffects(v)) == []
  {
    var es := ResizeEffects(v);
    var d0 := d;
    var d1 := Perform(d0, es[0]);
    var d2 := Perform(d1, es[1]);
    var d3 := Perform(d2, es[2]);
    var d4 := Perform(d3, es[3]);
    var d5 := Perform(d4, es[4]);
    assert es[1..][1..][1..][1..][1..] == [];
    assert PerformAll(d4, es[1..][1..][1..][1..]) == PerformAll(d5, es[1..][1..][1..][1..][1..]);
    assert PerformAll(d3, es[1..][1..][1..]) == PerformAll(d4, es[1..][1..][1..][1..]);
    assert PerformAll(d2, es[1..][1..]) == PerformAll(d3, es[1..][1..][1..]);
    assert PerformAll(d1, es[1..]) == PerformAll(d2, es[1..][1..]);
    assert PerformAll(d0, es) == PerformAll(d1, es[1..]);
    RendersOfNone(es, NoiseScene);
    PassesWithoutRender(d, es);
  }

  /** Resizing keeps the stage healthy: the pixel ratio is capped at 2,
      the three composition targets follow the new drawing buffer, the
      camera aspect follows the window, and the noise target keeps its
      256 × 256. */
  lemma ResizeHealthy(st: Stage, v: Viewport)
    requires Healthy(st) && ValidViewport(v)
    ensures Healthy(Resize(st, v))
    ensures var d := Resize(st, v).device;
            && d.ratio == PixelRatio(v.dpr)
            && TargetsFollow(d, v.width, v.height)
            && d.targetSizes[Noise] == st.device.targetSizes[Noise]
            && d.uniforms == st.device.uniforms
  {
    ResizeStep(st.device, v);
    PerformAllAppend(Fresh, st.log, ResizeEffects(v));
    RendersOfAppend(st.log, ResizeEffects(v), NoiseScene);
  }

  /** The dither resolution is stale after a resize until the next tick,
      which sets it to the composition targets' new size. */
  lemma ResizeThenTick(st: Stage, v: Viewport, time: real, ndc: Point)
    requires Healthy(st) && ValidViewport(v)
    ensures var d := Tick(Resize(st, v), true, time, ndc).device;
            var e := Scaled(v.width, v.height, PixelRatio(v.dpr));
            && Holds(d, DitherResolution, Pair(e.width, e.height))
            && SizedTo(d, Default, e) && SizedTo(d, Distortion, e) && SizedTo(d, PreDistortion, e)
  {
    ResizeHealthy(st, v);
    var st1 := Resize(st, v);
    TickStep(st1.device, st1, time, ndc);
    TickUniforms(st1, time, ndc);
  }

  /** Setting the background keeps the stage healthy and holds the new
      colour until the next change, whatever ticks run meanwhile. */
  lemma BackgroundPersists(st: Stage, rgb: Rgb, time: real, ndc: Point)
    requires Healthy(st)
    ensures Healthy(SetBackground(st, rgb))
    ensures Holds(SetBackground(st, rgb).device, DitherBackground, Colour3(rgb))
    ensures Holds(Tick(SetBackground(st, rgb), true, time, ndc).device, DitherBackground, Colour3(rgb))
  {
    var es := [WriteUniform(DitherBackground, Colour3(rgb))];
    PerformAllAppend(Fresh, st.log, es);
    RendersOfAppend(st.log, es, NoiseScene);
    RendersOfNone(es, NoiseScene);
    var st1 := SetBackground(st, rgb);
    assert st1.device == st.device.(uniforms := st.device.uniforms[DitherBackground := Colour3(rgb)]);
    TickUniforms(st1, time, ndc);
  }
}
