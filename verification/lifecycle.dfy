/**
 The component's mount effect as a state machine. Mounting starts
 `initScene`, which awaits every shader and then builds the scene,
 registers the resize handler, stores the cleanup and runs the first
 tick. The flag `mounted` is read when `initScene` starts and at the top
 of every tick; the unmount cleanup clears it and, if the cleanup has
 been stored, removes the resize handler, disposes the renderer and
 cancels the pending frame. The network, the clock, the window and the
 projected black-hole centre arrive with the events.
 */
module Lifecycle {
  import opened Results
  import opened HexColour
  import opened RenderTrace
  import opened Frame
  import opened ShaderLoader

  /** The twelve shader files fetched in parallel without checking `ok`. */
  const RawPaths: seq<string> := [
    "/shaders/disc/vertex.glsl", "/shaders/disc/fragment.glsl",
    "/shaders/noises/vertex.glsl", "/shaders/noises/fragment.glsl",
    "/shaders/stars/vertex.glsl", "/shaders/stars/fragment.glsl",
    "/shaders/distortionHole/vertex.glsl", "/shaders/distortionHole/fragment.glsl",
    "/shaders/composition/vertex.glsl", "/shaders/composition/fragment.glsl",
    "/shaders/distortionDisc/vertex.glsl", "/shaders/distortionDisc/fragment.glsl"
  ]

  /** The dither shaders, also fetched without checking `ok`. */
  const DitherPaths: seq<string> := ["/shaders/dither/vertex.glsl", "/shaders/dither/fragment.glsl"]

  /** Reading the body of any response succeeds unless the fetch throws. */
  function AllTexts(paths: seq<string>, fetch: Fetcher): (ok: bool)
    ensures ok <==> forall i :: 0 <= i < |paths| ==> !fetch(paths[i]).Failed?
    decreases |paths|
  {
    if |paths| == 0 then true
    else
      assert forall i :: 0 < i < |paths| ==> paths[i] == paths[1..][i - 1];
      !fetch(paths[0]).Failed? && AllTexts(paths[1..], fetch)
  }

  /** Whether every await of `initScene` before the scene is built
      resolves: the raw shaders, the five include-processed fragments,
      and the two dither shaders. */
  function AssetsLoad(fetch: Fetcher): (ok: bool)
    ensures ok <==>
      && (forall i :: 0 <= i < |RawPaths| ==> !fetch(RawPaths[i]).Failed?)
      && (forall i :: 0 <= i < |IncludeProcessed| ==> fetch(IncludeProcessed[i]).Fetched?)
      && (forall i :: 0 <= i < |DitherPaths| ==> !fetch(DitherPaths[i]).Failed?)
  {
    AllTexts(RawPaths, fetch) && LoadAll(IncludeProcessed, fetch).Success? && AllTexts(DitherPaths, fetch)
  }

  /** The three preset background buttons. */
  datatype Preset = BlackPreset | DarkBlue | DarkPurple

  function PresetRgb(p: Preset): Rgb {
    match p
    case BlackPreset => Rgb(Some(0.0), Some(0.0), Some(0.0))
    case DarkBlue => Rgb(Some(0.1), Some(0.1), Some(0.2))
    case DarkPurple => Rgb(Some(0.2), Some(0.1), Some(0.2))
  }

  /** `initScene` has not settled, has returned or thrown, or has built
      the scene. */
  datatype Phase = Loading | Stopped | Live(stage: Stage)

  datatype Session = Session(
    mounted: bool,       // the effect's `mounted` flag
    attached: bool,      // `mountRef.current` still holds the container
    phase: Phase,
    cleanup: bool,       // `sceneRef.current.cleanup` is stored
    listening: bool,     // `handleResize` is registered on the window
    framePending: bool,  // a `requestAnimationFrame` callback is scheduled
    disposed: bool,      // the renderer was disposed
    unmountedAt: Option<nat>)  // renderer log length when the cleanup ran

  datatype Event =
    | AssetsSettled(fetch: Fetcher, viewport: Viewport, time: real, ndc: Point)
    | AnimationFrame(time: real, ndc: Point)
    | WindowResized(viewport: Viewport)
    | ColourPicked(hex: string)
    | PresetChosen(preset: Preset)
    | Unmount(keepsNode: bool)

  /** The component as written checks `mounted` only on entry and per
      tick; `Rechecked` also checks it once the awaits have settled. */
  datatype Policy = AsWritten | Rechecked

  /** Mounting: the entry check passes and `initScene` starts awaiting. */
  const Start := Session(true, true, Loading, false, false, false, false, None)

  function Log(s: Session): seq<Effect> {
    if s.phase.Live? then s.phase.stage.log else []
  }

  /** The end of `initScene`: build, register, store the cleanup, tick. */
  function Settle(p: Policy, s: Session, loaded: bool, v: Viewport, time: real, ndc: Point): (r: Session)
    requires s.phase.Loading?
    ensures r.phase.Live? <==> loaded && s.attached && (p.AsWritten? || s.mounted)
    ensures r.mounted == s.mounted && r.attached == s.attached && r.unmountedAt == s.unmountedAt
    ensures !r.phase.Live? ==> r == s.(phase := Stopped)
  {
    if p.Rechecked? && !s.mounted then s.(phase := Stopped)
    else if !loaded then s.(phase := Stopped)
    else if !s.attached then s.(phase := Stopped)
    else
      var built := Build(v);
      s.(phase := Live(Tick(built, s.mounted, time, ndc)), cleanup := true, listening := true,
         framePending := s.mounted)
  }

  /** One event. The renderer's log only grows, and an unmounted
      component never mounts again. */
  function Step(p: Policy, s: Session, e: Event): (r: Session)
    ensures Log(s) <= Log(r)
    ensures r.mounted ==> s.mounted
  {
    match e
    case AssetsSettled(fetch, v, time, ndc) =>
      if s.phase.Loading? then Settle(p, s, AssetsLoad(fetch), v, time, ndc) else s
    case AnimationFrame(time, ndc) =>
      if s.phase.Live? && s.framePending then
        s.(phase := Live(Tick(s.phase.stage, s.mounted, time, ndc)), framePending := s.mounted)
      else s
    case WindowResized(v) =>
      if s.phase.Live? && s.listening then s.(phase := Live(Resize(s.phase.stage, v))) else s
    // The source tests only that the dither material exists; the picker
    // leaves the page with the component, so a picked colour never reaches
    // an unmounted one. Remounting is outside this model, which makes the
    // `mounted` gate below equivalent.
    case ColourPicked(hex) =>
      if s.mounted && s.phase.Live? then s.(phase := Live(SetBackground(s.phase.stage, HexToRgb(hex)))) else s
    case PresetChosen(preset) =>
      if s.mounted && s.phase.Live? then s.(phase := Live(SetBackground(s.phase.stage, PresetRgb(preset)))) else s
    case Unmount(keepsNode) =>
      if !s.mounted then s
      else
        var t := s.(mounted := false, attached := keepsNode, unmountedAt := Some(|Log(s)|));
        if s.cleanup then t.(listening := false, framePending := false, disposed := true) else t
  }

  function Run(p: Policy, s: Session, es: seq<Event>): (r: Session)
    ensures Log(s) <= Log(r)
    ensures r.mounted ==> s.mounted
    decreases |es|
  {
    if |es| == 0 then s else Run(p, Step(p, s, es[0]), es[1..])
  }

  /** Events carry what browsers report: a positive pixel ratio. */
  predicate ValidEvent(e: Event) {
    match e
    case AssetsSettled(_, v, _, _) => ValidViewport(v)
    case WindowResized(v) => ValidViewport(v)
    case _ => true
  }

  /** What holds of every reachable session. */
  predicate Inv(s: Session) {
    && (s.phase.Live? ==> Healthy(s.phase.stage))
    && (s.cleanup <==> s.phase.Live?)
    && (s.listening ==> s.phase.Live?)
    && (s.framePending ==> s.phase.Live?)
    && (s.phase.Live? && s.mounted ==> s.framePending && s.listening)
    && (s.framePending ==> s.mounted)
    && (s.mounted <==> s.unmountedAt.None?)
    && (s.disposed ==> s.phase.Live? && !s.listening && !s.framePending)
  }

  /** Nothing has been drawn or requested since the cleanup ran, and no
      handler is left on the window. */
  predicate Quiet(s: Session) {
    s.unmountedAt.Some? ==> |Log(s)| == s.unmountedAt.value && !s.listening && !s.framePending
  }

  lemma StartInv()
    ensures Inv(Start) && Quiet(Start)
  {
  }

  lemma SettleInv(p: Policy, s: Session, loaded: bool, v: Viewport, time: real, ndc: Point)
    requires Inv(s) && s.phase.Loading? && ValidViewport(v)
    ensures Inv(Settle(p, s, loaded, v, time, ndc))
  {
    if !(p.Rechecked? && !s.mounted) && loaded && s.attached {
      BuildHealthy(v);
      TickHealthy(Build(v), s.mounted, time, ndc);
    }
  }

  lemma FrameInv(p: Policy, s: Session, time: real, ndc: Point)
    requires Inv(s)
    ensures Inv(Step(p, s, AnimationFrame(time, ndc)))
  {
    if s.phase.Live? && s.framePending {
      TickHealthy(s.phase.stage, s.mounted, time, ndc);
    }
  }

  lemma ResizeInv(p: Policy, s: Session, v: Viewport)
    requires Inv(s) && ValidViewport(v)
    ensures Inv(Step(p, s, WindowResized(v)))
  {
    if s.phase.Live? && s.listening {
      ResizeHealthy(s.phase.stage, v);
    }
  }

  lemma BackgroundInv(s: Session, rgb: Rgb)
    requires Inv(s) && s.mounted && s.phase.Live?
    ensures Inv(s.(phase := Live(SetBackground(s.phase.stage, rgb))))
  {
    BackgroundPersists(s.phase.stage, rgb, 0.0, Point(0.0, 0.0));
  }

  /** Every event keeps the invariant, under either policy. */
  lemma StepInv(p: Policy, s: Session, e: Event)
    requires Inv(s) && ValidEvent(e)
    ensures Inv(Step(p, s, e))
  {
    match e
    case AssetsSettled(fetch, v, time, ndc) =>
      if s.phase.Loading? {
        SettleInv(p, s, AssetsLoad(fetch), v, time, ndc);
      }
    case AnimationFrame(time, ndc) =>
      FrameInv(p, s, time, ndc);
    case WindowResized(v) =>
      ResizeInv(p, s, v);
    case ColourPicked(hex) =>
      if s.mounted && s.phase.Live? {
        BackgroundInv(s, HexToRgb(hex));
      }
    case PresetChosen(preset) =>
      if s.mounted && s.phase.Live? {
        BackgroundInv(s, PresetRgb(preset));
      }
    case Unmount(_) =>
  }

  /** From mounting on, whatever happens: a live scene is healthy (the
      noise is baked exactly once into its 256 × 256 target, the pixel
      ratio is at most 2, the composition targets follow the drawing
      buffer) and, while mounted, the next frame is always requested. */
  lemma {:induction false} RunInv(p: Policy, s: Session, es: seq<Event>)
    requires Inv(s)
    requires forall i :: 0 <= i < |es| ==> ValidEvent(es[i])
    ensures Inv(Run(p, s, es))
    decreases |es|
  {
    if |es| > 0 {
      StepInv(p, s, es[0]);
      RunInv(p, Step(p, s, es[0]), es[1..]);
    }
  }

  /** With the re-check, each event keeps a cleaned-up session quiet. */
  lemma StepQuietRechecked(s: Session, e: Event)
    requires Inv(s) && Quiet(s)
    ensures Quiet(Step(Rechecked, s, e))
  {
  }

  /** With the re-check, once the component unmounts nothing more is
      drawn, no frame is requested and no handler is left behind. */
  lemma {:induction false} RunQuietRechecked(s: Session, es: seq<Event>)
    requires Inv(s) && Quiet(s)
    requires forall i :: 0 <= i < |es| ==> ValidEvent(es[i])
    ensures Quiet(Run(Rechecked, s, es))
    decreases |es|
  {
    if |es| > 0 {
      StepInv(Rechecked, s, es[0]);
      StepQuietRechecked(s, es[0]);
      RunQuietRechecked(Step(Rechecked, s, es[0]), es[1..]);
    }
  }

  lemma RecheckedQuiet(s: Session, es: seq<Event>)
    requires s == Start
    requires forall i :: 0 <= i < |es| ==> ValidEvent(es[i])
    ensures Quiet(Run(Rechecked, s, es))
  {
    StartInv();
    RunQuietRechecked(s, es);
  }

  /** As written, an unmount that comes after `initScene` has settled
      leaves the session quiet as well. */
  lemma StepQuietAsWritten(s: Session, e: Event)
    requires Inv(s) && Quiet(s)
    requires !s.phase.Loading?
    ensures Quiet(Step(AsWritten, s, e)) && !Step(AsWritten, s, e).phase.Loading?
  {
  }

  lemma {:induction false} RunQuietAsWritten(s: Session, es: seq<Event>)
    requires Inv(s) && Quiet(s) && !s.phase.Loading?
    requires forall i :: 0 <= i < |es| ==> ValidEvent(es[i])
    ensures Quiet(Run(AsWritten, s, es))
    decreases |es|
  {
    if |es| > 0 {
      StepInv(AsWritten, s, es[0]);
      StepQuietAsWritten(s, es[0]);
      RunQuietAsWritten(Step(AsWritten, s, es[0]), es[1..]);
    }
  }

  /** An oracle under which every file is found. */
  function Found(path: string): FetchResult {
    Fetched("")
  }

  /** As written: an unmount that keeps the container in place (React's
      development double mount) while the shaders load. `initScene` goes
      on, bakes the noise with the renderer after the cleanup has run,
      and registers a resize handler that nothing will ever remove; its
      first tick then stops at the `mounted` check. */
  lemma AsWrittenLeaks(v: Viewport, time: real, ndc: Point, s0: Session)
    requires ValidViewport(v) && s0 == Start
    ensures var s := Run(AsWritten, s0, [Unmount(true), AssetsSettled(Found, v, time, ndc)]);
            && !s.mounted && s.listening && s.phase.Live?
            && RendersOf(Log(s), NoiseScene) == 1
            && !Quiet(s)
  {
    var e := AssetsSettled(Found, v, time, ndc);
    var s1 := Step(AsWritten, s0, Unmount(true));
    assert s1 == s0.(mounted := false, unmountedAt := Some(0));
    TwoSteps(AsWritten, s0, Unmount(true), e);
    LeakAfterSettle(s1, v, time, ndc);
  }

  lemma LeakAfterSettle(s: Session, v: Viewport, time: real, ndc: Point)
    requires s.phase.Loading? && s.attached && !s.mounted && s.unmountedAt == Some(0) && ValidViewport(v)
    ensures var r := Step(AsWritten, s, AssetsSettled(Found, v, time, ndc));
            && !r.mounted && r.listening && r.phase.Live?
            && RendersOf(Log(r), NoiseScene) == 1
            && !Quiet(r)
  {
    FoundLoads();
    SettleUnmounted(s, v, time, ndc);
  }

  lemma BakedOnce(v: Viewport)
    requires ValidViewport(v)
    ensures RendersOf(Build(v).log, NoiseScene) == 1
  {
    BuildHealthy(v);
  }

  /** A mounted settle builds the scene and draws its first frame: the
      log holds the noise bake and then the four passes of one tick, one
      frame has been requested, and the next is pending. */
  lemma SettleMounted(p: Policy, s: Session, v: Viewport, time: real, ndc: Point)
    requires s.phase.Loading? && s.attached && s.mounted && ValidViewport(v)
    ensures var r := Settle(p, s, true, v, time, ndc);
            && r.phase.Live? && r.framePending && r.listening && r.cleanup
            && Passes(Fresh, Log(r)) == [Pass(NoiseScene, NoiseCamera, Some(Noise), Background, {})] + TickPlan
            && r.phase.stage.device.frames == 1
  {
    BuildState(v);
    BuildHealthy(v);
    TickDraws(Build(v), time, ndc);
  }

  lemma SettleUnmounted(s: Session, v: Viewport, time: real, ndc: Point)
    requires s.phase.Loading? && s.attached && !s.mounted && ValidViewport(v)
    ensures var r := Settle(AsWritten, s, true, v, time, ndc);
            && r.phase.Live? && r.listening && !r.mounted && r.unmountedAt == s.unmountedAt
            && r.phase.stage == Build(v)
            && RendersOf(r.phase.stage.log, NoiseScene) == 1
  {
    TickUnmounted(Build(v), time, ndc);
    BakedOnce(v);
  }

  /** The same events with the re-check leave nothing behind. */
  lemma RecheckedDoesNotLeak(v: Viewport, time: real, ndc: Point)
    ensures var s := Run(Rechecked, Start, [Unmount(true), AssetsSettled(Found, v, time, ndc)]);
            !s.mounted && !s.listening && s.phase.Stopped? && Quiet(s)
  {
    TwoSteps(Rechecked, Start, Unmount(true), AssetsSettled(Found, v, time, ndc));
  }

  lemma TwoSteps(p: Policy, s: Session, a: Event, b: Event)
    ensures Run(p, s, [a, b]) == Step(p, Step(p, s, a), b)
  {
    assert [a, b][1..] == [b];
    assert [b][1..] == [];
    calc {
      Run(p, s, [a, b]);
      Run(p, Step(p, s, a), [b]);
      Run(p, Step(p, Step(p, s, a), b), []);
    }
  }

  lemma FoundLoads()
    ensures AssetsLoad(Found)
  {
  }

  /** The cleanup runs once: a second unmount changes nothing. */
  lemma TeardownIdempotent(p: Policy, s: Session, a: bool, b: bool)
    ensures Step(p, Step(p, s, Unmount(a)), Unmount(b)) == Step(p, s, Unmount(a))
  {
  }
}
