/**
 The WebGL renderer as the component drives it, reduced to the calls it
 makes: every call is an `Effect`, the renderer's state is a `Device`,
 and `PerformAll` interprets a log of calls. Each `render` call becomes a
 `Pass` that records the target, clear colour and textures in force at
 that moment.
 */
module RenderTrace {
  import opened Results
  import opened HexColour

  /** The off-screen render targets; `None` is the canvas. */
  datatype Target = PreDistortion | Distortion | Default | Noise

  datatype SceneId = MainScene | DistortionScene | CompositionScene | DitherScene | NoiseScene

  datatype CameraId = MainCamera | CompositionCamera | DitherCamera | NoiseCamera

  /** A clear colour as three bytes. */
  datatype Colour = Colour(r: nat, g: nat, b: nat)

  /** `#130e16`, the clear colour of the scene and composition passes. */
  const Background := Colour(0x13, 0x0e, 0x16)

  /** `#000000`, the clear colour of the distortion pass. */
  const Black := Colour(0, 0, 0)

  /** The shader uniforms the component writes. */
  datatype Uniform =
    | DiscTime | DiscNoises
    | CompositionTime | CompositionDefault | CompositionDistortion | ConvergencePosition
    | DitherInput | DitherResolution | DitherTime | DitherBackground
    | GridSize | Intensity | Contrast

  datatype Value =
    | Scalar(x: real)
    | Pair(x: real, y: real)
    | Colour3(rgb: Rgb)
    | Texture(source: Option<Target>)

  datatype Effect =
    | SetRenderTarget(target: Option<Target>)
    | SetClearColor(colour: Colour)
    | SetPixelRatio(ratio: real)
    | SetSize(width: real, height: real)
    | SetTargetSize(sized: Target, width: real, height: real)
    | WriteUniform(uniform: Uniform, value: Value)
    | Render(scene: SceneId, camera: CameraId)
    | RequestFrame

  datatype Extent = Extent(width: real, height: real)

  datatype Device = Device(
    target: Option<Target>,
    clear: Colour,
    ratio: real,
    size: Extent,
    targetSizes: map<Target, Extent>,
    uniforms: map<Uniform, Value>,
    frames: nat)

  /** A fresh renderer: drawing to the canvas, cleared to black, pixel
      ratio 1, nothing allocated or bound yet. */
  const Fresh := Device(None, Black, 1.0, Extent(0.0, 0.0), map[], map[], 0)

  /** One renderer call. Drawing changes none of the renderer's state. */
  function Perform(d: Device, e: Effect): (r: Device)
    ensures e.Render? ==> r == d
    ensures e.SetRenderTarget? ==> r.target == e.target && r.uniforms == d.uniforms && r.clear == d.clear
    ensures e.SetClearColor? ==> r.clear == e.colour && r.target == d.target && r.uniforms == d.uniforms
    ensures !e.SetRenderTarget? ==> r.target == d.target
    ensures !e.SetClearColor? ==> r.clear == d.clear
    ensures !e.WriteUniform? ==> r.uniforms == d.uniforms
    ensures !e.SetTargetSize? ==> r.targetSizes == d.targetSizes
    ensures !e.SetPixelRatio? ==> r.ratio == d.ratio
    ensures !e.SetSize? ==> r.size == d.size
    ensures r.frames == d.frames + (if e.RequestFrame? then 1 else 0)
  {
    match e
    case SetRenderTarget(t) => d.(target := t)
    case SetClearColor(c) => d.(clear := c)
    case SetPixelRatio(x) => d.(ratio := x)
    case SetSize(w, h) => d.(size := Extent(w, h))
    case SetTargetSize(t, w, h) => d.(targetSizes := d.targetSizes[t := Extent(w, h)])
    case WriteUniform(u, v) => d.(uniforms := d.uniforms[u := v])
    case Render(_, _) => d
    case RequestFrame => d.(frames := d.frames + 1)
  }

  function PerformAll(d: Device, es: seq<Effect>): Device
    decreases |es|
  {
    if |es| == 0 then d else PerformAll(Perform(d, es[0]), es[1..])
  }

  /** Performing two logs in turn is performing their concatenation. */
  lemma {:induction false} PerformAllAppend(d: Device, a: seq<Effect>, b: seq<Effect>)
    ensures PerformAll(d, a + b) == PerformAll(PerformAll(d, a), b)
    decreases |a|
  {
    if |a| > 0 {
      assert (a + b)[0] == a[0];
      assert (a + b)[1..] == a[1..] + b;
      PerformAllAppend(Perform(d, a[0]), a[1..], b);
    } else {
      assert a + b == b;
    }
  }

  /** The render target a texture uniform samples, if any. */
  function Sampled(uniforms: map<Uniform, Value>, u: Uniform): (ts: set<Target>)
    ensures |ts| <= 1
    ensures forall t :: t in ts <==> u in uniforms && uniforms[u] == Texture(Some(t))
  {
    if u in uniforms && uniforms[u].Texture? && uniforms[u].source.Some? then
      assert uniforms[u] == Texture(Some(uniforms[u].source.value));
      {uniforms[u].source.value}
    else {}
  }

  /** The render targets a scene samples through its materials' texture
      uniforms: the disc samples the noise, the composition samples the
      scene and distortion images, the dither plane samples `tDiffuse`. */
  function Reads(scene: SceneId, uniforms: map<Uniform, Value>): set<Target> {
    match scene
    case MainScene => Sampled(uniforms, DiscNoises)
    case CompositionScene => Sampled(uniforms, CompositionDefault) + Sampled(uniforms, CompositionDistortion)
    case DitherScene => Sampled(uniforms, DitherInput)
    case _ => {}
  }

  /** One draw call as the renderer sees it. */
  datatype Pass = Pass(scene: SceneId, camera: CameraId, target: Option<Target>, clear: Colour, samples: set<Target>)

  /** The draw calls of a log performed from `d`, in order. */
  function Passes(d: Device, es: seq<Effect>): (ps: seq<Pass>)
    ensures |ps| == |RenderCalls(es)|
    ensures forall k :: 0 <= k < |ps| ==> ps[k].scene == RenderCalls(es)[k].scene && ps[k].camera == RenderCalls(es)[k].camera
    decreases |es|
  {
    if |es| == 0 then []
    else
      var head := if es[0].Render? then [Pass(es[0].scene, es[0].camera, d.target, d.clear, Reads(es[0].scene, d.uniforms))] else [];
      head + Passes(Perform(d, es[0]), es[1..])
  }

  /** The `render` calls of a log, in order. */
  function RenderCalls(es: seq<Effect>): (rs: seq<Effect>)
    ensures forall k :: 0 <= k < |rs| ==> rs[k].Render?
    ensures |rs| <= |es|
    decreases |es|
  {
    if |es| == 0 then []
    else (if es[0].Render? then [es[0]] else []) + RenderCalls(es[1..])
  }

  lemma {:induction false} RenderCallsAppend(a: seq<Effect>, b: seq<Effect>)
    ensures RenderCalls(a + b) == RenderCalls(a) + RenderCalls(b)
    decreases |a|
  {
    if |a| > 0 {
      assert (a + b)[0] == a[0];
      assert (a + b)[1..] == a[1..] + b;
      RenderCallsAppend(a[1..], b);
    } else {
      assert a + b == b;
    }
  }

  /** The passes of a concatenated log are those of its halves, the second
      half starting from the state the first leaves. */
  lemma {:induction false} PassesAppend(d: Device, a: seq<Effect>, b: seq<Effect>)
    ensures Passes(d, a + b) == Passes(d, a) + Passes(PerformAll(d, a), b)
    decreases |a|
  {
    if |a| > 0 {
      assert (a + b)[0] == a[0];
      assert (a + b)[1..] == a[1..] + b;
      PassesAppend(Perform(d, a[0]), a[1..], b);
    } else {
      assert a + b == b;
    }
  }

  /** The value the last write to `u` in a log gave it. */
  function LastWrite(es: seq<Effect>, u: Uniform): Option<Value>
    decreases |es|
  {
    if |es| == 0 then None
    else
      var e := es[|es| - 1];
      if e.WriteUniform? && e.uniform == u then Some(e.value)
      else LastWrite(es[..|es| - 1], u)
  }

  /** After a log, a uniform holds its last write in the log, or what it
      held before when the log never writes it. */
  lemma {:induction false} UniformsFollowLastWrite(d: Device, es: seq<Effect>, u: Uniform)
    ensures LastWrite(es, u).Some? ==>
              u in PerformAll(d, es).uniforms && PerformAll(d, es).uniforms[u] == LastWrite(es, u).value
    ensures LastWrite(es, u).None? ==>
              (u in PerformAll(d, es).uniforms <==> u in d.uniforms)
              && (u in d.uniforms ==> PerformAll(d, es).uniforms[u] == d.uniforms[u])
    decreases |es|
  {
    if |es| > 0 {
      var init, last := es[..|es| - 1], es[|es| - 1];
      assert es == init + [last];
      PerformAllAppend(d, init, [last]);
      UniformsFollowLastWrite(d, init, u);
      assert PerformAll(PerformAll(d, init), [last]) == Perform(PerformAll(d, init), last);
    }
  }

  /** Number of `render` calls of a log that draw `scene`. */
  function RendersOf(es: seq<Effect>, scene: SceneId): nat
    decreases |es|
  {
    if |es| == 0 then 0
    else (if es[0].Render? && es[0].scene == scene then 1 else 0) + RendersOf(es[1..], scene)
  }

  lemma {:induction false} RendersOfAppend(a: seq<Effect>, b: seq<Effect>, scene: SceneId)
    ensures RendersOf(a + b, scene) == RendersOf(a, scene) + RendersOf(b, scene)
    decreases |a|
  {
    if |a| > 0 {
      assert (a + b)[0] == a[0];
      assert (a + b)[1..] == a[1..] + b;
      RendersOfAppend(a[1..], b, scene);
    } else {
      assert a + b == b;
    }
  }

  /** Number of `requestAnimationFrame` calls of a log. */
  function FrameRequests(es: seq<Effect>): nat
    decreases |es|
  {
    if |es| == 0 then 0
    else (if es[0].RequestFrame? then 1 else 0) + FrameRequests(es[1..])
  }

  lemma {:induction false} FrameRequestsAppend(a: seq<Effect>, b: seq<Effect>)
    ensures FrameRequests(a + b) == FrameRequests(a) + FrameRequests(b)
    decreases |a|
  {
    if |a| > 0 {
      assert (a + b)[0] == a[0];
      assert (a + b)[1..] == a[1..] + b;
      FrameRequestsAppend(a[1..], b);
    } else {
      assert a + b == b;
    }
  }

  /** What a log without a given kind of call leaves alone. */
  lemma {:induction false} PerformAllKeeps(d: Device, es: seq<Effect>)
    ensures (forall k :: 0 <= k < |es| ==> !es[k].WriteUniform?) ==> PerformAll(d, es).uniforms == d.uniforms
    ensures (forall k :: 0 <= k < |es| ==> !es[k].SetTargetSize?) ==> PerformAll(d, es).targetSizes == d.targetSizes
    ensures (forall k :: 0 <= k < |es| ==> !es[k].SetPixelRatio?) ==> PerformAll(d, es).ratio == d.ratio
    ensures (forall k :: 0 <= k < |es| ==> !es[k].SetSize?) ==> PerformAll(d, es).size == d.size
    ensures (forall k :: 0 <= k < |es| ==> !es[k].SetRenderTarget?) ==> PerformAll(d, es).target == d.target
    ensures (forall k :: 0 <= k < |es| ==> !es[k].SetClearColor?) ==> PerformAll(d, es).clear == d.clear
    ensures PerformAll(d, es).frames == d.frames + FrameRequests(es)
    decreases |es|
  {
    if |es| > 0 {
      PerformAllKeeps(Perform(d, es[0]), es[1..]);
    }
  }

  /** A log that never draws has no passes. */
  lemma {:induction false} PassesWithoutRender(d: Device, es: seq<Effect>)
    requires forall k :: 0 <= k < |es| ==> !es[k].Render?
    ensures Passes(d, es) == []
    decreases |es|
  {
    if |es| > 0 {
      PassesWithoutRender(Perform(d, es[0]), es[1..]);
    }
  }

  /** A log that never draws `scene` counts none of its renders. */
  lemma {:induction false} RendersOfNone(es: seq<Effect>, scene: SceneId)
    requires forall k :: 0 <= k < |es| ==> !(es[k].Render? && es[k].scene == scene)
    ensures RendersOf(es, scene) == 0
    decreases |es|
  {
    if |es| > 0 {
      RendersOfNone(es[1..], scene);
    }
  }

  lemma {:induction false} LastWriteAppend(a: seq<Effect>, b: seq<Effect>, u: Uniform)
    ensures LastWrite(a + b, u) == if LastWrite(b, u).Some? then LastWrite(b, u) else LastWrite(a, u)
    decreases |b|
  {
    if |b| > 0 {
      assert (a + b)[..|a + b| - 1] == a + b[..|b| - 1];
      assert (a + b)[|a + b| - 1] == b[|b| - 1];
      LastWriteAppend(a, b[..|b| - 1], u);
    } else {
      assert a + b == a;
    }
  }

  lemma {:induction false} LastWriteNone(es: seq<Effect>, u: Uniform)
    requires forall k :: 0 <= k < |es| ==> !(es[k].WriteUniform? && es[k].uniform == u)
    ensures LastWrite(es, u) == None
    decreases |es|
  {
    if |es| > 0 {
      LastWriteNone(es[..|es| - 1], u);
    }
  }

  lemma {:induction false} FrameRequestsNone(es: seq<Effect>)
    requires forall k :: 0 <= k < |es| ==> !es[k].RequestFrame?
    ensures FrameRequests(es) == 0
    decreases |es|
  {
    if |es| > 0 {
      FrameRequestsNone(es[1..]);
    }
  }

  /** One call in front of a log. */
  lemma PerformCons(d: Device, e: Effect, es: seq<Effect>)
    ensures PerformAll(d, [e] + es) == PerformAll(Perform(d, e), es)
  {
    assert ([e] + es)[1..] == es;
  }

  lemma PassesCons(d: Device, e: Effect, es: seq<Effect>)
    ensures Passes(d, [e] + es)
         == (if e.Render? then [Pass(e.scene, e.camera, d.target, d.clear, Reads(e.scene, d.uniforms))] else [])
            + Passes(Perform(d, e), es)
  {
    assert ([e] + es)[1..] == es;
  }

  /** A log of uniform writes and target allocations only. */
  predicate Configures(es: seq<Effect>) {
    forall k :: 0 <= k < |es| ==> es[k].WriteUniform? || es[k].SetTargetSize?
  }

  lemma ConfiguresAppend(a: seq<Effect>, b: seq<Effect>)
    requires Configures(a) && Configures(b)
    ensures Configures(a + b)
  {
    forall k | 0 <= k < |a + b|
      ensures (a + b)[k].WriteUniform? || (a + b)[k].SetTargetSize?
    {
      if k >= |a| { assert (a + b)[k] == b[k - |a|]; }
    }
  }

  /** Such a log draws nothing, requests no frame and leaves the
      render target, clear colour, pixel ratio and canvas size alone. */
  lemma {:induction false} ConfiguresKeeps(d: Device, es: seq<Effect>, scene: SceneId)
    requires Configures(es)
    ensures var r := PerformAll(d, es);
            r.target == d.target && r.clear == d.clear && r.ratio == d.ratio && r.size == d.size
            && r.frames == d.frames
    ensures Passes(d, es) == []
    ensures RendersOf(es, scene) == 0
    decreases |es|
  {
    if |es| > 0 {
      assert es[0].WriteUniform? || es[0].SetTargetSize?;
      assert Configures(es[1..]) by {
        forall k | 0 <= k < |es[1..]| ensures es[1..][k].WriteUniform? || es[1..][k].SetTargetSize? {
          assert es[1..][k] == es[k + 1];
        }
      }
      ConfiguresKeeps(Perform(d, es[0]), es[1..], scene);
    }
  }
}
