# Dither black hole: shader loading, render passes and lifecycle

A Dafny model of the React component `BlackHoleVisualization`. The
component draws a black hole with three.js and passes the image through
a dithering shader. The model covers what the component decides, not
the pixels it draws:

- **Shader loading** (`ShaderLoader`, `IncludeRegex`, `IncludePath`,
  `JsStrings`). `loadShaderWithIncludes` fetches a fragment shader, finds
  every `#include` directive with the regular expression `#include\s+(.+)`,
  and resolves each argument to a URL under `/shaders/`. Each directive's
  first occurrence is then rewritten with `String.prototype.replace`,
  which takes the fetched file as a replacement template: `$$`, `$&`,
  `` $` `` and `$'` in the file are expanded (`ExpandAsWritten`). A
  directive whose include is not ok or throws is dropped. The verbatim
  splice the code evidently means is modelled beside it (`Expand`), and
  the two agree whenever no fetched file contains `$`. The network is an oracle from path to
  `Fetched(text)`, `NotOk(status)` or `Failed`. The JavaScript string
  operations are modelled with their ECMAScript meaning, including
  `trim`'s whitespace set, the first-occurrence `replace`, and `$`
  patterns in a replacement string.
- **Background colour** (`HexColour`). The colour picker turns `#rrggbb`
  into three channels with `parseInt(hex.slice(i, j), 16) / 255`.
  `parseInt` is modelled whole: leading whitespace, a sign, a `0x`
  prefix, the longest hex-digit prefix, and NaN as `None`.
- **Renderer** (`RenderTrace`). Renderer calls are `Effect`s: target,
  clear colour, pixel ratio, size, render-target sizes, uniform writes,
  draws and frame requests. A `Device` records their cumulative state.
  A log of effects is interpreted into that state and into the sequence
  of render passes.
- **Frame** (`Frame`). This covers:
  - building the scene: renderer setup, the one-off 256 × 256 noise
    bake, the composition targets at the drawing-buffer size, and the
    initial material uniforms;
  - one animation tick: uniform updates, three off-screen passes, the
    dither pass to the canvas, and the next frame request;
  - the resize handler;
  - the projected centre mapped from device to texture coordinates
    (`x · 0.5 + 0.5`).
- **Lifecycle** (`Lifecycle`). This is the mount effect as a state
  machine over events: assets settled, animation frame, window resized,
  colour picked, preset chosen, unmount. It also records the `mounted`
  flag, the stored cleanup, the resize listener and the pending frame.

The clock, the window size and device pixel ratio, the network and the
camera projection arrive as parameters.

## Model

| member | source | states |
|---|---|---|
| JsStrings.Trim | app/components/BlackHoleVisualization.tsx:71 | The result is the slice of the input left when only white space lies before and after it. It has no white space or line terminator at either end, and is empty exactly when the input is all white space |
| JsStrings.TrimIsCore | app/components/BlackHoleVisualization.tsx:71 | Any slice with only white space outside it and none at its own ends is the trim, so the trim is determined by where the text starts and ends |
| JsStrings.TrimFixpoint | app/components/BlackHoleVisualization.tsx:71 | Trimming leaves a string unchanged iff it is empty or neither its first nor its last character is white space |
| JsStrings.IndexOf | app/components/BlackHoleVisualization.tsx:74 | `indexOf` finds the first occurrence of the pattern, and finds nothing exactly when the pattern occurs nowhere |
| JsStrings.ReplaceFirst | app/components/BlackHoleVisualization.tsx:74 | A replacement by a string pattern splices the replacement in at the first occurrence only, and leaves a text without an occurrence unchanged |
| JsStrings.ReplaceByNothing | app/components/BlackHoleVisualization.tsx:99 | Replacing with the empty string cuts the first occurrence out and keeps everything around it |
| JsStrings.JsReplace | app/components/BlackHoleVisualization.tsx:93 | `String.prototype.replace` with a string pattern leaves a text without the pattern unchanged. Otherwise it rewrites the first occurrence only, as the template expanded against the match, the text before it and the text after it |
| JsStrings.JsReplaceDollar | app/components/BlackHoleVisualization.tsx:93 | `$$` in a replacement inserts a single `$` at the first occurrence |
| JsStrings.JsReplaceBefore | app/components/BlackHoleVisualization.tsx:93 | `` $` `` in a replacement inserts the text before the first occurrence |
| JsStrings.JsReplaceAfter | app/components/BlackHoleVisualization.tsx:93 | `$'` in a replacement inserts the text after the first occurrence |
| JsStrings.SubstituteTwo | app/components/BlackHoleVisualization.tsx:93 | In a two-character template, each of `$$`, `$&`, `` $` `` and `$'` expands to its text, and a pair without `$` is kept as written |
| JsStrings.JsReplaceLiteral | app/components/BlackHoleVisualization.tsx:99 | A replacement string without `$` is inserted verbatim, so dropping a directive (replacement `""`) is a plain first-occurrence splice |
| JsStrings.JsReplaceAmpersand | app/components/BlackHoleVisualization.tsx:93 | Replacing with `$&` puts the matched text back: the result equals the input for every text and pattern |
| JsStrings.ReplacePrefix | app/components/BlackHoleVisualization.tsx:78-79 | When the text starts with the pattern, the replacement lands at the front and the rest follows unchanged |
| IncludePath.CleanArgument | app/components/BlackHoleVisualization.tsx:71-74 | The trimmed argument with its first `;` cut out and every other character kept, so one character shorter. An argument without `;` is the trimmed argument |
| IncludePath.Absolute | app/components/BlackHoleVisualization.tsx:76-82 | The URL is rooted, and a `../` argument becomes `/shaders/` followed by the rest of the argument |
| IncludePath.WithExtension | app/components/BlackHoleVisualization.tsx:84-87 | The result ends in `.glsl` and extends its input. It equals its input iff that already ends in `.glsl`, and is otherwise the input followed by exactly `.glsl` |
| IncludePath.ResolveIncludePath | app/components/BlackHoleVisualization.tsx:71-87 | Every resolved include URL starts with `/` and ends with `.glsl` |
| IncludePath.ResolveParent | app/components/BlackHoleVisualization.tsx:78-79 | A `../x` argument resolves to `/shaders/x` with the extension ensured |
| IncludePath.ResolveBare | app/components/BlackHoleVisualization.tsx:80-81 | A relative argument without `../` resolves under `/shaders/` |
| IncludePath.ResolveBareName | app/components/BlackHoleVisualization.tsx:71-87 | A bare name with nothing to trim, no `;` and no extension, such as `noise`, resolves to `/shaders/` + name + `.glsl` |
| IncludePath.ResolveRooted | app/components/BlackHoleVisualization.tsx:77-87 | A rooted argument keeps its path, with only the extension ensured |
| IncludePath.ExtensionNotDoubled | app/components/BlackHoleVisualization.tsx:85-87 | A rooted argument that already ends in `.glsl` resolves to itself, with no second extension |
| IncludePath.ResolveChangesLength | app/components/BlackHoleVisualization.tsx:74 | An argument containing `;` never resolves to its own trimmed text |
| IncludePath.ResolveFixpoint | app/components/BlackHoleVisualization.tsx:71-87 | Resolving a resolved URL again changes nothing iff the URL has no `;` left |
| IncludeRegex.GreedyRest | app/components/BlackHoleVisualization.tsx:58 | The capture `(.+)` never runs past the end of its line |
| IncludeRegex.MatchBeforeText | app/components/BlackHoleVisualization.tsx:58 | When text follows `#include` and its white space, the preferred match captures from the first non-white-space character to the end of the line |
| IncludeRegex.MatchAtTextEnd | app/components/BlackHoleVisualization.tsx:58 | When only white space follows `#include` to the end of the text, backtracking lets the capture start at the last character that is not a line terminator |
| IncludeRegex.MatchAt | app/components/BlackHoleVisualization.tsx:58 | A match found at a position is the one the backtracking regular expression prefers there, and none is found only when the expression cannot match there |
| IncludeRegex.FindMatch | app/components/BlackHoleVisualization.tsx:63 | `exec` from a position returns the leftmost position where the expression matches, with its preferred span |
| IncludeRegex.CollectFrom | app/components/BlackHoleVisualization.tsx:63-65 | The global scan yields preferred matches in order and without overlap, and every position where the expression matches lies inside one of them |
| IncludeRegex.Collect | app/components/BlackHoleVisualization.tsx:58-65 | The same for the whole shader text |
| IncludeRegex.Directives | app/components/BlackHoleVisualization.tsx:62-65 | There is one directive per match, and each is the matched text, starting with `#include` |
| IncludeRegex.PreferredUnique | app/components/BlackHoleVisualization.tsx:58 | At a given position the preferred match is unique |
| IncludeRegex.Rematch | app/components/BlackHoleVisualization.tsx:69 | Matching the non-global expression against a collected directive gives back the same capture |
| ShaderLoader.ArgumentOfMatch | app/components/BlackHoleVisualization.tsx:69-71 | The argument read from a directive is exactly its capture |
| ShaderLoader.DirectiveTarget | app/components/BlackHoleVisualization.tsx:69-87 | A collected directive's URL is its capture in the original text, resolved |
| ShaderLoader.CollectedTarget | app/components/BlackHoleVisualization.tsx:62-87 | The same for the i-th directive of a shader |
| ShaderLoader.ApplyInclude | app/components/BlackHoleVisualization.tsx:89-105 | Corrected iteration (verbatim insertion): the first occurrence of the directive becomes the fetched text, or nothing when the include is not ok or throws |
| ShaderLoader.ApplyIncludeAsWritten | app/components/BlackHoleVisualization.tsx:68-105 | One iteration as written: a directive that does not match or does not occur changes nothing. Otherwise its first occurrence becomes the fetched text, or `""`, expanded as a replacement template against the directive, the text before it and the text after it |
| ShaderLoader.ApplyIncludes | app/components/BlackHoleVisualization.tsx:68-107 | Corrected loop: when none of the listed directives occurs in the text, the text comes back unchanged |
| ShaderLoader.ApplyIncludesAsWritten | app/components/BlackHoleVisualization.tsx:68-107 | The loop as written: when none of the listed directives occurs in the text, the text comes back unchanged |
| ShaderLoader.Expand | app/components/BlackHoleVisualization.tsx:57-109 | Corrected expansion: a shader without `#include` comes back unchanged. ExpandSingleInclude gives its result on a one-directive shader |
| ShaderLoader.ExpandAsWritten | app/components/BlackHoleVisualization.tsx:57-109 | Expansion as written: a shader without `#include` comes back unchanged. ExpandAsWrittenSingleInclude gives its result on a one-directive shader |
| ShaderLoader.ApplyAtFirst | app/components/BlackHoleVisualization.tsx:89-104 | Corrected iteration: where the directive first occurs, it splices in what the fetch gave |
| ShaderLoader.LoadShaderWithIncludes | app/components/BlackHoleVisualization.tsx:50-110 | The load succeeds iff the top-level fetch is ok. A response that is not ok is reported as an error naming the path, and a fetch or body read that throws as a distinct error. A loaded shader without `#include` is its own text |
| ShaderLoader.LoadIsSplice | app/components/BlackHoleVisualization.tsx:50-110 | While no fetched file contains `$`, a loaded shader is the verbatim expansion of its text |
| ShaderLoader.LoadAll | app/components/BlackHoleVisualization.tsx:148-163 | The five awaited loads succeed iff every top-level fetch is ok, giving each shader's expansion as written, in order. Otherwise the error is the first failing load's |
| ShaderLoader.ApplyIncludesAgree | app/components/BlackHoleVisualization.tsx:68-107 | Corrected loop: its result depends only on what the fetches of the listed directives return |
| ShaderLoader.ApplyIncludesAsWrittenAgree | app/components/BlackHoleVisualization.tsx:68-107 | The same for the loop as written |
| ShaderLoader.ExpandFetchesOriginalDirectivesOnly | app/components/BlackHoleVisualization.tsx:62-107 | Corrected expansion: it depends only on the URLs named in the original text, not on directives that included files bring in |
| ShaderLoader.ExpandAsWrittenFetchesOriginalDirectivesOnly | app/components/BlackHoleVisualization.tsx:62-107 | The same for the expansion as written: two networks that agree on the URLs of the original directives give the same shader |
| ShaderLoader.IncludeFailuresNotFatal | app/components/BlackHoleVisualization.tsx:89-105 | Whether a load fails, and with what error, depends only on the top-level fetch, whatever the includes do |
| ShaderLoader.AsWrittenAgreesAll | app/components/BlackHoleVisualization.tsx:68-107 | When no fetched file contains `$`, the loop as written equals the verbatim splice |
| ShaderLoader.ExpandAsWrittenAgrees | app/components/BlackHoleVisualization.tsx:57-110 | The same for the whole expansion |
| ShaderLoader.ExpandOneDirective | app/components/BlackHoleVisualization.tsx:62-107 | Corrected expansion: a shader with one directive becomes the text before it, the fetched file, and the text after it |
| ShaderLoader.ExpandAsWrittenOneDirective | app/components/BlackHoleVisualization.tsx:62-107 | As written, a shader with one directive becomes the text before it, the fetched file expanded as a replacement template, and the text after it |
| ShaderLoader.SingleDirective | app/components/BlackHoleVisualization.tsx:58-65 | `pre + "#include " + name + "\n" + post`, with no `#` in `pre` or `post`, has exactly one directive, whose capture is `name` |
| ShaderLoader.ExpandSingleInclude | app/components/BlackHoleVisualization.tsx:57-110 | Corrected expansion: such a shader becomes `pre`, then the fetched file named by `name` (or nothing if it is not fetched), then the line break and `post` |
| ShaderLoader.ExpandAsWrittenSingleInclude | app/components/BlackHoleVisualization.tsx:57-110 | As written, such a shader becomes `pre`, then the fetched file (or nothing) with `$&` standing for `#include name`, `` $` `` for `pre` and `$'` for the line break and `post`, then the line break and `post` |
| ShaderLoader.ExpandAsWrittenAmpersand | app/components/BlackHoleVisualization.tsx:93 | As written, a directive whose file holds `$&` is left in the shader, while the verbatim expansion inserts `$&`. The two results differ |
| HexColour.HexDigit | app/components/BlackHoleVisualization.tsx:716 | A character has a hex value iff it is `0-9`, `a-f` or `A-F`, and the value is below 16 |
| HexColour.HexRun | app/components/BlackHoleVisualization.tsx:716 | `parseInt` reads the longest prefix of hex digits: all read characters are digits and the next one is not |
| HexColour.HexValue | app/components/BlackHoleVisualization.tsx:716 | The big-endian value of n hex digits is below 16^n |
| HexColour.DropHexPrefix | app/components/BlackHoleVisualization.tsx:716 | Radix 16 skips exactly a leading `0x` or `0X` and nothing else |
| HexColour.ParseIntHex | app/components/BlackHoleVisualization.tsx:716 | `parseInt(s, 16)`, stated through its lemmas: leading white space is skipped (ParseIntHexSkipsSpace), `-` negates and `+` keeps the value (ParseIntHexSign), `0x` or `0X` is skipped once (ParseIntHexPrefix), then the longest hex run is read (ParseIntHexPlain, ParseIntHexStops), and no digits gives NaN (ParseIntHexNoDigits) |
| HexColour.ParseIntHexNoDigits | app/components/BlackHoleVisualization.tsx:716 | A string with no hex digit anywhere reads as NaN, whatever white space, sign or `x` it holds |
| HexColour.ParseIntHexSkipsSpace | app/components/BlackHoleVisualization.tsx:716 | Reading a string gives the same result as reading it with its leading white space removed |
| HexColour.ParseIntHexSign | app/components/BlackHoleVisualization.tsx:716 | After a `-` the value read is negated, after a `+` it is kept, and either is NaN exactly when the rest is |
| HexColour.ParseIntHexPrefix | app/components/BlackHoleVisualization.tsx:716 | After `0x` or `0X` the leading hex run is read, and NaN results when no hex digit follows the prefix |
| HexColour.Channel | app/components/BlackHoleVisualization.tsx:716-718 | A channel whose slice starts at or past the end of the value is NaN. ChannelRange and ChannelOfPair bound it and give its value |
| HexColour.HexToRgb | app/components/BlackHoleVisualization.tsx:713-724 | A value too short to reach a channel's slice leaves that channel NaN: red for at most 1 character, green for at most 3, blue for at most 5 |
| HexColour.Slice | app/components/BlackHoleVisualization.tsx:716-718 | `slice` gives the requested range when it is inside the string, and the rest of the string when only the end lies past it. It is empty when it starts at or past the end, and is never longer than requested |
| HexColour.ParseIntHexDigits | app/components/BlackHoleVisualization.tsx:716 | A non-empty all-hex string parses to its hex value |
| HexColour.ParseIntHexPlain | app/components/BlackHoleVisualization.tsx:716 | A string starting with a hex digit, other than a `0x` prefix, parses to the value of its leading hex run |
| HexColour.ParseIntHexStops | app/components/BlackHoleVisualization.tsx:716 | Parsing stops at the first character that is not a hex digit |
| HexColour.TwoCharsAtMost255 | app/components/BlackHoleVisualization.tsx:716-718 | Any two characters parse to a number in -15..255 or to NaN |
| HexColour.ChannelRange | app/components/BlackHoleVisualization.tsx:716-718 | Whatever string the handler receives, a channel is NaN or lies in -1/17..1 |
| HexColour.ChannelOfPair | app/components/BlackHoleVisualization.tsx:716-718 | Two hex digits at a position give the channel byte / 255 |
| HexColour.ColourValueChannels | app/components/BlackHoleVisualization.tsx:713-723 | A colour input value `#rrggbb` gives three defined channels, each in 0..1 |
| HexColour.ColourValueRgb | app/components/BlackHoleVisualization.tsx:713-723 | A `#rrggbb` value gives the three byte values over 255 |
| HexColour.FormatIsColourValue | app/components/BlackHoleVisualization.tsx:710-711 | Formatting three bytes gives a valid lower-case colour input value, whose pairs read back as the bytes |
| HexColour.FormatThenParse | app/components/BlackHoleVisualization.tsx:710-718 | Round trip: format three bytes, and the handler reads back those bytes over 255 |
| HexColour.ParseThenFormat | app/components/BlackHoleVisualization.tsx:710-718 | Round trip: every colour input value is the formatting of the bytes the handler reads from it |
| HexColour.BlackAndWhite | app/components/BlackHoleVisualization.tsx:711-718 | The default `#000000` gives (0, 0, 0) and `#ffffff` gives (1, 1, 1) |
| HexColour.TenthNotPickable | app/components/BlackHoleVisualization.tsx:716-718 | No picked colour has a channel of exactly 0.1, the value of the preset buttons' channels, so the picker cannot reproduce the Dark Blue or Dark Purple preset |
| RenderTrace.Perform | app/components/BlackHoleVisualization.tsx:584-607 | Each renderer call changes only its own part of the renderer state: a draw changes nothing, and a frame request counts one frame |
| RenderTrace.Sampled | app/components/BlackHoleVisualization.tsx:473-481 | A texture uniform names at most one render target |
| RenderTrace.Passes | app/components/BlackHoleVisualization.tsx:584-604 | There is one pass per draw call, with the scene and camera of that call |
| RenderTrace.PerformAllAppend | app/components/BlackHoleVisualization.tsx:529-607 | Running a log in two pieces is the same as running it at once |
| RenderTrace.PassesAppend | app/components/BlackHoleVisualization.tsx:529-607 | The passes of a log in two pieces are the first piece's passes followed by the second's, from the state the first leaves |
| RenderTrace.UniformsFollowLastWrite | app/components/BlackHoleVisualization.tsx:533-601 | A uniform holds the last value written to it in the log, and keeps its previous value if the log never writes it |
| RenderTrace.PerformAllKeeps | app/components/BlackHoleVisualization.tsx:529-607 | A log without calls of some kind leaves that part of the state as it was, and the frame count grows by the number of frame requests |
| Frame.PixelRatio | app/components/BlackHoleVisualization.tsx:241 | The pixel ratio is the device ratio capped at 2: never above either, and equal to one of them |
| Frame.Aspect | app/components/BlackHoleVisualization.tsx:190 | The aspect ratio times the height is the width. It is undefined iff the height is zero |
| Frame.ConvergenceOnScreen | app/components/BlackHoleVisualization.tsx:573-576 | A projected coordinate is on screen (-1..1) iff its texture coordinate is in 0..1 |
| Frame.ConvergenceCentre | app/components/BlackHoleVisualization.tsx:573-576 | The projected screen centre maps to (0.5, 0.5) |
| Frame.ConvergenceRoundTrip | app/components/BlackHoleVisualization.tsx:575-576 | The map to texture coordinates is invertible in both directions |
| Frame.OffscreenStep | app/components/BlackHoleVisualization.tsx:584-587 | An off-screen pass draws its scene once into its target with its clear colour, then leaves the renderer drawing to the canvas |
| Frame.WritesStep | app/components/BlackHoleVisualization.tsx:533-581 | The tick's uniform updates draw nothing and change only uniforms |
| Frame.FinalStep | app/components/BlackHoleVisualization.tsx:601-607 | The dither pass samples the composition target, draws to the canvas and requests one frame |
| Frame.OffscreenPhase | app/components/BlackHoleVisualization.tsx:583-599 | The three off-screen passes are the main scene into the pre-distortion target (clear #130e16, sampling the noise), the distortion into its target (clear black), and the composition into the default target (clear #130e16, sampling both earlier targets) |
| Frame.TickStep | app/components/BlackHoleVisualization.tsx:529-607 | A tick performs exactly the four planned passes and leaves the renderer on the canvas with clear colour #130e16 and one more frame requested |
| Frame.SetupStep | app/components/BlackHoleVisualization.tsx:238-337 | Setup sets the clear colour, the capped pixel ratio and the size, then bakes the noise once into a 256 × 256 target |
| Frame.TargetsStep | app/components/BlackHoleVisualization.tsx:426-450 | The three composition targets are allocated at the window size times the pixel ratio |
| Frame.MaterialDevice | app/components/BlackHoleVisualization.tsx:372-520 | Creating the materials draws nothing, bakes nothing and changes only uniforms and the composition targets |
| Frame.DiscMaterialStep | app/components/BlackHoleVisualization.tsx:372-381 | The disc material starts at time 0 and samples the baked noise |
| Frame.CompositionMaterialStep | app/components/BlackHoleVisualization.tsx:468-481 | The composition material starts at time 0, samples the pre-distortion and distortion targets, and converges at the origin |
| Frame.DitherMaterialStep | app/components/BlackHoleVisualization.tsx:500-516 | The dither material starts with no input, the drawing-buffer resolution, grid 3, intensity 0.7, time 0, a black background and contrast 1.2 |
| Frame.MaterialUniforms | app/components/BlackHoleVisualization.tsx:372-516 | All initial uniforms together |
| Frame.BuildState | app/components/BlackHoleVisualization.tsx:173-520 | After building, the renderer draws to the canvas with clear #130e16, the capped ratio and the window size. The noise target is 256 × 256, the composition targets follow the drawing buffer, and the initial uniforms hold |
| Frame.BuildHealthy | app/components/BlackHoleVisualization.tsx:173-520 | A freshly built scene satisfies the invariant `Healthy` |
| Frame.Build | app/components/BlackHoleVisualization.tsx:173-520 | The scene `initScene` builds, stated through BuildState and BuildHealthy: it satisfies `Healthy`, draws to the canvas with clear #130e16 at the capped ratio and window size, and has baked the noise once |
| Frame.TickEffectsNoNoise | app/components/BlackHoleVisualization.tsx:529-607 | A tick never re-renders the noise and requests exactly one frame |
| Frame.TickHealthy | app/components/BlackHoleVisualization.tsx:529-607 | A tick, mounted or not, preserves `Healthy`. In particular the noise stays baked exactly once |
| Frame.TickUnmounted | app/components/BlackHoleVisualization.tsx:530 | Once unmounted, a tick changes nothing |
| Frame.Tick | app/components/BlackHoleVisualization.tsx:529-607 | A tick only appends to the renderer's log. TickUnmounted, TickDraws and TickHealthy give what it appends and the invariant it keeps |
| Frame.TickDraws | app/components/BlackHoleVisualization.tsx:583-607 | A mounted tick appends exactly the four planned passes, and its last call is the request for the next frame |
| Frame.TickUniforms | app/components/BlackHoleVisualization.tsx:533-581 | After a tick, the three time uniforms hold the tick's time, the convergence holds the projected centre mapped to 0..1, the resolution follows the drawing buffer, and every other uniform keeps its value |
| Frame.TickPlanOrdered | app/components/BlackHoleVisualization.tsx:583-604 | Every pass samples only targets already drawn in this tick or the baked noise, and only the last pass draws to the canvas |
| Frame.ResizeStep | app/components/BlackHoleVisualization.tsx:186-210 | Resizing resets the capped ratio and the size and resizes the three composition targets to the new drawing buffer. It produces no render pass at all, so the noise is not rendered again |
| Frame.Resize | app/components/BlackHoleVisualization.tsx:186-212 | A resize only appends to the renderer's log. ResizeStep and ResizeHealthy give its effect on the renderer |
| Frame.ResizeHealthy | app/components/BlackHoleVisualization.tsx:186-210 | Resizing preserves `Healthy`, keeps the noise target at its size and every uniform as it was |
| Frame.ResizeThenTick | app/components/BlackHoleVisualization.tsx:538-541 | The tick after a resize sets the dither resolution to the new drawing buffer, matching the targets' new size |
| Frame.BackgroundPersists | app/components/BlackHoleVisualization.tsx:719-723 | A chosen background is held by the dither material and survives the following tick |
| Frame.SetBackground | app/components/BlackHoleVisualization.tsx:719-723 | Setting the background only appends to the renderer's log. BackgroundPersists shows the colour held through the next tick |
| Lifecycle.AllTexts | app/components/BlackHoleVisualization.tsx:38-46 | Reading every body succeeds iff no fetch throws. Responses that are not ok still count as loaded |
| Lifecycle.AssetsLoad | app/components/BlackHoleVisualization.tsx:144-170 | `initScene`'s awaits all resolve iff none of the twelve raw fetches throws, all five include-processed fetches are ok, and neither dither fetch throws |
| Lifecycle.Settle | app/components/BlackHoleVisualization.tsx:144-628 | The scene goes live iff the assets load, the container is still in place and (with the re-check) the component is still mounted. Otherwise `initScene` ends: the session is the same with its phase `Stopped` |
| Lifecycle.SettleMounted | app/components/BlackHoleVisualization.tsx:170-625 | A mounted settle draws its first frame: the log's passes are the noise bake and then the four passes of one tick, one frame has been requested and the next is pending |
| Lifecycle.Step | app/components/BlackHoleVisualization.tsx:137-638 | No event removes anything from the renderer's log, and an unmounted component never becomes mounted again. StepInv gives the invariant each event keeps |
| Lifecycle.Run | app/components/BlackHoleVisualization.tsx:137-638 | The same over any sequence of events |
| Lifecycle.StartInv | app/components/BlackHoleVisualization.tsx:137-140 | The mounted, loading session satisfies the invariant and is quiet |
| Lifecycle.SettleInv | app/components/BlackHoleVisualization.tsx:170-625 | The end of `initScene` preserves the invariant |
| Lifecycle.FrameInv | app/components/BlackHoleVisualization.tsx:529-607 | An animation frame preserves the invariant |
| Lifecycle.ResizeInv | app/components/BlackHoleVisualization.tsx:186-212 | A window resize preserves the invariant |
| Lifecycle.BackgroundInv | app/components/BlackHoleVisualization.tsx:713-765 | Picking a colour or a preset preserves the invariant |
| Lifecycle.StepInv | app/components/BlackHoleVisualization.tsx:137-638 | Every event preserves the invariant under either policy |
| Lifecycle.RunInv | app/components/BlackHoleVisualization.tsx:137-638 | Over any run, a live scene is healthy, the cleanup is stored exactly when the scene is live, and while mounted the next frame is always requested |
| Lifecycle.StepQuietRechecked | app/components/BlackHoleVisualization.tsx:633-638 | With the re-check, no event after the cleanup draws, requests a frame or registers a listener |
| Lifecycle.RunQuietRechecked | app/components/BlackHoleVisualization.tsx:633-638 | With the re-check, a quiet session stays quiet over any sequence of events |
| Lifecycle.RecheckedQuiet | app/components/BlackHoleVisualization.tsx:137-638 | With the re-check, every run from mounting leaves nothing drawn after unmount, no frame pending and no resize listener |
| Lifecycle.StepQuietAsWritten | app/components/BlackHoleVisualization.tsx:613-638 | As written, once `initScene` has settled, events keep an unmounted session quiet |
| Lifecycle.RunQuietAsWritten | app/components/BlackHoleVisualization.tsx:613-638 | As written, an unmount after `initScene` has settled leaves nothing behind over any run |
| Lifecycle.AsWrittenLeaks | app/components/BlackHoleVisualization.tsx:139-212 | As written, unmount-then-load with the container kept builds the scene after unmount. It bakes the noise with the renderer and leaves the resize listener registered |
| Lifecycle.LeakAfterSettle | app/components/BlackHoleVisualization.tsx:174-337 | From any unmounted, loading session with the container in place, the scene goes live, bakes the noise and registers the listener |
| Lifecycle.SettleUnmounted | app/components/BlackHoleVisualization.tsx:529-530 | A scene built after unmount is live with the listener registered, and its stage is exactly the freshly built scene, holding the noise bake alone: its first tick stops at the `mounted` check |
| Lifecycle.RecheckedDoesNotLeak | app/components/BlackHoleVisualization.tsx:139-144 | With the re-check, the same events end `initScene` without building anything |
| Lifecycle.TeardownIdempotent | app/components/BlackHoleVisualization.tsx:633-638 | A second unmount changes nothing |

## Left out

- The twelve parallel fetches of `loadShaders` are reduced to one question: does any of them throw? Which rejection surfaces first depends on timing. The shader texts themselves feed only GLSL compilation, which is not modelled.
- GLSL compilation and the pixels the passes produce. The renderer is a log of calls and the state those calls set.
- Camera motion is not modelled: orbit controls, the roll, the shake, and `lookAt`. The projection of the black hole's centre is a parameter of each tick, already in device coordinates.
- Stars, the disc gradient canvas and the distortion meshes are not modelled. They appear only as the scenes the passes draw.
- The grid-size, intensity and contrast sliders and the keyboard toggle of the controls panel are plain UI writes of a single uniform or flag.
- Console warnings and errors are not modelled.
- ShaderLoader.LoadShaderWithIncludes: when `fetch` or `response.text()` throws, the source passes on the browser's own error, which does not name the shader. The model's `FetchFailed(path)` adds the path to tell the loads apart.
- Frame.Aspect: `width / height` is Infinity or NaN in JavaScript when the height is 0. The model returns no value instead.
- Numbers are mathematical reals and integers, not IEEE doubles. Channel values are exact quotients by 255.
- One `Session` is one mount of the component. A remount of the same instance shares `sceneRef` with the abandoned mount, and that interleaving is not modelled.
- Disposal of controls and renderer is recorded only as a flag. The browser's cancellation of the pending frame is modelled by clearing `framePending`.

## Findings

| source | as written | input that shows it | evidently intended | confidence | as-written member | corrected member |
|---|---|---|---|---|---|---|
| app/components/BlackHoleVisualization.tsx:93 | `shaderCode.replace(includeDirective, includeCode)` takes the included file as a replacement template, so `$&`, `` $` ``, `$'` and `$$` in it are expanded | a shader with one `#include` whose file's text is `$&`: the directive is put back and the include line stays in the shader | splice the included text verbatim | not executed; only bites if a GLSL include contains `$` | ShaderLoader.ExpandAsWrittenAmpersand | ShaderLoader.ExpandSingleInclude |
| app/components/BlackHoleVisualization.tsx:139-212 | `mounted` is checked before the awaits and in each tick, but not after the awaits. An unmount while the shaders load (React's development double mount keeps the container) lets `initScene` append a canvas, bake the noise and register a resize listener that nothing removes | events `Unmount` (container kept), then every asset loads | return once unmounted, as the `mounted` flag is evidently there for | not executed | Lifecycle.AsWrittenLeaks | Lifecycle.RecheckedQuiet |
