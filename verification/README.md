# Colour balance: a Dafny model

This project models the core of a browser-based colour-grading tool. The user
loads an image and moves three sliders (red, green, blue) for one of three
tonal ranges: shadows, midtones or highlights. A WebGL2 fragment shader then
re-renders the image with each range's offset added in proportion to how far
each pixel belongs to that range. Everything lives in `index.js`. The modelled
parts are:

- `getColor`, which remaps a raw slider value (0..255) to the offset passed
  to the shader (module `Offsets`);
- the shader's tone weights `(1-I)^3`, `(1-|2I-1|)^3` and `I^3` over the
  intensity `I = (r+g+b) * 0.333333333` (module `Tone`);
- the kernel `color_balance`, which is `mix(rgb, rgb + s*ws + m*wm + h*wh, 1.0)`,
  and the shader `main`, which replaces only `.rgb` (modules `Colour` and
  `Kernel`);
- the uniform wiring in `render`, where each channel of each range's stored
  value goes through `getColor` (module `Offsets`);
- the geometry: the position buffer from `setRectangle`, the constant
  texture-coordinate rectangle, and the vertex shader's mapping from pixels
  to clip space (module `Geometry`);
- one frame of `render` over a whole image (module `Render`);
- the session state (`colors` and `mode`) and the radio-button and slider
  handlers that change it (module `Session`).

GLSL and JavaScript floats are modelled as exact Dafny `real`s. `mix` is
modelled as GLSL defines it, `x*(1-t) + y*t`. The kernel's output is not
clamped: the shader has no clamp, so the model has none. The intensity uses
the literal `0.333333333` as written, not one third. In exact arithmetic,
pure white then has intensity `0.999999999` and keeps a small midtones and
shadows weight (`Tone.WhiteIntensityBelowOne`). In the shader's single
precision the literal rounds so that white reaches intensity 1; see
"Left out". At pure black the midtones and highlights offsets have no effect
at all (`Kernel.BlackTakesShadowsOffset`). `getColor` rejects nothing and
maps every number to `v / 255`, so `Offsets.GetColor` is total.

`Render.RenderFrame` fixes the size and every pixel of its output in terms of
its inputs. Two renders of the same image with the same table therefore give
the same frame.

The fragment stage is modelled per canvas pixel. At the pixel's centre, the
texture coordinate is the centre divided by the canvas size. The model
proves that this holds at every vertex (`Geometry.TexCoordTracksPosition`).
Inside the triangles it follows because interpolation reproduces an affine
attribute. The model also proves that the two triangles cover the whole
canvas (`Geometry.RectangleCovered`, `Geometry.ImageRectangleFillsClipSquare`).

`arith.dfy` (module `RealArith`) holds a few facts about products of reals
that the models' proofs use.

## Model

| member | source | states |
|---|---|---|
| Offsets.GetColor | index.js:66-74 | both branches of `getColor`, for values at or below zero and above, equal `v / 255` |
| Offsets.GetColorEndpointsAndOrder | index.js:66-74 | `getColor(0) = 0`, `getColor(255) = 1`, `getColor` is monotone, maps 0..255 into [0,1] and -255..255 into [-1,1] |
| Offsets.RemapRgb | index.js:279-281 | `[r, g, b].map(getColor)` applies the remap to each channel |
| Offsets.Uniforms | index.js:279-284 | each of `u_shadows`, `u_midtones`, `u_highlights` receives its own range's stored channels, each divided by 255 |
| Offsets.UniformsInUnit | index.js:279-284 | stored values on the slider give uniforms in [0,1]; the all-zero table gives all-zero uniforms |
| Tone.Intensity | index.js:191 | the channel sum times `0.333333333` is 0 at black and lies in [0, 0.999999999] for normalized colours, so strictly below 1 |
| Tone.ShadowsWeight | index.js:193-194 | `(1-I)^3` lies in [0,1] on [0,1], equals 1 exactly at I=0 and 0 exactly at I=1 |
| Tone.MidtonesWeight | index.js:196-197 | `(1-abs(-1+2I))^3` lies in [0,1] on [0,1], equals 1 exactly at I=0.5 and 0 exactly at I=0 and I=1 |
| Tone.HighlightsWeight | index.js:199-200 | `I^3` lies in [0,1] on [0,1], equals 0 exactly at I=0 and 1 exactly at I=1 |
| Tone.ShadowsMirrorHighlights | index.js:193-200 | the shadows weight at I is the highlights weight at 1-I; the midtones weight is symmetric about 0.5 |
| Tone.WeightsMonotone | index.js:193-200 | on [0,1] the shadows weight falls, the highlights weight rises, and the midtones weight rises up to 0.5 and falls after it |
| Tone.ShadowsPlusHighlightsAtMostOne | index.js:193-200 | for I in [0,1], shadows plus highlights weight is at most 1, hence at most 2 |
| Tone.WhiteIntensityBelowOne | index.js:191-200 | in exact arithmetic, with the `0.333333333` literal, white has intensity 0.999999999 and keeps a positive shadows and midtones weight |
| Colour.MixScalar | index.js:203 | GLSL `mix` returns its first end at t=0 and its second at t=1, and for t in [0,1] a value between the two ends |
| Colour.Mix | index.js:203 | `mix` on `vec3` with `amount = 1.0` returns `colorization` exactly |
| Kernel.ColorBalance | index.js:187-204 | each output channel is the input channel plus that channel's shadows, midtones and highlights offsets times their tone weights at the pixel's intensity, unclamped |
| Kernel.Shade | index.js:206-210 | the shader `main` keeps alpha and replaces only the colour part with `color_balance` |
| Kernel.ZeroOffsetsIdentity | index.js:202-203 | with all three offsets zero, every pixel is returned unchanged |
| Kernel.ChannelIndependence | index.js:202 | output channel c depends only on the input colour and component c of the three offsets |
| Kernel.OneOffsetChannelMovesOneOutputChannel | index.js:202-209 | changing one channel of one range's offset leaves the other two output channels and alpha of every pixel unchanged |
| Kernel.BlackTakesShadowsOffset | index.js:191-203 | black comes out as exactly the shadows offset: midtones and highlights have no effect there |
| Kernel.OffsetsMonotone | index.js:193-202 | on a normalized pixel, raising a channel's offsets never lowers that output channel |
| Session.Select | index.js:307-318 | a radio-button change sets `mode` and leaves `colors` untouched |
| Session.SetChannel | index.js:321-335 | a slider input writes `colors[mode][ch]` and leaves the other two channels, the other two ranges and `mode` unchanged |
| Session.SelectLastWins | index.js:307-318 | selecting a range after another is selecting the last one; selecting is idempotent |
| Session.SetChannelWrites | index.js:321-335 | a second write to one slider overwrites the first; writes to two different sliders commute |
| Session.SetChannelSameValue | index.js:321-335 | writing back the value a slider already holds leaves the session unchanged |
| Session.RunStaysOnSlider | index.js:321-335 | starting on the slider range, every sequence of slider values in 0..255 and mode switches keeps all nine stored values in 0..255 |
| Session.SelectsKeepFrame | index.js:307-318 | any number of range switches leaves the offset table, and so the rendered frame, unchanged |
| Session.SlideChangesOneChannel | index.js:279-284 | after a slider event, the next frame differs from the previous one only in the moved colour channel |
| Session.InitialRenderIsIdentity | index.js:3-9 | with the start-up table of zeros, rendering leaves every pixel as it is |
| Geometry.SetRectangle | index.js:85-98 | twelve floats, six vertices: triangles `(x1,y1)(x2,y1)(x1,y2)` and `(x1,y2)(x2,y1)(x2,y2)`, whose vertex set is exactly the four corners |
| Geometry.TexCoordRect | index.js:244-251 | the texture-coordinate buffer is the `setRectangle` layout of the unit square |
| Geometry.TexCoordTracksPosition | index.js:244-251 | at every vertex of the image rectangle, the texture coordinate is the position divided by the image size |
| Geometry.RectangleCovered | index.js:85-98 | for positive width and height, a point lies in one of the two triangles iff it lies in the rectangle |
| Geometry.ClipSpace | index.js:166-170 | the vertex shader's clip-space position maps back to the original pixel position, so the mapping is invertible |
| Geometry.ClipSpaceCorners | index.js:167-170 | pixel (0,0) goes to clip (-1,1) and pixel (w,h) to clip (1,-1) |
| Geometry.ClipSpaceInSquare | index.js:167-170 | every point of the canvas lands in the clip square [-1,1] x [-1,1] |
| Geometry.ImageRectangleFillsClipSquare | index.js:276-288 | the image rectangle, drawn with the canvas size as resolution, has the four clip-square corners as its vertices |
| Render.NearestTexel | index.js:261-264 | nearest filtering picks a texel inside the texture: the one whose cell contains the coordinate, the first texel for a coordinate below 0 and the last for one at or above 1 (`CLAMP_TO_EDGE`) |
| Render.FragmentSamplesOwnTexel | index.js:244-264 | the fragment at the centre of canvas pixel (col,row) samples texel (col,row) |
| Render.RenderFrame | index.js:152-291 | the frame has the image's size, each pixel is the shaded source pixel under the uniforms from the remapped table, and the all-zero table gives back the image |

## Left out

- WebGL plumbing is not modelled because it holds no logic that can be stated: context creation, shader compile and link (`createShader`, `createProgram`) and their failure alerts, attribute and uniform lookup, vertex arrays, buffers, textures, `texImage2D`, viewport, clear and `drawArrays`.
- The rasterizer's interpolation is not modelled. The model proves the texture coordinate at every vertex and takes the one at a pixel centre to be the centre divided by the canvas size.
- DOM and UI glue is not modelled: `getLabels`, `getRanges`, `getRadioButtons`, and the label and slider writes in `setRanges` (a mode switch also refreshes the sliders, a pure display effect).
- `rangeValueToPercent` is not modelled: it formats a float with `toFixed(1)`, which is string rounding.
- Browser I/O is not modelled: FileReader image loading and decoding, `saveBlob`/`toBlob` export, `alert`, and the embedded start-up image.
- Offsets.GetColor: slider values reach `colors` as strings and `getColor` parses them with `parseFloat`. The model takes the parsed number as its input.
- Float precision is abstracted away: `lowp`/`highp`, float32 rounding of `0.333333333`, 8-bit texture quantisation, and the hardware saturation of out-of-range outputs when they are stored.
- Tone.WhiteIntensityBelowOne: holds in exact arithmetic only. Under `precision highp float`, single precision rounds the literal `0.333333333` to 0.33333334 (0x3EAAAAAB), and three times that rounds to exactly 1.0. So the running shader gives white intensity 1, with zero shadows and midtones weight.
- Geometry.ClipSpace: requires a non-zero resolution. The source divides by the canvas size, which GLSL leaves undefined at zero.
