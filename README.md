# A verified model of a tiny z-buffered software rasterizer

The repository holds two near-identical demos of one rendering pipeline:

- `src/Main.java` is a JavaFX application. Its `draw()` renders a single triangle or a square.
- `src/main/java/Main.java` is a Swing application. Its `paintComponent` renders a sphere. The sphere is a tetrahedron after four rounds of `inflate`.

Both do the same per-triangle work:

- rotate the vertices with a heading x pitch `Matrix3`;
- move them to the image centre;
- compute a face normal and a flat shade `angleCos`;
- scan the bounding box of the triangle, clamped to the image;
- test every pixel with barycentric weights;
- let the larger depth win in a `double[]` z-buffer.

The colour comes from a gamma-curve `getShade`:

- the JavaFX version works on channels in [0, 1] and clamps;
- the Swing version works on channels 0..255 and truncates to `int`.

The model is written in Dafny, one module per part of the pipeline:

| module | file | what it holds |
|---|---|---|
| `Numerics` | numerics.dfy | `Result`/`Option`, `Math.sqrt` and `Math.pow` as an abstract `Libm` record with the facts the proofs use (`Sound`), and Java's `(int)` cast (`D2I`) |
| `Geometry` | geometry.dfy | the `Vertex` class as a value, with dot and cross products, midpoints and squared lengths |
| `Matrices` | matrices.dfy | `Matrix3`: the checked constructor, `transform`, and `multiply` as the triple loop it is |
| `Meshes` | meshes.dfy | the `Triangle` class, the built-in shapes, and `inflate` as a method with two loops, proved against the function `Inflated` |
| `Raster` | raster.dfy | the raster loop for one triangle as a method that updates the z-buffer and image arrays in place, proved against the per-pixel function `Paint`; also what a list of triangles leaves in a pixel (`PixelAfter`) and the nearest-wins theorems |
| `Shading` | shading.dfy | the two `angleCos` computations, both `getShade` versions, `clamp`, and the ARGB packing of `getRGB` |
| `Scene` | scene.dfy | the view matrix and the move to the image centre, shared by both renderers |
| `FxRenderer` | fx_renderer.dfy | `draw()` of src/Main.java |
| `SwingRenderer` | swing_renderer.dfy | `paintComponent` of src/main/java/Main.java |

How the model represents the Java:

- **Doubles** are `real`.
- **`Math.sqrt` and `Math.pow`** are function values. The proofs assume only these facts about them:
  - a square root of a non-negative number is non-negative and squares back;
  - powers of non-negative numbers are non-negative and monotone, and `pow(0, p)` is 0;
  - `pow(pow(x, 2.4), 1/2.4) == x`.
- **The rotation** takes its cosines and sines as inputs.
- **An image** is a row-major array of `width * height` pixels. Pixel (x, y) is at index `y * width + x`, the same index the source uses for its z-buffer.
- **NaN** is represented explicitly:
  - `None` for a shade that is NaN;
  - `None` from `Barycentric` where the source divides by a zero area;
  - `None` from `GetShade` for a JavaFX colour with a NaN channel, which its constructor accepts;
  - a failed `Result` where an out-of-range channel makes the AWT colour constructor throw.

The Swing file uses `Vertex`, `Triangle` and `Matrix3` but does not define them. The model uses the definitions in src/Main.java for both renderers.

## Model

| member | source | states |
|---|---|---|
| Numerics.D2I | src/Main.java:287-290 | Java's `(int)` cast of a double: always an int, truncation toward zero within range, exact on integral values, saturating at both ends |
| Matrices.Create | src/Main.java:446-449 | succeeds exactly when the array has nine entries and keeps them; otherwise fails with IllegalArgument |
| Matrices.TransformLinear | src/Main.java:476-481 | `transform` maps the difference of two vectors to the difference of their images, and the identity matrix leaves every vector alone |
| Matrices.Multiply | src/Main.java:457-468 | the triple loop fills entry `i*3+j` with the sum over k of `a[i*3+k]*b[k*3+j]`, and applying the product equals applying `b`, then `a` |
| Matrices.ProductTransform | src/Main.java:457-481 | `transform` by the product equals `transform` by `a` of `transform` by `b`, for every vertex |
| Matrices.HeadingEntries | src/Main.java:247-251 | the nine entries of the heading matrix; a zero angle (cos 1, sin 0) gives the identity |
| Matrices.PitchEntries | src/Main.java:253-257 | the nine entries of the pitch matrix; a zero angle gives the identity |
| Matrices.HeadingIsRotation | src/Main.java:247-251 | the heading matrix keeps every squared length when cos² + sin² = 1 |
| Matrices.PitchIsRotation | src/Main.java:253-257 | the pitch matrix keeps every squared length when cos² + sin² = 1 |
| Matrices.ComposedRotationKeepsLength | src/Main.java:247-259 | the composed heading x pitch transform keeps every squared length |
| Meshes.Children | src/Main.java:362-369 | one triangle becomes four, in the order v1 corner, v2 corner, v3 corner, centre, each with the parent's colour |
| Geometry.Mid | src/Main.java:362-364 | the midpoint is as far from one end of the edge as the other end is from it |
| Meshes.Subdivided | src/Main.java:361-370 | the first loop of `inflate` yields four triangles per input triangle |
| Meshes.SubdividedAt | src/Main.java:361-370 | result triangle `4j+k` is child `k` of input triangle `j` |
| Meshes.SubdividedParent | src/Main.java:361-370 | result triangle `i` is child `i % 4` of input triangle `i / 4` |
| Meshes.Length | src/Main.java:374 | the rescale divisor `sqrt(x²+y²+z²)/sqrt(30000)` is non-negative, and zero exactly at the origin |
| Meshes.Rescale | src/Main.java:373-378 | a vertex other than the origin, divided by that divisor, has squared length 30000 |
| Meshes.RescaleFixesSphere | src/Main.java:373-378 | a vertex already at squared radius 30000 is left unchanged |
| Meshes.RescaleIdempotent | src/Main.java:373-378 | rescaling twice is rescaling once, so rescaling a shared midpoint once per child that holds it changes nothing |
| Meshes.RescaleKeepsSide | src/Main.java:373-378 | rescaling keeps a vertex on the positive side of any plane through the origin |
| Meshes.RescaleTriangle | src/Main.java:372-379 | a rescaled triangle keeps its colour and has all three corners at squared radius 30000 |
| Meshes.InflatedShape | src/Main.java:358-381 | `inflate` returns four times as many triangles, all corners at squared radius 30000, and triangle `i` has the colour of input `i / 4` |
| Meshes.Inflated | src/Main.java:358-381 | the value `inflate` returns has four triangles per input triangle, all corners at squared radius 30000 |
| Meshes.InflatedColored | src/Main.java:366-369 | a list in one colour stays in that colour |
| Meshes.Inflate | src/Main.java:358-381 | the two loops of `inflate` compute exactly `Inflated`: the subdivision, then every vertex divided by its own rescale divisor |
| Meshes.InflatedFacedBy | src/main/java/Main.java:237-255 | if every triangle lies strictly on one side of a plane through the origin, then no vertex or midpoint is at the origin, so `inflate` never divides by zero, and its children keep that property |
| Meshes.InflatedN | src/main/java/Main.java:38-41 | k rounds of `inflate` on n triangles give n·4^k triangles; after one round or more, every corner is at squared radius 30000 |
| Meshes.InflatedNColored | src/main/java/Main.java:38-41 | k rounds keep a one-colour list in its colour |
| Meshes.TriangleShape | src/Main.java:229-235 | the TRIANGLE shape is one triangle in the chosen colour |
| Meshes.SquareShape | src/Main.java:236-244 | the SQUARE shape is two triangles in the chosen colour |
| Meshes.Tetrahedron | src/main/java/Main.java:32-36 | the starting mesh is four triangles in the sphere colour |
| Meshes.TetrahedronOnSphere | src/main/java/Main.java:32-36 | every tetrahedron corner is at squared radius 30000, and each face lies strictly on one side of a plane through the origin |
| Meshes.SphereMesh | src/main/java/Main.java:32-41 | the tetrahedron after four rounds is 1024 triangles, all in the sphere colour, all corners at squared radius 30000 |
| Raster.Barycentric | src/Main.java:292-299 | the weights exist exactly when the area is not zero; they then add up to 1 and reproduce the pixel's x and y |
| Raster.AreaOrientation | src/Main.java:292 | `triangleArea` is signed by orientation: unchanged by rotating the corners, negated by swapping two, zero when two coincide |
| Raster.Inside | src/Main.java:301 | for weights that add up to 1, the six-sided inside test is the same as all three weights being non-negative |
| Raster.Sample | src/Main.java:297-302 | a zero-area triangle covers no pixel |
| Raster.CoveredWithinExtent | src/Main.java:297-301 | a pixel passing the all-weights-in-[0,1] test lies between the least and greatest corner coordinate on both axes |
| Raster.BoxLow | src/Main.java:287 | the first column or row of the box is at least 0 |
| Raster.BoxHigh | src/Main.java:288 | the last column or row of the box is at most `size - 1` |
| Raster.BoxCovers | src/Main.java:287-290 | every in-image pixel within the triangle's extent is inside the box |
| Raster.BoundingBox | src/Main.java:287-290 | the box lies inside [0, W-1] x [0, H-1] |
| Raster.CoveredInBox | src/Main.java:287-301 | every pixel the inside test accepts is in the box, so scanning only the box misses nothing |
| Raster.IndexInRange | src/Main.java:222 | `zIndex = y*W+x` of an in-image pixel is a valid index into the `W*H` buffer |
| Raster.IndexOf | src/Main.java:303 | `zIndex` names pixel (x, y) and no other: its quotient and remainder by W give back y and x |
| Raster.Paint | src/Main.java:301-307 | depth never decreases; the pixel changes exactly when the triangle covers it and the stored depth is strictly below the triangle's, and then it takes the triangle's depth and colour together; so at equal depth the earlier triangle keeps the pixel |
| Raster.MaxDepth | src/Main.java:304 | the larger of two depths, minus infinity included, is an upper bound of both and one of them |
| Raster.Nearest | src/Main.java:262-311 | the greatest depth any triangle offers a pixel is an upper bound on every offer and is attained, or is minus infinity |
| Raster.PixelAfter | src/Main.java:262-311 | the pixel after the triangle loop; where its depth is still minus infinity it keeps the background colour |
| Raster.NearestWins | src/Main.java:222-223 | after drawing a list of triangles onto a buffer starting at minus infinity, each depth is the nearest offer |
| Raster.NearestOrderFree | src/Main.java:262-311 | drawing the same triangles in another order leaves the same depths |
| Raster.ColorFromNearest | src/Main.java:304-307 | a pixel's colour is the background (at depth minus infinity) or the colour of a triangle whose offer equals the pixel's final depth |
| Raster.UniqueNearestColor | src/Main.java:304-307 | a triangle strictly nearer than all others at a pixel gives that pixel its depth and colour |
| Raster.Uncovered | src/Main.java:301 | a pixel no triangle covers keeps minus infinity and the background |
| Raster.PixelAfterStep | src/Main.java:262-311 | drawing one more triangle paints over what the triangles before it left |
| Raster.OutsideBox | src/Main.java:295-296 | outside the box the triangle changes no pixel, so an empty box writes nothing |
| Raster.RasterRow | src/Main.java:296-309 | the inner loop over one row of the box leaves each pixel of that row as `Paint` makes it and every other pixel unchanged |
| Raster.RasterTriangle | src/Main.java:295-310 | the raster loop of one triangle leaves every pixel of the image, depth and colour, as `Paint` makes it |
| Shading.NormalLength | src/Main.java:280 | the length of the normal is non-negative, and zero exactly when the normal is zero |
| Shading.NormalPerpendicular | src/Main.java:272-279 | the normal `ab x ac` is perpendicular to both edges |
| Shading.FxAngleCos | src/Main.java:273-284 | `angleCos` lies in [0, 1] and is 0 for a zero normal |
| Shading.SwingAngleCos | src/main/java/Main.java:72-86 | `angleCos` is NaN exactly when the normal is zero, and otherwise lies in [0, 1] |
| Shading.Clamp | src/Main.java:342-344 | the result lies in [0, 1]; it is the identity on [0, 1], 0 below and 1 above |
| Shading.FxChannel | src/Main.java:325-333 | a channel is NaN exactly when the shade is negative and the channel is not zero; otherwise it is in [0, 1] |
| Shading.GetShade | src/Main.java:324-334 | `getShade` never throws; its colour has a NaN channel exactly when the shade is negative and the colour is not black, and is otherwise a valid colour of opacity 1.0 |
| Shading.GetShadeFull | src/Main.java:324-334 | with shade 1, the gamma curve round-trips and the channels are the input's |
| Shading.GetShadeZero | src/Main.java:324-334 | with shade 0 the result is opaque black |
| Shading.FxChannelMonotone | src/Main.java:325-333 | a larger shade never gives a darker channel |
| Shading.GetShadeDarkens | src/Main.java:324-334 | a shade in [0, 1] never brightens any channel |
| Shading.Channel8 | src/main/java/Main.java:222-228 | a NaN shade gives channel 0, because `(int) NaN` is 0 |
| Shading.GetShade8 | src/main/java/Main.java:221-231 | a result is a valid colour with alpha 255; the only failure is IllegalArgument, for a channel outside 0..255 |
| Shading.Channel8Bounded | src/main/java/Main.java:222-228 | for a shade in [0, 1] a channel stays within 0 and the original channel |
| Shading.GetShade8Ok | src/main/java/Main.java:221-231 | for a NaN shade or one in [0, 1], `getShade` never throws and never brightens |
| Shading.GetShade8Black | src/main/java/Main.java:221-231 | shade 0, or NaN, gives opaque black (0, 0, 0) |
| Shading.GetShade8Full | src/main/java/Main.java:221-231 | shade 1 gives back the input colour exactly, in real arithmetic |
| Shading.Argb | src/main/java/Main.java:106 | `getRGB` packs a valid colour into a 32-bit int |
| Shading.ArgbRoundTrip | src/main/java/Main.java:106 | unpacking the packed int gives back all four channels |
| Scene.ScreenDistance | src/Main.java:264-270 | for true rotation angles, a vertex's screen position is as far from the image centre as the vertex is from the model origin |
| Scene.View | src/Main.java:259 | applying `headingTransform.multiply(pitchTransform)` to a vertex applies the pitch, then the heading |
| Scene.ToScreen | src/Main.java:264-270 | a screen vertex minus the image centre is the transformed model vertex, as both renderers place it |
| Scene.NormalZIsArea | src/Main.java:277-292 | the z component of the face normal is minus the area the raster loop divides by |
| Scene.FlatFaceCoversNothing | src/main/java/Main.java:72-106 | a triangle with a zero normal covers no pixel and paints nothing, so the black `(int) NaN` colour the Swing renderer computes for it (Shading.SwingAngleCos is None exactly then) never shows |
| FxRenderer.Shape | src/Main.java:228-244 | the selected shape is one or two triangles, all in the chosen colour |
| FxRenderer.FxStamp | src/Main.java:262-306 | the colour each triangle paints is opaque and no brighter than the triangle's colour |
| FxRenderer.DrawnColors | src/Main.java:215-307 | every pixel of the frame is an opaque colour no brighter than the chosen colour |
| FxRenderer.FillRow | src/Main.java:216-218 | the inner fill loop makes one row black and leaves the rest unchanged |
| FxRenderer.FillBlack | src/Main.java:215-219 | the nested fill loop makes every pixel black |
| FxRenderer.DrawTriangles | src/Main.java:262-311 | the loop over triangles leaves each pixel as drawing them in order makes it, from black at minus infinity |
| FxRenderer.Draw | src/Main.java:207-311 | `draw()` fails exactly when the width or height is not positive; otherwise every image pixel is what the shape's triangles, drawn in order onto black at minus infinity, leave there |
| SwingRenderer.SwingStamp | src/main/java/Main.java:61-106 | the packed colour each triangle paints is opaque and no brighter than the sphere colour |
| SwingRenderer.SphereOnScreen | src/main/java/Main.java:61-70 | for true rotation angles, every screen corner of the sphere is at squared distance 30000 from the image centre |
| SwingRenderer.DrawnColors | src/main/java/Main.java:57-108 | every pixel is transparent (nothing covers it) or an opaque colour no brighter than the sphere colour |
| SwingRenderer.BuildSphere | src/main/java/Main.java:32-41 | the tetrahedron and its `INFLATION_LEVEL` loop produce exactly the 1024-triangle sphere mesh |
| SwingRenderer.DrawTriangles | src/main/java/Main.java:61-112 | the loop over triangles leaves each pixel as drawing them in order makes it, from transparent at minus infinity |
| SwingRenderer.PaintComponent | src/main/java/Main.java:32-112 | painting fails exactly when the width or height is not positive; otherwise every image pixel is what the sphere's triangles, drawn in order onto a transparent image at minus infinity, leave there |

## Left out

- The user interface is not modelled: windows, sliders, radio buttons, mouse and key handlers, the pitch clamp, and the final `drawImage` onto the canvas or panel. The Swing panel's black `fillRect` under the image is also left out; the model returns the image that is drawn over it.
- `Math.cos` and `Math.sin` are not modelled. Both renderers take the rotation's cosines and sines as inputs.
- `Math.sqrt` and `Math.pow` are abstract, so IEEE double rounding is not modelled. In particular, Shading.GetShade8Full holds in real arithmetic; in doubles, `pow` may round a channel of 255 down to 254.
- NaN and infinities are not modelled as values. They appear only where the source produces them: a NaN shade (`None`), a zero area (`None` from `Barycentric`), and a colour with a NaN channel (`None` from `GetShade`).
- Meshes.Inflate: requires that no vertex or edge midpoint of its input lies at the origin. The source would divide by zero there and spread NaN coordinates. Its only caller, the Swing renderer's loop, meets this requirement, as Meshes.InflatedFacedBy shows for the sphere.
- Meshes.InflatedN: requires every input triangle to lie strictly on one side of a plane through the origin. This is a sufficient condition for `inflate` never dividing by zero, not a necessary one.
- Vertex aliasing in `inflate` is not modelled. The source shares midpoint objects between children, mutates them in place, and so rescales a shared vertex once per child that holds it. The model rescales each occurrence once; Meshes.RescaleIdempotent shows this gives the same coordinates. The source also rescales the input triangles' corner objects in place; the callers discard the input list, so this is unobservable.
- The JavaFX `inflate` is identical to the Swing one and is modelled once. `draw()` never calls it.
- FxRenderer.Draw and SwingRenderer.PaintComponent: require `width * height` to fit in a Java int. Their 32-bit overflow for larger images is not modelled.
- `getShade` is computed once per triangle rather than once per painted pixel. It is a pure function of the triangle's colour and `angleCos`, so the pixels are the same.
- The images are plain arrays: `WritableImage`/`PixelWriter` and `BufferedImage` are not modelled. A fresh JavaFX image starts transparent before the fill loop; a fresh `BufferedImage` starts with every int 0. The exception messages for non-positive sizes are not the library's exact text.
- The z-buffer is returned to no one and is not part of the renderers' results.
- src/SimpleSquareRendering.java is not part of this model. It is a timer-driven wireframe demo with no rasterisation.
