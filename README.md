# RedSand planet generation in Dafny

This project models the planet-generation core of RedSand, a Rust/bevy game, and proves
properties of the model. It also models the small skybox-cycling state machine. The parts
are:

- **Province seeds** (`create_province_colors`). Rejection sampling draws a position, then a
  colour, until each is unused. The random source is a supplied stream of raw draws.
- **Province image** (`create_provinces_image`). Each pixel, moved by the noise map, takes
  the colour of the nearest seed. A tie keeps the earlier seed.
- **Border mask** (head of `get_border_images`). A pixel is opaque black exactly when an
  in-bounds 8-neighbour has another colour.
- **Noise field** (`make_perlin_noise`, `perlin`, `interpolate`, `random_gradient`). The
  integer hash is exact in `bv32`; the `f32` arithmetic is idealised as `real`.
- **Cube-sphere mesh** (`face`, `From<PlanetMesh> for Mesh`). It covers the vertex numbering,
  the two triangles per grid cell, the buffer sizes, and the per-face index offset.
- **Skybox** (`Cubemap`, `build_skybox`, `cycle_cubemap_asset`, `asset_loaded`). A swap
  timer, a cyclic search for the next supported cubemap, and the `is_loaded` flag.

The files:

- `vectors.dfy` holds `Vec2`/`Vec3` and the `f32` value of `PI`.
- `arith.dfy` holds the facts about integer division that the index proofs use.
- `noise.dfy`, `provinces.dfy`, `planet_mesh.dfy` and `skybox.dfy` hold one module per
  source file.

Where the source mutates, the model does too:

- `Vec` buffers are `seq` locals that loops extend.
- Images and the noise map are `array2` filled in place.
- The `Cubemap` resource and the `Local` swap timer are classes.

Each method is proved against a specification function: `Generate`/`DrawSeed`, `Nearest`,
`IsBorder`, `NoiseValue`, `IsFace` and `NextIndex`. Separate lemmas prove properties of
those functions.

Facts about the code that shape the model:

- Seeds are 2D points on one `width x height` map.
- No noise value is replaced when it is not a number.
- A border pixel is plain `(0, 0, 0, 255)`, with no other colour and no blur.
- Neighbours outside the image are skipped.
- The mesh has no height displacement. Its normal attribute is the position list itself, so
  normals have length `size` rather than 1.

## Model

| member | source | states |
|---|---|---|
| Noise.MixWords | src/planet/noise.rs:43-52 | defines the mixing steps on the `u32` patterns `a`, `b`: `a *= 3284157443`, `b ^= a << S or a >> W - S`, `b *= 1911520717`, `a ^= b << S or b >> W - S`, `a *= 2048419325`, every product wrapping in `bv32` |
| Noise.GradientHash | src/planet/noise.rs:41-52 | defines the word of corner `(ix, iy)`: `MixWords` of `ix as u32` and `iy as u32` |
| Noise.GradientHashDependsOnBits | src/planet/noise.rs:43-44 | corners whose coordinates agree modulo `2^32` get the same word: the hash sees only the two's-complement bit patterns |
| Noise.GradientHashAtOrigin | src/planet/noise.rs:41-52 | corner `(0, 0)` hashes to the zero word |
| Noise.HalfSwapIsRotation | src/planet/noise.rs:39-52 | with `W = 32`, `S = 16` the shift pair `(a << S) or (a >> (W - S))` is a rotation left by 16, and it undoes itself |
| Noise.AngleDivisorIsHalfRange | src/planet/noise.rs:54 | the divisor `!(0u32.wrapping_sub(1) >> 1)` is `2^31` |
| Noise.WordAngleInRange | src/planet/noise.rs:54 | `n * (PI / 2^31)` lies in `[0, 2*pi)` for every 32-bit word value `n` |
| Noise.GradientAngle | src/planet/noise.rs:54 | the angle `random_gradient` takes the sine and cosine of lies in `[0, 2*pi)` for every hashed word |
| Noise.RandomGradient | src/planet/noise.rs:38-62 | defines the gradient of corner `(ix, iy)`: the vector `(sin r, cos r)` of its hashed angle `r`, with `sin`/`cos` given as `sinCos` |
| Noise.DotGridGradient | src/planet/noise.rs:64-69 | the offset of `(x, y)` from corner `(ix, iy)` dotted with the corner's gradient; it is 0 at the corner itself |
| Noise.ToI32 | src/planet/noise.rs:76-77 | `x as i32` lies in the `i32` range; in range it truncates toward zero (floor for non-negative inputs, ceiling for negative ones) |
| Noise.Interpolate | src/planet/noise.rs:71-73 | defines the smoothstep blend `(a1 - a0) * (3 - 2w) * w^2 + a0`; the lemmas below state its endpoints and bounds |
| Noise.InterpolateEndpoints | src/planet/noise.rs:71-73 | `interpolate(a0, a1, 0) = a0` and `interpolate(a0, a1, 1) = a1` |
| Noise.SmoothWeightInUnit | src/planet/noise.rs:72 | for `w` in [0, 1] the smoothstep weight `(3 - 2w) w^2` lies in [0, 1] |
| Noise.InterpolateBetween | src/planet/noise.rs:71-73 | for `w` in [0, 1] the blend lies between `min(a0, a1)` and `max(a0, a1)` |
| Noise.Perlin | src/planet/noise.rs:75-94 | defines `perlin`: corners `x0 = x as i32`, `x1 = x0 + 1` (likewise in y), two blends along x with weight `x - x0`, then one along y with weight `y - y0`; the two lemmas below state what it yields |
| Noise.PerlinVanishesOnLattice | src/planet/noise.rs:75-94 | at an in-range lattice point the noise is 0 whatever the gradients, because the point's own corner has offset 0 and both weights are 0 |
| Noise.PerlinBetweenCorners | src/planet/noise.rs:75-94 | the noise lies between the least and greatest of the four corner values `(x0,y0)`, `(x0+1,y0)`, `(x0,y0+1)`, `(x0+1,y0+1)`, blended along x per row, then along y |
| Noise.AmplitudeIsReciprocal | src/planet/noise.rs:12-22 | at the start of octave k, `freq >= 1` and `amp * freq = 1`, i.e. `freq = 2^k`, `amp = 1/2^k` |
| Noise.OctaveSum | src/planet/noise.rs:11-22 | defines the sum of the first `k` octaves: octave `j` samples the base noise at `(x * 2^j / 400, y * 2^j / 400)` and weighs it by `1 / 2^j` |
| Noise.NoiseValue | src/planet/noise.rs:11-31 | defines the stored value: the 12-octave sum times 1.2, clamped to [-1, 1] |
| Noise.Clamp | src/planet/noise.rs:25-29 | the result lies in [-1, 1]; values inside are kept, values above become 1, values below become -1 |
| Noise.NoiseValueInRange | src/planet/noise.rs:11-31 | every stored noise value lies in [-1, 1] |
| Noise.PixelNoise | src/planet/noise.rs:11-29 | the 12-iteration octave loop with `freq *= 2`, `amp /= 2`, then `* 1.2` and the clamp, computes `NoiseValue`; the result lies in [-1, 1] |
| Noise.NoiseMap | src/planet/noise.rs:6-36 | for a given base noise, a fresh `width x height` map whose entry `[x, y]` is `NoiseValue(x, y)`, in [-1, 1] |
| Noise.MakePerlinNoise | src/planet/noise.rs:6-36 | the map of `NoiseValue` over the program's own base noise: `perlin` with the hashed gradients of `random_gradient` |
| Provinces.GenRange | src/planet/provinces.rs:19 | a draw of `gen_range(lo..=hi)` lies in `[lo, hi]` |
| Provinces.GenRangeCovers | src/planet/provinces.rs:19-20 | every value of the range is the outcome of some draw |
| Provinces.AppendFresh | src/planet/provinces.rs:21-35 | pushing a seed at an unused position with an unused colour keeps positions distinct, colours distinct and values in range |
| Provinces.DrawColor | src/planet/provinces.rs:25-37 | the colour loop consumes three draws per attempt and ends, when the stream allows, with an unused colour whose channels are all in [1, 255] |
| Provinces.DrawSeed | src/planet/provinces.rs:18-42 | the position loop ends, when the stream allows, with a seed at an unused position in `[1, width-1] x [1, height-1]` and an unused colour |
| Provinces.Generate | src/planet/provinces.rs:16-44 | `count` rounds only append to the seeds they start from; the result is complete exactly when it holds `count` more seeds, and it stays well formed (in range, distinct positions, distinct colours) |
| Provinces.GenerateOnlyAppends | src/planet/provinces.rs:17-44 | the seeds of `count` rounds are a prefix of those of `count + 1` rounds: earlier entries are never edited |
| Provinces.GenerateStep | src/planet/provinces.rs:17-43 | one round of `Generate` ends incomplete when the draws run out, and otherwise pushes the drawn seed, which keeps the list well formed |
| Provinces.PlaceSeed | src/planet/provinces.rs:18-42 | one round of the nested retry loops returns exactly `DrawSeed`'s outcome |
| Provinces.CreateProvinceColors | src/planet/provinces.rs:11-45 | the result is `Generate(cell_count)`: well formed, never more than `cell_count` seeds, and exactly `cell_count` unless the draw stream ran out |
| Provinces.PartnerColumn | src/planet/provinces.rs:63-65 | the second noise lookup `(x + width/2) % width` is always a valid column |
| Provinces.Nearest | src/planet/provinces.rs:73-84 | the chosen seed has minimal distance among all seeds, and is strictly closer than every earlier seed, so a tie goes to the earliest |
| Provinces.PixelColor | src/planet/provinces.rs:56-89 | defines a pixel's colour: it stays black without seeds, and otherwise takes the colour of the seed `Nearest` to the distorted pixel |
| Provinces.PixelColorIsSeedColor | src/planet/provinces.rs:52-89 | for any seed list, a pixel stays black without seeds and otherwise gets some seed's colour |
| Provinces.PixelColorNeverBlack | src/planet/provinces.rs:26-29 | with well-formed seeds, whose channels are all at least 1, a pixel is black exactly when there are no seeds |
| Provinces.ClosestColor | src/planet/provinces.rs:56-85 | the scan with `closest`/`min_distance` yields `None` for no seeds, otherwise the colour of `Nearest` |
| Provinces.PaintColumn | src/planet/provinces.rs:55-90 | the inner `y` loop paints column `x` with each pixel's province colour and leaves other columns alone |
| Provinces.PaintProvinces | src/planet/provinces.rs:54-91 | after the x/y loops every pixel of the black image holds `PixelColor` of its two noise lookups |
| Provinces.CreateProvincesImage | src/planet/provinces.rs:47-93 | a fresh `width x height` image whose pixel `(x, y)` is the colour of the seed nearest to the pixel moved by `noise[x][y]` and `noise[(x + width/2) % width][y]`, where `noise` is the map of `make_perlin_noise` |
| Provinces.IsBorder | src/planet/provinces.rs:102-118 | defines a border pixel: some in-bounds pixel at most one step away in x and in y has another colour |
| Provinces.FoundInRowsStep | src/planet/provinces.rs:102-118 | a differing neighbour among the first `i + 1` rows of the block is one among the first `i` rows or in row `i` |
| Provinces.BorderPixel | src/planet/provinces.rs:100-118 | the four nested loops with `continue` and `break` give `(0,0,0,255)` exactly when some in-bounds 8-neighbour differs in colour, else `(0,0,0,0)` |
| Provinces.BorderMask | src/planet/provinces.rs:95-120 | a fresh `width x height` mask, each pixel opaque black iff it is a border pixel and transparent otherwise |
| Provinces.UniformImageHasNoBorder | src/planet/provinces.rs:107-116 | an image of one colour has no border pixel: out-of-range neighbours never count |
| Provinces.BorderIsSymmetric | src/planet/provinces.rs:113-116 | the differing neighbour of a border pixel is itself a border pixel |
| PlanetMesh.VertexIndex | src/planet/planet_mesh.rs:81 | `x + y * resolution` is below `resolution^2` for every grid point |
| PlanetMesh.VertexIndexInverse | src/planet/planet_mesh.rs:79-81 | the numbering is row-major without clashes: the index of `(x, y)` decodes back to `x` (remainder) and `y` (quotient) |
| PlanetMesh.VertexIndexCovers | src/planet/planet_mesh.rs:79-81 | the numbering has no gaps: every index below `resolution^2` is the index of some grid point |
| PlanetMesh.QuadIndices | src/planet/planet_mesh.rs:101-107 | defines the six indices a cell pushes, `(i, i+res+1, i+res, i, i+1, i+res+1)` |
| PlanetMesh.Entry | src/planet/planet_mesh.rs:100-108 | entry `k` of cell `(cx, cy)` sits below `(res-1)^2 * 6` in the index buffer |
| PlanetMesh.EntryInverse | src/planet/planet_mesh.rs:100-108 | from an entry's position one can recover its cell and its place in the cell, so no two entries share a position |
| PlanetMesh.EntryCovers | src/planet/planet_mesh.rs:76 | every position below `(res-1)^2 * 6` is the entry of some cell `(cx, cy)` with `cx, cy < res-1` and some place `k < 6`: the buffer has no gaps |
| PlanetMesh.CellIndicesInRange | src/planet/planet_mesh.rs:101-107 | every index a cell emits is below `resolution^2` |
| PlanetMesh.QuadSharesDiagonal | src/planet/planet_mesh.rs:101-107 | a cell emits `(i, i+res+1, i+res)` then `(i, i+1, i+res+1)`; the first traverses the diagonal `i -> i+res+1` and the second traverses it back, so both wind the same way |
| PlanetMesh.FaceIndicesInRange | src/planet/planet_mesh.rs:100-108 | every index of a face's filled index buffer is below `resolution^2` |
| PlanetMesh.FaceIndexInRange | src/planet/planet_mesh.rs:100-108 | the index at any one position `j` of a face's filled index buffer is below `resolution^2` |
| PlanetMesh.FaceVertex | src/planet/planet_mesh.rs:82-88 | defines the vertex of grid point `(x, y)`: `local_up + (x/(res-1) - 0.5) * 2 * axis_a + (y/(res-1) - 0.5) * 2 * axis_b`, normalised and scaled by `size` |
| PlanetMesh.FaceUv | src/planet/planet_mesh.rs:90-97 | defines the UV of grid point `(x, y)`: `0.5 + atan2(p.x, p.z) / 2pi`, moved up by 1 when negative, and `0.5 - asin(p.y) / pi` |
| PlanetMesh.GridStep | src/planet/planet_mesh.rs:88-98 | pushing the next grid point's vertex and UV keeps every numbered grid point's vertex and UV in place |
| PlanetMesh.PushGridPoint | src/planet/planet_mesh.rs:82-98 | one grid point adds one vertex and one UV, keeping the grid filled |
| PlanetMesh.CellsBeforeStep | src/planet/planet_mesh.rs:79-110 | one step of the y/x scan completes a cell exactly when the point is not in the last column or row |
| PlanetMesh.CellStep | src/planet/planet_mesh.rs:100-108 | appending a cell's six indices at its slot keeps every completed cell's triangles in place |
| PlanetMesh.PushCell | src/planet/planet_mesh.rs:100-108 | one lower-left cell corner adds exactly six indices, keeping the cells filled |
| PlanetMesh.FaceRow | src/planet/planet_mesh.rs:80-109 | the inner `x` loop adds `resolution` vertices and UVs and the cells of row `y` |
| PlanetMesh.Face | src/planet/planet_mesh.rs:71-112 | `resolution^2` vertices and UVs with grid point `(x, y)` at `x + y*res`, and `(res-1)^2 * 6` indices, each cell's two triangles at its slot |
| PlanetMesh.Slot | src/planet/planet_mesh.rs:35-38 | position `k` of block `f` lies inside block `f` of the concatenation |
| PlanetMesh.SlotCovers | src/planet/planet_mesh.rs:35-55 | the blocks cover the concatenation: every position below `blocks * size` is some block's slot |
| PlanetMesh.Flatten | src/planet/planet_mesh.rs:35-55 | defines `flat_map` over the per-face lists, in order |
| PlanetMesh.FlattenUniform | src/planet/planet_mesh.rs:35-55 | flattening lists of one length `n` gives `|lists| * n` entries, with entry `k` of list `f` at `f*n + k` |
| PlanetMesh.ShiftFaces | src/planet/planet_mesh.rs:40-50 | each face keeps its length, and a local index below `numIndices` of face `f` moves into `[f*numIndices, (f+1)*numIndices)` |
| PlanetMesh.ShiftRecoversFace | src/planet/planet_mesh.rs:40-50 | a shifted index divided by `numIndices` gives its face, and the remainder its local index, so no two faces' indices collide |
| PlanetMesh.Assemble | src/planet/planet_mesh.rs:35-66 | defines the mesh attributes: the shifted index lists, the positions and the UVs flattened in face order, with the positions reused as normals |
| PlanetMesh.MeshFromPlanet | src/planet/planet_mesh.rs:13-69 | `6*res^2` positions and UVs in direction order, normals equal to positions, `6*(res-1)^2*6` indices, and each face's cell indices offset by `f*res^2` |
| PlanetMesh.MeshIndicesStayInFace | src/planet/planet_mesh.rs:40-50 | face `f`'s shifted indices lie in `[f*res^2, (f+1)*res^2)`, hence below the `6*res^2` positions of the mesh |
| Skybox.Step | src/skybox.rs:75 | `(new_index + 1) % CUBEMAPS.len()` always stays below the table length |
| Skybox.FirstSupported | src/skybox.rs:74-80 | the search stops at the first supported offset, or after the whole table; every offset it passes is unsupported |
| Skybox.NextIndex | src/skybox.rs:73-80 | the index the search ends on is below the table length |
| Skybox.NextIndexUnchanged | src/skybox.rs:73-84 | the index stays the same exactly when no entry other than the current one is supported |
| Skybox.NextIndexIsFirstSupported | src/skybox.rs:73-80 | otherwise the new index is supported and every entry passed on the way, in cyclic order, is not |
| Skybox.ShippedTableNeverSwaps | src/skybox.rs:13-18 | with the shipped one-entry table the search always ends where it started |
| Skybox.SwapTimer.constructor | src/skybox.rs:56 | the `Local<f32>` timer starts at `0.0` |
| Skybox.Cubemap.Build | src/skybox.rs:45-49 | the initial resource has `is_loaded = false`, `index = 0` and the first entry's handle |
| Skybox.Cubemap.Cycle | src/skybox.rs:54-89 | the three timer cases (first call arms `now + 3` and nothing else changes; before the deadline nothing changes; otherwise the timer moves by exactly 3), then the state is unchanged when the search keeps the index, else index, handle and `is_loaded = false` are set |
| Skybox.Cubemap.AssetLoaded | src/skybox.rs:91-113 | `is_loaded` becomes true only when it was false and the handle's state is `Loaded`, and then every skybox shows the image; otherwise nothing changes; it never clears the flag |

## Left out

- Floating point throughout: `f32`/`f64` are idealised as `real`, so rounding, overflow to infinity and NaN are not modelled.
- `sin`/`cos` of the hashed angle are the parameter `sinCos` of `RandomGradient`. `normalize`, `atan2` and `asin` of the mesh are the parameters in `FloatOps`.
- The distance `sqrt` is not modelled: the model compares squared distances, which order the seeds the same way.
- Vertex coordinates and UVs are only tied to their formulas (`FaceVertex`, `FaceUv`); no geometric fact about them is proved, for example that a vertex lies on the sphere.
- Noise.MixWords: the hash is only computed. Apart from its value at the origin and its dependence on the bit patterns alone, no property is proved about it. Bit-vector products are too costly for the solver, so, for example, whether it is a bijection stays open.
- Noise.Perlin: `x0 + 1` and `y0 + 1` are unbounded integers, so the `i32` overflow at `i32::MAX` is not modelled. The hash does use the wrapped 32-bit pattern.
- Noise.MakePerlinNoise: the loops are the helper method `NoiseMap`, stated for any base noise; `MakePerlinNoise` passes it the program's base noise.
- Provinces.CreateProvinceColors: `thread_rng` is a finite stream of raw draws, so termination of the rejection loops is not claimed. Running out of draws ends generation with `complete = false`.
- Provinces.GenRange: a draw is reduced into its range by `lo + raw % (hi - lo + 1)`; the distribution of `gen_range` is not modelled.
- Provinces.CreateProvinceColors requires `width, height >= 2` when seeds are requested. With a dimension of 1 the source's `gen_range(1..=0)` panics. With a dimension of 0, `width - 1` underflows: a debug build panics, and a release build wraps to `u32::MAX` and draws from `1..=u32::MAX`.
- Provinces.BorderMask: the pixel-sampling math of `create_cube_map_face` is left out (f32 trigonometry).
- The PNG saves are left out (file I/O).
- The `imageops` rotate and flip calls are left out. Their meaning lives in the `image` crate, which is not part of this model.
- Provinces.CreateProvincesImage: the `u32` sum `x + width / 2` is an unbounded integer, so its wrap-around for widths near `2^32` is not modelled.
- Provinces.BorderMask: the casts `x as i32`, `y as i32`, `width as i32` and `height as i32` are exact here, so their wrap to negative values for dimensions of `2^31` or more is not modelled.
- PlanetMesh.Face requires `resolution >= 2`. With resolution 1 the source divides 0 by 0 (NaN vertices); with 0, `resolution - 1` underflows.
- PlanetMesh.MeshFromPlanet: the `u32` index arithmetic is unbounded here, so wrap-around for very large resolutions is not modelled.
- PlanetMesh.MeshFromPlanet: the `From` impl is written with iterators; the model runs `Face` in a loop over the directions, because `Face` is a method.
- PlanetMesh.Face: the body of the inner loop is split into the helper methods `PushGridPoint`, `PushCell` and `FaceRow`.
- Provinces.PaintProvinces: likewise, the inner `y` loop is the helper method `PaintColumn`, and one round of `create_province_colors` is `PlaceSeed`. `PaintColumn` reads the two noise values of a pixel once, before the scan over the seeds; the source reads them inside the scan, so it reads none when there are no seeds. The resulting pixel is the same.
- Skybox: the directional light and the ambient light that `build_skybox` spawns are left out (rendering only).
- Provinces.BorderMask requires the image to be at least `width x height`. With a smaller image the source's `image.get_pixel` panics; that path is not modelled.
- Skybox: `info!` logging is left out.
- Skybox.Cubemap.AssetLoaded: the `images.get_mut(..).unwrap()` panic when a loaded handle has no image is left out; the image itself is not modelled.
- Skybox: the reinterpretation of a one-layer image as a cube array is left out (image crate).
- Skybox: the `RenderDevice` feature query is the parameter `supported`; the asset server's load state is the parameter `loadState`.
- The camera, loading screen, configuration parser, ico-sphere wrapper, material, asset table and plugin wiring are not part of this model.
