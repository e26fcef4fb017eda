/**
 * The gradient ("Perlin-style") noise field of src/planet/noise.rs.
 *
 * The integer gradient hash is bit-exact in `bv32`. Everything that the source
 * computes in `f32` is idealised over `real`. `Perlin` and the octave sum are stated
 * for any corner gradients `lattice` and any base noise `base`; the noise map of the
 * program is built from `ProgramNoise(sinCos)`, where `sinCos(r)` stands for the
 * float pair `(r.sin(), r.cos())`.
 */
module Noise {
  import opened Vectors

  /** Lattice spacing, in pixels, of the first octave. */
  const GridSize: int := 400

  /** Number of octaves summed per sample. */
  const Octaves: nat := 12

  /** Factor applied to the octave sum before clamping. */
  const Boost: real := 1.2

  // ---------------------------------------------------------------------------
  // The integer hash of `random_gradient`

  /** `W = 8 * size_of::<u32>()` and `S = W / 2`. */
  const W: bv32 := 32
  const S: bv32 := W / 2

  /** `a << S | a >> W - S`. */
  function HalfSwap(a: bv32): bv32 {
    (a << S) | (a >> (W - S))
  }

  /** With W = 32 and S = 16 the shift pair is a rotation by half a word, hence an involution. */
  lemma HalfSwapIsRotation(a: bv32)
    ensures HalfSwap(a) == a.RotateLeft(16)
    ensures HalfSwap(HalfSwap(a)) == a
  {
    assert S == 16 && W - S == 16;
  }

  /** `i as u32` for an `i32`: the two's-complement bit pattern (also the wrapped `x0 + 1`). */
  function AsU32(i: int): bv32 {
    (i % 0x1_0000_0000) as bv32
  }

  /** The straight-line mixing steps of `random_gradient` on the bit patterns `a = ix as u32`, `b = iy as u32`. */
  function MixWords(a: bv32, b: bv32): bv32 {
    var a1 := a * 3284157443;
    var b1 := (b ^ HalfSwap(a1)) * 1911520717;
    var a2 := a1 ^ HalfSwap(b1);
    a2 * 2048419325
  }

  /** The word `random_gradient(ix, iy)` turns into an angle; wrapping multiplies are `bv32` products. */
  function GradientHash(ix: int, iy: int): bv32 {
    MixWords(AsU32(ix), AsU32(iy))
  }

  /**
   * The hash sees only the 32-bit patterns of the corner: corners whose coordinates agree
   * modulo `2^32` (such as `i32::MAX + 1` and `i32::MIN`) get the same word.
   */
  lemma GradientHashDependsOnBits(ix: int, iy: int, jx: int, jy: int)
    requires ix % 0x1_0000_0000 == jx % 0x1_0000_0000 && iy % 0x1_0000_0000 == jy % 0x1_0000_0000
    ensures GradientHash(ix, iy) == GradientHash(jx, jy)
  {
    assert AsU32(ix) == AsU32(jx) && AsU32(iy) == AsU32(jy);
  }

  /** The origin corner hashes to the zero word, since every step maps zero to zero. */
  lemma GradientHashAtOrigin()
    ensures GradientHash(0, 0) == 0
  {
    assert AsU32(0) == 0;
    assert HalfSwap(0) == 0;
  }

  /** `!(0u32.wrapping_sub(1) >> 1)`: the all-ones word shifted right once, then complemented. */
  const AngleDivisor: bv32 := !((0 as bv32 - 1) >> 1)

  /** The divisor is the word with only the top bit set. */
  lemma AngleDivisorIsHalfRange()
    ensures AngleDivisor as int == 0x8000_0000
  {
    assert AngleDivisor == 0x8000_0000;
  }

  /** `n as f32 * (PI / AngleDivisor as f32)` for a word of value `n`. */
  function WordAngle(n: int): real {
    n as real * (Pi / AngleDivisor as int as real)
  }

  /** Every 32-bit word value becomes an angle in `[0, 2*pi)`. */
  lemma WordAngleInRange(n: int)
    requires 0 <= n < 0x1_0000_0000
    ensures 0.0 <= WordAngle(n) < 2.0 * Pi
  {
    AngleDivisorIsHalfRange();
  }

  /** The hashed word read as an angle, as `random_gradient` does before `sin` and `cos`. */
  function GradientAngle(a: bv32): (r: real)
    ensures 0.0 <= r < 2.0 * Pi
  {
    WordAngleInRange(a as int);
    WordAngle(a as int)
  }

  /**
   * `random_gradient` as a lattice function: corner `(ix, iy)` gets the unit vector
   * `sinCos` of its hashed angle.
   */
  function RandomGradient(sinCos: real -> Vec2): (int, int) -> Vec2 {
    (ix: int, iy: int) => sinCos(GradientAngle(GradientHash(ix, iy)))
  }

  // ---------------------------------------------------------------------------
  // dot_grid_gradient, interpolate, perlin

  /** `x as i32` on a float: truncation toward zero, saturating at the `i32` range. */
  function ToI32(x: real): (i: int)
    ensures -0x8000_0000 <= i <= 0x7fff_ffff
    ensures 0.0 <= x < 0x8000_0000 as real ==> i as real <= x < i as real + 1.0
    ensures -0x8000_0000 as real <= x < 0.0 ==> i as real - 1.0 < x <= i as real
  {
    var t := if x >= 0.0 then x.Floor else -((-x).Floor);
    if t < -0x8000_0000 then -0x8000_0000 else if t > 0x7fff_ffff then 0x7fff_ffff else t
  }

  /** The offset of `(x, y)` from lattice corner `(ix, iy)` dotted with that corner's gradient. */
  function DotGridGradient(lattice: (int, int) -> Vec2, ix: int, iy: int, x: real, y: real): (d: real)
    ensures x == ix as real && y == iy as real ==> d == 0.0
  {
    var g := lattice(ix, iy);
    (x - ix as real) * g.x + (y - iy as real) * g.y
  }

  /** Smoothstep blend `(a1 - a0) * (3 - 2w) * w^2 + a0`. */
  function Interpolate(a0: real, a1: real, w: real): real {
    (a1 - a0) * (3.0 - w * 2.0) * w * w + a0
  }

  lemma InterpolateEndpoints(a0: real, a1: real)
    ensures Interpolate(a0, a1, 0.0) == a0
    ensures Interpolate(a0, a1, 1.0) == a1
  {
  }

  function Min(a: real, b: real): real { if a <= b then a else b }
  function Max(a: real, b: real): real { if a <= b then b else a }

  lemma MulNonNeg(a: real, b: real)
    requires 0.0 <= a && 0.0 <= b
    ensures 0.0 <= a * b
  {
  }

  /** For a weight in [0, 1] the smoothstep weight `(3 - 2w) w^2` lies in [0, 1]. */
  lemma SmoothWeightInUnit(w: real)
    requires 0.0 <= w <= 1.0
    ensures 0.0 <= (3.0 - w * 2.0) * w * w <= 1.0
  {
    MulNonNeg(3.0 - w * 2.0, w);
    MulNonNeg((3.0 - w * 2.0) * w, w);
    MulNonNeg(1.0 - w, 1.0 - w);
    MulNonNeg((1.0 - w) * (1.0 - w), 1.0 + 2.0 * w);
    assert 1.0 - (3.0 - w * 2.0) * w * w == (1.0 - w) * (1.0 - w) * (1.0 + 2.0 * w);
  }

  /** With a weight in [0, 1] the blend stays between its two end values. */
  lemma InterpolateBetween(a0: real, a1: real, w: real)
    requires 0.0 <= w <= 1.0
    ensures Min(a0, a1) <= Interpolate(a0, a1, w) <= Max(a0, a1)
  {
    var t := (3.0 - w * 2.0) * w * w;
    SmoothWeightInUnit(w);
    assert Interpolate(a0, a1, w) == a0 + (a1 - a0) * t;
    var d := if a0 <= a1 then a1 - a0 else a0 - a1;
    MulNonNeg(d, t);
    MulNonNeg(d, 1.0 - t);
    assert d * (1.0 - t) == d - d * t;
  }

  /**
   * Noise at `(x, y)`: the four corners `(x0, y0)`, `(x1, y0)`, `(x0, y1)`, `(x1, y1)`
   * with `x1 = x0 + 1`, `y1 = y0 + 1`, blended along x per row, then along y.
   */
  function Perlin(lattice: (int, int) -> Vec2, x: real, y: real): real {
    var x0 := ToI32(x);
    var y0 := ToI32(y);
    var x1 := x0 + 1;
    var y1 := y0 + 1;
    var sx := x - x0 as real;
    var sy := y - y0 as real;
    var ix0 := Interpolate(DotGridGradient(lattice, x0, y0, x, y), DotGridGradient(lattice, x1, y0, x, y), sx);
    var ix1 := Interpolate(DotGridGradient(lattice, x0, y1, x, y), DotGridGradient(lattice, x1, y1, x, y), sx);
    Interpolate(ix0, ix1, sy)
  }

  /** Gradient noise vanishes at every (non-negative, in-range) lattice point. */
  lemma PerlinVanishesOnLattice(lattice: (int, int) -> Vec2, ix: nat, iy: nat)
    requires ix < 0x8000_0000 && iy < 0x8000_0000
    ensures Perlin(lattice, ix as real, iy as real) == 0.0
  {
    var x, y := ix as real, iy as real;
    assert ToI32(x) == ix && ToI32(y) == iy;
    assert DotGridGradient(lattice, ix, iy, x, y) == 0.0;
    InterpolateEndpoints(0.0, DotGridGradient(lattice, ix + 1, iy, x, y));
    InterpolateEndpoints(Interpolate(0.0, DotGridGradient(lattice, ix + 1, iy, x, y), 0.0),
                         Interpolate(DotGridGradient(lattice, ix, iy + 1, x, y), DotGridGradient(lattice, ix + 1, iy + 1, x, y), 0.0));
  }

  /** For non-negative in-range inputs the noise lies between the smallest and largest corner values. */
  lemma PerlinBetweenCorners(lattice: (int, int) -> Vec2, x: real, y: real)
    requires 0.0 <= x < 0x7fff_ffff as real && 0.0 <= y < 0x7fff_ffff as real
    ensures var x0, y0 := ToI32(x), ToI32(y);
            var n00, n10 := DotGridGradient(lattice, x0, y0, x, y), DotGridGradient(lattice, x0 + 1, y0, x, y);
            var n01, n11 := DotGridGradient(lattice, x0, y0 + 1, x, y), DotGridGradient(lattice, x0 + 1, y0 + 1, x, y);
            Min(Min(n00, n10), Min(n01, n11)) <= Perlin(lattice, x, y) <= Max(Max(n00, n10), Max(n01, n11))
  {
    var x0, y0 := ToI32(x), ToI32(y);
    var sx, sy := x - x0 as real, y - y0 as real;
    var n00, n10 := DotGridGradient(lattice, x0, y0, x, y), DotGridGradient(lattice, x0 + 1, y0, x, y);
    var n01, n11 := DotGridGradient(lattice, x0, y0 + 1, x, y), DotGridGradient(lattice, x0 + 1, y0 + 1, x, y);
    InterpolateBetween(n00, n10, sx);
    InterpolateBetween(n01, n11, sx);
    InterpolateBetween(Interpolate(n00, n10, sx), Interpolate(n01, n11, sx), sy);
  }

  // ---------------------------------------------------------------------------
  // The octave sum and make_perlin_noise

  /** Frequency at the start of octave k. */
  function Frequency(k: nat): real {
    if k == 0 then 1.0 else 2.0 * Frequency(k - 1)
  }

  /** Amplitude at the start of octave k. */
  function Amplitude(k: nat): real {
    if k == 0 then 1.0 else Amplitude(k - 1) / 2.0
  }

  /** The loop's `freq` and `amp` are reciprocal: `freq = 2^k` and `amp = 1 / 2^k`. */
  lemma {:induction false} AmplitudeIsReciprocal(k: nat)
    ensures Frequency(k) >= 1.0
    ensures Amplitude(k) * Frequency(k) == 1.0
  {
    if k > 0 {
      AmplitudeIsReciprocal(k - 1);
    }
  }

  /** `perlin` over a given lattice, as a function of the sample point. */
  function PerlinNoise(lattice: (int, int) -> Vec2): (real, real) -> real {
    (x: real, y: real) => Perlin(lattice, x, y)
  }

  /** The base noise of the program: `perlin` over the hashed gradients of `random_gradient`. */
  function ProgramNoise(sinCos: real -> Vec2): (real, real) -> real {
    PerlinNoise(RandomGradient(sinCos))
  }

  /** A pixel coordinate scaled to octave k's lattice: `(x as f32 * freq) / GRID_SIZE as f32`. */
  function Scaled(x: nat, k: nat): real {
    (x as real * Frequency(k)) / GridSize as real
  }

  /** The sum of the first k octaves at pixel `(x, y)`. */
  function OctaveSum(base: (real, real) -> real, x: nat, y: nat, k: nat): real {
    if k == 0 then 0.0
    else OctaveSum(base, x, y, k - 1) + base(Scaled(x, k - 1), Scaled(y, k - 1)) * Amplitude(k - 1)
  }

  /** Hard clamp to [-1, 1]. */
  function Clamp(v: real): (r: real)
    ensures -1.0 <= r <= 1.0
    ensures -1.0 <= v <= 1.0 ==> r == v
    ensures v > 1.0 ==> r == 1.0
    ensures v < -1.0 ==> r == -1.0
  {
    if v >= 1.0 then 1.0 else if v <= -1.0 then -1.0 else v
  }

  /** The value that `make_perlin_noise` stores for pixel `(x, y)`. */
  function NoiseValue(base: (real, real) -> real, x: nat, y: nat): real {
    Clamp(OctaveSum(base, x, y, Octaves) * Boost)
  }

  /** Every noise value lies in [-1, 1]. */
  lemma NoiseValueInRange(base: (real, real) -> real, x: nat, y: nat)
    ensures -1.0 <= NoiseValue(base, x, y) <= 1.0
  {
  }

  /** The octave loop of one pixel, then the boost and the clamp. */
  method PixelNoise(base: (real, real) -> real, x: nat, y: nat) returns (val: real)
    ensures val == NoiseValue(base, x, y)
    ensures -1.0 <= val <= 1.0
  {
    val := 0.0;
    var freq := 1.0;
    var amp := 1.0;
    for k := 0 to Octaves
      invariant freq == Frequency(k)
      invariant amp == Amplitude(k)
      invariant val == OctaveSum(base, x, y, k)
    {
      ghost var octave := base(Scaled(x, k), Scaled(y, k));
      assert (x as real * freq) / GridSize as real == Scaled(x, k);
      assert (y as real * freq) / GridSize as real == Scaled(y, k);
      assert OctaveSum(base, x, y, k + 1) == OctaveSum(base, x, y, k) + octave * Amplitude(k);
      val := val + base((x as real * freq) / GridSize as real, (y as real * freq) / GridSize as real) * amp;
      freq := freq * 2.0;
      amp := amp / 2.0;
    }
    assert val == OctaveSum(base, x, y, Octaves);
    val := val * Boost;
    if val >= 1.0 {
      val := 1.0;
    } else if val <= -1.0 {
      val := -1.0;
    }
  }

  /** The loops of `make_perlin_noise` for a given base noise: a `width x height` map, indexed `[x, y]`. */
  method NoiseMap(width: nat, height: nat, base: (real, real) -> real) returns (noiseMap: array2<real>)
    ensures fresh(noiseMap)
    ensures noiseMap.Length0 == width && noiseMap.Length1 == height
    ensures forall x, y :: 0 <= x < width && 0 <= y < height ==>
              noiseMap[x, y] == NoiseValue(base, x, y) && -1.0 <= noiseMap[x, y] <= 1.0
  {
    noiseMap := new real[width, height]((_, _) => 0.0);
    for x := 0 to width
      invariant forall i, j :: 0 <= i < x && 0 <= j < height ==>
                  noiseMap[i, j] == NoiseValue(base, i, j) && -1.0 <= noiseMap[i, j] <= 1.0
    {
      for y := 0 to height
        invariant forall i, j :: 0 <= i < x && 0 <= j < height ==>
                    noiseMap[i, j] == NoiseValue(base, i, j) && -1.0 <= noiseMap[i, j] <= 1.0
        invariant forall j :: 0 <= j < y ==>
                    noiseMap[x, j] == NoiseValue(base, x, j) && -1.0 <= noiseMap[x, j] <= 1.0
      {
        var val := PixelNoise(base, x, y);
        noiseMap[x, y] := val;
      }
    }
  }

  /** `make_perlin_noise(width, height)`: the noise map of the program's base noise. */
  method MakePerlinNoise(width: nat, height: nat, sinCos: real -> Vec2) returns (noiseMap: array2<real>)
    ensures fresh(noiseMap)
    ensures noiseMap.Length0 == width && noiseMap.Length1 == height
    ensures forall x, y :: 0 <= x < width && 0 <= y < height ==>
              noiseMap[x, y] == NoiseValue(ProgramNoise(sinCos), x, y) && -1.0 <= noiseMap[x, y] <= 1.0
  {
    noiseMap := NoiseMap(width, height, ProgramNoise(sinCos));
  }
}
