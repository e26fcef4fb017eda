/**
 * Province generation of src/planet/provinces.rs: seed sampling by rejection, the
 * nearest-seed rasterizer over a noise-distorted pixel position, and the border mask.
 *
 * The random draws of `thread_rng` are a supplied stream `rng` of raw numbers; each
 * `gen_range(lo..=hi)` consumes one of them. A stream that runs out ends generation
 * early, reported by `complete == false`.
 */
module Provinces {
  import opened Vectors
  import Noise

  /** A `u8` colour channel. */
  type Channel = c: int | 0 <= c < 256

  datatype Rgb = Rgb(r: Channel, g: Channel, b: Channel)
  datatype Rgba = Rgba(r: Channel, g: Channel, b: Channel, a: Channel)

  /** One entry `(color, x, y)` of `used_colors`. */
  datatype Seed = Seed(color: Rgb, x: nat, y: nat)

  datatype Option<T> = None | Some(value: T)

  /** The pixel value of a fresh `RgbImage`. */
  const Black: Rgb := Rgb(0, 0, 0)

  /** Scale of the noise displacement, in pixels. */
  const DisplacementFactor: real := 86.0

  // ---------------------------------------------------------------------------
  // create_province_colors

  /** `gen_range(lo..=hi)` applied to the raw draw `raw`. */
  function GenRange(lo: int, hi: int, raw: nat): (v: int)
    requires lo <= hi
    ensures lo <= v <= hi
  {
    lo + raw % (hi - lo + 1)
  }

  /** Every value of the range is the outcome of some draw. */
  lemma GenRangeCovers(lo: int, hi: int, v: int)
    requires lo <= v <= hi
    ensures GenRange(lo, hi, v - lo) == v
  {
  }

  /** The `any` test on positions: some seed already sits at `(x, y)`. */
  predicate PositionUsed(seeds: seq<Seed>, x: int, y: int) {
    exists k :: 0 <= k < |seeds| && seeds[k].x == x && seeds[k].y == y
  }

  /** The `any` test on colours: some seed already has colour `c`. */
  predicate ColorUsed(seeds: seq<Seed>, c: Rgb) {
    exists k :: 0 <= k < |seeds| && seeds[k].color == c
  }

  /** The ranges the draws come from: `1..=width-1`, `1..=height-1` and `1..=255` per channel. */
  predicate InRange(s: Seed, width: int, height: int) {
    1 <= s.x <= width - 1 && 1 <= s.y <= height - 1 &&
    1 <= s.color.r && 1 <= s.color.g && 1 <= s.color.b
  }

  /** All seeds in range, no two at the same position, no two of the same colour. */
  predicate WellFormed(seeds: seq<Seed>, width: int, height: int) {
    (forall k :: 0 <= k < |seeds| ==> InRange(seeds[k], width, height)) &&
    (forall i, j :: 0 <= i < j < |seeds| ==> seeds[i].x != seeds[j].x || seeds[i].y != seeds[j].y) &&
    (forall i, j :: 0 <= i < j < |seeds| ==> seeds[i].color != seeds[j].color)
  }

  /** Appending a seed at an unused position with an unused colour keeps the list well formed. */
  lemma AppendFresh(seeds: seq<Seed>, s: Seed, width: int, height: int)
    requires WellFormed(seeds, width, height) && InRange(s, width, height)
    requires !PositionUsed(seeds, s.x, s.y) && !ColorUsed(seeds, s.color)
    ensures WellFormed(seeds + [s], width, height)
  {
    var t := seeds + [s];
    forall i, j | 0 <= i < j < |t|
      ensures t[i].x != t[j].x || t[i].y != t[j].y
      ensures t[i].color != t[j].color
    {
      if j == |seeds| {
        assert t[i] == seeds[i];
      }
    }
  }

  /** The outcome of one rejection loop: the new seed and the stream position after it. */
  datatype Draw = Drawn(seed: Seed, next: nat) | Exhausted

  /** The colour loop: three channel draws until the colour is unused. */
  function DrawColor(seeds: seq<Seed>, x: nat, y: nat, rng: seq<nat>, c: nat): (d: Draw)
    requires c <= |rng|
    ensures d.Drawn? ==> c + 3 <= d.next <= |rng|
    ensures d.Drawn? ==> d.seed.x == x && d.seed.y == y && !ColorUsed(seeds, d.seed.color)
    ensures d.Drawn? ==> 1 <= d.seed.color.r && 1 <= d.seed.color.g && 1 <= d.seed.color.b
    decreases |rng| - c
  {
    if c + 3 > |rng| then Exhausted
    else
      var color := Rgb(GenRange(1, 255, rng[c]), GenRange(1, 255, rng[c + 1]), GenRange(1, 255, rng[c + 2]));
      if ColorUsed(seeds, color) then DrawColor(seeds, x, y, rng, c + 3)
      else Drawn(Seed(color, x, y), c + 3)
  }

  /** The position loop: two coordinate draws until the position is unused, then the colour loop. */
  function DrawSeed(seeds: seq<Seed>, width: nat, height: nat, rng: seq<nat>, c: nat): (d: Draw)
    requires width >= 2 && height >= 2 && c <= |rng|
    ensures d.Drawn? ==> c + 5 <= d.next <= |rng|
    ensures d.Drawn? ==> InRange(d.seed, width, height)
    ensures d.Drawn? ==> !PositionUsed(seeds, d.seed.x, d.seed.y) && !ColorUsed(seeds, d.seed.color)
    decreases |rng| - c
  {
    if c + 2 > |rng| then Exhausted
    else
      var x := GenRange(1, width - 1, rng[c]);
      var y := GenRange(1, height - 1, rng[c + 1]);
      if PositionUsed(seeds, x, y) then DrawSeed(seeds, width, height, rng, c + 2)
      else DrawColor(seeds, x, y, rng, c + 2)
  }

  datatype Outcome = Outcome(seeds: seq<Seed>, complete: bool)

  /** `count` more rounds of the outer loop, starting from `seeds` at stream position `c`. */
  function Generate(count: nat, seeds: seq<Seed>, width: nat, height: nat, rng: seq<nat>, c: nat): (o: Outcome)
    requires count == 0 || (width >= 2 && height >= 2)
    requires c <= |rng| && WellFormed(seeds, width, height)
    ensures |seeds| <= |o.seeds| <= |seeds| + count
    ensures o.seeds[..|seeds|] == seeds
    ensures o.complete <==> |o.seeds| == |seeds| + count
    ensures WellFormed(o.seeds, width, height)
    decreases count
  {
    if count == 0 then Outcome(seeds, true)
    else
      match DrawSeed(seeds, width, height, rng, c)
      case Exhausted => Outcome(seeds, false)
      case Drawn(s, next) =>
        AppendFresh(seeds, s, width, height);
        var o := Generate(count - 1, seeds + [s], width, height, rng, next);
        assert o.seeds[..|seeds|] == (o.seeds[..|seeds| + 1])[..|seeds|];
        o
  }

  /** One more round only appends: the seeds of `count` rounds are a prefix of those of `count + 1`. */
  lemma {:induction false} GenerateOnlyAppends(count: nat, seeds: seq<Seed>, width: nat, height: nat, rng: seq<nat>, c: nat)
    requires width >= 2 && height >= 2
    requires c <= |rng| && WellFormed(seeds, width, height)
    ensures var shorter := Generate(count, seeds, width, height, rng, c).seeds;
            var longer := Generate(count + 1, seeds, width, height, rng, c).seeds;
            |shorter| <= |longer| && longer[..|shorter|] == shorter
  {
    if count > 0 {
      match DrawSeed(seeds, width, height, rng, c)
      case Exhausted =>
      case Drawn(s, next) =>
        AppendFresh(seeds, s, width, height);
        GenerateOnlyAppends(count - 1, seeds + [s], width, height, rng, next);
    } else {
      var longer := Generate(1, seeds, width, height, rng, c).seeds;
      assert longer[..|seeds|] == seeds;
    }
  }

  /** One round of `Generate`: it ends incomplete when the draws run out, and otherwise pushes the drawn seed. */
  lemma GenerateStep(count: nat, seeds: seq<Seed>, width: nat, height: nat, rng: seq<nat>, c: nat)
    requires count > 0 && width >= 2 && height >= 2
    requires c <= |rng| && WellFormed(seeds, width, height)
    ensures var d := DrawSeed(seeds, width, height, rng, c);
            var o := Generate(count, seeds, width, height, rng, c);
            (d.Exhausted? ==> o == Outcome(seeds, false)) &&
            (d.Drawn? ==> d.next <= |rng| && WellFormed(seeds + [d.seed], width, height) &&
                          o == Generate(count - 1, seeds + [d.seed], width, height, rng, d.next))
  {
    var d := DrawSeed(seeds, width, height, rng, c);
    if d.Drawn? {
      AppendFresh(seeds, d.seed, width, height);
    }
  }

  /**
   * One round of the outer loop of `create_province_colors`: draw a position until it is
   * unused, then a colour until it is unused; `Exhausted` when the stream runs out first.
   */
  method PlaceSeed(usedColors: seq<Seed>, width: nat, height: nat, rng: seq<nat>, start: nat) returns (d: Draw)
    requires width >= 2 && height >= 2 && start <= |rng|
    ensures d == DrawSeed(usedColors, width, height, rng, start)
  {
    var cursor := start;
    while true
      invariant start <= cursor <= |rng|
      invariant DrawSeed(usedColors, width, height, rng, cursor) == DrawSeed(usedColors, width, height, rng, start)
      decreases |rng| - cursor
    {
      if cursor + 2 > |rng| {
        return Exhausted;
      }
      var newX := GenRange(1, width - 1, rng[cursor]);
      var newY := GenRange(1, height - 1, rng[cursor + 1]);
      cursor := cursor + 2;
      if !PositionUsed(usedColors, newX, newY) {
        while true
          invariant cursor <= |rng|
          invariant DrawColor(usedColors, newX, newY, rng, cursor) == DrawSeed(usedColors, width, height, rng, start)
          decreases |rng| - cursor
        {
          if cursor + 3 > |rng| {
            return Exhausted;
          }
          var newColor := Rgb(GenRange(1, 255, rng[cursor]), GenRange(1, 255, rng[cursor + 1]), GenRange(1, 255, rng[cursor + 2]));
          cursor := cursor + 3;
          if !ColorUsed(usedColors, newColor) {
            return Drawn(Seed(newColor, newX, newY), cursor);
          }
        }
      } else {
        continue;
      }
    }
  }

  /**
   * `create_province_colors`: `cell_count` rounds, each drawing a position until it is
   * unused and then a colour until it is unused, and pushing the seed.
   */
  method CreateProvinceColors(cellCount: nat, width: nat, height: nat, rng: seq<nat>)
    returns (usedColors: seq<Seed>, complete: bool)
    requires cellCount == 0 || (width >= 2 && height >= 2)
    ensures Outcome(usedColors, complete) == Generate(cellCount, [], width, height, rng, 0)
    ensures WellFormed(usedColors, width, height)
    ensures complete <==> |usedColors| == cellCount
    ensures |usedColors| <= cellCount
  {
    usedColors := [];
    var cursor: nat := 0;
    for n := 0 to cellCount
      invariant cursor <= |rng| && |usedColors| == n
      invariant WellFormed(usedColors, width, height)
      invariant Generate(cellCount - n, usedColors, width, height, rng, cursor) == Generate(cellCount, [], width, height, rng, 0)
    {
      var d := PlaceSeed(usedColors, width, height, rng, cursor);
      GenerateStep(cellCount - n, usedColors, width, height, rng, cursor);
      if d.Exhausted? {
        complete := false;
        return;
      }
      usedColors := usedColors + [d.seed];
      cursor := d.next;
    }
    complete := true;
  }

  // ---------------------------------------------------------------------------
  // create_provinces_image

  /** The column of the second noise lookup, `(x + width / 2) % width`. */
  function PartnerColumn(x: nat, width: nat): (c: nat)
    requires x < width
    ensures c < width
  {
    (x + width / 2) % width
  }

  /** A pixel coordinate moved by a noise value. */
  function Distort(coord: nat, noise: real): real {
    coord as real + noise * DisplacementFactor
  }

  /** The squared distance from `(px, py)` to a seed; it orders seeds as the square root does. */
  function SquaredDistance(s: Seed, px: real, py: real): real {
    (s.x as real - px) * (s.x as real - px) + (s.y as real - py) * (s.y as real - py)
  }

  /**
   * The seed the scan over `seeds` settles on: the running best is replaced only by a
   * strictly smaller distance.
   */
  function Nearest(seeds: seq<Seed>, px: real, py: real): (k: nat)
    requires |seeds| > 0
    ensures k < |seeds|
    ensures forall j :: 0 <= j < |seeds| ==> SquaredDistance(seeds[k], px, py) <= SquaredDistance(seeds[j], px, py)
    ensures forall j :: 0 <= j < k ==> SquaredDistance(seeds[k], px, py) < SquaredDistance(seeds[j], px, py)
  {
    if |seeds| == 1 then 0
    else
      var k := Nearest(seeds[..|seeds| - 1], px, py);
      if SquaredDistance(seeds[|seeds| - 1], px, py) < SquaredDistance(seeds[k], px, py) then |seeds| - 1
      else k
  }

  /** The colour pixel `(x, y)` receives, given its two noise values. */
  function PixelColor(colors: seq<Seed>, x: nat, y: nat, noiseX: real, noiseY: real): (c: Rgb) {
    if |colors| == 0 then Black
    else colors[Nearest(colors, Distort(x, noiseX), Distort(y, noiseY))].color
  }

  /** For any seed list, a pixel keeps the default black without seeds and otherwise takes some seed's colour. */
  lemma PixelColorIsSeedColor(colors: seq<Seed>, x: nat, y: nat, noiseX: real, noiseY: real)
    ensures |colors| == 0 ==> PixelColor(colors, x, y, noiseX, noiseY) == Black
    ensures |colors| > 0 ==> exists k :: 0 <= k < |colors| && PixelColor(colors, x, y, noiseX, noiseY) == colors[k].color
  {
    if |colors| > 0 {
      var k := Nearest(colors, Distort(x, noiseX), Distort(y, noiseY));
      assert PixelColor(colors, x, y, noiseX, noiseY) == colors[k].color;
    }
  }

  /** With the seeds `create_province_colors` makes, no colour is black, so a pixel is black exactly without seeds. */
  lemma PixelColorNeverBlack(colors: seq<Seed>, width: nat, height: nat, x: nat, y: nat, noiseX: real, noiseY: real)
    requires WellFormed(colors, width, height)
    ensures PixelColor(colors, x, y, noiseX, noiseY) == Black <==> |colors| == 0
  {
    if |colors| > 0 {
      var k := Nearest(colors, Distort(x, noiseX), Distort(y, noiseY));
      assert InRange(colors[k], width, height);
    }
  }

  /** The scan over the seeds for one pixel, with the running `closest` and `min_distance`. */
  method ClosestColor(colors: seq<Seed>, px: real, py: real) returns (closest: Option<Rgb>)
    ensures |colors| == 0 ==> closest == None
    ensures |colors| > 0 ==> closest == Some(colors[Nearest(colors, px, py)].color)
  {
    closest := None;
    var minDistance: Option<real> := None;
    for k := 0 to |colors|
      invariant k == 0 ==> closest == None && minDistance == None
      invariant k > 0 ==> minDistance == Some(SquaredDistance(colors[Nearest(colors[..k], px, py)], px, py))
      invariant k > 0 ==> closest == Some(colors[Nearest(colors[..k], px, py)].color)
    {
      assert colors[..k + 1][..k] == colors[..k];
      var distance := SquaredDistance(colors[k], px, py);
      match minDistance
      case None =>
        minDistance := Some(distance);
        closest := Some(colors[k].color);
      case Some(d) =>
        if distance < d {
          minDistance := Some(distance);
          closest := Some(colors[k].color);
        }
    }
    assert colors[..|colors|] == colors;
  }

  /** The colour `create_provinces_image` gives pixel `(x, y)` with the noise map `noiseMap`. */
  ghost function Painted(colors: seq<Seed>, width: nat, noiseMap: array2<real>, x: nat, y: nat): Rgb
    requires x < width == noiseMap.Length0 && y < noiseMap.Length1
    reads noiseMap
  {
    PixelColor(colors, x, y, noiseMap[x, y], noiseMap[PartnerColumn(x, width), y])
  }

  /** One pass of the inner `y` loop of `create_provinces_image`: the black column `x` gets its province colours. */
  method PaintColumn(colors: seq<Seed>, width: nat, height: nat, noiseMap: array2<real>, image: array2<Rgb>, x: nat)
    requires noiseMap.Length0 == width && noiseMap.Length1 == height
    requires image.Length0 == width && image.Length1 == height && x < width
    requires forall j :: 0 <= j < height ==> image[x, j] == Black
    modifies image
    ensures forall j :: 0 <= j < height ==> image[x, j] == Painted(colors, width, noiseMap, x, j)
    ensures forall i, j :: 0 <= i < width && i != x && 0 <= j < height ==> image[i, j] == old(image[i, j])
  {
    for y := 0 to height
      invariant forall j :: 0 <= j < y ==> image[x, j] == Painted(colors, width, noiseMap, x, j)
      invariant forall j :: y <= j < height ==> image[x, j] == Black
      invariant forall i, j :: 0 <= i < width && i != x && 0 <= j < height ==> image[i, j] == old(image[i, j])
    {
      var noiseValueX := noiseMap[x, y];
      var noiseValueY := noiseMap[PartnerColumn(x, width), y];
      var closest := ClosestColor(colors, Distort(x, noiseValueX), Distort(y, noiseValueY));
      if closest.Some? {
        image[x, y] := closest.value;
      }
    }
  }

  /** The x/y loops of `create_provinces_image`: each pixel of a black image gets its province colour. */
  method PaintProvinces(colors: seq<Seed>, width: nat, height: nat, noiseMap: array2<real>, image: array2<Rgb>)
    requires noiseMap.Length0 == width && noiseMap.Length1 == height
    requires image.Length0 == width && image.Length1 == height
    requires forall x, y :: 0 <= x < width && 0 <= y < height ==> image[x, y] == Black
    modifies image
    ensures forall x, y :: 0 <= x < width && 0 <= y < height ==>
              image[x, y] == PixelColor(colors, x, y, noiseMap[x, y], noiseMap[PartnerColumn(x, width), y])
  {
    for x := 0 to width
      invariant forall i, j :: 0 <= i < x && 0 <= j < height ==> image[i, j] == Painted(colors, width, noiseMap, i, j)
      invariant forall i, j :: x <= i < width && 0 <= j < height ==> image[i, j] == Black
    {
      PaintColumn(colors, width, height, noiseMap, image, x);
    }
  }

  /**
   * `create_provinces_image`: every pixel of a `width x height` image takes the colour of
   * the seed nearest to the pixel moved by the noise map, and stays black without seeds.
   * `sinCos` is the float step from a hashed angle to a gradient vector.
   */
  method CreateProvincesImage(colors: seq<Seed>, width: nat, height: nat, sinCos: real -> Vec2)
    returns (image: array2<Rgb>)
    ensures fresh(image)
    ensures image.Length0 == width && image.Length1 == height
    ensures var base := Noise.ProgramNoise(sinCos);
            forall x, y :: 0 <= x < width && 0 <= y < height ==>
              image[x, y] == PixelColor(colors, x, y, Noise.NoiseValue(base, x, y),
                                        Noise.NoiseValue(base, PartnerColumn(x, width), y))
  {
    var base := Noise.ProgramNoise(sinCos);
    image := new Rgb[width, height]((_, _) => Black);
    var noiseMap := Noise.MakePerlinNoise(width, height, sinCos);
    PaintProvinces(colors, width, height, noiseMap, image);
    forall x, y | 0 <= x < width && 0 <= y < height
      ensures image[x, y] == PixelColor(colors, x, y, Noise.NoiseValue(base, x, y),
                                        Noise.NoiseValue(base, PartnerColumn(x, width), y))
    {
      assert noiseMap[x, y] == Noise.NoiseValue(base, x, y);
      assert noiseMap[PartnerColumn(x, width), y] == Noise.NoiseValue(base, PartnerColumn(x, width), y);
    }
  }

  // ---------------------------------------------------------------------------
  // The border mask of get_border_images

  /** The pixel value of a fresh `RgbaImage`. */
  const Clear: Rgba := Rgba(0, 0, 0, 0)

  /** The value written for a border pixel. */
  const Opaque: Rgba := Rgba(0, 0, 0, 255)

  /** Some in-bounds pixel of the 3x3 block around `(x, y)` has another colour. */
  predicate IsBorder(image: array2<Rgb>, width: int, height: int, x: int, y: int)
    reads image
    requires width <= image.Length0 && height <= image.Length1
    requires 0 <= x < width && 0 <= y < height
  {
    exists nx, ny :: x - 1 <= nx <= x + 1 && y - 1 <= ny <= y + 1 &&
                     0 <= nx < width && 0 <= ny < height && image[nx, ny] != image[x, y]
  }

  /** A differing neighbour among rows `x - 1 .. x + i - 1` of the block (the `i` loop so far). */
  ghost predicate FoundInRows(image: array2<Rgb>, width: int, height: int, x: int, y: int, i: int)
    reads image
    requires width <= image.Length0 && height <= image.Length1
    requires 0 <= x < width && 0 <= y < height
  {
    exists nx, ny :: x - 1 <= nx < x + i && y - 1 <= ny <= y + 1 &&
                     0 <= nx < width && 0 <= ny < height && image[nx, ny] != image[x, y]
  }

  /** A differing neighbour in row `nx`, columns `y - 1 .. y + j - 1` (the `j` loop so far). */
  ghost predicate FoundInRow(image: array2<Rgb>, width: int, height: int, x: int, y: int, nx: int, j: int)
    reads image
    requires width <= image.Length0 && height <= image.Length1
    requires 0 <= x < width && 0 <= y < height
  {
    exists ny :: y - 1 <= ny < y + j &&
                 0 <= nx < width && 0 <= ny < height && image[nx, ny] != image[x, y]
  }

  /** The rows up to `x + i` are those before it plus row `x + i` itself. */
  lemma FoundInRowsStep(image: array2<Rgb>, width: int, height: int, x: int, y: int, i: int)
    requires width <= image.Length0 && height <= image.Length1
    requires 0 <= x < width && 0 <= y < height && -1 <= i
    ensures FoundInRows(image, width, height, x, y, i + 1) <==>
            FoundInRows(image, width, height, x, y, i) || FoundInRow(image, width, height, x, y, x + i, 2)
  {
    if FoundInRows(image, width, height, x, y, i + 1) {
      var nx, ny :| x - 1 <= nx < x + i + 1 && y - 1 <= ny <= y + 1 &&
                    0 <= nx < width && 0 <= ny < height && image[nx, ny] != image[x, y];
      if nx == x + i {
        assert FoundInRow(image, width, height, x, y, x + i, 2);
      } else {
        assert FoundInRows(image, width, height, x, y, i);
      }
    }
    if FoundInRow(image, width, height, x, y, x + i, 2) {
      var ny :| y - 1 <= ny < y + 2 && 0 <= x + i < width && 0 <= ny < height && image[x + i, ny] != image[x, y];
      assert FoundInRows(image, width, height, x, y, i + 1);
    }
  }

  /** The mask value of one pixel, as the four nested loops leave it. */
  method BorderPixel(width: nat, height: nat, image: array2<Rgb>, x: nat, y: nat) returns (p: Rgba)
    requires width <= image.Length0 && height <= image.Length1
    requires x < width && y < height
    ensures p == (if IsBorder(image, width, height, x, y) then Opaque else Clear)
  {
    p := Clear;
    var currentColor := image[x, y];
    for i := -1 to 2
      invariant p == (if FoundInRows(image, width, height, x, y, i) then Opaque else Clear)
    {
      for j := -1 to 2
        invariant p == Opaque ==> FoundInRows(image, width, height, x, y, i + 1)
        invariant p == Clear ==> !FoundInRows(image, width, height, x, y, i) && !FoundInRow(image, width, height, x, y, x + i, j)
        invariant p == Clear || p == Opaque
      {
        var nx := x + i;
        var ny := y + j;
        if nx < 0 || ny < 0 || nx >= width || ny >= height {
          continue;
        }
        var neighborColor := image[nx, ny];
        if currentColor != neighborColor {
          p := Opaque;
          break;
        }
      }
      FoundInRowsStep(image, width, height, x, y, i);
    }
  }

  /** The loop at the head of `get_border_images`: one mask value per pixel of the `width x height` image. */
  method BorderMask(width: nat, height: nat, image: array2<Rgb>) returns (border: array2<Rgba>)
    requires width <= image.Length0 && height <= image.Length1
    ensures fresh(border)
    ensures border.Length0 == width && border.Length1 == height
    ensures forall x, y :: 0 <= x < width && 0 <= y < height ==>
              border[x, y] == (if IsBorder(image, width, height, x, y) then Opaque else Clear)
  {
    border := new Rgba[width, height]((_, _) => Clear);
    for x := 0 to width
      invariant forall i, j :: 0 <= i < x && 0 <= j < height ==>
                  border[i, j] == (if IsBorder(image, width, height, i, j) then Opaque else Clear)
    {
      for y := 0 to height
        invariant forall i, j :: 0 <= i < x && 0 <= j < height ==>
                    border[i, j] == (if IsBorder(image, width, height, i, j) then Opaque else Clear)
        invariant forall j :: 0 <= j < y ==>
                    border[x, j] == (if IsBorder(image, width, height, x, j) then Opaque else Clear)
      {
        var p := BorderPixel(width, height, image, x, y);
        border[x, y] := p;
      }
    }
  }

  /** An image of one colour has no border pixel. */
  lemma UniformImageHasNoBorder(image: array2<Rgb>, width: int, height: int, c: Rgb, x: int, y: int)
    requires width <= image.Length0 && height <= image.Length1
    requires 0 <= x < width && 0 <= y < height
    requires forall i, j :: 0 <= i < width && 0 <= j < height ==> image[i, j] == c
    ensures !IsBorder(image, width, height, x, y)
  {
  }

  /** Borders come in pairs: the differing neighbour of a border pixel is a border pixel too. */
  lemma BorderIsSymmetric(image: array2<Rgb>, width: int, height: int, x: int, y: int)
    requires width <= image.Length0 && height <= image.Length1
    requires 0 <= x < width && 0 <= y < height
    requires IsBorder(image, width, height, x, y)
    ensures exists nx, ny :: x - 1 <= nx <= x + 1 && y - 1 <= ny <= y + 1 &&
                             0 <= nx < width && 0 <= ny < height && image[nx, ny] != image[x, y] &&
                             IsBorder(image, width, height, nx, ny)
  {
    var nx, ny :| x - 1 <= nx <= x + 1 && y - 1 <= ny <= y + 1 &&
                  0 <= nx < width && 0 <= ny < height && image[nx, ny] != image[x, y];
    assert image[x, y] != image[nx, ny];
    assert IsBorder(image, width, height, nx, ny);
  }
}
