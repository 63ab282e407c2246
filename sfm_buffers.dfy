/**
 * The per-pixel buffers of the dataset loader (dataLoader/sfm2nerf.py): rays, colours, the
 * RGBA-to-RGB blend onto a white background, and the two layouts the buffers take once all
 * frames are read, one long sequence of rows (`torch.cat`) or one block per frame (`torch.stack`).
 */
module SfmBuffers {

  import opened Geometry

  /** One row of `all_rays`: `torch.cat([rays_o, rays_d], 1)`, the origin then the direction. */
  datatype Ray = Ray(origin: Vec3, direction: Vec3)

  datatype Color = Color(r: real, g: real, b: real)

  datatype Rgba = Rgba(r: real, g: real, b: real, a: real)

  /**
   * An image after `ToTensor` and `view(-1, w*h).permute(1, 0)`: one pixel per row, in row-major
   * order, with three or four channels.
   */
  datatype Image = RgbImage(rgb: seq<Color>) | RgbaImage(rgba: seq<Rgba>)

  function PixelCount(img: Image): nat
  {
    match img
    case RgbImage(rgb) => |rgb|
    case RgbaImage(rgba) => |rgba|
  }

  const White: Color := Color(1.0, 1.0, 1.0)

  /** Line 124: `rgb * a + (1 - a)`, each channel composited over white. */
  function Blend(p: Rgba): Color
  {
    Color(p.r * p.a + (1.0 - p.a), p.g * p.a + (1.0 - p.a), p.b * p.a + (1.0 - p.a))
  }

  /** The blend is the mix `a * rgb + (1 - a) * white`: an opaque pixel keeps its colour, a transparent one turns white. */
  lemma BlendMixesWithWhite(p: Rgba)
    ensures Blend(p) == Color(p.a * p.r + (1.0 - p.a) * White.r, p.a * p.g + (1.0 - p.a) * White.g, p.a * p.b + (1.0 - p.a) * White.b)
    ensures p.a == 1.0 ==> Blend(p) == Color(p.r, p.g, p.b)
    ensures p.a == 0.0 ==> Blend(p) == White
  {
  }

  predicate InUnitRange(x: real)
  {
    0.0 <= x <= 1.0
  }

  /** Channels and alpha in [0, 1] give blended channels in [0, 1], never darker than the colour itself. */
  lemma BlendStaysInRange(p: Rgba)
    requires InUnitRange(p.r) && InUnitRange(p.g) && InUnitRange(p.b) && InUnitRange(p.a)
    ensures var c := Blend(p);
      && InUnitRange(c.r) && InUnitRange(c.g) && InUnitRange(c.b)
      && c.r >= p.r && c.g >= p.g && c.b >= p.b
  {
    ChannelInRange(p.r, p.a);
    ChannelInRange(p.g, p.a);
    ChannelInRange(p.b, p.a);
  }

  lemma ChannelInRange(x: real, a: real)
    requires InUnitRange(x) && InUnitRange(a)
    ensures InUnitRange(x * a + (1.0 - a)) && x * a + (1.0 - a) >= x
  {
    NonNegativeProduct(1.0 - x, 1.0 - a);
    NonNegativeProduct(1.0 - x, a);
    assert x * a + (1.0 - a) - x == (1.0 - x) * (1.0 - a);
    assert x * a + (1.0 - a) == 1.0 - (1.0 - x) * a;
    assert (1.0 - x) * a <= 1.0 by {
      assert (1.0 - x) * a <= 1.0 * a;
    }
  }

  lemma NonNegativeProduct(u: real, v: real)
    requires u >= 0.0 && v >= 0.0
    ensures u * v >= 0.0
  {
  }

  /** Lines 123-124: the RGB rows of an image, blended when it carries an alpha channel. */
  function ImageRgb(img: Image): (rows: seq<Color>)
    ensures |rows| == PixelCount(img)
    ensures img.RgbImage? ==> rows == img.rgb
    ensures img.RgbaImage? ==> forall k :: 0 <= k < |rows| ==> rows[k] == Blend(img.rgba[k])
  {
    match img
    case RgbImage(rgb) => rgb
    case RgbaImage(rgba) => seq(|rgba|, k requires 0 <= k < |rgba| => Blend(rgba[k]))
  }

  /** `torch.cat(blocks, 0)`: the blocks one after the other, in order. */
  function Concat<T>(blocks: seq<seq<T>>): seq<T>
  {
    if |blocks| == 0 then [] else Concat(blocks[..|blocks| - 1]) + blocks[|blocks| - 1]
  }

  /** Blocks that all hold m rows. */
  predicate Uniform<T>(blocks: seq<seq<T>>, m: nat)
  {
    forall f :: 0 <= f < |blocks| ==> |blocks[f]| == m
  }

  /**
   * The flattened layout holds the stacked one row for row: with m rows per block there are
   * `|blocks| * m` rows, and row `f * m + p` is row p of block f.
   */
  lemma {:induction false} ConcatUniform<T>(blocks: seq<seq<T>>, m: nat)
    requires Uniform(blocks, m)
    ensures |Concat(blocks)| == |blocks| * m
    ensures forall f, p :: 0 <= f < |blocks| && 0 <= p < m ==> Concat(blocks)[f * m + p] == blocks[f][p]
    decreases |blocks|
  {
    if |blocks| > 0 {
      var n := |blocks| - 1;
      var front := blocks[..n];
      assert Uniform(front, m);
      ConcatUniform(front, m);
      assert Concat(blocks) == Concat(front) + blocks[n];
      forall f, p | 0 <= f < |blocks| && 0 <= p < m
        ensures Concat(blocks)[f * m + p] == blocks[f][p]
      {
        if f < n {
          RowBelowBlock(f, p, m, n);
          assert Concat(blocks)[f * m + p] == Concat(front)[f * m + p];
        } else {
          assert f * m + p == n * m + p;
        }
      }
    }
  }

  /** One row of `ConcatUniform`. */
  lemma ConcatRow<T>(blocks: seq<seq<T>>, m: nat, f: nat, p: nat)
    requires Uniform(blocks, m) && f < |blocks| && p < m
    ensures 0 <= f * m + p < |Concat(blocks)| && Concat(blocks)[f * m + p] == blocks[f][p]
  {
    ConcatUniform(blocks, m);
    NaturalProduct(f, m);
  }

  lemma NaturalProduct(a: nat, b: nat)
    ensures a * b >= 0
  {
  }

  lemma RowBelowBlock(f: nat, p: nat, m: nat, n: nat)
    requires f < n && p < m
    ensures f * m + p < n * m
  {
    assert (f + 1) * m <= n * m;
  }

  /**
   * `reshape(h, w)` of a block of h*w pixel rows: h rows of w pixels which, read one after the
   * other, give back the block (so by `ConcatUniform`, pixel x of row y is pixel `y*w + x`).
   */
  function Grid<T>(block: seq<T>, h: nat, w: nat): (g: seq<seq<T>>)
    requires |block| == h * w
    ensures |g| == h && Uniform(g, w) && Concat(g) == block
    decreases h
  {
    if h == 0 then []
    else
      LastRow(h, w);
      var front := Grid(block[..(h - 1) * w], h - 1, w);
      var g := front + [block[(h - 1) * w..]];
      assert g[..h - 1] == front;
      assert block == block[..(h - 1) * w] + block[(h - 1) * w..];
      g
  }

  lemma LastRow(h: nat, w: nat)
    requires h >= 1
    ensures (h - 1) * w <= h * w && h * w - (h - 1) * w == w
  {
  }
}
