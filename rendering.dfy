/**
  Turning a density map into an RGBA float texture: every non-empty cell is
  divided by the densest cell, passed through a transfer function, and
  copied into the texture behind a border; a second pass recolours the
  texture along a two-colour gradient.

  The C math library (expf, logf, powf, sqrtf) is a parameter, `Libm`;
  the lemmas state what they need of it with `Sound`. Floats are reals:
  no rounding, overflow or underflow.
 */
module Rendering {
  import opened Common
  import Attractor

  /** The transfer functions a user can choose; any other enum value falls through. */
  datatype ScalingMethod = Linear | Log | Power | Sigmoid | Sqrt | Unrecognized(code: int)

  /** The scaling arguments of the normalisation pass. */
  datatype ScalingConfig = ScalingConfig(
    scaling: ScalingMethod,
    powerExponent: real,
    sigmoidMidpoint: real,
    sigmoidSteepness: real)

  /** expf, logf, powf and sqrtf. */
  datatype Libm = Libm(
    exp: real -> real,
    log: real -> real,
    pow: (real, real) -> real,
    sqrt: real -> real)

  /**
    What the lemmas use of the C math library: exp is positive and
    increasing with exp(0) = 1; log is increasing on the positives with
    log(1) = 0; sqrt is increasing on the non-negatives with sqrt(0) = 0
    and sqrt(1) = 1; 1 to any power is 1, and a positive power is
    increasing on the non-negatives.
   */
  ghost predicate Sound(m: Libm)
  {
    && (forall v :: m.exp(v) > 0.0)
    && m.exp(0.0) == 1.0
    && (forall u, v :: u < v ==> m.exp(u) < m.exp(v))
    && (forall u, v :: 0.0 < u < v ==> m.log(u) < m.log(v))
    && m.log(1.0) == 0.0
    && (forall u, v :: 0.0 <= u < v ==> m.sqrt(u) < m.sqrt(v))
    && m.sqrt(0.0) == 0.0 && m.sqrt(1.0) == 1.0
    && (forall e :: m.pow(1.0, e) == 1.0)
    && (forall u, v, e :: 0.0 <= u < v && 0.0 < e ==> m.pow(u, e) < m.pow(v, e))
  }

  /** The exponent of the sigmoid: the distance from the midpoint, scaled by the steepness. */
  function Shifted(x: real, midpoint: real, steepness: real): real
  {
    (x - midpoint) * steepness
  }

  /** The logistic curve centred on `midpoint`. */
  function SigmoidNormalize(x: real, midpoint: real, steepness: real, exp: real -> real): (r: real)
    requires forall v :: exp(v) > 0.0
    ensures 0.0 < r < 1.0
  {
    var e := exp(-Shifted(x, midpoint, steepness));
    assert 0.0 < 1.0 + e;
    DivideInUnitInterval(1.0, 1.0 + e);
    1.0 / (1.0 + e)
  }

  /** The sigmoid lies strictly between 0 and 1, and is one half at its midpoint. */
  lemma SigmoidInUnitInterval(x: real, midpoint: real, steepness: real, exp: real -> real)
    requires forall v :: exp(v) > 0.0
    ensures 0.0 < SigmoidNormalize(x, midpoint, steepness, exp) < 1.0
    ensures exp(0.0) == 1.0 && x == midpoint ==> SigmoidNormalize(x, midpoint, steepness, exp) == 0.5
  {
    var e := exp(-Shifted(x, midpoint, steepness));
    assert e > 0.0;
    assert SigmoidNormalize(x, midpoint, steepness, exp) == 1.0 / (1.0 + e);
    if exp(0.0) == 1.0 && x == midpoint {
      assert Shifted(x, midpoint, steepness) == 0.0;
      assert e == 1.0;
    }
  }

  /** The argument of logf in the log transfer: [0, 1] maps onto [1, 10]. */
  function LogArgument(n: real): real
  {
    1.0 + n * 9.0
  }

  /** The transfer function applied to a linear value `n` in (0, 1]. */
  function Scale(cfg: ScalingConfig, m: Libm, n: real): real
    requires Sound(m)
  {
    match cfg.scaling
    case Linear => n
    case Log =>
      assert m.log(1.0) < m.log(10.0);
      m.log(LogArgument(n)) / m.log(10.0)
    case Power => m.pow(n, cfg.powerExponent)
    case Sigmoid => SigmoidNormalize(n, cfg.sigmoidMidpoint, cfg.sigmoidSteepness, m.exp)
    case Sqrt => m.sqrt(n)
    case Unrecognized(_) => n
  }

  /**
    Linear, log and square-root scaling map (0, 1] into (0, 1] and the top
    value 1 to 1; power scaling also maps 1 to 1; the sigmoid stays in
    (0, 1); an unrecognised method is the identity.
   */
  lemma ScaleRange(cfg: ScalingConfig, m: Libm, n: real)
    requires Sound(m)
    requires 0.0 < n <= 1.0
    ensures cfg.scaling in {Linear, Log, Sqrt} ==> 0.0 < Scale(cfg, m, n) <= 1.0
    ensures cfg.scaling.Sigmoid? ==> 0.0 < Scale(cfg, m, n) < 1.0
    ensures cfg.scaling.Unrecognized? ==> Scale(cfg, m, n) == n
    ensures n == 1.0 && !cfg.scaling.Sigmoid? ==> Scale(cfg, m, n) == 1.0
  {
    match cfg.scaling
    case Log =>
      var top := m.log(10.0);
      assert m.log(1.0) < m.log(10.0);
      var v := m.log(LogArgument(n));
      assert 1.0 < LogArgument(n) <= 10.0;
      assert 0.0 < v <= top by {
        assert m.log(1.0) < m.log(LogArgument(n));
        if LogArgument(n) < 10.0 {
          assert m.log(LogArgument(n)) < m.log(10.0);
        }
      }
      assert Scale(cfg, m, n) == v / top;
      DivideInUnitInterval(v, top);
    case Sqrt =>
      assert m.sqrt(0.0) < m.sqrt(n);
      if n < 1.0 {
        assert m.sqrt(n) < m.sqrt(1.0);
      }
    case Sigmoid =>
      SigmoidInUnitInterval(n, cfg.sigmoidMidpoint, cfg.sigmoidSteepness, m.exp);
    case _ =>
  }

  /**
    The configurations whose transfer function preserves order: every one
    but a power scaling with a non-positive exponent or a sigmoid with a
    negative steepness.
   */
  predicate OrderPreserving(cfg: ScalingConfig)
  {
    && (cfg.scaling.Power? ==> cfg.powerExponent > 0.0)
    && (cfg.scaling.Sigmoid? ==> cfg.sigmoidSteepness >= 0.0)
  }

  /** A larger linear value is never scaled to a smaller one, under an order-preserving configuration. */
  lemma ScaleMonotone(cfg: ScalingConfig, m: Libm, n: real, n': real)
    requires Sound(m)
    requires 0.0 < n <= n' <= 1.0
    ensures OrderPreserving(cfg) ==> Scale(cfg, m, n) <= Scale(cfg, m, n')
  {
    if n < n' && OrderPreserving(cfg) {
      match cfg.scaling
      case Log =>
        assert m.log(1.0) < m.log(10.0);
        assert m.log(LogArgument(n)) < m.log(LogArgument(n'));
        DivideMonotone(m.log(LogArgument(n)), m.log(LogArgument(n')), m.log(10.0));
      case Power =>
        assert m.pow(n, cfg.powerExponent) < m.pow(n', cfg.powerExponent);
      case Sqrt =>
        assert m.sqrt(n) < m.sqrt(n');
      case Sigmoid =>
        var mid, steep := cfg.sigmoidMidpoint, cfg.sigmoidSteepness;
        ShiftedMonotone(n, n', mid, steep);
        var e, e' := m.exp(-Shifted(n, mid, steep)), m.exp(-Shifted(n', mid, steep));
        assert e' <= e by {
          if -Shifted(n', mid, steep) < -Shifted(n, mid, steep) {
            assert m.exp(-Shifted(n', mid, steep)) < m.exp(-Shifted(n, mid, steep));
          }
        }
        ReciprocalAntitone(1.0 + e', 1.0 + e);
      case _ =>
    }
  }

  /** With a non-negative steepness the sigmoid's exponent grows with its argument. */
  lemma ShiftedMonotone(x: real, x': real, midpoint: real, steepness: real)
    requires x <= x' && steepness >= 0.0
    ensures Shifted(x, midpoint, steepness) <= Shifted(x', midpoint, steepness)
  {
    assert Shifted(x', midpoint, steepness) - Shifted(x, midpoint, steepness) == (x' - x) * steepness;
  }

  /** Dividing by a positive number preserves order. */
  lemma DivideMonotone(a: real, b: real, t: real)
    requires t > 0.0 && a <= b
    ensures a / t <= b / t
  {
    assert b / t - a / t == (b - a) / t;
  }

  /** `1 / q <= 1 / p` for `0 < p <= q`. */
  lemma ReciprocalAntitone(p: real, q: real)
    requires 0.0 < p <= q
    ensures 1.0 / q <= 1.0 / p
  {
    assert 1.0 / p - 1.0 / q == (q - p) / (p * q);
  }

  /** `0 < v <= top` gives `0 < v / top <= 1`. */
  lemma DivideInUnitInterval(v: real, top: real)
    requires 0.0 < v <= top
    ensures 0.0 < v / top <= 1.0
  {
    assert v / top * top == v;
  }

  /** The largest counter of a density map, 0 when every cell is empty. */
  function Peak(s: seq<u32>): (m: u32)
    ensures forall i :: 0 <= i < |s| ==> s[i] <= m
    ensures m == 0 || m in s
  {
    if |s| == 0 then 0
    else
      var m := Peak(s[..|s| - 1]);
      assert forall i :: 0 <= i < |s| - 1 ==> s[..|s| - 1][i] == s[i];
      if s[|s| - 1] > m then s[|s| - 1] else m
  }

  /** The value every count is divided by: the peak, or 1 on an empty map. */
  function Divisor(s: seq<u32>): (r: nat)
    ensures r > 0
    ensures forall i :: 0 <= i < |s| ==> s[i] as nat <= r
    ensures (exists i :: 0 <= i < |s| && s[i] > 0) ==> exists i :: 0 <= i < |s| && s[i] as nat == r
  {
    if Peak(s) == 0 then 1 else Peak(s) as nat
  }

  /** `(uint32_t)(extent * percent)`: the border in pixels, the truncated product. */
  function Border(extent: nat, percent: real): (r: nat)
    requires 0.0 <= percent
    ensures r as real <= extent as real * percent < r as real + 1.0
  {
    (extent as real * percent).Floor
  }

  /** Where the density map sits in the texture: its size and the border before it. */
  datatype Window = Window(width: nat, height: nat, left: nat, top: nat)

  /** The density cell shown at texture pixel (px, py), if the pixel is inside the window. */
  function Source(w: Window, px: nat, py: nat): (r: Option<nat>)
    ensures r.Some? <==> w.left <= px < w.left + w.width && w.top <= py < w.top + w.height
    ensures r.Some? ==> r.value < w.width * w.height
  {
    if w.left <= px < w.left + w.width && w.top <= py < w.top + w.height then
      RowMajorInBounds(px - w.left, py - w.top, w.width, w.height);
      Some((px - w.left) + (py - w.top) * w.width)
    else None
  }

  /** Cell (i, j) of the density map is shown at pixel (left + i, top + j), and only there. */
  lemma SourcePlacement(w: Window, i: nat, j: nat, px: nat, py: nat)
    requires i < w.width && j < w.height
    ensures Source(w, w.left + i, w.top + j) == Some(i + j * w.width)
    ensures Source(w, px, py) == Some(i + j * w.width) ==> px == w.left + i && py == w.top + j
  {
    if Source(w, px, py) == Some(i + j * w.width) {
      RowMajorInjective(px - w.left, py - w.top, i, j, w.width);
    }
  }

  /**
    Flat index of channel k of pixel (px, py) in an RGBA texture of
    `width × height` pixels; every channel of every pixel lies inside the
    `width * height * 4` floats.
   */
  function Channel(width: nat, height: nat, px: nat, py: nat, k: nat): (r: nat)
    requires px < width && py < height && k < 4
    ensures r < width * height * 4
  {
    RowMajorInBounds(px, py, width, height);
    Slot(px + py * width, k)
  }

  /** Different channels or pixels of a texture occupy different floats. */
  lemma ChannelInjective(width: nat, height: nat, px: nat, py: nat, k: nat, qx: nat, qy: nat, l: nat)
    requires px < width && qx < width && py < height && qy < height && k < 4 && l < 4
    requires Channel(width, height, px, py, k) == Channel(width, height, qx, qy, l)
    ensures px == qx && py == qy && k == l
  {
    assert px + py * width == qx + qy * width;
    RowMajorInjective(px, py, qx, qy, width);
  }

  /**
    Channel k of texture pixel (px, py) after normalisation: transparent
    black outside the window and over empty cells; otherwise a grey of the
    scaled count in R, G and B and an opaque alpha.
   */
  function Texel(density: seq<u32>, w: Window, cfg: ScalingConfig, m: Libm, px: nat, py: nat, k: nat): real
    requires Sound(m) && |density| == w.width * w.height
  {
    match Source(w, px, py)
    case None => 0.0
    case Some(c) =>
      if density[c] == 0 then 0.0
      else if k == 3 then 1.0
      else Scale(cfg, m, Ratio(density[c] as nat, Divisor(density)))
  }

  /** `(float)count / max`: a count as a fraction of the peak. */
  function Ratio(count: nat, peak: nat): (r: real)
    requires peak > 0
    ensures 0 < count <= peak ==> 0.0 < r <= 1.0
    ensures count == peak ==> r == 1.0
  {
    if 0 < count <= peak then
      DivideInUnitInterval(count as real, peak as real);
      count as real / peak as real
    else count as real / peak as real
  }

  /**
    The normalised texture: empty cells and the border are all-zero; a
    shown non-empty cell is grey (R = G = B) and opaque; under linear, log
    or square-root scaling its grey is in (0, 1]; the densest cell is
    white under every method but the sigmoid.
   */
  lemma BlankTexel(density: seq<u32>, w: Window, cfg: ScalingConfig, m: Libm, px: nat, py: nat, k: nat)
    requires Sound(m) && |density| == w.width * w.height && k < 4
    requires Source(w, px, py).None? || density[Source(w, px, py).value] == 0
    ensures Texel(density, w, cfg, m, px, py, k) == 0.0
  {
  }

  lemma ShownTexel(density: seq<u32>, w: Window, cfg: ScalingConfig, m: Libm, px: nat, py: nat)
    requires Sound(m) && |density| == w.width * w.height
    requires Source(w, px, py).Some? && density[Source(w, px, py).value] > 0
    ensures Texel(density, w, cfg, m, px, py, 0) == Texel(density, w, cfg, m, px, py, 1)
                                                 == Texel(density, w, cfg, m, px, py, 2)
    ensures Texel(density, w, cfg, m, px, py, 3) == 1.0
    ensures cfg.scaling in {Linear, Log, Sqrt} ==> 0.0 < Texel(density, w, cfg, m, px, py, 0) <= 1.0
    ensures density[Source(w, px, py).value] as nat == Divisor(density) && !cfg.scaling.Sigmoid? ==>
      Texel(density, w, cfg, m, px, py, 0) == 1.0
  {
    var c := Source(w, px, py).value;
    ScaleRange(cfg, m, Ratio(density[c] as nat, Divisor(density)));
  }

  /**
    A denser shown cell is never drawn darker than a sparser one, under an
    order-preserving configuration.
   */
  lemma TexelMonotone(density: seq<u32>, w: Window, cfg: ScalingConfig, m: Libm, px: nat, py: nat, qx: nat, qy: nat)
    requires Sound(m) && |density| == w.width * w.height
    requires Source(w, px, py).Some? && Source(w, qx, qy).Some?
    requires 0 < density[Source(w, px, py).value] <= density[Source(w, qx, qy).value]
    ensures OrderPreserving(cfg) ==> Texel(density, w, cfg, m, px, py, 0) <= Texel(density, w, cfg, m, qx, qy, 0)
  {
    var c, c' := Source(w, px, py).value, Source(w, qx, qy).value;
    var peak := Divisor(density);
    var r, r' := Ratio(density[c] as nat, peak), Ratio(density[c'] as nat, peak);
    DivideMonotone(density[c] as real, density[c'] as real, peak as real);
    ScaleMonotone(cfg, m, r, r');
  }

  /** The first pass of the normalisation: the largest counter of the map. */
  method FindPeak(density: array<u32>) returns (peak: u32)
    ensures peak == Peak(density[..])
  {
    peak := 0;
    var i := 0;
    while i < density.Length
      invariant 0 <= i <= density.Length
      invariant peak == Peak(density[..i])
    {
      assert density[..i + 1][..i] == density[..i];
      if density[i] > peak {
        peak := density[i];
      }
      i := i + 1;
    }
    assert density[..i] == density[..];
  }

  /**
    Write one shown cell: R, G and B get the grey level `v`, alpha gets 1,
    and no other float of the texture changes.
   */
  method WriteTexel(texture: array<real>, width: nat, height: nat, px: nat, py: nat, v: real)
    requires texture.Length == width * height * 4 && px < width && py < height
    modifies texture
    ensures forall qx: nat, qy: nat, k: nat :: qx < width && qy < height && k < 4 ==>
      texture[Channel(width, height, qx, qy, k)] ==
        if qx == px && qy == py then (if k == 3 then 1.0 else v) else old(texture[Channel(width, height, qx, qy, k)])
  {
    texture[Channel(width, height, px, py, 0)] := v;
    texture[Channel(width, height, px, py, 1)] := v;
    texture[Channel(width, height, px, py, 2)] := v;
    texture[Channel(width, height, px, py, 3)] := 1.0;
    forall qx: nat, qy: nat, k: nat | qx < width && qy < height && k < 4
      ensures texture[Channel(width, height, qx, qy, k)] ==
        if qx == px && qy == py then (if k == 3 then 1.0 else v) else old(texture[Channel(width, height, qx, qy, k)])
    {
      if qx != px || qy != py {
        forall l: nat | l < 4 ensures Channel(width, height, qx, qy, k) != Channel(width, height, px, py, l) {
          if Channel(width, height, qx, qy, k) == Channel(width, height, px, py, l) {
            ChannelInjective(width, height, qx, qy, k, px, py, l);
          }
        }
      }
    }
  }

  /** The clearing pass: every float of the texture becomes 0. */
  method Clear(texture: array<real>)
    modifies texture
    ensures forall u :: 0 <= u < texture.Length ==> texture[u] == 0.0
  {
    var t := 0;
    while t < texture.Length
      invariant 0 <= t <= texture.Length
      invariant forall u :: 0 <= u < t ==> texture[u] == 0.0
    {
      texture[t] := 0.0;
      t := t + 1;
    }
  }

  /**
    Copy cell (i, j) of the density map to its pixel, which is still
    clear: a non-empty cell becomes its normalised texel, an empty one
    leaves the pixel clear.
   */
  method CopyCell(
    density: array<u32>, texture: array<real>, width: nat, height: nat, w: Window,
    divisor: nat, cfg: ScalingConfig, m: Libm, i: nat, j: nat)
    requires Sound(m) && density.Length == w.width * w.height && divisor == Divisor(density[..])
    requires texture.Length == width * height * 4
    requires w.left + w.width <= width && w.top + w.height <= height
    requires i < w.width && j < w.height
    requires texture[Channel(width, height, w.left + i, w.top + j, 0)] == 0.0
    requires texture[Channel(width, height, w.left + i, w.top + j, 1)] == 0.0
    requires texture[Channel(width, height, w.left + i, w.top + j, 2)] == 0.0
    requires texture[Channel(width, height, w.left + i, w.top + j, 3)] == 0.0
    modifies texture
    ensures forall px: nat, py: nat, k: nat :: px < width && py < height && k < 4 ==>
      texture[Channel(width, height, px, py, k)] ==
        if px == w.left + i && py == w.top + j then Texel(density[..], w, cfg, m, px, py, k)
        else old(texture[Channel(width, height, px, py, k)])
  {
    var index := i + j * w.width;
    RowMajorInBounds(i, j, w.width, w.height);
    SourcePlacement(w, i, j, w.left + i, w.top + j);
    var count := density[index];
    if count > 0 {
      var normalized := Scale(cfg, m, Ratio(count as nat, divisor));
      WriteTexel(texture, width, height, w.left + i, w.top + j, normalized);
    }
  }

  /** The pixels the copy loop has reached: every shown cell of a column before `i`, and of column `i` before row `j`. */
  ghost predicate Reached(w: Window, px: nat, py: nat, i: nat, j: nat)
  {
    && Source(w, px, py).Some?
    && (px - w.left < i || (px - w.left == i && py - w.top < j))
  }

  /** The window of the texture the attractor is copied into. */
  function WindowOf(attractor: Attractor.Attractor, width: nat, height: nat, borderPercent: real): Window
    reads attractor
    requires 0.0 <= borderPercent
  {
    Window(attractor.width, attractor.height, Border(width, borderPercent), Border(height, borderPercent))
  }

  /**
    Clear the `width × height` RGBA texture, then copy every non-empty cell
    of the density map behind the border, divided by the peak (or by 1 on
    an empty map) and scaled. The caller guarantees that the map plus the
    border fits in the texture.
   */
  method NormalizeAttractorToTexture(
    attractor: Attractor.Attractor, texture: array<real>, width: nat, height: nat,
    borderPercent: real, cfg: ScalingConfig, m: Libm)
    requires attractor.Valid() && Sound(m)
    requires texture.Length == width * height * 4
    requires 0.0 <= borderPercent
    requires Border(width, borderPercent) + attractor.width <= width
    requires Border(height, borderPercent) + attractor.height <= height
    modifies texture
    ensures forall px: nat, py: nat, k: nat :: px < width && py < height && k < 4 ==>
      texture[Channel(width, height, px, py, k)] ==
        Texel(attractor.density[..], WindowOf(attractor, width, height, borderPercent), cfg, m, px, py, k)
  {
    Clear(texture);
    var w := WindowOf(attractor, width, height, borderPercent);

    var peak := FindPeak(attractor.density);
    var divisor: nat := if peak == 0 then 1 else peak as nat;
    assert divisor == Divisor(attractor.density[..]);

    var i := 0;
    while i < attractor.width
      invariant 0 <= i <= attractor.width
      invariant forall px: nat, py: nat, k: nat :: px < width && py < height && k < 4 ==>
        texture[Channel(width, height, px, py, k)] ==
          if Reached(w, px, py, i, 0) then Texel(attractor.density[..], w, cfg, m, px, py, k) else 0.0
    {
      var j := 0;
      while j < attractor.height
        invariant 0 <= j <= attractor.height
        invariant forall px: nat, py: nat, k: nat :: px < width && py < height && k < 4 ==>
          texture[Channel(width, height, px, py, k)] ==
            if Reached(w, px, py, i, j) then Texel(attractor.density[..], w, cfg, m, px, py, k) else 0.0
      {
        CopyCell(attractor.density, texture, width, height, w, divisor, cfg, m, i, j);
        j := j + 1;
      }
      i := i + 1;
    }
  }

  // ---- Recolouring ----

  /** A colour with float components. */
  datatype Rgb = Rgb(r: real, g: real, b: real)

  /** The two ends of the colour gradient. */
  datatype ColoringInfo = ColoringInfo(starting: Rgb, ending: Rgb)

  /** Fraction of the brightest red below which a value is ignored when looking for the darkest. */
  const Threshold: real := 0.01

  /** The red channel of pixel p. */
  function Red(t: seq<real>, p: nat): real
    requires p * 4 < |t|
  {
    t[Slot(p, 0)]
  }

  /** The brightest positive red among the first n pixels, -infinity when there is none. */
  function MaxRed(t: seq<real>, n: nat): (r: Float)
    requires n * 4 <= |t|
    ensures r == NegInf || (r.Finite? && r.value > 0.0)
  {
    if n == 0 then NegInf
    else
      var m := MaxRed(t, n - 1);
      var v := Red(t, n - 1);
      if v > 0.0 && Less(m, Finite(v)) then Finite(v) else m
  }

  /** `max_value * threshold`, in IEEE arithmetic. */
  function Cutoff(max: Float): Float
  {
    match max
    case Finite(v) => Finite(v * Threshold)
    case _ => max
  }

  /** The darkest red above the cutoff among the first n pixels, +infinity when there is none. */
  function MinRed(t: seq<real>, n: nat, cutoff: Float): (r: Float)
    requires n * 4 <= |t|
    ensures r == PosInf || r.Finite?
  {
    if n == 0 then PosInf
    else
      var m := MinRed(t, n - 1, cutoff);
      var v := Red(t, n - 1);
      if Less(cutoff, Finite(v)) && Less(Finite(v), m) then Finite(v) else m
  }

  /** The bottom of the gradient: the darkest red, or 0 when there was none. */
  function Low(min: Float): real
    requires min == PosInf || min.Finite?
  {
    if min == PosInf then 0.0 else min.value
  }

  /** `max_value - min_value`, replaced by 1 unless it is positive. */
  function Range(max: Float, lo: real): (r: real)
    requires max == NegInf || max.Finite?
    ensures r > 0.0
    ensures max.Finite? && max.value > lo ==> r == max.value - lo
  {
    match max
    case Finite(v) => if v - lo <= 0.0 then 1.0 else v - lo
    case _ => 1.0
  }

  /** `fmaxf(0, fminf(1, x))`. */
  function Clamp01(x: real): (r: real)
    ensures 0.0 <= r <= 1.0
    ensures 0.0 <= x <= 1.0 ==> r == x
  {
    if x > 1.0 then 1.0 else if x < 0.0 then 0.0 else x
  }

  /** `start + (end - start) * n`. */
  function Mix(start: real, end: real, n: real): real
  {
    start + (end - start) * n
  }

  /**
    Channel k of a recoloured pixel whose red was `v`: all zero when `v` is
    not positive; otherwise the gradient colour at the clamped position of
    `v` between `lo` and `lo + range`, with alpha 0.
   */
  function Colored(v: real, lo: real, range: real, info: ColoringInfo, k: nat): real
    requires range > 0.0
  {
    if v <= 0.0 then 0.0
    else
      var n := Clamp01((v - lo) / range);
      if k == 0 then Mix(info.starting.r, info.ending.r, n)
      else if k == 1 then Mix(info.starting.g, info.ending.g, n)
      else if k == 2 then Mix(info.starting.b, info.ending.b, n)
      else 0.0
  }

  /** The gradient parameters the recolouring pass derives from the first n pixels. */
  function Gradient(t: seq<real>, n: nat): (g: (real, real))
    requires n * 4 <= |t|
    ensures g.1 > 0.0
  {
    var max := MaxRed(t, n);
    var lo := Low(MinRed(t, n, Cutoff(max)));
    (lo, Range(max, lo))
  }

  /** MaxRed is -infinity exactly when no red is positive, and otherwise the largest red. */
  lemma {:induction false} MaxRedIsBrightest(t: seq<real>, n: nat)
    requires n * 4 <= |t|
    ensures MaxRed(t, n) == NegInf <==> forall p: nat :: p < n ==> Red(t, p) <= 0.0
    ensures MaxRed(t, n).Finite? ==>
      && (forall p: nat :: p < n ==> Red(t, p) <= MaxRed(t, n).value)
      && (exists p: nat :: p < n && Red(t, p) == MaxRed(t, n).value)
  {
    if n > 0 {
      MaxRedIsBrightest(t, n - 1);
    }
  }

  /**
    MinRed is +infinity exactly when no red exceeds the cutoff, and
    otherwise the smallest red that does.
   */
  lemma {:induction false} MinRedIsDarkest(t: seq<real>, n: nat, cutoff: Float)
    requires n * 4 <= |t|
    ensures MinRed(t, n, cutoff) == PosInf <==> forall p: nat :: p < n ==> !Less(cutoff, Finite(Red(t, p)))
    ensures MinRed(t, n, cutoff).Finite? ==>
      && Less(cutoff, MinRed(t, n, cutoff))
      && (forall p: nat :: p < n && Less(cutoff, Finite(Red(t, p))) ==> MinRed(t, n, cutoff).value <= Red(t, p))
      && (exists p: nat :: p < n && Red(t, p) == MinRed(t, n, cutoff).value)
  {
    if n > 0 {
      MinRedIsDarkest(t, n - 1, cutoff);
    }
  }

  /**
    When some red is positive, the bottom of the gradient is an actual red
    above 1% of the brightest and at most the brightest, and the range is
    the distance between them (or 1 when they coincide).
   */
  lemma GradientBounds(t: seq<real>, n: nat)
    requires n * 4 <= |t|
    requires MaxRed(t, n).Finite?
    ensures var m := MaxRed(t, n).value;
      && Threshold * m < Gradient(t, n).0 <= m
      && (exists p: nat :: p < n && Red(t, p) == Gradient(t, n).0)
      && Gradient(t, n).1 == if Gradient(t, n).0 < m then m - Gradient(t, n).0 else 1.0
  {
    var max := MaxRed(t, n);
    var m := max.value;
    MaxRedIsBrightest(t, n);
    var top: nat :| top < n && Red(t, top) == m;
    MinRedIsDarkest(t, n, Cutoff(max));
    assert Less(Cutoff(max), Finite(Red(t, top)));
  }

  /** `lo <= x <= hi` in either order of the bounds. */
  predicate Between(x: real, a: real, b: real)
  {
    (a <= x <= b) || (b <= x <= a)
  }

  /** A gradient position in [0, 1] gives a component between the two ends. */
  lemma MixBetween(start: real, end: real, n: real)
    requires 0.0 <= n <= 1.0
    ensures Between(Mix(start, end, n), start, end)
    ensures n == 0.0 ==> Mix(start, end, n) == start
    ensures n == 1.0 ==> Mix(start, end, n) == end
  {
    FractionWithin(end - start, n);
  }

  /** A fraction n of d lies between 0 and d. */
  lemma FractionWithin(d: real, n: real)
    requires 0.0 <= n <= 1.0
    ensures d >= 0.0 ==> 0.0 <= d * n <= d
    ensures d <= 0.0 ==> d <= d * n <= 0.0
  {
    var e := 1.0 - n;
    assert d * n + d * e == d;
    if d >= 0.0 {
      assert d * n >= 0.0;
      assert d * e >= 0.0;
    } else {
      assert d * n <= 0.0;
      assert d * e <= 0.0;
    }
  }

  /** a / r >= 1 when a >= r > 0. */
  lemma QuotientAtLeastOne(a: real, r: real)
    requires r > 0.0 && a >= r
    ensures a / r >= 1.0
  {
    var q := a / r;
    assert q * r == a;
    assert (q - 1.0) * r == a - r;
  }

  /**
    Recolouring a pixel: alpha is always 0; a pixel whose red is not
    positive is cleared; otherwise each colour channel lies between the
    starting and ending component, is the starting colour at or below
    `lo`, and the ending colour at or above `lo + range`.
   */
  lemma ColoredMeaning(v: real, lo: real, range: real, info: ColoringInfo)
    requires range > 0.0
    ensures Colored(v, lo, range, info, 3) == 0.0
    ensures v <= 0.0 ==> Colored(v, lo, range, info, 0) == Colored(v, lo, range, info, 1)
                        == Colored(v, lo, range, info, 2) == 0.0
    ensures v > 0.0 ==>
      && Between(Colored(v, lo, range, info, 0), info.starting.r, info.ending.r)
      && Between(Colored(v, lo, range, info, 1), info.starting.g, info.ending.g)
      && Between(Colored(v, lo, range, info, 2), info.starting.b, info.ending.b)
    ensures v > 0.0 && v <= lo ==>
      Rgb(Colored(v, lo, range, info, 0), Colored(v, lo, range, info, 1), Colored(v, lo, range, info, 2))
        == info.starting
    ensures v > 0.0 && v >= lo + range ==>
      Rgb(Colored(v, lo, range, info, 0), Colored(v, lo, range, info, 1), Colored(v, lo, range, info, 2))
        == info.ending
  {
    if v > 0.0 {
      var x := (v - lo) / range;
      if v >= lo + range {
        QuotientAtLeastOne(v - lo, range);
      }
      var n := Clamp01(x);
      MixBetween(info.starting.r, info.ending.r, n);
      MixBetween(info.starting.g, info.ending.g, n);
      MixBetween(info.starting.b, info.ending.b, n);
    }
  }

  /**
    When the brightest and darkest qualifying reds differ, the brightest
    pixel gets the ending colour and the darkest the starting colour.
   */
  lemma GradientEnds(t: seq<real>, n: nat, p: nat, info: ColoringInfo)
    requires n * 4 <= |t| && p < n
    requires MaxRed(t, n).Finite? && Gradient(t, n).0 < MaxRed(t, n).value
    ensures var (lo, range) := Gradient(t, n);
      && (Red(t, p) == MaxRed(t, n).value ==>
            Rgb(Colored(Red(t, p), lo, range, info, 0), Colored(Red(t, p), lo, range, info, 1),
                Colored(Red(t, p), lo, range, info, 2)) == info.ending)
      && (Red(t, p) == lo ==>
            Rgb(Colored(Red(t, p), lo, range, info, 0), Colored(Red(t, p), lo, range, info, 1),
                Colored(Red(t, p), lo, range, info, 2)) == info.starting)
  {
    var (lo, range) := Gradient(t, n);
    GradientBounds(t, n);
    assert lo > 0.0 by {
      assert Threshold * MaxRed(t, n).value > 0.0;
    }
    ColoredMeaning(Red(t, p), lo, range, info);
  }

  /** The first recolouring pass: the brightest positive red of the first n pixels. */
  method FindMaxRed(texture: array<real>, n: nat) returns (max: Float)
    requires n * 4 <= texture.Length
    ensures max == MaxRed(texture[..], n)
  {
    max := NegInf;
    var i := 0;
    while i < n
      invariant 0 <= i <= n
      invariant max == MaxRed(texture[..], i)
    {
      var value := texture[Slot(i, 0)];
      if value > 0.0 && Less(max, Finite(value)) {
        max := Finite(value);
      }
      i := i + 1;
    }
  }

  /** The second recolouring pass: the darkest red above the cutoff of the first n pixels. */
  method FindMinRed(texture: array<real>, n: nat, cutoff: Float) returns (min: Float)
    requires n * 4 <= texture.Length
    ensures min == MinRed(texture[..], n, cutoff)
  {
    min := PosInf;
    var i := 0;
    while i < n
      invariant 0 <= i <= n
      invariant min == MinRed(texture[..], i, cutoff)
    {
      var value := texture[Slot(i, 0)];
      if Less(cutoff, Finite(value)) && Less(Finite(value), min) {
        min := Finite(value);
      }
      i := i + 1;
    }
  }

  /** Recolour pixel p: its four channels become the `Colored` values of its red; nothing else changes. */
  method RecolorPixel(texture: array<real>, p: nat, lo: real, range: real, info: ColoringInfo, m: Libm)
    requires Slot(p, 3) < texture.Length && range > 0.0
    modifies texture
    ensures forall k: nat :: k < 4 ==> texture[Slot(p, k)] == Colored(old(texture[Slot(p, 0)]), lo, range, info, k)
    ensures forall u :: 0 <= u < texture.Length && (u < Slot(p, 0) || Slot(p, 3) < u) ==> texture[u] == old(texture[u])
  {
    var value := texture[Slot(p, 0)];
    if value <= 0.0 {
      texture[Slot(p, 0)] := 0.0;
      texture[Slot(p, 1)] := 0.0;
      texture[Slot(p, 2)] := 0.0;
      texture[Slot(p, 3)] := 0.0;
    } else {
      var normalized := Clamp01((value - lo) / range);
      var r := Mix(info.starting.r, info.ending.r, normalized);
      var g := Mix(info.starting.g, info.ending.g, normalized);
      var b := Mix(info.starting.b, info.ending.b, normalized);
      var alpha := m.pow(normalized, 2.5);
      texture[Slot(p, 0)] := r;
      texture[Slot(p, 1)] := g;
      texture[Slot(p, 2)] := b;
      texture[Slot(p, 3)] := alpha;
      texture[Slot(p, 3)] := 0.0;
    }
  }

  /**
    Recolour the texture in place along the gradient from `starting` to
    `ending`. The alpha the source computes with powf is overwritten by 0
    right away, so every pixel ends up with alpha 0.
   */
  method ApplyColoring(texture: array<real>, width: nat, height: nat, info: ColoringInfo, m: Libm)
    requires texture.Length == width * height * 4
    modifies texture
    ensures var (lo, range) := Gradient(old(texture[..]), width * height);
      forall p: nat, k: nat :: p < width * height && k < 4 ==>
        texture[Slot(p, k)] == Colored(old(texture[Slot(p, 0)]), lo, range, info, k)
  {
    var n := width * height;
    var max := FindMaxRed(texture, n);
    var min := FindMinRed(texture, n, Cutoff(max));
    var lo := Low(min);
    var range := Range(max, lo);
    assert (lo, range) == Gradient(texture[..], n);

    var i := 0;
    while i < n
      invariant 0 <= i <= n
      invariant forall p: nat, k: nat :: p < n && k < 4 ==>
        texture[Slot(p, k)] ==
          if p < i then Colored(old(texture[Slot(p, 0)]), lo, range, info, k) else old(texture[Slot(p, k)])
    {
      RecolorPixel(texture, i, lo, range, info, m);
      i := i + 1;
    }
  }
}
