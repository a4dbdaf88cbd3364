/** Boxes, detection candidates and the "+1" pixel-area overlap test shared by
    both post-processing variants. */
module Geometry {
  import opened Common

  /** Corner box (x1, y1, x2, y2) in processed-image pixels. */
  datatype Box = Box(x1: real, y1: real, x2: real, y2: real)

  /** One position of the aligned (score, box, class) arrays. */
  datatype Candidate = Candidate(score: real, box: Box, cls: real)

  const ZeroBox: Box := Box(0.0, 0.0, 0.0, 0.0)

  /** The value of an unused slot of a zero-initialised output array. */
  const Empty: Candidate := Candidate(0.0, ZeroBox, 0.0)

  function Zeros(n: nat): (r: seq<Candidate>)
    ensures |r| == n && forall k :: 0 <= k < n ==> r[k] == Empty
  {
    seq(n, _ => Empty)
  }

  /** Collaborators whose values the model leaves open: `exp`, `sqrt`, and
      `2 ** x` (used for the anchor scales). */
  datatype Math = Math(exp: real -> real, sqrt: real -> real, pow2: real -> real)

  /** `(x2 - x1 + 1) * (y2 - y1 + 1)`. */
  function Area(b: Box): real
  {
    (b.x2 - b.x1 + 1.0) * (b.y2 - b.y1 + 1.0)
  }

  /** Intersection with each side clamped at zero, "+1" convention. */
  function Inter(a: Box, b: Box): (r: real)
    ensures r >= 0.0
  {
    var w := Max(0.0, Min(a.x2, b.x2) - Max(a.x1, b.x1) + 1.0);
    var h := Max(0.0, Min(a.y2, b.y2) - Max(a.y1, b.y1) + 1.0);
    w * h
  }

  /** `inter / (area_j + area_i - inter) <= t`. A zero union makes the float
      quotient inf or nan, and both compare false. */
  predicate IouAtMost(a: Box, b: Box, t: real)
  {
    var inter := Inter(a, b);
    var union := Area(a) + Area(b) - inter;
    union != 0.0 && inter / union <= t
  }

  /** A box with non-negative extent overlaps itself with IoU 1. */
  lemma SelfOverlap(b: Box, t: real)
    requires b.x1 <= b.x2 && b.y1 <= b.y2 && t < 1.0
    ensures !IouAtMost(b, b, t)
  {
    assert Inter(b, b) == Area(b);
    assert Area(b) > 0.0 by {
      assert b.x2 - b.x1 + 1.0 >= 1.0 && b.y2 - b.y1 + 1.0 >= 1.0;
    }
    assert Area(b) + Area(b) - Inter(b, b) == Area(b);
    assert Inter(b, b) / Area(b) == 1.0;
  }

  lemma IouSymmetric(a: Box, b: Box, t: real)
    ensures IouAtMost(a, b, t) <==> IouAtMost(b, a, t)
  {
    assert Inter(a, b) == Inter(b, a);
  }
}

/** Anchor layout and anchor-plus-delta box decoding (`_generate_anchors`,
    `_delta2box`), which the NumPy and torch files compute identically. */
module Anchors {
  import opened Common
  import opened Geometry

  /** The anchor for one (ratio, scale) pair: centred at stride/2, width
      sqrt(stride²/ratio)·scale, height width·ratio. */
  /** `sqrt(stride * stride / ratio)`, the unscaled anchor width. */
  function BaseWidth(stride: real, ratio: real, sqrt: real -> real): real
    requires ratio != 0.0
  {
    sqrt(stride * stride / ratio)
  }

  function AnchorFor(stride: real, ratio: real, scale: real, sqrt: real -> real): (r: Box)
    requires ratio != 0.0
    ensures r.x1 + r.x2 == stride && r.y1 + r.y2 == stride
    ensures r.x2 - r.x1 == BaseWidth(stride, ratio, sqrt) * scale
    ensures r.y2 - r.y1 == ratio * (r.x2 - r.x1)
  {
    var ws := BaseWidth(stride, ratio, sqrt);
    var dw := ws * scale;
    var dh := ws * ratio * scale;
    assert dh == ratio * dw;
    Box(0.5 * (stride - dw), 0.5 * (stride - dh), 0.5 * (stride + dw), 0.5 * (stride + dh))
  }

  /** `_generate_anchors`: row k pairs ratio k mod R with scale k div R. */
  function GenerateAnchors(stride: nat, ratios: seq<real>, scales: seq<real>, sqrt: real -> real): (r: seq<Box>)
    requires forall k :: 0 <= k < |ratios| ==> ratios[k] != 0.0
    ensures |r| == |ratios| * |scales|
  {
    var n := |ratios| * |scales|;
    seq(n, k requires 0 <= k < n =>
      RowFits(k, |ratios|, |scales|);
      AnchorFor(stride as real, ratios[k % |ratios|], scales[k / |ratios|], sqrt))
  }

  lemma RowFits(k: nat, rows: nat, cols: nat)
    requires k < rows * cols
    ensures rows > 0 && k / rows < cols && k % rows < rows
  {
    PositiveFactors(rows, cols);
    var q := k / rows;
    assert rows * q <= k;
    assert rows * (cols - q) == rows * cols - rows * q;
    PositiveFactors(rows, cols - q);
  }

  /** Every anchor is centred at stride/2, and anchor k has the width, and the
      aspect ratio, fixed by ratio k mod R and scale k div R. */
  lemma AnchorShape(stride: nat, ratios: seq<real>, scales: seq<real>, sqrt: real -> real, k: nat)
    requires forall j :: 0 <= j < |ratios| ==> ratios[j] != 0.0
    requires k < |ratios| * |scales|
    ensures |ratios| > 0 && k / |ratios| < |scales|
    ensures var a := GenerateAnchors(stride, ratios, scales, sqrt)[k];
            var ratio := ratios[k % |ratios|];
            var scale := scales[k / |ratios|];
            var st := stride as real;
            && a.x1 + a.x2 == st
            && a.y1 + a.y2 == st
            && a.x2 - a.x1 == BaseWidth(st, ratio, sqrt) * scale
            && a.y2 - a.y1 == ratio * (a.x2 - a.x1)
  {
    RowFits(k, |ratios|, |scales|);
    var st := stride as real;
    var ratio := ratios[k % |ratios|];
    var scale := scales[k / |ratios|];
    var a := GenerateAnchors(stride, ratios, scales, sqrt)[k];
    assert a == AnchorFor(st, ratio, scale, sqrt);
  }

  /** The four regression outputs of one position. */
  datatype Deltas = Deltas(dx: real, dy: real, dw: real, dh: real)

  /** `_delta2box` for one row: shift the anchor centre by the scaled deltas,
      scale its size by exp, and clamp each corner to the feature map's
      extent in pixels, [0, size·stride − 1]. */
  function Delta2Box(d: Deltas, a: Box, width: nat, height: nat, stride: nat, exp: real -> real): (r: Box)
    ensures 0.0 <= r.x1 && 0.0 <= r.x2 && 0.0 <= r.y1 && 0.0 <= r.y2
    ensures width * stride >= 1 ==>
      r.x1 <= (width * stride) as real - 1.0 && r.x2 <= (width * stride) as real - 1.0
    ensures height * stride >= 1 ==>
      r.y1 <= (height * stride) as real - 1.0 && r.y2 <= (height * stride) as real - 1.0
  {
    var aw := a.x2 - a.x1 + 1.0;
    var ah := a.y2 - a.y1 + 1.0;
    var cx := a.x1 + 0.5 * aw;
    var cy := a.y1 + 0.5 * ah;
    var px := d.dx * aw + cx;
    var py := d.dy * ah + cy;
    var pw := exp(d.dw) * aw;
    var ph := exp(d.dh) * ah;
    var mx := (width * stride) as real - 1.0;
    var my := (height * stride) as real - 1.0;
    Box(Clamp(px - 0.5 * pw, 0.0, mx), Clamp(py - 0.5 * ph, 0.0, my),
        Clamp(px + 0.5 * pw - 1.0, 0.0, mx), Clamp(py + 0.5 * ph - 1.0, 0.0, my))
  }

  /** Zero deltas decode an anchor that lies inside the map back to itself:
      the "+1" width and the "-1" on the far corner cancel. */
  lemma ZeroDeltasReproduceAnchor(a: Box, width: nat, height: nat, stride: nat, exp: real -> real)
    requires exp(0.0) == 1.0
    requires 0.0 <= a.x1 && a.x2 <= (width * stride) as real - 1.0
    requires 0.0 <= a.y1 && a.y2 <= (height * stride) as real - 1.0
    requires a.x1 <= a.x2 && a.y1 <= a.y2
    ensures Delta2Box(Deltas(0.0, 0.0, 0.0, 0.0), a, width, height, stride, exp) == a
  {
    var aw := a.x2 - a.x1 + 1.0;
    var ah := a.y2 - a.y1 + 1.0;
    assert exp(0.0) * aw == aw;
    assert exp(0.0) * ah == ah;
  }

  /** `ratio_vals=[1.0, 2.0, 0.5]`. */
  const Ratios: seq<real> := [1.0, 2.0, 0.5]

  /** `scales_vals=[4 * 2 ** (i / 3) for i in range(3)]`. */
  function Scales(pow2: real -> real): (r: seq<real>)
    ensures |r| == 3
  {
    [4.0 * pow2(0.0 / 3.0), 4.0 * pow2(1.0 / 3.0), 4.0 * pow2(2.0 / 3.0)]
  }

  /** The nine anchors both pipelines generate for a stride. */
  function StrideAnchors(stride: nat, m: Math): (r: seq<Box>)
    ensures |r| == 9
  {
    GenerateAnchors(stride, Ratios, Scales(m.pow2), m.sqrt)
  }

  /** The anchor cache of `_detection_postprocess`: a stride seen before
      reuses its anchors, a new one generates them once. */
  method CachedAnchors(cache: map<nat, seq<Box>>, stride: nat, m: Math, ghost generated: nat)
    returns (cache': map<nat, seq<Box>>, anchors: seq<Box>, ghost generated': nat)
    requires generated == |cache.Keys|
    requires forall st :: st in cache ==> cache[st] == StrideAnchors(st, m)
    ensures cache'.Keys == cache.Keys + {stride} && generated' == |cache'.Keys|
    ensures forall st :: st in cache' ==> cache'[st] == StrideAnchors(st, m)
    ensures anchors == StrideAnchors(stride, m)
  {
    if stride in cache {
      assert cache.Keys + {stride} == cache.Keys;
      cache', generated' := cache, generated;
    } else {
      cache' := cache[stride := StrideAnchors(stride, m)];
      assert cache'.Keys == cache.Keys + {stride};
      assert |cache.Keys + {stride}| == |cache.Keys| + 1;
      generated' := generated + 1;
    }
    anchors := cache'[stride];
  }
}
