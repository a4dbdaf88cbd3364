/** What both `_decode` variants share: a head's flattened class scores, the
    threshold-and-top-n selection of flat positions, and the recovery of
    (x, y, anchor, class) from a flat index through float division. */
module Decoding {
  import opened Common
  import opened Geometry
  import opened Ordering
  import opened Anchors

  /** One classification head and its box head for batch 0, flattened in
      (channel, row, column) order. `channels` is anchors × classes. */
  datatype Head = Head(channels: nat, height: nat, width: nat, cls: seq<real>, box: seq<real>)

  /** The tensor shapes the detector produces for `numAnchors` anchors. */
  predicate WellShaped(h: Head, numAnchors: nat)
  {
    && numAnchors > 0 && h.height > 0 && h.width > 0
    && h.channels > 0 && h.channels % numAnchors == 0
    && |h.cls| == h.channels * h.height * h.width
    && |h.box| == 4 * numAnchors * h.height * h.width
  }

  /** `num_classes = channels // num_anchors`. */
  function NumClasses(h: Head, numAnchors: nat): (r: nat)
    requires WellShaped(h, numAnchors)
    ensures r > 0 && h.channels == numAnchors * r
  {
    var c := h.channels / numAnchors;
    assert h.channels == numAnchors * c;
    PositiveFactors(numAnchors, c);
    c
  }

  /** `np.where(cls_head >= threshold)[0]` / `(cls_head >= threshold).nonzero()`
      from position `from` on: the positions whose score reaches the
      threshold, in increasing order. */
  function Above(cls: seq<real>, thr: real, from: nat): (r: seq<nat>)
    ensures forall t :: 0 <= t < |r| ==> from <= r[t] < |cls| && cls[r[t]] >= thr
    ensures forall t, u :: 0 <= t < u < |r| ==> r[t] < r[u]
    ensures forall k :: from <= k < |cls| && cls[k] >= thr ==> k in r
    decreases |cls| - from
  {
    if from >= |cls| then []
    else
      var rest := Above(cls, thr, from + 1);
      if cls[from] >= thr then [from] + rest else rest
  }

  /** What the selection promises: the chosen flat positions reach the
      threshold, are distinct, come in descending score, number
      min(top_n, #passing), and no passing position left out scores above a
      chosen one. */
  predicate TopSelection(cls: seq<real>, thr: real, topN: nat, sel: seq<nat>)
  {
    && |sel| == IMin(topN, |Above(cls, thr, 0)|)
    && (forall t :: 0 <= t < |sel| ==> sel[t] < |cls| && cls[sel[t]] >= thr)
    && (forall t, u :: 0 <= t < u < |sel| ==> sel[t] != sel[u] && cls[sel[t]] >= cls[sel[u]])
    && (forall k, t :: 0 <= k < |cls| && cls[k] >= thr && k !in sel && 0 <= t < |sel| ==> cls[k] <= cls[sel[t]])
  }

  /** With no score at the threshold nothing is selected. */
  lemma NoneSelected(cls: seq<real>, thr: real, topN: nat, sel: seq<nat>)
    requires TopSelection(cls, thr, topN, sel)
    requires forall k :: 0 <= k < |cls| ==> cls[k] < thr
    ensures sel == []
  {
    AboveNone(cls, thr, 0);
  }

  lemma {:induction false} AboveNone(cls: seq<real>, thr: real, from: nat)
    requires forall k :: 0 <= k < |cls| ==> cls[k] < thr
    ensures Above(cls, thr, from) == []
    decreases |cls| - from
  {
    if from < |cls| {
      AboveNone(cls, thr, from + 1);
    }
  }

  /** The scores at `keep`, in `keep` order. */
  function ScoresAt(cls: seq<real>, keep: seq<nat>): (r: seq<real>)
    requires forall p :: 0 <= p < |keep| ==> keep[p] < |cls|
    ensures |r| == |keep| && forall p :: 0 <= p < |keep| ==> r[p] == cls[keep[p]]
  {
    seq(|keep|, p requires 0 <= p < |keep| => cls[keep[p]])
  }

  /** `keep[indices[:m]]`. */
  function Through(keep: seq<nat>, order: seq<nat>, m: nat): (r: seq<nat>)
    requires m <= |order| && forall t :: 0 <= t < |order| ==> order[t] < |keep|
    ensures |r| == m && forall t :: 0 <= t < m ==> r[t] == keep[order[t]]
  {
    seq(m, t requires 0 <= t < m => keep[order[t]])
  }

  /** `keep`, then the scores at `keep` sorted in descending order (NumPy:
      `argsort()[::-1][:top_n]`, torch: `topk`), mapped back through `keep`. */
  method SelectTop(cls: seq<real>, thr: real, topN: nat) returns (sel: seq<nat>)
    ensures TopSelection(cls, thr, topN, sel)
  {
    var keep := Above(cls, thr, 0);
    var order := ArgsortDescending(ScoresAt(cls, keep));
    sel := Through(keep, order, IMin(topN, |keep|));
    SelectionIsTop(cls, thr, topN, keep, order);
  }

  lemma SelectionIsTop(cls: seq<real>, thr: real, topN: nat, keep: seq<nat>, order: seq<nat>)
    requires keep == Above(cls, thr, 0)
    requires IsPermutation(order, |keep|) && DescendingBy(ScoresAt(cls, keep), order)
    ensures TopSelection(cls, thr, topN, Through(keep, order, IMin(topN, |keep|)))
  {
    var m := IMin(topN, |keep|);
    var sel := Through(keep, order, m);
    SelectionDescending(cls, keep, order, m);
    forall k, t | 0 <= k < |cls| && cls[k] >= thr && k !in sel && 0 <= t < |sel|
      ensures cls[k] <= cls[sel[t]]
    {
      SelectionCovers(cls, thr, keep, order, m, k, t);
    }
  }

  lemma SelectionDescending(cls: seq<real>, keep: seq<nat>, order: seq<nat>, m: nat)
    requires forall p :: 0 <= p < |keep| ==> keep[p] < |cls|
    requires forall t, u :: 0 <= t < u < |keep| ==> keep[t] < keep[u]
    requires IsPermutation(order, |keep|) && DescendingBy(ScoresAt(cls, keep), order)
    requires m <= |keep|
    ensures var sel := Through(keep, order, m);
      forall t, u :: 0 <= t < u < |sel| ==> sel[t] != sel[u] && cls[sel[t]] >= cls[sel[u]]
  {
    var sel := Through(keep, order, m);
    var scores := ScoresAt(cls, keep);
    forall t, u | 0 <= t < u < |sel|
      ensures sel[t] != sel[u] && cls[sel[t]] >= cls[sel[u]]
    {
      assert order[t] != order[u];
      assert order[t] < order[u] || order[u] < order[t];
      assert scores[order[t]] >= scores[order[u]];
    }
  }

  lemma SelectionCovers(cls: seq<real>, thr: real, keep: seq<nat>, order: seq<nat>, m: nat, k: nat, t: nat)
    requires keep == Above(cls, thr, 0)
    requires IsPermutation(order, |keep|) && DescendingBy(ScoresAt(cls, keep), order)
    requires m <= |keep| && t < m
    requires k < |cls| && cls[k] >= thr && k !in Through(keep, order, m)
    ensures cls[k] <= cls[keep[order[t]]]
  {
    var sel := Through(keep, order, m);
    var scores := ScoresAt(cls, keep);
    assert k in keep;
    var p :| 0 <= p < |keep| && keep[p] == k;
    assert p in order;
    var u :| 0 <= u < |order| && order[u] == p;
    assert keep[order[u]] == k;
    assert u >= m;
    assert scores[order[t]] >= scores[order[u]];
  }

  /** Every corner lies in [0, width·stride − 1] × [0, height·stride − 1]. */
  predicate InsideMap(b: Box, width: nat, height: nat, stride: nat)
  {
    && 0.0 <= b.x1 <= (width * stride) as real - 1.0
    && 0.0 <= b.x2 <= (width * stride) as real - 1.0
    && 0.0 <= b.y1 <= (height * stride) as real - 1.0
    && 0.0 <= b.y2 <= (height * stride) as real - 1.0
  }

  /** The grid offset of position (x, y) added to an anchor: `stack([x, y,
      x, y]) * stride + anchors[a]`. */
  function Grid(a: Box, x: nat, y: nat, stride: nat): (r: Box)
    ensures r.x2 - r.x1 == a.x2 - a.x1 && r.y2 - r.y1 == a.y2 - a.y1
  {
    var ox := (x * stride) as real;
    var oy := (y * stride) as real;
    Box(ox + a.x1, oy + a.y1, ox + a.x2, oy + a.y2)
  }

  /** `keep % width` (an integer operation). */
  function XOf(k: nat, width: nat): (r: nat)
    requires width > 0
    ensures r < width
  {
    k % width
  }

  /** `((keep / width) % height).astype(int)`: true division, float modulo,
      truncation. */
  function YOf(k: nat, width: nat, height: nat): int
    requires width > 0 && height > 0
  {
    Trunc(RealMod(k as real / width as real, height))
  }

  /** `(keep / num_classes / height / width).astype(int)`. */
  function AnchorOf(k: nat, classes: nat, height: nat, width: nat): int
    requires classes > 0 && height > 0 && width > 0
  {
    Trunc(k as real / classes as real / height as real / width as real)
  }

  /** `(keep / width / height) % num_classes`, left as a float. */
  function ClassOf(k: nat, width: nat, height: nat, classes: nat): (r: real)
    requires width > 0 && height > 0 && classes > 0
    ensures 0.0 <= r < classes as real
  {
    RealMod(k as real / width as real / height as real, classes)
  }

  /** The class head holds `numAnchors` blocks of classes × height × width. */
  lemma BlockCount(h: Head, numAnchors: nat)
    requires WellShaped(h, numAnchors)
    ensures |h.cls| == (NumClasses(h, numAnchors) * h.height * h.width) * numAnchors
  {
    var c := NumClasses(h, numAnchors);
    var hw := h.height * h.width;
    Associate(numAnchors * c, h.height, h.width);
    Associate(c, h.height, h.width);
    assert |h.cls| == (numAnchors * c) * hw;
    assert (c * h.height) * h.width == c * hw;
    Associate(numAnchors, c, hw);
    assert (numAnchors * c) * hw == numAnchors * (c * hw);
  }

  lemma CellFacts(k: nat, c: nat, height: nat, width: nat, numAnchors: nat)
    requires c > 0 && height > 0 && width > 0
    requires k < (c * height * width) * numAnchors
    ensures YOf(k, width, height) == (k / width) % height
    ensures AnchorOf(k, c, height, width) == k / (c * height * width)
    ensures 0 <= k / (c * height * width) < numAnchors
  {
    YOfIsRow(k, width, height);
    AnchorOfIsBlock(k, c, height, width);
    RowFits(k, c * height * width, numAnchors);
  }

  /** A flat position's grid column, grid row, anchor and (real) class. */
  datatype Cell = Cell(x: nat, y: nat, anchor: nat, cls: real)

  /** The cell of flat position k, computed the way the source does (float
      division, float modulo, truncation); the contract gives the integer
      meaning of each part. */
  function CellOf(h: Head, numAnchors: nat, k: nat): (r: Cell)
    requires WellShaped(h, numAnchors) && k < |h.cls|
    ensures r.x == k % h.width && r.y == (k / h.width) % h.height
    ensures r.anchor == k / (NumClasses(h, numAnchors) * h.height * h.width)
    ensures r.x < h.width && r.y < h.height && r.anchor < numAnchors
    ensures r.cls == ClassOf(k, h.width, h.height, NumClasses(h, numAnchors))
  {
    var c := NumClasses(h, numAnchors);
    BlockCount(h, numAnchors);
    CellFacts(k, c, h.height, h.width, numAnchors);
    Cell(XOf(k, h.width), YOf(k, h.width, h.height) as nat, AnchorOf(k, c, h.height, h.width) as nat,
         ClassOf(k, h.width, h.height, c))
  }

  /** Splitting an exact quotient into its integer and fractional parts. */
  lemma QuotientSplit(k: nat, d: nat)
    requires d > 0
    ensures k as real / d as real == (k / d) as real + (k % d) as real / d as real
    ensures 0.0 <= (k % d) as real / d as real < 1.0
  {
    var q := k / d;
    var r := k % d;
    assert k == d * q + r;
    assert k as real == d as real * q as real + r as real;
    assert (r as real) < d as real;
  }

  /** The floor of an exact quotient is the integer quotient. */
  lemma FloorOfQuotient(k: nat, d: nat)
    requires d > 0
    ensures (k as real / d as real).Floor == k / d
  {
    QuotientSplit(k, d);
  }

  /** Dividing by a, then by b, is dividing by a·b. */
  lemma DivideTwice(x: real, a: nat, b: nat)
    requires a > 0 && b > 0
    ensures x / a as real / b as real == x / (a * b) as real
  {
    assert (a * b) as real == a as real * b as real;
  }

  lemma FloorIs(x: real, q: int)
    requires q as real <= x < q as real + 1.0
    ensures x.Floor == q
  {
  }

  lemma DivBelowOne(g: real, m: real)
    requires 0.0 <= g < m
    ensures 0.0 <= g / m < 1.0
  {
    assert g / m * m == g;
  }

  lemma DivSplit(m: real, q: real, g: real)
    requires m != 0.0
    ensures (m * q + g) / m == q + g / m
  {
  }

  /** The float modulo of n + f, with n a natural and 0 <= f < 1, is
      (n mod m) + f. */
  lemma RealModSplit(n: nat, f: real, m: nat)
    requires m > 0 && 0.0 <= f < 1.0
    ensures RealMod(n as real + f, m) == (n % m) as real + f
  {
    var mr := m as real;
    var q := n / m;
    var g := (n % m) as real + f;
    var v := n as real + f;
    RealSplit(n, m, f);
    assert v == mr * q as real + g;
    assert g < mr;
    DivBelowOne(g, mr);
    DivSplit(mr, q as real, g);
    assert v / mr == q as real + g / mr;
    FloorIs(v / mr, q);
    RemainderOf(v, mr, q as real, g);
  }

  /** n + f is m·(n div m) + (n mod m + f) over the reals. */
  lemma RealSplit(n: nat, m: nat, f: real)
    requires m > 0
    ensures n as real + f == m as real * (n / m) as real + ((n % m) as real + f)
  {
    var q := n / m;
    assert n == m * q + n % m;
    assert (m * q) as real == m as real * q as real;
  }

  lemma RemainderOf(v: real, mr: real, q: real, g: real)
    requires v == mr * q + g
    ensures v - mr * q == g
  {
  }

  /** The recovered row index is ⌊k / width⌋ mod height. */
  lemma YOfIsRow(k: nat, width: nat, height: nat)
    requires width > 0 && height > 0
    ensures YOf(k, width, height) == (k / width) % height
  {
    QuotientSplit(k, width);
    var f := (k % width) as real / width as real;
    RealModSplit(k / width, f, height);
    assert RealMod(k as real / width as real, height) == ((k / width) % height) as real + f;
  }

  /** The recovered anchor index is ⌊k / (classes · height · width)⌋. */
  lemma AnchorOfIsBlock(k: nat, classes: nat, height: nat, width: nat)
    requires classes > 0 && height > 0 && width > 0
    ensures AnchorOf(k, classes, height, width) == k / (classes * height * width)
  {
    DivideTwice(k as real, classes, height);
    DivideTwice(k as real, classes * height, width);
    FloorOfQuotient(k, classes * height * width);
  }

  /** The decoded class is the class channel ⌊k / (width · height)⌋ mod
      classes plus the fraction (k mod width·height) / (width·height): a
      real, not a class index. */
  lemma ClassOfParts(k: nat, width: nat, height: nat, classes: nat)
    requires width > 0 && height > 0 && classes > 0
    ensures ClassOf(k, width, height, classes)
         == ((k / (width * height)) % classes) as real + (k % (width * height)) as real / (width * height) as real
    ensures ClassOf(k, width, height, classes).Floor == (k / (width * height)) % classes
  {
    var wh := width * height;
    DivideTwice(k as real, width, height);
    QuotientSplit(k, wh);
    RealModSplit(k / wh, (k % wh) as real / wh as real, classes);
  }

  /** Flat index k lies in anchor block AnchorOf, class channel, row YOf and
      column XOf: k = ((a·C + c)·H + y)·W + x. */
  lemma FlatIndexParts(k: nat, classes: nat, height: nat, width: nat)
    requires classes > 0 && height > 0 && width > 0
    ensures var a := k / (classes * height * width);
      var c := (k / (width * height)) % classes;
      k == ((a * classes + c) * height + (k / width) % height) * width + k % width
  {
    var wh := width * height;
    var q := k / width;
    var p := q / height;
    var a := p / classes;
    var c := p % classes;
    DivModSplit(k, width);
    DivModSplit(q, height);
    DivModSplit(p, classes);
    DivOfDiv(k, width, height);
    DivOfDiv(k, wh, classes);
    Reorder(width, height, classes);
    Substitute(k, q, p, a, c, q % height, k % width, classes, height, width);
  }

  lemma DivModSplit(n: nat, d: nat)
    requires d > 0
    ensures n == (n / d) * d + n % d
  {
  }

  lemma Reorder(width: nat, height: nat, classes: nat)
    ensures width * height * classes == classes * height * width
  {
  }

  lemma Substitute(k: int, q: int, p: int, a: int, c: int, y: int, x: int, classes: int, height: int, width: int)
    requires k == q * width + x && q == p * height + y && p == a * classes + c
    ensures k == ((a * classes + c) * height + y) * width + x
  {
  }

  lemma DivOfDiv(k: nat, a: nat, b: nat)
    requires a > 0 && b > 0
    ensures k / a / b == k / (a * b)
  {
    var q := k / a;
    var r := k % a;
    var q2 := q / b;
    var r2 := q % b;
    DivModSplit(k, a);
    DivModSplit(q, b);
    Regroup(k, a, b, q, r, q2, r2);
    RemainderBound(a, b, r, r2);
    DivUnique(k, a * b, q2, a * r2 + r);
  }

  lemma Regroup(k: int, a: int, b: int, q: int, r: int, q2: int, r2: int)
    requires k == q * a + r && q == q2 * b + r2
    ensures k == (a * b) * q2 + (a * r2 + r)
  {
    calc {
      k;
      (q2 * b + r2) * a + r;
      { Distribute(a, q2 * b, r2); }
      a * (q2 * b) + a * r2 + r;
      { Associate(a, b, q2); }
      (a * b) * q2 + (a * r2 + r);
    }
  }

  lemma RemainderBound(a: int, b: int, r: int, r2: int)
    requires 0 <= r < a && 0 <= r2 < b
    ensures 0 <= a * r2 + r < a * b
  {
    MulMono(a, r2, b - 1);
    Distribute(a, b, -1);
  }

  lemma Distribute(a: int, x: int, y: int)
    ensures a * (x + y) == a * x + a * y
  {
  }

  lemma Associate(a: int, b: int, c: int)
    ensures a * (b * c) == (a * b) * c
  {
  }

  lemma DivUnique(k: nat, d: nat, q: nat, r: nat)
    requires d > 0 && k == d * q + r && r < d
    ensures k / d == q
  {
    var q' := k / d;
    var r' := k % d;
    assert k == d * q' + r';
    var e := q' - q;
    assert d * e == r - r' by {
      assert d * q' - d * q == d * (q' - q);
    }
    assert e >= 1 ==> d * e >= d * 1 by {
      if e >= 1 {
        MulMono(d, 1, e);
      }
    }
    assert e <= -1 ==> d * e <= d * -1 by {
      if e <= -1 {
        MulMono(d, e, -1);
      }
    }
  }

  /** `image.shape[-1] // cls_head.shape[-1]`. */
  function StrideOf(imageWidth: nat, h: Head): nat
    requires h.width > 0
  {
    imageWidth / h.width
  }

  /** The distinct strides of a list of heads. */
  function StridesOf(imageWidth: nat, heads: seq<Head>): set<nat>
    requires forall i :: 0 <= i < |heads| ==> heads[i].width > 0
  {
    if |heads| == 0 then {}
    else StridesOf(imageWidth, heads[..|heads| - 1]) + {StrideOf(imageWidth, heads[|heads| - 1])}
  }

  /** One more head adds its stride to the strides seen so far. */
  lemma StridesStep(imageWidth: nat, heads: seq<Head>, i: nat)
    requires i < |heads| && forall j :: 0 <= j < |heads| ==> heads[j].width > 0
    ensures StridesOf(imageWidth, heads[..i + 1]) == StridesOf(imageWidth, heads[..i]) + {StrideOf(imageWidth, heads[i])}
  {
    assert heads[..i + 1][..i] == heads[..i];
  }

  /** The strides of all heads, as the loop accumulates them. */
  lemma StridesAll(imageWidth: nat, heads: seq<Head>)
    requires AllShaped(heads)
    ensures forall j :: 0 <= j < |heads| ==> heads[j].width > 0
    ensures Strides(imageWidth, heads) == StridesOf(imageWidth, heads[..|heads|])
  {
    ShapedWidths(heads);
    assert heads[..|heads|] == heads;
  }

  /** With nothing passing, no score of head i reaches 0.05. */
  lemma QuietHead(heads: seq<Head>, i: nat)
    requires NothingPasses(heads) && i < |heads|
    ensures forall k :: 0 <= k < |heads[i].cls| ==> heads[i].cls[k] < 0.05
  {
  }

  /** Every head is shaped for the nine anchors of three ratios and three
      scales. */
  predicate AllShaped(heads: seq<Head>)
  {
    forall i :: 0 <= i < |heads| ==> WellShaped(heads[i], 9)
  }

  /** Each head's selection at threshold 0.05 with `top_n` 1000, as the
      post-processing loop makes it. */
  predicate HeadSelections(heads: seq<Head>, sels: seq<seq<nat>>)
  {
    |sels| == |heads| && forall i :: 0 <= i < |heads| ==> TopSelection(heads[i].cls, 0.05, 1000, sels[i])
  }

  /** No flat position of any head reaches 0.05. */
  predicate NothingPasses(heads: seq<Head>)
  {
    forall i, k :: 0 <= i < |heads| && 0 <= k < |heads[i].cls| ==> heads[i].cls[k] < 0.05
  }

  lemma ShapedWidths(heads: seq<Head>)
    requires AllShaped(heads)
    ensures forall i :: 0 <= i < |heads| ==> heads[i].width > 0
  {
    forall i | 0 <= i < |heads|
      ensures heads[i].width > 0
    {
      assert WellShaped(heads[i], 9);
    }
  }

  /** The distinct strides of the heads, for shaped heads. */
  function Strides(imageWidth: nat, heads: seq<Head>): set<nat>
    requires AllShaped(heads)
  {
    ShapedWidths(heads);
    StridesOf(imageWidth, heads)
  }

  /** Concatenation of the per-head rows along the detection axis. */
  function Concat(ds: seq<seq<Candidate>>): (r: seq<Candidate>)
  {
    if |ds| == 0 then [] else Concat(ds[..|ds| - 1]) + ds[|ds| - 1]
  }

  /** Every concatenated row comes from one of the parts. */
  lemma {:induction false} ConcatFrom(ds: seq<seq<Candidate>>, c: Candidate)
    requires c in Concat(ds)
    ensures exists i :: 0 <= i < |ds| && c in ds[i]
  {
    if c in ds[|ds| - 1] {
    } else {
      ConcatFrom(ds[..|ds| - 1], c);
      var i :| 0 <= i < |ds| - 1 && c in ds[..|ds| - 1][i];
      assert ds[i] == ds[..|ds| - 1][i];
    }
  }
}
