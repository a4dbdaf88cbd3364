/** The NumPy post-processing pipeline of the OctoPrint plugin
    (octoprint_pinozcam/inference.py): mask NMS, head decoding, the
    per-stride anchor cache, and the coverage-based severity. Batch size is
    1 throughout. */
module NumpyInference {
  import opened Common
  import opened Geometry
  import opened Anchors
  import opened Ordering
  import opened NmsCore
  import opened Decoding
  import opened Raster

  // ---------------------------------------------------------------- _nms

  /** `classes = np.round(classes[indices])` applied after `classes` was
      already sorted by `indices`: slot k gets the rounded class of
      positive candidate order[order[k]]. */
  function DoubleSortedKeys(pos: seq<Candidate>, order: seq<nat>): (r: seq<real>)
    requires IsPermutation(order, |pos|)
    ensures |r| == |pos|
    ensures forall k :: 0 <= k < |pos| ==> r[k] == RoundHalfEven(pos[order[order[k]]].cls) as real
  {
    seq(|pos|, k requires 0 <= k < |pos| => RoundHalfEven(pos[order[order[k]]].cls) as real)
  }

  /** The result of `_nms` for the positive candidates sorted by `order`;
      the rounded, twice-permuted classes serve both as the comparison key
      and as the output class column. */
  function NmsResult(cands: seq<Candidate>, order: seq<nat>, nms: real, ndet: nat): (r: seq<Candidate>)
    requires IsPermutation(order, |Positives(cands)|)
    ensures |r| == ndet
  {
    var pos := Positives(cands);
    if |pos| == 0 then Zeros(ndet)
    else
      var keys := DoubleSortedKeys(pos, order);
      MaskNms(NoneAlive, Permute(pos, order), keys, keys, nms, ndet)
  }

  /** `_nms` for one batch: filter, sort, run the rounds, copy the kept rows
      into `ndetections` zeroed slots. */
  method Nms(cands: seq<Candidate>, nms: real, ndet: nat) returns (out: seq<Candidate>, order: seq<nat>)
    ensures IsPermutation(order, |Positives(cands)|)
    ensures DescendingBy(Scores(Positives(cands)), order)
    ensures out == NmsResult(cands, order, nms, ndet)
  {
    var pos := Positives(cands);
    if |pos| == 0 {
      out := Zeros(ndet);
      order := [];
      return;
    }
    order := ArgsortDescending(Scores(pos));
    var sorted := Permute(pos, order);
    var classes := DoubleSortedKeys(pos, order);
    var keep := RunNmsRounds(NoneAlive, sorted, classes, nms, ndet);
    out := PadTo(Compact(Keyed(sorted, classes), keep), ndet);
  }

  /** An output slot is zero, or has an integral class and the score and box
      of an input candidate with a positive score. */
  predicate SlotFrom(cands: seq<Candidate>, x: Candidate)
  {
    x == Empty ||
    (&& x.cls == x.cls.Floor as real
     && exists c :: c in cands && c.score > 0.0 && c.score == x.score && c.box == x.box)
  }

  /** Every output slot is either zero or carries the score and box of an
      input candidate with a positive score, and an integral class. */
  lemma NmsOutputsFromInputs(cands: seq<Candidate>, order: seq<nat>, nms: real, ndet: nat)
    requires IsPermutation(order, |Positives(cands)|)
    ensures var r := NmsResult(cands, order, nms, ndet);
      forall k :: 0 <= k < ndet ==> SlotFrom(cands, r[k])
  {
    var pos := Positives(cands);
    var r := NmsResult(cands, order, nms, ndet);
    if |pos| > 0 {
      var s := Permute(pos, order);
      var keys := DoubleSortedKeys(pos, order);
      PositivesFromInput(cands);
      MaskNmsRows(NoneAlive, s, keys, keys, nms, ndet);
      forall k | 0 <= k < ndet && r[k] != Empty
        ensures r[k].cls == r[k].cls.Floor as real
        ensures exists c :: c in cands && c.score > 0.0 && c.score == r[k].score && c.box == r[k].box
      {
        assert k < KeptCount(NoneAlive, s, keys, nms, ndet);
        assert KeptRow(NoneAlive, s, keys, keys, nms, ndet, k);
        var j :| 0 <= j < |s| && FinalKeep(NoneAlive, s, keys, nms, ndet)[j]
          && r[k] == Candidate(s[j].score, s[j].box, keys[j]);
        assert s[j] == pos[order[j]];
        assert keys[j] == RoundHalfEven(pos[order[order[j]]].cls) as real;
      }
    }
  }

  /** Scores never increase along the output: the survivors in descending
      score, then the zero slots. */
  lemma NmsDescending(cands: seq<Candidate>, order: seq<nat>, nms: real, ndet: nat)
    requires IsPermutation(order, |Positives(cands)|)
    requires DescendingBy(Scores(Positives(cands)), order)
    ensures NonIncreasing(Scores(NmsResult(cands, order, nms, ndet)))
  {
    var pos := Positives(cands);
    var r := NmsResult(cands, order, nms, ndet);
    if |pos| > 0 {
      var s := Permute(pos, order);
      var keys := DoubleSortedKeys(pos, order);
      SortedScores(pos, order);
      PositivesFromInput(cands);
      MaskNmsRows(NoneAlive, s, keys, keys, nms, ndet);
      MaskNmsDescending(NoneAlive, s, keys, keys, nms, ndet);
      var m := IMin(ndet, KeptCount(NoneAlive, s, keys, nms, ndet));
      forall k, l | 0 <= k < l < ndet
        ensures r[k].score >= r[l].score
      {
        if l < m {
          assert Scores(r[..m])[k] >= Scores(r[..m])[l];
        } else {
          assert r[l] == Empty;
          if k < m {
            assert KeptRow(NoneAlive, s, keys, keys, nms, ndet, k);
          }
        }
      }
    }
  }

  /** With no positive score the output is all zero. */
  lemma NmsNoPositives(cands: seq<Candidate>, order: seq<nat>, nms: real, ndet: nat)
    requires IsPermutation(order, |Positives(cands)|)
    requires forall k :: 0 <= k < |cands| ==> cands[k].score <= 0.0
    ensures NmsResult(cands, order, nms, ndet) == Zeros(ndet)
  {
    CountExtremes(PositiveMask(cands));
  }

  /** Round structure: a sorted candidate survives iff every round that ran
      spared it; the rounds that ran are a prefix of min(ndet, #positive),
      and the loop ends early only when no candidate is left alive. */
  lemma NmsRounds(cands: seq<Candidate>, order: seq<nat>, nms: real, ndet: nat, j: nat)
    requires IsPermutation(order, |Positives(cands)|) && j < |Positives(cands)|
    ensures var pos := Positives(cands);
      var s := Permute(pos, order);
      var keys := DoubleSortedKeys(pos, order);
      var rounds := RoundsRun(NoneAlive, AllTrue(|s|), s, keys, nms, 0, ndet);
      && rounds <= ndet && rounds <= |s|
      && (rounds == ndet || rounds == |s| || !AnyAlive(FinalKeep(NoneAlive, s, keys, nms, ndet)))
      && (FinalKeep(NoneAlive, s, keys, nms, ndet)[j] <==>
            forall i :: 0 <= i < rounds ==> Survives(s, keys, nms, i, j))
  {
    var pos := Positives(cands);
    var s := Permute(pos, order);
    var keys := DoubleSortedKeys(pos, order);
    RunRoundsExact(NoneAlive, AllTrue(|s|), s, keys, nms, 0, ndet, j);
    RunRoundsStops(NoneAlive, AllTrue(|s|), s, keys, nms, 0, ndet);
  }

  /** Two identical candidates (same score, box and class) clear each other
      at any threshold below 1 and with at least two slots: round 0 clears
      the second, round 1 still runs for the cleared second and clears the
      first, so the output is all zero. */
  lemma TiedTwinsVanish(c: Candidate, order: seq<nat>, nms: real, ndet: nat)
    requires c.score > 0.0 && c.box.x1 <= c.box.x2 && c.box.y1 <= c.box.y2
    requires nms < 1.0 && ndet >= 2
    requires IsPermutation(order, |Positives([c, c])|)
    ensures NmsResult([c, c], order, nms, ndet) == Zeros(ndet)
  {
    TwinPositives(c);
    var key := RoundHalfEven(c.cls) as real;
    PermuteTwins(c, order);
    TwinKeys(c, order);
    SelfOverlap(c.box, nms);
    TwinsClearEachOther(c, key, nms, ndet);
    ClearedMask([c, c], [key, key], nms, ndet);
  }

  /** Any ordering of two equal candidates gives the same twice-permuted
      keys. */
  lemma TwinKeys(c: Candidate, order: seq<nat>)
    requires IsPermutation(order, 2)
    ensures DoubleSortedKeys([c, c], order) == [RoundHalfEven(c.cls) as real, RoundHalfEven(c.cls) as real]
  {
    assert order[0] < 2 && order[1] < 2;
    var i0, i1 := order[order[0]], order[order[1]];
    assert [c, c][i0] == c && [c, c][i1] == c;
  }

  /** A mask that ends all false leaves only zero slots. */
  lemma ClearedMask(s: seq<Candidate>, keys: seq<real>, nms: real, ndet: nat)
    requires |s| == 2 && |keys| == 2
    requires FinalKeep(NoneAlive, s, keys, nms, ndet) == [false, false]
    ensures MaskNms(NoneAlive, s, keys, keys, nms, ndet) == Zeros(ndet)
  {
    assert Count([false, false]) == 0;
    assert PadTo([], ndet) == Zeros(ndet);
  }

  lemma TwinPositives(c: Candidate)
    requires c.score > 0.0
    ensures Positives([c, c]) == [c, c]
  {
    var cands := [c, c];
    var mask := PositiveMask(cands);
    assert mask == [true, true];
    assert Compact(cands[1..][1..], mask[1..][1..]) == [];
    assert Compact(cands[1..], mask[1..]) == [c];
  }

  // ------------------------------------------------------------- _decode

  /** `box_head.reshape(-1, 4)[k]`: entries 4k .. 4k+3 of the flattened box
      head. */
  function RowDeltas(h: Head, k: nat): Deltas
    requires 4 * k + 4 <= |h.box|
  {
    Deltas(h.box[4 * k], h.box[4 * k + 1], h.box[4 * k + 2], h.box[4 * k + 3])
  }

  /** One decoded row: the score at k, the box from the deltas at row k and
      the anchor of k's cell, and the real class of k. */
  function DecodeRow(h: Head, anchors: seq<Box>, stride: nat, k: nat, exp: real -> real): Candidate
    requires WellShaped(h, |anchors|) && k < |h.cls| && 4 * k + 4 <= |h.box|
  {
    var cell := CellOf(h, |anchors|, k);
    var grid := Grid(anchors[cell.anchor], cell.x, cell.y, stride);
    Candidate(h.cls[k], Delta2Box(RowDeltas(h, k), grid, h.width, h.height, stride, exp), cell.cls)
  }

  /** Every selected position has a row in the reshaped box head. */
  predicate RowsExist(h: Head, sel: seq<nat>)
  {
    forall t :: 0 <= t < |sel| ==> 4 * sel[t] + 4 <= |h.box|
  }

  /** `_decode`'s rows for the selected positions; indexing a missing row
      raises IndexError (None). */
  function DecodeSelected(h: Head, anchors: seq<Box>, stride: nat, sel: seq<nat>, exp: real -> real): (r: Option<seq<Candidate>>)
    requires WellShaped(h, |anchors|) && forall t :: 0 <= t < |sel| ==> sel[t] < |h.cls|
  {
    if !RowsExist(h, sel) then None
    else Some(seq(|sel|, t requires 0 <= t < |sel| => DecodeRow(h, anchors, stride, sel[t], exp)))
  }

  /** `_decode` for one head and batch 0. A head with no passing score yields
      no rows. */
  method Decode(h: Head, anchors: seq<Box>, stride: nat, thr: real, topN: nat, exp: real -> real)
    returns (r: Option<seq<Candidate>>, sel: seq<nat>)
    requires WellShaped(h, |anchors|)
    ensures TopSelection(h.cls, thr, topN, sel)
    ensures r == DecodeSelected(h, anchors, stride, sel, exp)
  {
    sel := SelectTop(h.cls, thr, topN);
    r := DecodeSelected(h, anchors, stride, sel, exp);
  }

  /** The decode fails exactly when a selected flat position lies past the
      anchors × height × width rows of the box head, which cannot happen
      with a single class. */
  lemma DecodeFailsExactly(h: Head, anchors: seq<Box>, stride: nat, thr: real, topN: nat, sel: seq<nat>, exp: real -> real)
    requires WellShaped(h, |anchors|) && TopSelection(h.cls, thr, topN, sel)
    ensures DecodeSelected(h, anchors, stride, sel, exp).None? <==>
      exists t :: 0 <= t < |sel| && sel[t] >= |anchors| * h.height * h.width
    ensures NumClasses(h, |anchors|) == 1 ==> DecodeSelected(h, anchors, stride, sel, exp).Some?
  {
    var rows := |anchors| * h.height * h.width;
    BoxRows(h, |anchors|);
    assert RowsExist(h, sel) <==> forall t :: 0 <= t < |sel| ==> sel[t] < rows;
    BlockCount(h, |anchors|);
    var hw := h.height * h.width;
    Associate(|anchors|, h.height, h.width);
    assert NumClasses(h, |anchors|) == 1 ==> |h.cls| == rows;
  }

  /** The reshaped box head has anchors × height × width rows of four. */
  lemma BoxRows(h: Head, numAnchors: nat)
    requires WellShaped(h, numAnchors)
    ensures |h.box| == 4 * (numAnchors * h.height * h.width)
  {
    Associate(4, numAnchors, h.height);
    Associate(4, numAnchors * h.height, h.width);
  }

  /** The rows of a successful decode: at most top_n, scores at or above the
      threshold in descending order, each the score of its flat position,
      with the real class whose floor is the position's class channel, and
      (for a stride of at least 1) a box inside the feature map's pixel
      extent. */
  lemma DecodeRows(h: Head, anchors: seq<Box>, stride: nat, thr: real, topN: nat, sel: seq<nat>, exp: real -> real)
    requires WellShaped(h, |anchors|) && TopSelection(h.cls, thr, topN, sel)
    requires DecodeSelected(h, anchors, stride, sel, exp).Some?
    ensures var rows := DecodeSelected(h, anchors, stride, sel, exp).value;
      && |rows| == |sel| <= topN
      && NonIncreasing(Scores(rows))
      && forall t :: 0 <= t < |rows| ==>
           && rows[t].score == h.cls[sel[t]] >= thr
           && rows[t].cls.Floor == (sel[t] / (h.width * h.height)) % NumClasses(h, |anchors|)
           && (stride >= 1 ==> InsideMap(rows[t].box, h.width, h.height, stride))
  {
    var rows := DecodeSelected(h, anchors, stride, sel, exp).value;
    forall t | 0 <= t < |rows|
      ensures rows[t].score == h.cls[sel[t]] >= thr
      ensures rows[t].cls.Floor == (sel[t] / (h.width * h.height)) % NumClasses(h, |anchors|)
      ensures stride >= 1 ==> InsideMap(rows[t].box, h.width, h.height, stride)
    {
      assert rows[t] == DecodeRow(h, anchors, stride, sel[t], exp);
      RowFacts(h, anchors, stride, sel[t], exp);
    }
    var scores := Scores(rows);
    forall j, l | 0 <= j < l < |scores|
      ensures scores[j] >= scores[l]
    {
      assert scores[j] == h.cls[sel[j]] && scores[l] == h.cls[sel[l]];
    }
  }

  /** One decoded row carries the score at its position, the class whose
      floor is the position's class channel, and (for a stride of at least
      1) a box inside the feature map's pixel extent. */
  lemma RowFacts(h: Head, anchors: seq<Box>, stride: nat, k: nat, exp: real -> real)
    requires WellShaped(h, |anchors|) && k < |h.cls| && 4 * k + 4 <= |h.box|
    ensures var row := DecodeRow(h, anchors, stride, k, exp);
      && row.score == h.cls[k]
      && row.cls.Floor == (k / (h.width * h.height)) % NumClasses(h, |anchors|)
      && (stride >= 1 ==> InsideMap(row.box, h.width, h.height, stride))
  {
    MulMono(stride, 1, h.width);
    MulMono(stride, 1, h.height);
    ClassOfParts(k, h.width, h.height, NumClasses(h, |anchors|));
  }

  // ---------------------------------------------- _detection_postprocess

  /** What the post-processing promises about its six slots: zero, or a
      detection with a score of at least 0.05 and an integral class. */
  predicate Detection(c: Candidate)
  {
    c == Empty || (c.score >= 0.05 && c.cls == c.cls.Floor as real)
  }

  /** Rows that each scored at least 0.05. */
  predicate Passing(d: seq<Candidate>)
  {
    forall c :: c in d ==> c.score >= 0.05
  }

  /** The rows of a successful decode at threshold 0.05 are passing, and a
      head with no score at 0.05 decodes to no rows. */
  lemma RowsPass(h: Head, anchors: seq<Box>, stride: nat, topN: nat, sel: seq<nat>, exp: real -> real)
    requires WellShaped(h, |anchors|) && TopSelection(h.cls, 0.05, topN, sel)
    ensures DecodeSelected(h, anchors, stride, sel, exp).Some? ==>
      Passing(DecodeSelected(h, anchors, stride, sel, exp).value)
    ensures (forall k :: 0 <= k < |h.cls| ==> h.cls[k] < 0.05) ==>
      DecodeSelected(h, anchors, stride, sel, exp) == Some([])
  {
    if DecodeSelected(h, anchors, stride, sel, exp).Some? {
      var rows := DecodeSelected(h, anchors, stride, sel, exp).value;
      forall c | c in rows
        ensures c.score >= 0.05
      {
        var t :| 0 <= t < |rows| && rows[t] == c;
        assert c == DecodeRow(h, anchors, stride, sel[t], exp);
      }
    }
    if forall k :: 0 <= k < |h.cls| ==> h.cls[k] < 0.05 {
      NoneSelected(h.cls, 0.05, topN, sel);
    }
  }

  /** NMS(0.5, 6) over passing rows yields six slots of detections in
      non-increasing score. */
  lemma NmsOfPassing(decoded: seq<seq<Candidate>>, order: seq<nat>, out: seq<Candidate>)
    requires forall d :: d in decoded ==> Passing(d)
    requires IsPermutation(order, |Positives(Concat(decoded))|)
    requires DescendingBy(Scores(Positives(Concat(decoded))), order)
    requires out == NmsResult(Concat(decoded), order, 0.5, 6)
    ensures |out| == 6 && NonIncreasing(Scores(out))
    ensures forall k :: 0 <= k < 6 ==> Detection(out[k])
  {
    var all := Concat(decoded);
    NmsDescending(all, order, 0.5, 6);
    NmsOutputsFromInputs(all, order, 0.5, 6);
    forall k | 0 <= k < 6
      ensures Detection(out[k])
    {
      assert SlotFrom(all, out[k]);
      if out[k] != Empty {
        var c :| c in all && c.score > 0.0 && c.score == out[k].score && c.box == out[k].box;
        ConcatFrom(decoded, c);
        var i :| 0 <= i < |decoded| && c in decoded[i];
        assert Passing(decoded[i]);
      }
    }
  }

  /** `_decode(cls_head, box_head, stride, 0.05, 1000, anchors[stride])`
      for head h with the anchors of its stride, given the selection its
      sort made. */
  function HeadRows(imageWidth: nat, h: Head, sel: seq<nat>, m: Math): Option<seq<Candidate>>
    requires WellShaped(h, 9) && TopSelection(h.cls, 0.05, 1000, sel)
  {
    var stride := StrideOf(imageWidth, h);
    DecodeSelected(h, StrideAnchors(stride, m), stride, sel, m.exp)
  }

  /** The blocks the loop collects: every head decoded, the empty ones
      skipped; a failing decode fails the whole (None). */
  function Collected(imageWidth: nat, heads: seq<Head>, sels: seq<seq<nat>>, m: Math): Option<seq<seq<Candidate>>>
    requires AllShaped(heads) && HeadSelections(heads, sels)
    decreases |heads|
  {
    if |heads| == 0 then Some([])
    else
      var n := |heads| - 1;
      match Collected(imageWidth, heads[..n], sels[..n], m)
      case None => None
      case Some(ds) =>
        match HeadRows(imageWidth, heads[n], sels[n], m)
        case None => None
        case Some(rows) => Some(if |rows| > 0 then ds + [rows] else ds)
  }

  /** The collection fails exactly when some head selects a flat position
      past its anchors × height × width box rows. */
  lemma {:induction false} CollectedFails(imageWidth: nat, heads: seq<Head>, sels: seq<seq<nat>>, m: Math)
    requires AllShaped(heads) && HeadSelections(heads, sels)
    ensures Collected(imageWidth, heads, sels, m).None? <==> BadSelection(heads, sels)
    decreases |heads|
  {
    if |heads| > 0 {
      var n := |heads| - 1;
      CollectedFails(imageWidth, heads[..n], sels[..n], m);
      var stride := StrideOf(imageWidth, heads[n]);
      DecodeFailsExactly(heads[n], StrideAnchors(stride, m), stride, 0.05, 1000, sels[n], m.exp);
      BadSplit(heads, sels);
    }
  }

  /** Some head selects a flat position past its box rows. */
  predicate BadSelection(heads: seq<Head>, sels: seq<seq<nat>>)
    requires |sels| == |heads|
  {
    exists i, t :: 0 <= i < |heads| && 0 <= t < |sels[i]| && sels[i][t] >= 9 * heads[i].height * heads[i].width
  }

  lemma BadSplit(heads: seq<Head>, sels: seq<seq<nat>>)
    requires |sels| == |heads| > 0
    ensures var n := |heads| - 1;
      BadSelection(heads, sels) <==>
        BadSelection(heads[..n], sels[..n]) ||
        exists t :: 0 <= t < |sels[n]| && sels[n][t] >= 9 * heads[n].height * heads[n].width
  {
    var n := |heads| - 1;
    assert forall i :: 0 <= i < n ==> heads[..n][i] == heads[i] && sels[..n][i] == sels[i];
  }

  /** The collected blocks are non-empty and passing. */
  lemma {:induction false} CollectedPass(imageWidth: nat, heads: seq<Head>, sels: seq<seq<nat>>, m: Math)
    requires AllShaped(heads) && HeadSelections(heads, sels)
    ensures Collected(imageWidth, heads, sels, m).Some? ==>
      forall d :: d in Collected(imageWidth, heads, sels, m).value ==> |d| > 0 && Passing(d)
    decreases |heads|
  {
    if |heads| > 0 {
      var n := |heads| - 1;
      CollectedPass(imageWidth, heads[..n], sels[..n], m);
      var stride := StrideOf(imageWidth, heads[n]);
      RowsPass(heads[n], StrideAnchors(stride, m), stride, 1000, sels[n], m.exp);
    }
  }

  /** With no score at 0.05 in any head nothing is collected. */
  lemma {:induction false} CollectedQuiet(imageWidth: nat, heads: seq<Head>, sels: seq<seq<nat>>, m: Math)
    requires AllShaped(heads) && HeadSelections(heads, sels) && NothingPasses(heads)
    ensures Collected(imageWidth, heads, sels, m) == Some([])
    decreases |heads|
  {
    if |heads| > 0 {
      var n := |heads| - 1;
      assert NothingPasses(heads[..n]);
      CollectedQuiet(imageWidth, heads[..n], sels[..n], m);
      var stride := StrideOf(imageWidth, heads[n]);
      QuietHead(heads, n);
      RowsPass(heads[n], StrideAnchors(stride, m), stride, 1000, sels[n], m.exp);
    }
  }

  /** The loop of `_detection_postprocess`: decode every head with the
      anchors of its stride, generated once per distinct stride into a
      cache, and keep the heads that produced rows. `sels` are the
      selections made so far (all of them unless a decode fails, which
      ends the loop); `generated` counts the calls to `_generate_anchors`. */
  method DecodeHeads(imageWidth: nat, heads: seq<Head>, m: Math)
    returns (r: Option<seq<seq<Candidate>>>, ghost sels: seq<seq<nat>>, ghost generated: nat)
    requires AllShaped(heads)
    ensures |sels| <= |heads| && HeadSelections(heads[..|sels|], sels)
    ensures r == Collected(imageWidth, heads[..|sels|], sels, m)
    ensures r.Some? ==> |sels| == |heads| && generated == |Strides(imageWidth, heads)|
  {
    StridesAll(imageWidth, heads);
    var cache: map<nat, seq<Box>> := map[];
    generated := 0;
    sels := [];
    var decoded: seq<seq<Candidate>> := [];
    var i := 0;
    while i < |heads|
      invariant 0 <= i <= |heads| && |sels| == i
      invariant cache.Keys == StridesOf(imageWidth, heads[..i])
      invariant generated == |cache.Keys|
      invariant forall st :: st in cache ==> cache[st] == StrideAnchors(st, m)
      invariant HeadSelections(heads[..i], sels)
      invariant Collected(imageWidth, heads[..i], sels, m) == Some(decoded)
    {
      var h := heads[i];
      var stride := StrideOf(imageWidth, h);
      StridesStep(imageWidth, heads, i);
      var anchors;
      cache, anchors, generated := CachedAnchors(cache, stride, m, generated);
      assert WellShaped(h, |anchors|);
      var rows, sel := Decode(h, anchors, stride, 0.05, 1000, m.exp);
      CollectStep(imageWidth, heads, sels, sel, m, i);
      sels := sels + [sel];
      if rows.None? {
        return None, sels, generated;
      }
      if |rows.value| > 0 {
        decoded := decoded + [rows.value];
      }
      i := i + 1;
    }
    assert heads[..i] == heads;
    r := Some(decoded);
  }

  /** Extending the collection by one head: its decode is appended when it
      yields rows and fails the whole when it fails. */
  lemma CollectStep(imageWidth: nat, heads: seq<Head>, sels: seq<seq<nat>>, sel: seq<nat>, m: Math, i: nat)
    requires AllShaped(heads) && i < |heads| && HeadSelections(heads[..i], sels)
    requires TopSelection(heads[i].cls, 0.05, 1000, sel)
    ensures HeadSelections(heads[..i + 1], sels + [sel])
    ensures Collected(imageWidth, heads[..i + 1], sels + [sel], m) ==
      match Collected(imageWidth, heads[..i], sels, m)
      case None => None
      case Some(ds) =>
        match HeadRows(imageWidth, heads[i], sel, m)
        case None => None
        case Some(rows) => Some(if |rows| > 0 then ds + [rows] else ds)
  {
    assert heads[..i + 1][..i] == heads[..i] && (sels + [sel])[..i] == sels;
    assert heads[..i + 1][i] == heads[i];
  }

  /** `_detection_postprocess`: the collected rows of all heads go through
      NMS(0.5, 6); with nothing collected the result is six zero slots,
      which is also what NMS gives on no rows. A decode failure propagates
      (None). */
  method Postprocess(imageWidth: nat, heads: seq<Head>, m: Math)
    returns (r: Option<seq<Candidate>>, ghost sels: seq<seq<nat>>, ghost order: seq<nat>, ghost generated: nat)
    requires AllShaped(heads)
    ensures |sels| <= |heads| && HeadSelections(heads[..|sels|], sels)
    ensures var c := Collected(imageWidth, heads[..|sels|], sels, m);
      && (r.None? <==> c.None?)
      && (r.Some? ==> |sels| == |heads| && generated == |Strides(imageWidth, heads)|)
      && (c.Some? ==> IsPermutation(order, |Positives(Concat(c.value))|)
                      && DescendingBy(Scores(Positives(Concat(c.value))), order)
                      && r == Some(NmsResult(Concat(c.value), order, 0.5, 6)))
    ensures r.Some? ==> |r.value| == 6 && NonIncreasing(Scores(r.value))
    ensures r.Some? ==> forall k :: 0 <= k < 6 ==> Detection(r.value[k])
    ensures NothingPasses(heads) ==> r == Some(Zeros(6))
    ensures r.None? <==> BadSelection(heads[..|sels|], sels)
  {
    var decoded;
    decoded, sels, generated := DecodeHeads(imageWidth, heads, m);
    CollectedFails(imageWidth, heads[..|sels|], sels, m);
    if NothingPasses(heads) {
      assert NothingPasses(heads[..|sels|]);
      CollectedQuiet(imageWidth, heads[..|sels|], sels, m);
    }
    CollectedPass(imageWidth, heads[..|sels|], sels, m);
    if decoded.None? {
      return None, sels, [], generated;
    }
    var out;
    out, order := NmsStage(decoded.value);
    r := Some(out);
  }

  /** The tail of `_detection_postprocess`: the early return on nothing
      collected, else NMS(0.5, 6) over the concatenated blocks. */
  method NmsStage(ds: seq<seq<Candidate>>) returns (out: seq<Candidate>, ghost order: seq<nat>)
    requires forall d :: d in ds ==> Passing(d)
    ensures IsPermutation(order, |Positives(Concat(ds))|)
    ensures DescendingBy(Scores(Positives(Concat(ds))), order)
    ensures out == NmsResult(Concat(ds), order, 0.5, 6)
    ensures |out| == 6 && NonIncreasing(Scores(out))
    ensures forall k :: 0 <= k < 6 ==> Detection(out[k])
    ensures ds == [] ==> out == Zeros(6)
  {
    if |ds| == 0 {
      NothingCollected(ds);
      NmsOfPassing(ds, [], Zeros(6));
      return Zeros(6), [];
    }
    var ord;
    out, ord := Nms(Concat(ds), 0.5, 6);
    NmsOfPassing(ds, ord, out);
    order := ord;
  }

  /** NMS over no blocks is the all-zero early return. */
  lemma NothingCollected(decoded: seq<seq<Candidate>>)
    requires decoded == []
    ensures Positives(Concat(decoded)) == [] && IsPermutation([], 0)
    ensures DescendingBy(Scores(Positives(Concat(decoded))), [])
    ensures NmsResult(Concat(decoded), [], 0.5, 6) == Zeros(6)
  {
    assert Concat(decoded) == [];
  }

  // ------------------------------------- severity part of image_inference

  /** The processing grid: 640 columns by 384 rows. */
  const ProcWidth: nat := 640
  const ProcHeight: nat := 384

  /** `map(int, box)` then every corner clipped to [0, 639] x [0, 383]. */
  function ClipBox(b: Box): (r: Cells)
    ensures 0 <= r.x1 <= ProcWidth - 1 && 0 <= r.x2 <= ProcWidth - 1
    ensures 0 <= r.y1 <= ProcHeight - 1 && 0 <= r.y2 <= ProcHeight - 1
  {
    Cells(ClipInt(Trunc(b.x1), 0, ProcWidth - 1), ClipInt(Trunc(b.y1), 0, ProcHeight - 1),
          ClipInt(Trunc(b.x2), 0, ProcWidth - 1), ClipInt(Trunc(b.y2), 0, ProcHeight - 1))
  }

  /** The rectangles filled in: detections scoring strictly above the
      threshold, clipped, in detection order. */
  function FilledCells(dets: seq<Candidate>, thr: real): (r: seq<Cells>)
    ensures |r| <= |dets|
    ensures forall k :: 0 <= k < |r| ==>
      0 <= r[k].x1 && r[k].x2 <= ProcWidth - 1 && 0 <= r[k].y1 && r[k].y2 <= ProcHeight - 1
  {
    if |dets| == 0 then []
    else (if dets[0].score > thr then [ClipBox(dets[0].box)] else []) + FilledCells(dets[1..], thr)
  }

  /** Filtering distributes over concatenation. */
  lemma {:induction false} FilledCellsAppend(a: seq<Candidate>, b: seq<Candidate>, thr: real)
    ensures FilledCells(a + b, thr) == FilledCells(a, thr) + FilledCells(b, thr)
  {
    if |a| > 0 {
      var head := if a[0].score > thr then [ClipBox(a[0].box)] else [];
      assert (a + b)[1..] == a[1..] + b;
      assert FilledCells(a + b, thr) == head + FilledCells(a[1..] + b, thr);
      FilledCellsAppend(a[1..], b, thr);
      assert FilledCells(a, thr) == head + FilledCells(a[1..], thr);
    } else {
      assert a + b == b;
    }
  }

  /** Detections at or below the threshold fill nothing. */
  lemma {:induction false} NothingFilled(dets: seq<Candidate>, thr: real)
    requires forall k :: 0 <= k < |dets| ==> dets[k].score <= thr
    ensures FilledCells(dets, thr) == []
  {
    if |dets| > 0 {
      NothingFilled(dets[1..], thr);
    }
  }

  /** Number of set bitmap cells. */
  function Coverage(dets: seq<Candidate>, thr: real): nat
  {
    GridCount(FilledCells(dets, thr), ProcHeight, ProcWidth)
  }

  /** Clipping both corners to the last row and column leaves the last row
      and column uncovered: at most 383 * 639 cells are ever set. */
  lemma CoverageBound(dets: seq<Candidate>, thr: real)
    ensures Coverage(dets, thr) <= (ProcHeight - 1) * (ProcWidth - 1)
    ensures Coverage(dets, thr) < ProcWidth * ProcHeight
  {
    GridBound(FilledCells(dets, thr), ProcHeight, ProcWidth, ProcWidth - 1, ProcHeight - 1);
  }

  /** More detections never lower the coverage. */
  lemma CoverageGrows(dets: seq<Candidate>, more: seq<Candidate>, thr: real)
    ensures Coverage(dets, thr) <= Coverage(dets + more, thr)
  {
    FilledCellsAppend(dets, more, thr);
    GridGrows(FilledCells(dets, thr), FilledCells(more, thr), ProcHeight, ProcWidth);
  }

  /** What `image_inference` hands back besides the raw detections. */
  datatype Assessment = Assessment(boxes: seq<Box>, severity: real, percentage: real)

  /** `percentage_area` for the detections. */
  function Percentage(dets: seq<Candidate>, thr: real): real
  {
    Coverage(dets, thr) as real / (ProcWidth * ProcHeight) as real
  }

  /** Rasterise the boxes scoring above `thr`, turn the covered share into a
      severity, and scale every box back to the `imgWidth` x `imgHeight`
      source. A zero sensitivity fails (None). */
  method Assess(dets: seq<Candidate>, thr: real, sensitivity: real, imgWidth: nat, imgHeight: nat)
    returns (r: Option<Assessment>)
    ensures r.None? <==> sensitivity == 0.0
    ensures r.Some? ==> r.value.percentage == Percentage(dets, thr)
    ensures r.Some? ==> Severity(r.value.percentage, sensitivity) == Some(r.value.severity)
    ensures r.Some? ==> 0.0 <= r.value.percentage < 1.0 && 0.0 <= r.value.severity <= 1.0
    ensures r.Some? ==> r.value.boxes == RescaleAll(Boxes(dets), imgWidth, imgHeight, ProcWidth, ProcHeight)
  {
    var cells := FilledCells(dets, thr);
    var total := Rasterize(cells, ProcHeight, ProcWidth);
    var percentage := total as real / (ProcWidth * ProcHeight) as real;
    CoverageBound(dets, thr);
    var severity := Severity(percentage, sensitivity);
    if severity.None? {
      return None;
    }
    r := Some(Assessment(RescaleAll(Boxes(dets), imgWidth, imgHeight, ProcWidth, ProcHeight),
                         severity.value, percentage));
  }

  /** Adding detections never lowers the severity. */
  lemma SeverityGrows(dets: seq<Candidate>, more: seq<Candidate>, thr: real, sensitivity: real)
    requires sensitivity != 0.0
    ensures Severity(Percentage(dets, thr), sensitivity).value
         <= Severity(Percentage(dets + more, thr), sensitivity).value
  {
    CoverageGrows(dets, more, thr);
    ShareGrows(Coverage(dets, thr), Coverage(dets + more, thr), ProcWidth * ProcHeight, sensitivity);
  }

  /** With nothing above the threshold the severity is zero. */
  lemma QuietImage(dets: seq<Candidate>, thr: real, sensitivity: real)
    requires sensitivity != 0.0
    requires forall k :: 0 <= k < |dets| ==> dets[k].score <= thr
    ensures Percentage(dets, thr) == 0.0
    ensures Severity(Percentage(dets, thr), sensitivity) == Some(0.0)
  {
    NothingFilled(dets, thr);
    EmptyShare(FilledCells(dets, thr), ProcHeight, ProcWidth, ProcWidth * ProcHeight, sensitivity);
  }
}
