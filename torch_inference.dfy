/** The torch post-processing pipeline of the stand-alone server
    (AI/Model/inference.py): the mask NMS with rounded class keys, the older
    compacting NMS, head decoding into fixed-width outputs, the per-stride
    anchor cache, the severity bitmap and the thread count. Batch size is 1
    throughout. */
module TorchInference {
  import opened Common
  import opened Geometry
  import opened Anchors
  import opened Ordering
  import opened NmsCore
  import opened Decoding
  import opened Raster

  // ---------------------------------------------------------------- _nms

  /** `all_scores[batch, :].nonzero()`: negative scores pass as well. */
  function NonZeroMask(cands: seq<Candidate>): (r: seq<bool>)
    ensures |r| == |cands| && forall j :: 0 <= j < |cands| ==> (r[j] <==> cands[j].score != 0.0)
  {
    seq(|cands|, j requires 0 <= j < |cands| => cands[j].score != 0.0)
  }

  function NonZero(cands: seq<Candidate>): seq<Candidate>
  {
    Compact(cands, NonZeroMask(cands))
  }

  lemma NonZeroFromInput(cands: seq<Candidate>)
    ensures forall k :: 0 <= k < |NonZero(cands)| ==>
      NonZero(cands)[k].score != 0.0 && NonZero(cands)[k] in cands
  {
    forall k | 0 <= k < |NonZero(cands)|
      ensures NonZero(cands)[k].score != 0.0 && NonZero(cands)[k] in cands
    {
      CompactSource(cands, NonZeroMask(cands), k);
    }
  }

  /** `torch.round(c * 10**1) / 10**1`: the class to one decimal, half to
      even. */
  function RoundedClass(c: real): (r: real)
    ensures c - 0.05 <= r <= c + 0.05
  {
    RoundHalfEven(c * 10.0) as real / 10.0
  }

  /** `classes_rounded`, computed before the sort and therefore in the
      unsorted order, yet indexed by sorted position in every round. */
  function RoundedKeys(nz: seq<Candidate>): (r: seq<real>)
    ensures |r| == |nz| && forall k :: 0 <= k < |nz| ==> r[k] == RoundedClass(nz[k].cls)
  {
    seq(|nz|, k requires 0 <= k < |nz| => RoundedClass(nz[k].cls))
  }

  function ClassesOf(s: seq<Candidate>): (r: seq<real>)
    ensures |r| == |s| && forall k :: 0 <= k < |s| ==> r[k] == s[k].cls
  {
    seq(|s|, k requires 0 <= k < |s| => s[k].cls)
  }

  /** Copying a row's own class back leaves it unchanged. */
  lemma KeyedOwnClasses(s: seq<Candidate>)
    ensures Keyed(s, ClassesOf(s)) == s
  {
  }

  /** The result of `_nms` for the non-zero candidates sorted by `order`:
      rounds compare the unsorted rounded keys; the output carries the
      sorted, unrounded classes. */
  function NmsResult(cands: seq<Candidate>, order: seq<nat>, nms: real, ndet: nat): (r: seq<Candidate>)
    requires IsPermutation(order, |NonZero(cands)|)
    ensures |r| == ndet
  {
    var nz := NonZero(cands);
    if |nz| == 0 then Zeros(ndet)
    else
      var s := Permute(nz, order);
      MaskNms(IndexReachesAlive, s, RoundedKeys(nz), ClassesOf(s), nms, ndet)
  }

  /** `_nms` for one batch. */
  method Nms(cands: seq<Candidate>, nms: real, ndet: nat) returns (out: seq<Candidate>, order: seq<nat>)
    ensures IsPermutation(order, |NonZero(cands)|)
    ensures DescendingBy(Scores(NonZero(cands)), order)
    ensures out == NmsResult(cands, order, nms, ndet)
  {
    var nz := NonZero(cands);
    if |nz| == 0 {
      out := Zeros(ndet);
      order := [];
      return;
    }
    var keys := RoundedKeys(nz);
    order := ArgsortDescending(Scores(nz));
    var sorted := Permute(nz, order);
    var keep := RunNmsRounds(IndexReachesAlive, sorted, keys, nms, ndet);
    KeyedOwnClasses(sorted);
    out := PadTo(Compact(sorted, keep), ndet);
  }

  /** Every output slot is zero or a whole non-zero input candidate. */
  lemma NmsOutputsFromInputs(cands: seq<Candidate>, order: seq<nat>, nms: real, ndet: nat)
    requires IsPermutation(order, |NonZero(cands)|)
    ensures var r := NmsResult(cands, order, nms, ndet);
      forall k :: 0 <= k < ndet ==> r[k] == Empty || (r[k] in cands && r[k].score != 0.0)
  {
    var nz := NonZero(cands);
    var r := NmsResult(cands, order, nms, ndet);
    if |nz| > 0 {
      var s := Permute(nz, order);
      var keys := RoundedKeys(nz);
      NonZeroFromInput(cands);
      MaskNmsRows(IndexReachesAlive, s, keys, ClassesOf(s), nms, ndet);
      forall k | 0 <= k < ndet && r[k] != Empty
        ensures r[k] in cands && r[k].score != 0.0
      {
        assert k < KeptCount(IndexReachesAlive, s, keys, nms, ndet);
        assert KeptRow(IndexReachesAlive, s, keys, ClassesOf(s), nms, ndet, k);
        var j :| 0 <= j < |s| && FinalKeep(IndexReachesAlive, s, keys, nms, ndet)[j]
          && r[k] == Candidate(s[j].score, s[j].box, ClassesOf(s)[j]);
        assert r[k] == s[j] == nz[order[j]];
      }
    }
  }

  /** The filled slots come in non-increasing score; zero slots follow. */
  lemma NmsDescending(cands: seq<Candidate>, order: seq<nat>, nms: real, ndet: nat)
    requires IsPermutation(order, |NonZero(cands)|)
    requires DescendingBy(Scores(NonZero(cands)), order)
    ensures var r := NmsResult(cands, order, nms, ndet);
      var m := |NonZero(cands)|;
      NonIncreasing(Scores(r[..IMin(ndet, if m == 0 then 0 else
        KeptCount(IndexReachesAlive, Permute(NonZero(cands), order), RoundedKeys(NonZero(cands)), nms, ndet))]))
  {
    var nz := NonZero(cands);
    if |nz| > 0 {
      var s := Permute(nz, order);
      SortedScores(nz, order);
      MaskNmsDescending(IndexReachesAlive, s, RoundedKeys(nz), ClassesOf(s), nms, ndet);
    }
  }

  /** With every score zero the output is all zero. */
  lemma NmsAllZero(cands: seq<Candidate>, order: seq<nat>, nms: real, ndet: nat)
    requires IsPermutation(order, |NonZero(cands)|)
    requires forall k :: 0 <= k < |cands| ==> cands[k].score == 0.0
    ensures NmsResult(cands, order, nms, ndet) == Zeros(ndet)
  {
    CountExtremes(NonZeroMask(cands));
  }

  /** Round structure under the torch guard: the rounds that ran stop at
      `ndet`, at the number of candidates, or once the round index reaches
      the number still alive; a sorted candidate is kept iff every round
      that ran spared it. */
  lemma NmsRounds(cands: seq<Candidate>, order: seq<nat>, nms: real, ndet: nat, j: nat)
    requires IsPermutation(order, |NonZero(cands)|) && j < |NonZero(cands)|
    ensures var nz := NonZero(cands);
      var s := Permute(nz, order);
      var keys := RoundedKeys(nz);
      var rounds := RoundsRun(IndexReachesAlive, AllTrue(|s|), s, keys, nms, 0, ndet);
      && rounds <= ndet && rounds <= |s|
      && (rounds == ndet || rounds == |s| || rounds >= KeptCount(IndexReachesAlive, s, keys, nms, ndet))
      && (FinalKeep(IndexReachesAlive, s, keys, nms, ndet)[j] <==>
            forall i :: 0 <= i < rounds ==> Survives(s, keys, nms, i, j))
  {
    var nz := NonZero(cands);
    var s := Permute(nz, order);
    var keys := RoundedKeys(nz);
    RunRoundsExact(IndexReachesAlive, AllTrue(|s|), s, keys, nms, 0, ndet, j);
    RunRoundsStops(IndexReachesAlive, AllTrue(|s|), s, keys, nms, 0, ndet);
  }

  /** Two identical candidates, at any threshold below 1 and with at least
      one slot: round 0 clears the second, and round 1 does not run because
      only one candidate is alive, so exactly one copy is kept (contrast
      the NumPy guard, where both vanish). */
  lemma TiedTwinsKeepOne(c: Candidate, order: seq<nat>, nms: real, ndet: nat)
    requires c.score > 0.0 && c.box.x1 <= c.box.x2 && c.box.y1 <= c.box.y2
    requires nms < 1.0 && ndet >= 1
    requires IsPermutation(order, |NonZero([c, c])|)
    ensures NmsResult([c, c], order, nms, ndet) == [c] + Zeros(ndet - 1)
  {
    TwinNonZero(c);
    PermuteTwins(c, order);
    var key := RoundedClass(c.cls);
    TwinRoundedKeys(c);
    SelfOverlap(c.box, nms);
    TwinsKeepFirst(c, key, nms, ndet);
    FirstKept(c, [key, key], nms, ndet);
    assert NmsResult([c, c], order, nms, ndet)
        == MaskNms(IndexReachesAlive, [c, c], [key, key], ClassesOf([c, c]), nms, ndet);
  }

  lemma TwinRoundedKeys(c: Candidate)
    ensures RoundedKeys([c, c]) == [RoundedClass(c.cls), RoundedClass(c.cls)]
  {
  }

  lemma TwinNonZero(c: Candidate)
    requires c.score > 0.0
    ensures NonZero([c, c]) == [c, c]
  {
    var cands := [c, c];
    var mask := NonZeroMask(cands);
    assert mask == [true, true];
    assert Compact(cands[1..][1..], mask[1..][1..]) == [];
    assert Compact(cands[1..], mask[1..]) == [c];
  }

  /** A mask keeping only the first of two rows leaves that row and zero
      slots. */
  lemma FirstKept(c: Candidate, keys: seq<real>, nms: real, ndet: nat)
    requires |keys| == 2 && ndet >= 1
    requires FinalKeep(IndexReachesAlive, [c, c], keys, nms, ndet) == [true, false]
    ensures MaskNms(IndexReachesAlive, [c, c], keys, ClassesOf([c, c]), nms, ndet) == [c] + Zeros(ndet - 1)
  {
    var s := [c, c];
    var k1 := [true, false];
    KeyedOwnClasses(s);
    assert Compact(s[1..], k1[1..]) == [];
    assert Compact(s, k1) == [c];
    assert PadTo([c], ndet) == [c] + Zeros(ndet - 1);
  }

  /** The keys are not permuted with the rows: with three candidates on one
      box, of scores 0.5, 0.9 and 0.7 and classes 1, 1 and 2, the class-2
      row is suppressed by the class-1 leader while the other class-1 row
      survives beside it. */
  lemma MisalignedKeys(order: seq<nat>)
    requires var b := Box(0.0, 0.0, 9.0, 9.0);
      IsPermutation(order, |NonZero([Candidate(0.5, b, 1.0), Candidate(0.9, b, 1.0), Candidate(0.7, b, 2.0)])|)
    requires var b := Box(0.0, 0.0, 9.0, 9.0);
      DescendingBy(Scores(NonZero([Candidate(0.5, b, 1.0), Candidate(0.9, b, 1.0), Candidate(0.7, b, 2.0)])), order)
    ensures var b := Box(0.0, 0.0, 9.0, 9.0);
      NmsResult([Candidate(0.5, b, 1.0), Candidate(0.9, b, 1.0), Candidate(0.7, b, 2.0)], order, 0.5, 6)
        == [Candidate(0.9, b, 1.0), Candidate(0.5, b, 1.0)] + Zeros(4)
  {
    var b := Box(0.0, 0.0, 9.0, 9.0);
    var ca, cb, cc := Candidate(0.5, b, 1.0), Candidate(0.9, b, 1.0), Candidate(0.7, b, 2.0);
    var cands := [ca, cb, cc];
    ThreeNonZero(ca, cb, cc);
    ForcedOrder(order);
    var s := Permute(cands, order);
    assert s == [cb, cc, ca];
    var keys := RoundedKeys(cands);
    RoundedSmall();
    assert keys == [1.0, 1.0, 2.0];
    MisalignedMask(b, ca, cb, cc);
    MisalignedRows(ca, cb, cc);
    KeptTwoOfThree(ca, cb, cc);
    assert NmsResult(cands, order, 0.5, 6)
        == MaskNms(IndexReachesAlive, [cb, cc, ca], [1.0, 1.0, 2.0], ClassesOf([cb, cc, ca]), 0.5, 6);
  }

  /** The rounds of the example: round 0 clears the class-1 runner-up's
      neighbour of class 2 only, and round 1 stops with two rows alive. */
  lemma MisalignedMask(b: Box, ca: Candidate, cb: Candidate, cc: Candidate)
    requires b == Box(0.0, 0.0, 9.0, 9.0)
    requires ca == Candidate(0.5, b, 1.0) && cb == Candidate(0.9, b, 1.0) && cc == Candidate(0.7, b, 2.0)
    ensures FinalKeep(IndexReachesAlive, [cb, cc, ca], [1.0, 1.0, 2.0], 0.5, 6) == [true, false, true]
  {
    var s := [cb, cc, ca];
    var keys := [1.0, 1.0, 2.0];
    SelfOverlap(b, 0.5);
    var k1 := ApplyRound(AllTrue(3), s, keys, 0.5, 0);
    assert k1 == [true, false, true];
    var k2 := ApplyRound(k1, s, keys, 0.5, 1);
    assert k2 == [true, false, true];
    assert Count(k2[1..][1..]) == 1;
    assert Count(k2) == 2;
    assert Count(AllTrue(3)) == 3 by {
      CountExtremes(AllTrue(3));
    }
    assert RunRounds(IndexReachesAlive, AllTrue(3), s, keys, 0.5, 0, 6)
        == RunRounds(IndexReachesAlive, k2, s, keys, 0.5, 2, 6);
  }

  lemma KeptTwoOfThree(ca: Candidate, cb: Candidate, cc: Candidate)
    ensures PadTo(Compact([cb, cc, ca], [true, false, true]), 6) == [cb, ca] + Zeros(4)
  {
    var s := [cb, cc, ca];
    var k := [true, false, true];
    assert Compact(s[1..][1..], k[1..][1..]) == [ca];
    assert Compact(s[1..], k[1..]) == [ca];
    assert Compact(s, k) == [cb, ca];
  }

  /** The kept rows of the example, padded to six slots. */
  lemma MisalignedRows(ca: Candidate, cb: Candidate, cc: Candidate)
    ensures MaskNms(IndexReachesAlive, [cb, cc, ca], [1.0, 1.0, 2.0], ClassesOf([cb, cc, ca]), 0.5, 6)
         == PadTo(Compact([cb, cc, ca], FinalKeep(IndexReachesAlive, [cb, cc, ca], [1.0, 1.0, 2.0], 0.5, 6)), 6)
  {
    KeyedOwnClasses([cb, cc, ca]);
  }

  lemma ThreeNonZero(a: Candidate, b: Candidate, c: Candidate)
    requires a.score != 0.0 && b.score != 0.0 && c.score != 0.0
    ensures NonZero([a, b, c]) == [a, b, c]
  {
    var cands := [a, b, c];
    var mask := NonZeroMask(cands);
    assert mask == [true, true, true];
    assert Compact(cands[1..][1..][1..], mask[1..][1..][1..]) == [];
    assert Compact(cands[1..][1..], mask[1..][1..]) == [c];
    assert Compact(cands[1..], mask[1..]) == [b, c];
  }

  /** Scores 0.5, 0.9, 0.7 have exactly one descending order. */
  lemma ForcedOrder(order: seq<nat>)
    requires IsPermutation(order, 3)
    requires DescendingBy([0.5, 0.9, 0.7], order)
    ensures order == [1, 2, 0]
  {
    var xs := [0.5, 0.9, 0.7];
    assert 1 in order && 2 in order && 0 in order;
    var i1 :| 0 <= i1 < 3 && order[i1] == 1;
    var i2 :| 0 <= i2 < 3 && order[i2] == 2;
    var i0 :| 0 <= i0 < 3 && order[i0] == 0;
    assert i1 < i2 && i2 < i0;
  }

  lemma RoundedSmall()
    ensures RoundedClass(1.0) == 1.0 && RoundedClass(2.0) == 2.0
  {
    assert RoundHalfEven(10.0) == 10;
    assert RoundHalfEven(20.0) == 20;
  }

  // ------------------------------------------------------------ _nms_bak

  /** Row `a` may stay beside pivot `b`: small overlap or another class. */
  predicate Apart(a: Candidate, b: Candidate, nms: real)
  {
    IouAtMost(a.box, b.box, nms) || a.cls != b.cls
  }

  lemma ApartSymmetric(a: Candidate, b: Candidate, nms: real)
    ensures Apart(a, b, nms) <==> Apart(b, a, nms)
  {
    IouSymmetric(a.box, b.box, nms);
  }

  /** `criterion` of round i over the current (already compacted) rows. */
  function BakCriterion(cur: seq<Candidate>, i: nat, nms: real): (r: seq<bool>)
    requires i < |cur|
    ensures |r| == |cur|
    ensures forall j :: 0 <= j < |cur| ==>
      (r[j] <==> j == i || cur[j].score > cur[i].score || Apart(cur[j], cur[i], nms))
  {
    seq(|cur|, j requires 0 <= j < |cur| =>
      j == i || cur[j].score > cur[i].score || Apart(cur[j], cur[i], nms))
  }

  /** Every row after one of the first `rounds` pivots is apart from it. */
  predicate ApartFrom(cur: seq<Candidate>, rounds: nat, nms: real)
  {
    forall p, q :: 0 <= p < rounds && p < q < |cur| ==> Apart(cur[q], cur[p], nms)
  }

  /** One compacting round on sorted rows: the pivot and every earlier
      pivot survive, order is kept, and the new pivot joins the earlier
      ones in being apart from every later row. */
  lemma {:induction false} BakRound(cur: seq<Candidate>, i: nat, nms: real)
    requires i < |cur| && NonIncreasing(Scores(cur)) && ApartFrom(cur, i, nms)
    ensures var next := Compact(cur, BakCriterion(cur, i, nms));
      && |next| > i
      && (forall p :: 0 <= p <= i ==> next[p] == cur[p])
      && NonIncreasing(Scores(next))
      && ApartFrom(next, i + 1, nms)
      && (forall c :: c in next ==> c in cur)
  {
    var m := BakCriterion(cur, i, nms);
    forall p | 0 <= p <= i
      ensures m[p]
    {
      if p < i {
        assert Apart(cur[i], cur[p], nms);
        ApartSymmetric(cur[i], cur[p], nms);
      }
    }
    CompactPrefix(cur, m, i + 1);
    var next := Compact(cur, m);
    CompactMap(cur, Scores(cur), m, (c: Candidate) => c.score);
    CompactKeepsOrder(Scores(cur), m);
    assert Scores(next) == Compact(Scores(cur), m);
    forall p, q | 0 <= p < i + 1 && p < q < |next|
      ensures Apart(next[q], next[p], nms)
    {
      CompactSource(cur, m, q);
      var j :| q <= j < |cur| && m[j] && next[q] == cur[j];
      assert next[p] == cur[p];
      if p == i {
        assert Scores(cur)[i] >= Scores(cur)[j];
      }
    }
    forall c | c in next
      ensures c in cur
    {
      var k :| 0 <= k < |next| && next[k] == c;
      CompactSource(cur, m, k);
    }
  }

  /** The rows of `rs` that may stay beside pivot `p`, in their order. */
  function ApartRows(rs: seq<Candidate>, p: Candidate, nms: real): (r: seq<Candidate>)
    ensures |r| <= |rs|
    ensures forall c :: c in r <==> c in rs && Apart(c, p, nms)
  {
    if |rs| == 0 then []
    else
      assert forall c :: c in rs <==> c == rs[0] || c in rs[1..];
      (if Apart(rs[0], p, nms) then [rs[0]] else []) + ApartRows(rs[1..], p, nms)
  }

  /** Greedy suppression over rows in descending score order: the top row
      is kept, every later row that clashes with it is dropped, and the same
      goes on over the rows left. */
  function Greedy(rows: seq<Candidate>, nms: real): (r: seq<Candidate>)
    ensures |r| <= |rows|
    ensures forall c :: c in r ==> c in rows
    ensures |rows| > 0 ==> |r| > 0 && r[0] == rows[0]
    decreases |rows|
  {
    if |rows| == 0 then []
    else [rows[0]] + Greedy(ApartRows(rows[1..], rows[0], nms), nms)
  }

  /** The rows greedy suppression keeps are pairwise apart. */
  lemma {:induction false} GreedyApart(rows: seq<Candidate>, nms: real)
    ensures var g := Greedy(rows, nms);
      forall p, q :: 0 <= p < q < |g| ==> Apart(g[q], g[p], nms)
    decreases |rows|
  {
    if |rows| > 0 {
      var rest := ApartRows(rows[1..], rows[0], nms);
      GreedyApart(rest, nms);
      var g := Greedy(rows, nms);
      forall p, q | 0 <= p < q < |g|
        ensures Apart(g[q], g[p], nms)
      {
        assert g[q] == Greedy(rest, nms)[q - 1];
        if p > 0 {
          assert g[p] == Greedy(rest, nms)[p - 1];
        } else {
          assert g[q] in Greedy(rest, nms);
        }
      }
    }
  }

  /** Greedy suppression drops a row only for a clash with a kept row:
      every input row is kept or overlaps a kept row of its class. */
  lemma {:induction false} GreedyMaximal(rows: seq<Candidate>, nms: real, c: Candidate)
    requires c in rows
    ensures var g := Greedy(rows, nms);
      c in g || exists k :: 0 <= k < |g| && !Apart(c, g[k], nms)
    decreases |rows|
  {
    var g := Greedy(rows, nms);
    if c != rows[0] {
      var rest := ApartRows(rows[1..], rows[0], nms);
      assert c in rows[1..] by {
        var j :| 0 <= j < |rows| && rows[j] == c;
        assert rows[1..][j - 1] == c;
      }
      if Apart(c, rows[0], nms) {
        GreedyMaximal(rest, nms, c);
        var h := Greedy(rest, nms);
        assert g == [rows[0]] + h;
        if c !in h {
          var k :| 0 <= k < |h| && !Apart(c, h[k], nms);
          assert g[k + 1] == h[k];
        }
      } else {
        assert g[0] == rows[0];
      }
    }
  }

  /** `keep[(~criterion).nonzero()] = 0`: the marks at the positions the
      criterion drops are cleared; marks past the criterion stay. */
  function Cleared(keep: seq<bool>, criterion: seq<bool>): (r: seq<bool>)
    ensures |r| == |keep|
    ensures forall j :: 0 <= j < |keep| ==> (r[j] <==> keep[j] && (j >= |criterion| || criterion[j]))
  {
    seq(|keep|, j requires 0 <= j < |keep| => keep[j] && (j >= |criterion| || criterion[j]))
  }

  /** Clearing takes off at most as many marks as the criterion drops, so
      at least as many marks stay set as rows stay. */
  lemma {:induction false} ClearedCount(keep: seq<bool>, criterion: seq<bool>)
    requires |criterion| <= |keep|
    ensures Count(Cleared(keep, criterion)) + |criterion| >= Count(keep) + Count(criterion)
  {
    var c := Cleared(keep, criterion);
    if |criterion| == 0 {
      assert c == keep;
    } else {
      assert c[1..] == Cleared(keep[1..], criterion[1..]);
      ClearedCount(keep[1..], criterion[1..]);
    }
  }

  /** Compacting by a mask that keeps exactly the rows apart from `p`. */
  lemma {:induction false} CompactApart(xs: seq<Candidate>, m: seq<bool>, p: Candidate, nms: real)
    requires |xs| == |m|
    requires forall k :: 0 <= k < |xs| ==> (m[k] <==> Apart(xs[k], p, nms))
    ensures Compact(xs, m) == ApartRows(xs, p, nms)
  {
    if |xs| > 0 {
      CompactApart(xs[1..], m[1..], p, nms);
    }
  }

  /** On sorted rows whose first i pivots are apart from every later row,
      round i keeps the first i + 1 rows and exactly the later rows that
      are apart from its pivot. */
  lemma RoundMask(cur: seq<Candidate>, i: nat, nms: real)
    requires i < |cur| && NonIncreasing(Scores(cur)) && ApartFrom(cur, i, nms)
    ensures var crit := BakCriterion(cur, i, nms);
      (forall p :: 0 <= p <= i ==> crit[p])
      && forall k :: i < k < |cur| ==> (crit[k] <==> Apart(cur[k], cur[i], nms))
  {
    var crit := BakCriterion(cur, i, nms);
    forall p | 0 <= p < i
      ensures crit[p]
    {
      assert Apart(cur[i], cur[p], nms);
      ApartSymmetric(cur[i], cur[p], nms);
    }
    forall k | i < k < |cur|
      ensures !(cur[k].score > cur[i].score)
    {
      assert Scores(cur)[i] >= Scores(cur)[k];
    }
  }

  /** Round i as a whole: the first i + 1 rows, then the later rows apart
      from the pivot. */
  lemma RoundCompact(cur: seq<Candidate>, i: nat, nms: real)
    requires i < |cur| && NonIncreasing(Scores(cur)) && ApartFrom(cur, i, nms)
    ensures Compact(cur, BakCriterion(cur, i, nms)) == cur[..i + 1] + ApartRows(cur[i + 1..], cur[i], nms)
  {
    var crit := BakCriterion(cur, i, nms);
    RoundMask(cur, i, nms);
    var tail := cur[i + 1..];
    var m := crit[i + 1..];
    forall k | 0 <= k < |tail|
      ensures m[k] <==> Apart(tail[k], cur[i], nms)
    {
      assert m[k] == crit[i + 1 + k] && tail[k] == cur[i + 1 + k];
    }
    CompactApart(tail, m, cur[i], nms);
    CompactSkip(cur, crit, i + 1);
  }

  /** Rows that are the first i greedy rows followed by the rows still
      apart from all of them: the next pivot is the next greedy row, and
      keeping the later rows apart from it leaves the first i + 1 greedy
      rows followed by the rows greedy suppression goes on with. */
  lemma GreedyRound(cur: seq<Candidate>, g: seq<Candidate>, rest: seq<Candidate>, i: nat, nms: real)
    requires i <= |g| && cur == g[..i] + rest && Greedy(rest, nms) == g[i..] && i < |cur|
    ensures |g| > i && |rest| > 0
    ensures cur[..i + 1] + ApartRows(cur[i + 1..], cur[i], nms) == g[..i + 1] + ApartRows(rest[1..], rest[0], nms)
    ensures Greedy(ApartRows(rest[1..], rest[0], nms), nms) == g[i + 1..]
  {
    assert cur[i] == rest[0] && cur[i + 1..] == rest[1..];
    var h := Greedy(ApartRows(rest[1..], rest[0], nms), nms);
    assert g[i..] == [rest[0]] + h;
    assert g[i] == rest[0] && g[i + 1..] == h;
    assert cur[..i + 1] == g[..i + 1];
  }

  /** What holds between the rounds of `_nms_bak`: the rows are the first
      `rounds` greedy rows followed by the rows greedy suppression goes on
      with, at least as many marks are set as rows are left, and the rows
      stay sorted, drawn from the input and apart from every pivot so far. */
  predicate BakState(sorted: seq<Candidate>, cur: seq<Candidate>, rest: seq<Candidate>,
                     keep: seq<bool>, rounds: nat, nms: real)
  {
    && rounds <= |Greedy(sorted, nms)|
    && cur == Greedy(sorted, nms)[..rounds] + rest
    && Greedy(rest, nms) == Greedy(sorted, nms)[rounds..]
    && |keep| == |sorted| && Count(keep) >= |cur|
    && NonIncreasing(Scores(cur)) && ApartFrom(cur, rounds, nms)
    && (forall c :: c in cur ==> c in sorted)
    && |cur| > 0 && cur[0] == sorted[0]
  }

  /** One round that runs keeps the state. */
  lemma BakStep(sorted: seq<Candidate>, cur: seq<Candidate>, rest: seq<Candidate>,
                keep: seq<bool>, rounds: nat, nms: real)
    requires BakState(sorted, cur, rest, keep, rounds, nms) && rounds < |cur|
    ensures var criterion := BakCriterion(cur, rounds, nms);
      |criterion| <= |keep|
      && BakState(sorted, Compact(cur, criterion), ApartRows(rest[1..], rest[0], nms),
                  Cleared(keep, criterion), rounds + 1, nms)
  {
    var criterion := BakCriterion(cur, rounds, nms);
    BakRound(cur, rounds, nms);
    RoundCompact(cur, rounds, nms);
    GreedyRound(cur, Greedy(sorted, nms), rest, rounds, nms);
    ClearedCount(keep, criterion);
    var next := Compact(cur, criterion);
    forall c | c in next
      ensures c in sorted
    {
      assert c in cur;
    }
  }

  /** The round loop of `_nms_bak` on the sorted rows: each round compacts
      the rows and zeroes the `keep` marks at the compacted positions it
      dropped, until the round index reaches the marks left, the rows left
      or `ndetections`. The rows written out are the first greedy rows. */
  method BakRounds(sorted: seq<Candidate>, nms: real, ndet: nat) returns (cur: seq<Candidate>, rounds: nat)
    requires |sorted| > 0 && ndet > 0 && NonIncreasing(Scores(sorted))
    ensures 1 <= rounds <= ndet && rounds <= |cur|
    ensures rounds == ndet || rounds == |Greedy(sorted, nms)|
    ensures rounds <= |Greedy(sorted, nms)| && cur[..rounds] == Greedy(sorted, nms)[..rounds]
    ensures NonIncreasing(Scores(cur)) && ApartFrom(cur, rounds, nms)
    ensures forall c :: c in cur ==> c in sorted
    ensures cur[0] == sorted[0]
  {
    var n := |sorted|;
    ghost var rest := sorted;
    cur := sorted;
    var keep := AllTrue(n);
    CountExtremes(keep);
    rounds := 0;
    while rounds < ndet
      invariant rounds <= ndet && rounds <= |cur|
      invariant BakState(sorted, cur, rest, keep, rounds, nms)
    {
      if rounds >= Count(keep) || rounds >= |cur| {
        break;
      }
      var criterion := BakCriterion(cur, rounds, nms);
      BakStep(sorted, cur, rest, keep, rounds, nms);
      keep := Cleared(keep, criterion);
      cur := Compact(cur, criterion);
      rest := ApartRows(rest[1..], rest[0], nms);
      rounds := rounds + 1;
    }
    assert cur[..rounds] == Greedy(sorted, nms)[..rounds];
  }

  /** `_nms_bak` for one batch: each round compacts the rows and zeroes the
      `keep` marks at the compacted positions it dropped; the loop breaks
      once the round index reaches the number of marks left or the number
      of rows, and the first `i + 1` rows are written out. With no round at
      all (`ndetections == 0`) the loop variable is never bound and the
      call fails (None). The rows written out are those of greedy
      suppression over the positive rows in descending order. */
  method NmsBak(cands: seq<Candidate>, nms: real, ndet: nat) returns (r: Option<seq<Candidate>>, order: seq<nat>)
    ensures IsPermutation(order, |Positives(cands)|)
    ensures DescendingBy(Scores(Positives(cands)), order)
    ensures r.None? <==> ndet == 0 && |Positives(cands)| > 0
    ensures r.Some? ==> r.value == PadTo(Greedy(Permute(Positives(cands), order), nms), ndet)
    ensures r.Some? ==> |r.value| == ndet && NonIncreasing(Scores(r.value))
    ensures r.Some? ==> forall k :: 0 <= k < ndet ==>
      r.value[k] == Empty || (r.value[k] in cands && r.value[k].score > 0.0)
    ensures r.Some? ==> forall p, q :: 0 <= p < q < ndet && r.value[q] != Empty ==>
      r.value[p] != Empty && Apart(r.value[q], r.value[p], nms)
    ensures r.Some? && ndet > 0 && |Positives(cands)| > 0 ==>
      r.value[0] == Positives(cands)[order[0]]
  {
    var pos := Positives(cands);
    if |pos| == 0 {
      r := Some(Zeros(ndet));
      order := [];
      NoRowsPad(cands, order, nms, ndet);
      return;
    }
    order := ArgsortDescending(Scores(pos));
    if ndet == 0 {
      r := None;
      return;
    }
    var sorted := Permute(pos, order);
    SortedScores(pos, order);
    SortedFromInput(cands, order);
    var cur, rounds := BakRounds(sorted, nms, ndet);
    BakOutput(cands, sorted, cur, rounds, ndet, nms);
    r := Some(PadTo(cur[..rounds], ndet));
  }

  /** With no positive row, greedy suppression keeps nothing and the
      output is all zero. */
  lemma NoRowsPad(cands: seq<Candidate>, order: seq<nat>, nms: real, n: nat)
    requires Positives(cands) == [] && order == []
    ensures IsPermutation(order, 0) && DescendingBy(Scores(Positives(cands)), order)
    ensures Zeros(n) == PadTo(Greedy(Permute(Positives(cands), order), nms), n)
    ensures NonIncreasing(Scores(Zeros(n)))
    ensures forall k :: 0 <= k < n ==> Zeros(n)[k] == Empty
  {
    assert Permute(Positives(cands), order) == [];
  }

  /** Padding the first min(n, |g|) rows of g is padding g. */
  lemma GreedyPrefix(g: seq<Candidate>, w: seq<Candidate>, n: nat)
    requires |w| <= |g| && w == g[..|w|] && (|w| == n || |w| == |g|)
    ensures PadTo(w, n) == PadTo(g, n)
  {
    assert forall k :: 0 <= k < n ==> PadTo(w, n)[k] == PadTo(g, n)[k];
  }

  /** The sorted positive rows are rows of the input with positive scores. */
  lemma SortedFromInput(cands: seq<Candidate>, order: seq<nat>)
    requires IsPermutation(order, |Positives(cands)|)
    ensures forall c :: c in Permute(Positives(cands), order) ==> c in cands && c.score > 0.0
  {
    var pos := Positives(cands);
    PositivesFromInput(cands);
    forall c | c in Permute(pos, order)
      ensures c in cands && c.score > 0.0
    {
      var k :| 0 <= k < |order| && Permute(pos, order)[k] == c;
      assert c == pos[order[k]];
    }
  }

  /** The written prefix inherits order and separation from the rows. */
  lemma BakOutput(cands: seq<Candidate>, sorted: seq<Candidate>, cur: seq<Candidate>, rounds: nat, ndet: nat, nms: real)
    requires 0 < rounds <= ndet && rounds <= |cur|
    requires rounds <= |Greedy(sorted, nms)| && cur[..rounds] == Greedy(sorted, nms)[..rounds]
    requires rounds == ndet || rounds == |Greedy(sorted, nms)|
    requires NonIncreasing(Scores(cur)) && ApartFrom(cur, rounds, nms)
    requires forall c :: c in cur ==> c in cands && c.score > 0.0
    ensures var out := PadTo(cur[..rounds], ndet);
      && out == PadTo(Greedy(sorted, nms), ndet)
      && NonIncreasing(Scores(out))
      && (forall k :: 0 <= k < ndet ==> out[k] == Empty || (out[k] in cands && out[k].score > 0.0))
      && (forall p, q :: 0 <= p < q < ndet && out[q] != Empty ==> out[p] != Empty && Apart(out[q], out[p], nms))
      && out[0] == cur[0]
  {
    var out := PadTo(cur[..rounds], ndet);
    forall p, q | 0 <= p < q < ndet
      ensures out[p].score >= out[q].score
    {
      if q < rounds {
        assert Scores(cur)[p] >= Scores(cur)[q];
      } else if p < rounds {
        assert cur[p] in cur;
      }
    }
    forall k | 0 <= k < ndet && out[k] != Empty
      ensures out[k] in cands && out[k].score > 0.0
    {
      assert cur[k] in cur;
    }
    forall p, q | 0 <= p < q < ndet && out[q] != Empty
      ensures out[p] != Empty && Apart(out[q], out[p], nms)
    {
      assert cur[p] in cur;
    }
    GreedyPrefix(Greedy(sorted, nms), cur[..rounds], ndet);
  }

  // ------------------------------------------------------------- _decode

  /** Flat index of `box_head.view(A, 4, H, W)[a, c, y, x]`. */
  function BoxIndex(a: nat, c: nat, y: nat, x: nat, height: nat, width: nat): nat
  {
    ((a * 4 + c) * height + y) * width + x
  }

  /** The gather always stays inside the box head. */
  lemma GatherBound(a: nat, c: nat, y: nat, x: nat, numAnchors: nat, height: nat, width: nat)
    requires a < numAnchors && c < 4 && y < height && x < width
    ensures BoxIndex(a, c, y, x, height, width) < 4 * numAnchors * height * width
  {
    var u := a * 4 + c;
    assert u + 1 <= 4 * numAnchors;
    MulMono(height, u + 1, 4 * numAnchors);
    var v := u * height + y;
    assert v + 1 <= (u + 1) * height;
    assert v + 1 <= 4 * numAnchors * height;
    MulMono(width, v + 1, 4 * numAnchors * height);
    assert v * width + x + 1 <= (v + 1) * width;
  }

  /** `box_head[a, :, y, x]`: the four deltas of a cell, one per channel
      plane of its anchor. */
  function GatherDeltas(h: Head, numAnchors: nat, cell: Cell): Deltas
    requires WellShaped(h, numAnchors)
    requires cell.anchor < numAnchors && cell.y < h.height && cell.x < h.width
  {
    GatherBound(cell.anchor, 0, cell.y, cell.x, numAnchors, h.height, h.width);
    GatherBound(cell.anchor, 1, cell.y, cell.x, numAnchors, h.height, h.width);
    GatherBound(cell.anchor, 2, cell.y, cell.x, numAnchors, h.height, h.width);
    GatherBound(cell.anchor, 3, cell.y, cell.x, numAnchors, h.height, h.width);
    Deltas(h.box[BoxIndex(cell.anchor, 0, cell.y, cell.x, h.height, h.width)],
           h.box[BoxIndex(cell.anchor, 1, cell.y, cell.x, h.height, h.width)],
           h.box[BoxIndex(cell.anchor, 2, cell.y, cell.x, h.height, h.width)],
           h.box[BoxIndex(cell.anchor, 3, cell.y, cell.x, h.height, h.width)])
  }

  /** One decoded row: the score at k, the box from k's cell deltas and
      anchor, and the real class of k. */
  function DecodeRow(h: Head, anchors: seq<Box>, stride: nat, k: nat, exp: real -> real): Candidate
    requires WellShaped(h, |anchors|) && k < |h.cls|
  {
    var cell := CellOf(h, |anchors|, k);
    var grid := Grid(anchors[cell.anchor], cell.x, cell.y, stride);
    Candidate(h.cls[k], Delta2Box(GatherDeltas(h, |anchors|, cell), grid, h.width, h.height, stride, exp), cell.cls)
  }

  function DecodeSelected(h: Head, anchors: seq<Box>, stride: nat, sel: seq<nat>, exp: real -> real): (r: seq<Candidate>)
    requires WellShaped(h, |anchors|) && forall t :: 0 <= t < |sel| ==> sel[t] < |h.cls|
    ensures |r| == |sel|
  {
    seq(|sel|, t requires 0 <= t < |sel| => DecodeRow(h, anchors, stride, sel[t], exp))
  }

  /** `_decode` for one head and batch 0: the selected rows written into
      `top_n` zeroed slots; unlike the NumPy gather, this one cannot fail. */
  method Decode(h: Head, anchors: seq<Box>, stride: nat, thr: real, topN: nat, exp: real -> real)
    returns (out: seq<Candidate>, sel: seq<nat>)
    requires WellShaped(h, |anchors|)
    ensures TopSelection(h.cls, thr, topN, sel)
    ensures out == PadTo(DecodeSelected(h, anchors, stride, sel, exp), topN)
  {
    sel := SelectTop(h.cls, thr, topN);
    out := PadTo(DecodeSelected(h, anchors, stride, sel, exp), topN);
  }

  /** The `top_n` slots: the selected rows first, each with the score of
      its position (at least the threshold), the real class whose floor is
      the position's class channel and (for a stride of at least 1) a box
      inside the feature map, then zero slots; scores never increase. */
  lemma DecodeSlots(h: Head, anchors: seq<Box>, stride: nat, thr: real, topN: nat, sel: seq<nat>, exp: real -> real)
    requires WellShaped(h, |anchors|) && TopSelection(h.cls, thr, topN, sel) && thr >= 0.0
    ensures var out := PadTo(DecodeSelected(h, anchors, stride, sel, exp), topN);
      && |out| == topN && |sel| <= topN
      && NonIncreasing(Scores(out))
      && (forall t :: |sel| <= t < topN ==> out[t] == Empty)
      && forall t :: 0 <= t < |sel| ==>
           && out[t].score == h.cls[sel[t]] >= thr
           && out[t].cls.Floor == (sel[t] / (h.width * h.height)) % NumClasses(h, |anchors|)
           && (stride >= 1 ==> InsideMap(out[t].box, h.width, h.height, stride))
  {
    var out := PadTo(DecodeSelected(h, anchors, stride, sel, exp), topN);
    forall t | 0 <= t < |sel|
      ensures out[t].score == h.cls[sel[t]] >= thr
      ensures out[t].cls.Floor == (sel[t] / (h.width * h.height)) % NumClasses(h, |anchors|)
      ensures stride >= 1 ==> InsideMap(out[t].box, h.width, h.height, stride)
    {
      assert out[t] == DecodeRow(h, anchors, stride, sel[t], exp);
      RowFacts(h, anchors, stride, sel[t], exp);
    }
    var scores := Scores(out);
    forall p, q | 0 <= p < q < |scores|
      ensures scores[p] >= scores[q]
    {
      if q < |sel| {
        assert scores[p] == h.cls[sel[p]] && scores[q] == h.cls[sel[q]];
      } else if p < |sel| {
        assert scores[p] >= thr && scores[q] == 0.0;
      }
    }
  }

  /** One decoded row carries the score at its position, the non-negative
      class whose floor is the position's class channel, and (for a stride
      of at least 1) a box inside the feature map's pixel extent. */
  lemma RowFacts(h: Head, anchors: seq<Box>, stride: nat, k: nat, exp: real -> real)
    requires WellShaped(h, |anchors|) && k < |h.cls|
    ensures var row := DecodeRow(h, anchors, stride, k, exp);
      && row.score == h.cls[k]
      && row.cls >= 0.0
      && row.cls.Floor == (k / (h.width * h.height)) % NumClasses(h, |anchors|)
      && (stride >= 1 ==> InsideMap(row.box, h.width, h.height, stride))
  {
    MulMono(stride, 1, h.width);
    MulMono(stride, 1, h.height);
    ClassOfParts(k, h.width, h.height, NumClasses(h, |anchors|));
  }

  // ---------------------------------------------- _detection_postprocess

  /** A slot of the final list: zero, or a detection scoring at least 0.05
      with a non-negative (unrounded) class. */
  predicate Detection(c: Candidate)
  {
    c == Empty || (c.score >= 0.05 && c.cls >= 0.0)
  }

  /** NMS(0.5, 6) over decoded slots yields six detection slots in
      non-increasing score. */
  lemma NmsOfDecoded(all: seq<Candidate>, order: seq<nat>, out: seq<Candidate>)
    requires forall c :: c in all ==> Detection(c)
    requires IsPermutation(order, |NonZero(all)|)
    requires DescendingBy(Scores(NonZero(all)), order)
    requires out == NmsResult(all, order, 0.5, 6)
    ensures |out| == 6 && NonIncreasing(Scores(out))
    ensures forall k :: 0 <= k < 6 ==> Detection(out[k])
  {
    NmsOutputsFromInputs(all, order, 0.5, 6);
    NmsDescending(all, order, 0.5, 6);
    var nz := NonZero(all);
    var m := if |nz| == 0 then 0 else
      KeptCount(IndexReachesAlive, Permute(nz, order), RoundedKeys(nz), 0.5, 6);
    if |nz| > 0 {
      var s := Permute(nz, order);
      MaskNmsRows(IndexReachesAlive, s, RoundedKeys(nz), ClassesOf(s), 0.5, 6);
    }
    forall k | 0 <= k < 6
      ensures Detection(out[k])
    {
      assert out[k] == Empty || out[k] in all;
    }
    forall p, q | 0 <= p < q < 6
      ensures out[p].score >= out[q].score
    {
      var w := IMin(6, m);
      if q < w {
        assert Scores(out[..w])[p] >= Scores(out[..w])[q];
      } else {
        assert out[q] == Empty;
        assert Detection(out[p]);
      }
    }
  }

  /** Padded decode slots are all detections. */
  lemma DecodedAreDetections(h: Head, anchors: seq<Box>, stride: nat, topN: nat, sel: seq<nat>, exp: real -> real)
    requires WellShaped(h, |anchors|) && TopSelection(h.cls, 0.05, topN, sel)
    ensures forall c :: c in PadTo(DecodeSelected(h, anchors, stride, sel, exp), topN) ==> Detection(c)
  {
    var out := PadTo(DecodeSelected(h, anchors, stride, sel, exp), topN);
    forall c | c in out
      ensures Detection(c)
    {
      var t :| 0 <= t < |out| && out[t] == c;
      if t < |sel| {
        assert c == DecodeRow(h, anchors, stride, sel[t], exp);
        RowFacts(h, anchors, stride, sel[t], exp);
      }
    }
  }

  /** `_decode(cls_head, box_head, stride, 0.05, 1000, anchors[stride])`
      for head h with the anchors of its stride, given the selection its
      sort made: the `top_n` slots of that head. */
  function HeadOutput(imageWidth: nat, h: Head, sel: seq<nat>, m: Math): seq<Candidate>
    requires WellShaped(h, 9) && TopSelection(h.cls, 0.05, 1000, sel)
  {
    var stride := StrideOf(imageWidth, h);
    PadTo(DecodeSelected(h, StrideAnchors(stride, m), stride, sel, m.exp), 1000)
  }

  /** The slots of every head, in head order. */
  function AllSlots(imageWidth: nat, heads: seq<Head>, sels: seq<seq<nat>>, m: Math): seq<seq<Candidate>>
    requires AllShaped(heads) && HeadSelections(heads, sels)
  {
    seq(|heads|, i requires 0 <= i < |heads| => HeadOutput(imageWidth, heads[i], sels[i], m))
  }

  /** The loop of `_detection_postprocess`: every head is decoded with the
      anchors of its stride, generated once per distinct stride into a
      cache; an empty head adds `top_n` zero slots. `sels` are the
      selections the per-head sorts made; `generated` counts the calls to
      `_generate_anchors`. */
  method DecodeHeads(imageWidth: nat, heads: seq<Head>, m: Math)
    returns (decoded: seq<seq<Candidate>>, ghost sels: seq<seq<nat>>, ghost generated: nat)
    requires AllShaped(heads)
    ensures HeadSelections(heads, sels)
    ensures decoded == AllSlots(imageWidth, heads, sels, m)
    ensures generated == |Strides(imageWidth, heads)|
    ensures AllDetections(decoded)
    ensures NothingPasses(heads) ==> AllSilent(decoded)
  {
    StridesAll(imageWidth, heads);
    var cache: map<nat, seq<Box>> := map[];
    generated := 0;
    decoded := [];
    sels := [];
    var i := 0;
    while i < |heads|
      invariant 0 <= i <= |heads| && |decoded| == i && |sels| == i
      invariant cache.Keys == StridesOf(imageWidth, heads[..i])
      invariant generated == |cache.Keys|
      invariant forall st :: st in cache ==> cache[st] == StrideAnchors(st, m)
      invariant HeadSelections(heads[..i], sels)
      invariant decoded == AllSlots(imageWidth, heads[..i], sels, m)
      invariant AllDetections(decoded)
      invariant NothingPasses(heads) ==> AllSilent(decoded)
    {
      var h := heads[i];
      var stride := StrideOf(imageWidth, h);
      StridesStep(imageWidth, heads, i);
      var anchors;
      cache, anchors, generated := CachedAnchors(cache, stride, m, generated);
      assert WellShaped(h, |anchors|);
      ghost var quiet := NothingPasses(heads);
      if quiet {
        QuietHead(heads, i);
      }
      var rows, sel := DecodeHead(h, anchors, stride, m.exp, quiet);
      AppendSlots(decoded, rows, quiet);
      SlotsStep(imageWidth, heads, sels, sel, m, i);
      decoded := decoded + [rows];
      sels := sels + [sel];
      i := i + 1;
    }
    assert heads[..i] == heads;
  }

  /** Extending the slots by one head appends that head's output. */
  lemma SlotsStep(imageWidth: nat, heads: seq<Head>, sels: seq<seq<nat>>, sel: seq<nat>, m: Math, i: nat)
    requires AllShaped(heads) && i < |heads| && HeadSelections(heads[..i], sels)
    requires TopSelection(heads[i].cls, 0.05, 1000, sel)
    ensures HeadSelections(heads[..i + 1], sels + [sel])
    ensures AllSlots(imageWidth, heads[..i + 1], sels + [sel], m) ==
      AllSlots(imageWidth, heads[..i], sels, m) + [HeadOutput(imageWidth, heads[i], sel, m)]
  {
    assert forall j :: 0 <= j < i ==> heads[..i + 1][j] == heads[..i][j] && (sels + [sel])[j] == sels[j];
    assert heads[..i + 1][i] == heads[i];
  }

  /** One head of the loop: `_decode` at threshold 0.05 with `top_n` 1000;
      its slots are detections, and all zero when the head is quiet. */
  method DecodeHead(h: Head, anchors: seq<Box>, stride: nat, exp: real -> real, ghost quiet: bool)
    returns (rows: seq<Candidate>, sel: seq<nat>)
    requires WellShaped(h, |anchors|)
    requires quiet ==> forall k :: 0 <= k < |h.cls| ==> h.cls[k] < 0.05
    ensures TopSelection(h.cls, 0.05, 1000, sel)
    ensures rows == PadTo(DecodeSelected(h, anchors, stride, sel, exp), 1000)
    ensures Detections(rows) && (quiet ==> Silent(rows))
  {
    rows, sel := Decode(h, anchors, stride, 0.05, 1000, exp);
    HeadSlots(h, anchors, stride, sel, exp, quiet);
  }

  /** `_detection_postprocess`: the slots of all heads, in head order, go
      through NMS(0.5, 6), whose non-zero filter drops the zero slots;
      `order` is the descending sort NMS made. */
  method Postprocess(imageWidth: nat, heads: seq<Head>, m: Math)
    returns (r: seq<Candidate>, ghost sels: seq<seq<nat>>, ghost order: seq<nat>, ghost generated: nat)
    requires AllShaped(heads)
    ensures HeadSelections(heads, sels)
    ensures var all := Concat(AllSlots(imageWidth, heads, sels, m));
      && IsPermutation(order, |NonZero(all)|)
      && DescendingBy(Scores(NonZero(all)), order)
      && r == NmsResult(all, order, 0.5, 6)
    ensures generated == |Strides(imageWidth, heads)|
    ensures |r| == 6 && NonIncreasing(Scores(r))
    ensures forall k :: 0 <= k < 6 ==> Detection(r[k])
    ensures NothingPasses(heads) ==> r == Zeros(6)
  {
    var decoded;
    decoded, sels, generated := DecodeHeads(imageWidth, heads, m);
    r, order := Nms(Concat(decoded), 0.5, 6);
    NmsOfHeads(decoded, order, r, NothingPasses(heads));
  }

  /** Appending one head's slots keeps every head's slots detections, and
      silent when the new ones are. */
  lemma AppendSlots(decoded: seq<seq<Candidate>>, rows: seq<Candidate>, quiet: bool)
    requires AllDetections(decoded)
    requires Detections(rows)
    requires quiet ==> AllSilent(decoded) && Silent(rows)
    ensures AllDetections(decoded + [rows])
    ensures quiet ==> AllSilent(decoded + [rows])
  {
  }

  /** Every head's slots are detections. */
  predicate AllDetections(ds: seq<seq<Candidate>>)
  {
    forall d :: d in ds ==> Detections(d)
  }

  /** Every head's slots score zero. */
  predicate AllSilent(ds: seq<seq<Candidate>>)
  {
    forall d :: d in ds ==> Silent(d)
  }

  /** Every slot scores zero. */
  predicate Silent(d: seq<Candidate>)
  {
    forall c :: c in d ==> c.score == 0.0
  }

  predicate Detections(d: seq<Candidate>)
  {
    forall c :: c in d ==> Detection(c)
  }

  /** One head's `top_n` slots are detections, and all zero when no score
      of the head reaches 0.05. */
  lemma HeadSlots(h: Head, anchors: seq<Box>, stride: nat, sel: seq<nat>, exp: real -> real, quiet: bool)
    requires WellShaped(h, |anchors|) && TopSelection(h.cls, 0.05, 1000, sel)
    requires quiet ==> forall k :: 0 <= k < |h.cls| ==> h.cls[k] < 0.05
    ensures Detections(PadTo(DecodeSelected(h, anchors, stride, sel, exp), 1000))
    ensures quiet ==> Silent(PadTo(DecodeSelected(h, anchors, stride, sel, exp), 1000))
  {
    DecodedAreDetections(h, anchors, stride, 1000, sel, exp);
    if quiet {
      NoneSelected(h.cls, 0.05, 1000, sel);
      assert DecodeSelected(h, anchors, stride, sel, exp) == [];
    }
  }

  lemma NmsOfHeads(decoded: seq<seq<Candidate>>, order: seq<nat>, r: seq<Candidate>, quiet: bool)
    requires AllDetections(decoded)
    requires quiet ==> AllSilent(decoded)
    requires IsPermutation(order, |NonZero(Concat(decoded))|)
    requires DescendingBy(Scores(NonZero(Concat(decoded))), order)
    requires r == NmsResult(Concat(decoded), order, 0.5, 6)
    ensures |r| == 6 && NonIncreasing(Scores(r))
    ensures forall k :: 0 <= k < 6 ==> Detection(r[k])
    ensures quiet ==> r == Zeros(6)
  {
    var all := Concat(decoded);
    forall c | c in all
      ensures Detection(c) && (quiet ==> c.score == 0.0)
    {
      ConcatFrom(decoded, c);
      var j :| 0 <= j < |decoded| && c in decoded[j];
      assert decoded[j] in decoded;
      assert Detections(decoded[j]);
      assert quiet ==> Silent(decoded[j]);
    }
    NmsOfDecoded(all, order, r);
    if quiet {
      forall k | 0 <= k < |all|
        ensures all[k].score == 0.0
      {
        assert all[k] in all;
      }
      NmsAllZero(all, order, 0.5, 6);
    }
  }

  // ------------------------------------- severity part of image_inference

  /** The processing image is 480 wide and 288 high, but the bitmap is
      built as 480 rows of 288 cells: x is clipped against the height and y
      against the width. */
  const ProcWidth: nat := 480
  const ProcHeight: nat := 288

  /** `map(int, box)`, then x1 into [0, 287], y1 into [0, 479], x2 into
      [0, 288] and y2 into [0, 480]. */
  function ClipBox(b: Box): (r: Cells)
    ensures 0 <= r.x1 <= ProcHeight - 1 && 0 <= r.x2 <= ProcHeight
    ensures 0 <= r.y1 <= ProcWidth - 1 && 0 <= r.y2 <= ProcWidth
  {
    Cells(ClipInt(Trunc(b.x1), 0, ProcHeight - 1), ClipInt(Trunc(b.y1), 0, ProcWidth - 1),
          ClipInt(Trunc(b.x2), 0, ProcHeight), ClipInt(Trunc(b.y2), 0, ProcWidth))
  }

  /** The filter in front of the bitmap: score strictly above the
      threshold and a label strictly between 0.5 and 1.5. */
  predicate Filled(c: Candidate, thr: real)
  {
    c.score > thr && 0.5 < c.cls < 1.5
  }

  /** The rectangles filled in, clipped, in detection order. */
  function FilledCells(dets: seq<Candidate>, thr: real): (r: seq<Cells>)
    ensures |r| <= |dets|
    ensures FitsGrid(r, ProcWidth, ProcHeight)
  {
    if |dets| == 0 then []
    else (if Filled(dets[0], thr) then [ClipBox(dets[0].box)] else []) + FilledCells(dets[1..], thr)
  }

  /** Filtering distributes over concatenation. */
  lemma {:induction false} FilledCellsAppend(a: seq<Candidate>, b: seq<Candidate>, thr: real)
    ensures FilledCells(a + b, thr) == FilledCells(a, thr) + FilledCells(b, thr)
  {
    if |a| > 0 {
      assert (a + b)[1..] == a[1..] + b;
      FilledCellsAppend(a[1..], b, thr);
    } else {
      assert a + b == b;
    }
  }

  /** Detections failing the score or the label test fill nothing. */
  lemma {:induction false} NothingFilled(dets: seq<Candidate>, thr: real)
    requires forall k :: 0 <= k < |dets| ==> !Filled(dets[k], thr)
    ensures FilledCells(dets, thr) == []
  {
    if |dets| > 0 {
      NothingFilled(dets[1..], thr);
    }
  }

  /** Number of set bitmap cells. */
  function Coverage(dets: seq<Candidate>, thr: real): nat
  {
    GridCount(FilledCells(dets, thr), ProcWidth, ProcHeight)
  }

  /** Unlike the 640 x 384 grid, the upper corners are clipped to the grid
      size itself, so the whole bitmap can be covered but no more. */
  lemma CoverageBound(dets: seq<Candidate>, thr: real)
    ensures Coverage(dets, thr) <= ProcWidth * ProcHeight
  {
    GridBound(FilledCells(dets, thr), ProcWidth, ProcHeight, ProcHeight, ProcWidth);
  }

  /** A box lying wholly right of x = 288 (still inside the 480-wide image)
      is not dropped: its clipped corners collapse onto column 287, which it
      then fills. */
  lemma FarRightFillsLastColumn(b: Box)
    requires b.x1 >= ProcHeight as real && b.x2 >= b.x1
    requires 0.0 <= b.y1 && b.y1 + 1.0 <= b.y2 && b.y1 < ProcWidth as real
    ensures InCells(ClipBox(b), Trunc(b.y1), ProcHeight - 1)
  {
  }

  /** More detections never lower the coverage. */
  lemma CoverageGrows(dets: seq<Candidate>, more: seq<Candidate>, thr: real)
    ensures Coverage(dets, thr) <= Coverage(dets + more, thr)
  {
    FilledCellsAppend(dets, more, thr);
    GridGrows(FilledCells(dets, thr), FilledCells(more, thr), ProcWidth, ProcHeight);
  }

  /** What `image_inference` hands back besides the raw detections. */
  datatype Assessment = Assessment(boxes: seq<Box>, severity: real, percentage: real)

  /** `percentage_area` for the detections. */
  function Percentage(dets: seq<Candidate>, thr: real): real
  {
    Coverage(dets, thr) as real / (ProcWidth * ProcHeight) as real
  }

  /** Rasterise the filtered boxes into the 480 x 288 bitmap, turn the
      covered share into a severity, and scale every box back to the
      `imgWidth` x `imgHeight` source (x by imgWidth / 480, y by
      imgHeight / 288). A zero sensitivity fails (None). */
  method Assess(dets: seq<Candidate>, thr: real, sensitivity: real, imgWidth: nat, imgHeight: nat)
    returns (r: Option<Assessment>)
    ensures r.None? <==> sensitivity == 0.0
    ensures r.Some? ==> r.value.percentage == Percentage(dets, thr)
    ensures r.Some? ==> Severity(r.value.percentage, sensitivity) == Some(r.value.severity)
    ensures r.Some? ==> 0.0 <= r.value.percentage <= 1.0 && 0.0 <= r.value.severity <= 1.0
    ensures r.Some? ==> r.value.boxes == RescaleAll(Boxes(dets), imgWidth, imgHeight, ProcWidth, ProcHeight)
  {
    var cells := FilledCells(dets, thr);
    var total := Rasterize(cells, ProcWidth, ProcHeight);
    var percentage := total as real / (ProcWidth * ProcHeight) as real;
    CoverageBound(dets, thr);
    var severity := Severity(percentage, sensitivity);
    if severity.None? {
      return None;
    }
    r := Some(Assessment(RescaleAll(Boxes(dets), imgWidth, imgHeight, ProcWidth, ProcHeight),
                         severity.value, percentage));
  }

  /** Adding detections never lowers the severity. */
  lemma SeverityGrows(dets: seq<Candidate>, more: seq<Candidate>, thr: real, sensitivity: real)
    requires sensitivity != 0.0
    ensures Severity(Percentage(dets, thr), sensitivity).value
         <= Severity(Percentage(dets + more, thr), sensitivity).value
  {
    CoverageGrows(dets, more, thr);
    ShareGrows(Coverage(dets, thr), Coverage(dets + more, thr), ProcWidth * ProcHeight, sensitivity);
  }

  /** With no detection passing the filter the severity is zero. */
  lemma QuietImage(dets: seq<Candidate>, thr: real, sensitivity: real)
    requires sensitivity != 0.0
    requires forall k :: 0 <= k < |dets| ==> !Filled(dets[k], thr)
    ensures Percentage(dets, thr) == 0.0
    ensures Severity(Percentage(dets, thr), sensitivity) == Some(0.0)
  {
    NothingFilled(dets, thr);
    EmptyShare(FilledCells(dets, thr), ProcWidth, ProcHeight, ProcWidth * ProcHeight, sensitivity);
  }
}
