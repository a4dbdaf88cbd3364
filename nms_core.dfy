/** The mask form of greedy per-class non-maximum suppression shared by the
    NumPy `_nms` and the torch `_nms`: candidates are already sorted by
    descending score, `keep` starts all true, and round i ANDs a criterion
    into `keep` that clears every later-or-tied candidate of the same class
    key overlapping candidate i by more than the threshold. Round i runs
    whether or not candidate i itself is still kept. */
module NmsCore {
  import opened Common
  import opened Geometry
  import opened Ordering

  function Scores(cs: seq<Candidate>): (r: seq<real>)
    ensures |r| == |cs| && forall k :: 0 <= k < |cs| ==> r[k] == cs[k].score
  {
    seq(|cs|, k requires 0 <= k < |cs| => cs[k].score)
  }

  function Boxes(cs: seq<Candidate>): (r: seq<Box>)
    ensures |r| == |cs| && forall k :: 0 <= k < |cs| ==> r[k] == cs[k].box
  {
    seq(|cs|, k requires 0 <= k < |cs| => cs[k].box)
  }

  /** `all_scores[batch, :] > 0`. */
  function PositiveMask(cands: seq<Candidate>): (r: seq<bool>)
    ensures |r| == |cands| && forall j :: 0 <= j < |cands| ==> (r[j] <==> cands[j].score > 0.0)
  {
    seq(|cands|, j requires 0 <= j < |cands| => cands[j].score > 0.0)
  }

  /** The candidates with a positive score, in input order. */
  function Positives(cands: seq<Candidate>): seq<Candidate>
  {
    Compact(cands, PositiveMask(cands))
  }

  /** Every kept candidate is an input candidate with a positive score. */
  lemma PositivesFromInput(cands: seq<Candidate>)
    ensures forall k :: 0 <= k < |Positives(cands)| ==>
      Positives(cands)[k].score > 0.0 && Positives(cands)[k] in cands
  {
    forall k | 0 <= k < |Positives(cands)|
      ensures Positives(cands)[k].score > 0.0 && Positives(cands)[k] in cands
    {
      CompactSource(cands, PositiveMask(cands), k);
    }
  }

  /** `x[indices]` for an index vector. */
  function Permute<T>(xs: seq<T>, p: seq<nat>): (r: seq<T>)
    requires forall k :: 0 <= k < |p| ==> p[k] < |xs|
    ensures |r| == |p| && forall k :: 0 <= k < |p| ==> r[k] == xs[p[k]]
  {
    seq(|p|, k requires 0 <= k < |p| => xs[p[k]])
  }

  /** Sorting by a descending permutation yields non-increasing scores. */
  lemma SortedScores(cs: seq<Candidate>, order: seq<nat>)
    requires IsPermutation(order, |cs|) && DescendingBy(Scores(cs), order)
    ensures NonIncreasing(Scores(Permute(cs, order)))
  {
  }

  /** The candidates with their class replaced by `classes` (the class
      column the output is copied from). */
  function Keyed(s: seq<Candidate>, classes: seq<real>): (r: seq<Candidate>)
    requires |classes| == |s|
    ensures |r| == |s|
    ensures forall k :: 0 <= k < |s| ==> r[k] == Candidate(s[k].score, s[k].box, classes[k])
  {
    seq(|s|, k requires 0 <= k < |s| => Candidate(s[k].score, s[k].box, classes[k]))
  }

  function AllTrue(n: nat): (r: seq<bool>)
    ensures |r| == n && forall k :: 0 <= k < n ==> r[k]
  {
    seq(n, _ => true)
  }

  /** `criterion[j]` of round i, with `criterion[i] = True` folded in:
      j outscores i, or overlaps it by at most `nms`, or has another class
      key. */
  predicate Survives(s: seq<Candidate>, keys: seq<real>, nms: real, i: nat, j: nat)
    requires i < |s| && j < |s| && |keys| == |s|
  {
    j == i || s[j].score > s[i].score || IouAtMost(s[j].box, s[i].box, nms) || keys[j] != keys[i]
  }

  /** `keep &= criterion` for round i. */
  function ApplyRound(keep: seq<bool>, s: seq<Candidate>, keys: seq<real>, nms: real, i: nat): (r: seq<bool>)
    requires |keep| == |s| && |keys| == |s| && i < |s|
    ensures |r| == |keep|
    ensures forall j :: 0 <= j < |keep| ==> (r[j] <==> keep[j] && Survives(s, keys, nms, i, j))
  {
    seq(|keep|, j requires 0 <= j < |keep| => keep[j] && Survives(s, keys, nms, i, j))
  }

  /** The two loop guards: NumPy breaks when `not np.any(keep)`, torch when
      `i >= keep.nonzero().nelement()`; both also when i reaches the number
      of candidates. */
  datatype StopRule = NoneAlive | IndexReachesAlive

  predicate AnyAlive(keep: seq<bool>)
  {
    exists j :: 0 <= j < |keep| && keep[j]
  }

  predicate Stops(rule: StopRule, keep: seq<bool>, i: nat)
  {
    match rule
    case NoneAlive => !AnyAlive(keep) || i >= |keep|
    case IndexReachesAlive => i >= Count(keep) || i >= |keep|
  }

  /** The mask after running rounds i, i+1, ... up to `ndet` or the break. */
  function RunRounds(rule: StopRule, keep: seq<bool>, s: seq<Candidate>, keys: seq<real>,
                     nms: real, i: nat, ndet: nat): (r: seq<bool>)
    requires |keep| == |s| && |keys| == |s|
    ensures |r| == |keep|
    decreases ndet - i
  {
    if i >= ndet || Stops(rule, keep, i) then keep
    else RunRounds(rule, ApplyRound(keep, s, keys, nms, i), s, keys, nms, i + 1, ndet)
  }

  /** The value of the loop index when the loop ends. */
  function RoundsRun(rule: StopRule, keep: seq<bool>, s: seq<Candidate>, keys: seq<real>,
                     nms: real, i: nat, ndet: nat): (r: nat)
    requires |keep| == |s| && |keys| == |s|
    ensures i <= r
    ensures r == i || (r <= ndet && r <= |s|)
    decreases ndet - i
  {
    if i >= ndet || Stops(rule, keep, i) then i
    else RoundsRun(rule, ApplyRound(keep, s, keys, nms, i), s, keys, nms, i + 1, ndet)
  }

  /** A candidate is kept at the end iff it was kept at the start and
      survived every round that ran; in particular a cleared mark never
      returns. */
  lemma {:induction false} RunRoundsExact(rule: StopRule, keep: seq<bool>, s: seq<Candidate>, keys: seq<real>,
                                          nms: real, i: nat, ndet: nat, j: nat)
    requires |keep| == |s| && |keys| == |s| && j < |s|
    ensures RunRounds(rule, keep, s, keys, nms, i, ndet)[j] <==>
      keep[j] && forall r :: i <= r < RoundsRun(rule, keep, s, keys, nms, i, ndet) ==> Survives(s, keys, nms, r, j)
    decreases ndet - i
  {
    if i >= ndet || Stops(rule, keep, i) {
    } else {
      var next := ApplyRound(keep, s, keys, nms, i);
      RunRoundsExact(rule, next, s, keys, nms, i + 1, ndet, j);
      var stop := RoundsRun(rule, next, s, keys, nms, i + 1, ndet);
      assert RoundsRun(rule, keep, s, keys, nms, i, ndet) == stop;
      assert RunRounds(rule, keep, s, keys, nms, i, ndet) == RunRounds(rule, next, s, keys, nms, i + 1, ndet);
      SurvivesFrom(s, keys, nms, i, stop, j);
    }
  }

  /** Surviving rounds i to stop is surviving round i and rounds i + 1 to
      stop. */
  lemma SurvivesFrom(s: seq<Candidate>, keys: seq<real>, nms: real, i: nat, stop: nat, j: nat)
    requires i < stop <= |s| && j < |s| && |keys| == |s|
    ensures (forall r :: i <= r < stop ==> Survives(s, keys, nms, r, j))
        <==> Survives(s, keys, nms, i, j) && forall r :: i + 1 <= r < stop ==> Survives(s, keys, nms, r, j)
  {
  }

  /** The loop ends by running all `ndet` rounds or at its break. */
  lemma {:induction false} RunRoundsStops(rule: StopRule, keep: seq<bool>, s: seq<Candidate>, keys: seq<real>,
                                          nms: real, i: nat, ndet: nat)
    requires |keep| == |s| && |keys| == |s| && i <= ndet
    ensures var stop := RoundsRun(rule, keep, s, keys, nms, i, ndet);
      stop == ndet || Stops(rule, RunRounds(rule, keep, s, keys, nms, i, ndet), stop)
    decreases ndet - i
  {
    if i >= ndet || Stops(rule, keep, i) {
    } else {
      RunRoundsStops(rule, ApplyRound(keep, s, keys, nms, i), s, keys, nms, i + 1, ndet);
    }
  }

  /** The round loop on a `keep` array. */
  method RunNmsRounds(rule: StopRule, s: seq<Candidate>, keys: seq<real>, nms: real, ndet: nat)
    returns (keep: seq<bool>)
    requires |keys| == |s|
    ensures keep == RunRounds(rule, AllTrue(|s|), s, keys, nms, 0, ndet)
  {
    var n := |s|;
    var keepArr := new bool[n](_ => true);
    assert keepArr[..] == AllTrue(n);
    var i := 0;
    while i < ndet
      invariant 0 <= i <= ndet
      invariant RunRounds(rule, keepArr[..], s, keys, nms, i, ndet)
             == RunRounds(rule, AllTrue(n), s, keys, nms, 0, ndet)
    {
      var stop := false;
      match rule {
        case NoneAlive =>
          stop := !(exists j :: 0 <= j < n && keepArr[j]) || i >= n;
        case IndexReachesAlive =>
          stop := i >= Count(keepArr[..]) || i >= n;
      }
      assert stop == Stops(rule, keepArr[..], i);
      if stop {
        break;
      }
      ghost var before := keepArr[..];
      forall j | 0 <= j < n {
        keepArr[j] := keepArr[j] && Survives(s, keys, nms, i, j);
      }
      assert keepArr[..] == ApplyRound(before, s, keys, nms, i);
      i := i + 1;
    }
    keep := keepArr[..];
  }

  /** Zero-initialised output of width n with the first `min(n, |xs|)`
      slots overwritten by `xs`. */
  function PadTo(xs: seq<Candidate>, n: nat): (r: seq<Candidate>)
    ensures |r| == n
    ensures forall k :: 0 <= k < n ==> r[k] == (if k < |xs| then xs[k] else Empty)
  {
    if |xs| >= n then xs[..n] else xs + Zeros(n - |xs|)
  }

  /** The whole mask NMS on sorted candidates: the kept rows, with their
      class column taken from `outClasses`, padded to `ndet` slots. */
  function MaskNms(rule: StopRule, s: seq<Candidate>, keys: seq<real>, outClasses: seq<real>,
                   nms: real, ndet: nat): (r: seq<Candidate>)
    requires |keys| == |s| && |outClasses| == |s|
    ensures |r| == ndet
  {
    PadTo(Compact(Keyed(s, outClasses), FinalKeep(rule, s, keys, nms, ndet)), ndet)
  }

  /** The `keep` mask after the round loop. */
  function FinalKeep(rule: StopRule, s: seq<Candidate>, keys: seq<real>, nms: real, ndet: nat): (r: seq<bool>)
    requires |keys| == |s|
    ensures |r| == |s|
  {
    RunRounds(rule, AllTrue(|s|), s, keys, nms, 0, ndet)
  }

  function KeptCount(rule: StopRule, s: seq<Candidate>, keys: seq<real>, nms: real, ndet: nat): (r: nat)
    requires |keys| == |s|
    ensures r <= |s|
  {
    Count(FinalKeep(rule, s, keys, nms, ndet))
  }

  /** Slots from the kept count on are zero; every earlier slot is a kept
      row, with its class taken from `outClasses`. */
  lemma MaskNmsRows(rule: StopRule, s: seq<Candidate>, keys: seq<real>, outClasses: seq<real>,
                    nms: real, ndet: nat)
    requires |keys| == |s| && |outClasses| == |s|
    ensures forall k :: 0 <= k < ndet && k >= KeptCount(rule, s, keys, nms, ndet) ==>
      MaskNms(rule, s, keys, outClasses, nms, ndet)[k] == Empty
    ensures forall k :: 0 <= k < ndet && k < KeptCount(rule, s, keys, nms, ndet) ==>
      KeptRow(rule, s, keys, outClasses, nms, ndet, k)
  {
    forall k | 0 <= k < ndet && k < KeptCount(rule, s, keys, nms, ndet)
      ensures KeptRow(rule, s, keys, outClasses, nms, ndet, k)
    {
      var kept := FinalKeep(rule, s, keys, nms, ndet);
      var rows := Keyed(s, outClasses);
      var c := Compact(rows, kept);
      assert MaskNms(rule, s, keys, outClasses, nms, ndet)[k] == c[k];
      CompactSource(rows, kept, k);
      var j :| 0 <= j < |rows| && kept[j] && c[k] == rows[j];
      assert rows[j] == Candidate(s[j].score, s[j].box, outClasses[j]);
    }
  }

  /** Output slot k holds some kept candidate, with its class taken from
      `outClasses`. */
  predicate KeptRow(rule: StopRule, s: seq<Candidate>, keys: seq<real>, outClasses: seq<real>,
                    nms: real, ndet: nat, k: nat)
    requires |keys| == |s| && |outClasses| == |s| && k < ndet
  {
    exists j :: 0 <= j < |s| && FinalKeep(rule, s, keys, nms, ndet)[j]
      && MaskNms(rule, s, keys, outClasses, nms, ndet)[k] == Candidate(s[j].score, s[j].box, outClasses[j])
  }

  /** The filled slots are in descending score when the input is. */
  lemma MaskNmsDescending(rule: StopRule, s: seq<Candidate>, keys: seq<real>, outClasses: seq<real>,
                          nms: real, ndet: nat)
    requires |keys| == |s| && |outClasses| == |s|
    requires NonIncreasing(Scores(s))
    ensures var r := MaskNms(rule, s, keys, outClasses, nms, ndet);
      NonIncreasing(Scores(r[..IMin(ndet, KeptCount(rule, s, keys, nms, ndet))]))
  {
    var kept := FinalKeep(rule, s, keys, nms, ndet);
    var rows := Keyed(s, outClasses);
    var r := MaskNms(rule, s, keys, outClasses, nms, ndet);
    assert Scores(rows) == Scores(s);
    CompactMap(rows, Scores(rows), kept, (x: Candidate) => x.score);
    var cs := Compact(Scores(rows), kept);
    CompactKeepsOrder(Scores(rows), kept);
    var m := IMin(ndet, Count(kept));
    assert forall k :: 0 <= k < m ==> Scores(r[..m])[k] == cs[k];
  }

  /** Two copies of one candidate, with equal keys and a box overlapping
      itself by more than the threshold, clear each other within two
      rounds under the `not np.any(keep)` guard. */
  lemma TwinsClearEachOther(c: Candidate, key: real, nms: real, ndet: nat)
    requires !IouAtMost(c.box, c.box, nms) && ndet >= 2
    ensures FinalKeep(NoneAlive, [c, c], [key, key], nms, ndet) == [false, false]
  {
    var s := [c, c];
    var keys := [key, key];
    var k1 := ApplyRound(AllTrue(2), s, keys, nms, 0);
    assert k1 == [true, false];
    assert AnyAlive(k1) by {
      assert k1[0];
    }
    var k2 := ApplyRound(k1, s, keys, nms, 1);
    assert k2 == [false, false];
    assert RunRounds(NoneAlive, k1, s, keys, nms, 1, ndet) == RunRounds(NoneAlive, k2, s, keys, nms, 2, ndet);
  }

  /** Any ordering of two equal rows gives the same two rows. */
  lemma PermuteTwins<T>(x: T, order: seq<nat>)
    requires IsPermutation(order, 2)
    ensures Permute([x, x], order) == [x, x]
  {
    assert order[0] < 2 && order[1] < 2;
  }

  /** Two copies of one candidate, with equal keys and a box overlapping
      itself by more than the threshold, under the torch guard: round 0
      clears the second copy, and round 1 does not run because only one
      row is alive, so the first copy stays. */
  lemma TwinsKeepFirst(c: Candidate, key: real, nms: real, ndet: nat)
    requires !IouAtMost(c.box, c.box, nms) && ndet >= 1
    ensures FinalKeep(IndexReachesAlive, [c, c], [key, key], nms, ndet) == [true, false]
  {
    var s := [c, c];
    var keys := [key, key];
    var k1 := ApplyRound(AllTrue(2), s, keys, nms, 0);
    assert k1 == [true, false];
    assert Count(k1) == 1 by {
      assert Count(k1[1..]) == 0;
    }
    assert Count(AllTrue(2)) == 2 by {
      CountExtremes(AllTrue(2));
    }
    assert !Stops(IndexReachesAlive, AllTrue(2), 0);
    assert RunRounds(IndexReachesAlive, AllTrue(2), s, keys, nms, 0, ndet)
        == RunRounds(IndexReachesAlive, k1, s, keys, nms, 1, ndet);
    assert Stops(IndexReachesAlive, k1, 1);
  }
}
