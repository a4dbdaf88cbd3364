/** The failure window of the stand-alone scripts (the polling client, the
    HTTP backend loop and the local monitor loop): the timestamps of red
    results, pruned to the last `count_time` seconds, whose number is the
    failure count; the loop stops once it exceeds `max_count`. */
module FailureWindow {
  import opened Common

  /** A result is red, and recorded, above this severity. */
  const RedLevel: real := 0.66
  const YellowLevel: real := 0.33

  /** The shapes a JSON `severity` can take, as far as the scripts care. */
  datatype Json = JNumber(value: real) | JList(items: seq<Json>) | JOther

  /** How a script reads the severity: the number itself, the first element
      of a non-empty list, or an unexpected format. A list whose first
      element is not a number gets past the format test and then fails the
      `> 0.66` comparison with a TypeError (Incomparable). */
  datatype Reading = Level(value: real) | Unexpected | Incomparable

  function ReadSeverity(j: Json): (r: Reading)
    ensures j.JNumber? ==> r == Level(j.value)
    ensures j.JList? && |j.items| > 0 && j.items[0].JNumber? ==> r == Level(j.items[0].value)
    ensures r.Unexpected? <==> j.JOther? || j == JList([])
  {
    match j
    case JNumber(v) => Level(v)
    case JList(items) =>
      if |items| == 0 then Unexpected
      else if items[0].JNumber? then Level(items[0].value)
      else Incomparable
    case JOther => Unexpected
  }

  datatype Colour = Red | Yellow | Green

  /** The colour the scripts print: red above 0.66, yellow from 0.33 to
      0.66 inclusive, green below 0.33. */
  function ConsoleColour(severity: real): (c: Colour)
    ensures c == Red <==> severity > RedLevel
    ensures c == Yellow <==> YellowLevel <= severity <= RedLevel
    ensures c == Green <==> severity < YellowLevel
  {
    if severity > RedLevel then Red
    else if YellowLevel <= severity <= RedLevel then Yellow
    else Green
  }

  /** `[t for t in timestamps if now - t <= count_time]`. */
  function Prune(ts: seq<real>, now: real, countTime: real): (r: seq<real>)
    ensures |r| <= |ts|
  {
    if |ts| == 0 then []
    else (if now - ts[0] <= countTime then [ts[0]] else []) + Prune(ts[1..], now, countTime)
  }

  /** Exactly the timestamps at most `countTime` old survive. */
  lemma {:induction false} PruneMembers(ts: seq<real>, now: real, countTime: real, t: real)
    ensures t in Prune(ts, now, countTime) <==> t in ts && now - t <= countTime
  {
    if |ts| > 0 {
      PruneMembers(ts[1..], now, countTime, t);
      assert ts == [ts[0]] + ts[1..];
    }
  }

  /** Pruning works element by element, so it keeps the original order:
      it distributes over concatenation. */
  lemma {:induction false} PruneAppend(a: seq<real>, b: seq<real>, now: real, countTime: real)
    ensures Prune(a + b, now, countTime) == Prune(a, now, countTime) + Prune(b, now, countTime)
  {
    if |a| > 0 {
      assert (a + b)[1..] == a[1..] + b;
      PruneAppend(a[1..], b, now, countTime);
    } else {
      assert a + b == b;
    }
  }

  /** A window whose timestamps are all recent enough is left alone. */
  lemma {:induction false} PruneKeepsFresh(ts: seq<real>, now: real, countTime: real)
    requires forall i :: 0 <= i < |ts| ==> now - ts[i] <= countTime
    ensures Prune(ts, now, countTime) == ts
  {
    if |ts| > 0 {
      PruneKeepsFresh(ts[1..], now, countTime);
      assert ts == [ts[0]] + ts[1..];
    }
  }

  /** Pruning at one time and again at a later time is pruning once at the
      later time. */
  lemma {:induction false} PruneLater(ts: seq<real>, earlier: real, later: real, countTime: real)
    requires earlier <= later
    ensures Prune(Prune(ts, earlier, countTime), later, countTime) == Prune(ts, later, countTime)
  {
    if |ts| > 0 {
      PruneLater(ts[1..], earlier, later, countTime);
      var head := if earlier - ts[0] <= countTime then [ts[0]] else [];
      PruneAppend(head, Prune(ts[1..], earlier, countTime), later, countTime);
    }
  }

  /** The list comprehension, element by element. */
  method PruneList(ts: seq<real>, now: real, countTime: real) returns (r: seq<real>)
    ensures r == Prune(ts, now, countTime)
  {
    r := [];
    var i := 0;
    while i < |ts|
      invariant i <= |ts|
      invariant r == Prune(ts[..i], now, countTime)
    {
      assert ts[..i + 1] == ts[..i] + [ts[i]];
      PruneAppend(ts[..i], [ts[i]], now, countTime);
      if now - ts[i] <= countTime {
        r := r + [ts[i]];
      }
      i := i + 1;
    }
    assert ts[..i] == ts;
  }

  /** The scripts' `count` and `timestamps` globals. */
  class FailureCounter {
    var count: int
    var timestamps: seq<real>
    const maxCount: int
    const countTime: real

    constructor(maxCount: int, countTime: real)
      ensures count == 0 && timestamps == []
      ensures this.maxCount == maxCount && this.countTime == countTime
    {
      count := 0;
      timestamps := [];
      this.maxCount := maxCount;
      this.countTime := countTime;
    }

    /** One observed severity: a red one appends the time `stamp`; then the
        window is pruned at `now`, the count becomes its length, and the
        result says whether the count exceeds `maxCount`. */
    method Observe(severity: real, stamp: real, now: real) returns (exceeded: bool)
      modifies this
      ensures timestamps == Prune(old(timestamps) + (if severity > RedLevel then [stamp] else []), now, countTime)
      ensures count == |timestamps|
      ensures forall t :: t in timestamps ==> now - t <= countTime
      ensures exceeded <==> count > maxCount
    {
      ghost var grown := old(timestamps) + (if severity > RedLevel then [stamp] else []);
      if severity > RedLevel {
        count := count + 1;
        timestamps := timestamps + [stamp];
      } else {
        assert timestamps == grown;
      }
      timestamps := PruneList(timestamps, now, countTime);
      count := |timestamps|;
      forall t | t in timestamps
        ensures now - t <= countTime
      {
        PruneMembers(grown, now, countTime, t);
      }
      exceeded := count > maxCount;
    }
  }

  /** A red result stamped at the pruning time is in the window afterwards,
      given a non-negative `count_time`: the count grows by exactly one over
      the surviving earlier timestamps. */
  lemma RedIsCounted(ts: seq<real>, now: real, countTime: real)
    requires countTime >= 0.0
    ensures Prune(ts + [now], now, countTime) == Prune(ts, now, countTime) + [now]
  {
    PruneAppend(ts, [now], now, countTime);
  }

  /** The count after an observation is at most one more than the number
      of previous timestamps still inside the window. */
  lemma CountGrowsByAtMostOne(ts: seq<real>, stamp: real, now: real, countTime: real)
    ensures |Prune(ts + [stamp], now, countTime)| <= |Prune(ts, now, countTime)| + 1
  {
    PruneAppend(ts, [stamp], now, countTime);
  }
}
