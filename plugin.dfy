/** The OctoPrint plugin's failure bookkeeping: a deque of the last (at
    most 100) notable results and a failure count that rises with every
    red result, falls as red results expire, and triggers the configured
    printer action once it reaches `max_count`. The camera fetch, the
    inference and the drawing are inputs; the clock is a parameter. */
module Plugin {
  import opened Common
  import opened Geometry
  import opened Threads
  import opened FailureWindow

  /** `deque(maxlen=100)`. */
  const Capacity: nat := 100
  /** `check` serves a stored result image at most this many seconds old. */
  const FreshWindow: real := 5.0

  /** The fields of a stored result the model uses. */
  datatype StoredResult = StoredResult(time: real, severity: real, resultImage: string)

  datatype Event = PrintStarted | PrintResumed | PrintDone | PrintFailed | PrintCancelled | PrintPaused | OtherEvent

  datatype PrinterCommand = PausePrint | CancelPrint | LeaveAlone

  predicate IsRed(r: StoredResult)
  {
    r.severity > RedLevel
  }

  /** Number of red results. */
  function RedCount(rs: seq<StoredResult>): (n: nat)
    ensures n <= |rs|
  {
    if |rs| == 0 then 0 else (if IsRed(rs[0]) then 1 else 0) + RedCount(rs[1..])
  }

  lemma {:induction false} RedCountAppend(rs: seq<StoredResult>, x: StoredResult)
    ensures RedCount(rs + [x]) == RedCount(rs) + (if IsRed(x) then 1 else 0)
  {
    if |rs| > 0 {
      assert (rs + [x])[1..] == rs[1..] + [x];
      RedCountAppend(rs[1..], x);
    } else {
      assert (rs + [x])[1..] == [];
    }
  }

  predicate Expired(r: StoredResult, now: real, countTime: real)
  {
    now - r.time > countTime
  }

  /** How many results the expiry loop pops: the longest expired prefix. */
  function ExpiredPrefix(rs: seq<StoredResult>, now: real, countTime: real): (k: nat)
    ensures k <= |rs|
    ensures forall i :: 0 <= i < k ==> Expired(rs[i], now, countTime)
    ensures k < |rs| ==> !Expired(rs[k], now, countTime)
  {
    if |rs| > 0 && Expired(rs[0], now, countTime) then 1 + ExpiredPrefix(rs[1..], now, countTime) else 0
  }

  /** When results were stored in time order, none of those left after the
      expiry loop is expired. */
  lemma ExpiryLeavesFresh(rs: seq<StoredResult>, now: real, countTime: real)
    requires forall i, j :: 0 <= i < j < |rs| ==> rs[i].time <= rs[j].time
    ensures forall i :: ExpiredPrefix(rs, now, countTime) <= i < |rs| ==> !Expired(rs[i], now, countTime)
  {
    var k := ExpiredPrefix(rs, now, countTime);
    forall i | k <= i < |rs|
      ensures !Expired(rs[i], now, countTime)
    {
      assert rs[k].time <= rs[i].time;
    }
  }

  /** `append` on a full deque first drops its oldest entry. */
  function Pushed(rs: seq<StoredResult>, x: StoredResult): (r: seq<StoredResult>)
    requires |rs| <= Capacity
    ensures |r| == (if |rs| < Capacity then |rs| + 1 else Capacity)
    ensures r[|r| - 1] == x
    ensures r[..|r| - 1] == rs[|rs| + 1 - |r|..]
  {
    if |rs| < Capacity then rs + [x] else rs[1..] + [x]
  }

  /** Pushing counts the new entry's red mark and loses the red mark of
      the entry a full deque drops. */
  lemma PushedRedCount(rs: seq<StoredResult>, x: StoredResult)
    requires |rs| <= Capacity
    ensures RedCount(Pushed(rs, x)) + (if |rs| == Capacity && IsRed(rs[0]) then 1 else 0)
         == RedCount(rs) + (if IsRed(x) then 1 else 0)
  {
    if |rs| < Capacity {
      assert Pushed(rs, x) == rs + [x];
      RedCountAppend(rs, x);
    } else {
      assert Pushed(rs, x) == rs[1..] + [x];
      assert RedCount(rs) == (if IsRed(rs[0]) then 1 else 0) + RedCount(rs[1..]);
      RedCountAppend(rs[1..], x);
    }
  }

  /** Filling the deque to capacity with red results and pushing one more
      red result leaves the number of red entries as it was, although the
      count goes up by one: the dropped entry is never subtracted. */
  lemma FullDequeForgetsDrop(rs: seq<StoredResult>, x: StoredResult)
    requires |rs| == Capacity && IsRed(rs[0]) && IsRed(x)
    ensures RedCount(Pushed(rs, x)) == RedCount(rs)
  {
    RedCountAppend(rs[1..], x);
  }

  /** `perform_action`. */
  function Command(action: int): (c: PrinterCommand)
    ensures c == PausePrint <==> action == 1
    ensures c == CancelPrint <==> action == 2
  {
    if action == 1 then PausePrint else if action == 2 then CancelPrint else LeaveAlone
  }

  /** The outline colour of `draw_response_data`. */
  function DrawColour(severity: real): (c: Colour)
    ensures c == Red <==> severity > RedLevel
    ensures c == Yellow <==> YellowLevel < severity <= RedLevel
    ensures c == Green <==> severity <= YellowLevel
  {
    if severity > RedLevel then Red else if severity > YellowLevel then Yellow else Green
  }

  /** At exactly 0.33 the plugin draws green where the scripts print
      yellow. */
  lemma ColourBoundaryDiffers()
    ensures DrawColour(0.33) == Green
    ensures FailureWindow.ConsoleColour(0.33) == Yellow
  {
  }

  /** The boxes drawn: the loop over the zipped boxes and scores stops at
      the first score below the threshold. */
  method DrawnBoxes(boxes: seq<Box>, scores: seq<real>, scoresThreshold: real) returns (drawn: nat)
    ensures drawn <= |boxes| && drawn <= |scores|
    ensures forall i :: 0 <= i < drawn ==> scores[i] >= scoresThreshold
    ensures drawn < |boxes| && drawn < |scores| ==> scores[drawn] < scoresThreshold
  {
    drawn := 0;
    while drawn < |boxes| && drawn < |scores|
      invariant drawn <= |boxes| && drawn <= |scores|
      invariant forall i :: 0 <= i < drawn ==> scores[i] >= scoresThreshold
    {
      if scores[drawn] < scoresThreshold {
        return;
      }
      drawn := drawn + 1;
    }
  }

  /** What happened to the fetched camera picture. */
  datatype Snapshot = FetchFailed | Unreadable | Picture

  /** How one pass of the processing loop ended. A picture that does not
      open raises outside any handler and ends the thread. */
  datatype Iteration = NotPrinting | NoSnapshot | ThreadDied | InferenceFailed | Processed(command: Option<PrinterCommand>)

  class PinozCam {
    var count: int
    var aiResults: seq<StoredResult>
    var aiRunning: bool
    var numThreads: nat
    /** The settings read at startup. */
    const action: int
    const maxCount: int
    const countTime: real
    const cpuSpeedControl: real
    /** Red results the full deque dropped on append. */
    ghost var droppedRed: nat

    /** The deque stays bounded, and the count is the number of red results
        in it plus those the deque dropped when full. */
    ghost predicate Valid()
      reads this
    {
      |aiResults| <= Capacity && count == RedCount(aiResults) + droppedRed
    }

    /** `__init__` followed by the settings of `on_after_startup`. */
    constructor(action: int, maxCount: int, countTime: real, cpuSpeedControl: real)
      ensures Valid() && count == 0 && aiResults == [] && !aiRunning && numThreads == 1
      ensures this.action == action && this.maxCount == maxCount
      ensures this.countTime == countTime && this.cpuSpeedControl == cpuSpeedControl
    {
      count := 0;
      aiResults := [];
      aiRunning := false;
      numThreads := 1;
      this.action := action;
      this.maxCount := maxCount;
      this.countTime := countTime;
      this.cpuSpeedControl := cpuSpeedControl;
      droppedRed := 0;
    }

    /** `on_event`. A start clears the count and the results, a resume keeps
        them; either starts the processing thread unless one is still
        alive (the new thread sets `ai_running`). The end and pause events
        stop the loop. */
    method OnEvent(e: Event, threadAlive: bool) returns (startsThread: bool)
      requires Valid()
      modifies this
      ensures Valid() && numThreads == old(numThreads)
      ensures e == PrintStarted ==> count == 0 && aiResults == []
      ensures e != PrintStarted ==> count == old(count) && aiResults == old(aiResults)
      ensures startsThread <==> (e == PrintStarted || e == PrintResumed) && !threadAlive
      ensures aiRunning == (if startsThread then true
                            else if e in {PrintDone, PrintFailed, PrintCancelled, PrintPaused} then false
                            else old(aiRunning))
    {
      startsThread := false;
      if e == PrintStarted || e == PrintResumed {
        if e == PrintStarted {
          count := 0;
          aiResults := [];
          droppedRed := 0;
        }
        if !threadAlive {
          startsThread := true;
          aiRunning := true;
        }
      } else if e in {PrintDone, PrintFailed, PrintCancelled, PrintPaused} {
        aiRunning := false;
      }
    }

    /** The expiry loop: pop from the left while the oldest result is more
        than `count_time` old, taking one off the count per red result
        popped. */
    method ExpireOld(now: real)
      requires Valid()
      modifies this
      ensures Valid() && droppedRed == old(droppedRed)
      ensures var k := ExpiredPrefix(old(aiResults), now, countTime);
        aiResults == old(aiResults)[k..] && count == old(count) - RedCount(old(aiResults)[..k])
      ensures aiRunning == old(aiRunning) && numThreads == old(numThreads)
    {
      ghost var k := 0;
      while |aiResults| > 0 && now - aiResults[0].time > countTime
        invariant 0 <= k <= |old(aiResults)|
        invariant aiResults == old(aiResults)[k..]
        invariant forall i :: 0 <= i < k ==> Expired(old(aiResults)[i], now, countTime)
        invariant count == old(count) - RedCount(old(aiResults)[..k])
        invariant Valid() && droppedRed == old(droppedRed)
        invariant aiRunning == old(aiRunning) && numThreads == old(numThreads)
        decreases |aiResults|
      {
        var head := aiResults[0];
        aiResults := aiResults[1..];
        if head.severity > RedLevel {
          count := count - 1;
        }
        assert old(aiResults)[..k + 1] == old(aiResults)[..k] + [head];
        RedCountAppend(old(aiResults)[..k], head);
        k := k + 1;
      }
      assert k == ExpiredPrefix(old(aiResults), now, countTime);
    }

    /** `perform_action`. */
    method PerformAction() returns (c: PrinterCommand)
      ensures c == Command(action)
    {
      if action == 1 {
        c := PausePrint;
      } else if action == 2 {
        c := CancelPrint;
      } else {
        c := LeaveAlone;
      }
    }

    /** Storing one inference result: a result above 0.33 is appended
        (dropping the oldest when the deque is full); one above 0.66 also
        raises the count, and the configured action runs once the count
        reaches `max_count`. */
    method Record(severity: real, time: real, resultImage: string) returns (command: Option<PrinterCommand>)
      requires Valid()
      modifies this
      ensures Valid()
      ensures severity <= YellowLevel ==> aiResults == old(aiResults)
      ensures severity > YellowLevel ==> aiResults == Pushed(old(aiResults), StoredResult(time, severity, resultImage))
      ensures count == old(count) + (if severity > RedLevel then 1 else 0)
      ensures command.Some? <==> severity > RedLevel && count >= maxCount
      ensures command.Some? ==> command.value == Command(action)
      ensures aiRunning == old(aiRunning) && numThreads == old(numThreads)
    {
      command := None;
      if severity > YellowLevel {
        var entry := StoredResult(time, severity, resultImage);
        PushedRedCount(aiResults, entry);
        if |aiResults| == Capacity && IsRed(aiResults[0]) {
          droppedRed := droppedRed + 1;
        }
        aiResults := Pushed(aiResults, entry);
        if severity > RedLevel {
          count := count + 1;
          if count >= maxCount {
            var c := PerformAction();
            command := Some(c);
          }
        }
      }
    }

    /** One pass of `process_ai_image`'s loop while printing is checked:
        expire old results, then (given a picture and an inference result)
        store the new one. */
    method ProcessIteration(printing: bool, now: real, snapshot: Snapshot, severity: Option<real>,
                            storeTime: real, resultImage: string) returns (outcome: Iteration)
      requires Valid()
      modifies this
      ensures Valid() && aiRunning == old(aiRunning) && numThreads == old(numThreads)
      ensures !printing ==> outcome == NotPrinting && count == old(count) && aiResults == old(aiResults)
      ensures printing ==>
        var k := ExpiredPrefix(old(aiResults), now, countTime);
        var kept := old(aiResults)[k..];
        var base := old(count) - RedCount(old(aiResults)[..k]);
        if snapshot == Picture && severity.Some? then
          outcome.Processed?
          && aiResults == (if severity.value > YellowLevel
                           then Pushed(kept, StoredResult(storeTime, severity.value, resultImage)) else kept)
          && count == base + (if severity.value > RedLevel then 1 else 0)
          && (outcome.command.Some? <==> severity.value > RedLevel && count >= maxCount)
        else
          aiResults == kept && count == base
          && outcome == (if snapshot == FetchFailed then NoSnapshot
                         else if snapshot == Unreadable then ThreadDied else InferenceFailed)
    {
      if !printing {
        return NotPrinting;
      }
      ExpireOld(now);
      if snapshot == FetchFailed {
        return NoSnapshot;
      }
      if snapshot == Unreadable {
        return ThreadDied;
      }
      if severity.None? {
        return InferenceFailed;
      }
      var command := Record(severity.value, storeTime, resultImage);
      outcome := Processed(command);
    }

    /** `_thread_calculation`. */
    method ThreadCalculation(cores: nat)
      requires Valid()
      modifies this
      ensures numThreads == ThreadCount(cores, cpuSpeedControl)
      ensures numThreads >= 1 && IsPowerOfTwo(numThreads)
      ensures Valid() && count == old(count) && aiResults == old(aiResults) && aiRunning == old(aiRunning)
    {
      numThreads := ThreadCount(cores, cpuSpeedControl);
    }

    /** The freshness test of `check`: the newest stored result image, if
        there is one and it is at most five seconds old. */
    method Check(now: real) returns (image: Option<string>)
      ensures image.Some? <==> |aiResults| > 0 && now - aiResults[|aiResults| - 1].time <= FreshWindow
      ensures image.Some? ==> image.value == aiResults[|aiResults| - 1].resultImage
    {
      if |aiResults| > 0 && now - aiResults[|aiResults| - 1].time <= FreshWindow {
        image := Some(aiResults[|aiResults| - 1].resultImage);
      } else {
        image := None;
      }
    }
  }

  /** A result just stored is what `check` serves for the next five
      seconds. */
  lemma StoredIsServed(rs: seq<StoredResult>, x: StoredResult, now: real)
    requires |rs| <= Capacity && x.time <= now <= x.time + FreshWindow
    ensures var r := Pushed(rs, x); |r| > 0 && now - r[|r| - 1].time <= FreshWindow && r[|r| - 1] == x
  {
  }
}
