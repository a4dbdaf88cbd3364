/** One iteration of the local monitor loop: run the inference directly,
    count red results in the window and stop once the count exceeds
    `max_count`. The severity the inference returns is a parameter. */
module Monitor {
  import opened FailureWindow

  method MonitorStep(w: FailureCounter, severity: real, stamp: real, now: real)
    returns (stop: bool, colour: Colour)
    modifies w
    ensures colour == ConsoleColour(severity)
    ensures w.timestamps == Prune(old(w.timestamps) + (if severity > RedLevel then [stamp] else []), now, w.countTime)
    ensures w.count == |w.timestamps|
    ensures forall t :: t in w.timestamps ==> now - t <= w.countTime
    ensures stop <==> w.count > w.maxCount
  {
    colour := ConsoleColour(severity);
    stop := w.Observe(severity, stamp, now);
  }
}
