/** One iteration of the HTTP backend loop: post the picture, read the
    severity from the JSON reply, count red results in the window and stop
    on a failed reply, an unexpected severity format or too many failures.
    The HTTP exchange is a parameter (whether the reply was ok, and its
    `severity`, which defaults to 0 when absent). */
module Backend {
  import opened Common
  import opened FailureWindow

  method BackendStep(w: FailureCounter, ok: bool, severity: Json, stamp: real, now: real)
    returns (stop: bool, colour: Option<Colour>)
    modifies w
    ensures !ok || !ReadSeverity(severity).Level? ==>
      stop && colour.None? && w.timestamps == old(w.timestamps) && w.count == old(w.count)
    ensures ok && ReadSeverity(severity).Level? ==>
      var v := ReadSeverity(severity).value;
      colour == Some(ConsoleColour(v))
      && w.timestamps == Prune(old(w.timestamps) + (if v > RedLevel then [stamp] else []), now, w.countTime)
      && w.count == |w.timestamps|
      && (stop <==> w.count > w.maxCount)
  {
    colour := None;
    if !ok {
      return true, colour;
    }
    var reading := ReadSeverity(severity);
    if !reading.Level? {
      return true, colour;
    }
    colour := Some(ConsoleColour(reading.value));
    stop := w.Observe(reading.value, stamp, now);
  }
}
