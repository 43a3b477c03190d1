/**
  The scanner page's controller object: the `keydown` handler with its `buffer` and
  `lastKeyTime` fields, and the history it records scans into. Each method is proved
  against the state machine in `Segmenter` and the history update in `ScanHistory`.
 */
module App {
  import Text
  import opened Wrappers
  import opened Segmenter
  import opened ScanHistory

  class ScannerApp {
    var history: seq<ScanRecord>
    var buffer: string
    var lastKeyTime: int

    /** The handler's part of the object's state. */
    function Segmentation(): State
      reads this
    {
      State(buffer, lastKeyTime)
    }

    /** The history is empty, the buffer empty, and the previous key time zero. A page load
        is this constructor followed by `LoadHistory`, which `init` calls. */
    constructor ()
      ensures history == [] && Segmentation() == Initial
    {
      history := [];
      buffer := "";
      lastKeyTime := 0;
    }

    /** `loadHistory`: a stored history, once parsed, replaces the current one as it is,
        whatever its length; with nothing stored the history is kept. */
    method LoadHistory(stored: Option<seq<ScanRecord>>)
      modifies this`history
      ensures history == if stored.Some? then stored.value else old(history)
    {
      if stored.Some? {
        history := stored.value;
      }
    }

    /** The `keydown` handler. `ev.now` is the handler's own clock reading and `clock` the
        one `processScan` takes. It returns the code it passed to `processScan`, if any.
        `processScanReturns` says whether that call returns normally; when it is false,
        `saveHistory` or `render` threw after the history was updated, and the exception
        leaves the handler before it empties the buffer. */
    method KeyDown(ev: KeyEvent, clock: Clock, processScanReturns: bool)
      returns (scan: Option<string>)
      modifies this
      ensures scan == Step(old(Segmentation()), ev).scan
      ensures Segmentation() ==
        if scan.Some? && !processScanReturns then Interrupted(old(Segmentation()), ev)
        else Step(old(Segmentation()), ev).state
      ensures history ==
        if scan.Some? then Push(old(history), Record(scan.value, clock)) else old(history)
      ensures |old(history)| <= Capacity ==> |history| <= Capacity
    {
      var now := ev.now;
      if now - lastKeyTime > ResetGap {
        buffer := "";
      }
      lastKeyTime := now;
      scan := None;

      if ev.key == "Enter" || ev.keyCode == EnterKeyCode {
        var code := Text.Trim(buffer);
        if |code| > 0 {
          ProcessScan(code, clock);
          scan := Some(code);
          if !processScanReturns {
            return;
          }
        }
        buffer := "";
        return;
      }

      if |ev.key| == 1 {
        buffer := buffer + ev.key;
      }
    }

    /** `processScan`: puts the new record in front and drops the last record once the
        history is longer than `Capacity`. */
    method ProcessScan(code: string, clock: Clock)
      modifies this`history
      ensures history == Push(old(history), Record(code, clock))
      ensures |old(history)| <= Capacity ==> |history| <= Capacity
    {
      history := [Record(code, clock)] + history;
      if |history| > Capacity {
        history := history[..|history| - 1];
      }
    }

    /** `clearHistory`: empties the history when the user confirms, and otherwise
        changes nothing. */
    method ClearHistory(confirmed: bool)
      modifies this`history
      ensures history == if confirmed then [] else old(history)
    {
      if !confirmed {
        return;
      }
      history := [];
    }
  }
}
