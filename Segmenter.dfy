/**
  The keystroke segmentation of the scanner's `keydown` handler, as a state machine over
  key events. A keyboard-wedge scanner types a code as a fast burst of keys ended by Enter;
  the handler keeps the characters typed so far and the time of the previous key, forgets
  the characters when more than 100 ms have passed since that key, and on Enter reports
  the trimmed characters as one scan.
 */
module Segmenter {
  import Text
  import opened Wrappers

  /** Milliseconds between two key events beyond which the buffer is considered stale. */
  const ResetGap: int := 100

  /** The legacy `keyCode` of the Enter key. */
  const EnterKeyCode: int := 13

  /** A `keydown` event: its `key` string, its `keyCode`, and the clock reading
      (`Date.now()`, in milliseconds) the handler takes when it runs. */
  datatype KeyEvent = KeyEvent(key: string, keyCode: int, now: int)

  /** The handler's two fields: `buffer` and `lastKeyTime`. */
  datatype State = State(buffer: string, lastKeyTime: int)

  /** The state after one event, and the code reported to `processScan`, if any. */
  datatype Outcome = Outcome(state: State, scan: Option<string>)

  /** The fields as the constructor sets them. */
  const Initial: State := State("", 0)

  predicate IsEnter(ev: KeyEvent) {
    ev.key == "Enter" || ev.keyCode == EnterKeyCode
  }

  /** A key that stands for a single character; longer names such as `Shift` are dropped. */
  predicate IsCharacter(ev: KeyEvent) {
    |ev.key| == 1
  }

  /** True when more than `ResetGap` ms have passed since the previous key event. */
  predicate IsStale(lastKeyTime: int, now: int) {
    now - lastKeyTime > ResetGap
  }

  /** The buffer once the gap check has run: empty if it was stale. */
  function Live(st: State, now: int): string {
    if IsStale(st.lastKeyTime, now) then "" else st.buffer
  }

  /** One run of the `keydown` handler. */
  function Step(st: State, ev: KeyEvent): Outcome {
    var buffer := Live(st, ev.now);
    if IsEnter(ev) then
      var code := Text.Trim(buffer);
      Outcome(State("", ev.now), if |code| > 0 then Some(code) else None)
    else if IsCharacter(ev) then
      Outcome(State(buffer + ev.key, ev.now), None)
    else
      Outcome(State(buffer, ev.now), None)
  }

  /** What one key event does. */
  lemma StepEffect(st: State, ev: KeyEvent)
    // every event, Enter and dropped keys included, stamps the time
    ensures Step(st, ev).state.lastKeyTime == ev.now
    // Enter empties the buffer whether or not it reports a scan
    ensures IsEnter(ev) ==> Step(st, ev).state.buffer == ""
    // a scan is reported exactly on an Enter that finds non-blank characters, and the
    // code is those characters trimmed
    ensures Step(st, ev).scan.Some? <==> IsEnter(ev) && !Text.AllWhitespace(Live(st, ev.now))
    ensures Step(st, ev).scan.Some? ==>
      Step(st, ev).scan.value == Text.Trim(Live(st, ev.now)) &&
      Text.IsTrimmed(Step(st, ev).scan.value)
    // an Enter that comes after a gap never reports, as the gap emptied the buffer first
    ensures IsEnter(ev) && IsStale(st.lastKeyTime, ev.now) ==> Step(st, ev).scan == None
    // any other key appends itself if it is one character and is otherwise dropped
    ensures !IsEnter(ev) ==>
      Step(st, ev).scan == None &&
      Step(st, ev).state.buffer == Live(st, ev.now) + (if IsCharacter(ev) then ev.key else "")
  {
    Text.TrimEmptyIff(Live(st, ev.now));
    Text.TrimIsTrimmed(Live(st, ev.now));
  }

  /** The gap is measured from the previous key of any kind: a dropped key such as Shift
      within `ResetGap` keeps the buffer alive, so an Enter within `ResetGap` of that key
      still reports the buffer, however long ago its last character was typed. */
  lemma DroppedKeyKeepsBuffer(st: State, ev: KeyEvent, enter: KeyEvent)
    requires !IsEnter(ev) && !IsCharacter(ev) && !IsStale(st.lastKeyTime, ev.now)
    requires IsEnter(enter) && !IsStale(ev.now, enter.now)
    ensures Step(Step(st, ev).state, enter).scan ==
      if Text.AllWhitespace(st.buffer) then None else Some(Text.Trim(st.buffer))
  {
    StepEffect(st, ev);
    StepEffect(Step(st, ev).state, enter);
  }

  /** The state the handler leaves behind when the `processScan` call of a reporting
      Enter throws (because `localStorage.setItem` or `render` fails): the history already
      holds the record, but the handler stops before it empties the buffer, so the buffer
      is as the gap check left it and only the time has been stamped. */
  function Interrupted(st: State, ev: KeyEvent): (r: State)
    ensures r.lastKeyTime == ev.now
    ensures IsEnter(ev) && Step(st, ev).scan.Some? ==>
      Step(st, ev).scan.value == Text.Trim(r.buffer)
  {
    StepEffect(st, ev);
    State(Live(st, ev.now), ev.now)
  }

  /** After an interrupted scan, the next Enter within `ResetGap` reports the same code a
      second time. */
  lemma InterruptedScanRepeats(st: State, ev: KeyEvent, enter: KeyEvent)
    requires IsEnter(ev) && Step(st, ev).scan.Some?
    requires IsEnter(enter) && !IsStale(ev.now, enter.now)
    ensures Step(Interrupted(st, ev), enter).scan == Step(st, ev).scan
  {
    StepEffect(st, ev);
    StepEffect(Interrupted(st, ev), enter);
  }

  /** The number of Enter events in `evs`. */
  function CountEnter(evs: seq<KeyEvent>): nat
  {
    if evs == [] then 0 else (if IsEnter(evs[0]) then 1 else 0) + CountEnter(evs[1..])
  }

  /** The codes one event reports: none or one. */
  function Emitted(o: Outcome): (codes: seq<string>)
    ensures |codes| <= 1
  {
    if o.scan.Some? then [o.scan.value] else []
  }

  /** The state after handling `evs` in order from `st`, and the codes reported, in order. */
  function Run(st: State, evs: seq<KeyEvent>): (r: (State, seq<string>))
    // the state remembers the time of the last event
    ensures evs != [] ==> r.0.lastKeyTime == evs[|evs| - 1].now
    // at most one scan per Enter
    ensures |r.1| <= CountEnter(evs)
    decreases |evs|
  {
    if evs == [] then (st, [])
    else
      var o := Step(st, evs[0]);
      var rest := Run(o.state, evs[1..]);
      (rest.0, Emitted(o) + rest.1)
  }

  /** Every reported code is non-blank and has no whitespace at either end. */
  lemma {:induction false} RunCodesTrimmed(st: State, evs: seq<KeyEvent>)
    ensures forall i :: 0 <= i < |Run(st, evs).1| ==>
      Run(st, evs).1[i] != "" && Text.IsTrimmed(Run(st, evs).1[i])
    decreases |evs|
  {
    if evs != [] {
      StepEffect(st, evs[0]);
      RunCodesTrimmed(Step(st, evs[0]).state, evs[1..]);
    }
  }

  /** Handling `a` and then `b` is handling `a + b`. */
  lemma {:induction false} RunConcat(st: State, a: seq<KeyEvent>, b: seq<KeyEvent>)
    ensures Run(st, a + b) == (Run(Run(st, a).0, b).0, Run(st, a).1 + Run(Run(st, a).0, b).1)
    decreases |a|
  {
    if a == [] {
      assert a + b == b;
      assert Run(st, a) == (st, []);
      assert [] + Run(st, b).1 == Run(st, b).1;
    } else {
      assert (a + b)[0] == a[0];
      assert (a + b)[1..] == a[1..] + b;
      var o := Step(st, a[0]);
      RunConcat(o.state, a[1..], b);
      var ra := Run(o.state, a[1..]);
      var rb := Run(ra.0, b);
      assert Emitted(o) + (ra.1 + rb.1) == (Emitted(o) + ra.1) + rb.1;
    }
  }

  /** The characters the keys of `evs` stand for, in order. */
  function Keys(evs: seq<KeyEvent>): string
  {
    if evs == [] then "" else evs[0].key + Keys(evs[1..])
  }

  /** `evs` is a burst: single-character keys, none of them Enter, each within `ResetGap`
      of the one before. */
  predicate IsBurst(evs: seq<KeyEvent>) {
    (forall i :: 0 <= i < |evs| ==> IsCharacter(evs[i]) && !IsEnter(evs[i])) &&
    (forall i :: 0 < i < |evs| ==> !IsStale(evs[i - 1].now, evs[i].now))
  }

  /** A burst appends its characters to the buffer, once its first key has decided
      whether the old buffer survives, and reports nothing. */
  lemma {:induction false} BurstAccumulates(st: State, evs: seq<KeyEvent>)
    requires evs != [] && IsBurst(evs)
    ensures Run(st, evs) ==
      (State(Live(st, evs[0].now) + Keys(evs), evs[|evs| - 1].now), [])
    decreases |evs|
  {
    StepEffect(st, evs[0]);
    var o := Step(st, evs[0]);
    var tail := evs[1..];
    assert Keys(evs) == evs[0].key + Keys(tail);
    if tail == [] {
      assert Run(o.state, tail) == (o.state, []);
      assert Emitted(o) + [] == [];
      assert evs[0].key + "" == evs[0].key;
    } else {
      assert IsBurst(tail) by {
        forall i | 0 < i < |tail| ensures !IsStale(tail[i - 1].now, tail[i].now) {
          assert tail[i - 1] == evs[i] && tail[i] == evs[i + 1];
        }
      }
      BurstAccumulates(o.state, tail);
      assert tail[0] == evs[1];
      assert Live(o.state, tail[0].now) == o.state.buffer;
      assert o.state.buffer + Keys(tail) == Live(st, evs[0].now) + Keys(evs);
      assert Emitted(o) + [] == [];
    }
  }

  /** The scans an Enter reports on finding `buffer`: its trimmed contents, unless blank. */
  function ScanOf(buffer: string): seq<string> {
    if Text.AllWhitespace(buffer) then [] else [Text.Trim(buffer)]
  }

  /** An Enter within `ResetGap` of the previous key reports the buffer's scan and
      empties the buffer. */
  lemma EnterReports(mid: State, enter: KeyEvent)
    requires IsEnter(enter) && !IsStale(mid.lastKeyTime, enter.now)
    ensures Run(mid, [enter]) == (State("", enter.now), ScanOf(mid.buffer))
  {
    StepEffect(mid, enter);
    var o := Step(mid, enter);
    assert Emitted(o) == ScanOf(mid.buffer);
    assert [enter][1..] == [];
    assert Run(mid, [enter]) == (o.state, Emitted(o) + []);
    assert Emitted(o) + [] == Emitted(o);
  }

  /** A burst that follows a pause of more than `ResetGap` and is ended by an Enter within
      `ResetGap` reports exactly one scan, its trimmed characters, when they are not blank,
      whatever was in the buffer before; and it leaves the buffer empty. */
  lemma BurstThenEnter(st: State, evs: seq<KeyEvent>, enter: KeyEvent)
    requires evs != [] && IsBurst(evs) && IsStale(st.lastKeyTime, evs[0].now)
    requires IsEnter(enter) && !IsStale(evs[|evs| - 1].now, enter.now)
    ensures Run(st, evs + [enter]) ==
      (State("", enter.now),
       if Text.AllWhitespace(Keys(evs)) then [] else [Text.Trim(Keys(evs))])
  {
    BurstAccumulates(st, evs);
    var mid := State(Keys(evs), evs[|evs| - 1].now);
    assert "" + Keys(evs) == Keys(evs);
    EnterReports(mid, enter);
    RunConcat(st, evs, [enter]);
    assert [] + ScanOf(Keys(evs)) == ScanOf(Keys(evs));
  }

  /** After a pause of more than `ResetGap`, what happens no longer depends on what was in
      the buffer: stale characters can never reach a scan. */
  lemma StaleBufferForgotten(b1: string, b2: string, t: int, evs: seq<KeyEvent>)
    requires evs != [] && IsStale(t, evs[0].now)
    ensures Run(State(b1, t), evs) == Run(State(b2, t), evs)
  {
    assert Step(State(b1, t), evs[0]) == Step(State(b2, t), evs[0]);
  }
}
