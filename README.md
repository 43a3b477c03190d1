# Keyboard-wedge scanner page: segmentation, history and escaping

A barcode scanner in keyboard-wedge mode types each code as a fast burst of key presses
and ends it with Enter. The page's `ScannerApp` object turns these presses into scans and
keeps a newest-first history of them. This project models three parts of that object and
proves what they promise:

- **Keystroke segmentation** (`Segmenter`, plus `App.ScannerApp.KeyDown`). The `keydown`
  handler keeps `buffer` and `lastKeyTime`. On every key it first empties the buffer if
  more than 100 ms have passed since the previous key. Then it records the time. Enter
  (`key == "Enter"` or `keyCode == 13`) reports `trim(buffer)` when that is not empty, and
  empties the buffer, unless `processScan` throws (see below). Any other key whose `key`
  is one character is appended. All other keys are dropped. `Step` is one run of the
  handler and `Run` is a sequence of runs.
- **Bounded history** (`ScanHistory`, plus `App.ScannerApp.ProcessScan`, `ClearHistory`
  and `LoadHistory`). `processScan` puts the new record in front and drops the last record
  when the list is longer than 100. `clearHistory` empties the list when the user confirms.
- **HTML escaping** (`Html`). `escapeHtml` replaces `& < > " '` by `&amp; &lt; &gt; &quot;
  &#039;`. `Unescape` is its partner and reads the five references back.
- `Text.Trim` models JavaScript's `String.prototype.trim` over the ECMAScript WhiteSpace
  and LineTerminator characters.

`Date.now()` in the handler is the event's `now` field. The `new Date()` in `processScan`
is a `Clock` parameter that holds the two locale strings (taken as opaque) and the epoch
milliseconds. The `confirm()` answer is a boolean parameter. The parsed stored history is
an `Option` parameter. Whether `processScan` returns normally or throws (when
`localStorage.setItem` or `render` fails) is a boolean parameter of `KeyDown`.

What the code does, and so what the model does:
- The code has no idle-completion timer and no length-based trigger. A scan completes
  only on Enter.
- The code runs the 100 ms gap check and stamps `lastKeyTime` on every key, including
  Enter and dropped keys such as Shift. So an Enter that arrives more than 100 ms after the
  previous key finds an empty buffer and reports nothing. A dropped key such as Shift
  within 100 ms keeps the buffer alive, so an Enter more than 100 ms after the last
  character can still report it.
- Records hold `ts`, the epoch milliseconds of `processScan`'s clock. There is no sequence
  number.
- `loadHistory` does not check the length of what it loads, and `processScan` pops only
  once. A loaded history longer than 100 therefore stays that long. The capacity bound is
  proved for histories that start within capacity.

## Model

| member | source | states |
|---|---|---|
| Segmenter.Step | app.js:31-57 | One run of the `keydown` handler, in which `processScan` returns normally, on the buffer and the previous key time. It has no contract of its own: `StepEffect` specifies it, and `Run`, `BurstAccumulates`, `EnterReports` and `BurstThenEnter` follow it over sequences of keys. |
| Segmenter.StepEffect | app.js:31-57 | Every key stamps `lastKeyTime`. A key more than 100 ms after the previous one clears the buffer first. Enter reports exactly when the buffer (after the gap check) is not all whitespace, and the reported code is that buffer trimmed, with no whitespace at either end. Enter always leaves the buffer empty. An Enter after a gap never reports. A one-character non-Enter key appends exactly that character. Any other key leaves the buffer as the gap check left it. |
| Segmenter.Run | app.js:31-57 | After a sequence of key events, `lastKeyTime` is the time of the last event, and there are at most as many scans as Enter events. |
| Segmenter.RunCodesTrimmed | app.js:41-46 | Every code that a sequence of key events reports is non-empty and has no whitespace at either end. |
| Segmenter.RunConcat | app.js:31-57 | Handling `a` and then `b` gives the same state and the same scans, in order, as handling `a + b`. |
| Segmenter.BurstAccumulates | app.js:34-56 | Single-character, non-Enter keys, each within 100 ms of the one before, append their characters in order to the buffer the first key leaves, and report nothing. |
| Segmenter.EnterReports | app.js:40-50 | An Enter within 100 ms of the previous key reports the buffer's trimmed contents unless they are blank, and empties the buffer. |
| Segmenter.BurstThenEnter | app.js:31-57 | A burst after a pause of more than 100 ms, ended by an Enter within 100 ms, reports exactly one scan, the trimmed characters of the burst, when they are not blank. Otherwise it reports none. Earlier buffer contents never matter, and the buffer ends empty. |
| Segmenter.StaleBufferForgotten | app.js:34-37 | Once more than 100 ms pass before the next key, what follows does not depend on what the buffer held. |
| Segmenter.DroppedKeyKeepsBuffer | app.js:34-38 | A dropped key (not Enter, not one character) within 100 ms, followed by an Enter within 100 ms of it, still reports the buffer's trimmed contents unless they are blank: the gap is measured from the previous key of any kind. |
| Segmenter.Interrupted | app.js:40-48 | The state a reporting Enter leaves when `processScan` throws: the time is stamped, and the buffer still holds the characters whose trimmed form was just reported. |
| Segmenter.InterruptedScanRepeats | app.js:40-48 | After such an interrupted scan, the next Enter within 100 ms reports the same code again. |
| App.ScannerApp.constructor | app.js:17-19 | The object starts with an empty history, an empty buffer and `lastKeyTime` 0. In the source the constructor goes on to call `init()` (app.js:21), which calls `loadHistory()` (app.js:66), so a page load is `constructor()` followed by `LoadHistory`. |
| App.ScannerApp.KeyDown | app.js:31-57 | The reported code is that of `Step`. The new `buffer`/`lastKeyTime` are those of `Step` too, except when `processScan` throws on a reported code: then the handler stops before line 48 and leaves the `Interrupted` state. The history gains the record of the reported code through `Push`, and is unchanged when nothing is reported. A history within capacity stays within capacity. |
| App.ScannerApp.ProcessScan | app.js:84-94 | The history becomes `Push(old history, record of code and clock)`. A history within capacity stays within it. |
| App.ScannerApp.ClearHistory | app.js:139-141 | When confirmed the history becomes empty. Otherwise it is unchanged. |
| App.ScannerApp.LoadHistory | app.js:134-137 | A stored history replaces the current one unchecked, at any length. With nothing stored the history is kept. |
| ScanHistory.Record | app.js:85-91 | The record literal `{code, time, fullTime, ts}` built from the code and the clock reading. It has no contract of its own; `ProcessScan` and `KeyDown` state the history it enters. |
| ScanHistory.Push | app.js:93-94 | The new record is at index 0 and the old records follow in their old order. Only the oldest is dropped, and only when the old length was at least 100. So the length grows by one below capacity and is unchanged at or above it, and a history of at most 100 stays at most 100. |
| ScanHistory.PushEvicts | app.js:93-94 | At exactly 100, the result is the new record followed by the first 99 old ones. Below 100, nothing is dropped. |
| ScanHistory.PushAllKeepsNewest | app.js:93-94 | Recording any number of scans into a history of at most 100 gives the newest scans first, then the old history, cut to 100 entries. So after 101 scans the oldest is gone and the remaining 100 are the most recent, newest first. |
| Html.EscapeChar | app.js:165-168 | A replacement starts with `&` exactly when the character is one of the five. Any other character maps to itself. |
| Html.EscapeHtml | app.js:164-168 | The output is at least as long as the input. It contains none of `< > " '`, and every `&` in it opens one of `&amp; &lt; &gt; &quot; &#039;`. |
| Html.EscapedConcat | app.js:164-168 | Putting one character's replacement in front of escaped text keeps the text escaped. No reference straddles the boundary. |
| Html.EscapeHtmlConcat | app.js:164-168 | Escaping distributes over concatenation, so each character is rewritten on its own and order is kept. |
| Html.EscapeHtmlPlain | app.js:164-168 | Text without any of `& < > " '` passes through unchanged. |
| Html.UnescapeEscapeHtml | app.js:164-168 | Unescaping the escaped text gives back the original, so escaping loses nothing. |
| Text.Trim | app.js:42 | `String.prototype.trim`. It has no contract of its own: `TrimSlice`, `TrimIsTrimmed`, `TrimEmptyIff` and `TrimIdentity` specify it. |
| Text.LeadingWhitespace | app.js:42 | The number of whitespace characters that start the string. The next character, if any, is not whitespace. |
| Text.TrailingWhitespace | app.js:42 | The number of whitespace characters that end the string. The character before them, if any, is not whitespace. |
| Text.TrimSlice | app.js:42 | `trim(s)` is the contiguous part of `s` after its leading whitespace, and everything after it is whitespace. |
| Text.TrimIsTrimmed | app.js:42 | `trim(s)` has no whitespace at either end. |
| Text.TrimEmptyIff | app.js:42-44 | `trim(s)` is empty exactly when `s` is all whitespace. |
| Text.TrimIdentity | app.js:42 | `trim` is idempotent, and leaves a string unchanged exactly when it has no whitespace at either end. |

## Left out

- DOM work: element lookups, listener registration, `input.value = ''`, `render` and its
  templates (app.js:8-15, 49, 59-64, 103-128). It is presentation. Only the fact that
  `render` may throw (it writes to elements it does not check for) is kept, as the
  `processScanReturns` parameter of `KeyDown`.
- `forceFocus` (app.js:72-82): an interval timer and click listener that keep the input
  focused. It is a UI concern with no effect on the state modelled here.
- `saveHistory` and the `localStorage` removal in `clearHistory` (app.js:130-132, 142).
  They are foreign storage calls. Only the fact that `saveHistory` or `render` may throw is
  kept, as the `processScanReturns` parameter of `KeyDown`.
- `loadHistory`'s `localStorage.getItem` and `JSON.parse` (app.js:135-136). They are
  foreign calls. The model takes the parsed array as input, and a parse failure, which
  throws, is not modelled.
- `beep` (app.js:147-162): Web Audio output with every error swallowed. It has no effect on
  the state.
- `log` (app.js:171-178): debug output to the page.
- The locale formatting of `time` and `fullTime` (app.js:88-89). These strings are opaque
  inputs.
- App.ScannerApp.KeyDown: `e.key.length` counts UTF-16 code units, and the model counts
  Unicode scalar values. A key outside the Basic Multilingual Plane has length 2 in
  JavaScript and is dropped there, but it would be appended here.
- Text.Trim: whitespace is the ECMAScript WhiteSpace and LineTerminator set with the Zs
  category written out as of current Unicode. A later Unicode version could add Zs
  characters.
