# Telemetry viewer: frame reader, resync buffer and plot limits

A Dafny model of the data logic of `TelemetryViewer/telemetry-viewer.py`, a small script
that reads fixed-width frames of numeric samples from a serial port and draws them as a
scrolling line plot. Three pieces are modelled:

- **The sample buffers** (`Series`): the parallel lists `time_axis` / `data_pnts` as a
  `TimeSeries(times, values)`, and one reader-loop iteration as the pure function `Step`:
  append the timestamp and the value, then clear both lists if the newest timestamp is below
  `times[len - 2]`. Python's negative indexing is modelled (`PyIndex`): for a one-element
  list `times[-1]` is the newest element itself, so a sample added to empty buffers is never
  dropped. `Run` folds `Step` over decoded frames.
- **The byte stream** (`Ascii`, `Wire`): the serial input as a finite `seq<byte>`. `Open`
  is the start-up (`readline`, 8-byte title) followed by the reader thread (`readline`, then
  the frame loop). Each frame is four 8-byte fields: label (ignored), time, value,
  terminator (never checked). Fields are decoded by `DecodeInt`. Where the program would
  block because bytes are missing, the model stops with `Starved`. Where `int()` would raise,
  it stops with `BadTime` or `BadValue`. The buffers are kept as they were at that moment.
  A title that is not valid UTF-8 makes `decode()` raise before the reader thread starts;
  the model then has no title, no samples and the halt `BadTitle` (`Utf8.IsUtf8` is the
  strict well-formedness rule of section 3.9 of the Unicode Standard).
  The time is appended before the value field is read, so at such a stop `times` can be one
  longer than `values`.
- **The plot limits** (`Plot`): the numbers `update_plot` passes to `set_xlim` and
  `set_ylim`, as `Option<Window>`; `None` means that axis gets no new limits.

Observations the proofs make precise:

- The code clears both lists *after* appending the new sample, so the sample whose time
  went backwards is dropped too. With times 10 then 5, the buffers end up empty
  (`Series.BackwardPairEmpties`). The comment above the zig-zag check says only the
  previous values are thrown out, which would leave `times = [5]`. The model follows the code.
- The x-window's left edge is clamped at 0: it is `max(0, last - 50)`. For a negative newest
  time the left edge is therefore not below the right one (`Plot.XWindow`).
- The reader thread starts with its own `readline`. If the frames follow the 8-byte title
  directly, that `readline` consumes the first frame up to its `"end_msg\n"` terminator, so
  that sample is never plotted (`Wire.OpenDropsFirstFrame`).

## Model

| member | source | states |
|---|---|---|
| Ascii.DecodeInt | TelemetryViewer/telemetry-viewer.py:39-46 | `int()` on a field succeeds exactly on numerals (digits, optionally after one '-'). A negative result has a leading '-'. Without a sign the result is in `0..10^n - 1` for n digits; with one, its magnitude is below `10^(n-1)`. |
| Ascii.DecodedFits | TelemetryViewer/telemetry-viewer.py:39-46 | Whatever an 8-byte field decodes to lies in `-9999999..99999999`, the range a field can carry. |
| Ascii.Value | TelemetryViewer/telemetry-viewer.py:41 | The value of n decimal digits is below 10^n. |
| Ascii.DecodeEncode | TelemetryViewer/telemetry-viewer.py:39-46 | Round trip: every integer that fits an 8-byte field, once written zero-padded, is decoded back to itself. |
| Ascii.ValueIgnoresLeadingZeros | TelemetryViewer/telemetry-viewer.py:41 | Zero-padding a numeral on the left does not change the number `int()` reads from it. |
| Series.PyIndex | TelemetryViewer/telemetry-viewer.py:55 | A Python index in `-n..n-1` names a real position. A negative index counts from the end. |
| Series.Resync | TelemetryViewer/telemetry-viewer.py:55-57 | The zig-zag check either leaves the buffers alone or empties both. With two or more timestamps it empties them exactly when the newest is below the one before it. A one-element buffer is never emptied, because it is compared with itself. |
| Series.Step | TelemetryViewer/telemetry-viewer.py:38-57 | If the new time is below the previous newest time, both lists end up empty and the new sample is gone too. Otherwise `(t, v)` is appended at the end and all earlier entries are unchanged. A sample added to empty buffers is kept. Equal lengths are preserved. |
| Series.StepKeepsOrNot | TelemetryViewer/telemetry-viewer.py:55-57 | The buffers are empty after a frame exactly when that frame's time went backwards. |
| Series.StepKeepsOrder | TelemetryViewer/telemetry-viewer.py:55-57 | Non-decreasing timestamps are preserved by every frame. |
| Series.Run | TelemetryViewer/telemetry-viewer.py:34-57 | Over any number of complete frames, equal lengths and non-decreasing times are preserved. In particular they hold from the empty start-up lists. |
| Series.RunSnoc | TelemetryViewer/telemetry-viewer.py:34-57 | Processing one more frame is one more `Step` on the buffers reached so far. |
| Series.RunKeepsSuffix | TelemetryViewer/telemetry-viewer.py:52-57 | From empty buffers, the lists always hold exactly the frames since the last backward jump, in arrival order, without gaps. |
| Series.MonotoneKeepsAll | TelemetryViewer/telemetry-viewer.py:41-47 | With non-decreasing timestamps, after N frames both lists have length N and `times[i]`/`values[i]` are the i-th frame's fields. |
| Series.BackwardJumpClears | TelemetryViewer/telemetry-viewer.py:55-57 | A frame whose time is below the newest kept one leaves both lists empty, whatever was buffered. |
| Series.BackwardPairEmpties | TelemetryViewer/telemetry-viewer.py:55-57 | Frames with times 10 then 5 leave both lists empty. |
| Series.ForwardPairKept | TelemetryViewer/telemetry-viewer.py:39-47 | Frames (1, 50) then (2, 55) give `times = [1, 2]` and `values = [50, 55]`. |
| Wire.SkipLine | TelemetryViewer/telemetry-viewer.py:33 | `readline` fails (would block) exactly when there is no '\n'. Otherwise it returns what follows the first '\n', and nothing before that '\n' is another '\n'. |
| Wire.SkipLineOfLine | TelemetryViewer/telemetry-viewer.py:79 | `readline` on a line followed by anything consumes exactly that line and its '\n'. |
| Wire.Loop | TelemetryViewer/telemetry-viewer.py:34-57 | Where the reader stops inside a frame, and what it leaves behind. A stream that ends before the time field is complete blocks with nothing appended. A time field `int()` rejects kills the thread with the buffers untouched (`BadTime`). Once the time is read it is appended; if the value field is then cut off, the reader blocks (`Starved`); if it is not a numeral, the thread dies (`BadValue`). Either way `times` is one longer and `values` is unchanged. With both fields read but the terminator cut off, both are appended and the reader blocks before the zig-zag check. In general, the lists end up of equal length, or `times` is one longer and the stop fell between the two appends. The loop never fails on the title. |
| Wire.LoopKeepsOrder | TelemetryViewer/telemetry-viewer.py:34-57 | A stream of whole frames, read to its end, leaves the lists of equal length and with non-decreasing times. |
| Wire.Open | TelemetryViewer/telemetry-viewer.py:78-86 | The title, when read, is 8 bytes of valid UTF-8. Without a title there is no sample, and the stop is either starvation or a failed title decode; a failed decode always means no title. Without a first line there is no title and the program waits. If the stream ends inside the title field, `read(8)` waits too: no title and `Starved`, never `BadTitle`. If 8 bytes follow the first line, they are the title exactly when they are UTF-8; otherwise the run ends with `BadTitle`. A valid title with no '\n' after it is shown while the reader thread waits, with empty lists. A bad time field never leaves mismatched lists. |
| Wire.OpenRejectsBadTitle | TelemetryViewer/telemetry-viewer.py:79-86 | After a partial line, an 8-byte title that is not UTF-8 ends the program before the reader thread starts, whatever follows: no title, no samples. |
| Wire.LoopConsumesFrame | TelemetryViewer/telemetry-viewer.py:36-50 | Each iteration consumes exactly 32 bytes and applies `Step` to the time and value fields. |
| Wire.LoopReadsOnlyFields | TelemetryViewer/telemetry-viewer.py:36-50 | Only bytes 8..24 of a frame and the bytes after it affect the result. |
| Wire.LoopIgnoresLabelAndTerminator | TelemetryViewer/telemetry-viewer.py:49-50 | Any label and any terminator, including a wrong one, give the same result. |
| Wire.EncodeFrame | TelemetryViewer/telemetry-viewer.py:36-50 | The sender's 32-byte frame has the label first and the terminator last. Its time and value fields decode to the sample. |
| Wire.LoopReadsEncodedStream | TelemetryViewer/telemetry-viewer.py:34-57 | Reading an encoded stream of frames gives the same buffers as folding `Step` over its samples, then waits for more. |
| Wire.OpenLayout | TelemetryViewer/telemetry-viewer.py:79-81 | After a partial line, 8 bytes of valid UTF-8 are the title, and the reader's own `readline` skips one more line before the first frame. |
| Wire.OpenReadsTitleThenFrames | TelemetryViewer/telemetry-viewer.py:79-81 | The whole program on line, a UTF-8 title, line and frames publishes the title and plots exactly the frames' samples, resynced. |
| Wire.FrameIsOneLine | TelemetryViewer/telemetry-viewer.py:49 | A frame ending in "end_msg\n", with no other '\n', is exactly one line. |
| Wire.OpenDropsFirstFrame | TelemetryViewer/telemetry-viewer.py:33 | When frames follow a UTF-8 title directly, the reader's `readline` swallows the first frame, and only the later ones are plotted. |
| Utf8.IsUtf8 | TelemetryViewer/telemetry-viewer.py:81 | Strict `decode()` succeeds exactly on the well-formed byte sequences of table 3-7 in section 3.9 of the Unicode Standard: no overlong forms, no surrogates, nothing above U+10FFFF, no cut-off characters. A valid sequence starts with a byte that can start a character and ends in an ASCII or continuation byte, so nothing is cut off. |
| Utf8.AsciiIsUtf8 | TelemetryViewer/telemetry-viewer.py:81 | A title of plain ASCII bytes always decodes. |
| Utf8.InvalidByteRejected | TelemetryViewer/telemetry-viewer.py:81 | A byte that never occurs in UTF-8 (0xC0, 0xC1, 0xF5..0xFF), anywhere in the title, makes the decode fail. |
| Utf8.TruncatedRejected | TelemetryViewer/telemetry-viewer.py:81 | ASCII bytes followed by the lead byte of a multi-byte character cut off at the end of the field make the decode fail. |
| Plot.SeqMin | TelemetryViewer/telemetry-viewer.py:19 | `min` is a lower bound of the list and is one of its elements. |
| Plot.SeqMax | TelemetryViewer/telemetry-viewer.py:18 | `max` is an upper bound of the list and is one of its elements. |
| Plot.XWindow | TelemetryViewer/telemetry-viewer.py:13-15 | Limits exist exactly when there are timestamps. Left ≥ 0 and right is one past the newest. The left limit is 0 while the newest time is below 50; from 50 on the width is exactly 51, so the left limit is the newest time minus 50. Left < right exactly when the newest time is ≥ 0. |
| Plot.YWindow | TelemetryViewer/telemetry-viewer.py:17-19 | Limits exist exactly when there are values. Every value lies at least 10 inside both limits. Both limits are met by some value at distance 10, so bottom < top. |
| Plot.XWindowShowsRecent | TelemetryViewer/telemetry-viewer.py:12-15 | On time-ordered buffers, every sample from the last 50 time units (and not before 0) is inside the x-window. |
| Plot.XWindowScrollsForward | TelemetryViewer/telemetry-viewer.py:12-15 | A kept frame never moves either x-limit backwards. |
| Plot.YWindowExample | TelemetryViewer/telemetry-viewer.py:17-19 | Values [10, 30, 20] give y-limits [0, 40]. |
| Plot.XWindowExample | TelemetryViewer/telemetry-viewer.py:13-15 | A newest timestamp of 100 gives x-limits [50, 101]. |

## Left out

- The serial port (`serial.Serial("COM4", 115200, timeout=None)`, line 63) and its blocking
  `read`/`readline`: the input is a finite byte sequence, and a read that would block ends
  the model's run with `Starved`.
- The reader thread, the `keep_reading` flag and the unsynchronised sharing of the lists
  with the plot callback (lines 26, 34, 75, 86, 91). The model has one thread of control. A
  stop request between frames is the same as the stream ending at a frame boundary. A
  concurrent reader can see two transient states. Between the time append (line 41) and
  the value append (line 46), `times` is one longer than `values`; these are the
  `Wire.Loop` mid-frame stops. Between `time_axis.clear()` (line 56) and
  `data_pnts.clear()` (line 57), `times` is empty while `values` is not. The model clears
  both lists in one step and does not represent that second state.
- matplotlib (figure, `set_data`, `set_title`, `FuncAnimation`, `plt.show`): only the
  numbers given to `set_xlim`/`set_ylim` are modelled. `update_plot` has no further logic.
  Because both windows are pure functions, calling them twice on unchanged buffers gives
  the same limits.
- `print` calls: logging only.
- The decoded title string (line 81): the model checks that the 8 bytes are valid UTF-8
  and keeps the title as those raw bytes; it does not compute the code points.
- Ascii.DecodeInt: accepts only digits with an optional leading '-'. Python's `int()` also
  accepts surrounding whitespace, a leading '+' and '_' between digits, so some fields that
  `int()` reads are `None` here.
