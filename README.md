# Webcam pulse detector: controller and image combining, in Dafny

This project models two deterministic pieces of a webcam heart-rate
application (Python, OpenCV). The pulse estimation itself is not part of it.

- **`combine`** (`lib/interface.py`) places two images side by side, both
  aligned to the top, in a zero-filled canvas. Module `Interface` models it.
  An image is an `array3<int>` indexed `[row, column, channel]`. The canvas is
  allocated filled with zeros, then two block copies fill it in place, as the
  two numpy slice assignments do. numpy's rule for the copy of `right` is
  modelled too: `right` must have as many channels as `left`, or exactly one
  channel, which is then repeated. Any other channel count is the
  `ChannelMismatch` error, where numpy raises `ValueError`.
- **`getPulseApp`** (`get_pulse.py`) is the application controller. Module
  `GetPulse` models it as class `App`, with the pulse processor reduced to class
  `Processor` and its `findFaces` flag. The controller's parts are:
  - reading the `--udp ip[:port]` argument (`ParseUdp`);
  - probing cameras 0 to 2 into the camera list (`ProbeCameras`);
  - cycling the selected camera (`ToggleCam`);
  - the face-lock and plot-display toggles (`ToggleSearch`,
    `ToggleDisplayPlot`);
  - naming the CSV export file (`WriteCsv`);
  - the key handler (`KeyHandler`), which masks the key to its low byte, exits
    on escape, and otherwise runs the command bound to `s`, `d`, `c` or `f`.

  The state the toggles change is summed up as a value, `UiState`. Pure
  functions say what each command does to it, and lemmas about those functions
  state the properties:
  - the camera index stays in range after any series of commands;
  - as many camera switches as there are cameras bring the selection back to
    where it started;
  - showing the plot locks the face, and hiding the plot leaves it locked.

  The methods of `App` are proved to implement these functions. Windows,
  printing, the CSV file, releasing cameras and exiting are recorded as
  `Effect`s in a ghost log.
- Module `Text` models the Python string built-ins the controller relies on:
  `str.split` and `str.replace` with one-character arguments, and `int()` in
  base 10. The model of `int()` skips ASCII white space around the number and
  keeps Python's default limit of 4300 digits. Each has its partner: `Join` for `Split`, and the
  decimal formatting `FormatInt` for `ParseInt`.

Inputs the code reads from the outside world become parameters:
- whether each camera delivers a frame is `probe: seq<bool>`;
- the key code returned by `waitKey` is `key`;
- `datetime.now()`, as text, is `now`;
- the initial `find_faces` setting of the processor is `findFaces`. It is set
  in `lib/processors.py`, which is not part of this model.

## Model

| member | source | states |
|---|---|---|
| `Interface.Combine` | lib/interface.py:51-75 | The canvas has height max(left, right), width left + right, and left's channels. It holds `left` in its top-left block and `right` (channels broadcast) in the block to its right, and zero everywhere else. It is a fresh array, and neither input is modified. A channel count numpy cannot broadcast gives `ChannelMismatch`, and that is the only failure. |
| `Interface.CopyBlock` | lib/interface.py:72-73 | A slice assignment `dst[:h, col:col+w] = src`: the block receives `src` with its channels broadcast, and every cell outside the block keeps its value. |
| `Text.Split` | get_pulse.py:36 | `str.split(sep)`: there is one piece more than there are separators, no piece contains the separator, and joining the pieces with the separator gives back the string. |
| `Text.SplitAtOnly` | get_pulse.py:36 | A string with exactly one separator splits into exactly the text before it and the text after it. |
| `Text.Replace` | get_pulse.py:92 | `str.replace` with one-character arguments: the length is kept, every occurrence of the target becomes the replacement, and every other character is unchanged. |
| `Text.TrimStart` | get_pulse.py:37 | The white-space stripping inside `int()`: the result is the suffix left after every leading space is dropped, and it does not start with a space. |
| `Text.TrimEnd` | get_pulse.py:37 | The same stripping at the end of the string: the result is the prefix left after every trailing space is dropped. |
| `Text.ParseInt` | get_pulse.py:37 | `int()` of the port text. Text that is empty once white space is skipped is refused. Accepted text ends in a digit, and a negative value has a leading `-`. |
| `Text.ParseIntFormat` | get_pulse.py:37 | `int(str(n)) == n` for every integer of at most 4300 digits, with or without white space around the digits. Python refuses both conversions beyond 4300 digits. |
| `Text.ParseIntAccepts` | get_pulse.py:37 | `int()` accepts exactly the texts that are, once white space is skipped, an optional `+` or `-` before a digit group: digits with single `_` between them, starting and ending in a digit, of at most 4300 digits. Everything else is refused. |
| `Text.ParseIntValue` | get_pulse.py:37 | Every accepted text (white space, an optional sign, a digit group, white space) has the value of its digits with the `_` dropped, negated under `-`. |
| `Text.ParseIntRefusedExamples` | get_pulse.py:37 | `int("8o80")` and `int("1__0")` are refused. |
| `Text.ParseIntValueExamples` | get_pulse.py:37 | `int(" +5 ") == 5`, `int("007") == 7` and `int("1_000") == 1000`. |
| `Text.ParseIntTooManyDigits` | get_pulse.py:37 | A run of more than 4300 digits is refused, as `int()` refuses it under Python's default digit limit. |
| `GetPulse.ParseUdp` | get_pulse.py:26-38 | UDP is off exactly when the argument is missing or empty. A host without `:` gets port 5005. More than one `:` is an unpacking error, and the error reports the number of fields. A host that is accepted never contains `:`. |
| `GetPulse.ParseUdpHostPort` | get_pulse.py:35-37 | With exactly one `:`, the host is the text before it. The port is `int()` of the text after it, and a port `int()` refuses is a `BadPort` error. |
| `GetPulse.UdpRoundTrip` | get_pulse.py:29-38 | Every endpoint whose host has no `:`, and whose port has at most 4300 digits, is read back exactly from its `host:port` text. |
| `GetPulse.ProbeCameras` | get_pulse.py:43-50 | The list holds one to three cameras, numbered 0, 1, 2 in order. Camera 0 is always kept. Every later camera in the list is valid. The list stops short only at an invalid camera after the first. |
| `GetPulse.NextCamera` | get_pulse.py:80-85 | With at most one camera the selection does not move. Otherwise the next index stays inside the camera list. |
| `GetPulse.CycleIsOffset` | get_pulse.py:84-85 | After k camera switches among n > 1 cameras, the index is (start + k) mod n. |
| `GetPulse.CycleReturns` | get_pulse.py:84-85 | n camera switches among n cameras return to the starting camera. |
| `GetPulse.ToggleCamUi` | get_pulse.py:76-85 | With several cameras, a switch moves to `NextCamera`, turns face search on and closes the plot. With one camera it changes nothing. The index stays in range. |
| `GetPulse.ToggleSearchUi` | get_pulse.py:97-105 | `s` flips face search once and changes nothing else. |
| `GetPulse.CamPresses` | get_pulse.py:76-85 | k presses of `c` move the selection exactly as k camera switches (`Cycle`) do. |
| `GetPulse.CamPressesReturn` | get_pulse.py:84-85 | As many presses of `c` as there are cameras bring the selection back to where it started. |
| `GetPulse.ToggleDisplayPlotUi` | get_pulse.py:107-122 | The plot flag flips and the camera is kept. Hiding the plot leaves face search as it was. After the plot is shown, face search is off. |
| `GetPulse.RunAllKeepsCameraInRange` | get_pulse.py:140-157 | No series of key commands moves the selected camera outside the camera list. |
| `GetPulse.PlotOnOffKeepsLock` | get_pulse.py:111-119 | Showing and then hiding the plot leaves face search off, whatever it was before, for any camera count. |
| `GetPulse.Sanitise` | get_pulse.py:92 | Every `:` and `.` becomes `_`, every other character is kept, and none of either is left. |
| `GetPulse.CsvFileName` | get_pulse.py:91-94 | The file name is `Webcam-pulse`, then the clock reading character by character with every `:` and `.` turned into `_`, then `.csv`. The `.` of the extension is its only `.`. |
| `GetPulse.Lookup` | get_pulse.py:155-157 | The lookup of a key in the bindings finds nothing exactly when no binding names that key. Otherwise it returns a command bound to that key. |
| `GetPulse.LookupExtend` | get_pulse.py:155-157 | Visiting one more binding (keys are distinct) changes the outcome only if that binding's key is the pressed one. |
| `GetPulse.MaskKey` | get_pulse.py:147 | `key & 255` is in [0, 255] and agrees with the key modulo 256. A key already in [0, 255] is unchanged. |
| `GetPulse.KeyBindings` | get_pulse.py:69-74 | `s`, `d`, `c` and `f` select toggle-search, toggle-display-plot, toggle-camera and write-CSV. No other key selects a command. |
| `GetPulse.OtherKeysIgnored` | get_pulse.py:147-157 | A key other than escape and the four bound keys changes no state and has no effect. |
| `GetPulse.Processor.FindFacesToggle` | tests/test_processors.py:59-71 | The face-search flag flips, and the call returns the new value. |
| `GetPulse.ToggleTwice` | tests/test_processors.py:59-71 | Two toggles restore the flag. The first returns its negation and the second returns the original value. |
| `GetPulse.App.constructor` | get_pulse.py:42-64 | The camera list is the probed one, camera 0 is selected, the plot is hidden, no key has been pressed, and the processor starts with the given face-search flag. |
| `GetPulse.CreateApp` | get_pulse.py:22-64 | Construction fails exactly when the UDP argument cannot be unpacked, with that error. Otherwise the application sends to the parsed destination and holds the probed camera list. Camera 0 is selected, the plot is hidden, no key has been pressed, and the processor starts with the given face-search flag. |
| `GetPulse.App.ToggleCam` | get_pulse.py:76-85 | The new state is `ToggleCamUi` of the old one. The camera index stays in range, and with several cameras the plot window is closed. |
| `GetPulse.App.ToggleSearch` | get_pulse.py:97-105 | Face search flips once, and the reported lock state is the negation of the new flag. |
| `GetPulse.App.ToggleDisplayPlot` | get_pulse.py:107-122 | The new state is `ToggleDisplayPlotUi` of the old one. Hiding the plot closes its window. Showing it first locks the face (reported), then draws the plot. |
| `GetPulse.App.WriteCsv` | get_pulse.py:87-95 | The series is saved under `CsvFileName` of the clock reading, and no other state changes. |
| `GetPulse.App.Run` | get_pulse.py:155-157 | Runs exactly the method bound to the command: the state becomes `RunUi` of the old state, and the effects are those of that command. |
| `GetPulse.App.KeyHandler` | get_pulse.py:140-157 | `pressed` is the masked key. Escape releases every camera and exits, with no state change. A bound key runs its command once. Any other key changes nothing. The camera index stays in range. |

## Left out

- `lib/processors.py` (face detection, forehead box, sample buffer, FFT, BPM) is not part of this model. Only the processor's `find_faces` flag and its toggle are modelled.
- `plotXY` and the OpenCV wrappers `resize`, `imshow`, `destroyWindow`, `waitKey` and `moveWindow` in `lib/interface.py` are drawing and window calls. They appear only as `Effect`s, or not at all.
- `lib/device.py` is left out. Camera validity is the input `probe`, and releasing a camera is an `Effect`.
- `main_loop`, the `__main__` block (argparse and the endless loop), socket creation and `sendto`, and `print` output are I/O. The printed lock state is kept as the `LockReported` effect.
- The content of the CSV file is not modelled: `np.savetxt` of the stacked times and samples belongs to the processor. Only the file name is modelled.
- `datetime.now()` and its text form are a parameter, `now`.
- `sys.exit` ends the program. The model returns `exit == true` and logs `Exited`.
- The `w` and `h` fields are set but never used by the modelled operations. `plot_title` only names the plot window, which the `PlotClosed` and `PlotShown` effects stand for.
- Interface.Combine: the element type is `int`. numpy's cast of `right` to `left`'s dtype, and mixing a 2-D image with a 3-D one, are not modelled. Both images have a channel dimension.
- Text.ParseInt: follows `int()` for ASCII input (white space, an optional sign, digits with single `_` separators, at most 4300 digits). Non-ASCII digits and non-ASCII white space, which Python also accepts, are not modelled. The digit limit is Python's default. A limit changed through `sys.set_int_max_str_digits`, and Python versions without the limit, are not modelled.
