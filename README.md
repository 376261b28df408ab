# Pomodoro focus timer: a Dafny model

This project models the two parts of a small Electron Pomodoro timer whose
behaviour can be stated precisely, and proves properties of the model.

The first part is the renderer's countdown in `src/script.js`:
- three configurable durations, the current mode, the seconds remaining, and
  whether the one-second interval is running;
- the operations `tick`, `start`, `pause`, `reset` and `switchMode`, the
  start/pause button, and the settings save handler that clamps the minute
  fields;
- the pure helpers around it: `formatTime`, the keydown shortcuts, and the
  rewrite of a Spotify playlist link into the player's embed address.

The second part is the host logic in `main.js`:
- the `choose-background` handler, which maps the picked file's extension to
  a MIME type and wraps the file's base64 text in a `data:` URL (RFC 2397,
  section 3);
- the `window-controls` handler, which minimises, maximises, restores or
  closes the calling window, or reports its flags.

Modules:
- `Wrappers` holds `Option`.
- `Text` holds the JavaScript string operations the code relies on:
  `indexOf`, `includes`, `split(sep)[0]`, `trim` and ASCII `toLowerCase`.
- `ClockFormat` is `formatTime`, with a reader that parses its output back.
- `Timer` holds the timer state:
  - pure step functions carry the properties;
  - the class `PomodoroTimer` mirrors the module-level variables, and each of
    its methods is proved to take the state to the corresponding step
    function's result.
- `Keyboard` is the keydown listener.
- `Playlist` is the playlist dialog's save handler.
- `BackgroundImage` is the extension-to-MIME chain and the data URL.
- `WindowControls` is the window-controls dispatcher:
  - a `Window` class with the four flags the handler touches;
  - a pure `Control` function that the handler method is proved against.

`setInterval`/`clearInterval` are modelled as a registry of armed interval
handles plus the next handle to hand out. This lets the invariant be stated
as "`running` holds exactly when the interval named by `timerId` is the only
armed one". The one-second tick is an explicit call to `Tick`.

Completion is noticed on the tick after the countdown reaches zero. From
`N` seconds left the timer needs `N + 1` ticks to stop: from the default 20
minutes, tick 1200 shows `00:00` with the timer still running,
and tick 1201 stops it (`Timer.DefaultPomodoroRun`).

## Model

| member | source | states |
|---|---|---|
| `Timer.SettingsDurations` | src/script.js:210-215 | Each field, or its default 20/5/15 when empty, is clamped to 1-120, 1-60 and 1-90 minutes and stored in seconds. An in-range entry is stored exactly, one below the range becomes one minute, and one above becomes the range's upper end. The table is always valid. |
| `Timer.Clamp` | src/script.js:210-212 | `Math.max(lo, Math.min(hi, x))` lies in `[lo, hi]` and is the point of that range nearest to `x`. |
| `Timer.EndNotice` | src/script.js:103-107 | The end-of-interval title is "Pomodoro selesai" exactly after a focus interval and "Break selesai" exactly after a break. |
| `Timer.InitialValid` | src/script.js:7-16 | The initial state has 1200 seconds on a paused timer, no interval armed, and satisfies both invariants. |
| `Timer.RunningIffArmed` | src/script.js:125-142 | Under the invariant, `running` holds iff an interval is armed, and at most one interval is ever armed. |
| `Timer.TickCountsDown` | src/script.js:119-123 | A tick with time left takes off exactly one second and changes nothing else. |
| `Timer.TickAtZeroStops` | src/script.js:124-130 | A tick at zero clears the interval and stops the timer, and the countdown stays at zero. |
| `Timer.TickPreserves` | src/script.js:119-131 | A tick keeps validity and keeps the countdown within the mode's length. |
| `Timer.CountdownPrefix` | src/script.js:119-123 | While time is left, `k` ticks take off `k` seconds with the same interval still armed and the timer running. |
| `Timer.CountdownCompletes` | src/script.js:119-131 | From `N` seconds left, `N` ticks reach zero still running, and tick `N + 1` stops the timer and disarms its interval. |
| `Timer.DefaultPomodoroRun` | src/script.js:7-16 | After starting from the initial state, 1200 ticks reach zero still running, and the 1201st stops the timer. |
| `Timer.StartIsGuarded` | src/script.js:133-138 | `start` is a no-op while running. Otherwise it runs the timer with exactly one freshly armed interval and leaves the countdown alone. |
| `Timer.PauseIsIdempotent` | src/script.js:140-144 | `pause` stops the timer and disarms its interval without touching the countdown; pausing twice equals pausing once. |
| `Timer.ToggleFlips` | src/script.js:162-164 | The start/pause button flips `running` and keeps both invariants. |
| `Timer.ResetRefills` | src/script.js:146-151 | `reset` leaves the timer paused with no interval armed and a full countdown for the current mode; the durations are untouched. |
| `Timer.SwitchRefills` | src/script.js:153-159 | `switchMode(m)` selects `m` and leaves the timer paused with a full countdown for `m`; the durations are untouched. |
| `Timer.SaveRewritesDurations` | src/script.js:209-221 | Saving stores the clamped table. A paused timer is refilled from it; a running one keeps its countdown, and the mode and interval are unchanged. |
| `Timer.SettingsExamples` | src/script.js:210-212 | Empty fields give 20/5/15 minutes; 0 and negative entries give one minute; large entries give 120/60/90 minutes. |
| `Timer.SaveWhileRunningCanExceed` | src/script.js:216-219 | Saving a one-minute focus length while a fresh 20-minute focus interval runs leaves 1200 seconds on a 60-second mode. |
| `Timer.PomodoroTimer.constructor` | src/script.js:7-16 | The renderer starts in the initial state. |
| `Timer.PomodoroTimer.Tick` | src/script.js:119-131 | Called only while running, as the armed interval is its only caller (src/script.js:137). The new state is `TickStep` of the old one, and validity is kept. The end notice is produced exactly on the tick that stops the timer. |
| `Timer.PomodoroTimer.Start` | src/script.js:133-138 | The new state is `StartStep` of the old one, and validity is kept. |
| `Timer.PomodoroTimer.Pause` | src/script.js:140-144 | The new state is `PauseStep` of the old one, and validity is kept. |
| `Timer.PomodoroTimer.Reset` | src/script.js:146-151 | The new state is `ResetStep` of the old one; it is valid and within bounds. |
| `Timer.PomodoroTimer.SwitchMode` | src/script.js:153-159 | The new state is `SwitchStep` of the old one; it is valid and within bounds. |
| `Timer.PomodoroTimer.StartOrPause` | src/script.js:162-164 | The new state is `ToggleStep` of the old one, and validity is kept. |
| `Timer.PomodoroTimer.SaveSettings` | src/script.js:209-221 | The new state is `SaveStep` of the old one, and validity is kept. |
| `ClockFormat.Decimal` | src/script.js:47-50 | `toString()` of a natural number is a non-empty run of digits with no leading zero. |
| `ClockFormat.DecimalValue` | src/script.js:47-50 | The digits of `toString()` read back as the number. |
| `ClockFormat.PadTwo` | src/script.js:47-50 | `padStart(2, "0")` keeps the text as a suffix and adds zeros in front up to two characters. |
| `ClockFormat.PadTwoValue` | src/script.js:47-50 | Padding a digit string keeps its value. |
| `ClockFormat.FormatTime` | src/script.js:46-52 | `formatTime`. It has no contract of its own; `FormatTimeFields`, `FormatTimeRoundTrip` and `FormatTimeWidth` state its output. |
| `ClockFormat.FormatTimeRoundTrip` | src/script.js:46-52 | For every non-negative number of seconds, reading the display back as minutes and seconds gives that number. |
| `ClockFormat.FormatTimeInjective` | src/script.js:46-52 | Different times never share a display. |
| `ClockFormat.FormatTimeFields` | src/script.js:46-52 | The display is the whole minutes as digits, padded to at least two with no leading zero beyond the padding, then a colon, then the remaining seconds as exactly two digits. |
| `ClockFormat.FormatTimeWidth` | src/script.js:46-52 | The display is exactly five characters, with the colon third, iff the time is under 100 minutes. |
| `ClockFormat.FormatTimeShortExample` | src/script.js:46-52 | 65 seconds show as `01:05`. |
| `ClockFormat.FormatTimeHourExample` | src/script.js:46-52 | 3599 seconds show as `59:59`. |
| `ClockFormat.FormatTimeWideExample` | src/script.js:46-52 | 7200 seconds show as `120:00`; the minutes field is not truncated. |
| `Keyboard.CommandsCharacterised` | src/script.js:171-181 | With no text field focused: Space toggles; otherwise `r` or `R` resets, and `1`, `2`, `3` select the pomodoro, short and long modes. With a text field focused, no key does anything. Each direction of each case is proved. |
| `Keyboard.KeysPreserveInvariant` | src/script.js:171-181 | Every key keeps both timer invariants, and a key typed into a text field leaves the timer unchanged. |
| `Keyboard.HandleKeyDown` | src/script.js:171-181 | The listener takes the timer to the state of the command its key event names, and keeps validity. |
| `Text.IndexFrom` | src/script.js:367 | The search finds the first occurrence at or after the start, or reports that there is none. |
| `Text.Before` | src/script.js:368 | For a non-empty separator, `split(sep)[0]` is a prefix of the string: everything before the first separator, or the whole string when there is none. |
| `Text.BeforeLacksSeparator` | src/script.js:368 | `split(sep)[0]` contains no separator. |
| `Text.Trim` | src/script.js:365-366 | `trim()`. It has no contract of its own; `TrimIsSlice` states its output. |
| `Text.TrimIsSlice` | src/script.js:365-366 | `trim()` is a slice of its input. Only whitespace is cut, and neither end of the result is whitespace. The result is empty iff the input is all whitespace. |
| `Text.ToLowerAscii` | src/script.js:176 | `toLowerCase()` on ASCII: the result has the input's length and lower-cases each capital letter in place, leaving other characters alone. |
| `Text.LowerIsLetter` | src/script.js:176 | `key.toLowerCase() === "r"` holds exactly for the keys `r` and `R`. |
| `Playlist.PlaylistId` | src/script.js:368 | `url.split("playlist/")[1].split("?")[0]`. It has no contract of its own; `PlaylistIdBounds` states its output. |
| `Playlist.EmbedFor` | src/script.js:365-369 | The embed address for a trimmed input that contains the link marker. It has no contract of its own; `SaveUpdatesBothOrNeither`, `ShareLinkEmbed` and `SlashlessIgnored` state its output. |
| `Playlist.SavePlaylist` | src/script.js:364-375 | The save handler. It has no contract of its own; `SaveUpdatesBothOrNeither` states its output. |
| `Playlist.PlaylistIdBounds` | src/script.js:368 | The playlist identifier starts right after the first `playlist/`. It contains neither `?` nor `playlist/`, and ends at the end of the link, at a `?`, or at the next `playlist/`. |
| `Playlist.LinkHasPathMarker` | src/script.js:367-368 | A link containing `open.spotify.com/playlist/` contains `playlist/`, so the split always has a second part. |
| `Playlist.SaveUpdatesBothOrNeither` | src/script.js:364-375 | A recognised link sets the frame to the embed address built from the identifier and stores that same address. Any other input changes neither. |
| `Playlist.ShareLinkEmbed` | src/script.js:364-372 | A share link `https://open.spotify.com/playlist/<id>`, followed by nothing or by a `?` query and not ending in whitespace, embeds exactly `<id>` when `<id>` contains no `?` and no `playlist/`. |
| `Playlist.ShareLinkExample` | src/script.js:368-369 | `https://open.spotify.com/playlist/abc123?si=xyz` embeds `abc123`. |
| `Playlist.SlashlessIgnored` | src/script.js:367 | Input without a slash, such as a `spotify:` URI, changes nothing. |
| `BackgroundImage.DropFirstDot` | main.js:61 | `replace(".", "")`. It has no contract of its own; `DropFirstDotCharacterised` states its output. |
| `BackgroundImage.NormalizeExtension` | main.js:61 | The lower-cased extension without its dot. It has no contract of its own; `NormalizeExtname` and `MimeForCaseInsensitive` state its output. |
| `BackgroundImage.MimeType` | main.js:62-73 | The conditional chain. It has no contract of its own; `MimeTypeCharacterised` and `MimeTypeLacksComma` state its output. |
| `BackgroundImage.MimeFor` | main.js:61-73 | The MIME type for an extension. It has no contract of its own; `MimeForCaseInsensitive`, `UpperCasePngExample` and `NoExtensionExample` state its output. |
| `BackgroundImage.DataUrl` | main.js:75 | The `data:` template. It has no contract of its own; `DataUrlRoundTrip` and `DataUrlInjective` state its output. |
| `BackgroundImage.ChooseBackground` | main.js:57-79 | The `choose-background` reply. It has no contract of its own; `ChooseBackgroundOutcome` states its output. |
| `BackgroundImage.DropFirstDotCharacterised` | main.js:61 | `replace(".", "")` removes only the first dot and keeps everything around it; a string without a dot is unchanged. |
| `BackgroundImage.NormalizeExtname` | main.js:61 | An extension `.x` is looked up as `x` in lower case. |
| `BackgroundImage.MimeForCaseInsensitive` | main.js:61-73 | The MIME type does not depend on the case of the extension. |
| `BackgroundImage.MimeTypeCharacterised` | main.js:62-73 | Each of the six known extensions maps to `image/` plus itself, with `jpg` mapping to `jpeg`. Anything else maps to `application/octet-stream`. |
| `BackgroundImage.MimeTypeLacksComma` | main.js:62-73 | No chosen MIME type contains a comma. |
| `BackgroundImage.UpperCasePngExample` | main.js:61-73 | `.PNG` maps to `image/png`. |
| `BackgroundImage.NoExtensionExample` | main.js:61-73 | A file without an extension maps to `application/octet-stream`. |
| `BackgroundImage.DataUrlRoundTrip` | main.js:75 | A data URL read back under RFC 2397 gives its MIME type and payload whenever the type has no comma. |
| `BackgroundImage.DataUrlInjective` | main.js:75 | Different type and payload pairs give different URLs when neither type contains a comma, which holds for every type `MimeType` produces (`MimeTypeLacksComma`). |
| `BackgroundImage.ChooseBackgroundOutcome` | main.js:57-79 | The reply is null exactly in these cases: a cancelled dialog, no paths, an empty first path, or a failed read. Otherwise it is a data URL that reads back as the first path's MIME type and that file's base64 text. |
| `WindowControls.StateOf` | main.js:21-27 | The state object reports the maximized and minimized flags; full screen is true only when the window supports it and is in it. |
| `WindowControls.NoWindowAnswersNull` | main.js:84-85 | With no owning window, every action answers null and nothing changes. |
| `WindowControls.ToggleFlipsMaximized` | main.js:90-93 | `toggleMaximize` flips the maximized flag, answers the new value, and leaves the other flags alone. Toggling twice restores the window. |
| `WindowControls.ToggleAgreesWithState` | main.js:90-102 | The answer to `toggleMaximize` is the `isMaximized` that a following `state` query reports. |
| `WindowControls.MinimizeAndCloseAnswerTrue` | main.js:87-96 | `minimize` and `close` set their own flag, change nothing else, and answer true. |
| `WindowControls.StateIsQuery` | main.js:97-102 | `state` changes nothing and answers the three flags, with `isFullScreen` false when unsupported. |
| `WindowControls.NullExactlyForUnknown` | main.js:83-106 | The answer is null exactly for a missing window or an unknown action, and an unknown action leaves the window unchanged. |
| `WindowControls.Window.SendState` | main.js:21-27 | `sendState` sends the state object of the window's current flags. |
| `WindowControls.Window.Minimize` | main.js:88 | Sets the minimized flag and nothing else. |
| `WindowControls.Window.IsMaximized` | main.js:91 | `isMaximized()` reports the window's maximized flag. |
| `WindowControls.Window.Maximize` | main.js:92 | Sets the maximized flag and nothing else. |
| `WindowControls.Window.Unmaximize` | main.js:91 | Clears the maximized flag and nothing else. |
| `WindowControls.Window.Close` | main.js:95 | Sets the closed flag and nothing else. |
| `WindowControls.HandleWindowControls` | main.js:83-106 | The handler's answer, and the window's new flags, are what `Dispatch` prescribes for the window found (or none) and the action: null with no window, and otherwise what `Control` prescribes. |

## Left out

- Rendering, icons and the window title (`renderTime`, `togglePlayIcon`,
  `setActiveModeButton`, `document.title`, `updateMaxIcon`, lucide) are left
  out because they are presentation side effects.
- The Web Audio `beep` is left out because it is floating-point sound
  synthesis.
- Of the notification API, only the choice of title and body (`EndNotice`)
  is modelled. The permission request, the `Notification` object and its
  auto-close timer are browser calls.
- Real time is left out: the interval period, wall-clock accuracy, and the
  asynchronous IPC round trips. A tick is an explicit call.
- `localStorage`, `FileReader`, the fullscreen API, `navigator.onLine`, the
  settings dialog's prefill (`openSettings`) and the background-image
  settings are left out because they are browser storage and DOM state.
- `Timer.SaveStep`: the minute fields are taken as already-parsed integers,
  or absent for an empty field. `parseInt` of non-numeric text gives `NaN`,
  which `Math.max`/`Math.min` pass through unclamped, so the real table can
  hold `NaN` and the model cannot express that.
- `Timer.SwitchStep`: a mode name outside the three known ones is not
  modelled. The buttons and keys only ever pass the three names.
- `Text.LowerChar`: `toLowerCase` is modelled on ASCII letters only. The
  source compares its result only with `r` and with ASCII extensions.
- `ClockFormat.FormatTime` takes a natural number. The timer never shows a
  negative time, so `formatTime` on negative input is not modelled. The
  number is unbounded, whereas JavaScript's `toString()` switches to
  exponent notation from 1e21 and loses integer precision above 2^53. The
  timer never holds more than 7200 seconds, so the round trip and the field
  shape are claimed only for the values the app can reach, not for every
  JavaScript number.
- `Text.Before` requires a non-empty separator. `split("")` splits into
  single characters, and the source never splits on the empty string.
- `Playlist.SaveUpdatesBothOrNeither` holds because `SavePlaylist` treats
  `localStorage.setItem` as infallible. The write at src/script.js:371 is
  not guarded by try/catch, so if it throws, the frame has already changed,
  nothing is stored and the dialog stays open. The model does not capture
  that failure.
- `preventDefault` on the Space key is not modelled because it is DOM
  behaviour.
- `dialog.showOpenDialog`, `fs.promises.readFile`, `Buffer.toString("base64")`
  and `path.extname` are parameters of `ChooseBackground`: a dialog result,
  a read function that may fail, and an extension function. The dialog's
  title and file filter are not modelled.
- Electron's own window behaviour (whether maximising un-minimises, the
  `close` event sequence, the platform title bar) is abstracted to four
  independent flags.
- The Electron lifecycle (`app.whenReady`, window creation, `activate`,
  `window-all-closed`) and preload.js, which only forwards calls, are not
  part of this model.
