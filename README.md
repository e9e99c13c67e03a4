# Digital timer widget: clock arithmetic, persisted restore and idle tracking

The widget is a single React component (`App`) that shows a clock advancing one second per
tick, resumes that clock from the time shown when the page was last closed, tracks how long
the user has been idle, and keeps two timestamps in the browser's local storage through a
small accessor (`useLocalStorage`). This project models the logic of those pieces in Dafny
and proves what they promise:

- `TimeFormat` (time_format.dfy): `timeInSeconds` and `formatTime` as pure functions over
  natural numbers. It proves the hour/minute/second split is the unique one with in-range
  minutes and seconds, proves that the hour, minute and second parts of the `H:MM:SS` text are exactly that split for every number of seconds, and shows the text
  reads back to the number of seconds.
- `Json` (json.dfy): `JSON.stringify` and `JSON.parse` restricted to string values. It proves
  the round trip `Deserialise(Serialise(v)) == Some(v)`.
- `Storage` (storage.dfy): the local-storage object as a class holding a `map<string,string>`,
  and `useLocalStorage` as one method with its write branch and its read branch.
- `AppState` (app_state.dfy): the component's state as a class `App` with the fields
  `displayTime`, `terminationTime`, `idleTime`, `idleStart` and `isIdle`. The timer and
  listener callbacks become the steps `Restore`, `Tick`, `Activity`, `RecomputeIdle` and
  `Unload`. Timestamps are integer milliseconds, and the wall clock is an explicit `now`
  parameter.
- `Wrappers` (wrappers.dfy): `Option`, standing for JavaScript's `null`/`undefined`.

The model follows the code where its behaviour may be unexpected:

- `formatTime` does not wrap the hour field at 24. `Split` keeps all whole hours, and a field of
  100 or more is printed with all its digits.
- The read branch does not degrade silently on corrupt stored data: `JSON.parse` throws. The
  model does not treat this as absent. Instead it makes readability of the entry a
  precondition (`Readable`).

## Model

| member | source | states |
|---|---|---|
| `TimeFormat.TimeInSeconds` | src/App.jsx:8-10 | For an hour below 24, a minute below 60 and a second below 60, the result is below 86400 and splits back into exactly those three fields |
| `TimeFormat.Split` | src/App.jsx:23-25 | For any t >= 0: hours*3600 + minutes*60 + seconds == t, minutes < 60, seconds < 60, seconds == t % 60; hours are not reduced modulo 24 |
| `TimeFormat.SplitUnique` | src/App.jsx:23-25 | Any (h, m, s) with m < 60, s < 60 and h*3600 + m*60 + s == t is exactly the split of t |
| `TimeFormat.Decimal` | src/App.jsx:26 | The text of a number concatenated to a string is a non-empty digit string that denotes the number, has no leading zero (unless it is 0), and is one character exactly when the number is below 10 |
| `TimeFormat.Field` | src/App.jsx:26 | A field's text is at least two digits and denotes the field value; it starts with '0' exactly when the value is below 10; below 100 it is the two-digit rendering |
| `TimeFormat.FormatTime` | src/App.jsx:22-27 | For every t >= 0 the text before the last six characters is exactly the hour field as rendered (no extra leading zero from 10 hours on), followed by `:MM:SS` with minutes and seconds below 60; the three parts denote exactly the split of t (hours beyond 24 or 99 included), so the text reads back to t |
| `TimeFormat.FormatTimeInjective` | src/App.jsx:22-27 | Different second counts are formatted as different texts |
| `TimeFormat.FormatTimeShape` | src/App.jsx:22-27 | For t < 360000 the text has 8 characters, ':' at positions 2 and 5 and digits elsewhere |
| `TimeFormat.FormatTimeOfDay` | src/App.jsx:131 | Formatting the seconds since midnight of a valid time of day gives its two-digit hour, minute and second in order, separated by colons |
| `Json.Serialise` | src/useLocalStorage.js:3 | The stored text of any string, the empty one included, starts and ends with a double quote, so it is never empty |
| `Json.DecodeEscape` | src/useLocalStorage.js:3-8 | Each character's escape is decoded back to that character, consuming exactly the escape |
| `Json.UnescapeEscapeAll` | src/useLocalStorage.js:3-8 | Decoding the escaped body of a string gives back the string |
| `Json.DeserialiseSerialise` | src/useLocalStorage.js:3-8 | Parsing the serialised text of any string gives back that string |
| `Json.Deserialise` | src/useLocalStorage.js:8 | Only a text enclosed in double quotes parses as a string |
| `Json.SerialiseInjective` | src/useLocalStorage.js:3 | Distinct strings are stored as distinct texts |
| `Storage.Lookup` | src/useLocalStorage.js:8-9 | A missing key reads as null; a present value is non-empty and is what the entry parses to; an entry that parses to a non-empty string is never null |
| `Storage.Written` | src/useLocalStorage.js:3-4 | The write adds or replaces the entry for key with the serialised value, which parses back to the value; all other entries keep their text |
| `Storage.WriteThenRead` | src/useLocalStorage.js:3-4 | After writing a non-empty string under a key, reading that key gives the string back, and every other key reads as before |
| `Storage.WriteKeepsReadable` | src/useLocalStorage.js:3-4 | A write keeps every entry parseable if all were before |
| `Storage.LocalStorage.constructor` | src/useLocalStorage.js:4 | The store starts with the given entries |
| `Storage.UseLocalStorage` | src/useLocalStorage.js:1-12 | A truthy value replaces only the entry for key with its serialised text and returns nothing; a missing or empty value leaves the store unchanged and returns the read branch's result |
| `AppState.IdleSeconds` | src/App.jsx:105 | The result r is the floor of the elapsed milliseconds divided by 1000: 1000*r <= now - start < 1000*(r+1) |
| `AppState.IdleSecondsMonotone` | src/App.jsx:103-107 | With no activity in between, a later recompute never gives a smaller idle time |
| `AppState.IdleSecondsAfter` | src/App.jsx:103-107 | k whole seconds (plus less than one) after the idle start, the idle time is exactly k |
| `AppState.AfterTicks` | src/App.jsx:87-89 | After n firings of the interval the display time is the start value plus 1000*n ms |
| `AppState.TicksIncrease` | src/App.jsx:88 | Display time is strictly increasing across firings |
| `AppState.RestoredDisplay` | src/App.jsx:77-81 | When the read branch gives null for the close time (missing or empty), the display starts at now; otherwise it is the stored text converted to a timestamp |
| `AppState.RestoredTermination` | src/App.jsx:83-85 | When the read branch gives null for the terminate time (missing or empty), the termination time keeps its value (null at mount); otherwise it is the stored text converted to a timestamp |
| `AppState.Persisted` | src/App.jsx:64-67 | After the unload hook the store holds the ISO text of the display time under lastCloseTime and of now under lastTerminateTime, each parsing back to that text; all other entries keep their text |
| `AppState.UnloadThenRestore` | src/App.jsx:64-67 | What one session's unload hook writes, the next startup restores: the display resumes at the time shown at close and the termination time is the closing instant, provided the ISO text reads back as the same instant |
| `AppState.App.constructor` | src/App.jsx:12-20 | Initial state: display time now, termination time null, idle time 0, idle start unset, not idle |
| `AppState.App.Restore` | src/App.jsx:74-85 | Reads both keys without changing the store; display time comes from the close time if present, else from now; the termination time is set only when a terminate time is present; idle state untouched |
| `AppState.App.Tick` | src/App.jsx:88 | Display time becomes exactly the previous value plus 1000 ms; the step takes no clock reading and changes nothing else |
| `AppState.App.RunTicks` | src/App.jsx:87-89 | n consecutive firings of the interval, each a `Tick`, leave the display time at the closed form `AfterTicks` of the starting value |
| `AppState.App.Activity` | src/App.jsx:95-101 | Afterwards idle time is 0, idle start is now and not idle; display and termination time untouched |
| `AppState.App.RecomputeIdle` | src/App.jsx:103-107 | With an idle start recorded (non-null, non-zero), idle time becomes the floor of the elapsed seconds; otherwise it is unchanged; nothing else changes; idle time stays 0 until an idle start exists |
| `AppState.App.Unload` | src/App.jsx:64-67 | The store gets the serialised ISO text of the display time under lastCloseTime and of now under lastTerminateTime, and nothing else changes |

## Left out

- Rendering, JSX and React's hook machinery (src/App.jsx:12-20, 127-150): the state is plain fields of `App`, and `useState` updates are direct assignments.
- Timer and listener wiring (`setInterval`, `addEventListener`, cleanup, `beforeunload`): each callback is one explicit step, and the order in which steps happen is up to the caller.
- The IP lookup over the network, the FingerprintJS device id and the `navigator` browser info: these are network calls and foreign libraries.
- Calendar and timezone conversion (`getHours`, `getMinutes`, `getSeconds`, and `new Date(...)` of `displayTime` at src/App.jsx:131 and of `terminationTime` at src/App.jsx:148): `TimeInSeconds` takes the hour, minute and second as inputs.
- ISO-8601 text (`toISOString`, `new Date(text)`): these are the function parameters `toIso` and `parseDate`. The model does not capture their format; `UnloadThenRestore` assumes they round-trip. `parseDate` is total, so an Invalid Date cannot occur. In the widget, a stored JSON string that is not a date does different things per key. Under lastCloseTime it becomes `displayTime` (src/App.jsx:78): the clock shows NaN fields and `displayTime.toISOString()` throws in the unload hook (src/App.jsx:65), so nothing is persisted. Under lastTerminateTime it becomes `terminationTime` (src/App.jsx:84) and only the "Last Terminated" display shows NaN fields (src/App.jsx:148); the unload hook still writes `new Date().toISOString()` (src/App.jsx:66). Neither path is modelled.
- `Storage.UseLocalStorage`: a stored entry that `JSON.parse` rejects makes the real read throw; the model puts this outside the precondition. Entries holding JSON other than a string literal (numbers, `null`, objects) are also outside it. Surrounding JSON whitespace and surrogate `\u` escapes are not modelled.
- `Storage.UseLocalStorage`: the write branch always succeeds. `localStorage.setItem` (src/useLocalStorage.js:4) throws when the storage quota is exceeded or storage is disabled; that failure is not modelled, so `AppState.App.Unload` promises both entries are written.
- `Storage.UseLocalStorage`: a non-string argument value is not modelled, only a missing one (`None`) or a string. The write branch's `undefined` and the read branch's `null` are both `None`.
- `Json.Serialise`: characters are Unicode scalar values, so the escaping of lone surrogates does not arise.
- `TimeFormat.FormatTime` takes natural numbers only. The idle time it also formats (src/App.jsx:147) would be negative only if the wall clock went backwards. That case, JavaScript's truncating `%` on negative numbers, and the resulting text are not modelled.
- `AppState.App.Unload` requires non-empty ISO texts (they always are), so the accessor takes its write branch.
- The `isIdle` ref is never set to true anywhere in the source. The model keeps the field and the guarded reset but proves nothing further about it.
