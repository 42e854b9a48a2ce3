# Countdown timer, modelled in Dafny

This project models the `CountDown` React component of components/count-down.tsx. The user types
a number of seconds and presses Set. The countdown then ticks down once per second, and it can be
paused, resumed and reset. The display shows the time left as `MM:SS`.

The model has three modules:

- `CountDown` (count_down.dfy) holds the class `Timer`. Its fields are the component's state:
  `duration`, `timeLeft`, `isActive`, `isPaused` and the interval handle `timeRef`.
  - `live` is the set of interval handles that the runtime still schedules.
  - `nextHandle` is the handle that `setInterval` returns next.
  - `depActive` and `depPaused` are the values of `isActive` and `isPaused` that the interval
    effect saw on its last run.
  - Each handler method except `HandleDurationChange` runs the handler's body and then
    `RunEffect`. `RunEffect` is the re-render: the effect runs again only when one of its two
    dependencies has changed, and otherwise leaves every interval handle as it was.
    `HandleDurationChange` changes no dependency, so its re-render runs no effect.
    `HandleSetDurationRestart`, the corrected Set, clears and re-arms the interval itself.
  - `Tick(h)` is a call of the interval callback of a live handle `h`.
  - Every handler method and `Tick` states its new `View()` as a function of the old one from
    `TimerSpec`, and keeps `Valid()`. The helpers `ClearRef`, `Arm` and `RunEffect` keep
    `HandlesOk()`. `Valid()` includes "every live handle is the one in `timeRef`", so at most one
    interval is ever live.
- `TimerSpec` (timer_spec.dfy) is the same component as a pure state machine over `View`.
  - `View` holds the duration, the time left, the two flags and whether an interval is live.
  - Each button handler is written as its body followed by `Effect`; `DurationChange` changes
    no dependency and has no `Effect`. `Tick`, `Ticks` and `Run` apply
    events in sequence.
  - The properties are proved here: what each handler does, the invariant `Inv`, the countdown
    by exactly `t` ticks, that pause and resume change nothing, and the finding below.
- `Format` (format.dfy) holds `formatTime` on whole, non-negative seconds. It comes with a reader
  `ParseTime`, and the round trip between the two is proved.

The model follows the code:

- There is no "expired" state. The last tick clears the interval and sets `timeLeft` to 0. It
  leaves `isActive` true and `isPaused` false.
- `handleSetDuration` never writes `duration`. Only `handleDurationChange` writes it.
- A negative entry is accepted: `Number("-5") || ""` is -5. `handleReset` then copies it into
  `timeLeft` (`TimerSpec.NegativeEntryResetsBelowZero`). So `timeLeft >= 0` holds only as long as
  no negative number is entered (`TimerSpec.RunKeepsNonNegative`).
- Set on a component that is running or has finished does not start a new countdown (see
  Findings).

## Model

| member | source | states |
|---|---|---|
| `CountDown.Timer.constructor` | components/count-down.tsx:8-12 | The state at mount: empty entry, 0 seconds, inactive, not paused, no interval; the mount-time effect arms nothing |
| `CountDown.Timer.RunEffect` | components/count-down.tsx:53-70 | The effect runs only when `isActive` or `isPaused` changed. Its cleanup clears the referenced interval before anything is armed, and it arms a new interval exactly when active and not paused. The result is either no new interval or exactly one new one, with every earlier interval cleared. With both dependencies unchanged, the live intervals, `timeRef` and the next handle all stay as they were |
| `CountDown.Timer.ClearRef` | components/count-down.tsx:48-50 | `if (timeRef.current) clearInterval(timeRef.current)`, which also stands at lines 19-21, 37-39 and 66-68: afterwards no interval is live, and the handles stay in order |
| `CountDown.Timer.Arm` | components/count-down.tsx:55-63 | `timeRef.current = setInterval(...)`: the only live interval is a fresh handle, now the one in `timeRef` |
| `CountDown.Timer.AtMostOneLive` | components/count-down.tsx:53-70 | At most one interval is live, and it is always the one held in `timeRef` |
| `CountDown.Timer.HandleSetDuration` | components/count-down.tsx:14-23 | The new state is `SetDuration` of the old one. The invariant is kept. No interval is added, or only one new one with the rest cleared |
| `CountDown.Timer.HandleStart` | components/count-down.tsx:25-30 | The new state is `Start` of the old one. The invariant is kept. At most one new interval is added, and on a component already active and not paused the live interval and `timeRef` stay as they were |
| `CountDown.Timer.HandlePause` | components/count-down.tsx:33-41 | The new state is `Pause` of the old one. No interval is live afterwards |
| `CountDown.Timer.HandleReset` | components/count-down.tsx:44-51 | The new state is `Reset` of the old one. No interval is live afterwards |
| `CountDown.Timer.HandleDurationChange` | components/count-down.tsx:78-80 | Only `duration` changes: 0 becomes the empty entry and every other number is stored |
| `CountDown.Timer.Tick` | components/count-down.tsx:55-62 | Only a live interval fires, and it is always the one in `timeRef`. The new state is `TimerSpec.Tick` of the old one. No interval is created |
| `CountDown.Timer.HandleSetDurationRestart` | components/count-down.tsx:14-23 | The corrected Set: a positive entry clears the referenced interval and arms one fresh interval in every prior state |
| `CountDown.PauseResumeScenario` | components/count-down.tsx:14-70 | Enter 5 and Set, then two ticks: 3 is left. Pause keeps 3. Start and three ticks reach 0, with the component still active and no interval live |
| `CountDown.SetAfterFinishScenario` | components/count-down.tsx:14-70 | As written, Set after the countdown ends shows the new time. The component is active and not paused, but no interval is live, even after Start |
| `CountDown.SetAfterFinishRestartScenario` | components/count-down.tsx:14-23 | With the corrected Set, the second Set counts down from 2 to 0 again |
| `TimerSpec.DurationChange` | components/count-down.tsx:78-80 | Only the entry changes, and it is empty exactly when 0 was entered |
| `TimerSpec.Effect` | components/count-down.tsx:53-70 | The effect touches only whether an interval is live. When a dependency changed, an interval is live afterwards exactly when active and not paused. When neither changed, nothing changes |
| `TimerSpec.SetDurationBody` | components/count-down.tsx:14-23 | The entry is kept. The handler either changes nothing, or leaves at least 1 second, active, not paused and no interval live |
| `TimerSpec.StartBody` | components/count-down.tsx:25-30 | The entry, `timeLeft` and the interval are kept. The handler either changes nothing, or leaves at least 1 second, active and not paused |
| `TimerSpec.PauseBody` | components/count-down.tsx:33-41 | The entry and `timeLeft` are kept. The handler either changes nothing, or leaves inactive, paused and no interval live |
| `TimerSpec.ResetBody` | components/count-down.tsx:44-51 | Inactive, not paused, no interval live, entry kept |
| `TimerSpec.SetDuration` | components/count-down.tsx:14-23 | Set and its re-render keep the entry and the invariant `Inv` |
| `TimerSpec.Start` | components/count-down.tsx:25-30 | Start and its re-render keep the entry and the invariant `Inv` |
| `TimerSpec.Pause` | components/count-down.tsx:33-41 | Pause and its re-render keep the entry and the invariant `Inv` |
| `TimerSpec.Reset` | components/count-down.tsx:44-51 | Reset and its re-render keep the entry and the invariant `Inv` |
| `TimerSpec.Tick` | components/count-down.tsx:56-61 | A firing never touches the entry or the flags and never leaves a negative time. From 1 second or more it takes away exactly one second. It never starts an interval, it keeps `Inv`, and with no live interval nothing happens |
| `TimerSpec.DurationChangeSpec` | components/count-down.tsx:78-80 | Only the entry changes. It is empty exactly when 0 was entered, and otherwise holds the number entered |
| `TimerSpec.SetDurationSpec` | components/count-down.tsx:14-23 | With a positive numeric entry d: `timeLeft = d`, active, not paused, entry kept, and an interval runs exactly when the component was not already running. In every other case the state is unchanged |
| `TimerSpec.StartSpec` | components/count-down.tsx:25-30 | Only acts with time left. It sets active and not paused, and keeps `timeLeft` and the entry. With no time left the state is unchanged |
| `TimerSpec.PauseSpec` | components/count-down.tsx:33-41 | Only acts when active. It sets paused and inactive, leaves no interval live, and keeps `timeLeft` exactly. When inactive the state is unchanged |
| `TimerSpec.ResetSpec` | components/count-down.tsx:44-51 | From every state: inactive, not paused, no interval, entry kept. `timeLeft` becomes the numeric entry, or 0 when the entry is empty |
| `TimerSpec.ResetIgnoresHistory` | components/count-down.tsx:44-51 | Two states with the same entry reset to the same state, and a second Reset changes nothing |
| `TimerSpec.TickSpec` | components/count-down.tsx:56-61 | A firing counts down by one above 1 second. At 1 second or less it sets 0 and clears the interval. The flags and the entry are never touched, and the result is never negative |
| `TimerSpec.StepKeepsInv` | components/count-down.tsx:53-70 | Every event keeps the invariant: an interval is live only while active, not paused and with at least 1 second left |
| `TimerSpec.RunKeepsInv` | components/count-down.tsx:53-70 | Every sequence of events keeps that invariant, so no tick ever happens while paused or inactive |
| `TimerSpec.RunKeepsNonNegative` | components/count-down.tsx:44-80 | `timeLeft` and the entry stay non-negative through any events as long as no negative number is entered |
| `TimerSpec.NegativeEntryResetsBelowZero` | components/count-down.tsx:44-80 | Entering -5 and pressing Reset puts -5 in `timeLeft` |
| `TimerSpec.TicksCountDown` | components/count-down.tsx:56-61 | From `t >= 1` seconds with a live interval, `n < t` ticks leave `t - n` with the interval live. From the `t`-th tick on, the time is 0 and the interval is cleared |
| `TimerSpec.AfterStopNothingFires` | components/count-down.tsx:56-61 | With no live interval, any number of firings changes nothing |
| `TimerSpec.PauseThenStartResumes` | components/count-down.tsx:25-41 | Pause on a running component keeps `timeLeft` and stops the interval. Start after it restores exactly the state before the pause |
| `TimerSpec.EndToEnd` | components/count-down.tsx:14-70 | Enter 5 and Set: 5 seconds, ticking. Two ticks: 3. Pause: still 3, nothing live. Start and three ticks: 0, interval cleared, component still active and not paused |
| `TimerSpec.SetWhileRunningStalls` | components/count-down.tsx:14-23 | Set on an active, unpaused component loads the entry but leaves no interval live. Start then changes nothing, and no tick can fire |
| `TimerSpec.SetAfterFinishStalls` | components/count-down.tsx:14-70 | Enter 3, Set, three ticks to 0, Set again: the display shows 3 and no interval is live |
| `TimerSpec.SetDurationRestartRuns` | components/count-down.tsx:14-23 | The corrected Set, given a positive entry, always leaves a running countdown from that entry, which reaches 0 after exactly that many ticks. Otherwise nothing changes. The invariant is kept |
| `Format.Decimal` | components/count-down.tsx:75 | `String(n)` for a whole `n >= 0`: at least one character, all digits, one digit exactly when `n < 10`, no leading zero |
| `Format.PadStart` | components/count-down.tsx:75 | `padStart` reaches the requested width, and a longer string is not shortened |
| `Format.PadStartContents` | components/count-down.tsx:75 | `padStart` returns a string that is already long enough as it is; otherwise the result ends with that string and is preceded only by fill characters |
| `Format.Pad2` | components/count-down.tsx:75 | A padded field is all digits and at least two long, exactly two below 100 |
| `Format.FormatTime` | components/count-down.tsx:72-76 | The display has a colon before exactly two final characters, and is five characters long below 100 minutes |
| `Format.DecimalRoundTrip` | components/count-down.tsx:75 | Reading back the numeral of `n` gives `n` |
| `Format.Pad2Field` | components/count-down.tsx:75 | A padded field is all digits and at least two long, exactly two below 100, and it still denotes its number |
| `Format.FormatTimeShape` | components/count-down.tsx:72-76 | The display is minutes, `:`, then exactly two second digits. The seconds denote `time % 60`, which is in 00..59, and the minutes denote `floor(time / 60)` |
| `Format.FormatTimeRoundTrip` | components/count-down.tsx:72-76 | Parsing the display gives back the number of seconds |
| `Format.FormatTimeInjective` | components/count-down.tsx:72-76 | Different numbers of seconds are displayed differently |
| `Format.FormatTwoFields` | components/count-down.tsx:72-76 | Below 100 minutes, the display is exactly `M1 M2 : S1 S2`, the two decimal digits of the minutes and of the seconds |
| `Format.FormatTimeExamples` | components/count-down.tsx:72-76 | 0 is shown as "00:00", 59 as "00:59", 60 as "01:00" and 125 as "02:05" |

## Findings

| source | as written | input that shows it | evidently intended | confidence | as-written member | corrected member |
|---|---|---|---|---|---|---|
| components/count-down.tsx:14-23 | Set clears the interval. But when the component is already active and not paused, Set leaves both effect dependencies unchanged, so the effect never re-arms. The countdown is stuck, and Start cannot restart it | Enter 2, press Set, let two ticks reach 0, press Set again. The display shows 00:02, but nothing counts down, and pressing Start has no effect | Every accepted Set starts a fresh countdown from the entered duration | high for the model of React's effect dependencies; not executed | `TimerSpec.SetWhileRunningStalls` | `CountDown.Timer.HandleSetDurationRestart` |

## Left out

- Rendering: the JSX markup, the styling, and the imported `Input` and `Button` components (lines 82-136) are not modelled.
- Real time: `setInterval` and `clearInterval` timing is not modelled. A live handle in `live` stands for a scheduled interval, and one `Tick` call stands for one firing of its callback.
- React's scheduling: each handler and the re-render after it form one atomic step. Batching, and the exact point at which effects are flushed, are not modelled.
- Input parsing: `Number(e.target.value)` at line 79 is not modelled. `HandleDurationChange` takes the already-parsed whole number. NaN, fractions, exponent notation and whitespace handling are not modelled.
- Number range: `timeLeft` and `duration` are modelled as exact integers. JavaScript numbers are doubles, which represent every integer exactly only up to 2^53. Above that, `prevTime - 1` (line 61) can give back the same value, so the countdown by exactly `t` ticks (`TimerSpec.TicksCountDown`) does not carry over to such entries. An entry too long to represent parses to Infinity, and that is not modelled either.
- `Format.Decimal`: `String(n)` is modelled only for whole, non-negative numbers. Negative and fractional times, and the exponent notation JavaScript uses from 1e21 up, are left out, because they depend on floating-point behaviour.
- Unmount: the effect cleanup that runs when the component is removed is not modelled. It belongs to the component lifecycle, not to the countdown logic.
