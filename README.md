# Smart-light remote: interaction state machine

This project models the firmware core of a battery-powered remote for a smart
light. The remote has a rotary encoder with a push-button and a 128x32 status
display. It runs a four-state controller: `IDLE`, `ADJUST_BRIGHTNESS`, `MENU` and
`SELECT_COLOR`. Turning the encoder in idle changes the brightness. A short press
toggles the light. A press held longer than 2000 ms opens a four-colour menu.
After 10 s without interaction the menu closes. After 60 s the device arms its
wake pins, clears the display and enters deep sleep.

The model has four modules:

- `Ui` (`ui.dfy`): the constants, the `wrap` macro, Arduino's `constrain`, the
  32-bit millisecond clock, the menu cursor update, the three-row menu window
  and the events the remote emits.
- `Transitions` (`transitions.dfy`): the controller's global variables as one
  value (`Globals`). It has one function per handler and one per frame of the
  main loop (`FrameStep`), plus `Run` over a sequence of frames. The invariant
  `Valid` says the cursor indexes the menu, brightness is at most 100, and
  brightness is below 1 (its boot value 0) only in `IDLE`. It is preserved by
  every frame, and every frame that does not sleep ends with brightness in 1..100.
- `Controller` (`controller.dfy`): the class `SmartLight`. Its fields are the
  firmware's globals (`interfaceState`, `brightness`, `selectedMenuItem`,
  `menuModified`, `lightOn`, `lastInteractionTime`), the encoder driver's position
  counter and an event `trace`. Each handler is a method that updates the fields
  in place. Each method is proved to produce exactly the new globals and events
  that the matching `Transitions` function gives.
- `Scenarios` (`scenarios.dfy`): concrete runs. They cover a brightness commit,
  menu wrap-around, both press thresholds, both timeouts, a clock that wraps at
  2^32, and a client of the class.

Hardware reads become the fields of a `Frame`:

- `now`: `millis()` at the start of the frame.
- `turn`: the steps the encoder counted since the last frame. The position the
  firmware reads is the counter plus `turn`.
- `direction`: the encoder direction.
- `fell` and `buttonHigh`: the debounced button.
- `held`: how long a press lasted, as `millis() - pressTime` measured after the
  release. This replaces the busy-wait on the button.

A press (`Transitions.Pressed`) is the condition of src/main.cpp:149 and :193: a
falling edge, or the button reading LOW. It is a plain definition, used by the
contracts of `IdleFrame` and `MenuButton`.

Display, serial and power calls become `Event`s appended to the trace. Deep sleep
never returns, so a frame that sleeps ends there with `slept` set.

Where the firmware's intended design and its code differ, the model follows the code:

- A long press is a hold strictly longer than 2000 ms. A hold of exactly 2000 ms is
  a short press. Both timeouts are strict too.
- After a press the firmware reads `millis()` again once the button is released.
  So `lastInteractionTime` becomes `now + held` (modulo 2^32), not `now`.
- The menu cursor line does not advance or retreat the cursor (see Findings).
  The controller runs the line as written.
- At boot brightness is 0, below its range. So the first frame that does not
  sleep always moves it into 1..100, where it stays (`Transitions.ReachableFromBoot`).
  Without a press, that first frame enters `ADJUST_BRIGHTNESS`, and the next frame
  commits the value (`Scenarios.FirstFrameCommitsBrightness`).
- The encoder counter is written back only when the clamped brightness changes.
  At a bound of the range the counter runs past it, so turning back first passes
  through a dead zone (`Scenarios.SaturatedEncoderNotResynchronised`).

## Model

| member | source | states |
|---|---|---|
| `Ui.Wrap` | src/main.cpp:28 | an in-range value is returned unchanged; any value below the range gives the upper bound and any value above it the lower bound, so a value one step outside wraps to the opposite end |
| `Ui.WrapStepRoundTrip` | src/main.cpp:28 | for a value in range, stepping up then down (or down then up) through `wrap` returns that value |
| `Ui.WrapIsNotModulo` | src/main.cpp:28 | for every non-empty range, two or more steps below it give the upper bound and two or more above it the lower bound, not where a modulo would put them |
| `Ui.Constrain` | src/main.cpp:140 | the result lies within `[lo, hi]`, equals the input when the input is in range, and saturates at the bound the input crossed |
| `Ui.ConstrainIdempotent` | src/main.cpp:140 | clamping a clamped brightness changes nothing |
| `Ui.Elapsed` | src/main.cpp:106 | the time since the last interaction is the `unsigned long` difference, i.e. taken modulo 2^32 |
| `Ui.Add32` | src/main.cpp:151-161 | the clock reading after the press is the start reading plus the hold, modulo 2^32 |
| `Ui.ElapsedAfterAdd32` | src/main.cpp:151-156 | the hold measured as `millis() - pressTime` equals the time that was added to the clock, even across a wrap-around |
| `Ui.CursorAfterTurn` | src/main.cpp:185 | the cursor line as C++ parses it: for a turn from a valid cursor the result is the last entry exactly when the cursor was 0 and the turn counter-clockwise, and entry 1 otherwise; always a valid index |
| `Ui.Advance` | src/main.cpp:185 | the cursor update the line was meant to perform: one entry forward (clockwise) or back (counter-clockwise), wrapping at both ends, always a valid index |
| `Ui.AdvanceRoundTrip` | src/main.cpp:185 | the intended update is a bijection: a turn followed by the opposite turn returns to the starting entry |
| `Ui.CursorAfterTurnAgreesWithAdvance` | src/main.cpp:185 | the line as written agrees with the intended update exactly from entry 0, or from entry 2 turning counter-clockwise |
| `Ui.CursorAfterTurnNoRoundTrip` | src/main.cpp:185 | as written, clockwise then counter-clockwise from entry 2 ends on entry 1, while the intended update returns to 2 |
| `Ui.MenuRows` | src/main.cpp:220-236 | exactly three draws, at rows 0, 1 and 2 and column 1, showing the wrapped entries before, at and after the cursor; only row 1 is inverse, and it shows the selected colour |
| `Ui.MenuRowsShowNeighbours` | src/main.cpp:225-233 | rows 0 and 2 show the entries one step back and one step forward of the cursor, with wrap-around |
| `Transitions.LongPress` | src/main.cpp:156 | a long press is a hold strictly longer than 2000 ms; a hold of exactly 2000 ms is short |
| `Transitions.Init` | src/main.cpp:52-61 | boot values: idle, brightness 0 with the encoder set to it, cursor 0, menu marked modified, light off, last interaction at boot time; these satisfy the invariant |
| `Transitions.ToggleLights` | src/main.cpp:260-266 | the light flips, the state becomes idle, nothing else changes, and one toggle event reports the new light state |
| `Transitions.IdleFrame` | src/main.cpp:137-170 | brightness becomes the clamped encoder position (in 1..100); when it changed the encoder is set to it and, without a press, the state is ADJUST_BRIGHTNESS at time `now`; a long press opens the menu marked modified with the light untouched; a short press flips the light once and forces idle; any press sets the last interaction to the release time; the cursor never moves |
| `Transitions.IdlePressTogglesOnlyWhenShort` | src/main.cpp:149-169 | after a press, the light changed and a toggle event was emitted if and only if the hold was not longer than 2000 ms |
| `Transitions.AdjustBrightnessFrame` | src/main.cpp:172-177 | the state returns to idle, nothing else changes, and the current brightness is committed |
| `Transitions.ColorSelectionFrame` | src/main.cpp:241-247 | for a valid cursor, the state returns to idle, nothing else changes, and the colour under the cursor is reported |
| `Transitions.MenuTurn` | src/main.cpp:181-191 | the encoder step of the menu keeps the cursor a valid index |
| `Transitions.MenuFrame` | src/main.cpp:179-239 | a turn moves the cursor as the source line computes it, puts the encoder back on the unchanged brightness and records the interaction; without a turn cursor and encoder are untouched; a press leaves to idle (long) or colour selection (short) with one clear; a modified menu is redrawn as a clear plus the three rows; the menu ends unmodified and the light is untouched |
| `Transitions.MenuButton` | src/main.cpp:193-213 | without a press nothing changes and nothing is emitted; a press leaves the menu to idle (long) or colour selection (short), sets the last interaction to the release time, changes nothing else and emits one clear |
| `Transitions.MenuRedraw` | src/main.cpp:215-238 | a modified menu is redrawn as a clear plus the three rows, an unmodified one emits nothing; the menu ends unmodified and nothing else changes |
| `Transitions.Dispatch` | src/main.cpp:117-131 | whichever state's handler the switch selects, the invariant is kept and brightness ends in 1..100 |
| `Transitions.CloseTimedOutMenu` | src/main.cpp:111-115 | only the state can change, and the invariant is kept |
| `Transitions.AwakeFrame` | src/main.cpp:111-131 | the timeout check followed by the dispatched handler keeps the invariant and ends with brightness in 1..100 |
| `Transitions.FrameStep` | src/main.cpp:100-131 | the frame sleeps if and only if more than 60000 ms have passed; a sleeping frame emits exactly the sleep sequence and changes nothing but the encoder counter; every frame keeps the invariant, and one that does not sleep ends with brightness in 1..100 |
| `Transitions.Run` | src/main.cpp:100-135 | any sequence of frames keeps the invariant |
| `Transitions.ReachableFromBoot` | src/main.cpp:59-60 | from boot, after any frames, the cursor is a valid menu index, so the colour lookup is in bounds, and brightness is at most 100; once the first frame has not slept, brightness is in 1..100 |
| `Transitions.RunKeepsBrightnessInRange` | src/main.cpp:100-177 | from a valid state with brightness in 1..100, any sequence of frames keeps it in 1..100 |
| `Transitions.SleepEndsFrame` | src/main.cpp:106-109 | past the sleep timeout the frame sleeps, the clear comes immediately before deep sleep, and the state is not touched |
| `Transitions.MenuTimeoutRunsIdle` | src/main.cpp:111-120 | a menu idle for more than 10000 ms (but not past the sleep timeout) is cleared and closed, and the idle handler runs in the same frame |
| `Transitions.NoTimeoutRunsCurrentHandler` | src/main.cpp:117-131 | without a timeout exactly the handler of the current state runs, and nothing is emitted before it |
| `Transitions.OneFrameStates` | src/main.cpp:172-177 | ADJUST_BRIGHTNESS and SELECT_COLOR last one frame: back to idle, brightness, cursor, light, menu flag and interaction time unchanged, one intent emitted, and a committed brightness is in 1..100 |
| `Controller.SmartLight.constructor` | src/main.cpp:52-98 | the fields take the boot values of `Init` and the display is cleared once |
| `Controller.SmartLight.ToggleLights` | src/main.cpp:260-266 | updates the fields in place exactly as `ToggleLights` |
| `Controller.SmartLight.HandleIdle` | src/main.cpp:137-170 | updates the fields and the trace exactly as `IdleFrame` |
| `Controller.SmartLight.HandleAdjustBrightness` | src/main.cpp:172-177 | updates the fields and the trace exactly as `AdjustBrightnessFrame` |
| `Controller.SmartLight.HandleMenu` | src/main.cpp:179-239 | updates the fields and the trace exactly as `MenuFrame` |
| `Controller.SmartLight.MenuEncoder` | src/main.cpp:181-191 | the encoder step of the menu handler, as `MenuTurn`, with nothing drawn |
| `Controller.SmartLight.MenuButtonPress` | src/main.cpp:193-213 | the button step of the menu handler: leave the menu by the hold length, one clear, interaction at release |
| `Controller.SmartLight.MenuRedrawIfModified` | src/main.cpp:215-238 | redraws only a modified menu, then marks it unmodified |
| `Controller.SmartLight.DrawMenu` | src/main.cpp:220-236 | the three-iteration draw loop appends exactly the rows of `MenuRows` for the current cursor |
| `Controller.SmartLight.HandleColorSelection` | src/main.cpp:241-247 | updates the fields and the trace exactly as `ColorSelectionFrame` |
| `Controller.SmartLight.EnterDeepSleep` | src/main.cpp:249-258 | appends the three high-level wake pins, the wake-up enable, a clear and deep sleep, in that order |
| `Controller.SmartLight.CloseMenuIfTimedOut` | src/main.cpp:111-115 | updates the fields and the trace exactly as `CloseTimedOutMenu` |
| `Controller.SmartLight.DispatchHandler` | src/main.cpp:117-131 | calls exactly the handler of the current state, with the effect of `Dispatch` |
| `Controller.SmartLight.RunHandlers` | src/main.cpp:111-131 | the timeout check then the dispatch, with the effect of `AwakeFrame` |
| `Controller.SmartLight.Step` | src/main.cpp:100-131 | one pass of the loop with the effect of `FrameStep`, reporting whether it slept, and keeping the invariant |
| `Scenarios.BrightnessCommit` | src/main.cpp:139-147 | idle at 50, ten steps up: ADJUST_BRIGHTNESS at 60 with the encoder re-synchronised, then the next frame commits 60 and returns to idle |
| `Scenarios.BrightnessSaturates` | src/main.cpp:140 | idle at 95, any turn of five or more steps up stops brightness at 100, with the encoder set back to 100 |
| `Scenarios.SaturatedEncoderNotResynchronised` | src/main.cpp:139-147 | at brightness 100, five steps up leave the encoder counter at 105 because the clamped value did not change; three steps back leave brightness at 100 with the counter at 102 and nothing emitted |
| `Scenarios.MenuWrapsBackwards` | src/main.cpp:185 | cursor 0 turned counter-clockwise becomes 3, the window reads Blue, White (inverse), Red, and brightness and encoder stay at 60 |
| `Scenarios.MenuClockwiseFromThird` | src/main.cpp:185 | as written, a clockwise turn from entry 2 selects entry 1 (Green) |
| `Scenarios.HoldAtThresholdIsShort` | src/main.cpp:156 | a 2000 ms hold toggles the light and keeps the menu closed |
| `Scenarios.HoldPastThresholdIsLong` | src/main.cpp:156-161 | a 2001 ms hold opens the menu and leaves the light alone |
| `Scenarios.ShortPressSelectsColor` | src/main.cpp:201-211 | a short press in the menu clears the display, and the next frame reports the colour under the cursor |
| `Scenarios.MenuTimeoutIsStrict` | src/main.cpp:111 | the menu survives exactly 10000 ms and closes with one clear at 10001 ms |
| `Scenarios.NoInteractionSleeps` | src/main.cpp:106-109 | 61000 ms without interaction ends the frame in deep sleep from any state |
| `Scenarios.ClockWrapDoesNotSleep` | src/main.cpp:106 | a clock that wrapped past 2^32 shortly after the last interaction does not trigger sleep |
| `Scenarios.FirstFrameCommitsBrightness` | src/main.cpp:59 | from the boot values, a first frame that does not sleep and has no press enters ADJUST_BRIGHTNESS with brightness in 1..100, and the next frame that does not sleep commits that value and returns to idle |

## Findings

| source | as written | input that shows it | evidently intended | confidence | as-written member | corrected member |
|---|---|---|---|---|---|---|
| src/main.cpp:185 | `selectedMenuItem + (dir == CLOCKWISE) ? 1 : -1` parses as `(selectedMenuItem + (dir == CLOCKWISE)) ? 1 : -1`, so the cursor becomes 3 from (0, counter-clockwise) and 1 in every other case | cursor 2, clockwise: the cursor becomes 1, not 3; clockwise then counter-clockwise from 2 ends on 1 | `wrap(selectedMenuItem + (dir == CLOCKWISE ? 1 : -1), 0, menuItemsLength - 1)`, one entry forward or back | high (not executed) | `Ui.CursorAfterTurnNoRoundTrip` | `Ui.AdvanceRoundTrip` |

`Ui.CursorAfterTurn` is the line as written and `Ui.Advance` the intended update.
The controller runs the line as written, because the model reproduces the firmware's behaviour.
The menu window is stated against `Advance` in `Ui.MenuRowsShowNeighbours`.
`Ui.CursorAfterTurnAgreesWithAdvance` says exactly where the two agree.

## Left out

- `setup()` I/O: I2C, serial and display initialisation, and the halt loop when the display fails. Only the initial values, the boot clear and the encoder reset are modelled.
- Frame pacing (the spin-wait to 34 ms at the end of `loop`): timing only, with no effect on the state.
- The busy-wait until the button is released. It is replaced by the `held` input.
- `readEncoderISR` and the encoder library's quadrature decoding: interrupt-context code in a library outside this model. Each frame's steps and direction are inputs, and the two are not tied to each other.
- Bounce2 debouncing: a library outside this model. `fell` and the button level are inputs.
- Serial prints that only log ("Encoder button held", "Encoder button pressed", "Switch to IDLE ..."). The ones that carry an intent are events: the toggle, the brightness value and the colour.
- The display driver's font setting. The inverse font around the middle row is a flag on the draw event.
- The ESP32 sleep and GPIO calls are events. What happens after wake-up (a cold boot) is not modelled, and `Run` stops at the first sleep.
- `millis()` is read several times in one frame. The model uses one reading, `now`, for the frame and `now + held` after a press.
- The encoder position is a 32-bit `long` in the library. The model's counter is an unbounded integer, so wrap-around of the position itself is not modelled.
- include/SmartLightController.h is entirely commented out, so there is nothing to model in it.
