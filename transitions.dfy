/**
 * The interaction state machine as values: the remote's global variables as
 * one record, one function per handler, and the whole frame.
 * The controller class proves its methods against these functions.
 */
module Transitions {
  import opened Ui

  /** The values of the remote's global variables, plus the encoder driver's position counter. */
  datatype Globals = Globals(
    state: State,
    brightness: int,
    selected: int,
    menuModified: bool,
    lightOn: bool,
    lastInteraction: u32,
    encoderPosition: int)

  /**
   * What the hardware reports for one frame:
   * `now` is `millis()` at the start of the frame, `turn` the steps the encoder
   * counted since the previous frame, `direction` what `getDirection()` returns,
   * `fell` and `buttonHigh` what the debounced button reports (the button reads
   * LOW while pressed), and `held` how long a press lasted until release, as
   * the controller measures it with `millis()`.
   */
  datatype Frame = Frame(
    now: u32,
    turn: int,
    direction: Direction,
    fell: bool,
    buttonHigh: bool,
    held: u32)

  /** The new values of the globals and the events emitted on the way. */
  datatype Next = Next(g: Globals, events: seq<Event>)

  /** One frame of the main loop; `slept` when it ended in deep sleep. */
  datatype Tick = Tick(g: Globals, events: seq<Event>, slept: bool)

  /** A press starts on a falling edge or when the button already reads LOW. */
  predicate Pressed(f: Frame)
  {
    f.fell || !f.buttonHigh
  }

  /**
   * A press strictly longer than the transition interval is a long press:
   * a hold of exactly 2000 ms is still short.
   */
  function LongPress(f: Frame): (r: bool)
    ensures r <==> f.held >= MenuTransitionInterval + 1
    ensures f.held == MenuTransitionInterval ==> !r
  {
    f.held > MenuTransitionInterval
  }

  /** The clock once the button has been released. */
  function ReleaseTime(f: Frame): u32
  {
    Add32(f.now, f.held)
  }

  /**
   * What holds of the globals between frames: the cursor indexes the menu,
   * brightness is at most its maximum, and it is below its minimum (the boot
   * value 0) only in idle, whose handler moves it into range.
   */
  ghost predicate Valid(g: Globals)
  {
    && 0 <= g.selected < MenuItemsLength
    && 0 <= g.brightness <= BrightnessMax
    && (g.state != Idle ==> BrightnessMin <= g.brightness)
  }

  /** The values the globals have at boot; the encoder counter starts at `brightness`. */
  function Init(bootTime: u32): (g: Globals)
    ensures Valid(g)
    ensures g.state == Idle && g.selected == 0 && g.menuModified && !g.lightOn
    ensures g.lastInteraction == bootTime && g.brightness == 0 && g.encoderPosition == 0
  {
    Globals(Idle, 0, 0, true, false, bootTime, 0)
  }

  /** Flips the light and returns to idle; nothing else changes. */
  function ToggleLights(g: Globals): (r: Next)
    ensures r.g.lightOn == !g.lightOn && r.g.state == Idle
    ensures r.g.(lightOn := g.lightOn, state := g.state) == g
    ensures r.events == [LightToggled(r.g.lightOn)]
  {
    var g' := g.(lightOn := !g.lightOn, state := Idle);
    Next(g', [LightToggled(g'.lightOn)])
  }

  /**
   * Idle: take brightness from the encoder (clamped, written back into the
   * encoder), then look at the button: a long press opens the menu, a short
   * press toggles the light.
   */
  function IdleFrame(g: Globals, f: Frame): (r: Next)
    ensures BrightnessMin <= r.g.brightness <= BrightnessMax
    ensures r.g.brightness == Constrain(g.encoderPosition, BrightnessMin, BrightnessMax)
    ensures r.g.encoderPosition ==
              if r.g.brightness != g.brightness then r.g.brightness else g.encoderPosition
    ensures r.g.selected == g.selected
    ensures !Pressed(f) ==>
              && r.events == []
              && r.g.lightOn == g.lightOn
              && r.g.menuModified == g.menuModified
              && (r.g.brightness != g.brightness ==>
                    r.g.state == AdjustBrightness && r.g.lastInteraction == f.now)
              && (r.g.brightness == g.brightness ==>
                    r.g.state == g.state && r.g.lastInteraction == g.lastInteraction)
    ensures Pressed(f) && LongPress(f) ==>
              r.g.state == Menu && r.g.menuModified && r.g.lightOn == g.lightOn && r.events == []
    ensures Pressed(f) && !LongPress(f) ==>
              && r.g.state == Idle
              && r.g.lightOn == !g.lightOn
              && r.g.menuModified == g.menuModified
              && r.events == [LightToggled(r.g.lightOn)]
    ensures Pressed(f) ==> r.g.lastInteraction == ReleaseTime(f)
  {
    var newBrightness := Constrain(g.encoderPosition, BrightnessMin, BrightnessMax);
    var g1 :=
      if g.brightness != newBrightness then
        g.(brightness := newBrightness, encoderPosition := newBrightness,
           state := AdjustBrightness, lastInteraction := f.now)
      else g;
    if !Pressed(f) then
      Next(g1, [])
    else if LongPress(f) then
      Next(g1.(state := Menu, menuModified := true, lastInteraction := ReleaseTime(f)), [])
    else
      var t := ToggleLights(g1);
      Next(t.g.(lastInteraction := ReleaseTime(f)), t.events)
  }

  /** AdjustBrightness lasts one frame: it commits the brightness and returns to idle. */
  function AdjustBrightnessFrame(g: Globals): (r: Next)
    ensures r.g.state == Idle && r.g.(state := g.state) == g
    ensures r.events == [BrightnessApplied(g.brightness)]
  {
    Next(g.(state := Idle), [BrightnessApplied(g.brightness)])
  }

  /** SelectColor lasts one frame: it reports the colour under the cursor and returns to idle. */
  function ColorSelectionFrame(g: Globals): (r: Next)
    requires 0 <= g.selected < MenuItemsLength
    ensures r.g.state == Idle && r.g.(state := g.state) == g
    ensures r.events == [ColorSelected(MenuItems[g.selected])]
  {
    Next(g.(state := Idle), [ColorSelected(MenuItems[g.selected])])
  }

  /**
   * Menu: a turn moves the cursor (as the firmware's cursor line, main.cpp:185, computes it) and puts
   * the encoder back on the brightness; a press leaves the menu, to idle when
   * long and to colour selection when short; a dirty menu is redrawn.
   */
  function MenuFrame(g: Globals, f: Frame): (r: Next)
    requires 0 <= g.selected < MenuItemsLength
    ensures 0 <= r.g.selected < MenuItemsLength
    ensures r.g.selected ==
              if f.direction != NoRotation then CursorAfterTurn(g.selected, f.direction) else g.selected
    ensures r.g.encoderPosition ==
              if f.direction != NoRotation then g.brightness else g.encoderPosition
    ensures r.g.brightness == g.brightness && r.g.lightOn == g.lightOn
    ensures !r.g.menuModified
    ensures r.g.state ==
              if !Pressed(f) then g.state else if LongPress(f) then Idle else SelectColor
    ensures r.g.lastInteraction ==
              if Pressed(f) then ReleaseTime(f)
              else if f.direction != NoRotation then f.now
              else g.lastInteraction
    ensures r.events ==
              (if Pressed(f) then [Clear] else []) +
              (if g.menuModified || f.direction != NoRotation
               then [Clear] + MenuRows(r.g.selected) else [])
  {
    var n := MenuButton(MenuTurn(g, f), f);
    var d := MenuRedraw(n.g);
    Next(d.g, n.events + d.events)
  }

  /** The encoder part of the menu handler. */
  function MenuTurn(g: Globals, f: Frame): (r: Globals)
    requires 0 <= g.selected < MenuItemsLength
    ensures 0 <= r.selected < MenuItemsLength
  {
    if f.direction != NoRotation then
      g.(selected := CursorAfterTurn(g.selected, f.direction), menuModified := true,
         encoderPosition := g.brightness, lastInteraction := f.now)
    else g
  }

  /** The button part of the menu handler. */
  function MenuButton(g: Globals, f: Frame): (r: Next)
    ensures !Pressed(f) ==> r.g == g && r.events == []
    ensures Pressed(f) ==>
              && r.g.state == (if LongPress(f) then Idle else SelectColor)
              && r.g.lastInteraction == ReleaseTime(f)
              && r.g.(state := g.state, lastInteraction := g.lastInteraction) == g
              && r.events == [Clear]
  {
    if Pressed(f) then
      Next(g.(state := if LongPress(f) then Idle else SelectColor,
              lastInteraction := ReleaseTime(f)), [Clear])
    else Next(g, [])
  }

  /** The redraw part of the menu handler: only when the menu is marked modified. */
  function MenuRedraw(g: Globals): (r: Next)
    requires 0 <= g.selected < MenuItemsLength
    ensures !r.g.menuModified && r.g.(menuModified := g.menuModified) == g
    ensures r.events == if g.menuModified then [Clear] + MenuRows(g.selected) else []
  {
    if g.menuModified then
      Next(g.(menuModified := false), [Clear] + MenuRows(g.selected))
    else Next(g, [])
  }

  /** Runs the one handler that belongs to the current state. */
  function Dispatch(g: Globals, f: Frame): (r: Next)
    requires Valid(g)
    ensures Valid(r.g)
    ensures BrightnessMin <= r.g.brightness
  {
    match g.state
    case Idle => IdleFrame(g, f)
    case AdjustBrightness => AdjustBrightnessFrame(g)
    case Menu => MenuFrame(g, f)
    case SelectColor => ColorSelectionFrame(g)
  }

  /** What `enterDeepSleep` does: arm the three wake pins, clear the display, sleep. */
  const SleepSequence: seq<Event> :=
    [WakeOnHigh(EncoderClk), WakeOnHigh(EncoderDt), WakeOnHigh(ButtonPin),
     GpioWakeupEnabled, Clear, DeepSleep]

  /**
   * One pass of the main loop: the encoder counter takes the frame's steps;
   * past the sleep timeout the device sleeps and the frame ends there;
   * otherwise a timed-out menu is closed, and the handler of the resulting
   * state runs.
   */
  function FrameStep(g: Globals, f: Frame): (r: Tick)
    requires Valid(g)
    ensures Valid(r.g)
    ensures r.slept <==> Elapsed(f.now, g.lastInteraction) > SleepTimeout
    ensures r.slept ==>
              r.events == SleepSequence &&
              r.g == g.(encoderPosition := g.encoderPosition + f.turn)
    ensures !r.slept ==> BrightnessMin <= r.g.brightness
  {
    var g0 := g.(encoderPosition := g.encoderPosition + f.turn);
    var elapsed := Elapsed(f.now, g.lastInteraction);
    if elapsed > SleepTimeout then
      Tick(g0, SleepSequence, true)
    else
      var n := AwakeFrame(g0, f);
      Tick(n.g, n.events, false)
  }

  /** A frame that does not sleep: the menu timeout check, then the handler of the resulting state. */
  function AwakeFrame(g: Globals, f: Frame): (r: Next)
    requires Valid(g)
    ensures Valid(r.g)
    ensures BrightnessMin <= r.g.brightness
  {
    var c := CloseTimedOutMenu(g, f.now);
    var n := Dispatch(c.g, f);
    Next(n.g, c.events + n.events)
  }

  /** The menu timeout: a menu left alone too long is cleared from the display and closed. */
  function CloseTimedOutMenu(g: Globals, now: u32): (r: Next)
    ensures Valid(g) ==> Valid(r.g)
    ensures r.g.(state := g.state) == g
  {
    if Elapsed(now, g.lastInteraction) > MenuTimeout && g.state == Menu then
      Next(g.(state := Idle), [Clear])
    else Next(g, [])
  }

  /** Frames one after the other, until they run out or the device sleeps. */
  function Run(g: Globals, frames: seq<Frame>): (r: Globals)
    requires Valid(g)
    ensures Valid(r)
    decreases |frames|
  {
    if frames == [] then g
    else
      var t := FrameStep(g, frames[0]);
      if t.slept then t.g else Run(t.g, frames[1..])
  }

  /**
   * From boot, through any sequence of frames, the cursor stays a valid
   * menu index (so the colour lookup never reads outside the menu) and
   * brightness stays in range.
   */
  lemma ReachableFromBoot(bootTime: u32, frames: seq<Frame>)
    ensures 0 <= Run(Init(bootTime), frames).selected < MenuItemsLength
    ensures 0 <= Run(Init(bootTime), frames).brightness <= BrightnessMax
    ensures frames != [] && !FrameStep(Init(bootTime), frames[0]).slept ==>
              BrightnessMin <= Run(Init(bootTime), frames).brightness
  {
    if frames != [] && !FrameStep(Init(bootTime), frames[0]).slept {
      RunKeepsBrightnessInRange(FrameStep(Init(bootTime), frames[0]).g, frames[1..]);
    }
  }

  /** Once brightness is in range, no sequence of frames takes it out again. */
  lemma {:induction false} RunKeepsBrightnessInRange(g: Globals, frames: seq<Frame>)
    requires Valid(g) && BrightnessMin <= g.brightness
    ensures BrightnessMin <= Run(g, frames).brightness <= BrightnessMax
    decreases |frames|
  {
    if frames != [] {
      var t := FrameStep(g, frames[0]);
      if !t.slept {
        RunKeepsBrightnessInRange(t.g, frames[1..]);
      }
    }
  }

  /** Once the sleep timeout has passed, nothing but the sleep sequence happens. */
  lemma SleepEndsFrame(g: Globals, f: Frame)
    requires Valid(g)
    requires Elapsed(f.now, g.lastInteraction) > SleepTimeout
    ensures FrameStep(g, f).slept
    ensures FrameStep(g, f).events[|SleepSequence| - 2..] == [Clear, DeepSleep]
    ensures FrameStep(g, f).g.state == g.state
  {
  }

  /**
   * A menu left alone for longer than the menu timeout (but not the sleep
   * timeout) is closed with a clear, and the idle handler runs in the same frame.
   */
  lemma MenuTimeoutRunsIdle(g: Globals, f: Frame)
    requires Valid(g) && g.state == Menu
    requires MenuTimeout < Elapsed(f.now, g.lastInteraction) <= SleepTimeout
    ensures var g1 := g.(encoderPosition := g.encoderPosition + f.turn, state := Idle);
            var n := IdleFrame(g1, f);
            FrameStep(g, f) == Tick(n.g, [Clear] + n.events, false)
  {
  }

  /** Without a timeout the handler of the current state runs, and only it. */
  lemma NoTimeoutRunsCurrentHandler(g: Globals, f: Frame)
    requires Valid(g)
    requires Elapsed(f.now, g.lastInteraction) <= MenuTimeout ||
             (g.state != Menu && Elapsed(f.now, g.lastInteraction) <= SleepTimeout)
    ensures var n := Dispatch(g.(encoderPosition := g.encoderPosition + f.turn), f);
            FrameStep(g, f) == Tick(n.g, n.events, false)
  {
  }

  /**
   * AdjustBrightness and SelectColor last one frame: they go back to idle,
   * change nothing else, and emit their one intent, with a brightness in range.
   */
  lemma OneFrameStates(g: Globals, f: Frame)
    requires Valid(g) && (g.state == AdjustBrightness || g.state == SelectColor)
    requires Elapsed(f.now, g.lastInteraction) <= SleepTimeout
    ensures var t := FrameStep(g, f);
            && t.g.state == Idle
            && t.g.brightness == g.brightness
            && t.g.selected == g.selected
            && t.g.lightOn == g.lightOn
            && t.g.menuModified == g.menuModified
            && t.g.lastInteraction == g.lastInteraction
            && (g.state == AdjustBrightness ==>
                  t.events == [BrightnessApplied(g.brightness)] &&
                  BrightnessMin <= g.brightness <= BrightnessMax)
            && (g.state == SelectColor ==> t.events == [ColorSelected(MenuItems[g.selected])])
  {
  }

  /** A press in idle toggles the light exactly when it is not a long press. */
  lemma IdlePressTogglesOnlyWhenShort(g: Globals, f: Frame)
    requires Pressed(f)
    ensures IdleFrame(g, f).g.lightOn != g.lightOn <==> !LongPress(f)
    ensures LightToggled(!g.lightOn) in IdleFrame(g, f).events <==> !LongPress(f)
  {
  }
}
