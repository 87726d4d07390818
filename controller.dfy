/**
 * The remote's controller as it runs: its global variables are the fields of
 * one object, each handler is a method that updates them in place, and the
 * display, serial and power calls are appended to `trace`.
 */
module Controller {
  import opened Ui
  import opened Transitions

  class SmartLight {
    var interfaceState: State
    var brightness: int
    var selectedMenuItem: int
    var menuModified: bool
    var lightOn: bool
    var lastInteractionTime: u32
    /** The encoder driver's position counter: read by `getPosition`, written by `setPosition`. */
    var encoderPosition: int
    /** Everything the controller has made the display, the light layer and the power supervisor do. */
    var trace: seq<Event>

    /** The globals as one value, to compare against the transition functions. */
    function Model(): Globals
      reads this
    {
      Globals(interfaceState, brightness, selectedMenuItem, menuModified, lightOn,
              lastInteractionTime, encoderPosition)
    }

    ghost predicate Valid()
      reads this
    {
      Transitions.Valid(Model())
    }

    /** Boot: the initial values of the globals, the encoder set to brightness, a cleared display. */
    constructor (bootTime: u32)
      ensures Model() == Init(bootTime) && Valid()
      ensures trace == [Clear]
    {
      interfaceState := Idle;
      brightness := 0;
      selectedMenuItem := 0;
      menuModified := true;
      lightOn := false;
      trace := [Clear];
      encoderPosition := 0;
      lastInteractionTime := bootTime;
    }

    method ToggleLights()
      modifies this
      ensures Model() == Transitions.ToggleLights(old(Model())).g
      ensures trace == old(trace) + Transitions.ToggleLights(old(Model())).events
    {
      lightOn := !lightOn;
      trace := trace + [LightToggled(lightOn)];
      interfaceState := Idle;
    }

    method HandleIdle(f: Frame)
      modifies this
      ensures Model() == IdleFrame(old(Model()), f).g
      ensures trace == old(trace) + IdleFrame(old(Model()), f).events
    {
      var newBrightness := Constrain(encoderPosition, BrightnessMin, BrightnessMax);
      if brightness != newBrightness {
        brightness := newBrightness;
        encoderPosition := brightness;
        interfaceState := AdjustBrightness;
        lastInteractionTime := f.now;
      }
      if Pressed(f) {
        if LongPress(f) {
          interfaceState := Menu;
          menuModified := true;
          lastInteractionTime := ReleaseTime(f);
        } else {
          ToggleLights();
          lastInteractionTime := ReleaseTime(f);
        }
      }
    }

    method HandleAdjustBrightness()
      modifies this
      ensures Model() == AdjustBrightnessFrame(old(Model())).g
      ensures trace == old(trace) + AdjustBrightnessFrame(old(Model())).events
    {
      trace := trace + [BrightnessApplied(brightness)];
      interfaceState := Idle;
    }

    /** The three-row redraw: previous entry, current entry in inverse, next entry. */
    method DrawMenu()
      requires 0 <= selectedMenuItem < MenuItemsLength
      modifies this`trace
      ensures trace == old(trace) + MenuRows(selectedMenuItem)
    {
      var rows := MenuRows(selectedMenuItem);
      for i := 0 to 3
        invariant trace == old(trace) + rows[..i]
      {
        if i == 0 {
          trace := trace + [Draw(1, 0, MenuItems[Wrap(selectedMenuItem - 1, 0, MenuItemsLength - 1)], false)];
        } else if i == 1 {
          trace := trace + [Draw(1, 1, MenuItems[Wrap(selectedMenuItem, 0, MenuItemsLength - 1)], true)];
        } else {
          trace := trace + [Draw(1, 2, MenuItems[Wrap(selectedMenuItem + 1, 0, MenuItemsLength - 1)], false)];
        }
      }
    }

    method HandleMenu(f: Frame)
      requires 0 <= selectedMenuItem < MenuItemsLength
      modifies this
      ensures Model() == MenuFrame(old(Model()), f).g
      ensures trace == old(trace) + MenuFrame(old(Model()), f).events
    {
      ghost var n := MenuButton(MenuTurn(Model(), f), f);
      MenuEncoder(f);
      MenuButtonPress(f);
      ghost var d := MenuRedraw(n.g);
      MenuRedrawIfModified();
      AppendAssociates(old(trace), n.events, d.events);
    }

    /** The encoder part of the menu handler. */
    method MenuEncoder(f: Frame)
      requires 0 <= selectedMenuItem < MenuItemsLength
      modifies this
      ensures Model() == MenuTurn(old(Model()), f) && trace == old(trace)
    {
      if f.direction != NoRotation {
        selectedMenuItem := CursorAfterTurn(selectedMenuItem, f.direction);
        menuModified := true;
        // Turning the encoder in the menu must not change the brightness.
        encoderPosition := brightness;
        lastInteractionTime := f.now;
      }
    }

    /** The button part of the menu handler. */
    method MenuButtonPress(f: Frame)
      modifies this
      ensures Model() == MenuButton(old(Model()), f).g
      ensures trace == old(trace) + MenuButton(old(Model()), f).events
    {
      if Pressed(f) {
        interfaceState := if LongPress(f) then Idle else SelectColor;
        trace := trace + [Clear];
        lastInteractionTime := ReleaseTime(f);
      }
    }

    /** The redraw at the end of the menu handler, only when the menu is marked modified. */
    method MenuRedrawIfModified()
      requires 0 <= selectedMenuItem < MenuItemsLength
      modifies this
      ensures Model() == MenuRedraw(old(Model())).g
      ensures trace == old(trace) + MenuRedraw(old(Model())).events
    {
      if menuModified {
        trace := trace + [Clear];
        DrawMenu();
        menuModified := false;
      }
    }

    method HandleColorSelection()
      requires 0 <= selectedMenuItem < MenuItemsLength
      modifies this
      ensures Model() == ColorSelectionFrame(old(Model())).g
      ensures trace == old(trace) + ColorSelectionFrame(old(Model())).events
    {
      var color := MenuItems[selectedMenuItem];
      trace := trace + [ColorSelected(color)];
      interfaceState := Idle;
    }

    /** Arms the wake pins, clears the display and sleeps; the frame goes no further. */
    method EnterDeepSleep()
      modifies this`trace
      ensures trace == old(trace) + SleepSequence
    {
      trace := trace + [WakeOnHigh(EncoderClk)];
      trace := trace + [WakeOnHigh(EncoderDt)];
      trace := trace + [WakeOnHigh(ButtonPin)];
      trace := trace + [GpioWakeupEnabled];
      trace := trace + [Clear];
      trace := trace + [DeepSleep];
    }

    /** One pass of the main loop; `slept` when it ended in deep sleep. */
    method Step(f: Frame) returns (slept: bool)
      requires Valid()
      modifies this
      ensures Model() == FrameStep(old(Model()), f).g
      ensures trace == old(trace) + FrameStep(old(Model()), f).events
      ensures slept == FrameStep(old(Model()), f).slept
      ensures Valid()
    {
      encoderPosition := encoderPosition + f.turn;
      var elapsed := Elapsed(f.now, lastInteractionTime);
      if elapsed > SleepTimeout {
        EnterDeepSleep();
        return true;
      }
      RunHandlers(f);
      slept := false;
    }

    /** The rest of a frame that does not sleep: the menu timeout, then the dispatch. */
    method RunHandlers(f: Frame)
      requires Valid()
      modifies this
      ensures Model() == AwakeFrame(old(Model()), f).g
      ensures trace == old(trace) + AwakeFrame(old(Model()), f).events
    {
      ghost var c := CloseTimedOutMenu(Model(), f.now);
      CloseMenuIfTimedOut(f.now);
      ghost var n := Dispatch(c.g, f);
      DispatchHandler(f);
      AppendAssociates(old(trace), c.events, n.events);
    }

    /** The menu timeout check at the head of the frame. */
    method CloseMenuIfTimedOut(now: u32)
      modifies this
      ensures Model() == CloseTimedOutMenu(old(Model()), now).g
      ensures trace == old(trace) + CloseTimedOutMenu(old(Model()), now).events
    {
      if Elapsed(now, lastInteractionTime) > MenuTimeout && interfaceState == Menu {
        trace := trace + [Clear];
        interfaceState := Idle;
      }
    }

    /** The `switch` on the interface state: exactly one handler runs. */
    method DispatchHandler(f: Frame)
      requires Valid()
      modifies this
      ensures Model() == Dispatch(old(Model()), f).g
      ensures trace == old(trace) + Dispatch(old(Model()), f).events
    {
      match interfaceState {
        case Idle => HandleIdle(f);
        case AdjustBrightness => HandleAdjustBrightness();
        case Menu => HandleMenu(f);
        case SelectColor => HandleColorSelection();
      }
    }
  }
}
