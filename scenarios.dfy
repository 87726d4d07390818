/**
 * Concrete runs of the state machine: brightness commit, menu wrap-around,
 * press thresholds, timeouts and the clock wrapping at 2^32.
 */
module Scenarios {
  import opened Ui
  import opened Transitions
  import Controller

  /** A frame with no press and no encoder movement. */
  function Quiet(now: u32): Frame
  {
    Frame(now, 0, NoRotation, false, true, 0)
  }

  /** A frame whose button went down and stayed down for `held` milliseconds. */
  function Press(now: u32, held: u32): Frame
  {
    Frame(now, 0, NoRotation, true, false, held)
  }

  /**
   * Idle at brightness 50, the encoder moves ten steps up: the frame enters
   * AdjustBrightness at 60 with the encoder re-synchronised, and the next
   * frame commits 60 and returns to idle.
   */
  lemma BrightnessCommit()
    ensures var g := Globals(Idle, 50, 0, false, false, 1000, 50);
            var t1 := FrameStep(g, Frame(2000, 10, Clockwise, false, true, 0));
            && t1.g.state == AdjustBrightness
            && t1.g.brightness == 60 && t1.g.encoderPosition == 60
            && t1.g.lastInteraction == 2000
            && t1.events == []
            && var t2 := FrameStep(t1.g, Quiet(2034));
               t2.g.state == Idle && t2.g.brightness == 60 && t2.events == [BrightnessApplied(60)]
  {
  }

  /** Brightness saturates at the top of its range however far the encoder runs. */
  lemma BrightnessSaturates(steps: int)
    requires steps >= 5
    ensures var g := Globals(Idle, 95, 0, false, false, 1000, 95);
            var t := FrameStep(g, Frame(2000, steps, Clockwise, false, true, 0));
            t.g.brightness == 100 && t.g.encoderPosition == 100 && t.g.state == AdjustBrightness
  {
  }

  /** In the menu at the first colour, a counter-clockwise turn wraps to the last one. */
  lemma MenuWrapsBackwards()
    ensures var g := Globals(Menu, 60, 0, false, false, 1000, 60);
            var t := FrameStep(g, Frame(1500, -1, CounterClockwise, false, true, 0));
            && t.g.state == Menu
            && t.g.selected == 3
            && t.g.encoderPosition == 60 && t.g.brightness == 60
            && !t.g.menuModified
            && t.events == [Clear, Draw(1, 0, "Blue", false), Draw(1, 1, "White", true), Draw(1, 2, "Red", false)]
  {
  }

  /** As written, a clockwise turn from the third colour lands on the second, not the fourth. */
  lemma MenuClockwiseFromThird()
    ensures var g := Globals(Menu, 60, 2, false, false, 1000, 60);
            var t := FrameStep(g, Frame(1500, 1, Clockwise, false, true, 0));
            t.g.selected == 1 && t.events[2] == Draw(1, 1, "Green", true)
  {
  }

  /** A hold of exactly 2000 ms is a short press: the light toggles and the menu stays closed. */
  lemma HoldAtThresholdIsShort()
    ensures var g := Globals(Idle, 60, 0, false, false, 1000, 60);
            var t := FrameStep(g, Press(1500, 2000));
            t.g.state == Idle && t.g.lightOn && t.events == [LightToggled(true)]
            && t.g.lastInteraction == 3500
  {
  }

  /** A hold of 2001 ms is a long press: the menu opens and the light is left alone. */
  lemma HoldPastThresholdIsLong()
    ensures var g := Globals(Idle, 60, 0, false, false, 1000, 60);
            var t := FrameStep(g, Press(1500, 2001));
            t.g.state == Menu && t.g.menuModified && !t.g.lightOn && t.events == []
  {
  }

  /** A short press inside the menu picks the colour on the next frame. */
  lemma ShortPressSelectsColor()
    ensures var g := Globals(Menu, 60, 3, false, false, 1000, 60);
            var t1 := FrameStep(g, Press(1500, 300));
            && t1.g.state == SelectColor && t1.events == [Clear]
            && var t2 := FrameStep(t1.g, Quiet(1834));
               t2.g.state == Idle && t2.events == [ColorSelected("White")]
  {
  }

  /** The menu closes only once strictly more than 10000 ms have passed. */
  lemma MenuTimeoutIsStrict()
    ensures var g := Globals(Menu, 60, 1, false, false, 1000, 60);
            && FrameStep(g, Quiet(11000)).g.state == Menu
            && FrameStep(g, Quiet(11000)).events == []
            && FrameStep(g, Quiet(11001)).g.state == Idle
            && FrameStep(g, Quiet(11001)).events == [Clear]
  {
  }

  /** After 61000 ms without interaction the frame ends in deep sleep, whatever the state. */
  lemma NoInteractionSleeps(g: Globals)
    requires Valid(g)
    ensures var t := FrameStep(g, Quiet(Add32(g.lastInteraction, 61000)));
            t.slept && t.events == SleepSequence && t.g.state == g.state
  {
  }

  /** The elapsed time is taken modulo 2^32, so a clock that wrapped around does not trigger sleep. */
  lemma ClockWrapDoesNotSleep()
    ensures var g := Globals(Idle, 60, 0, false, false, 0xFFFF_FF00, 60);
            var t := FrameStep(g, Quiet(100));
            !t.slept && t.g.state == Idle && t.events == []
  {
  }

  /**
   * At boot brightness is 0, below its range, so the first frame that does
   * not sleep and has no press moves it into range, and the next frame that
   * does not sleep commits it.
   */
  lemma FirstFrameCommitsBrightness(bootTime: u32, f: Frame, f2: Frame)
    requires !Pressed(f)
    requires Elapsed(f.now, bootTime) <= SleepTimeout
    ensures var t := FrameStep(Init(bootTime), f);
            && t.g.state == AdjustBrightness && BrightnessMin <= t.g.brightness <= BrightnessMax
            && (Elapsed(f2.now, t.g.lastInteraction) <= SleepTimeout ==>
                  var t2 := FrameStep(t.g, f2);
                  t2.g.state == Idle && t2.events == [BrightnessApplied(t.g.brightness)])
  {
  }

  /**
   * At a bound of the range the encoder counter is not re-synchronised: the
   * clamped brightness equals the old one, so `setPosition` is skipped and the
   * counter runs past the bound. Turning back then moves nothing until the
   * counter has returned into range.
   */
  lemma SaturatedEncoderNotResynchronised()
    ensures var g := Globals(Idle, 100, 0, false, false, 1000, 100);
            var t1 := FrameStep(g, Frame(2000, 5, Clockwise, false, true, 0));
            && t1.g.brightness == 100 && t1.g.encoderPosition == 105 && t1.g.state == Idle
            && var t2 := FrameStep(t1.g, Frame(2034, -3, CounterClockwise, false, true, 0));
               t2.g.brightness == 100 && t2.g.encoderPosition == 102 && t2.events == []
  {
  }

  /** What a caller of the controller object can conclude from the method contracts alone. */
  method ControllerClient()
  {
    var light := new Controller.SmartLight(0);
    var slept := light.Step(Frame(34, 50, Clockwise, false, true, 0));
    assert !slept && light.brightness == 50 && light.interfaceState == AdjustBrightness;
    slept := light.Step(Quiet(68));
    assert !slept && light.interfaceState == Idle;
    assert light.trace == [Clear, BrightnessApplied(50)];
    slept := light.Step(Quiet(60102));
    assert slept && light.trace[|light.trace| - 1] == DeepSleep;
  }
}
