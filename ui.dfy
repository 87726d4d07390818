/**
 * Constants, the `wrap` and `constrain` macros, 32-bit millisecond clock
 * arithmetic, the colour menu and the events the remote emits.
 */
module Ui {

  // Timing constants, in milliseconds.
  const MenuTransitionInterval: int := 2000
  const MenuTimeout: int := 10000
  const SleepTimeout: int := 60000

  const BrightnessMin: int := 1
  const BrightnessMax: int := 100

  // GPIO pins that wake the device from deep sleep.
  const ButtonPin: int := 32
  const EncoderClk: int := 26
  const EncoderDt: int := 27

  /** The colour menu, in display order. */
  const MenuItems: seq<string> := ["Red", "Green", "Blue", "White"]
  const MenuItemsLength: int := |MenuItems|

  /** The value range of `unsigned long` on the target: `millis()` and time differences. */
  const TwoTo32: int := 0x1_0000_0000
  type u32 = x: int | 0 <= x < 0x1_0000_0000

  datatype Direction = NoRotation | Clockwise | CounterClockwise

  datatype State = Idle | AdjustBrightness | Menu | SelectColor

  /** What one frame makes the display, the light layer and the power supervisor do. */
  datatype Event =
    | Clear                                           // display.clear()
    | Draw(col: int, row: int, text: string, inverse: bool)
    | LightToggled(on: bool)                          // the light was switched to `on`
    | BrightnessApplied(value: int)                   // "set brightness" intent
    | ColorSelected(name: string)                     // "selected color" intent
    | WakeOnHigh(pin: int)                            // a pin enabled as a high-level wake source
    | GpioWakeupEnabled                               // GPIO wake-up armed
    | DeepSleep                                       // deep sleep started; never returns

  /** Regrouping appended event lists, for composing handlers. */
  lemma AppendAssociates<T>(a: seq<T>, b: seq<T>, c: seq<T>)
    ensures (a + b) + c == a + (b + c)
  {
  }

  /**
   * The `wrap` macro: one step below `lb` wraps to `ub`, one step above `ub`
   * wraps to `lb`. It is not a modulo: anything further out lands on a bound too.
   */
  function Wrap(amt: int, lb: int, ub: int): (r: int)
    ensures lb <= amt <= ub ==> r == amt
    ensures lb <= ub && lb - 1 <= amt <= ub + 1 ==> lb <= r <= ub
    ensures amt < lb ==> r == ub
    ensures lb <= amt && amt > ub ==> r == lb
  {
    if amt < lb then ub else if amt > ub then lb else amt
  }

  /** One step up then one step down through `Wrap` comes back where it started. */
  lemma WrapStepRoundTrip(c: int, lb: int, ub: int)
    requires lb <= c <= ub
    ensures Wrap(Wrap(c + 1, lb, ub) - 1, lb, ub) == c
    ensures Wrap(Wrap(c - 1, lb, ub) + 1, lb, ub) == c
  {
  }

  /**
   * `Wrap` is not `lb + (amt - lb) mod (ub - lb + 1)`: two or more steps
   * outside the range land on the opposite bound, wherever a modulo would put them.
   */
  lemma WrapIsNotModulo(amt: int, lb: int, ub: int)
    requires lb <= ub
    ensures amt < lb - 1 ==> Wrap(amt, lb, ub) == ub
    ensures amt > ub + 1 ==> Wrap(amt, lb, ub) == lb
    ensures amt == ub + 2 && lb < ub ==> Wrap(amt, lb, ub) != lb + 1
  {
  }

  /** Arduino's `constrain`: saturates `x` to `[lo, hi]`. */
  function Constrain(x: int, lo: int, hi: int): (r: int)
    ensures lo <= hi ==> lo <= r <= hi
    ensures lo <= x <= hi ==> r == x
    ensures x < lo ==> r == lo
    ensures lo <= x && x > hi ==> r == hi
  {
    if x < lo then lo else if x > hi then hi else x
  }

  lemma ConstrainIdempotent(x: int, lo: int, hi: int)
    requires lo <= hi
    ensures Constrain(Constrain(x, lo, hi), lo, hi) == Constrain(x, lo, hi)
  {
  }

  /** `now - last` on `unsigned long`: the difference, wrapping around at 2^32. */
  function Elapsed(now: u32, last: u32): (r: u32)
    ensures r == (now - last) % TwoTo32
  {
    if last <= now then now - last else now + TwoTo32 - last
  }

  /** The clock reading `d` milliseconds after `t`, wrapping around at 2^32. */
  function Add32(t: u32, d: u32): (r: u32)
    ensures r == (t + d) % TwoTo32
  {
    if t + d < TwoTo32 then t + d else t + d - TwoTo32
  }

  /** `d` milliseconds after `t`, exactly `d` milliseconds have elapsed since `t`. */
  lemma ElapsedAfterAdd32(t: u32, d: u32)
    ensures Elapsed(Add32(t, d), t) == d
  {
  }

  /**
   * The menu cursor update as the line is written. C++ parses
   * `sel + (dir == CLOCKWISE) ? 1 : -1` as `(sel + (dir == CLOCKWISE)) ? 1 : -1`,
   * so the value handed to `wrap` is -1 when that sum is zero and 1 otherwise.
   */
  function CursorAfterTurn(sel: int, dir: Direction): (r: int)
    ensures r == 1 || r == MenuItemsLength - 1
    ensures 0 <= r < MenuItemsLength
    ensures 0 <= sel && dir != NoRotation ==>
              (r == MenuItemsLength - 1 <==> sel == 0 && dir == CounterClockwise)
  {
    var sum := sel + (if dir == Clockwise then 1 else 0);
    Wrap(if sum != 0 then 1 else -1, 0, MenuItemsLength - 1)
  }

  /** The cursor update the menu is meant to perform: one entry forward or back, with wrap-around. */
  function Advance(sel: int, dir: Direction): (r: int)
    requires dir != NoRotation
    ensures 0 <= sel < MenuItemsLength ==> 0 <= r < MenuItemsLength
    ensures 0 <= sel < MenuItemsLength - 1 && dir == Clockwise ==> r == sel + 1
    ensures 0 < sel < MenuItemsLength && dir == CounterClockwise ==> r == sel - 1
    ensures sel == MenuItemsLength - 1 && dir == Clockwise ==> r == 0
    ensures sel == 0 && dir == CounterClockwise ==> r == MenuItemsLength - 1
  {
    Wrap(sel + (if dir == Clockwise then 1 else -1), 0, MenuItemsLength - 1)
  }

  function Reverse(dir: Direction): Direction
  {
    match dir
    case Clockwise => CounterClockwise
    case CounterClockwise => Clockwise
    case NoRotation => NoRotation
  }

  /** The intended cursor update is a bijection: a turn and the opposite turn cancel out. */
  lemma AdvanceRoundTrip(c: int, dir: Direction)
    requires 0 <= c < MenuItemsLength && dir != NoRotation
    ensures Advance(Advance(c, dir), Reverse(dir)) == c
  {
    WrapStepRoundTrip(c, 0, MenuItemsLength - 1);
  }

  /**
   * The cursor update as written agrees with the intended one only from the
   * first entry, or when turning back from the third.
   */
  lemma CursorAfterTurnAgreesWithAdvance(sel: int, dir: Direction)
    requires 0 <= sel < MenuItemsLength && dir != NoRotation
    ensures CursorAfterTurn(sel, dir) == Advance(sel, dir) <==>
              sel == 0 || (sel == 2 && dir == CounterClockwise)
  {
  }

  /** With the line as written a turn and the opposite turn do not cancel out. */
  lemma CursorAfterTurnNoRoundTrip()
    ensures CursorAfterTurn(CursorAfterTurn(2, Clockwise), CounterClockwise) == 1
    ensures Advance(Advance(2, Clockwise), CounterClockwise) == 2
  {
  }

  /**
   * The three menu rows drawn around cursor `sel`: previous, current (inverse)
   * and next entry, each index wrapped on its own.
   */
  function MenuRows(sel: int): (rows: seq<Event>)
    requires 0 <= sel < MenuItemsLength
    ensures |rows| == 3
    ensures forall k :: 0 <= k < 3 ==>
              0 <= Wrap(sel - 1 + k, 0, MenuItemsLength - 1) < MenuItemsLength &&
              rows[k] == Draw(1, k, MenuItems[Wrap(sel - 1 + k, 0, MenuItemsLength - 1)], k == 1)
    ensures rows[1].text == MenuItems[sel]
  {
    [ Draw(1, 0, MenuItems[Wrap(sel - 1, 0, MenuItemsLength - 1)], false),
      Draw(1, 1, MenuItems[Wrap(sel, 0, MenuItemsLength - 1)], true),
      Draw(1, 2, MenuItems[Wrap(sel + 1, 0, MenuItemsLength - 1)], false) ]
  }

  /** The window shows the neighbours of the cursor under the intended cursor update. */
  lemma MenuRowsShowNeighbours(sel: int)
    requires 0 <= sel < MenuItemsLength
    ensures MenuRows(sel)[0].text == MenuItems[Advance(sel, CounterClockwise)]
    ensures MenuRows(sel)[2].text == MenuItems[Advance(sel, Clockwise)]
  {
  }
}
