/**
 * The value-level part of src/su_input.c: the button numbering (including the
 * synthetic stick and trigger buttons of include/su_input.h), the structs
 * Gamepad, GamepadAction and ActionMap, how one poll of a controller becomes a
 * button mask, and how the list of connected controllers is compacted when one
 * is removed.
 *
 * The button numbers are those of SDL 2.0.9, where SDL_CONTROLLER_BUTTON_MAX is
 * 15; newer SDL versions move the synthetic buttons up, still below 32.
 */
module InputBindings {
  import opened SdlTypes

  const MaxGamepads: nat := 16
  const ActionKeyCount: nat := 2
  /** SDL_NUM_SCANCODES: the length of the keyboard state array. */
  const NumScancodes: nat := 512
  /** SDL_SCANCODE_UNKNOWN, the "no key" sentinel of an action. */
  const ScancodeUnknown: int := 0
  /** SDL_CONTROLLER_BUTTON_INVALID (-1) once stored in a Uint32. */
  const ButtonInvalid: u32 := 0xFFFF_FFFF
  /** (Uint16)(SDL_MAX_SINT16 * .15f). */
  const DefaultDeadzone: u16 := 4915

  /** SDL_CONTROLLER_BUTTON_MAX: the physical buttons are 0 .. ButtonMax - 1. */
  const ButtonMax: nat := 15
  const LeftStickUp: nat := 15
  const LeftStickLeft: nat := 16
  const LeftStickDown: nat := 17
  const LeftStickRight: nat := 18
  const RightStickUp: nat := 19
  const RightStickLeft: nat := 20
  const RightStickDown: nat := 21
  const RightStickRight: nat := 22
  const LeftTrigger: nat := 23
  const RightTrigger: nat := 24
  const ButtonExtensionMax: nat := 25

  /** SDL_CONTROLLER_AXIS_LEFTX .. SDL_CONTROLLER_AXIS_TRIGGERRIGHT are 0 .. 5. */
  const AxisLeftX: nat := 0
  const AxisLeftY: nat := 1
  const AxisRightX: nat := 2
  const AxisRightY: nat := 3
  const AxisTriggerLeft: nat := 4
  const AxisTriggerRight: nat := 5
  const AxisMax: nat := 6

  /** An SDL_GameController* that SDL_GameControllerOpen handed out. */
  datatype Controller = Controller(id: nat)

  /** A Gamepad struct: its controller and its current and previous button masks. */
  datatype Gamepad = Gamepad(controller: Option<Controller>, buttonCurrent: Mask32, buttonPrevious: Mask32, active: bool)

  /** The zero-initialised Gamepad of the static input manager. */
  const NoGamepad := Gamepad(None, {}, {}, false)

  /** A GamepadAction: a button (Uint32) and the gamepad index it is read from. */
  datatype GamepadAction = GamepadAction(button: u32, index: int)

  /** An ActionMap: two key slots, two gamepad slots and a mouse mask. */
  datatype ActionMap = ActionMap(keys: seq<int>, buttons: seq<GamepadAction>, mouse: Mask32, active: bool)

  /** The fixed array sizes of an ActionMap. */
  predicate MapShaped(m: ActionMap) {
    |m.keys| == ActionKeyCount && |m.buttons| == ActionKeyCount
  }

  /** The entry the initialisation loop was meant to write: every binding a sentinel. */
  function Unbound(m: ActionMap): (u: ActionMap)
    ensures MapShaped(u) && u.active == m.active && u.mouse == {}
    ensures forall i :: 0 <= i < ActionKeyCount ==> u.keys[i] == ScancodeUnknown && u.buttons[i] == GamepadAction(ButtonInvalid, -1)
  {
    m.(keys := [ScancodeUnknown, ScancodeUnknown],
       buttons := [GamepadAction(ButtonInvalid, -1), GamepadAction(ButtonInvalid, -1)],
       mouse := {})
  }

  /** Which of the three device predicates an action check uses. */
  datatype Edge = Down | Pressed | Released

  /** What SDL_GameControllerGetButton and SDL_GameControllerGetAxis answer for one controller. */
  datatype Poll = Poll(buttons: seq<bool>, axes: seq<i16>)

  predicate PollShaped(p: Poll) {
    |p.buttons| == ButtonMax && |p.axes| == AxisMax
  }

  /** The strict deadzone test of gamepad_update. */
  predicate AxisActive(value: int, deadzone: int) {
    value < -deadzone || value > deadzone
  }

  /** The synthetic button an active axis sets: the sign picks up/left (negative) or down/right. */
  function AxisButton(axis: nat, value: int): (b: nat)
    requires axis < AxisMax
    ensures ButtonMax <= b < ButtonExtensionMax
  {
    match axis
    case 0 => if value < 0 then LeftStickLeft else LeftStickRight
    case 1 => if value < 0 then LeftStickUp else LeftStickDown
    case 2 => if value < 0 then RightStickLeft else RightStickRight
    case 3 => if value < 0 then RightStickUp else RightStickDown
    case 4 => LeftTrigger
    case 5 => RightTrigger
  }

  /** Every synthetic button one axis can set: two directions for a stick axis, one for a trigger. */
  function AxisBits(axis: nat): set<nat>
    requires axis < AxisMax
  {
    {AxisButton(axis, -1), AxisButton(axis, 1)}
  }

  /** The physical buttons a poll reports as held. */
  function PolledButtons(p: Poll): Mask32
    requires PollShaped(p)
  {
    set i: nat | i < ButtonMax && p.buttons[i]
  }

  /** The synthetic buttons of the axes whose first `n` values lie outside the deadzone. */
  function AxisButtons(p: Poll, deadzone: int, n: nat): Mask32
    requires PollShaped(p) && n <= AxisMax
  {
    set a: nat | a < n && AxisActive(p.axes[a], deadzone) :: AxisButton(a, p.axes[a])
  }

  /** The mask gamepad_update builds from one poll. */
  function PolledMask(p: Poll, deadzone: int): Mask32
    requires PollShaped(p)
  {
    PolledButtons(p) + AxisButtons(p, deadzone, AxisMax)
  }

  /** A refreshed Gamepad: the old current mask becomes the previous one, the poll the current one. */
  function Refreshed(g: Gamepad, p: Poll, deadzone: int): (r: Gamepad)
    requires PollShaped(p)
    ensures r.buttonPrevious == g.buttonCurrent && r.controller == g.controller && r.active == g.active
    ensures forall i :: 0 <= i < ButtonMax ==> (i in r.buttonCurrent <==> p.buttons[i])
  {
    g.(buttonPrevious := g.buttonCurrent, buttonCurrent := PolledMask(p, deadzone))
  }

  /**
   * The mask-building loops of gamepad_update: set bit i for every held
   * physical button, then the synthetic bit of every axis outside the deadzone.
   */
  method Synthesize(p: Poll, deadzone: u16) returns (current: Mask32)
    requires PollShaped(p)
    ensures current == PolledMask(p, deadzone)
  {
    current := {};
    for i := 0 to ButtonMax
      invariant current == set j: nat | j < i && p.buttons[j]
    {
      if p.buttons[i] {
        current := current + {i};
      }
    }
    for i := 0 to AxisMax
      invariant current == PolledButtons(p) + AxisButtons(p, deadzone, i)
    {
      var axis := p.axes[i];
      if axis < -(deadzone as int) || axis > deadzone as int {
        current := current + {AxisButton(i, axis)};
      }
      assert AxisButtons(p, deadzone, i + 1)
          == AxisButtons(p, deadzone, i) + (if AxisActive(axis, deadzone) then {AxisButton(i, axis)} else {});
    }
  }

  /** Different axes own different synthetic buttons. */
  lemma AxisOwnsItsBits(a: nat, b: nat, v: int)
    requires a < AxisMax && b < AxisMax
    ensures AxisButton(b, v) in AxisBits(a) <==> a == b
  {
  }

  /**
   * Stick and trigger synthesis: of the bits an axis can set, the mask holds
   * exactly the one its sign selects when the value is strictly outside
   * [-deadzone, deadzone], and none otherwise, whatever the other axes and
   * buttons report.
   */
  lemma {:induction false} AxisSetsOneBit(p: Poll, deadzone: int, a: nat)
    requires PollShaped(p) && a < AxisMax
    ensures PolledMask(p, deadzone) * AxisBits(a)
         == if AxisActive(p.axes[a], deadzone) then {AxisButton(a, p.axes[a])} else {}
  {
    var m := PolledMask(p, deadzone);
    var expected := if AxisActive(p.axes[a], deadzone) then {AxisButton(a, p.axes[a])} else {};
    forall x | x in m * AxisBits(a)
      ensures x in expected
    {
      assert x !in PolledButtons(p);
      var b: nat :| b < AxisMax && AxisActive(p.axes[b], deadzone) && AxisButton(b, p.axes[b]) == x;
      AxisOwnsItsBits(a, b, p.axes[b]);
    }
    forall x | x in expected
      ensures x in m * AxisBits(a)
    {
      assert x in AxisButtons(p, deadzone, AxisMax);
    }
  }

  /** The physical buttons pass through unchanged: the synthetic bits never land on them. */
  lemma ButtonsPassThrough(p: Poll, deadzone: int, i: nat)
    requires PollShaped(p) && i < ButtonMax
    ensures i in PolledMask(p, deadzone) <==> p.buttons[i]
  {
  }

  /** The position of the first `x` in `a`, or -1 when there is none: the scan of the removal loop. */
  function FirstIndex(a: seq<i32>, x: int): (r: int)
    ensures -1 <= r < |a|
    ensures r == -1 <==> x !in a
    ensures r >= 0 ==> a[r] == x && forall j :: 0 <= j < r ==> a[j] != x
  {
    if a == [] then -1
    else if a[0] == x then 0
    else
      var k := FirstIndex(a[1..], x);
      if k == -1 then -1 else k + 1
  }

  /** sizeof(Gamepad) / sizeof(int) on an LP64 target: the memmove counts in Gamepads, not ints. */
  const GamepadInts: nat := 6

  /** memmove(a + i, a + i + 1, w * sizeof(int)): the `w` entries after position i move down by one. */
  function Shifted(a: seq<i32>, i: nat, w: nat): (r: seq<i32>)
    requires i + 1 + w <= |a|
    ensures |r| == |a|
    ensures forall j :: 0 <= j < |a| ==> r[j] == if i <= j < i + w then a[j + 1] else a[j]
  {
    a[..i] + a[i + 1..i + 1 + w] + a[i + w..]
  }

  /** The number of ints the removal memmove copies when slot i of an n-entry list is removed. */
  function MoveWidth(i: int, n: int): int {
    GamepadInts * (n - i - 1)
  }

  /** The removal of slot i from an n-entry list is defined C: the slot is in the list and the memmove stays in the array. */
  predicate RemovalDefined(a: seq<i32>, i: int, n: int) {
    0 <= i < n <= |a| && i + 1 + MoveWidth(i, n) <= |a|
  }

  /** The controller list after input_manager_event removes slot i of n, as written. */
  function Removed(a: seq<i32>, i: int, n: int): seq<i32>
    requires RemovalDefined(a, i, n)
  {
    Shifted(a, i, MoveWidth(i, n))[n - 1 := -1]
  }

  /**
   * When it is defined, the removal does what the list needs: the entries
   * before the removed one stay, those after it move down by one in order,
   * and the freed last slot holds -1.
   */
  lemma {:induction false} RemovedKeepsOrder(a: seq<i32>, i: int, n: int)
    requires RemovalDefined(a, i, n)
    ensures |Removed(a, i, n)| == |a|
    ensures Removed(a, i, n)[..n - 1] == a[..i] + a[i + 1..n]
    ensures Removed(a, i, n)[n - 1] == -1
  {
    var r := Removed(a, i, n);
    var s := Shifted(a, i, MoveWidth(i, n));
    assert MoveWidth(i, n) >= n - i - 1;
    forall j | 0 <= j < n - 1
      ensures r[j] == (a[..i] + a[i + 1..n])[j]
    {
      assert r[j] == s[j];
    }
  }

  /** Removing the first of four connected controllers makes the memmove read past the 16-entry list. */
  lemma RemovingFirstOfFourOverruns(a: seq<i32>)
    requires |a| == MaxGamepads
    ensures !RemovalDefined(a, 0, 4)
  {
  }

  /** The evidently intended removal: memmove of n - i - 1 ints. */
  function RemovedCorrected(a: seq<i32>, i: int, n: int): seq<i32>
    requires 0 <= i < n <= |a|
  {
    Shifted(a, i, n - i - 1)[n - 1 := -1]
  }

  /**
   * The intended removal is defined for every slot of every list, deletes
   * exactly that entry, keeps the rest in order and leaves the slots past the
   * list alone.
   */
  lemma {:induction false} RemovedCorrectedDeletes(a: seq<i32>, i: int, n: int)
    requires 0 <= i < n <= |a|
    ensures RemovedCorrected(a, i, n) == a[..i] + a[i + 1..n] + [-1] + a[n..]
  {
    var r := RemovedCorrected(a, i, n);
    var e := a[..i] + a[i + 1..n] + [-1] + a[n..];
    assert |r| == |e|;
    forall j | 0 <= j < |a|
      ensures r[j] == e[j]
    {
      if j < i {
      } else if j < n - 1 {
        assert e[j] == a[j + 1];
      } else if j == n - 1 {
      } else {
        assert e[j] == a[j];
      }
    }
  }
}
