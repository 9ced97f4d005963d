/**
 * The process-wide input manager of src/su_input.c: double-buffered mouse,
 * keyboard and gamepad state, the list of connected controllers and the
 * action table.
 *
 * The static `input_manager` record becomes an InputManager object whose
 * methods update it in place. The polls of SDL (SDL_GetMouseState,
 * SDL_GetKeyboardState, SDL_GameControllerGetButton/GetAxis,
 * SDL_GameControllerOpen) are parameters. The keyboard state is an array
 * owned by the platform: the manager keeps references to it, as the C keeps
 * `const Uint8*` pointers.
 */
module Input {
  import opened SdlTypes
  import opened InputBindings

  /** An SDL_ControllerDeviceEvent: its type and the `which` field. */
  datatype DeviceEvent = ControllerAdded(which: i32) | ControllerRemoved(which: i32) | OtherEvent

  /** The mouse and keyboard fields of the manager. */
  datatype DeviceSnapshot = DeviceSnapshot(mouseCurrent: Mask32, mousePrevious: Mask32,
                                           positionCurrent: Point, positionPrevious: Point,
                                           keyboardCurrent: array?<u8>, keyboardPrevious: array?<u8>)

  /** The deadzone and the action table fields of the manager. */
  datatype ActionTable = ActionTable(deadzone: u16, maps: array?<ActionMap>, actionCount: int)

  class InputManager {
    var mouseCurrent: Mask32
    var mousePrevious: Mask32
    var mousePositionCurrent: Point
    var mousePositionPrevious: Point
    var keyboardCurrent: array?<u8>
    var keyboardPrevious: array?<u8>
    const gamepads: array<Gamepad>
    const controllers: array<i32>
    var controllerCount: int
    var deadzone: u16
    var maps: array?<ActionMap>
    var actionCount: int

    /** The two fixed-size arrays have MAX_GAMEPADS entries. */
    predicate Sized() {
      gamepads.Length == MaxGamepads && controllers.Length == MaxGamepads
    }

    ghost predicate Valid()
      reads this, maps
    {
      && Sized()
      && 0 <= controllerCount <= MaxGamepads
      && (keyboardCurrent != null ==> keyboardCurrent.Length == NumScancodes)
      && (keyboardPrevious != null ==> keyboardPrevious.Length == NumScancodes)
      && 0 <= actionCount
      && (actionCount > 0 ==> maps != null && actionCount <= maps.Length)
      && (maps != null ==> forall i :: 0 <= i < maps.Length ==> MapShaped(maps[i]))
    }

    function Devices(): DeviceSnapshot
      reads this
    {
      DeviceSnapshot(mouseCurrent, mousePrevious, mousePositionCurrent, mousePositionPrevious, keyboardCurrent, keyboardPrevious)
    }

    function Table(): ActionTable
      reads this
    {
      ActionTable(deadzone, maps, actionCount)
    }

    /** `static InputManager input_manager = {0};`: everything zero or NULL. */
    constructor ()
      ensures Valid() && controllerCount == 0
      ensures Devices() == DeviceSnapshot({}, {}, Point(0, 0), Point(0, 0), null, null)
      ensures Table() == ActionTable(0, null, 0)
      ensures fresh(gamepads) && fresh(controllers)
      ensures forall k :: 0 <= k < MaxGamepads ==> gamepads[k] == NoGamepad && controllers[k] == 0
    {
      mouseCurrent, mousePrevious := {}, {};
      mousePositionCurrent, mousePositionPrevious := Point(0, 0), Point(0, 0);
      keyboardCurrent, keyboardPrevious := null, null;
      gamepads := new Gamepad[MaxGamepads](_ => NoGamepad);
      controllers := new i32[MaxGamepads](_ => 0);
      controllerCount := 0;
      deadzone := 0;
      maps := null;
      actionCount := 0;
    }

    // ---------------------------------------------------------------- keyboard

    /** keyboard_current[key] can be read. */
    predicate KeyReadable(key: int)
      reads this
    {
      keyboardCurrent != null && 0 <= key < keyboardCurrent.Length
    }

    /** keyboard_previous[key] can be read. */
    predicate PreviousReadable(key: int)
      reads this
    {
      keyboardPrevious != null && 0 <= key < keyboardPrevious.Length
    }

    /** key_check. */
    function KeyCheck(key: int): (down: bool)
      reads this, keyboardCurrent
      requires KeyReadable(key)
      ensures down ==> keyboardCurrent[key] != 0
      ensures keyboardCurrent[key] == 0 ==> !down
    {
      keyboardCurrent[key] == 1
    }

    /** key_check_pressed; the previous state is read only when the key is down now. */
    function KeyCheckPressed(key: int): (pressed: bool)
      reads this, keyboardCurrent, keyboardPrevious
      requires KeyReadable(key) && (keyboardCurrent[key] == 1 ==> PreviousReadable(key))
      ensures pressed ==> KeyCheck(key) && PreviousReadable(key) && keyboardPrevious[key] != keyboardCurrent[key]
      ensures keyboardPrevious == keyboardCurrent ==> !pressed
    {
      keyboardCurrent[key] == 1 && keyboardPrevious[key] == 0
    }

    /** key_check_released; the previous state is read only when the key is up now. */
    function KeyCheckReleased(key: int): (released: bool)
      reads this, keyboardCurrent, keyboardPrevious
      requires KeyReadable(key) && (keyboardCurrent[key] == 0 ==> PreviousReadable(key))
      ensures released ==> !KeyCheck(key) && PreviousReadable(key) && keyboardPrevious[key] != keyboardCurrent[key]
      ensures keyboardPrevious == keyboardCurrent ==> !released
    {
      keyboardCurrent[key] == 0 && keyboardPrevious[key] == 1
    }

    /** The key predicate for edge `e` can be evaluated. */
    predicate KeyEdgeReadable(key: int, e: Edge)
      reads this, keyboardCurrent
    {
      KeyReadable(key) &&
      match e
      case Down => true
      case Pressed => keyboardCurrent[key] == 1 ==> PreviousReadable(key)
      case Released => keyboardCurrent[key] == 0 ==> PreviousReadable(key)
    }

    predicate KeyFires(key: int, e: Edge)
      reads this, keyboardCurrent, keyboardPrevious
      requires KeyEdgeReadable(key, e)
    {
      match e
      case Down => KeyCheck(key)
      case Pressed => KeyCheckPressed(key)
      case Released => KeyCheckReleased(key)
    }

    /** A key is never both pressed and released, and a pressed key is down. */
    lemma KeyEdges(key: int)
      requires KeyReadable(key) && PreviousReadable(key)
      ensures !(KeyCheckPressed(key) && KeyCheckReleased(key))
      ensures KeyCheckPressed(key) ==> KeyCheck(key)
      ensures KeyCheckReleased(key) ==> !KeyCheck(key)
    {
    }

    /**
     * When both keyboard pointers name the same buffer, which is what the
     * update leaves behind when the platform hands back the same array every
     * time, no key is ever pressed or released.
     */
    lemma SameBufferHasNoKeyEdges(key: int)
      requires KeyReadable(key) && keyboardPrevious == keyboardCurrent
      ensures !KeyCheckPressed(key) && !KeyCheckReleased(key)
    {
    }

    // ------------------------------------------------------------------- mouse

    /** mouse_check: every bit of `button` is held. */
    function MouseCheck(button: Mask32): (down: bool)
      reads this
      ensures down <==> button <= mouseCurrent
    {
      mouseCurrent * button == button
    }

    /** mouse_check_pressed. */
    function MouseCheckPressed(button: Mask32): (pressed: bool)
      reads this
      ensures pressed <==> MouseCheck(button) && !(button <= mousePrevious)
    {
      mouseCurrent * button == button && mousePrevious * button != button
    }

    /** mouse_check_released. */
    function MouseCheckReleased(button: Mask32): (released: bool)
      reads this
      ensures released <==> !MouseCheck(button) && button <= mousePrevious
    {
      mouseCurrent * button != button && mousePrevious * button == button
    }

    /** mouse_moved: the position changed since the last update. */
    function MouseMoved(): (moved: bool)
      reads this
      ensures moved <==> mousePositionCurrent != mousePositionPrevious
    {
      mousePositionCurrent.x != mousePositionPrevious.x || mousePositionCurrent.y != mousePositionPrevious.y
    }

    predicate MouseFires(button: Mask32, e: Edge)
      reads this
    {
      match e
      case Down => MouseCheck(button)
      case Pressed => MouseCheckPressed(button)
      case Released => MouseCheckReleased(button)
    }

    /**
     * The mouse tests are subset tests: down means all of `button` is held now,
     * pressed that it is held now and was not all held before, released the reverse.
     */
    lemma MouseChecksAreContainment(button: Mask32)
      ensures MouseCheck(button) <==> button <= mouseCurrent
      ensures MouseCheckPressed(button) <==> button <= mouseCurrent && !(button <= mousePrevious)
      ensures MouseCheckReleased(button) <==> !(button <= mouseCurrent) && button <= mousePrevious
      ensures !(MouseCheckPressed(button) && MouseCheckReleased(button))
      ensures MouseCheckPressed(button) ==> MouseCheck(button)
    {
    }

    // ----------------------------------------------------------------- gamepads

    /** Index -1 stands for the first connected controller. */
    function ResolveIndex(index: int): (k: int)
      reads controllers
      requires Sized()
      ensures index != -1 ==> k == index
      ensures index == -1 ==> k == controllers[0]
    {
      if index == -1 then controllers[0] else index
    }

    /** The resolved index names an active slot: the gamepad checks read its masks. */
    predicate PadUsable(index: int)
      reads gamepads, controllers
      requires Sized()
    {
      var k := ResolveIndex(index);
      0 <= k < MaxGamepads && gamepads[k].active
    }

    /** gamepad_check_index. `1 << button` needs button < 32 whenever the masks are read. */
    function GamepadCheck(button: u32, index: int): (down: bool)
      reads gamepads, controllers
      requires Sized() && (PadUsable(index) ==> button < 32)
      ensures down <==> PadUsable(index) && button in gamepads[ResolveIndex(index)].buttonCurrent
    {
      var k := ResolveIndex(index);
      if k < 0 || k >= MaxGamepads || !gamepads[k].active then false
      else button in gamepads[k].buttonCurrent
    }

    /** gamepad_check_pressed_index. */
    function GamepadCheckPressed(button: u32, index: int): (pressed: bool)
      reads gamepads, controllers
      requires Sized() && (PadUsable(index) ==> button < 32)
      ensures pressed <==> GamepadCheck(button, index) && button !in gamepads[ResolveIndex(index)].buttonPrevious
    {
      var k := ResolveIndex(index);
      if k < 0 || k >= MaxGamepads || !gamepads[k].active then false
      else button in gamepads[k].buttonCurrent && button !in gamepads[k].buttonPrevious
    }

    /** gamepad_check_released_index. */
    function GamepadCheckReleased(button: u32, index: int): (released: bool)
      reads gamepads, controllers
      requires Sized() && (PadUsable(index) ==> button < 32)
      ensures released <==> PadUsable(index) && !GamepadCheck(button, index)
                            && button in gamepads[ResolveIndex(index)].buttonPrevious
    {
      var k := ResolveIndex(index);
      if k < 0 || k >= MaxGamepads || !gamepads[k].active then false
      else button !in gamepads[k].buttonCurrent && button in gamepads[k].buttonPrevious
    }

    predicate PadFires(binding: GamepadAction, e: Edge)
      reads gamepads, controllers
      requires Sized() && (PadUsable(binding.index) ==> binding.button < 32)
    {
      match e
      case Down => GamepadCheck(binding.button, binding.index)
      case Pressed => GamepadCheckPressed(binding.button, binding.index)
      case Released => GamepadCheckReleased(binding.button, binding.index)
    }

    /**
     * The gamepad checks are false for an index outside [0, 16) or an inactive
     * slot; otherwise pressed and released exclude each other and pressed implies down.
     */
    lemma GamepadEdges(button: u32, index: int)
      requires Sized() && (PadUsable(index) ==> button < 32)
      ensures !PadUsable(index) ==>
        !GamepadCheck(button, index) && !GamepadCheckPressed(button, index) && !GamepadCheckReleased(button, index)
      ensures !(GamepadCheckPressed(button, index) && GamepadCheckReleased(button, index))
      ensures GamepadCheckPressed(button, index) ==> GamepadCheck(button, index)
    {
    }

    /** gamepad_set_deadzone. */
    method SetDeadzone(value: u16)
      modifies this
      ensures GetDeadzone() == value
      ensures Devices() == old(Devices()) && maps == old(maps) && actionCount == old(actionCount)
      ensures controllerCount == old(controllerCount)
    {
      deadzone := value;
    }

    /** gamepad_get_deadzone. */
    function GetDeadzone(): (value: u16)
      reads this
      ensures value == deadzone
    {
      deadzone
    }

    /**
     * gamepad_update on slot k: the current mask becomes the previous one, and
     * the current mask is rebuilt from zero out of the poll.
     */
    method RefreshGamepad(k: nat, p: Poll)
      requires Sized() && k < MaxGamepads && PollShaped(p)
      modifies gamepads
      ensures gamepads[..] == old(gamepads[..])[k := Refreshed(old(gamepads[k]), p, deadzone)]
    {
      var pad := gamepads[k];
      pad := pad.(buttonPrevious := pad.buttonCurrent, buttonCurrent := {});
      var current := Synthesize(p, deadzone);
      gamepads[k] := pad.(buttonCurrent := current);
    }

    /**
     * gamepad_open: when SDL opens the controller, slot `index` takes it, is
     * marked active and refreshed, and `index` is appended to the controller
     * list. The C checks neither the slot nor the room in the list.
     */
    method OpenGamepad(index: i32, handle: Option<Controller>, p: Poll)
      requires Valid() && PollShaped(p)
      requires handle.Some? ==> 0 <= index < MaxGamepads && controllerCount < MaxGamepads
      modifies this, gamepads, controllers
      ensures Valid() && Devices() == old(Devices()) && Table() == old(Table())
      ensures handle.None? ==>
        gamepads[..] == old(gamepads[..]) && controllers[..] == old(controllers[..]) && controllerCount == old(controllerCount)
      ensures handle.Some? ==>
        && gamepads[..] == old(gamepads[..])[index := Refreshed(old(gamepads[index]).(controller := handle, active := true), p, deadzone)]
        && controllers[..] == old(controllers[..])[old(controllerCount) := index]
        && controllerCount == old(controllerCount) + 1
    {
      if handle.None? {
        return;
      }
      gamepads[index] := gamepads[index].(controller := handle, active := true);
      RefreshGamepad(index as nat, p);
      controllers[controllerCount] := index;
      controllerCount := controllerCount + 1;
    }

    /** memmove(controllers + i, controllers + i + 1, w ints), copying forwards. */
    method MoveDown(i: nat, w: nat)
      requires Sized() && i + 1 + w <= MaxGamepads
      modifies controllers
      ensures controllers[..] == Shifted(old(controllers[..]), i, w)
    {
      for k := 0 to w
        invariant forall j :: 0 <= j < MaxGamepads ==>
          controllers[j] == if i <= j < i + k then old(controllers[j + 1]) else old(controllers[j])
      {
        controllers[i + k] := controllers[i + k + 1];
      }
    }

    /** Removing `which` is defined C: it is absent, or its first slot lies in the list and the memmove stays in bounds. */
    predicate RemovalAllowed(which: int)
      reads this, controllers
    {
      var i := FirstIndex(controllers[..], which);
      i == -1 || RemovalDefined(controllers[..], i, controllerCount)
    }

    /**
     * The removal branch of input_manager_event: `which` is looked up in all
     * 16 slots; its first occurrence is deleted from the list with the memmove
     * of the source, the count drops by one and the freed slot becomes -1.
     */
    method RemoveController(which: i32)
      requires Valid() && RemovalAllowed(which)
      modifies this, controllers
      ensures Valid() && Devices() == old(Devices()) && Table() == old(Table())
      ensures FirstIndex(old(controllers[..]), which) == -1 ==>
        controllers[..] == old(controllers[..]) && controllerCount == old(controllerCount)
      ensures FirstIndex(old(controllers[..]), which) >= 0 ==>
        && controllers[..] == Removed(old(controllers[..]), FirstIndex(old(controllers[..]), which), old(controllerCount))
        && controllerCount == old(controllerCount) - 1
    {
      for i := 0 to MaxGamepads
        invariant forall j :: 0 <= j < i ==> controllers[j] != which
        invariant controllers[..] == old(controllers[..]) && controllerCount == old(controllerCount)
        invariant Devices() == old(Devices()) && Table() == old(Table())
      {
        if controllers[i] == which {
          assert FirstIndex(controllers[..], which) == i;
          if i != controllerCount - 1 {
            MoveDown(i, MoveWidth(i, controllerCount));
          }
          controllerCount := controllerCount - 1;
          controllers[controllerCount] := -1;
          return;
        }
      }
      assert which !in controllers[..];
    }

    /**
     * input_manager_event. An added controller is opened; a removed one is
     * deleted from the controller list, while its gamepad slot stays active.
     */
    method Event(event: DeviceEvent, handle: Option<Controller>, p: Poll)
      requires Valid() && PollShaped(p)
      requires event.ControllerAdded? && handle.Some? ==> 0 <= event.which < MaxGamepads && controllerCount < MaxGamepads
      requires event.ControllerRemoved? ==> RemovalAllowed(event.which)
      modifies this, gamepads, controllers
      ensures Valid() && Devices() == old(Devices()) && Table() == old(Table())
      ensures event.ControllerAdded? && handle.Some? ==>
        && gamepads[..] == old(gamepads[..])[event.which := Refreshed(old(gamepads[event.which]).(controller := handle, active := true), p, deadzone)]
        && controllers[..] == old(controllers[..])[old(controllerCount) := event.which]
        && controllerCount == old(controllerCount) + 1
      ensures event.ControllerRemoved? ==> gamepads[..] == old(gamepads[..])
      ensures event.ControllerRemoved? && FirstIndex(old(controllers[..]), event.which) >= 0 ==>
        && controllers[..] == Removed(old(controllers[..]), FirstIndex(old(controllers[..]), event.which), old(controllerCount))
        && controllerCount == old(controllerCount) - 1
      ensures (|| event.OtherEvent?
               || (event.ControllerAdded? && handle.None?)
               || (event.ControllerRemoved? && FirstIndex(old(controllers[..]), event.which) == -1)) ==>
        gamepads[..] == old(gamepads[..]) && controllers[..] == old(controllers[..]) && controllerCount == old(controllerCount)
    {
      match event
      case ControllerAdded(which) =>
        OpenGamepad(which, handle, p);
      case ControllerRemoved(which) =>
        RemoveController(which);
      case OtherEvent =>
    }

    /**
     * input_manager_update: the mouse and keyboard current values become the
     * previous ones (for the keyboard, the pointer is copied), the new polls
     * become current, and gamepad slots 0 .. controller_count - 1 are
     * refreshed; these are slot numbers, not the entries of the controller list.
     * `polls[k]` is what SDL reports for the controller of slot k.
     */
    method Update(mouse: Mask32, position: Point, keyboard: array<u8>, polls: seq<Poll>)
      requires Valid() && keyboard.Length == NumScancodes
      requires |polls| == MaxGamepads && forall k :: 0 <= k < |polls| ==> PollShaped(polls[k])
      modifies this, gamepads
      ensures Valid() && Table() == old(Table()) && controllerCount == old(controllerCount)
      ensures Devices() == DeviceSnapshot(mouse, old(mouseCurrent), position, old(mousePositionCurrent), keyboard, old(keyboardCurrent))
      ensures forall k :: 0 <= k < MaxGamepads ==>
        gamepads[k] == if k < controllerCount then Refreshed(old(gamepads[k]), polls[k], deadzone) else old(gamepads[k])
    {
      mousePrevious := mouseCurrent;
      mousePositionPrevious := mousePositionCurrent;
      keyboardPrevious := keyboardCurrent;

      mouseCurrent := mouse;
      mousePositionCurrent := position;
      keyboardCurrent := keyboard;

      for i := 0 to controllerCount
        modifies gamepads
        invariant forall k :: 0 <= k < MaxGamepads ==>
          gamepads[k] == if k < i then Refreshed(old(gamepads[k]), polls[k], deadzone) else old(gamepads[k])
      {
        RefreshGamepad(i, polls[i]);
      }
    }

    /** The controller list holds distinct slot numbers. */
    predicate ListedSlotsDistinct()
      reads this, controllers
      requires Sized() && 0 <= controllerCount <= MaxGamepads
    {
      && (forall i :: 0 <= i < controllerCount ==> 0 <= controllers[i] < MaxGamepads)
      && (forall i, j :: 0 <= i < j < controllerCount ==> controllers[i] != controllers[j])
    }

    /** A fresh array holding a copy of `source`. */
    static method Copy(source: array<u8>) returns (copy: array<u8>)
      ensures fresh(copy) && copy[..] == source[..]
    {
      copy := new u8[source.Length];
      for i := 0 to source.Length
        invariant copy[..i] == source[..i]
      {
        copy[i] := source[i];
      }
    }

    /**
     * The evidently intended update: the keyboard state is copied into a
     * buffer the manager owns, so the previous state survives the platform
     * overwriting its own array, and the gamepads refreshed are those the
     * controller list names.
     */
    method UpdateCorrected(mouse: Mask32, position: Point, keyboard: array<u8>, polls: seq<Poll>)
      requires Valid() && keyboard.Length == NumScancodes && ListedSlotsDistinct()
      requires |polls| == MaxGamepads && forall k :: 0 <= k < |polls| ==> PollShaped(polls[k])
      modifies this, gamepads
      ensures Valid() && Table() == old(Table()) && controllerCount == old(controllerCount)
      ensures mouseCurrent == mouse && mousePrevious == old(mouseCurrent)
      ensures mousePositionCurrent == position && mousePositionPrevious == old(mousePositionCurrent)
      ensures keyboardPrevious == old(keyboardCurrent)
      ensures keyboardCurrent != null && fresh(keyboardCurrent) && keyboardCurrent[..] == keyboard[..]
      ensures forall k :: 0 <= k < MaxGamepads ==>
        gamepads[k] == if k in controllers[..controllerCount] then Refreshed(old(gamepads[k]), polls[k], deadzone) else old(gamepads[k])
    {
      mousePrevious := mouseCurrent;
      mousePositionPrevious := mousePositionCurrent;
      keyboardPrevious := keyboardCurrent;

      mouseCurrent := mouse;
      mousePositionCurrent := position;
      keyboardCurrent := Copy(keyboard);

      for i := 0 to controllerCount
        modifies gamepads
        invariant forall k :: 0 <= k < MaxGamepads ==>
          gamepads[k] == if k in controllers[..i] then Refreshed(old(gamepads[k]), polls[k], deadzone) else old(gamepads[k])
      {
        var slot := controllers[i];
        assert controllers[..i + 1] == controllers[..i] + [slot];
        RefreshGamepad(slot as nat, polls[slot]);
      }
    }

    // ------------------------------------------------------------------ actions

    /** Every binding of `m` that is not a sentinel can be evaluated for edge `e`. */
    predicate BindingsReadable(m: ActionMap, e: Edge)
      reads this, keyboardCurrent, gamepads, controllers
      requires Sized() && MapShaped(m)
    {
      && (forall i :: 0 <= i < ActionKeyCount && m.keys[i] != ScancodeUnknown ==> KeyEdgeReadable(m.keys[i], e))
      && (forall i :: 0 <= i < ActionKeyCount && m.buttons[i].button != ButtonInvalid && PadUsable(m.buttons[i].index) ==>
            m.buttons[i].button < 32)
    }

    /** An action fires when one of its bindings that is not a sentinel satisfies its device predicate. */
    predicate ActionFires(m: ActionMap, e: Edge)
      reads this, keyboardCurrent, keyboardPrevious, gamepads, controllers
      requires Sized() && MapShaped(m) && BindingsReadable(m, e)
    {
      || (m.keys[0] != ScancodeUnknown && KeyFires(m.keys[0], e))
      || (m.keys[1] != ScancodeUnknown && KeyFires(m.keys[1], e))
      || (m.buttons[0].button != ButtonInvalid && PadFires(m.buttons[0], e))
      || (m.buttons[1].button != ButtonInvalid && PadFires(m.buttons[1], e))
      || (m.mouse != {} && MouseFires(m.mouse, e))
    }

    /** An entry whose bindings are all sentinels never fires. */
    lemma UnboundNeverFires(m: ActionMap, e: Edge)
      requires Sized()
      ensures BindingsReadable(Unbound(m), e) && !ActionFires(Unbound(m), e)
    {
    }

    /**
     * action_check, action_check_pressed and action_check_released: false for
     * an action outside the table, otherwise true as soon as a binding that is
     * not a sentinel fires, keys first, then gamepad buttons, then the mouse.
     */
    method CheckAction(action: u32, e: Edge) returns (fired: bool)
      requires Valid()
      requires action < actionCount ==> BindingsReadable(maps[action], e)
      ensures fired <==> action < actionCount && ActionFires(maps[action], e)
    {
      if action >= actionCount {
        return false;
      }
      var entry := maps[action];
      for i := 0 to ActionKeyCount
        invariant forall j :: 0 <= j < i ==> !(entry.keys[j] != ScancodeUnknown && KeyFires(entry.keys[j], e))
      {
        if entry.keys[i] != ScancodeUnknown && KeyFires(entry.keys[i], e) {
          return true;
        }
      }
      for i := 0 to ActionKeyCount
        invariant forall j :: 0 <= j < i ==> !(entry.buttons[j].button != ButtonInvalid && PadFires(entry.buttons[j], e))
      {
        if entry.buttons[i].button != ButtonInvalid && PadFires(entry.buttons[i], e) {
          return true;
        }
      }
      if entry.mouse != {} && MouseFires(entry.mouse, e) {
        return true;
      }
      return false;
    }

    /** action_set_key: only key slot `keyIndex` of entry `action` changes, and only for a valid action and slot. */
    method SetKey(action: u32, key: int, keyIndex: int)
      requires Valid()
      modifies maps
      ensures Valid()
      ensures maps != null ==>
        maps[..] == if action < actionCount && 0 <= keyIndex < ActionKeyCount
                    then old(maps[..])[action := old(maps[action]).(keys := old(maps[action]).keys[keyIndex := key])]
                    else old(maps[..])
    {
      if action >= actionCount {
        return;
      }
      if keyIndex < 0 || keyIndex > 1 {
        return;
      }
      maps[action] := maps[action].(keys := maps[action].keys[keyIndex := key]);
    }

    /**
     * action_set_button_index: only gamepad slot `buttonIndex` of entry
     * `action` changes; the Sint32 button is stored as a Uint32.
     */
    method SetButton(action: u32, button: i32, gamepadIndex: i32, buttonIndex: int)
      requires Valid()
      modifies maps
      ensures Valid()
      ensures maps != null ==>
        maps[..] == if action < actionCount && 0 <= buttonIndex < ActionKeyCount
                    then old(maps[..])[action := old(maps[action]).(buttons :=
                           old(maps[action]).buttons[buttonIndex := GamepadAction(Wrap32(button), gamepadIndex)])]
                    else old(maps[..])
    {
      if action >= actionCount {
        return;
      }
      if buttonIndex < 0 || buttonIndex > 1 {
        return;
      }
      maps[action] := maps[action].(buttons := maps[action].buttons[buttonIndex := GamepadAction(Wrap32(button), gamepadIndex)]);
    }

    /** action_set_mouse: only the mouse mask of entry `action` changes, and only for a valid action. */
    method SetMouse(action: u32, button: Mask32)
      requires Valid()
      modifies maps
      ensures Valid()
      ensures maps != null ==>
        maps[..] == if action < actionCount then old(maps[..])[action := old(maps[action]).(mouse := button)] else old(maps[..])
    {
      if action >= actionCount {
        return;
      }
      maps[action] := maps[action].(mouse := button);
    }

    /**
     * input_manager_init, as written. The game-controller subsystem and the
     * table allocation can fail. The loop writes its sentinels into a local
     * copy of each entry, so the table keeps whatever the allocator left in
     * it (`leftover`), and `action_count` is never stored.
     */
    method Init(count: nat, subsystemOk: bool, allocOk: bool, leftover: seq<ActionMap>,
                mouse: Mask32, position: Point, keyboard: array<u8>) returns (ok: bool)
      requires Valid() && keyboard.Length == NumScancodes
      requires |leftover| == count && forall i :: 0 <= i < count ==> MapShaped(leftover[i])
      modifies this
      ensures ok <==> subsystemOk && allocOk
      ensures old(actionCount) == 0 ==> Valid()
      ensures actionCount == old(actionCount) && controllerCount == old(controllerCount)
      ensures !subsystemOk ==> Devices() == old(Devices()) && Table() == old(Table())
      ensures subsystemOk && !allocOk ==> Devices() == old(Devices()) && Table() == old(Table()).(maps := null)
      ensures ok ==> fresh(maps) && maps[..] == leftover && deadzone == DefaultDeadzone
      ensures ok ==> Devices() == old(Devices()).(mouseCurrent := mouse, positionCurrent := position, keyboardCurrent := keyboard)
    {
      if !subsystemOk {
        return false;
      }
      if !allocOk {
        maps := null;
        return false;
      }
      maps := new ActionMap[count](i requires 0 <= i < count => leftover[i]);
      for i := 0 to count
        invariant maps[..] == leftover
      {
        var entry := maps[i];
        entry := Unbound(entry);
      }
      deadzone := DefaultDeadzone;
      mouseCurrent := mouse;
      mousePositionCurrent := position;
      keyboardCurrent := keyboard;
      return true;
    }

    /**
     * The evidently intended input_manager_init: the sentinels are written
     * into the table itself and the number of actions is stored.
     */
    method InitActions(count: nat, subsystemOk: bool, allocOk: bool, leftover: seq<ActionMap>,
                       mouse: Mask32, position: Point, keyboard: array<u8>) returns (ok: bool)
      requires Valid() && keyboard.Length == NumScancodes
      requires |leftover| == count && forall i :: 0 <= i < count ==> MapShaped(leftover[i])
      modifies this
      ensures ok <==> subsystemOk && allocOk
      ensures ok || old(actionCount) == 0 ==> Valid()
      ensures controllerCount == old(controllerCount)
      ensures !ok ==> actionCount == old(actionCount) && Devices() == old(Devices()) && deadzone == old(deadzone)
      ensures ok ==> fresh(maps) && actionCount == count && maps.Length == count && deadzone == DefaultDeadzone
      ensures ok ==> forall i :: 0 <= i < count ==> maps[i] == Unbound(leftover[i])
      ensures ok ==> Devices() == old(Devices()).(mouseCurrent := mouse, positionCurrent := position, keyboardCurrent := keyboard)
    {
      if !subsystemOk {
        return false;
      }
      if !allocOk {
        maps := null;
        return false;
      }
      var table := new ActionMap[count](i requires 0 <= i < count => leftover[i]);
      for i := 0 to count
        modifies table
        invariant forall j :: 0 <= j < count ==> table[j] == if j < i then Unbound(leftover[j]) else leftover[j]
      {
        table[i] := Unbound(table[i]);
      }
      maps := table;
      actionCount := count;
      deadzone := DefaultDeadzone;
      mouseCurrent := mouse;
      mousePositionCurrent := position;
      keyboardCurrent := keyboard;
      return true;
    }
  }

  /**
   * With the code as written, the action API is dead: after a successful
   * initialisation with `count` actions, binding a held key to action 0 and
   * checking that action still answers false.
   */
  method ActionsUnusableAfterInit(count: nat, leftover: seq<ActionMap>, mouse: Mask32, position: Point,
                                  keyboard: array<u8>, key: int) returns (fired: bool)
    requires keyboard.Length == NumScancodes && 0 < key < NumScancodes && keyboard[key] == 1
    requires 0 < count && |leftover| == count && forall i :: 0 <= i < count ==> MapShaped(leftover[i])
    ensures !fired
  {
    var m := new InputManager();
    var ok := m.Init(count, true, true, leftover, mouse, position, keyboard);
    m.SetKey(0, key, 0);
    fired := m.CheckAction(0, Down);
  }

  /** With the intended initialisation, action 0 bound to a key fires exactly when that key is held. */
  method BoundKeyFires(count: nat, leftover: seq<ActionMap>, mouse: Mask32, position: Point,
                       keyboard: array<u8>, key: int) returns (fired: bool)
    requires keyboard.Length == NumScancodes && 0 < key < NumScancodes
    requires 0 < count && |leftover| == count && forall i :: 0 <= i < count ==> MapShaped(leftover[i])
    ensures fired <==> keyboard[key] == 1
  {
    var m := new InputManager();
    var ok := m.InitActions(count, true, true, leftover, mouse, position, keyboard);
    m.SetKey(0, key, 0);
    fired := m.CheckAction(0, Down);
  }

  /**
   * As written, the manager stores the platform's own keyboard array, so when
   * the platform records a key going down and the next update is handed the
   * same array, the key is not reported as pressed.
   */
  method AliasedKeyboardMissesPress(m: InputManager, key: int, polls: seq<Poll>)
    requires m.Valid() && m.KeyReadable(key) && m.keyboardCurrent[key] == 0
    requires |polls| == MaxGamepads && forall k :: 0 <= k < |polls| ==> PollShaped(polls[k])
    modifies m, m.gamepads, m.keyboardCurrent
    ensures m.KeyReadable(key) && m.PreviousReadable(key) && m.KeyCheck(key) && !m.KeyCheckPressed(key)
  {
    var keyboard := m.keyboardCurrent;
    keyboard[key] := 1;
    m.Update(m.mouseCurrent, m.mousePositionCurrent, keyboard, polls);
    m.SameBufferHasNoKeyEdges(key);
  }

  /** With the intended update, the same sequence reports the key as pressed. */
  method CopiedKeyboardSeesPress(m: InputManager, keyboard: array<u8>, key: int, polls: seq<Poll>)
    requires m.Valid() && m.KeyReadable(key) && m.keyboardCurrent[key] == 0 && m.keyboardCurrent != keyboard
    requires keyboard.Length == NumScancodes && m.ListedSlotsDistinct()
    requires |polls| == MaxGamepads && forall k :: 0 <= k < |polls| ==> PollShaped(polls[k])
    modifies m, m.gamepads, keyboard
    ensures m.KeyReadable(key) && m.PreviousReadable(key) && m.KeyCheckPressed(key)
  {
    keyboard[key] := 1;
    m.UpdateCorrected(m.mouseCurrent, m.mousePositionCurrent, keyboard, polls);
  }

  /**
   * As written, a single controller handle in slot 5 is never refreshed: the
   * update walks slot 0 instead.
   */
  method SlotFiveNotRefreshed(m: InputManager, mouse: Mask32, position: Point, keyboard: array<u8>, polls: seq<Poll>)
    requires m.Valid() && keyboard.Length == NumScancodes && m.controllerCount == 1 && m.controllers[0] == 5
    requires |polls| == MaxGamepads && forall k :: 0 <= k < |polls| ==> PollShaped(polls[k])
    modifies m, m.gamepads
    ensures m.gamepads[5] == old(m.gamepads[5])
  {
    m.Update(mouse, position, keyboard, polls);
  }
}
