# SDL utility library core, modelled in Dafny

This project models five pieces of a small C utility library for SDL2 games and proves properties of them:

- **Input/action manager** (`src/su_input.c`). It is one process-wide record that holds double-buffered keyboard, mouse and gamepad state. It derives "down", "pressed" (rising edge) and "released" (falling edge) from that state. It turns stick and trigger axes into synthetic button bits using a strict deadzone test. It keeps the ordered list of connected controllers and a table of actions. Each action has two key slots, two gamepad slots and one mouse mask.
- **Stopwatch** (`include/su_timer.h`). The C struct `TimerUtil` is the Dafny class `Timer.Stopwatch`: start, stop, pause, resume and read, using unsigned 32-bit millisecond arithmetic that wraps around.
- **Scene stack** (`src/su_scene.c`). This is a growable array of scene pointers used as a stack, plus the field initialisation of a `Scene`.
- **Camera** (`include/su_camera.h`, `src/su_camera.c`). These are the integer operations on the view rectangle, and the resize operations that replace the render-target texture.

## How the model is built

Each piece keeps the form of the C:

- Objects the C updates through a pointer are Dafny classes whose methods have `modifies` clauses: `Stopwatch` (the C `TimerUtil`), `Camera`, `Scene`, the scene manager and the input manager. Each method is specified against a function of the old state.
- Pure reads are functions.
- C integer types are subset types of `int` (`u8`, `u16`, `i16`, `u32`, `i32`). Wrap-around and truncating division are written out: `Sub32`, `Add32`, `Wrap32`, `CHalf`.
- A `Uint32` bit mask is the set of the positions of its one bits (`Mask32`). So `a & b` is `a * b`, `a | b` is `a + b`, `1 << x` is `{x}`, and `(c & b) == b` is `c * b == b`.

Calls into SDL become parameters:

- the clock reading `now`;
- the mouse mask and position;
- the keyboard state array;
- one `Poll` per gamepad slot, holding what `SDL_GameControllerGetButton`/`GetAxis` report;
- the controller returned by `SDL_GameControllerOpen`;
- the texture returned by `SDL_CreateTexture`;
- whether an allocation or subsystem initialisation succeeds.

Resources handed to `SDL_DestroyTexture` or `scene_free` are recorded in ghost sequences (`Destroyed`, `Freed`). The block `camera_create` releases when `camera_init` fails is recorded in the ghost result `freedBlock`.

Behaviour reproduced as the code has it:

- `input_manager_init` writes its sentinels into a local copy, so the table keeps whatever the allocator left in it (the `leftover` parameter).
- `input_manager_init` never stores `action_count`.
- `input_manager_update` refreshes gamepad slots `0 .. controller_count - 1` rather than the slots the controller list names.
- `input_manager_update` copies the keyboard pointer, not the keyboard contents.
- Controller removal scans all 16 slots.
- Controller removal moves `sizeof(Gamepad)`-sized elements. On an LP64 target that is 6 ints per list entry.
- Controller removal leaves the gamepad slot's `active` flag set, so a check that names the slot explicitly still reads its last masks.
- `gamepad_open` refreshes the slot once, so its previous mask holds whatever current mask the slot had before. That is zero only for a slot never opened. `OpenGamepad` models this.

Where the C has undefined behaviour, the model has a `requires` that excludes it. Examples are an out-of-bounds `memmove`, `gamepad_open` with no room left, `1 << button` with `button >= 32`, and signed overflow in `camera_move`.

Corrected versions of the defects listed under Findings sit next to the as-written members.

## Model

| member | source | states |
|---|---|---|
| SdlTypes.Sub32 | include/su_timer.h:107 | unsigned 32-bit subtraction: the plain difference when it is non-negative, otherwise the difference plus 2^32 |
| SdlTypes.CHalf | include/su_camera.h:187 | C's `w / 2`: truncates towards zero for negative widths as well as positive ones |
| Timer.Stopwatch.constructor | include/su_timer.h:79-85 | the timer timer_create returns after a successful allocation: every field cleared, paused ⇒ started holds |
| Timer.Stopwatch.Init | include/su_timer.h:72-77 | all four fields are cleared and the invariant paused ⇒ started holds |
| Timer.Create | include/su_timer.h:79-85 | NULL exactly when the allocation fails; otherwise a fresh, cleared, consistent timer |
| Timer.Stopwatch.Start | include/su_timer.h:91-96 | started, not paused, paused_ticks = 0, start_ticks = now |
| Timer.Stopwatch.Stop | include/su_timer.h:98-103 | the same cleared state as timer_init |
| Timer.Stopwatch.Pause | include/su_timer.h:105-111 | no-op unless running; otherwise paused_ticks = now − start (mod 2^32), start = 0, paused; keeps the invariant |
| Timer.Stopwatch.Resume | include/su_timer.h:113-119 | no-op unless paused; otherwise start = now − paused_ticks (mod 2^32), paused_ticks = 0, running; keeps the invariant |
| Timer.Stopwatch.Ticks | include/su_timer.h:121-131 | 0 when not started, paused_ticks when paused, now − start (mod 2^32) otherwise |
| Timer.Stopwatch.IsStarted | include/su_timer.h:133-135 | a paused timer reports started |
| Timer.Stopwatch.IsPaused | include/su_timer.h:137-139 | a timer that reports paused is started |
| Timer.OperationsKeepConsistent | include/su_timer.h:72-119 | every operation preserves paused ⇒ started |
| Timer.ElapsedSinceStart | include/su_timer.h:121-131 | a timer started at t0 reads 0 at t0, t1 − t0 at any later t1, and t1 − t0 + 2^32 once the clock has wrapped past zero |
| Timer.PauseIdempotent | include/su_timer.h:105-111 | pausing twice is pausing once, whatever the clock says the second time |
| Timer.ResumeIdempotent | include/su_timer.h:113-119 | resuming twice is resuming once |
| Timer.PauseKeepsElapsed | include/su_timer.h:105-131 | at a fixed instant the reading is the same before and after a pause |
| Timer.ResumeKeepsElapsed | include/su_timer.h:113-131 | at a fixed instant the reading is the same before and after a resume |
| Timer.PausedTimeNotCounted | include/su_timer.h:105-131 | paused at t1 and resumed at t2, a timer reads at t3 its reading at t1 plus t3 − t2 (mod 2^32) |
| Timer.SubChain | include/su_timer.h:107-127 | (t3 − (t2 − (t1 − t0))) equals (t1 − t0) + (t3 − t2) modulo 2^32 |
| Cameras.TranslateRoundTrip | include/su_camera.h:177-180 | moving keeps the size, and moving by −d after d restores the view |
| Cameras.CenteredOnMiddle | include/su_camera.h:186-189 | after look-at, the point lies half the (non-negative) width and height, rounded down, from the top-left corner |
| Cameras.Camera.Init | src/su_camera.c:3-17 | fails exactly when the texture cannot be created, storing the NULL and nothing else; otherwise view = (0, 0, w, h) and renderer, viewport and pixel format are stored |
| Cameras.Create | src/su_camera.c:19-30 | NULL when the allocation or camera_init fails; the allocated block is released exactly when the allocation succeeded and camera_init failed; otherwise a fresh camera as camera_init leaves it |
| Cameras.Camera.Move | include/su_camera.h:177-180 | the view is translated by the offset; size and resources unchanged |
| Cameras.Camera.LookAt | include/su_camera.h:186-189 | x = px − w/2 and y = py − h/2 with C division; size and resources unchanged |
| Cameras.Camera.SetPosition | include/su_camera.h:191-194 | the position read back is the one set; size unchanged |
| Cameras.Camera.SetX | include/su_camera.h:196-198 | only view.x changes |
| Cameras.Camera.SetY | include/su_camera.h:200-202 | only view.y changes |
| Cameras.Camera.SetSize | src/su_camera.c:32-49 | same size: true and nothing changes; otherwise the size is stored first, then a failed creation returns false and keeps the old target, a successful one destroys the old target and installs the new one |
| Cameras.Camera.SetWidth | src/su_camera.c:51-65 | as SetSize for the width alone; no other view field changes |
| Cameras.Camera.SetHeight | src/su_camera.c:67-81 | as SetSize for the height alone; no other view field changes |
| Cameras.Camera.GetBounds | include/su_camera.h:236-238 | the bounds are the whole view rectangle |
| Cameras.Camera.GetPosition | include/su_camera.h:208-210 | the position is the top-left corner of the bounds |
| Cameras.Camera.GetX | include/su_camera.h:212-214 | the x the position reports |
| Cameras.Camera.GetY | include/su_camera.h:216-218 | the y the position reports |
| Cameras.Camera.GetSize | include/su_camera.h:220-222 | the size is the width and height of the bounds |
| Cameras.Camera.GetWidth | include/su_camera.h:224-226 | the width the size reports |
| Cameras.Camera.GetHeight | include/su_camera.h:228-230 | the height the size reports |
| Cameras.Camera.GetRenderTarget | include/su_camera.h:240-242 | the render target recorded among the camera's resources |
| Cameras.GettersAgree | include/su_camera.h:208-238 | the bounds are the rectangle built from the reported position and size, and equally from the four separate coordinates |
| Scenes.Scene.Init | src/su_scene.c:11-31 | every pointer and flag argument is stored and the background is r = g = b = 0, a = 255 |
| Scenes.CreateScene | src/su_scene.c:33-47 | NULL exactly when the allocation fails; otherwise a fresh scene as scene_init leaves it |
| Scenes.SceneManager.constructor | src/su_scene.c:9 | no storage and an empty stack |
| Scenes.SceneManager.Reserve | src/su_scene.c:128 | the storage grows to hold the requested size and the stack contents are kept |
| Scenes.SceneManager.Push | src/su_scene.c:127-130 | the scene goes on top and the entries below are unchanged |
| Scenes.SceneManager.Pop | src/su_scene.c:139-144 | on a non-empty stack, returns the former top, removes it, and frees it exactly when asked |
| Scenes.PopOrder | src/su_scene.c:132-134 | the order in which repeated pops see a stack is the stack reversed |
| Scenes.SceneManager.Change | src/su_scene.c:132-136 | the stack becomes exactly [s], and every earlier scene has been freed, top first |
| Scenes.SceneManager.Current | src/su_scene.c:146-150 | NULL on an empty stack, the top otherwise; nothing changes |
| Scenes.PushThenPop | src/su_scene.c:127-144 | a pop right after a push returns the scene just pushed; without freeing, the stack is restored and nothing is freed |
| InputBindings.Unbound | src/su_input.c:275-282 | every key slot is SDL_SCANCODE_UNKNOWN, every gamepad slot is (INVALID, -1), and the mouse mask is empty |
| InputBindings.AxisButton | src/su_input.c:225-244 | the synthetic button of an axis lies in the extension range 15 .. 24 |
| InputBindings.Refreshed | src/su_input.c:212-219 | the old current mask becomes previous, and the new current mask holds exactly the polled physical buttons below SDL_CONTROLLER_BUTTON_MAX |
| InputBindings.Synthesize | src/su_input.c:214-247 | the mask built by the two loops is the polled buttons plus the synthetic button of each axis outside the deadzone |
| InputBindings.AxisOwnsItsBits | src/su_input.c:225-244 | two axes never share a synthetic button |
| InputBindings.AxisSetsOneBit | src/su_input.c:221-246 | of an axis' own bits, the mask holds exactly the one its sign selects when the value is strictly outside [−deadzone, deadzone], and none otherwise |
| InputBindings.ButtonsPassThrough | src/su_input.c:216-219 | a physical button's bit is set exactly when the poll reports it held |
| InputBindings.FirstIndex | src/su_input.c:312-313 | −1 exactly when the value is absent; otherwise the position of its first occurrence |
| InputBindings.Shifted | src/su_input.c:315 | memmove semantics: the w entries after position i move down by one and everything else stays |
| InputBindings.RemovedKeepsOrder | src/su_input.c:312-318 | when defined, removal keeps the entries before the removed one, moves those after it down in order, and puts −1 in the freed slot |
| InputBindings.RemovingFirstOfFourOverruns | src/su_input.c:315 | removing the first of four connected controllers moves data from beyond the 16-entry list |
| InputBindings.RemovedCorrectedDeletes | src/su_input.c:312-318 | with an int-sized memmove, removal is always defined, deletes exactly the entry, and leaves the slots past the list alone |
| Input.InputManager.constructor | src/su_input.c:42 | the zero-initialised record: empty masks, NULL keyboard pointers, inactive gamepads, a zeroed controller list, no action table |
| Input.InputManager.KeyCheck | src/su_input.c:46-48 | a key reported down has a non-zero state; a zero state is never down |
| Input.InputManager.KeyCheckPressed | src/su_input.c:50-52 | a pressed key is down and its state differs from the previous one; with aliased buffers no key is pressed |
| Input.InputManager.KeyCheckReleased | src/su_input.c:54-56 | a released key is up and its state differs from the previous one; with aliased buffers no key is released |
| Input.InputManager.KeyEdges | src/su_input.c:46-56 | a key is never both pressed and released, a pressed key is down and a released key is up |
| Input.InputManager.SameBufferHasNoKeyEdges | src/su_input.c:50-56 | when both keyboard pointers name the same buffer, no key is pressed or released |
| Input.InputManager.MouseCheck | src/su_input.c:58-60 | down exactly when every button of the mask is held |
| Input.InputManager.MouseCheckPressed | src/su_input.c:62-64 | pressed exactly when the mask is down now and was not wholly held before |
| Input.InputManager.MouseCheckReleased | src/su_input.c:66-68 | released exactly when the mask is not down now and was wholly held before |
| Input.InputManager.MouseMoved | src/su_input.c:70-73 | moved exactly when the current position differs from the previous one |
| Input.InputManager.MouseChecksAreContainment | src/su_input.c:58-68 | down means the mask is contained in the current buttons; pressed means contained now and not before, released the reverse; pressed and released exclude each other |
| Input.InputManager.ResolveIndex | src/su_input.c:76-77 | index −1 resolves to the first listed controller; any other index is used as given |
| Input.InputManager.GamepadCheck | src/su_input.c:75-83 | down exactly when the resolved slot is usable and the button's bit is set in its current mask |
| Input.InputManager.GamepadCheckPressed | src/su_input.c:85-94 | pressed exactly when down and the bit is clear in the previous mask |
| Input.InputManager.GamepadCheckReleased | src/su_input.c:96-105 | released exactly when the slot is usable, the button is not down, and the bit is set in the previous mask |
| Input.InputManager.GamepadEdges | src/su_input.c:75-105 | all three gamepad checks are false for a resolved index outside [0, 16) or an inactive slot; pressed and released exclude each other and pressed implies down |
| Input.InputManager.SetDeadzone | src/su_input.c:117-119 | the deadzone read back is the one set; nothing else changes |
| Input.InputManager.GetDeadzone | src/su_input.c:121-123 | returns the deadzone currently stored, the value the update hands to the axis test |
| Input.InputManager.RefreshGamepad | src/su_input.c:212-248 | only slot k changes, and it becomes its refreshed value |
| Input.InputManager.OpenGamepad | src/su_input.c:250-262 | nothing changes when the open fails; otherwise the slot gets the controller, is active and refreshed, and the index is appended to the controller list |
| Input.InputManager.MoveDown | src/su_input.c:315 | the controller list becomes its memmove-shifted value |
| Input.InputManager.RemoveController | src/su_input.c:310-321 | an absent index changes nothing; otherwise the list becomes the as-written removal of the first occurrence and the count drops by one |
| Input.InputManager.Event | src/su_input.c:305-324 | added: as OpenGamepad; removed: as RemoveController, with every gamepad slot, including its active flag, unchanged; other events change nothing |
| Input.InputManager.Update | src/su_input.c:293-303 | current mouse and keyboard values become previous (the keyboard by pointer), the new polls become current, and gamepad slots below controller_count are refreshed while the others stay |
| Input.InputManager.Copy | src/su_input.c:296 | a fresh buffer with the same contents as the keyboard state: the copy the corrected update keeps as the previous keyboard |
| Input.InputManager.UpdateCorrected | src/su_input.c:293-303 | the keyboard is copied into a fresh buffer, and exactly the slots the controller list names are refreshed |
| Input.InputManager.UnboundNeverFires | src/su_input.c:152-210 | an entry holding only sentinels never fires |
| Input.InputManager.CheckAction | src/su_input.c:152-210 | false for an action outside the table; otherwise true exactly when a key, gamepad or mouse binding that is not a sentinel satisfies its device predicate |
| Input.InputManager.SetKey | src/su_input.c:125-133 | only the addressed key slot of the addressed entry changes, and nothing changes for an invalid action or slot |
| Input.InputManager.SetButton | src/su_input.c:135-143 | only the addressed gamepad slot changes, holding the button as a Uint32 and the gamepad index; nothing changes for an invalid action or slot |
| Input.InputManager.SetMouse | src/su_input.c:145-150 | only the mouse mask of the addressed entry changes; nothing changes for an invalid action |
| Input.InputManager.Init | src/su_input.c:264-291 | fails exactly when the subsystem or the allocation fails; on success the table holds the allocator's leftovers, the deadzone is 4915, the current mouse and keyboard are polled, and the action count is unchanged |
| Input.InputManager.InitActions | src/su_input.c:264-291 | the corrected initialisation: every entry becomes unbound and the action count is stored |
| Input.ActionsUnusableAfterInit | src/su_input.c:264-291 | after the as-written initialisation, action 0 bound to a held key does not fire |
| Input.BoundKeyFires | src/su_input.c:125-170 | after the corrected initialisation, action 0 bound to a key fires exactly when the key is held |
| Input.AliasedKeyboardMissesPress | src/su_input.c:293-299 | with the pointer copy, a key that goes down between two updates is down but not pressed |
| Input.CopiedKeyboardSeesPress | src/su_input.c:293-299 | with a copied keyboard state, the same key is reported as pressed |
| Input.SlotFiveNotRefreshed | src/su_input.c:301-302 | a lone controller opened in slot 5 keeps its stale masks across an update |

## Left out

- Calls into SDL are parameters: `SDL_GetTicks`, `SDL_GetMouseState`, `SDL_GetKeyboardState`, `SDL_GameControllerGetButton`/`GetAxis`/`Open`, `SDL_WasInit`/`SDL_InitSubSystem` and `SDL_CreateTexture`. What SDL does inside them is not modelled. This includes returning zeros for a NULL controller, which is what the `polls` of an unopened slot should hold.
- `SDL_SetError` and the text of error messages are not modelled.
- `gamepad_axis_value_index` is a passthrough to `SDL_GameControllerGetAxis` and is not modelled.
- The default deadzone is computed in single-precision floating point. The model uses its value, 4915.
- `input_manager_free`, `camera_free`, `timer_free` and the `scene_free*` functions release memory and SDL/ECS resources. The model only records which textures and scenes are handed over.
- The three-argument `action_set_button` is declared at `include/su_input.h:171` but never defined; only the four-argument `action_set_button_index` exists, so only that one is modelled.
- The camera's `rotation` (a double) is not modelled. That covers `camera_rotate`, `camera_set_rotation`, `camera_get_rotation` and the zeroing in `camera_init`. The float conversions `camera_screen_to_world` and `camera_world_to_screen` are also left out.
- `scene_update`, `scene_draw`, `scene_set_background` and `scene_get_background` (rendering, ECS calls and pixel-format conversion) are not modelled.
- `include/su_math.h`, `include/su_utils.h` and `include/su_data_types.h` are not part of this model.
- The internals of `ECS_ARRAY_RESIZE` are not visible. Growth is modelled as doubling until the request fits. The C passes `sizeof(Scene)` where `sizeof(Scene*)` is meant, so it over-allocates; allocation sizes are not modelled.
- Scenes.SceneManager.Pop: requires a non-empty stack, because the C indexes `scenes[-1]` otherwise.
- Cameras.Camera.Move: requires that the new coordinates fit in a C int, because signed overflow is undefined.
- Cameras.Camera.LookAt: requires the same of `p − w/2` and `p − h/2`.
- Input.InputManager.GamepadCheck: requires `button < 32` whenever the slot is usable, because `1 << button` is undefined beyond that. `1 << 31` is taken as bit 31.
- Input.InputManager.CheckAction: requires every binding that is not a sentinel to be readable. The C stops at the first binding that fires and never reads the later ones, so it demands slightly less.
- Input.InputManager.OpenGamepad: requires the slot to be below 16 and the list to have room when the open succeeds. The C writes out of bounds otherwise.
- Input.InputManager.RemoveController: requires the first occurrence to lie inside the list and the `memmove` to stay inside the 16-entry array. Otherwise the C has undefined behaviour, for example when a stale entry past the list matches.
- Input.InputManager.Init: re-establishes the object invariant only when the stored action count is 0. That is always the case for the code as written, which never stores one.
- Input.InputManager.UpdateCorrected: requires the controller list to hold distinct slot numbers below 16.

## Findings

| source | as written | input that shows it | evidently intended | confidence | as-written member | corrected member |
|---|---|---|---|---|---|---|
| src/su_input.c:264-291 | `input_manager_init(action_count)` never stores `action_count`, which stays 0, so every `action_set_*` is a no-op and every `action_check*` is false | `input_manager_init(1)`, then `action_set_key(0, k, 0)` with key k held, then `action_check(0)` returns false | store the count so the table can be used | high, not executed | Input.ActionsUnusableAfterInit | Input.InputManager.InitActions |
| src/su_input.c:275-282 | the sentinels are written into `ActionMap map`, a local copy, so the table keeps uninitialised contents | any `input_manager_init(n)` with n > 0: entry i is whatever the allocator returned | write the sentinels into `maps[i]` | high, not executed | Input.InputManager.Init | Input.InputManager.InitActions |
| src/su_input.c:315 | the memmove length is `(count - i - 1) * sizeof(Gamepad)` on an `int` array: six times too long on LP64 | four controllers connected, the first one removed: 18 ints are moved from position 1, past the 16-entry array | `(count - i - 1) * sizeof(int)` | high, not executed | InputBindings.RemovingFirstOfFourOverruns | InputBindings.RemovedCorrectedDeletes |
| src/su_input.c:296 | `keyboard_previous` is set to the same pointer `SDL_GetKeyboardState` returns, so previous and current alias the one array SDL keeps | a key goes down between two updates while SDL hands back its one internal array both times: `key_check_pressed` is false | keep a copy of the previous keyboard contents | medium (relies on SDL returning the same array every time), not executed | Input.AliasedKeyboardMissesPress | Input.CopiedKeyboardSeesPress |
| src/su_input.c:301-302 | the update refreshes `gamepads + i` for `i < controller_count` | one controller added with device index 5: slot 0 is refreshed and slot 5 keeps the masks from when it was opened | refresh `gamepads + controllers[i]` | medium (indices match whenever devices arrive as 0, 1, 2, …), not executed | Input.SlotFiveNotRefreshed | Input.InputManager.UpdateCorrected |
