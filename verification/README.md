# Event core of an encoder-driven embedded menu UI

A Dafny model of the event-dispatch core of a small user-interface library
for microcontrollers with a graphic display, a rotary encoder and a few
buttons:

- `numeric.dfy` (module `Numeric`): the `unsigned char` and `unsigned long`
  types of the Arduino target, truncation into a byte and the `(signed char)`
  reading of a byte.
- `event_queue.dfy` (module `EventQueue`): the `Event` record, the
  `null_event` sentinel and the eight-slot ring buffer `EventQueue` with
  `put`, `get` and `count`. The buffer is a value made of its slots and its
  three byte indices. `Contents` maps it to the events it holds, oldest
  first. Every operation is proved against that view: FIFO order, drop on
  full, and the sentinel on empty.
- `user_interface.dfy` (module `UserInterface`): the `UI` context. `loop`
  consumes at most one event per tick and hands it to the current screen,
  and `put` queues an input. A screen is its state plus its `handle_event`,
  passed in as a function.
- `mvc.dfy` (module `MVC`): the dirty-bit models `RefModel` and
  `ProxyModel`. The flag is raised by every store and cleared only by an
  explicit `reset()`.
- `wheel_ui.dfy` (module `WheelUI`): the `EncoderValueScreen` accumulator,
  the `Menu` entry count and the `Menu` wheel cursor.

Where the code and its documentation disagree, the model follows the code.
The comment at MVC.h:15 says the dirty flag is cleared automatically at
the end of each tick of the event loop. MVC.h:17-18 and the code say it stays set
until `reset()`. `UI::loop` never clears it. The model uses the explicit
`reset()` semantics, and `MVC.DirtyUntilReset` proves the flag survives any
calls without a reset.

The millisecond clock `millis()` becomes the parameter `now` of `put`.
`ProxyModel`'s callback is a foreign function pointer that may commit later.
It becomes a choice: `synchronous` means it calls `proxy_set` with the value
at once. Otherwise the later `proxy_set` is a separate call (`ModelOp.Commit`).

## Model

| member | source | states |
|---|---|---|
| Numeric.Truncate | WheelUI.h:74 | storing an `int` into an `unsigned char` keeps it modulo 256 |
| Numeric.Signed | WheelUI.h:33 | `(signed char)` reads a byte as a value in -128..127 that is congruent to it modulo 256 |
| Numeric.SignedRoundTrip | WheelUI.h:33 | a signed delta in -128..127 stored in a byte payload reads back unchanged |
| EventQueue.IndexIsMod | UserInterface.h:42 | the division-free ring index used by the model equals the source's `(index + 1) % SIZE` arithmetic |
| EventQueue.Empty | UserInterface.h:31-35 | a new queue satisfies the ring invariant and holds no events |
| EventQueue.Put | UserInterface.h:37-45 | with room, the event stamped with the clock is appended at the back, only the back slot is written, and count grows by one; on a full queue nothing changes; the ring invariant is kept |
| EventQueue.Get | UserInterface.h:47-57 | on a non-empty queue it returns the oldest event, removes exactly that event, moves the front index forward by one around the ring, and leaves the back index and the slots untouched; on an empty queue it returns `{0,0,0}` and changes nothing; the ring invariant is kept |
| EventQueue.Count | UserInterface.h:59-61 | the reported count is the number of events held, never above 8 |
| EventQueue.FifoOrder | UserInterface.h:37-57 | for any interleaving of puts and gets, the events handed out followed by those still held equal the events held at the start followed by the accepted puts, in order |
| EventQueue.DropsOnlyWhenFull | UserInterface.h:38-44 | a run of puts keeps exactly the first events offered that find room, in order, and drops every later one |
| EventQueue.FillThenDrain | UserInterface.h:37-57 | putting any list of events and then getting until empty returns its first 8 events in order, drops the rest and leaves the queue empty |
| UserInterface.New | UserInterface.h:154-158 | a new context shows the home screen with no event waiting |
| UserInterface.Loop | UserInterface.h:164-169 | a tick with events waiting removes exactly the oldest and hands that event to the screen; a tick with none changes nothing |
| UserInterface.Put | UserInterface.h:171-173 | queuing through the UI is `EventQueue::put` on its queue and leaves the screen alone |
| UserInterface.LoopsDispatchInOrder | UserInterface.h:164-167 | with no new input, n ticks deliver the `min(n, count)` oldest events to the screen in arrival order and leave the rest queued |
| MVC.Reset | MVC.h:29-31 | reset clears the flag and keeps the value |
| MVC.RefUpdate | MVC.h:52-55 | a reference model's update stores the value and sets the flag |
| MVC.ProxySet | MVC.h:82-85 | the proxy's commit stores into the cache and sets the flag |
| MVC.ProxyUpdate | MVC.h:78-80 | a proxy update changes the model only through the callback: it commits at once, or leaves value and flag as they were |
| MVC.NewProxy | MVC.h:70-76 | a new proxy shows its initial value and is dirty, whether or not the callback commits at once |
| MVC.UpdatesCollapse | MVC.h:52-85 | after calls without a reset, the value is the last one stored and the flag is set exactly when it was set before or something was stored |
| MVC.DirtyUntilReset | MVC.h:17-18 | a dirty model stays dirty through any calls that do not include reset |
| MVC.DeferredThenCommit | MVC.h:78-85 | a deferred proxy update leaves value and flag unchanged until its commit, which then acts as a synchronous update |
| WheelUI.NewEncoderValueScreen | WheelUI.h:22-24 | a new encoder screen shows 0 |
| WheelUI.HandleEncoder | WheelUI.h:30-39 | a source-1 event moves the value by the payload read as a signed byte; a source-2 event sets it to 0; any other event leaves the screen unchanged |
| WheelUI.WheelTurnRoundTrip | WheelUI.h:32-34 | a wheel turn of d clicks, sent as a byte, moves the value by exactly d |
| WheelUI.EncoderAccumulates | WheelUI.h:30-39 | events without a button press move the value by the sum of their signed wheel deltas |
| WheelUI.EncoderCountsSinceButton | WheelUI.h:35-37 | after the last button press the value is the sum of the wheel deltas that followed it, whatever it was before |
| WheelUI.HandleEncoderUnsigned | UserInterface.h:127-136 | the older copy of the screen adds the payload unsigned: a wheel event moves the value by exactly the payload, 0..255; a source-2 event sets it to 0; other events change nothing |
| WheelUI.UnsignedCopyDiverges | UserInterface.h:130 | for every event, the older copy agrees with the WheelUI.h one unless it is a wheel event with payload 128..255, where it ends 256 higher (one click back moves it forward by 255) |
| WheelUI.EntryCount | WheelUI.h:57-60 | the count is the index of the first entry with a null name: every entry before it has a name |
| WheelUI.NewMenu | WheelUI.h:54-61 | the constructor's byte counter equals the number of entries before the terminator, modulo 256, and the cursor starts at 0 |
| WheelUI.HandleMenu | WheelUI.h:71-81 | a wheel event advances the byte cursor, modulo 256, by `min(entries, payload)`, never by more than the entry count or the payload; other events change nothing |
| WheelUI.MenuStepsAdd | WheelUI.h:74 | a run of events advances the cursor by the sum of the clamped steps, modulo 256 |

## Left out

- Drawing: `Screen::draw`, `EncoderValueScreen::draw`, `Menu::draw` and every `Adafruit_GFX` or `String` call. These write to the display through a library that is not part of this model. `Loop` models the redraw as a step that changes no screen state.
- `Menu::draw`, WheelUI.h:66: the loop header `for (MenuItem *(item = m_pos= m_items; ...` assigns the item pointer to the cursor `m_pos` as written. The line does not compile: its parentheses are unbalanced and it stores a `MenuItem*` into an `unsigned char`. `UI::loop` draws after every tick (UserInterface.h:168), so a compiled form of this line would overwrite the cursor. The model assumes drawing leaves the cursor alone, and `WheelUI.MenuStepsAdd` holds only under that assumption.
- icons.h: bitmap data and a macro that generates icon views. It holds no logic.
- `TestScreen`: its `last_event` member is a reference bound to the global `null_event`, so `handle_event` writes into the sentinel. This C++ aliasing defect is not modelled. `EventQueue.Get` assumes the sentinel stays `{0,0,0}`.
- `UI::show`: it assigns through a reference to the base class `Screen`, which has no data members, so it changes nothing and the home screen stays current. Screen switching is not modelled.
- `get` returns a reference into the ring array, which a later `put` may overwrite. The model returns the event by value.
- `millis()`: the clock is the parameter `now`. Its 32-bit wrap-around only matters for timestamps, and the core never compares them.
- `ProxyModel` callback: the model covers a callback that either calls `proxy_set` with the value it was given, at once, or does so later. A callback that stores a different value, or calls other members, is not modelled.
- `RefModel` constructor: it leaves `m_dirty` uninitialised, so no initial flag is modelled. Every lemma about reference models holds for any starting state. Writes to the referenced variable that bypass `update` are not modelled.
- `ProxyModel` constructor: as written it does not compile. It initialises a base-class member in the derived initialiser list and passes `this` where a reference is expected. The model follows the evident intent: cache = `initial`, flag set, callback called with `initial`.
- WheelUI.HandleEncoder: `m_value` is an `int`, which is 16 bits on AVR boards and wider on others. Overflowing it is undefined behaviour in C++, so the model uses an unbounded integer.
- `Menu`: `m_n_items` and `m_pos` are never initialised in the source (WheelUI.h:54-61). The model starts both at 0. The button case's `if (event.data = 1)` assigns instead of comparing and has an empty body. It only overwrites the payload of an event the queue has already released, so the model treats it as no effect. The `screen` of each `MenuItem` is not modelled.
- Both UserInterface.h and WheelUI.h define a class `EncoderValueScreen`, and the first copy lacks the closing `;`. The model follows the WheelUI.h version and keeps the older one only as `HandleEncoderUnsigned` for the finding below.
- Interrupt-context producers and any concurrency between `put` and `get`: the model is sequential.
- Screen stack navigation, debounced input sources, controllers and composite screens do not appear in these source files and are not part of this model.

## Findings

| source | as written | input that shows it | evidently intended | confidence | as-written member | corrected member |
|---|---|---|---|---|---|---|
| UserInterface.h:130 | `m_value += event.data` adds the wheel payload as an unsigned byte | a wheel event with payload 255 (one click backwards) adds 255 | add the payload as a signed byte, as the WheelUI.h copy does with `(signed char)` | medium, not executed | WheelUI.UnsignedCopyDiverges | WheelUI.WheelTurnRoundTrip |
