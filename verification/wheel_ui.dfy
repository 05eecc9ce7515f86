/**
 Screens of the encoder-driven menu library (WheelUI.h): the encoder value
 screen and the menu. Source 1 carries an encoder wheel turn, source 2 a
 button.
 */
module WheelUI {
  import opened Numeric
  import opened EventQueue
  import UserInterface

  /** Event source of the encoder wheel. */
  const WHEEL: byte := 1
  /** Event source of the button. */
  const BUTTON: byte := 2

  /** `EncoderValueScreen`: shows an accumulated wheel position. Its `int`
      is unbounded here; see the README for the width of `int`. */
  datatype EncoderValueScreen = EncoderValueScreen(value: int)

  /** The constructor: the position starts at zero. */
  function NewEncoderValueScreen(): (s: EncoderValueScreen)
    ensures s.value == 0
  {
    EncoderValueScreen(0)
  }

  /** `handle_event`: a wheel event adds its payload read as a signed byte,
      a button event zeroes the value, any other event is ignored. */
  function HandleEncoder(s: EncoderValueScreen, e: Event): (r: EncoderValueScreen)
    ensures e.source == WHEEL ==> r.value - s.value == Signed(e.data) && -128 <= r.value - s.value < 128
    ensures e.source == BUTTON ==> r.value == 0
    ensures e.source != WHEEL && e.source != BUTTON ==> r == s
  {
    match e.source
    case 1 => EncoderValueScreen(s.value + Signed(e.data))
    case 2 => EncoderValueScreen(0)
    case _ => s
  }

  /** The older copy of `handle_event` in UserInterface.h, which adds the
      payload as an unsigned byte: a backwards turn moves the value forward. */
  function HandleEncoderUnsigned(s: EncoderValueScreen, e: Event): (r: EncoderValueScreen)
    ensures e.source == WHEEL ==> r.value == s.value + e.data as int
    ensures e.source == BUTTON ==> r.value == 0
    ensures e.source != WHEEL && e.source != BUTTON ==> r == s
  {
    match e.source
    case 1 => EncoderValueScreen(s.value + e.data as int)
    case 2 => EncoderValueScreen(0)
    case _ => s
  }

  /** The two copies agree on every event except a backwards wheel turn
      (payload 128..255), where the unsigned copy ends up 256 higher: one
      click back (payload 255) moves it forward by 255 instead of back by 1. */
  lemma UnsignedCopyDiverges(s: EncoderValueScreen, e: Event)
    ensures e.source != WHEEL || e.data < 128 ==> HandleEncoderUnsigned(s, e) == HandleEncoder(s, e)
    ensures e.source == WHEEL && e.data >= 128 ==>
      HandleEncoderUnsigned(s, e).value == HandleEncoder(s, e).value + 256
  {
  }

  /** A wheel turn of `d` clicks, sent as the byte `(unsigned char) d`,
      moves the value by exactly `d`. */
  lemma WheelTurnRoundTrip(s: EncoderValueScreen, time: u32, d: int)
    requires -128 <= d < 128
    ensures HandleEncoder(s, Event(time, WHEEL, Truncate(d))).value == s.value + d
  {
  }

  /** The sum of the signed wheel deltas among `events`. */
  function WheelTotal(events: seq<Event>): int
    decreases |events|
  {
    if events == [] then 0
    else (if events[0].source == WHEEL then Signed(events[0].data) else 0) + WheelTotal(events[1..])
  }

  /** Without a button press, the screen accumulates the wheel deltas. */
  lemma {:induction false} EncoderAccumulates(s: EncoderValueScreen, events: seq<Event>)
    requires forall k :: 0 <= k < |events| ==> events[k].source != BUTTON
    ensures UserInterface.Dispatch(s, events, HandleEncoder).value == s.value + WheelTotal(events)
    decreases |events|
  {
    if events != [] {
      EncoderAccumulates(HandleEncoder(s, events[0]), events[1..]);
    }
  }

  /** After the last button press, the screen shows exactly the wheel
      deltas that followed it, whatever it showed before. */
  lemma {:induction false} EncoderCountsSinceButton(s: EncoderValueScreen, before: seq<Event>, press: Event, after: seq<Event>)
    requires press.source == BUTTON
    requires forall k :: 0 <= k < |after| ==> after[k].source != BUTTON
    ensures UserInterface.Dispatch(s, before + [press] + after, HandleEncoder).value == WheelTotal(after)
  {
    var mid := UserInterface.Dispatch(s, before, HandleEncoder);
    UserInterface.DispatchAppend(s, before + [press], after, HandleEncoder);
    UserInterface.DispatchAppend(s, before, [press], HandleEncoder);
    assert UserInterface.Dispatch(mid, [press], HandleEncoder) == HandleEncoder(mid, press) by {
      assert [press][1..] == [];
    }
    EncoderAccumulates(HandleEncoder(mid, press), after);
  }

  /** A menu entry's name; `Null` is the null pointer that ends the table.
      The screen each entry opens is not part of this model. */
  datatype Name = Null | Text(chars: string)

  datatype MenuItem = MenuItem(name: Name)

  /** `Menu`: the number of entries and the cursor position, both
      `unsigned char`. */
  datatype Menu = Menu(nItems: byte, pos: byte)

  /** The entry table ends at an entry with a null name. */
  predicate Terminated(items: seq<MenuItem>)
  {
    exists i :: 0 <= i < |items| && items[i].name.Null?
  }

  /** The number of entries before the terminator. */
  function EntryCount(items: seq<MenuItem>): (n: nat)
    requires Terminated(items)
    ensures n < |items|
    ensures items[n].name.Null?
    ensures forall i :: 0 <= i < n ==> items[i].name.Text?
    decreases |items|
  {
    if items[0].name.Null? then 0
    else
      assert Terminated(items[1..]) by {
        var i :| 0 <= i < |items| && items[i].name.Null?;
        assert items[1..][i - 1] == items[i];
      }
      var n := EntryCount(items[1..]);
      assert forall i :: 1 <= i < n + 1 ==> items[i] == items[1..][i - 1];
      n + 1
  }

  /** The `Menu` constructor: walks the table to its terminator, counting
      entries in an `unsigned char`, and starts the cursor at the first
      entry. The source leaves both counters uninitialised before this; the
      model starts them at zero, as the code evidently intends. */
  method NewMenu(items: seq<MenuItem>) returns (m: Menu)
    requires Terminated(items)
    ensures m.nItems as int == EntryCount(items) % 256
    ensures m.pos == 0
  {
    var count: byte := 0;
    var i := 0;
    while items[i].name.Text?
      invariant 0 <= i <= EntryCount(items)
      invariant count as int == i % 256
      decreases EntryCount(items) - i
    {
      count := Truncate(count as int + 1);
      i := i + 1;
    }
    m := Menu(count, 0);
  }

  /** `Menu::handle_event`: a wheel event moves the cursor forward by the
      payload, but never by more than the number of entries, and the byte
      cursor wraps past 255. A button event has no effect on the menu. */
  function HandleMenu(m: Menu, e: Event): (r: Menu)
    ensures r.nItems == m.nItems
    ensures e.source == WHEEL ==>
      && (r.pos as int - m.pos as int) % 256 == Min(m.nItems as int, e.data as int)
      && (r.pos as int - m.pos as int) % 256 <= m.nItems as int
      && (r.pos as int - m.pos as int) % 256 <= e.data as int
    ensures e.source != WHEEL ==> r == m
  {
    // In the source the button case reads `if (event.data = 1) {}`: an
    // assignment where a comparison was meant, with an empty body. It only
    // overwrites the payload of the event being handled, which is a slot
    // the queue has already released and which the next `put` into it
    // overwrites in full, so no state of the model changes.
    if e.source == WHEEL then
      Menu(m.nItems, Truncate(m.pos as int + Min(m.nItems as int, e.data as int)))
    else
      m
  }

  /** The total cursor advance a run of events asks for. */
  function MenuSteps(n: byte, events: seq<Event>): int
    decreases |events|
  {
    if events == [] then 0
    else (if events[0].source == WHEEL then Min(n as int, events[0].data as int) else 0) + MenuSteps(n, events[1..])
  }

  /** A run of events moves the cursor by the sum of the individual clamped
      steps, modulo 256. */
  lemma {:induction false} MenuStepsAdd(m: Menu, events: seq<Event>)
    ensures var r := UserInterface.Dispatch(m, events, HandleMenu);
            r.nItems == m.nItems && r.pos as int == (m.pos as int + MenuSteps(m.nItems, events)) % 256
    decreases |events|
  {
    if events != [] {
      var next := HandleMenu(m, events[0]);
      MenuStepsAdd(next, events[1..]);
    }
  }
}
