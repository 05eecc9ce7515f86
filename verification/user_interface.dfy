/**
 The dispatch context (UserInterface.h, class `UI`): one event queue and
 the screen currently shown. A screen is abstracted to its state `S` and
 its `handle_event` operation, passed in as `handle`. Drawing is not
 modelled: the model assumes a redraw leaves the screen's state as it is.
 As written, `Menu::draw` (WheelUI.h:66) would assign the menu cursor, but
 that line does not compile.
 */
module UserInterface {
  import opened Numeric
  import opened EventQueue

  datatype UI<S> = UI(queue: Queue, screen: S)

  predicate Valid<S>(ui: UI<S>)
  {
    EventQueue.Valid(ui.queue)
  }

  /** The context as constructed: the home screen is shown and no event is
      waiting. */
  function New<S>(home: S): (ui: UI<S>)
    ensures Valid(ui)
    ensures Contents(ui.queue) == []
    ensures ui.screen == home
  {
    UI(Empty(), home)
  }

  /** One tick of `loop`: when an event is waiting, the oldest one is
      removed and handed to the current screen; otherwise nothing changes.
      The redraw that follows is assumed to leave the screen's state alone. */
  function Loop<S>(ui: UI<S>, handle: (S, Event) -> S): (r: UI<S>)
    requires Valid(ui)
    ensures Valid(r)
    ensures |Contents(ui.queue)| > 0 ==>
      && Contents(r.queue) == Contents(ui.queue)[1..]
      && r.screen == handle(ui.screen, Contents(ui.queue)[0])
    ensures Contents(ui.queue) == [] ==> r == ui
  {
    if Count(ui.queue) > 0 then
      var (q, e) := Get(ui.queue);
      UI(q, handle(ui.screen, e))
    else
      ui
  }

  /** `UI::put`: an input is queued exactly as `EventQueue::put` queues it,
      and the screen is not consulted. */
  function Put<S>(ui: UI<S>, now: u32, source: byte, data: byte): (r: UI<S>)
    requires Valid(ui)
    ensures Valid(r)
    ensures r.screen == ui.screen
    ensures r.queue == EventQueue.Put(ui.queue, now, source, data)
    ensures |Contents(ui.queue)| < SIZE ==> Contents(r.queue) == Contents(ui.queue) + [Event(now, source, data)]
    ensures |Contents(ui.queue)| == SIZE ==> r == ui
  {
    UI(EventQueue.Put(ui.queue, now, source, data), ui.screen)
  }

  /** The screen state after handling `events` in order: the reference for
      what a run of ticks must achieve. */
  function Dispatch<S>(s: S, events: seq<Event>, handle: (S, Event) -> S): S
    decreases |events|
  {
    if events == [] then s else Dispatch(handle(s, events[0]), events[1..], handle)
  }

  /** Handling `a + b` is handling `a` and then `b`. */
  lemma {:induction false} DispatchAppend<S>(s: S, a: seq<Event>, b: seq<Event>, handle: (S, Event) -> S)
    ensures Dispatch(s, a + b, handle) == Dispatch(Dispatch(s, a, handle), b, handle)
    decreases |a|
  {
    if a != [] {
      assert (a + b)[0] == a[0];
      assert (a + b)[1..] == a[1..] + b;
      assert Dispatch(s, a + b, handle) == Dispatch(handle(s, a[0]), a[1..] + b, handle);
      DispatchAppend(handle(s, a[0]), a[1..], b, handle);
    } else {
      assert a + b == b;
    }
  }

  /** `n` consecutive ticks. */
  function Loops<S>(ui: UI<S>, handle: (S, Event) -> S, n: nat): (r: UI<S>)
    requires Valid(ui)
    ensures Valid(r)
    decreases n
  {
    if n == 0 then ui else Loops(Loop(ui, handle), handle, n - 1)
  }

  /** With no new input, `n` ticks consume exactly the `min(n, count)`
      oldest events, deliver them to the screen in arrival order, and leave
      the rest waiting in order. */
  lemma {:induction false} LoopsDispatchInOrder<S>(ui: UI<S>, handle: (S, Event) -> S, n: nat)
    requires Valid(ui)
    ensures var r := Loops(ui, handle, n);
            var k := Min(n, |Contents(ui.queue)|);
            && r.screen == Dispatch(ui.screen, Contents(ui.queue)[..k], handle)
            && Contents(r.queue) == Contents(ui.queue)[k..]
    decreases n
  {
    var c := Contents(ui.queue);
    if n > 0 {
      var next := Loop(ui, handle);
      LoopsDispatchInOrder(next, handle, n - 1);
      if c != [] {
        var k := Min(n, |c|);
        assert c[..k] == [c[0]] + c[1..][..k - 1];
        assert c[1..][k - 1..] == c[k..];
      }
    }
  }
}
