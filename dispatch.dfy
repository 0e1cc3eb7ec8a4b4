/** Delivery of readystatechange events to the callback installed on the
    window's request, and what the callbacks do over a whole stream of
    events. */
module Dispatch {
  import opened Browser
  import SelectionPage
  import Popup

  /** The event makes callback h act. */
  predicate Fires(h: Handler, ev: Event)
  {
    match h
    case NoHandler => false
    case UnselectAndCloseHandler => SelectionPage.UnselectSucceeded(ev)
    case PopupDoneHandler => ev.readyState == Done && Popup.StatusOk(ev.status)
  }

  /** What callback h does for one event. No callback acts before the
      request is DONE, and none sends a request again. */
  function Handle(h: Handler, ev: Event, reloadThrows: bool): (o: Outcome)
    ensures o.actions != [] <==> Fires(h, ev)
    ensures ev.readyState != Done ==> o == Nothing
    ensures o.thrown ==> h == UnselectAndCloseHandler && Fires(h, ev) && reloadThrows
    ensures forall a :: a in o.actions ==> !a.Sent?
  {
    match h
    case NoHandler => Nothing
    case UnselectAndCloseHandler => SelectionPage.UnselectOutcome(ev, reloadThrows)
    case PopupDoneHandler => Popup.DoneOutcome(ev)
  }

  /** The unselect callback's test is strictly narrower than the popup's:
      every event it accepts the popup accepts, but not the other way round. */
  lemma UnselectStricterThanPopup(ev: Event)
    ensures Fires(UnselectAndCloseHandler, ev) ==> Fires(PopupDoneHandler, ev)
    ensures Fires(PopupDoneHandler, Event(Done, 204)) && !Fires(UnselectAndCloseHandler, Event(Done, 204))
    ensures Fires(PopupDoneHandler, Event(Done, 0)) && !Fires(UnselectAndCloseHandler, Event(Done, 0))
  {
  }

  /** A readystatechange event on the window's request: the request takes the
      event's state and status, then its callback runs. */
  method Deliver(w: Window, ev: Event, reloadThrows: bool) returns (thrown: bool)
    requires w.req != null
    modifies w`trace, w.req
    ensures w.req == old(w.req) && w.req.readyState == ev.readyState && w.req.status == ev.status
    ensures w.req.Request() == old(w.req.Request()) && w.req.onReadyStateChange == old(w.req.onReadyStateChange)
    ensures w.req.sent == old(w.req.sent)
    ensures var o := Handle(w.req.onReadyStateChange, ev, reloadThrows);
            w.trace == old(w.trace) + o.actions && thrown == o.thrown
  {
    var x := w.req;
    x.readyState, x.status := ev.readyState, ev.status;
    match x.onReadyStateChange
    case NoHandler =>
      thrown := false;
    case UnselectAndCloseHandler =>
      thrown := SelectionPage.OnUnselectStateChange(w, x, reloadThrows);
    case PopupDoneHandler =>
      Popup.OnDoneStateChange(w, x);
      thrown := false;
  }

  /** The effects of callback h over a stream of events, in order. */
  function Replay(h: Handler, events: seq<Event>, reloadThrows: bool): seq<Action>
  {
    if events == [] then []
    else Handle(h, events[0], reloadThrows).actions + Replay(h, events[1..], reloadThrows)
  }

  /** How many events of the stream make h act. */
  function Firings(h: Handler, events: seq<Event>): nat
  {
    if events == [] then 0
    else (if Fires(h, events[0]) then 1 else 0) + Firings(h, events[1..])
  }

  /** A request's state changes as the browser delivers them: DONE comes at
      most once, as the last change. */
  predicate DoneIsLast(events: seq<Event>)
  {
    forall i :: 0 <= i < |events| - 1 ==> events[i].readyState != Done
  }

  /** A fire-and-forget request (addToSelected, removeFromSelected) has no
      visible effect whatever its events are. */
  lemma {:induction false} ReplayWithoutHandler(events: seq<Event>, reloadThrows: bool)
    ensures Replay(NoHandler, events, reloadThrows) == []
  {
    if events != [] {
      ReplayWithoutHandler(events[1..], reloadThrows);
    }
  }

  /** Over any stream, the unselect callback reloads the opener and closes the
      window once per accepted event, and a throwing reload never costs a close. */
  lemma {:induction false} ReplayUnselectCloses(events: seq<Event>, reloadThrows: bool)
    ensures CountOf(WindowClose, Replay(UnselectAndCloseHandler, events, reloadThrows)) == Firings(UnselectAndCloseHandler, events)
    ensures CountOf(OpenerReload(reloadThrows), Replay(UnselectAndCloseHandler, events, reloadThrows)) == Firings(UnselectAndCloseHandler, events)
  {
    if events != [] {
      var h := UnselectAndCloseHandler;
      var head := Handle(h, events[0], reloadThrows).actions;
      ReplayUnselectCloses(events[1..], reloadThrows);
      CountOfConcat(WindowClose, head, Replay(h, events[1..], reloadThrows));
      CountOfConcat(OpenerReload(reloadThrows), head, Replay(h, events[1..], reloadThrows));
      if Fires(h, events[0]) {
        assert head == [OpenerReload(reloadThrows), WindowClose];
      }
    }
  }

  /** Over any stream, the popup writes "done" once per accepted event and
      writes nothing else: no error notice, no retry. */
  lemma {:induction false} ReplayPopupWritesDone(events: seq<Event>, reloadThrows: bool)
    ensures |Replay(PopupDoneHandler, events, reloadThrows)| == Firings(PopupDoneHandler, events)
    ensures forall a :: a in Replay(PopupDoneHandler, events, reloadThrows) ==> a == DocumentWrite(Popup.DoneNotice)
  {
    if events != [] {
      ReplayPopupWritesDone(events[1..], reloadThrows);
    }
  }

  /** In a request's life, a callback acts at most once: exactly when the
      final DONE event is one it accepts. */
  lemma {:induction false} FiringsInLifecycle(h: Handler, events: seq<Event>)
    requires DoneIsLast(events)
    ensures Firings(h, events) == if events != [] && Fires(h, events[|events| - 1]) then 1 else 0
  {
    if events != [] {
      var rest := events[1..];
      assert DoneIsLast(rest) by {
        forall i | 0 <= i < |rest| - 1 ensures rest[i].readyState != Done {
          assert rest[i] == events[i + 1];
        }
      }
      FiringsInLifecycle(h, rest);
      if |events| > 1 {
        assert events[0].readyState != Done;
        assert Handle(h, events[0], false) == Nothing;
        assert rest[|rest| - 1] == events[|events| - 1];
      }
    }
  }

  /** The reading window closes at most once, and exactly once when its
      DELETE finishes with status 200, even if reloading the opener throws. */
  lemma {:induction false} UnselectClosesOnce(events: seq<Event>, reloadThrows: bool)
    requires DoneIsLast(events)
    ensures CountOf(WindowClose, Replay(UnselectAndCloseHandler, events, reloadThrows))
         == if events != [] && SelectionPage.UnselectSucceeded(events[|events| - 1]) then 1 else 0
  {
    ReplayUnselectCloses(events, reloadThrows);
    FiringsInLifecycle(UnselectAndCloseHandler, events);
  }

  /** The popup writes "done" at most once, and exactly once when its POST
      finishes with no status or a status from 200 to 399. */
  lemma {:induction false} PopupDoneOnce(events: seq<Event>, reloadThrows: bool)
    requires DoneIsLast(events)
    ensures Replay(PopupDoneHandler, events, reloadThrows)
         == if events != [] && Popup.StatusOk(events[|events| - 1].status) && events[|events| - 1].readyState == Done
            then [DocumentWrite(Popup.DoneNotice)] else []
  {
    ReplayPopupWritesDone(events, reloadThrows);
    FiringsInLifecycle(PopupDoneHandler, events);
    var r := Replay(PopupDoneHandler, events, reloadThrows);
    if |r| == 1 {
      assert r[0] in r;
    }
  }
}
