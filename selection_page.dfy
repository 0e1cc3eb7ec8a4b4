/** The scripts of the feed pages (resources/public/code.js): adding and
    removing an item from the selection, the checkbox toggle that picks one
    of the two, and the "unselect and close" flow of a reading window. */
module SelectionPage {
  import opened Http
  import opened Text
  import opened Browser

  /** The class that marks a checkbox standing for an already selected item. */
  const Marker := "selected-item"

  /** What toggleItem reads from its checkbox: item.checked, item.className, item.value. */
  datatype Checkbox = Checkbox(checked: bool, className: string, value: string)

  /** The toggle decision: add when the box is checked, except that a box
      whose class string contains the marker anywhere inverts that. */
  function ToggleIntent(item: Checkbox): (m: Mutation)
    ensures m.id == item.value
    ensures m.Add? <==> (item.checked != Occurs(item.className, Marker))
  {
    var add := if Search(item.className, Marker) >= 0 then !item.checked else item.checked;
    if add then Add(item.value) else Remove(item.value)
  }

  /** Without the marker: checked adds, unchecked removes. */
  lemma ToggleWithoutMarker(item: Checkbox)
    requires !Occurs(item.className, Marker)
    ensures ToggleIntent(item) == if item.checked then Add(item.value) else Remove(item.value)
  {
  }

  /** With the marker anywhere in the class string, also inside a longer
      class name: checked removes, unchecked adds. */
  lemma {:induction false} ToggleWithMarker(checked: bool, before: string, after: string, value: string)
    ensures ToggleIntent(Checkbox(checked, before + Marker + after, value))
         == if checked then Remove(value) else Add(value)
  {
    SearchFindsEmbedded(before, Marker, after);
  }

  /** Flipping the box flips the request on the same item. */
  lemma ToggleFlips(item: Checkbox)
    ensures ToggleIntent(item.(checked := !item.checked)).Add? != ToggleIntent(item).Add?
    ensures ToggleIntent(item.(checked := !item.checked)).id == ToggleIntent(item).id
  {
  }

  /** addToSelected(id): a fresh request, POST /selected, form header, body "id=" + id. */
  method AddToSelected(w: Window, id: string)
    modifies w
    ensures w.req != null && fresh(w.req) && w.req.sent && w.req.readyState == Opened && w.req.status == 0
    ensures w.req.Request() == AddRequest(id) && w.req.onReadyStateChange == NoHandler
    ensures w.trace == old(w.trace) + [Sent(AddRequest(id))]
  {
    var r := new XmlHttpRequest();
    w.req := r;
    r.Open(Post, SelectedPath);
    r.SetRequestHeader(ContentTypeName, FormUrlEncoded);
    w.Transmit(r, Some(IdParam + id));
  }

  /** removeFromSelected(id): a fresh request, DELETE /selected?id=<id>, no header, no body. */
  method RemoveFromSelected(w: Window, id: string)
    modifies w
    ensures w.req != null && fresh(w.req) && w.req.sent && w.req.readyState == Opened && w.req.status == 0
    ensures w.req.Request() == RemoveRequest(id) && w.req.onReadyStateChange == NoHandler
    ensures w.trace == old(w.trace) + [Sent(RemoveRequest(id))]
  {
    var r := new XmlHttpRequest();
    w.req := r;
    r.Open(Delete, RemovePrefix + id);
    w.Transmit(r, None);
  }

  /** toggleItem(item): exactly one request, for item.value, as ToggleIntent decides. */
  method ToggleItem(w: Window, item: Checkbox)
    modifies w
    ensures w.req != null && fresh(w.req) && w.req.sent && w.req.readyState == Opened && w.req.status == 0
    ensures w.req.Request() == RequestFor(ToggleIntent(item)) && w.req.onReadyStateChange == NoHandler
    ensures w.trace == old(w.trace) + [Sent(RequestFor(ToggleIntent(item)))]
  {
    var add := item.checked;
    if Search(item.className, Marker) >= 0 {
      add := !add;
    }
    if add {
      AddToSelected(w, item.value);
    } else {
      RemoveFromSelected(w, item.value);
    }
  }

  /** The success test of the unselect callback: DONE with status exactly 200. */
  predicate UnselectSucceeded(ev: Event)
  {
    ev.readyState == Done && ev.status == 200
  }

  /** What the unselect callback does for one event: nothing unless it
      succeeded; then try { reload the opener } finally { close this window }. */
  function UnselectOutcome(ev: Event, reloadThrows: bool): (o: Outcome)
    ensures !UnselectSucceeded(ev) ==> o == Nothing
    ensures UnselectSucceeded(ev) ==>
              |o.actions| == 2 && o.actions[0] == OpenerReload(reloadThrows)
              && CountOf(WindowClose, o.actions) == 1 && o.actions[1] == WindowClose
              && o.thrown == reloadThrows
  {
    if UnselectSucceeded(ev) then
      TryFinally(Outcome([OpenerReload(reloadThrows)], reloadThrows), Outcome([WindowClose], false))
    else Nothing
  }

  /** The finally clause is what keeps the close: had the callback run the
      reload and the close in plain sequence, a throwing reload would skip
      the close. */
  lemma UnselectNeedsFinally(ev: Event)
    requires UnselectSucceeded(ev)
    ensures CountOf(WindowClose, UnselectOutcome(ev, true).actions) == 1
    ensures WindowClose !in Then(Outcome([OpenerReload(true)], true), Outcome([WindowClose], false)).actions
  {
  }

  /** Statuses 0, 204, 302 and 404 on a finished request, and any event
      before the request is finished, whatever its status, make the
      callback do nothing. */
  lemma UnselectIgnores(rs: nat, reloadThrows: bool)
    ensures forall st :: st in {0, 204, 302, 404} ==> UnselectOutcome(Event(Done, st), reloadThrows) == Nothing
    ensures forall st: nat :: rs != Done ==> UnselectOutcome(Event(rs, st), reloadThrows) == Nothing
  {
  }

  /** The unselect callback run on the request that fired; it ends by throwing
      when the reload threw, after the close has happened. */
  method OnUnselectStateChange(w: Window, x: XmlHttpRequest, reloadThrows: bool) returns (thrown: bool)
    modifies w`trace
    ensures var o := UnselectOutcome(Event(x.readyState, x.status), reloadThrows);
            w.trace == old(w.trace) + o.actions && thrown == o.thrown
  {
    thrown := false;
    if x.readyState == Done && x.status == 200 {
      // try
      thrown := w.ReloadOpener(reloadThrows);
      // finally: runs on both exits of the try block
      w.Close();
    }
  }

  /** UnselectAndClose(id): installs the callback, then sends DELETE /selected?id=<id>. */
  method UnselectAndClose(w: Window, id: string)
    modifies w
    ensures w.req != null && fresh(w.req) && w.req.sent && w.req.readyState == Opened && w.req.status == 0
    ensures w.req.Request() == RemoveRequest(id) && w.req.onReadyStateChange == UnselectAndCloseHandler
    ensures w.trace == old(w.trace) + [Sent(RemoveRequest(id))]
  {
    var r := new XmlHttpRequest();
    w.req := r;
    r.onReadyStateChange := UnselectAndCloseHandler;
    r.Open(Delete, RemovePrefix + id);
    w.Transmit(r, None);
  }
}
