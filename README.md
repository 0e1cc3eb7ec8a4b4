# Feedcircuit selection toggling, modelled in Dafny

Feedcircuit lets a reader mark feed items as "selected" (to read later). Two
small browser scripts send the mutations:

- `resources/public/code.js`, in the feed pages. `addToSelected` and
  `removeFromSelected` send the two requests. `toggleItem` picks one of them
  from a checkbox: its `checked` flag, inverted when the class string contains
  `selected-item`. `UnselectAndClose` sends a removal. When that removal
  finishes with status 200, it reloads the opener window and then closes the
  current window inside `try/finally`.
- `chrome/popup.js`, the browser extension's popup. It writes a progress
  notice and posts the active tab's URL to the service. It writes "done" when
  the request finishes with no status or with a status from 200 to 399.

The model treats every request as a value (`Http.Request`: method, URL,
headers, body). The host's effects are entries appended to a trace
(`Browser.Action`): a request sent, a `document.write`, an opener reload
(which may throw), a window close. Each script function is a method that
takes the `Browser.Window`. The window holds the global `req` and the trace. Requests
are built step by step on a `Browser.XmlHttpRequest` object
(`Open`, `SetRequestHeader`, `Send`), as the scripts do. Each method is
proved against a pure function, and the properties are proved about those
functions:

- `SelectionPage.ToggleIntent` is the toggle decision.
- `Http.AddRequest`, `Http.RemoveRequest` and `Popup.CaptureRequest` are the
  request shapes.
- `SelectionPage.UnselectOutcome` and `Popup.DoneOutcome` are the two
  callbacks.

A callback is driven by `(readyState, status)` events, which are inputs
(`Dispatch.Deliver`). Whether the opener's reload throws is also an input.

The request shapes have two partners, two readings of the selection
endpoints:

- `Http.Interpret` is the literal reading. It takes the raw text after
  `id=`:
  - `POST /selected`, relative or on `https://feedcircuit.kibardin.name`,
    with the form header and body `id=<id>`, adds `<id>`.
  - `DELETE /selected?id=<id>` with no header and no body removes `<id>`.
- `Http.FormReading` is the reading of a server that decodes the body and
  the query string as the declared `application/x-www-form-urlencoded`
  encoding. It splits at `&`, stops the query at `#`, and decodes `+` and
  `%XY`.

Every request the scripts build reads back under `Interpret`, taking the
raw text after `id=`, as exactly the mutation it was built for. Under
`FormReading` it is proved to read back the same way for identifiers
without `&`, `+` and `%`, and, in a removal's URL, without `#`. A `%` that
is not followed by two hexadecimal digits is kept as it is, so `50%` also
reads back unchanged. Neither script encodes
the identifier, and proved lemmas show what is lost otherwise. A tab URL
such as `https://x/?a=1&b=2` reaches a decoding server as
`https://x/?a=1`, and, for `a` and `b` without `&`, `+` and `%`, `a+b`
arrives as `a b`.

The partner of the callbacks is `Dispatch.Replay`: a callback's effects over
a whole stream of events, read against how many events it accepts
(`Dispatch.Firings`).

The `Outcome` of handler code records its effects and whether it ended by
throwing. `Browser.TryFinally` composes two of them the way `try/finally`
does: the cleanup's effects always follow the body's, and the statement
throws if either part threw. `Browser.Then` is plain sequencing, which skips
the rest once the first part throws; a lemma shows that it would lose the
window close that `try/finally` keeps. `Text.Search` is
`String.prototype.search` for a pattern made only of literal characters. It
returns the first index where the pattern occurs, or -1. The index counts
characters, where JavaScript counts UTF-16 code units. `toggleItem` only
asks whether the result is at least 0, and the answer is the same in both
units.

## Model

| member | source | states |
|---|---|---|
| Text.Search | resources/public/code.js:17 | the result is -1 or an index where the pattern occurs, and no occurrence lies before it; -1 exactly when the pattern occurs nowhere |
| Text.SearchFindsOccurrence | resources/public/code.js:17 | the `>= 0` test applied to the search result holds exactly when the pattern occurs in the text searched |
| Text.SearchFindsEmbedded | resources/public/code.js:17 | a pattern with any text before and after it is found, at or before its position, so a marker inside a longer class name counts |
| Http.AddRequest | resources/public/code.js:2-7 | the add request goes to /selected and reads back, taking the raw text after id=, as exactly "add id" |
| Http.RemoveRequest | resources/public/code.js:9-13 | the DELETE with no header and no body reads back, taking the raw text after id=, as exactly "remove id" |
| Http.FormReadingAdd | resources/public/code.js:5-6 | a server decoding the declared form encoding reads the add request as "add id" when id has no '&', '+' or '%' |
| Http.FormReadingRemove | resources/public/code.js:11 | a server decoding the query string reads the DELETE as "remove id" when id has no '&', '+', '%' or '#' |
| Http.FormReadingCutsAtAmpersand | resources/public/code.js:6 | the identifier is sent unencoded, so any id with an '&' reaches a decoding server as the decoded text before its first '&' (that text itself when it has no '+' or '%'), unlike its literal reading |
| Http.FormReadingPlusIsSpace | resources/public/code.js:6 | for any a and b without '&', '+' and '%', an id a+"+"+b reaches a decoding server as a+" "+b |
| Http.FormReadingDecodesAdd | resources/public/code.js:5-6 | for an id without '&', a decoding server adds the whole id, form-decoded |
| Http.FormReadingDecodesRemove | resources/public/code.js:11 | for an id without '&' and '#', a decoding server removes the whole id, form-decoded |
| Http.FormReadingBarePercent | resources/public/code.js:5-11 | a '%' not followed by two hexadecimal digits reaches a decoding server unchanged: "50%" is added as "50%", "%zz" removed as "%zz" |
| Http.RequestFor | resources/public/code.js:19-22 | the request sent for a resolved add or remove reads back as that same mutation |
| Http.RequestForInjective | resources/public/code.js:19-22 | two different mutations never produce the same request, so the identifier and the verb both survive |
| Browser.TryFinally | resources/public/code.js:29-33 | the cleanup's effects come after the body's and are all there whether or not the body threw; the statement throws iff either part threw |
| Browser.Then | resources/public/code.js:30-32 | plain sequencing of two statements: once the first throws, the second's effects are skipped |
| Browser.FinallyKeepsWhatSequencingDrops | resources/public/code.js:29-33 | every effect of the cleanup is counted in the whole try/finally, however the body ended; when the body throws, plain sequencing counts only the body's effects |
| Browser.XmlHttpRequest.constructor | resources/public/code.js:3 | a new request is unsent, has no headers, no body and no callback |
| Browser.XmlHttpRequest.Open | resources/public/code.js:4 | open sets method and URL, clears headers and body, moves to OPENED and keeps the callback |
| Browser.XmlHttpRequest.SetRequestHeader | resources/public/code.js:5 | sets the header, between open and send, on a request that has none; the header is added after any already set |
| Browser.XmlHttpRequest.Send | resources/public/code.js:6 | send marks the request sent with the given body |
| Browser.Window.Transmit | resources/public/code.js:6 | sending appends the request, as configured, to the trace |
| Browser.Window.ReloadOpener | resources/public/code.js:30 | the reload attempt is recorded, and it throws exactly when the host makes it fail |
| Browser.Window.Close | resources/public/code.js:32 | the close is appended to the trace |
| Browser.Window.DocumentWrite | chrome/popup.js:4 | the written text is appended to the trace |
| SelectionPage.ToggleIntent | resources/public/code.js:15-23 | the mutation is on item.value and is an add exactly when `checked` differs from "the class string contains selected-item" |
| SelectionPage.ToggleWithoutMarker | resources/public/code.js:16-22 | without the marker, checked adds and unchecked removes |
| SelectionPage.ToggleWithMarker | resources/public/code.js:16-18 | with the marker anywhere in the class string, checked removes and unchecked adds |
| SelectionPage.ToggleFlips | resources/public/code.js:16-22 | flipping the checkbox flips add and remove, on the same identifier |
| SelectionPage.AddToSelected | resources/public/code.js:2-7 | a fresh request POST /selected with the form header and body "id=" + id is the global req, and exactly one send is added to the trace |
| SelectionPage.RemoveFromSelected | resources/public/code.js:9-13 | a fresh request DELETE "/selected?id=" + id, with no header and no body, is the global req, and exactly one send is added to the trace |
| SelectionPage.ToggleItem | resources/public/code.js:15-23 | exactly one request is sent, the one for ToggleIntent(item) |
| SelectionPage.UnselectSucceeded | resources/public/code.js:28 | the unselect callback's test: readyState is 4 and status is exactly 200 |
| SelectionPage.UnselectOutcome | resources/public/code.js:27-35 | nothing happens unless readyState is 4 and status is exactly 200; then the reload is tried first and the window closes exactly once, last, and the callback throws iff the reload threw |
| SelectionPage.UnselectNeedsFinally | resources/public/code.js:29-33 | with a throwing reload the callback still closes the window once, where plain sequencing would not close it at all |
| SelectionPage.UnselectIgnores | resources/public/code.js:28 | statuses 0, 204, 302 and 404 at DONE, and any state before DONE with any status, cause no reload and no close |
| SelectionPage.OnUnselectStateChange | resources/public/code.js:27-35 | running the callback on the request appends exactly UnselectOutcome's effects and throws as it says |
| SelectionPage.UnselectAndClose | resources/public/code.js:25-38 | the unselect callback is installed on a fresh request: DELETE "/selected?id=" + id with no body, which is sent once |
| Popup.ProgressNotice | chrome/popup.js:4 | the notice is "Adding<br>", then the URL verbatim, then "<br>to Feedcircuit<br>...<br>" |
| Popup.CaptureRequest | chrome/popup.js:5-15 | the popup's request goes to https://feedcircuit.kibardin.name/selected and reads back, taking the raw text after id=, as exactly "add url" |
| Popup.FormReadingCapture | chrome/popup.js:7-15 | a server decoding the declared form encoding reads the popup's request as "add url" when the URL has no '&', '+' or '%' |
| Popup.CaptureCutsQueryString | chrome/popup.js:15 | the tab URL is sent unencoded, so https://x/?a=1&b=2 reaches a decoding server as https://x/?a=1 |
| Popup.StatusOk | chrome/popup.js:10 | the popup callback's status test: status 0, or from 200 to 399 |
| Popup.StatusOkExamples | chrome/popup.js:10 | 0, 200, 204 and 399 count as a success; 199, 400, 404 and 500 do not |
| Popup.DoneOutcome | chrome/popup.js:8-14 | at most one write, of "done", made exactly when readyState is DONE and the status is 0 or in [200, 400); nothing else, no error notice, never a throw |
| Popup.OnDoneStateChange | chrome/popup.js:8-14 | running the callback appends exactly DoneOutcome's effects |
| Popup.CaptureActiveTab | chrome/popup.js:2-16 | for the first active tab, the notice is written and then the request for its URL is sent with the callback installed; with no tab it throws and writes and sends nothing |
| Dispatch.Fires | resources/public/code.js:28 | which events make each callback act: none for a request without a callback, (4, 200) for the unselect callback, DONE with an accepted status for the popup's |
| Dispatch.Handle | resources/public/code.js:27-28 | a callback acts exactly when it accepts the event, never before DONE, never sends again, and only the unselect callback can throw, when its reload fails |
| Dispatch.UnselectStricterThanPopup | chrome/popup.js:10 | every event the unselect callback accepts, the popup accepts too; (DONE, 204) and (DONE, 0) show the converse fails |
| Dispatch.Deliver | resources/public/code.js:27 | an event sets the request's state and status, leaves its configuration alone, and runs its callback with exactly Handle's effects |
| Dispatch.ReplayWithoutHandler | resources/public/code.js:2-13 | addToSelected and removeFromSelected have no visible effect, whatever events arrive |
| Dispatch.ReplayUnselectCloses | resources/public/code.js:28-33 | over any stream of events, the reloads tried and the closes are each exactly the number of accepted events, whether or not reload throws |
| Dispatch.ReplayPopupWritesDone | chrome/popup.js:8-14 | over any stream of events, the popup writes only "done", once per accepted event |
| Dispatch.FiringsInLifecycle | chrome/popup.js:9 | when DONE is the last state change, a callback acts at most once, and exactly once iff it accepts that last event |
| Dispatch.UnselectClosesOnce | resources/public/code.js:28-33 | in a request's life, the window closes once exactly when the DELETE ends with 200, and otherwise never |
| Dispatch.PopupDoneOnce | chrome/popup.js:9-11 | in a request's life, the popup writes "done" once exactly when the POST ends in DONE with status 0 or 200 to 399, and otherwise nothing |

## Left out

- The XMLHttpRequest transport is not modelled: network delivery, response timing and ordering. A readystatechange event is an input to `Dispatch.Deliver`, and so is whether the opener's reload throws.
- open() fires a readystatechange event with readyState 1 at once. The callback installed by `UnselectAndClose` before `open` would see it. `Browser.XmlHttpRequest.Open` does not deliver that event. `Dispatch.Handle` proves that every callback ignores any state before DONE, so the event has no effect.
- Overlapping requests are not modelled. Each script call overwrites the shared global `req`. The model keeps only the latest request in the window. The popup's callback reads the global `req` rather than the request that fired. That difference only shows when two requests are in flight at once.
- The DOM is not modelled. The checkbox is a value (`SelectionPage.Checkbox`), and `document.write` is a trace entry; how the browser renders the HTML it gets is not modelled. The URL goes into the notice unescaped, exactly as the code writes it.
- `chrome.tabs.query` is not modelled: the tab list is an input. A tab whose `url` is undefined (the extension lacks the permission) is not modelled. An empty list is modelled: the read of `tabs[0].url` throws.
- `window.opener` and `window.close()` are host capabilities. A missing or unreachable opener is a reload that throws. The model assumes `window.close()` does not throw. A browser that refuses to close a window it did not open is not modelled.
- Exceptions are recorded only as "thrown or not". Which exception propagates out of `try/finally` is not tracked.
- The server itself is not modelled, only the two readings `Http.Interpret` and `Http.FormReading` of what it receives. `FormReading` decodes a `%XY` escape to the character with that code; it does not combine several escapes into one UTF-8 character. When a field name repeats, it reads the first field only.
- `Text.Search` counts its index in characters, not in the UTF-16 code units JavaScript counts. The two differ after a character outside the Basic Multilingual Plane. Only "found or not" is used, and that does not depend on the unit.
- Only the two endpoints these scripts call are modelled: POST /selected and DELETE /selected?id=. `toggleItem` sends `item.value` for both add and remove, and its one policy is the inversion by the marker class.
- The server-side selection set is not modelled, including whether adding twice is the same as adding once; the scripts keep no client-side state about it.
- A browser's `setRequestHeader` joins a repeated header name into one comma-separated value. `Browser.XmlHttpRequest.SetRequestHeader` appends instead; the scripts set one header on each fresh request, so the two agree on every request they build.
