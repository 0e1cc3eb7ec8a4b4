/** The host environment the page scripts run in: XMLHttpRequest objects,
    a window holding the global `req`, and the trace of everything the
    scripts make the host do (requests sent, document writes, opener
    reloads, window closes). */
module Browser {
  import opened Http

  const Unsent := 0
  const Opened := 1
  const Done := 4

  /** One readystatechange event: the state and HTTP status seen by the handler. */
  datatype Event = Event(readyState: nat, status: nat)

  /** One effect on the host, in the order it happens. */
  datatype Action =
    | Sent(request: Request)
    | DocumentWrite(text: string)
    | OpenerReload(threw: bool)   // window.opener.location.reload(), and whether it threw
    | WindowClose                 // window.close()

  /** What a piece of handler code does: the effects it has on the host and
      whether it ends by throwing. */
  datatype Outcome = Outcome(actions: seq<Action>, thrown: bool)

  const Nothing := Outcome([], false)

  /** The readystatechange callbacks the scripts install. */
  datatype Handler = NoHandler | UnselectAndCloseHandler | PopupDoneHandler

  function CountOf(a: Action, s: seq<Action>): (n: nat)
    ensures n <= |s|
    ensures n == 0 <==> a !in s
  {
    if s == [] then 0 else (if s[0] == a then 1 else 0) + CountOf(a, s[1..])
  }

  lemma {:induction false} CountOfConcat(a: Action, s: seq<Action>, t: seq<Action>)
    ensures CountOf(a, s + t) == CountOf(a, s) + CountOf(a, t)
  {
    if s != [] {
      assert (s + t)[1..] == s[1..] + t;
      CountOfConcat(a, s[1..], t);
    } else {
      assert s + t == t;
    }
  }

  /** `try { body } finally { cleanup }`: the cleanup runs after the body
      whether or not the body threw, and the statement throws when either part did. */
  function TryFinally(body: Outcome, cleanup: Outcome): (o: Outcome)
    ensures |o.actions| == |body.actions| + |cleanup.actions|
    ensures o.actions[..|body.actions|] == body.actions
    ensures o.actions[|body.actions|..] == cleanup.actions
    ensures o.thrown <==> body.thrown || cleanup.thrown
  {
    Outcome(body.actions + cleanup.actions, body.thrown || cleanup.thrown)
  }

  /** Plain sequencing `first; rest`: when first throws, rest is skipped. */
  function Then(first: Outcome, rest: Outcome): (o: Outcome)
    ensures first.thrown ==> o == first
    ensures !first.thrown ==> |o.actions| == |first.actions| + |rest.actions| && o.thrown == rest.thrown
    ensures !first.thrown ==> o.actions[..|first.actions|] == first.actions && o.actions[|first.actions|..] == rest.actions
  {
    if first.thrown then first else Outcome(first.actions + rest.actions, rest.thrown)
  }

  /** The cleanup's effects are all counted in the try/finally, however the
      body ended; where the body throws, plain sequencing loses them. */
  lemma {:induction false} FinallyKeepsWhatSequencingDrops(a: Action, body: Outcome, cleanup: Outcome)
    ensures CountOf(a, TryFinally(body, cleanup).actions) == CountOf(a, body.actions) + CountOf(a, cleanup.actions)
    ensures body.thrown ==> CountOf(a, Then(body, cleanup).actions) == CountOf(a, body.actions)
  {
    CountOfConcat(a, body.actions, cleanup.actions);
  }

  class XmlHttpRequest {
    var readyState: nat
    var status: nat
    var verb: Verb
    var url: string
    var headers: seq<Header>
    var body: Option<string>
    var sent: bool
    var onReadyStateChange: Handler

    /** `new XMLHttpRequest()`: unsent, nothing configured, no callback. */
    constructor ()
      ensures readyState == Unsent && status == 0 && headers == [] && body == None
      ensures !sent && onReadyStateChange == NoHandler
    {
      readyState, status := Unsent, 0;
      verb, url, headers, body := Get, "", [], None;
      sent, onReadyStateChange := false, NoHandler;
    }

    /** The request as configured so far. */
    function Request(): Request
      reads this
    {
      Http.Request(verb, url, headers, body)
    }

    /** open(v, u): sets method and URL, clears headers, moves to OPENED;
        the installed callback stays. */
    method Open(v: Verb, u: string)
      modifies this
      ensures readyState == Opened && status == 0 && !sent
      ensures Request() == Http.Request(v, u, [], None)
      ensures onReadyStateChange == old(onReadyStateChange)
    {
      readyState, status, sent := Opened, 0, false;
      verb, url, headers, body := v, u, [], None;
    }

    /** setRequestHeader(n, v), allowed between open() and send(). */
    method SetRequestHeader(n: string, v: string)
      requires readyState == Opened && !sent
      modifies this`headers
      ensures headers == old(headers) + [Header(n, v)]
    {
      headers := headers + [Header(n, v)];
    }

    /** send(b), allowed once after open(). */
    method Send(b: Option<string>)
      requires readyState == Opened && !sent
      modifies this`sent, this`body
      ensures sent && body == b
    {
      sent, body := true, b;
    }
  }

  class Window {
    /** The page's global `req`, reassigned by every script that sends. */
    var req: XmlHttpRequest?
    var trace: seq<Action>

    constructor ()
      ensures req == null && trace == []
    {
      req, trace := null, [];
    }

    /** x.send(b), recorded in the trace with the request as it went out. */
    method Transmit(x: XmlHttpRequest, b: Option<string>)
      requires x.readyState == Opened && !x.sent
      modifies this`trace, x`sent, x`body
      ensures x.sent && x.body == b
      ensures trace == old(trace) + [Sent(x.Request())]
    {
      x.Send(b);
      trace := trace + [Sent(x.Request())];
    }

    /** window.opener.location.reload(); it throws when the opener is gone
        or out of reach, which the host decides. */
    method ReloadOpener(fails: bool) returns (threw: bool)
      modifies this`trace
      ensures threw == fails
      ensures trace == old(trace) + [OpenerReload(fails)]
    {
      trace := trace + [OpenerReload(fails)];
      threw := fails;
    }

    /** window.close() */
    method Close()
      modifies this`trace
      ensures trace == old(trace) + [WindowClose]
    {
      trace := trace + [WindowClose];
    }

    /** document.write(text) */
    method DocumentWrite(text: string)
      modifies this`trace
      ensures trace == old(trace) + [Action.DocumentWrite(text)]
    {
      trace := trace + [Action.DocumentWrite(text)];
    }
  }
}
