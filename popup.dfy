/** The browser extension's popup (chrome/popup.js): it adds the active
    tab's URL to the selection and reports progress in its own document. */
module Popup {
  import opened Http
  import opened Browser

  /** The absolute endpoint the popup posts to. */
  const ServiceUrl := ServiceOrigin + SelectedPath

  const DoneNotice := "done"

  /** What the popup reads of a tab returned by the tab query. */
  datatype Tab = Tab(url: string)

  /** The notice written before the request goes out; it shows the URL as given. */
  function ProgressNotice(url: string): (text: string)
    ensures |text| == |url| + 39 && IsPrefix("Adding<br>", text)
    ensures text[10..10 + |url|] == url
    ensures text[10 + |url|..] == "<br>to Feedcircuit<br>...<br>"
  {
    "Adding<br>" + url + "<br>to Feedcircuit<br>...<br>"
  }

  /** The popup's request: an add of the tab's URL, on the service's absolute URL. */
  function CaptureRequest(url: string): (r: Request)
    ensures r.url == ServiceUrl
    ensures Interpret(r) == Some(Add(url))
  {
    Request(Post, ServiceUrl, FormHeaders, Some(IdParam + url))
  }

  /** For a tab URL without '&', '+' and '%', a server decoding the form
      reads the popup's request as adding exactly that URL. */
  lemma FormReadingCapture(url: string)
    requires '&' !in url && '+' !in url && '%' !in url
    ensures FormReading(CaptureRequest(url)) == Some(Add(url))
  {
    FirstIdPlain(url);
  }

  /** A tab URL with a query string of two parameters reaches a server decoding
      the form cut short at the second parameter. */
  lemma {:induction false} CaptureCutsQueryString()
    ensures FormReading(CaptureRequest("https://x/?a=1&b=2")) == Some(Add("https://x/?a=1"))
    ensures Interpret(CaptureRequest("https://x/?a=1&b=2")) == Some(Add("https://x/?a=1&b=2"))
  {
    var before := "https://x/?a=1";
    assert IdParam + "https://x/?a=1&b=2" == IdParam + before + "&" + "b=2";
    FirstIdCut(before, "b=2");
    DecodePlain(before);
  }

  /** The status test of the popup's callback: no status at all, or 200 to 399. */
  predicate StatusOk(status: nat)
  {
    status == 0 || (200 <= status && status < 400)
  }

  lemma StatusOkExamples()
    ensures StatusOk(0) && StatusOk(200) && StatusOk(204) && StatusOk(399)
    ensures !StatusOk(199) && !StatusOk(400) && !StatusOk(404) && !StatusOk(500)
  {
  }

  /** What the popup's callback does for one event: at most one "done",
      written exactly when the request is DONE with an acceptable status;
      otherwise nothing, with no error notice and no new request. */
  function DoneOutcome(ev: Event): (o: Outcome)
    ensures !o.thrown && |o.actions| <= 1
    ensures o.actions != [] <==> ev.readyState == Done && StatusOk(ev.status)
    ensures forall a :: a in o.actions ==> a == DocumentWrite(DoneNotice)
  {
    if ev.readyState == Done && StatusOk(ev.status) then Outcome([DocumentWrite(DoneNotice)], false)
    else Nothing
  }

  /** The popup's callback, run on the global request. */
  method OnDoneStateChange(w: Window, x: XmlHttpRequest)
    modifies w`trace
    ensures w.trace == old(w.trace) + DoneOutcome(Event(x.readyState, x.status)).actions
  {
    if x.readyState == Done {
      if x.status == 0 || (x.status >= 200 && x.status < 400) {
        w.DocumentWrite(DoneNotice);
      }
    }
  }

  /** The tab-query callback: writes the progress notice for the first active
      tab, then sends its URL with the callback installed. With no tab,
      reading tabs[0].url throws before anything is written or sent. */
  method CaptureActiveTab(w: Window, tabs: seq<Tab>) returns (thrown: bool)
    modifies w
    ensures thrown <==> tabs == []
    ensures tabs == [] ==> w.trace == old(w.trace) && w.req == old(w.req)
    ensures tabs != [] ==>
              w.req != null && fresh(w.req) && w.req.sent && w.req.readyState == Opened && w.req.status == 0
              && w.req.Request() == CaptureRequest(tabs[0].url)
              && w.req.onReadyStateChange == PopupDoneHandler
              && w.trace == old(w.trace) + [DocumentWrite(ProgressNotice(tabs[0].url)), Sent(CaptureRequest(tabs[0].url))]
  {
    if tabs == [] {
      return true;
    }
    thrown := false;
    var url := tabs[0].url;
    w.DocumentWrite(ProgressNotice(url));
    var r := new XmlHttpRequest();
    w.req := r;
    r.Open(Post, ServiceUrl);
    r.SetRequestHeader(ContentTypeName, FormUrlEncoded);
    r.onReadyStateChange := PopupDoneHandler;
    w.Transmit(r, Some(IdParam + url));
  }
}
