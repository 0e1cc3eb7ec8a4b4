/** Requests as values, and two readings of the selection endpoints: the
    literal one, which takes the raw text after "id=", and the one of a
    server that decodes the body and the query string as the form
    encoding declared by the request's header. */
module Http {

  datatype Option<T> = None | Some(value: T)

  datatype Verb = Get | Post | Delete

  datatype Header = Header(name: string, value: string)

  /** Everything a page configures on an XMLHttpRequest before it goes out:
      the method and URL given to open(), the headers set, and the body
      given to send() (None for a bare send()). */
  datatype Request = Request(verb: Verb, url: string, headers: seq<Header>, body: Option<string>)

  /** The change to the server-side selection set that a request asks for. */
  datatype Mutation = Add(id: string) | Remove(id: string)

  const SelectedPath := "/selected"
  /** The service's origin, used by the browser extension, which is not served from it. */
  const ServiceOrigin := "https://feedcircuit.kibardin.name"
  const ContentTypeName := "Content-type"
  const FormUrlEncoded := "application/x-www-form-urlencoded"
  const IdParam := "id="
  /** "/selected?id=", the URL prefix of a removal. */
  const RemovePrefix := SelectedPath + "?" + IdParam

  predicate IsPrefix(p: string, s: string)
  {
    |p| <= |s| && s[..|p|] == p
  }

  /** The form header that every adding request carries, exactly once. */
  const FormHeaders := [Header(ContentTypeName, FormUrlEncoded)]

  /** The literal reading of the selection endpoints:
      POST /selected (relative, or absolute on the service origin) with the
      form header and a body "id=<id>" adds <id>; DELETE /selected?id=<id>
      with no body and no headers removes <id>. Anything else is not a
      selection mutation. The identifier is the raw text after "id=". */
  function Interpret(r: Request): Option<Mutation>
  {
    if r.verb == Post && r.url in {SelectedPath, ServiceOrigin + SelectedPath}
       && r.headers == FormHeaders && r.body.Some? && IsPrefix(IdParam, r.body.value)
    then Some(Add(r.body.value[|IdParam|..]))
    else if r.verb == Delete && IsPrefix(RemovePrefix, r.url) && r.headers == [] && r.body.None?
    then Some(Remove(r.url[|RemovePrefix|..]))
    else None
  }

  /** What addToSelected(id) sends. */
  function AddRequest(id: string): (r: Request)
    ensures r.url == SelectedPath
    ensures Interpret(r) == Some(Add(id))
  {
    Request(Post, SelectedPath, FormHeaders, Some(IdParam + id))
  }

  /** What removeFromSelected(id) and UnselectAndClose(id) send. */
  function RemoveRequest(id: string): (r: Request)
    ensures Interpret(r) == Some(Remove(id))
  {
    Request(Delete, RemovePrefix + id, [], None)
  }

  /** The request for a resolved mutation. */
  function RequestFor(m: Mutation): (r: Request)
    ensures Interpret(r) == Some(m)
  {
    match m
    case Add(id) => AddRequest(id)
    case Remove(id) => RemoveRequest(id)
  }

  /** Distinct identifiers give distinct requests: nothing is lost when an
      identifier is pasted into a body or a URL. */
  lemma RequestForInjective(m1: Mutation, m2: Mutation)
    requires RequestFor(m1) == RequestFor(m2)
    ensures m1 == m2
  {
  }

  /** The text of s before the first c (all of s when c does not occur). */
  function UpTo(s: string, c: char): (r: string)
    ensures IsPrefix(r, s) && c !in r
    ensures |r| < |s| ==> s[|r|] == c
  {
    if s == [] || s[0] == c then [] else [s[0]] + UpTo(s[1..], c)
  }

  lemma UpToAll(s: string, c: char)
    requires c !in s
    ensures UpTo(s, c) == s
  {
  }

  lemma {:induction false} UpToAfter(s: string, t: string, c: char)
    requires c !in s
    ensures UpTo(s + t, c) == s + UpTo(t, c)
  {
    if s == [] {
      assert s + t == t;
    } else {
      assert (s + t)[1..] == s[1..] + t;
      UpToAfter(s[1..], t, c);
    }
  }

  /** The value of a hexadecimal digit, or -1. */
  function HexValue(c: char): (v: int)
    ensures -1 <= v < 16
  {
    if '0' <= c <= '9' then c as int - '0' as int
    else if 'a' <= c <= 'f' then c as int - 'a' as int + 10
    else if 'A' <= c <= 'F' then c as int - 'A' as int + 10
    else -1
  }

  /** Decoding of one form-encoded name or value: '+' is a space, and
      "%XY" with two hexadecimal digits is the character with code 0xXY. */
  function DecodeComponent(v: string): string
  {
    if v == [] then []
    else if v[0] == '+' then " " + DecodeComponent(v[1..])
    else if v[0] == '%' && |v| >= 3 && HexValue(v[1]) >= 0 && HexValue(v[2]) >= 0 then
      [(16 * HexValue(v[1]) + HexValue(v[2])) as char] + DecodeComponent(v[3..])
    else [v[0]] + DecodeComponent(v[1..])
  }

  /** Text without '+' and '%' decodes to itself. */
  lemma {:induction false} DecodePlain(v: string)
    requires '+' !in v && '%' !in v
    ensures DecodeComponent(v) == v
  {
    if v != [] {
      DecodePlain(v[1..]);
    }
  }

  /** The first field of a form-encoded text, when it is named id, decoded. */
  function FirstId(form: string): Option<string>
  {
    var field := UpTo(form, '&');
    if IsPrefix(IdParam, field) then Some(DecodeComponent(field[|IdParam|..])) else None
  }

  /** The reading of a server that follows the declared form encoding: the
      body of an add, and the query of a removal (up to any '#', which ends
      the URL's query), are split at '&' and decoded; the identifier is the
      value of the first field when that field is id. */
  function FormReading(r: Request): Option<Mutation>
  {
    if r.verb == Post && r.url in {SelectedPath, ServiceOrigin + SelectedPath}
       && r.headers == FormHeaders && r.body.Some?
    then
      match FirstId(r.body.value)
      case Some(id) => Some(Add(id))
      case None => None
    else if r.verb == Delete && IsPrefix(SelectedPath + "?", r.url) && r.headers == [] && r.body.None?
    then
      match FirstId(UpTo(r.url[|SelectedPath + "?"|..], '#'))
      case Some(id) => Some(Remove(id))
      case None => None
    else None
  }

  lemma FirstIdPlain(id: string)
    requires '&' !in id && '+' !in id && '%' !in id
    ensures FirstId(IdParam + id) == Some(id)
  {
    UpToAll(IdParam + id, '&');
    assert (IdParam + id)[|IdParam|..] == id;
    DecodePlain(id);
  }

  /** For an identifier without '&', '+' and '%', the decoding server reads
      the add request as adding exactly that identifier. */
  lemma FormReadingAdd(id: string)
    requires '&' !in id && '+' !in id && '%' !in id
    ensures FormReading(AddRequest(id)) == Some(Add(id))
  {
    FirstIdPlain(id);
  }

  /** For an identifier that also has no '#', the decoding server reads the
      removal as removing exactly that identifier. */
  lemma FormReadingRemove(id: string)
    requires '&' !in id && '+' !in id && '%' !in id && '#' !in id
    ensures FormReading(RemoveRequest(id)) == Some(Remove(id))
  {
    FormReadingDecodesRemove(id);
    DecodePlain(id);
  }

  /** The first field of a form ends at the first '&'. */
  lemma {:induction false} FirstIdCut(before: string, after: string)
    requires '&' !in before
    ensures FirstId(IdParam + before + "&" + after) == Some(DecodeComponent(before))
  {
    assert IdParam + before + "&" + after == (IdParam + before) + ("&" + after);
    UpToAfter(IdParam + before, "&" + after, '&');
    assert UpTo("&" + after, '&') == [];
    assert IdParam + before + [] == IdParam + before;
    assert (IdParam + before)[|IdParam|..] == before;
  }

  /** Decoding never lengthens a text. */
  lemma {:induction false} DecodeShortens(v: string)
    ensures |DecodeComponent(v)| <= |v|
  {
    if v == [] {
    } else if v[0] == '+' {
      DecodeShortens(v[1..]);
    } else if v[0] == '%' && |v| >= 3 && HexValue(v[1]) >= 0 && HexValue(v[2]) >= 0 {
      DecodeShortens(v[3..]);
    } else {
      DecodeShortens(v[1..]);
    }
  }

  /** Neither script encodes the identifier, so an identifier with an '&'
      reaches the decoding server cut short at its first '&' (and decoded),
      unlike its literal reading. */
  lemma {:induction false} FormReadingCutsAtAmpersand(before: string, after: string)
    requires '&' !in before
    ensures FormReading(AddRequest(before + "&" + after)) == Some(Add(DecodeComponent(before)))
    ensures '+' !in before && '%' !in before ==> FormReading(AddRequest(before + "&" + after)) == Some(Add(before))
    ensures Interpret(AddRequest(before + "&" + after)) != FormReading(AddRequest(before + "&" + after))
  {
    assert IdParam + (before + "&" + after) == IdParam + before + "&" + after;
    FirstIdCut(before, after);
    if '+' !in before && '%' !in before {
      DecodePlain(before);
    }
    DecodeShortens(before);
    assert |before + "&" + after| > |DecodeComponent(before)|;
  }

  /** Text without '+' and '%' is left as it is in front of whatever follows. */
  lemma {:induction false} DecodeAfterPlain(a: string, t: string)
    requires '+' !in a && '%' !in a
    ensures DecodeComponent(a + t) == a + DecodeComponent(t)
  {
    if a == [] {
      assert a + t == t;
    } else {
      assert (a + t)[1..] == a[1..] + t;
      DecodeAfterPlain(a[1..], t);
    }
  }

  /** Neither script encodes the identifier, so a '+' in it reaches the
      decoding server as a space. */
  lemma {:induction false} FormReadingPlusIsSpace(a: string, b: string)
    requires '&' !in a && '+' !in a && '%' !in a
    requires '&' !in b && '+' !in b && '%' !in b
    ensures FormReading(AddRequest(a + "+" + b)) == Some(Add(a + " " + b))
  {
    FormReadingDecodesAdd(a + "+" + b);
    DecodePlusBetween(a, b);
  }

  lemma {:induction false} DecodePlusBetween(a: string, b: string)
    requires '+' !in a && '%' !in a && '+' !in b && '%' !in b
    ensures DecodeComponent(a + "+" + b) == a + " " + b
  {
    assert a + "+" + b == a + ("+" + b);
    DecodeAfterPlain(a, "+" + b);
    assert ("+" + b)[1..] == b;
    DecodePlain(b);
    assert a + (" " + b) == a + " " + b;
  }

  /** A '%' not followed by two hexadecimal digits is not an escape: it
      is kept as it is, in front of whatever follows. */
  lemma BarePercent(t: string)
    requires t == [] || HexValue(t[0]) < 0
    ensures DecodeComponent("%" + t) == "%" + DecodeComponent(t)
  {
    assert ("%" + t)[1..] == t;
  }

  /** Such a '%' reaches the decoding server as it is. */
  lemma FormReadingBarePercent()
    ensures FormReading(AddRequest("50%")) == Some(Add("50%"))
    ensures FormReading(RemoveRequest("%zz")) == Some(Remove("%zz"))
  {
    FormReadingBarePercentAdd();
    FormReadingBarePercentRemove();
  }

  lemma FirstIdDecodes(id: string)
    requires '&' !in id
    ensures FirstId(IdParam + id) == Some(DecodeComponent(id))
  {
    UpToAll(IdParam + id, '&');
    assert (IdParam + id)[|IdParam|..] == id;
  }

  /** Without '&', the decoding server reads the whole identifier of an
      add, decoded. */
  lemma FormReadingDecodesAdd(id: string)
    requires '&' !in id
    ensures FormReading(AddRequest(id)) == Some(Add(DecodeComponent(id)))
  {
    FirstIdDecodes(id);
  }

  /** Without '&' and '#', the decoding server reads the whole identifier
      of a removal, decoded. */
  lemma FormReadingDecodesRemove(id: string)
    requires '&' !in id && '#' !in id
    ensures FormReading(RemoveRequest(id)) == Some(Remove(DecodeComponent(id)))
  {
    var r := RemoveRequest(id);
    assert IsPrefix(SelectedPath + "?", r.url);
    assert r.url[|SelectedPath + "?"|..] == IdParam + id;
    UpToAll(IdParam + id, '#');
    FirstIdDecodes(id);
    assert FirstId(UpTo(r.url[|SelectedPath + "?"|..], '#')) == Some(DecodeComponent(id));
  }

  lemma FormReadingBarePercentAdd()
    ensures FormReading(AddRequest("50%")) == Some(Add("50%"))
  {
    FormReadingDecodesAdd("50%");
    assert "50%" == "50" + ("%" + []);
    DecodeAfterPlain("50", "%" + []);
    BarePercent([]);
  }

  lemma FormReadingBarePercentRemove()
    ensures FormReading(RemoveRequest("%zz")) == Some(Remove("%zz"))
  {
    FormReadingDecodesRemove("%zz");
    assert "%zz" == "%" + "zz";
    BarePercent("zz");
    DecodePlain("zz");
  }
}
