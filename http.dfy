/**
 * What the network answers, as data. Every HTTP call of the engine either raises
 * (connection error, timeout, retries exhausted) or returns a response; the model
 * receives that outcome as an input instead of performing the call.
 */
module Http {

  import opened Options
  import opened Text
  import opened Json

  /** The result of `r.json()`: a decode error message, or the decoded value. */
  datatype JsonBody = Undecodable(message: string) | Decoded(value: JsonValue)

  /** A response. `headers` is keyed by lower-cased field name, the way `requests`'
      case-insensitive header dictionary looks names up; `url` is the URL after redirects. */
  datatype Response = Response(
    status: int,
    reason: string,
    url: string,
    headers: map<string, string>,
    text: string,
    json: JsonBody)

  /** One HTTP call: the exception message it raised, or the response it returned. */
  datatype Outcome = Raised(message: string) | Answered(response: Response)

  /** What a URL answers to a HEAD request and to a GET request. */
  datatype Exchange = Exchange(head: Outcome, get: Outcome)

  /** `r.headers.get(name)`, case-insensitively. */
  function Header(headers: map<string, string>, name: string): (v: Option<string>)
    ensures v.Some? <==> Lower(name) in headers
    ensures v.Some? ==> v.value == headers[Lower(name)]
  {
    if Lower(name) in headers then Some(headers[Lower(name)]) else None
  }

  /** Both spellings the source checks name the same header. */
  lemma DateSpellings()
    ensures Lower("Date") == "date" && Lower("date") == "date"
  {
    assert Lower("Date") == [LowerChar('D')] + Lower("ate");
    assert Lower("date") == [LowerChar('d')] + Lower("ate");
    assert Lower("ate") == "ate";
  }

  /** `name in r.headers`, case-insensitively. */
  predicate HasHeader(headers: map<string, string>, name: string)
  {
    Lower(name) in headers
  }

  function DigitChar(d: nat): char
    requires d < 10
  {
    "0123456789"[d]
  }

  /** Decimal digits of `n`, as `str(n)` prints them. */
  function NatToString(n: nat): (s: string)
    ensures s != []
    ensures forall i :: 0 <= i < |s| ==> '0' <= s[i] <= '9'
  {
    if n < 10 then [DigitChar(n)] else NatToString(n / 10) + [DigitChar(n % 10)]
  }

  function IntToString(n: int): string
  {
    if n < 0 then "-" + NatToString(-n) else NatToString(n)
  }

  /** `r.raise_for_status()` of `requests`: the message of the `HTTPError` it raises for a
      4xx or 5xx status, or None when it returns normally. */
  function RaiseForStatus(r: Response): (m: Option<string>)
    ensures m.Some? <==> 400 <= r.status < 600
    ensures 400 <= r.status < 500 ==>
              m == Some(IntToString(r.status) + " Client Error: " + r.reason + " for url: " + r.url)
    ensures 500 <= r.status < 600 ==>
              m == Some(IntToString(r.status) + " Server Error: " + r.reason + " for url: " + r.url)
  {
    if 400 <= r.status < 500 then
      Some(IntToString(r.status) + " Client Error: " + r.reason + " for url: " + r.url)
    else if 500 <= r.status < 600 then
      Some(IntToString(r.status) + " Server Error: " + r.reason + " for url: " + r.url)
    else None
  }

  /** The HEAD response is not good enough: an error status, or no `Date` header (RFC 7231,
      section 7.1.1.2). Checking `"Date"` and `"date"` is one lookup in a case-insensitive map. */
  predicate NeedsGet(head: Response)
  {
    head.status >= 400 || !(HasHeader(head.headers, "Date") || HasHeader(head.headers, "date"))
  }

  /** Which answer a HEAD-then-GET probe ends up reading, and whether GET was issued. */
  datatype Probe = Probe(outcome: Outcome, viaGet: bool)
}
