/**
 * The publication links of an evidence package: `EvidenceApp._collect_publish_urls`
 * (main.py:592-596) and the `publish_checks` part of `generate_report` (main.py:666-702), which
 * asks every link for its HTTP `Date`, status and final URL.
 */
module Publish {

  import opened Options
  import opened Text
  import opened Http

  const NoRequestsMessage: string := "requests 未安装，无法验证发布平台"

  /** `[line.strip() for line in lines if line.strip()]`: the stripped lines, without the empty
      ones. */
  function NonBlankLines(lines: seq<string>): (urls: seq<string>)
    ensures |urls| <= |lines|
  {
    NonEmpty(Strips(lines))
  }

  /** Every line stripped, in order. */
  function Strips(lines: seq<string>): (t: seq<string>)
    ensures |t| == |lines|
  {
    Each(Strip, lines)
  }

  /** `f` applied to every string of `xs`. */
  function Each(f: string -> string, xs: seq<string>): (ys: seq<string>)
    ensures |ys| == |xs|
  {
    seq(|xs|, i requires 0 <= i < |xs| => f(xs[i]))
  }

  lemma EachConcat(f: string -> string, a: seq<string>, b: seq<string>)
    ensures Each(f, a + b) == Each(f, a) + Each(f, b)
  {
    forall k | 0 <= k < |a + b|
      ensures Each(f, a + b)[k] == (Each(f, a) + Each(f, b))[k]
    {
      if k < |a| {
        assert (a + b)[k] == a[k];
      } else {
        assert (a + b)[k] == b[k - |a|];
      }
    }
  }

  /** The strings of `xs` that are not empty, in order. */
  function NonEmpty(xs: seq<string>): (ys: seq<string>)
    ensures |ys| <= |xs|
  {
    if xs == [] then [] else (if xs[0] != [] then [xs[0]] else []) + NonEmpty(xs[1..])
  }

  /** The links typed into the publication box, one per line: the text is trimmed, split into
      lines, and every line is trimmed and kept when something is left. */
  function PublishUrls(text: string): seq<string>
  {
    NonBlankLines(SplitLines(Strip(text)))
  }

  lemma {:induction false} NonEmptyConcat(a: seq<string>, b: seq<string>)
    ensures NonEmpty(a + b) == NonEmpty(a) + NonEmpty(b)
  {
    if a == [] {
      assert a + b == b;
    } else {
      assert (a + b)[0] == a[0] && (a + b)[1..] == a[1..] + b;
      NonEmptyConcat(a[1..], b);
    }
  }

  /** Lines contribute independently and in order. */
  lemma NonBlankLinesConcat(a: seq<string>, b: seq<string>)
    ensures NonBlankLines(a + b) == NonBlankLines(a) + NonBlankLines(b)
  {
    EachConcat(Strip, a, b);
    NonEmptyConcat(Strips(a), Strips(b));
  }

  /** The position in `xs` of entry `k` of `NonEmpty(xs)`. */
  lemma {:induction false} NonEmptySource(xs: seq<string>, k: nat) returns (j: nat)
    requires k < |NonEmpty(xs)|
    ensures j < |xs| && NonEmpty(xs)[k] == xs[j] && xs[j] != []
  {
    var head := if xs[0] != [] then [xs[0]] else [];
    assert NonEmpty(xs) == head + NonEmpty(xs[1..]);
    if k < |head| {
      j := 0;
    } else {
      var i := NonEmptySource(xs[1..], k - |head|);
      j := i + 1;
    }
  }

  /** Every non-empty string of `xs` is kept. */
  lemma {:induction false} NonEmptyComplete(xs: seq<string>, j: nat)
    requires j < |xs| && xs[j] != []
    ensures xs[j] in NonEmpty(xs)
  {
    var head := if xs[0] != [] then [xs[0]] else [];
    assert NonEmpty(xs) == head + NonEmpty(xs[1..]);
    if j > 0 {
      NonEmptyComplete(xs[1..], j - 1);
    }
  }

  /** Every collected link is the non-empty trimmed text of some line. */
  lemma NonBlankLinesSound(lines: seq<string>)
    ensures forall k :: 0 <= k < |NonBlankLines(lines)| ==>
              NonBlankLines(lines)[k] != [] &&
              exists j :: 0 <= j < |lines| && NonBlankLines(lines)[k] == Strip(lines[j])
  {
    forall k | 0 <= k < |NonBlankLines(lines)|
      ensures NonBlankLines(lines)[k] != [] &&
              exists j :: 0 <= j < |lines| && NonBlankLines(lines)[k] == Strip(lines[j])
    {
      var j := NonEmptySource(Strips(lines), k);
      assert Strips(lines)[j] == Strip(lines[j]);
    }
  }

  /** Every line with something besides whitespace is collected. */
  lemma NonBlankLinesComplete(lines: seq<string>)
    ensures forall j :: 0 <= j < |lines| && Strip(lines[j]) != [] ==> Strip(lines[j]) in NonBlankLines(lines)
  {
    forall j | 0 <= j < |lines| && Strip(lines[j]) != []
      ensures Strip(lines[j]) in NonBlankLines(lines)
    {
      assert Strips(lines)[j] == Strip(lines[j]);
      NonEmptyComplete(Strips(lines), j);
    }
  }

  /** A collected link is non-empty and already trimmed: trimming it again changes nothing. */
  lemma PublishUrlsTrimmed(text: string)
    ensures forall k :: 0 <= k < |PublishUrls(text)| ==>
              PublishUrls(text)[k] != [] && Strip(PublishUrls(text)[k]) == PublishUrls(text)[k]
  {
    var lines := SplitLines(Strip(text));
    NonBlankLinesSound(lines);
    forall k | 0 <= k < |PublishUrls(text)|
      ensures Strip(PublishUrls(text)[k]) == PublishUrls(text)[k]
    {
      var j :| 0 <= j < |lines| && PublishUrls(text)[k] == Strip(lines[j]);
      StripIdempotent(lines[j]);
    }
  }

  /** A collected link never spans two lines. */
  lemma PublishUrlsOneLine(text: string)
    ensures forall k, i :: 0 <= k < |PublishUrls(text)| && 0 <= i < |PublishUrls(text)[k]| ==>
              !IsLineBreak(PublishUrls(text)[k][i])
  {
    var lines := SplitLines(Strip(text));
    NonBlankLinesSound(lines);
    forall k, i | 0 <= k < |PublishUrls(text)| && 0 <= i < |PublishUrls(text)[k]|
      ensures !IsLineBreak(PublishUrls(text)[k][i])
    {
      var j :| 0 <= j < |lines| && PublishUrls(text)[k] == Strip(lines[j]);
      StripInside(lines[j]);
      var c := Strip(lines[j])[i];
      assert c in lines[j];
      var m :| 0 <= m < |lines[j]| && lines[j][m] == c;
    }
  }

  /** Links usable as typed: non-empty, trimmed, and each on one line. */
  predicate WellFormedUrls(urls: seq<string>)
  {
    forall k :: 0 <= k < |urls| ==>
      urls[k] != [] && !IsSpace(urls[k][0]) && !IsSpace(urls[k][|urls[k]| - 1]) &&
      forall i :: 0 <= i < |urls[k]| ==> !IsLineBreak(urls[k][i])
  }

  lemma {:induction false} SplitLinesJoin(urls: seq<string>)
    requires WellFormedUrls(urls)
    ensures SplitLines(Join(urls, '\n')) == urls
  {
    if |urls| == 1 {
      SplitLinesSingle(urls[0]);
    } else if |urls| > 1 {
      SplitLinesBreak(urls[0], "\n", Join(urls[1..], '\n'));
      SplitLinesJoin(urls[1..]);
      assert Join(urls, '\n') == urls[0] + "\n" + Join(urls[1..], '\n');
    }
  }

  lemma {:induction false} JoinEnds(urls: seq<string>)
    requires urls != [] && forall k :: 0 <= k < |urls| ==> urls[k] != []
    ensures var t := Join(urls, '\n');
            t != [] && t[0] == urls[0][0] && t[|t| - 1] == urls[|urls| - 1][|urls[|urls| - 1]| - 1]
  {
    if |urls| > 1 {
      JoinEnds(urls[1..]);
    }
  }

  lemma NonBlankLinesTrimmed(urls: seq<string>)
    requires WellFormedUrls(urls)
    ensures NonBlankLines(urls) == urls
  {
    forall k | 0 <= k < |urls|
      ensures Strips(urls)[k] == urls[k]
    {
      StripTrimmed(urls[k]);
    }
    assert Strips(urls) == urls;
    NonEmptyAllKept(urls);
  }

  /** A list of non-empty strings is kept whole. */
  lemma {:induction false} NonEmptyAllKept(xs: seq<string>)
    requires forall k :: 0 <= k < |xs| ==> xs[k] != []
    ensures NonEmpty(xs) == xs
  {
    if xs != [] {
      NonEmptyAllKept(xs[1..]);
    }
  }

  /** Writing well-formed links one per line and collecting them gives the same links back. */
  lemma PublishUrlsRoundTrip(urls: seq<string>)
    requires WellFormedUrls(urls)
    ensures PublishUrls(Join(urls, '\n')) == urls
  {
    var t := Join(urls, '\n');
    if urls != [] {
      JoinEnds(urls);
      StripTrimmed(t);
    }
    SplitLinesJoin(urls);
    NonBlankLinesTrimmed(urls);
  }

  /** One entry of `publish_checks`. */
  datatype PublishCheck =
    | Probed(url: string, status: int, finalUrl: string, httpDate: Option<string>,
             contentType: Option<string>, contentLength: Option<string>)
    | ProbeError(url: string, error: string)
    | NoRequests(error: string)

  /** HEAD first; a HEAD that raises, fails with a 4xx/5xx status or lacks a `Date` header is
      replaced by a GET, whose answer is read whatever its status. */
  function PublishProbe(ex: Exchange): (p: Probe)
    ensures p.viaGet <==> ex.head.Raised? || ex.head.response.status >= 400 || "date" !in ex.head.response.headers
    ensures p.outcome == if p.viaGet then ex.get else ex.head
  {
    DateSpellings();
    match ex.head
    case Raised(_) => Probe(ex.get, true)
    case Answered(h) => if NeedsGet(h) then Probe(ex.get, true) else Probe(ex.head, false)
  }

  /** The entry for one link: what the response read says, or the message of the exception the
      GET raised. */
  function CheckUrl(url: string, ex: Exchange): PublishCheck
  {
    match PublishProbe(ex).outcome
    case Raised(e) => ProbeError(url, e)
    case Answered(r) =>
      Probed(url, r.status, r.url, Header(r.headers, "Date"),
             Header(r.headers, "Content-Type"), Header(r.headers, "Content-Length"))
  }

  /** The entry names its link, and is an error exactly when the response read is an exception. */
  lemma CheckUrlShape(url: string, ex: Exchange)
    ensures var c := CheckUrl(url, ex);
            (c.Probed? || c.ProbeError?) && c.url == url && (c.ProbeError? <==> PublishProbe(ex).outcome.Raised?)
  {
  }

  /** A link whose probe read a response is reported with that response's status, its URL after
      redirects, and its `Date`, `Content-Type` and `Content-Length` headers as received. */
  lemma CheckUrlFields(url: string, ex: Exchange)
    requires PublishProbe(ex).outcome.Answered?
    ensures var c := CheckUrl(url, ex);
            var r := PublishProbe(ex).outcome.response;
            c.Probed? && c.url == url && c.status == r.status && c.finalUrl == r.url &&
            c.httpDate == Header(r.headers, "Date") &&
            c.contentType == Header(r.headers, "Content-Type") &&
            c.contentLength == Header(r.headers, "Content-Length")
  {
  }

  /** A check that kept the HEAD answer reports a status below 400 and an HTTP date. */
  lemma CheckUrlFromHead(url: string, ex: Exchange)
    requires !PublishProbe(ex).viaGet
    ensures var c := CheckUrl(url, ex);
            c.Probed? && c.status < 400 && c.httpDate.Some? && c.httpDate == Header(ex.head.response.headers, "date")
  {
    DateSpellings();
  }

  /** A link is only reported as failed when both requests failed to answer, or the HEAD answered
      too poorly and the GET raised; a HEAD exception alone never ends the probe. */
  lemma CheckUrlErrors(url: string, ex: Exchange)
    ensures CheckUrl(url, ex).ProbeError? <==>
              ex.get.Raised? && (ex.head.Raised? || NeedsGet(ex.head.response))
    ensures CheckUrl(url, ex).ProbeError? ==> CheckUrl(url, ex).error == ex.get.message
  {
    DateSpellings();
  }

  /** `verification["publish_checks"]`: nothing without links; a single error entry without
      `requests`; otherwise one entry per link, in order. */
  function PublishChecks(requestsInstalled: bool, urls: seq<string>, exs: seq<Exchange>): (cs: seq<PublishCheck>)
    requires |exs| == |urls|
    ensures urls == [] ==> cs == []
    ensures urls != [] && !requestsInstalled ==> cs == [NoRequests(NoRequestsMessage)]
    ensures requestsInstalled ==> |cs| == |urls|
  {
    if urls == [] then []
    else if !requestsInstalled then [NoRequests(NoRequestsMessage)]
    else seq(|urls|, i requires 0 <= i < |urls| => CheckUrl(urls[i], exs[i]))
  }

  /** With `requests`, entry `i` is the check of link `i`, and names it. */
  lemma PublishChecksInOrder(urls: seq<string>, exs: seq<Exchange>, i: nat)
    requires |exs| == |urls| && i < |urls|
    ensures PublishChecks(true, urls, exs)[i] == CheckUrl(urls[i], exs[i])
    ensures PublishChecks(true, urls, exs)[i].url == urls[i]
  {
    CheckUrlShape(urls[i], exs[i]);
  }

  /** The `for url in urls` loop: one check appended per link, in order. */
  method ProbeEach(urls: seq<string>, exs: seq<Exchange>) returns (checks: seq<PublishCheck>)
    requires |exs| == |urls|
    ensures |checks| == |urls|
    ensures forall k :: 0 <= k < |urls| ==> checks[k] == CheckUrl(urls[k], exs[k])
  {
    checks := [];
    for i := 0 to |urls|
      invariant |checks| == i
      invariant forall k :: 0 <= k < i ==> checks[k] == CheckUrl(urls[k], exs[k])
    {
      checks := checks + [CheckUrl(urls[i], exs[i])];
    }
  }

  /** The loop over the links, appending one entry per link. */
  method ProbeLinks(requestsInstalled: bool, urls: seq<string>, exs: seq<Exchange>)
    returns (checks: seq<PublishCheck>)
    requires |exs| == |urls|
    ensures checks == PublishChecks(requestsInstalled, urls, exs)
  {
    checks := [];
    if urls == [] {
      return;
    }
    if !requestsInstalled {
      checks := checks + [NoRequests(NoRequestsMessage)];
      return;
    }
    checks := ProbeEach(urls, exs);
    forall k | 0 <= k < |urls|
      ensures PublishChecks(true, urls, exs)[k] == checks[k]
    {
      PublishChecksInOrder(urls, exs, k);
    }
  }
}
