/**
 * `fetch_world_time` (main.py:60-141): five time sources tried in a fixed order; the first
 * usable answer is returned, otherwise an error carrying one message per source that raised.
 */
module WorldTime {

  import opened Options
  import opened Text
  import opened Json
  import opened Http

  datatype Kind = JsonWta | JsonTimeapi | HttpDate

  datatype Source = Source(url: string, tag: string, kind: Kind)

  /** The `sources` list, in the order they are tried. */
  const Sources: seq<Source> := [
    Source("https://worldtimeapi.org/api/timezone/Etc/UTC", "json_wta", JsonWta),
    Source("https://timeapi.io/api/Time/current/zone?timeZone=UTC", "json_timeapi", JsonTimeapi),
    Source("https://www.google.com", "http_date_google", HttpDate),
    Source("https://www.microsoft.com", "http_date_ms", HttpDate),
    Source("https://www.baidu.com", "http_date_baidu", HttpDate)
  ]

  const NoRequestsMessage: string := "requests 未安装，无法获取网络时间"
  const FailureMessage: string := "获取网络时间失败"
  const HttpDateSuffix: string := " (HTTP Date)"

  /** The date libraries, which the model does not reimplement: `datetime.fromisoformat` followed
      by `int(d.timestamp())`, and `parsedate_to_datetime` followed by the conversion to a UTC ISO
      string and epoch seconds. `None` stands for the exception they raise on bad input. */
  datatype DateLib = DateLib(
    fromIso: string -> Option<int>,
    fromHttpDate: string -> Option<(string, int)>)

  /** The dictionary `fetch_world_time` returns. `unixtime` is None when the key is absent and
      `Some(JNull)` when it is present with value `None`. */
  datatype WorldTime =
    | Found(source: string, utcDatetime: JsonValue, unixtime: Option<JsonValue>)
    | Failed(error: string, details: seq<string>)
    | Unavailable(error: string)

  /** What trying one source gives: an answer (returned at once), an exception (recorded as
      `"{tag}: {e}"`), or a reply without a usable time (skipped silently). */
  datatype Attempt =
    | Answer(source: string, utcDatetime: JsonValue, unixtime: Option<JsonValue>)
    | Raise(message: string)
    | NoValue

  /** The `source` value a source's answer carries. */
  function Label(src: Source): string
  {
    if src.kind == HttpDate then src.url + HttpDateSuffix else src.url
  }

  /** The dictionary a JSON source's GET leads to, or the message of the exception raised on the
      way: the transport, `raise_for_status`, `r.json()`, or `data.get` on a non-object. */
  datatype Fields = Fields(fields: map<string, JsonValue>) | Fault(message: string)

  function FetchJson(get: Outcome): (f: Fields)
    ensures get.Answered? && RaiseForStatus(get.response).None? &&
            get.response.json.Decoded? && get.response.json.value.JObject?
            <==> f.Fields?
    ensures f.Fields? ==> f.fields == get.response.json.value.fields
    ensures get.Raised? ==> f == Fault(get.message)
  {
    match get
    case Raised(m) => Fault(m)
    case Answered(r) =>
      match RaiseForStatus(r)
      case Some(m) => Fault(m)
      case None =>
        match r.json
        case Undecodable(m) => Fault(m)
        case Decoded(v) =>
          if v.JObject? then Fields(v.fields)
          else Fault("'" + TypeName(v) + "' object has no attribute 'get'")
  }

  /** The HEAD-then-GET probe of an `http_date` source: a HEAD that raises is not retried; a HEAD
      with status 400 or more or without a `Date` header is replaced by a GET. */
  function DateProbe(ex: Exchange): (p: Probe)
    ensures p.viaGet <==>
            ex.head.Answered? &&
            (ex.head.response.status >= 400 ||
             ("date" !in ex.head.response.headers))
    ensures p.outcome == if p.viaGet then ex.get else ex.head
  {
    DateSpellings();
    match ex.head
    case Raised(_) => Probe(ex.head, false)
    case Answered(h) => if NeedsGet(h) then Probe(ex.get, true) else Probe(ex.head, false)
  }

  /** The epoch seconds of a timeapi answer: `iso.replace("Z", "+00:00")` parsed as ISO 8601; a
      non-string value makes `replace` raise, which the adapter turns into `None`. */
  function IsoSeconds(iso: JsonValue, lib: DateLib): Option<int>
  {
    if iso.JString? then lib.fromIso(ReplaceChar(iso.s, 'Z', "+00:00")) else None
  }

  function SecondsValue(ts: Option<int>): JsonValue
  {
    match ts
    case Some(t) => JNumber(t)
    case None => JNull
  }

  /** One iteration of the source loop. */
  function TryOne(src: Source, ex: Exchange, lib: DateLib): (a: Attempt)
    ensures a.Answer? ==> a.source == Label(src)
    ensures a.Answer? && src.kind != HttpDate ==> Truthy(a.utcDatetime)
    ensures a.Answer? && src.kind == HttpDate ==>
              DateProbe(ex).outcome.Answered? &&
              var date := Header(DateProbe(ex).outcome.response.headers, "Date");
              date.Some? && date.value != [] && a.utcDatetime.JString?
    ensures a.Raise? ==> |a.message| >= |src.tag| + 2 && a.message[..|src.tag| + 2] == src.tag + ": "
    ensures src.kind == JsonWta && a.Answer? ==>
              var f := FetchJson(ex.get);
              f.Fields? && a.utcDatetime == Lookup(f.fields, "utc_datetime") &&
              a.unixtime == Some(Lookup(f.fields, "unixtime"))
    ensures src.kind == JsonWta && FetchJson(ex.get).Fields? ==>
              (a.Answer? <==> Truthy(Lookup(FetchJson(ex.get).fields, "utc_datetime")))
    ensures src.kind == JsonTimeapi && FetchJson(ex.get).Fields? ==>
              (a.Answer? <==>
                 Truthy(Lookup(FetchJson(ex.get).fields, "dateTime")) ||
                 Truthy(Lookup(FetchJson(ex.get).fields, "time")))
    ensures src.kind == JsonTimeapi && a.Answer? ==>
              var f := FetchJson(ex.get);
              f.Fields? &&
              a.utcDatetime == (if Truthy(Lookup(f.fields, "dateTime")) then Lookup(f.fields, "dateTime")
                                else Lookup(f.fields, "time")) &&
              a.unixtime == Some(SecondsValue(IsoSeconds(a.utcDatetime, lib)))
    ensures src.kind != HttpDate ==> (a.Raise? <==> FetchJson(ex.get).Fault?)
    ensures src.kind == HttpDate ==> (a.Raise? <==> DateProbe(ex).outcome.Raised?)
    ensures src.kind != HttpDate && FetchJson(ex.get).Fault? ==>
              a == Raise(src.tag + ": " + FetchJson(ex.get).message)
    ensures src.kind == HttpDate && DateProbe(ex).outcome.Raised? ==>
              a == Raise(src.tag + ": " + DateProbe(ex).outcome.message)
  {
    match src.kind
    case JsonWta =>
      (match FetchJson(ex.get)
       case Fault(m) => Raise(src.tag + ": " + m)
       case Fields(f) =>
         var utc := Lookup(f, "utc_datetime");
         if Truthy(utc) then Answer(src.url, utc, Some(Lookup(f, "unixtime"))) else NoValue)
    case JsonTimeapi =>
      (match FetchJson(ex.get)
       case Fault(m) => Raise(src.tag + ": " + m)
       case Fields(f) =>
         var iso := OrElse(Lookup(f, "dateTime"), Lookup(f, "time"));
         if Truthy(iso) then Answer(src.url, iso, Some(SecondsValue(IsoSeconds(iso, lib)))) else NoValue)
    case HttpDate =>
      (match DateProbe(ex).outcome
       case Raised(m) => Raise(src.tag + ": " + m)
       case Answered(r) =>
         var date := Header(r.headers, "Date");
         if date.Some? && date.value != [] then
           match lib.fromHttpDate(date.value)
           case Some(parsed) => Answer(Label(src), JString(parsed.0), Some(JNumber(parsed.1)))
           case None => Answer(Label(src), JString(date.value), None)
         else NoValue)
  }

  /** An HTTP-date source whose probe reads a response with a non-empty `Date` header always
      answers, labelled with the source URL and " (HTTP Date)"; the date is parsed when the
      library can, and passed through as text otherwise. */
  lemma HttpDateAnswers(src: Source, ex: Exchange, lib: DateLib)
    requires src.kind == HttpDate
    requires DateProbe(ex).outcome.Answered?
    requires var date := Header(DateProbe(ex).outcome.response.headers, "Date"); date.Some? && date.value != []
    ensures var a := TryOne(src, ex, lib);
            var date := Header(DateProbe(ex).outcome.response.headers, "Date").value;
            a.Answer? && a.source == src.url + HttpDateSuffix &&
            a.utcDatetime == (if lib.fromHttpDate(date).Some? then JString(lib.fromHttpDate(date).value.0) else JString(date)) &&
            a.unixtime == (if lib.fromHttpDate(date).Some? then Some(JNumber(lib.fromHttpDate(date).value.1)) else None)
  {
  }

  /** The attempt of every source, given what each one answers. */
  function Attempts(exs: seq<Exchange>, lib: DateLib): (att: seq<Attempt>)
    requires |exs| == |Sources|
  {
    seq(|Sources|, i requires 0 <= i < |Sources| => TryOne(Sources[i], exs[i], lib))
  }

  /** Walks the attempts in order with the errors collected so far: the first answer wins;
      running out of sources gives the failure with the collected messages. */
  function Walk(att: seq<Attempt>, errors: seq<string>): WorldTime
  {
    if att == [] then Failed(FailureMessage, errors)
    else
      match att[0]
      case Answer(s, u, t) => Found(s, u, t)
      case Raise(m) => Walk(att[1..], errors + [m])
      case NoValue => Walk(att[1..], errors)
  }

  /** The messages of the attempts that raised, in source order. */
  function RaisedMessages(att: seq<Attempt>): seq<string>
  {
    if att == [] then []
    else (if att[0].Raise? then [att[0].message] else []) + RaisedMessages(att[1..])
  }

  /** What `fetch_world_time()` returns. */
  function WorldTimeOf(requestsInstalled: bool, exs: seq<Exchange>, lib: DateLib): WorldTime
    requires |exs| == |Sources|
  {
    if !requestsInstalled then Unavailable(NoRequestsMessage) else Walk(Attempts(exs, lib), [])
  }

  /** `fetch_world_time()`: the source loop, appending to `errors` and returning early. */
  method FetchWorldTime(requestsInstalled: bool, exs: seq<Exchange>, lib: DateLib) returns (r: WorldTime)
    requires |exs| == |Sources|
    ensures r == WorldTimeOf(requestsInstalled, exs, lib)
  {
    if !requestsInstalled {
      return Unavailable(NoRequestsMessage);
    }
    ghost var att := Attempts(exs, lib);
    var errors: seq<string> := [];
    var i := 0;
    while i < |Sources|
      invariant 0 <= i <= |Sources|
      invariant Walk(att[i..], errors) == Walk(att, [])
    {
      var a := TryOne(Sources[i], exs[i], lib);
      assert att[i..][0] == a && att[i..][1..] == att[i + 1..];
      match a {
        case Answer(s, u, t) =>
          return Found(s, u, t);
        case Raise(m) =>
          errors := errors + [m];
        case NoValue =>
      }
      i := i + 1;
    }
    r := Failed(FailureMessage, errors);
  }

  /** The first source that answers decides the result, whatever the later ones would say. */
  lemma {:induction false} FirstAnswerWins(att: seq<Attempt>, errors: seq<string>, i: nat)
    requires i < |att| && att[i].Answer?
    requires forall j :: 0 <= j < i ==> !att[j].Answer?
    ensures Walk(att, errors) == Found(att[i].source, att[i].utcDatetime, att[i].unixtime)
  {
    if i > 0 {
      FirstAnswerWins(att[1..], if att[0].Raise? then errors + [att[0].message] else errors, i - 1);
    }
  }

  /** With no answer at all, the failure lists exactly the messages of the sources that raised,
      in source order, after the ones collected before. */
  lemma {:induction false} NoAnswerFails(att: seq<Attempt>, errors: seq<string>)
    requires forall j :: 0 <= j < |att| ==> !att[j].Answer?
    ensures Walk(att, errors) == Failed(FailureMessage, errors + RaisedMessages(att))
  {
    if att != [] {
      NoAnswerFails(att[1..], if att[0].Raise? then errors + [att[0].message] else errors);
      if att[0].Raise? {
        assert errors + [att[0].message] + RaisedMessages(att[1..]) == errors + RaisedMessages(att);
      } else {
        assert RaisedMessages(att) == RaisedMessages(att[1..]);
      }
    }
  }

  /** A result is a found time exactly when some source answered. */
  lemma {:induction false} FoundIffSomeAnswer(att: seq<Attempt>, errors: seq<string>)
    ensures Walk(att, errors).Found? <==> exists j :: 0 <= j < |att| && att[j].Answer?
  {
    if att != [] {
      FoundIffSomeAnswer(att[1..], if att[0].Raise? then errors + [att[0].message] else errors);
      if !att[0].Answer? {
        assert forall j :: 1 <= j < |att| ==> att[j] == att[1..][j - 1];
      }
    }
  }

  /** One message per source that raised: when every source raises, the details hold one entry
      per source, the i-th being that source's message. */
  lemma {:induction false} OneDetailPerRaise(att: seq<Attempt>)
    requires forall j :: 0 <= j < |att| ==> att[j].Raise?
    ensures |RaisedMessages(att)| == |att|
    ensures forall j :: 0 <= j < |att| ==> RaisedMessages(att)[j] == att[j].message
  {
    if att != [] {
      OneDetailPerRaise(att[1..]);
    }
  }

  /** `fetch_world_time()` returns the answer of the first source that answers, labelled with
      that source's URL; if none answers, the failure with one `"{tag}: {e}"` per raising source. */
  lemma WorldTimeChain(exs: seq<Exchange>, lib: DateLib)
    requires |exs| == |Sources|
    ensures var att := Attempts(exs, lib);
            var r := WorldTimeOf(true, exs, lib);
            (r.Found? <==> exists j :: 0 <= j < |Sources| && att[j].Answer?) &&
            (forall i :: 0 <= i < |Sources| && att[i].Answer? && (forall j :: 0 <= j < i ==> !att[j].Answer?) ==>
               r.Found? && r.source == Label(Sources[i])) &&
            (!r.Found? ==> r == Failed(FailureMessage, RaisedMessages(att)))
  {
    var att := Attempts(exs, lib);
    FoundIffSomeAnswer(att, []);
    forall i | 0 <= i < |Sources| && att[i].Answer? && (forall j :: 0 <= j < i ==> !att[j].Answer?)
      ensures WorldTimeOf(true, exs, lib).source == Label(Sources[i])
    {
      FirstAnswerWins(att, [], i);
    }
    if !WorldTimeOf(true, exs, lib).Found? {
      NoAnswerFails(att, []);
    }
  }
}
