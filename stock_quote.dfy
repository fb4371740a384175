/**
 * `fetch_stock_quote` (main.py:144-170) and the per-symbol loop of `EvidenceApp.do_stocks`
 * (main.py:451-470). A quote is a dictionary of strings, as the source builds it.
 */
module StockQuote {

  import opened Text
  import opened Http

  type Quote = map<string, string>

  const NoRequestsMessage: string := "requests 未安装，无法获取股价"
  const EmptySymbolMessage: string := "股票代码不能为空"
  const MalformedMessage: string := "返回数据异常"
  const FetchFailedPrefix: string := "获取股价失败: "
  const StooqPrefix: string := "https://stooq.com/q/l/?s="
  const StooqSuffix: string := "&f=sd2t2ohlcv&h&e=csv"

  /** Whether `requests` imported, and `urllib.parse.quote` (percent-encoding, not modelled). */
  datatype QuoteEnv = QuoteEnv(requestsInstalled: bool, percentEncode: string -> string)

  function Min(a: int, b: int): int
  {
    if a <= b then a else b
  }

  /** `dict(zip(keys, vals))`: pairs by position up to the shorter row; a repeated key keeps the
      value of its last occurrence. */
  function PairByPosition(keys: seq<string>, vals: seq<string>): Quote
    decreases |keys|
  {
    var n := Min(|keys|, |vals|);
    if n == 0 then map[]
    else PairByPosition(keys[..n - 1], vals[..n - 1])[keys[n - 1] := vals[n - 1]]
  }

  /** The keys are exactly the header cells that found a value cell. */
  lemma {:induction false} PairByPositionKeys(keys: seq<string>, vals: seq<string>)
    ensures PairByPosition(keys, vals).Keys == set i | 0 <= i < Min(|keys|, |vals|) :: keys[i]
    decreases |keys|
  {
    var n := Min(|keys|, |vals|);
    if n > 0 {
      PairByPositionKeys(keys[..n - 1], vals[..n - 1]);
      assert forall i :: 0 <= i < n - 1 ==> keys[..n - 1][i] == keys[i];
      assert Min(|keys[..n - 1]|, |vals[..n - 1]|) == n - 1;
    }
  }

  /** A key takes the value at the position of its last occurrence among the paired cells. */
  lemma {:induction false} PairByPositionLastWins(keys: seq<string>, vals: seq<string>, i: nat)
    requires i < Min(|keys|, |vals|)
    requires forall j :: i < j < Min(|keys|, |vals|) ==> keys[j] != keys[i]
    ensures keys[i] in PairByPosition(keys, vals)
    ensures PairByPosition(keys, vals)[keys[i]] == vals[i]
    decreases |keys|
  {
    var n := Min(|keys|, |vals|);
    if i < n - 1 {
      PairByPositionLastWins(keys[..n - 1], vals[..n - 1], i);
    }
  }

  /** The lines of the response body, as `r.text.strip().splitlines()`. */
  function CsvLines(text: string): seq<string>
  {
    SplitLines(Strip(text))
  }

  /** The keys: the cells of line 0, trimmed and lower-cased
      (`[h.strip().lower() for h in lines[0].split(',')]`). */
  function CsvKeys(lines: seq<string>): seq<string>
    requires |lines| >= 2
  {
    var cells := Split(lines[0], ',');
    seq(|cells|, i requires 0 <= i < |cells| => Lower(Strip(cells[i])))
  }

  /** The values: the cells of line 1, trimmed (`[v.strip() for v in lines[1].split(',')]`). */
  function CsvValues(lines: seq<string>): seq<string>
    requires |lines| >= 2
  {
    var cells := Split(lines[1], ',');
    seq(|cells|, i requires 0 <= i < |cells| => Strip(cells[i]))
  }

  /** The lines of a successful response turned into a quote: fewer than two lines is the
      malformed-response error; otherwise the keys are paired with the values by position, and
      `source` is the request URL whatever the CSV says. */
  function LinesQuote(lines: seq<string>, url: string): (q: Quote)
    ensures "source" in q && q["source"] == url
    ensures |lines| < 2 ==> q == map["error" := MalformedMessage, "source" := url]
  {
    if |lines| < 2 then map["error" := MalformedMessage, "source" := url]
    else PairByPosition(CsvKeys(lines), CsvValues(lines))["source" := url]
  }

  /** The body of a successful response turned into a quote. */
  function CsvQuote(text: string, url: string): Quote
  {
    LinesQuote(CsvLines(text), url)
  }

  /** A body of a header line and a values line, separated by a newline and with nothing to
      strip at either end, is parsed from exactly those two lines. */
  lemma CsvQuoteTwoLines(h: string, v: string, url: string)
    requires h != [] && v != []
    requires forall i :: 0 <= i < |h| ==> !IsLineBreak(h[i])
    requires forall i :: 0 <= i < |v| ==> !IsLineBreak(v[i])
    requires !IsSpace(h[0]) && !IsSpace(v[|v| - 1])
    ensures CsvQuote(h + "\n" + v, url) == LinesQuote([h, v], url)
  {
    StripTrimmed(h + "\n" + v);
    SplitLinesBreak(h, "\n", v);
    SplitLinesSingle(v);
  }

  /** A body that is a single line once stripped, or only whitespace, is the malformed-data
      error. */
  lemma CsvQuoteOneLine(text: string, url: string)
    requires forall i :: 0 <= i < |Strip(text)| ==> !IsLineBreak(Strip(text)[i])
    ensures CsvQuote(text, url) == map["error" := MalformedMessage, "source" := url]
  {
    if Strip(text) != [] {
      SplitLinesSingle(Strip(text));
    }
  }

  /** A header line followed only by whitespace, blank lines included, is the malformed-data
      error: `strip()` removes the blank lines before `splitlines()` could count them. */
  lemma CsvQuoteTrailingBlank(h: string, ws: string, url: string)
    requires h != [] && !IsSpace(h[0]) && !IsSpace(h[|h| - 1])
    requires forall i :: 0 <= i < |h| ==> !IsLineBreak(h[i])
    requires AllSpace(ws)
    ensures CsvQuote(h + ws, url) == map["error" := MalformedMessage, "source" := url]
  {
    StripTrailing(h, ws);
    CsvQuoteOneLine(h + ws, url);
  }

  /** With two lines or more, the keys are the paired header cells plus `source`. */
  lemma LinesQuoteKeys(lines: seq<string>, url: string)
    requires |lines| >= 2
    ensures LinesQuote(lines, url).Keys ==
              (set i | 0 <= i < Min(|CsvKeys(lines)|, |CsvValues(lines)|) :: CsvKeys(lines)[i]) + {"source"}
  {
    var m := PairByPosition(CsvKeys(lines), CsvValues(lines));
    PairByPositionKeys(CsvKeys(lines), CsvValues(lines));
    assert LinesQuote(lines, url) == m["source" := url];
  }

  /** Every header cell other than `source` carries the value cell at the position of its last
      occurrence; the cells past the shorter row are dropped. */
  lemma LinesQuotePairing(lines: seq<string>, url: string, i: nat)
    requires |lines| >= 2
    requires i < Min(|CsvKeys(lines)|, |CsvValues(lines)|)
    requires CsvKeys(lines)[i] != "source"
    requires forall j :: i < j < Min(|CsvKeys(lines)|, |CsvValues(lines)|) ==> CsvKeys(lines)[j] != CsvKeys(lines)[i]
    ensures CsvKeys(lines)[i] in LinesQuote(lines, url)
    ensures LinesQuote(lines, url)[CsvKeys(lines)[i]] == CsvValues(lines)[i]
  {
    var m := PairByPosition(CsvKeys(lines), CsvValues(lines));
    assert LinesQuote(lines, url) == m["source" := url];
    PairByPositionLastWins(CsvKeys(lines), CsvValues(lines), i);
  }

  /** The request URL for a normalised symbol. */
  function QuoteUrl(env: QuoteEnv, sym: string): string
  {
    StooqPrefix + env.percentEncode(sym) + StooqSuffix
  }

  /** The quote of a request that raised: `{"error": f"获取股价失败: {e}", "source": url}`. */
  function FetchError(e: string, url: string): Quote
  {
    map["error" := FetchFailedPrefix + e, "source" := url]
  }

  lemma FetchErrorShape(e: string, url: string)
    ensures FetchError(e, url).Keys == {"error", "source"} && FetchError(e, url)["source"] == url
    ensures var m := FetchError(e, url)["error"];
            |m| >= |FetchFailedPrefix| && m[..|FetchFailedPrefix|] == FetchFailedPrefix
    ensures FetchError(e, url)["error"] == FetchFailedPrefix + e
  {
    var m := FetchFailedPrefix + e;
    assert m[..|FetchFailedPrefix|] == FetchFailedPrefix;
  }

  /** `fetch_stock_quote(symbol)`, given what the GET of the quote URL answers. */
  function FetchStockQuote(env: QuoteEnv, symbol: string, answer: Outcome): (q: Quote)
    ensures !env.requestsInstalled ==> q == map["error" := NoRequestsMessage]
    ensures env.requestsInstalled && Strip(symbol) == [] ==> q == map["error" := EmptySymbolMessage]
    ensures "source" in q <==> env.requestsInstalled && Strip(symbol) != []
    ensures "source" in q ==> q["source"] == QuoteUrl(env, Lower(Strip(symbol)))
  {
    if !env.requestsInstalled then map["error" := NoRequestsMessage]
    else
      var sym := Lower(Strip(symbol));
      if sym == [] then map["error" := EmptySymbolMessage]
      else
        var url := QuoteUrl(env, sym);
        match answer
        case Raised(e) => FetchError(e, url)
        case Answered(r) =>
          match RaiseForStatus(r)
          case Some(e) => FetchError(e, url)
          case None => CsvQuote(r.text, url)
  }

  /** With a symbol to ask for, a reply that `raise_for_status` accepts is parsed as CSV, and
      anything else is a fetch error that names the request URL. */
  lemma FetchStockQuoteOutcome(env: QuoteEnv, symbol: string, answer: Outcome)
    requires env.requestsInstalled && Strip(symbol) != []
    ensures var q := FetchStockQuote(env, symbol, answer);
            var url := QuoteUrl(env, Lower(Strip(symbol)));
            if answer.Answered? && RaiseForStatus(answer.response).None? then
              q == CsvQuote(answer.response.text, url)
            else
              q.Keys == {"error", "source"} && q["source"] == url &&
              |q["error"]| >= |FetchFailedPrefix| && q["error"][..|FetchFailedPrefix|] == FetchFailedPrefix &&
              q["error"] == FetchFailedPrefix +
                (if answer.Raised? then answer.message else RaiseForStatus(answer.response).value)
  {
    var url := QuoteUrl(env, Lower(Strip(symbol)));
    match answer {
      case Raised(e) =>
        FetchErrorShape(e, url);
      case Answered(r) =>
        if RaiseForStatus(r).Some? {
          FetchErrorShape(RaiseForStatus(r).value, url);
        }
    }
  }

  /** One entry of `do_stocks`: skipped when blank after `strip`, otherwise the fetched quote with
      `symbol` set to the upper-cased symbol. */
  datatype QuoteAttempt = Skipped | Quoted(symbol: string, data: Quote)

  function AttemptQuote(env: QuoteEnv, entry: string, answer: Outcome): (a: QuoteAttempt)
    ensures a.Skipped? <==> Strip(entry) == []
    ensures a.Quoted? ==> a.symbol == Strip(entry) && "symbol" in a.data && a.data["symbol"] == Upper(a.symbol)
    ensures a.Quoted? ==>
              var q := FetchStockQuote(env, a.symbol, answer);
              a.data.Keys == q.Keys + {"symbol"} &&
              forall k :: k in q && k != "symbol" ==> a.data[k] == q[k]
  {
    var symbol := Strip(entry);
    if symbol == [] then Skipped
    else
      var q := FetchStockQuote(env, symbol, answer);
      SymbolStamped(q, Upper(symbol));
      Quoted(symbol, q["symbol" := Upper(symbol)])
  }

  /** `data["symbol"] = ...` adds or replaces that one key and keeps every other entry. */
  lemma SymbolStamped(q: Quote, v: string)
    ensures q["symbol" := v].Keys == q.Keys + {"symbol"} && q["symbol" := v]["symbol"] == v
    ensures forall k :: k in q && k != "symbol" ==> q["symbol" := v][k] == q[k]
  {
  }

  function QuoteAttempts(env: QuoteEnv, entries: seq<string>, answers: seq<Outcome>): seq<QuoteAttempt>
    requires |answers| == |entries|
  {
    seq(|entries|, i requires 0 <= i < |entries| => AttemptQuote(env, entries[i], answers[i]))
  }

  /** `stocks_data`: the quotes without an `error` key, in entry order. */
  function Successes(att: seq<QuoteAttempt>): seq<Quote>
  {
    if att == [] then []
    else
      (if att[0].Quoted? && "error" !in att[0].data then [att[0].data] else []) + Successes(att[1..])
  }

  /** `errors`: `"{symbol}: {error}"` for each quote with an `error` key, in entry order. */
  function Failures(att: seq<QuoteAttempt>): seq<string>
  {
    if att == [] then []
    else
      (if att[0].Quoted? && "error" in att[0].data then [att[0].symbol + ": " + att[0].data["error"]] else [])
      + Failures(att[1..])
  }

  /** One non-blank entry is filed by its fetch: a quote with `error` becomes the message
      `"{symbol}: {error}"` and nothing is stored; any other quote is stored, with its symbol. */
  lemma FetchFiled(env: QuoteEnv, entry: string, answer: Outcome)
    requires Strip(entry) != []
    ensures var q := FetchStockQuote(env, Strip(entry), answer);
            var a := AttemptQuote(env, entry, answer);
            if "error" in q then
              Successes([a]) == [] && Failures([a]) == [Strip(entry) + ": " + q["error"]]
            else
              Failures([a]) == [] && Successes([a]) == [q["symbol" := Upper(Strip(entry))]]
  {
    var q := FetchStockQuote(env, Strip(entry), answer);
    var a := AttemptQuote(env, entry, answer);
    assert a == Quoted(Strip(entry), q["symbol" := Upper(Strip(entry))]);
    StampedFiled(a, Strip(entry), q);
  }

  /** The filing of one quote stamped with its symbol, whatever the quote holds. */
  lemma StampedFiled(a: QuoteAttempt, sym: string, q: Quote)
    requires a == Quoted(sym, q["symbol" := Upper(sym)])
    ensures if "error" in q then
              Successes([a]) == [] && Failures([a]) == [sym + ": " + q["error"]]
            else
              Failures([a]) == [] && Successes([a]) == [q["symbol" := Upper(sym)]]
  {
    SingleAttempt(a);
  }

  function NonBlankCount(entries: seq<string>): nat
  {
    if entries == [] then 0 else (if Strip(entries[0]) != [] then 1 else 0) + NonBlankCount(entries[1..])
  }

  /** Symbols are independent: the quotes of a list of entries are those of its first part
      followed by those of the rest. */
  lemma {:induction false} SuccessesConcat(a: seq<QuoteAttempt>, b: seq<QuoteAttempt>)
    ensures Successes(a + b) == Successes(a) + Successes(b)
  {
    if a != [] {
      assert (a + b)[0] == a[0] && (a + b)[1..] == a[1..] + b;
      SuccessesConcat(a[1..], b);
    } else {
      assert a + b == b;
    }
  }

  /** The same independence for the error messages. */
  lemma {:induction false} FailuresConcat(a: seq<QuoteAttempt>, b: seq<QuoteAttempt>)
    ensures Failures(a + b) == Failures(a) + Failures(b)
  {
    if a != [] {
      assert (a + b)[0] == a[0] && (a + b)[1..] == a[1..] + b;
      FailuresConcat(a[1..], b);
      assert Failures(a + b) == Failures([a[0]]) + Failures(a[1..] + b);
    } else {
      assert a + b == b;
    }
  }

  /** What a single entry contributes to the two lists. */
  lemma SingleAttempt(a: QuoteAttempt)
    ensures Successes([a]) == if a.Quoted? && "error" !in a.data then [a.data] else []
    ensures Failures([a]) == if a.Quoted? && "error" in a.data then [a.symbol + ": " + a.data["error"]] else []
  {
    assert [a][1..] == [];
  }

  /** Filing attempt `i`, which is `a`: a skipped entry changes neither list, a quote with
      `error` adds its message to the failures, any other quote is added to the successes. */
  lemma FileStep(att: seq<QuoteAttempt>, i: nat, a: QuoteAttempt)
    requires i < |att| && att[i] == a
    ensures a.Skipped? ==>
              Successes(att[..i + 1]) == Successes(att[..i]) && Failures(att[..i + 1]) == Failures(att[..i])
    ensures a.Quoted? && "error" in a.data ==>
              Successes(att[..i + 1]) == Successes(att[..i]) &&
              Failures(att[..i + 1]) == Failures(att[..i]) + [a.symbol + ": " + a.data["error"]]
    ensures a.Quoted? && "error" !in a.data ==>
              Successes(att[..i + 1]) == Successes(att[..i]) + [a.data] &&
              Failures(att[..i + 1]) == Failures(att[..i])
  {
    assert att[..i + 1] == att[..i] + [a];
    SuccessesConcat(att[..i], [a]);
    FailuresConcat(att[..i], [a]);
    SingleAttempt(a);
    assert Successes(att[..i]) + [] == Successes(att[..i]);
    assert Failures(att[..i]) + [] == Failures(att[..i]);
  }

  /** One pass of the loop body of `do_stocks` for entry `i`, whose attempt is `a`: a skipped
      entry changes nothing, a quote with `error` adds `"{symbol}: {error}"` to the errors, and
      any other quote is appended to the stored quotes; so the two lists go on matching the
      attempts filed so far. */
  method File(ghost att: seq<QuoteAttempt>, ghost i: nat, a: QuoteAttempt,
               stocksData: seq<Quote>, errors: seq<string>)
    returns (stocksData': seq<Quote>, errors': seq<string>)
    requires i < |att| && att[i] == a
    requires stocksData == Successes(att[..i]) && errors == Failures(att[..i])
    ensures stocksData' == Successes(att[..i + 1]) && errors' == Failures(att[..i + 1])
  {
    FileStep(att, i, a);
    stocksData', errors' := stocksData, errors;
    if a.Quoted? {
      if "error" in a.data {
        errors' := errors + [a.symbol + ": " + a.data["error"]];
      } else {
        stocksData' := stocksData + [a.data];
      }
    }
  }

  /** The loop of `do_stocks`: for each entry, skip it, or file its quote under `stocks_data` or
      its message under `errors`. */
  method CollectQuotes(env: QuoteEnv, entries: seq<string>, answers: seq<Outcome>)
    returns (stocksData: seq<Quote>, errors: seq<string>)
    requires |answers| == |entries|
    ensures stocksData == Successes(QuoteAttempts(env, entries, answers))
    ensures errors == Failures(QuoteAttempts(env, entries, answers))
  {
    ghost var att := QuoteAttempts(env, entries, answers);
    stocksData, errors := [], [];
    var i := 0;
    while i < |entries|
      invariant 0 <= i <= |entries|
      invariant stocksData == Successes(att[..i])
      invariant errors == Failures(att[..i])
    {
      var a := AttemptQuote(env, entries[i], answers[i]);
      stocksData, errors := File(att, i, a, stocksData, errors);
      i := i + 1;
    }
    assert att[..|entries|] == att;
  }

  /** The number of entries that were not skipped. */
  function QuotedCount(att: seq<QuoteAttempt>): nat
  {
    if att == [] then 0 else (if att[0].Quoted? then 1 else 0) + QuotedCount(att[1..])
  }

  /** An attempt that is not skipped lands in exactly one of the two lists. */
  lemma {:induction false} AttemptsPartition(att: seq<QuoteAttempt>)
    ensures |Successes(att)| + |Failures(att)| == QuotedCount(att)
  {
    if att != [] {
      AttemptsPartition(att[1..]);
    }
  }

  /** An entry is skipped exactly when it is blank. */
  lemma SkippedIffBlank(env: QuoteEnv, entry: string, answer: Outcome)
    ensures AttemptQuote(env, entry, answer).Quoted? <==> Strip(entry) != []
  {
  }

  lemma {:induction false} QuotedCountIsNonBlankCount(env: QuoteEnv, entries: seq<string>, answers: seq<Outcome>)
    requires |answers| == |entries|
    ensures QuotedCount(QuoteAttempts(env, entries, answers)) == NonBlankCount(entries)
  {
    if entries != [] {
      var att := QuoteAttempts(env, entries, answers);
      QuotedCountIsNonBlankCount(env, entries[1..], answers[1..]);
      assert att[1..] == QuoteAttempts(env, entries[1..], answers[1..]);
      SkippedIffBlank(env, entries[0], answers[0]);
    }
  }

  /** Every non-blank entry yields exactly one entry, either a quote or an error message. */
  lemma EveryNonBlankEntryReported(env: QuoteEnv, entries: seq<string>, answers: seq<Outcome>)
    requires |answers| == |entries|
    ensures var att := QuoteAttempts(env, entries, answers);
            |Successes(att)| + |Failures(att)| == NonBlankCount(entries)
  {
    AttemptsPartition(QuoteAttempts(env, entries, answers));
    QuotedCountIsNonBlankCount(env, entries, answers);
  }

  /** Each stored quote is the quote of some entry, and has no `error` key. */
  lemma {:induction false} SuccessesFromAttempts(att: seq<QuoteAttempt>)
    ensures forall q :: q in Successes(att) ==>
              "error" !in q && exists k :: 0 <= k < |att| && att[k].Quoted? && att[k].data == q
  {
    if att != [] {
      SuccessesFromAttempts(att[1..]);
      forall q | q in Successes(att)
        ensures "error" !in q && exists k :: 0 <= k < |att| && att[k].Quoted? && att[k].data == q
      {
        if !(att[0].Quoted? && "error" !in att[0].data && q == att[0].data) {
          assert q in Successes(att[1..]);
          var k :| 0 <= k < |att[1..]| && att[1..][k].Quoted? && att[1..][k].data == q;
          assert att[k + 1] == att[1..][k];
        }
      }
    }
  }

  /** Each stored quote has no `error` key and carries, as `symbol`, the upper-cased trimmed text
      of a non-blank entry. */
  lemma StoredQuotesCarrySymbols(env: QuoteEnv, entries: seq<string>, answers: seq<Outcome>)
    requires |answers| == |entries|
    ensures forall q :: q in Successes(QuoteAttempts(env, entries, answers)) ==>
              "error" !in q && "symbol" in q &&
              exists i :: 0 <= i < |entries| && Strip(entries[i]) != [] && q["symbol"] == Upper(Strip(entries[i]))
  {
    var att := QuoteAttempts(env, entries, answers);
    SuccessesFromAttempts(att);
    forall q | q in Successes(att)
      ensures "symbol" in q &&
              exists i :: 0 <= i < |entries| && Strip(entries[i]) != [] && q["symbol"] == Upper(Strip(entries[i]))
    {
      var k :| 0 <= k < |att| && att[k].Quoted? && att[k].data == q;
      assert att[k] == AttemptQuote(env, entries[k], answers[k]);
    }
  }
}
