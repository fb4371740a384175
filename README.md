# Evidence generator core, in Dafny

This project models the core of the photo-evidence generator in `main.py`. A user picks a photo
and the application records:

- the photo's SHA-256;
- a trusted UTC time fetched from five network sources in turn;
- stock quotes from the stooq CSV service;
- a list of publication links.

It then writes an evidence package. The package holds a copy of the photo under a sanitised
name and a verification block. That block recomputes the copy's hash and probes every
publication link for its HTTP `Date`, status and final URL. Finally, an HTML report escapes
every value it prints.

The model is split into one module per concern:

- `Text` covers the Python string operations the code relies on: `strip`, `splitlines`,
  `split(',')`, `lower`/`upper` and single-character `replace`.
- `Json` and `Http` cover response data: JSON values with Python truthiness, and
  `requests` responses with their case-insensitive headers and `raise_for_status`.
- `Filenames` models `safe_filename`.
- `WorldTime` models `fetch_world_time`.
- `StockQuote` models `fetch_stock_quote` and the loop of `do_stocks`.
- `Publish` models `_collect_publish_urls` and the link probes.
- `Verification` models the hash check and the verification block.
- `HtmlEscape` models `esc`.
- `App` models the `EvidenceApp` class, whose handlers update its state in place.

Every network call is an input to the model. A call either raised an exception with a message
(`Raised`) or returned a response (`Answered`). A HEAD/GET pair is an `Exchange`. The file
system is an input in the same way: a missing file, an unreadable one, or its bytes. SHA-256,
ISO-8601 and HTTP-date parsing, and percent-encoding are function parameters.

Three behaviours of the code are worth stating, since the model follows them exactly:

- The comment at main.py:120 says a header-derived time source falls back to GET when the HEAD
  fails, but the code only falls back on a HEAD that answers with status 400 or more or without
  a `Date` header (main.py:122-123). A HEAD that raises goes straight to the `except` clause and
  becomes that source's error entry (main.py:121, 138-139). The publication probe does fall
  back in that case (main.py:686-692).
- A quote response counts as malformed when `r.text.strip().splitlines()` has fewer than two
  lines (main.py:160-161). A blank line inside the text still counts as a line, so a header,
  a blank line and a values line pass that test, and the header is then paired with the blank
  line (main.py:163-165).
- When hashing the photo raises inside `generate_report`, the exception leaves the method and
  no package is written; the exception is not recorded anywhere (main.py:620-621, 375-381).

## Model

| member | source | states |
|---|---|---|
| Text.Strip | main.py:593 | the result is empty exactly when the text is all whitespace; otherwise it neither starts nor ends with whitespace |
| Text.StripIsSlice | main.py:593 | `strip()` returns the stretch of the text that starts right after its leading whitespace, and only whitespace follows that stretch: nothing else is removed |
| Text.StripIdempotent | main.py:593-594 | stripping twice is stripping once |
| Text.SplitLines | main.py:160 | no line contains a line boundary; there are no more lines than characters, and none only for the empty text |
| Text.SplitLinesSingle | main.py:160 | a non-empty text without a line boundary is exactly one line, itself |
| Text.StripTrailing | main.py:160 | text with no whitespace at its ends, followed by any run of whitespace (blank lines included), strips back to itself |
| Text.SplitLinesBreak | main.py:160 | a line ends at one boundary: `\r\n` is a single boundary, a lone `\r` or any other boundary character is one too, and the line before it is split off whole |
| Text.SplitJoin | main.py:163-164 | joining the comma-split cells with commas gives the line back, so `split(',')` loses nothing |
| Filenames.KeepAllowed | main.py:33 | only alphanumerics, `-`, `_` and `.` remain, in their original order (a subsequence), each as many times as in the input |
| Filenames.SafeFilename | main.py:32-33 | the same as KeepAllowed: the trailing `strip()` never removes anything |
| Filenames.KeepAllowedFixpoint | main.py:33 | a name made only of allowed characters is kept whole |
| Filenames.SafeFilenameIdempotent | main.py:32-33 | sanitising a sanitised name changes nothing |
| Json.OrElse | main.py:108 | `a or b` is truthy exactly when `a` or `b` is |
| Http.Header | main.py:124 | a header is found exactly when its lower-cased name is present, so `Date` and `date` are one lookup, and its value is the one stored under that name |
| Http.RaiseForStatus | main.py:96 | `raise_for_status` raises exactly for statuses 400 to 599, with requests' message: the status, " Client Error: " for 4xx or " Server Error: " for 5xx, the reason, " for url: " and the URL |
| WorldTime.FetchJson | main.py:95-98 | a JSON source yields a dictionary exactly when the GET answered, its status passed, the body decoded and the value is an object, and the dictionary is that object's fields; a GET that raised gives its exception message |
| WorldTime.DateProbe | main.py:121-123 | the GET is issued exactly when the HEAD answered with status 400 or more or without a `Date` header; the probe reads the GET's answer then, the HEAD's otherwise (a HEAD exception is not retried) |
| WorldTime.TryOne | main.py:92-139 | one source: an answer carries the source's label; a wta source with a decoded object answers exactly when `utc_datetime` is truthy, with `utc_datetime` and `unixtime` from the body; a timeapi source answers exactly when `dateTime` or `time` is truthy, with the first truthy one and the epoch seconds of that value; an HTTP-date answer needs a non-empty `Date` header; an error occurs exactly when the request, status, decode or lookup failed, and its message is the tag, `": "` and the exception's own text |
| WorldTime.HttpDateAnswers | main.py:124-137 | an HTTP-date source whose response has a non-empty `Date` header always answers, labelled with the URL and " (HTTP Date)"; with a parsable date it carries the parsed ISO time and its epoch seconds, otherwise the raw header text and no `unixtime` |
| WorldTime.FetchWorldTime | main.py:60-141 | the loop over the sources returns exactly what the walk over the per-source attempts gives, and the no-`requests` error without trying any source |
| WorldTime.WorldTimeOf | main.py:60-141 | what `fetch_world_time` returns: the no-`requests` error, or the walk over the five sources' attempts; FetchWorldTime is proved equal to it and WorldTimeChain states its properties |
| WorldTime.Walk | main.py:100-141 | the first answer wins and otherwise the failure lists the raised messages; FirstAnswerWins, NoAnswerFails and FoundIffSomeAnswer state this for all attempt sequences |
| WorldTime.FirstAnswerWins | main.py:100-137 | the first source that answers decides the result, whatever later sources would answer |
| WorldTime.NoAnswerFails | main.py:138-141 | with no answer, the result is the failure whose details are the messages of the raising sources, in order |
| WorldTime.FoundIffSomeAnswer | main.py:92-141 | a time is found exactly when some source answers |
| WorldTime.OneDetailPerRaise | main.py:138-139 | when every source raises, there is one detail per source and the i-th is that source's message |
| WorldTime.WorldTimeChain | main.py:60-141 | the three properties above combined for the five configured sources |
| StockQuote.PairByPositionKeys | main.py:165 | `dict(zip(header, values))` has exactly the header cells that have a value cell as keys |
| StockQuote.PairByPositionLastWins | main.py:165 | a key gets the value at the position of its last occurrence |
| StockQuote.PairByPosition | main.py:165 | `dict(zip(header, values))`, built pair by pair; PairByPositionKeys and PairByPositionLastWins state its keys and values |
| StockQuote.CsvKeys | main.py:163 | the header cells, each stripped and lower-cased; LinesQuoteKeys and LinesQuotePairing state what the quote keeps of them |
| StockQuote.CsvValues | main.py:164 | the value cells, each stripped; LinesQuotePairing states where they land |
| StockQuote.CsvQuote | main.py:160-167 | the body's stripped lines handed to LinesQuote; CsvQuoteTwoLines, CsvQuoteOneLine and CsvQuoteTrailingBlank state what a body gives, and the LinesQuote lemmas the keys and the pairing |
| StockQuote.CsvQuoteTwoLines | main.py:160-167 | a body made of a header line, a newline and a values line, with nothing to strip at its ends, is parsed from exactly those two lines |
| StockQuote.CsvQuoteOneLine | main.py:160-162 | a body that is empty or a single line once stripped gives exactly the malformed-data error with the request URL |
| StockQuote.CsvQuoteTrailingBlank | main.py:160-162 | a header line followed only by whitespace or blank lines gives the malformed-data error, because `strip()` runs before `splitlines()` |
| StockQuote.LinesQuote | main.py:160-167 | `source` is always the request URL; fewer than two lines gives the malformed-data error with the URL |
| StockQuote.LinesQuoteKeys | main.py:163-166 | with two lines or more, the keys are the paired, lower-cased header cells plus `source` |
| StockQuote.LinesQuotePairing | main.py:163-166 | every header cell other than `source` carries the trimmed value cell at its last position |
| StockQuote.FetchErrorShape | main.py:168-170 | a failed request gives exactly `error`, which is "获取股价失败: " followed by the exception text, and `source` |
| StockQuote.FetchStockQuote | main.py:144-170 | no `requests` and a blank symbol give their fixed error dictionaries; `source` is present exactly when a request was made, and is the stooq URL for the trimmed, lower-cased symbol |
| StockQuote.FetchStockQuoteOutcome | main.py:156-170 | a response that passes `raise_for_status` is parsed as CSV; an exception or a 4xx/5xx status gives the fetch-error dictionary naming the request URL, with the transport's or `raise_for_status`'s message after the prefix |
| StockQuote.AttemptQuote | main.py:452-461 | a blank entry is skipped; otherwise the entry's data is exactly the quote fetched for the trimmed entry, with `symbol` added as its upper-case form |
| StockQuote.FetchFiled | main.py:458-466 | a non-blank entry whose fetched quote has `error` yields exactly the message `"{symbol}: {error}"` and no stored quote; any other quote is stored, with its `symbol`, and yields no message |
| StockQuote.File | main.py:458-466 | one pass of the loop body: given lists that match the attempts filed so far, the new lists match them with this entry's attempt filed too |
| StockQuote.CollectQuotes | main.py:448-470 | the loop yields exactly the error-free quotes and the `"{symbol}: {error}"` messages, each in entry order |
| StockQuote.Successes | main.py:463-466 | the stored quotes of a list of attempts; SuccessesConcat, AttemptsPartition and SuccessesFromAttempts state its order and contents |
| StockQuote.Failures | main.py:463-466 | the error messages of a list of attempts; FailuresConcat and AttemptsPartition state its order and contents |
| StockQuote.SuccessesConcat | main.py:451-470 | entries are filed independently: the quotes of a concatenation are the concatenated quotes |
| StockQuote.FailuresConcat | main.py:451-470 | the same for the error messages |
| StockQuote.AttemptsPartition | main.py:463-466 | every entry that is not skipped lands in exactly one of the two lists |
| StockQuote.EveryNonBlankEntryReported | main.py:451-470 | quotes plus error messages number exactly the non-blank entries |
| StockQuote.SuccessesFromAttempts | main.py:463-466 | every stored quote is one entry's quote and has no `error` key |
| StockQuote.StoredQuotesCarrySymbols | main.py:461-466 | every stored quote has no `error` and carries the upper-cased symbol of a non-blank entry |
| Publish.NonBlankLinesConcat | main.py:594 | lines are collected independently and in order |
| Publish.NonBlankLinesSound | main.py:594 | every link is the non-empty trimmed text of some line |
| Publish.NonBlankLinesComplete | main.py:594 | every line with something besides whitespace is collected |
| Publish.NonBlankLines | main.py:594 | the stripped lines without the empty ones, never more than there are lines; NonBlankLinesSound and NonBlankLinesComplete characterise them |
| Publish.PublishUrls | main.py:593-594 | the links of the text box; the PublishUrls lemmas below state that they are trimmed, single-line and round-trip |
| Publish.PublishUrlsTrimmed | main.py:592-596 | every collected link is non-empty and already trimmed |
| Publish.PublishUrlsOneLine | main.py:592-596 | no collected link spans a line boundary |
| Publish.PublishUrlsRoundTrip | main.py:592-596 | well-formed links written one per line are collected back unchanged |
| Publish.PublishProbe | main.py:686-692 | the GET is issued exactly when the HEAD raised, had status 400 or more, or had no `Date` header; the check reads the GET then, the HEAD otherwise |
| Publish.CheckUrlShape | main.py:682-701 | each entry names its link and is an error exactly when the response read is an exception |
| Publish.CheckUrlFromHead | main.py:687-696 | an entry built from the HEAD answer has a status below 400 and an HTTP date |
| Publish.CheckUrlErrors | main.py:686-701 | a link fails only when the GET raised after a HEAD that raised or was unusable, and then with the GET's message |
| Publish.CheckUrlFields | main.py:693-699 | a link whose probe read a response reports that response's status, its URL after redirects, and its `Date`, `Content-Type` and `Content-Length` headers as received |
| Publish.CheckUrl | main.py:682-701 | one link's entry, built from the probe's outcome; CheckUrlShape, CheckUrlFields, CheckUrlFromHead and CheckUrlErrors state it |
| Publish.PublishChecks | main.py:667-702 | no links give no entries; without `requests` there is exactly the one error entry; otherwise one entry per link |
| Publish.PublishChecksInOrder | main.py:681-702 | entry i is the check of link i and names it |
| Publish.ProbeLinks | main.py:667-702 | the loop over the links builds exactly the entries PublishChecks describes |
| Publish.ProbeEach | main.py:681-702 | the `for u in urls` loop appends one entry per link, and entry k is the check of link k |
| Verification.HashCheckOf | main.py:651-664 | a comparison is made exactly when a copy path exists and the file is readable; the record's `recomputed` is the digest of the file's bytes and its `expected` is the recorded hash, and `match` holds exactly when those two are equal |
| Verification.HashCheckErrors | main.py:659-664 | no copy or no file gives the not-found error; a read failure gives "哈希复算失败: " and the message |
| Verification.VerificationOf | main.py:645-702 | the block as a value: the hash check and the publication entries; Verify is proved to build it |
| Verification.UnchangedCopyMatches | main.py:652-658 | a copy holding the hashed bytes passes the check |
| Verification.MatchMeansSameBytes | main.py:652-658 | with a collision-free digest, the check passes exactly when the copy holds the recorded bytes |
| Verification.Verify | main.py:645-702 | the block holds the hash check and the publication entries |
| HtmlEscape.EscNothing | main.py:815 | None and the empty string both print as the empty string |
| HtmlEscape.Esc | main.py:815 | `esc`: `None` as the empty string, then `&`, `<` and `>` replaced in that order; EscRoundTrip states what it guarantees |
| HtmlEscape.EscIsEscapeEach | main.py:815 | chaining the three replacements, `&` first, escapes every character on its own |
| HtmlEscape.EscapeEachNoAngles | main.py:815 | escaped text holds no `<` or `>` |
| HtmlEscape.EscapeEachReferences | main.py:815 | every `&` of the escaped text begins `&amp;`, `&lt;` or `&gt;` |
| HtmlEscape.UnescapeEach | main.py:815 | per-character escaping is undone by unescaping |
| HtmlEscape.EscRoundTrip | main.py:815 | unescaping the escaped value gives it back; the escaped value holds no angle bracket, and each of its `&` begins a reference |
| App.EvidenceApp.constructor | main.py:177-185 | the initial state: no photo, hash or world time; no stocks or links |
| App.EvidenceApp.ChoosePhoto | main.py:352-359 | a non-empty path replaces the photo; a cancelled dialog changes nothing; the hash is kept |
| App.EvidenceApp.ChoosePhotoFresh | main.py:352-359 | the corrected choice: a new photo also clears the hash |
| App.EvidenceApp.DoHash | main.py:375-381 | without a photo it only warns; a readable photo's digest becomes the hash; a failed read leaves the state unchanged |
| App.EvidenceApp.DoTime | main.py:395-406 | the result of `fetch_world_time`, error or not, becomes the world time |
| App.EvidenceApp.DoStocks | main.py:439-473 | without entry boxes it only warns; otherwise the stored stocks become exactly the error-free quotes, even when none is left, and the errors are returned |
| App.EvidenceApp.ClearStocks | main.py:486-489 | the stocks become empty and nothing else changes |
| App.EvidenceApp.CollectPublishUrls | main.py:592-596 | the stored links become the collected links, which are returned |
| App.EvidenceApp.GenerateReport | main.py:616-702 | without a photo, or when hashing raises, there is no report; otherwise a missing hash is computed, a missing world time fetched and the links collected, and the block is built from that state |
| App.FreshPhotoReportMatches | main.py:616-664 | for a freshly chosen photo whose copy holds its bytes, the report's hash check passes |
| App.StaleHashScenario | main.py:352-359 | as written: after photo A is hashed and photo B chosen, B's report fails its hash check |
| App.FreshHashScenario | main.py:352-359 | with the corrected choice, the same sequence gives a passing hash check for B |

## Findings

| source | as written | input that shows it | evidently intended | confidence | as-written member | corrected member |
|---|---|---|---|---|---|---|
| main.py:352-359 | `choose_photo` replaces `photo_path` but keeps `state["hash"]`, and `generate_report` only hashes when no hash is recorded | choose photo A, run `do_hash`, choose photo B, generate the report: the package names B, records A's SHA-256, and its own hash check reports `match: false` for the correct copy of B | choosing a photo forgets the previous photo's hash, so the report hashes the photo it packages | medium, not executed | App.StaleHashScenario | App.EvidenceApp.ChoosePhotoFresh |

## Left out

- Text.Strip: its postcondition gives the ends and the empty case only; that the result is exactly the text between the leading and trailing whitespace is the lemma Text.StripIsSlice, because as a postcondition it makes every proof that mentions `strip()` too costly for the solver.
- Text.IsSpace, Filenames.IsAlnum, Text.Lower, Text.Upper: character classes and case mapping cover ASCII (plus CPython's whitespace set); full Unicode tables are not modelled.
- Json: numbers are integers; floats are not modelled.
- SHA-256, `datetime.fromisoformat`, `parsedate_to_datetime`, `timestamp()` and `urllib.parse.quote` are parameters, not reimplemented.
- Sessions with `Retry` adapters, timeouts and redirects: an exchange's outcome is the final result after the transport's retries.
- StockQuote.CollectQuotes: the `except` branch at main.py:469-470 is not modelled. The model treats URL encoding (`quote(sym)`, main.py:156, a function parameter here) and the status and log display as operations that cannot fail. In the source, `quote` runs before `fetch_stock_quote`'s own `try` and raises for a symbol it cannot encode as UTF-8, such as one with a lone surrogate; such a symbol would be reported as `"{symbol}: 获取失败 - {e}"`, which the model does not produce.
- App.EvidenceApp.DoHash: a read that raises in `sha256_file` aborts the handler; the model reports `ReadRaised` and leaves the state unchanged, without modelling the exception object.
- App.EvidenceApp.GenerateReport: each publication link's answer is given as a function of the link, so a link listed twice answers the same both times.
- App.EvidenceApp.GenerateReport: `created_at`, the package directory, the photo copy (`_copy_photo`, given as its result and the file at that path), the writing of `evidence.json`, `report.html` and `report.md`, and opening the browser are not modelled.
- The EXIF reader (`read_exif`, `do_exif`) and the `exif` state entry are not modelled; they depend on Pillow.
- The Tk interface, the Markdown preview, the log, status messages and the busy cursor are not modelled.
- The HTML template beyond `esc`, and the command-line `main`, are not modelled.
- `update_stock_inputs` and `do_stock` are GUI plumbing around `do_stocks`; the entry texts are an input.
