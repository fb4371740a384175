/**
 * `EvidenceApp` (main.py:172-187 and its handlers): the evidence state the handlers fill in,
 * and the order in which `generate_report` completes it before building the verification block.
 */
module App {

  import opened Options
  import opened Http
  import opened WorldTime
  import opened StockQuote
  import opened Publish
  import opened Verification

  /** What `do_hash` did: warned that no photo is chosen, let the read exception escape, or
      stored the digest. */
  datatype HashOutcome = NeedPhoto | ReadRaised | Hashed(digest: string)

  /** What each link answers, in link order. */
  function LinkExchanges(urls: seq<string>, linkAnswer: string -> Exchange): (exs: seq<Exchange>)
    ensures |exs| == |urls|
  {
    seq(|urls|, i requires 0 <= i < |urls| => linkAnswer(urls[i]))
  }

  class EvidenceApp {
    var photoPath: Option<string>
    var hash: Option<string>
    var worldTime: Option<WorldTime>
    var stocks: seq<Quote>
    var publishUrls: seq<string>

    /** The state `__init__` sets up: nothing chosen, computed or collected yet. */
    constructor()
      ensures photoPath == None && hash == None && worldTime == None
      ensures stocks == [] && publishUrls == []
    {
      photoPath := None;
      hash := None;
      worldTime := None;
      stocks := [];
      publishUrls := [];
    }

    /** `if not self.photo_path`. */
    predicate HasPhoto()
      reads this
    {
      photoPath.Some? && photoPath.value != []
    }

    /** `if not self.state.get("hash")`: no hash, or an empty one. */
    predicate HashMissing()
      reads this
    {
      hash.None? || hash.value == []
    }

    /** `choose_photo`, given the path the file dialog returned (empty when cancelled). The
        recorded hash is kept, even though it belongs to the previous photo. */
    method ChoosePhoto(path: string)
      modifies this
      ensures photoPath == if path == [] then old(photoPath) else Some(path)
      ensures hash == old(hash) && worldTime == old(worldTime)
      ensures stocks == old(stocks) && publishUrls == old(publishUrls)
    {
      if path == [] {
        return;
      }
      photoPath := Some(path);
    }

    /** `choose_photo` as evidently intended: a new photo also forgets the hash of the old one,
        so that `generate_report` hashes the photo it copies. */
    method ChoosePhotoFresh(path: string)
      modifies this
      ensures photoPath == if path == [] then old(photoPath) else Some(path)
      ensures hash == if path == [] then old(hash) else None
      ensures worldTime == old(worldTime)
      ensures stocks == old(stocks) && publishUrls == old(publishUrls)
    {
      if path == [] {
        return;
      }
      photoPath := Some(path);
      hash := None;
    }

    /** `do_hash`, given what is at the photo's path and the digest function. Only a readable
        photo changes the state. */
    method DoHash(photo: FileState, sha: seq<bv8> -> string) returns (outcome: HashOutcome)
      modifies this
      ensures !old(HasPhoto()) ==> outcome == NeedPhoto
      ensures old(HasPhoto()) && !photo.Present? ==> outcome == ReadRaised
      ensures old(HasPhoto()) && photo.Present? ==> outcome == Hashed(sha(photo.bytes))
      ensures hash == if outcome.Hashed? then Some(outcome.digest) else old(hash)
      ensures photoPath == old(photoPath) && worldTime == old(worldTime)
      ensures stocks == old(stocks) && publishUrls == old(publishUrls)
    {
      if !HasPhoto() {
        return NeedPhoto;
      }
      if !photo.Present? {
        return ReadRaised;
      }
      var digest := sha(photo.bytes);
      hash := Some(digest);
      outcome := Hashed(digest);
    }

    /** `do_time`: the result of `fetch_world_time`, error or not, is stored. */
    method DoTime(requestsInstalled: bool, exs: seq<Exchange>, lib: DateLib)
      requires |exs| == |Sources|
      modifies this
      ensures worldTime == Some(WorldTimeOf(requestsInstalled, exs, lib))
      ensures photoPath == old(photoPath) && hash == old(hash)
      ensures stocks == old(stocks) && publishUrls == old(publishUrls)
    {
      var data := FetchWorldTime(requestsInstalled, exs, lib);
      worldTime := Some(data);
    }

    /** `do_stocks`, given the texts of the entry boxes and what the quote server answers for
        each. Without entry boxes it only warns; otherwise the stored quotes are replaced, even by
        an empty list, and the error messages are returned for the log. */
    method DoStocks(env: QuoteEnv, entries: seq<string>, answers: seq<Outcome>)
      returns (warned: bool, errors: seq<string>)
      requires |answers| == |entries|
      modifies this
      ensures warned <==> entries == []
      ensures warned ==> stocks == old(stocks) && errors == []
      ensures !warned ==> stocks == Successes(QuoteAttempts(env, entries, answers))
      ensures !warned ==> errors == Failures(QuoteAttempts(env, entries, answers))
      ensures photoPath == old(photoPath) && hash == old(hash)
      ensures worldTime == old(worldTime) && publishUrls == old(publishUrls)
    {
      if entries == [] {
        return true, [];
      }
      var stocksData;
      stocksData, errors := CollectQuotes(env, entries, answers);
      stocks := stocksData;
      warned := false;
    }

    /** `clear_stocks`. */
    method ClearStocks()
      modifies this
      ensures stocks == []
      ensures photoPath == old(photoPath) && hash == old(hash)
      ensures worldTime == old(worldTime) && publishUrls == old(publishUrls)
    {
      stocks := [];
    }

    /** `_collect_publish_urls`, given the text of the publication box. */
    method CollectPublishUrls(text: string) returns (urls: seq<string>)
      modifies this
      ensures urls == PublishUrls(text) && publishUrls == urls
      ensures photoPath == old(photoPath) && hash == old(hash)
      ensures worldTime == old(worldTime) && stocks == old(stocks)
    {
      urls := PublishUrls(text);
      publishUrls := urls;
    }

    /** `generate_report` up to the verification block: without a photo it only warns (None);
        a missing hash is computed first (a read exception aborts the report, None), a missing
        world time is fetched, the links are collected, and the block is built from the state.
        `copied` and `copy` stand for `_copy_photo`'s result and the file at that path, and
        `linkAnswer` for what each publication link answers. */
    method GenerateReport(photo: FileState, sha: seq<bv8> -> string, requestsInstalled: bool,
                          timeExs: seq<Exchange>, lib: DateLib, publishText: string,
                          copied: Option<string>, copy: FileState, linkAnswer: string -> Exchange)
      returns (v: Option<Verification>)
      requires |timeExs| == |Sources|
      modifies this
      ensures v.Some? <==> old(HasPhoto()) && (!old(HashMissing()) || photo.Present?)
      ensures v.Some? ==> hash == (if old(HashMissing()) then Some(sha(photo.bytes)) else old(hash))
      ensures v.Some? ==> worldTime == (if old(worldTime).None? then Some(WorldTimeOf(requestsInstalled, timeExs, lib)) else old(worldTime))
      ensures v.Some? ==> publishUrls == PublishUrls(publishText)
      ensures v.Some? ==> v.value == VerificationOf(copied, copy, hash, sha, requestsInstalled, publishUrls, LinkExchanges(publishUrls, linkAnswer))
      ensures v.None? ==> hash == old(hash) && worldTime == old(worldTime) && publishUrls == old(publishUrls)
      ensures photoPath == old(photoPath) && stocks == old(stocks)
    {
      if !HasPhoto() {
        return None;
      }
      if HashMissing() {
        var outcome := DoHash(photo, sha);
        if outcome == ReadRaised {
          return None;
        }
      }
      if worldTime.None? {
        DoTime(requestsInstalled, timeExs, lib);
      }
      var urls := CollectPublishUrls(publishText);
      var block := Verify(copied, copy, hash, sha, requestsInstalled, urls, LinkExchanges(urls, linkAnswer));
      v := Some(block);
    }
  }

  /** A report made for a freshly chosen and hashed photo, whose copy holds the photo's bytes,
      passes the hash check. */
  method FreshPhotoReportMatches(path: string, bytes: seq<bv8>, sha: seq<bv8> -> string,
                                 requestsInstalled: bool, timeExs: seq<Exchange>, lib: DateLib,
                                 copied: string)
    returns (v: Option<Verification>)
    requires path != [] && copied != []
    requires |timeExs| == |Sources|
    ensures v.Some? && v.value.hashCheck == Compared(sha(bytes), Some(sha(bytes)), true)
  {
    assert PublishUrls("") == [];
    var app := new EvidenceApp();
    app.ChoosePhoto(path);
    v := app.GenerateReport(Present(bytes), sha, requestsInstalled, timeExs, lib, "", Some(copied), Present(bytes), _ => Exchange(Raised(""), Raised("")));
  }

  /** As written: photo A is hashed, photo B is then chosen and the report generated. The
      report keeps A's hash, so for any two photos with different (non-empty) digests its hash
      check fails
      although the copy is exactly the photo the report names. */
  method StaleHashScenario(a: seq<bv8>, b: seq<bv8>, sha: seq<bv8> -> string,
                           requestsInstalled: bool, timeExs: seq<Exchange>, lib: DateLib)
    returns (v: Option<Verification>)
    requires sha(a) != sha(b) && sha(a) != []
    requires |timeExs| == |Sources|
    ensures v.Some? && v.value.hashCheck.Compared? && !v.value.hashCheck.matches
  {
    assert PublishUrls("") == [];
    var app := new EvidenceApp();
    app.ChoosePhoto("a.jpg");
    var _ := app.DoHash(Present(a), sha);
    app.ChoosePhoto("b.jpg");
    assert app.HasPhoto() && app.hash == Some(sha(a)) && !app.HashMissing();
    v := app.GenerateReport(Present(b), sha, requestsInstalled, timeExs, lib, "", Some("b.jpg"), Present(b), _ => Exchange(Raised(""), Raised("")));
    assert v.Some? && app.hash == Some(sha(a));
    assert v.value.hashCheck == HashCheckOf(Some("b.jpg"), Present(b), Some(sha(a)), sha);
  }

  /** The same sequence with the corrected photo choice: the report hashes photo B and its
      check passes. */
  method FreshHashScenario(a: seq<bv8>, b: seq<bv8>, sha: seq<bv8> -> string,
                           requestsInstalled: bool, timeExs: seq<Exchange>, lib: DateLib)
    returns (v: Option<Verification>)
    requires |timeExs| == |Sources|
    ensures v.Some? && v.value.hashCheck == Compared(sha(b), Some(sha(b)), true)
  {
    assert PublishUrls("") == [];
    var app := new EvidenceApp();
    app.ChoosePhotoFresh("a.jpg");
    var _ := app.DoHash(Present(a), sha);
    app.ChoosePhotoFresh("b.jpg");
    v := app.GenerateReport(Present(b), sha, requestsInstalled, timeExs, lib, "", Some("b.jpg"), Present(b), _ => Exchange(Raised(""), Raised("")));
  }
}
