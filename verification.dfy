/**
 * The third-party verification block of `generate_report` (main.py:645-702): the SHA-256 of the
 * copied photo recomputed and compared with the recorded one, and the publication checks.
 */
module Verification {

  import opened Options
  import opened Http
  import opened Publish

  const NotFoundMessage: string := "未找到已复制文件，无法复算哈希"
  const RecomputeFailedPrefix: string := "哈希复算失败: "

  /** What the file system holds at a path: nothing (`os.path.isfile` is false), a file whose
      reading raises, or the bytes of a regular file. */
  datatype FileState = Missing | Unreadable(message: string) | Present(bytes: seq<bv8>)

  /** `verification["hash_check"]`. */
  datatype HashCheck =
    | Compared(recomputed: string, expected: Option<string>, matches: bool)
    | HashError(error: string)

  /** The hash check, given the path `_copy_photo` returned (None when copying failed), what is
      at that path, the recorded hash, and the SHA-256 hex digest function. */
  function HashCheckOf(copied: Option<string>, file: FileState, expected: Option<string>,
                       sha: seq<bv8> -> string): (h: HashCheck)
    ensures h.Compared? <==> copied.Some? && copied.value != [] && file.Present?
    ensures h.Compared? ==> h.recomputed == sha(file.bytes) && h.expected == expected
    ensures h.Compared? ==> (h.matches <==> h.expected == Some(h.recomputed))
  {
    if copied.Some? && copied.value != [] && !file.Missing? then
      match file
      case Unreadable(m) => HashError(RecomputeFailedPrefix + m)
      case Present(b) =>
        var digest := sha(b);
        Compared(digest, expected, Some(digest) == expected)
    else HashError(NotFoundMessage)
  }

  /** Without a copy on disk the check says so; a copy that cannot be read reports why. */
  lemma HashCheckErrors(copied: Option<string>, file: FileState, expected: Option<string>,
                        sha: seq<bv8> -> string)
    ensures copied.None? || copied == Some("") || file.Missing? ==>
              HashCheckOf(copied, file, expected, sha) == HashError(NotFoundMessage)
    ensures copied.Some? && copied.value != [] && file.Unreadable? ==>
              HashCheckOf(copied, file, expected, sha) == HashError(RecomputeFailedPrefix + file.message)
  {
  }

  /** A copy holding the very bytes whose hash was recorded passes the check. */
  lemma UnchangedCopyMatches(path: string, photo: seq<bv8>, sha: seq<bv8> -> string)
    requires path != []
    ensures HashCheckOf(Some(path), Present(photo), Some(sha(photo)), sha) ==
              Compared(sha(photo), Some(sha(photo)), true)
  {
  }

  /** With a collision-free digest, a passing check means the copy holds the recorded bytes. */
  lemma MatchMeansSameBytes(path: string, copy: seq<bv8>, photo: seq<bv8>, sha: seq<bv8> -> string)
    requires forall x: seq<bv8>, y: seq<bv8> :: sha(x) == sha(y) ==> x == y
    requires path != []
    ensures HashCheckOf(Some(path), Present(copy), Some(sha(photo)), sha).matches <==> copy == photo
  {
  }

  /** The `verification` dictionary stored in the evidence metadata. */
  datatype Verification = Verification(hashCheck: HashCheck, publishChecks: seq<PublishCheck>)

  function VerificationOf(copied: Option<string>, file: FileState, expected: Option<string>,
                          sha: seq<bv8> -> string, requestsInstalled: bool, urls: seq<string>,
                          exs: seq<Exchange>): Verification
    requires |exs| == |urls|
  {
    Verification(HashCheckOf(copied, file, expected, sha), PublishChecks(requestsInstalled, urls, exs))
  }

  /** Builds the block the way `generate_report` does: the hash check, then the link loop. */
  method Verify(copied: Option<string>, file: FileState, expected: Option<string>,
                sha: seq<bv8> -> string, requestsInstalled: bool, urls: seq<string>,
                exs: seq<Exchange>) returns (v: Verification)
    requires |exs| == |urls|
    ensures v == VerificationOf(copied, file, expected, sha, requestsInstalled, urls, exs)
  {
    var hashCheck := HashCheckOf(copied, file, expected, sha);
    var checks := ProbeLinks(requestsInstalled, urls, exs);
    v := Verification(hashCheck, checks);
  }
}
