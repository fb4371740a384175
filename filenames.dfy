/** `safe_filename` (main.py:32-33): the name a photo is copied under inside a package directory. */
module Filenames {

  import opened Text

  /** `str.isalnum()` over ASCII letters and digits. */
  predicate IsAlnum(c: char)
  {
    ('a' <= c <= 'z') || ('A' <= c <= 'Z') || ('0' <= c <= '9')
  }

  /** The characters `safe_filename` keeps. */
  predicate Allowed(c: char)
  {
    IsAlnum(c) || c == '-' || c == '_' || c == '.'
  }

  /** `sub` can be obtained from `s` by deleting characters. */
  predicate IsSubsequence(sub: string, s: string)
    decreases |s|
  {
    if sub == [] then true
    else if s == [] then false
    else if sub[0] == s[0] then IsSubsequence(sub[1..], s[1..])
    else IsSubsequence(sub, s[1..])
  }

  /** The comprehension of `safe_filename`: the allowed characters of `s`, in order. */
  function KeepAllowed(s: string): (r: string)
    ensures forall i :: 0 <= i < |r| ==> Allowed(r[i])
    ensures IsSubsequence(r, s)
    ensures forall c :: Allowed(c) ==> multiset(r)[c] == multiset(s)[c]
  {
    if s == [] then []
    else
      var rest := KeepAllowed(s[1..]);
      assert s == [s[0]] + s[1..];
      if Allowed(s[0]) then [s[0]] + rest else rest
  }

  /** `safe_filename(name)`: only alphanumerics, `-`, `_` and `.` remain, each as often as in
      `name` and in the same order; nothing is substituted. */
  function SafeFilename(name: string): (r: string)
    ensures forall i :: 0 <= i < |r| ==> Allowed(r[i])
    ensures IsSubsequence(r, name)
    ensures forall c :: Allowed(c) ==> multiset(r)[c] == multiset(name)[c]
  {
    var kept := KeepAllowed(name);
    // The trailing `.strip()` is a no-op: no allowed character is whitespace.
    KeptIsTrimmed(kept);
    Strip(kept)
  }

  lemma AllowedNotSpace(c: char)
    requires Allowed(c)
    ensures !IsSpace(c)
  {
  }

  lemma KeptIsTrimmed(kept: string)
    requires forall i :: 0 <= i < |kept| ==> Allowed(kept[i])
    ensures Strip(kept) == kept
  {
    if kept != [] {
      AllowedNotSpace(kept[0]);
      AllowedNotSpace(kept[|kept| - 1]);
    }
    StripTrimmed(kept);
  }

  lemma {:induction false} KeepAllowedFixpoint(s: string)
    requires forall i :: 0 <= i < |s| ==> Allowed(s[i])
    ensures KeepAllowed(s) == s
  {
    if s != [] {
      KeepAllowedFixpoint(s[1..]);
    }
  }

  /** Sanitising an already sanitised name changes nothing. */
  lemma SafeFilenameIdempotent(name: string)
    ensures SafeFilename(SafeFilename(name)) == SafeFilename(name)
  {
    var once := KeepAllowed(name);
    KeptIsTrimmed(once);
    assert SafeFilename(name) == once;
    KeepAllowedFixpoint(once);
    assert SafeFilename(once) == once;
  }
}
