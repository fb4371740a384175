/**
 * The Python `str` operations the evidence engine relies on, written out with
 * CPython's character classes: `strip()`, `splitlines()`, `split(',')`,
 * `lower()`/`upper()` and `replace` of a single character.
 */
module Text {

  /** `str.isspace()` for one character: the characters CPython's `strip()` removes. */
  predicate IsSpace(c: char)
  {
    c == ' ' || ('\t' <= c <= '\r') || ('\U{1C}' <= c <= '\U{1F}') || c == '\U{85}' || c == '\U{A0}' ||
    c == '\U{1680}' || ('\U{2000}' <= c <= '\U{200A}') || c == '\U{2028}' || c == '\U{2029}' ||
    c == '\U{202F}' || c == '\U{205F}' || c == '\U{3000}'
  }

  /** The line boundaries of `str.splitlines()` (`\r\n` is handled as one boundary by SplitLines). */
  predicate IsLineBreak(c: char)
  {
    ('\n' <= c <= '\r') || ('\U{1C}' <= c <= '\U{1E}') || c == '\U{85}' || c == '\U{2028}' || c == '\U{2029}'
  }

  predicate AllSpace(s: string)
  {
    forall i :: 0 <= i < |s| ==> IsSpace(s[i])
  }

  /** The number of whitespace characters `s` starts with: what `lstrip()` removes. */
  function Leading(s: string): nat
  {
    |s| - |StripLeft(s)|
  }

  /** `s.lstrip()`: a suffix of `s`, preceded only by whitespace, not starting with whitespace. */
  function StripLeft(s: string): (r: string)
    ensures |r| <= |s| && r == s[|s| - |r|..]
    ensures AllSpace(s[..|s| - |r|])
    ensures r == [] || !IsSpace(r[0])
  {
    if s != [] && IsSpace(s[0]) then
      var r := StripLeft(s[1..]);
      LeftStep(s, r);
      r
    else s
  }

  /** `s.rstrip()`: a prefix of `s`, followed only by whitespace, not ending with whitespace. */
  function StripRight(s: string): (r: string)
    ensures |r| <= |s| && r == s[..|r|]
    ensures AllSpace(s[|r|..])
    ensures r == [] || !IsSpace(r[|r| - 1])
  {
    if s != [] && IsSpace(s[|s| - 1]) then
      var r := StripRight(s[..|s| - 1]);
      RightStep(s, r);
      r
    else s
  }

  /** One step of `lstrip()`: a leading whitespace character joins the whitespace that the rest
      of the text starts with. */
  lemma LeftStep(s: string, r: string)
    requires s != [] && IsSpace(s[0])
    requires |r| <= |s| - 1 && r == s[1..][|s| - 1 - |r|..] && AllSpace(s[1..][..|s| - 1 - |r|])
    ensures r == s[|s| - |r|..] && AllSpace(s[..|s| - |r|])
  {
    var n := |s| - 1 - |r|;
    assert s[1..][n..] == s[n + 1..];
    var t := s[..n + 1];
    forall i | 0 <= i < |t|
      ensures IsSpace(t[i])
    {
      if i > 0 {
        assert t[i] == s[1..][..n][i - 1];
      }
    }
  }

  /** One step of `rstrip()`: a trailing whitespace character joins the whitespace that the rest
      of the text ends with. */
  lemma RightStep(s: string, r: string)
    requires s != [] && IsSpace(s[|s| - 1])
    requires |r| <= |s| - 1 && r == s[..|s| - 1][..|r|] && AllSpace(s[..|s| - 1][|r|..])
    ensures r == s[..|r|] && AllSpace(s[|r|..])
  {
    var t := s[|r|..];
    forall j | 0 <= j < |t|
      ensures IsSpace(t[j])
    {
      if j < |t| - 1 {
        assert t[j] == s[..|s| - 1][|r|..][j];
      }
    }
  }

  /** `s.strip()`. */
  function Strip(s: string): (r: string)
    ensures |r| <= |s|
    ensures r == [] <==> AllSpace(s)
    ensures r != [] ==> !IsSpace(r[0]) && !IsSpace(r[|r| - 1])
  {
    var l := StripLeft(s);
    var r := StripRight(l);
    assert r == [] ==> AllSpace(s) by {
      if r == [] {
        assert l == [];
        assert s[..|s| - |l|] == s;
      }
    }
    r
  }

  /** `strip()` returns the stretch of `s` that follows its leading whitespace, and only
      whitespace comes after that stretch: nothing else is removed. */
  lemma StripIsSlice(s: string)
    ensures Leading(s) + |Strip(s)| <= |s|
    ensures Strip(s) == s[Leading(s)..Leading(s) + |Strip(s)|]
    ensures AllSpace(s[..Leading(s)]) && AllSpace(s[Leading(s) + |Strip(s)|..])
  {
    StripPieces(s, StripLeft(s), Strip(s));
  }

  /** The two halves of `strip()` put together: `l` is `lstrip()` and `r` is its `rstrip()`. */
  lemma StripPieces(s: string, l: string, r: string)
    requires l == StripLeft(s) && r == StripRight(l)
    ensures Leading(s) + |r| <= |s|
    ensures r == s[Leading(s)..Leading(s) + |r|]
    ensures AllSpace(s[..Leading(s)]) && AllSpace(s[Leading(s) + |r|..])
  {
    TrimmedSlice(s, l, r, Leading(s));
  }

  /** A suffix `l` of `s` after `i` whitespace characters, cut to a prefix `r` before
      whitespace, is the slice of `s` from `i` of length `|r|`, with whitespace on both sides. */
  lemma TrimmedSlice(s: string, l: string, r: string, i: nat)
    requires |l| <= |s| && i == |s| - |l| && l == s[i..] && AllSpace(s[..i])
    requires |r| <= |l| && r == l[..|r|] && AllSpace(l[|r|..])
    ensures i + |r| <= |s| && r == s[i..i + |r|]
    ensures AllSpace(s[..i]) && AllSpace(s[i + |r|..])
  {
    SuffixSlices(s, i, |r|);
  }

  /** The first `n` characters of the suffix from `i` are the slice `i..i+n`, and what follows
      them is the suffix from `i+n`. */
  lemma SuffixSlices(s: string, i: nat, n: nat)
    requires i + n <= |s|
    ensures s[i..][..n] == s[i..i + n] && s[i..][n..] == s[i + n..]
  {
  }

  /** Stripping a string with no whitespace at either end changes nothing. */
  lemma StripTrimmed(s: string)
    requires s == [] || (!IsSpace(s[0]) && !IsSpace(s[|s| - 1]))
    ensures Strip(s) == s
  {
  }

  /** `strip()` keeps a stretch of the original: every character it returns occurs in `s`. */
  lemma StripInside(s: string)
    ensures forall i :: 0 <= i < |Strip(s)| ==> Strip(s)[i] in s
  {
    StripIsSlice(s);
    SliceInside(s, Strip(s), Leading(s));
  }

  /** Every character of a slice occurs in the whole. */
  lemma SliceInside(s: string, t: string, n: nat)
    requires n + |t| <= |s| && t == s[n..n + |t|]
    ensures forall i :: 0 <= i < |t| ==> t[i] in s
  {
    forall i | 0 <= i < |t|
      ensures t[i] in s
    {
      assert t[i] == s[n + i];
    }
  }

  /** Stripping text that has no whitespace at its ends, followed by whitespace, gives back the text. */
  lemma StripTrailing(h: string, ws: string)
    requires h != [] && !IsSpace(h[0]) && !IsSpace(h[|h| - 1])
    requires AllSpace(ws)
    ensures Strip(h + ws) == h
  {
    assert (h + ws)[0] == h[0];
    assert StripLeft(h + ws) == h + ws;
    StripRightSpaces(h, ws);
  }

  /** `rstrip()` removes trailing whitespace down to a character that is not whitespace. */
  lemma {:induction false} StripRightSpaces(h: string, ws: string)
    requires h != [] && !IsSpace(h[|h| - 1])
    requires AllSpace(ws)
    ensures StripRight(h + ws) == h
    decreases |ws|
  {
    if ws == [] {
      assert h + ws == h;
    } else {
      var s := h + ws;
      assert s[|s| - 1] == ws[|ws| - 1];
      assert s[..|s| - 1] == h + ws[..|ws| - 1];
      StripRightSpaces(h, ws[..|ws| - 1]);
    }
  }

  /** `strip()` is idempotent. */
  lemma StripIdempotent(s: string)
    ensures Strip(Strip(s)) == Strip(s)
  {
    StripTrimmed(Strip(s));
  }

  function LowerChar(c: char): char
  {
    if 'A' <= c <= 'Z' then (c as int + 32) as char else c
  }

  function UpperChar(c: char): char
  {
    if 'a' <= c <= 'z' then (c as int - 32) as char else c
  }

  /** `s.lower()` over ASCII letters. */
  function Lower(s: string): (r: string)
    ensures |r| == |s|
    ensures forall i :: 0 <= i < |s| ==> r[i] == LowerChar(s[i])
  {
    if s == [] then [] else [LowerChar(s[0])] + Lower(s[1..])
  }

  /** `s.upper()` over ASCII letters. */
  function Upper(s: string): (r: string)
    ensures |r| == |s|
    ensures forall i :: 0 <= i < |s| ==> r[i] == UpperChar(s[i])
  {
    if s == [] then [] else [UpperChar(s[0])] + Upper(s[1..])
  }

  /** `s.replace(c, rep)` for a one-character pattern: every occurrence of `c` becomes `rep`. */
  function ReplaceChar(s: string, c: char, rep: string): (r: string)
    ensures c !in rep ==> c !in r
    ensures c !in s ==> r == s
  {
    if s == [] then [] else (if s[0] == c then rep else [s[0]]) + ReplaceChar(s[1..], c, rep)
  }

  lemma {:induction false} ReplaceCharConcat(a: string, b: string, c: char, rep: string)
    ensures ReplaceChar(a + b, c, rep) == ReplaceChar(a, c, rep) + ReplaceChar(b, c, rep)
  {
    if a == [] {
      assert a + b == b;
    } else {
      assert (a + b)[1..] == a[1..] + b;
      ReplaceCharConcat(a[1..], b, c, rep);
    }
  }

  /** Joins `parts` with `sep` between consecutive parts (`sep.join(parts)`). */
  function Join(parts: seq<string>, sep: char): string
  {
    if parts == [] then []
    else if |parts| == 1 then parts[0]
    else parts[0] + [sep] + Join(parts[1..], sep)
  }

  /** `s.split(sep)`: the pieces between occurrences of `sep`, always at least one. */
  function Split(s: string, sep: char): (r: seq<string>)
    ensures |r| >= 1
    ensures forall k :: 0 <= k < |r| ==> sep !in r[k]
  {
    if s == [] then [[]]
    else
      var rest := Split(s[1..], sep);
      if s[0] == sep then [[]] + rest else [[s[0]] + rest[0]] + rest[1..]
  }

  /** Joining the pieces of a split with the separator gives back the original text. */
  lemma {:induction false} SplitJoin(s: string, sep: char)
    ensures Join(Split(s, sep), sep) == s
  {
    if s != [] {
      var rest := Split(s[1..], sep);
      SplitJoin(s[1..], sep);
      if s[0] == sep {
        assert Split(s, sep)[1..] == rest;
      } else {
        var r := Split(s, sep);
        if |rest| == 1 {
          assert r == [[s[0]] + rest[0]];
        } else {
          assert r[1..] == rest[1..];
          assert Join(rest, sep) == rest[0] + [sep] + Join(rest[1..], sep);
        }
      }
    }
  }

  /** `s.splitlines()`: the lines of `s` without their boundaries (`\r\n` counts as one);
      no trailing empty line. */
  function SplitLines(s: string): (r: seq<string>)
    ensures |r| <= |s|
    ensures r == [] <==> s == []
    ensures forall k, i :: 0 <= k < |r| && 0 <= i < |r[k]| ==> !IsLineBreak(r[k][i])
    decreases |s|
  {
    if s == [] then []
    else if IsLineBreak(s[0]) then
      var rest := if s[0] == '\r' && |s| > 1 && s[1] == '\n' then s[2..] else s[1..];
      [[]] + SplitLines(rest)
    else
      var tail := SplitLines(s[1..]);
      if tail == [] then [[s[0]]] else [[s[0]] + tail[0]] + tail[1..]
  }

  /** A line followed by one boundary is split off whole: `\r\n` is a single boundary, and a lone
      `\r` (not followed by `\n`) or any other boundary character ends the line by itself. */
  lemma {:induction false} SplitLinesBreak(p: string, b: string, rest: string)
    requires forall i :: 0 <= i < |p| ==> !IsLineBreak(p[i])
    requires b == "\r\n" || (|b| == 1 && IsLineBreak(b[0]) && !(b == "\r" && rest != [] && rest[0] == '\n'))
    ensures SplitLines(p + b + rest) == [p] + SplitLines(rest)
  {
    var s := p + b + rest;
    if p == [] {
      assert s == b + rest;
      if b == "\r\n" {
        assert s[2..] == rest;
      } else {
        assert s[1..] == rest;
      }
    } else {
      assert s[0] == p[0];
      assert s[1..] == p[1..] + b + rest;
      SplitLinesBreak(p[1..], b, rest);
      assert [p[0]] + p[1..] == p;
    }
  }

  /** A non-empty text without a boundary is a single line. */
  lemma {:induction false} SplitLinesSingle(p: string)
    requires p != []
    requires forall i :: 0 <= i < |p| ==> !IsLineBreak(p[i])
    ensures SplitLines(p) == [p]
    decreases |p|
  {
    if |p| > 1 {
      SplitLinesSingle(p[1..]);
      assert [p[0]] + p[1..] == p;
    } else {
      assert p[1..] == [];
      assert [p[0]] == p;
    }
  }
}
