/**
 * `esc` of the HTML report builder (main.py:813-815): a missing or empty value becomes the
 * empty string, and `&`, `<`, `>` are replaced by their character references, `&` first.
 */
module HtmlEscape {

  import opened Options
  import opened Text

  /** `(s or "").replace("&", "&amp;").replace("<", "&lt;").replace(">", "&gt;")`. */
  function Esc(s: Option<string>): string
  {
    var t := if s.Some? then s.value else "";
    ReplaceChar(ReplaceChar(ReplaceChar(t, '&', "&amp;"), '<', "&lt;"), '>', "&gt;")
  }

  /** The reference reading of the escape: each character on its own. */
  function EscapeChar(c: char): string
  {
    if c == '&' then "&amp;" else if c == '<' then "&lt;" else if c == '>' then "&gt;" else [c]
  }

  function EscapeEach(t: string): string
  {
    if t == [] then [] else EscapeChar(t[0]) + EscapeEach(t[1..])
  }

  /** Undoes the three character references; every other character stands for itself. */
  function Unescape(s: string): string
    decreases |s|
  {
    if s == [] then []
    else if |s| >= 5 && s[..5] == "&amp;" then "&" + Unescape(s[5..])
    else if |s| >= 4 && s[..4] == "&lt;" then "<" + Unescape(s[4..])
    else if |s| >= 4 && s[..4] == "&gt;" then ">" + Unescape(s[4..])
    else [s[0]] + Unescape(s[1..])
  }

  /** A missing value and an empty one both print as nothing. */
  lemma EscNothing()
    ensures Esc(None) == "" && Esc(Some("")) == ""
  {
  }

  /** The chained replacement of a single character is that character's reference. */
  lemma EscOneChar(c: char)
    ensures Esc(Some([c])) == EscapeChar(c)
  {
    var a1 := ReplaceChar([c], '&', "&amp;");
    assert a1 == if c == '&' then "&amp;" else [c];
    var a2 := ReplaceChar(a1, '<', "&lt;");
    assert a2 == if c == '&' then "&amp;" else if c == '<' then "&lt;" else [c];
  }

  /** The chained replacement works piece by piece. */
  lemma EscConcat(a: string, b: string)
    ensures Esc(Some(a + b)) == Esc(Some(a)) + Esc(Some(b))
  {
    ReplaceCharConcat(a, b, '&', "&amp;");
    var a1, b1 := ReplaceChar(a, '&', "&amp;"), ReplaceChar(b, '&', "&amp;");
    ReplaceCharConcat(a1, b1, '<', "&lt;");
    var a2, b2 := ReplaceChar(a1, '<', "&lt;"), ReplaceChar(b1, '<', "&lt;");
    ReplaceCharConcat(a2, b2, '>', "&gt;");
  }

  /** Chaining the three replacements, `&` first, escapes every character on its own: no
      reference produced by one replacement is touched by a later one. */
  lemma {:induction false} EscIsEscapeEach(t: string)
    ensures Esc(Some(t)) == EscapeEach(t)
  {
    if t != [] {
      assert t == [t[0]] + t[1..];
      EscConcat([t[0]], t[1..]);
      EscOneChar(t[0]);
      EscIsEscapeEach(t[1..]);
    }
  }

  /** The escaped text contains no angle bracket, so it cannot open or close a tag. */
  lemma {:induction false} EscapeEachNoAngles(t: string)
    ensures '<' !in EscapeEach(t) && '>' !in EscapeEach(t)
  {
    if t != [] {
      EscapeEachNoAngles(t[1..]);
      assert EscapeEach(t) == EscapeChar(t[0]) + EscapeEach(t[1..]);
    }
  }

  lemma {:induction false} UnescapeEach(t: string)
    ensures Unescape(EscapeEach(t)) == t
  {
    if t != [] {
      var c := t[0];
      var e := EscapeEach(t[1..]);
      var s := EscapeChar(c) + e;
      assert EscapeEach(t) == s;
      UnescapeEach(t[1..]);
      if c == '&' {
        assert s[..5] == "&amp;" && s[5..] == e;
        assert Unescape(s) == "&" + Unescape(e);
      } else if c == '<' {
        assert s[..4] == "&lt;" && s[4..] == e;
        assert !(|s| >= 5 && s[..5] == "&amp;") by {
          if |s| >= 5 { assert s[..5][1] == 'l'; }
        }
        assert Unescape(s) == "<" + Unescape(e);
      } else if c == '>' {
        assert s[..4] == "&gt;" && s[4..] == e;
        assert !(|s| >= 5 && s[..5] == "&amp;") by {
          if |s| >= 5 { assert s[..5][1] == 'g'; }
        }
        assert s[..4] != "&lt;" by { assert s[..4][1] == 'g'; }
        assert Unescape(s) == ">" + Unescape(e);
      } else {
        assert s[0] == c && s[1..] == e;
        assert !(|s| >= 5 && s[..5] == "&amp;") by {
          if |s| >= 5 { assert s[..5][0] == c; }
        }
        assert !(|s| >= 4 && (s[..4] == "&lt;" || s[..4] == "&gt;")) by {
          if |s| >= 4 { assert s[..4][0] == c; }
        }
        assert Unescape(s) == [c] + Unescape(e);
      }
      assert t == [c] + t[1..];
    }
  }

  /** `s` begins with one of the three character references. */
  predicate StartsReference(s: string)
  {
    (|s| >= 5 && s[..5] == "&amp;") || (|s| >= 4 && (s[..4] == "&lt;" || s[..4] == "&gt;"))
  }

  /** Every `&` of the escaped text begins a character reference, so none is left bare. */
  lemma {:induction false} EscapeEachReferences(t: string)
    ensures forall i :: 0 <= i < |EscapeEach(t)| && EscapeEach(t)[i] == '&' ==> StartsReference(EscapeEach(t)[i..])
  {
    if t != [] {
      var h := EscapeChar(t[0]);
      var r := EscapeEach(t[1..]);
      var e := h + r;
      assert EscapeEach(t) == e;
      EscapeEachReferences(t[1..]);
      forall i | 0 <= i < |e| && e[i] == '&'
        ensures StartsReference(e[i..])
      {
        if i < |h| {
          assert h == "&amp;" || h == "&lt;" || h == "&gt;";
          assert i == 0;
          assert e[i..][..|h|] == h;
        } else {
          assert e[i..] == r[i - |h|..];
          assert r[i - |h|] == '&';
        }
      }
    }
  }

  /** The escape loses nothing: unescaping the report text gives the value back. */
  lemma EscRoundTrip(t: string)
    ensures Unescape(Esc(Some(t))) == t
    ensures '<' !in Esc(Some(t)) && '>' !in Esc(Some(t))
    ensures forall i :: 0 <= i < |Esc(Some(t))| && Esc(Some(t))[i] == '&' ==> StartsReference(Esc(Some(t))[i..])
  {
    EscIsEscapeEach(t);
    UnescapeEach(t);
    EscapeEachNoAngles(t);
    EscapeEachReferences(t);
  }
}
