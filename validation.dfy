/** The string checks the bulk importer applies to every cell: `str.strip()`,
    `str.isdigit()` and the length tests built on them. Whitespace is its ASCII
    part and digits are '0'..'9' (see README). */
module Validation {

  /** An ASCII character `strip()` removes: space, tab, newline, carriage
      return, vertical tab, form feed and the separators U+001C .. U+001F. */
  predicate IsSpace(c: char) {
    c == ' ' || '\t' <= c <= '\r' || '\U{1C}' <= c <= '\U{1F}'
  }

  predicate IsDigit(c: char) {
    '0' <= c <= '9'
  }

  predicate AllDigits(s: string) {
    forall i :: 0 <= i < |s| ==> IsDigit(s[i])
  }

  predicate AllSpace(s: string) {
    forall i :: 0 <= i < |s| ==> IsSpace(s[i])
  }

  /** `s.isdigit()`: false on the empty string. */
  predicate IsDigits(s: string) {
    |s| > 0 && AllDigits(s)
  }

  /** Neither end of `s` is whitespace. */
  predicate Trimmed(s: string) {
    s == [] || (!IsSpace(s[0]) && !IsSpace(s[|s| - 1]))
  }

  /** `s.lstrip()`. */
  function TrimStart(s: string): string {
    if |s| > 0 && IsSpace(s[0]) then TrimStart(s[1..]) else s
  }

  /** `s.rstrip()`. */
  function TrimEnd(s: string): string {
    if |s| > 0 && IsSpace(s[|s| - 1]) then TrimEnd(s[..|s| - 1]) else s
  }

  /** `s.strip()`: whitespace is removed from either end until neither end
      is whitespace. */
  function Strip(s: string): string {
    if |s| > 0 && IsSpace(s[0]) then Strip(s[1..])
    else if |s| > 0 && IsSpace(s[|s| - 1]) then Strip(s[..|s| - 1])
    else s
  }

  /** `strip()` is `rstrip()` after `lstrip()`. */
  lemma {:induction false} StripByEnds(s: string)
    ensures Strip(s) == TrimEnd(TrimStart(s))
  {
    if |s| > 0 && IsSpace(s[0]) {
      StripByEnds(s[1..]);
    } else if |s| > 0 && IsSpace(s[|s| - 1]) {
      var p := s[..|s| - 1];
      StripByEnds(p);
      assert TrimStart(p) == p by {
        if |p| > 0 {
          assert p[0] == s[0];
        }
      }
    }
  }

  /** `lstrip()` gives the longest suffix of `s` that does not start with
      whitespace: what it drops is all whitespace. */
  lemma {:induction false} TrimStartSpec(s: string)
    ensures |TrimStart(s)| <= |s| && TrimStart(s) == s[|s| - |TrimStart(s)|..]
    ensures AllSpace(s[..|s| - |TrimStart(s)|])
    ensures TrimStart(s) == [] || !IsSpace(TrimStart(s)[0])
  {
    if |s| > 0 && IsSpace(s[0]) {
      var t := s[1..];
      TrimStartSpec(t);
      var r := TrimStart(t);
      assert TrimStart(s) == r;
      var k := |t| - |r|;
      assert s[k + 1..] == t[k..];
      assert s[..k + 1] == [s[0]] + t[..k];
      assert AllSpace(t[..k]);
    } else {
      assert s[..0] == [];
    }
  }

  /** `rstrip()` gives the longest prefix of `s` that does not end with
      whitespace: what it drops is all whitespace. */
  lemma {:induction false} TrimEndSpec(s: string)
    ensures |TrimEnd(s)| <= |s| && TrimEnd(s) == s[..|TrimEnd(s)|]
    ensures AllSpace(s[|TrimEnd(s)|..])
    ensures TrimEnd(s) == [] || !IsSpace(TrimEnd(s)[|TrimEnd(s)| - 1])
  {
    if |s| > 0 && IsSpace(s[|s| - 1]) {
      var p := s[..|s| - 1];
      TrimEndSpec(p);
      var r := TrimEnd(p);
      assert TrimEnd(s) == r;
      assert s[..|r|] == p[..|r|];
      assert s[|r|..] == p[|r|..] + [s[|s| - 1]];
      assert AllSpace(p[|r|..]);
    } else {
      assert s[|s|..] == [];
    }
  }

  /** `strip()` removes whitespace at the ends and nothing else: the result
      has no whitespace at either end, and it is a slice of `s` with only
      whitespace before and after it. */
  lemma StripSpec(s: string)
    ensures Trimmed(Strip(s))
    ensures exists i :: 0 <= i <= |s| - |Strip(s)| && s[i..i + |Strip(s)|] == Strip(s)
                        && AllSpace(s[..i]) && AllSpace(s[i + |Strip(s)|..])
  {
    StripByEnds(s);
    var t := TrimStart(s);
    var r := TrimEnd(t);
    TrimStartSpec(s);
    TrimEndSpec(t);
    var i := |s| - |t|;
    assert t == s[i..];
    assert s[i..i + |r|] == r;
    assert s[i + |r|..] == t[|r|..];
    assert AllSpace(s[..i]) && AllSpace(s[i + |r|..]);
    if r != [] {
      assert r[0] == t[0];
    }
  }

  /** A code is accepted when its stripped text is exactly 11 digits. */
  predicate ValidCode(s: string) {
    |s| == 11 && IsDigits(s)
  }

  /** A year is accepted when its stripped text is digits and exactly 4 long. */
  predicate ValidYear(s: string) {
    IsDigits(s) && |s| == 4
  }

  /** Stripping text that has no whitespace at either end changes nothing. */
  lemma StripTrimmed(s: string)
    requires Trimmed(s)
    ensures Strip(s) == s
  {
  }

  /** Stripping twice is stripping once: the record fields the importer stores
      are already in the form a second import would produce. */
  lemma StripIdempotent(s: string)
    ensures Strip(Strip(s)) == Strip(s)
  {
    StripSpec(s);
    StripTrimmed(Strip(s));
  }

  /** Whitespace around a cell never decides the checks. */
  lemma {:induction false} StripIgnoresPadding(pre: string, s: string, post: string)
    requires AllSpace(pre) && AllSpace(post)
    ensures Strip(pre + s + post) == Strip(s)
  {
    StripByEnds(pre + s + post);
    StripByEnds(s);
    TrimStartPadding(pre, s + post);
    assert pre + s + post == pre + (s + post);
    var t := TrimStart(s);
    TrimStartSpec(s);
    if t == [] {
      assert AllSpace(s[..|s|]);
      assert s[..|s|] == s;
      AllSpaceConcat(s, post);
      TrimStartAllSpace(s + post);
      TrimStartAllSpace(s);
    } else {
      assert s == s[..|s| - |t|] + t;
      TrimStartKeepsSuffix(s, post);
      TrimEndPadding(t, post);
    }
  }

  lemma AllSpaceConcat(a: string, b: string)
    requires AllSpace(a) && AllSpace(b)
    ensures AllSpace(a + b)
  {
  }

  lemma {:induction false} TrimStartAllSpace(s: string)
    requires AllSpace(s)
    ensures TrimStart(s) == []
  {
    if |s| > 0 {
      TrimStartAllSpace(s[1..]);
    }
  }

  lemma {:induction false} TrimStartPadding(pre: string, s: string)
    requires AllSpace(pre)
    ensures TrimStart(pre + s) == TrimStart(s)
  {
    if |pre| > 0 {
      var u := pre + s;
      assert u[0] == pre[0] && IsSpace(pre[0]);
      assert u[1..] == pre[1..] + s;
      assert AllSpace(pre[1..]);
      TrimStartPadding(pre[1..], s);
      assert TrimStart(u) == TrimStart(u[1..]);
    } else {
      assert pre + s == s;
    }
  }

  /** When `s` holds a non-space character, trailing text does not change where
      `lstrip()` stops. */
  lemma {:induction false} TrimStartKeepsSuffix(s: string, post: string)
    requires TrimStart(s) != []
    ensures TrimStart(s + post) == TrimStart(s) + post
  {
    if IsSpace(s[0]) {
      assert (s + post)[1..] == s[1..] + post;
      TrimStartKeepsSuffix(s[1..], post);
    }
  }

  lemma {:induction false} TrimEndPadding(s: string, post: string)
    requires AllSpace(post)
    ensures TrimEnd(s + post) == TrimEnd(s)
  {
    if |post| > 0 {
      var p := post[..|post| - 1];
      var u := s + post;
      assert u[|u| - 1] == post[|post| - 1] && IsSpace(post[|post| - 1]);
      assert u[..|u| - 1] == s + p;
      assert AllSpace(p);
      TrimEndPadding(s, p);
      assert TrimEnd(u) == TrimEnd(u[..|u| - 1]);
    } else {
      assert s + post == s;
    }
  }
}
