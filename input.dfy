/** Normalisation of one line read from the console: trailing whitespace
    is trimmed, then every trailing double quote, then every leading one. */
module Input {

  /** Rust's `char::is_whitespace`: the Unicode White_Space property. */
  predicate IsWhitespace(c: char) {
    ('\U{9}' <= c <= '\U{D}') || c == ' ' || c == '\U{85}' || c == '\U{A0}' || c == '\U{1680}'
    || ('\U{2000}' <= c <= '\U{200A}') || c == '\U{2028}' || c == '\U{2029}'
    || c == '\U{202F}' || c == '\U{205F}' || c == '\U{3000}'
  }

  predicate AllWhitespace(s: string) {
    forall k :: 0 <= k < |s| ==> IsWhitespace(s[k])
  }

  predicate AllQuotes(s: string) {
    forall k :: 0 <= k < |s| ==> s[k] == '"'
  }

  /** `str::trim_end`: drops trailing whitespace. */
  function TrimEnd(s: string): string
    decreases |s|
  {
    if s != [] && IsWhitespace(s[|s| - 1]) then TrimEnd(s[..|s| - 1]) else s
  }

  /** `str::trim_end_matches(c)`: drops every trailing `c`. */
  function TrimEndMatches(s: string, c: char): string
    decreases |s|
  {
    if s != [] && s[|s| - 1] == c then TrimEndMatches(s[..|s| - 1], c) else s
  }

  /** `str::trim_start_matches(c)`: drops every leading `c`. */
  function TrimStartMatches(s: string, c: char): string
    decreases |s|
  {
    if s != [] && s[0] == c then TrimStartMatches(s[1..], c) else s
  }

  /** trim_end keeps the longest prefix that does not end in whitespace. */
  lemma {:induction false} TrimEndKeepsPrefix(s: string)
    ensures TrimEnd(s) <= s
    ensures TrimEnd(s) == [] || !IsWhitespace(TrimEnd(s)[|TrimEnd(s)| - 1])
    ensures AllWhitespace(s[|TrimEnd(s)|..])
    decreases |s|
  {
    if s != [] && IsWhitespace(s[|s| - 1]) {
      var s' := s[..|s| - 1];
      TrimEndKeepsPrefix(s');
      assert s[|TrimEnd(s)|..] == s'[|TrimEnd(s')|..] + [s[|s| - 1]];
    }
  }

  /** trim_end_matches keeps the longest prefix that does not end in `c`. */
  lemma {:induction false} TrimEndMatchesKeepsPrefix(s: string, c: char)
    ensures TrimEndMatches(s, c) <= s
    ensures TrimEndMatches(s, c) == [] || TrimEndMatches(s, c)[|TrimEndMatches(s, c)| - 1] != c
    ensures forall k :: |TrimEndMatches(s, c)| <= k < |s| ==> s[k] == c
    decreases |s|
  {
    if s != [] && s[|s| - 1] == c {
      TrimEndMatchesKeepsPrefix(s[..|s| - 1], c);
    }
  }

  /** trim_start_matches keeps the longest suffix that does not start with `c`. */
  lemma {:induction false} TrimStartMatchesKeepsSuffix(s: string, c: char)
    ensures |TrimStartMatches(s, c)| <= |s|
    ensures TrimStartMatches(s, c) == s[|s| - |TrimStartMatches(s, c)|..]
    ensures TrimStartMatches(s, c) == [] || TrimStartMatches(s, c)[0] != c
    ensures forall k :: 0 <= k < |s| - |TrimStartMatches(s, c)| ==> s[k] == c
    decreases |s|
  {
    if s != [] && s[0] == c {
      TrimStartMatchesKeepsSuffix(s[1..], c);
    }
  }

  /** The line as the program uses it (`get_stripped_stdin`): it neither
      starts nor ends with a double quote. */
  function Strip(line: string): (r: string)
    ensures r == [] || (r[0] != '"' && r[|r| - 1] != '"')
  {
    var u := TrimEndMatches(TrimEnd(line), '"');
    TrimEndMatchesKeepsPrefix(TrimEnd(line), '"');
    TrimStartMatchesKeepsSuffix(u, '"');
    TrimStartMatches(u, '"')
  }

  /** The stripped line is a contiguous piece line[i..j] of the raw line:
      only quotes were cut in front, and behind it only quotes followed by
      whitespace (line[j..m] quotes, line[m..] whitespace). */
  lemma StripIsInfix(line: string) returns (i: nat, j: nat, m: nat)
    ensures i <= j <= m <= |line|
    ensures Strip(line) == line[i..j]
    ensures AllQuotes(line[..i]) && AllQuotes(line[j..m]) && AllWhitespace(line[m..])
  {
    var t := TrimEnd(line);
    m := |t|;
    assert m <= |line| && t == line[..m] && AllWhitespace(line[m..]) by {
      TrimEndKeepsPrefix(line);
    }
    var u := TrimEndMatches(t, '"');
    j := |u|;
    assert j <= m && u == line[..j] && AllQuotes(line[j..m]) by {
      TrimEndMatchesKeepsPrefix(t, '"');
      assert forall k :: 0 <= k < m - j ==> line[j..m][k] == t[j + k];
    }
    var r := TrimStartMatches(u, '"');
    assert |r| <= j && r == u[j - |r|..] && AllQuotes(u[..j - |r|]) by {
      TrimStartMatchesKeepsSuffix(u, '"');
    }
    i := j - |r|;
    assert line[i..j] == r;
    assert line[..i] == u[..i];
  }

  /** Whitespace behind a line does not change what trim_end keeps. */
  lemma {:induction false} TrimEndIgnoresWhitespaceSuffix(x: string, w: string)
    requires AllWhitespace(w)
    ensures TrimEnd(x + w) == TrimEnd(x)
    decreases |w|
  {
    if w != [] {
      var w' := w[..|w| - 1];
      assert (x + w)[..|x + w| - 1] == x + w';
      TrimEndIgnoresWhitespaceSuffix(x, w');
    } else {
      assert x + w == x;
    }
  }

  /** Trailing quotes of a split string: those of `b`, and when `b` is only
      quotes, also those of `a`. */
  lemma {:induction false} TrimEndMatchesConcat(a: string, b: string, c: char)
    ensures TrimEndMatches(a + b, c) ==
            if TrimEndMatches(b, c) == [] then TrimEndMatches(a, c) else a + TrimEndMatches(b, c)
    decreases |b|
  {
    if b == [] {
      assert a + b == a;
    } else if b[|b| - 1] == c {
      var b' := b[..|b| - 1];
      assert (a + b)[..|a + b| - 1] == a + b';
      TrimEndMatchesConcat(a, b', c);
    }
  }

  /** A path pasted between double quotes, followed by any whitespace such
      as the line terminator, is read exactly as the bare path followed by
      that whitespace. */
  lemma QuotedPathStripsAlike(p: string, w: string)
    requires p == [] || !IsWhitespace(p[|p| - 1])
    requires AllWhitespace(w)
    ensures Strip("\"" + p + "\"" + w) == Strip(p + w)
  {
    var q := "\"" + p + "\"";
    TrimEndIgnoresWhitespaceSuffix(q, w);
    TrimEndIgnoresWhitespaceSuffix(p, w);
    assert TrimEnd(q) == q;
    assert TrimEnd(p) == p;
    assert q[..|q| - 1] == "\"" + p;
    assert TrimEndMatches(q, '"') == TrimEndMatches("\"" + p, '"');
    TrimEndMatchesConcat("\"", p, '"');
    var t := TrimEndMatches(p, '"');
    if t != [] {
      assert ("\"" + t)[1..] == t;
    }
  }
}
