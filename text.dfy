/** String helpers with the meaning Python gives them: `str.strip()`,
    `s.split(sep)[-1]`, `s.split(sep)[0]` and `sep.join(parts)`. */
module Text {

  /** `c.isspace()` in Python 3. */
  predicate IsSpace(c: char) {
    c == ' ' || c == '\t' || c == '\n' || c == '\r' || c == '\U{B}' || c == '\U{C}'
    || ('\U{1C}' <= c <= '\U{1F}') || c == '\U{85}' || c == '\U{A0}' || c == '\U{1680}'
    || ('\U{2000}' <= c <= '\U{200A}') || c == '\U{2028}' || c == '\U{2029}' || c == '\U{202F}'
    || c == '\U{205F}' || c == '\U{3000}'
  }

  predicate AllSpace(s: string) {
    forall k :: 0 <= k < |s| ==> IsSpace(s[k])
  }

  /** `s.lstrip()`: drops the leading whitespace. */
  function LStrip(s: string): (r: string)
    ensures |r| <= |s| && r == s[|s| - |r|..]
    ensures r == [] || !IsSpace(r[0])
    ensures AllSpace(s[..|s| - |r|])
  {
    if s != [] && IsSpace(s[0]) then LStrip(s[1..]) else s
  }

  /** `s.rstrip()`: drops the trailing whitespace. */
  function RStrip(s: string): (r: string)
    ensures |r| <= |s| && r == s[..|r|]
    ensures r == [] || !IsSpace(r[|r| - 1])
    ensures AllSpace(s[|r|..])
  {
    if s != [] && IsSpace(s[|s| - 1]) then RStrip(s[..|s| - 1]) else s
  }

  /** `r` sits in `s` at index `i`, with only whitespace before and after it. */
  predicate PaddedAt(s: string, r: string, i: int) {
    0 <= i <= |s| - |r| && r == s[i..i + |r|] && AllSpace(s[..i]) && AllSpace(s[i + |r|..])
  }

  /** `s.strip()`: the slice of `s` left once the whitespace at both ends is gone. */
  function Strip(s: string): (r: string)
    ensures r == [] || (!IsSpace(r[0]) && !IsSpace(r[|r| - 1]))
    ensures exists i :: PaddedAt(s, r, i)
  {
    StripIsSlice(s);
    RStrip(LStrip(s))
  }

  /** The stripped text sits in `s` right after the leading whitespace. */
  lemma StripIsSlice(s: string)
    ensures PaddedAt(s, RStrip(LStrip(s)), |s| - |LStrip(s)|)
    ensures var r := RStrip(LStrip(s)); r == [] || (!IsSpace(r[0]) && !IsSpace(r[|r| - 1]))
  {
    var l := LStrip(s);
    var r := RStrip(l);
    SuffixOfPrefix(s, l, r);
    if r != [] {
      assert r[0] == l[0];
    }
  }

  /** A prefix `r` of a suffix `l` of `s`, padded on both sides by whitespace,
      is padded in `s` too. */
  lemma SuffixOfPrefix(s: string, l: string, r: string)
    requires |l| <= |s| && l == s[|s| - |l|..] && AllSpace(s[..|s| - |l|])
    requires |r| <= |l| && r == l[..|r|] && AllSpace(l[|r|..])
    ensures PaddedAt(s, r, |s| - |l|)
  {
    var i := |s| - |l|;
    assert s[i + |r|..] == l[|r|..];
  }

  /** Stripping a string that neither starts nor ends with whitespace changes nothing. */
  lemma {:induction false} StripKeepsTrimmed(s: string)
    requires s == [] || (!IsSpace(s[0]) && !IsSpace(s[|s| - 1]))
    ensures Strip(s) == s
  {
    assert LStrip(s) == s;
    assert RStrip(s) == s;
  }

  /** Stripping twice is stripping once. */
  lemma StripIdempotent(s: string)
    ensures Strip(Strip(s)) == Strip(s)
  {
    StripKeepsTrimmed(Strip(s));
  }

  /** A trailing whitespace character, such as the newline a YAML block scalar
      ends with, is stripped off a trimmed text. */
  lemma StripDropsTrailingSpace(s: string, c: char)
    requires s != [] && !IsSpace(s[0]) && !IsSpace(s[|s| - 1]) && IsSpace(c)
    ensures Strip(s + [c]) == s
  {
    var t := s + [c];
    assert t[0] == s[0];
    assert LStrip(t) == t;
    RStripDropsSpace(s, c);
    assert RStrip(s) == s;
  }

  /** A trailing whitespace character makes no difference to `rstrip`. */
  lemma RStripDropsSpace(s: string, c: char)
    requires IsSpace(c)
    ensures RStrip(s + [c]) == RStrip(s)
  {
    var t := s + [c];
    assert t[|t| - 1] == c && t[..|t| - 1] == s;
  }

  /** `s.split(sep)[-1]`: the text after the last `sep`, or all of `s` without one. */
  function AfterLast(s: string, sep: char): (r: string)
    ensures sep !in r
    ensures |r| <= |s| && r == s[|s| - |r|..]
    ensures |r| < |s| ==> s[|s| - |r| - 1] == sep
  {
    if s == [] then []
    else if s[|s| - 1] == sep then []
    else AfterLast(s[..|s| - 1], sep) + [s[|s| - 1]]
  }

  /** `s.split(sep)[0]`: the text before the first `sep`, or all of `s` without one. */
  function BeforeFirst(s: string, sep: char): (r: string)
    ensures sep !in r
    ensures |r| <= |s| && r == s[..|r|]
    ensures |r| < |s| ==> s[|r|] == sep
  {
    if s == [] || s[0] == sep then [] else [s[0]] + BeforeFirst(s[1..], sep)
  }

  /** `sep.join(parts)`. */
  function JoinWith(parts: seq<string>, sep: string): string {
    if parts == [] then ""
    else if |parts| == 1 then parts[0]
    else parts[0] + sep + JoinWith(parts[1..], sep)
  }

  /** Joining one more part puts exactly one separator before it, after all
      the earlier parts in their order. */
  lemma {:induction false} JoinWithAppend(parts: seq<string>, p: string, sep: string)
    requires parts != []
    ensures JoinWith(parts + [p], sep) == JoinWith(parts, sep) + sep + p
  {
    if |parts| == 1 {
      assert (parts + [p])[1..] == [p];
    } else {
      assert (parts + [p])[1..] == parts[1..] + [p];
      JoinWithAppend(parts[1..], p, sep);
    }
  }
}
