/** The Python `str` operations the tile handlers rely on, over Dafny strings:
    `strip()`, `split()[0]`, `split()[-1]`, `split(sep)[-1]`, `lower()`, the
    substring test `sub in s`, `str(n)` and `int(s)`. */
module Text {
  import opened Wrappers

  /** The characters for which Python's `str.isspace()` holds; `strip()` and
      `split()` without arguments cut on exactly these: U+0009-U+000D,
      U+001C-U+0020, U+0085, U+00A0, U+1680, U+2000-U+200A, U+2028, U+2029,
      U+202F, U+205F and U+3000. */
  const Whitespace: seq<char> := [
    '\t', '\n', '\U{0B}', '\U{0C}', '\r',
    '\U{1C}', '\U{1D}', '\U{1E}', '\U{1F}', ' ',
    '\U{85}', '\U{A0}', '\U{1680}',
    '\U{2000}', '\U{2001}', '\U{2002}', '\U{2003}', '\U{2004}', '\U{2005}',
    '\U{2006}', '\U{2007}', '\U{2008}', '\U{2009}', '\U{200A}',
    '\U{2028}', '\U{2029}', '\U{202F}', '\U{205F}', '\U{3000}'
  ]

  /** `c.isspace()`, written as the ranges of the table above so that the
      verifier decides it by comparing character codes. */
  predicate IsSpace(c: char) {
    || '\t' <= c <= '\r' || '\U{1C}' <= c <= ' ' || c == '\U{85}' || c == '\U{A0}' || c == '\U{1680}'
    || '\U{2000}' <= c <= '\U{200A}' || c == '\U{2028}' || c == '\U{2029}' || c == '\U{202F}' || c == '\U{205F}'
    || c == '\U{3000}'
  }

  /** The ranges are the table: a character is whitespace exactly when it
      is listed in Whitespace. */
  lemma SpaceIn(c: char)
    ensures IsSpace(c) <==> c in Whitespace
  {
    if '\t' <= c <= '\r' {
      assert Whitespace[c as int - 9] == c;
    } else if '\U{1C}' <= c <= ' ' {
      assert Whitespace[c as int - 0x1C + 5] == c;
    } else if '\U{2000}' <= c <= '\U{200A}' {
      assert Whitespace[c as int - 0x2000 + 13] == c;
    }
  }

  /** The space is whitespace ... */
  lemma SpaceIsSpace()
    ensures IsSpace(' ')
  {
  }

  /** ... and no visible ASCII character is. */
  lemma VisibleNotSpace(c: char)
    requires '!' <= c <= '~'
    ensures !IsSpace(c)
  {
  }

  /** Some character of `s` is not whitespace, so `s.split()` is not empty. */
  predicate HasWord(s: string) {
    exists i :: 0 <= i < |s| && !IsSpace(s[i])
  }

  /** `s.lstrip()` */
  function StripLeft(s: string): (r: string)
    ensures |r| <= |s| && r == s[|s| - |r|..]
    ensures r == [] || !IsSpace(r[0])
    ensures forall i :: 0 <= i < |s| - |r| ==> IsSpace(s[i])
    ensures s == [] || !IsSpace(s[0]) ==> r == s
  {
    if s != [] && IsSpace(s[0]) then
      var r := StripLeft(s[1..]);
      assert r == s[|s| - |r|..] by {
        assert s[1..][|s| - 1 - |r|..] == s[|s| - |r|..];
      }
      assert forall i :: 0 <= i < |s| - |r| ==> IsSpace(s[i]) by {
        forall i | 0 <= i < |s| - |r| ensures IsSpace(s[i]) {
          if i > 0 { assert s[i] == s[1..][i - 1]; }
        }
      }
      r
    else s
  }

  /** `s.rstrip()` */
  function StripRight(s: string): (r: string)
    ensures |r| <= |s| && r == s[..|r|]
    ensures r == [] || !IsSpace(r[|r| - 1])
    ensures forall i :: |r| <= i < |s| ==> IsSpace(s[i])
    ensures s == [] || !IsSpace(s[|s| - 1]) ==> r == s
  {
    if s != [] && IsSpace(s[|s| - 1]) then
      var r := StripRight(s[..|s| - 1]);
      assert r == s[..|r|] by {
        assert s[..|s| - 1][..|r|] == s[..|r|];
      }
      assert forall i :: |r| <= i < |s| ==> IsSpace(s[i]) by {
        forall i | |r| <= i < |s| ensures IsSpace(s[i]) {
          if i < |s| - 1 { assert s[i] == s[..|s| - 1][i]; }
        }
      }
      r
    else s
  }

  /** `s.strip()`: the slice of `s` left once the whitespace at both ends is
      cut off. Nothing is left at either end that is whitespace, only
      whitespace was cut, and a string with no whitespace at its ends is
      returned as it is (StripChars: every character left comes from `s`). */
  function Strip(s: string): (r: string)
    ensures SpaceFreeEnds(r)
    ensures exists k :: StripsTo(s, r, k)
    ensures SpaceFreeEnds(s) ==> r == s
  {
    StripEnds(s);
    StripSlice(s);
    StripRight(StripLeft(s))
  }

  /** `s` is empty, or neither starts nor ends with whitespace. */
  predicate SpaceFreeEnds(s: string) {
    s == [] || (!IsSpace(s[0]) && !IsSpace(s[|s| - 1]))
  }

  lemma StripEnds(s: string)
    ensures SpaceFreeEnds(StripRight(StripLeft(s)))
  {
    var left := StripLeft(s);
    var r := StripRight(left);
    if r != [] {
      assert r[0] == left[0];
    }
  }

  lemma StripSlice(s: string)
    ensures StripsTo(s, StripRight(StripLeft(s)), |s| - |StripLeft(s)|)
  {
    var left := StripLeft(s);
    var r := StripRight(left);
    var k := |s| - |left|;
    SliceOfSuffix(s, k, |r|);
    TrailingSpace(s, k, |r|);
  }

  /** Whitespace after `n` characters of the suffix from `k` is whitespace
      after `k + n` in the whole string. */
  lemma TrailingSpace(s: string, k: nat, n: nat)
    requires k + n <= |s|
    requires forall i :: n <= i < |s[k..]| ==> IsSpace(s[k..][i])
    ensures forall i :: k + n <= i < |s| ==> IsSpace(s[i])
  {
    forall i | k + n <= i < |s| ensures IsSpace(s[i]) {
      assert s[i] == s[k..][i - k];
    }
  }

  lemma SliceOfSuffix(s: string, k: nat, n: nat)
    requires k + n <= |s|
    ensures s[k..][..n] == s[k..k + n]
  {
  }

  /** `r` is the slice of `s` starting at `k`, and only whitespace lies
      before it and after it. */
  predicate StripsTo(s: string, r: string, k: nat) {
    && k + |r| <= |s| && r == s[k..k + |r|]
    && (forall i :: 0 <= i < k ==> IsSpace(s[i]))
    && (forall i :: k + |r| <= i < |s| ==> IsSpace(s[i]))
  }

  lemma StripChars(s: string)
    ensures forall i :: 0 <= i < |Strip(s)| ==> Strip(s)[i] in s
  {
    var left := StripLeft(s);
    var r := StripRight(left);
    assert r == s[|s| - |left|..][..|r|];
    SliceCharsIn(s, |s| - |left|, r);
  }

  lemma SliceCharsIn(s: string, k: nat, r: string)
    requires k + |r| <= |s| && r == s[k..k + |r|]
    ensures forall i :: 0 <= i < |r| ==> r[i] in s
  {
    forall i | 0 <= i < |r| ensures r[i] in s {
      assert r[i] == s[k + i];
    }
  }

  /** The part of `s` after its last whitespace character (all of `s` if it
      has none). */
  function AfterLastSpace(s: string): (r: string)
    ensures |r| <= |s| && r == s[|s| - |r|..]
    ensures forall i :: 0 <= i < |r| ==> !IsSpace(r[i])
    ensures |r| < |s| ==> IsSpace(s[|s| - |r| - 1])
  {
    if s == [] || IsSpace(s[|s| - 1]) then []
    else
      var p := AfterLastSpace(s[..|s| - 1]);
      AfterLastSpaceStep(s, p);
      p + [s[|s| - 1]]
  }

  /** One step of AfterLastSpace: a non-space last character extends the
      word found before it. */
  lemma AfterLastSpaceStep(s: string, p: string)
    requires s != [] && !IsSpace(s[|s| - 1])
    requires var init := s[..|s| - 1];
             && |p| <= |init| && p == init[|init| - |p|..]
             && (forall i :: 0 <= i < |p| ==> !IsSpace(p[i]))
             && (|p| < |init| ==> IsSpace(init[|init| - |p| - 1]))
    ensures var r := p + [s[|s| - 1]];
            && |r| <= |s| && r == s[|s| - |r|..]
            && (forall i :: 0 <= i < |r| ==> !IsSpace(r[i]))
            && (|r| < |s| ==> IsSpace(s[|s| - |r| - 1]))
  {
    var init := s[..|s| - 1];
    var r := p + [s[|s| - 1]];
    assert r == s[|s| - |r|..] by {
      assert init[|init| - |p|..] + [s[|s| - 1]] == s[|s| - |p| - 1..];
    }
    forall i | 0 <= i < |r| ensures !IsSpace(r[i]) {
      if i < |p| { assert r[i] == p[i]; }
    }
    if |r| < |s| {
      assert s[|s| - |r| - 1] == init[|init| - |p| - 1];
    }
  }

  /** The part of `s` before its first whitespace character. */
  function BeforeFirstSpace(s: string): (r: string)
    ensures |r| <= |s| && r == s[..|r|]
    ensures forall i :: 0 <= i < |r| ==> !IsSpace(r[i])
    ensures |r| < |s| ==> IsSpace(s[|r|])
  {
    if s == [] || IsSpace(s[0]) then []
    else
      var t := BeforeFirstSpace(s[1..]);
      BeforeFirstSpaceStep(s, t);
      [s[0]] + t
  }

  /** One step of BeforeFirstSpace: a non-space first character starts the
      word found after it. */
  lemma BeforeFirstSpaceStep(s: string, t: string)
    requires s != [] && !IsSpace(s[0])
    requires var tail := s[1..];
             && |t| <= |tail| && t == tail[..|t|]
             && (forall i :: 0 <= i < |t| ==> !IsSpace(t[i]))
             && (|t| < |tail| ==> IsSpace(tail[|t|]))
    ensures var r := [s[0]] + t;
            && |r| <= |s| && r == s[..|r|]
            && (forall i :: 0 <= i < |r| ==> !IsSpace(r[i]))
            && (|r| < |s| ==> IsSpace(s[|r|]))
  {
    var r := [s[0]] + t;
    assert r == s[..|r|] by {
      assert s[1..][..|t|] == s[1..|r|];
    }
    forall i | 0 <= i < |r| ensures !IsSpace(r[i]) {
      if i > 0 { assert r[i] == t[i - 1]; }
    }
    if |r| < |s| {
      assert s[|r|] == s[1..][|t|];
    }
  }

  /** `s.split()[-1]`: the last maximal run of non-whitespace characters.
      It is a non-empty slice of `s` without whitespace, preceded by
      whitespace or the start of `s` and followed only by whitespace. */
  function LastWord(s: string): (r: string)
    requires HasWord(s)
    ensures r != [] && forall i :: 0 <= i < |r| ==> !IsSpace(r[i])
    ensures Contains(s, r)
    ensures exists k :: IsLastWordAt(s, r, k)
    ensures (forall i :: 0 <= i < |s| ==> !IsSpace(s[i])) ==> r == s
  {
    var t := StripRight(s);
    var r := AfterLastSpace(t);
    var k := |t| - |r|;
    LastWordAt(s, t, r);
    ContainsFrom(s, r, k);
    r
  }

  /** The run after the last whitespace of `s.rstrip()` is a non-empty
      last word of `s` at `|t| - |r|`. */
  lemma LastWordAt(s: string, t: string, r: string)
    requires HasWord(s) && t == StripRight(s) && r == AfterLastSpace(t)
    ensures r != [] && |t| - |r| >= 0 && IsLastWordAt(s, r, |t| - |r|)
    ensures (forall i :: 0 <= i < |s| ==> !IsSpace(s[i])) ==> r == s
  {
    LastWordNonEmpty(s, t, r);
    LastRunPlace(s, t, r);
    WholeLastWord(s);
  }

  /** The last run of `t`, when `t` is `s` without trailing whitespace, is
      a last word of `s`. */
  lemma LastRunPlace(s: string, t: string, r: string)
    requires |t| <= |s| && t == s[..|t|] && forall i :: |t| <= i < |s| ==> IsSpace(s[i])
    requires r == AfterLastSpace(t)
    ensures IsLastWordAt(s, r, |t| - |r|)
  {
    SuffixOfPrefix(s, t, r);
    var k := |t| - |r|;
    if k > 0 {
      assert s[k - 1] == t[k - 1];
    }
  }

  lemma LastWordNonEmpty(s: string, t: string, r: string)
    requires HasWord(s) && t == StripRight(s) && r == AfterLastSpace(t)
    ensures r != []
  {
    var i :| 0 <= i < |s| && !IsSpace(s[i]);
    assert i < |t|;
    assert t[|t| - 1] == s[|t| - 1];
  }

  /** A suffix of a prefix of `s` is a slice of `s`. */
  lemma SuffixOfPrefix(s: string, t: string, r: string)
    requires |t| <= |s| && t == s[..|t|] && |r| <= |t| && r == t[|t| - |r|..]
    ensures r == s[|t| - |r|..|t|]
  {
  }

  lemma WholeLastWord(s: string)
    ensures (forall i :: 0 <= i < |s| ==> !IsSpace(s[i])) ==> AfterLastSpace(StripRight(s)) == s
  {
    if s != [] && forall i :: 0 <= i < |s| ==> !IsSpace(s[i]) {
      assert !IsSpace(s[|s| - 1]);
      assert |AfterLastSpace(s)| == |s|;
    }
  }

  /** `r` is the slice of `s` at `k`, preceded by whitespace or the start
      and followed by whitespace only. */
  predicate IsLastWordAt(s: string, r: string, k: nat) {
    && k + |r| <= |s| && r == s[k..k + |r|]
    && (k == 0 || IsSpace(s[k - 1]))
    && (forall i :: k + |r| <= i < |s| ==> IsSpace(s[i]))
  }

  /** `r` is the slice of `s` at `k`, preceded by whitespace only and
      followed by whitespace or the end. */
  predicate IsFirstWordAt(s: string, r: string, k: nat) {
    && k + |r| <= |s| && r == s[k..k + |r|]
    && (forall i :: 0 <= i < k ==> IsSpace(s[i]))
    && (k + |r| == |s| || IsSpace(s[k + |r|]))
  }

  /** `s.split()[0]`: the first maximal run of non-whitespace characters.
      It is a non-empty slice of `s` without whitespace, preceded only by
      whitespace and followed by whitespace or the end of `s`. */
  function FirstWord(s: string): (r: string)
    requires HasWord(s)
    ensures r != [] && forall i :: 0 <= i < |r| ==> !IsSpace(r[i])
    ensures Contains(s, r)
    ensures exists k :: IsFirstWordAt(s, r, k)
    ensures (forall i :: 0 <= i < |s| ==> !IsSpace(s[i])) ==> r == s
  {
    var t := StripLeft(s);
    var r := BeforeFirstSpace(t);
    FirstWordNonEmpty(s, t, r);
    FirstRunPlace(s, t, r);
    WholeFirstWord(s);
    r
  }

  lemma FirstWordNonEmpty(s: string, t: string, r: string)
    requires HasWord(s) && t == StripLeft(s) && r == BeforeFirstSpace(t)
    ensures r != []
  {
    var i :| 0 <= i < |s| && !IsSpace(s[i]);
    assert |s| - |t| <= i;
    assert t[0] == s[|s| - |t|];
  }

  /** The first run of `t`, when `t` is `s` without leading whitespace, is
      a first word of `s`. */
  lemma FirstRunPlace(s: string, t: string, r: string)
    requires |t| <= |s| && t == s[|s| - |t|..] && forall i :: 0 <= i < |s| - |t| ==> IsSpace(s[i])
    requires r == BeforeFirstSpace(t)
    ensures IsFirstWordAt(s, r, |s| - |t|) && Contains(s, r)
  {
    var k := |s| - |t|;
    PrefixOfSuffix(s, t, r, k);
    ContainsFrom(s, r, k);
    if k + |r| < |s| {
      assert s[k + |r|] == t[|r|];
    }
  }

  /** A prefix of a suffix of `s` is a slice of `s`. */
  lemma PrefixOfSuffix(s: string, t: string, r: string, k: nat)
    requires k <= |s| && t == s[k..] && |r| <= |t| && r == t[..|r|]
    ensures k + |r| <= |s| && r == s[k..k + |r|]
  {
  }

  lemma WholeFirstWord(s: string)
    ensures (forall i :: 0 <= i < |s| ==> !IsSpace(s[i])) ==> BeforeFirstSpace(StripLeft(s)) == s
  {
    if s != [] && forall i :: 0 <= i < |s| ==> !IsSpace(s[i]) {
      assert !IsSpace(s[0]);
      assert |BeforeFirstSpace(s)| == |s|;
    }
  }

  /** The first word of a word followed by whitespace and anything else is
      that word. */
  lemma {:induction false} FirstWordJoined(w: string, rest: string)
    requires w != [] && forall i :: 0 <= i < |w| ==> !IsSpace(w[i])
    ensures HasWord(w + " " + rest) && FirstWord(w + " " + rest) == w
  {
    var s := w + " " + rest;
    assert !IsSpace(s[0]) && s[0] == w[0];
    assert StripLeft(s) == s;
    BeforeFirstSpaceJoined(w, rest);
  }

  lemma {:induction false} BeforeFirstSpaceJoined(w: string, rest: string)
    requires forall i :: 0 <= i < |w| ==> !IsSpace(w[i])
    ensures BeforeFirstSpace(w + " " + rest) == w
  {
    if w == [] {
      SpaceIsSpace();
      assert (w + " " + rest)[0] == ' ';
    } else {
      var s := w + " " + rest;
      assert s[0] == w[0] && s[1..] == w[1..] + " " + rest;
      assert !IsSpace(s[0]);
      assert BeforeFirstSpace(s) == [s[0]] + BeforeFirstSpace(s[1..]);
      assert forall i :: 0 <= i < |w[1..]| ==> !IsSpace(w[1..][i]) by {
        forall i | 0 <= i < |w[1..]| ensures !IsSpace(w[1..][i]) {
          assert w[1..][i] == w[i + 1];
        }
      }
      BeforeFirstSpaceJoined(w[1..], rest);
    }
  }

  /** The last word of anything, whitespace, then a word is that word. */
  lemma LastWordJoined(q: string, t: string)
    requires t != [] && forall i :: 0 <= i < |t| ==> !IsSpace(t[i])
    ensures HasWord(q + " " + t) && LastWord(q + " " + t) == t
  {
    var s := q + " " + t;
    assert s[|s| - 1] == t[|t| - 1];
    var r := LastWord(s);
    var k: nat :| IsLastWordAt(s, r, k);
    SpaceIsSpace();
    JoinedShape(q, t);
    LastWordPlace(s, r, k, |q|);
    assert r == s[|q| + 1..];
  }

  lemma JoinedShape(q: string, t: string)
    requires forall i :: 0 <= i < |t| ==> !IsSpace(t[i])
    ensures var s := q + " " + t;
            && s[|q|] == ' ' && s[|q| + 1..] == t
            && forall i :: |q| < i < |s| ==> !IsSpace(s[i])
  {
    var s := q + " " + t;
    forall i | |q| < i < |s| ensures !IsSpace(s[i]) {
      assert s[i] == t[i - |q| - 1];
    }
  }

  /** Stripping a string that ends in a non-space character, and holds one
      at `m + 1`, keeps everything from `m + 1` on. */
  lemma StripPlace(s: string, r: string, k: nat, m: nat)
    requires StripsTo(s, r, k)
    requires m + 1 < |s| && !IsSpace(s[m + 1]) && !IsSpace(s[|s| - 1])
    ensures k <= m + 1 && k + |r| == |s| && r == s[k..]
  {
  }

  /** A last word of `s` ends where `s` ends and starts right after the
      last whitespace character `s[m]`. */
  lemma LastWordPlace(s: string, r: string, k: nat, m: nat)
    requires IsLastWordAt(s, r, k) && r != [] && forall i :: 0 <= i < |r| ==> !IsSpace(r[i])
    requires m + 1 < |s| && IsSpace(s[m]) && forall i :: m < i < |s| ==> !IsSpace(s[i])
    ensures k == m + 1 && k + |r| == |s|
  {
    assert !IsSpace(s[|s| - 1]);
    forall j | k <= j < k + |r| ensures !IsSpace(s[j]) {
      assert s[j] == r[j - k];
    }
  }

  /** A string holding a substring with a non-space character has a word. */
  lemma ContainsWord(s: string, sub: string, j: nat)
    requires Contains(s, sub) && j < |sub| && !IsSpace(sub[j])
    ensures HasWord(s)
  {
    var k := ContainsAt(s, sub);
    assert s[k + j] == sub[j];
  }

  /** `s.split(sep)[-1]`: the part of `s` after the last `sep` (all of `s` if
      `sep` does not occur). */
  function AfterLast(s: string, sep: char): (r: string)
    ensures |r| <= |s| && r == s[|s| - |r|..]
    ensures sep !in r
    ensures |r| < |s| ==> s[|s| - |r| - 1] == sep
  {
    if s == [] || s[|s| - 1] == sep then [] else AfterLast(s[..|s| - 1], sep) + [s[|s| - 1]]
  }

  /** `c.lower()` for the characters whose lower-case form is ASCII: the
      letters A-Z and KELVIN SIGN. Every other character is kept, which
      changes no comparison against an ASCII word. */
  function LowerChar(c: char): (r: char)
    ensures 'a' <= r <= 'z' ==> ('a' <= c <= 'z' || 'A' <= c <= 'Z' || c == '\U{212A}')
    ensures 'A' <= r <= 'Z' ==> false
  {
    if 'A' <= c <= 'Z' then (c as int + 32) as char
    else if c == '\U{212A}' then 'k'
    else c
  }

  /** `s.lower()` (see LowerChar for the characters it touches): the length
      is kept, each capital A-Z becomes its small letter, every other
      character but KELVIN SIGN stays, no capital A-Z is left and lowering
      the result again changes nothing. */
  function Lower(s: string): (r: string)
    ensures |r| == |s|
    ensures forall i :: 0 <= i < |s| && 'A' <= s[i] <= 'Z' ==> r[i] as int == s[i] as int + 32
    ensures forall i :: 0 <= i < |s| && !('A' <= s[i] <= 'Z') && s[i] != '\U{212A}' ==> r[i] == s[i]
    ensures forall i :: 0 <= i < |s| && s[i] == '\U{212A}' ==> r[i] == 'k'
    ensures forall i :: 0 <= i < |r| ==> !('A' <= r[i] <= 'Z') && LowerChar(r[i]) == r[i]
  {
    seq(|s|, i requires 0 <= i < |s| => LowerChar(s[i]))
  }

  predicate StartsWith(s: string, prefix: string) {
    |prefix| <= |s| && s[..|prefix|] == prefix
  }

  /** `sub in s`: `sub` occurs in `s` as a contiguous substring. It never
      holds for a `sub` longer than `s`, and always holds when `s` starts
      with `sub`; ContainsAt and ContainsFrom give the position. */
  predicate Contains(s: string, sub: string): (r: bool)
    ensures r ==> |sub| <= |s|
    ensures StartsWith(s, sub) ==> r
    decreases |s|
  {
    StartsWith(s, sub) || (s != [] && Contains(s[1..], sub))
  }

  /** A witness for Contains: the position where `sub` starts. */
  lemma {:induction false} ContainsAt(s: string, sub: string) returns (k: nat)
    requires Contains(s, sub)
    ensures k + |sub| <= |s| && s[k..k + |sub|] == sub
    decreases |s|
  {
    if StartsWith(s, sub) {
      k := 0;
    } else {
      var j := ContainsAt(s[1..], sub);
      assert s[1..][j..j + |sub|] == s[j + 1..j + 1 + |sub|];
      k := j + 1;
    }
  }

  /** The converse of ContainsAt: a substring at a known position is
      contained. */
  lemma {:induction false} ContainsFrom(s: string, sub: string, k: nat)
    requires k + |sub| <= |s| && s[k..k + |sub|] == sub
    ensures Contains(s, sub)
    decreases k
  {
    if k > 0 {
      assert s[1..][k - 1..k - 1 + |sub|] == s[k..k + |sub|];
      ContainsFrom(s[1..], sub, k - 1);
    }
  }

  predicate IsDigit(c: char) {
    '0' <= c <= '9'
  }

  function DigitValue(c: char): (d: nat)
    requires IsDigit(c)
    ensures d < 10
  {
    c as int - '0' as int
  }

  function DigitChar(d: nat): (c: char)
    requires d < 10
    ensures IsDigit(c) && DigitValue(c) == d
  {
    ('0' as int + d) as char
  }

  /** `str(n)` for a non-negative integer: its decimal digits, without
      leading zeros. */
  function NatString(n: nat): (r: string)
    ensures r != [] && forall i :: 0 <= i < |r| ==> IsDigit(r[i])
    ensures |r| > 1 ==> r[0] != '0'
  {
    if n < 10 then [DigitChar(n)] else NatString(n / 10) + [DigitChar(n % 10)]
  }

  /** `str(n)` */
  function IntString(n: int): (r: string)
    ensures r != [] && (n < 0 <==> r[0] == '-')
  {
    if n < 0 then "-" + NatString(-n) else NatString(n)
  }

  /** `str(n)` is one word, so `str(n).split()[0] == str(n)`. */
  lemma IntStringWord(n: int)
    ensures forall i :: 0 <= i < |IntString(n)| ==> !IsSpace(IntString(n)[i])
  {
    var r := IntString(n);
    forall i | 0 <= i < |r| ensures !IsSpace(r[i]) {
      VisibleNotSpace(r[i]);
    }
  }

  /** The digit string Python's `int()` accepts: decimal digits, with single
      underscores allowed between two digits. */
  predicate IsDigitString(t: string) {
    && |t| > 0
    && DigitsOrUnderscores(t)
    && forall i :: 0 <= i < |t| && t[i] == '_' ==> 0 < i && i + 1 < |t| && IsDigit(t[i + 1])
  }

  predicate DigitsOrUnderscores(t: string) {
    forall i :: 0 <= i < |t| ==> IsDigit(t[i]) || t[i] == '_'
  }

  /** The value of a digit string, underscores ignored. */
  function DigitsValue(t: string): nat
    requires DigitsOrUnderscores(t)
  {
    if t == [] then 0
    else if t[|t| - 1] == '_' then DigitsValue(t[..|t| - 1])
    else DigitsValue(t[..|t| - 1]) * 10 + DigitValue(t[|t| - 1])
  }

  /** `int(s)` for a string with no whitespace around it: an optional sign
      and a digit string; anything else is Python's ValueError, here None. */
  function ParseInt(s: string): (r: Option<int>)
    ensures r.Some? ==> (s != [] && (IsDigit(s[0]) || s[0] == '+' || s[0] == '-'))
  {
    if s != [] && (s[0] == '+' || s[0] == '-') then
      var digits := s[1..];
      if IsDigitString(digits) then
        var n: int := DigitsValue(digits);
        Some(if s[0] == '-' then -n else n)
      else None
    else if IsDigitString(s) then
      assert IsDigit(s[0]);
      Some(DigitsValue(s) as int)
    else None
  }

  lemma {:induction false} NatStringValue(n: nat)
    ensures IsDigitString(NatString(n)) && DigitsValue(NatString(n)) == n
  {
    if n >= 10 {
      var s := NatString(n);
      assert s[..|s| - 1] == NatString(n / 10);
      NatStringValue(n / 10);
    }
  }

  /** Reading back what `str` printed gives the same integer: `int(str(n)) == n`. */
  lemma ParseIntString(n: int)
    ensures ParseInt(IntString(n)) == Some(n)
  {
    var s := IntString(n);
    if n < 0 {
      assert s[0] == '-' && s[1..] == NatString(-n);
      NatStringValue(-n);
    } else {
      assert s == NatString(n) && IsDigit(s[0]);
      NatStringValue(n);
    }
  }
}
