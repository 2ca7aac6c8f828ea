/** Tile tokens as the kifu API handles them. A suited tile is a rank digit
    and a suit letter ("5m", "9p", "1s"), with rank 0 for the red five
    ("0m"); an honour is written as one letter by the client (E S W N for the
    winds, P F C for the dragons) and as two-letter romaji by the scorer
    ("to" "na" "sh" "pe", "hk" "ht" "ty"). A missing token (Python's None)
    is written "" here: every handler treats the two alike. */
module Tiles {
  import opened Text

  /** HONOR_MAP: client letter to scorer romaji. */
  const HonorMap: map<string, string> :=
    map["E" := "to", "S" := "na", "W" := "sh", "N" := "pe", "P" := "hk", "F" := "ht", "C" := "ty"]

  /** HONOR_MAP_REVERSE: HonorMap with keys and values swapped
      (HonorMapsInverse proves it is exactly that swap). */
  const HonorMapReverse: map<string, string> :=
    map["to" := "E", "na" := "S", "sh" := "W", "pe" := "N", "hk" := "P", "ht" := "F", "ty" := "C"]

  /** The three red fives, the only tokens whose rank digit is 0. */
  const RedFives: set<string> := {"0m", "0p", "0s"}

  predicate IsSuit(c: char) {
    c == 'm' || c == 'p' || c == 's'
  }

  /** `list.index`: the position of the first occurrence of `x`. */
  function IndexOf(s: seq<string>, x: string): (i: nat)
    requires x in s
    ensures i < |s| && s[i] == x
    ensures forall k :: 0 <= k < i ==> s[k] != x
  {
    if s[0] == x then 0 else 1 + IndexOf(s[1..], x)
  }

  /** In a list whose first entries are distinct, an entry's index is where
      it stands. */
  lemma IndexOfDistinct(s: seq<string>, i: nat)
    requires i < |s| && forall k :: 0 <= k < i ==> s[k] != s[i]
    ensures IndexOf(s, s[i]) == i
  {
  }

  /** HonorMapReverse undoes HonorMap, in both directions, and no romaji is
      also a letter code. */
  lemma HonorMapsInverse()
    ensures forall k :: k in HonorMap ==> HonorMap[k] in HonorMapReverse && HonorMapReverse[HonorMap[k]] == k
    ensures forall v :: v in HonorMapReverse ==> HonorMapReverse[v] in HonorMap && HonorMap[HonorMapReverse[v]] == v
    ensures HonorMapReverse.Keys == {"to", "na", "sh", "pe", "hk", "ht", "ty"}
    ensures HonorMapReverse.Keys !! HonorMap.Keys
  {
  }

  /** normalize_tile: letter honours become romaji, "" stays "", anything
      else is kept. The result is never a letter code, so normalising twice
      changes nothing. */
  function NormalizeTile(t: string): (r: string)
    ensures r == "" <==> t == ""
    ensures r !in HonorMap
    ensures t !in HonorMap ==> r == t
    ensures t in HonorMap ==> r in HonorMapReverse && HonorMapReverse[r] == t
  {
    HonorMapsInverse();
    if t == "" then "" else if t in HonorMap then HonorMap[t] else t
  }

  lemma NormalizeTileIdempotent(t: string)
    ensures NormalizeTile(NormalizeTile(t)) == NormalizeTile(t)
  {
  }

  /** denormalize_tile: romaji honours go back to letters. The result is
      never romaji. */
  function DenormalizeTile(t: string): (r: string)
    ensures r == "" <==> t == ""
    ensures r !in HonorMapReverse
    ensures t !in HonorMapReverse ==> r == t
    ensures t in HonorMapReverse ==> r in HonorMap && HonorMap[r] == t
  {
    HonorMapsInverse();
    if t == "" then "" else if t in HonorMapReverse then HonorMapReverse[t] else t
  }

  /** Denormalising a normalised token gives it back, unless the token was
      already romaji (then it comes back as its letter). */
  lemma DenormalizeNormalize(t: string)
    requires t !in HonorMapReverse
    ensures DenormalizeTile(NormalizeTile(t)) == t
  {
  }

  /** Normalising a denormalised token gives it back, unless the token was a
      letter code (then it comes back as romaji). */
  lemma NormalizeDenormalize(t: string)
    requires t !in HonorMap
    ensures NormalizeTile(DenormalizeTile(t)) == t
  {
  }

  /** normalize_tiles: `[normalize_tile(t) for t in tiles if t]`. */
  function NormalizeTiles(ts: seq<string>): (r: seq<string>)
    ensures |r| <= |ts|
    ensures forall i :: 0 <= i < |r| ==> r[i] != "" && r[i] !in HonorMap
    ensures "" !in ts ==> |r| == |ts| && forall i :: 0 <= i < |ts| ==> r[i] == NormalizeTile(ts[i])
  {
    if ts == [] then []
    else
      assert ts == [ts[0]] + ts[1..];
      (if ts[0] == "" then [] else [NormalizeTile(ts[0])]) + NormalizeTiles(ts[1..])
  }

  /** Exactly the empty tokens are dropped: one entry per non-empty token. */
  lemma {:induction false} NormalizeTilesLength(ts: seq<string>)
    ensures |NormalizeTiles(ts)| == |ts| - multiset(ts)[""]
  {
    if ts != [] {
      assert ts == [ts[0]] + ts[1..];
      NormalizeTilesLength(ts[1..]);
    }
  }

  lemma {:induction false} NormalizeTilesAppend(a: seq<string>, b: seq<string>)
    ensures NormalizeTiles(a + b) == NormalizeTiles(a) + NormalizeTiles(b)
  {
    if a != [] {
      var head := if a[0] == "" then [] else [NormalizeTile(a[0])];
      assert (a + b)[0] == a[0] && (a + b)[1..] == a[1..] + b;
      assert NormalizeTiles(a + b) == head + NormalizeTiles(a[1..] + b);
      NormalizeTilesAppend(a[1..], b);
      assert NormalizeTiles(a) == head + NormalizeTiles(a[1..]);
    } else {
      assert a + b == b;
    }
  }

  /** Normalising a list that is already normalised changes nothing. */
  lemma {:induction false} NormalizeTilesIdempotent(ts: seq<string>)
    ensures NormalizeTiles(NormalizeTiles(ts)) == NormalizeTiles(ts)
  {
    var r := NormalizeTiles(ts);
    assert "" !in r by {
      forall i | 0 <= i < |r| ensures r[i] != "" { }
    }
  }

  /** `_base_key`: a red five counts as the plain five of its suit; every
      other token is its own key. */
  function BaseKey(t: string): (r: string)
    ensures r == t <==> t !in RedFives
    ensures r !in RedFives
    ensures t in RedFives ==> |r| == 2 && r[0] == '5' && r[1] == t[1]
  {
    assert |t| == 2 ==> t == [t[0], t[1]];
    if t == "" then ""
    else if |t| == 2 && t[0] == '0' && IsSuit(t[1]) then ['5', t[1]]
    else t
  }

  lemma BaseKeyIdempotent(t: string)
    ensures BaseKey(BaseKey(t)) == BaseKey(t)
  {
  }

  /** has_aka: some non-empty token starts with the digit 0. */
  function HasAka(ts: seq<string>): (r: bool)
    ensures r <==> exists i :: 0 <= i < |ts| && ts[i] != "" && ts[i][0] == '0'
    ensures (exists i :: 0 <= i < |ts| && ts[i] in RedFives) ==> r
  {
    if ts == [] then false
    else (ts[0] != "" && ts[0][0] == '0') || HasAka(ts[1..])
  }

  /** `_normalize_detected_tile`: a detector label such as "tile 5m",
      "class-to" or " P " is cut to its last space-separated word, then (when
      it still has a hyphen and more than two characters) to the part after
      the last hyphen, and romaji honours become letters. The result never
      holds a space. */
  function NormalizeDetectedTile(name: string): (r: string)
    ensures ' ' !in r
  {
    if name == "" then ""
    else
      LetterOf(LabelName(LabelWord(Strip(name))))
  }

  /** `HONOR_MAP_REVERSE.get(text, text)`: the same map as denormalize_tile. */
  function LetterOf(text: string): (r: string)
    ensures r == DenormalizeTile(text)
    ensures ' ' !in text ==> ' ' !in r
  {
    if text in HonorMapReverse then HonorMapReverse[text] else text
  }

  /** `if " " in text: text = text.split()[-1]`, on a stripped label: a label
      holding a space is cut to its last word, one without is kept. */
  function LabelWord(text: string): (r: string)
    requires text == [] || !IsSpace(text[0])
    ensures ' ' !in r
    ensures ' ' !in text ==> r == text
    ensures ' ' in text ==> r != [] && (forall i :: 0 <= i < |r| ==> !IsSpace(r[i])) && exists k :: IsLastWordAt(text, r, k)
  {
    if ' ' in text then
      SpaceIsSpace();
      assert !IsSpace(text[0]);
      LastWord(text)
    else text
  }

  /** `if "-" in text and len(text) > 2: text = text.split("-")[-1].strip()` */
  function LabelName(text: string): (r: string)
    requires ' ' !in text
    ensures ' ' !in r
  {
    if '-' in text && |text| > 2 then
      StripChars(AfterLast(text, '-'));
      Strip(AfterLast(text, '-'))
    else text
  }

  /** A label with no whitespace and no hyphen is only mapped through
      HONOR_MAP_REVERSE. */
  lemma DetectedPlainLabel(t: string)
    requires t != "" && '-' !in t
    requires forall i :: 0 <= i < |t| ==> !IsSpace(t[i])
    ensures NormalizeDetectedTile(t) == LetterOf(t)
  {
    assert ' ' !in t by {
      SpaceIsSpace();
      forall i | 0 <= i < |t| ensures t[i] != ' ' { assert !IsSpace(t[i]); }
    }
  }

  /** `s.split(sep)[-1]` of `p + sep + t` is `t` when `t` holds no `sep`. */
  lemma {:induction false} AfterLastJoined(p: string, sep: char, t: string)
    requires sep !in t
    ensures AfterLast(p + [sep] + t, sep) == t
  {
    if t != [] {
      var s := p + [sep] + t;
      assert s[..|s| - 1] == p + [sep] + t[..|t| - 1];
      AfterLastJoined(p, sep, t[..|t| - 1]);
    } else {
      assert (p + [sep] + t)[|p|] == sep;
    }
  }

  /** A label with no whitespace is its own stripped form and holds no
      space. */
  lemma PlainWord(s: string)
    requires s != [] && forall i :: 0 <= i < |s| ==> !IsSpace(s[i])
    ensures Strip(s) == s && ' ' !in s
  {
    assert !IsSpace(s[0]) && !IsSpace(s[|s| - 1]);
    SpaceIsSpace();
    forall i | 0 <= i < |s| ensures s[i] != ' ' {
      assert !IsSpace(s[i]);
    }
  }

  lemma HyphenJoined(p: string, t: string)
    requires forall i :: 0 <= i < |p| ==> !IsSpace(p[i])
    requires forall i :: 0 <= i < |t| ==> !IsSpace(t[i])
    ensures forall i :: 0 <= i < |p + "-" + t| ==> !IsSpace((p + "-" + t)[i])
    ensures '-' in p + "-" + t
  {
    var s := p + "-" + t;
    forall i | 0 <= i < |s| ensures !IsSpace(s[i]) {
      if i < |p| { assert s[i] == p[i]; }
      else if i > |p| { assert s[i] == t[i - |p| - 1]; }
      else { VisibleNotSpace('-'); }
    }
    assert s[|p|] == '-';
  }

  /** A "class-name" label keeps only the name after its last hyphen: for
      example "x-to" is read as "E" and "tile-5m" as "5m". */
  lemma DetectedPrefixedLabel(p: string, t: string)
    requires t != "" && '-' !in t && |p| + |t| >= 2
    requires forall i :: 0 <= i < |p| ==> !IsSpace(p[i])
    requires forall i :: 0 <= i < |t| ==> !IsSpace(t[i])
    ensures NormalizeDetectedTile(p + "-" + t) == LetterOf(t)
  {
    var s := p + "-" + t;
    HyphenJoined(p, t);
    PlainWord(s);
    PlainWord(t);
    AfterLastJoined(p, '-', t);
    assert LabelWord(s) == s;
    assert LabelName(s) == t;
  }

  /** A label "p t" whose last part t has no whitespace and no hyphen is
      read as t mapped to its letter: "tile 5m" gives "5m" and "class to"
      gives "E". */
  lemma DetectedSpacedLabel(p: string, t: string)
    requires t != "" && '-' !in t
    requires forall i :: 0 <= i < |t| ==> !IsSpace(t[i])
    ensures NormalizeDetectedTile(p + " " + t) == LetterOf(t)
  {
    var name := p + " " + t;
    var st := Strip(name);
    assert LabelWord(st) == t by {
      SpacedLabelWord(p, t);
    }
    PlainWord(t);
    assert LabelName(t) == t;
  }

  /** Stripping "p t" and cutting it to its last word leaves t. */
  lemma SpacedLabelWord(p: string, t: string)
    requires t != "" && forall i :: 0 <= i < |t| ==> !IsSpace(t[i])
    ensures var st := Strip(p + " " + t);
            (st == [] || !IsSpace(st[0])) && LabelWord(st) == t
  {
    var name := p + " " + t;
    var st := Strip(name);
    var k: nat :| StripsTo(name, st, k);
    JoinedShape(p, t);
    StripPlace(name, st, k, |p|);
    SuffixLabelWord(p, t, k);
  }

  /** Cutting a non-blank suffix of "p t" that reaches into t or further
      to its last word leaves t. */
  lemma SuffixLabelWord(p: string, t: string, k: nat)
    requires t != "" && forall i :: 0 <= i < |t| ==> !IsSpace(t[i])
    requires k <= |p| + 1 && !IsSpace((p + " " + t)[k])
    ensures LabelWord((p + " " + t)[k..]) == t
  {
    var st := (p + " " + t)[k..];
    PlainWord(t);
    if k == |p| + 1 {
      assert st == t;
    } else {
      var q := p[k..];
      JoinedSuffix(p, t, k);
      assert st[|q|] == ' ';
      LastWordJoined(q, t);
    }
  }

  lemma JoinedSuffix(p: string, t: string, k: nat)
    requires k <= |p|
    ensures (p + " " + t)[k..] == p[k..] + " " + t
  {
  }
}
