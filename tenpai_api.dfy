/** The `/analysis/tenpai` handler, analyze_tenpai: it normalises the hand
    (letter honours to romaji, red fives to plain fives), keeps at most
    thirteen tiles, asks the wait finder (machi_hai_13, a library routine
    this model does not contain and takes as a parameter) and reports
    agari, a shanten number, another status text, or the waits with the
    honours written as letters again. When the wait finder raises, the
    text of its exception is the answer. */
module TenpaiApi {
  import opened Wrappers
  import opened Text
  import opened Tiles

  /** What machi_hai_13 returns: a status text, or the list of waits. */
  datatype MachiResult = Status(text: string) | Waits(tiles: seq<string>)

  /** The handler's answer. Agari carries shanten -1 and Tenpai shanten 0
      in the response body (see ShantenOf); Raised is the `ok: False`
      answer with the text of an exception. */
  datatype TenpaiResponse =
    | Raised(error: string)
    | Agari
    | Shanten(value: int)
    | OtherStatus(status: string)
    | Tenpai(waits: seq<string>)

  /** The `shanten` field of the response, when it has one. */
  function ShantenOf(r: TenpaiResponse): (n: Option<int>)
    ensures n.None? <==> r.Raised? || r.OtherStatus?
    ensures r.Agari? ==> n == Some(-1)
    ensures r.Tenpai? ==> n == Some(0)
    ensures r.Shanten? ==> n == Some(r.value)
  {
    match r
    case Agari => Some(-1)
    case Shanten(v) => Some(v)
    case OtherStatus(_) => None
    case Tenpai(_) => Some(0)
    case Raised(_) => None
  }

  /** normalize_for_tenpai: a red five becomes the plain five of its suit;
      it is the same map as `_base_key` in the hand handler. */
  function NormalizeForTenpai(t: string): (r: string)
    ensures r == BaseKey(t)
    ensures r == t <==> t !in RedFives
  {
    assert |t| == 2 ==> t == [t[0], t[1]];
    if t == "" then t
    else if |t| == 2 && t[0] == '0' && IsSuit(t[1]) then ['5', t[1]]
    else t
  }

  /** `[normalize_for_tenpai(t) for t in tiles]` over normalised tiles. */
  function PlainFives(n: seq<string>): (r: seq<string>)
    ensures |r| == |n|
    ensures forall i :: 0 <= i < |n| ==> r[i] == BaseKey(n[i]) && r[i] !in RedFives
    ensures forall i :: 0 <= i < |n| && n[i] != "" && n[i] !in HonorMap ==> r[i] != "" && r[i] !in HonorMap
  {
    seq(|n|, i requires 0 <= i < |n| => NormalizeForTenpai(n[i]))
  }

  /** The hand sent to the wait finder: the non-empty tiles normalised, red
      fives made plain, and cut to the first thirteen. */
  function TenpaiHand(hand: seq<string>): (r: seq<string>)
    ensures var n := NormalizeTiles(hand);
            && |r| == (if |n| > 13 then 13 else |n|)
            && forall i :: 0 <= i < |r| ==> r[i] == BaseKey(n[i])
    ensures forall i :: 0 <= i < |r| ==> r[i] != "" && r[i] !in RedFives && r[i] !in HonorMap
  {
    var tiles := PlainFives(NormalizeTiles(hand));
    if |tiles| > 13 then tiles[..13] else tiles
  }

  /** `[denormalize_tile(t) for t in waits]`: each wait is kept in place
      with its romaji honour written as a letter again, so that no romaji
      is left and, for waits that are tiles, normalising gives them back. */
  function DenormalizeTiles(ts: seq<string>): (r: seq<string>)
    ensures |r| == |ts| && forall i :: 0 <= i < |ts| ==> r[i] == DenormalizeTile(ts[i])
    ensures forall i :: 0 <= i < |r| ==> r[i] !in HonorMapReverse && (r[i] == "" <==> ts[i] == "")
    ensures (forall i :: 0 <= i < |ts| ==> ts[i] != "" && ts[i] !in HonorMap) ==> NormalizeTiles(r) == ts
  {
    DenormalizedRoundTrip(ts);
    seq(|ts|, i requires 0 <= i < |ts| => DenormalizeTile(ts[i]))
  }

  /** Waits that are tiles come back from the letter form unchanged. */
  lemma DenormalizedRoundTrip(ts: seq<string>)
    ensures var r := seq(|ts|, i requires 0 <= i < |ts| => DenormalizeTile(ts[i]));
            (forall i :: 0 <= i < |ts| ==> ts[i] != "" && ts[i] !in HonorMap) ==> NormalizeTiles(r) == ts
  {
    var r := seq(|ts|, i requires 0 <= i < |ts| => DenormalizeTile(ts[i]));
    if forall i :: 0 <= i < |ts| ==> ts[i] != "" && ts[i] !in HonorMap {
      forall i | 0 <= i < |ts| ensures NormalizeTile(r[i]) == ts[i] {
        NormalizeDenormalize(ts[i]);
      }
      assert "" !in r by {
        forall i | 0 <= i < |r| ensures r[i] != "" { }
      }
    }
  }

  /** How the handler answers what the wait finder returned. */
  function Report(found: MachiResult): (r: TenpaiResponse)
    ensures !r.Raised?
    ensures r.Tenpai? <==> found.Waits?
    ensures r.Agari? <==> found == Status("agari")
    ensures r.Shanten? ==> found.Status? && Contains(found.text, "shanten") && HasWord(found.text)
                           && ParseInt(FirstWord(found.text)) == Some(r.value)
    ensures r.OtherStatus? ==> found == Status(r.status)
    ensures (found.Status? && found.text != "agari" && Contains(found.text, "shanten") && HasWord(found.text)
             && ParseInt(FirstWord(found.text)).Some?) ==> r == Shanten(ParseInt(FirstWord(found.text)).value)
  {
    match found
    case Waits(ts) => Tenpai(DenormalizeTiles(ts))
    case Status(s) =>
      if s == "agari" then Agari
      else if Contains(s, "shanten") then
        VisibleNotSpace('s');
        ContainsWord(s, "shanten", 0);
        match ParseInt(FirstWord(s))
        case Some(v) => Shanten(v)
        case None => OtherStatus(s)
      else OtherStatus(s)
  }

  /** The `shanten` field of the answer to what the wait finder returned:
      -1 for agari, 0 for waits, and for another status the number its
      first word parses to when it mentions "shanten", else no field. */
  lemma ShantenField(found: MachiResult)
    ensures var n := ShantenOf(Report(found));
            && (found == Status("agari") ==> n == Some(-1))
            && (found.Waits? ==> n == Some(0))
            && (found.Status? && found.text != "agari" ==>
                  (n.Some? <==> Contains(found.text, "shanten") && HasWord(found.text)
                                && ParseInt(FirstWord(found.text)).Some?)
                  && (n.Some? ==> n == ParseInt(FirstWord(found.text))))
  {
  }

  /** The handler: the wait finder is asked about the normalised hand, and
      an exception it raises is answered with its text. */
  function AnalyzeTenpai(hand: seq<string>, machi: seq<string> -> Result<MachiResult, string>): (r: TenpaiResponse)
    ensures machi(TenpaiHand(hand)).Failure? <==> r.Raised?
    ensures machi(TenpaiHand(hand)).Failure? ==> r.error == machi(TenpaiHand(hand)).error
    ensures machi(TenpaiHand(hand)).Success? ==> r == Report(machi(TenpaiHand(hand)).value)
  {
    match machi(TenpaiHand(hand))
    case Failure(e) => Raised(e)
    case Success(found) => Report(found)
  }

  /** Red fives and plain fives are the same to the wait finder, and a tile
      already plain is left alone. */
  lemma NormalizeForTenpaiIdempotent(t: string)
    ensures NormalizeForTenpai(NormalizeForTenpai(t)) == NormalizeForTenpai(t)
  {
    BaseKeyIdempotent(t);
  }

  /** A hand of thirteen tiles or fewer reaches the wait finder whole; a
      longer one loses everything after its thirteenth tile. */
  lemma TenpaiHandPrefix(hand: seq<string>, extra: seq<string>)
    requires |NormalizeTiles(hand)| >= 13
    ensures TenpaiHand(hand + extra) == TenpaiHand(hand)
  {
    var n, e := NormalizeTiles(hand), NormalizeTiles(extra);
    NormalizeTilesAppend(hand, extra);
    PlainFivesAppend(n, e);
    FirstThirteen(PlainFives(n), PlainFives(e));
  }

  lemma FirstThirteen(x: seq<string>, y: seq<string>)
    requires |x| >= 13
    ensures (if |x + y| > 13 then (x + y)[..13] else x + y) == (if |x| > 13 then x[..13] else x)
  {
    assert (x + y)[..13] == x[..13];
  }

  /** A status reading "<n> shanten" is reported as shanten n. */
  lemma ShantenStatus(n: int, rest: string)
    ensures Report(Status(IntString(n) + " shanten" + rest)) == Shanten(n)
    ensures ShantenOf(Report(Status(IntString(n) + " shanten" + rest))) == Some(n)
  {
    ShantenText(n, rest);
    ParseIntString(n);
  }

  /** The text "<n> shanten..." is not "agari", mentions "shanten" and
      starts with the word for n. */
  lemma ShantenText(n: int, rest: string)
    ensures var s := IntString(n) + " shanten" + rest;
            && s != "agari" && Contains(s, "shanten") && HasWord(s) && FirstWord(s) == IntString(n)
  {
    ShantenMentioned(n, rest);
    ShantenFirstWord(n, rest);
  }

  lemma ShantenMentioned(n: int, rest: string)
    ensures var s := IntString(n) + " shanten" + rest;
            s != "agari" && Contains(s, "shanten")
  {
    var w := IntString(n);
    var s := w + " shanten" + rest;
    ParseIntString(n);
    assert s[0] == w[0] != 'a';
    assert s[|w| + 1..|w| + 8] == "shanten";
    ContainsFrom(s, "shanten", |w| + 1);
  }

  lemma ShantenFirstWord(n: int, rest: string)
    ensures var s := IntString(n) + " shanten" + rest;
            HasWord(s) && FirstWord(s) == IntString(n)
  {
    IntStringWord(n);
    StatusFirstWord(IntString(n), rest);
  }

  lemma StatusFirstWord(w: string, rest: string)
    requires w != [] && forall i :: 0 <= i < |w| ==> !IsSpace(w[i])
    ensures HasWord(w + " shanten" + rest) && FirstWord(w + " shanten" + rest) == w
  {
    var t := "shanten" + rest;
    assert w + " shanten" + rest == w + " " + t;
    FirstWordJoined(w, t);
  }

  /** The waits come back with honours as letters, and normalising them
      again gives the wait finder's own list. */
  lemma WaitsRoundTrip(ts: seq<string>)
    requires forall i :: 0 <= i < |ts| ==> ts[i] != "" && ts[i] !in HonorMap
    ensures Report(Waits(ts)).Tenpai? && ShantenOf(Report(Waits(ts))) == Some(0)
    ensures forall i :: 0 <= i < |ts| ==> Report(Waits(ts)).waits[i] !in HonorMapReverse
    ensures NormalizeTiles(Report(Waits(ts)).waits) == ts
  {
  }

  /** For a hand whose normalised length stays within thirteen, the hand
      sent to the wait finder is made piece by piece. */
  lemma TenpaiHandAppend(a: seq<string>, b: seq<string>)
    requires |NormalizeTiles(a)| + |NormalizeTiles(b)| <= 13
    ensures TenpaiHand(a + b) == TenpaiHand(a) + TenpaiHand(b)
  {
    var na, nb := NormalizeTiles(a), NormalizeTiles(b);
    NormalizeTilesAppend(a, b);
    PlainFivesAppend(na, nb);
    assert TenpaiHand(a) == PlainFives(na);
    assert TenpaiHand(b) == PlainFives(nb);
    assert TenpaiHand(a + b) == PlainFives(na + nb);
  }

  lemma PlainFivesAppend(x: seq<string>, y: seq<string>)
    ensures PlainFives(x + y) == PlainFives(x) + PlainFives(y)
  {
    var l, r := PlainFives(x + y), PlainFives(x) + PlainFives(y);
    forall i | 0 <= i < |l| ensures l[i] == r[i] {
      if i < |x| {
        assert (x + y)[i] == x[i];
      } else {
        assert (x + y)[i] == y[i - |x|];
      }
    }
  }

  /** Plain tiles (no honour letter, no red five) reach the wait finder
      unchanged when there are at most thirteen of them. */
  lemma TenpaiHandPlain(ts: seq<string>)
    requires |ts| <= 13
    requires forall i :: 0 <= i < |ts| ==> ts[i] != "" && ts[i] !in HonorMap && ts[i] !in RedFives
    ensures |NormalizeTiles(ts)| == |ts| && TenpaiHand(ts) == ts
  {
    assert "" !in ts;
  }

  lemma EastTripletRedFive()
    ensures |NormalizeTiles(["E", "E", "E", "0m"])| == 4
    ensures TenpaiHand(["E", "E", "E", "0m"]) == ["to", "to", "to", "5m"]
  {
    var ts := ["E", "E", "E", "0m"];
    assert ts[0] == ts[1] == ts[2] == "E" && ts[3] == "0m";
    assert NormalizeTile("E") == "to" && NormalizeTile("0m") == "0m";
    assert "" !in ts;
    var n := NormalizeTiles(ts);
    assert n == ["to", "to", "to", "0m"];
  }

  /** The red-five hand: after nine plain tiles, three "E" reach the wait
      finder as "to" and the red five "0m" as "5m". */
  lemma RedFiveHandSent(plain: seq<string>)
    requires |plain| <= 9
    requires forall i :: 0 <= i < |plain| ==> plain[i] != "" && plain[i] !in HonorMap && plain[i] !in RedFives
    ensures TenpaiHand(plain + ["E", "E", "E", "0m"]) == plain + ["to", "to", "to", "5m"]
  {
    EastTripletRedFive();
    TenpaiHandPlain(plain);
    TenpaiHandAppend(plain, ["E", "E", "E", "0m"]);
  }

  /** ... and a single wait of "5m" comes back as tenpai waiting on "5m",
      shanten 0. */
  lemma RedFiveHand(plain: seq<string>, machi: seq<string> -> Result<MachiResult, string>)
    requires |plain| <= 9
    requires forall i :: 0 <= i < |plain| ==> plain[i] != "" && plain[i] !in HonorMap && plain[i] !in RedFives
    requires machi(plain + ["to", "to", "to", "5m"]) == Success(Waits(["5m"]))
    ensures AnalyzeTenpai(plain + ["E", "E", "E", "0m"], machi) == Tenpai(["5m"])
  {
    RedFiveHandSent(plain);
  }
}
