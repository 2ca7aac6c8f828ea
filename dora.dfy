/** Dora from indicators: the dora tile is the one after the indicator in the
    indicator's own cycle. Ranks run 1..9 and wrap to 1, a red five counts as
    a five, the winds run to -> na -> sh -> pe -> to and the dragons
    hk -> ht -> ty -> hk. Ura-dora indicators join the list only for a
    riichi hand. */
module Dora {
  import opened Wrappers
  import opened Text
  import opened Tiles

  /** honor_cycle and dragon_cycle: the first entry is repeated at the end,
      so the entry after the first occurrence is always the successor. */
  const WindCycle: seq<string> := ["to", "na", "sh", "pe", "to"]
  const DragonCycle: seq<string> := ["hk", "ht", "ty", "hk"]

  /** The rank an indicator digit stands for: the red five's 0 reads as 5. */
  function Rank(c: char): (n: nat)
    requires IsDigit(c)
  {
    if c == '0' then 5 else DigitValue(c)
  }

  /** dora_from_indicator. The token is normalised first, so letter honours
      work too. A two-character token whose second character is a suit letter
      is read as a suited tile; when its first character is not an ASCII
      digit 0-9 the source's `int(t[0])` raises ValueError, modelled as
      Failure carrying the token (Python would also accept the other Unicode
      decimal digits there; this model does not). It fails for exactly those
      tokens, a suited dora is again a suited tile of the same suit, and ""
      gives "". */
  function DoraFromIndicator(tile: string): (r: Result<string, string>)
    ensures var t := NormalizeTile(tile);
            r.Failure? <==> |t| == 2 && IsSuit(t[1]) && !IsDigit(t[0])
    ensures r.Failure? ==> r.error == NormalizeTile(tile)
    ensures var t := NormalizeTile(tile);
            |t| == 2 && IsSuit(t[1]) && IsDigit(t[0]) ==>
              r.Success? && |r.value| == 2 && '1' <= r.value[0] <= '9' && r.value[1] == t[1]
    ensures r.Success? ==> (r.value == "" <==> tile == "")
  {
    if tile == "" then Success("")
    else
      var t := NormalizeTile(tile);
      if |t| == 2 && IsSuit(t[1]) then
        if IsDigit(t[0]) then
          var n := Rank(t[0]);
          var next := if n == 9 then 1 else n + 1;
          Success([DigitChar(next), t[1]])
        else Failure(t)
      else if t in WindCycle then
        assert WindCycle[4] == WindCycle[0];
        Success(WindCycle[IndexOf(WindCycle, t) + 1])
      else if t in DragonCycle then
        assert DragonCycle[3] == DragonCycle[0];
        Success(DragonCycle[IndexOf(DragonCycle, t) + 1])
      else Success(t)
  }

  /** A suited indicator of rank n (0 read as 5) gives rank n + 1 of the same
      suit, and 9 wraps round to 1: "0m" gives "6m", "9p" gives "1p". */
  lemma DoraSuited(d: char, suit: char)
    requires IsDigit(d) && IsSuit(suit)
    ensures var r := DoraFromIndicator([d, suit]);
            r.Success? && |r.value| == 2 && IsDigit(r.value[0]) && r.value[1] == suit
            && DigitValue(r.value[0]) == Rank(d) % 9 + 1
  {
    assert NormalizeTile([d, suit]) == [d, suit] by {
      assert [d, suit] !in HonorMap;
    }
  }

  /** The four winds, each distinct: the fifth entry closes the cycle. */
  lemma WindCycleShape()
    ensures |WindCycle| == 5 && WindCycle[4] == WindCycle[0]
    ensures forall i, j :: 0 <= i < j < 4 ==> WindCycle[i] != WindCycle[j]
    ensures forall i :: 0 <= i < 5 ==> |WindCycle[i]| == 2 && !IsSuit(WindCycle[i][1])
  {
  }

  lemma DragonCycleShape()
    ensures |DragonCycle| == 4 && DragonCycle[3] == DragonCycle[0]
    ensures forall i, j :: 0 <= i < j < 3 ==> DragonCycle[i] != DragonCycle[j]
    ensures forall i :: 0 <= i < 4 ==> |DragonCycle[i]| == 2 && !IsSuit(DragonCycle[i][1])
    ensures forall i :: 0 <= i < 4 ==> DragonCycle[i] !in WindCycle
  {
  }

  /** Each wind indicator gives the next wind: to -> na -> sh -> pe -> to. */
  lemma {:induction false} DoraWind(i: nat)
    requires i < 4
    ensures DoraFromIndicator(WindCycle[i]) == Success(WindCycle[i + 1])
  {
    WindCycleShape();
    var t := WindCycle[i];
    assert t != "" && t !in HonorMap;
    assert IndexOf(WindCycle, t) == i;
  }

  /** Each dragon indicator gives the next dragon: hk -> ht -> ty -> hk. */
  lemma {:induction false} DoraDragon(i: nat)
    requires i < 3
    ensures DoraFromIndicator(DragonCycle[i]) == Success(DragonCycle[i + 1])
  {
    DragonCycleShape();
    var t := DragonCycle[i];
    assert t != "" && t !in HonorMap;
    assert IndexOf(DragonCycle, t) == i;
  }

  /** Any other token comes back as it was normalised, and "" gives "". */
  lemma DoraOtherToken(tile: string)
    requires var t := NormalizeTile(tile);
             !(|t| == 2 && IsSuit(t[1])) && t !in WindCycle && t !in DragonCycle
    ensures DoraFromIndicator(tile) == Success(NormalizeTile(tile))
  {
  }

  /** A red five indicates exactly what the plain five of its suit indicates. */
  lemma DoraRedFive(tile: string)
    ensures DoraFromIndicator(BaseKey(tile)) == DoraFromIndicator(tile)
  {
    if tile in RedFives {
      var b := BaseKey(tile);
      assert NormalizeTile(tile) == tile && NormalizeTile(b) == b by {
        assert tile !in HonorMap && b !in HonorMap;
      }
    }
  }

  /** The 34 tile kinds: plain suited tiles and the seven romaji honours. */
  predicate IsTileKind(t: string) {
    (|t| == 2 && '1' <= t[0] <= '9' && IsSuit(t[1])) || t in WindCycle || t in DragonCycle
  }

  /** The indicator whose dora is `t`: the tile before `t` in its cycle. */
  function IndicatorFor(t: string): (r: string)
    requires IsTileKind(t)
  {
    if |t| == 2 && IsSuit(t[1]) then
      var n := DigitValue(t[0]);
      [DigitChar(if n == 1 then 9 else n - 1), t[1]]
    else if t in WindCycle then
      var i := IndexOf(WindCycle, t);
      WindCycle[if i == 0 then 3 else i - 1]
    else
      var i := IndexOf(DragonCycle, t);
      DragonCycle[if i == 0 then 2 else i - 1]
  }

  /** The inverse in each of the three kinds of cycle. */
  lemma SuitedRoundTrip(t: string)
    requires |t| == 2 && '1' <= t[0] <= '9' && IsSuit(t[1])
    ensures IsTileKind(IndicatorFor(t)) && DoraFromIndicator(IndicatorFor(t)) == Success(t)
    ensures DoraFromIndicator(t).Success? && IsTileKind(DoraFromIndicator(t).value)
    ensures IndicatorFor(DoraFromIndicator(t).value) == t
  {
    assert t == [t[0], t[1]];
    var i := IndicatorFor(t);
    assert i == [i[0], i[1]];
    DoraSuited(i[0], i[1]);
    DoraSuited(t[0], t[1]);
    var d := DoraFromIndicator(t).value;
    assert d == [d[0], d[1]];
  }

  lemma WindRoundTrip(i: nat)
    requires i < 4
    ensures IsTileKind(IndicatorFor(WindCycle[i])) && DoraFromIndicator(IndicatorFor(WindCycle[i])) == Success(WindCycle[i])
    ensures DoraFromIndicator(WindCycle[i]).Success? && IsTileKind(DoraFromIndicator(WindCycle[i]).value)
    ensures IndicatorFor(DoraFromIndicator(WindCycle[i]).value) == WindCycle[i]
  {
    WindCycleShape();
    var j := if i == 0 then 3 else i - 1;
    var k := if i == 3 then 0 else i + 1;
    DoraWind(i);
    DoraWind(j);
    IndexOfDistinct(WindCycle, i);
    IndexOfDistinct(WindCycle, k);
    assert IndicatorFor(WindCycle[i]) == WindCycle[j];
    assert WindCycle[j + 1] == WindCycle[i];
    assert WindCycle[i + 1] == WindCycle[k];
    assert IndicatorFor(WindCycle[k]) == WindCycle[i];
  }

  lemma DragonRoundTrip(i: nat)
    requires i < 3
    ensures IsTileKind(IndicatorFor(DragonCycle[i])) && DoraFromIndicator(IndicatorFor(DragonCycle[i])) == Success(DragonCycle[i])
    ensures DoraFromIndicator(DragonCycle[i]).Success? && IsTileKind(DoraFromIndicator(DragonCycle[i]).value)
    ensures IndicatorFor(DoraFromIndicator(DragonCycle[i]).value) == DragonCycle[i]
  {
    WindCycleShape();
    DragonCycleShape();
    var j := if i == 0 then 2 else i - 1;
    var k := if i == 2 then 0 else i + 1;
    DoraDragon(i);
    DoraDragon(j);
    IndexOfDistinct(DragonCycle, i);
    IndexOfDistinct(DragonCycle, k);
    assert IndicatorFor(DragonCycle[i]) == DragonCycle[j];
    assert DragonCycle[j + 1] == DragonCycle[i];
    assert DragonCycle[i + 1] == DragonCycle[k];
    assert IndicatorFor(DragonCycle[k]) == DragonCycle[i];
  }

  /** Every tile kind is the dora of exactly one kind: IndicatorFor undoes
      DoraFromIndicator and DoraFromIndicator undoes IndicatorFor, so the
      successor permutes the 34 kinds. */
  lemma DoraPermutesKinds(t: string)
    requires IsTileKind(t)
    ensures IsTileKind(IndicatorFor(t)) && DoraFromIndicator(IndicatorFor(t)) == Success(t)
    ensures DoraFromIndicator(t).Success? && IsTileKind(DoraFromIndicator(t).value)
    ensures IndicatorFor(DoraFromIndicator(t).value) == t
  {
    WindCycleShape();
    DragonCycleShape();
    if |t| == 2 && '1' <= t[0] <= '9' && IsSuit(t[1]) {
      SuitedRoundTrip(t);
    } else if t in WindCycle {
      var i :| 0 <= i < 5 && WindCycle[i] == t;
      WindRoundTrip(if i == 4 then 0 else i);
    } else {
      var i :| 0 <= i < 4 && DragonCycle[i] == t;
      DragonRoundTrip(if i == 3 then 0 else i);
    }
  }

  /** `[dora_from_indicator(t) for t in ts if t]`; the first indicator that
      raises stops the whole list. */
  function Successors(ts: seq<string>): (r: Result<seq<string>, string>)
    ensures "" !in ts && r.Success? ==>
              |r.value| == |ts| && forall i :: 0 <= i < |ts| ==> DoraFromIndicator(ts[i]) == Success(r.value[i])
  {
    if ts == [] then Success([])
    else if ts[0] == "" then Successors(ts[1..])
    else match DoraFromIndicator(ts[0])
      case Failure(e) => Failure(e)
      case Success(d) =>
        match Successors(ts[1..])
        case Failure(e) => Failure(e)
        case Success(ds) => Success([d] + ds)
  }

  /** The list fails exactly when some indicator raises, and then with the
      first indicator that does. */
  lemma {:induction false} SuccessorsFailure(ts: seq<string>)
    requires "" !in ts
    ensures Successors(ts).Failure? <==> exists i :: 0 <= i < |ts| && DoraFromIndicator(ts[i]).Failure?
    ensures Successors(ts).Failure? ==>
              exists i :: 0 <= i < |ts| && DoraFromIndicator(ts[i]) == Failure(Successors(ts).error)
                && forall j :: 0 <= j < i ==> DoraFromIndicator(ts[j]).Success?
  {
    if ts != [] {
      SuccessorsFailure(ts[1..]);
      if DoraFromIndicator(ts[0]).Success? && Successors(ts[1..]).Failure? {
        var i :| 0 <= i < |ts| - 1 && DoraFromIndicator(ts[1..][i]) == Failure(Successors(ts[1..]).error)
                  && forall j :: 0 <= j < i ==> DoraFromIndicator(ts[1..][j]).Success?;
        assert DoraFromIndicator(ts[i + 1]) == Failure(Successors(ts).error);
        assert forall j :: 0 <= j < i + 1 ==> DoraFromIndicator(ts[j]).Success? by {
          forall j | 0 <= j < i + 1 ensures DoraFromIndicator(ts[j]).Success? {
            if j > 0 { assert ts[j] == ts[1..][j - 1]; }
          }
        }
      }
      if Successors(ts).Success? {
        forall i | 0 <= i < |ts| ensures DoraFromIndicator(ts[i]).Success? {
          if i > 0 { assert ts[i] == ts[1..][i - 1]; }
        }
      }
    }
  }

  /** Indicators are looked up one after the other: the list for `a + b` is
      the list for `a` followed by the list for `b`, and it fails with the
      first failure. */
  lemma {:induction false} SuccessorsAppend(a: seq<string>, b: seq<string>)
    ensures Successors(a + b) ==
              match Successors(a)
              case Failure(e) => Failure(e)
              case Success(da) =>
                match Successors(b)
                case Failure(e) => Failure(e)
                case Success(db) => Success(da + db)
  {
    if a == [] {
      assert a + b == b;
      if Successors(b).Success? {
        assert [] + Successors(b).value == Successors(b).value;
      }
    } else {
      assert (a + b)[0] == a[0] && (a + b)[1..] == a[1..] + b;
      SuccessorsAppend(a[1..], b);
      var rest, tail := Successors(a[1..]), Successors(b);
      if a[0] != "" && DoraFromIndicator(a[0]).Success? && rest.Success? && tail.Success? {
        var d := DoraFromIndicator(a[0]).value;
        assert [d] + (rest.value + tail.value) == ([d] + rest.value) + tail.value;
      }
    }
  }

  /** The dora list handed to the scorer: the successors of the dora
      indicators, followed by those of the ura-dora indicators when the hand
      is in riichi. */
  function DoraTiles(doraIndicators: seq<string>, uraIndicators: seq<string>, riichi: bool): (r: Result<seq<string>, string>)
    ensures r.Success? ==>
              |r.value| == |NormalizeTiles(doraIndicators)| + (if riichi then |NormalizeTiles(uraIndicators)| else 0)
              && forall i :: 0 <= i < |r.value| ==> r.value[i] != ""
  {
    var dora := NormalizeTiles(doraIndicators);
    var ura := NormalizeTiles(uraIndicators);
    Successors(if riichi then dora + ura else dora)
  }

  /** Without riichi the ura-dora indicators are not read at all; with riichi
      the dora list is the list without riichi followed by the ura dora. */
  lemma DoraTilesUra(doraIndicators: seq<string>, uraIndicators: seq<string>, otherUra: seq<string>)
    ensures DoraTiles(doraIndicators, uraIndicators, false) == DoraTiles(doraIndicators, otherUra, false)
    ensures var plain := DoraTiles(doraIndicators, uraIndicators, false);
            var ura := Successors(NormalizeTiles(uraIndicators));
            DoraTiles(doraIndicators, uraIndicators, true) ==
              if plain.Failure? then plain
              else if ura.Failure? then ura
              else Success(plain.value + ura.value)
  {
    SuccessorsAppend(NormalizeTiles(doraIndicators), NormalizeTiles(uraIndicators));
  }
}
