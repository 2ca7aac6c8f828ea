/** The `/analysis/hand` handler, analyze_hand_api: it normalises the hand,
    the win tile and the melds, validates every tile, builds the dora list
    and the tile list for the scorer, calls the scorer and turns its yaku
    into a list of names. The scorer (calc_analyze_hand), the meld converter
    (convert_to_melds) and the set of known tiles (ALL_TILES) come from a
    library this model does not contain; they are parameters here. The
    converter and the scorer may raise; they are then modelled as returning
    Failure with the text of the exception. */
module HandApi {
  import opened Wrappers
  import opened Tiles
  import opened Dora
  import opened Validation
  import opened Melds
  import opened Yaku

  datatype Wind = East | South | West | North

  /** `WIND_MAP.get(s, EAST)`: each wind letter names its wind, anything
      else reads as East. */
  function WindOf(s: string): (w: Wind)
    ensures s == "S" ==> w == South
    ensures s == "W" ==> w == West
    ensures s == "N" ==> w == North
    ensures s !in {"S", "W", "N"} ==> w == East
  {
    if s == "S" then South else if s == "W" then West else if s == "N" then North else East
  }

  /** The request body, each field as the handler reads it: a missing list
      is [], a missing token "". The fields that only describe the
      situation of the win are grouped in `situation`. */
  datatype HandPayload = HandPayload(
    hand: seq<string>,
    winTile: string,
    melds: seq<MeldPayload>,
    doraIndicators: seq<string>,
    uraDoraIndicators: seq<string>,
    situation: Situation)

  /** The situation fields of the request body: a flag is its truthiness, a
      missing wind "E" and a missing win type "ron". `paarenchan` is what
      `int()` makes of the field, None when it raises or the field is
      falsy. */
  datatype Situation = Situation(
    riichi: bool, isRiichi: bool, isDaburuRiichi: bool, isOpenRiichi: bool,
    ippatsu: bool, isIppatsu: bool,
    seatWind: string, roundWind: string, winType: string,
    isRinshan: bool, isChankan: bool, isHaitei: bool, isHoutei: bool,
    isNagashiMangan: bool, isTenhou: bool, isRenhou: bool, isChiihou: bool,
    paarenchan: Option<int>, riichiSticks: int, honba: int)

  /** The paarenchan count passed on: the integer read, 0 when there is none. */
  function Paarenchan(w: Situation): int {
    match w.paarenchan
    case Some(n) => n
    case None => 0
  }

  /** The arguments of the scorer call; `M` is the converter's meld type. */
  datatype ScoreRequest<M> = ScoreRequest(
    tiles: seq<string>, win: string, melds: seq<M>, doras: seq<string>, hasAka: bool,
    isTsumo: bool, isRiichi: bool, isIppatsu: bool,
    isRinshan: bool, isChankan: bool, isHaitei: bool, isHoutei: bool,
    isDaburuRiichi: bool, isNagashiMangan: bool, isTenhou: bool, isRenhou: bool, isChiihou: bool,
    isOpenRiichi: bool, paarenchan: int, playerWind: Wind, roundWind: Wind,
    kyoutakuNumber: int, tsumiNumber: int)

  /** What the scorer returns: an error text ("" for none), han, fu, the cost
      object and the yaku. */
  datatype ScoreResult<C> = ScoreResult(error: string, han: int, fu: int, cost: C, yaku: seq<Yaku>)

  /** The handler's answer: a validation failure with its error text, a
      dora indicator whose rank is not a digit (the ValueError the handler
      catches), the text of an exception the converter or the scorer
      raised, a scorer error, or the score. */
  datatype HandResponse<C> =
    | Invalid(verdict: Verdict, error: string)
    | IndicatorError(tile: string)
    | Raised(error: string)
    | ScorerError(error: string)
    | Scored(han: int, fu: int, cost: C, yaku: seq<string>)

  /** `all_tiles`: the hand, the win tile when there is one, and the tiles of
      every meld that is not skipped. None is empty or a letter code. */
  function AllTiles(p: HandPayload): (r: seq<string>)
    ensures forall i :: 0 <= i < |r| ==> r[i] != "" && r[i] !in HonorMap
    ensures |r| >= |NormalizeTiles(p.hand)| + |MeldTiles(p.melds)|
  {
    var win := NormalizeTile(p.winTile);
    NormalizeTiles(p.hand) + (if win != "" then [win] else []) + MeldTiles(p.melds)
  }

  /** Whether any of the four riichi flags is set. Without one, the ura-dora
      indicators are not read: the dora list is the one for no ura at all. */
  predicate InRiichi(p: HandPayload): (r: bool)
    ensures r <==> true in [p.situation.riichi, p.situation.isRiichi, p.situation.isDaburuRiichi, p.situation.isOpenRiichi]
    ensures !r ==> DoraTiles(p.doraIndicators, p.uraDoraIndicators, r) == DoraTiles(p.doraIndicators, [], r)
  {
    DoraTilesUra(p.doraIndicators, p.uraDoraIndicators, []);
    var w := p.situation;
    w.riichi || w.isRiichi || w.isDaburuRiichi || w.isOpenRiichi
  }

  /** `tiles_for_calc`: the hand, then the meld tiles, then the win tile
      unless the list already holds 14 tiles plus one per kan. */
  function CalcTiles(hand: seq<string>, win: string, actions: seq<Action>): (r: seq<string>)
    ensures var base := hand + ActionTiles(actions);
            && |base| <= |r| <= |base| + 1 && r[..|base|] == base
            && (|r| == |base| + 1 <==> win != "" && |base| < 14 + KanCount(actions))
            && (|base| <= 14 + KanCount(actions) ==> |r| <= 14 + KanCount(actions))
            && (|r| > |base| ==> r[|base|] == win && win != "")
  {
    var base := hand + ActionTiles(actions);
    if win != "" && |base| < 14 + KanCount(actions) then base + [win] else base
  }

  /** `melds = convert_to_melds(actions) if actions else []`: the converter
      is only consulted when some meld was kept. */
  function ConvertedMelds<M>(p: HandPayload, convert: seq<Action> -> Result<seq<M>, string>): (r: Result<seq<M>, string>)
    ensures Lowered(p.melds) == [] ==> r == Success([])
    ensures Lowered(p.melds) != [] ==> r == convert(Lowered(p.melds))
  {
    var actions := Lowered(p.melds);
    if actions == [] then Success([]) else convert(actions)
  }

  /** The scorer call's arguments: the tiles, win tile, melds, dora list
      and red-five flag given, and the flags, winds and counters read from
      the payload. */
  function ScoreArgs<M>(p: HandPayload, tiles: seq<string>, win: string, melds: seq<M>,
                        doras: seq<string>, hasAka: bool): (r: ScoreRequest<M>)
    ensures r.tiles == tiles && r.win == win && r.melds == melds && r.doras == doras && r.hasAka == hasAka
    ensures r.isRiichi <==> InRiichi(p)
    ensures r.isTsumo <==> p.situation.winType == "tsumo"
    ensures r.paarenchan == Paarenchan(p.situation)
  {
    var w := p.situation;
    ScoreRequest(
      tiles, win, melds, doras, hasAka, w.winType == "tsumo", InRiichi(p), w.ippatsu || w.isIppatsu,
      w.isRinshan, w.isChankan, w.isHaitei, w.isHoutei,
      w.isDaburuRiichi, w.isNagashiMangan, w.isTenhou, w.isRenhou, w.isChiihou,
      w.isOpenRiichi, Paarenchan(w),
      WindOf(w.seatWind), WindOf(w.roundWind), w.riichiSticks, w.honba)
  }

  /** The scorer request built from a payload that passed validation, with
      the converted melds `melds` and the dora list `doras`. */
  function Request<M>(p: HandPayload, melds: seq<M>, doras: seq<string>): (r: ScoreRequest<M>)
    ensures r.win == NormalizeTile(p.winTile) && r.melds == melds && r.doras == doras
    ensures r.hasAka == HasAka(AllTiles(p))
  {
    var hand := NormalizeTiles(p.hand);
    var win := NormalizeTile(p.winTile);
    var actions := Lowered(p.melds);
    ScoreArgs(p, CalcTiles(hand, win, actions), win, melds, doras, HasAka(AllTiles(p)))
  }

  /** The handler, stated on whole values: validation, then the converter,
      then the dora list, then the scorer, each able to end the request. */
  function Analyze<M, C>(p: HandPayload, known: set<string>, convert: seq<Action> -> Result<seq<M>, string>,
                         score: ScoreRequest<M> -> Result<ScoreResult<C>, string>): (r: HandResponse<C>)
    ensures r.Invalid? <==> Validate(AllTiles(p), known) != Pass
    ensures r.Invalid? ==> r.verdict == Validate(AllTiles(p), known) && r.error == Message(r.verdict)
    ensures r.IndicatorError? ==> ConvertedMelds(p, convert).Success?
                                  && DoraTiles(p.doraIndicators, p.uraDoraIndicators, InRiichi(p)) == Failure(r.tile)
  {
    var verdict := Validate(AllTiles(p), known);
    if verdict != Pass then Invalid(verdict, Message(verdict))
    else
      match ConvertedMelds(p, convert)
      case Failure(e) => Raised(e)
      case Success(melds) => WithMelds(p, melds, score)
  }

  /** The part of the handler after the melds are converted: the dora list,
      then the scorer. */
  function WithMelds<M, C>(p: HandPayload, melds: seq<M>, score: ScoreRequest<M> -> Result<ScoreResult<C>, string>): (r: HandResponse<C>)
    ensures !r.Invalid?
    ensures r.IndicatorError? ==> DoraTiles(p.doraIndicators, p.uraDoraIndicators, InRiichi(p)) == Failure(r.tile)
    ensures DoraTiles(p.doraIndicators, p.uraDoraIndicators, InRiichi(p)).Failure? ==> r.IndicatorError?
    ensures var d := DoraTiles(p.doraIndicators, p.uraDoraIndicators, InRiichi(p));
            d.Success? ==> r == Answer(score(Request(p, melds, d.value)))
  {
    match DoraTiles(p.doraIndicators, p.uraDoraIndicators, InRiichi(p))
    case Failure(t) => IndicatorError(t)
    case Success(doras) => Answer(score(Request(p, melds, doras)))
  }

  /** The answer made of what the scorer did: its exception, its error, or
      its score with the yaku expanded. */
  function Answer<C>(outcome: Result<ScoreResult<C>, string>): (r: HandResponse<C>)
    ensures !r.Invalid? && !r.IndicatorError?
    ensures outcome.Failure? ==> r == Raised(outcome.error)
    ensures outcome.Success? && outcome.value.error != "" ==> r == ScorerError(outcome.value.error)
    ensures outcome.Success? && outcome.value.error == "" ==>
              r.Scored? && r.han == outcome.value.han && r.fu == outcome.value.fu && r.cost == outcome.value.cost
              && r.yaku == YakuNames(outcome.value.yaku) && |r.yaku| >= |outcome.value.yaku|
  {
    match outcome
    case Failure(e) => Raised(e)
    case Success(result) =>
      if result.error != "" then ScorerError(result.error)
      else Scored(result.han, result.fu, result.cost, YakuNames(result.yaku))
  }

  /** analyze_hand_api, step by step as the handler runs it. */
  method AnalyzeHand<M, C>(p: HandPayload, known: set<string>, convert: seq<Action> -> Result<seq<M>, string>,
                           score: ScoreRequest<M> -> Result<ScoreResult<C>, string>) returns (resp: HandResponse<C>)
    ensures resp == Analyze(p, known, convert, score)
  {
    var hand, win, actions, allTiles := CollectTiles(p);
    var verdict := CheckTiles(allTiles, known);
    if verdict != Pass {
      return Invalid(verdict, Message(verdict));
    }
    var converted := if actions == [] then Success([]) else convert(actions);
    if converted.Failure? {
      return Raised(converted.error);
    }
    var melds := converted.value;
    var doraTiles := BuildDoraTiles(p);
    if doraTiles.Failure? {
      return IndicatorError(doraTiles.error);
    }
    var request := BuildRequest(p, hand, win, actions, melds, doraTiles.value, HasAka(allTiles));
    resp := ScoreAndAnswer(score, request);
  }

  /** The handler's first steps: the hand, the win tile, the meld loop and
      `all_tiles`. */
  method CollectTiles(p: HandPayload) returns (hand: seq<string>, win: string, actions: seq<Action>, allTiles: seq<string>)
    ensures hand == NormalizeTiles(p.hand) && win == NormalizeTile(p.winTile)
    ensures actions == Lowered(p.melds) && allTiles == AllTiles(p)
  {
    hand := NormalizeTiles(p.hand);
    win := NormalizeTile(p.winTile);
    var meldTiles;
    actions, meldTiles := LowerMelds(p.melds);
    allTiles := hand + (if win != "" then [win] else []) + meldTiles;
  }

  /** The scorer call and the handler's reading of its result. */
  method ScoreAndAnswer<M, C>(score: ScoreRequest<M> -> Result<ScoreResult<C>, string>, request: ScoreRequest<M>)
    returns (resp: HandResponse<C>)
    ensures resp == Answer(score(request))
  {
    var outcome := score(request);
    if outcome.Failure? {
      return Raised(outcome.error);
    }
    var result := outcome.value;
    if result.error != "" {
      return ScorerError(result.error);
    }
    var yaku := ExpandYaku(result.yaku);
    return Scored(result.han, result.fu, result.cost, yaku);
  }

  /** The handler's dora list: the ura indicators join the dora indicators
      under riichi, and each indicator gives its successor. */
  method BuildDoraTiles(p: HandPayload) returns (doraTiles: Result<seq<string>, string>)
    ensures doraTiles == DoraTiles(p.doraIndicators, p.uraDoraIndicators, InRiichi(p))
  {
    var doraIndicators := NormalizeTiles(p.doraIndicators);
    var uraIndicators := NormalizeTiles(p.uraDoraIndicators);
    if InRiichi(p) {
      doraIndicators := doraIndicators + uraIndicators;
    }
    doraTiles := Successors(doraIndicators);
  }

  /** The handler's construction of the scorer call: the tile list with its
      loop over the meld actions, then the keyword arguments. */
  method BuildRequest<M>(p: HandPayload, hand: seq<string>, win: string, actions: seq<Action>,
                         melds: seq<M>, doras: seq<string>, hasAka: bool) returns (request: ScoreRequest<M>)
    requires hand == NormalizeTiles(p.hand) && win == NormalizeTile(p.winTile) && actions == Lowered(p.melds)
    requires hasAka == HasAka(AllTiles(p))
    ensures request == Request(p, melds, doras)
  {
    var meldTilesForCalc, kanCount := CollectForCalc(actions);
    var tilesForCalc := hand + meldTilesForCalc;
    ghost var base := tilesForCalc;
    assert base == hand + ActionTiles(actions);
    if win != "" && |tilesForCalc| < 14 + kanCount {
      tilesForCalc := tilesForCalc + [win];
    }
    assert tilesForCalc == CalcTiles(hand, win, actions);
    request := ScoreArgs(p, tilesForCalc, win, melds, doras, hasAka);
  }

  /** A closed hand of thirteen plain tokens with a win tile, as in a ron
      on a concealed hand: the converter is not consulted, and the scorer
      gets the hand followed by the win tile, no melds, and the win type
      and dora list as given. */
  lemma ClosedHandRequest<M>(p: HandPayload, convert: seq<Action> -> Result<seq<M>, string>, doras: seq<string>)
    requires p.melds == [] && |p.hand| == 13
    requires forall i :: 0 <= i < |p.hand| ==> p.hand[i] != "" && p.hand[i] !in HonorMap
    requires p.winTile != "" && p.winTile !in HonorMap
    ensures ConvertedMelds(p, convert) == Success([])
    ensures var req := Request<M>(p, [], doras);
            && req.tiles == p.hand + [p.winTile] && req.win == p.winTile
            && req.melds == [] && req.doras == doras
            && (req.isTsumo <==> p.situation.winType == "tsumo")
  {
    var hand := NormalizeTiles(p.hand);
    assert "" !in p.hand;
    assert hand == p.hand;
    assert Lowered(p.melds) == [] && ActionTiles([]) == [] && KanCount([]) == 0;
    assert hand + ActionTiles([]) == p.hand;
  }

  /** A hand that fails validation is answered with that failure and its
      error text, whatever the scorer and the converter would do: neither
      is consulted. */
  lemma RejectedBeforeScoring<M, C>(p: HandPayload, known: set<string>,
                                     convert1: seq<Action> -> Result<seq<M>, string>, score1: ScoreRequest<M> -> Result<ScoreResult<C>, string>,
                                     convert2: seq<Action> -> Result<seq<M>, string>, score2: ScoreRequest<M> -> Result<ScoreResult<C>, string>)
    requires Validate(AllTiles(p), known) != Pass
    ensures var v := Validate(AllTiles(p), known);
            Analyze(p, known, convert1, score1) == Invalid(v, Message(v))
    ensures Analyze(p, known, convert1, score1) == Analyze(p, known, convert2, score2)
  {
  }

  /** The converter is called before the dora indicators are read: when it
      raises on a validated hand, its exception is the answer, whatever the
      indicators and the scorer. */
  lemma ConverterRaisesFirst<M, C>(p: HandPayload, known: set<string>, convert: seq<Action> -> Result<seq<M>, string>,
                                   score: ScoreRequest<M> -> Result<ScoreResult<C>, string>, e: string)
    requires Validate(AllTiles(p), known) == Pass
    requires Lowered(p.melds) != [] && convert(Lowered(p.melds)) == Failure(e)
    ensures forall dora: seq<string>, ura: seq<string> ::
              Analyze(p.(doraIndicators := dora, uraDoraIndicators := ura), known, convert, score) == Raised(e)
  {
    forall dora: seq<string>, ura: seq<string>
      ensures Analyze(p.(doraIndicators := dora, uraDoraIndicators := ura), known, convert, score) == Raised(e)
    {
      var q := p.(doraIndicators := dora, uraDoraIndicators := ura);
      assert AllTiles(q) == AllTiles(p) && q.melds == p.melds;
    }
  }

  /** The tiles handed to the scorer are among the tiles validated, counted
      with multiplicity. */
  lemma CalcTilesWithinAll(p: HandPayload)
    ensures multiset(CalcTiles(NormalizeTiles(p.hand), NormalizeTile(p.winTile), Lowered(p.melds))) <= multiset(AllTiles(p))
  {
    var hand := NormalizeTiles(p.hand);
    var win := NormalizeTile(p.winTile);
    var actions := Lowered(p.melds);
    ActionTilesLowered(p.melds);
    var base := hand + ActionTiles(actions);
    var winPart: seq<string> := if win != "" then [win] else [];
    var melds := MeldTiles(p.melds);
    assert AllTiles(p) == hand + winPart + melds;
    assert multiset(AllTiles(p)) == multiset(hand) + multiset(winPart) + multiset(melds);
    assert multiset(base) == multiset(hand) + multiset(melds);
    if win != "" && |base| < 14 + KanCount(actions) {
      assert CalcTiles(hand, win, actions) == base + winPart;
    }
  }

  /** A tile handed to the scorer for a hand that passed validation is a
      known tile, and no red five is handed over twice. */
  lemma RequestTilesValidated<M>(p: HandPayload, known: set<string>, melds: seq<M>, doras: seq<string>)
    requires Validate(AllTiles(p), known) == Pass
    ensures var tiles := Request(p, melds, doras).tiles;
            && multiset(tiles) <= multiset(AllTiles(p))
            && (forall i :: 0 <= i < |tiles| ==> tiles[i] in known)
            && (forall r :: r in RedFives ==> multiset(tiles)[r] <= 1)
  {
    var all := AllTiles(p);
    var tiles := Request(p, melds, doras).tiles;
    CalcTilesWithinAll(p);
    ValidatePass(all, known);
    WithinKnown(tiles, all, known);
  }

  /** Tiles drawn from a validated list are known, and their red fives are
      not repeated. */
  lemma WithinKnown(xs: seq<string>, ys: seq<string>, known: set<string>)
    requires multiset(xs) <= multiset(ys)
    requires forall i :: 0 <= i < |ys| ==> ys[i] in known
    requires forall r :: r in RedFives ==> multiset(ys)[r] <= 1
    ensures forall i :: 0 <= i < |xs| ==> xs[i] in known
    ensures forall r :: r in RedFives ==> multiset(xs)[r] <= 1
  {
    forall i | 0 <= i < |xs| ensures xs[i] in known {
      assert multiset(ys)[xs[i]] > 0;
      var j :| 0 <= j < |ys| && ys[j] == xs[i];
    }
  }

  /** The answer depends on the payload only through the tiles validated,
      the converted melds, the dora list and the scorer request. */
  lemma AnalyzeDependsOn<M, C>(p: HandPayload, q: HandPayload, known: set<string>,
                               convert: seq<Action> -> Result<seq<M>, string>, score: ScoreRequest<M> -> Result<ScoreResult<C>, string>)
    requires AllTiles(p) == AllTiles(q)
    requires ConvertedMelds(p, convert) == ConvertedMelds(q, convert)
    requires DoraTiles(p.doraIndicators, p.uraDoraIndicators, InRiichi(p)) == DoraTiles(q.doraIndicators, q.uraDoraIndicators, InRiichi(q))
    requires forall melds: seq<M>, doras: seq<string> :: Request(p, melds, doras) == Request(q, melds, doras)
    ensures Analyze(p, known, convert, score) == Analyze(q, known, convert, score)
  {
    var melds := ConvertedMelds(p, convert);
    var doras := DoraTiles(p.doraIndicators, p.uraDoraIndicators, InRiichi(p));
    if melds.Success? && doras.Success? {
      assert score(Request(p, melds.value, doras.value)) == score(Request(q, melds.value, doras.value));
    }
  }

  /** Payloads that differ only in their indicators validate the same
      tiles, convert the same melds and give the same request for the same
      melds and dora list. */
  lemma SamePlayRequest<M>(p: HandPayload, dora: seq<string>, ura: seq<string>, convert: seq<Action> -> Result<seq<M>, string>,
                           melds: seq<M>, doras: seq<string>)
    ensures var q := p.(doraIndicators := dora, uraDoraIndicators := ura);
            && AllTiles(p) == AllTiles(q)
            && ConvertedMelds(p, convert) == ConvertedMelds(q, convert)
            && Request(p, melds, doras) == Request(q, melds, doras)
  {
    var q := p.(doraIndicators := dora, uraDoraIndicators := ura);
    assert q.hand == p.hand && q.winTile == p.winTile && q.melds == p.melds && q.situation == p.situation;
    assert AllTiles(q) == AllTiles(p);
  }

  /** Without a riichi flag the ura-dora indicators do not matter: two
      payloads that differ only in them get the same answer. */
  lemma UraIgnoredWithoutRiichi<M, C>(p: HandPayload, ura: seq<string>, known: set<string>,
                                      convert: seq<Action> -> Result<seq<M>, string>,
                                      score: ScoreRequest<M> -> Result<ScoreResult<C>, string>)
    requires !InRiichi(p)
    ensures Analyze(p, known, convert, score) == Analyze(p.(uraDoraIndicators := ura), known, convert, score)
  {
    var q := p.(uraDoraIndicators := ura);
    assert DoraTiles(p.doraIndicators, p.uraDoraIndicators, false) == DoraTiles(q.doraIndicators, q.uraDoraIndicators, false);
    SamePlayRequest(p, p.doraIndicators, ura, convert, [], []);
    forall melds: seq<M>, doras: seq<string> ensures Request(p, melds, doras) == Request(q, melds, doras) {
      SamePlayRequest(p, p.doraIndicators, ura, convert, melds, doras);
    }
    AnalyzeDependsOn(p, q, known, convert, score);
  }

  /** A scored hand passed validation, its melds were converted and its
      dora list built without error, and the scorer returned without
      raising and reported no error; its yaku list is the scorer's yaku
      expanded. */
  lemma ScoredMeansValid<M, C>(p: HandPayload, known: set<string>, convert: seq<Action> -> Result<seq<M>, string>,
                               score: ScoreRequest<M> -> Result<ScoreResult<C>, string>)
    requires Analyze(p, known, convert, score).Scored?
    ensures Validate(AllTiles(p), known) == Pass
    ensures ConvertedMelds(p, convert).Success?
    ensures DoraTiles(p.doraIndicators, p.uraDoraIndicators, InRiichi(p)).Success?
    ensures var outcome := score(Request(p, ConvertedMelds(p, convert).value,
                                         DoraTiles(p.doraIndicators, p.uraDoraIndicators, InRiichi(p)).value));
            && outcome.Success? && outcome.value.error == ""
            && Analyze(p, known, convert, score).yaku == YakuNames(outcome.value.yaku)
  {
  }
}
