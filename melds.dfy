/** Open and closed melds as analyze_hand_api receives them, and how it
    lowers them to the scorer's "actions": the kind is read case-blind (every
    kan variant becomes "kan", anything but chi, pon and kan is skipped), the
    tiles are normalised, and exactly one tile of a called meld is marked as
    taken from another player. It also counts the kans and collects the meld
    tiles handed to the scorer. */
module Melds {
  import opened Wrappers
  import opened Text
  import opened Tiles

  datatype MeldKind = Chi | Pon | Kan

  /** A meld as the client sends it. A missing tile is "", and `calledFrom`
      is whether the client named the seat the meld was called from (only
      its truthiness is read). */
  datatype MeldPayload = MeldPayload(kind: string, tiles: seq<string>, calledTile: string, calledFrom: bool)

  /** One tile of an action and whether it came from another player. */
  datatype TargetTile = TargetTile(tile: string, fromOther: bool)

  /** The scorer's description of a meld. */
  datatype Action = Action(targetTiles: seq<TargetTile>, actionType: MeldKind)

  /** The spellings read as a kan. */
  const KanWords: set<string> := {"kan", "minkan", "ankan", "kakan", "shouminkan"}

  /** The meld kind a `kind` string names, read after `lower()`; None for a
      kind the handler skips. */
  function KindOf(kind: string): (r: Option<MeldKind>)
    ensures r.Some? ==> Lower(kind) in KanWords + {"chi", "pon"}
  {
    var k := Lower(kind);
    if k == "chi" then Some(Chi)
    else if k == "pon" then Some(Pon)
    else if k in KanWords then Some(Kan)
    else None
  }

  /** Lower-casing changes no character twice. */
  lemma LowerIdempotent(s: string)
    ensures Lower(Lower(s)) == Lower(s)
  {
  }

  /** The kind is read without regard to case: a kind and its lower-case
      spelling name the same meld kind. */
  lemma KindOfCaseBlind(kind: string)
    ensures KindOf(Lower(kind)) == KindOf(kind)
  {
    LowerIdempotent(kind);
  }

  /** Every kan spelling, in any case, names a kan; "chi" and "pon" name
      themselves; every other kind is skipped. */
  lemma KindOfSpellings(kind: string)
    ensures KindOf(kind) == Some(Kan) <==> Lower(kind) in KanWords
    ensures KindOf(kind) == Some(Chi) <==> Lower(kind) == "chi"
    ensures KindOf(kind) == Some(Pon) <==> Lower(kind) == "pon"
    ensures KindOf(kind).None? <==> Lower(kind) !in KanWords && Lower(kind) != "chi" && Lower(kind) != "pon"
  {
    assert "chi" !in KanWords && "pon" !in KanWords;
  }

  /** Which tile is marked as called: the first tile equal to a non-empty
      called tile, or else the first tile. */
  function CalledIndex(tiles: seq<string>, calledTile: string): nat {
    if calledTile != "" && calledTile in tiles then IndexOf(tiles, calledTile) else 0
  }

  /** The target tiles of a meld, stated directly: each tile in order, and
      the tile at CalledIndex marked as coming from another player exactly
      when the meld was called. */
  function Targets(tiles: seq<string>, calledTile: string, calledFrom: bool): (r: seq<TargetTile>)
    ensures |r| == |tiles| && forall i :: 0 <= i < |r| ==> r[i].tile == tiles[i]
  {
    seq(|tiles|, i requires 0 <= i < |tiles| => TargetTile(tiles[i], calledFrom && i == CalledIndex(tiles, calledTile)))
  }

  /** The marking loop with its `used_called` flag, and the fallback that
      marks the first tile when no tile matched. */
  method MarkCalled(tiles: seq<string>, calledTile: string, calledFrom: bool) returns (targets: seq<TargetTile>)
    ensures targets == Targets(tiles, calledTile, calledFrom)
  {
    targets := [];
    var usedCalled := false;
    for i := 0 to |tiles|
      invariant |targets| == i
      invariant usedCalled <==> calledFrom && calledTile != "" && calledTile in tiles[..i]
      invariant forall k :: 0 <= k < i ==>
                  targets[k] == TargetTile(tiles[k], calledFrom && calledTile != "" && tiles[k] == calledTile && calledTile !in tiles[..k])
    {
      var fromOther := false;
      if calledFrom && calledTile != "" && tiles[i] == calledTile && !usedCalled {
        fromOther := true;
        usedCalled := true;
      }
      assert tiles[..i + 1] == tiles[..i] + [tiles[i]];
      targets := targets + [TargetTile(tiles[i], fromOther)];
    }
    assert tiles[..|tiles|] == tiles;
    ghost var matched := targets;
    if calledFrom && !usedCalled && |targets| > 0 {
      targets := targets[0 := TargetTile(targets[0].tile, true)];
    }
    forall k | 0 <= k < |tiles|
      ensures targets[k] == Targets(tiles, calledTile, calledFrom)[k]
    {
      assert matched[k] == TargetTile(tiles[k], calledFrom && calledTile != "" && tiles[k] == calledTile && calledTile !in tiles[..k]);
      assert Targets(tiles, calledTile, calledFrom)[k] == TargetTile(tiles[k], calledFrom && k == CalledIndex(tiles, calledTile));
      assert targets[k] == if k == 0 && calledFrom && !usedCalled then TargetTile(tiles[k], true) else matched[k];
      if calledTile != "" && calledTile in tiles {
        var j := IndexOf(tiles, calledTile);
        if k < j {
          assert tiles[k] != calledTile;
        } else if k == j {
          assert calledTile !in tiles[..k] by {
            forall m | 0 <= m < k ensures tiles[..k][m] != calledTile {
              assert tiles[..k][m] == tiles[m];
            }
          }
        } else {
          assert tiles[..k][j] == calledTile;
        }
      }
    }
  }

  /** A called meld with at least one tile has exactly one tile marked as
      coming from another player; a meld that was not called has none. */
  lemma TargetsMarkOne(tiles: seq<string>, calledTile: string, calledFrom: bool)
    ensures var r := Targets(tiles, calledTile, calledFrom);
            && ((exists i :: 0 <= i < |r| && r[i].fromOther) <==> calledFrom && tiles != [])
            && forall i, j :: 0 <= i < |r| && 0 <= j < |r| && r[i].fromOther && r[j].fromOther ==> i == j
  {
    var r := Targets(tiles, calledTile, calledFrom);
    if calledFrom && tiles != [] {
      assert r[CalledIndex(tiles, calledTile)].fromOther;
    }
  }

  /** When the called tile is among the meld's tiles, the marked tile is
      its first copy; otherwise the first tile is marked. */
  lemma TargetsMarkCalledTile(tiles: seq<string>, calledTile: string)
    requires tiles != []
    ensures var r := Targets(tiles, calledTile, true);
            if calledTile != "" && calledTile in tiles then
              exists i :: 0 <= i < |r| && r[i].fromOther && r[i].tile == calledTile
                && forall k :: 0 <= k < i ==> tiles[k] != calledTile
            else r[0].fromOther
  {
    var r := Targets(tiles, calledTile, true);
    var c := CalledIndex(tiles, calledTile);
    assert r[c] == TargetTile(tiles[c], true);
  }

  /** One meld lowered to an action, or None when the handler skips it: a
      kept meld becomes an action of its kind with one target per
      non-empty tile. */
  function LowerMeld(m: MeldPayload): (r: Option<Action>)
    ensures r.Some? <==> KindOf(m.kind).Some?
    ensures r.Some? ==> r.value.actionType == KindOf(m.kind).value
                        && |r.value.targetTiles| == |NormalizeTiles(m.tiles)|
  {
    match KindOf(m.kind)
    case None => None
    case Some(k) =>
      var tiles := NormalizeTiles(m.tiles);
      Some(Action(Targets(tiles, NormalizeTile(m.calledTile), m.calledFrom), k))
  }

  /** The actions of all melds, skipped melds left out: at most one action
      per meld, and exactly one each when no meld is skipped. */
  function Lowered(ms: seq<MeldPayload>): (r: seq<Action>)
    ensures |r| <= |ms|
    ensures (forall j :: 0 <= j < |ms| ==> KindOf(ms[j].kind).Some?) ==> |r| == |ms|
  {
    if ms == [] then []
    else
      assert forall j :: 0 <= j < |ms| - 1 ==> ms[..|ms| - 1][j] == ms[j];
      Lowered(ms[..|ms| - 1]) + match LowerMeld(ms[|ms| - 1]) case None => [] case Some(a) => [a]
  }

  /** The normalised tiles of the melds that are not skipped: what the
      handler adds to the tiles it validates. None is empty or a letter
      code. */
  function MeldTiles(ms: seq<MeldPayload>): (r: seq<string>)
    ensures forall i :: 0 <= i < |r| ==> r[i] != "" && r[i] !in HonorMap
  {
    if ms == [] then []
    else
      var m := ms[|ms| - 1];
      MeldTiles(ms[..|ms| - 1]) + if KindOf(m.kind).Some? then NormalizeTiles(m.tiles) else []
  }

  /** The handler's meld loop: each meld is lowered to an action (or
      skipped) and its tiles are added to the list to validate. */
  method LowerMelds(ms: seq<MeldPayload>) returns (actions: seq<Action>, meldTiles: seq<string>)
    ensures actions == Lowered(ms)
    ensures meldTiles == MeldTiles(ms)
  {
    actions, meldTiles := [], [];
    for i := 0 to |ms|
      invariant actions == Lowered(ms[..i])
      invariant meldTiles == MeldTiles(ms[..i])
    {
      var m := ms[i];
      assert ms[..i + 1][..i] == ms[..i];
      var kind := KindOf(m.kind);
      if kind.None? {
        continue;
      }
      var tiles := NormalizeTiles(m.tiles);
      var calledTile := NormalizeTile(m.calledTile);
      var targets := MarkCalled(tiles, calledTile, m.calledFrom);
      actions := actions + [Action(targets, kind.value)];
      meldTiles := meldTiles + tiles;
    }
    assert ms[..|ms|] == ms;
  }

  /** The non-empty tile names of some target tiles, in order. */
  function TileNames(ts: seq<TargetTile>): (r: seq<string>)
    ensures |r| <= |ts| && forall i :: 0 <= i < |r| ==> r[i] != ""
  {
    if ts == [] then []
    else
      var t := ts[|ts| - 1];
      TileNames(ts[..|ts| - 1]) + if t.tile != "" then [t.tile] else []
  }

  /** `meld_tiles_for_calc`: the non-empty tiles of every action, in order. */
  function ActionTiles(actions: seq<Action>): (r: seq<string>)
    ensures forall i :: 0 <= i < |r| ==> r[i] != ""
  {
    if actions == [] then []
    else ActionTiles(actions[..|actions| - 1]) + TileNames(actions[|actions| - 1].targetTiles)
  }

  /** An action `kan_count` counts: a kan with at least four target tiles. */
  predicate CountedKan(a: Action) {
    a.actionType == Kan && |a.targetTiles| >= 4
  }

  /** `kan_count`, accumulated over the actions (KanCountIndices: the
      number of counted kans). */
  function KanCount(actions: seq<Action>): (n: nat)
    ensures n <= |actions|
  {
    if actions == [] then 0
    else KanCount(actions[..|actions| - 1]) + if CountedKan(actions[|actions| - 1]) then 1 else 0
  }

  /** `kan_count` is the number of positions holding a kan action with at
      least four target tiles. */
  lemma {:induction false} KanCountIndices(actions: seq<Action>)
    ensures KanCount(actions) == |set i | 0 <= i < |actions| && CountedKan(actions[i])|
  {
    if actions != [] {
      var init, last := actions[..|actions| - 1], |actions| - 1;
      KanCountIndices(init);
      var counted := set i | 0 <= i < |init| && CountedKan(init[i]);
      assert (set i | 0 <= i < |actions| && CountedKan(actions[i])) ==
             counted + if CountedKan(actions[last]) then {last} else {};
      assert last !in counted;
    }
  }

  /** The loop over the actions that collects the meld tiles for the scorer
      and counts the kans. */
  method CollectForCalc(actions: seq<Action>) returns (meldTiles: seq<string>, kanCount: nat)
    ensures meldTiles == ActionTiles(actions)
    ensures kanCount == KanCount(actions)
  {
    meldTiles, kanCount := [], 0;
    for i := 0 to |actions|
      invariant meldTiles == ActionTiles(actions[..i])
      invariant kanCount == KanCount(actions[..i])
    {
      var act := actions[i];
      assert actions[..i + 1][..i] == actions[..i];
      if act.actionType == Kan && |act.targetTiles| >= 4 {
        kanCount := kanCount + 1;
      }
      ghost var before := meldTiles;
      for j := 0 to |act.targetTiles|
        invariant meldTiles == before + TileNames(act.targetTiles[..j])
      {
        assert act.targetTiles[..j + 1][..j] == act.targetTiles[..j];
        var tile := act.targetTiles[j].tile;
        if tile != "" {
          meldTiles := meldTiles + [tile];
        }
      }
      assert act.targetTiles[..|act.targetTiles|] == act.targetTiles;
    }
    assert actions[..|actions|] == actions;
  }

  /** A meld of a kind the handler skips adds no action and no tile. */
  lemma SkippedMeld(ms: seq<MeldPayload>, m: MeldPayload)
    requires KindOf(m.kind).None?
    ensures Lowered(ms + [m]) == Lowered(ms)
    ensures MeldTiles(ms + [m]) == MeldTiles(ms)
  {
    assert (ms + [m])[..|ms|] == ms;
    assert Lowered(ms) + [] == Lowered(ms);
    assert MeldTiles(ms) + [] == MeldTiles(ms);
  }

  /** Target tiles carrying the names `tiles`, none of them empty, give
      those names back. */
  lemma {:induction false} TileNamesOf(ts: seq<TargetTile>, tiles: seq<string>)
    requires |ts| == |tiles| && forall i :: 0 <= i < |ts| ==> ts[i].tile == tiles[i]
    requires "" !in tiles
    ensures TileNames(ts) == tiles
  {
    if ts != [] {
      TileNamesOf(ts[..|ts| - 1], tiles[..|tiles| - 1]);
      assert tiles == tiles[..|tiles| - 1] + [tiles[|tiles| - 1]];
    }
  }

  /** The meld tiles handed to the scorer are exactly the meld tiles that
      were validated. */
  lemma {:induction false} ActionTilesLowered(ms: seq<MeldPayload>)
    ensures ActionTiles(Lowered(ms)) == MeldTiles(ms)
  {
    if ms != [] {
      var init, m := ms[..|ms| - 1], ms[|ms| - 1];
      ActionTilesLowered(init);
      match LowerMeld(m)
      case None =>
        assert Lowered(init) + [] == Lowered(init);
        assert MeldTiles(init) + [] == MeldTiles(init);
      case Some(a) =>
        var actions := Lowered(init) + [a];
        assert actions[..|actions| - 1] == Lowered(init);
        var tiles := NormalizeTiles(m.tiles);
        TileNamesOf(a.targetTiles, tiles);
    }
  }

  /** Each counted kan holds at least four of the meld tiles. */
  lemma {:induction false} KanCountTiles(ms: seq<MeldPayload>)
    ensures 4 * KanCount(Lowered(ms)) <= |MeldTiles(ms)|
  {
    if ms != [] {
      var init, m := ms[..|ms| - 1], ms[|ms| - 1];
      KanCountTiles(init);
      match LowerMeld(m)
      case None =>
        assert Lowered(ms) == Lowered(init) + [] == Lowered(init);
        assert MeldTiles(ms) == MeldTiles(init) + [];
      case Some(a) =>
        var actions := Lowered(init) + [a];
        assert Lowered(ms) == actions;
        assert actions[..|actions| - 1] == Lowered(init);
        assert KanCount(actions) <= KanCount(Lowered(init)) + 1;
        assert MeldTiles(ms) == MeldTiles(init) + NormalizeTiles(m.tiles);
        assert |a.targetTiles| == |NormalizeTiles(m.tiles)|;
    }
  }
}
