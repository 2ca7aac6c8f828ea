/** The check analyze_hand_api runs on every tile of a hand before scoring:
    each tile must be a known tile, no base tile (a red five counted as a
    five) may occur more than four times, and no red five more than once.
    The first failure found is reported. */
module Validation {
  import opened Wrappers
  import opened Text
  import opened Tiles

  /** The outcome of the check: pass, or the first failure with the token and
      the count the handler's message names. */
  datatype Verdict =
    | Pass
    | InvalidTile(tile: string)
    | TileOverflow(base: string, count: nat)
    | RedOverflow(red: string, count: nat)

  /** The error text the handler returns for a failed check. */
  function Message(v: Verdict): (m: string)
    requires v != Pass
    ensures v.InvalidTile? ==> StartsWith(m, "invalid tile: ")
    ensures v.TileOverflow? ==> StartsWith(m, "tile overflow: ")
    ensures v.RedOverflow? ==> StartsWith(m, "red overflow: ")
  {
    match v
    case InvalidTile(t) => "invalid tile: " + t
    case TileOverflow(b, c) => "tile overflow: " + b + " x" + NatString(c)
    case RedOverflow(r, c) => "red overflow: " + r + " x" + NatString(c)
  }

  /** The base key of every tile, in order. */
  function BaseKeys(ts: seq<string>): (r: seq<string>)
    ensures |r| == |ts| && forall i :: 0 <= i < |ts| ==> r[i] == BaseKey(ts[i])
  {
    if ts == [] then [] else BaseKeys(ts[..|ts| - 1]) + [BaseKey(ts[|ts| - 1])]
  }

  /** The red fives among the tiles, in order. */
  function Reds(ts: seq<string>): (r: seq<string>)
    ensures forall i :: 0 <= i < |r| ==> r[i] in RedFives
  {
    if ts == [] then []
    else
      var last := ts[|ts| - 1];
      Reds(ts[..|ts| - 1]) + (if last in RedFives then [last] else [])
  }

  /** Reds keeps the order of the tiles: the red fives of a joined list are
      those of its first part followed by those of its second part. */
  lemma {:induction false} RedsAppend(a: seq<string>, b: seq<string>)
    ensures Reds(a + b) == Reds(a) + Reds(b)
    decreases |b|
  {
    if b == [] {
      assert a + b == a;
    } else {
      var init, last := b[..|b| - 1], b[|b| - 1];
      assert (a + b)[..|a + b| - 1] == a + init;
      assert (a + b)[|a + b| - 1] == last;
      RedsAppend(a, init);
    }
  }

  /** Reds keeps every copy of each red five and nothing else. */
  lemma {:induction false} RedsCount(ts: seq<string>, x: string)
    ensures multiset(Reds(ts))[x] == if x in RedFives then multiset(ts)[x] else 0
  {
    if ts != [] {
      var last := ts[|ts| - 1];
      assert ts == ts[..|ts| - 1] + [last];
      RedsCount(ts[..|ts| - 1], x);
    }
  }

  /** The entries of `s` without repeats, in order of first occurrence: the
      key order of a Python dict filled from `s`. */
  function Distinct(s: seq<string>): (r: seq<string>)
    ensures forall x :: x in r <==> x in s
  {
    if s == [] then []
    else
      var d := Distinct(s[..|s| - 1]);
      assert s == s[..|s| - 1] + [s[|s| - 1]];
      if s[|s| - 1] in d then d else d + [s[|s| - 1]]
  }

  /** The first tile that is not a known tile. */
  function FirstUnknown(ts: seq<string>, known: set<string>): (r: Option<string>)
    ensures r.Some? ==> r.value in ts && r.value !in known
  {
    if ts == [] then None
    else if ts[0] !in known then Some(ts[0])
    else FirstUnknown(ts[1..], known)
  }

  /** The first key whose count exceeds `limit`. */
  function FirstOver(keys: seq<string>, counts: multiset<string>, limit: nat): (r: Option<string>)
    ensures r.Some? ==> r.value in keys && counts[r.value] > limit
  {
    if keys == [] then None
    else if counts[keys[0]] > limit then Some(keys[0])
    else FirstOver(keys[1..], counts, limit)
  }

  /** The check, stated on whole lists: unknown tiles first, then base
      counts over four in order of first occurrence, then red-five counts
      over one in order of first occurrence. */
  function Validate(ts: seq<string>, known: set<string>): (v: Verdict)
    ensures v.InvalidTile? ==> v.tile in ts && v.tile !in known
    ensures v.TileOverflow? ==> v.count > 4
    ensures v.RedOverflow? ==> v.red in RedFives && v.count > 1
  {
    match FirstUnknown(ts, known)
    case Some(t) => InvalidTile(t)
    case None =>
      var bases := BaseKeys(ts);
      match FirstOver(Distinct(bases), multiset(bases), 4)
      case Some(b) => TileOverflow(b, multiset(bases)[b])
      case None =>
        var reds := Reds(ts);
        match FirstOver(Distinct(reds), multiset(reds), 1)
        case Some(r) => RedOverflow(r, multiset(reds)[r])
        case None => Pass
  }

  lemma {:induction false} FirstUnknownAt(ts: seq<string>, known: set<string>, i: nat)
    requires i < |ts| && ts[i] !in known
    requires forall k :: 0 <= k < i ==> ts[k] in known
    ensures FirstUnknown(ts, known) == Some(ts[i])
  {
    if i > 0 {
      FirstUnknownAt(ts[1..], known, i - 1);
    }
  }

  /** FirstUnknown finds nothing exactly when every tile is known. */
  lemma {:induction false} FirstUnknownNone(ts: seq<string>, known: set<string>)
    ensures FirstUnknown(ts, known) == None <==> forall k :: 0 <= k < |ts| ==> ts[k] in known
  {
    if ts != [] {
      FirstUnknownNone(ts[1..], known);
      assert forall k :: 1 <= k < |ts| ==> ts[k] == ts[1..][k - 1];
    }
  }

  /** What FirstUnknown finds is the earliest unknown tile. */
  lemma {:induction false} FirstUnknownSome(ts: seq<string>, known: set<string>)
    requires FirstUnknown(ts, known).Some?
    ensures exists i :: 0 <= i < |ts| && ts[i] == FirstUnknown(ts, known).value && ts[i] !in known
              && forall k :: 0 <= k < i ==> ts[k] in known
  {
    if ts[0] in known {
      FirstUnknownSome(ts[1..], known);
      var i :| 0 <= i < |ts| - 1 && ts[1..][i] == FirstUnknown(ts, known).value && ts[1..][i] !in known
                && forall k :: 0 <= k < i ==> ts[1..][k] in known;
      assert forall k :: 1 <= k < i + 1 ==> ts[k] == ts[1..][k - 1];
      assert ts[i + 1] == ts[1..][i];
    } else {
      assert ts[0] == FirstUnknown(ts, known).value;
    }
  }

  lemma {:induction false} FirstOverAt(keys: seq<string>, counts: multiset<string>, limit: nat, j: nat)
    requires j < |keys| && counts[keys[j]] > limit
    requires forall k :: 0 <= k < j ==> counts[keys[k]] <= limit
    ensures FirstOver(keys, counts, limit) == Some(keys[j])
  {
    if j > 0 {
      FirstOverAt(keys[1..], counts, limit, j - 1);
    }
  }

  lemma {:induction false} FirstOverNone(keys: seq<string>, counts: multiset<string>, limit: nat)
    requires forall k :: 0 <= k < |keys| ==> counts[keys[k]] <= limit
    ensures FirstOver(keys, counts, limit) == None
  {
    if keys != [] {
      FirstOverNone(keys[1..], counts, limit);
    }
  }

  /** Searching a list extended at the end finds what it found before, or
      else looks at the new last entry. */
  lemma {:induction false} FirstOverAppend(keys: seq<string>, x: string, counts: multiset<string>, limit: nat)
    ensures FirstOver(keys + [x], counts, limit) ==
              if FirstOver(keys, counts, limit).Some? then FirstOver(keys, counts, limit)
              else if counts[x] > limit then Some(x) else None
  {
    if keys == [] {
      assert keys + [x] == [x];
    } else {
      assert (keys + [x])[0] == keys[0] && (keys + [x])[1..] == keys[1..] + [x];
      FirstOverAppend(keys[1..], x, counts, limit);
    }
  }

  /** Searching the dict's keys (first-occurrence order) for a count over
      the limit finds nothing exactly when no entry of `s` is over it, and
      otherwise finds the entry at the earliest position of `s` that is. */
  lemma {:induction false} FirstOverDistinct(s: seq<string>, counts: multiset<string>, limit: nat)
    ensures FirstOver(Distinct(s), counts, limit).None? <==> forall i :: 0 <= i < |s| ==> counts[s[i]] <= limit
    ensures FirstOver(Distinct(s), counts, limit).Some? ==>
              exists i :: 0 <= i < |s| && s[i] == FirstOver(Distinct(s), counts, limit).value
                && counts[s[i]] > limit
                && forall k :: 0 <= k < i ==> counts[s[k]] <= limit
  {
    if s != [] {
      var init, x := s[..|s| - 1], s[|s| - 1];
      var d := Distinct(init);
      FirstOverDistinct(init, counts, limit);
      assert forall k :: 0 <= k < |init| ==> s[k] == init[k];
      if x !in d {
        FirstOverAppend(d, x, counts, limit);
      } else {
        var k :| 0 <= k < |init| && init[k] == x;
      }
      var found := FirstOver(Distinct(s), counts, limit);
      if found.Some? && FirstOver(d, counts, limit).Some? {
        var i :| 0 <= i < |init| && init[i] == FirstOver(d, counts, limit).value
                  && counts[init[i]] > limit && forall k :: 0 <= k < i ==> counts[init[k]] <= limit;
        assert s[i] == init[i];
      }
    }
  }

  /** The position in `s` of what the scan of Distinct(s) finds. */
  lemma FirstOverIndex(s: seq<string>, counts: multiset<string>, limit: nat) returns (i: nat)
    requires FirstOver(Distinct(s), counts, limit).Some?
    ensures i < |s| && s[i] == FirstOver(Distinct(s), counts, limit).value && counts[s[i]] > limit
    ensures forall k :: 0 <= k < i ==> counts[s[k]] <= limit
  {
    FirstOverDistinct(s, counts, limit);
    i :| 0 <= i < |s| && s[i] == FirstOver(Distinct(s), counts, limit).value
           && counts[s[i]] > limit && forall k :: 0 <= k < i ==> counts[s[k]] <= limit;
  }

  /** BaseKeys and Reds of a list extended by one tile. */
  lemma BaseKeysSnoc(ts: seq<string>, t: string)
    ensures BaseKeys(ts + [t]) == BaseKeys(ts) + [BaseKey(t)]
    ensures Reds(ts + [t]) == Reds(ts) + (if t in RedFives then [t] else [])
    ensures Distinct(ts + [t]) == if t in Distinct(ts) then Distinct(ts) else Distinct(ts) + [t]
  {
    assert (ts + [t])[..|ts|] == ts;
  }

  /** A Python dict from token to count: its keys in insertion order and
      the count held under each. */
  datatype Tally = Tally(keys: seq<string>, count: map<string, nat>) {
    /** `d[key] = d.get(key, 0) + 1`: a new key goes to the end of the key
        order. */
    function Increment(key: string): Tally {
      if key in count then Tally(keys, count[key := count[key] + 1])
      else Tally(keys + [key], count[key := 1])
    }
  }

  /** `d` is the dict a loop of `d[x] = d.get(x, 0) + 1` over `s` builds:
      one key per distinct entry, in order of first occurrence, each holding
      its number of occurrences. */
  ghost predicate Counts(d: Tally, s: seq<string>) {
    && d.keys == Distinct(s)
    && (forall b :: b in d.count <==> b in d.keys)
    && (forall b :: b in d.count ==> d.count[b] == multiset(s)[b])
  }

  /** Counting one more entry keeps the dict in step with the list. */
  lemma IncrementCounts(d: Tally, s: seq<string>, x: string)
    requires Counts(d, s)
    ensures Counts(d.Increment(x), s + [x])
  {
    BaseKeysSnoc(s, x);
    assert multiset(s + [x]) == multiset(s) + multiset{x};
  }

  /** The keys and red fives of the first `i + 1` tiles. */
  lemma PrefixStep(tiles: seq<string>, i: nat)
    requires i < |tiles|
    ensures BaseKeys(tiles[..i + 1]) == BaseKeys(tiles[..i]) + [BaseKey(tiles[i])]
    ensures Reds(tiles[..i + 1]) == Reds(tiles[..i]) + (if tiles[i] in RedFives then [tiles[i]] else [])
  {
    assert tiles[..i + 1] == tiles[..i] + [tiles[i]];
    BaseKeysSnoc(tiles[..i], tiles[i]);
  }

  /** The counting pass: `counts[_base_key(t)] += 1` for every tile and
      `red_counts[t] += 1` for every red five. */
  method CountTiles(tiles: seq<string>) returns (counts: Tally, redCounts: Tally)
    ensures Counts(counts, BaseKeys(tiles))
    ensures Counts(redCounts, Reds(tiles))
  {
    counts, redCounts := Tally([], map[]), Tally([], map[]);
    for i := 0 to |tiles|
      invariant Counts(counts, BaseKeys(tiles[..i]))
      invariant Counts(redCounts, Reds(tiles[..i]))
    {
      var t := tiles[i];
      PrefixStep(tiles, i);
      IncrementCounts(counts, BaseKeys(tiles[..i]), BaseKey(t));
      counts := counts.Increment(BaseKey(t));
      if t in RedFives {
        IncrementCounts(redCounts, Reds(tiles[..i]), t);
        redCounts := redCounts.Increment(t);
      } else {
        assert Reds(tiles[..i]) + [] == Reds(tiles[..i]);
      }
    }
    assert tiles[..|tiles|] == tiles;
  }

  /** `for key, cnt in d.items(): if cnt > limit: ...`: the first key, in
      insertion order, whose count is over the limit. */
  method FindOver(d: Tally, limit: nat, ghost s: seq<string>) returns (found: Option<string>)
    requires Counts(d, s)
    ensures found == FirstOver(Distinct(s), multiset(s), limit)
    ensures found.Some? ==> found.value in d.count && d.count[found.value] == multiset(s)[found.value]
  {
    for j := 0 to |d.keys|
      invariant forall k :: 0 <= k < j ==> multiset(s)[d.keys[k]] <= limit
    {
      var key := d.keys[j];
      if d.count[key] > limit {
        FirstOverAt(d.keys, multiset(s), limit, j);
        return Some(key);
      }
    }
    FirstOverNone(d.keys, multiset(s), limit);
    return None;
  }

  /** The check as the handler runs it: a pass for unknown tiles, the
      counting pass, then a scan of each dict in key order. */
  method CheckTiles(tiles: seq<string>, known: set<string>) returns (v: Verdict)
    ensures v == Validate(tiles, known)
  {
    for i := 0 to |tiles|
      invariant forall k :: 0 <= k < i ==> tiles[k] in known
    {
      if tiles[i] !in known {
        FirstUnknownAt(tiles, known, i);
        return InvalidTile(tiles[i]);
      }
    }
    FirstUnknownNone(tiles, known);
    var counts, redCounts := CountTiles(tiles);
    var over := FindOver(counts, 4, BaseKeys(tiles));
    if over.Some? {
      return TileOverflow(over.value, counts.count[over.value]);
    }
    var redOver := FindOver(redCounts, 1, Reds(tiles));
    if redOver.Some? {
      return RedOverflow(redOver.value, redCounts.count[redOver.value]);
    }
    return Pass;
  }

  /** No base key is over four exactly when the `counts` scan finds
      nothing. */
  lemma BaseOverNone(ts: seq<string>)
    ensures var bases := BaseKeys(ts);
            FirstOver(Distinct(bases), multiset(bases), 4).None? <==> forall b :: multiset(bases)[b] <= 4
  {
    var bases := BaseKeys(ts);
    FirstOverDistinct(bases, multiset(bases), 4);
    if forall i :: 0 <= i < |bases| ==> multiset(bases)[bases[i]] <= 4 {
      forall b ensures multiset(bases)[b] <= 4 {
        if b in bases {
          var i :| 0 <= i < |bases| && bases[i] == b;
        }
      }
    }
  }

  /** What the `counts` scan finds is the key of the earliest tile whose key
      occurs more than four times. */
  lemma BaseOverSome(ts: seq<string>)
    ensures var bases := BaseKeys(ts);
            var found := FirstOver(Distinct(bases), multiset(bases), 4);
            found.Some? ==>
              exists i :: 0 <= i < |ts| && BaseKey(ts[i]) == found.value
                && forall k :: 0 <= k < i ==> multiset(bases)[BaseKey(ts[k])] <= 4
  {
    var bases := BaseKeys(ts);
    var found := FirstOver(Distinct(bases), multiset(bases), 4);
    if found.Some? {
      var i := FirstOverIndex(bases, multiset(bases), 4);
      assert BaseKey(ts[i]) == found.value;
      forall k | 0 <= k < i ensures multiset(bases)[BaseKey(ts[k])] <= 4 {
        assert bases[k] == BaseKey(ts[k]);
      }
    }
  }

  /** No red five occurs twice exactly when the `red_counts` scan finds
      nothing; what it finds is a red five occurring more than once, the
      earliest such in the order the red fives occur. */
  lemma RedOver(ts: seq<string>)
    ensures var reds := Reds(ts);
            FirstOver(Distinct(reds), multiset(reds), 1).None? <==> forall r :: r in RedFives ==> multiset(ts)[r] <= 1
    ensures var reds := Reds(ts);
            var found := FirstOver(Distinct(reds), multiset(reds), 1);
            found.Some? ==>
              && found.value in RedFives && multiset(reds)[found.value] == multiset(ts)[found.value] > 1
              && exists i :: 0 <= i < |reds| && reds[i] == found.value
                   && forall k :: 0 <= k < i ==> multiset(ts)[reds[k]] <= 1
  {
    var reds := Reds(ts);
    FirstOverDistinct(reds, multiset(reds), 1);
    forall k | 0 <= k < |reds| ensures multiset(reds)[reds[k]] == multiset(ts)[reds[k]] {
      RedsCount(ts, reds[k]);
    }
    forall r | r in RedFives ensures multiset(reds)[r] == multiset(ts)[r] {
      RedsCount(ts, r);
    }
  }

  /** The check passes exactly when every tile is known, no base key occurs
      more than four times and no red five more than once. */
  lemma ValidatePass(ts: seq<string>, known: set<string>)
    ensures Validate(ts, known) == Pass <==>
              && (forall i :: 0 <= i < |ts| ==> ts[i] in known)
              && (forall b :: multiset(BaseKeys(ts))[b] <= 4)
              && (forall r :: r in RedFives ==> multiset(ts)[r] <= 1)
  {
    FirstUnknownNone(ts, known);
    BaseOverNone(ts);
    RedOver(ts);
  }

  /** An unknown tile is reported before any count is looked at, and it is
      the earliest unknown tile of the list. */
  lemma ValidateInvalid(ts: seq<string>, known: set<string>)
    ensures (exists i :: 0 <= i < |ts| && ts[i] !in known) <==> Validate(ts, known).InvalidTile?
    ensures Validate(ts, known).InvalidTile? ==>
              exists i :: 0 <= i < |ts| && ts[i] == Validate(ts, known).tile && ts[i] !in known
                && forall k :: 0 <= k < i ==> ts[k] in known
  {
    FirstUnknownNone(ts, known);
    if FirstUnknown(ts, known).Some? {
      FirstUnknownSome(ts, known);
    }
  }

  /** A base overflow is reported only when every tile is known; its count
      is the number of tiles with that base key, more than four, and its key
      is that of the earliest tile whose key overflows. */
  lemma ValidateTileOverflow(ts: seq<string>, known: set<string>)
    requires Validate(ts, known).TileOverflow?
    ensures forall i :: 0 <= i < |ts| ==> ts[i] in known
    ensures var v := Validate(ts, known);
            && v.count == multiset(BaseKeys(ts))[v.base] > 4
            && exists i :: 0 <= i < |ts| && BaseKey(ts[i]) == v.base
                 && forall k :: 0 <= k < i ==> multiset(BaseKeys(ts))[BaseKey(ts[k])] <= 4
  {
    FirstUnknownNone(ts, known);
    BaseOverNone(ts);
    BaseOverSome(ts);
  }

  /** A red overflow is reported only when every tile is known and no base
      key overflows; its count is the number of copies of that red five,
      more than one, and it is the earliest red five (in the order the red
      fives occur in the hand) that overflows. */
  lemma ValidateRedOverflow(ts: seq<string>, known: set<string>)
    requires Validate(ts, known).RedOverflow?
    ensures forall i :: 0 <= i < |ts| ==> ts[i] in known
    ensures forall b :: multiset(BaseKeys(ts))[b] <= 4
    ensures var v := Validate(ts, known);
            && v.red in RedFives && v.count == multiset(ts)[v.red] > 1
            && exists i :: 0 <= i < |Reds(ts)| && Reds(ts)[i] == v.red
                 && forall k :: 0 <= k < i ==> multiset(ts)[Reds(ts)[k]] <= 1
  {
    RedOverflowReached(ts, known);
    FirstUnknownNone(ts, known);
    BaseOverNone(ts);
    RedOver(ts);
  }

  /** A red overflow is only reached past the first two scans, and names
      what the red-five scan found. */
  lemma RedOverflowReached(ts: seq<string>, known: set<string>)
    requires Validate(ts, known).RedOverflow?
    ensures FirstUnknown(ts, known).None?
    ensures FirstOver(Distinct(BaseKeys(ts)), multiset(BaseKeys(ts)), 4).None?
    ensures var reds := Reds(ts);
            var found := FirstOver(Distinct(reds), multiset(reds), 1);
            found.Some? && Validate(ts, known) == RedOverflow(found.value, multiset(reds)[found.value])
  {
  }
}
