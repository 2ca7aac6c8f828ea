/** The yaku list analyze_hand_api returns: one entry per yaku the scorer
    reports, except that a dora-type yaku worth more than one han is listed
    once per han, so a client can count dora by counting entries. */
module Yaku {
  import opened Wrappers
  import opened Text

  /** A yaku object as the scorer returns it: its `name` attribute (None
      when missing), its `str()` text, and its open and closed han values
      when they are integers. */
  datatype Yaku = Yaku(name: Option<string>, text: string, hanOpen: Option<int>, hanClosed: Option<int>)

  /** `[x] * n` */
  function Repeat(x: string, n: nat): (r: seq<string>)
    ensures |r| == n && forall i :: 0 <= i < n ==> r[i] == x
  {
    if n == 0 then [] else Repeat(x, n - 1) + [x]
  }

  /** The han count read for a dora-type yaku: the closed value when it is
      an integer, else the open value. */
  function HanCount(y: Yaku): (r: Option<int>)
    ensures y.hanClosed.Some? ==> r == y.hanClosed
    ensures r.Some? <==> y.hanClosed.Some? || y.hanOpen.Some?
    ensures r.Some? ==> r == y.hanClosed || r == y.hanOpen
  {
    if y.hanClosed.Some? then y.hanClosed else y.hanOpen
  }

  /** The label a yaku is listed under: its name, or its text when it has
      no name. */
  function Label(y: Yaku): string {
    if y.name.Some? then y.name.value else y.text
  }

  /** A yaku whose name contains "Dora" and whose han count is above one. */
  predicate Repeated(y: Yaku) {
    y.name.Some? && Contains(y.name.value, "Dora") && HanCount(y).Some? && HanCount(y).value > 1
  }

  /** The entries one yaku contributes. */
  function Entries(y: Yaku): (r: seq<string>)
    ensures |r| >= 1 && forall i :: 0 <= i < |r| ==> r[i] == Label(y)
    ensures Repeated(y) ==> |r| == HanCount(y).value
    ensures !Repeated(y) ==> r == [Label(y)]
  {
    if y.name.None? then [y.text]
    else if Repeated(y) then Repeat(y.name.value, HanCount(y).value)
    else [y.name.value]
  }

  /** The whole yaku list: at least one entry per yaku. */
  function YakuNames(ys: seq<Yaku>): (r: seq<string>)
    ensures |r| >= |ys|
  {
    if ys == [] then [] else YakuNames(ys[..|ys| - 1]) + Entries(ys[|ys| - 1])
  }

  /** The handler's loop over the scorer's yaku. */
  method ExpandYaku(ys: seq<Yaku>) returns (names: seq<string>)
    ensures names == YakuNames(ys)
  {
    names := [];
    for i := 0 to |ys|
      invariant names == YakuNames(ys[..i])
    {
      assert ys[..i + 1][..i] == ys[..i];
      var y := ys[i];
      if y.name.None? {
        names := names + [y.text];
        continue;
      }
      var name := y.name.value;
      if Contains(name, "Dora") {
        var count: Option<int> := if y.hanOpen.Some? then y.hanOpen else None;
        if y.hanClosed.Some? {
          count := y.hanClosed;
        }
        if count.Some? && count.value > 1 {
          names := names + Repeat(name, count.value);
          continue;
        }
      }
      names := names + [name];
    }
    assert ys[..|ys|] == ys;
  }

  /** The list for two runs of yaku is the two lists joined. */
  lemma {:induction false} YakuNamesAppend(a: seq<Yaku>, b: seq<Yaku>)
    ensures YakuNames(a + b) == YakuNames(a) + YakuNames(b)
    decreases |b|
  {
    if b == [] {
      assert a + b == a;
    } else {
      var init := b[..|b| - 1];
      assert (a + b)[..|a + b| - 1] == a + init;
      YakuNamesAppend(a, init);
    }
  }

  /** Every entry is the label of some yaku the scorer reported, and there
      is at least one entry per yaku. */
  lemma {:induction false} YakuNamesFromScorer(ys: seq<Yaku>)
    ensures |YakuNames(ys)| >= |ys|
    ensures forall i :: 0 <= i < |YakuNames(ys)| ==> exists k :: 0 <= k < |ys| && YakuNames(ys)[i] == Label(ys[k])
  {
    if ys != [] {
      var init := ys[..|ys| - 1];
      YakuNamesFromScorer(init);
      var r := YakuNames(ys);
      forall i | 0 <= i < |r| ensures exists k :: 0 <= k < |ys| && r[i] == Label(ys[k]) {
        if i < |YakuNames(init)| {
          var k :| 0 <= k < |init| && YakuNames(init)[i] == Label(init[k]);
          assert ys[k] == init[k];
        } else {
          assert r[i] == Label(ys[|ys| - 1]);
        }
      }
    }
  }

  /** A list holding no repeated dora-type yaku is the labels, one each. */
  lemma {:induction false} YakuNamesPlain(ys: seq<Yaku>)
    requires forall k :: 0 <= k < |ys| ==> !Repeated(ys[k])
    ensures |YakuNames(ys)| == |ys| && forall i :: 0 <= i < |ys| ==> YakuNames(ys)[i] == Label(ys[i])
  {
    if ys != [] {
      YakuNamesPlain(ys[..|ys| - 1]);
    }
  }
}
