/**
  The per-cell table built from the two hexbin results: each occupied cell's
  centre, mean DIFF and shot frequency, the frequency's percentile rank
  (`rank(pct=True)`: average rank for ties, divided by the cell count) and
  the marker size that percentile selects.
 */
module CellTable {
  import opened Wrappers

  /** The centre of one hexbin cell, as `get_offsets()` returns it. */
  datatype Offset = Offset(x: real, y: real)

  /** One row of the cell table. */
  datatype Cell = Cell(locX: real, locY: real, difference: real, freq: real, percentile: real, sizing: int)

  /** `[i[0] for i in shots_loc]`. */
  function XCoordinates(offsets: seq<Offset>): (xs: seq<real>)
    ensures |xs| == |offsets|
    ensures forall k :: 0 <= k < |offsets| ==> xs[k] == offsets[k].x
  {
    seq(|offsets|, k requires 0 <= k < |offsets| => offsets[k].x)
  }

  /** `[i[1] for i in shots_loc]`. */
  function YCoordinates(offsets: seq<Offset>): (ys: seq<real>)
    ensures |ys| == |offsets|
    ensures forall k :: 0 <= k < |offsets| ==> ys[k] == offsets[k].y
  {
    seq(|offsets|, k requires 0 <= k < |offsets| => offsets[k].y)
  }

  /**
    The loop that fills `x` and `y`: it runs once per cell of the DIFF
    hexbin and each pass rebuilds both lists from all the offsets, so they
    stay unset (None) exactly when there is no cell.
   */
  method ExtractCoordinates(offsets: seq<Offset>, cellCount: nat) returns (xs: Option<seq<real>>, ys: Option<seq<real>>)
    ensures cellCount == 0 ==> xs == None && ys == None
    ensures cellCount > 0 ==>
              xs.Some? && ys.Some? && |xs.value| == |offsets| && |ys.value| == |offsets|
              && forall k :: 0 <= k < |offsets| ==> xs.value[k] == offsets[k].x && ys.value[k] == offsets[k].y
  {
    xs, ys := None, None;
    var i := 0;
    while i < cellCount
      invariant 0 <= i <= cellCount
      invariant i == 0 ==> xs == None && ys == None
      invariant i > 0 ==> xs == Some(XCoordinates(offsets)) && ys == Some(YCoordinates(offsets))
    {
      xs := Some(XCoordinates(offsets));
      ys := Some(YCoordinates(offsets));
      i := i + 1;
    }
  }

  /** The number of values in `vs` below `v`. */
  function CountBelow(vs: seq<real>, v: real): nat {
    if vs == [] then 0 else CountBelow(vs[..|vs| - 1], v) + (if vs[|vs| - 1] < v then 1 else 0)
  }

  /** The number of values in `vs` equal to `v`. */
  function CountEqual(vs: seq<real>, v: real): nat {
    if vs == [] then 0 else CountEqual(vs[..|vs| - 1], v) + (if vs[|vs| - 1] == v then 1 else 0)
  }

  /** The number of values in `vs` above `v`. */
  function CountAbove(vs: seq<real>, v: real): nat {
    if vs == [] then 0 else CountAbove(vs[..|vs| - 1], v) + (if vs[|vs| - 1] > v then 1 else 0)
  }

  /**
    The rank of `v` among `vs` with ties averaged: the values equal to `v`
    occupy ranks CountBelow + 1 .. CountBelow + CountEqual, whose mean this is.
   */
  function AverageRank(vs: seq<real>, v: real): real {
    CountBelow(vs, v) as real + (CountEqual(vs, v) as real + 1.0) / 2.0
  }

  /** `rank(pct=True)` of a value in its column. */
  function PercentileRank(vs: seq<real>, v: real): real
    requires vs != []
  {
    AverageRank(vs, v) / |vs| as real
  }

  /** The marker size of a percentile: thresholds 0.40, 0.75 and 0.90, each inclusive. */
  function Sizing(pct: real): (size: int)
    ensures size == 2 || size == 40 || size == 100 || size == 200
  {
    if pct <= 0.4 then 2
    else if pct <= 0.75 then 40
    else if pct <= 0.90 then 100
    else 200
  }

  /** The sum of the average ranks in `vs` of each value of `ws`. */
  function SumOfRanks(ws: seq<real>, vs: seq<real>): real {
    if ws == [] then 0.0 else SumOfRanks(ws[..|ws| - 1], vs) + AverageRank(vs, ws[|ws| - 1])
  }

  /**
    The cell table: `my_df` with its loc_x, loc_y, difference, freq,
    percentile and sizing columns. The two hexbin results list the same
    occupied cells in the same order, so the three inputs have one entry per
    cell.
   */
  method BuildCellTable(offsets: seq<Offset>, freqs: seq<real>, diffs: seq<real>) returns (cells: seq<Cell>)
    requires |offsets| == |freqs| == |diffs|
    ensures |cells| == |diffs|
    ensures forall i :: 0 <= i < |cells| ==>
              cells[i].locX == offsets[i].x && cells[i].locY == offsets[i].y
              && cells[i].difference == diffs[i] && cells[i].freq == freqs[i]
              && cells[i].percentile == PercentileRank(freqs, freqs[i])
              && cells[i].sizing == Sizing(cells[i].percentile)
    ensures forall i :: 0 <= i < |cells| ==> 0.0 < cells[i].percentile <= 1.0
    ensures forall i, j :: 0 <= i < |cells| && 0 <= j < |cells| && cells[i].freq < cells[j].freq ==>
              cells[i].percentile < cells[j].percentile
  {
    var xs, ys := ExtractCoordinates(offsets, |diffs|);
    if xs.None? || ys.None? {
      cells := [];
    } else {
      var x, y := xs.value, ys.value;
      cells := seq(|diffs|, i requires 0 <= i < |diffs| =>
        var pct := PercentileRank(freqs, freqs[i]);
        Cell(x[i], y[i], diffs[i], freqs[i], pct, Sizing(pct)));
      forall i | 0 <= i < |cells| ensures 0.0 < cells[i].percentile <= 1.0 {
        PercentileInUnitInterval(freqs, i);
      }
      forall i, j | 0 <= i < |cells| && 0 <= j < |cells| && cells[i].freq < cells[j].freq
        ensures cells[i].percentile < cells[j].percentile
      {
        PercentileOrder(freqs, i, j);
      }
    }
  }

  lemma {:induction false} CountsPartition(vs: seq<real>, v: real)
    ensures CountBelow(vs, v) + CountEqual(vs, v) + CountAbove(vs, v) == |vs|
  {
    if vs != [] {
      CountsPartition(vs[..|vs| - 1], v);
    }
  }

  lemma {:induction false} CountEqualOfMember(vs: seq<real>, i: int)
    requires 0 <= i < |vs|
    ensures CountEqual(vs, vs[i]) >= 1
  {
    if i < |vs| - 1 {
      CountEqualOfMember(vs[..|vs| - 1], i);
    }
  }

  /** Every value at or below `u` is below a larger `v`. */
  lemma {:induction false} CountBelowGrows(vs: seq<real>, u: real, v: real)
    requires u < v
    ensures CountBelow(vs, v) >= CountBelow(vs, u) + CountEqual(vs, u)
  {
    if vs != [] {
      CountBelowGrows(vs[..|vs| - 1], u, v);
    }
  }

  /** Every percentile lies in (0, 1]. */
  lemma PercentileInUnitInterval(vs: seq<real>, i: int)
    requires 0 <= i < |vs|
    ensures 0.0 < PercentileRank(vs, vs[i]) <= 1.0
  {
    CountsPartition(vs, vs[i]);
    CountEqualOfMember(vs, i);
    QuotientInUnitInterval(AverageRank(vs, vs[i]), |vs| as real);
  }

  /**
    Percentiles follow frequencies: equal values get equal percentiles and
    a strictly larger value a strictly larger percentile.
   */
  lemma PercentileOrder(vs: seq<real>, i: int, j: int)
    requires 0 <= i < |vs| && 0 <= j < |vs|
    ensures vs[i] == vs[j] ==> PercentileRank(vs, vs[i]) == PercentileRank(vs, vs[j])
    ensures vs[i] < vs[j] ==> PercentileRank(vs, vs[i]) < PercentileRank(vs, vs[j])
  {
    if vs[i] < vs[j] {
      CountBelowGrows(vs, vs[i], vs[j]);
      CountEqualOfMember(vs, i);
      QuotientStrictlyMonotone(AverageRank(vs, vs[i]), AverageRank(vs, vs[j]), |vs| as real);
    }
  }

  lemma {:induction false} NoneAboveMaximum(vs: seq<real>, v: real)
    requires forall j :: 0 <= j < |vs| ==> vs[j] <= v
    ensures CountAbove(vs, v) == 0
  {
    if vs != [] {
      NoneAboveMaximum(vs[..|vs| - 1], v);
    }
  }

  /**
    The largest frequency's percentile is 1 - (t - 1) / (2n) for t cells
    sharing it: exactly 1.0 when it is unique, and below 1.0 when tied.
   */
  lemma PercentileOfMaximum(vs: seq<real>, i: int)
    requires 0 <= i < |vs|
    requires forall j :: 0 <= j < |vs| ==> vs[j] <= vs[i]
    ensures PercentileRank(vs, vs[i])
            == 1.0 - (CountEqual(vs, vs[i]) as real - 1.0) / (2.0 * |vs| as real)
    ensures PercentileRank(vs, vs[i]) == 1.0 <==> CountEqual(vs, vs[i]) == 1
  {
    NoneAboveMaximum(vs, vs[i]);
    CountsPartition(vs, vs[i]);
    CountEqualOfMember(vs, i);
    var n := |vs| as real;
    var t := CountEqual(vs, vs[i]) as real;
    assert AverageRank(vs, vs[i]) == n - (t - 1.0) / 2.0;
    ShareOfMaximum(n, t);
  }

  /** Two cells tied at the top frequency both get percentile 0.75, not 1.0. */
  lemma TiedMaximumExample()
    ensures PercentileRank([5.0, 5.0], 5.0) == 0.75
  {
    assert [5.0, 5.0][..1] == [5.0] && [5.0][..0] == [];
    assert AverageRank([5.0, 5.0], 5.0) == 1.5;
  }

  lemma {:induction false} PrefixOfAppend(vs: seq<real>, x: real)
    ensures (vs + [x])[..|vs|] == vs && (vs + [x])[|vs|] == x
  {
  }

  /** Adding `x` to the column moves the average rank of `w` by 1 if x < w, by 1/2 if x == w. */
  lemma AverageRankAppend(vs: seq<real>, x: real, w: real)
    ensures AverageRank(vs + [x], w)
            == AverageRank(vs, w) + (if x < w then 1.0 else if x == w then 0.5 else 0.0)
  {
    PrefixOfAppend(vs, x);
  }

  /** Adding `x` to the column raises the ranks of the values `ws` by their count above `x` plus half their count equal to it. */
  lemma {:induction false} SumOfRanksAppend(ws: seq<real>, vs: seq<real>, x: real)
    ensures SumOfRanks(ws, vs + [x])
            == SumOfRanks(ws, vs) + CountAbove(ws, x) as real + CountEqual(ws, x) as real / 2.0
  {
    if ws != [] {
      SumOfRanksAppend(ws[..|ws| - 1], vs, x);
      AverageRankAppend(vs, x, ws[|ws| - 1]);
    }
  }

  /**
    Averaging ties keeps the total of the ranks: the average ranks of a
    column of n values sum to 1 + 2 + ... + n, as distinct ranks would.
   */
  lemma {:induction false} AverageRanksSum(vs: seq<real>)
    ensures 2.0 * SumOfRanks(vs, vs) == (|vs| * (|vs| + 1)) as real
  {
    if vs != [] {
      var init, x := vs[..|vs| - 1], vs[|vs| - 1];
      assert vs == init + [x];
      AverageRanksSum(init);
      SumOfRanksAppend(init, init, x);
      AverageRankAppend(init, x, x);
      CountsPartition(init, x);
      var n := |init|;
      assert SumOfRanks(vs, vs) == SumOfRanks(init, vs) + AverageRank(vs, x);
      assert SumOfRanks(vs, vs) == SumOfRanks(init, init) + (n + 1) as real;
      assert (n + 1) * (n + 2) == n * (n + 1) + 2 * (n + 1);
    }
  }

  lemma QuotientInUnitInterval(r: real, n: real)
    requires 0.0 < r <= n
    ensures 0.0 < r / n <= 1.0
  {
    assert r / n * n == r;
  }

  lemma QuotientStrictlyMonotone(a: real, b: real, n: real)
    requires a < b && 0.0 < n
    ensures a / n < b / n
  {
    assert b / n - a / n == (b - a) / n;
  }

  /** The top rank n - (t - 1) / 2 of n values, t of them tied, as a share of n. */
  lemma ShareOfMaximum(n: real, t: real)
    requires 1.0 <= t <= n
    ensures (n - (t - 1.0) / 2.0) / n == 1.0 - (t - 1.0) / (2.0 * n)
    ensures (n - (t - 1.0) / 2.0) / n == 1.0 <==> t == 1.0
  {
    var q := (n - (t - 1.0) / 2.0) / n;
    var d := (t - 1.0) / (2.0 * n);
    assert q * n == n - (t - 1.0) / 2.0;
    assert d * n == (t - 1.0) / 2.0 by {
      assert d * (2.0 * n) == t - 1.0;
    }
    calc {
      (1.0 - d) * n;
      n - d * n;
      n - (t - 1.0) / 2.0;
      q * n;
    }
    assert (q - (1.0 - d)) * n == 0.0;
    assert q == 1.0 - d;
    if t != 1.0 {
      assert d > 0.0;
    }
  }

  /** Larger percentiles never get smaller markers. */
  lemma SizingMonotone(p: real, q: real)
    requires p <= q
    ensures Sizing(p) <= Sizing(q)
  {
  }

  /** The four tiers partition the percentiles at 0.40, 0.75 and 0.90, each bound inclusive. */
  lemma SizingTiers(p: real)
    ensures Sizing(p) == 2 <==> p <= 0.4
    ensures Sizing(p) == 40 <==> 0.4 < p <= 0.75
    ensures Sizing(p) == 100 <==> 0.75 < p <= 0.90
    ensures Sizing(p) == 200 <==> 0.90 < p
  {
  }
}
