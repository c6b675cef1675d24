/**
  The per-zone table the chart builder computes twice, once over the whole
  season (the league table) and once over the subject's rows (the target
  table): `groupby(['SHOT_ZONE_BASIC', 'SHOT_ZONE_AREA']).agg(FGA=sum of the
  attempted flag, FGM=sum of the made flag, FG_PCT=mean of the made flag)`.
 */
module ZoneStats {
  import opened Shots

  /** One row of a zone table. */
  datatype ZoneAvg = ZoneAvg(fga: int, fgm: int, pct: real)

  /**
    The aggregate of one non-empty group of rows. FG_PCT is the mean of the
    made flag: spread over every row of the group it adds up to FGM.
   */
  function Summarize(rows: seq<Shot>): (avg: ZoneAvg)
    requires rows != []
    ensures avg.fga == Total(rows, Attempted) && avg.fgm == Total(rows, Made)
    ensures avg.pct * |rows| as real == avg.fgm as real
  {
    var made := Total(rows, Made);
    ZoneAvg(Total(rows, Attempted), made, made as real / |rows| as real)
  }

  /** The zone table of `shots`: one row per zone pair that occurs, none for any other. */
  function Aggregate(shots: seq<Shot>): (table: map<Zone, ZoneAvg>)
    ensures table.Keys == ZonesOf(shots)
  {
    map z | z in ZonesOf(shots) :: InZoneNonEmpty(shots, z); Summarize(InZone(shots, z))
  }

  /** The sum of the FGA column over the zones `zs` of `table`. */
  function SumFga(table: map<Zone, ZoneAvg>, zs: seq<Zone>): int
    requires forall z :: z in zs ==> z in table
  {
    if zs == [] then 0 else table[zs[0]].fga + SumFga(table, zs[1..])
  }

  /** The sum of the FGM column over the zones `zs` of `table`. */
  function SumFgm(table: map<Zone, ZoneAvg>, zs: seq<Zone>): int
    requires forall z :: z in zs ==> z in table
  {
    if zs == [] then 0 else table[zs[0]].fgm + SumFgm(table, zs[1..])
  }

  /** The sum, over the zones `zs`, of the column sums of `w` inside each zone's group. */
  function ZoneTotals(shots: seq<Shot>, zs: seq<Zone>, w: Shot -> int): int {
    if zs == [] then 0 else Total(InZone(shots, zs[0]), w) + ZoneTotals(shots, zs[1..], w)
  }

  lemma {:induction false} ZoneTotalsAddShot(s: Shot, rest: seq<Shot>, zs: seq<Zone>, w: Shot -> int)
    requires DistinctZones(zs)
    ensures ZoneTotals([s] + rest, zs, w)
            == (if ZoneOf(s) in zs then w(s) else 0) + ZoneTotals(rest, zs, w)
  {
    if zs != [] {
      assert DistinctZones(zs[1..]);
      ZoneTotalsAddShot(s, rest, zs[1..], w);
      assert ([s] + rest)[0] == s && ([s] + rest)[1..] == rest;
      if ZoneOf(s) == zs[0] {
        assert ZoneOf(s) !in zs[1..];
        assert Total(InZone([s] + rest, zs[0]), w) == w(s) + Total(InZone(rest, zs[0]), w) by {
          assert ([s] + InZone(rest, zs[0]))[1..] == InZone(rest, zs[0]);
        }
      }
    }
  }

  /** Grouping a weight by zone loses and duplicates nothing, over any duplicate-free zone list covering the rows. */
  lemma {:induction false} ZoneTotalsConserve(shots: seq<Shot>, zs: seq<Zone>, w: Shot -> int)
    requires DistinctZones(zs)
    requires forall s :: s in shots ==> ZoneOf(s) in zs
    ensures ZoneTotals(shots, zs, w) == Total(shots, w)
  {
    if shots == [] {
      ZoneTotalsOfEmpty(zs, w);
    } else {
      assert shots == [shots[0]] + shots[1..];
      ZoneTotalsAddShot(shots[0], shots[1..], zs, w);
      ZoneTotalsConserve(shots[1..], zs, w);
    }
  }

  lemma {:induction false} ZoneTotalsOfEmpty(zs: seq<Zone>, w: Shot -> int)
    ensures ZoneTotals([], zs, w) == 0
  {
    if zs != [] {
      ZoneTotalsOfEmpty(zs[1..], w);
    }
  }

  lemma {:induction false} SumColumnsAreZoneTotals(shots: seq<Shot>, zs: seq<Zone>)
    requires forall z :: z in zs ==> z in Aggregate(shots)
    ensures SumFga(Aggregate(shots), zs) == ZoneTotals(shots, zs, Attempted)
    ensures SumFgm(Aggregate(shots), zs) == ZoneTotals(shots, zs, Made)
  {
    if zs != [] {
      SumColumnsAreZoneTotals(shots, zs[1..]);
    }
  }

  /**
    No shot is lost or counted twice by the group-by: summing FGA (FGM) over
    the zone table, each zone once, gives the attempted (made) count of the
    whole input.
   */
  lemma AggregateConservesCounts(shots: seq<Shot>, zs: seq<Zone>)
    requires DistinctZones(zs)
    requires forall z :: z in zs <==> z in Aggregate(shots)
    ensures SumFga(Aggregate(shots), zs) == Total(shots, Attempted)
    ensures SumFgm(Aggregate(shots), zs) == Total(shots, Made)
  {
    SumColumnsAreZoneTotals(shots, zs);
    forall s | s in shots ensures ZoneOf(s) in zs {
      assert ZoneOf(s) in ZonesOf(shots);
    }
    ZoneTotalsConserve(shots, zs, Attempted);
    ZoneTotalsConserve(shots, zs, Made);
  }

  /** With 0/1 flags, both column sums lie between 0 and the row count. */
  lemma {:induction false} BitTotalsBounded(rows: seq<Shot>)
    requires FlagsAreBits(rows)
    ensures 0 <= Total(rows, Made) <= |rows|
    ensures 0 <= Total(rows, Attempted) <= |rows|
  {
    if rows != [] {
      assert FlagsAreBits(rows[1..]) by {
        forall s | s in rows[1..] ensures s in rows { }
      }
      BitTotalsBounded(rows[1..]);
    }
  }

  lemma {:induction false} AllAttemptedTotal(rows: seq<Shot>)
    requires forall s :: s in rows ==> s.attempted == 1
    ensures Total(rows, Attempted) == |rows|
  {
    if rows != [] {
      AllAttemptedTotal(rows[1..]);
    }
  }

  lemma RateInUnitInterval(made: int, rows: int)
    requires 0 <= made <= rows && 0 < rows
    ensures 0.0 <= made as real / rows as real <= 1.0
  {
    var q := made as real / rows as real;
    assert q * rows as real == made as real;
  }

  /**
    With 0/1 flags a group's FG_PCT is a rate in [0, 1], and its FGA and FGM
    lie between 0 and its row count. Every row of a zone table is such a
    group's aggregate.
   */
  lemma ZonePctInUnitInterval(rows: seq<Shot>)
    requires rows != [] && FlagsAreBits(rows)
    ensures 0.0 <= Summarize(rows).pct <= 1.0
    ensures 0 <= Summarize(rows).fgm <= |rows|
    ensures 0 <= Summarize(rows).fga <= |rows|
  {
    BitTotalsBounded(rows);
    RateInUnitInterval(Total(rows, Made), |rows|);
  }

  /** A group's FG_PCT equals its FGM / FGA when every row in it was attempted. */
  lemma ZonePctIsFgmOverFga(rows: seq<Shot>)
    requires rows != []
    requires forall s :: s in rows ==> s.attempted == 1
    ensures Summarize(rows).fga == |rows|
    ensures Summarize(rows).pct == Summarize(rows).fgm as real / Summarize(rows).fga as real
  {
    AllAttemptedTotal(rows);
  }

  /** The two facts above hold of every row of a zone table. */
  lemma ZoneTableRates(shots: seq<Shot>, i: int)
    requires 0 <= i < |shots|
    ensures ZoneOf(shots[i]) in Aggregate(shots)
    ensures FlagsAreBits(shots) ==> 0.0 <= Aggregate(shots)[ZoneOf(shots[i])].pct <= 1.0
    ensures (forall s :: s in shots ==> s.attempted == 1) ==>
              Aggregate(shots)[ZoneOf(shots[i])].fga > 0
              && Aggregate(shots)[ZoneOf(shots[i])].pct
                 == Aggregate(shots)[ZoneOf(shots[i])].fgm as real / Aggregate(shots)[ZoneOf(shots[i])].fga as real
  {
    var z := ZoneOf(shots[i]);
    assert z in ZonesOf(shots);
    var rows := InZone(shots, z);
    InZoneNonEmpty(shots, z);
    if FlagsAreBits(shots) {
      assert FlagsAreBits(rows) by {
        forall s | s in rows ensures s in shots { }
      }
      ZonePctInUnitInterval(rows);
    }
    if forall s :: s in shots ==> s.attempted == 1 {
      ZonePctIsFgmOverFga(rows);
    }
  }

  /**
    FG_PCT is a mean over rows, not FGM / FGA: a zone with one made attempt
    and one row whose attempted flag is 0 has FG_PCT 0.5 and FGM / FGA 1.
   */
  lemma ZonePctIsNotFgmOverFga()
    ensures var z := Zone("Mid-Range", "Left Side(L)");
            var shots := [Shot("A", "T", 0, 0, 1, 1, "Mid-Range", "Left Side(L)"),
                          Shot("A", "T", 0, 0, 0, 0, "Mid-Range", "Left Side(L)")];
            z in Aggregate(shots)
            && Aggregate(shots)[z].pct == 0.5
            && Aggregate(shots)[z].fga == 1 && Aggregate(shots)[z].fgm == 1
            && Aggregate(shots)[z].fgm as real / Aggregate(shots)[z].fga as real == 1.0
  {
    var z := Zone("Mid-Range", "Left Side(L)");
    var a := Shot("A", "T", 0, 0, 1, 1, "Mid-Range", "Left Side(L)");
    var b := Shot("A", "T", 0, 0, 0, 0, "Mid-Range", "Left Side(L)");
    assert [a, b][1..] == [b];
    assert ZoneOf(a) in ZonesOf([a, b]);
    assert InZone([a, b], z) == [a, b];
  }
}
