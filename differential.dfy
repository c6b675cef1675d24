/**
  The two left joins of the chart builder: the target zone table joined to
  the league zone table, with DIFF = target FG_PCT - league FG_PCT per zone,
  and that per-zone table joined back onto every one of the target's shots.
 */
module Differential {
  import opened Wrappers
  import opened Shots
  import opened ZoneStats

  /**
    One row of the joined zone table: the target's aggregate, the league's
    aggregate if the league table has the zone (the `_league_avg` columns),
    and DIFF, missing (NaN) exactly when the league entry is.
   */
  datatype ZoneRow = ZoneRow(target: ZoneAvg, league: Option<ZoneAvg>, diff: Option<real>)

  /** A target shot with the joined zone row of its zone pair, if the zone table has one. */
  datatype EnrichedShot = EnrichedShot(shot: Shot, zone: Option<ZoneRow>)

  /** `pd.merge(target_avg, league_avg, how='left')` followed by the DIFF column. */
  function ZoneDifferentials(target: map<Zone, ZoneAvg>, league: map<Zone, ZoneAvg>): (rows: map<Zone, ZoneRow>)
    ensures rows.Keys == target.Keys
    ensures forall z :: z in rows ==> rows[z].target == target[z]
    ensures forall z :: z in rows ==>
              (rows[z].league.Some? <==> z in league) && (rows[z].diff.Some? <==> z in league)
    ensures forall z :: z in rows && z in league ==>
              rows[z].league == Some(league[z]) && rows[z].diff == Some(target[z].pct - league[z].pct)
  {
    map z | z in target ::
      if z in league then ZoneRow(target[z], Some(league[z]), Some(target[z].pct - league[z].pct))
      else ZoneRow(target[z], None, None)
  }

  /** `pd.merge(target_df, target_avg, how='left')`: zone keys are unique, so one row per shot. */
  function JoinToShots(shots: seq<Shot>, rows: map<Zone, ZoneRow>): (enriched: seq<EnrichedShot>)
    ensures |enriched| == |shots|
    ensures forall i :: 0 <= i < |shots| ==>
              enriched[i].shot == shots[i]
              && enriched[i].zone == (if ZoneOf(shots[i]) in rows then Some(rows[ZoneOf(shots[i])]) else None)
  {
    if shots == [] then []
    else
      var zone := if ZoneOf(shots[0]) in rows then Some(rows[ZoneOf(shots[0])]) else None;
      [EnrichedShot(shots[0], zone)] + JoinToShots(shots[1..], rows)
  }

  /** The joined zone table of one subject against its season. */
  function TargetTable(season: seq<Shot>, column: SubjectColumn, name: string): map<Zone, ZoneRow> {
    ZoneDifferentials(Aggregate(OfSubject(season, column, name)), Aggregate(season))
  }

  /** The subject's shots, each carrying its zone's DIFF. */
  function TargetShots(season: seq<Shot>, column: SubjectColumn, name: string): seq<EnrichedShot> {
    JoinToShots(OfSubject(season, column, name), TargetTable(season, column, name))
  }

  /** The target rows are a filter of the season rows, so their zones are league zones. */
  lemma TargetZoneIsLeagueZone(season: seq<Shot>, column: SubjectColumn, name: string, z: Zone)
    requires z in ZonesOf(OfSubject(season, column, name))
    ensures z in ZonesOf(season)
  {
    var s :| s in OfSubject(season, column, name) && ZoneOf(s) == z;
    assert s in season;
  }

  /** A season row of the subject is a target row, so its zone is a target zone. */
  lemma {:induction false} SubjectRowIsTargetRow(season: seq<Shot>, column: SubjectColumn, name: string, s: Shot)
    requires s in season && Subject(s, column) == name
    ensures s in OfSubject(season, column, name)
  {
    if season[0] != s {
      SubjectRowIsTargetRow(season[1..], column, name, s);
    }
  }

  /**
    The zone of any shot of the subject is in both the target and the league
    table, and with non-negative flags the target's FGA and FGM there never
    exceed the league's.
   */
  lemma TargetZonesInLeague(season: seq<Shot>, column: SubjectColumn, name: string, i: int)
    requires FlagsNonNegative(season)
    requires 0 <= i < |season| && Subject(season[i], column) == name
    ensures ZoneOf(season[i]) in Aggregate(OfSubject(season, column, name))
    ensures ZoneOf(season[i]) in Aggregate(season)
    ensures Aggregate(OfSubject(season, column, name))[ZoneOf(season[i])].fga
            <= Aggregate(season)[ZoneOf(season[i])].fga
    ensures Aggregate(OfSubject(season, column, name))[ZoneOf(season[i])].fgm
            <= Aggregate(season)[ZoneOf(season[i])].fgm
  {
    var z := ZoneOf(season[i]);
    SubjectRowIsTargetRow(season, column, name, season[i]);
    assert z in ZonesOf(OfSubject(season, column, name));
    assert z in ZonesOf(season);
    SubjectZoneTotalBounded(season, column, name, z, Attempted);
    SubjectZoneTotalBounded(season, column, name, z, Made);
  }

  /** The joined zone table has a row for a zone exactly when the subject shot from it. */
  lemma TargetTableZones(season: seq<Shot>, column: SubjectColumn, name: string, z: Zone)
    ensures z in TargetTable(season, column, name) <==> z in ZonesOf(OfSubject(season, column, name))
  {
  }

  /**
    The league join always succeeds: the zone of any shot of the subject has
    a row in the joined table, that row has its league entry, and its DIFF is
    the target's FG_PCT minus the league's.
   */
  lemma JoinAlwaysFindsLeague(season: seq<Shot>, column: SubjectColumn, name: string, i: int)
    requires 0 <= i < |season| && Subject(season[i], column) == name
    ensures ZoneOf(season[i]) in TargetTable(season, column, name)
    ensures ZoneOf(season[i]) in Aggregate(season)
    ensures TargetTable(season, column, name)[ZoneOf(season[i])].league == Some(Aggregate(season)[ZoneOf(season[i])])
    ensures TargetTable(season, column, name)[ZoneOf(season[i])].diff.Some?
    ensures TargetTable(season, column, name)[ZoneOf(season[i])].diff.value
            == Aggregate(OfSubject(season, column, name))[ZoneOf(season[i])].pct
               - Aggregate(season)[ZoneOf(season[i])].pct
  {
    var z := ZoneOf(season[i]);
    SubjectRowIsTargetRow(season, column, name, season[i]);
    assert z in ZonesOf(OfSubject(season, column, name));
    assert z in ZonesOf(season);
  }

  /** The per-shot join keeps exactly the subject's rows, in order, one output row per shot. */
  lemma TargetShotsKeepRows(season: seq<Shot>, column: SubjectColumn, name: string)
    ensures |TargetShots(season, column, name)| == |OfSubject(season, column, name)|
    ensures forall i :: 0 <= i < |OfSubject(season, column, name)| ==>
              TargetShots(season, column, name)[i].shot == OfSubject(season, column, name)[i]
  {
  }

  /** Every target shot carries the DIFF of its own zone pair; no shot's DIFF is missing. */
  lemma TargetShotsCarryZoneDiff(season: seq<Shot>, column: SubjectColumn, name: string)
    ensures forall e :: e in TargetShots(season, column, name) ==>
              ZoneOf(e.shot) in Aggregate(season)
              && e.zone.Some? && e.zone.value.diff.Some?
              && e.zone.value.diff.value
                 == Aggregate(OfSubject(season, column, name))[ZoneOf(e.shot)].pct
                    - Aggregate(season)[ZoneOf(e.shot)].pct
  {
    var target := OfSubject(season, column, name);
    var enriched := TargetShots(season, column, name);
    forall e | e in enriched
      ensures ZoneOf(e.shot) in Aggregate(season)
      ensures e.zone.Some? && e.zone.value.diff.Some?
      ensures e.zone.value.diff.value == Aggregate(target)[ZoneOf(e.shot)].pct - Aggregate(season)[ZoneOf(e.shot)].pct
    {
      var i :| 0 <= i < |enriched| && enriched[i] == e;
      var z := ZoneOf(target[i]);
      assert target[i] in target;
      assert z in ZonesOf(target);
      TargetZoneIsLeagueZone(season, column, name, z);
    }
  }

  /** A subject with no shots gives an empty target table and no enriched shots. */
  lemma NoMatchingShots(season: seq<Shot>, column: SubjectColumn, name: string)
    requires forall s :: s in season ==> Subject(s, column) != name
    ensures OfSubject(season, column, name) == []
    ensures Aggregate(OfSubject(season, column, name)) == map[]
    ensures TargetTable(season, column, name) == map[]
    ensures TargetShots(season, column, name) == []
  {
  }

  /** DIFF is exact: a target FG_PCT of 0.50 against a league FG_PCT of 0.45 gives 0.05. */
  lemma DiffExample()
    ensures var z := Zone("Restricted Area", "Center(C)");
            var rows := ZoneDifferentials(map[z := ZoneAvg(2, 1, 0.50)], map[z := ZoneAvg(20, 9, 0.45)]);
            z in rows && rows[z].diff == Some(0.05)
  {
  }
}
