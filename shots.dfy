/**
  Raw shot records of one season and the two row filters the chart builder
  applies to them: the group of one zone pair, and the rows of one subject
  (a player or a team).
 */
module Shots {

  /** The key a season's shots are grouped by: (SHOT_ZONE_BASIC, SHOT_ZONE_AREA). */
  datatype Zone = Zone(basic: string, area: string)

  /** One field-goal attempt as the season table holds it. */
  datatype Shot = Shot(
    player: string,      // PLAYER_NAME
    team: string,        // TEAM_NAME
    locX: int,           // LOC_X, court-relative tenths of a foot
    locY: int,           // LOC_Y
    made: int,           // SHOT_MADE_FLAG
    attempted: int,      // SHOT_ATTEMPTED_FLAG
    zoneBasic: string,   // SHOT_ZONE_BASIC
    zoneArea: string     // SHOT_ZONE_AREA
  )

  /** The column a chart selects its subject by. */
  datatype SubjectColumn = PlayerName | TeamName

  function ZoneOf(s: Shot): Zone {
    Zone(s.zoneBasic, s.zoneArea)
  }

  function Subject(s: Shot, column: SubjectColumn): string {
    match column
    case PlayerName => s.player
    case TeamName => s.team
  }

  function Attempted(s: Shot): int { s.attempted }

  function Made(s: Shot): int { s.made }

  /** Both flags of every shot are 0 or 1, as the season data delivers them. */
  predicate FlagsAreBits(shots: seq<Shot>) {
    forall s :: s in shots ==>
      (s.made == 0 || s.made == 1) && (s.attempted == 0 || s.attempted == 1)
  }

  /** No flag is negative. */
  predicate FlagsNonNegative(shots: seq<Shot>) {
    forall s :: s in shots ==> s.made >= 0 && s.attempted >= 0
  }

  /** The column sum of `w` over `shots` (pandas `sum`). */
  function Total(shots: seq<Shot>, w: Shot -> int): int {
    if shots == [] then 0 else w(shots[0]) + Total(shots[1..], w)
  }

  /** The set of zone pairs that occur among `shots`. */
  function ZonesOf(shots: seq<Shot>): set<Zone> {
    set s | s in shots :: ZoneOf(s)
  }

  /** The group of one zone pair: the shots with that pair, in their order. */
  function InZone(shots: seq<Shot>, z: Zone): (rows: seq<Shot>)
    ensures forall s :: s in rows ==> s in shots && ZoneOf(s) == z
    ensures |rows| <= |shots|
  {
    if shots == [] then []
    else if ZoneOf(shots[0]) == z then [shots[0]] + InZone(shots[1..], z)
    else InZone(shots[1..], z)
  }

  /** `season_df.loc[season_df[target_column] == target_column_name]`. */
  function OfSubject(shots: seq<Shot>, column: SubjectColumn, name: string): (rows: seq<Shot>)
    ensures forall s :: s in rows ==> s in shots && Subject(s, column) == name
    ensures |rows| <= |shots|
  {
    if shots == [] then []
    else if Subject(shots[0], column) == name then [shots[0]] + OfSubject(shots[1..], column, name)
    else OfSubject(shots[1..], column, name)
  }

  /** A zone's group keeps every row with that zone pair. */
  lemma {:induction false} InZoneKeeps(shots: seq<Shot>, z: Zone, s: Shot)
    requires s in shots && ZoneOf(s) == z
    ensures s in InZone(shots, z)
  {
    if shots[0] != s {
      InZoneKeeps(shots[1..], z, s);
    }
  }

  /** A zone's group holds each row with that zone pair as often as the input does, and no other row. */
  lemma {:induction false} InZoneCounts(shots: seq<Shot>, z: Zone, s: Shot)
    ensures multiset(InZone(shots, z))[s] == if ZoneOf(s) == z then multiset(shots)[s] else 0
  {
    if shots != [] {
      assert shots == [shots[0]] + shots[1..];
      InZoneCounts(shots[1..], z, s);
    }
  }

  /** Every zone pair that occurs has a non-empty group. */
  lemma InZoneNonEmpty(shots: seq<Shot>, z: Zone)
    requires z in ZonesOf(shots)
    ensures InZone(shots, z) != []
  {
    var s :| s in shots && ZoneOf(s) == z;
    InZoneKeeps(shots, z, s);
  }

  /** No zone pair is listed twice. */
  predicate DistinctZones(zs: seq<Zone>) {
    forall i, j :: 0 <= i < j < |zs| ==> zs[i] != zs[j]
  }

  /** The subject filter keeps the original order: it distributes over concatenation. */
  lemma {:induction false} OfSubjectAppend(a: seq<Shot>, b: seq<Shot>, column: SubjectColumn, name: string)
    ensures OfSubject(a + b, column, name) == OfSubject(a, column, name) + OfSubject(b, column, name)
  {
    if a == [] {
      assert a + b == b;
    } else {
      assert (a + b)[0] == a[0] && (a + b)[1..] == a[1..] + b;
      OfSubjectAppend(a[1..], b, column, name);
      var x, y := OfSubject(a[1..], column, name), OfSubject(b, column, name);
      if Subject(a[0], column) == name {
        calc {
          OfSubject(a + b, column, name);
          [a[0]] + OfSubject(a[1..] + b, column, name);
          [a[0]] + (x + y);
          { assert [a[0]] + (x + y) == ([a[0]] + x) + y; }
          ([a[0]] + x) + y;
          OfSubject(a, column, name) + y;
        }
      } else {
        calc {
          OfSubject(a + b, column, name);
          OfSubject(a[1..] + b, column, name);
          x + y;
          OfSubject(a, column, name) + y;
        }
      }
    }
  }

  /** The subject filter keeps every matching row as often as it occurs, and nothing else. */
  lemma {:induction false} OfSubjectCounts(shots: seq<Shot>, column: SubjectColumn, name: string, s: Shot)
    ensures multiset(OfSubject(shots, column, name))[s]
            == if Subject(s, column) == name then multiset(shots)[s] else 0
  {
    if shots != [] {
      assert shots == [shots[0]] + shots[1..];
      OfSubjectCounts(shots[1..], column, name, s);
    }
  }

  /** A sum of non-negative weights over a zone of the subject's rows never exceeds that over the season's zone. */
  lemma {:induction false} SubjectZoneTotalBounded(shots: seq<Shot>, column: SubjectColumn, name: string,
                                                    z: Zone, w: Shot -> int)
    requires forall s :: s in shots ==> w(s) >= 0
    ensures 0 <= Total(InZone(OfSubject(shots, column, name), z), w) <= Total(InZone(shots, z), w)
  {
    if shots != [] {
      SubjectZoneTotalBounded(shots[1..], column, name, z, w);
      var rest := OfSubject(shots[1..], column, name);
      if Subject(shots[0], column) == name {
        assert OfSubject(shots, column, name) == [shots[0]] + rest;
        assert ([shots[0]] + rest)[1..] == rest;
        if ZoneOf(shots[0]) == z {
          assert ([shots[0]] + InZone(rest, z))[1..] == InZone(rest, z);
          assert ([shots[0]] + InZone(shots[1..], z))[1..] == InZone(shots[1..], z);
        }
      } else if ZoneOf(shots[0]) == z {
        assert ([shots[0]] + InZone(shots[1..], z))[1..] == InZone(shots[1..], z);
      }
    }
  }
}
