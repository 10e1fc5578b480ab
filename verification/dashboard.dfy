/** The club dashboard: the club looked up by id and three club-wide
    counts (categories, players, coaches). */
module Dashboard {
  import opened Wrappers
  import opened Seqs
  import opened Store

  datatype Stats = Stats(categories: nat, players: nat, coaches: nat)

  datatype Screen = Screen(club: Option<Club>, stats: Stats, loading: bool)

  datatype View = Spinner | ClubNotFound | ClubPage(club: Club, stats: Stats)

  const InitialScreen := Screen(None, Stats(0, 0, 0), true)

  function ClubIdIs(clubId: Id): Club -> bool {
    (c: Club) => c.id == clubId
  }

  /** The club lookup fails when the request fails or when zero or several
      clubs carry the id. */
  ghost predicate LookupSucceeds(db: Db, clubId: Id, clubNet: Net) {
    clubNet.Up? && |Positions(db.clubs, ClubIdIs(clubId))| == 1
  }

  /** `getClubData`. A failed club lookup aborts before any count: club and
      stats keep their previous values. Otherwise the club and the three
      counts (a failed count reads as 0) are set together. The spinner stops
      on every path. */
  function GetClubData(db: Db, clubId: Id, s: Screen, clubNet: Net, failing: set<Table>): (r: Screen)
    ensures !r.loading
    ensures !LookupSucceeds(db, clubId, clubNet) ==> r.club == s.club && r.stats == s.stats
    ensures LookupSucceeds(db, clubId, clubNet) ==>
              && r.club.Some? && r.club.value in db.clubs && r.club.value.id == clubId
              && r.stats.categories == (if Categories in failing then 0
                                        else |Positions(db.categories, CategoryInClub(clubId))|)
              && r.stats.players == (if Players in failing then 0
                                     else |Positions(db.players, PlayerInClub(clubId))|)
              && r.stats.coaches == (if Coaches in failing then 0
                                     else |Positions(db.coaches, CoachInClub(clubId))|)
  {
    FilterCountsPositions(db.clubs, ClubIdIs(clubId));
    var club := if clubNet.Up? then Single(db.clubs, ClubIdIs(clubId)) else None;
    if club.None? then
      s.(loading := false)
    else
      var categories := CountOrZero(CountReply(db.categories, CategoryInClub(clubId), NetFor(failing, Categories)));
      var players := CountOrZero(CountReply(db.players, PlayerInClub(clubId), NetFor(failing, Players)));
      var coaches := CountOrZero(CountReply(db.coaches, CoachInClub(clubId), NetFor(failing, Coaches)));
      Screen(club, Stats(categories, players, coaches), false)
  }

  function NetFor(failing: set<Table>, table: Table): Net {
    if table in failing then Down("count request failed") else Up
  }

  /** What the screen renders. */
  function Render(s: Screen): (v: View)
    ensures v.ClubNotFound? <==> !s.loading && s.club.None?
  {
    if s.loading then Spinner
    else if s.club.None? then ClubNotFound
    else ClubPage(s.club.value, s.stats)
  }

  /** On first load, a failed club lookup renders "Club no encontrado". */
  lemma FailedLookupRendersNotFound(db: Db, clubId: Id, clubNet: Net, failing: set<Table>)
    requires !LookupSucceeds(db, clubId, clubNet)
    ensures Render(GetClubData(db, clubId, InitialScreen, clubNet, failing)) == ClubNotFound
  {
  }

  /** When every request goes through, the page shows the club with the given
      id and the number of the club's categories, players and coaches. */
  lemma PageShowsStoreCounts(db: Db, clubId: Id, s: Screen)
    requires |Positions(db.clubs, ClubIdIs(clubId))| == 1
    ensures var v := Render(GetClubData(db, clubId, s, Up, {}));
            && v.ClubPage? && v.club in db.clubs && v.club.id == clubId
            && v.stats.categories == |Positions(db.categories, CategoryInClub(clubId))|
            && v.stats.players == |Positions(db.players, PlayerInClub(clubId))|
            && v.stats.coaches == |Positions(db.coaches, CoachInClub(clubId))|
  {
  }

  /** A failed lookup after an earlier successful one keeps showing the
      earlier club and its counts, whatever the requested id. */
  lemma FailedReloadKeepsPreviousClub(db: Db, clubId: Id, s: Screen, clubNet: Net, failing: set<Table>)
    requires s.club.Some?
    requires !LookupSucceeds(db, clubId, clubNet)
    ensures Render(GetClubData(db, clubId, s, clubNet, failing)) == ClubPage(s.club.value, s.stats)
  {
  }
}
