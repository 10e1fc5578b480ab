/** The category detail screen: the category looked up by id, its players
    ordered by number and its coaches, with the two counts shown on cards. */
module CategoryDetail {
  import opened Wrappers
  import opened Seqs
  import opened Sorting
  import opened Store

  datatype Screen = Screen(category: Option<Category>, players: seq<Player>, coaches: seq<Coach>, loading: bool)

  datatype View = Spinner | CategoryNotFound | CategoryPage(category: Category, playerCount: nat, coachCount: nat)

  function CategoryIdIs(categoryId: Id): Category -> bool {
    (c: Category) => c.id == categoryId
  }

  /** `getData`. Three requests, none of whose errors is checked: a failed
      or non-unique category lookup leaves the category null, and a failed
      player or coach request leaves that list empty. */
  function GetData(db: Db, categoryId: Id, s: Screen, categoryNet: Net, playersNet: Net, coachesNet: Net)
    : (r: Screen)
    ensures !r.loading
    ensures r.category.Some? <==>
              categoryNet.Up? && |Positions(db.categories, CategoryIdIs(categoryId))| == 1
    ensures r.category.Some? ==> r.category.value in db.categories && r.category.value.id == categoryId
    ensures playersNet.Down? ==> r.players == []
    ensures playersNet.Up? ==> multiset(r.players) == multiset(PlayersOfCategory(db, categoryId))
    ensures forall p :: p in r.players ==> p in db.players && p.categoryId == categoryId
    ensures forall i, j :: 0 <= i < j < |r.players| ==> NullsLastLe(r.players[i].number, r.players[j].number)
    ensures coachesNet.Down? ==> r.coaches == []
    ensures coachesNet.Up? ==> multiset(r.coaches) == multiset(CoachesOfCategory(db, categoryId))
    ensures coachesNet.Up? ==> forall c :: c in r.coaches <==> c in db.coaches && c.categoryId == categoryId
  {
    FilterCountsPositions(db.categories, CategoryIdIs(categoryId));
    var category := if categoryNet.Up? then Single(db.categories, CategoryIdIs(categoryId)) else None;
    var players := if playersNet.Up? then PlayersByNumber(db, categoryId) else [];
    var coaches := if coachesNet.Up? then CoachesOfCategory(db, categoryId) else [];
    PlayersByNumberSpec(db, categoryId);
    Screen(category, players, coaches, false)
  }

  /** The category's players ordered by number, as the players request
      returns them. */
  function PlayersByNumber(db: Db, categoryId: Id): (r: seq<Player>)
    ensures multiset(r) == multiset(PlayersOfCategory(db, categoryId))
    ensures SortedBy(r, NumberAscending())
  {
    NumberAscendingIsTotalPreorder();
    Sort(PlayersOfCategory(db, categoryId), NumberAscending())
  }

  /** The ordered list holds exactly the category's players, numbers never
      decreasing and players without a number last. */
  lemma PlayersByNumberSpec(db: Db, categoryId: Id)
    ensures forall p :: p in PlayersByNumber(db, categoryId) <==> p in db.players && p.categoryId == categoryId
    ensures |PlayersByNumber(db, categoryId)| == |PlayersOfCategory(db, categoryId)|
    ensures forall i, j :: 0 <= i < j < |PlayersByNumber(db, categoryId)| ==>
              NullsLastLe(PlayersByNumber(db, categoryId)[i].number, PlayersByNumber(db, categoryId)[j].number)
  {
    var r := PlayersByNumber(db, categoryId);
    var f := PlayersOfCategory(db, categoryId);
    PermutationKeepsMembers(r, f);
    forall p ensures p in f <==> p in db.players && p.categoryId == categoryId {
      if p in db.players && p.categoryId == categoryId {
        var k :| 0 <= k < |db.players| && db.players[k] == p;
      }
    }
    forall i, j | 0 <= i < j < |r| ensures NullsLastLe(r[i].number, r[j].number) {
      assert NumberAscending()(r[i], r[j]);
    }
  }

  /** What the screen renders; the cards show the lengths of the two lists. */
  function Render(s: Screen): (v: View)
    ensures v.CategoryNotFound? <==> !s.loading && s.category.None?
    ensures v.CategoryPage? ==> v.playerCount == |s.players| && v.coachCount == |s.coaches|
  {
    if s.loading then Spinner
    else if s.category.None? then CategoryNotFound
    else CategoryPage(s.category.value, |s.players|, |s.coaches|)
  }

  /** When every request goes through and the category exists, the cards show
      how many players and coaches the store holds for the category. */
  lemma CardsShowStoreCounts(db: Db, categoryId: Id, s: Screen)
    requires |Positions(db.categories, CategoryIdIs(categoryId))| == 1
    ensures var v := Render(GetData(db, categoryId, s, Up, Up, Up));
            && v.CategoryPage?
            && v.playerCount == |Positions(db.players, PlayerInCategory(categoryId))|
            && v.coachCount == |Positions(db.coaches, CoachInCategory(categoryId))|
  {
    var r := GetData(db, categoryId, s, Up, Up, Up);
    PlayersByNumberSpec(db, categoryId);
    FilterCountsPositions(db.players, PlayerInCategory(categoryId));
    FilterCountsPositions(db.coaches, CoachInCategory(categoryId));
  }
}
