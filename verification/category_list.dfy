/** The category list screen: the club's categories by name, descending,
    and for each one a player count and a coach count, requested one
    category after another. */
module CategoryList {
  import opened Wrappers
  import opened Seqs
  import opened Text
  import opened Store

  datatype Counts = Counts(players: nat, coaches: nat)

  datatype Screen = Screen(categories: seq<Category>, stats: map<Id, Counts>, loading: bool, error: Option<string>)

  const LoadFailedMessage := "Error al cargar las categorías"

  /** A count request named in `failing` does not reach the store. */
  function CountNet(failing: set<(Table, Id)>, table: Table, categoryId: Id): Net {
    if (table, categoryId) in failing then Down("count request failed") else Up
  }

  /** What a shown count should be: the number of rows of the category, or
      0 when its count request failed. */
  ghost function ExpectedPlayers(db: Db, categoryId: Id, failing: set<(Table, Id)>): nat {
    if (Players, categoryId) in failing then 0 else |Positions(db.players, PlayerInCategory(categoryId))|
  }

  ghost function ExpectedCoaches(db: Db, categoryId: Id, failing: set<(Table, Id)>): nat {
    if (Coaches, categoryId) in failing then 0 else |Positions(db.coaches, CoachInCategory(categoryId))|
  }

  /** The two counts one category card needs: each count request's reply,
      `count || 0`. */
  function CountsOf(db: Db, categoryId: Id, failing: set<(Table, Id)>): Counts {
    Counts(CountOrZero(CountReply(db.players, PlayerInCategory(categoryId), CountNet(failing, Players, categoryId))),
           CountOrZero(CountReply(db.coaches, CoachInCategory(categoryId), CountNet(failing, Coaches, categoryId))))
  }

  /** The stats map built by the loop over the fetched categories, one
      category after another: one entry per category id, holding its two
      counts. */
  function BuildStats(db: Db, categories: seq<Category>, failing: set<(Table, Id)>): (stats: map<Id, Counts>)
    ensures stats.Keys == set c | c in categories :: c.id
    ensures forall id :: id in stats ==>
              && stats[id].players == ExpectedPlayers(db, id, failing)
              && stats[id].coaches == ExpectedCoaches(db, id, failing)
    decreases |categories|
  {
    if categories == [] then map[]
    else
      var n := |categories| - 1;
      var c := categories[n];
      assert categories == categories[..n] + [c];
      BuildStats(db, categories[..n], failing)[c.id := CountsOf(db, c.id, failing)]
  }

  /** `loadCategoryData`. The banner is cleared first. If the categories
      request fails, the banner reports it and the list and the stats keep
      their previous values; otherwise both are replaced. The spinner stops
      on both paths. */
  function LoadCategoryData(db: Db, clubId: Id, s: Screen, net: Net, failing: set<(Table, Id)>): (r: Screen)
    ensures !r.loading
    ensures net.Down? ==>
              r.categories == s.categories && r.stats == s.stats && r.error == Some(LoadFailedMessage)
    ensures net.Up? ==> r.error == None
    ensures net.Up? ==> multiset(r.categories) == multiset(CategoriesOfClub(db, clubId))
    ensures net.Up? ==> forall c :: c in r.categories <==> c in db.categories && c.clubId == clubId
    ensures net.Up? ==> forall i, j :: 0 <= i < j < |r.categories| ==>
                          TextLe(r.categories[j].name, r.categories[i].name)
    ensures net.Up? ==> r.stats.Keys == set c | c in r.categories :: c.id
    ensures net.Up? ==> forall c :: c in r.categories ==>
              && Displayed(r, c.id).players == ExpectedPlayers(db, c.id, failing)
              && Displayed(r, c.id).coaches == ExpectedCoaches(db, c.id, failing)
  {
    ClubCategoriesByNameSpec(db, clubId);
    if net.Down? then s.(loading := false, error := Some(LoadFailedMessage))
    else
      var categories := ClubCategoriesByName(db, clubId);
      s.(categories := categories, stats := BuildStats(db, categories, failing), loading := false, error := None)
  }

  /** The counts a category card shows: `stats[id]?.players || 0`, likewise
      for coaches; never undefined. */
  function Displayed(s: Screen, categoryId: Id): (r: Counts)
    ensures categoryId !in s.stats ==> r == Counts(0, 0)
    ensures categoryId in s.stats ==> r == s.stats[categoryId]
  {
    if categoryId in s.stats then s.stats[categoryId] else Counts(0, 0)
  }

  /** The "no categories" panel: shown once the spinner is gone, when the
      list is empty and there is no error. */
  predicate ShowsEmptyState(s: Screen) {
    !s.loading && |s.categories| == 0 && s.error.None?
  }

  /** After a successful load the panel shows exactly when the club has no
      category; after a failed load it never shows. */
  lemma LoadThenEmptyState(db: Db, clubId: Id, s: Screen, net: Net, failing: set<(Table, Id)>)
    ensures net.Down? ==> !ShowsEmptyState(LoadCategoryData(db, clubId, s, net, failing))
    ensures net.Up? ==> (ShowsEmptyState(LoadCategoryData(db, clubId, s, net, failing)) <==>
                         forall k :: 0 <= k < |db.categories| ==> db.categories[k].clubId != clubId)
  {
  }
}
