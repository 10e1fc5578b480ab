/** The "new category" form: a year picked from a fixed list, a lookup for
    an existing category of the same name in the club, and an insert when
    the lookup does not find exactly one. */
module AddCategoryForm {
  import opened Wrappers
  import opened Seqs
  import opened Text
  import opened Store

  datatype Screen = Screen(loading: bool, error: Option<string>)

  datatype Submitted = Submitted(db: Db, issued: seq<Request>, screen: Screen, navigateTo: Option<string>)

  const SelectYearMessage := "Por favor selecciona un año"
  const AlreadyExistsMessage := "Esta categoría ya existe para este club"

  // ---------------------------------------------------------------------
  // Selectable years
  // ---------------------------------------------------------------------

  /** `Array.from({ length: 8 }, (_, i) => 2019 - i)`. */
  function Years(): seq<int> {
    seq(8, i => 2019 - i)
  }

  /** The years offered are exactly 2019 down to 2012, newest first. */
  lemma YearsAreTheCategoryRange()
    ensures |Years()| == 8
    ensures forall i, j :: 0 <= i < j < |Years()| ==> Years()[i] > Years()[j]
    ensures forall y :: y in Years() <==> 2012 <= y <= 2019
  {
    forall y | 2012 <= y <= 2019 ensures y in Years() {
      assert Years()[2019 - y] == y;
    }
  }

  /** The option values, `year.toString()`. */
  function YearOptions(): seq<string> {
    seq(|Years()|, i requires 0 <= i < |Years()| => ShowInt(Years()[i]))
  }

  /** Every option is non-empty and reads back as its year. */
  lemma YearOptionsReadBack()
    ensures |YearOptions()| == |Years()|
    ensures forall i :: 0 <= i < |YearOptions()| ==>
              YearOptions()[i] != "" && ParseInt(YearOptions()[i]) == Some(Years()[i])
  {
    forall i | 0 <= i < |YearOptions()|
      ensures YearOptions()[i] != "" && ParseInt(YearOptions()[i]) == Some(Years()[i])
    {
      ParseShowInt(Years()[i]);
    }
  }

  // ---------------------------------------------------------------------
  // Submit
  // ---------------------------------------------------------------------

  /** A category row with this club and this name. */
  function SameName(clubId: Id, name: string): Category -> bool {
    (c: Category) => c.clubId == clubId && c.name == name
  }

  /** How many categories of the club already carry the name. */
  ghost function Matching(db: Db, clubId: Id, name: string): nat {
    |Positions(db.categories, SameName(clubId, name))|
  }

  /** `db'` is `db` with one category row `{name, club_id}` appended under an
      id no other category uses, and nothing else changed. */
  ghost predicate AddsOneCategory(db: Db, db': Db, name: string, clubId: Id) {
    && db'.clubs == db.clubs && db'.players == db.players && db'.coaches == db.coaches
    && |db'.categories| == |db.categories| + 1
    && db'.categories[..|db.categories|] == db.categories
    && var c := db'.categories[|db.categories|];
       && c.name == name && c.clubId == clubId
       && forall k :: 0 <= k < |db.categories| ==> db.categories[k].id != c.id
  }

  /** `/clubs/{clubId}/categories`. */
  function CategoriesRoute(clubId: Id): string {
    "/clubs/" + clubId + "/categories"
  }

  /** Submits the selected year. An empty year is refused locally. Otherwise
      the lookup runs (a failed lookup reads as "no row"); exactly one match
      refuses; anything else inserts, and the insert's failure is reported
      with its message. The busy flag is down on every exit. */
  function Submit(db: Db, clubId: Id, year: string, s: Screen, lookup: Net, insert: Net): (r: Submitted)
    ensures !r.screen.loading
    ensures year == "" ==>
              r.db == db && r.issued == [] && r.navigateTo == None
              && r.screen.error == Some(SelectYearMessage)
    ensures year != "" && lookup.Up? && Matching(db, clubId, year) == 1 ==>
              r.db == db && r.issued == [Select(Categories)] && r.navigateTo == None
              && r.screen.error == Some(AlreadyExistsMessage)
    ensures year != "" && (lookup.Down? || Matching(db, clubId, year) != 1) ==>
              r.issued == [Select(Categories), Insert(Categories)]
    ensures year != "" && (lookup.Down? || Matching(db, clubId, year) != 1) && insert.Down? ==>
              r.db == db && r.navigateTo == None && r.screen.error == Some(insert.message)
    ensures year != "" && (lookup.Down? || Matching(db, clubId, year) != 1) && insert.Up? ==>
              AddsOneCategory(db, r.db, year, clubId) && r.screen.error == None
              && r.navigateTo == Some(CategoriesRoute(clubId))
  {
    FilterCountsPositions(db.categories, SameName(clubId, year));
    var busy := s.(loading := true, error := None);
    if year == "" then
      Submitted(db, [], busy.(loading := false, error := Some(SelectYearMessage)), None)
    else
      var existing := if lookup.Up? then Single(db.categories, SameName(clubId, year)) else None;
      if existing.Some? then
        Submitted(db, [Select(Categories)], busy.(loading := false, error := Some(AlreadyExistsMessage)), None)
      else if insert.Down? then
        Submitted(db, [Select(Categories), Insert(Categories)],
                  busy.(loading := false, error := Some(insert.message)), None)
      else
        Submitted(InsertCategory(db, year, clubId), [Select(Categories), Insert(Categories)],
                  busy.(loading := false), Some(CategoriesRoute(clubId)))
  }

  // ---------------------------------------------------------------------
  // The uniqueness guard
  // ---------------------------------------------------------------------

  /** No club has two categories with the same name. */
  ghost predicate NamesUniquePerClub(db: Db) {
    forall i, j :: 0 <= i < j < |db.categories| ==>
      !(db.categories[i].clubId == db.categories[j].clubId && db.categories[i].name == db.categories[j].name)
  }

  /** In a duplicate-free store a name matches at most once. */
  lemma UniqueMeansAtMostOneMatch(db: Db, clubId: Id, name: string)
    requires NamesUniquePerClub(db)
    ensures Matching(db, clubId, name) <= 1
  {
    var ps := Positions(db.categories, SameName(clubId, name));
    forall i, j | i in ps && j in ps ensures i == j {
    }
    if ps != {} {
      var i :| i in ps;
      assert ps == {i};
    }
  }

  /** From a duplicate-free store, a submit whose lookup reaches the store
      leaves the store duplicate-free. */
  lemma GuardKeepsNamesUnique(db: Db, clubId: Id, year: string, s: Screen, insert: Net)
    requires NamesUniquePerClub(db)
    ensures NamesUniquePerClub(Submit(db, clubId, year, s, Up, insert).db)
  {
    var r := Submit(db, clubId, year, s, Up, insert);
    UniqueMeansAtMostOneMatch(db, clubId, year);
    if r.db != db {
      var ps := Positions(db.categories, SameName(clubId, year));
      assert |ps| == 0;
      var n := |db.categories|;
      forall k | 0 <= k < n
        ensures !(db.categories[k].clubId == clubId && db.categories[k].name == year)
      {
        assert k !in ps;
      }
      assert r.db.categories[n].clubId == clubId && r.db.categories[n].name == year;
      forall i, j | 0 <= i < j < |r.db.categories|
        ensures !(r.db.categories[i].clubId == r.db.categories[j].clubId
                  && r.db.categories[i].name == r.db.categories[j].name)
      {
        assert r.db.categories[i] == db.categories[i];
        if j < n {
          assert r.db.categories[j] == db.categories[j];
        }
      }
    }
  }

  /** The guard relies on `single`, which finds nothing when two rows match:
      once a club has a duplicate name, submitting that name again inserts a
      third row. */
  lemma DuplicatesDefeatGuard(db: Db, clubId: Id, year: string, s: Screen)
    requires year != ""
    requires Matching(db, clubId, year) >= 2
    ensures var r := Submit(db, clubId, year, s, Up, Up);
            && r.issued == [Select(Categories), Insert(Categories)]
            && Matching(r.db, clubId, year) == Matching(db, clubId, year) + 1
  {
    var r := Submit(db, clubId, year, s, Up, Up);
    var n := |db.categories|;
    assert AddsOneCategory(db, r.db, year, clubId);
    var before := Positions(db.categories, SameName(clubId, year));
    var after := Positions(r.db.categories, SameName(clubId, year));
    forall k: nat | k < n ensures k in after <==> k in before {
      assert r.db.categories[k] == db.categories[k];
    }
    assert forall k :: k in after ==> k <= n;
    assert forall k :: k in before ==> k < n;
    assert after == before + {n};
  }

  /** A lookup that fails reads as "no such category": whenever the club
      already has a category with the name, submitting it with the lookup
      failing and the insert going through leaves the store with a
      duplicate. */
  lemma FailedLookupDuplicates(db: Db, clubId: Id, year: string, s: Screen, message: string)
    requires year != ""
    requires Matching(db, clubId, year) >= 1
    ensures !NamesUniquePerClub(Submit(db, clubId, year, s, Down(message), Up).db)
  {
    var r := Submit(db, clubId, year, s, Down(message), Up);
    var n := |db.categories|;
    var k :| k in Positions(db.categories, SameName(clubId, year));
    assert r.db.categories[k] == db.categories[k];
    assert r.db.categories[n].clubId == clubId && r.db.categories[n].name == year;
  }
}
