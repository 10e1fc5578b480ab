/** The hosted relational store, as the screens see it: four tables of rows
    with opaque string ids, queried by equality on one column, ordered,
    counted, looked up with `single`, and appended to by `insert`.
    Whether a given request reaches the store is not decided here: every
    routine receives, as a parameter, which of its requests fail. */
module Store {
  import opened Wrappers
  import opened Seqs
  import opened Sorting
  import opened Text

  type Id = string

  datatype Club = Club(id: Id, name: string, foundedYear: string, city: string)

  datatype Category = Category(id: Id, name: string, clubId: Id, description: Option<string>)

  /** `number` is `None` when the form's number did not parse (`NaN`, which
      the client serializes as `null`). */
  datatype Player = Player(
    id: Id,
    name: string,
    number: Option<int>,
    position: string,
    categoryId: Id,
    clubId: Id,
    birthDate: string,
    healthCardExpiry: string,
    profilePhoto: Option<string>)

  datatype Coach = Coach(id: Id, name: string, role: string, categoryId: Id, clubId: Id)

  datatype Db = Db(clubs: seq<Club>, categories: seq<Category>, players: seq<Player>, coaches: seq<Coach>)

  datatype Table = Clubs | Categories | Players | Coaches

  /** One request as the store client issues it. */
  datatype Request = Select(table: Table) | Insert(table: Table)

  /** Whether one request goes through; `Down(message)` is a network fault or
      a constraint violation reported with `message`. */
  datatype Net = Up | Down(message: string)

  // ---------------------------------------------------------------------
  // Queries
  // ---------------------------------------------------------------------

  /** `.single()`: the one row satisfying `p`, or `None` when zero rows or
      more than one row do. */
  function Single<T>(rows: seq<T>, p: T -> bool): (r: Option<T>)
    ensures r.Some? <==> |Filter(rows, p)| == 1
    ensures r.Some? ==> r.value in rows && p(r.value)
    ensures r.Some? ==> Filter(rows, p) == [r.value]
  {
    var m := Filter(rows, p);
    if |m| == 1 then Some(m[0]) else None
  }

  /** A count request: `None` when the request fails (the client's `count`
      is then `null`). */
  function CountReply<T>(rows: seq<T>, p: T -> bool, net: Net): (r: Option<nat>)
    ensures net.Up? ==> r == Some(|Positions(rows, p)|)
    ensures net.Down? ==> r == None
  {
    FilterCountsPositions(rows, p);
    if net.Up? then Some(|Filter(rows, p)|) else None
  }

  /** `count || 0`: a missing count reads as zero. */
  function CountOrZero(c: Option<nat>): nat {
    c.GetOr(0)
  }

  // The `.eq(column, value)` filters the screens use.

  function CategoryInClub(clubId: Id): Category -> bool {
    (c: Category) => c.clubId == clubId
  }

  function PlayerInClub(clubId: Id): Player -> bool {
    (p: Player) => p.clubId == clubId
  }

  function CoachInClub(clubId: Id): Coach -> bool {
    (c: Coach) => c.clubId == clubId
  }

  function PlayerInCategory(categoryId: Id): Player -> bool {
    (p: Player) => p.categoryId == categoryId
  }

  function CoachInCategory(categoryId: Id): Coach -> bool {
    (c: Coach) => c.categoryId == categoryId
  }

  function CategoriesOfClub(db: Db, clubId: Id): seq<Category> {
    Filter(db.categories, CategoryInClub(clubId))
  }

  function PlayersOfClub(db: Db, clubId: Id): seq<Player> {
    Filter(db.players, PlayerInClub(clubId))
  }

  function PlayersOfCategory(db: Db, categoryId: Id): seq<Player> {
    Filter(db.players, PlayerInCategory(categoryId))
  }

  function CoachesOfCategory(db: Db, categoryId: Id): seq<Coach> {
    Filter(db.coaches, CoachInCategory(categoryId))
  }

  // ---------------------------------------------------------------------
  // Orderings used by `.order(...)`
  // ---------------------------------------------------------------------

  /** `order('name', { ascending: false })`. */
  function NameDescending(): (Category, Category) -> bool {
    (a: Category, b: Category) => TextLe(b.name, a.name)
  }

  /** `order('number')`: ascending, with `null` numbers last. */
  function NumberAscending(): (Player, Player) -> bool {
    (a: Player, b: Player) => NullsLastLe(a.number, b.number)
  }

  predicate NullsLastLe(a: Option<int>, b: Option<int>) {
    b.None? || (a.Some? && a.value <= b.value)
  }

  lemma NameDescendingIsTotalPreorder()
    ensures TotalPreorder(NameDescending())
  {
    forall a: Category, b: Category
      ensures NameDescending()(a, b) || NameDescending()(b, a)
    {
      TextLeTotal(a.name, b.name);
    }
    forall a: Category, b: Category, c: Category
      | NameDescending()(a, b) && NameDescending()(b, c)
      ensures NameDescending()(a, c)
    {
      TextLeTransitive(c.name, b.name, a.name);
    }
  }

  lemma NumberAscendingIsTotalPreorder()
    ensures TotalPreorder(NumberAscending())
  {
  }

  /** The categories of a club, as every screen that lists them asks for
      them: selected by club and ordered by name, descending. */
  function ClubCategoriesByName(db: Db, clubId: Id): (r: seq<Category>)
    ensures multiset(r) == multiset(CategoriesOfClub(db, clubId))
    ensures SortedBy(r, NameDescending())
  {
    NameDescendingIsTotalPreorder();
    Sort(CategoriesOfClub(db, clubId), NameDescending())
  }

  /** Every listed category belongs to the club, every category of the club
      is listed, and names never increase along the list. */
  lemma ClubCategoriesByNameSpec(db: Db, clubId: Id)
    ensures forall c :: c in ClubCategoriesByName(db, clubId) <==> c in db.categories && c.clubId == clubId
    ensures |ClubCategoriesByName(db, clubId)| == |CategoriesOfClub(db, clubId)|
    ensures forall i, j :: 0 <= i < j < |ClubCategoriesByName(db, clubId)| ==>
              TextLe(ClubCategoriesByName(db, clubId)[j].name, ClubCategoriesByName(db, clubId)[i].name)
  {
    var r := ClubCategoriesByName(db, clubId);
    var f := CategoriesOfClub(db, clubId);
    PermutationKeepsMembers(r, f);
    forall c ensures c in f <==> c in db.categories && c.clubId == clubId {
      if c in db.categories && c.clubId == clubId {
        var k :| 0 <= k < |db.categories| && db.categories[k] == c;
      }
    }
    forall i, j | 0 <= i < j < |r| ensures TextLe(r[j].name, r[i].name) {
      assert NameDescending()(r[i], r[j]);
    }
  }

  // ---------------------------------------------------------------------
  // Insert
  // ---------------------------------------------------------------------

  function MaxLength(ids: seq<Id>): (n: nat)
    ensures forall i :: 0 <= i < |ids| ==> |ids[i]| <= n
  {
    if ids == [] then 0
    else
      var m := MaxLength(ids[1..]);
      assert forall i :: 1 <= i < |ids| ==> ids[i] == ids[1..][i - 1];
      if |ids[0]| > m then |ids[0]| else m
  }

  /** An identifier no existing row uses, as the store assigns on insert. */
  function FreshId(ids: seq<Id>): (r: Id)
    ensures r !in ids
  {
    seq(MaxLength(ids) + 1, _ => 'n')
  }

  function CategoryIds(db: Db): seq<Id> {
    seq(|db.categories|, i requires 0 <= i < |db.categories| => db.categories[i].id)
  }

  function PlayerIds(db: Db): seq<Id> {
    seq(|db.players|, i requires 0 <= i < |db.players| => db.players[i].id)
  }

  /** Inserts one category row; the new row carries a fresh id and is the
      only change. */
  function InsertCategory(db: Db, name: string, clubId: Id): (r: Db)
    ensures r.clubs == db.clubs && r.players == db.players && r.coaches == db.coaches
    ensures |r.categories| == |db.categories| + 1
    ensures r.categories[..|db.categories|] == db.categories
    ensures var c := r.categories[|db.categories|];
            c.name == name && c.clubId == clubId && c.description == None
            && forall k :: 0 <= k < |db.categories| ==> db.categories[k].id != c.id
  {
    var id := FreshId(CategoryIds(db));
    assert forall k :: 0 <= k < |db.categories| ==> CategoryIds(db)[k] == db.categories[k].id;
    db.(categories := db.categories + [Category(id, name, clubId, None)])
  }

  /** Inserts one player row built by `row` from the fresh id; nothing else
      changes. */
  function InsertPlayer(db: Db, row: Id -> Player): (r: Db)
    ensures r.clubs == db.clubs && r.categories == db.categories && r.coaches == db.coaches
    ensures |r.players| == |db.players| + 1
    ensures r.players[..|db.players|] == db.players
    ensures exists id :: r.players[|db.players|] == row(id)
                         && forall k :: 0 <= k < |db.players| ==> db.players[k].id != id
  {
    var id := FreshId(PlayerIds(db));
    assert forall k :: 0 <= k < |db.players| ==> PlayerIds(db)[k] == db.players[k].id;
    db.(players := db.players + [row(id)])
  }
}
