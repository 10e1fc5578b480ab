/** The player list screen: the club's players, fetched once, and the two
    client-side filters (name search and category) applied on every render. */
module PlayerList {
  import opened Seqs
  import opened Text
  import opened Store

  datatype Screen = Screen(players: seq<Player>, loading: bool)

  /** Fetches the club's players. A failed request is only logged: the list
      keeps what it had. The spinner stops on both paths. */
  function GetPlayers(db: Db, clubId: Id, s: Screen, net: Net): (r: Screen)
    ensures !r.loading
    ensures net.Up? ==> forall p :: p in r.players <==> p in db.players && p.clubId == clubId
    ensures net.Up? ==> IsSubsequence(r.players, db.players)
    ensures net.Up? ==> |r.players| == |Positions(db.players, PlayerInClub(clubId))|
    ensures net.Down? ==> r.players == s.players
  {
    FilterIsSubsequence(db.players, PlayerInClub(clubId));
    FilterCountsPositions(db.players, PlayerInClub(clubId));
    if net.Up? then Screen(PlayersOfClub(db, clubId), false)
    else s.(loading := false)
  }

  /** The category filter's options: the club's categories, unordered. The
      request's error is not checked, so a failure yields no options. */
  function GetCategoryOptions(db: Db, clubId: Id, net: Net): (r: seq<Category>)
    ensures net.Down? ==> r == []
    ensures net.Up? ==> multiset(r) == multiset(CategoriesOfClub(db, clubId))
    ensures net.Up? ==> forall c :: c in r <==> c in db.categories && c.clubId == clubId
  {
    if net.Up? then CategoriesOfClub(db, clubId) else []
  }

  /** A player is shown when its lower-cased name contains the lower-cased
      search text and, unless the category filter is empty, its category is
      the selected one. */
  predicate Matches(p: Player, search: string, categoryFilter: Id) {
    && Includes(Lower(p.name), Lower(search))
    && (categoryFilter == "" || p.categoryId == categoryFilter)
  }

  function Keep(search: string, categoryFilter: Id): Player -> bool {
    (p: Player) => Matches(p, search, categoryFilter)
  }

  /** `filteredPlayers`. */
  function Visible(players: seq<Player>, search: string, categoryFilter: Id): (r: seq<Player>)
    ensures forall i :: 0 <= i < |r| ==> r[i] in players && Matches(r[i], search, categoryFilter)
    ensures forall i :: 0 <= i < |players| && Matches(players[i], search, categoryFilter) ==> players[i] in r
    ensures |r| == |Positions(players, Keep(search, categoryFilter))|
  {
    FilterCountsPositions(players, Keep(search, categoryFilter));
    Filter(players, Keep(search, categoryFilter))
  }

  /** The list keeps the fetched order. */
  lemma VisibleKeepsOrder(players: seq<Player>, search: string, categoryFilter: Id)
    ensures IsSubsequence(Visible(players, search, categoryFilter), players)
  {
    FilterIsSubsequence(players, Keep(search, categoryFilter));
  }

  /** With no search text and no category selected, every fetched player is shown. */
  lemma NoFiltersShowAll(players: seq<Player>)
    ensures Visible(players, "", "") == players
  {
    forall i | 0 <= i < |players| ensures Keep("", "")(players[i]) {
      IncludesEmpty(Lower(players[i].name));
    }
    FilterKeepsAll(players, Keep("", ""));
  }

  /** Applying the same filters to the shown list changes nothing. */
  lemma VisibleIdempotent(players: seq<Player>, search: string, categoryFilter: Id)
    ensures Visible(Visible(players, search, categoryFilter), search, categoryFilter)
            == Visible(players, search, categoryFilter)
  {
    FilterIdempotent(players, Keep(search, categoryFilter));
  }

  /** Typing more (a search text that contains the previous one) can only
      hide players, never reveal or reorder them. */
  lemma LongerSearchNarrows(players: seq<Player>, search: string, longer: string, categoryFilter: Id)
    requires Includes(longer, search)
    ensures IsSubsequence(Visible(players, longer, categoryFilter), Visible(players, search, categoryFilter))
  {
    LowerKeepsIncludes(longer, search);
    forall p | Keep(longer, categoryFilter)(p) ensures Keep(search, categoryFilter)(p) {
      IncludesTransitive(Lower(p.name), Lower(longer), Lower(search));
    }
    FilterMonotone(players, Keep(search, categoryFilter), Keep(longer, categoryFilter));
  }

  /** Selecting a category can only hide players. */
  lemma CategoryFilterNarrows(players: seq<Player>, search: string, categoryFilter: Id)
    ensures IsSubsequence(Visible(players, search, categoryFilter), Visible(players, search, ""))
  {
    FilterMonotone(players, Keep(search, ""), Keep(search, categoryFilter));
  }

  /** The "no players found" panel is shown once the spinner is gone, when
      the filtered list is empty. */
  predicate ShowsEmptyState(s: Screen, search: string, categoryFilter: Id) {
    !s.loading && |Visible(s.players, search, categoryFilter)| == 0
  }

  lemma EmptyStateIff(s: Screen, search: string, categoryFilter: Id)
    ensures ShowsEmptyState(s, search, categoryFilter)
            <==> !s.loading && forall i :: 0 <= i < |s.players| ==> !Matches(s.players[i], search, categoryFilter)
  {
  }
}
