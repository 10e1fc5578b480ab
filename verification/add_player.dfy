/** The "new player" form: its category picker and its submit routine,
    which validates six required fields in a fixed order, builds the row
    and inserts it. */
module AddPlayerForm {
  import opened Wrappers
  import opened Seqs
  import opened Text
  import opened Store

  /** The form's fields, as the inputs hold them (all text). */
  datatype FormData = FormData(
    name: string,
    number: string,
    position: string,
    categoryId: string,
    birthDate: string,
    healthCardExpiry: string,
    profilePhoto: Option<string>)

  /** The screen's own state: picker contents, the busy flag and the banner. */
  datatype Screen = Screen(categories: seq<Category>, loading: bool, error: Option<string>)

  /** What one submit leaves behind. */
  datatype Submitted = Submitted(db: Db, issued: seq<Request>, screen: Screen, navigateTo: Option<string>)

  const NameRequired := "El nombre es requerido"
  const NumberRequired := "El número es requerido"
  const PositionRequired := "La posición es requerida"
  const CategoryRequired := "La categoría es requerida"
  const BirthDateRequired := "La fecha de nacimiento es requerida"
  const HealthCardRequired := "La fecha de vencimiento del carnet es requerida"
  const InsertFailedPrefix := "Error al crear el jugador: "
  const CategoriesLoadFailed := "Error al cargar las categorías"

  // ---------------------------------------------------------------------
  // Category picker
  // ---------------------------------------------------------------------

  /** Loads the picker: on success the club's categories by name,
      descending; on failure the picker keeps what it had and the banner
      reports the failure. */
  function LoadCategories(db: Db, clubId: Id, s: Screen, net: Net): (r: Screen)
    ensures r.loading == s.loading
    ensures net.Up? ==> r.error == s.error
    ensures net.Up? ==> multiset(r.categories) == multiset(CategoriesOfClub(db, clubId))
    ensures net.Up? ==> forall c :: c in r.categories <==> c in db.categories && c.clubId == clubId
    ensures net.Up? ==> forall i, j :: 0 <= i < j < |r.categories| ==>
                          TextLe(r.categories[j].name, r.categories[i].name)
    ensures net.Down? ==> r == s.(error := Some(CategoriesLoadFailed))
  {
    ClubCategoriesByNameSpec(db, clubId);
    if net.Up? then s.(categories := ClubCategoriesByName(db, clubId))
    else s.(error := Some(CategoriesLoadFailed))
  }

  // ---------------------------------------------------------------------
  // Validation
  // ---------------------------------------------------------------------

  /** The messages of the six checks, in the order the form runs them. */
  const Messages: seq<string> :=
    [NameRequired, NumberRequired, PositionRequired, CategoryRequired, BirthDateRequired, HealthCardRequired]

  /** Which of the six fields are missing, in check order: a reference for
      `Validate`. */
  function Missing(f: FormData): (m: seq<bool>)
    ensures |m| == |Messages|
  {
    [TrimsToEmpty(f.name), f.number == "", f.position == "",
     f.categoryId == "", f.birthDate == "", f.healthCardExpiry == ""]
  }

  /** The first failing check's message, or `None` when the form is complete. */
  function Validate(f: FormData): (r: Option<string>)
    ensures r.None? <==> forall k :: 0 <= k < |Missing(f)| ==> !Missing(f)[k]
  {
    var m := Missing(f);
    if TrimsToEmpty(f.name) then assert m[0]; Some(NameRequired)
    else if f.number == "" then assert m[1]; Some(NumberRequired)
    else if f.position == "" then assert m[2]; Some(PositionRequired)
    else if f.categoryId == "" then assert m[3]; Some(CategoryRequired)
    else if f.birthDate == "" then assert m[4]; Some(BirthDateRequired)
    else if f.healthCardExpiry == "" then assert m[5]; Some(HealthCardRequired)
    else None
  }

  /** When several fields are missing, only the first one in check order is
      reported. */
  lemma ValidateReportsFirstMissing(f: FormData, k: nat)
    requires k < |Missing(f)| && Missing(f)[k]
    requires forall j :: 0 <= j < k ==> !Missing(f)[j]
    ensures Validate(f) == Some(Messages[k])
  {
    var m := Missing(f);
    assert k > 0 ==> !m[0];
    assert k > 1 ==> !m[1];
    assert k > 2 ==> !m[2];
    assert k > 3 ==> !m[3];
    assert k > 4 ==> !m[4];
  }

  /** The six messages are distinct, so the message names the field. */
  lemma MessagesDistinct()
    ensures forall i, j :: 0 <= i < j < |Messages| ==> Messages[i] != Messages[j]
  {
  }

  /** A name that is empty or only whitespace is the first thing rejected. */
  lemma BlankNameRejected(f: FormData)
    requires AllSpace(f.name)
    ensures Validate(f) == Some(NameRequired)
  {
    TrimEmptyIff(f.name);
  }

  /** The number check rejects only the empty string: "0" passes it. */
  lemma NumberCheckOnlyRejectsEmpty(f: FormData)
    requires !AllSpace(f.name)
    ensures Validate(f) == Some(NumberRequired) <==> f.number == ""
  {
    TrimEmptyIff(f.name);
  }

  // ---------------------------------------------------------------------
  // Row construction and submit
  // ---------------------------------------------------------------------

  /** `profile_photo || null`: an empty string is falsy and becomes null. */
  function PhotoOrNull(p: Option<string>): (r: Option<string>)
    ensures r.Some? <==> p.Some? && p.value != ""
    ensures r.Some? ==> r == p
  {
    if p.Some? && p.value != "" then p else None
  }

  /** The row the form inserts, given the id the store assigns. */
  function PlayerRow(f: FormData, clubId: Id, id: Id): Player {
    Player(id, Trim(f.name), ParseInt(f.number), f.position, f.categoryId, clubId,
           f.birthDate, f.healthCardExpiry, PhotoOrNull(f.profilePhoto))
  }

  /** `/clubs/{clubId}/categories/{categoryId}`. */
  function CategoryDetailRoute(clubId: Id, categoryId: Id): string {
    "/clubs/" + clubId + "/categories/" + categoryId
  }

  /** Submits the form. The banner is cleared first; a failed check reports
      its message and sends nothing; otherwise one insert is sent, whose
      failure is reported with its message and whose success navigates to
      the category's page. The busy flag is down afterwards on every path. */
  function Submit(db: Db, clubId: Id, f: FormData, s: Screen, insert: Net): (r: Submitted)
    ensures !r.screen.loading
    ensures r.screen.categories == s.categories
    ensures Validate(f).Some? ==>
              r.db == db && r.issued == [] && r.navigateTo == None && r.screen.error == Validate(f)
    ensures Validate(f).None? ==> r.issued == [Insert(Players)]
    ensures Validate(f).None? && insert.Down? ==>
              r.db == db && r.navigateTo == None
              && r.screen.error == Some(InsertFailedPrefix + insert.message)
    ensures Validate(f).None? && insert.Up? ==>
              r.screen.error == None && r.navigateTo == Some(CategoryDetailRoute(clubId, f.categoryId))
              && r.db == InsertPlayer(db, id => PlayerRow(f, clubId, id))
  {
    var busy := s.(loading := true, error := None);
    match Validate(f)
    case Some(message) =>
      Submitted(db, [], busy.(loading := false, error := Some(message)), None)
    case None =>
      if insert.Down? then
        Submitted(db, [Insert(Players)],
                  busy.(loading := false, error := Some(InsertFailedPrefix + insert.message)), None)
      else
        Submitted(InsertPlayer(db, id => PlayerRow(f, clubId, id)), [Insert(Players)],
                  busy.(loading := false), Some(CategoryDetailRoute(clubId, f.categoryId)))
  }

  /** A successful submit adds exactly one player row, with a fresh id, the
      trimmed (hence non-blank) name, the parsed number, the other fields as
      entered and the club from the route; no other row changes. */
  lemma SubmitInsertsFormRow(db: Db, clubId: Id, f: FormData, s: Screen)
    requires Validate(f).None?
    ensures var r := Submit(db, clubId, f, s, Up);
            && r.db.clubs == db.clubs && r.db.categories == db.categories && r.db.coaches == db.coaches
            && |r.db.players| == |db.players| + 1
            && r.db.players[..|db.players|] == db.players
            && var p := r.db.players[|db.players|];
               && p.name == Trim(f.name) && p.name != ""
               && !IsJsSpace(p.name[0]) && !IsJsSpace(p.name[|p.name| - 1])
               && p.number == ParseInt(f.number)
               && p.position == f.position && p.categoryId == f.categoryId
               && p.birthDate == f.birthDate && p.healthCardExpiry == f.healthCardExpiry
               && p.clubId == clubId
               && (p.profilePhoto.Some? <==> f.profilePhoto.Some? && f.profilePhoto.value != "")
               && (forall k :: 0 <= k < |db.players| ==> db.players[k].id != p.id)
  {
    var r := Submit(db, clubId, f, s, Up);
    var id :| r.db.players[|db.players|] == PlayerRow(f, clubId, id)
              && forall k :: 0 <= k < |db.players| ==> db.players[k].id != id;
    assert !Missing(f)[0];
  }

  /** A number typed as the decimal rendering of `n` is stored as `n`. */
  lemma SubmittedNumberRoundTrips(f: FormData, clubId: Id, id: Id, n: int)
    requires f.number == ShowInt(n)
    ensures PlayerRow(f, clubId, id).number == Some(n)
  {
    ParseShowInt(n);
  }

  /** Choosing the category from a loaded picker puts the new player in a
      category of the route's club. */
  lemma PickedCategoryBelongsToClub(db: Db, clubId: Id, f: FormData, s: Screen, c: Category)
    requires c in LoadCategories(db, clubId, s, Up).categories
    requires f.categoryId == c.id
    ensures c in db.categories && c.clubId == clubId
    ensures PlayerRow(f, clubId, "").categoryId == c.id
  {
  }
}
