# Club administration screens: a Dafny model

This project models the decision logic of the football-club administration
front end: the screen routines that read from and write to a hosted relational
store of clubs, categories (one per birth year), players and coaches. The
remote store is replaced by an abstract in-memory store (`Store.Db`). It holds
one sequence of rows per table, with opaque string ids. It supports selection
by equality, ordering, counting, `single` (a row only when exactly one
matches) and insertion under a fresh id. Whether each request reaches the
store is a parameter of every routine: `Net.Up`, or `Net.Down(message)`. The
same goes for the set of count requests that fail. Each loader is one pure
step from (store, previous screen state, request outcomes) to the new screen
state. Each form submit is one pure step from (store, screen state, form
input, request outcomes) to (store, new screen state, requests issued,
navigation target).

Modules:

- `Wrappers`: `Option`, the stand-in for `null`.
- `Seqs`: an order-preserving `Filter`, subsequences, and the index-set
  reference (`Positions`) for what a count counts.
- `Sorting`: insertion sort by a total preorder. This is the store's
  `order(...)`.
- `Text`: JavaScript `trim`, `toLowerCase` (ASCII), `includes`, decimal
  `parseInt`, `String(n)`, and the text order used for names.
- `Store`: entity records, the store, `single`, counts, orderings and inserts.
- `AddPlayerForm`: the player form. It covers the category picker, the
  ordered six-field validation, row construction, and the submit outcome.
- `PlayerList`: the club's players and the name/category filter.
- `AddCategoryForm`: the year list and the check-then-insert submit.
- `CategoryList`: the categories by name, plus a per-category player/coach
  count map.
- `Dashboard`: the club lookup and three club-wide counts.
- `CategoryDetail`: the category lookup, its players by number, and its
  coaches.

Behaviours of the code worth knowing, each proved in the model:

- The category uniqueness check relies on `single`, which yields nothing when
  two rows match. From a store that already holds a duplicate, another insert
  happens (`AddCategoryForm.DuplicatesDefeatGuard`).
- A failed lookup also reads as "no such category". So one failed lookup is
  enough to create a duplicate, even without concurrent submissions
  (`AddCategoryForm.FailedLookupDuplicates`). From a duplicate-free store,
  with the lookup going through, the guard keeps the store duplicate-free
  (`AddCategoryForm.GuardKeepsNamesUnique`).
- The dashboard keeps its previous club and counts when a later lookup
  fails. A reload with a different club id can therefore keep showing the
  earlier club (`Dashboard.FailedReloadKeepsPreviousClub`).
- The category detail screen checks none of its three request errors. A
  failed player or coach request shows an empty list, not an error.

- Category creation aborts only when `single` finds exactly one row with the
  club and name. Zero matches, two or more matches, and a failed lookup all
  lead to an insert.
- A failed count on the dashboard or the category list reads as 0. Only the
  dashboard's club lookup and the category list's category request abort
  their screen.

## Model

| member | source | states |
|---|---|---|
| `Store.Single` | src/components/forms/AddCategory.jsx:28-33 | `single` yields a row exactly when one row matches; that row is in the table and satisfies the filter |
| `Store.CountReply` | src/components/Dashboard.jsx:31-44 | a count request that goes through answers the number of matching row positions; a failed one answers null |
| `Store.ClubCategoriesByNameSpec` | src/components/CategoryList.jsx:22-26 | the club's category query returns exactly the categories with that `club_id`, with names never increasing |
| `Store.InsertCategory` | src/components/forms/AddCategory.jsx:42-47 | an insert appends exactly one row `{name, club_id}` under an id no other category uses; every other row and table is unchanged |
| `Store.InsertPlayer` | src/components/forms/AddPlayer.jsx:84-86 | an insert appends exactly one player row under a fresh id; nothing else changes |
| `Text.Trim` | src/components/forms/AddPlayer.jsx:72 | the trimmed name neither starts nor ends with whitespace |
| `Text.TrimIsInfix` | src/components/forms/AddPlayer.jsx:72 | `trim` keeps an infix of the input and removes only whitespace around it |
| `Text.TrimEmptyIff` | src/components/forms/AddPlayer.jsx:63 | a trimmed name is empty exactly when the name is all whitespace |
| `Text.IncludesIff` | src/components/PlayerList.jsx:49 | `includes` holds exactly when the needle occurs at some position of the text |
| `Text.IncludesTransitive` | src/components/PlayerList.jsx:49 | substring containment is transitive |
| `Text.LowerKeepsIncludes` | src/components/PlayerList.jsx:49 | lower-casing both strings keeps an occurrence |
| `Text.ParseInt` | src/components/forms/AddPlayer.jsx:73 | `parseInt` is NaN exactly when no digit follows the leading whitespace and optional sign |
| `Text.ParseIntValue` | src/components/forms/AddPlayer.jsx:73 | `parseInt` of whitespace, an optional sign, a run of digits and text not starting with a digit is the digits' value, negated after `-`; leading zeros and trailing text such as ".5" are ignored |
| `Text.ParseIntExamples` | src/components/forms/AddPlayer.jsx:73 | `parseInt("07") == 7` and `parseInt("12.5") == 12` |
| `Text.ParseShowInt` | src/components/forms/AddPlayer.jsx:73 | `parseInt(String(n)) == n` for every integer |
| `Text.TextLeTotal` | src/components/CategoryList.jsx:26 | any two names are comparable in the name order |
| `Text.TextLeTransitive` | src/components/CategoryList.jsx:26 | the name order is transitive |
| `AddPlayerForm.LoadCategories` | src/components/forms/AddPlayer.jsx:40-54 | on success the picker holds exactly the route club's categories, each as often as in the store, names descending; on failure it keeps its contents and the banner reads "Error al cargar las categorías" |
| `AddPlayerForm.Validate` | src/components/forms/AddPlayer.jsx:63-68 | the form passes exactly when none of the six required fields is missing |
| `AddPlayerForm.ValidateReportsFirstMissing` | src/components/forms/AddPlayer.jsx:63-68 | with several fields missing, the message of the first one in the order name, number, position, category, birth date, health card is the one reported |
| `AddPlayerForm.MessagesDistinct` | src/components/forms/AddPlayer.jsx:63-68 | each field has its own message |
| `AddPlayerForm.BlankNameRejected` | src/components/forms/AddPlayer.jsx:63 | an empty or whitespace-only name yields "El nombre es requerido" |
| `AddPlayerForm.NumberCheckOnlyRejectsEmpty` | src/components/forms/AddPlayer.jsx:64 | given a name, the number check fails exactly for the empty string, so "0" passes |
| `AddPlayerForm.PhotoOrNull` | src/components/forms/AddPlayer.jsx:79 | the stored photo is null when absent or empty, otherwise the given one |
| `AddPlayerForm.Submit` | src/components/forms/AddPlayer.jsx:56-101 | a failed check sends nothing and reports its message; an insert failure reports "Error al crear el jugador: " plus the store message and does not navigate; a success inserts and navigates to `/clubs/{clubId}/categories/{category_id}`; the busy flag is down on every path |
| `AddPlayerForm.SubmitInsertsFormRow` | src/components/forms/AddPlayer.jsx:71-86 | a successful submit adds one row with the trimmed non-blank name, the parsed number, the other fields unchanged, `club_id` from the route, and a fresh id; no other row changes |
| `AddPlayerForm.SubmittedNumberRoundTrips` | src/components/forms/AddPlayer.jsx:73 | a number typed as the decimal rendering of `n` is stored as `n` |
| `AddPlayerForm.PickedCategoryBelongsToClub` | src/components/forms/AddPlayer.jsx:42-49 | a category chosen from the loaded picker belongs to the route's club |
| `PlayerList.GetPlayers` | src/components/PlayerList.jsx:18-38 | the fetched players are exactly those of the route club, each as often as in the store, in store order; a failed fetch keeps the previous list; the spinner stops either way |
| `PlayerList.GetCategoryOptions` | src/components/PlayerList.jsx:40-46 | the filter's options are exactly the club's categories, each as often as in the store, or none when the request fails |
| `PlayerList.Visible` | src/components/PlayerList.jsx:48-52 | a player is shown exactly when its lower-cased name contains the lower-cased search text and the category filter is empty or equal to its category; the list is as long as the number of matching fetched rows, so no matching row is dropped |
| `PlayerList.VisibleKeepsOrder` | src/components/PlayerList.jsx:48 | the shown list is a subsequence of the fetched list |
| `PlayerList.NoFiltersShowAll` | src/components/PlayerList.jsx:49-50 | with an empty search and no category, the shown list is the fetched list |
| `PlayerList.VisibleIdempotent` | src/components/PlayerList.jsx:48-52 | filtering the shown list again changes nothing |
| `PlayerList.LongerSearchNarrows` | src/components/PlayerList.jsx:49 | a search text containing another one shows a subsequence of what the other shows |
| `PlayerList.CategoryFilterNarrows` | src/components/PlayerList.jsx:50 | selecting a category shows a subsequence of the unselected list |
| `PlayerList.EmptyStateIff` | src/components/PlayerList.jsx:122 | the empty panel shows exactly when the spinner is gone and no fetched player matches the filters |
| `AddCategoryForm.YearsAreTheCategoryRange` | src/components/forms/AddCategory.jsx:13 | the years are 8 values, strictly descending, exactly 2012 to 2019 |
| `AddCategoryForm.YearOptionsReadBack` | src/components/forms/AddCategory.jsx:90-92 | each option value is non-empty and parses back to its year |
| `AddCategoryForm.Submit` | src/components/forms/AddCategory.jsx:15-58 | an empty year yields "Por favor selecciona un año" with no request; exactly one match yields "Esta categoría ya existe para este club" with the store unchanged; otherwise one insert is sent, which on success adds exactly one row `{name, club_id}` and navigates to `/clubs/{clubId}/categories`, and on failure reports its message; the busy flag is down on every exit |
| `AddCategoryForm.UniqueMeansAtMostOneMatch` | src/components/forms/AddCategory.jsx:28-35 | in a duplicate-free store a name matches at most one category of a club |
| `AddCategoryForm.GuardKeepsNamesUnique` | src/components/forms/AddCategory.jsx:28-47 | from a duplicate-free store, a submit whose lookup goes through leaves the store duplicate-free |
| `AddCategoryForm.DuplicatesDefeatGuard` | src/components/forms/AddCategory.jsx:28-47 | when two or more categories already match, the submit inserts one more |
| `AddCategoryForm.FailedLookupDuplicates` | src/components/forms/AddCategory.jsx:28-35 | whenever the club already has a category with the submitted name, a failed lookup followed by a successful insert leaves the store with two categories of that name in the club |
| `CategoryList.BuildStats` | src/components/CategoryList.jsx:31-49 | the stats map has one key per fetched category id; each value holds the category's player and coach counts, 0 when a count request failed |
| `CategoryList.LoadCategoryData` | src/components/CategoryList.jsx:16-59 | on success: the club's categories, each as often as in the store, names descending, with displayed counts equal to the store's; on failure: "Error al cargar las categorías", with the list and stats unchanged; the spinner stops either way |
| `CategoryList.Displayed` | src/components/CategoryList.jsx:112-118 | a missing stats entry shows 0 for both counts |
| `CategoryList.LoadThenEmptyState` | src/components/CategoryList.jsx:137 | a load stops the spinner; after a successful load the empty panel shows exactly when the club has no category; after a failed load it never shows |
| `Dashboard.GetClubData` | src/components/Dashboard.jsx:19-57 | a failed or non-unique club lookup keeps club and stats as they were; otherwise the club with that id is set with the three club-wide counts (0 for a failed count); the spinner stops either way |
| `Dashboard.Render` | src/components/Dashboard.jsx:59-77 | "Club no encontrado" shows exactly when loading is over and no club is set |
| `Dashboard.FailedLookupRendersNotFound` | src/components/Dashboard.jsx:23-29 | on first load, a failed club lookup renders "Club no encontrado" |
| `Dashboard.PageShowsStoreCounts` | src/components/Dashboard.jsx:31-51 | when every request goes through, the page shows the club and its numbers of categories, players and coaches |
| `Dashboard.FailedReloadKeepsPreviousClub` | src/components/Dashboard.jsx:15-29 | after an earlier success, a failed lookup keeps showing the earlier club and counts |
| `CategoryDetail.GetData` | src/components/CategoryDetail.jsx:17-47 | the category is set exactly when its lookup finds one row; the players are the category's players by number, nulls last; the coaches are exactly the category's coaches, each as often as in the store; a failed list request yields the empty list |
| `CategoryDetail.PlayersByNumberSpec` | src/components/CategoryDetail.jsx:27-31 | the ordered player list holds exactly the category's players, with numbers never decreasing |
| `CategoryDetail.Render` | src/components/CategoryDetail.jsx:49-69 | "Categoría no encontrada" shows exactly when loading is over and no category is set; the cards show the two list lengths |
| `CategoryDetail.CardsShowStoreCounts` | src/components/CategoryDetail.jsx:95-108 | when every request goes through, the cards show the store's numbers of players and coaches in the category |

## Left out

- Rendering, styling, tabs, navigation bars, routing and console logging are
  UI only. Of the views, only the choice between spinner, not-found, empty
  panel and page is modelled.
- The store client's transport, wire format and authentication are not
  modelled. A request's success or failure is a parameter.
- Concurrency is not modelled. Each routine is one sequential step, so the
  check-then-insert race between two category submissions is not modelled.
  The failed-lookup path above shows a duplicate without any race.
- `Text.Lower`: lower-cases ASCII letters only. JavaScript's
  `toLowerCase` follows full Unicode case mapping, which is not modelled.
- `Text.ParseInt`: decimal input only. The automatic base 16 for a "0x"
  prefix is not modelled, because a number input never yields that prefix.
  The precision loss of JavaScript numbers above 2^53 is not modelled either,
  because integers here are unbounded.
- `Text.TextLe`: names are ordered by code point. The store's collation
  rules are not modelled. Year names (equal-length digit strings) order the
  same under both.
- `Store.NameDescending` and `Store.NumberAscending`: the store does not
  promise an order among rows that compare equal. The model keeps their
  selection order.
- The browser's native form validation is not modelled. The `required`,
  `min="1"` and `max="99"` attributes of the player form
  (src/components/forms/AddPlayer.jsx:132, 145-147, 158, 176, 196, 207) and
  the category form's `required` select and disabled submit button
  (src/components/forms/AddCategory.jsx:87, 105) stop a browser from calling
  the submit handler with an empty field, an empty year, or a number outside
  1 to 99. `AddPlayerForm.Submit` and `AddCategoryForm.Submit` accept every
  input, so they also describe those paths, which a browser never takes.
- `PlayerList.GetPlayers`, `PlayerList.GetCategoryOptions` and
  `CategoryDetail.GetData`: a select without `.order(...)`
  (src/components/PlayerList.jsx:20-31, 42-45 and
  src/components/CategoryDetail.jsx:34-37) has no promised row order. The
  model returns such rows in the store's insertion order. So the claim that
  the fetched players are a subsequence of the stored players holds only for
  that choice of order.
- The player fetch also joins the category's id and name for display. The
  joined name is display-only and is not modelled.
- The player form's photo upload state and preview are not modelled; only
  the `profile_photo || null` rule is. Date fields are opaque strings, and
  date formatting is not modelled.
- The secondary Express/SQLite service (server/index.js) is not part of this
  model. It is pass-through inserts and selects.
- Also not part of this model: the club, coach and training forms, the
  legacy player form, and the club, match and training lists. They are
  pass-through inserts and selects with no decision logic.
