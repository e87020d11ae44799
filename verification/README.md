# Flashcards client: collection state, filters and study cursor

A Dafny model of the client-side logic of a flashcards web application.
The application shows a list of categories and, per category, a detail
view with its flashcards. The model covers the logic inside the two page
components and the study-mode overlay:

- the **collection operations** that keep the in-memory lists in step with
  the server: append on create, replace (detail view) or merge (list view)
  by id on update, remove by id on delete;
- the **handler sequencing**: what request each user action sends, what the
  page shows while that request is awaited, what it shows once the request
  settles, and which failures go to the error reporter;
- the **filter evaluator**: a normalised substring search over a card's id,
  question and answer, combined with the tri-state `"both" | "true" |
  "false"` filters on the known and bookmarked flags; the name search of
  the list view;
- the **dialog selector** (`create | edit | none`);
- the **study-mode cursor**: the snapshot of unknown cards, the cyclic
  "Next" step, and the card actually rendered.

Modules: `Options` (optional values), `Seqs` (order-preserving `Filter`
and `Map`, the subsequence relation), `Text` (`includes`, the decimal
rendering of an id, `stringToBoolean`), `Entities` (the records),
`Gateway` (requests, responses, and the `Effect` record of one user
action), `Dialogs`, `CategoryPage` (detail view), `CategoriesPage` (list
view), `StudyMode`.

Every server call is a parameter: a handler takes the call's settled
`Response` (success with the server's entity, or a failure) and returns an
`Effect` naming the request sent, the state while it is awaited
(`inFlight`), the state after (`settled`) and the error reported. The text
normalisation `removeAccents(s.toLowerCase())` is a function parameter
`norm`; nothing depends on its body.

## Behaviour worth noting

- Flashcard edits and flag toggles change the local list only after the
  server answers with the updated card; a failed update leaves the list
  unchanged and reports the error.
- Deleting a flashcard removes it locally before the request is awaited,
  and a failed request does not bring it back. Deleting a category, by
  contrast, waits for the server and removes nothing on failure.
- Removal drops every element with the id (an array `filter`), not only
  the first.
- The study overlay renders `category.flashcards[index]`, not the study
  list's card, and never resets the cursor when the study list is
  recomputed; "Next" over an empty study list makes the cursor NaN.
- The dialog forms await their handler and then close. The handlers
  report failures instead of raising them, so a dialog closes even when
  the server refused the change.
- The category search returns true for an empty search text before
  normalising; the flashcard search has no such short-circuit, so an empty
  search matches every card only because the normaliser keeps the empty
  string empty (`CategoryPage.EmptySearchMatchesEveryCard` takes that as a
  hypothesis).

## Model

| member | source | states |
|---|---|---|
| `CategoryPage.Init` | src/pages/Category/index.tsx:40-51 | the page mounts for its route's category id, loading, with no category, no dialog, an empty search and both filters at `"both"` |
| `CategoryPage.InsertFlashcardOnCategory` | src/pages/Category/index.tsx:71-82 | the created card is appended after the unchanged old cards; an absent category stays absent |
| `CategoryPage.ReplaceFlashcard` | src/pages/Category/index.tsx:106-112 | length and positions are kept; every card with the updated id becomes the updated card, all others are unchanged |
| `CategoryPage.UpdateFlashcardOnCategory` | src/pages/Category/index.tsx:101-118 | the category keeps its id and name and its cards are replaced by id; an absent category stays absent |
| `CategoryPage.ReplaceUnmatchedIsNoOp` | src/pages/Category/index.tsx:106-112 | an update whose id matches no card leaves the list unchanged |
| `CategoryPage.ReplaceIdempotent` | src/pages/Category/index.tsx:101-118 | applying the same update twice equals applying it once |
| `CategoryPage.InsertThenReplace` | src/pages/Category/index.tsx:71-118 | inserting a created card with a fresh id and then replacing it by a later server value equals inserting the later value |
| `CategoryPage.RemoveFlashcard` | src/pages/Category/index.tsx:163-165 | the result is an order-preserving subsequence holding exactly the cards whose id differs, each with its original multiplicity |
| `CategoryPage.DeleteFlashcardOnCategory` | src/pages/Category/index.tsx:158-171 | the category keeps its id and name and loses exactly the cards with the deleted card's id |
| `CategoryPage.RemoveIdempotent` | src/pages/Category/index.tsx:158-171 | removing by the same id twice equals removing once |
| `Text.IncludesIsSubstring` | src/pages/Category/index.tsx:189-197 | `includes` holds iff the needle occurs contiguously in the haystack at some position |
| `Text.ParseIntToString` | src/pages/Category/index.tsx:184 | the decimal rendering of an id is digits with an optional leading minus sign, and reading it back gives the id |
| `Text.StringToBoolean` | src/pages/Category/index.tsx:199-209 | the filter value `"true"` reads as true and `"false"` as false |
| `CategoryPage.FilterFlashcards` | src/pages/Category/index.tsx:182-212 | a card passes iff the normalised search occurs in its id's decimal rendering, normalised question or normalised answer, and each status filter admits the card's flag (`"both"` anything, `"true"` only true, `"false"` only false) |
| `CategoryPage.FilterCards` | src/pages/Category/index.tsx:260-261 | the filtered cards are an order-preserving subsequence holding exactly the cards that pass the filter, each with its original multiplicity |
| `CategoryPage.VisibleFlashcards` | src/pages/Category/index.tsx:260-262 | the filtered list, shown once loading ends: a subsequence of the category's cards holding exactly those that pass, each with its original multiplicity; empty without a category |
| `CategoryPage.EmptySearchMatchesEveryCard` | src/pages/Category/index.tsx:183-197 | when the normaliser keeps the empty string empty, an empty search matches every card |
| `CategoryPage.SearchByIdFindsCard` | src/pages/Category/index.tsx:184-191 | a search whose normalised text is a card's id finds that card under the default filters |
| `CategoryPage.DefaultViewShowsAllCards` | src/pages/Category/index.tsx:43-46 | when the normaliser keeps the empty string empty, the default filters and an empty search keep every card of the loaded category, in order |
| `CategoryPage.StatusBothIsUnion` | src/pages/Category/index.tsx:199-209 | for either status filter, `"both"` admits a card iff `"true"` or `"false"` does, and those two never both do |
| `CategoryPage.FilterCardsSplit` | src/pages/Category/index.tsx:260-261 | if one filter admits exactly what one of two disjoint filters admits, its filtered list is the sum of theirs |
| `CategoryPage.KnownBothIsUnion` | src/pages/Category/index.tsx:199-203 | the cards shown with the known filter at `"both"` are those shown at `"true"` plus those shown at `"false"`, with multiplicities |
| `CategoryPage.BookmarkedBothIsUnion` | src/pages/Category/index.tsx:205-209 | the same for the bookmarked filter |
| `CategoryPage.HandleOpenDialog` | src/pages/Category/index.tsx:65-69 | exactly the requested dialog is shown afterwards, whatever was open, and nothing else changes |
| `CategoryPage.HandleCloseDialog` | src/pages/Category/index.tsx:57-63 | no dialog is shown afterwards and nothing else changes |
| `CategoryPage.HandleClickEditFlashcard` | src/pages/Category/index.tsx:96-99 | the clicked card becomes the card on edition and only the edit dialog is shown |
| `CategoryPage.HandleCreateFlashcard` | src/pages/Category/index.tsx:84-94 | sends a create for the route's category; the list is unchanged while awaited, gains the server's card on success, is unchanged on failure, and a failure is reported |
| `CategoryPage.HandleEditFlashcard` | src/pages/Category/index.tsx:120-134 | with no card on edition or id 0 nothing is sent or changed; otherwise sends the question and answer, the list changes only on success, by replacing with the server's card, and the failure's error is reported |
| `CategoryPage.HandleToggleKnown` | src/pages/Category/index.tsx:136-145 | sends only the negated known flag for the card's id; the list changes only on success, by replacing with the server's card; the failure's error is reported |
| `CategoryPage.HandleToggleBookmarked` | src/pages/Category/index.tsx:147-156 | sends only the negated bookmarked flag for the card's id; the list changes only on success; the failure's error is reported |
| `CategoryPage.HandleDeleteFlashcard` | src/pages/Category/index.tsx:173-180 | the card is removed before the request is awaited and stays removed whatever the answer; the failure's error is only reported |
| `CategoryPage.SubmitFlashcardDialog` | src/pages/Category/FlashcardDialog/index.tsx:40-43 | after submitting either flashcard dialog no dialog is shown, on success and on failure alike, the cards are those the handler settled on, and nothing else changes |
| `CategoryPage.LoadCategoryAsWritten` | src/pages/Category/index.tsx:214-225 | the loader as written: loading while awaited; on success the category is set and loading ends; on failure the page stays loading; nothing is reported on either path |
| `CategoryPage.LoadFailureLeavesPageLoading` | src/pages/Category/index.tsx:21-28 | a failed load leaves the page loading until the route's category id changes, with the old category and no report |
| `CategoryPage.LoadCategory` | src/pages/Category/index.tsx:21-28 | the loader as intended: loading always ends; a failure is reported and leaves no category; nothing else changes |
| `CategoriesPage.Init` | src/pages/Categories/index.tsx:32-38 | the page mounts with no categories, no dialog, an empty search and no category on edition |
| `CategoriesPage.LoadCategories` | src/pages/Categories/index.tsx:20-27 | the loaded list replaces the list on success; on failure the list becomes empty and the failure's error is reported; nothing else changes |
| `CategoriesPage.InsertCategoryOnCategories` | src/pages/Categories/index.tsx:62-70 | the created category is appended after the unchanged old list |
| `CategoriesPage.InsertThenUpdateCategory` | src/pages/Categories/index.tsx:62-103 | a category with a fresh id that is created and then edited ends up as if created with the edited id and name, keeping the flashcard counts returned on creation |
| `CategoriesPage.MergeCategory` | src/pages/Categories/index.tsx:93-96 | the merged category takes the server's id and name and keeps its flashcard counts |
| `CategoriesPage.UpdateCategoryOnCategories` | src/pages/Categories/index.tsx:86-103 | length and positions are kept; each category with the updated id is merged with the update, all others are unchanged |
| `CategoriesPage.UpdateUnmatchedIsNoOp` | src/pages/Categories/index.tsx:91-100 | an update whose id matches no category leaves the list unchanged |
| `CategoriesPage.UpdateIdempotent` | src/pages/Categories/index.tsx:86-103 | applying the same update twice equals applying it once |
| `CategoriesPage.DeleteCategoryOnCategories` | src/pages/Categories/index.tsx:117-127 | the result is an order-preserving subsequence holding exactly the categories whose id differs, each with its original multiplicity |
| `CategoriesPage.DeleteIdempotent` | src/pages/Categories/index.tsx:117-127 | removing by the same id twice equals removing once |
| `CategoriesPage.FilterCategories` | src/pages/Categories/index.tsx:138-147 | an empty search matches every category; otherwise a category matches iff the normalised search occurs in its normalised name |
| `CategoriesPage.VisibleCategories` | src/pages/Categories/index.tsx:174 | the rendered categories are a subsequence of the list holding exactly those that match, each with its original multiplicity |
| `CategoriesPage.EmptySearchShowsAll` | src/pages/Categories/index.tsx:139-141 | an empty search renders the whole list in order, whatever the normaliser does |
| `CategoriesPage.LoadThenShowAll` | src/pages/Categories/index.tsx:20-48 | right after mounting, the page's list shows exactly the categories the server returned, or nothing when loading failed |
| `CategoriesPage.HandleOpenDialog` | src/pages/Categories/index.tsx:54-56 | exactly the requested dialog is shown afterwards, whatever was open, and nothing else changes |
| `CategoriesPage.HandleCloseDialog` | src/pages/Categories/index.tsx:58-60 | no dialog is shown afterwards and nothing else changes |
| `CategoriesPage.HandleClickEditCategory` | src/pages/Categories/index.tsx:81-84 | the clicked category becomes the one on edition and only the edit dialog is shown |
| `CategoriesPage.HandleCreateCategory` | src/pages/Categories/index.tsx:72-79 | sends a create with the name; the list gains the server's category only on success; the failure's error is reported |
| `CategoriesPage.HandleEditCategory` | src/pages/Categories/index.tsx:105-115 | with no category on edition or id 0 nothing is sent or changed; otherwise sends the name, the list is merged with the server's category only on success, and the failure's error is reported |
| `CategoriesPage.HandleDeleteCategory` | src/pages/Categories/index.tsx:129-136 | the category stays listed while the request is awaited, is removed only on success, and the list is unchanged on failure, whose error is reported |
| `StudyMode.Init` | src/pages/Category/StudyMode/index.tsx:24-27 | the overlay mounts with an empty study list and the cursor at 0 |
| `StudyMode.UnknownFlashcards` | src/pages/Category/StudyMode/index.tsx:37-39 | the study list is an order-preserving subsequence holding exactly the cards not known, each with its multiplicity, and is no longer than the category |
| `StudyMode.OnCategoryChange` | src/pages/Category/StudyMode/index.tsx:36-42 | a category change recomputes the study list from the new cards and leaves the cursor where it was |
| `StudyMode.Next` | src/pages/Category/StudyMode/index.tsx:30-34 | with at least one card an index cursor becomes `(index + 1) % count`, so it stays below the count, advancing by one or wrapping to 0 at the end; with no cards, or from NaN, the cursor is NaN |
| `StudyMode.NextNAdvances` | src/pages/Category/StudyMode/index.tsx:30-34 | presses that do not reach the end advance the cursor by their number |
| `StudyMode.NextCycles` | src/pages/Category/StudyMode/index.tsx:30-34 | pressing "Next" once per study card returns an in-range cursor to its start |
| `StudyMode.NotANumberIsAbsorbing` | src/pages/Category/StudyMode/index.tsx:31-32 | once NaN, the cursor stays NaN under any number of presses |
| `StudyMode.ShownCard` | src/pages/Category/StudyMode/index.tsx:56 | the rendered card is the category's card at the cursor, `category.flashcards[index]`, present iff the cursor is an index within the category |
| `StudyMode.ShownCardInBounds` | src/pages/Category/StudyMode/index.tsx:56 | a cursor within the study list is within the category, so a card is rendered |
| `StudyMode.CurrentCard` | src/pages/Category/StudyMode/index.tsx:56 | the corrected rendering, in every state the overlay renders: the study card at the cursor, `studyList[index]`, present exactly when the cursor is an index within the study list; once the study list has been computed from the category, a card of the category that is not known |
| `StudyMode.AgreeWhenNothingKnown` | src/pages/Category/StudyMode/index.tsx:56 | when no card is known the study list is the whole category and both renderings agree |
| `StudyMode.ShownCardMayBeKnown` | src/pages/Category/StudyMode/index.tsx:56 | cards 1 unknown, 2 known, 3 unknown: after one "Next" the overlay renders card 2, a known card, where card 3 is meant; a second "Next" wraps to 0 |
| `StudyMode.CursorSurvivesRecompute` | src/pages/Category/StudyMode/index.tsx:36-42 | three unknown cards and two presses reach index 2; after two cards become known the recomputed study list has one card, the cursor stays at 2 beyond its end, and the next press wraps it to 0 |

## Findings

| source | as written | input that shows it | evidently intended | confidence | as-written member | corrected member |
|---|---|---|---|---|---|---|
| src/pages/Category/StudyMode/index.tsx:56 | renders `category.flashcards[currentFlashcardIndex]` while the cursor cycles over the unknown cards | cards 1 (unknown), 2 (known), 3 (unknown) and one press of "Next": card 2 is rendered | render the study list's card, `flashcardsInRandomOrder[currentFlashcardIndex]` | high; not executed | `StudyMode.ShownCard`, exhibited by `StudyMode.ShownCardMayBeKnown` | `StudyMode.CurrentCard` |
| src/pages/Category/index.tsx:21-28 | `getCategory` returns the service promise from inside `try` without awaiting it, so a rejection bypasses the `catch`; the effect at lines 214-225 then stops before `setLoading(false)` | any failing `retrieveOne`, for example a category id that does not exist | report the failure, set the category to `null` and end loading, as the list page's loader does with `return await` | high; not executed | `CategoryPage.LoadCategoryAsWritten`, exhibited by `CategoryPage.LoadFailureLeavesPageLoading` | `CategoryPage.LoadCategory` |

## Left out

- The normalisation `removeAccents(s.toLowerCase())` is a parameter: its body is not part of this model, so no accent- or case-insensitivity property is claimed.
- `Text.StringToBoolean`: only the two strings the filters use are specified; the helper's behaviour on other strings is not part of this model.
- `Text.ParseIntToString`: JavaScript writes integers of magnitude 10^21 and above in exponential notation, and ids that are not integers differently; ids are modelled as integers written in plain decimal.
- The browser-history coupling of the detail view's dialogs (`handleBackButton`, `window.history.back()`) is browser-global I/O.
- Async scheduling: each handler is one atomic step from the current state, so interleaved in-flight requests, handlers closing over a stale `category`, and results applied after the page unmounts are not modelled.
- A failure's error is opaque: the pages pass the caught value unchanged to the error reporter, and how the reporter presents it is not modelled.
- The route parameter is given as an integer; parsing it with unary `+` is not modelled.
- Rendering, layout, the loading skeleton, the mobile/desktop switch and the filter widgets.
- The service modules, the authentication, registration and add-card pages, the generic select component and the component re-export file: HTTP wrappers and form plumbing with no state logic.
- The category dialog is not part of this model; it submits the same way as the flashcard dialog (`CategoryPage.SubmitFlashcardDialog`).
- `CategoriesPage`: the `if (!categories)` guards are never taken, since the list is always an array, so the list is a plain sequence.
- The category records' type declarations are not part of this model; `CategoryInfo` names its two flashcard counts itself, standing for the fields a category update does not carry.
- The study overlay's `active`/`onClose` props and the mark handlers it passes through to the card widget; the overlay is not mounted by the detail page shown.
