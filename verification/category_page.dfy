/**
 The detail view of one category: its flashcards, the search box and the
 two status filters, the create/edit dialogs, and the handlers that keep
 the local flashcard list in step with the server.
 */
module CategoryPage {
  import opened Options
  import opened Seqs
  import opened Text
  import opened Entities
  import opened Gateway
  import opened Dialogs

  /** A status filter: `"both"`, `"true"` or `"false"`. */
  datatype FilterValue = Both | TrueOnly | FalseOnly {
    /** The string the filter widgets hold. */
    function Value(): string {
      match this
      case Both => "both"
      case TrueOnly => "true"
      case FalseOnly => "false"
    }
  }

  datatype Filters = Filters(isKnown: FilterValue, isBookmarked: FilterValue)

  const DefaultFilters := Filters(Both, Both)

  /** The page's state; `category` is `None` until loaded, or when loading failed. */
  datatype PageState = PageState(
    routeCategoryId: int,
    category: Option<CategoryWithFlashcards>,
    loading: bool,
    openDialog: DialogSelector,
    searchText: string,
    filters: Filters,
    editing: Option<Flashcard>)

  /** The state the page mounts with. */
  function Init(routeCategoryId: int): (s: PageState)
    ensures s.routeCategoryId == routeCategoryId
    ensures s.category.None? && s.loading && s.editing.None?
    ensures !CreateOpen(s.openDialog) && !EditOpen(s.openDialog)
    ensures s.searchText == [] && s.filters.isKnown == Both && s.filters.isBookmarked == Both
  {
    PageState(routeCategoryId, None, true, None, "", DefaultFilters, None)
  }

  // ---------------------------------------------------------------------
  // Collection operations

  /** The created card is appended; an absent category is left absent. */
  function InsertFlashcardOnCategory(category: Option<CategoryWithFlashcards>, created: Flashcard)
    : (r: Option<CategoryWithFlashcards>)
    ensures category.None? ==> r.None?
    ensures category.Some? ==>
      var old_ := category.value.flashcards;
      && r.Some?
      && r.value.id == category.value.id && r.value.name == category.value.name
      && |r.value.flashcards| == |old_| + 1
      && r.value.flashcards[..|old_|] == old_
      && r.value.flashcards[|old_|] == created
  {
    match category
    case None => None
    case Some(c) => Some(c.(flashcards := c.flashcards + [created]))
  }

  /** Every card carrying the updated card's id becomes that card, in place. */
  function ReplaceFlashcard(cards: seq<Flashcard>, updated: Flashcard): (r: seq<Flashcard>)
    ensures |r| == |cards|
    ensures forall i :: 0 <= i < |cards| && cards[i].id == updated.id ==> r[i] == updated
    ensures forall i :: 0 <= i < |cards| && cards[i].id != updated.id ==> r[i] == cards[i]
  {
    Map(cards, (c: Flashcard) => if c.id == updated.id then updated else c)
  }

  function UpdateFlashcardOnCategory(category: Option<CategoryWithFlashcards>, updated: Flashcard)
    : (r: Option<CategoryWithFlashcards>)
    ensures category.None? ==> r.None?
    ensures category.Some? ==>
      && r.Some?
      && r.value.id == category.value.id && r.value.name == category.value.name
      && r.value.flashcards == ReplaceFlashcard(category.value.flashcards, updated)
  {
    match category
    case None => None
    case Some(c) => Some(c.(flashcards := ReplaceFlashcard(c.flashcards, updated)))
  }

  /** Drops every card with the given id and keeps the others in order, with their multiplicities. */
  function RemoveFlashcard(cards: seq<Flashcard>, id: int): (r: seq<Flashcard>)
    ensures IsSubsequence(r, cards)
    ensures forall c :: c in r <==> c in cards && c.id != id
    ensures forall c: Flashcard :: c.id != id ==> multiset(r)[c] == multiset(cards)[c]
  {
    Filter(cards, (c: Flashcard) => c.id != id)
  }

  function DeleteFlashcardOnCategory(category: Option<CategoryWithFlashcards>, deleted: Flashcard)
    : (r: Option<CategoryWithFlashcards>)
    ensures category.None? ==> r.None?
    ensures category.Some? ==>
      && r.Some?
      && r.value.id == category.value.id && r.value.name == category.value.name
      && r.value.flashcards == RemoveFlashcard(category.value.flashcards, deleted.id)
  {
    match category
    case None => None
    case Some(c) => Some(c.(flashcards := RemoveFlashcard(c.flashcards, deleted.id)))
  }

  lemma ReplaceUnmatchedIsNoOp(cards: seq<Flashcard>, updated: Flashcard)
    requires forall i :: 0 <= i < |cards| ==> cards[i].id != updated.id
    ensures ReplaceFlashcard(cards, updated) == cards
  {
  }

  lemma ReplaceIdempotent(cards: seq<Flashcard>, updated: Flashcard)
    ensures ReplaceFlashcard(ReplaceFlashcard(cards, updated), updated) == ReplaceFlashcard(cards, updated)
  {
  }

  /**
   Inserting a freshly created card and then replacing it with a later
   server value is the same as inserting the later value directly.
   */
  lemma InsertThenReplace(category: Option<CategoryWithFlashcards>, created: Flashcard, final: Flashcard)
    requires category.Some? ==> forall c :: c in category.value.flashcards ==> c.id != created.id
    requires final.id == created.id
    ensures UpdateFlashcardOnCategory(InsertFlashcardOnCategory(category, created), final)
         == InsertFlashcardOnCategory(category, final)
  {
    if category.Some? {
      var cards := category.value.flashcards;
      var lhs := ReplaceFlashcard(cards + [created], final);
      assert forall i :: 0 <= i < |cards| ==> (cards + [created])[i] == cards[i];
      assert lhs == cards + [final];
    }
  }

  lemma RemoveIdempotent(cards: seq<Flashcard>, id: int)
    ensures RemoveFlashcard(RemoveFlashcard(cards, id), id) == RemoveFlashcard(cards, id)
  {
    FilterIdempotent(cards, (c: Flashcard) => c.id != id);
  }

  // ---------------------------------------------------------------------
  // Filter evaluator

  /** A status filter admits a flag value. */
  predicate StatusMatches(v: FilterValue, flag: bool) {
    match v
    case Both => true
    case TrueOnly => flag
    case FalseOnly => !flag
  }

  /**
   The normalised search text is a substring of the id's decimal rendering,
   of the normalised question, or of the normalised answer.
   */
  ghost predicate MatchesText(norm: Normalizer, searchText: string, card: Flashcard) {
    var q := norm(searchText);
    Occurs(IntToString(card.id), q) || Occurs(norm(card.question), q) || Occurs(norm(card.answer), q)
  }

  /** `filterFlashcards`: the text match, then each status filter that is not `"both"`. */
  function FilterFlashcards(norm: Normalizer, searchText: string, filters: Filters, card: Flashcard): (r: bool)
    ensures r <==>
      && MatchesText(norm, searchText, card)
      && StatusMatches(filters.isKnown, card.isKnown)
      && StatusMatches(filters.isBookmarked, card.isBookmarked)
  {
    var normalizedQuestion := norm(card.question);
    var normalizedId := IntToString(card.id);
    var normalizedAnswer := norm(card.answer);
    var normalizedSearchText := norm(searchText);
    IncludesIsSubstring(normalizedId, normalizedSearchText);
    IncludesIsSubstring(normalizedQuestion, normalizedSearchText);
    IncludesIsSubstring(normalizedAnswer, normalizedSearchText);
    if !(Includes(normalizedId, normalizedSearchText)
         || Includes(normalizedQuestion, normalizedSearchText)
         || Includes(normalizedAnswer, normalizedSearchText)) then
      false
    else if filters.isKnown != Both && card.isKnown != StringToBoolean(filters.isKnown.Value()) then
      false
    else if filters.isBookmarked != Both && card.isBookmarked != StringToBoolean(filters.isBookmarked.Value()) then
      false
    else
      true
  }

  /** `cards.filter(filterFlashcards)` under the given search text and filters. */
  function FilterCards(norm: Normalizer, searchText: string, filters: Filters, cards: seq<Flashcard>)
    : (r: seq<Flashcard>)
    ensures IsSubsequence(r, cards)
    ensures forall c :: c in r <==> c in cards && FilterFlashcards(norm, searchText, filters, c)
    ensures forall c :: multiset(r)[c] == if FilterFlashcards(norm, searchText, filters, c) then multiset(cards)[c] else 0
  {
    Filter(cards, (card: Flashcard) => FilterFlashcards(norm, searchText, filters, card))
  }

  /** The filtered list: the loaded category's cards that pass the filter, shown once loading ends. */
  function VisibleFlashcards(norm: Normalizer, s: PageState): (r: seq<Flashcard>)
    ensures s.category.None? ==> r == []
    ensures s.category.Some? ==>
      && IsSubsequence(r, s.category.value.flashcards)
      && (forall c :: c in r <==>
            c in s.category.value.flashcards && FilterFlashcards(norm, s.searchText, s.filters, c))
      && (forall c :: multiset(r)[c] ==
            if FilterFlashcards(norm, s.searchText, s.filters, c) then multiset(s.category.value.flashcards)[c] else 0)
  {
    match s.category
    case None => []
    case Some(c) => FilterCards(norm, s.searchText, s.filters, c.flashcards)
  }

  /** With a normaliser that keeps the empty string empty, an empty search matches every card. */
  lemma EmptySearchMatchesEveryCard(norm: Normalizer, card: Flashcard)
    requires norm([]) == []
    ensures MatchesText(norm, [], card)
  {
    assert OccursAt(IntToString(card.id), [], 0);
  }

  /** A search whose normalised text is a card's id finds that card. */
  lemma SearchByIdFindsCard(norm: Normalizer, searchText: string, card: Flashcard)
    requires norm(searchText) == IntToString(card.id)
    ensures FilterFlashcards(norm, searchText, DefaultFilters, card)
  {
    assert OccursAt(IntToString(card.id), norm(searchText), 0);
  }

  /**
   When the normaliser keeps the empty string empty, the default filters
   and an empty search keep every card of the loaded category, in order.
   */
  lemma DefaultViewShowsAllCards(norm: Normalizer, s: PageState)
    requires norm([]) == []
    requires s.searchText == [] && s.filters == DefaultFilters && s.category.Some?
    ensures VisibleFlashcards(norm, s) == s.category.value.flashcards
  {
    var cards := s.category.value.flashcards;
    forall i | 0 <= i < |cards|
      ensures FilterFlashcards(norm, s.searchText, s.filters, cards[i])
    {
      EmptySearchMatchesEveryCard(norm, cards[i]);
    }
    FilterKeepsAll(cards, (card: Flashcard) => FilterFlashcards(norm, s.searchText, s.filters, card));
    assert FilterCards(norm, s.searchText, s.filters, cards) == cards;
  }

  /** Under a given text search, `"both"` admits a card iff `"true"` or `"false"` does, and those two never both do. */
  lemma StatusBothIsUnion(norm: Normalizer, searchText: string, f: Filters, card: Flashcard)
    ensures FilterFlashcards(norm, searchText, f.(isKnown := Both), card)
        <==> (FilterFlashcards(norm, searchText, f.(isKnown := TrueOnly), card)
              || FilterFlashcards(norm, searchText, f.(isKnown := FalseOnly), card))
    ensures !(FilterFlashcards(norm, searchText, f.(isKnown := TrueOnly), card)
              && FilterFlashcards(norm, searchText, f.(isKnown := FalseOnly), card))
    ensures FilterFlashcards(norm, searchText, f.(isBookmarked := Both), card)
        <==> (FilterFlashcards(norm, searchText, f.(isBookmarked := TrueOnly), card)
              || FilterFlashcards(norm, searchText, f.(isBookmarked := FalseOnly), card))
    ensures !(FilterFlashcards(norm, searchText, f.(isBookmarked := TrueOnly), card)
              && FilterFlashcards(norm, searchText, f.(isBookmarked := FalseOnly), card))
  {
  }

  /**
   Splitting one status filter: the cards shown under `both` are those shown
   under `yes` together with those shown under `no`, with multiplicities.
   */
  lemma {:induction false} FilterCardsSplit(norm: Normalizer, searchText: string,
                                            both: Filters, yes: Filters, no: Filters, cards: seq<Flashcard>)
    requires forall c :: FilterFlashcards(norm, searchText, both, c)
                      <==> (FilterFlashcards(norm, searchText, yes, c) || FilterFlashcards(norm, searchText, no, c))
    requires forall c :: !(FilterFlashcards(norm, searchText, yes, c) && FilterFlashcards(norm, searchText, no, c))
    ensures multiset(FilterCards(norm, searchText, both, cards))
         == multiset(FilterCards(norm, searchText, yes, cards)) + multiset(FilterCards(norm, searchText, no, cards))
  {
    FilterSplit(cards,
      (card: Flashcard) => FilterFlashcards(norm, searchText, both, card),
      (card: Flashcard) => FilterFlashcards(norm, searchText, yes, card),
      (card: Flashcard) => FilterFlashcards(norm, searchText, no, card));
  }

  /**
   Setting the known filter to `"both"` shows exactly the cards shown under
   `"true"` together with those shown under `"false"`, with multiplicities.
   */
  lemma KnownBothIsUnion(norm: Normalizer, searchText: string, f: Filters, cards: seq<Flashcard>)
    ensures multiset(FilterCards(norm, searchText, f.(isKnown := Both), cards))
         == multiset(FilterCards(norm, searchText, f.(isKnown := TrueOnly), cards))
          + multiset(FilterCards(norm, searchText, f.(isKnown := FalseOnly), cards))
  {
    forall c: Flashcard
      ensures FilterFlashcards(norm, searchText, f.(isKnown := Both), c)
          <==> (FilterFlashcards(norm, searchText, f.(isKnown := TrueOnly), c)
                || FilterFlashcards(norm, searchText, f.(isKnown := FalseOnly), c))
      ensures !(FilterFlashcards(norm, searchText, f.(isKnown := TrueOnly), c)
                && FilterFlashcards(norm, searchText, f.(isKnown := FalseOnly), c))
    {
      StatusBothIsUnion(norm, searchText, f, c);
    }
    FilterCardsSplit(norm, searchText, f.(isKnown := Both), f.(isKnown := TrueOnly), f.(isKnown := FalseOnly), cards);
  }

  /** The same for the bookmarked filter. */
  lemma BookmarkedBothIsUnion(norm: Normalizer, searchText: string, f: Filters, cards: seq<Flashcard>)
    ensures multiset(FilterCards(norm, searchText, f.(isBookmarked := Both), cards))
         == multiset(FilterCards(norm, searchText, f.(isBookmarked := TrueOnly), cards))
          + multiset(FilterCards(norm, searchText, f.(isBookmarked := FalseOnly), cards))
  {
    forall c: Flashcard
      ensures FilterFlashcards(norm, searchText, f.(isBookmarked := Both), c)
          <==> (FilterFlashcards(norm, searchText, f.(isBookmarked := TrueOnly), c)
                || FilterFlashcards(norm, searchText, f.(isBookmarked := FalseOnly), c))
      ensures !(FilterFlashcards(norm, searchText, f.(isBookmarked := TrueOnly), c)
                && FilterFlashcards(norm, searchText, f.(isBookmarked := FalseOnly), c))
    {
      StatusBothIsUnion(norm, searchText, f, c);
    }
    FilterCardsSplit(norm, searchText, f.(isBookmarked := Both), f.(isBookmarked := TrueOnly), f.(isBookmarked := FalseOnly), cards);
  }

  // ---------------------------------------------------------------------
  // Dialog selector

  function HandleOpenDialog(s: PageState, kind: DialogKind): (r: PageState)
    ensures CreateOpen(r.openDialog) <==> kind == Create
    ensures EditOpen(r.openDialog) <==> kind == Edit
    ensures r.(openDialog := s.openDialog) == s
  {
    s.(openDialog := OpenDialog(kind))
  }

  function HandleCloseDialog(s: PageState): (r: PageState)
    ensures !CreateOpen(r.openDialog) && !EditOpen(r.openDialog)
    ensures r.(openDialog := s.openDialog) == s
  {
    s.(openDialog := CloseDialog())
  }

  /** Choosing a card to edit remembers it and opens the edit dialog. */
  function HandleClickEditFlashcard(s: PageState, card: Flashcard): (r: PageState)
    ensures r.editing == Some(card)
    ensures EditOpen(r.openDialog) && !CreateOpen(r.openDialog)
    ensures r.(openDialog := s.openDialog, editing := s.editing) == s
  {
    HandleOpenDialog(s.(editing := Some(card)), Edit)
  }

  // ---------------------------------------------------------------------
  // Handlers: what is sent, and when the local list changes

  /** Create: the card is appended only once the server returns it. */
  function HandleCreateFlashcard(s: PageState, input: FlashcardInput, response: Response<Flashcard>)
    : (e: Effect<PageState>)
    ensures e.sent == Some(CreateFlashcard(s.routeCategoryId, input))
    ensures e.inFlight == s
    ensures e.reported.Some? <==> response.Failure?
    ensures response.Success? ==>
      e.settled == s.(category := InsertFlashcardOnCategory(s.category, response.value))
    ensures response.Failure? ==> e.settled == s && e.reported == Some(response.error)
  {
    var settled := match response
      case Success(created) => s.(category := InsertFlashcardOnCategory(s.category, created))
      case Failure(_) => s;
    Effect(Some(CreateFlashcard(s.routeCategoryId, input)), s, settled, Reported(response))
  }

  /**
   Edit: nothing is sent unless the card being edited has a truthy id; the
   list changes only once the server returns the updated card.
   */
  function HandleEditFlashcard(s: PageState, input: FlashcardInput, response: Response<Flashcard>)
    : (e: Effect<PageState>)
    ensures (s.editing.None? || s.editing.value.id == 0) ==> e == NoEffect(s)
    ensures s.editing.Some? && s.editing.value.id != 0 ==>
      && e.sent == Some(UpdateFlashcard(s.editing.value.id,
                                        FlashcardPatch(Some(input.question), Some(input.answer), None, None)))
      && e.inFlight == s
      && e.reported == Reported(response)
      && (response.Success? ==>
            e.settled == s.(category := UpdateFlashcardOnCategory(s.category, response.value)))
      && (response.Failure? ==> e.settled == s)
  {
    var flashcardId := if s.editing.Some? then Some(s.editing.value.id) else None;
    if !IsTruthyId(flashcardId) then NoEffect(s)
    else
      var patch := FlashcardPatch(Some(input.question), Some(input.answer), None, None);
      var settled := match response
        case Success(updated) => s.(category := UpdateFlashcardOnCategory(s.category, updated))
        case Failure(_) => s;
      Effect(Some(UpdateFlashcard(flashcardId.value, patch)), s, settled, Reported(response))
  }

  /** Sends the negated known flag; the list follows only the server's answer. */
  function HandleToggleKnown(s: PageState, card: Flashcard, response: Response<Flashcard>)
    : (e: Effect<PageState>)
    ensures e.sent.Some? && e.sent.value.UpdateFlashcard? && e.sent.value.flashcardId == card.id
    ensures e.sent.value.patch.isKnown == Some(!card.isKnown)
    ensures e.sent.value.patch.isBookmarked.None?
    ensures e.sent.value.patch.question.None? && e.sent.value.patch.answer.None?
    ensures e.inFlight == s
    ensures e.reported == Reported(response)
    ensures response.Success? ==>
      e.settled == s.(category := UpdateFlashcardOnCategory(s.category, response.value))
    ensures response.Failure? ==> e.settled == s
  {
    var patch := FlashcardPatch(None, None, Some(!card.isKnown), None);
    var settled := match response
      case Success(updated) => s.(category := UpdateFlashcardOnCategory(s.category, updated))
      case Failure(_) => s;
    Effect(Some(UpdateFlashcard(card.id, patch)), s, settled, Reported(response))
  }

  /** Sends the negated bookmarked flag; the list follows only the server's answer. */
  function HandleToggleBookmarked(s: PageState, card: Flashcard, response: Response<Flashcard>)
    : (e: Effect<PageState>)
    ensures e.sent.Some? && e.sent.value.UpdateFlashcard? && e.sent.value.flashcardId == card.id
    ensures e.sent.value.patch.isBookmarked == Some(!card.isBookmarked)
    ensures e.sent.value.patch.isKnown.None?
    ensures e.sent.value.patch.question.None? && e.sent.value.patch.answer.None?
    ensures e.inFlight == s
    ensures e.reported == Reported(response)
    ensures response.Success? ==>
      e.settled == s.(category := UpdateFlashcardOnCategory(s.category, response.value))
    ensures response.Failure? ==> e.settled == s
  {
    var patch := FlashcardPatch(None, None, None, Some(!card.isBookmarked));
    var settled := match response
      case Success(updated) => s.(category := UpdateFlashcardOnCategory(s.category, updated))
      case Failure(_) => s;
    Effect(Some(UpdateFlashcard(card.id, patch)), s, settled, Reported(response))
  }

  /**
   Delete: the card is removed before the request is awaited and stays
   removed whatever the server answers; a failure is only reported.
   */
  function HandleDeleteFlashcard(s: PageState, card: Flashcard, response: Response<()>)
    : (e: Effect<PageState>)
    ensures e.sent == Some(DeleteFlashcard(card.id))
    ensures e.inFlight == s.(category := DeleteFlashcardOnCategory(s.category, card))
    ensures e.settled == e.inFlight
    ensures e.reported == Reported(response)
    ensures e.settled.category.Some? ==> forall c :: c in e.settled.category.value.flashcards ==> c.id != card.id
  {
    var removed := s.(category := DeleteFlashcardOnCategory(s.category, card));
    Effect(Some(DeleteFlashcard(card.id)), removed, removed, Reported(response))
  }

  /**
   Submitting a flashcard dialog awaits the dialog's handler and then closes
   the dialog. The handlers report failures instead of raising them, so the
   dialog closes whatever the server answered.
   */
  function SubmitFlashcardDialog(s: PageState, kind: DialogKind, input: FlashcardInput, response: Response<Flashcard>)
    : (r: PageState)
    ensures !CreateOpen(r.openDialog) && !EditOpen(r.openDialog)
    ensures r.(openDialog := s.openDialog, category := s.category) == s
    ensures kind == Create ==> r.category == HandleCreateFlashcard(s, input, response).settled.category
    ensures kind == Edit ==> r.category == HandleEditFlashcard(s, input, response).settled.category
  {
    var e := match kind
      case Create => HandleCreateFlashcard(s, input, response)
      case Edit => HandleEditFlashcard(s, input, response);
    HandleCloseDialog(e.settled)
  }

  // ---------------------------------------------------------------------
  // Loading the category

  /**
   The loading effect as written: the service promise is returned from
   inside `try` without being awaited, so its rejection escapes the catch.
   A failure then leaves the page loading, keeps the previous category and
   reports nothing.
   */
  function LoadCategoryAsWritten(s: PageState, response: Response<CategoryWithFlashcards>)
    : (e: Effect<PageState>)
    ensures e.sent == Some(RetrieveCategory(s.routeCategoryId))
    ensures e.inFlight == s.(loading := true)
    ensures response.Success? ==> e.settled == s.(category := Some(response.value), loading := false)
    ensures response.Failure? ==> e.settled == e.inFlight
    ensures e.reported.None?
  {
    var pending := s.(loading := true);
    match response
    case Success(c) => Effect(Some(RetrieveCategory(s.routeCategoryId)), pending, pending.(category := Some(c), loading := false), None)
    case Failure(_) => Effect(Some(RetrieveCategory(s.routeCategoryId)), pending, pending, None)
  }

  /** A failed load under the code as written: the page never leaves its loading state and no error is reported. */
  lemma LoadFailureLeavesPageLoading(s: PageState, error: GatewayError)
    ensures var e := LoadCategoryAsWritten(s, Failure(error));
      e.settled.loading && e.reported.None? && e.settled.category == s.category
  {
  }

  /**
   The loading effect as evidently intended: a failure is reported, the
   category becomes absent and loading ends, as on the list page.
   */
  function LoadCategory(s: PageState, response: Response<CategoryWithFlashcards>)
    : (e: Effect<PageState>)
    ensures e.sent == Some(RetrieveCategory(s.routeCategoryId))
    ensures e.inFlight == s.(loading := true)
    ensures !e.settled.loading
    ensures e.reported.Some? <==> response.Failure?
    ensures response.Success? ==> e.settled.category == Some(response.value)
    ensures response.Failure? ==> e.settled.category.None? && e.reported == Some(response.error)
    ensures e.settled.(category := s.category, loading := s.loading) == s
  {
    var pending := s.(loading := true);
    var category := match response
      case Success(c) => Some(c)
      case Failure(_) => None;
    Effect(Some(RetrieveCategory(s.routeCategoryId)), pending, pending.(category := category, loading := false), Reported(response))
  }
}
