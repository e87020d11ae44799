/**
 The list view of all categories: the name search, the create/edit
 dialogs, and the handlers that keep the local list in step with the
 server. Unlike the detail view, a delete here waits for the server.
 */
module CategoriesPage {
  import opened Options
  import opened Seqs
  import opened Text
  import opened Entities
  import opened Gateway
  import opened Dialogs

  datatype PageState = PageState(
    categories: seq<CategoryInfo>,
    openDialog: DialogSelector,
    searchText: string,
    editing: Option<CategoryInfo>)

  /** The state the page mounts with. */
  function Init(): (s: PageState)
    ensures s.categories == [] && s.searchText == [] && s.editing.None?
    ensures !CreateOpen(s.openDialog) && !EditOpen(s.openDialog)
  {
    PageState([], None, "", None)
  }

  /** Loading on mount: a failure is reported and leaves the list empty. */
  function LoadCategories(s: PageState, response: Response<seq<CategoryInfo>>): (e: Effect<PageState>)
    ensures e.sent == Some(RetrieveCategories)
    ensures e.inFlight == s
    ensures e.reported == Reported(response)
    ensures response.Success? ==> e.settled.categories == response.value
    ensures response.Failure? ==> e.settled.categories == []
    ensures e.settled.(categories := s.categories) == s
  {
    var loaded := match response
      case Success(categories) => categories
      case Failure(_) => [];
    Effect(Some(RetrieveCategories), s, s.(categories := loaded), Reported(response))
  }

  // ---------------------------------------------------------------------
  // Collection operations

  /** The created category is appended; the existing ones are kept as they were. */
  function InsertCategoryOnCategories(categories: seq<CategoryInfo>, created: CategoryInfo)
    : (r: seq<CategoryInfo>)
    ensures |r| == |categories| + 1
    ensures r[..|categories|] == categories
    ensures r[|categories|] == created
  {
    categories + [created]
  }

  /**
   `{...category, ...updated}`: the server's fields override, the fields
   the update does not carry (the flashcard counts) are kept.
   */
  function MergeCategory(current: CategoryInfo, updated: Category): (r: CategoryInfo)
    ensures r.id == updated.id && r.name == updated.name
    ensures r.flashcardsCount == current.flashcardsCount
    ensures r.knownFlashcardsCount == current.knownFlashcardsCount
  {
    current.(id := updated.id, name := updated.name)
  }

  /** Every category with the updated id is merged with the update, in place; the others are untouched. */
  function UpdateCategoryOnCategories(categories: seq<CategoryInfo>, updated: Category)
    : (r: seq<CategoryInfo>)
    ensures |r| == |categories|
    ensures forall i :: 0 <= i < |categories| && categories[i].id == updated.id ==>
      r[i] == MergeCategory(categories[i], updated)
    ensures forall i :: 0 <= i < |categories| && categories[i].id != updated.id ==>
      r[i] == categories[i]
  {
    Map(categories, (c: CategoryInfo) => if c.id == updated.id then MergeCategory(c, updated) else c)
  }

  /** Drops every category with the given id and keeps the others in order, with their multiplicities. */
  function DeleteCategoryOnCategories(categories: seq<CategoryInfo>, id: int): (r: seq<CategoryInfo>)
    ensures IsSubsequence(r, categories)
    ensures forall c :: c in r <==> c in categories && c.id != id
    ensures forall c: CategoryInfo :: c.id != id ==> multiset(r)[c] == multiset(categories)[c]
  {
    Filter(categories, (c: CategoryInfo) => c.id != id)
  }

  /**
   A category created and then edited before anything else happens ends up
   as if created with the edited name: the merge keeps the counts the
   server returned on creation.
   */
  lemma InsertThenUpdateCategory(categories: seq<CategoryInfo>, created: CategoryInfo, final: Category)
    requires forall c :: c in categories ==> c.id != created.id
    requires final.id == created.id
    ensures UpdateCategoryOnCategories(InsertCategoryOnCategories(categories, created), final)
         == InsertCategoryOnCategories(categories, MergeCategory(created, final))
  {
    var inserted := InsertCategoryOnCategories(categories, created);
    assert forall i :: 0 <= i < |categories| ==> inserted[i] == categories[i];
    assert UpdateCategoryOnCategories(inserted, final) == categories + [MergeCategory(created, final)];
  }

  lemma UpdateUnmatchedIsNoOp(categories: seq<CategoryInfo>, updated: Category)
    requires forall i :: 0 <= i < |categories| ==> categories[i].id != updated.id
    ensures UpdateCategoryOnCategories(categories, updated) == categories
  {
  }

  /** Applying the same server update twice is applying it once. */
  lemma UpdateIdempotent(categories: seq<CategoryInfo>, updated: Category)
    ensures UpdateCategoryOnCategories(UpdateCategoryOnCategories(categories, updated), updated)
         == UpdateCategoryOnCategories(categories, updated)
  {
  }

  lemma DeleteIdempotent(categories: seq<CategoryInfo>, id: int)
    ensures DeleteCategoryOnCategories(DeleteCategoryOnCategories(categories, id), id)
         == DeleteCategoryOnCategories(categories, id)
  {
    FilterIdempotent(categories, (c: CategoryInfo) => c.id != id);
  }

  // ---------------------------------------------------------------------
  // Filter evaluator

  /** `filterCategories`: an empty search shows everything; otherwise a normalised name search. */
  function FilterCategories(norm: Normalizer, searchText: string, category: CategoryInfo): (r: bool)
    ensures searchText == [] ==> r
    ensures searchText != [] ==> (r <==> Occurs(norm(category.name), norm(searchText)))
  {
    if searchText == [] then true
    else
      var normalizedCategoryName := norm(category.name);
      var normalizedSearchText := norm(searchText);
      IncludesIsSubstring(normalizedCategoryName, normalizedSearchText);
      Includes(normalizedCategoryName, normalizedSearchText)
  }

  /** The categories the page renders, in list order. */
  function VisibleCategories(norm: Normalizer, s: PageState): (r: seq<CategoryInfo>)
    ensures IsSubsequence(r, s.categories)
    ensures forall c :: c in r <==> c in s.categories && FilterCategories(norm, s.searchText, c)
    ensures forall c :: multiset(r)[c] == if FilterCategories(norm, s.searchText, c) then multiset(s.categories)[c] else 0
  {
    Filter(s.categories, (c: CategoryInfo) => FilterCategories(norm, s.searchText, c))
  }

  /**
   Mounting and loading: the fresh page's empty search shows exactly the
   loaded list on success, and nothing on failure.
   */
  lemma LoadThenShowAll(norm: Normalizer, response: Response<seq<CategoryInfo>>)
    ensures var e := LoadCategories(Init(), response);
      && (response.Success? ==> VisibleCategories(norm, e.settled) == response.value)
      && (response.Failure? ==> VisibleCategories(norm, e.settled) == [])
  {
    EmptySearchShowsAll(norm, LoadCategories(Init(), response).settled);
  }

  /** An empty search renders the whole list, whatever the normaliser does. */
  lemma EmptySearchShowsAll(norm: Normalizer, s: PageState)
    requires s.searchText == []
    ensures VisibleCategories(norm, s) == s.categories
  {
    FilterKeepsAll(s.categories, (c: CategoryInfo) => FilterCategories(norm, s.searchText, c));
  }

  // ---------------------------------------------------------------------
  // Dialog selector

  function HandleOpenDialog(s: PageState, kind: DialogKind): (r: PageState)
    ensures CreateOpen(r.openDialog) <==> kind == Create
    ensures EditOpen(r.openDialog) <==> kind == Edit
    ensures r.(openDialog := s.openDialog) == s
  {
    s.(openDialog := OpenDialog(kind))
  }

  function HandleCloseDialog(s: PageState): (r: PageState)
    ensures !CreateOpen(r.openDialog) && !EditOpen(r.openDialog)
    ensures r.(openDialog := s.openDialog) == s
  {
    s.(openDialog := CloseDialog())
  }

  /** Choosing a category to edit remembers it and opens the edit dialog. */
  function HandleClickEditCategory(s: PageState, category: CategoryInfo): (r: PageState)
    ensures r.editing == Some(category)
    ensures EditOpen(r.openDialog) && !CreateOpen(r.openDialog)
    ensures r.(openDialog := s.openDialog, editing := s.editing) == s
  {
    HandleOpenDialog(s.(editing := Some(category)), Edit)
  }

  // ---------------------------------------------------------------------
  // Handlers

  /** Create: the category is appended only once the server returns it. */
  function HandleCreateCategory(s: PageState, name: string, response: Response<CategoryInfo>)
    : (e: Effect<PageState>)
    ensures e.sent == Some(CreateCategory(name))
    ensures e.inFlight == s
    ensures e.reported == Reported(response)
    ensures response.Success? ==>
      e.settled == s.(categories := InsertCategoryOnCategories(s.categories, response.value))
    ensures response.Failure? ==> e.settled == s
  {
    var settled := match response
      case Success(created) => s.(categories := InsertCategoryOnCategories(s.categories, created))
      case Failure(_) => s;
    Effect(Some(CreateCategory(name)), s, settled, Reported(response))
  }

  /**
   Edit: nothing is sent unless the category being edited has a truthy id;
   the list changes only once the server returns the updated category.
   */
  function HandleEditCategory(s: PageState, name: string, response: Response<Category>)
    : (e: Effect<PageState>)
    ensures (s.editing.None? || s.editing.value.id == 0) ==> e == NoEffect(s)
    ensures s.editing.Some? && s.editing.value.id != 0 ==>
      && e.sent == Some(UpdateCategory(s.editing.value.id, name))
      && e.inFlight == s
      && e.reported == Reported(response)
      && (response.Success? ==>
            e.settled == s.(categories := UpdateCategoryOnCategories(s.categories, response.value)))
      && (response.Failure? ==> e.settled == s)
  {
    var categoryId := if s.editing.Some? then Some(s.editing.value.id) else None;
    if !IsTruthyId(categoryId) then NoEffect(s)
    else
      var settled := match response
        case Success(updated) => s.(categories := UpdateCategoryOnCategories(s.categories, updated))
        case Failure(_) => s;
      Effect(Some(UpdateCategory(categoryId.value, name)), s, settled, Reported(response))
  }

  /**
   Delete: the category stays listed while the request is awaited and is
   removed only if the server confirms; a failure leaves the list as it was.
   */
  function HandleDeleteCategory(s: PageState, category: CategoryInfo, response: Response<()>)
    : (e: Effect<PageState>)
    ensures e.sent == Some(DeleteCategory(category.id))
    ensures e.inFlight == s
    ensures e.reported == Reported(response)
    ensures response.Success? ==>
      e.settled == s.(categories := DeleteCategoryOnCategories(s.categories, category.id))
    ensures response.Failure? ==> e.settled == s
  {
    var settled := match response
      case Success(_) => s.(categories := DeleteCategoryOnCategories(s.categories, category.id))
      case Failure(_) => s;
    Effect(Some(DeleteCategory(category.id)), s, settled, Reported(response))
  }
}
