/**
 The records the pages hold. Ids are assigned by the server; the client
 never invents one.
 */
module Entities {
  import opened Options

  datatype Flashcard = Flashcard(
    id: int,
    categoryId: int,
    question: string,
    answer: string,
    isKnown: bool,
    isBookmarked: bool)

  /** A category as the server returns it from a create or an update. */
  datatype Category = Category(id: int, name: string)

  /**
   A category in the list view: the server's fields plus the flashcard
   counts the server computes for that view.
   */
  datatype CategoryInfo = CategoryInfo(
    id: int,
    name: string,
    flashcardsCount: int,
    knownFlashcardsCount: int)

  /** A category in the detail view, with its flashcards in server order. */
  datatype CategoryWithFlashcards = CategoryWithFlashcards(
    id: int,
    name: string,
    flashcards: seq<Flashcard>)

  /** What the flashcard dialog submits. */
  datatype FlashcardInput = FlashcardInput(question: string, answer: string)

  /** The partial update sent for a flashcard; `None` fields are not sent. */
  datatype FlashcardPatch = FlashcardPatch(
    question: Option<string>,
    answer: Option<string>,
    isKnown: Option<bool>,
    isBookmarked: Option<bool>)

  /** An id read from an optional record passes a JavaScript truthiness test: present and not 0. */
  predicate IsTruthyId(id: Option<int>) {
    id.Some? && id.value != 0
  }
}
