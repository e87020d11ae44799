/**
 The study-mode overlay: a snapshot of the category's unknown flashcards
 and a cursor the "Next" button advances cyclically.
 */
module StudyMode {
  import opened Options
  import opened Seqs
  import opened Entities

  /**
   The cursor is a JavaScript number. It starts at 0 and only ever holds a
   remainder, except that a remainder by zero yields NaN.
   */
  datatype Cursor = Index(i: nat) | NotANumber

  /** The overlay's state: the study list and the cursor. */
  datatype StudyState = StudyState(studyList: seq<Flashcard>, cursor: Cursor)

  /** The state the overlay mounts with, before its effect has run. */
  function Init(): (s: StudyState)
    ensures s.studyList == [] && s.cursor == Index(0)
  {
    StudyState([], Index(0))
  }

  /** The cards not yet known, in category order. */
  function UnknownFlashcards(cards: seq<Flashcard>): (r: seq<Flashcard>)
    ensures IsSubsequence(r, cards)
    ensures forall c :: c in r <==> c in cards && !c.isKnown
    ensures forall c: Flashcard :: !c.isKnown ==> multiset(r)[c] == multiset(cards)[c]
    ensures |r| <= |cards|
  {
    Filter(cards, (c: Flashcard) => !c.isKnown)
  }

  /**
   The effect run whenever the category changes: the study list is
   recomputed from it, and the cursor is left where it was.
   */
  function OnCategoryChange(s: StudyState, category: CategoryWithFlashcards): (r: StudyState)
    ensures r.studyList == UnknownFlashcards(category.flashcards)
    ensures r.cursor == s.cursor
  {
    s.(studyList := UnknownFlashcards(category.flashcards))
  }

  /**
   "Next": `(index + 1) % count`. With at least one card the cursor stays
   in range, advancing by one or wrapping to 0; with none it becomes NaN,
   and NaN stays NaN.
   */
  function Next(s: StudyState): (r: StudyState)
    ensures r.studyList == s.studyList
    ensures (|s.studyList| == 0 || s.cursor.NotANumber?) ==> r.cursor == NotANumber
    ensures |s.studyList| > 0 && s.cursor.Index? ==> r.cursor == Index((s.cursor.i + 1) % |s.studyList|)
    ensures |s.studyList| > 0 && s.cursor.Index? ==>
      && r.cursor.i < |s.studyList|
      && (s.cursor.i + 1 < |s.studyList| ==> r.cursor.i == s.cursor.i + 1)
      && (s.cursor.i + 1 == |s.studyList| ==> r.cursor.i == 0)
  {
    var count := |s.studyList|;
    match s.cursor
    case NotANumber => s
    case Index(i) => if count == 0 then s.(cursor := NotANumber) else s.(cursor := Index((i + 1) % count))
  }

  /** "Next" pressed `k` times. */
  function NextN(s: StudyState, k: nat): StudyState
    decreases k
  {
    if k == 0 then s else Next(NextN(s, k - 1))
  }

  /** Pressing `a + b` times is pressing `a` times and then `b` times. */
  lemma {:induction false} NextNAdd(s: StudyState, a: nat, b: nat)
    ensures NextN(s, a + b) == NextN(NextN(s, a), b)
    decreases b
  {
    if b > 0 {
      NextNAdd(s, a, b - 1);
    }
  }

  /** Without reaching the end of the study list, `k` presses advance the cursor by `k`. */
  lemma {:induction false} NextNAdvances(s: StudyState, k: nat)
    requires s.cursor.Index? && s.cursor.i + k < |s.studyList|
    ensures NextN(s, k) == s.(cursor := Index(s.cursor.i + k))
    decreases k
  {
    if k > 0 {
      NextNAdvances(s, k - 1);
    }
  }

  /** Pressing "Next" once per card brings an in-range cursor back to where it started. */
  lemma NextCycles(s: StudyState)
    requires s.cursor.Index? && s.cursor.i < |s.studyList|
    ensures NextN(s, |s.studyList|) == s
  {
    var n := |s.studyList|;
    var i := s.cursor.i;
    NextNAdvances(s, n - i - 1);
    var last := NextN(s, n - i - 1);
    assert NextN(s, n - i) == Next(last);
    var wrapped := NextN(s, n - i);
    assert wrapped == s.(cursor := Index(0));
    NextNAdvances(wrapped, i);
    NextNAdd(s, n - i, i);
  }

  /** NaN is absorbing: no number of "Next" presses brings the cursor back. */
  lemma {:induction false} NotANumberIsAbsorbing(s: StudyState, k: nat)
    requires s.cursor.NotANumber?
    ensures NextN(s, k).cursor == NotANumber
    decreases k
  {
    if k > 0 {
      NotANumberIsAbsorbing(s, k - 1);
    }
  }

  /**
   The card the overlay renders as written: the cursor indexes the
   category's full flashcard list, not the study list. Out of range (or
   NaN) it reads `undefined`, here `None`.
   */
  function ShownCard(s: StudyState, category: CategoryWithFlashcards): (r: Option<Flashcard>)
    ensures r.Some? <==> s.cursor.Index? && s.cursor.i < |category.flashcards|
    ensures r.Some? ==> r.value == category.flashcards[s.cursor.i]
    ensures r.Some? ==> r.value in category.flashcards
  {
    match s.cursor
    case Index(i) => if i < |category.flashcards| then Some(category.flashcards[i]) else None
    case NotANumber => None
  }

  /** Every in-range cursor over the study list is also in range for the full list. */
  lemma ShownCardInBounds(s: StudyState, category: CategoryWithFlashcards)
    requires s.studyList == UnknownFlashcards(category.flashcards)
    requires s.cursor.Index? && s.cursor.i < |s.studyList|
    ensures ShownCard(s, category) == Some(category.flashcards[s.cursor.i])
  {
  }

  /**
   The card the overlay evidently means to render: the study-list card at
   the cursor. Once the study list has been computed from the category it
   is always a card of the category not yet known; before that (the first
   render, or the render right after the category changes) it is whatever
   the stale list holds, or nothing.
   */
  function CurrentCard(s: StudyState, category: CategoryWithFlashcards): (r: Option<Flashcard>)
    ensures r.Some? <==> s.cursor.Index? && s.cursor.i < |s.studyList|
    ensures r.Some? ==> r.value == s.studyList[s.cursor.i]
    ensures r.Some? && s.studyList == UnknownFlashcards(category.flashcards) ==>
      r.value in category.flashcards && !r.value.isKnown
  {
    match s.cursor
    case Index(i) => if i < |s.studyList| then Some(s.studyList[i]) else None
    case NotANumber => None
  }

  /** When no card of the category is known, the two readings agree. */
  lemma {:induction false} AgreeWhenNothingKnown(s: StudyState, category: CategoryWithFlashcards)
    requires forall i :: 0 <= i < |category.flashcards| ==> !category.flashcards[i].isKnown
    requires s.studyList == UnknownFlashcards(category.flashcards)
    ensures s.studyList == category.flashcards
    ensures CurrentCard(s, category) == ShownCard(s, category)
  {
    FilterKeepsAll(category.flashcards, (c: Flashcard) => !c.isKnown);
  }

  /** The study list of a card followed by others: the card if not known, then theirs. */
  lemma UnknownCons(c: Flashcard, rest: seq<Flashcard>)
    ensures UnknownFlashcards([c] + rest) == (if c.isKnown then [] else [c]) + UnknownFlashcards(rest)
  {
    assert ([c] + rest)[1..] == rest;
  }

  /** The study list of an unknown, a known and an unknown card. */
  lemma UnknownOfThree(c1: Flashcard, c2: Flashcard, c3: Flashcard)
    requires !c1.isKnown && c2.isKnown && !c3.isKnown
    ensures UnknownFlashcards([c1, c2, c3]) == [c1, c3]
  {
    UnknownCons(c3, []);
    UnknownCons(c2, [c3]);
    UnknownCons(c1, [c2, c3]);
  }

  /**
   Cards 1 (unknown), 2 (known) and 3 (unknown): the study list is cards 1
   and 3, and one press of "Next" moves the cursor to 1. The overlay as
   written then shows card 2, a known card, where card 3 is meant; a second
   press wraps back to card 1.
   */
  lemma ShownCardMayBeKnown()
    ensures
      var c1 := Flashcard(1, 7, "q1", "a1", false, false);
      var c2 := Flashcard(2, 7, "q2", "a2", true, false);
      var c3 := Flashcard(3, 7, "q3", "a3", false, false);
      var category := CategoryWithFlashcards(7, "c", [c1, c2, c3]);
      var s0 := OnCategoryChange(Init(), category);
      var s1 := Next(s0);
      && s0.studyList == [c1, c3]
      && s0.cursor == Index(0)
      && ShownCard(s0, category) == Some(c1)
      && s1.cursor == Index(1)
      && ShownCard(s1, category) == Some(c2) && c2.isKnown
      && CurrentCard(s1, category) == Some(c3)
      && Next(s1).cursor == Index(0)
  {
    var c1 := Flashcard(1, 7, "q1", "a1", false, false);
    var c2 := Flashcard(2, 7, "q2", "a2", true, false);
    var c3 := Flashcard(3, 7, "q3", "a3", false, false);
    UnknownOfThree(c1, c2, c3);
  }

  /**
   The cursor is not reset when the study list is recomputed: with three
   unknown cards, two presses of "Next" reach index 2; once cards 2 and 3
   become known, the recomputed study list holds one card and the cursor
   stays at 2, beyond its end. The next press brings it back to 0.
   */
  lemma CursorSurvivesRecompute()
    ensures
      var c1 := Flashcard(1, 7, "q1", "a1", false, false);
      var c2 := Flashcard(2, 7, "q2", "a2", false, false);
      var c3 := Flashcard(3, 7, "q3", "a3", false, false);
      var before := CategoryWithFlashcards(7, "c", [c1, c2, c3]);
      var after := CategoryWithFlashcards(7, "c", [c1, c2.(isKnown := true), c3.(isKnown := true)]);
      var s := Next(Next(OnCategoryChange(Init(), before)));
      var r := OnCategoryChange(s, after);
      && s.cursor == Index(2)
      && r.cursor == Index(2) && r.studyList == [c1]
      && CurrentCard(r, after).None?
      && Next(r).cursor == Index(0)
  {
    var c1 := Flashcard(1, 7, "q1", "a1", false, false);
    var c2 := Flashcard(2, 7, "q2", "a2", false, false);
    var c3 := Flashcard(3, 7, "q3", "a3", false, false);
    var c2k := c2.(isKnown := true);
    var c3k := c3.(isKnown := true);
    UnknownCons(c3, []);
    UnknownCons(c2, [c3]);
    UnknownCons(c1, [c2, c3]);
    UnknownCons(c3k, []);
    UnknownCons(c2k, [c3k]);
    UnknownCons(c1, [c2k, c3k]);
  }
}
