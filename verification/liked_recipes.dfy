/**
 * The liked-recipes screen: the list of recipes the user liked, narrowed by
 * a search term and ordered by the sort selector, the unlike confirmation
 * dialog, and the text shown on each recipe card.
 *
 * Server replies are parameters of the transitions.
 */
module LikedRecipes {
  import opened Wrappers
  import opened Text
  import opened Recipes
  import Seqs

  // ----- search -----

  /** Some ingredient of the recipe has a name containing `needle`. */
  predicate SomeIngredientContains(ings: seq<RecipeIngredient>, needle: string) {
    exists k :: 0 <= k < |ings| && ings[k].name.Some? && Contains(Lower(ings[k].name.value), needle)
  }

  /** A recipe matches a search term when its lower-cased title, or the
      lower-cased name of one of its ingredients, contains the lower-cased
      term. */
  predicate MatchesSearch(recipe: Recipe, term: string) {
    var needle := Lower(term);
    || Contains(Lower(recipe.title), needle)
    || (recipe.ingredients.Some? && SomeIngredientContains(recipe.ingredients.value, needle))
  }

  /** The search box: an empty term keeps the list as it is; otherwise the
      recipes that match, in list order. */
  function Search(liked: seq<Recipe>, term: string): (r: seq<Recipe>)
    ensures term == "" ==> r == liked
    ensures forall x :: x in r <==> x in liked && MatchesSearch(x, term)
    ensures forall x :: multiset(r)[x] == if MatchesSearch(x, term) then multiset(liked)[x] else 0
    ensures Seqs.IsSubsequence(r, liked)
  {
    Seqs.FilterIsSubsequence((x: Recipe) => MatchesSearch(x, term), liked);
    if term == "" then
      EmptyTermKeepsAll(liked);
      liked
    else Seqs.Filter((x: Recipe) => MatchesSearch(x, term), liked)
  }

  /** The `if (searchTerm)` guard changes nothing: filtering with the empty
      term keeps every recipe anyway. */
  lemma EmptyTermKeepsAll(liked: seq<Recipe>)
    ensures Seqs.Filter((x: Recipe) => MatchesSearch(x, ""), liked) == liked
  {
    var p := (x: Recipe) => MatchesSearch(x, "");
    forall i | 0 <= i < |liked|
      ensures p(liked[i])
    {
      ContainsEmpty(Lower(liked[i].title));
    }
    Seqs.FilterKeepsAll(p, liked);
  }

  /** A recipe whose lower-cased title has the lower-cased term at some
      position is kept. */
  lemma TitleHitIsKept(liked: seq<Recipe>, term: string, x: Recipe, i: int)
    requires x in liked
    requires OccursAt(Lower(x.title), Lower(term), i)
    ensures x in Search(liked, term)
  {
    ContainsIffOccurs(Lower(x.title), Lower(term));
  }

  // ----- sort -----

  /** The number of ingredients, a missing list counting as none. */
  function IngredientCount(r: Recipe): nat {
    if r.ingredients.Some? then |r.ingredients.value| else 0
  }

  /** The preparation time, a missing one counting as 0. */
  function PrepOrZero(r: Recipe): int {
    r.prepTime.GetOr(0)
  }

  /** The sort selector: the three keys the comparator knows, and any
      other value, for which every comparison is 0. */
  datatype SortKey = ByTitle | ByIngredients | ByPrepTime | Unsorted

  function KeyOf(sortBy: string): (k: SortKey)
    ensures k == ByTitle <==> sortBy == "title"
    ensures k == ByIngredients <==> sortBy == "ingredients"
    ensures k == ByPrepTime <==> sortBy == "prepTime"
  {
    if sortBy == "title" then ByTitle
    else if sortBy == "ingredients" then ByIngredients
    else if sortBy == "prepTime" then ByPrepTime
    else Unsorted
  }

  /** The comparator passed to `Array.prototype.sort`: negative when `a`
      goes first. */
  function Compare(key: SortKey, a: Recipe, b: Recipe): int {
    match key
    case ByTitle => CompareStrings(a.title, b.title)
    case ByIngredients => IngredientCount(b) - IngredientCount(a)
    case ByPrepTime => PrepOrZero(a) - PrepOrZero(b)
    case Unsorted => 0
  }

  /** `a` may come before `b`. */
  predicate Before(key: SortKey, a: Recipe, b: Recipe) {
    Compare(key, a, b) <= 0
  }

  predicate Sorted(key: SortKey, s: seq<Recipe>) {
    forall i, j :: 0 <= i < j < |s| ==> Before(key, s[i], s[j])
  }

  /** Of any two recipes one may come before the other. */
  lemma BeforeTotal(key: SortKey, a: Recipe, b: Recipe)
    ensures Before(key, a, b) || Before(key, b, a)
  {
    CompareStringsAntisymmetric(a.title, b.title);
  }

  lemma BeforeTransitive(key: SortKey, a: Recipe, b: Recipe, c: Recipe)
    requires Before(key, a, b) && Before(key, b, c)
    ensures Before(key, a, c)
  {
    if key == ByTitle {
      CompareStringsTransitive(a.title, b.title, c.title);
    }
  }

  /** Puts `x`, which came after every element of `sorted` in the input,
      behind the last element it may follow: equal keys keep their input
      order. */
  function Insert(key: SortKey, sorted: seq<Recipe>, x: Recipe): (r: seq<Recipe>)
    ensures multiset(r) == multiset(sorted) + multiset{x}
    ensures Sorted(key, sorted) ==> Sorted(key, r)
    decreases |sorted|
  {
    if |sorted| == 0 then [x]
    else
      var last := sorted[|sorted| - 1];
      var init := sorted[..|sorted| - 1];
      assert sorted == init + [last];
      if Before(key, last, x) then
        InsertAfter(key, sorted, x);
        sorted + [x]
      else
        var r := Insert(key, init, x);
        InsertBefore(key, sorted, x, r);
        r + [last]
  }

  /** Appending `x` behind a sorted list whose last element may precede it
      keeps the list sorted. */
  lemma InsertAfter(key: SortKey, sorted: seq<Recipe>, x: Recipe)
    requires |sorted| > 0 && Before(key, sorted[|sorted| - 1], x)
    ensures Sorted(key, sorted) ==> Sorted(key, sorted + [x])
  {
    if Sorted(key, sorted) {
      var s := sorted + [x];
      var n := |sorted|;
      forall i, j | 0 <= i < j < |s|
        ensures Before(key, s[i], s[j])
      {
        if j == n && i < n - 1 {
          BeforeTransitive(key, s[i], s[n - 1], x);
        }
      }
    }
  }

  /** When `x` may not follow the last element, that element goes behind
      the sorted insertion of `x` into the rest. */
  lemma InsertBefore(key: SortKey, sorted: seq<Recipe>, x: Recipe, r: seq<Recipe>)
    requires |sorted| > 0 && !Before(key, sorted[|sorted| - 1], x)
    requires multiset(r) == multiset(sorted[..|sorted| - 1]) + multiset{x}
    requires Sorted(key, sorted[..|sorted| - 1]) ==> Sorted(key, r)
    ensures Sorted(key, sorted) ==> Sorted(key, r + [sorted[|sorted| - 1]])
  {
    var n := |sorted|;
    var last := sorted[n - 1];
    var init := sorted[..n - 1];
    if Sorted(key, sorted) {
      assert Sorted(key, init);
      var s := r + [last];
      forall i, j | 0 <= i < j < |s|
        ensures Before(key, s[i], s[j])
      {
        if j == |r| {
          var e := r[i];
          assert e in multiset(r);
          if e == x {
            BeforeTotal(key, last, x);
          } else {
            assert e in multiset(init);
            var k :| 0 <= k < |init| && init[k] == e;
            assert sorted[k] == e;
          }
        }
      }
    }
  }

  /** `Array.prototype.sort` with the comparator of `key`: a stable sort,
      so recipes that compare as 0 keep their input order
      (`SortStable`). */
  function SortRecipes(key: SortKey, s: seq<Recipe>): (r: seq<Recipe>)
    ensures multiset(r) == multiset(s)
    ensures Sorted(key, r)
    decreases |s|
  {
    if |s| == 0 then []
    else
      assert s == s[..|s| - 1] + [s[|s| - 1]];
      Insert(key, SortRecipes(key, s[..|s| - 1]), s[|s| - 1])
  }

  /** The test "compares as 0 with `v`": the recipes that tie with `v`. */
  function TiesWith(key: SortKey, v: Recipe): Recipe -> bool {
    (y: Recipe) => Compare(key, y, v) == 0
  }

  /** Two recipes that tie with a third tie with each other. */
  lemma TiesTransitive(key: SortKey, a: Recipe, b: Recipe, v: Recipe)
    requires Compare(key, a, v) == 0 && Compare(key, b, v) == 0
    ensures Compare(key, a, b) == 0
  {
    if key == ByTitle {
      assert a.title == v.title == b.title;
    }
  }

  /** Among the recipes that tie with `v`, inserting `x` puts it where
      appending would: behind every one of them already in `sorted`. */
  lemma {:induction false} InsertStable(key: SortKey, v: Recipe, sorted: seq<Recipe>, x: Recipe)
    ensures Seqs.Filter(TiesWith(key, v), Insert(key, sorted, x)) ==
            Seqs.Filter(TiesWith(key, v), sorted + [x])
    decreases |sorted|
  {
    if |sorted| == 0 {
      assert sorted + [x] == [x];
    } else {
      var p := TiesWith(key, v);
      var last := sorted[|sorted| - 1];
      var init := sorted[..|sorted| - 1];
      InsertShape(key, sorted, x);
      if !Before(key, last, x) {
        assert sorted == init + [last];
        calc {
          Seqs.Filter(p, Insert(key, sorted, x));
          Seqs.Filter(p, Insert(key, init, x) + [last]);
          { InsertStable(key, v, init, x);
            Seqs.FilterSnocCongruent(p, Insert(key, init, x), init + [x], last); }
          Seqs.Filter(p, init + [x] + [last]);
          { NotBothTie(key, v, last, x);
            Seqs.FilterSwapLast(p, init, x, last); }
          Seqs.Filter(p, sorted + [x]);
        }
      }
    }
  }

  /** One step of `Insert` on a non-empty list. */
  lemma InsertShape(key: SortKey, sorted: seq<Recipe>, x: Recipe)
    requires |sorted| > 0
    ensures Before(key, sorted[|sorted| - 1], x) ==> Insert(key, sorted, x) == sorted + [x]
    ensures !Before(key, sorted[|sorted| - 1], x) ==>
              Insert(key, sorted, x) == Insert(key, sorted[..|sorted| - 1], x) + [sorted[|sorted| - 1]]
  {
  }

  /** A recipe that may not follow `last` does not tie with it, so the two
      do not both tie with `v`. */
  lemma NotBothTie(key: SortKey, v: Recipe, last: Recipe, x: Recipe)
    requires !Before(key, last, x)
    ensures !(TiesWith(key, v)(x) && TiesWith(key, v)(last))
  {
    if Compare(key, x, v) == 0 && Compare(key, last, v) == 0 {
      TiesTransitive(key, last, x, v);
    }
  }

  /** The sort is stable: the recipes that tie with any `v` appear in the
      same order before and after sorting. */
  lemma {:induction false} SortStable(key: SortKey, v: Recipe, s: seq<Recipe>)
    ensures Seqs.Filter(TiesWith(key, v), SortRecipes(key, s)) == Seqs.Filter(TiesWith(key, v), s)
    decreases |s|
  {
    if |s| > 0 {
      var init, x := s[..|s| - 1], s[|s| - 1];
      assert s == init + [x];
      SortStable(key, v, init);
      InsertStable(key, v, SortRecipes(key, init), x);
      Seqs.FilterSnocCongruent(TiesWith(key, v), SortRecipes(key, init), init, x);
    }
  }

  /** A selector value other than the three known keys leaves the order as
      it was, because every comparison is 0 and the sort is stable. */
  lemma {:induction false} UnknownKeyKeepsOrder(s: seq<Recipe>)
    ensures SortRecipes(Unsorted, s) == s
    decreases |s|
  {
    if |s| > 0 {
      var p, x := s[..|s| - 1], s[|s| - 1];
      calc {
        SortRecipes(Unsorted, s);
        Insert(Unsorted, SortRecipes(Unsorted, p), x);
        { UnknownKeyKeepsOrder(p); }
        Insert(Unsorted, p, x);
        { InsertUnknownKey(p, x); }
        p + [x];
        s;
      }
    }
  }

  /** With an unknown key, a new recipe goes to the end. */
  lemma InsertUnknownKey(sorted: seq<Recipe>, x: Recipe)
    ensures Insert(Unsorted, sorted, x) == sorted + [x]
  {
    if |sorted| > 0 {
      assert Before(Unsorted, sorted[|sorted| - 1], x);
    }
  }

  /** The list the screen shows: the recipes matching the search term,
      reordered by the selected key. It holds each matching recipe as often
      as the liked list does and nothing else; "title" orders titles
      ascending, "ingredients" by non-increasing ingredient count,
      "prepTime" by non-decreasing preparation time. */
  function FilterAndSort(liked: seq<Recipe>, term: string, sortBy: string): (r: seq<Recipe>)
    ensures forall x :: x in r <==> x in liked && MatchesSearch(x, term)
    ensures multiset(r) == multiset(Search(liked, term))
    ensures KeyOf(sortBy) == Unsorted ==> r == Search(liked, term)
    ensures forall v :: Seqs.Filter(TiesWith(KeyOf(sortBy), v), r) ==
                        Seqs.Filter(TiesWith(KeyOf(sortBy), v), Search(liked, term))
    ensures sortBy == "title" ==>
              forall i, j :: 0 <= i < j < |r| ==> CompareStrings(r[i].title, r[j].title) <= 0
    ensures sortBy == "ingredients" ==>
              forall i, j :: 0 <= i < j < |r| ==> IngredientCount(r[i]) >= IngredientCount(r[j])
    ensures sortBy == "prepTime" ==>
              forall i, j :: 0 <= i < j < |r| ==> PrepOrZero(r[i]) <= PrepOrZero(r[j])
  {
    var found := Search(liked, term);
    var r := SortRecipes(KeyOf(sortBy), found);
    SameElements(r, found);
    SortedByKey(KeyOf(sortBy), r);
    UnknownKeyKeepsOrder(found);
    assert forall v :: Seqs.Filter(TiesWith(KeyOf(sortBy), v), r) ==
                       Seqs.Filter(TiesWith(KeyOf(sortBy), v), found) by {
      forall v
        ensures Seqs.Filter(TiesWith(KeyOf(sortBy), v), r) ==
                Seqs.Filter(TiesWith(KeyOf(sortBy), v), found)
      {
        SortStable(KeyOf(sortBy), v, found);
      }
    }
    r
  }

  lemma SameElements(a: seq<Recipe>, b: seq<Recipe>)
    requires multiset(a) == multiset(b)
    ensures forall x :: x in a <==> x in b
  {
    forall x
      ensures x in a <==> x in b
    {
      assert x in a <==> x in multiset(a);
      assert x in b <==> x in multiset(b);
    }
  }

  /** What sortedness means for each known key. */
  lemma SortedByKey(key: SortKey, r: seq<Recipe>)
    requires Sorted(key, r)
    ensures key == ByTitle ==>
              forall i, j :: 0 <= i < j < |r| ==> CompareStrings(r[i].title, r[j].title) <= 0
    ensures key == ByIngredients ==>
              forall i, j :: 0 <= i < j < |r| ==> IngredientCount(r[i]) >= IngredientCount(r[j])
    ensures key == ByPrepTime ==>
              forall i, j :: 0 <= i < j < |r| ==> PrepOrZero(r[i]) <= PrepOrZero(r[j])
  {
    forall i, j | 0 <= i < j < |r|
      ensures Compare(key, r[i], r[j]) <= 0
    {
      assert Before(key, r[i], r[j]);
    }
  }

  /** With no search term and an unknown key the screen shows the liked
      list unchanged. */
  lemma ShowsAllInOrder(liked: seq<Recipe>, sortBy: string)
    requires sortBy != "title" && sortBy != "ingredients" && sortBy != "prepTime"
    ensures FilterAndSort(liked, "", sortBy) == liked
  {
    UnknownKeyKeepsOrder(liked);
  }

  // ----- loading and unliking -----

  /** The screen's state: the liked recipes, the error banner, whether the
      confirmation dialog is open and the recipe it is about. */
  datatype State = State(liked: seq<Recipe>, error: string, dialogOpen: bool, pending: Option<Recipe>)

  /** A request's outcome: a 2xx reply, or a failure (transport error or
      other status). */
  datatype Reply = Ok | Failed

  /** The reply to the liked-recipes request: the list, or a failure with
      its reason. */
  datatype LoadReply = Loaded(recipes: seq<Recipe>) | LoadFailed(reason: string)

  const UnlikeFailed := "Failed to remove recipe from favorites. Please try again."
  const LoadFailedPrefix := "Failed to load your liked recipes: "

  /** Loading the liked list: a reply replaces the list and clears the
      error; a failure keeps the list and reports the reason. */
  function LoadLiked(st: State, reply: LoadReply): (r: State)
    ensures reply.Loaded? ==> r == st.(liked := reply.recipes, error := "")
    ensures reply.LoadFailed? ==>
              r.liked == st.liked && LoadFailedPrefix <= r.error &&
              r.error[|LoadFailedPrefix|..] == reply.reason
    ensures r.dialogOpen == st.dialogOpen && r.pending == st.pending
  {
    match reply
    case Loaded(recipes) => st.(liked := recipes, error := "")
    case LoadFailed(reason) => st.(error := LoadFailedPrefix + reason)
  }

  /** The trash button of a card: opens the dialog about that recipe. */
  function RequestUnlike(st: State, recipe: Recipe): (r: State)
    ensures r.dialogOpen && r.pending == Some(recipe)
    ensures r.liked == st.liked && r.error == st.error
  {
    st.(pending := Some(recipe), dialogOpen := true)
  }

  /** The dialog's cancel button. */
  function CancelUnlike(st: State): (r: State)
    ensures !r.dialogOpen && r.pending.None?
    ensures r.liked == st.liked && r.error == st.error
  {
    st.(dialogOpen := false, pending := None)
  }

  /** The identifier of the DELETE request the dialog's confirm button
      sends, or `None` when there is no pending recipe. */
  function UnlikeRequest(st: State): (id: Option<int>)
    ensures id.None? <==> st.pending.None?
    ensures id.Some? ==> id.value == st.pending.value.id
  {
    match st.pending
    case None => None
    case Some(p) => Some(p.id)
  }

  /** The dialog's confirm button. Without a pending recipe nothing
      happens. Otherwise, on success every recipe with the pending id leaves
      the list (the rest stay) and the error clears; on failure the list
      stays and the error is set. Either way the dialog closes and forgets
      the recipe. */
  function ConfirmUnlike(st: State, reply: Reply): (r: State)
    ensures st.pending.None? ==> r == st
    ensures st.pending.Some? ==> !r.dialogOpen && r.pending.None?
    ensures st.pending.Some? && reply.Ok? ==>
              && r.error == ""
              && (forall x :: x in r.liked <==> x in st.liked && x.id != st.pending.value.id)
              && (forall x :: multiset(r.liked)[x] ==
                    if x.id != st.pending.value.id then multiset(st.liked)[x] else 0)
              && Seqs.IsSubsequence(r.liked, st.liked)
    ensures st.pending.Some? && reply.Failed? ==> r.liked == st.liked && r.error == UnlikeFailed
  {
    match UnlikeRequest(st)
    case None => st
    case Some(id) =>
      Seqs.FilterIsSubsequence((x: Recipe) => x.id != id, st.liked);
      var after :=
        match reply
        case Ok => st.(liked := Seqs.Filter((x: Recipe) => x.id != id, st.liked), error := "")
        case Failed => st.(error := UnlikeFailed);
      after.(dialogOpen := false, pending := None)
  }

  /** Unliking a recipe through the dialog removes it, and only the recipes
      sharing its id, from what the screen shows, whatever the search and
      sort. */
  lemma UnlikeRemovesFromView(st: State, recipe: Recipe, term: string, sortBy: string)
    ensures
      var r := ConfirmUnlike(RequestUnlike(st, recipe), Ok);
      && recipe !in FilterAndSort(r.liked, term, sortBy)
      && forall x :: x in st.liked && x.id != recipe.id && MatchesSearch(x, term) ==>
           x in FilterAndSort(r.liked, term, sortBy)
  {
  }

  /** Opening then cancelling the dialog leaves a closed-dialog state as it
      was. */
  lemma CancelUndoesRequest(st: State, recipe: Recipe)
    requires !st.dialogOpen && st.pending.None?
    ensures CancelUnlike(RequestUnlike(st, recipe)) == st
  {
  }

  // ----- card text -----

  const PreviewLength := 150

  /** The instructions preview: text longer than 150 characters is cut to
      its first 150 followed by "...", shorter text is shown whole. */
  function Truncate(s: string): (r: string)
    ensures |s| <= PreviewLength ==> r == s
    ensures |s| > PreviewLength ==>
              |r| == PreviewLength + 3 && r[..PreviewLength] == s[..PreviewLength] &&
              r[PreviewLength..] == "..."
  {
    if |s| > PreviewLength then s[..PreviewLength] + "..." else s
  }

  /** The card shows a preview only for non-empty instructions. */
  function InstructionsPreview(instructions: Option<string>): (r: Option<string>)
    ensures r.None? <==> instructions.None? || instructions.value == ""
    ensures r.Some? ==> r.value == Truncate(instructions.value)
  {
    match instructions
    case None => None
    case Some(s) => if s == "" then None else Some(Truncate(s))
  }

  /** Truncating a preview again changes nothing. */
  lemma TruncateIdempotent(s: string)
    ensures Truncate(Truncate(s)) == Truncate(s)
  {
    if |s| > PreviewLength {
      var t := Truncate(s);
      assert t[..PreviewLength] == s[..PreviewLength];
    }
  }

  /** The ingredient section of a card: the count line, the chips shown
      and the "+N more" note. */
  datatype IngredientSummary = IngredientSummary(
    countLabel: string,
    chips: seq<RecipeIngredient>,
    moreLabel: Option<string>)

  const ChipLimit := 3

  /** The ingredient section, absent for a missing or empty list. The first
      three ingredients become chips, and "+(n-3) more" follows exactly when
      there are more than three. */
  function IngredientSection(ingredients: Option<seq<RecipeIngredient>>): (r: Option<IngredientSummary>)
    ensures r.None? <==> ingredients.None? || |ingredients.value| == 0
    ensures r.Some? ==>
              var ings := ingredients.value;
              && |r.value.chips| == (if |ings| < ChipLimit then |ings| else ChipLimit)
              && r.value.chips <= ings
              && (r.value.moreLabel.Some? <==> |ings| > ChipLimit)
              && r.value.countLabel ==
                   NatToString(|ings|) + (if |ings| != 1 then " ingredients" else " ingredient")
  {
    match ingredients
    case None => None
    case Some(ings) =>
      if |ings| == 0 then None
      else
        var chips := if |ings| > ChipLimit then ings[..ChipLimit] else ings;
        var more := if |ings| > ChipLimit then Some("+" + NatToString(|ings| - ChipLimit) + " more") else None;
        Some(IngredientSummary(
          NatToString(|ings|) + " ingredient" + (if |ings| != 1 then "s" else ""),
          chips, more))
  }

  /** The chips and the number in the "+N more" note together account for
      every ingredient. */
  lemma ChipsAccountForAll(ings: seq<RecipeIngredient>)
    requires |ings| > ChipLimit
    ensures
      var s := IngredientSection(Some(ings)).value;
      var note := s.moreLabel.value;
      && |note| > 6 && note[..1] == "+" && note[|note| - 5..] == " more"
      && (forall i :: 1 <= i < |note| - 5 ==> IsDigit(note[i]))
      && note[1] != '0'
      && |s.chips| + DigitsValue(note[1..|note| - 5]) == |ings|
  {
    var n := NatToString(|ings| - ChipLimit);
    var note := "+" + n + " more";
    assert note[1..|note| - 5] == n;
    NatToStringRoundTrip(|ings| - ChipLimit);
  }
}
