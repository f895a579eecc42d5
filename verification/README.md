# PantryPilot screen logic in Dafny

PantryPilot's web client has three screens that hold real logic. This project
models that logic as pure state transitions and proves what each transition
promises.

- **Recipe matcher** (`recipe_matcher.dfy`). The user builds an ingredient
  list with the add form, the quick-add chips, the per-entry remove button
  and the clear button. The list is sent to the matching endpoint. Further
  pages are fetched with the continuation token the first reply carries.
- **Liked recipes** (`liked_recipes.dfy`, `prep_time.dfy`). The screen has:
  - the search box and the sort selector over the liked list;
  - the unlike confirmation dialog;
  - the text of each card: the preparation-time label, the 150-character
    instructions preview, and the ingredient count with three chips and a
    "+N more" note.
- **Recipe details** (`recipe_details.dfy`). Ingredients can be ticked off.
  The instructions text is cut into steps: first at numbered markers
  (`1.`, `2. `, …), and at full stops when that gives one step or none.

Support modules:

- `text.dfy` holds the JavaScript string operations the screens use:
  - `trim` and the whitespace class;
  - ASCII `toLowerCase` and `includes`;
  - `split` on one character, with a `join` that inverts it;
  - decimal rendering of numbers;
  - an ordering on strings by code point.
- `seqs.dfy` holds `Array.prototype.filter`.
- `recipes.dfy` holds the recipe record the server sends.
- `wrappers.dfy` holds `Option`.

Server replies are parameters of the transitions: a page, a list, or a
failure. The identifier the matcher takes from the clock is supplied by the
caller. Falsy JavaScript values are modelled explicitly:
- a missing or empty token does not count as a token;
- missing or empty instructions give no steps;
- a missing or zero preparation time reads "N/A".

Three details of the matcher's handlers are modelled as written:

- The search handler clears the result list and the token before it sends
  the request, so a failed search leaves both cleared.
- A search needs at least one ingredient in the list.
- Loading more pages keeps the same token, and an empty page appends
  nothing.

## Model

| member | source | states |
|---|---|---|
| RecipeMatcher.AddIngredient | src/components/RecipeMatcher.jsx:47-83 | A blank or whitespace-only name is refused with "Ingredient name is required". The name check comes first. An empty or non-positive quantity is then refused with "Quantity must be greater than 0". A refusal changes nothing else. On success the error clears and the fields reset to "", empty and pcs. The typed amount is added to exactly the entries with the same untrimmed name and unit; every other field of every entry stays. When no entry has that key, one new entry with the given id is appended. |
| RecipeMatcher.QuickAdd | src/components/RecipeMatcher.jsx:85-101 | A quick-add chip adds 1 to every entry with that name, whatever its unit. Otherwise it appends {name, 1, pcs}. Only the list changes. |
| RecipeMatcher.RemoveIngredient | src/components/RecipeMatcher.jsx:103-104 | An entry stays exactly when its id differs from the removed one, as often as it was there, and the kept entries stay in the order they had. An id that is not present leaves the list unchanged. Nothing else changes. |
| RecipeMatcher.RemoveAppend | src/components/RecipeMatcher.jsx:104 | Removing from a list made of two parts is removing from each part and putting the results together, so the remaining entries keep their relative order. |
| RecipeMatcher.ClearIngredients | src/components/RecipeMatcher.jsx:105 | The list becomes empty and every other part of the screen stays. |
| RecipeMatcher.AddKeepsKeysUnique | src/components/RecipeMatcher.jsx:62-78 | Add never creates a second entry with the same (name, unit). |
| RecipeMatcher.QuickAddKeepsKeysUnique | src/components/RecipeMatcher.jsx:85-101 | Quick-add never creates a second entry with the same (name, unit). |
| RecipeMatcher.FilterKeepsKeysUnique | src/components/RecipeMatcher.jsx:103-104 | Filtering a list with unique keys by id keeps the keys unique. |
| RecipeMatcher.RemoveKeepsKeysUnique | src/components/RecipeMatcher.jsx:103-104 | Removal keeps the keys unique. |
| RecipeMatcher.AmountAppend | src/components/RecipeMatcher.jsx:73-76 | Appending an entry adds its quantity to its own key's total and to no other key's total. |
| RecipeMatcher.AmountAbsent | src/components/RecipeMatcher.jsx:62-65 | A key that no entry carries totals zero. |
| RecipeMatcher.AmountBump | src/components/RecipeMatcher.jsx:66-71 | When the keys are unique, the merging map raises its own key's total by the amount and leaves every other key's total as it was. |
| RecipeMatcher.AddAmount | src/components/RecipeMatcher.jsx:62-78 | When the keys are unique, a successful add raises the typed key's total by exactly the typed quantity, whether it merges or appends. Every other key's total is unchanged. |
| RecipeMatcher.AddTwiceMerges | src/components/RecipeMatcher.jsx:62-78 | Adding a new (name, unit) twice gives one entry holding the sum, under the first id. |
| RecipeMatcher.QuickAddTwice | src/components/RecipeMatcher.jsx:85-101 | Two quick-adds of a new name give one pcs entry with quantity 2. |
| RecipeMatcher.RemoveUndoesFreshAdd | src/components/RecipeMatcher.jsx:72-77 | Removing the fresh id of an entry that was just appended restores the list as it was before the add. |
| RecipeMatcher.FindRequest | src/components/RecipeMatcher.jsx:108-111 | A request is sent exactly when the list is non-empty, and its body is the list. |
| RecipeMatcher.BeginFind | src/components/RecipeMatcher.jsx:112-115 | Before the reply arrives, earlier results, the token and the message are cleared, and nothing else changes. |
| RecipeMatcher.FindRecipes | src/components/RecipeMatcher.jsx:107-138 | With an empty list, only the message "Add at least one ingredient" is set. Otherwise only the results, the token and the message can change. A page replaces the results (a missing list counts as empty) and sets the token; "No recipes found" appears exactly when the results are empty. A failure leaves no results and no token, with "Failed to fetch recipes". |
| RecipeMatcher.LoadMoreRequest | src/components/RecipeMatcher.jsx:140-148 | A next-page request is sent exactly when the token is present and non-empty, and it carries that token. |
| RecipeMatcher.LoadMore | src/components/RecipeMatcher.jsx:140-158 | Without a usable token nothing changes. A page is appended after the recipes already shown, and nothing else changes; the token is kept. A failure changes only the message, which becomes "Failed to load more recipes". |
| RecipeMatcher.FindForgetsEarlierResults | src/components/RecipeMatcher.jsx:112-115 | The outcome of a search depends neither on earlier results, nor on the token, nor on the message. |
| RecipeMatcher.FindThenLoadMoreAppends | src/components/RecipeMatcher.jsx:129-151 | A search followed by two next pages shows the three pages in order, with the same token and an untouched ingredient list. |
| RecipeMatcher.LoadMoreKeepsShown | src/components/RecipeMatcher.jsx:151 | Loading more never loses a recipe already shown. |
| LikedRecipes.Search | src/components/LikedRecipes.jsx:97-107 | The empty term keeps the whole list. Otherwise a recipe stays exactly when its lower-cased title or an ingredient name contains the lower-cased term. A matching recipe stays as often as it occurs in the liked list, and the kept recipes keep their list order. |
| LikedRecipes.EmptyTermKeepsAll | src/components/LikedRecipes.jsx:100-106 | The empty term matches every recipe, so skipping the filter for it loses nothing. |
| LikedRecipes.TitleHitIsKept | src/components/LikedRecipes.jsx:101-102 | A recipe whose title contains the term, ignoring ASCII case, survives the search. |
| LikedRecipes.BeforeTotal | src/components/LikedRecipes.jsx:110-125 | For every sort key, any two recipes are comparable. |
| LikedRecipes.BeforeTransitive | src/components/LikedRecipes.jsx:110-125 | For every sort key, the order between recipes is transitive. |
| LikedRecipes.Insert | src/components/LikedRecipes.jsx:110-125 | One step of the stable sort: the result holds the sorted list plus the new recipe, and it stays sorted. |
| LikedRecipes.SortRecipes | src/components/LikedRecipes.jsx:110-125 | The sort is a permutation of its input, and the result is ordered by the selected key. |
| LikedRecipes.KeyOf | src/components/LikedRecipes.jsx:111-123 | The selector string picks the title, ingredients or prepTime comparison exactly for those three values; every other value selects the comparator that always returns 0. |
| LikedRecipes.InsertStable | src/components/LikedRecipes.jsx:110-125 | Among the recipes that compare as 0 with any given recipe, inserting one puts it where appending it would, behind those already sorted. |
| LikedRecipes.SortStable | src/components/LikedRecipes.jsx:110-125 | The sort is stable: for every recipe v, the recipes that compare as 0 with v appear in the same order before and after sorting. |
| LikedRecipes.TiesTransitive | src/components/LikedRecipes.jsx:110-125 | Two recipes that each compare as 0 with a third compare as 0 with each other, for every key. |
| LikedRecipes.UnknownKeyKeepsOrder | src/components/LikedRecipes.jsx:122-123 | With any key other than title, ingredients or prepTime, every comparison is 0 and the stable sort keeps the input order. |
| LikedRecipes.InsertUnknownKey | src/components/LikedRecipes.jsx:122-123 | When every comparison is 0, the stable sort places each recipe after all earlier ones. |
| LikedRecipes.FilterAndSort | src/components/LikedRecipes.jsx:96-128 | The shown list holds exactly the recipes that match, each as often as the search kept it. It is ordered as follows: "title" by ascending title; "ingredients" by non-increasing ingredient count, a missing list counting as 0; "prepTime" by non-decreasing time, a missing time counting as 0. Any other key shows the search result in list order. For every key, recipes that tie keep their search order. |
| LikedRecipes.SameElements | src/components/LikedRecipes.jsx:110 | Reordering does not change which recipes are present. |
| LikedRecipes.SortedByKey | src/components/LikedRecipes.jsx:111-121 | For each key, a sorted list is ordered by that key's comparison. |
| LikedRecipes.ShowsAllInOrder | src/components/LikedRecipes.jsx:96-128 | With no term and an unknown key, the screen shows the liked list unchanged. |
| LikedRecipes.LoadLiked | src/components/LikedRecipes.jsx:63-94 | A reply replaces the list and clears the error. A failure keeps the list and sets "Failed to load your liked recipes: " followed by the reason. The dialog is untouched. |
| LikedRecipes.RequestUnlike | src/components/LikedRecipes.jsx:146-150 | The trash button opens the dialog about that recipe and leaves the list and the error alone. |
| LikedRecipes.CancelUnlike | src/components/LikedRecipes.jsx:182-185 | Cancel closes the dialog, forgets the recipe, and leaves the list and the error alone. |
| LikedRecipes.UnlikeRequest | src/components/LikedRecipes.jsx:157-160 | A DELETE is sent exactly when a recipe is pending, and it carries that recipe's id. |
| LikedRecipes.ConfirmUnlike | src/components/LikedRecipes.jsx:156-180 | With no pending recipe nothing happens. Otherwise the dialog always closes and forgets the recipe. On success a recipe stays exactly when its id differs from the pending one, as often as it occurred and in list order, and the error clears. On failure the list stays and the error reads "Failed to remove recipe from favorites. Please try again.". |
| LikedRecipes.UnlikeRemovesFromView | src/components/LikedRecipes.jsx:59-61 | After a confirmed unlike, whatever the search and sort, the recipe is gone from the shown list. Every other matching recipe with a different id is still shown. |
| LikedRecipes.CancelUndoesRequest | src/components/LikedRecipes.jsx:146-150 | Opening and then cancelling the dialog restores a closed-dialog state exactly. |
| LikedRecipes.Truncate | src/components/LikedRecipes.jsx:372-374 | Text of up to 150 characters is shown whole. Longer text becomes its first 150 characters followed by "...", 153 characters in all. |
| LikedRecipes.InstructionsPreview | src/components/LikedRecipes.jsx:370-376 | A preview is shown exactly for present, non-empty instructions, and it is their truncation. |
| LikedRecipes.TruncateIdempotent | src/components/LikedRecipes.jsx:372-374 | Truncating a preview again changes nothing. |
| LikedRecipes.IngredientSection | src/components/LikedRecipes.jsx:379-401 | The section is absent exactly when the list is missing or empty. The count line is "n ingredient" for one ingredient and "n ingredients" otherwise. The chips are the first min(n, 3) ingredients. A "+N more" note appears exactly when n > 3. |
| LikedRecipes.ChipsAccountForAll | src/components/LikedRecipes.jsx:388-400 | The "+N more" note is "+", digits without a leading zero, " more", and the chips plus the number read from those digits give exactly n. |
| PrepTime.Format | src/components/LikedRecipes.jsx:130-144 | A missing or zero time reads "N/A", and nothing else does. A time under an hour reads "m min". A time of an hour or more starts with its whole hours followed by " hr". |
| PrepTime.HoursLabel | src/components/LikedRecipes.jsx:135-142 | A time of an hour or more splits into h >= 1 hours and fewer than 60 minutes, which add back up to it. The label is "h hr" for one hour and "h hrs" for more. " m min" follows exactly when m is not 0. |
| PrepTime.LabelShape | src/components/LikedRecipes.jsx:133-143 | The label of a positive time starts with a digit, reads "m min" below an hour, and starts with the whole hours and " hr" from an hour on. |
| PrepTime.ParseFormat | src/components/LikedRecipes.jsx:130-144 | The label of every positive time reads back as that time, so no two times share a label. |
| PrepTime.FormatParse | src/components/LikedRecipes.jsx:130-144 | Every text that reads as a time is that time's label, so each positive time has exactly one spelling. |
| PrepTime.ParseLabelWords | src/components/LikedRecipes.jsx:133-142 | The words of each label form of a positive time read back as that time. |
| PrepTime.LabelWordsOfParse | src/components/LikedRecipes.jsx:133-142 | Words that read as a time are exactly the label words of that time. |
| PrepTime.NumeralRoundTrip | src/components/LikedRecipes.jsx:134 | A decimal numeral without leading zeros is how its own value renders. |
| RecipeDetails.Toggle | src/components/RecipeDetails.jsx:67-75 | The clicked id switches between checked and unchecked. Every other id keeps its state, and the count moves by one. |
| RecipeDetails.ToggleTwice | src/components/RecipeDetails.jsx:67-75 | Clicking the same ingredient twice restores the checked set. |
| RecipeDetails.MarkerLength | src/components/RecipeDetails.jsx:270 | A match of `\d+\.\s*` at a position is one or more digits, the dot, and whitespace only, and the text after it does not start with whitespace, so the whitespace run is taken whole. |
| RecipeDetails.MarkerPrefixMatches | src/components/RecipeDetails.jsx:270 | Whenever the text continues at a position with a marker, the match there is at least as long as that marker; a position without a match starts no marker. |
| RecipeDetails.Scan | src/components/RecipeDetails.jsx:270 | The left-to-right scan returns a split of the text in the sense of `IsSplit`: pieces alternating with markers spell the text; no piece holds a digit followed by a dot; a piece followed by a marker does not end in a digit, so each match is the leftmost one; and the text after a marker does not start with whitespace, so each match is the longest one. |
| RecipeDetails.ScanStep | src/components/RecipeDetails.jsx:270 | At the first match, the piece before it and the match go in front of the split of the text after the match, and the result is a split of the whole. |
| RecipeDetails.ConsSplit | src/components/RecipeDetails.jsx:270 | A piece without digit-dot that does not end in a digit, a marker, and a split of text that does not start with whitespace form a split of their concatenation. |
| RecipeDetails.SplitHasNoNumberDots | src/components/RecipeDetails.jsx:270 | No piece of a split holds a digit followed by a dot. |
| RecipeDetails.SplitIsUnique | src/components/RecipeDetails.jsx:270 | Two splits of the same text have the same pieces and the same markers. |
| RecipeDetails.SplitOnMarkersIsTheSplit | src/components/RecipeDetails.jsx:270 | Any pieces that form a split of the text are exactly what `split` returns. |
| RecipeDetails.SplitExample | src/components/RecipeDetails.jsx:270 | "1. Mix 2. Bake" splits into "", "Mix " and "Bake". |
| RecipeDetails.SplitOnMarkers | src/components/RecipeDetails.jsx:270 | The result has at least one piece, it is the piece list of a split of the text in the sense of `IsSplit` (see `RecipeDetails.Scan`), and no piece holds a digit followed by a dot. |
| RecipeDetails.NoMarkerNoNumberDot | src/components/RecipeDetails.jsx:270 | A stretch of text in which no marker starts holds no digit followed by a dot. |
| RecipeDetails.PieceBeforeMarker | src/components/RecipeDetails.jsx:270 | The text before the first match does not end in a digit. |
| RecipeDetails.DigitExtendsMatch | src/components/RecipeDetails.jsx:270 | A digit just before a match starts a match itself. |
| RecipeDetails.DigitDotStartsMarker | src/components/RecipeDetails.jsx:270 | A digit followed by a dot always begins a marker match. |
| RecipeDetails.SentenceSteps | src/components/RecipeDetails.jsx:271-276 | The fallback steps are the pieces of the split on ".", trimmed, with the empty ones left out: each non-empty trimmed piece is a step as often as it occurs, nothing else is, and the steps keep the order of the pieces. Each step is non-blank, holds no full stop, and has no leading or trailing whitespace. |
| RecipeDetails.NumberedSteps | src/components/RecipeDetails.jsx:270 | The numbered steps are the pieces of the marker split that are not whitespace-only: each such piece is a step as often as it occurs, nothing else is, and the steps keep the order of the pieces. No step holds a digit followed by a dot. |
| RecipeDetails.FormatInstructions | src/components/RecipeDetails.jsx:268-278 | Missing or empty instructions give no steps, and no step is ever blank. With at least two numbered steps those are the steps. Otherwise the steps are the fallback split on full stops, each a trimmed, dot-free sentence. |
| RecipeDetails.FormatNumberedExample | src/components/RecipeDetails.jsx:268-278 | "1. Mix 2. Bake" gives the steps "Mix " and "Bake". |
| RecipeDetails.FormatSentenceExample | src/components/RecipeDetails.jsx:268-278 | "ab" gives the single step "ab". |
| Text.SkipSpaces | src/components/RecipeMatcher.jsx:50 | The scan for the start of the trimmed text passes only whitespace and stops at the first non-whitespace character or at the end. |
| Text.SkipSpacesBack | src/components/RecipeDetails.jsx:274 | The scan for the end of the trimmed text passes only whitespace, backwards, and stops just after the last non-whitespace character or at the start. |
| Text.Trim | src/components/RecipeMatcher.jsx:50 | The result is what is left of the input after a whitespace-only prefix and a whitespace-only suffix are removed, and it neither starts nor ends with whitespace, so exactly the leading and trailing whitespace goes. It is empty exactly for whitespace-only input. |
| Text.ContainsIffOccurs | src/components/LikedRecipes.jsx:102 | `includes` holds exactly when the term occurs at some position of the text. |
| Text.ContainsEmpty | src/components/LikedRecipes.jsx:100 | Every text contains the empty term. |
| Text.NatToString | src/components/LikedRecipes.jsx:134 | A rendered number is a non-empty run of digits with no leading zero. |
| Text.NatToStringRoundTrip | src/components/LikedRecipes.jsx:398 | Reading a rendered number's digits gives the number back. |
| Text.IndexOfFirst | src/components/RecipeDetails.jsx:273 | The index found is the first occurrence of the separator. |
| Text.SplitOn | src/components/RecipeDetails.jsx:273 | Splitting on a character gives at least one piece, and no piece contains the separator. |
| Text.JoinSplit | src/components/RecipeDetails.jsx:272-273 | Joining the pieces of a split with the separator gives the text back. |
| Text.SplitJoin | src/components/RecipeDetails.jsx:272-273 | Splitting a join of separator-free pieces gives the pieces back. |
| Text.CompareStrings | src/components/LikedRecipes.jsx:113 | The comparison returns -1, 0 or 1, and 0 exactly for equal titles; titles are ordered by code point. |
| Text.CompareStringsAntisymmetric | src/components/LikedRecipes.jsx:113 | Swapping the two titles negates the comparison. |
| Text.CompareStringsTransitive | src/components/LikedRecipes.jsx:113 | Title order is transitive. |
| Seqs.Filter | src/components/RecipeMatcher.jsx:104 | An element is kept exactly when it is present and passes the test, and a passing element is kept as often as it occurs. No other element is kept. |
| Seqs.FilterIsSubsequence | src/components/RecipeMatcher.jsx:104 | The kept elements are a subsequence of the input: they keep their order. |
| Seqs.FilterCons | src/components/RecipeMatcher.jsx:104 | The first element is kept exactly when it passes, in front of the filtered rest. |
| Seqs.FilterAppend | src/components/RecipeMatcher.jsx:104 | Filtering distributes over concatenation, so kept elements keep their relative order. |
| Seqs.FilterSnoc | src/components/RecipeMatcher.jsx:104 | The last element is kept exactly when it passes, behind the filtered rest. |
| Seqs.FilterSwapLast | src/components/LikedRecipes.jsx:110-125 | Two trailing elements that do not both pass may trade places without changing what the filter keeps. |
| Seqs.FilterKeepsAll | src/components/RecipeMatcher.jsx:104 | A filter returns its input unchanged exactly when every element passes. |

## Left out

- Everything outside the three screens' handlers is not part of this model:
  - the home page, the login form, the pantry list and form components;
  - `src/api/*`, `App.jsx` and routing;
  - the UI-state context (saved scroll position, search term and sort key);
  - styling.
- Local storage, the bearer token, navigation and logout are left out, and so
  are the loading flags and console logging. None of them affects the modelled
  state.
- Concurrency is left out. Each request and its reply form one atomic
  transition; a reply that overtakes a later action is not modelled.
- The fetch on the details screen (`fetchRecipe`) is a plain load-and-set,
  and the model starts from the recipe it delivers.
- The matched-ingredient details a matching reply may carry are not modelled.
  Neither is the server's matching algorithm.
- `Date.now()` ids are supplied by the caller. Two adds in the same
  millisecond could share an id; `RecipeMatcher.RemoveIngredient` then
  removes both, as the source's filter does.
- RecipeMatcher.AddIngredient: the quantity field is taken to hold a parsed
  number or nothing, as a browser number input delivers. `parseFloat` of
  arbitrary text, whose NaN would slip past the `qty <= 0` guard, is not
  modelled. Quantities are exact reals, not IEEE doubles.
- LikedRecipes.SortRecipes: titles are ordered by code point instead of
  by `localeCompare`'s locale collation.
- Text.CompareStrings: a Dafny `char` is a Unicode code point, so strings
  are compared by code point, whereas JavaScript strings hold UTF-16 code
  units; `Text.Lower`, `Text.Contains` and `Text.Trim` likewise work on code
  points. The two agree on text inside the Basic Multilingual Plane.
- LikedRecipes.Search: lower-casing covers ASCII letters only; JavaScript's
  full Unicode case mapping is not modelled.
- LikedRecipes.Truncate: lengths count characters, whereas JavaScript counts
  UTF-16 code units. The two differ only for characters outside the Basic
  Multilingual Plane.
- PrepTime.Format: a negative time renders as "-m min", as the template
  literal would. Non-integer times are not modelled because the record's
  `prepTime` is an integer. The round-trip lemmas cover positive times only.
  Minutes are unbounded integers, whereas JavaScript numbers are doubles:
  they are exact only below 2^53, and from 10^21 on `${minutes}` and
  `${hours}` render in exponent notation ("1e+21"), so labels of such huge
  times differ from `NatToString`'s digits.
- LikedRecipes.IngredientSection: the chip text (quantity, unit, name) is
  left out; the model keeps the ingredient records the chips show.
