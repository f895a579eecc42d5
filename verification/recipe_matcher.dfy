/**
 * The recipe-matcher screen: an editable list of pantry ingredients, and the
 * matched recipes fetched for it page by page.
 *
 * Every handler is a pure transition from one screen state to the next.
 * The server's reply to a request is a parameter of the transition, and the
 * identifier the screen would take from the clock is supplied by the caller.
 */
module RecipeMatcher {
  import opened Wrappers
  import opened Text
  import opened Recipes
  import Seqs

  /** The options of the unit selector. */
  datatype Unit = Pcs | G | Kg | Ml | L | Tbsp

  /** One entry of the ingredient list. */
  datatype Ingredient = Ingredient(name: string, quantity: real, unit: Unit, id: int)

  /** The screen's state: the three input fields (the quantity field holds
      the number typed, `None` when the field is empty), the ingredient list,
      the accumulated recipes, the continuation token, and the informational
      and error messages. */
  datatype State = State(
    nameField: string,
    qtyField: Option<real>,
    unitField: Unit,
    ingredients: seq<Ingredient>,
    recipes: seq<Recipe>,
    token: Option<string>,
    message: string,
    error: string)

  /** The state the screen mounts with. */
  const Initial := State("", None, Pcs, [], [], None, "", "")

  const NameRequired := "Ingredient name is required"
  const QuantityRequired := "Quantity must be greater than 0"
  const NeedIngredients := "Add at least one ingredient"
  const NoRecipes := "No recipes found"
  const FetchFailed := "Failed to fetch recipes"
  const LoadMoreFailed := "Failed to load more recipes"

  // ----- the ingredient list -----

  /** The merge key of `add`: the untrimmed name together with the unit. */
  predicate SameKey(ing: Ingredient, name: string, unit: Unit) {
    ing.name == name && ing.unit == unit
  }

  predicate HasKey(list: seq<Ingredient>, name: string, unit: Unit) {
    exists i :: 0 <= i < |list| && SameKey(list[i], name, unit)
  }

  predicate HasName(list: seq<Ingredient>, name: string) {
    exists i :: 0 <= i < |list| && list[i].name == name
  }

  /** No two entries share a (name, unit) key. */
  predicate KeysUnique(list: seq<Ingredient>) {
    forall i, j :: 0 <= i < j < |list| ==> !SameKey(list[j], list[i].name, list[i].unit)
  }

  /** The total quantity listed under one key. */
  function Amount(list: seq<Ingredient>, name: string, unit: Unit): real {
    if |list| == 0 then 0.0
    else (if SameKey(list[0], name, unit) then list[0].quantity else 0.0) + Amount(list[1..], name, unit)
  }

  /** Adds `q` to the quantity of every entry `hit` selects (the source's
      `prev.map(ing => match ? {...ing, quantity: ing.quantity + q} : ing)`). */
  function Bump(list: seq<Ingredient>, hit: Ingredient -> bool, q: real): seq<Ingredient> {
    seq(|list|, i requires 0 <= i < |list| =>
      if hit(list[i]) then list[i].(quantity := list[i].quantity + q) else list[i])
  }

  predicate PositiveQuantity(q: Option<real>) {
    q.Some? && q.value > 0.0
  }

  /** The add button. A blank name, then an empty or non-positive quantity,
      is refused with an error and nothing else changes. Otherwise the typed
      amount is summed into every entry with the same (name, unit), or a new
      entry with the caller's `id` is appended when there is none; the error
      is cleared and the fields are reset to "", empty and pcs. */
  function AddIngredient(st: State, id: int): (r: State)
    ensures IsBlank(st.nameField) ==> r == st.(error := NameRequired)
    ensures !IsBlank(st.nameField) && !PositiveQuantity(st.qtyField) ==>
              r == st.(error := QuantityRequired)
    ensures !IsBlank(st.nameField) && PositiveQuantity(st.qtyField) ==>
              && r == st.(nameField := "", qtyField := None, unitField := Pcs, error := "",
                          ingredients := r.ingredients)
              && (HasKey(st.ingredients, st.nameField, st.unitField) ==>
                    && |r.ingredients| == |st.ingredients|
                    && forall i :: 0 <= i < |st.ingredients| ==>
                         var entry := st.ingredients[i];
                         && r.ingredients[i].(quantity := entry.quantity) == entry
                         && r.ingredients[i].quantity ==
                              entry.quantity + (if SameKey(entry, st.nameField, st.unitField)
                                               then st.qtyField.value else 0.0))
              && (!HasKey(st.ingredients, st.nameField, st.unitField) ==>
                    r.ingredients ==
                      st.ingredients + [Ingredient(st.nameField, st.qtyField.value, st.unitField, id)])
  {
    if Trim(st.nameField) == [] then st.(error := NameRequired)
    else if st.qtyField.None? || st.qtyField.value <= 0.0 then st.(error := QuantityRequired)
    else
      var name, q, unit := st.nameField, st.qtyField.value, st.unitField;
      var list :=
        if HasKey(st.ingredients, name, unit) then Bump(st.ingredients, (ing: Ingredient) => SameKey(ing, name, unit), q)
        else st.ingredients + [Ingredient(name, q, unit, id)];
      st.(ingredients := list, error := "", nameField := "", qtyField := None, unitField := Pcs)
  }

  /** A quick-add chip: one more piece of `name`. Every entry called `name`
      gains 1 whatever its unit; when there is none, {name, 1, pcs} with the
      caller's `id` is appended. Nothing but the list changes. */
  function QuickAdd(st: State, name: string, id: int): (r: State)
    ensures r == st.(ingredients := r.ingredients)
    ensures HasName(st.ingredients, name) ==>
              && |r.ingredients| == |st.ingredients|
              && forall i :: 0 <= i < |st.ingredients| ==>
                   var entry := st.ingredients[i];
                   && r.ingredients[i].(quantity := entry.quantity) == entry
                   && r.ingredients[i].quantity == entry.quantity + (if entry.name == name then 1.0 else 0.0)
    ensures !HasName(st.ingredients, name) ==>
              r.ingredients == st.ingredients + [Ingredient(name, 1.0, Pcs, id)]
  {
    var list :=
      if HasName(st.ingredients, name) then Bump(st.ingredients, (ing: Ingredient) => ing.name == name, 1.0)
      else st.ingredients + [Ingredient(name, 1.0, Pcs, id)];
    st.(ingredients := list)
  }

  /** The trash button of one entry: every entry carrying `id` goes, every
      other entry stays as often as it was there and in the order it had
      (see also `RemoveAppend`); nothing else changes. */
  function RemoveIngredient(st: State, id: int): (r: State)
    ensures r == st.(ingredients := r.ingredients)
    ensures forall x :: x in r.ingredients <==> x in st.ingredients && x.id != id
    ensures forall x :: multiset(r.ingredients)[x] == if x.id != id then multiset(st.ingredients)[x] else 0
    ensures Seqs.IsSubsequence(r.ingredients, st.ingredients)
    ensures (forall i :: 0 <= i < |st.ingredients| ==> st.ingredients[i].id != id) ==>
              r.ingredients == st.ingredients
  {
    var keep := (ing: Ingredient) => ing.id != id;
    Seqs.FilterKeepsAll(keep, st.ingredients);
    Seqs.FilterIsSubsequence(keep, st.ingredients);
    st.(ingredients := Seqs.Filter(keep, st.ingredients))
  }

  /** Removal works part by part: removing from a list split in two is
      removing from each part and putting them back together, so the
      remaining entries keep their relative order. */
  lemma RemoveAppend(st: State, a: seq<Ingredient>, b: seq<Ingredient>, id: int)
    ensures RemoveIngredient(st.(ingredients := a + b), id).ingredients ==
            RemoveIngredient(st.(ingredients := a), id).ingredients +
            RemoveIngredient(st.(ingredients := b), id).ingredients
  {
    Seqs.FilterAppend((ing: Ingredient) => ing.id != id, a, b);
  }

  /** The clear button. */
  function ClearIngredients(st: State): (r: State)
    ensures r.ingredients == []
    ensures r == st.(ingredients := [])
  {
    st.(ingredients := [])
  }

  // ----- facts about the ingredient list -----

  lemma {:induction false} AmountAppend(list: seq<Ingredient>, x: Ingredient, name: string, unit: Unit)
    ensures Amount(list + [x], name, unit) ==
            Amount(list, name, unit) + (if SameKey(x, name, unit) then x.quantity else 0.0)
    decreases |list|
  {
    if |list| == 0 {
      assert (list + [x])[1..] == [];
    } else {
      assert (list + [x])[1..] == list[1..] + [x];
      AmountAppend(list[1..], x, name, unit);
    }
  }

  /** With no entry under a key, its amount is zero. */
  lemma {:induction false} AmountAbsent(list: seq<Ingredient>, name: string, unit: Unit)
    requires !HasKey(list, name, unit)
    ensures Amount(list, name, unit) == 0.0
    decreases |list|
  {
    if |list| > 0 {
      assert !HasKey(list[1..], name, unit) by {
        forall i | 0 <= i < |list| - 1
          ensures !SameKey(list[1..][i], name, unit)
        {
          assert list[1..][i] == list[i + 1];
        }
      }
      AmountAbsent(list[1..], name, unit);
    }
  }

  /** Bumping the entries under one key of a list with unique keys adds `q`
      to that key's amount and leaves every other key's amount alone. */
  lemma {:induction false} AmountBump(list: seq<Ingredient>, name: string, unit: Unit, q: real,
                                      name': string, unit': Unit)
    requires KeysUnique(list)
    ensures Amount(Bump(list, (ing: Ingredient) => SameKey(ing, name, unit), q), name', unit') ==
            Amount(list, name', unit') +
              (if name' == name && unit' == unit && HasKey(list, name, unit) then q else 0.0)
    decreases |list|
  {
    var hit := (ing: Ingredient) => SameKey(ing, name, unit);
    if |list| > 0 {
      var b := Bump(list, hit, q);
      assert b[1..] == Bump(list[1..], hit, q);
      KeysUniqueTail(list);
      AmountBump(list[1..], name, unit, q, name', unit');
      HasKeyCons(list, name, unit);
      if hit(list[0]) {
        UniqueHeadKey(list);
      }
    }
  }

  /** A list has a key when its head or its tail has it. */
  lemma HasKeyCons(list: seq<Ingredient>, name: string, unit: Unit)
    requires |list| > 0
    ensures HasKey(list, name, unit) <==> SameKey(list[0], name, unit) || HasKey(list[1..], name, unit)
  {
    if HasKey(list, name, unit) && !SameKey(list[0], name, unit) {
      var i :| 0 <= i < |list| && SameKey(list[i], name, unit);
      assert list[1..][i - 1] == list[i];
    }
    if HasKey(list[1..], name, unit) {
      var i :| 0 <= i < |list| - 1 && SameKey(list[1..][i], name, unit);
      assert list[i + 1] == list[1..][i];
    }
  }

  /** With unique keys the head's key does not occur in the tail. */
  lemma UniqueHeadKey(list: seq<Ingredient>)
    requires |list| > 0 && KeysUnique(list)
    ensures !HasKey(list[1..], list[0].name, list[0].unit)
  {
    forall i | 0 <= i < |list| - 1
      ensures !SameKey(list[1..][i], list[0].name, list[0].unit)
    {
      assert list[1..][i] == list[i + 1];
    }
  }

  /** Adding never creates a second entry under a key. */
  lemma AddKeepsKeysUnique(st: State, id: int)
    requires KeysUnique(st.ingredients)
    ensures KeysUnique(AddIngredient(st, id).ingredients)
  {
  }

  /** Quick-add never creates a second entry under a key. */
  lemma QuickAddKeepsKeysUnique(st: State, name: string, id: int)
    requires KeysUnique(st.ingredients)
    ensures KeysUnique(QuickAdd(st, name, id).ingredients)
  {
    if !HasName(st.ingredients, name) {
      var r := QuickAdd(st, name, id).ingredients;
      forall i, j | 0 <= i < j < |r|
        ensures !SameKey(r[j], r[i].name, r[i].unit)
      {
        if j == |r| - 1 {
          assert r[i] == st.ingredients[i];
        }
      }
    }
  }

  /** Removing never creates a second entry under a key. */
  lemma {:induction false} FilterKeepsKeysUnique(list: seq<Ingredient>, id: int)
    requires KeysUnique(list)
    ensures KeysUnique(Seqs.Filter((ing: Ingredient) => ing.id != id, list))
    decreases |list|
  {
    var keep := (ing: Ingredient) => ing.id != id;
    if |list| > 0 {
      KeysUniqueTail(list);
      FilterKeepsKeysUnique(list[1..], id);
      var rest := Seqs.Filter(keep, list[1..]);
      if keep(list[0]) {
        forall k | 0 <= k < |rest|
          ensures !SameKey(rest[k], list[0].name, list[0].unit)
        {
          assert rest[k] in list[1..];
        }
        KeysUniqueCons(list[0], rest);
      }
    }
  }

  lemma KeysUniqueTail(list: seq<Ingredient>)
    requires |list| > 0 && KeysUnique(list)
    ensures KeysUnique(list[1..])
  {
    forall i, j | 0 <= i < j < |list| - 1
      ensures !SameKey(list[1..][j], list[1..][i].name, list[1..][i].unit)
    {
      assert list[1..][i] == list[i + 1] && list[1..][j] == list[j + 1];
    }
  }

  lemma KeysUniqueCons(x: Ingredient, rest: seq<Ingredient>)
    requires KeysUnique(rest)
    requires forall k :: 0 <= k < |rest| ==> !SameKey(rest[k], x.name, x.unit)
    ensures KeysUnique([x] + rest)
  {
    var r := [x] + rest;
    forall i, j | 0 <= i < j < |r|
      ensures !SameKey(r[j], r[i].name, r[i].unit)
    {
      assert r[j] == rest[j - 1];
      if i > 0 {
        assert r[i] == rest[i - 1];
      }
    }
  }

  lemma RemoveKeepsKeysUnique(st: State, id: int)
    requires KeysUnique(st.ingredients)
    ensures KeysUnique(RemoveIngredient(st, id).ingredients)
  {
    FilterKeepsKeysUnique(st.ingredients, id);
  }

  /** On a list with unique keys, a successful add raises the amount under
      the typed key by exactly the typed quantity (whether it merged or
      appended) and leaves every other key's amount unchanged. */
  lemma AddAmount(st: State, id: int, name: string, unit: Unit)
    requires KeysUnique(st.ingredients)
    requires !IsBlank(st.nameField) && PositiveQuantity(st.qtyField)
    ensures Amount(AddIngredient(st, id).ingredients, name, unit) ==
            Amount(st.ingredients, name, unit) +
              (if name == st.nameField && unit == st.unitField then st.qtyField.value else 0.0)
  {
    var n, q, u := st.nameField, st.qtyField.value, st.unitField;
    if HasKey(st.ingredients, n, u) {
      AmountBump(st.ingredients, n, u, q, name, unit);
    } else {
      AmountAppend(st.ingredients, Ingredient(n, q, u, id), name, unit);
    }
  }

  /** Adding the same (name, unit) twice to a list without it yields one
      entry holding the sum (adding ("tomato", 2, pcs) then ("tomato", 3, pcs)
      gives a single tomato entry of 5). */
  lemma AddTwiceMerges(st: State, name: string, unit: Unit, q1: real, q2: real, id1: int, id2: int)
    requires !IsBlank(name) && q1 > 0.0 && q2 > 0.0
    requires !HasKey(st.ingredients, name, unit)
    ensures
      var s1 := AddIngredient(st.(nameField := name, qtyField := Some(q1), unitField := unit), id1);
      var s2 := AddIngredient(s1.(nameField := name, qtyField := Some(q2), unitField := unit), id2);
      s2.ingredients == st.ingredients + [Ingredient(name, q1 + q2, unit, id1)]
  {
    var list, added := st.ingredients, Ingredient(name, q1, unit, id1);
    var s1 := AddIngredient(st.(nameField := name, qtyField := Some(q1), unitField := unit), id1);
    assert s1.ingredients == list + [added];
    assert SameKey(s1.ingredients[|list|], name, unit);
    var r := AddIngredient(s1.(nameField := name, qtyField := Some(q2), unitField := unit), id2).ingredients;
    var expected := list + [Ingredient(name, q1 + q2, unit, id1)];
    assert |r| == |expected|;
    forall i | 0 <= i < |r|
      ensures r[i] == expected[i]
    {
      if i < |list| {
        assert !SameKey(list[i], name, unit);
      }
    }
  }

  /** Two quick-adds of a name not in the list yield one entry {name, 2, pcs}. */
  lemma QuickAddTwice(st: State, name: string, id1: int, id2: int)
    requires !HasName(st.ingredients, name)
    ensures QuickAdd(QuickAdd(st, name, id1), name, id2).ingredients ==
            st.ingredients + [Ingredient(name, 2.0, Pcs, id1)]
  {
    var s1 := QuickAdd(st, name, id1);
    assert s1.ingredients[|st.ingredients|].name == name;
  }

  /** Removing the identifier of an entry that was just appended under a
      fresh identifier undoes the add. */
  lemma RemoveUndoesFreshAdd(st: State, id: int)
    requires !IsBlank(st.nameField) && PositiveQuantity(st.qtyField)
    requires !HasKey(st.ingredients, st.nameField, st.unitField)
    requires forall i :: 0 <= i < |st.ingredients| ==> st.ingredients[i].id != id
    ensures RemoveIngredient(AddIngredient(st, id), id).ingredients == st.ingredients
  {
    var s1 := AddIngredient(st, id);
    var keep := (ing: Ingredient) => ing.id != id;
    var added := Ingredient(st.nameField, st.qtyField.value, st.unitField, id);
    Seqs.FilterAppend(keep, st.ingredients, [added]);
    Seqs.FilterKeepsAll(keep, st.ingredients);
    assert Seqs.Filter(keep, [added]) == [];
  }

  // ----- matching recipes -----

  /** The server's reply to the matching request: a page with an optional
      continuation token and optional recipe list, or a failure (transport
      error, non-2xx status or unreadable body). */
  datatype FindReply = Found(token: Option<string>, recipes: Option<seq<Recipe>>) | FindFailed

  /** The server's reply to a next-page request. */
  datatype MoreReply = MoreFound(recipes: Option<seq<Recipe>>) | MoreFailed

  /** The body of the matching request, or `None` when the handler refuses
      to send one. */
  function FindRequest(st: State): (body: Option<seq<Ingredient>>)
    ensures body.None? <==> |st.ingredients| == 0
    ensures body.Some? ==> body.value == st.ingredients
  {
    if |st.ingredients| == 0 then None else Some(st.ingredients)
  }

  /** The state while the matching request is in flight: earlier results,
      token and message are cleared, nothing else changes. */
  function BeginFind(st: State): (r: State)
    requires |st.ingredients| > 0
    ensures r.recipes == [] && r.token.None? && r.message == ""
    ensures r == st.(recipes := [], token := None, message := "")
  {
    st.(recipes := [], token := None, message := "")
  }

  /** The find-recipes button. With an empty list only the message changes
      and no request is sent (`reply` is ignored). Otherwise the reply
      decides: a page replaces the results and token, with "No recipes
      found" exactly when the page is empty or missing; a failure leaves the
      results cleared and reports it. The list, fields and error never
      change. */
  function FindRecipes(st: State, reply: FindReply): (r: State)
    ensures |st.ingredients| == 0 ==> r == st.(message := NeedIngredients)
    ensures |st.ingredients| > 0 ==>
              r == st.(recipes := r.recipes, token := r.token, message := r.message)
    ensures |st.ingredients| > 0 && reply.Found? ==>
              && r.recipes == reply.recipes.GetOr([])
              && r.token == reply.token
              && (r.message == NoRecipes <==> |r.recipes| == 0)
              && (|r.recipes| > 0 ==> r.message == "")
    ensures |st.ingredients| > 0 && reply.FindFailed? ==>
              r.recipes == [] && r.token.None? && r.message == FetchFailed
  {
    match FindRequest(st)
    case None => st.(message := NeedIngredients)
    case Some(_) =>
      var pending := BeginFind(st);
      match reply
      case FindFailed => pending.(message := FetchFailed)
      case Found(token, page) =>
        var recipes := page.GetOr([]);
        pending.(token := token, recipes := recipes,
                 message := if |recipes| == 0 then NoRecipes else pending.message)
  }

  /** A token the load-more handler accepts: present and non-empty (the
      source's `if (!token) return`). */
  predicate HasToken(st: State) {
    st.token.Some? && st.token.value != ""
  }

  /** The token of the next-page request, or `None` when none is sent. */
  function LoadMoreRequest(st: State): (t: Option<string>)
    ensures t.None? <==> !HasToken(st)
    ensures t.Some? ==> st.token == t && t.value != ""
  {
    if HasToken(st) then st.token else None
  }

  /** The load-more button. Without a usable token nothing changes. A page
      is appended after the recipes already shown, without removing
      repeats; the token is kept for the next call. A failure keeps the
      recipes and reports it. */
  function LoadMore(st: State, reply: MoreReply): (r: State)
    ensures !HasToken(st) ==> r == st
    ensures HasToken(st) && reply.MoreFound? ==>
              && r == st.(recipes := r.recipes)
              && st.recipes <= r.recipes
              && r.recipes[|st.recipes|..] == reply.recipes.GetOr([])
    ensures HasToken(st) && reply.MoreFailed? ==> r == st.(message := LoadMoreFailed)
  {
    match LoadMoreRequest(st)
    case None => st
    case Some(_) =>
      match reply
      case MoreFailed => st.(message := LoadMoreFailed)
      case MoreFound(page) => st.(recipes := st.recipes + page.GetOr([]))
  }

  /** A search does not depend on what the screen showed before it: two
      states that differ only in earlier results, token and message end in
      the same state. */
  lemma FindForgetsEarlierResults(st1: State, st2: State, reply: FindReply)
    requires |st1.ingredients| > 0
    requires st2 == st1.(recipes := st2.recipes, token := st2.token, message := st2.message)
    ensures FindRecipes(st1, reply) == FindRecipes(st2, reply)
  {
  }

  /** A successful search followed by successful next pages shows the first
      page followed by the later ones, in order. */
  lemma FindThenLoadMoreAppends(st: State, t: string, page1: seq<Recipe>, page2: seq<Recipe>,
                                page3: seq<Recipe>)
    requires |st.ingredients| > 0 && t != ""
    ensures
      var s1 := FindRecipes(st, Found(Some(t), Some(page1)));
      var s2 := LoadMore(s1, MoreFound(Some(page2)));
      var s3 := LoadMore(s2, MoreFound(Some(page3)));
      s3.recipes == page1 + page2 + page3 && s3.token == Some(t) && s3.ingredients == st.ingredients
  {
    var s1 := FindRecipes(st, Found(Some(t), Some(page1)));
    var s2 := LoadMore(s1, MoreFound(Some(page2)));
    var s3 := LoadMore(s2, MoreFound(Some(page3)));
    assert s2.recipes == page1 + page2;
    assert s3.recipes == s2.recipes + page3;
  }

  /** Load-more never loses a recipe already shown, whatever the reply. */
  lemma LoadMoreKeepsShown(st: State, reply: MoreReply)
    ensures st.recipes <= LoadMore(st, reply).recipes
  {
  }
}
