/** The recipe records the server sends, as the components read them. */
module Recipes {
  import opened Wrappers

  /** One ingredient line of a recipe. The name may be missing. */
  datatype RecipeIngredient = RecipeIngredient(
    id: int,
    name: Option<string>,
    quantity: real,
    unit: string)

  /** A recipe. The ingredient list, preparation time (minutes) and
      instructions may each be missing. */
  datatype Recipe = Recipe(
    id: int,
    title: string,
    ingredients: Option<seq<RecipeIngredient>>,
    prepTime: Option<int>,
    instructions: Option<string>)
}
