/** The data that the recipe-generation flow hands to the page: the recipe
    record (the flow's output schema) and the ways the hosted call can end. */
module RecipeFlow {

  /** A value that may be absent; `None` plays the part of JavaScript's `null`. */
  datatype Option<+T> = None | Some(value: T)

  /** `GenerateRecipeOutput`: a recipe name, the ingredients it needs, in order,
      and free-text instructions. Two recipes are "the same favourite" when
      their `recipeName`s agree; the other fields play no part in identity. */
  datatype Recipe = Recipe(recipeName: string, ingredients: seq<string>, instructions: string)

  /** How one call of `generateRecipe` ends, as the page observes it.
      `Rejected`: the promise rejects (transport failure or a response the
      output schema refuses), so the awaiting handler stops before it stores
      anything. `Resolved(output)`: the flow returns the prompt's `output`.
      The trailing `!` on it is a type-level assertion with no run-time check;
      whether the library's output schema already rejects an absent output is
      not visible here, so `Resolved(None)` is allowed as well, and no property
      depends on whether it occurs. */
  datatype FlowReply = Rejected | Resolved(output: Option<Recipe>)
}
