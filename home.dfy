/** The state of the home page component and the handlers that replace it.
    Each field is one of the component's state cells; each handler calls the
    cell's setter, which here is an assignment to the field. */
module HomePage {
  import opened RecipeFlow
  import opened Favorites

  class Home {
    /** The text of the ingredient input box. */
    var ingredients: string
    /** The recipe on display, if any. */
    var recipe: Option<Recipe>
    /** The saved favourites, in the order they were saved. */
    var favoriteRecipes: seq<Recipe>

    /** What every handler keeps: no two favourites share a name. */
    ghost predicate Valid()
      reads this
    {
      DistinctNames(favoriteRecipes)
    }

    /** A fresh page: empty input, nothing on display, no favourites. */
    constructor ()
      ensures Valid()
      ensures ingredients == "" && recipe == None && favoriteRecipes == []
    {
      ingredients := "";
      recipe := None;
      favoriteRecipes := [];
    }

    /** The input box's change handler stores what the user typed. */
    method SetIngredients(text: string)
      modifies this`ingredients
      ensures ingredients == text
    {
      ingredients := text;
    }

    /** Whether the recipe on display is among the favourites; false when
        nothing is on display. It decides the favourite button's label. */
    function IsFavorite(): (b: bool)
      reads this
      ensures b <==> (recipe.Some? &&
                      exists i :: 0 <= i < |favoriteRecipes| &&
                        favoriteRecipes[i].recipeName == recipe.value.recipeName)
    {
      recipe.Some? && HasName(favoriteRecipes, recipe.value.recipeName)
    }

    /** The generate button's handler. With an empty input it does nothing
        and the flow is never called. Otherwise the flow `generate` is called
        on the input: if it rejects, nothing is stored; if it resolves, its
        output becomes the recipe on display. Favourites are not touched. */
    method HandleGenerateRecipe(generate: string -> FlowReply) returns (invoked: bool)
      requires Valid()
      modifies this`recipe
      ensures Valid()
      ensures invoked <==> ingredients != ""
      ensures !invoked ==> recipe == old(recipe)
      ensures invoked ==> recipe == match generate(ingredients)
                                    case Rejected => old(recipe)
                                    case Resolved(output) => output
    {
      invoked := ingredients != "";
      if invoked {
        var reply := generate(ingredients);
        match reply {
          case Rejected =>
          case Resolved(output) => recipe := output;
        }
      }
    }

    /** The favourite button's handler. With nothing on display it does
        nothing; otherwise the favourites become the toggle of the old list
        with the recipe on display, so that recipe's saved status flips and
        names stay distinct. */
    method HandleAddToFavorites()
      requires Valid()
      modifies this`favoriteRecipes
      ensures Valid()
      ensures recipe.None? ==> favoriteRecipes == old(favoriteRecipes)
      ensures recipe.Some? ==> favoriteRecipes == Toggle(old(favoriteRecipes), recipe.value)
      ensures recipe.Some? ==> IsFavorite() == !old(IsFavorite())
    {
      if recipe.Some? {
        ToggleKeepsDistinct(favoriteRecipes, recipe.value);
        favoriteRecipes := Toggle(favoriteRecipes, recipe.value);
      }
    }
  }
}
