# Fridge Feast favourites, in Dafny

A model of the client-side bookkeeping of the "Fridge Feast" recipe page. The user types a
comma-separated ingredient list. A hosted language model, reached through a typed prompt flow,
turns it into a recipe: a name, an ordered ingredient list and instructions. The user can then
save or unsave that recipe in a favourites list. A favourite is identified by its recipe name
alone.

- `recipe.dfy`, module `RecipeFlow`: the recipe record (the flow's output type) and `FlowReply`,
  the two ways a call of the flow can end as the page sees it. A call either rejects, or
  resolves with an output that may be absent.
- `favorites.dfy`, module `Favorites`: the favourites updater as pure functions on
  `seq<Recipe>`. `HasName` is the `some` test, `RemoveNamed` is the `filter`, and `Toggle` is
  the updater itself. The module also holds the lemmas about them: membership flips, distinct
  names are preserved, toggling twice restores the list, and removal keeps the order and
  multiplicity of the other entries.
- `home.dfy`, module `HomePage`: class `Home` holds the page's three state cells (`ingredients`,
  `recipe`, `favoriteRecipes`). Its methods are the handlers that replace those cells through
  their setters. `Valid()` is the invariant the handlers keep: favourites have distinct names.

The hosted model call is a parameter of `HandleGenerateRecipe`: a function
`generate: string -> FlowReply`. The method also returns whether the flow was invoked at all.

Two behaviours of the code are worth stating outright:
- Malformed stored favourites are not reset: `JSON.parse` at `src/app/page.tsx:19` has no error
  handling, and storage is not modelled.
- The output schema only requires strings (`src/ai/flows/generate-recipe.ts:19-23`), so `Recipe`
  allows an empty name and empty instructions.

## Model

| member | source | states |
|---|---|---|
| `Favorites.HasName` | src/app/page.tsx:38 | true exactly when some favourite's name equals the given name |
| `Favorites.RemoveNamed` | src/app/page.tsx:41 | the result is no longer than the input, holds no entry with the name, and holds exactly the input's entries whose name differs |
| `Favorites.Toggle` | src/app/page.tsx:37-46 | after the update, "some favourite has the recipe's name" is the negation of what it was before |
| `Favorites.RemoveNamedCounts` | src/app/page.tsx:41 | removal keeps each entry with a different name as many times as the list held it, and drops every entry with the name |
| `Favorites.RemoveNamedKeepsOrder` | src/app/page.tsx:41 | the kept entries form a subsequence of the old list, so their relative order is unchanged |
| `Favorites.RemoveNamedAppend` | src/app/page.tsx:41 | removing from a concatenation equals concatenating the removals, so each entry is judged on its own, in place |
| `Favorites.RemoveNamedUnchanged` | src/app/page.tsx:41 | removal leaves the list equal to itself if and only if no entry has the name |
| `Favorites.RemoveNamedShrinks` | src/app/page.tsx:38-41 | when some entry has the name, removal makes the list strictly shorter |
| `Favorites.RemoveNamedKeepsDistinct` | src/app/page.tsx:41 | removal keeps a distinct-names list free of repeated names |
| `Favorites.AppendKeepsDistinct` | src/app/page.tsx:44 | appending a recipe whose name is absent keeps the names distinct |
| `Favorites.ToggleWhenSaved` | src/app/page.tsx:38-41 | toggling a saved name leaves no entry of that name, keeps exactly the entries with other names, and shortens the list |
| `Favorites.ToggleWhenUnsaved` | src/app/page.tsx:38-44 | toggling an unsaved name keeps the old list as a prefix and adds that recipe as the one new last entry, so the length grows by exactly one |
| `Favorites.ToggleKeepsDistinct` | src/app/page.tsx:38-44 | a toggle preserves "no two favourites share a name" |
| `Favorites.ToggleAllKeepsDistinct` | src/app/page.tsx:37-46 | any sequence of toggles, started from distinct names, ends with distinct names |
| `Favorites.ToggleTwiceRestores` | src/app/page.tsx:38-44 | if the name was absent, toggling twice with the same recipe gives back exactly the original list |
| `Favorites.ToggleTwiceMovesToEnd` | src/app/page.tsx:38-44 | if the name was present, toggling twice drops every entry of that name and puts the recipe at the end |
| `HomePage.Home.constructor` | src/app/page.tsx:11-13 | the page starts with empty input, no recipe on display and no favourites |
| `HomePage.Home.SetIngredients` | src/app/page.tsx:66 | the input cell holds what the user typed |
| `HomePage.Home.IsFavorite` | src/app/page.tsx:50 | true exactly when a recipe is on display and some favourite has its name |
| `HomePage.Home.HandleGenerateRecipe` | src/app/page.tsx:28-33 | the flow is invoked exactly when the input is non-empty. If not invoked, or if the call rejects, the recipe on display is unchanged. If it resolves, its output is displayed. Favourites keep distinct names |
| `HomePage.Home.HandleAddToFavorites` | src/app/page.tsx:35-48 | with no recipe on display, favourites are unchanged. Otherwise favourites become the toggle of the old list, the recipe's saved status flips, and names stay distinct |

## Left out

- Loading favourites from `localStorage` and saving them back (`src/app/page.tsx:15-26`). This is
  browser I/O plus `JSON.parse`/`JSON.stringify`, a library the model cannot see. So no
  serialisation round-trip is stated. Because of this, `Valid()` holds from the constructor on.
  A list loaded from storage could break it, and the code does not check for that.
- The prompt flow's body (`src/ai/flows/generate-recipe.ts:14-66`). The prompt template, the
  zod schema validation and the hosted model are foreign calls. The flow appears only through
  its observable outcomes in `FlowReply`. The non-null assertion `output!` has no run-time
  check, but the flow declares an output schema (`src/ai/flows/generate-recipe.ts:60`) that a
  null does not satisfy, and the library may reject such an output. The model allows both
  outcomes: a rejection, or a resolved call with no output that clears the displayed recipe.
  No property depends on which one happens.
- Failure notifications. The generate handler has no `try`/`catch` and shows no message, so the
  model of a rejected call only leaves the recipe on display unchanged.
- `async`/`await` and React's effect scheduling. Each handler is modelled as running to
  completion. Overlapping generation requests are a concurrency question the code does not
  address.
- All rendering (`src/app/page.tsx:52-122`), including the display-only `join(', ')` and
  `substring(0, 100)`, and the font class names in `src/app/ClientBody.tsx`.
