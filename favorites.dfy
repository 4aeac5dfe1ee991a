/** The favourites bookkeeping of the home page, as pure functions from the
    previous favourites list to the next one. Nothing is updated in place:
    the page's state setter receives the list these functions return. */
module Favorites {
  import opened RecipeFlow

  /** Some favourite carries `name` (`favorites.some(r => r.recipeName === name)`),
      scanning from the front. */
  function HasName(favs: seq<Recipe>, name: string): (b: bool)
    ensures b <==> exists i :: 0 <= i < |favs| && favs[i].recipeName == name
  {
    if favs == [] then false
    else if favs[0].recipeName == name then true
    else
      var rest := HasName(favs[1..], name);
      assert rest ==> exists i :: 0 <= i < |favs| && favs[i].recipeName == name by {
        if rest {
          var j :| 0 <= j < |favs[1..]| && favs[1..][j].recipeName == name;
          assert favs[j + 1].recipeName == name;
        }
      }
      rest
  }

  /** `favorites.filter(r => r.recipeName !== name)`: every favourite whose
      name differs from `name`, in the order the list held them. */
  function RemoveNamed(favs: seq<Recipe>, name: string): (r: seq<Recipe>)
    ensures |r| <= |favs|
    ensures forall i :: 0 <= i < |r| ==> r[i].recipeName != name
    ensures forall x :: x in r <==> x in favs && x.recipeName != name
  {
    if favs == [] then []
    else if favs[0].recipeName == name then RemoveNamed(favs[1..], name)
    else [favs[0]] + RemoveNamed(favs[1..], name)
  }

  /** The updater handed to `setFavoriteRecipes` when the user presses the
      favourite button: a recipe whose name is already saved is unsaved
      (every entry of that name goes), otherwise it is appended at the end. */
  function Toggle(favs: seq<Recipe>, recipe: Recipe): (r: seq<Recipe>)
    ensures HasName(r, recipe.recipeName) == !HasName(favs, recipe.recipeName)
  {
    if HasName(favs, recipe.recipeName) then RemoveNamed(favs, recipe.recipeName)
    else
      assert (favs + [recipe])[|favs|] == recipe;
      favs + [recipe]
  }

  /** The favourites list after pressing the button once for each recipe of
      `recipes`, first to last. */
  function ToggleAll(favs: seq<Recipe>, recipes: seq<Recipe>): (r: seq<Recipe>)
    decreases |recipes|
  {
    if recipes == [] then favs
    else ToggleAll(Toggle(favs, recipes[0]), recipes[1..])
  }

  /** No two favourites share a name. */
  ghost predicate DistinctNames(favs: seq<Recipe>)
  {
    forall i, j :: 0 <= i < j < |favs| ==> favs[i].recipeName != favs[j].recipeName
  }

  /** `r` is `s` with some entries dropped and the rest kept in their
      relative order. */
  ghost predicate IsSubsequence(r: seq<Recipe>, s: seq<Recipe>)
    decreases |s|
  {
    r == [] ||
    (s != [] && ((r[0] == s[0] && IsSubsequence(r[1..], s[1..])) || IsSubsequence(r, s[1..])))
  }

  // ---------------------------------------------------------------------
  // Removal by name
  // ---------------------------------------------------------------------

  /** Removal keeps each entry whose name differs exactly as often as the
      list held it and keeps no entry carrying the name. */
  lemma {:induction false} RemoveNamedCounts(favs: seq<Recipe>, name: string, x: Recipe)
    ensures multiset(RemoveNamed(favs, name))[x] ==
            if x.recipeName == name then 0 else multiset(favs)[x]
  {
    if favs != [] {
      RemoveNamedCounts(favs[1..], name, x);
      assert favs == [favs[0]] + favs[1..];
      assert multiset(favs) == multiset([favs[0]]) + multiset(favs[1..]);
      if favs[0].recipeName != name {
        assert RemoveNamed(favs, name) == [favs[0]] + RemoveNamed(favs[1..], name);
        assert multiset(RemoveNamed(favs, name))
            == multiset([favs[0]]) + multiset(RemoveNamed(favs[1..], name));
      }
    }
  }

  /** Removal keeps the surviving entries in their original relative order. */
  lemma {:induction false} RemoveNamedKeepsOrder(favs: seq<Recipe>, name: string)
    ensures IsSubsequence(RemoveNamed(favs, name), favs)
  {
    if favs != [] {
      RemoveNamedKeepsOrder(favs[1..], name);
      var tail := RemoveNamed(favs[1..], name);
      if favs[0].recipeName != name {
        assert ([favs[0]] + tail)[1..] == tail;
      }
    }
  }

  /** Removal works entry by entry: on a concatenation it is the
      concatenation of the two removals. */
  lemma {:induction false} RemoveNamedAppend(a: seq<Recipe>, b: seq<Recipe>, name: string)
    ensures RemoveNamed(a + b, name) == RemoveNamed(a, name) + RemoveNamed(b, name)
  {
    if a != [] {
      assert (a + b)[0] == a[0];
      assert (a + b)[1..] == a[1..] + b;
      RemoveNamedAppend(a[1..], b, name);
    } else {
      assert a + b == b;
    }
  }

  /** Removal leaves the list as it was exactly when no entry carries the name. */
  lemma {:induction false} RemoveNamedUnchanged(favs: seq<Recipe>, name: string)
    ensures RemoveNamed(favs, name) == favs <==> !HasName(favs, name)
  {
    if favs != [] {
      RemoveNamedUnchanged(favs[1..], name);
      if favs[0].recipeName != name {
        assert favs == [favs[0]] + favs[1..];
      } else {
        assert favs[0] in favs && favs[0] !in RemoveNamed(favs, name);
      }
    }
  }

  /** Removal shortens the list when some entry carries the name. */
  lemma {:induction false} RemoveNamedShrinks(favs: seq<Recipe>, name: string)
    requires HasName(favs, name)
    ensures |RemoveNamed(favs, name)| < |favs|
  {
    if favs[0].recipeName != name {
      RemoveNamedShrinks(favs[1..], name);
    }
  }

  // ---------------------------------------------------------------------
  // Distinct names
  // ---------------------------------------------------------------------

  /** A list has distinct names exactly when its head's name is not repeated
      in its tail and the tail has distinct names. */
  lemma DistinctNamesCons(favs: seq<Recipe>)
    requires favs != []
    ensures DistinctNames(favs) <==>
            !HasName(favs[1..], favs[0].recipeName) && DistinctNames(favs[1..])
  {
  }

  /** Removing entries by name never introduces a repeated name. */
  lemma {:induction false} RemoveNamedKeepsDistinct(favs: seq<Recipe>, name: string)
    requires DistinctNames(favs)
    ensures DistinctNames(RemoveNamed(favs, name))
  {
    if favs != [] {
      DistinctNamesCons(favs);
      RemoveNamedKeepsDistinct(favs[1..], name);
      var tail := RemoveNamed(favs[1..], name);
      if favs[0].recipeName != name {
        var r := [favs[0]] + tail;
        assert r[1..] == tail;
        forall k | 0 <= k < |tail| ensures tail[k].recipeName != favs[0].recipeName {
          assert tail[k] in favs[1..];
        }
        DistinctNamesCons(r);
      }
    }
  }

  /** Appending a recipe whose name is absent keeps the names distinct. */
  lemma AppendKeepsDistinct(favs: seq<Recipe>, recipe: Recipe)
    requires DistinctNames(favs)
    requires !HasName(favs, recipe.recipeName)
    ensures DistinctNames(favs + [recipe])
  {
  }

  // ---------------------------------------------------------------------
  // The toggle
  // ---------------------------------------------------------------------

  /** Pressing the button for a saved recipe leaves no entry of that name,
      keeps every other entry (and only those), and shortens the list. */
  lemma ToggleWhenSaved(favs: seq<Recipe>, recipe: Recipe)
    requires HasName(favs, recipe.recipeName)
    ensures forall i :: 0 <= i < |Toggle(favs, recipe)| ==>
              Toggle(favs, recipe)[i].recipeName != recipe.recipeName
    ensures forall x :: x in Toggle(favs, recipe) <==>
              x in favs && x.recipeName != recipe.recipeName
    ensures |Toggle(favs, recipe)| < |favs|
  {
    RemoveNamedShrinks(favs, recipe.recipeName);
  }

  /** Pressing the button for an unsaved recipe keeps the whole old list as a
      prefix and adds exactly that recipe after it. */
  lemma ToggleWhenUnsaved(favs: seq<Recipe>, recipe: Recipe)
    requires !HasName(favs, recipe.recipeName)
    ensures |Toggle(favs, recipe)| == |favs| + 1
    ensures Toggle(favs, recipe)[..|favs|] == favs
    ensures Toggle(favs, recipe)[|favs|] == recipe
  {
  }

  /** A toggle never introduces a repeated name. */
  lemma ToggleKeepsDistinct(favs: seq<Recipe>, recipe: Recipe)
    requires DistinctNames(favs)
    ensures DistinctNames(Toggle(favs, recipe))
  {
    if HasName(favs, recipe.recipeName) {
      RemoveNamedKeepsDistinct(favs, recipe.recipeName);
    } else {
      AppendKeepsDistinct(favs, recipe);
    }
  }

  /** Any run of toggles, from a list with distinct names, still has
      distinct names. */
  lemma {:induction false} ToggleAllKeepsDistinct(favs: seq<Recipe>, recipes: seq<Recipe>)
    requires DistinctNames(favs)
    ensures DistinctNames(ToggleAll(favs, recipes))
    decreases |recipes|
  {
    if recipes != [] {
      ToggleKeepsDistinct(favs, recipes[0]);
      ToggleAllKeepsDistinct(Toggle(favs, recipes[0]), recipes[1..]);
    }
  }

  /** Saving and then unsaving a recipe that was not saved gives back exactly
      the list one started from. */
  lemma ToggleTwiceRestores(favs: seq<Recipe>, recipe: Recipe)
    requires !HasName(favs, recipe.recipeName)
    ensures Toggle(Toggle(favs, recipe), recipe) == favs
  {
    RemoveNamedAppend(favs, [recipe], recipe.recipeName);
    RemoveNamedUnchanged(favs, recipe.recipeName);
    assert [recipe][1..] == [];
  }

  /** Unsaving and then saving a recipe that was saved drops every entry of
      that name and puts this recipe at the end. */
  lemma ToggleTwiceMovesToEnd(favs: seq<Recipe>, recipe: Recipe)
    requires HasName(favs, recipe.recipeName)
    ensures Toggle(Toggle(favs, recipe), recipe) == RemoveNamed(favs, recipe.recipeName) + [recipe]
  {
  }
}
