/**
 * The database the backend reads and writes. `State` holds every table;
 * the `Database` object holds the current state and its write operations
 * replace it, one ORM call at a time. The invariant `Valid` is the
 * conjunction of every unique constraint, value bound and foreign key the
 * two models.py files declare; each write below keeps it, including the
 * cascades that `on_delete=models.CASCADE` sets off.
 *
 * Primary keys are handed out from counters (`nextLineId`,
 * `nextRecipeId`), as PostgreSQL sequences do.
 */
module Persistence {
  import opened Common
  import opened Tables
  import opened UserModels
  import opened RecipeModels

  datatype State = State(
    users: map<UserId, User>,
    subscriptions: seq<Subscribe>,
    tags: map<TagId, Tag>,
    ingredients: map<IngredientId, Ingredient>,
    lines: map<LineId, RecipeIngredient>,
    nextLineId: nat,
    recipes: map<RecipeId, Recipe>,
    nextRecipeId: nat,
    /** The `tags` many-to-many table of Recipe. */
    recipeTags: map<RecipeId, set<TagId>>,
    /** All recipes, newest first: the `ordering = ['-created']` of Recipe. */
    recipeOrder: seq<RecipeId>,
    /** The RecipeIngredientRecipe table, in insertion order. */
    links: seq<RecipeIngredientRecipe>,
    favorites: seq<Favorite>,
    carts: seq<ShoppingCart>)

  ghost predicate StateValid(s: State)
  {
    && UsersValid(s.users)
    && SubscriptionsValid(s.subscriptions, s.users)
    && TagsUnique(s.tags)
    && LinesValid(s.lines, s.ingredients, s.nextLineId)
    && RecipesValid(s.recipes, s.users, s.nextRecipeId)
    && RecipeTagsValid(s.recipeTags, s.recipes, s.tags)
    && OrderValid(s.recipeOrder, s.recipes)
    && LinksValid(s.links, s.lines, s.recipes)
    && FavoritesValid(s.favorites, s.users, s.recipes)
    && CartsValid(s.carts, s.users, s.recipes)
  }

  /** The recipe row can be written: its author exists, its cooking time is in range and no other recipe has its name. */
  ghost predicate Storable(s: State, recipe: Recipe, self: Option<RecipeId>)
  {
    && recipe.author in s.users
    && InRange(recipe.cookingTime)
    && forall r :: r in s.recipes && Some(r) != self ==> s.recipes[r].name != recipe.name
  }

  /** `id` is one of the `n` consecutive keys from `start`. */
  predicate InBlock(start: nat, n: nat, id: nat)
  {
    start <= id < start + n
  }

  /** Fresh lines numbered from `start`, line `start + k` being `items[k]`. */
  function NewLines(start: nat, items: seq<RecipeIngredient>): map<LineId, RecipeIngredient>
  {
    map id | start <= id < start + |items| && InBlock(start, |items|, id) :: items[id - start]
  }

  /** Rows pointing at recipes stay valid when recipes are only added or rewritten. */
  lemma RecipesGrow(s: State, recipes': map<RecipeId, Recipe>)
    requires StateValid(s) && s.recipes.Keys <= recipes'.Keys
    ensures LinksValid(s.links, s.lines, recipes')
    ensures FavoritesValid(s.favorites, s.users, recipes')
    ensures CartsValid(s.carts, s.users, recipes')
  {
  }

  /** A storable row under the next key keeps the recipe table valid. */
  lemma RecipeTableAdded(s: State, recipe: Recipe)
    requires StateValid(s) && Storable(s, recipe, None)
    ensures s.nextRecipeId !in s.recipes
    ensures RecipesValid(s.recipes[s.nextRecipeId := recipe], s.users, s.nextRecipeId + 1)
  {
    assert RecipeNamesUnique(s.recipes[s.nextRecipeId := recipe]);
  }

  /** The newest recipe heads the `-created` order. */
  lemma OrderAdded(s: State, recipe: Recipe)
    requires StateValid(s) && s.nextRecipeId !in s.recipes
    ensures OrderValid([s.nextRecipeId] + s.recipeOrder, s.recipes[s.nextRecipeId := recipe])
  {
    var id := s.nextRecipeId;
    AppendUnique(s.recipeOrder, id);
    assert multiset([id] + s.recipeOrder) == multiset(s.recipeOrder + [id]);
  }

  /** The state after `Recipe.objects.create(...)` of a storable row is valid. */
  lemma RecipeAdded(s: State, recipe: Recipe)
    requires StateValid(s) && Storable(s, recipe, None)
    ensures StateValid(s.(recipes := s.recipes[s.nextRecipeId := recipe], nextRecipeId := s.nextRecipeId + 1,
                          recipeTags := s.recipeTags[s.nextRecipeId := {}], recipeOrder := [s.nextRecipeId] + s.recipeOrder))
  {
    var recipes' := s.recipes[s.nextRecipeId := recipe];
    RecipeTableAdded(s, recipe);
    OrderAdded(s, recipe);
    RecipesGrow(s, recipes');
  }

  /** The state after writing a storable row over recipe `r` is valid. */
  lemma RecipeRewritten(s: State, r: RecipeId, recipe: Recipe)
    requires StateValid(s) && r in s.recipes && Storable(s, recipe, Some(r))
    ensures StateValid(s.(recipes := s.recipes[r := recipe]))
  {
    var recipes' := s.recipes[r := recipe];
    RecipeReplaced(s.recipes, s.users, s.nextRecipeId, r, recipe);
    assert OrderValid(s.recipeOrder, recipes');
    assert RecipeTagsValid(s.recipeTags, recipes', s.tags);
    RecipesGrow(s, recipes');
  }

  /** Replacing a stored recipe by one whose name no other recipe has keeps the recipes table valid. */
  lemma RecipeReplaced(recipes: map<RecipeId, Recipe>, users: map<UserId, User>, next: nat, r: RecipeId, recipe: Recipe)
    requires RecipesValid(recipes, users, next) && r in recipes
    requires recipe.author in users && InRange(recipe.cookingTime)
    requires forall o :: o in recipes && o != r ==> recipes[o].name != recipe.name
    ensures RecipesValid(recipes[r := recipe], users, next)
    ensures recipes[r := recipe].Keys == recipes.Keys
  {
    assert RecipeNamesUnique(recipes[r := recipe]);
  }

  /** The state after deleting ingredient `i` with its lines and their join rows is valid. */
  lemma IngredientRemoved(s: State, i: IngredientId)
    requires StateValid(s)
    ensures StateValid(s.(ingredients := Restrict(s.ingredients, {i}),
                          lines := Restrict(s.lines, LinesUsing(s.lines, i)),
                          links := LinksOutside(s.links, LinesUsing(s.lines, i), {})))
  {
    var gone := LinesUsing(s.lines, i);
    LinksShrink(s.links, s.lines, s.recipes, gone, {});
    RestrictNothing(s.recipes);
    assert LinesValid(Restrict(s.lines, gone), Restrict(s.ingredients, {i}), s.nextLineId);
  }

  /**
   * The state after `recipe.delete()` of `r`: the row, its tag set, its
   * place in the order, its join rows, favorites and cart rows go.
   */
  ghost function RecipeDeleted(s: State, r: RecipeId): State
  {
    s.(recipes := Restrict(s.recipes, {r}),
       recipeTags := Restrict(s.recipeTags, {r}),
       recipeOrder := OrderOutside(s.recipeOrder, {r}),
       links := LinksOutside(s.links, {}, {r}),
       favorites := FavoritesOutside(s.favorites, {}, {r}),
       carts := CartsOutside(s.carts, {}, {r}))
  }

  class Database {
    var state: State

    ghost predicate Valid()
      reads this
    {
      StateValid(state)
    }

    /** A database holding the given users, tags and ingredient catalogue, and nothing else. */
    constructor (users: map<UserId, User>, tags: map<TagId, Tag>, ingredients: map<IngredientId, Ingredient>)
      requires UsersValid(users) && TagsUnique(tags)
      ensures Valid()
      ensures state == State(users, [], tags, ingredients, map[], 0, map[], 0, map[], [], [], [], [])
    {
      state := State(users, [], tags, ingredients, map[], 0, map[], 0, map[], [], [], [], []);
    }

    /**
     * `Recipe.objects.create(...)`: a new row under a fresh key, with no
     * tags yet; being the newest, it heads the `-created` order.
     */
    method InsertRecipe(recipe: Recipe) returns (id: RecipeId)
      requires Valid() && Storable(state, recipe, None)
      modifies this
      ensures Valid()
      ensures id == old(state.nextRecipeId) && id !in old(state.recipes)
      ensures state == old(state).(recipes := old(state.recipes)[id := recipe], nextRecipeId := id + 1,
                                   recipeTags := old(state.recipeTags)[id := {}], recipeOrder := [id] + old(state.recipeOrder))
    {
      var s := state;
      id := s.nextRecipeId;
      RecipeAdded(s, recipe);
      state := s.(recipes := s.recipes[id := recipe], nextRecipeId := id + 1,
                  recipeTags := s.recipeTags[id := {}], recipeOrder := [id] + s.recipeOrder);
    }

    /** `recipe.tags.set(ts)` (and `tags.clear()` followed by it): the recipe's tag set becomes `ts`. */
    method SetTags(r: RecipeId, ts: set<TagId>)
      requires Valid() && r in state.recipes && ts <= state.tags.Keys
      modifies this
      ensures Valid()
      ensures state == old(state).(recipeTags := old(state.recipeTags)[r := ts])
    {
      state := state.(recipeTags := state.recipeTags[r := ts]);
    }

    /** `instance.save()`: every column of the row is written from the in-memory instance. */
    method SaveRecipe(r: RecipeId, recipe: Recipe)
      requires Valid() && r in state.recipes && Storable(state, recipe, Some(r))
      modifies this
      ensures Valid()
      ensures state == old(state).(recipes := old(state.recipes)[r := recipe])
    {
      var s := state;
      RecipeRewritten(s, r, recipe);
      state := s.(recipes := s.recipes[r := recipe]);
    }

    /**
     * `recipe.delete()`: the row goes, and with it its tag rows, its join
     * rows, its Favorite and its ShoppingCart rows. The RecipeIngredient
     * lines stay: the cascade runs from a line to its join rows, not back.
     */
    method DeleteRecipe(r: RecipeId)
      requires Valid() && r in state.recipes
      modifies this
      ensures Valid()
      ensures state == RecipeDeleted(old(state), r)
    {
      var s := state;
      RecipesShrink(s.recipes, s.users, s.users, s.nextRecipeId, {r});
      RecipeTagsShrink(s.recipeTags, s.recipes, s.tags, {r});
      OrderShrink(s.recipeOrder, s.recipes, {r});
      LinksShrink(s.links, s.lines, s.recipes, {}, {r});
      FavoritesShrink(s.favorites, s.users, s.recipes, {}, {r});
      CartsShrink(s.carts, s.users, s.recipes, {}, {r});
      RestrictNothing(s.lines);
      RestrictNothing(s.users);
      state := s.(recipes := Restrict(s.recipes, {r}),
                  recipeTags := Restrict(s.recipeTags, {r}),
                  recipeOrder := OrderOutside(s.recipeOrder, {r}),
                  links := LinksOutside(s.links, {}, {r}),
                  favorites := FavoritesOutside(s.favorites, {}, {r}),
                  carts := CartsOutside(s.carts, {}, {r}));
    }

    /**
     * `instance.ingredients.all().delete()`: the lines joined to `r` are
     * deleted, and the cascade removes every join row of those lines.
     */
    method DeleteLinesOf(r: RecipeId)
      requires Valid()
      modifies this
      ensures Valid()
      ensures state == old(state).(lines := Restrict(old(state.lines), set id | id in LinesOf(old(state.links), r)),
                                   links := LinksOutside(old(state.links), set id | id in LinesOf(old(state.links), r), {}))
      ensures LinesOf(state.links, r) == []
    {
      var s := state;
      var gone := set id | id in LinesOf(s.links, r);
      LinksShrink(s.links, s.lines, s.recipes, gone, {});
      NoLinesLeft(s.links, gone, r);
      RestrictNothing(s.recipes);
      state := s.(lines := Restrict(s.lines, gone), links := LinksOutside(s.links, gone, {}));
    }

    /**
     * `Ingredient.delete()`: the lines of that ingredient go (the foreign key
     * of RecipeIngredient cascades), and so do their join rows.
     */
    method DeleteIngredient(i: IngredientId)
      requires Valid() && i in state.ingredients
      modifies this
      ensures Valid()
      ensures state == old(state).(ingredients := Restrict(old(state.ingredients), {i}),
                                   lines := Restrict(old(state.lines), LinesUsing(old(state.lines), i)),
                                   links := LinksOutside(old(state.links), LinesUsing(old(state.lines), i), {}))
      ensures forall id :: id in state.lines ==> state.lines[id].ingredient != i
    {
      var s := state;
      var gone := LinesUsing(s.lines, i);
      IngredientRemoved(s, i);
      state := s.(ingredients := Restrict(s.ingredients, {i}),
                  lines := Restrict(s.lines, gone),
                  links := LinksOutside(s.links, gone, {}));
    }

    /**
     * `User.delete()`: every Subscribe edge with `u` at either end, the
     * recipes `u` wrote (with their own cascades), and `u`'s Favorite and
     * ShoppingCart rows go.
     */
    method DeleteUser(u: UserId)
      requires Valid() && u in state.users
      modifies this
      ensures Valid()
      ensures state == old(state).(users := Restrict(old(state.users), {u}),
                                   subscriptions := EdgesWithout(old(state.subscriptions), u),
                                   recipes := Restrict(old(state.recipes), RecipesBy(old(state.recipes), u)),
                                   recipeTags := Restrict(old(state.recipeTags), RecipesBy(old(state.recipes), u)),
                                   recipeOrder := OrderOutside(old(state.recipeOrder), RecipesBy(old(state.recipes), u)),
                                   links := LinksOutside(old(state.links), {}, RecipesBy(old(state.recipes), u)),
                                   favorites := FavoritesOutside(old(state.favorites), {u}, RecipesBy(old(state.recipes), u)),
                                   carts := CartsOutside(old(state.carts), {u}, RecipesBy(old(state.recipes), u)))
      ensures forall e :: e in state.subscriptions ==> e.user != u && e.author != u
      ensures forall r :: r in state.recipes ==> state.recipes[r].author != u
      ensures forall f :: f in state.favorites ==> f.user != u
      ensures forall c :: c in state.carts ==> c.user != u
    {
      var s := state;
      var authored := RecipesBy(s.recipes, u);
      var users' := Restrict(s.users, {u});
      RecipesShrink(s.recipes, s.users, users', s.nextRecipeId, authored);
      RecipeTagsShrink(s.recipeTags, s.recipes, s.tags, authored);
      OrderShrink(s.recipeOrder, s.recipes, authored);
      LinksShrink(s.links, s.lines, s.recipes, {}, authored);
      FavoritesShrink(s.favorites, s.users, s.recipes, {u}, authored);
      CartsShrink(s.carts, s.users, s.recipes, {u}, authored);
      DeleteUserKeepsSchema(s.users, s.subscriptions, u);
      RestrictNothing(s.lines);
      state := s.(users := users',
                  subscriptions := EdgesWithout(s.subscriptions, u),
                  recipes := Restrict(s.recipes, authored),
                  recipeTags := Restrict(s.recipeTags, authored),
                  recipeOrder := OrderOutside(s.recipeOrder, authored),
                  links := LinksOutside(s.links, {}, authored),
                  favorites := FavoritesOutside(s.favorites, {u}, authored),
                  carts := CartsOutside(s.carts, {u}, authored));
    }

    /**
     * `RecipeIngredient.objects.bulk_create(items)`: the rows are inserted
     * in list order under consecutive fresh keys from `start`.
     */
    method BulkCreateLines(items: seq<RecipeIngredient>) returns (start: nat)
      requires Valid()
      requires forall k :: 0 <= k < |items| ==> items[k].ingredient in state.ingredients && InRange(items[k].amount)
      modifies this
      ensures Valid()
      ensures start == old(state.nextLineId)
      ensures state == old(state).(lines := old(state.lines) + NewLines(start, items), nextLineId := start + |items|)
      ensures forall id :: id in old(state.lines) ==> id < start
      ensures forall l :: l in state.links ==> l.recipeIngredient < start
      ensures forall id :: InBlock(start, |items|, id) ==> id in state.lines
    {
      var s := state;
      start := s.nextLineId;
      var added := NewLines(start, items);
      var lines' := s.lines + added;
      forall id | id in lines'
        ensures lines'[id].ingredient in s.ingredients && InRange(lines'[id].amount) && id < start + |items|
      {
        if id in added {
          assert lines'[id] == items[id - start];
        }
      }
      state := s.(lines := lines', nextLineId := start + |items|);
    }

    /**
     * `RecipeIngredientRecipe.objects.bulk_create(rows)` for the join rows
     * attaching lines `start`, ..., `start + |rows| - 1` to `r`. Those lines
     * are newer than every line already joined, so the table stays in line
     * order.
     */
    method BulkCreateLinks(rows: seq<RecipeIngredientRecipe>, ghost start: nat, ghost r: RecipeId)
      requires Valid() && r in state.recipes
      requires rows == NewLinks(start, |rows|, r)
      requires forall id :: InBlock(start, |rows|, id) ==> id in state.lines
      requires forall l :: l in state.links ==> l.recipeIngredient < start
      modifies this
      ensures Valid()
      ensures state == old(state).(links := old(state.links) + rows)
      ensures LinesOf(state.links, r) == LinesOf(old(state.links), r) + NewIds(start, |rows|)
    {
      var s := state;
      AttachNewLines(s.links, s.lines, s.recipes, start, |rows|, r);
      state := s.(links := s.links + rows);
    }

    /** `FavoriteSerializer.save()`: the Favorite row is inserted. */
    method InsertFavorite(f: Favorite)
      requires Valid() && f.user in state.users && f.recipe in state.recipes && f !in state.favorites
      modifies this
      ensures Valid()
      ensures state == old(state).(favorites := old(state.favorites) + [f])
    {
      AppendUnique(state.favorites, f);
      state := state.(favorites := state.favorites + [f]);
    }

    /** `Favorite.delete()` on the row `f`: it is the only one with its values. */
    method DeleteFavorite(f: Favorite)
      requires Valid()
      modifies this
      ensures Valid()
      ensures state == old(state).(favorites := Without(old(state.favorites), f))
    {
      SubUnique(state.favorites, Without(state.favorites, f));
      state := state.(favorites := Without(state.favorites, f));
    }

    /** `ShoppingCartSerializer.save()`: the ShoppingCart row is inserted. */
    method InsertCart(c: ShoppingCart)
      requires Valid() && c.user in state.users && c.recipe in state.recipes && c !in state.carts
      modifies this
      ensures Valid()
      ensures state == old(state).(carts := old(state.carts) + [c])
    {
      AppendUnique(state.carts, c);
      state := state.(carts := state.carts + [c]);
    }

    /** `ShoppingCart.delete()` on the row `c`. */
    method DeleteCart(c: ShoppingCart)
      requires Valid()
      modifies this
      ensures Valid()
      ensures state == old(state).(carts := Without(old(state.carts), c))
    {
      SubUnique(state.carts, Without(state.carts, c));
      state := state.(carts := Without(state.carts, c));
    }

    /** `UserSubscribeSerializer.save()`: an edge is inserted, whatever edges exist already. */
    method InsertSubscription(e: Subscribe)
      requires Valid() && e.user in state.users && e.author in state.users
      modifies this
      ensures Valid()
      ensures state == old(state).(subscriptions := old(state.subscriptions) + [e])
    {
      state := state.(subscriptions := state.subscriptions + [e]);
    }

    /** `Subscribe.delete()` on the edge `e`, once `get` has found it to be the only one with its values. */
    method DeleteSubscription(e: Subscribe)
      requires Valid() && multiset(state.subscriptions)[e] == 1
      modifies this
      ensures Valid()
      ensures state == old(state).(subscriptions := Without(old(state.subscriptions), e))
    {
      state := state.(subscriptions := Without(state.subscriptions, e));
    }
  }
}
