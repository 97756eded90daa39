/**
 * The schema of recipes/models.py: tags, the ingredient catalogue,
 * RecipeIngredient lines (one quantity of one ingredient), recipes, the
 * RecipeIngredientRecipe join rows that attach lines to recipes, and the
 * Favorite and ShoppingCart membership rows. Each unique constraint,
 * value bound and foreign key becomes a predicate here; the Database
 * class conjoins them into its invariant.
 */
module RecipeModels {
  import opened Common
  import opened Tables
  import opened UserModels

  type TagId = nat
  type IngredientId = nat
  type LineId = nat
  type RecipeId = nat

  datatype Tag = Tag(name: string, slug: string, color: string)

  datatype Ingredient = Ingredient(name: string, measurementUnit: string)

  /** A RecipeIngredient row; `amount` is a PositiveSmallIntegerField. */
  datatype RecipeIngredient = RecipeIngredient(ingredient: IngredientId, amount: int)

  /** An uploaded image: the extension taken from its `data:` header and its base64 text. */
  datatype ImageFile = ImageFile(ext: string, content: string)

  /**
   * A Recipe row. `image` is the file stored for it, as uploaded; the tags
   * live in the many-to-many table `recipeTags` of the Database, the lines
   * in the join table. `created` is represented by the Database's recipe
   * order.
   */
  datatype Recipe = Recipe(author: UserId, name: string, image: ImageFile, text: string, cookingTime: int)

  /** A RecipeIngredientRecipe join row. */
  datatype RecipeIngredientRecipe = RecipeIngredientRecipe(recipeIngredient: LineId, recipe: RecipeId)

  datatype Favorite = Favorite(user: UserId, recipe: RecipeId)

  datatype ShoppingCart = ShoppingCart(user: UserId, recipe: RecipeId)

  // ---------------------------------------------------------------------
  // Constraints of the schema

  /** Tag `name`, `slug` and `color` are each declared unique. */
  ghost predicate TagsUnique(tags: map<TagId, Tag>)
  {
    forall a, b :: a in tags && b in tags && a != b ==>
      tags[a].name != tags[b].name && tags[a].slug != tags[b].slug && tags[a].color != tags[b].color
  }

  /**
   * Every line refers to a catalogue ingredient (the foreign key), its
   * amount passed the validators, and its id was handed out already.
   */
  ghost predicate LinesValid(lines: map<LineId, RecipeIngredient>, ingredients: map<IngredientId, Ingredient>, nextLineId: nat)
  {
    forall id :: id in lines ==> lines[id].ingredient in ingredients && InRange(lines[id].amount) && id < nextLineId
  }

  /** Recipe `name` is declared unique. */
  ghost predicate RecipeNamesUnique(recipes: map<RecipeId, Recipe>)
  {
    forall a, b :: a in recipes && b in recipes && a != b ==> recipes[a].name != recipes[b].name
  }

  ghost predicate RecipesValid(recipes: map<RecipeId, Recipe>, users: map<UserId, User>, nextRecipeId: nat)
  {
    && RecipeNamesUnique(recipes)
    && forall id :: id in recipes ==>
         recipes[id].author in users && InRange(recipes[id].cookingTime) && id < nextRecipeId
  }

  /** The tags many-to-many table: one tag set per recipe, of existing tags. */
  ghost predicate RecipeTagsValid(recipeTags: map<RecipeId, set<TagId>>, recipes: map<RecipeId, Recipe>, tags: map<TagId, Tag>)
  {
    recipeTags.Keys == recipes.Keys && forall r :: r in recipeTags ==> recipeTags[r] <= tags.Keys
  }

  /** The `-created` order: every recipe exactly once, newest first. */
  ghost predicate OrderValid(order: seq<RecipeId>, recipes: map<RecipeId, Recipe>)
  {
    Unique(order) && forall r :: r in order <==> r in recipes
  }

  /**
   * Join rows sit in the table in increasing line id, so table order is the
   * `ordering = ['id']` order of RecipeIngredient.
   */
  ghost predicate LinksAscending(links: seq<RecipeIngredientRecipe>)
  {
    forall i, j :: 0 <= i < j < |links| ==> links[i].recipeIngredient < links[j].recipeIngredient
  }

  /** Both foreign keys of the join rows, and the (recipe_ingredient, recipe) unique constraint. */
  ghost predicate LinksValid(links: seq<RecipeIngredientRecipe>, lines: map<LineId, RecipeIngredient>, recipes: map<RecipeId, Recipe>)
  {
    && (forall l :: l in links ==> l.recipeIngredient in lines && l.recipe in recipes)
    && Unique(links)
    && LinksAscending(links)
  }

  /** The (user, recipe) unique constraint and both foreign keys of Favorite. */
  ghost predicate FavoritesValid(favorites: seq<Favorite>, users: map<UserId, User>, recipes: map<RecipeId, Recipe>)
  {
    Unique(favorites) && forall f :: f in favorites ==> f.user in users && f.recipe in recipes
  }

  /** The (user, recipe) unique constraint and both foreign keys of ShoppingCart. */
  ghost predicate CartsValid(carts: seq<ShoppingCart>, users: map<UserId, User>, recipes: map<RecipeId, Recipe>)
  {
    Unique(carts) && forall c :: c in carts ==> c.user in users && c.recipe in recipes
  }

  // ---------------------------------------------------------------------
  // What a cascading delete leaves behind

  /**
   * The join rows that survive deleting the lines `goneLines` and the
   * recipes `goneRecipes`: both foreign keys of RecipeIngredientRecipe cascade.
   */
  function LinksOutside(links: seq<RecipeIngredientRecipe>, goneLines: set<LineId>, goneRecipes: set<RecipeId>): (r: seq<RecipeIngredientRecipe>)
    ensures forall l :: l in r <==> l in links && l.recipeIngredient !in goneLines && l.recipe !in goneRecipes
    ensures multiset(r) <= multiset(links)
    decreases |links|
  {
    if links == [] then []
    else
      assert links == [links[0]] + links[1..];
      var l := links[0];
      (if l.recipeIngredient !in goneLines && l.recipe !in goneRecipes then [l] else [])
        + LinksOutside(links[1..], goneLines, goneRecipes)
  }

  /** The Favorite rows that survive deleting the users `goneUsers` and the recipes `goneRecipes`. */
  function FavoritesOutside(favorites: seq<Favorite>, goneUsers: set<UserId>, goneRecipes: set<RecipeId>): (r: seq<Favorite>)
    ensures forall f :: f in r <==> f in favorites && f.user !in goneUsers && f.recipe !in goneRecipes
    ensures multiset(r) <= multiset(favorites)
    decreases |favorites|
  {
    if favorites == [] then []
    else
      assert favorites == [favorites[0]] + favorites[1..];
      var f := favorites[0];
      (if f.user !in goneUsers && f.recipe !in goneRecipes then [f] else [])
        + FavoritesOutside(favorites[1..], goneUsers, goneRecipes)
  }

  /** The ShoppingCart rows that survive deleting the users `goneUsers` and the recipes `goneRecipes`. */
  function CartsOutside(carts: seq<ShoppingCart>, goneUsers: set<UserId>, goneRecipes: set<RecipeId>): (r: seq<ShoppingCart>)
    ensures forall c :: c in r <==> c in carts && c.user !in goneUsers && c.recipe !in goneRecipes
    ensures multiset(r) <= multiset(carts)
    decreases |carts|
  {
    if carts == [] then []
    else
      assert carts == [carts[0]] + carts[1..];
      var c := carts[0];
      (if c.user !in goneUsers && c.recipe !in goneRecipes then [c] else [])
        + CartsOutside(carts[1..], goneUsers, goneRecipes)
  }

  /** The `-created` order without the recipes `gone`. */
  function OrderOutside(order: seq<RecipeId>, gone: set<RecipeId>): (r: seq<RecipeId>)
    ensures forall x :: x in r <==> x in order && x !in gone
    ensures multiset(r) <= multiset(order)
    decreases |order|
  {
    if order == [] then []
    else
      assert order == [order[0]] + order[1..];
      (if order[0] !in gone then [order[0]] else []) + OrderOutside(order[1..], gone)
  }

  /** The lines of ingredient `i`: what deleting that ingredient cascades to. */
  function LinesUsing(lines: map<LineId, RecipeIngredient>, i: IngredientId): set<LineId>
  {
    set id | id in lines && lines[id].ingredient == i
  }

  /** The recipes `u` wrote: what deleting that user cascades to. */
  function RecipesBy(recipes: map<RecipeId, Recipe>, u: UserId): set<RecipeId>
  {
    set r | r in recipes && recipes[r].author == u
  }

  /** Deleting recipes keeps the remaining names unique and their authors, cooking times and keys valid. */
  lemma RecipesShrink(recipes: map<RecipeId, Recipe>, users: map<UserId, User>, users': map<UserId, User>, next: nat, gone: set<RecipeId>)
    requires RecipesValid(recipes, users, next)
    requires forall r :: r in recipes && r !in gone ==> recipes[r].author in users'
    ensures RecipesValid(Restrict(recipes, gone), users', next)
  {
  }

  /** Deleting recipes from the tag table along with the recipe table keeps the two in step. */
  lemma RecipeTagsShrink(recipeTags: map<RecipeId, set<TagId>>, recipes: map<RecipeId, Recipe>, tags: map<TagId, Tag>, gone: set<RecipeId>)
    requires RecipeTagsValid(recipeTags, recipes, tags)
    ensures RecipeTagsValid(Restrict(recipeTags, gone), Restrict(recipes, gone), tags)
  {
  }

  /** Deleting recipes from the order along with the recipe table keeps every remaining recipe exactly once. */
  lemma OrderShrink(order: seq<RecipeId>, recipes: map<RecipeId, Recipe>, gone: set<RecipeId>)
    requires OrderValid(order, recipes)
    ensures OrderValid(OrderOutside(order, gone), Restrict(recipes, gone))
  {
    SubUnique(order, OrderOutside(order, gone));
  }

  /** The join rows a cascade leaves behind point at surviving lines and recipes, once each, in line order. */
  lemma LinksShrink(links: seq<RecipeIngredientRecipe>, lines: map<LineId, RecipeIngredient>, recipes: map<RecipeId, Recipe>, goneLines: set<LineId>, goneRecipes: set<RecipeId>)
    requires LinksValid(links, lines, recipes)
    ensures LinksValid(LinksOutside(links, goneLines, goneRecipes), Restrict(lines, goneLines), Restrict(recipes, goneRecipes))
  {
    var kept := LinksOutside(links, goneLines, goneRecipes);
    SubUnique(links, kept);
    OutsideAscending(links, goneLines, goneRecipes);
  }

  /** The Favorite rows a cascade leaves behind point at surviving users and recipes, once each. */
  lemma FavoritesShrink(favorites: seq<Favorite>, users: map<UserId, User>, recipes: map<RecipeId, Recipe>, goneUsers: set<UserId>, goneRecipes: set<RecipeId>)
    requires FavoritesValid(favorites, users, recipes)
    ensures FavoritesValid(FavoritesOutside(favorites, goneUsers, goneRecipes), Restrict(users, goneUsers), Restrict(recipes, goneRecipes))
  {
    SubUnique(favorites, FavoritesOutside(favorites, goneUsers, goneRecipes));
  }

  /** The ShoppingCart rows a cascade leaves behind point at surviving users and recipes, once each. */
  lemma CartsShrink(carts: seq<ShoppingCart>, users: map<UserId, User>, recipes: map<RecipeId, Recipe>, goneUsers: set<UserId>, goneRecipes: set<RecipeId>)
    requires CartsValid(carts, users, recipes)
    ensures CartsValid(CartsOutside(carts, goneUsers, goneRecipes), Restrict(users, goneUsers), Restrict(recipes, goneRecipes))
  {
    SubUnique(carts, CartsOutside(carts, goneUsers, goneRecipes));
  }

  // ---------------------------------------------------------------------
  // The lines of a recipe

  /**
   * `recipe.ingredients.all()`: the ids of the lines joined to recipe `r`,
   * in table order.
   */
  function LinesOf(links: seq<RecipeIngredientRecipe>, r: RecipeId): (ids: seq<LineId>)
    ensures forall id :: id in ids <==> RecipeIngredientRecipe(id, r) in links
    ensures |ids| <= |links|
  {
    if links == [] then []
    else
      assert links == [links[0]] + links[1..];
      (if links[0].recipe == r then [links[0].recipeIngredient] else []) + LinesOf(links[1..], r)
  }

  lemma {:induction false} LinesOfAppend(a: seq<RecipeIngredientRecipe>, b: seq<RecipeIngredientRecipe>, r: RecipeId)
    ensures LinesOf(a + b, r) == LinesOf(a, r) + LinesOf(b, r)
    decreases |a|
  {
    if a == [] {
      assert a + b == b;
    } else {
      assert (a + b)[1..] == a[1..] + b;
      LinesOfAppend(a[1..], b, r);
    }
  }

  /** Strictly increasing ids. */
  ghost predicate Increasing(ids: seq<LineId>)
  {
    forall i, j :: 0 <= i < j < |ids| ==> ids[i] < ids[j]
  }

  /** An id below every id of an increasing list can head it. */
  lemma IncreasingCons(id: LineId, ids: seq<LineId>)
    requires Increasing(ids) && forall x :: x in ids ==> id < x
    ensures Increasing([id] + ids)
  {
    var all := [id] + ids;
    forall i, j | 0 <= i < j < |all| ensures all[i] < all[j] {
      assert all[j] == ids[j - 1] && ids[j - 1] in ids;
      if i > 0 {
        assert all[i] == ids[i - 1];
      }
    }
  }

  /** Because the join table is in line-id order, so are the lines of every recipe. */
  lemma {:induction false} LinesOfAscending(links: seq<RecipeIngredientRecipe>, r: RecipeId)
    requires LinksAscending(links)
    ensures Increasing(LinesOf(links, r))
    decreases |links|
  {
    if links != [] {
      var rest := links[1..];
      AscendingTail(links);
      LinesOfAscending(rest, r);
      LinesOfCons(links, r);
      if links[0].recipe == r {
        RestAbove(links);
        IncreasingCons(links[0].recipeIngredient, LinesOf(rest, r));
      }
    }
  }

  /** What follows the first row of an ascending table is ascending. */
  lemma AscendingTail(links: seq<RecipeIngredientRecipe>)
    requires links != [] && LinksAscending(links)
    ensures LinksAscending(links[1..])
  {
    var rest := links[1..];
    forall i, j | 0 <= i < j < |rest| ensures rest[i].recipeIngredient < rest[j].recipeIngredient {
      assert rest[i] == links[i + 1] && rest[j] == links[j + 1];
    }
  }

  /** In an ascending table every row after the first has a larger line id. */
  lemma RestAbove(links: seq<RecipeIngredientRecipe>)
    requires links != [] && LinksAscending(links)
    ensures forall l :: l in links[1..] ==> links[0].recipeIngredient < l.recipeIngredient
  {
    forall l | l in links[1..] ensures links[0].recipeIngredient < l.recipeIngredient {
      var k :| 0 <= k < |links[1..]| && links[1..][k] == l;
      assert links[k + 1] == l;
    }
  }

  /** Putting a row with a smaller line id in front of an ascending table keeps it ascending. */
  lemma ConsAscending(x: RecipeIngredientRecipe, t: seq<RecipeIngredientRecipe>)
    requires LinksAscending(t)
    requires forall l :: l in t ==> x.recipeIngredient < l.recipeIngredient
    ensures LinksAscending([x] + t)
  {
    var s := [x] + t;
    forall i, j | 0 <= i < j < |s| ensures s[i].recipeIngredient < s[j].recipeIngredient {
      assert s[j] == t[j - 1];
      if i == 0 {
        assert t[j - 1] in t;
      } else {
        assert s[i] == t[i - 1];
      }
    }
  }

  /** Deleting join rows keeps the rest in line-id order. */
  lemma {:induction false} OutsideAscending(links: seq<RecipeIngredientRecipe>, goneLines: set<LineId>, goneRecipes: set<RecipeId>)
    requires LinksAscending(links)
    ensures LinksAscending(LinksOutside(links, goneLines, goneRecipes))
    decreases |links|
  {
    if links != [] {
      var rest := links[1..];
      OutsideAscending(rest, goneLines, goneRecipes);
      var l := links[0];
      if l.recipeIngredient !in goneLines && l.recipe !in goneRecipes {
        RestAbove(links);
        ConsAscending(l, LinksOutside(rest, goneLines, goneRecipes));
      }
    }
  }

  /** Once the cascade has removed every line of `r`, no join row attaches a line to `r`. */
  lemma NoLinesLeft(links: seq<RecipeIngredientRecipe>, gone: set<LineId>, r: RecipeId)
    requires forall id :: id in LinesOf(links, r) ==> id in gone
    ensures LinesOf(LinksOutside(links, gone, {}), r) == []
  {
    var ids := LinesOf(LinksOutside(links, gone, {}), r);
    assert forall id :: id !in ids;
    FirstIsMember(ids);
  }

  /** A recipe no join row may point at (one not stored yet) has no lines. */
  lemma NoLinesForUnknown(links: seq<RecipeIngredientRecipe>, recipes: map<RecipeId, Recipe>, r: RecipeId)
    requires forall l :: l in links ==> l.recipe in recipes
    requires r !in recipes
    ensures LinesOf(links, r) == []
  {
    var ids := LinesOf(links, r);
    assert forall id :: id !in ids;
    FirstIsMember(ids);
  }

  /**
   * Attaching the fresh lines `start`, ..., `start + n - 1` to `r` keeps
   * the join table valid, and those lines follow the recipe's earlier ones.
   */
  lemma AttachNewLines(links: seq<RecipeIngredientRecipe>, lines: map<LineId, RecipeIngredient>, recipes: map<RecipeId, Recipe>,
                       start: nat, n: nat, r: RecipeId)
    requires LinksValid(links, lines, recipes) && r in recipes
    requires forall id :: start <= id < start + n ==> id in lines
    requires forall l :: l in links ==> l.recipeIngredient < start
    ensures LinksValid(links + NewLinks(start, n, r), lines, recipes)
    ensures LinesOf(links + NewLinks(start, n, r), r) == LinesOf(links, r) + NewIds(start, n)
  {
    var rows := NewLinks(start, n, r);
    assert LinksAscending(rows) by {
      forall i, j | 0 <= i < j < |rows| ensures rows[i].recipeIngredient < rows[j].recipeIngredient {
      }
    }
    forall l | l in rows ensures l.recipeIngredient >= start && l.recipeIngredient in lines && l.recipe in recipes {
      var k :| 0 <= k < |rows| && rows[k] == l;
    }
    AppendAscending(links, rows, start);
    AscendingUnique(links + rows);
    LinesOfAppend(links, rows, r);
    LinesOfNewLinks(start, n, r);
  }

  /** Join rows in strictly increasing line id are pairwise distinct. */
  lemma {:induction false} AscendingUnique(links: seq<RecipeIngredientRecipe>)
    requires LinksAscending(links)
    ensures Unique(links)
    decreases |links|
  {
    if links != [] {
      var rest := links[1..];
      AscendingTail(links);
      AscendingUnique(rest);
      assert links == [links[0]] + rest;
      RestAbove(links);
      assert links[0] !in rest;
      assert multiset(links) == multiset{links[0]} + multiset(rest);
      forall x ensures multiset(links)[x] <= 1 {
        if x == links[0] {
          assert multiset(rest)[x] == 0;
        }
      }
    }
  }

  /** Appending rows with larger line ids keeps the table in line-id order. */
  lemma AppendAscending(a: seq<RecipeIngredientRecipe>, b: seq<RecipeIngredientRecipe>, bound: nat)
    requires LinksAscending(a) && LinksAscending(b)
    requires forall l :: l in a ==> l.recipeIngredient < bound
    requires forall l :: l in b ==> l.recipeIngredient >= bound
    ensures LinksAscending(a + b)
  {
    var s := a + b;
    forall i, j | 0 <= i < j < |s| ensures s[i].recipeIngredient < s[j].recipeIngredient {
      if j < |a| {
        assert s[i] == a[i] && s[j] == a[j];
      } else if i < |a| {
        assert s[i] == a[i] && s[i] in a;
        assert s[j] == b[j - |a|] && s[j] in b;
      } else {
        assert s[i] == b[i - |a|] && s[j] == b[j - |a|];
      }
    }
  }

  /** `n` consecutive ids from `start`: the ids a bulk insert of `n` rows receives. */
  function NewIds(start: nat, n: nat): (ids: seq<LineId>)
    ensures |ids| == n && forall k :: 0 <= k < n ==> ids[k] == start + k
    decreases n
  {
    if n == 0 then [] else [start] + NewIds(start + 1, n - 1)
  }

  /** The join rows attaching lines `start`, ..., `start + n - 1` to `recipe`. */
  function NewLinks(start: nat, n: nat, recipe: RecipeId): (rows: seq<RecipeIngredientRecipe>)
    ensures |rows| == n && forall k :: 0 <= k < n ==> rows[k] == RecipeIngredientRecipe(start + k, recipe)
    decreases n
  {
    if n == 0 then [] else [RecipeIngredientRecipe(start, recipe)] + NewLinks(start + 1, n - 1, recipe)
  }

  /** LinesOf unfolded once. */
  lemma LinesOfCons(links: seq<RecipeIngredientRecipe>, r: RecipeId)
    requires links != []
    ensures LinesOf(links, r) == (if links[0].recipe == r then [links[0].recipeIngredient] else []) + LinesOf(links[1..], r)
  {
  }

  /** Freshly attached lines are the recipe's lines from those join rows, in insertion order. */
  lemma {:induction false} LinesOfNewLinks(start: nat, n: nat, recipe: RecipeId)
    ensures LinesOf(NewLinks(start, n, recipe), recipe) == NewIds(start, n)
    decreases n
  {
    if n > 0 {
      LinesOfNewLinks(start + 1, n - 1, recipe);
      LinesOfCons(NewLinks(start, n, recipe), recipe);
    }
  }

  // ---------------------------------------------------------------------
  // What a write leaves alone

  /** A cascade that reaches no join row keeps the table as it is. */
  lemma {:induction false} LinksOutsideNone(links: seq<RecipeIngredientRecipe>, goneLines: set<LineId>, goneRecipes: set<RecipeId>)
    requires forall l :: l in links ==> l.recipeIngredient !in goneLines && l.recipe !in goneRecipes
    ensures LinksOutside(links, goneLines, goneRecipes) == links
    decreases |links|
  {
    if links != [] {
      assert links[0] in links;
      assert forall l :: l in links[1..] ==> l in links;
      LinksOutsideNone(links[1..], goneLines, goneRecipes);
      assert links == [links[0]] + links[1..];
    }
  }

  /** A cascade that reaches no Favorite row keeps the table as it is. */
  lemma {:induction false} FavoritesOutsideNone(favorites: seq<Favorite>, goneUsers: set<UserId>, goneRecipes: set<RecipeId>)
    requires forall f :: f in favorites ==> f.user !in goneUsers && f.recipe !in goneRecipes
    ensures FavoritesOutside(favorites, goneUsers, goneRecipes) == favorites
    decreases |favorites|
  {
    if favorites != [] {
      assert favorites[0] in favorites;
      assert forall f :: f in favorites[1..] ==> f in favorites;
      FavoritesOutsideNone(favorites[1..], goneUsers, goneRecipes);
      assert favorites == [favorites[0]] + favorites[1..];
    }
  }

  /** A cascade that reaches no ShoppingCart row keeps the table as it is. */
  lemma {:induction false} CartsOutsideNone(carts: seq<ShoppingCart>, goneUsers: set<UserId>, goneRecipes: set<RecipeId>)
    requires forall c :: c in carts ==> c.user !in goneUsers && c.recipe !in goneRecipes
    ensures CartsOutside(carts, goneUsers, goneRecipes) == carts
    decreases |carts|
  {
    if carts != [] {
      assert carts[0] in carts;
      assert forall c :: c in carts[1..] ==> c in carts;
      CartsOutsideNone(carts[1..], goneUsers, goneRecipes);
      assert carts == [carts[0]] + carts[1..];
    }
  }

  /** Removing recipes the order does not hold keeps the order as it is. */
  lemma {:induction false} OrderOutsideNone(order: seq<RecipeId>, gone: set<RecipeId>)
    requires forall x :: x in order ==> x !in gone
    ensures OrderOutside(order, gone) == order
    decreases |order|
  {
    if order != [] {
      assert order[0] in order;
      assert forall x :: x in order[1..] ==> x in order;
      OrderOutsideNone(order[1..], gone);
      assert order == [order[0]] + order[1..];
    }
  }

  /** Deleting a recipe that was put at the head of the order gives the order back. */
  lemma OrderOutsidePrepended(order: seq<RecipeId>, r: RecipeId)
    requires r !in order
    ensures OrderOutside([r] + order, {r}) == order
  {
    assert ([r] + order)[1..] == order;
    OrderOutsideNone(order, {r});
  }

  /** Deleting lines that recipe `o` does not use keeps the lines of `o`. */
  lemma {:induction false} LinesOfOutside(links: seq<RecipeIngredientRecipe>, gone: set<LineId>, o: RecipeId)
    requires forall l :: l in links && l.recipe == o ==> l.recipeIngredient !in gone
    ensures LinesOf(LinksOutside(links, gone, {}), o) == LinesOf(links, o)
    decreases |links|
  {
    if links != [] {
      assert links[0] in links;
      assert forall l :: l in links[1..] ==> l in links;
      LinesOfOutside(links[1..], gone, o);
      var l := links[0];
      var kept := (if l.recipeIngredient !in gone then [l] else []);
      LinesOfAppend(kept, LinksOutside(links[1..], gone, {}), o);
      LinesOfCons(links, o);
    }
  }

  /** In a table ordered by strictly increasing line id, a line is joined to one recipe at most. */
  lemma OneRecipePerLine(links: seq<RecipeIngredientRecipe>, id: LineId, r: RecipeId, o: RecipeId)
    requires LinksAscending(links)
    requires RecipeIngredientRecipe(id, r) in links && RecipeIngredientRecipe(id, o) in links
    ensures r == o
  {
    var i :| 0 <= i < |links| && links[i] == RecipeIngredientRecipe(id, r);
    var j :| 0 <= j < |links| && links[j] == RecipeIngredientRecipe(id, o);
    assert !(i < j) && !(j < i);
  }

  /** Join rows attaching lines to `recipe` give no line to another recipe. */
  lemma {:induction false} LinesOfOtherNewLinks(start: nat, n: nat, recipe: RecipeId, o: RecipeId)
    requires o != recipe
    ensures LinesOf(NewLinks(start, n, recipe), o) == []
    decreases n
  {
    if n > 0 {
      LinesOfOtherNewLinks(start + 1, n - 1, recipe, o);
      LinesOfCons(NewLinks(start, n, recipe), o);
    }
  }
}
