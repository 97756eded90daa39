/**
 * The endpoints of api/views.py that change or read membership rows:
 * adding and removing a recipe from the favorites and the shopping cart,
 * following and unfollowing an author, the list of followed authors, and
 * the plain-text shopping list. The requesting user is a parameter (the
 * endpoints require an authenticated user) and a response is its status.
 */
module Views {
  import opened Common
  import opened Strings
  import opened Tables
  import opened UserModels
  import opened RecipeModels
  import opened Persistence
  import opened Serializers

  // ---------------------------------------------------------------------
  // Favorites and the shopping cart

  /**
   * `RecipeViewSet.favorite`: the recipe is looked up first (404). A POST
   * inserts the (user, recipe) row, which the serializer's unique-together
   * check refuses when it exists (400); a DELETE removes the row, which
   * must exist (404).
   */
  method FavoriteAction(db: Database, user: UserId, pk: RecipeId, verb: Verb) returns (status: Status)
    requires db.Valid() && user in db.state.users
    modifies db
    ensures db.Valid()
    ensures pk !in old(db.state.recipes) ==> status == NotFound && db.state == old(db.state)
    ensures pk in old(db.state.recipes) && verb == Post ==>
      if Favorite(user, pk) in old(db.state.favorites) then status == BadRequest && db.state == old(db.state)
      else status == Created && db.state == old(db.state).(favorites := old(db.state.favorites) + [Favorite(user, pk)])
    ensures pk in old(db.state.recipes) && verb == Delete ==>
      if Favorite(user, pk) in old(db.state.favorites)
      then status == NoContent && db.state == old(db.state).(favorites := Without(old(db.state.favorites), Favorite(user, pk)))
      else status == NotFound && db.state == old(db.state)
    ensures status == Created ==> IsFavorited(db.state, Some(user), pk)
    ensures status == NoContent ==> !IsFavorited(db.state, Some(user), pk)
  {
    if pk !in db.state.recipes {
      return NotFound;
    }
    var row := Favorite(user, pk);
    if verb == Post {
      if row in db.state.favorites {
        return BadRequest;
      }
      db.InsertFavorite(row);
      return Created;
    }
    if row !in db.state.favorites {
      return NotFound;
    }
    db.DeleteFavorite(row);
    return NoContent;
  }

  /** `RecipeViewSet.shopping_cart`: the same protocol on the ShoppingCart table. */
  method ShoppingCartAction(db: Database, user: UserId, pk: RecipeId, verb: Verb) returns (status: Status)
    requires db.Valid() && user in db.state.users
    modifies db
    ensures db.Valid()
    ensures pk !in old(db.state.recipes) ==> status == NotFound && db.state == old(db.state)
    ensures pk in old(db.state.recipes) && verb == Post ==>
      if ShoppingCart(user, pk) in old(db.state.carts) then status == BadRequest && db.state == old(db.state)
      else status == Created && db.state == old(db.state).(carts := old(db.state.carts) + [ShoppingCart(user, pk)])
    ensures pk in old(db.state.recipes) && verb == Delete ==>
      if ShoppingCart(user, pk) in old(db.state.carts)
      then status == NoContent && db.state == old(db.state).(carts := Without(old(db.state.carts), ShoppingCart(user, pk)))
      else status == NotFound && db.state == old(db.state)
    ensures status == Created ==> IsInShoppingCart(db.state, Some(user), pk)
    ensures status == NoContent ==> !IsInShoppingCart(db.state, Some(user), pk)
  {
    if pk !in db.state.recipes {
      return NotFound;
    }
    var row := ShoppingCart(user, pk);
    if verb == Post {
      if row in db.state.carts {
        return BadRequest;
      }
      db.InsertCart(row);
      return Created;
    }
    if row !in db.state.carts {
      return NotFound;
    }
    db.DeleteCart(row);
    return NoContent;
  }

  // ---------------------------------------------------------------------
  // Subscriptions

  /**
   * `User.objects.filter(following__user=u)`: the authors `u` follows, one
   * row per edge, so an author followed through two edges is listed twice.
   */
  function Followed(edges: seq<Subscribe>, u: UserId): (authors: multiset<UserId>)
    ensures forall a :: authors[a] == multiset(edges)[Subscribe(u, a)]
    decreases |edges|
  {
    if edges == [] then multiset{}
    else
      assert edges == [edges[0]] + edges[1..];
      (if edges[0].user == u then multiset{edges[0].author} else multiset{}) + Followed(edges[1..], u)
  }

  /** The list holds exactly the users with an edge from `u`. */
  lemma FollowedAreAuthors(edges: seq<Subscribe>, u: UserId, a: UserId)
    ensures a in Followed(edges, u) <==> Subscribe(u, a) in edges
  {
    assert multiset(edges)[Subscribe(u, a)] > 0 <==> Subscribe(u, a) in edges;
  }

  /**
   * `UserSubscriptionsViewSet.post`: the author is looked up (404), the
   * serializer refuses following oneself (400), and an edge is inserted
   * (201) even when the same edge exists already.
   */
  method SubscribePost(db: Database, user: UserId, authorId: UserId) returns (status: Status)
    requires db.Valid() && user in db.state.users
    modifies db
    ensures db.Valid()
    ensures authorId !in old(db.state.users) ==> status == NotFound && db.state == old(db.state)
    ensures authorId in old(db.state.users) && user == authorId ==> status == BadRequest && db.state == old(db.state)
    ensures authorId in old(db.state.users) && user != authorId ==>
      status == Created && db.state == old(db.state).(subscriptions := old(db.state.subscriptions) + [Subscribe(user, authorId)])
  {
    if authorId !in db.state.users {
      return NotFound;
    }
    var checked := ValidateSubscribe(user, authorId);
    if checked.Failure? {
      return checked.error;
    }
    db.InsertSubscription(checked.value);
    return Created;
  }

  /**
   * `UserSubscriptionsViewSet.delete`: the author is looked up (404); no
   * edge gives 400; `Subscribe.objects.get` then needs exactly one edge,
   * and raises MultipleObjectsReturned (a server error) when there are
   * more; otherwise that edge is deleted (204).
   */
  method SubscribeDelete(db: Database, user: UserId, authorId: UserId) returns (status: Status)
    requires db.Valid() && user in db.state.users
    modifies db
    ensures db.Valid()
    ensures authorId !in old(db.state.users) ==> status == NotFound && db.state == old(db.state)
    ensures authorId in old(db.state.users) && Subscribe(user, authorId) !in old(db.state.subscriptions) ==>
      status == BadRequest && db.state == old(db.state)
    ensures authorId in old(db.state.users) && multiset(old(db.state.subscriptions))[Subscribe(user, authorId)] > 1 ==>
      status == ServerError && db.state == old(db.state)
    ensures authorId in old(db.state.users) && multiset(old(db.state.subscriptions))[Subscribe(user, authorId)] == 1 ==>
      && status == NoContent
      && db.state == old(db.state).(subscriptions := Without(old(db.state.subscriptions), Subscribe(user, authorId)))
      && multiset(db.state.subscriptions) == multiset(old(db.state.subscriptions)) - multiset{Subscribe(user, authorId)}
  {
    if authorId !in db.state.users {
      return NotFound;
    }
    var followed := Followed(db.state.subscriptions, user);
    if authorId !in followed {
      return BadRequest;
    }
    var edge := Subscribe(user, authorId);
    if followed[authorId] > 1 {
      return ServerError;
    }
    db.DeleteSubscription(edge);
    return NoContent;
  }

  /**
   * Following an author twice and then unfollowing: both POSTs answer 201
   * and the DELETE answers with a server error, the table keeping both edges.
   */
  method SubscribeTwiceThenDelete(db: Database, user: UserId, authorId: UserId) returns (first: Status, second: Status, third: Status)
    requires db.Valid() && user in db.state.users && authorId in db.state.users && user != authorId
    modifies db
    ensures first == Created && second == Created && third == ServerError
    ensures multiset(db.state.subscriptions)[Subscribe(user, authorId)] >= 2
  {
    first := SubscribePost(db, user, authorId);
    second := SubscribePost(db, user, authorId);
    third := SubscribeDelete(db, user, authorId);
  }

  // ---------------------------------------------------------------------
  // The shopping list

  /** One element of `ingredients_list`: ingredient name, amount and unit. */
  datatype Entry = Entry(name: string, amount: int, unit: string)

  /** `Recipe.objects.filter(carts__user=u)`: the recipes in `u`'s cart, newest first. */
  function CartRecipes(order: seq<RecipeId>, carts: seq<ShoppingCart>, u: UserId): (r: seq<RecipeId>)
    ensures forall id :: id in r <==> id in order && ShoppingCart(u, id) in carts
    decreases |order|
  {
    if order == [] then []
    else
      assert order == [order[0]] + order[1..];
      (if ShoppingCart(u, order[0]) in carts then [order[0]] else []) + CartRecipes(order[1..], carts, u)
  }

  /** Every line id names a line whose ingredient is in the catalogue. */
  ghost predicate Resolvable(s: State, ids: seq<LineId>)
  {
    forall k :: 0 <= k < |ids| ==> ids[k] in s.lines && s.lines[ids[k]].ingredient in s.ingredients
  }

  /** The entry of one line: its ingredient's name and unit, and its amount. */
  function EntryOf(s: State, id: LineId): Entry
    requires id in s.lines && s.lines[id].ingredient in s.ingredients
  {
    var line := s.lines[id];
    var ingredient := s.ingredients[line.ingredient];
    Entry(ingredient.name, line.amount, ingredient.measurementUnit)
  }

  /** The entries of the lines `ids`, in order. */
  function LineEntries(s: State, ids: seq<LineId>): (entries: seq<Entry>)
    requires Resolvable(s, ids)
    ensures |entries| == |ids|
  {
    if ids == [] then [] else LineEntries(s, ids[..|ids| - 1]) + [EntryOf(s, ids[|ids| - 1])]
  }

  /** Every recipe's lines resolve: what the foreign keys guarantee. */
  ghost predicate AllResolvable(s: State)
  {
    forall r :: Resolvable(s, LinesOf(s.links, r))
  }

  lemma ValidResolvable(s: State)
    requires StateValid(s)
    ensures AllResolvable(s)
  {
    forall r ensures Resolvable(s, LinesOf(s.links, r)) {
      var ids := LinesOf(s.links, r);
      forall k | 0 <= k < |ids| ensures ids[k] in s.lines && s.lines[ids[k]].ingredient in s.ingredients {
        assert RecipeIngredientRecipe(ids[k], r) in s.links;
      }
    }
  }

  /** `ingredients_list` for the recipes `recipes`: their lines' entries, recipe by recipe. */
  function RecipesEntries(s: State, recipes: seq<RecipeId>): seq<Entry>
    requires AllResolvable(s)
  {
    if recipes == [] then []
    else RecipesEntries(s, recipes[..|recipes| - 1]) + LineEntries(s, LinesOf(s.links, recipes[|recipes| - 1]))
  }

  /** The number of ingredient lines of the recipes `recipes`. */
  function LineCount(links: seq<RecipeIngredientRecipe>, recipes: seq<RecipeId>): nat
  {
    if recipes == [] then 0 else LineCount(links, recipes[..|recipes| - 1]) + |LinesOf(links, recipes[|recipes| - 1])|
  }

  /** One entry per ingredient line: lines of the same ingredient are not merged. */
  lemma {:induction false} EntryPerLine(s: State, recipes: seq<RecipeId>)
    requires AllResolvable(s)
    ensures |RecipesEntries(s, recipes)| == LineCount(s.links, recipes)
    decreases |recipes|
  {
    if recipes != [] {
      EntryPerLine(s, recipes[..|recipes| - 1]);
    }
  }

  /** The text of an entry, `f'{name} - {amount}, {unit}'`. */
  function EntryText(e: Entry): string
  {
    e.name + " - " + IntText(e.amount) + ", " + e.unit
  }

  /** The texts of the entries, in order. */
  function Texts(entries: seq<Entry>): seq<string>
  {
    seq(|entries|, k requires 0 <= k < |entries| => EntryText(entries[k]))
  }

  /** The response body: every entry's text after a newline, concatenated. */
  function Render(entries: seq<Entry>): string
  {
    Concat(Prefixed(Texts(entries), "\n"))
  }

  /** The shopping list of user `u` in state `s`. */
  function ShoppingList(s: State, u: UserId): string
    requires AllResolvable(s)
  {
    Render(RecipesEntries(s, CartRecipes(s.recipeOrder, s.carts, u)))
  }

  /** The inner loop of `download_shopping_cart`: one entry per line of a recipe. */
  method GatherLines(s: State, ids: seq<LineId>) returns (entries: seq<Entry>)
    requires Resolvable(s, ids)
    ensures entries == LineEntries(s, ids)
  {
    entries := [];
    for j := 0 to |ids|
      invariant entries == LineEntries(s, ids[..j])
    {
      var line := s.lines[ids[j]];
      var ingredient := s.ingredients[line.ingredient];
      entries := entries + [Entry(ingredient.name, line.amount, ingredient.measurementUnit)];
      assert ids[..j + 1][..j] == ids[..j];
    }
    assert ids[..|ids|] == ids;
  }

  /** The outer loop: the entries of every recipe in the cart, recipe by recipe. */
  method GatherRecipes(s: State, recipes: seq<RecipeId>) returns (ingredientsList: seq<Entry>)
    requires AllResolvable(s)
    ensures ingredientsList == RecipesEntries(s, recipes)
  {
    ingredientsList := [];
    for i := 0 to |recipes|
      invariant ingredientsList == RecipesEntries(s, recipes[..i])
    {
      var entries := GatherLines(s, LinesOf(s.links, recipes[i]));
      ingredientsList := ingredientsList + entries;
      assert recipes[..i + 1][..i] == recipes[..i];
    }
    assert recipes[..|recipes|] == recipes;
  }

  /** The second loop: each entry formatted on a line of its own. */
  method FormatEntries(ingredientsList: seq<Entry>) returns (shoppingCart: seq<string>)
    ensures shoppingCart == Prefixed(Texts(ingredientsList), "\n")
  {
    shoppingCart := [];
    for k := 0 to |ingredientsList|
      invariant |shoppingCart| == k
      invariant forall m :: 0 <= m < k ==> shoppingCart[m] == "\n" + EntryText(ingredientsList[m])
    {
      shoppingCart := shoppingCart + ["\n" + EntryText(ingredientsList[k])];
    }
  }

  /**
   * `download_shopping_cart`: the entries of the recipes in the cart,
   * formatted, and concatenated into the response body.
   */
  method DownloadShoppingCart(db: Database, u: UserId) returns (body: string)
    requires db.Valid()
    ensures AllResolvable(db.state) && body == ShoppingList(db.state, u)
  {
    ValidResolvable(db.state);
    var recipes := CartRecipes(db.state.recipeOrder, db.state.carts, u);
    var ingredientsList := GatherRecipes(db.state, recipes);
    var shoppingCart := FormatEntries(ingredientsList);
    body := Concat(shoppingCart);
  }

  /** No cart row of `u` selects no recipe. */
  lemma {:induction false} NoCartRows(order: seq<RecipeId>, carts: seq<ShoppingCart>, u: UserId)
    requires forall c :: c in carts ==> c.user != u
    ensures CartRecipes(order, carts, u) == []
    decreases |order|
  {
    if order != [] {
      assert ShoppingCart(u, order[0]) !in carts;
      NoCartRows(order[1..], carts, u);
    }
  }

  /** An empty cart gives an empty body. */
  lemma EmptyCart(s: State, u: UserId)
    requires AllResolvable(s)
    requires forall c :: c in s.carts ==> c.user != u
    ensures ShoppingList(s, u) == ""
  {
    NoCartRows(s.recipeOrder, s.carts, u);
  }

  /** No name or unit holds a line break. */
  predicate SingleLine(entries: seq<Entry>)
  {
    forall k :: 0 <= k < |entries| ==> '\n' !in entries[k].name && '\n' !in entries[k].unit
  }

  /** An entry's text holds no line break when its name and unit hold none. */
  lemma TextSingleLine(e: Entry)
    requires '\n' !in e.name && '\n' !in e.unit
    ensures '\n' !in EntryText(e)
  {
    IntTextLacks(e.amount, '\n');
  }

  /**
   * The body reads back line by line: splitting it at the line breaks
   * gives an empty first piece and then exactly one piece per entry,
   * its formatted text.
   */
  lemma RenderSplits(entries: seq<Entry>)
    requires SingleLine(entries)
    ensures Split(Render(entries), "\n") == [""] + Texts(entries)
  {
    var texts := Texts(entries);
    ConcatPrefixed(texts, "\n");
    forall k | 0 <= k < |[""] + texts| ensures "\n"[0] !in ([""] + texts)[k] {
      if k > 0 {
        TextSingleLine(entries[k - 1]);
      }
    }
    JoinSplit([""] + texts, "\n");
  }

  /** The body holds one line break per entry. */
  lemma RenderLineBreaks(entries: seq<Entry>)
    requires SingleLine(entries)
    ensures CountChar(Render(entries), '\n') == |entries|
  {
    var lines := Prefixed(Texts(entries), "\n");
    forall k | 0 <= k < |lines| ensures CountChar(lines[k], '\n') == 1 {
      TextSingleLine(entries[k]);
      CountCharLeading('\n', EntryText(entries[k]));
      assert lines[k] == ['\n'] + EntryText(entries[k]);
    }
    CountCharParts(lines, '\n');
  }
}
