# Foodgram backend: a Dafny model of recipe composition and membership tables

Foodgram is a recipe-sharing service built on Django REST framework. Users
publish recipes made of tagged ingredient lines. They mark recipes as
favorites, put them in a shopping cart and follow other authors. The cart
can then be downloaded as a plain-text shopping list.

This project models the part of the backend that changes or reads the
database:

- the schema of `recipes/models.py` and `users/models.py`. Its unique
  constraints, value bounds and foreign keys become one invariant
  (`Persistence.StateValid`), and its `on_delete=CASCADE` rules become the
  delete operations of `Persistence.Database`. The invariant also holds two
  facts that are not schema constraints but follow from how rows are
  created: every line id is below the next free key, and join rows sit in
  strictly increasing line id (`RecipeModels.LinksAscending`), so each line
  belongs to one recipe;
- `RecipeSerializer`: field validation, `validate`, `create`, `update`, and
  `CreateIngredients` with its three ways of ending (normally, with Http404
  for an unknown ingredient, or with ValueError);
- the `data:image/<ext>;base64,` header split of `Base64ImageField`;
- `is_favorited` / `is_in_shopping_cart`, the self-subscription check, and
  the `recipes_limit` slice and `recipes_count` of the subscription feed;
- the views `favorite`, `shopping_cart`, `download_shopping_cart`, and the
  subscription `get_queryset`, `post` and `delete`.

The database is a `class Database` with one field `state`, a record of
every table. Each ORM write is a method that replaces the state. Its
`ensures` give the whole new state and keep `Valid()`. The view and
serializer methods are proved against that state: which status they return,
and which rows they add or remove, on every path.

The model follows the code where the code and its description disagree:

- The shopping list is not merged by (name, unit). It holds one entry per
  ingredient line: newest recipe first (`ordering = ['-created']` of
  Recipe), then in line id order within a recipe (`Views.EntryPerLine`).
- Unsubscribing when there is no edge answers 400, not 404.
- `Subscribe` has no unique constraint on (user, author), so a second POST
  adds a duplicate edge. A DELETE then finds two rows in
  `Subscribe.objects.get`, which raises MultipleObjectsReturned, and the
  answer is a 500 (`Views.SubscribeTwiceThenDelete`).
- An unknown ingredient id in `create` raises Http404 out of
  `CreateIngredients`. Only `ValueError` is caught, so the new recipe and its
  tags stay behind with no ingredient lines.
- The `update` view is a PATCH (partial) update. A request that leaves out
  `ingredients` or `tags` passes field validation. `validate` then calls
  `len(None)`, so the answer is a 500. When `name` or `text` is missing,
  `update` raises KeyError, which is also a 500.
- In `update`, an unknown ingredient id also raises Http404. By that point
  the tags are replaced and the old lines deleted, but the name, text and
  image are not saved.
- Duplicate favorites or cart rows are refused with a 400. This relies on
  Django REST framework 3.15 or later, which turns the models'
  `UniqueConstraint` into a serializer validator (see "Left out").

Exceptions that Django turns into responses are modelled as the status
they produce: a validation error is 400, Http404 is 404, and any other
exception is 500.

## Model

| member | source | states |
|---|---|---|
| Persistence.Database.constructor | backend/recipes/models.py:11-26 | A database built from users with unique usernames and emails and tags with unique name, slug and color satisfies every schema invariant, and holds no recipes, lines or membership rows |
| Persistence.Database.InsertRecipe | backend/recipes/models.py:74-118 | Inserting a storable recipe (existing author, cooking time in [1, 32000], name not used by any recipe) adds exactly that row under a fresh key with an empty tag set, puts it first in the newest-first order, and keeps every invariant |
| Persistence.Database.SetTags | backend/recipes/models.py:93-96 | `tags.set` replaces the recipe's tag set by a set of existing tags; nothing else changes |
| Persistence.Database.SaveRecipe | backend/recipes/models.py:81-85 | Saving a row whose name no other recipe has rewrites only that recipe; name uniqueness and the bounds still hold |
| Persistence.Database.DeleteRecipe | backend/recipes/models.py:128-133 | Deleting a recipe removes its row, its tag set, its place in the order, its join rows, favorites and cart rows, and nothing else: ingredient lines stay. The new state is given in closed form (`RecipeDeleted`) |
| Persistence.Database.DeleteLinesOf | backend/recipes/models.py:121-127 | Deleting a recipe's lines removes them and, by cascade, their join rows; afterwards the recipe has no lines |
| Persistence.Database.DeleteIngredient | backend/recipes/models.py:52-58 | Deleting an ingredient removes it, every line using it, and the join rows of those lines; no remaining line refers to it |
| Persistence.Database.DeleteUser | backend/users/models.py:36-48 | Deleting a user removes every edge where they are follower or author, their recipes with all of those recipes' dependants, and their favorites and cart rows; nothing left refers to them |
| Persistence.Database.BulkCreateLines | backend/api/serializers.py:267 | The lines are inserted under consecutive fresh keys in list order, and every earlier line and join row is below the first new key |
| Persistence.Database.BulkCreateLinks | backend/api/serializers.py:268 | The join rows are appended; the recipe's lines become its old lines followed by the new keys in order, and the rows stay unique per (line, recipe) |
| Persistence.Database.InsertFavorite | backend/recipes/models.py:151-174 | Appending an absent (user, recipe) favorite keeps the favorites unique per pair |
| Persistence.Database.DeleteFavorite | backend/recipes/models.py:151-174 | Deleting the favorite row removes exactly that pair and keeps the table valid |
| Persistence.Database.InsertCart | backend/recipes/models.py:180-203 | Appending an absent (user, recipe) cart row keeps the cart rows unique per pair |
| Persistence.Database.DeleteCart | backend/recipes/models.py:180-203 | Deleting the cart row removes exactly that pair and keeps the table valid |
| Persistence.Database.InsertSubscription | backend/users/models.py:36-54 | An edge between two existing users is appended, even when it is already there |
| Persistence.Database.DeleteSubscription | backend/users/models.py:36-48 | Deleting the edge that `get` found, when it is the only copy of that pair, removes that one row and keeps the table valid |
| Persistence.RecipesGrow | backend/recipes/models.py:121-203 | The join, favorite and cart foreign keys still hold when the recipes table only gains keys |
| Persistence.RecipeTableAdded | backend/recipes/models.py:81-108 | Adding a storable recipe under the next key keeps names unique and cooking times in range |
| Persistence.OrderAdded | backend/recipes/models.py:114-115 | Putting the new recipe first keeps the order a duplicate-free list of exactly the stored recipes |
| Persistence.RecipeAdded | backend/recipes/models.py:74-118 | The state after a recipe insert satisfies the whole schema invariant |
| Persistence.RecipeRewritten | backend/recipes/models.py:81-85 | The state after rewriting one recipe row with a storable row satisfies the whole schema invariant |
| Persistence.RecipeReplaced | backend/recipes/models.py:81-85 | Replacing one recipe by a row whose name no other recipe has keeps the recipes table valid and its keys unchanged |
| Persistence.IngredientRemoved | backend/recipes/models.py:52-58 | The state after the ingredient cascade satisfies the whole schema invariant |
| RecipeModels.LinksOutside | backend/recipes/models.py:121-133 | The join rows kept are exactly those whose line and recipe both survive, and no row gains copies |
| RecipeModels.FavoritesOutside | backend/recipes/models.py:151-163 | The favorites kept are exactly those whose user and recipe both survive |
| RecipeModels.CartsOutside | backend/recipes/models.py:180-192 | The cart rows kept are exactly those whose user and recipe both survive |
| RecipeModels.OrderOutside | backend/recipes/models.py:114-115 | The order keeps exactly the surviving recipes |
| RecipeModels.LinksOutsideNone | backend/recipes/models.py:121-142 | A cascade that reaches no line and no recipe of any join row keeps the join table as it was |
| RecipeModels.FavoritesOutsideNone | backend/recipes/models.py:151-163 | A cascade that reaches no user and no recipe of any favorite keeps the favorites as they were |
| RecipeModels.CartsOutsideNone | backend/recipes/models.py:180-192 | A cascade that reaches no user and no recipe of any cart row keeps the cart rows as they were |
| RecipeModels.OrderOutsideNone | backend/recipes/models.py:114-115 | Removing recipes none of which is in the order keeps the order as it was |
| RecipeModels.OrderOutsidePrepended | backend/recipes/models.py:114-115 | Deleting the recipe that an insert put first gives back the order from before the insert |
| RecipeModels.LinesOfOutside | backend/recipes/models.py:121-127 | Deleting lines that a recipe does not use leaves that recipe's lines, in order, as they were |
| RecipeModels.OneRecipePerLine | backend/api/serializers.py:261-268 | A line has a join row to at most one recipe, since every line is created for the one recipe being written |
| RecipeModels.LinesOfOtherNewLinks | backend/api/serializers.py:261-266 | The join rows queued for one recipe give no line to any other recipe |
| RecipeModels.RecipesShrink | backend/recipes/models.py:74-108 | Removing recipes keeps name uniqueness, the bounds and the author keys valid |
| RecipeModels.RecipeTagsShrink | backend/recipes/models.py:93-96 | Removing recipes with their tag sets keeps the tag table in step with the recipes |
| RecipeModels.OrderShrink | backend/recipes/models.py:114-115 | Removing recipes from the order keeps it a duplicate-free list of exactly the stored recipes |
| RecipeModels.LinksShrink | backend/recipes/models.py:121-142 | Cascading deletes of lines or recipes keep every join row's foreign keys, the (line, recipe) uniqueness and the line-id order |
| RecipeModels.FavoritesShrink | backend/recipes/models.py:151-174 | Cascading deletes of users or recipes keep the favorites' foreign keys and uniqueness |
| RecipeModels.CartsShrink | backend/recipes/models.py:180-203 | Cascading deletes of users or recipes keep the cart rows' foreign keys and uniqueness |
| RecipeModels.LinesOf | backend/recipes/models.py:97-101 | A recipe's lines are exactly the lines with a join row to it |
| RecipeModels.LinesOfAppend | backend/recipes/models.py:97-101 | A recipe's lines in two concatenated join tables are its lines in the first, then in the second |
| RecipeModels.LinesOfAscending | backend/recipes/models.py:67-68 | A recipe's lines come in increasing line id, the `ordering = ['id']` of RecipeIngredient |
| RecipeModels.OutsideAscending | backend/recipes/models.py:67-68 | Deleting join rows keeps them in line-id order |
| RecipeModels.NoLinesLeft | backend/recipes/models.py:121-127 | Once every line of a recipe is deleted, the recipe has no line left |
| RecipeModels.NoLinesForUnknown | backend/recipes/models.py:128-133 | A recipe that is not stored has no lines |
| RecipeModels.AttachNewLines | backend/api/serializers.py:261-268 | Appending join rows from existing fresh lines to an existing recipe keeps the join table valid, and adds exactly the new line ids to that recipe's lines |
| RecipeModels.AscendingUnique | backend/recipes/models.py:137-142 | Join rows in strictly increasing line order are unique per (line, recipe) |
| RecipeModels.AppendAscending | backend/api/serializers.py:268 | Appending join rows with higher line ids keeps the line-id order |
| RecipeModels.NewIds | backend/api/serializers.py:267 | The new line ids are consecutive from the first free key |
| RecipeModels.NewLinks | backend/api/serializers.py:261-266 | The k-th queued join row joins the k-th new line to the recipe |
| RecipeModels.LinesOfNewLinks | backend/api/serializers.py:261-266 | The queued join rows give the recipe exactly the new line ids, in order |
| UserModels.EdgesWithout | backend/users/models.py:36-48 | The edges kept are exactly those that neither start nor end at the deleted user |
| UserModels.DeleteUserKeepsSchema | backend/users/models.py:14-23 | Deleting a user keeps usernames and emails unique and every remaining edge between existing users |
| UserModels.DuplicateEdgesAllowed | backend/users/models.py:53-54 | Two copies of the same (user, author) edge satisfy the schema invariant, so edges are not unique |
| Serializers.ParseImage | backend/api/serializers.py:49-57 | Only a string that starts with `data:image` is decoded. The header must split into exactly two pieces at `;base64,`, or unpacking fails. The extension is the last `/`-piece and has no `/`. The payload is everything after the marker and holds no marker |
| Serializers.ContentPiece | backend/api/serializers.py:52 | When `;base64,` splits a string in two, the second piece has no marker and ends the string right after one |
| Serializers.ParseDataUri | backend/api/serializers.py:51-53 | Building `data:image/<ext>;base64,<content>` and parsing it back gives the same extension and content |
| Serializers.MissingMarkerUnpack | backend/api/serializers.py:52 | A `data:image` string without `;base64,` makes the two-name unpack fail |
| Serializers.Validate | backend/api/serializers.py:86-135 | Data is accepted exactly when no field has an error, the image header unpacks, and both lists are present and non-empty. A header that does not unpack is a 500 before anything else; otherwise a field error is a 400; then a missing list in a partial update is a 500 and an empty list a 400, the ingredient list checked before the tags. Accepted data has every amount and the cooking time in [1, 32000], existing tags and a free name, and passes the lists and fields through unchanged |
| Serializers.PartialWithoutIngredients | backend/api/serializers.py:128-131 | A partial update that omits `ingredients` and is otherwise valid fails with a 500 from `len(None)` |
| Serializers.Requested | backend/api/serializers.py:249-260 | The queued lines follow the input list: the k-th has the k-th ingredient id and amount |
| Serializers.QueueLines | backend/api/serializers.py:246-266 | The loop succeeds exactly when every ingredient id is in the catalogue; it then queues one line and one join row per input pair, in input order |
| Serializers.RequestedInsertable | backend/api/serializers.py:253-257 | The queued lines of known ingredients with amounts in range may be stored |
| Serializers.InsertedAsRequested | backend/api/serializers.py:267 | Inserting the queued lines is inserting the lines the input list asks for |
| Serializers.InsertRequested | backend/api/serializers.py:267 | The first bulk insert adds exactly the requested lines under fresh keys, and keeps the invariant |
| Serializers.InsertQueued | backend/api/serializers.py:267-268 | The lines are always inserted; the join rows follow unless the join insert raises ValueError, and then none is |
| Serializers.CreateIngredients | backend/api/serializers.py:246-268 | Every id is looked up before any write, so an unknown id raises Http404 with the database untouched. Otherwise the lines are inserted, and then the join rows unless ValueError is raised |
| Serializers.Edited | backend/api/serializers.py:150-160 | The row `update` saves has the new name and text, the uploaded image only when one was sent (otherwise the stored one), and the old author and cooking time |
| Serializers.FreshComposition | backend/api/serializers.py:246-268 | A recipe with no lines that goes through a normal CreateIngredients is made of exactly the input pairs, one line each, in input order |
| Serializers.NumberedLines | backend/api/serializers.py:267-268 | The k-th new line id holds the k-th input ingredient and amount |
| Serializers.AcceptedStorable | backend/api/serializers.py:137-141 | The row `create` builds from accepted data may be inserted, and its tags exist |
| Serializers.InsertTagged | backend/api/serializers.py:141-142 | `Recipe.objects.create` then `tags.set` add exactly one recipe, by the requesting author, with the input tag set and no lines |
| Serializers.RolledBack | backend/api/serializers.py:141-146 | Deleting the recipe just created, before it got join rows, gives back the database from before `create` except for the inserted lines and the used recipe key |
| Serializers.Create | backend/api/serializers.py:137-148 | The status is 201, 404 or 400 as the ingredient lookup and the join insert end, and the whole new database is given for each (`CreateEnded`). 201: one new recipe with the requesting author, the input fields and tag set, one line per input pair in order, and no other change. 404: the recipe and its tags stay, with no lines. 400 (ValueError): the recipe is deleted again, so only the inserted lines remain |
| Serializers.CreateRecipe | backend/api/serializers.py:128-148 | Invalid data returns the validation status and changes nothing; an empty tag or ingredient list never creates a recipe; valid data ends exactly as `create` does on it, with the same status and the same new database |
| Serializers.CreateKeepsOthers | backend/api/serializers.py:137-148 | On every path of `create`, every existing recipe keeps its row, its tags and its lines, every existing line keeps its contents, and users, subscriptions, favorites and cart rows do not change |
| Serializers.ClearContents | backend/api/serializers.py:163-165 | `tags.clear()`, `tags.set` and the delete of the recipe's lines give the recipe the input tag set and no lines, and change nothing else (`Cleared`) |
| Serializers.ReplaceContents | backend/api/serializers.py:161-166 | The new database is the cleared one followed by CreateIngredients (`AfterIngredients` of `Cleared`): the tag set becomes the input tags and the old lines go. After a normal end the recipe is made of exactly the new lines; after Http404 it has none |
| Serializers.Refilled | backend/api/serializers.py:163-166 | After the clear and CreateIngredients the recipe has the input tag set, and either no lines (Http404) or exactly the requested ones (normal end) |
| Serializers.Update | backend/api/serializers.py:150-168 | The whole new database is given on every path (`UpdateEnded`). A missing name or text is a 500 with nothing changed. 200 exactly when every ingredient is known and no ValueError is raised; the row then has the new name, text, tags and lines, the image only when sent, and the old author and cooking time. 404: the tags are replaced and the lines removed, but the row is not saved. ValueError: a 500 after the same writes plus the new lines |
| Serializers.UpdateRecipe | backend/api/serializers.py:128-168 | An unknown recipe is a 404 and invalid data returns its validation status, both with nothing changed; valid data ends exactly as `update` does on it, with the same status and the same new database |
| Serializers.UpdateKeepsOthers | backend/api/serializers.py:150-168 | On every path of `update` of one recipe, every other recipe keeps its row, its tags, its lines and their contents, and users, subscriptions, favorites and cart rows do not change |
| Serializers.OtherLinesApart | backend/api/serializers.py:165 | In a valid database no line of another recipe is a line of the one being updated, so deleting its lines touches no other recipe |
| Serializers.ClearedKeepsOther | backend/api/serializers.py:163-165 | The clear and the line delete of one recipe keep the lines of another recipe and their contents |
| Serializers.RefilledKeepsOther | backend/api/serializers.py:166 | CreateIngredients for one recipe keeps the lines of another recipe and their contents |
| Serializers.HasFavorite | backend/api/serializers.py:121 | The scan finds a favorite exactly when the (user, recipe) row exists |
| Serializers.HasCart | backend/api/serializers.py:126 | The scan finds a cart row exactly when the (user, recipe) row exists |
| Serializers.IsFavorited | backend/api/serializers.py:118-121 | True exactly when the requester is authenticated and has favorited the recipe |
| Serializers.IsInShoppingCart | backend/api/serializers.py:123-126 | True exactly when the requester is authenticated and has the recipe in their cart |
| Serializers.ValidateSubscribe | backend/api/serializers.py:209-212 | Refused with 400 exactly when user and author are the same; otherwise the edge is (user, author) |
| Serializers.AuthorRecipes | backend/api/serializers.py:229 | The author's recipes are exactly the stored recipes by that author, newest first, without repeats |
| Serializers.DistinctLength | backend/api/serializers.py:236-237 | A list without repeats is as long as the set of its elements |
| Serializers.RecipesCount | backend/api/serializers.py:236-237 | `recipes_count` is 0 exactly when the author has no recipes |
| Serializers.FeedCount | backend/api/serializers.py:226-237 | The unsliced feed has exactly `recipes_count` recipes |
| Serializers.Feed | backend/api/serializers.py:226-234 | With no `recipes_limit`, or an empty one, the feed is all the author's recipes. A non-integer or negative limit is a 500. An integer n gives a prefix of length min(n, k) |
| Serializers.LimitedFeed | backend/api/serializers.py:226-237 | For every n, `recipes_limit = str(n)` gives a prefix of min(n, recipes_count) recipes |
| Views.FavoriteAction | backend/api/views.py:104-124 | An unknown recipe is a 404 with nothing changed. POST appends the pair (201), or answers 400 when it exists. DELETE removes exactly that pair (204), or answers 404 when absent. Only the favorites table changes |
| Views.ShoppingCartAction | backend/api/views.py:51-70 | An unknown recipe is a 404 with nothing changed. POST appends the pair (201), or answers 400 when it exists. DELETE removes exactly that pair (204), or answers 404 when absent. Only the cart table changes |
| Views.Followed | backend/api/views.py:131-132 | The listed authors are the users with an edge from the requester, each as many times as there are such edges |
| Views.FollowedAreAuthors | backend/api/views.py:131-132 | A user is listed exactly when the requester follows them |
| Views.SubscribePost | backend/api/views.py:134-142 | An unknown author is a 404 and following oneself a 400, both with nothing changed. Otherwise one edge is appended (201) |
| Views.SubscribeDelete | backend/api/views.py:144-150 | An unknown author is a 404 and no edge is a 400, both with nothing changed. Two or more edges is a 500 (MultipleObjectsReturned). Exactly one edge is removed with a 204 |
| Views.SubscribeTwiceThenDelete | backend/api/views.py:134-150 | Following the same author twice succeeds twice, and the unsubscribe that follows fails with a 500 |
| Views.CartRecipes | backend/api/views.py:79 | The recipes listed are exactly the stored recipes in the user's cart, newest first |
| Views.LineEntries | backend/api/views.py:81-91 | One entry per line of the recipe |
| Views.ValidResolvable | backend/recipes/models.py:52-58 | In a valid state every line of every recipe names a catalogue ingredient, so the list can be built |
| Views.EntryPerLine | backend/api/views.py:78-91 | `ingredients_list` has exactly one entry per ingredient line of the recipes in the cart. Entries with the same name and unit are not merged |
| Views.GatherLines | backend/api/views.py:81-91 | The inner loop builds the entries of a recipe's lines, in line order |
| Views.GatherRecipes | backend/api/views.py:78-91 | The outer loop builds the entries of every recipe in turn |
| Views.FormatEntries | backend/api/views.py:92-97 | The second loop yields `"\n" + name + " - " + amount + ", " + unit` for each entry, in order |
| Views.DownloadShoppingCart | backend/api/views.py:77-102 | The body is the shopping list of the requesting user, as defined by the cart, the lines and the formatting above |
| Views.NoCartRows | backend/api/views.py:79 | A user without cart rows has no recipes in the cart |
| Views.EmptyCart | backend/api/views.py:77-98 | An empty cart gives an empty body |
| Views.TextSingleLine | backend/api/views.py:97 | An entry whose name and unit hold no newline formats to a text without newline |
| Views.RenderSplits | backend/api/views.py:92-98 | Splitting the body at newlines gives an empty first piece and then exactly the entry texts, in order |
| Views.RenderLineBreaks | backend/api/views.py:92-98 | The body holds exactly one newline per entry |
| Strings.SplitJoin | backend/api/serializers.py:52-53 | Joining the pieces of `str.split` with the separator restores the string |
| Strings.JoinSplit | backend/api/serializers.py:52-53 | Splitting a join of pieces that have no separator gives those pieces back |
| Strings.SplitPieceLacksSep | backend/api/serializers.py:52-53 | No piece of `str.split` contains the separator |
| Strings.SplitTwo | backend/api/serializers.py:52 | A string made of a marker-free head, the marker and a marker-free tail splits into exactly those two pieces |
| Strings.DecimalRoundTrip | backend/api/views.py:97 | The decimal text of a natural number reads back as that number |
| Strings.IntTextRoundTrip | backend/api/serializers.py:231 | `int(str(n)) == n` for every integer n |
| Strings.IntTextLacks | backend/api/views.py:97 | The text of an integer has only digits and a minus sign |
| Strings.CountCharParts | backend/api/views.py:98 | Concatenating pieces that each hold one newline gives as many newlines as pieces |
| Strings.ConcatPrefixed | backend/api/views.py:97-98 | Concatenating the pieces each prefixed by the separator equals joining an empty first piece and the pieces |
| Tables.Without | backend/api/views.py:68-69 | Removing a row keeps every other row and its multiplicity, and drops every copy of that row |
| Tables.RemoveOne | backend/api/views.py:122-123 | In a table without duplicates, removing a present row shortens it by exactly that one row and keeps it duplicate-free |
| Tables.WithoutAppended | backend/api/views.py:56-70 | Removing a row just appended to a table that lacked it restores the table, so a successful cart or favorite POST followed by a DELETE of the same pair leaves the table as it was |

## Left out

- Authentication, permissions (`IsAuthorOrReadOnly`) and filters are not modelled. The requesting user is a parameter, and every call is made by a user allowed to make it.
- Pagination, the JSON bodies of responses and the read serializers' other fields are left out. A response is its status code.
- Base64 decoding, Pillow's image check and file storage are library calls and are not modelled. An image is its extension and its encoded payload, and the recipe row holds that upload itself. The file name under which storage saves it (`temp.<ext>` in `recipes/images/`, renamed by storage when taken) is not modelled.
- Serializers.Validate, Serializers.Update: in a partial update, Django REST framework also skips the missing required fields of each element of `ingredients`, so an element without `id` or without `amount` passes validation. `update` then clears the tags and deletes the lines before `CreateIngredients` fails: with an AttributeError for a missing `id`, or an IntegrityError from `bulk_create` for a missing `amount`, both a 500. The model's list elements always carry both fields, so this path is not represented.
- Serializers.Validate: CharField's stripping of surrounding whitespace is not modelled, so a blank name or text means an empty one.
- Serializers.Feed: `int()` also accepts surrounding whitespace, a leading `+` and digit underscores. The model reads only optional `-` followed by digits, and treats every other text as the ValueError (500).
- `created` timestamps are left out. The newest-first order of recipes is kept as an explicit list, and favorites and cart rows as lists in insertion order.
- Views.Followed: the subscription list comes ordered by the followed author's id (`ordering = ['id']` of User, backend/users/models.py:29-30). The model gives the listed authors as a multiset and does not model that order.
- The ORM and PostgreSQL are reduced to tables held in maps and lists. Keys come from counters. Transactions, querysets and the SQL are not modelled.
- Views.FavoriteAction, Views.ShoppingCartAction: the 400 for a pair that already exists assumes Django REST framework 3.15 or later, which turns the models' `UniqueConstraint` (backend/recipes/models.py:169-174, 198-203) into a serializer validator. With an earlier version the insert raises IntegrityError, a 500, which the model does not give.
- Serializers.CreateIngredients: the ValueError from the join-row insert is a boolean parameter (`joinInsertRaises`). The model does not derive when Django raises it.
- The tag, ingredient and user view sets, user registration and the admin are outside this model, and so are `settings.py` and `urls.py`.
- Tags and the ingredient catalogue are given when the database is built. No operation in the model changes them, apart from the ingredient cascade.
- Field lengths are enforced only for the recipe name. The other `max_length` bounds are not checked.
