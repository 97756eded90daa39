/**
 * The serializers of the API: the image header of a `data:` URI, the
 * validation of a recipe payload, the writes of `create` and `update`
 * (with `CreateIngredients`), the subscription feed, and the
 * `is_favorited` / `is_in_shopping_cart` flags.
 */
module Serializers {
  import opened Common
  import opened Strings
  import opened Tables
  import opened UserModels
  import opened RecipeModels
  import opened Persistence

  // ---------------------------------------------------------------------
  // Base64ImageField

  const IMAGE_PREFIX := "data:image"
  const BASE64_MARKER := ";base64,"

  /**
   * `NotAFile`: the string is no data URI, so ImageField reports that no
   * file was submitted (a validation error). `Unpack`: the header split
   * does not give exactly two pieces, and the tuple unpacking raises a
   * ValueError, which DRF does not catch.
   */
  datatype ImageError = NotAFile | Unpack

  predicate EndsWith(s: string, suffix: string)
  {
    |suffix| <= |s| && s[|s| - |suffix|..] == suffix
  }

  /** A string of the shape the client is expected to send. */
  function DataUri(ext: string, content: string): string
  {
    IMAGE_PREFIX + "/" + ext + BASE64_MARKER + content
  }

  /** `Base64ImageField.to_internal_value` on a string, up to the decoding of the content. */
  function ParseImage(data: string): (r: Result<ImageFile, ImageError>)
    ensures r == Failure(NotAFile) <==> !(IMAGE_PREFIX <= data)
    ensures r.Success? ==> Find(r.value.ext, "/").None? && Find(r.value.content, BASE64_MARKER).None?
    ensures r.Success? ==> EndsWith(data, BASE64_MARKER + r.value.content)
  {
    if !(IMAGE_PREFIX <= data) then Failure(NotAFile)
    else
      var parts := Split(data, BASE64_MARKER);
      if |parts| != 2 then Failure(Unpack)
      else
        var format := Split(parts[0], "/");
        ContentPiece(data);
        SplitPieceLacksSep(parts[0], "/", |format| - 1);
        Success(ImageFile(format[|format| - 1], parts[1]))
  }

  /** When the marker splits a string in two, the second piece is marker-free and ends the string after a marker. */
  lemma ContentPiece(data: string)
    requires |Split(data, BASE64_MARKER)| == 2
    ensures Find(Split(data, BASE64_MARKER)[1], BASE64_MARKER).None?
    ensures EndsWith(data, BASE64_MARKER + Split(data, BASE64_MARKER)[1])
  {
    var parts := Split(data, BASE64_MARKER);
    SplitPieceLacksSep(data, BASE64_MARKER, 1);
    SplitJoin(data, BASE64_MARKER);
    assert data == parts[0] + BASE64_MARKER + parts[1];
    assert data[|data| - |BASE64_MARKER + parts[1]|..] == BASE64_MARKER + parts[1];
  }

  /** A well-formed data URI is parsed back into its extension and content. */
  lemma ParseDataUri(ext: string, content: string)
    requires '/' !in ext && ';' !in ext && ';' !in content
    ensures ParseImage(DataUri(ext, content)) == Success(ImageFile(ext, content))
  {
    var head := IMAGE_PREFIX + "/" + ext;
    assert DataUri(ext, content) == head + BASE64_MARKER + content;
    assert IMAGE_PREFIX <= DataUri(ext, content);
    NoFirstCharNoFind(content, BASE64_MARKER);
    assert ';' !in head by {
      assert forall i :: 0 <= i < |head| ==> head[i] == (if i < |IMAGE_PREFIX| + 1 then (IMAGE_PREFIX + "/")[i] else ext[i - |IMAGE_PREFIX| - 1]);
    }
    SplitTwo(head, BASE64_MARKER, content);
    NoFirstCharNoFind(ext, "/");
    assert '/' !in IMAGE_PREFIX;
    SplitTwo(IMAGE_PREFIX, "/", ext);
  }

  /** A data URI without the marker cannot be unpacked into two pieces. */
  lemma MissingMarkerUnpack(data: string)
    requires IMAGE_PREFIX <= data && Find(data, BASE64_MARKER).None?
    ensures ParseImage(data) == Failure(Unpack)
  {
  }

  // ---------------------------------------------------------------------
  // RecipeSerializer: validation

  /** One element of the `ingredients` list: an ingredient id and an amount. */
  datatype IngredientAmount = IngredientAmount(id: IngredientId, amount: int)

  /** The writable fields of a recipe request; `None` is a key the request leaves out. */
  datatype RecipePayload = RecipePayload(
    name: Option<string>,
    image: Option<string>,
    text: Option<string>,
    cookingTime: Option<int>,
    tags: Option<seq<TagId>>,
    ingredients: Option<seq<IngredientAmount>>)

  /** `validated_data`: what `create` and `update` receive. */
  datatype Validated = Validated(
    name: Option<string>,
    image: Option<ImageFile>,
    text: Option<string>,
    cookingTime: Option<int>,
    tags: seq<TagId>,
    ingredients: seq<IngredientAmount>)

  /** The `max_length` of Recipe.name. */
  const NAME_MAX_LENGTH := 50

  /** Another recipe than `instance` already has this name (the UniqueValidator of the field). */
  predicate NameTaken(recipes: map<RecipeId, Recipe>, name: string, instance: Option<RecipeId>)
  {
    exists r :: r in recipes && Some(r) != instance && recipes[r].name == name
  }

  /** A required field is missing; a partial update requires none. */
  predicate MissingField(p: RecipePayload, partial: bool)
  {
    !partial && (p.name.None? || p.image.None? || p.text.None? || p.cookingTime.None? || p.tags.None? || p.ingredients.None?)
  }

  predicate ImageUnpackFails(p: RecipePayload)
  {
    p.image.Some? && ParseImage(p.image.value) == Failure(Unpack)
  }

  /**
   * A field reports a validation error: a required field is missing, a
   * tag id names no tag, the name is blank, too long or taken, an amount
   * or the cooking time is out of range, the image is no data URI, or the
   * text is blank.
   */
  predicate FieldError(s: State, p: RecipePayload, instance: Option<RecipeId>)
  {
    || MissingField(p, instance.Some?)
    || (p.tags.Some? && exists k :: 0 <= k < |p.tags.value| && p.tags.value[k] !in s.tags)
    || (p.name.Some? && (p.name.value == [] || |p.name.value| > NAME_MAX_LENGTH || NameTaken(s.recipes, p.name.value, instance)))
    || (p.ingredients.Some? && exists k :: 0 <= k < |p.ingredients.value| && !InRange(p.ingredients.value[k].amount))
    || (p.image.Some? && ParseImage(p.image.value) == Failure(NotAFile))
    || (p.text.Some? && p.text.value == [])
    || (p.cookingTime.Some? && !InRange(p.cookingTime.value))
  }

  /**
   * `is_valid()` of RecipeSerializer, for a create (`instance == None`) or
   * a partial update of `instance`. The fields are validated first and
   * their errors collected, except the ValueError of the image header,
   * which escapes as a server error; then `validate` takes `len` of the
   * two lists, which raises a TypeError (a server error) when a partial
   * update leaves a list out.
   */
  function Validate(s: State, p: RecipePayload, instance: Option<RecipeId>): (r: Result<Validated, Status>)
    ensures r.Failure? ==> r.error == BadRequest || r.error == ServerError
    ensures ImageUnpackFails(p) ==> r == Failure(ServerError)
    ensures !ImageUnpackFails(p) && FieldError(s, p, instance) ==> r == Failure(BadRequest)
    ensures !ImageUnpackFails(p) && !FieldError(s, p, instance) ==>
      && (p.ingredients.None? || (p.ingredients.value != [] && p.tags.None?) ==> r == Failure(ServerError))
      && (p.ingredients == Some([]) || (p.ingredients.Some? && p.ingredients.value != [] && p.tags == Some([])) ==>
            r == Failure(BadRequest))
    ensures r.Success? <==>
      && !ImageUnpackFails(p) && !FieldError(s, p, instance)
      && p.ingredients.Some? && |p.ingredients.value| > 0
      && p.tags.Some? && |p.tags.value| > 0
    ensures p.ingredients == Some([]) || p.tags == Some([]) ==> r.Failure?
    ensures r.Success? ==>
      && r.value.tags == p.tags.value && r.value.ingredients == p.ingredients.value
      && r.value.name == p.name && r.value.text == p.text && r.value.cookingTime == p.cookingTime
    ensures r.Success? ==> Accepted(s, r.value, instance)
  {
    if ImageUnpackFails(p) then Failure(ServerError)
    else if FieldError(s, p, instance) then Failure(BadRequest)
    else if p.ingredients.None? then Failure(ServerError)
    else if |p.ingredients.value| <= 0 then Failure(BadRequest)
    else if p.tags.None? then Failure(ServerError)
    else if |p.tags.value| <= 0 then Failure(BadRequest)
    else
      var image := if p.image.Some? then Some(ParseImage(p.image.value).value) else None;
      Success(Validated(p.name, image, p.text, p.cookingTime, p.tags.value, p.ingredients.value))
  }

  /**
   * What accepted data satisfies: both lists are non-empty, every tag
   * exists, every amount and the cooking time lie in [MIN_VALUE,
   * MAX_VALUE], the name is free, and a create has every field.
   */
  ghost predicate Accepted(s: State, v: Validated, instance: Option<RecipeId>)
  {
    && |v.tags| > 0 && (forall t :: t in v.tags ==> t in s.tags)
    && |v.ingredients| > 0 && (forall k :: 0 <= k < |v.ingredients| ==> InRange(v.ingredients[k].amount))
    && (v.cookingTime.Some? ==> InRange(v.cookingTime.value))
    && (v.name.Some? ==>
          && v.name.value != [] && |v.name.value| <= NAME_MAX_LENGTH
          && forall r :: r in s.recipes && Some(r) != instance ==> s.recipes[r].name != v.name.value)
    && (v.text.Some? ==> v.text.value != [])
    && (instance.None? ==> v.name.Some? && v.image.Some? && v.text.Some? && v.cookingTime.Some?)
  }

  /**
   * A partial update that leaves out the ingredient list, and is otherwise
   * valid, fails with a server error rather than a validation error.
   */
  lemma PartialWithoutIngredients(s: State, p: RecipePayload, r: RecipeId)
    requires !ImageUnpackFails(p) && !FieldError(s, p, Some(r)) && p.ingredients.None?
    ensures Validate(s, p, Some(r)) == Failure(ServerError)
  {
  }

  // ---------------------------------------------------------------------
  // CreateIngredients, create and update

  /** How a call ended: normally, or with the exception it raised. */
  datatype Raised = Nothing | Http404 | ValueError

  /** How CreateIngredients ends, given whether every id is known and whether the join insert raises. */
  function Outcome(known: bool, joinInsertRaises: bool): Raised
  {
    if !known then Http404 else if joinInsertRaises then ValueError else Nothing
  }

  /** Every ingredient id of the list names a catalogue row. */
  predicate AllKnown(items: seq<IngredientAmount>, ingredients: map<IngredientId, Ingredient>)
  {
    forall k :: 0 <= k < |items| ==> items[k].id in ingredients
  }

  /** The lines the list asks for, in list order. */
  function Requested(items: seq<IngredientAmount>): (lines: seq<RecipeIngredient>)
    ensures |lines| == |items|
    ensures forall k :: 0 <= k < |items| ==> lines[k] == RecipeIngredient(items[k].id, items[k].amount)
  {
    if items == [] then [] else [RecipeIngredient(items[0].id, items[0].amount)] + Requested(items[1..])
  }

  /**
   * Recipe `r` is made of exactly the lines `items` asks for: its k-th
   * line (in line order) has the k-th ingredient id and amount.
   */
  ghost predicate ComposedOf(s: State, r: RecipeId, items: seq<IngredientAmount>)
  {
    && |LinesOf(s.links, r)| == |items|
    && forall k :: 0 <= k < |items| ==>
         LinesOf(s.links, r)[k] in s.lines && s.lines[LinesOf(s.links, r)[k]] == RecipeIngredient(items[k].id, items[k].amount)
  }

  /**
   * The loop of CreateIngredients: each ingredient id is looked up in
   * turn, and the line and its join row are queued; `found` is false at
   * the first id the catalogue lacks.
   */
  method QueueLines(catalogue: map<IngredientId, Ingredient>, items: seq<IngredientAmount>, next: nat, recipe: RecipeId)
    returns (found: bool, pending: seq<RecipeIngredient>, joins: seq<RecipeIngredientRecipe>)
    ensures found <==> AllKnown(items, catalogue)
    ensures found ==> pending == Requested(items) && joins == NewLinks(next, |items|, recipe)
  {
    pending := [];
    joins := [];
    for i := 0 to |items|
      invariant |pending| == i && forall k :: 0 <= k < i ==> pending[k] == RecipeIngredient(items[k].id, items[k].amount)
      invariant |joins| == i && forall k :: 0 <= k < i ==> joins[k] == RecipeIngredientRecipe(next + k, recipe)
      invariant forall k :: 0 <= k < i ==> items[k].id in catalogue
    {
      if items[i].id !in catalogue {
        return false, pending, joins;
      }
      pending := pending + [RecipeIngredient(items[i].id, items[i].amount)];
      // The join row points at the key its line is about to receive.
      joins := joins + [RecipeIngredientRecipe(next + i, recipe)];
    }
    found := true;
  }

  /** The database once the lines `items` asks for are inserted, numbered from the next free line key. */
  ghost function LinesInserted(s: State, items: seq<IngredientAmount>): State
  {
    s.(lines := s.lines + NewLines(s.nextLineId, Requested(items)), nextLineId := s.nextLineId + |items|)
  }

  /**
   * The database after CreateIngredients ended with `raised`: untouched
   * after Http404; after ValueError the lines are in but no join row; after
   * a normal end both the lines and their join rows are in.
   */
  ghost function AfterIngredients(s: State, items: seq<IngredientAmount>, recipe: RecipeId, raised: Raised): State
  {
    match raised
    case Http404 => s
    case ValueError => LinesInserted(s, items)
    case Nothing => LinesInserted(s, items).(links := s.links + NewLinks(s.nextLineId, |items|, recipe))
  }

  /** The lines a list of known ingredients with amounts in range asks for may be inserted. */
  lemma RequestedInsertable(items: seq<IngredientAmount>, ingredients: map<IngredientId, Ingredient>)
    requires AllKnown(items, ingredients) && forall k :: 0 <= k < |items| ==> InRange(items[k].amount)
    ensures forall k :: 0 <= k < |items| ==> Requested(items)[k].ingredient in ingredients && InRange(Requested(items)[k].amount)
  {
  }

  /** Inserting the queued lines is inserting the lines the list asks for. */
  lemma InsertedAsRequested(s0: State, s1: State, pending: seq<RecipeIngredient>, items: seq<IngredientAmount>)
    requires pending == Requested(items)
    requires s1 == s0.(lines := s0.lines + NewLines(s0.nextLineId, pending), nextLineId := s0.nextLineId + |pending|)
    ensures s1 == LinesInserted(s0, items)
  {
  }

  /** The first `bulk_create` of CreateIngredients: the queued lines, numbered from the next free key. */
  method InsertRequested(db: Database, pending: seq<RecipeIngredient>, ghost items: seq<IngredientAmount>)
    returns (start: nat)
    requires db.Valid()
    requires AllKnown(items, db.state.ingredients) && forall k :: 0 <= k < |items| ==> InRange(items[k].amount)
    requires pending == Requested(items)
    modifies db
    ensures db.Valid()
    ensures start == old(db.state.nextLineId)
    ensures db.state == LinesInserted(old(db.state), items)
    ensures forall id :: InBlock(start, |items|, id) ==> id in db.state.lines
    ensures forall l :: l in db.state.links ==> l.recipeIngredient < start
  {
    RequestedInsertable(items, db.state.ingredients);
    ghost var s0 := db.state;
    start := db.BulkCreateLines(pending);
    InsertedAsRequested(s0, db.state, pending, items);
  }

  /**
   * The two `bulk_create` calls that end CreateIngredients: the queued
   * lines, then the queued join rows, which the backend refuses when
   * `joinInsertRaises`.
   */
  method InsertQueued(db: Database, pending: seq<RecipeIngredient>, joins: seq<RecipeIngredientRecipe>,
                      ghost items: seq<IngredientAmount>, recipe: RecipeId, joinInsertRaises: bool)
    returns (raised: Raised)
    requires db.Valid() && recipe in db.state.recipes
    requires AllKnown(items, db.state.ingredients) && forall k :: 0 <= k < |items| ==> InRange(items[k].amount)
    requires pending == Requested(items) && joins == NewLinks(db.state.nextLineId, |items|, recipe)
    modifies db
    ensures db.Valid()
    ensures raised == (if joinInsertRaises then ValueError else Nothing)
    ensures db.state == AfterIngredients(old(db.state), items, recipe, raised)
  {
    var start := InsertRequested(db, pending, items);
    if joinInsertRaises {
      return ValueError;
    }
    db.BulkCreateLinks(joins, start, recipe);
    return Nothing;
  }

  /**
   * `CreateIngredients(ingredients, recipe)`: every ingredient id is
   * looked up before anything is written, so an unknown one raises Http404
   * with the database untouched. Then the lines are inserted, and then the
   * join rows; `joinInsertRaises` stands for the backend refusing the join
   * rows because the lines they point at came back without keys, which
   * Django reports with a ValueError.
   */
  method CreateIngredients(db: Database, items: seq<IngredientAmount>, recipe: RecipeId, joinInsertRaises: bool)
    returns (raised: Raised)
    requires db.Valid() && recipe in db.state.recipes
    requires forall k :: 0 <= k < |items| ==> InRange(items[k].amount)
    modifies db
    ensures db.Valid()
    ensures raised == Outcome(AllKnown(items, old(db.state.ingredients)), joinInsertRaises)
    ensures db.state == AfterIngredients(old(db.state), items, recipe, raised)
  {
    var found, pending, joins := QueueLines(db.state.ingredients, items, db.state.nextLineId, recipe);
    if !found {
      return Http404;
    }
    raised := InsertQueued(db, pending, joins, items, recipe, joinInsertRaises);
  }

  /** The tag set a list of tag ids stands for; `tags.set` ignores repetitions. */
  function TagSet(tags: seq<TagId>): set<TagId>
  {
    set t | t in tags
  }

  /** The row `create` inserts for accepted data of a create, which has every field. */
  function NewRecipe(author: UserId, v: Validated): Recipe
    requires v.name.Some? && v.image.Some? && v.text.Some? && v.cookingTime.Some?
  {
    Recipe(author, v.name.value, v.image.value, v.text.value, v.cookingTime.value)
  }

  /**
   * The row `update` saves: name and text from the request, the image only
   * when one was sent, and the author and cooking time as they were.
   */
  function Edited(row: Recipe, v: Validated): (r: Recipe)
    requires v.name.Some? && v.text.Some?
    ensures r.author == row.author && r.cookingTime == row.cookingTime
    ensures r.name == v.name.value && r.text == v.text.value
    ensures r.image == (if v.image.Some? then v.image.value else row.image)
  {
    var named := row.(name := v.name.value);
    var pictured := if v.image.Some? then named.(image := v.image.value) else named;
    pictured.(text := v.text.value)
  }

  /** The row of `r` and its tag set are as written. */
  ghost predicate Written(s: State, r: RecipeId, row: Recipe, tags: seq<TagId>)
  {
    r in s.recipes && s.recipes[r] == row && r in s.recipeTags && s.recipeTags[r] == TagSet(tags)
  }

  /**
   * `s` is `s0` after creating recipe `id` by `author` from accepted data
   * `v`: a new row with the data's fields, the data's tags, and one line
   * per element of the ingredient list, in list order.
   */
  ghost predicate CreatedAs(s0: State, s: State, id: RecipeId, author: UserId, v: Validated)
  {
    && v.name.Some? && v.image.Some? && v.text.Some? && v.cookingTime.Some?
    && id !in s0.recipes
    && Written(s, id, NewRecipe(author, v), v.tags)
    && ComposedOf(s, id, v.ingredients)
  }

  /**
   * `s` is `s0` after updating recipe `r` from accepted data `v`: only the
   * row of `r` changed among the recipes, to the edited row, and its tags
   * and lines are the data's.
   */
  ghost predicate UpdatedAs(s0: State, s: State, r: RecipeId, v: Validated)
  {
    && r in s0.recipes && v.name.Some? && v.text.Some?
    && s.recipes == s0.recipes[r := Edited(s0.recipes[r], v)]
    && Written(s, r, Edited(s0.recipes[r], v), v.tags)
    && ComposedOf(s, r, v.ingredients)
  }

  /** A recipe without lines that CreateIngredients ends normally on is composed of the list. */
  lemma FreshComposition(s0: State, s: State, r: RecipeId, items: seq<IngredientAmount>)
    requires LinesOf(s0.links, r) == []
    requires s == AfterIngredients(s0, items, r, Nothing)
    ensures ComposedOf(s, r, items)
  {
    var start := s0.nextLineId;
    LinesOfAppend(s0.links, NewLinks(start, |items|, r), r);
    LinesOfNewLinks(start, |items|, r);
    NumberedLines(s.lines, s0.lines, LinesOf(s.links, r), items, start);
  }

  /** Lines `start`, `start + 1`, ... freshly numbered from the list carry its ingredient ids and amounts. */
  lemma {:induction false} NumberedLines(lines: map<LineId, RecipeIngredient>, earlier: map<LineId, RecipeIngredient>,
                      ids: seq<LineId>, items: seq<IngredientAmount>, start: nat)
    requires ids == NewIds(start, |items|)
    requires lines == earlier + NewLines(start, Requested(items))
    ensures forall k :: 0 <= k < |items| ==> ids[k] in lines && lines[ids[k]] == RecipeIngredient(items[k].id, items[k].amount)
  {
    var added := NewLines(start, Requested(items));
    forall k | 0 <= k < |items|
      ensures ids[k] in lines && lines[ids[k]] == RecipeIngredient(items[k].id, items[k].amount)
    {
      assert ids[k] == start + k;
      assert start + k in added && added[start + k] == Requested(items)[k];
    }
  }

  /** The response of `create`: 404 escapes, a ValueError becomes a validation error. */
  function CreateStatus(raised: Raised): Status
  {
    match raised
    case Nothing => Created
    case Http404 => NotFound
    case ValueError => BadRequest
  }

  /** Accepted creation data makes a row the recipe table takes, with known tags. */
  lemma AcceptedStorable(s: State, author: UserId, v: Validated)
    requires author in s.users && Accepted(s, v, None)
    ensures Storable(s, NewRecipe(author, v), None) && TagSet(v.tags) <= s.tags.Keys
  {
  }

  /**
   * The database after `Recipe.objects.create` and `recipe.tags.set`: the
   * new row under the next key, first in the order, with the data's tags.
   */
  ghost function Tagged(s: State, author: UserId, v: Validated): State
    requires v.name.Some? && v.image.Some? && v.text.Some? && v.cookingTime.Some?
  {
    s.(recipes := s.recipes[s.nextRecipeId := NewRecipe(author, v)], nextRecipeId := s.nextRecipeId + 1,
       recipeTags := s.recipeTags[s.nextRecipeId := TagSet(v.tags)],
       recipeOrder := [s.nextRecipeId] + s.recipeOrder)
  }

  /** `Recipe.objects.create` followed by `recipe.tags.set`: a new row with the given tags and no lines. */
  method InsertTagged(db: Database, author: UserId, v: Validated) returns (r: RecipeId)
    requires db.Valid() && author in db.state.users && Accepted(db.state, v, None)
    modifies db
    ensures db.Valid()
    ensures r == old(db.state.nextRecipeId) && r !in old(db.state.recipes)
    ensures Written(db.state, r, NewRecipe(author, v), v.tags)
    ensures db.state == Tagged(old(db.state), author, v)
    ensures LinesOf(db.state.links, r) == []
  {
    ghost var s0 := db.state;
    AcceptedStorable(s0, author, v);
    r := db.InsertRecipe(NewRecipe(author, v));
    NoLinesForUnknown(s0.links, s0.recipes, r);
    Overwrite(s0.recipeTags, r, {}, TagSet(v.tags));
    db.SetTags(r, TagSet(v.tags));
  }

  /**
   * How `create` ends on accepted data `v` in database `s0`, and the
   * database `s` it leaves: 201 with the new recipe and its lines; 404 with
   * the new recipe and its tags but no lines; 400 after the ValueError,
   * with the recipe deleted again, the lines it got left behind and the
   * recipe key used up. Nothing else changes on any path.
   */
  ghost predicate CreateEnded(s0: State, s: State, author: UserId, v: Validated, joinInsertRaises: bool,
                              status: Status, id: Option<RecipeId>)
    requires v.name.Some? && v.image.Some? && v.text.Some? && v.cookingTime.Some?
  {
    var r := s0.nextRecipeId;
    && status == CreateStatus(Outcome(AllKnown(v.ingredients, s0.ingredients), joinInsertRaises))
    && (status == Created ==> id == Some(r) && s == AfterIngredients(Tagged(s0, author, v), v.ingredients, r, Nothing))
    && (status == NotFound ==> id == Some(r) && s == Tagged(s0, author, v))
    && (status == BadRequest ==> id.None? && s == LinesInserted(s0, v.ingredients).(nextRecipeId := r + 1))
  }

  /** Deleting the recipe just created, before it got join rows, undoes everything but its lines and its key. */
  lemma RolledBack(s0: State, author: UserId, v: Validated)
    requires StateValid(s0) && v.name.Some? && v.image.Some? && v.text.Some? && v.cookingTime.Some?
    ensures RecipeDeleted(LinesInserted(Tagged(s0, author, v), v.ingredients), s0.nextRecipeId)
            == LinesInserted(s0, v.ingredients).(nextRecipeId := s0.nextRecipeId + 1)
  {
    var r := s0.nextRecipeId;
    assert r !in s0.recipes;
    RolledBackUnreferenced(s0, author, v);
  }

  /** The step of RolledBack once it is known that no row of `s0` refers to the fresh key. */
  lemma RolledBackUnreferenced(s0: State, author: UserId, v: Validated)
    requires v.name.Some? && v.image.Some? && v.text.Some? && v.cookingTime.Some?
    requires s0.nextRecipeId !in s0.recipes && s0.nextRecipeId !in s0.recipeTags && s0.nextRecipeId !in s0.recipeOrder
    requires forall l :: l in s0.links ==> l.recipe != s0.nextRecipeId
    requires forall f :: f in s0.favorites ==> f.recipe != s0.nextRecipeId
    requires forall c :: c in s0.carts ==> c.recipe != s0.nextRecipeId
    ensures RecipeDeleted(LinesInserted(Tagged(s0, author, v), v.ingredients), s0.nextRecipeId)
            == LinesInserted(s0, v.ingredients).(nextRecipeId := s0.nextRecipeId + 1)
  {
    RolledBackRecipe(s0, author, v);
    RolledBackReferences(s0, author, v);
  }

  /** The recipe's own rows go: the recipe, its tag set and its place in the order. */
  lemma RolledBackRecipe(s0: State, author: UserId, v: Validated)
    requires v.name.Some? && v.image.Some? && v.text.Some? && v.cookingTime.Some?
    requires s0.nextRecipeId !in s0.recipes && s0.nextRecipeId !in s0.recipeTags && s0.nextRecipeId !in s0.recipeOrder
    ensures var d := RecipeDeleted(LinesInserted(Tagged(s0, author, v), v.ingredients), s0.nextRecipeId);
            d.recipes == s0.recipes && d.recipeTags == s0.recipeTags && d.recipeOrder == s0.recipeOrder
  {
    var r := s0.nextRecipeId;
    RestrictAdded(s0.recipes, r, NewRecipe(author, v));
    RestrictAdded(s0.recipeTags, r, TagSet(v.tags));
    OrderOutsidePrepended(s0.recipeOrder, r);
  }

  /** No join row, favorite or cart entry refers to the fresh recipe, so the cascade removes none. */
  lemma RolledBackReferences(s0: State, author: UserId, v: Validated)
    requires v.name.Some? && v.image.Some? && v.text.Some? && v.cookingTime.Some?
    requires forall l :: l in s0.links ==> l.recipe != s0.nextRecipeId
    requires forall f :: f in s0.favorites ==> f.recipe != s0.nextRecipeId
    requires forall c :: c in s0.carts ==> c.recipe != s0.nextRecipeId
    ensures var d := RecipeDeleted(LinesInserted(Tagged(s0, author, v), v.ingredients), s0.nextRecipeId);
            d.links == s0.links && d.favorites == s0.favorites && d.carts == s0.carts
  {
    var r := s0.nextRecipeId;
    LinksOutsideNone(s0.links, {}, {r});
    FavoritesOutsideNone(s0.favorites, {}, {r});
    CartsOutsideNone(s0.carts, {}, {r});
  }

  /**
   * `RecipeSerializer.create` on accepted data: the recipe row, then its
   * tags, then its lines. Only a ValueError is caught, and it deletes the
   * recipe again (the lines already inserted stay); the Http404 of an
   * unknown ingredient escapes and leaves the recipe and its tags behind
   * without lines. The returned id is that of the row left behind, if any.
   */
  method Create(db: Database, author: UserId, v: Validated, joinInsertRaises: bool)
    returns (status: Status, id: Option<RecipeId>)
    requires db.Valid() && author in db.state.users && Accepted(db.state, v, None)
    modifies db
    ensures db.Valid()
    ensures CreateEnded(old(db.state), db.state, author, v, joinInsertRaises, status, id)
    ensures status == Created ==> id.Some? && CreatedAs(old(db.state), db.state, id.value, author, v)
    ensures status == NotFound ==>
      && id.Some? && id.value !in old(db.state.recipes)
      && Written(db.state, id.value, NewRecipe(author, v), v.tags)
      && LinesOf(db.state.links, id.value) == []
  {
    var r := InsertTagged(db, author, v);
    ghost var tagged := db.state;
    var raised := CreateIngredients(db, v.ingredients, r, joinInsertRaises);
    if raised == Http404 {
      return NotFound, Some(r);
    }
    if raised == ValueError {
      db.DeleteRecipe(r);
      RolledBack(old(db.state), author, v);
      return BadRequest, None;
    }
    FreshComposition(tagged, db.state, r, v.ingredients);
    return Created, Some(r);
  }

  /**
   * A POST to the recipe list: `is_valid()`, then `save()`, which calls
   * `create`; the author is the requesting user, which `create` reads
   * from the request in its context.
   */
  method CreateRecipe(db: Database, author: UserId, p: RecipePayload, joinInsertRaises: bool)
    returns (status: Status, id: Option<RecipeId>)
    requires db.Valid() && author in db.state.users
    modifies db
    ensures db.Valid()
    ensures Validate(old(db.state), p, None).Failure? ==>
      status == Validate(old(db.state), p, None).error && id.None? && db.state == old(db.state)
    ensures p.ingredients == Some([]) || p.tags == Some([]) ==> status != Created && db.state == old(db.state)
    ensures status == Created ==>
      && Validate(old(db.state), p, None).Success? && id.Some?
      && CreatedAs(old(db.state), db.state, id.value, author, Validate(old(db.state), p, None).value)
    ensures Validate(old(db.state), p, None).Success? ==>
      CreateEnded(old(db.state), db.state, author, Validate(old(db.state), p, None).value, joinInsertRaises, status, id)
  {
    var checked := Validate(db.state, p, None);
    if checked.Failure? {
      return checked.error, None;
    }
    status, id := Create(db, author, checked.value, joinInsertRaises);
  }

  /**
   * The database after the first writes of `update` to recipe `r`: its tag
   * set replaced, its lines deleted, and their join rows with them.
   */
  ghost function Cleared(s: State, r: RecipeId, tags: seq<TagId>): State
  {
    var gone := set id | id in LinesOf(s.links, r);
    s.(recipeTags := s.recipeTags[r := TagSet(tags)], lines := Restrict(s.lines, gone), links := LinksOutside(s.links, gone, {}))
  }

  /** The first writes of `update`: `tags.clear()` and `tags.set(...)`, then the delete of the recipe's lines. */
  method ClearContents(db: Database, r: RecipeId, tags: seq<TagId>)
    requires db.Valid() && r in db.state.recipes
    requires forall t :: t in tags ==> t in db.state.tags
    modifies db
    ensures db.Valid()
    ensures db.state == Cleared(old(db.state), r, tags)
    ensures db.state.recipeTags[r] == TagSet(tags) && LinesOf(db.state.links, r) == []
  {
    db.SetTags(r, TagSet(tags));
    db.DeleteLinesOf(r);
  }

  /**
   * The middle of `update`: the recipe's tags are cleared and set, its
   * lines deleted (their join rows go with them), and the new lines
   * created. The recipe row itself is not written here.
   */
  method ReplaceContents(db: Database, r: RecipeId, tags: seq<TagId>, items: seq<IngredientAmount>, joinInsertRaises: bool)
    returns (raised: Raised)
    requires db.Valid() && r in db.state.recipes
    requires forall t :: t in tags ==> t in db.state.tags
    requires forall k :: 0 <= k < |items| ==> InRange(items[k].amount)
    modifies db
    ensures db.Valid()
    ensures raised == Outcome(AllKnown(items, old(db.state.ingredients)), joinInsertRaises)
    ensures db.state == AfterIngredients(Cleared(old(db.state), r, tags), items, r, raised)
    ensures db.state.recipeTags[r] == TagSet(tags)
    ensures raised == Http404 ==> LinesOf(db.state.links, r) == []
    ensures raised == Nothing ==> ComposedOf(db.state, r, items)
  {
    ClearContents(db, r, tags);
    ghost var cleared := db.state;
    raised := CreateIngredients(db, items, r, joinInsertRaises);
    Refilled(cleared, db.state, r, tags, items, raised);
  }

  /** What ReplaceContents leaves for the recipe itself: the new tag set, and either no lines or exactly the requested ones. */
  lemma Refilled(cleared: State, s: State, r: RecipeId, tags: seq<TagId>, items: seq<IngredientAmount>, raised: Raised)
    requires r in cleared.recipeTags && cleared.recipeTags[r] == TagSet(tags) && LinesOf(cleared.links, r) == []
    requires s == AfterIngredients(cleared, items, r, raised)
    ensures s.recipeTags[r] == TagSet(tags)
    ensures raised == Http404 ==> LinesOf(s.links, r) == []
    ensures raised == Nothing ==> ComposedOf(s, r, items)
  {
    if raised == Nothing {
      FreshComposition(cleared, s, r, items);
    }
  }

  /** The response of `update`: 404 escapes, and so does a ValueError, as a server error. */
  function UpdateStatus(raised: Raised): Status
  {
    match raised
    case Nothing => OK
    case Http404 => NotFound
    case ValueError => ServerError
  }

  /**
   * How `update` of recipe `r` ends on accepted data `v` in database `s0`,
   * and the database `s` it leaves: a missing name or text is a KeyError
   * before any write; otherwise the tags and lines are replaced, and the
   * edited row is saved only when CreateIngredients ends normally.
   */
  ghost predicate UpdateEnded(s0: State, s: State, r: RecipeId, v: Validated, joinInsertRaises: bool, status: Status)
    requires r in s0.recipes
  {
    if v.name.None? || v.text.None? then status == ServerError && s == s0
    else
      var raised := Outcome(AllKnown(v.ingredients, s0.ingredients), joinInsertRaises);
      var replaced := AfterIngredients(Cleared(s0, r, v.tags), v.ingredients, r, raised);
      && status == UpdateStatus(raised)
      && s == (if raised == Nothing then replaced.(recipes := s0.recipes[r := Edited(s0.recipes[r], v)]) else replaced)
  }

  /**
   * `RecipeSerializer.update` on accepted data. Name and text are taken
   * out of the data before anything is written (a missing one raises a
   * KeyError); then the tags and the lines are replaced, and the row is
   * written last, by `instance.save()`, so an Http404 from the lines
   * leaves new tags, no lines and the old row.
   */
  method Update(db: Database, r: RecipeId, v: Validated, joinInsertRaises: bool) returns (status: Status)
    requires db.Valid() && r in db.state.recipes && Accepted(db.state, v, Some(r))
    modifies db
    ensures db.Valid()
    ensures UpdateEnded(old(db.state), db.state, r, v, joinInsertRaises, status)
    ensures status == OK <==> v.name.Some? && v.text.Some? && AllKnown(v.ingredients, old(db.state.ingredients)) && !joinInsertRaises
    ensures status == OK ==> UpdatedAs(old(db.state), db.state, r, v)
    ensures status == NotFound <==> v.name.Some? && v.text.Some? && !AllKnown(v.ingredients, old(db.state.ingredients))
    ensures status == NotFound ==>
      && db.state.recipes == old(db.state.recipes)
      && Written(db.state, r, old(db.state.recipes[r]), v.tags)
      && LinesOf(db.state.links, r) == []
  {
    if v.name.None? || v.text.None? {
      return ServerError;
    }
    var row := Edited(db.state.recipes[r], v);
    var raised := ReplaceContents(db, r, v.tags, v.ingredients, joinInsertRaises);
    if raised == Http404 {
      return NotFound;
    }
    if raised == ValueError {
      return ServerError;
    }
    ghost var replaced := db.state;
    db.SaveRecipe(r, row);
    RowSaved(replaced, db.state, r, row, v.tags, v.ingredients);
    return OK;
  }

  /** Saving the row last leaves the tags and the lines that ReplaceContents wrote. */
  lemma RowSaved(replaced: State, s: State, r: RecipeId, row: Recipe, tags: seq<TagId>, items: seq<IngredientAmount>)
    requires r in replaced.recipeTags && replaced.recipeTags[r] == TagSet(tags) && ComposedOf(replaced, r, items)
    requires s == replaced.(recipes := replaced.recipes[r := row])
    ensures Written(s, r, row, tags) && ComposedOf(s, r, items)
  {
  }

  /**
   * A PATCH of recipe `r`: the recipe is looked up (404 when missing),
   * then `is_valid()` with `partial=True`, then `save()`, which calls
   * `update`.
   */
  method UpdateRecipe(db: Database, r: RecipeId, p: RecipePayload, joinInsertRaises: bool) returns (status: Status)
    requires db.Valid()
    modifies db
    ensures db.Valid()
    ensures r !in old(db.state.recipes) ==> status == NotFound && db.state == old(db.state)
    ensures r in old(db.state.recipes) && Validate(old(db.state), p, Some(r)).Failure? ==>
      status == Validate(old(db.state), p, Some(r)).error && db.state == old(db.state)
    ensures status == OK ==>
      && Validate(old(db.state), p, Some(r)).Success?
      && UpdatedAs(old(db.state), db.state, r, Validate(old(db.state), p, Some(r)).value)
    ensures r in old(db.state.recipes) && Validate(old(db.state), p, Some(r)).Success? ==>
      UpdateEnded(old(db.state), db.state, r, Validate(old(db.state), p, Some(r)).value, joinInsertRaises, status)
  {
    if r !in db.state.recipes {
      return NotFound;
    }
    var checked := Validate(db.state, p, Some(r));
    if checked.Failure? {
      return checked.error;
    }
    status := Update(db, r, checked.value, joinInsertRaises);
  }

  /**
   * Creating a recipe, on any path, leaves every existing recipe as it
   * was: its row, its tags and its lines, and every existing line keeps
   * its contents; users, subscriptions, favorites and carts do not change.
   */
  lemma CreateKeepsOthers(s0: State, s: State, author: UserId, v: Validated, joinInsertRaises: bool,
                          status: Status, id: Option<RecipeId>, o: RecipeId)
    requires StateValid(s0) && v.name.Some? && v.image.Some? && v.text.Some? && v.cookingTime.Some?
    requires CreateEnded(s0, s, author, v, joinInsertRaises, status, id)
    requires o in s0.recipes
    ensures o in s.recipes && s.recipes[o] == s0.recipes[o] && o in s.recipeTags && s.recipeTags[o] == s0.recipeTags[o]
    ensures LinesOf(s.links, o) == LinesOf(s0.links, o)
    ensures forall k :: k in s0.lines ==> k in s.lines && s.lines[k] == s0.lines[k]
    ensures s.users == s0.users && s.subscriptions == s0.subscriptions && s.favorites == s0.favorites && s.carts == s0.carts
  {
    assert o != s0.nextRecipeId && o in s0.recipeTags;
    assert forall k :: k in s0.lines ==> k < s0.nextLineId;
    CreateKeepsApart(s0, s, author, v, joinInsertRaises, status, id, o);
  }

  /** CreateKeepsOthers once `o` is known to be an older recipe and the lines to be numbered below the next key. */
  lemma CreateKeepsApart(s0: State, s: State, author: UserId, v: Validated, joinInsertRaises: bool,
                         status: Status, id: Option<RecipeId>, o: RecipeId)
    requires v.name.Some? && v.image.Some? && v.text.Some? && v.cookingTime.Some?
    requires CreateEnded(s0, s, author, v, joinInsertRaises, status, id)
    requires o in s0.recipes && o in s0.recipeTags && o != s0.nextRecipeId
    requires forall k :: k in s0.lines ==> k < s0.nextLineId
    ensures o in s.recipes && s.recipes[o] == s0.recipes[o] && o in s.recipeTags && s.recipeTags[o] == s0.recipeTags[o]
    ensures LinesOf(s.links, o) == LinesOf(s0.links, o)
    ensures forall k :: k in s0.lines ==> k in s.lines && s.lines[k] == s0.lines[k]
    ensures s.users == s0.users && s.subscriptions == s0.subscriptions && s.favorites == s0.favorites && s.carts == s0.carts
  {
    var r := s0.nextRecipeId;
    if status == Created {
      LinesOfAppend(s0.links, NewLinks(s0.nextLineId, |v.ingredients|, r), o);
      LinesOfOtherNewLinks(s0.nextLineId, |v.ingredients|, r, o);
    }
  }

  /**
   * Updating recipe `r`, on any path, leaves every other recipe as it was:
   * its row, its tags, its lines and their contents, although the lines of
   * `r` are deleted; users, subscriptions, favorites and carts do not change.
   */
  lemma UpdateKeepsOthers(s0: State, s: State, r: RecipeId, v: Validated, joinInsertRaises: bool, status: Status, o: RecipeId)
    requires StateValid(s0) && r in s0.recipes
    requires UpdateEnded(s0, s, r, v, joinInsertRaises, status)
    requires o in s0.recipes && o != r
    ensures o in s.recipes && s.recipes[o] == s0.recipes[o] && o in s.recipeTags && s.recipeTags[o] == s0.recipeTags[o]
    ensures LinesOf(s.links, o) == LinesOf(s0.links, o)
    ensures forall k :: k in LinesOf(s0.links, o) ==> k in s.lines && s.lines[k] == s0.lines[k]
    ensures s.users == s0.users && s.subscriptions == s0.subscriptions && s.favorites == s0.favorites && s.carts == s0.carts
  {
    OtherLinesApart(s0, r, o);
    UpdateKeepsApart(s0, s, r, v, joinInsertRaises, status, o);
  }

  /** In a valid database no line of another recipe `o` is a line of `r`. */
  lemma OtherLinesApart(s0: State, r: RecipeId, o: RecipeId)
    requires StateValid(s0) && o in s0.recipes && o != r
    ensures o in s0.recipeTags
    ensures forall l :: l in s0.links && l.recipe == o ==> l.recipeIngredient !in (set id | id in LinesOf(s0.links, r))
    ensures forall k :: k in LinesOf(s0.links, o) ==> k in s0.lines && k < s0.nextLineId
  {
    forall l | l in s0.links && l.recipe == o
      ensures l.recipeIngredient !in (set id | id in LinesOf(s0.links, r))
    {
      if l.recipeIngredient in (set id | id in LinesOf(s0.links, r)) {
        OneRecipePerLine(s0.links, l.recipeIngredient, r, o);
      }
    }
  }

  /** UpdateKeepsOthers once the lines of `o` are known to lie apart from those of `r`. */
  lemma UpdateKeepsApart(s0: State, s: State, r: RecipeId, v: Validated, joinInsertRaises: bool, status: Status, o: RecipeId)
    requires r in s0.recipes && UpdateEnded(s0, s, r, v, joinInsertRaises, status)
    requires o in s0.recipes && o in s0.recipeTags && o != r
    requires forall l :: l in s0.links && l.recipe == o ==> l.recipeIngredient !in (set id | id in LinesOf(s0.links, r))
    requires forall k :: k in LinesOf(s0.links, o) ==> k in s0.lines && k < s0.nextLineId
    ensures o in s.recipes && s.recipes[o] == s0.recipes[o] && o in s.recipeTags && s.recipeTags[o] == s0.recipeTags[o]
    ensures LinesOf(s.links, o) == LinesOf(s0.links, o)
    ensures forall k :: k in LinesOf(s0.links, o) ==> k in s.lines && s.lines[k] == s0.lines[k]
    ensures s.users == s0.users && s.subscriptions == s0.subscriptions && s.favorites == s0.favorites && s.carts == s0.carts
  {
    if v.name.Some? && v.text.Some? {
      var c := Cleared(s0, r, v.tags);
      var raised := Outcome(AllKnown(v.ingredients, s0.ingredients), joinInsertRaises);
      var replaced := AfterIngredients(c, v.ingredients, r, raised);
      ClearedKeepsOther(s0, r, v.tags, o);
      RefilledKeepsOther(c, replaced, r, v.ingredients, raised, o);
      assert replaced.recipes == s0.recipes && replaced.recipeTags == c.recipeTags;
    }
  }

  /** The first writes of `update` to `r` touch no row of another recipe `o` whose lines are all outside those of `r`. */
  lemma ClearedKeepsOther(s0: State, r: RecipeId, tags: seq<TagId>, o: RecipeId)
    requires o != r
    requires forall l :: l in s0.links && l.recipe == o ==> l.recipeIngredient !in (set id | id in LinesOf(s0.links, r))
    requires forall k :: k in LinesOf(s0.links, o) ==> k in s0.lines && k < s0.nextLineId
    ensures var c := Cleared(s0, r, tags);
            && LinesOf(c.links, o) == LinesOf(s0.links, o)
            && forall k :: k in LinesOf(s0.links, o) ==> k in c.lines && c.lines[k] == s0.lines[k] && k < c.nextLineId
  {
    LinesOfOutside(s0.links, (set id | id in LinesOf(s0.links, r)), o);
  }

  /** The last writes of `update` to `r` add lines and join rows of `r` only, numbered past every existing line. */
  lemma RefilledKeepsOther(c: State, s: State, r: RecipeId, items: seq<IngredientAmount>, raised: Raised, o: RecipeId)
    requires o != r && s == AfterIngredients(c, items, r, raised)
    requires forall k :: k in LinesOf(c.links, o) ==> k in c.lines && k < c.nextLineId
    ensures LinesOf(s.links, o) == LinesOf(c.links, o)
    ensures forall k :: k in LinesOf(c.links, o) ==> k in s.lines && s.lines[k] == c.lines[k]
  {
    if raised == Nothing {
      LinesOfAppend(c.links, NewLinks(c.nextLineId, |items|, r), o);
      LinesOfOtherNewLinks(c.nextLineId, |items|, r, o);
    }
  }

  // ---------------------------------------------------------------------
  // Read-side fields: is_favorited, is_in_shopping_cart, the subscription feed

  /** `favorites.filter(recipe=r).exists()` for user `u`: a scan of the Favorite table. */
  function HasFavorite(favorites: seq<Favorite>, u: UserId, r: RecipeId): (b: bool)
    ensures b <==> Favorite(u, r) in favorites
    decreases |favorites|
  {
    if favorites == [] then false
    else
      assert favorites == [favorites[0]] + favorites[1..];
      favorites[0] == Favorite(u, r) || HasFavorite(favorites[1..], u, r)
  }

  /** `carts.filter(recipe=r).exists()` for user `u`: a scan of the ShoppingCart table. */
  function HasCart(carts: seq<ShoppingCart>, u: UserId, r: RecipeId): (b: bool)
    ensures b <==> ShoppingCart(u, r) in carts
    decreases |carts|
  {
    if carts == [] then false
    else
      assert carts == [carts[0]] + carts[1..];
      carts[0] == ShoppingCart(u, r) || HasCart(carts[1..], u, r)
  }

  /** `get_is_favorited`: false for an anonymous requester (`None`). */
  function IsFavorited(s: State, requester: Option<UserId>, r: RecipeId): (b: bool)
    ensures b <==> requester.Some? && Favorite(requester.value, r) in s.favorites
  {
    requester.Some? && HasFavorite(s.favorites, requester.value, r)
  }

  /** `get_is_in_shopping_cart`: false for an anonymous requester (`None`). */
  function IsInShoppingCart(s: State, requester: Option<UserId>, r: RecipeId): (b: bool)
    ensures b <==> requester.Some? && ShoppingCart(requester.value, r) in s.carts
  {
    requester.Some? && HasCart(s.carts, requester.value, r)
  }

  /** `UserSubscribeSerializer.validate`: following oneself is refused. */
  function ValidateSubscribe(user: UserId, author: UserId): (r: Result<Subscribe, Status>)
    ensures r.Failure? <==> user == author
    ensures r.Failure? ==> r.error == BadRequest
    ensures r.Success? ==> r.value.user == user && r.value.author == author
  {
    if user == author then Failure(BadRequest) else Success(Subscribe(user, author))
  }

  /** `author.recipes.all()`: the author's recipes, newest first. */
  function AuthorRecipes(order: seq<RecipeId>, recipes: map<RecipeId, Recipe>, author: UserId): (r: seq<RecipeId>)
    ensures forall id :: id in r <==> id in order && id in recipes && recipes[id].author == author
    ensures multiset(r) <= multiset(order)
    decreases |order|
  {
    if order == [] then []
    else
      assert order == [order[0]] + order[1..];
      var id := order[0];
      (if id in recipes && recipes[id].author == author then [id] else []) + AuthorRecipes(order[1..], recipes, author)
  }

  /** `get_recipes_count`: `author.recipes.count()`, the number of recipe rows the author wrote. */
  function RecipesCount(s: State, author: UserId): (n: nat)
    ensures n == 0 <==> forall r :: r in s.recipes ==> s.recipes[r].author != author
  {
    var ids := RecipesBy(s.recipes, author);
    assert forall r :: r in ids <==> r in s.recipes && s.recipes[r].author == author;
    assert ids == {} <==> |ids| == 0;
    |ids|
  }

  /** A duplicate-free sequence has as many elements as the set of its elements. */
  lemma {:induction false} DistinctLength(xs: seq<RecipeId>)
    requires Unique(xs)
    ensures |xs| == |set x: RecipeId | x in xs|
    decreases |xs|
  {
    if xs != [] {
      var rest := xs[1..];
      assert xs == [xs[0]] + rest;
      assert multiset(xs) == multiset{xs[0]} + multiset(rest);
      SubUnique(xs, rest);
      DistinctLength(rest);
      assert xs[0] !in rest by {
        assert multiset(xs)[xs[0]] == 1 + multiset(rest)[xs[0]];
      }
      var later := set x: RecipeId | x in rest;
      assert (set x: RecipeId | x in xs) == later + {xs[0]};
      assert |later + {xs[0]}| == |later| + 1;
    } else {
      assert (set x: RecipeId | x in xs) == {};
    }
  }

  /**
   * The count field agrees with the feed: in a valid state the author's
   * recipes, taken from the `-created` order, are exactly as many as the
   * author's recipe rows.
   */
  lemma FeedCount(s: State, author: UserId)
    requires StateValid(s)
    ensures |AuthorRecipes(s.recipeOrder, s.recipes, author)| == RecipesCount(s, author)
  {
    var feed := AuthorRecipes(s.recipeOrder, s.recipes, author);
    SubUnique(s.recipeOrder, feed);
    DistinctLength(feed);
    assert (set x: RecipeId | x in feed) == RecipesBy(s.recipes, author);
  }

  /**
   * `get_recipes`: with no `recipes_limit`, or an empty one, all the
   * author's recipes; otherwise `int(recipes_limit)` and a slice from 0.
   * A text `int` refuses and a negative limit (which querysets refuse to
   * slice with) both raise, and the response is a server error.
   */
  function Feed(s: State, author: UserId, recipesLimit: Option<string>): (r: Result<seq<RecipeId>, Status>)
    ensures recipesLimit.None? || recipesLimit == Some("") ==> r == Success(AuthorRecipes(s.recipeOrder, s.recipes, author))
    ensures r.Failure? <==> recipesLimit.Some? && recipesLimit.value != "" &&
                            (ParseInt(recipesLimit.value).None? || ParseInt(recipesLimit.value).value < 0)
    ensures r.Failure? ==> r.error == ServerError
    ensures r.Success? ==> r.value <= AuthorRecipes(s.recipeOrder, s.recipes, author)
    ensures r.Success? && recipesLimit.Some? && recipesLimit.value != "" ==>
              |r.value| == Min(ParseInt(recipesLimit.value).value, |AuthorRecipes(s.recipeOrder, s.recipes, author)|)
  {
    var all := AuthorRecipes(s.recipeOrder, s.recipes, author);
    if recipesLimit.None? || recipesLimit.value == "" then Success(all)
    else
      match ParseInt(recipesLimit.value)
      case None => Failure(ServerError)
      case Some(n) => if n < 0 then Failure(ServerError) else Success(all[..Min(n, |all|)])
  }

  function Min(a: int, b: int): int
  {
    if a < b then a else b
  }

  /**
   * `recipes_limit=n` written as the decimal of `n`: the feed holds the
   * author's min(n, k) newest recipes while `recipes_count` stays k.
   */
  lemma LimitedFeed(s: State, author: UserId, n: nat)
    requires StateValid(s)
    ensures Feed(s, author, Some(Decimal(n))).Success?
    ensures |Feed(s, author, Some(Decimal(n))).value| == Min(n, RecipesCount(s, author))
  {
    IntTextRoundTrip(n);
    FeedCount(s, author);
  }
}
