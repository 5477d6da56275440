/**
  What both revisions of `RecipeWriteSerializer` share: the shape of a
  write payload, the Amount rows built from its ingredient entries, the
  database steps `create` and `update` take (`recipe.save()`,
  `tags.clear()`, `ingredients.clear()`, `Amount.objects.bulk_create`) and
  the merge of the scalar fields on update.

  A payload field is `None` when the request omitted it. The image is the
  name of the stored file; decoding the base64 text is not part of this
  model.
*/
module RecipePayload {
  import opened Results
  import opened Models

  /** One element of the `ingredients` list: `{"id": ..., "amount": ...}`. */
  datatype Entry = Entry(id: IngredientId, amount: int)

  datatype Payload = Payload(
    tags: Option<seq<TagId>>,
    ingredients: Option<seq<Entry>>,
    name: Option<string>,
    image: Option<string>,
    text: Option<string>,
    cookingTime: Option<int>)

  /** Every field is present, as a full (non-partial) validation demands. */
  predicate Complete(p: Payload) {
    p.tags.Some? && p.ingredients.Some? && p.name.Some? && p.image.Some? && p.text.Some? && p.cookingTime.Some?
  }

  /** The fields a full validation reports as missing. */
  function Missing(p: Payload, partial: bool): (errs: set<FieldError>)
    ensures errs == {} <==> partial || Complete(p)
    ensures forall e | e in errs :: e.Required?
  {
    if partial then {}
    else
      (if p.tags.None? then {Required(TagsField)} else {})
      + (if p.ingredients.None? then {Required(IngredientsField)} else {})
      + (if p.name.None? then {Required(NameField)} else {})
      + (if p.image.None? then {Required(ImageField)} else {})
      + (if p.text.None? then {Required(TextField)} else {})
      + (if p.cookingTime.None? then {Required(CookingTimeField)} else {})
  }

  /** The primary keys of the `tags` list that name no tag. */
  function UnknownTags(db: Db, tags: Option<seq<TagId>>): (errs: set<FieldError>)
    ensures forall t :: UnknownTag(t) in errs <==> tags.Some? && t in tags.value && t !in db.tags
    ensures forall e | e in errs :: e.UnknownTag?
    ensures errs == {} <==> tags.None? || forall t | t in tags.value :: t in db.tags
  {
    if tags.None? then {}
    else
      var errs := set t | t in tags.value && t !in db.tags :: UnknownTag(t);
      assert errs == {} <== forall t | t in tags.value :: t in db.tags;
      assert errs == {} ==> forall t | t in tags.value :: t in db.tags by {
        if exists t | t in tags.value :: t !in db.tags {
          var t :| t in tags.value && t !in db.tags;
          assert UnknownTag(t) in errs;
        }
      }
      errs
  }

  /** The ingredient ids of the entries that name no ingredient. */
  function UnknownIngredients(db: Db, entries: seq<Entry>): (errs: set<FieldError>)
    ensures forall i :: UnknownIngredient(i) in errs <==> exists e | e in entries :: e.id == i && i !in db.ingredients
    ensures forall e | e in errs :: e.UnknownIngredient?
    ensures errs == {} <==> forall e | e in entries :: e.id in db.ingredients
  {
    var errs := set e | e in entries && e.id !in db.ingredients :: UnknownIngredient(e.id);
    assert errs == {} ==> forall e | e in entries :: e.id in db.ingredients by {
      if exists e | e in entries :: e.id !in db.ingredients {
        var e :| e in entries && e.id !in db.ingredients;
        assert UnknownIngredient(e.id) in errs;
      }
    }
    errs
  }

  /** `CharField(max_length=200)` for `name`: refuse the empty string and a
      name longer than the column. */
  function NameErrors(name: Option<string>): (errs: set<FieldError>)
    ensures errs == {} <==> name.None? || 0 < |name.value| <= RecipeNameMaxLength
    ensures Blank(NameField) in errs <==> name == Some("")
    ensures TooLong(NameField, RecipeNameMaxLength) in errs <==> name.Some? && |name.value| > RecipeNameMaxLength
    ensures forall e | e in errs :: e == Blank(NameField) || e == TooLong(NameField, RecipeNameMaxLength)
  {
    if name.None? then {}
    else if |name.value| == 0 then {Blank(NameField)}
    else if |name.value| > RecipeNameMaxLength then {TooLong(NameField, RecipeNameMaxLength)}
    else {}
  }

  /** `CharField()` for `text`: refuse the empty string. */
  function TextErrors(text: Option<string>): (errs: set<FieldError>)
    ensures errs == {} <==> text != Some("")
    ensures errs != {} ==> errs == {Blank(TextField)}
  {
    if text == Some("") then {Blank(TextField)} else {}
  }

  // ---------------------------------------------------------------------
  // Amount rows

  /** No ingredient appears twice among the entries. */
  predicate DistinctIds(entries: seq<Entry>) {
    forall i, j | 0 <= i < j < |entries| :: entries[i].id != entries[j].id
  }

  /** The `Amount(recipe=..., ingredient=..., amount=...)` objects the loop
      of `create` and `update` collects, one per entry, in order. */
  function Rows(rid: RecipeId, entries: seq<Entry>): (rows: seq<AmountRow>)
    ensures |rows| == |entries|
    ensures forall i | 0 <= i < |entries| :: rows[i] == AmountRow(rid, entries[i].id, entries[i].amount)
  {
    if |entries| == 0 then []
    else [AmountRow(rid, entries[0].id, entries[0].amount)] + Rows(rid, entries[1..])
  }

  /** A row is built from the entries exactly when some entry carries its
      ingredient and amount. */
  lemma RowsMembership(rid: RecipeId, entries: seq<Entry>)
    ensures forall row :: row in Rows(rid, entries) <==>
      exists e | e in entries :: row == AmountRow(rid, e.id, e.amount)
  {
    var rows := Rows(rid, entries);
    forall row | row in rows
      ensures exists e | e in entries :: row == AmountRow(rid, e.id, e.amount)
    {
      var k :| 0 <= k < |rows| && rows[k] == row;
      assert entries[k] in entries;
    }
    forall e | e in entries
      ensures AmountRow(rid, e.id, e.amount) in rows
    {
      var k :| 0 <= k < |entries| && entries[k] == e;
      assert rows[k] == AmountRow(rid, e.id, e.amount);
    }
  }

  /** Some new row takes a slot of the `unique_ingredient` constraint that an
      existing row or an earlier new row already holds. */
  predicate Clashes(existing: seq<AmountRow>, rows: seq<AmountRow>) {
    || (exists i, j | 0 <= i < j < |rows| :: SameSlot(rows[i], rows[j]))
    || (exists i, j | 0 <= i < |existing| && 0 <= j < |rows| :: SameSlot(existing[i], rows[j]))
  }

  /** `Amount.objects.bulk_create(rows)`: one INSERT of all rows, which the
      database refuses as a whole when the table would break its uniqueness
      constraint. */
  function BulkCreate(existing: seq<AmountRow>, rows: seq<AmountRow>): (r: Result<seq<AmountRow>>)
    ensures r.Success? ==> r.value == existing + rows
    ensures r.Failure? ==> r.error == IntegrityError
    ensures AmountsUnique(existing) ==> (r.Success? <==> AmountsUnique(existing + rows))
  {
    if Clashes(existing, rows) then
      assert !AmountsUnique(existing + rows) by {
        var all := existing + rows;
        if exists i, j | 0 <= i < j < |rows| :: SameSlot(rows[i], rows[j]) {
          var i, j :| 0 <= i < j < |rows| && SameSlot(rows[i], rows[j]);
          assert all[|existing| + i] == rows[i] && all[|existing| + j] == rows[j];
        } else {
          var i, j :| 0 <= i < |existing| && 0 <= j < |rows| && SameSlot(existing[i], rows[j]);
          assert all[i] == existing[i] && all[|existing| + j] == rows[j];
        }
      }
      Failure(IntegrityError)
    else
      assert AmountsUnique(existing) ==> AmountsUnique(existing + rows) by {
        if AmountsUnique(existing) {
          var all := existing + rows;
          forall i, j | 0 <= i < j < |all|
            ensures !SameSlot(all[i], all[j])
          {
            if j < |existing| {
              assert all[i] == existing[i] && all[j] == existing[j];
            } else if i < |existing| {
              assert all[i] == existing[i] && all[j] == rows[j - |existing|];
            } else {
              assert all[i] == rows[i - |existing|] && all[j] == rows[j - |existing|];
            }
          }
        }
      }
      Success(existing + rows)
  }

  /** When no existing row belongs to the recipe, inserting its rows fails
      exactly when some ingredient is submitted twice. */
  lemma RowsClashIffDuplicate(existing: seq<AmountRow>, rid: RecipeId, entries: seq<Entry>)
    requires forall row | row in existing :: row.recipe != rid
    ensures Clashes(existing, Rows(rid, entries)) <==> !DistinctIds(entries)
  {
    var rows := Rows(rid, entries);
    forall i, j | 0 <= i < |existing| && 0 <= j < |rows|
      ensures !SameSlot(existing[i], rows[j])
    {
      assert existing[i] in existing;
    }
    if !DistinctIds(entries) {
      var i, j :| 0 <= i < j < |entries| && entries[i].id == entries[j].id;
      assert SameSlot(rows[i], rows[j]);
    }
  }

  // ---------------------------------------------------------------------
  // Database steps

  /** `Recipe(author=user, **validated_data).save()`: a new row under the
      next primary key, created at `now`, with no tag links yet. */
  function InsertRecipe(db: Db, author: UserId, p: Payload, now: int): (r: Db)
    requires Complete(p)
    ensures r.recipes.Keys == db.recipes.Keys + {db.nextRecipeId}
    ensures forall k | k in db.recipes && k != db.nextRecipeId :: r.recipes[k] == db.recipes[k]
    ensures r.recipes[db.nextRecipeId] ==
      Recipe(author, p.name.value, Some(p.image.value), p.text.value, p.cookingTime.value, {}, now)
    ensures r.nextRecipeId == db.nextRecipeId + 1
    ensures r.amounts == db.amounts && r.favorites == db.favorites && r.cart == db.cart
    ensures r.ingredients == db.ingredients && r.tags == db.tags && r.users == db.users && r.follows == db.follows
    ensures Valid(db) && author in db.users && |p.name.value| <= RecipeNameMaxLength ==> Valid(r)
  {
    var rid := db.nextRecipeId;
    var recipe := Recipe(author, p.name.value, Some(p.image.value), p.text.value, p.cookingTime.value, {}, now);
    db.(recipes := db.recipes[rid := recipe], nextRecipeId := rid + 1)
  }

  /** `recipe.tags.clear()` and `recipe.ingredients.clear()`: drop the tag
      links and every Amount row of the recipe. */
  function ClearLinks(db: Db, rid: RecipeId): (r: Db)
    requires rid in db.recipes
    ensures r.recipes == db.recipes[rid := db.recipes[rid].(tags := {})]
    ensures forall row :: row in r.amounts <==> row in db.amounts && row.recipe != rid
    ensures r.amounts == Select(db.amounts, NotOfRecipe(rid))
    ensures r.favorites == db.favorites && r.cart == db.cart && r.follows == db.follows && r.users == db.users
    ensures r.ingredients == db.ingredients && r.tags == db.tags
    ensures r.nextRecipeId == db.nextRecipeId && r.nextIngredientId == db.nextIngredientId && r.nextTagId == db.nextTagId
    ensures Valid(db) ==> Valid(r)
  {
    var r := db.(
      recipes := db.recipes[rid := db.recipes[rid].(tags := {})],
      amounts := Select(db.amounts, NotOfRecipe(rid)));
    assert Valid(db) ==> AmountsResolve(r, r.amounts) by {
      if Valid(db) {
        SelectedRowsResolve(db, r, NotOfRecipe(rid));
      }
    }
    r
  }

  /** `recipe.name = validated_data.get('name', recipe.name)` and the same
      for image, text and cooking time: a submitted value replaces the old
      one, an omitted field keeps it. Author, tags and creation time are
      untouched. */
  function Merge(prev: Recipe, p: Payload): (r: Recipe)
    ensures p.name.Some? ==> r.name == p.name.value
    ensures p.name.None? ==> r.name == prev.name
    ensures p.image.Some? ==> r.image == Some(p.image.value)
    ensures p.image.None? ==> r.image == prev.image
    ensures p.text.Some? ==> r.text == p.text.value
    ensures p.text.None? ==> r.text == prev.text
    ensures p.cookingTime.Some? ==> r.cookingTime == p.cookingTime.value
    ensures p.cookingTime.None? ==> r.cookingTime == prev.cookingTime
    ensures r.author == prev.author && r.tags == prev.tags && r.createdAt == prev.createdAt
  {
    prev.(
      name := p.name.GetOr(prev.name),
      image := if p.image.Some? then Some(p.image.value) else prev.image,
      text := p.text.GetOr(prev.text),
      cookingTime := p.cookingTime.GetOr(prev.cookingTime))
  }

  /** A merge with an empty payload changes nothing; merging the same
      payload twice is the same as merging it once. */
  lemma MergeIdempotent(prev: Recipe, p: Payload)
    ensures Merge(Merge(prev, p), p) == Merge(prev, p)
    ensures Merge(prev, Payload(p.tags, p.ingredients, None, None, None, None)) == prev
  {
  }
}
