/**
  The later revision of the recipe write path (`RecipeWriteSerializer` in
  api/serializers.py): field validation with lower bounds on amounts and
  cooking time, `create` with its duplicate-ingredient guard as written and
  as evidently intended, and `update`.

  POST runs a full validation; PATCH (the view offers no PUT) runs a
  partial one, in which an omitted field is neither required nor checked.
  No database transaction is assumed around a request, so the writes a
  handler has made before it raises stay in the database.
*/
module ApiRecipeWrite {
  import opened Results
  import opened Models
  import opened RecipePayload

  // ---------------------------------------------------------------------
  // Validation

  /** `IntegerField(min_value=1)` on each entry's amount. */
  function AmountErrors(entries: Option<seq<Entry>>): (errs: set<FieldError>)
    ensures errs == {} <==> entries.None? || forall e | e in entries.value :: e.amount >= 1
    ensures forall x | x in errs :: x == BelowMinimum(IngredientsField, 1)
    ensures BelowMinimum(IngredientsField, 1) in errs <==> entries.Some? && exists e | e in entries.value :: e.amount < 1
  {
    if entries.Some? && exists e | e in entries.value :: e.amount < 1 then {BelowMinimum(IngredientsField, 1)}
    else {}
  }

  /** `IntegerField(min_value=1)` on `cooking_time`. */
  function CookingTimeErrors(cookingTime: Option<int>): (errs: set<FieldError>)
    ensures errs == {} <==> cookingTime.None? || cookingTime.value >= 1
    ensures forall x | x in errs :: x == BelowMinimum(CookingTimeField, 1)
    ensures BelowMinimum(CookingTimeField, 1) in errs <==> cookingTime.Some? && cookingTime.value < 1
  {
    if cookingTime.Some? && cookingTime.value < 1 then {BelowMinimum(CookingTimeField, 1)} else {}
  }

  /** What `is_valid` accepts, stated field by field. */
  predicate Acceptable(db: Db, p: Payload, partial: bool) {
    && (partial || Complete(p))
    && (p.tags.Some? ==> forall t | t in p.tags.value :: t in db.tags)
    && (p.ingredients.Some? ==> forall e | e in p.ingredients.value :: e.id in db.ingredients && e.amount >= 1)
    && (p.name.Some? ==> 0 < |p.name.value| <= RecipeNameMaxLength)
    && p.text != Some("")
    && (p.cookingTime.Some? ==> p.cookingTime.value >= 1)
  }

  /** The errors `is_valid` reports for a payload. */
  function FieldErrors(db: Db, p: Payload, partial: bool): set<FieldError> {
    Missing(p, partial)
    + UnknownTags(db, p.tags)
    + (if p.ingredients.Some? then UnknownIngredients(db, p.ingredients.value) else {})
    + AmountErrors(p.ingredients)
    + NameErrors(p.name)
    + TextErrors(p.text)
    + CookingTimeErrors(p.cookingTime)
  }

  /** The report is empty exactly when the payload is acceptable. */
  lemma NoErrorsIffAcceptable(db: Db, p: Payload, partial: bool)
    ensures FieldErrors(db, p, partial) == {} <==> Acceptable(db, p, partial)
  {
  }

  /** The report names every tag and ingredient id that does not exist. */
  lemma ReportedUnknownIds(db: Db, p: Payload, partial: bool)
    ensures forall t :: UnknownTag(t) in FieldErrors(db, p, partial) <==>
      p.tags.Some? && t in p.tags.value && t !in db.tags
    ensures forall i :: UnknownIngredient(i) in FieldErrors(db, p, partial) <==>
      p.ingredients.Some? && exists e | e in p.ingredients.value :: e.id == i && i !in db.ingredients
  {
    forall t
      ensures UnknownTag(t) in FieldErrors(db, p, partial) <==> p.tags.Some? && t in p.tags.value && t !in db.tags
    {
      TagErrorsFromTags(db, p, partial, t);
    }
    forall i
      ensures UnknownIngredient(i) in FieldErrors(db, p, partial) <==>
        p.ingredients.Some? && exists e | e in p.ingredients.value :: e.id == i && i !in db.ingredients
    {
      IngredientErrorsFromEntries(db, p, partial, i);
    }
  }

  /** The report names a quantity or cooking time below 1, an over-long
      name and a missing name. */
  lemma ReportedBounds(db: Db, p: Payload, partial: bool)
    ensures BelowMinimum(IngredientsField, 1) in FieldErrors(db, p, partial) <==>
      p.ingredients.Some? && exists e | e in p.ingredients.value :: e.amount < 1
    ensures BelowMinimum(CookingTimeField, 1) in FieldErrors(db, p, partial) <==>
      p.cookingTime.Some? && p.cookingTime.value < 1
    ensures TooLong(NameField, RecipeNameMaxLength) in FieldErrors(db, p, partial) <==>
      p.name.Some? && |p.name.value| > RecipeNameMaxLength
    ensures Required(NameField) in FieldErrors(db, p, partial) <==> !partial && p.name.None?
  {
    LowAmountFromEntries(db, p, partial);
    LowCookingTimeFromField(db, p, partial);
    LongNameFromName(db, p, partial);
    RequiredFromMissing(db, p, partial, NameField);
  }

  /** The report names an empty name and an empty text, each under its
      own field. */
  lemma ReportedBlanks(db: Db, p: Payload, partial: bool)
    ensures Blank(NameField) in FieldErrors(db, p, partial) <==> p.name == Some("")
    ensures Blank(TextField) in FieldErrors(db, p, partial) <==> p.text == Some("")
  {
    BlankNameFromName(db, p, partial);
    BlankTextFromText(db, p, partial);
  }

  // Each kind of error comes from one check only.

  lemma BlankNameFromName(db: Db, p: Payload, partial: bool)
    ensures Blank(NameField) in FieldErrors(db, p, partial) <==> Blank(NameField) in NameErrors(p.name)
  {
    var x := Blank(NameField);
    assert x !in Missing(p, partial) && x !in UnknownTags(db, p.tags);
    assert x !in (if p.ingredients.Some? then UnknownIngredients(db, p.ingredients.value) else {});
    assert x !in AmountErrors(p.ingredients) && x !in CookingTimeErrors(p.cookingTime);
    assert x !in TextErrors(p.text);
  }

  lemma BlankTextFromText(db: Db, p: Payload, partial: bool)
    ensures Blank(TextField) in FieldErrors(db, p, partial) <==> Blank(TextField) in TextErrors(p.text)
  {
    var x := Blank(TextField);
    assert x !in Missing(p, partial) && x !in UnknownTags(db, p.tags);
    assert x !in (if p.ingredients.Some? then UnknownIngredients(db, p.ingredients.value) else {});
    assert x !in AmountErrors(p.ingredients) && x !in CookingTimeErrors(p.cookingTime);
    assert x !in NameErrors(p.name);
  }

  lemma TagErrorsFromTags(db: Db, p: Payload, partial: bool, t: TagId)
    ensures UnknownTag(t) in FieldErrors(db, p, partial) <==> UnknownTag(t) in UnknownTags(db, p.tags)
  {
    var x := UnknownTag(t);
    assert x !in Missing(p, partial);
    assert x !in (if p.ingredients.Some? then UnknownIngredients(db, p.ingredients.value) else {});
    assert x !in AmountErrors(p.ingredients) && x !in CookingTimeErrors(p.cookingTime);
    assert x !in NameErrors(p.name) && x !in TextErrors(p.text);
  }

  lemma IngredientErrorsFromEntries(db: Db, p: Payload, partial: bool, i: IngredientId)
    ensures UnknownIngredient(i) in FieldErrors(db, p, partial) <==>
      p.ingredients.Some? && UnknownIngredient(i) in UnknownIngredients(db, p.ingredients.value)
  {
    var x := UnknownIngredient(i);
    assert x !in Missing(p, partial) && x !in UnknownTags(db, p.tags);
    assert x !in AmountErrors(p.ingredients) && x !in CookingTimeErrors(p.cookingTime);
    assert x !in NameErrors(p.name) && x !in TextErrors(p.text);
  }

  lemma LowAmountFromEntries(db: Db, p: Payload, partial: bool)
    ensures BelowMinimum(IngredientsField, 1) in FieldErrors(db, p, partial) <==>
      p.ingredients.Some? && exists e | e in p.ingredients.value :: e.amount < 1
  {
    var x := BelowMinimum(IngredientsField, 1);
    assert x !in Missing(p, partial) && x !in UnknownTags(db, p.tags);
    assert x !in (if p.ingredients.Some? then UnknownIngredients(db, p.ingredients.value) else {});
    assert x !in CookingTimeErrors(p.cookingTime);
    assert x !in NameErrors(p.name) && x !in TextErrors(p.text);
  }

  lemma LowCookingTimeFromField(db: Db, p: Payload, partial: bool)
    ensures BelowMinimum(CookingTimeField, 1) in FieldErrors(db, p, partial) <==>
      p.cookingTime.Some? && p.cookingTime.value < 1
  {
    var x := BelowMinimum(CookingTimeField, 1);
    assert x !in Missing(p, partial) && x !in UnknownTags(db, p.tags);
    assert x !in (if p.ingredients.Some? then UnknownIngredients(db, p.ingredients.value) else {});
    assert x !in AmountErrors(p.ingredients);
    assert x !in NameErrors(p.name) && x !in TextErrors(p.text);
  }

  lemma LongNameFromName(db: Db, p: Payload, partial: bool)
    ensures TooLong(NameField, RecipeNameMaxLength) in FieldErrors(db, p, partial) <==>
      p.name.Some? && |p.name.value| > RecipeNameMaxLength
  {
    var x := TooLong(NameField, RecipeNameMaxLength);
    assert x !in Missing(p, partial) && x !in UnknownTags(db, p.tags);
    assert x !in (if p.ingredients.Some? then UnknownIngredients(db, p.ingredients.value) else {});
    assert x !in AmountErrors(p.ingredients) && x !in CookingTimeErrors(p.cookingTime);
    assert x !in TextErrors(p.text);
  }

  lemma RequiredFromMissing(db: Db, p: Payload, partial: bool, f: Field)
    ensures Required(f) in FieldErrors(db, p, partial) <==> Required(f) in Missing(p, partial)
  {
    var x := Required(f);
    assert x !in UnknownTags(db, p.tags);
    assert x !in (if p.ingredients.Some? then UnknownIngredients(db, p.ingredients.value) else {});
    assert x !in AmountErrors(p.ingredients) && x !in CookingTimeErrors(p.cookingTime);
    assert x !in NameErrors(p.name) && x !in TextErrors(p.text);
  }

  // ---------------------------------------------------------------------
  // The loops that collect Amount rows

  /** `update`'s loop: walk the entries with the list of ingredients taken
      so far, and raise on an ingredient taken before. */
  function Collect(rid: RecipeId, entries: seq<Entry>, seen: seq<IngredientId>): (r: Result<seq<AmountRow>>)
    ensures r.Success? <==> DistinctIds(entries) && forall e | e in entries :: e.id !in seen
    ensures r.Success? ==> r.value == Rows(rid, entries)
    ensures r.Failure? ==> r.error == BadRequest(DuplicateIngredient)
    decreases |entries|
  {
    if |entries| == 0 then Success([])
    else if entries[0].id in seen then Failure(BadRequest(DuplicateIngredient))
    else
      var rest := entries[1..];
      assert DistinctIds(entries) <==> DistinctIds(rest) && forall e | e in rest :: e.id != entries[0].id by {
        if DistinctIds(rest) && forall e | e in rest :: e.id != entries[0].id {
          forall i, j | 0 <= i < j < |entries|
            ensures entries[i].id != entries[j].id
          {
            assert entries[j] == rest[j - 1];
            if i > 0 {
              assert entries[i] == rest[i - 1];
            }
          }
        }
        if DistinctIds(entries) {
          forall e | e in rest
            ensures e.id != entries[0].id
          {
            var k :| 0 <= k < |rest| && rest[k] == e;
            assert entries[k + 1] == e;
          }
        }
      }
      assert forall e | e in entries :: e == entries[0] || e in rest;
      match Collect(rid, rest, seen + [entries[0].id])
      case Failure(e) => Failure(e)
      case Success(tail) => Success([AmountRow(rid, entries[0].id, entries[0].amount)] + tail)
  }

  /** The values `create`'s loop compares: the submitted entry is a dict,
      the list it is looked up in holds Ingredient instances, and a dict
      never equals a model instance. */
  datatype PyValue = EntryDict(entry: Entry) | IngredientObject(id: IngredientId)

  /** `create`'s loop as written: `obj in ingredients_list` looks the entry
      dict up among Ingredient instances, so the guard never fires and every
      entry becomes a row. */
  function CollectAsWritten(rid: RecipeId, entries: seq<Entry>, seen: seq<PyValue>): (r: Result<seq<AmountRow>>)
    ensures (forall v | v in seen :: v.IngredientObject?) ==> r == Success(Rows(rid, entries))
    decreases |entries|
  {
    if |entries| == 0 then Success([])
    else if EntryDict(entries[0]) in seen then Failure(BadRequest(DuplicateIngredient))
    else
      match CollectAsWritten(rid, entries[1..], seen + [IngredientObject(entries[0].id)])
      case Failure(e) => Failure(e)
      case Success(tail) => Success([AmountRow(rid, entries[0].id, entries[0].amount)] + tail)
  }

  // ---------------------------------------------------------------------
  // create

  /** The set of primary keys of the `tags` list. */
  function TagSet(tags: seq<TagId>): (s: set<TagId>)
    ensures forall t :: t in s <==> t in tags
  {
    set t | t in tags
  }

  /** After `Amount.objects.bulk_create(amounts)`: the rows are in and the
      recipe's tag links are set. `ingredients.set` then finds every
      ingredient already linked through the new rows and changes nothing. */
  function Finish(saved: Db, rid: RecipeId, amounts: seq<AmountRow>, tags: seq<TagId>): Db
    requires rid in saved.recipes
  {
    saved.(amounts := amounts, recipes := saved.recipes[rid := saved.recipes[rid].(tags := TagSet(tags))])
  }

  lemma {:induction false} FinishValid(saved: Db, rid: RecipeId, rows: seq<AmountRow>, tags: seq<TagId>)
    requires Valid(saved) && rid in saved.recipes
    requires AmountsUnique(saved.amounts + rows)
    requires forall row | row in rows :: row.recipe == rid && row.ingredient in saved.ingredients
    requires forall t | t in tags :: t in saved.tags
    ensures Valid(Finish(saved, rid, saved.amounts + rows, tags))
  {
    var r := Finish(saved, rid, saved.amounts + rows, tags);
    forall i | 0 <= i < |r.amounts|
      ensures r.amounts[i].recipe in r.recipes && r.amounts[i].ingredient in r.ingredients
    {
      if i < |saved.amounts| {
        assert r.amounts[i] == saved.amounts[i];
      } else {
        assert r.amounts[i] == rows[i - |saved.amounts|];
        assert r.amounts[i] in rows;
      }
    }
    assert AmountsResolve(r, r.amounts);
  }

  /** No Amount row of a valid database points at the next recipe id. */
  lemma NoRowsForNextRecipe(db: Db)
    requires Valid(db)
    ensures forall row | row in db.amounts :: row.recipe != db.nextRecipeId
  {
    forall row | row in db.amounts
      ensures row.recipe != db.nextRecipeId
    {
      var k :| 0 <= k < |db.amounts| && db.amounts[k] == row;
    }
  }

  /** The rows of an accepted payload for a new recipe: on a valid database
      they clash with the table exactly when an ingredient repeats, and when
      they do not, inserting them and linking the tags keeps it valid. */
  lemma NewRecipeRows(db: Db, author: UserId, p: Payload, now: int)
    requires Acceptable(db, p, false)
    ensures var rid := db.nextRecipeId;
      var saved := InsertRecipe(db, author, p, now);
      var rows := Rows(rid, p.ingredients.value);
      && (Valid(db) ==> (Clashes(saved.amounts, rows) <==> !DistinctIds(p.ingredients.value)))
      && (Valid(db) && author in db.users && !Clashes(saved.amounts, rows) ==>
          Valid(Finish(saved, rid, saved.amounts + rows, p.tags.value)))
  {
    var rid := db.nextRecipeId;
    var saved := InsertRecipe(db, author, p, now);
    var entries := p.ingredients.value;
    var rows := Rows(rid, entries);
    if Valid(db) {
      NoRowsForNextRecipe(db);
      RowsClashIffDuplicate(saved.amounts, rid, entries);
      if author in db.users && !Clashes(saved.amounts, rows) {
        assert AmountsUnique(saved.amounts + rows);
        forall row | row in rows
          ensures row.recipe == rid && row.ingredient in saved.ingredients
        {
          var k :| 0 <= k < |rows| && rows[k] == row;
          assert entries[k] in entries;
        }
        FinishValid(saved, rid, rows, p.tags.value);
      }
    }
  }

  /** `create` as written, after a full validation: save the recipe, collect
      one row per entry (the guard never fires), insert the rows and link the
      tags. A repeated ingredient is caught only by the database, whose
      IntegrityError reaches the client as a 500 and leaves the saved recipe
      behind without tags or ingredients. */
  function CreateAsWritten(db: Db, author: UserId, p: Payload, now: int): (s: Step)
    ensures !Acceptable(db, p, false) ==> s == Step(db, Failure(Invalid(FieldErrors(db, p, false))))
    ensures Acceptable(db, p, false) && Valid(db) ==> (s.reply.Success? <==> DistinctIds(p.ingredients.value))
    ensures Acceptable(db, p, false) && s.reply.Success? ==>
      && s.reply.value == Created
      && db.nextRecipeId in s.db.recipes
      && s.db.recipes[db.nextRecipeId] ==
        Recipe(author, p.name.value, Some(p.image.value), p.text.value, p.cookingTime.value, TagSet(p.tags.value), now)
      && s.db.amounts == db.amounts + Rows(db.nextRecipeId, p.ingredients.value)
    ensures Acceptable(db, p, false) && s.reply.Failure? ==>
      s.reply.error == IntegrityError && s.db == InsertRecipe(db, author, p, now)
    ensures Valid(db) && author in db.users ==> Valid(s.db)
  {
    var errs := FieldErrors(db, p, false);
    NoErrorsIffAcceptable(db, p, false);
    if errs != {} then Step(db, Failure(Invalid(errs)))
    else
      var rid := db.nextRecipeId;
      var saved := InsertRecipe(db, author, p, now);
      var entries := p.ingredients.value;
      match CollectAsWritten(rid, entries, [])
      case Failure(e) => Step(saved, Failure(e))
      case Success(rows) =>
        NewRecipeRows(db, author, p, now);
        match BulkCreate(saved.amounts, rows)
        case Failure(e) => Step(saved, Failure(e))
        case Success(amounts) => Step(Finish(saved, rid, amounts, p.tags.value), Success(Created))
  }

  /** `create` with the guard it evidently intends, `ingredient in
      ingredients_list` as in `update`: a repeated ingredient is refused with
      a 400 and the database is never asked to break its constraint. The
      recipe row saved before the loop still stays behind. */
  function Create(db: Db, author: UserId, p: Payload, now: int): (s: Step)
    ensures !Acceptable(db, p, false) ==> s == Step(db, Failure(Invalid(FieldErrors(db, p, false))))
    ensures Acceptable(db, p, false) && Valid(db) ==> (s.reply.Success? <==> DistinctIds(p.ingredients.value))
    ensures Acceptable(db, p, false) && !DistinctIds(p.ingredients.value) ==>
      s == Step(InsertRecipe(db, author, p, now), Failure(BadRequest(DuplicateIngredient)))
    ensures Acceptable(db, p, false) && s.reply.Success? ==>
      && s.reply.value == Created
      && db.nextRecipeId in s.db.recipes
      && s.db.recipes[db.nextRecipeId] ==
        Recipe(author, p.name.value, Some(p.image.value), p.text.value, p.cookingTime.value, TagSet(p.tags.value), now)
      && s.db.amounts == db.amounts + Rows(db.nextRecipeId, p.ingredients.value)
    ensures Valid(db) ==> s.reply != Failure(IntegrityError)
    ensures Valid(db) && author in db.users ==> Valid(s.db)
  {
    var errs := FieldErrors(db, p, false);
    NoErrorsIffAcceptable(db, p, false);
    if errs != {} then Step(db, Failure(Invalid(errs)))
    else
      var rid := db.nextRecipeId;
      var saved := InsertRecipe(db, author, p, now);
      var entries := p.ingredients.value;
      match Collect(rid, entries, [])
      case Failure(e) => Step(saved, Failure(e))
      case Success(rows) =>
        NewRecipeRows(db, author, p, now);
        match BulkCreate(saved.amounts, rows)
        case Failure(e) => Step(saved, Failure(e))
        case Success(amounts) => Step(Finish(saved, rid, amounts, p.tags.value), Success(Created))
  }

  /** The two guards differ only on a repeated ingredient. */
  lemma CreateAgreesWithoutDuplicates(db: Db, author: UserId, p: Payload, now: int)
    requires Acceptable(db, p, false) ==> DistinctIds(p.ingredients.value)
    ensures Create(db, author, p, now) == CreateAsWritten(db, author, p, now)
  {
  }

  /** On a valid database, a payload that repeats an ingredient is answered
      with a 500 as written and with a 400 once the guard compares
      ingredients. */
  lemma DuplicateIngredientOnCreate(db: Db, author: UserId, p: Payload, now: int)
    requires Valid(db) && Acceptable(db, p, false) && !DistinctIds(p.ingredients.value)
    ensures HttpCode(CreateAsWritten(db, author, p, now).reply) == 500
    ensures CreateAsWritten(db, author, p, now).reply == Failure(IntegrityError)
    ensures HttpCode(Create(db, author, p, now).reply) == 400
  {
  }

  /** The input that shows it: one ingredient submitted twice. */
  lemma DuplicateIngredientExample()
    ensures var db := Db({7}, map[1 := Ingredient("salt", "g")], map[], map[], [], {}, {}, {}, 2, 0, 0);
      var p := Payload(Some([]), Some([Entry(1, 5), Entry(1, 10)]), Some("Soup"), Some("soup.png"), Some("Boil."), Some(15));
      && CreateAsWritten(db, 7, p, 0).reply == Failure(IntegrityError)
      && Create(db, 7, p, 0).reply == Failure(BadRequest(DuplicateIngredient))
  {
    var db := Db({7}, map[1 := Ingredient("salt", "g")], map[], map[], [], {}, {}, {}, 2, 0, 0);
    var p := Payload(Some([]), Some([Entry(1, 5), Entry(1, 10)]), Some("Soup"), Some("soup.png"), Some("Boil."), Some(15));
    assert Valid(db);
    assert Acceptable(db, p, false);
    assert !DistinctIds(p.ingredients.value) by {
      assert p.ingredients.value[0].id == p.ingredients.value[1].id;
    }
    DuplicateIngredientOnCreate(db, 7, p, 0);
  }

  // ---------------------------------------------------------------------
  // update

  /** The database a successful update leaves: the recipe's old rows
      replaced by one row per entry, its scalars merged and its tag links
      set to the submitted tags. */
  function Rebuilt(db: Db, rid: RecipeId, p: Payload): Db
    requires rid in db.recipes && p.tags.Some? && p.ingredients.Some?
  {
    db.(
      amounts := Select(db.amounts, NotOfRecipe(rid)) + Rows(rid, p.ingredients.value),
      recipes := db.recipes[rid := Merge(db.recipes[rid], p).(tags := TagSet(p.tags.value))])
  }

  lemma RebuiltValid(db: Db, rid: RecipeId, p: Payload)
    requires Valid(db) && rid in db.recipes && Acceptable(db, p, true)
    requires p.tags.Some? && p.ingredients.Some? && DistinctIds(p.ingredients.value)
    ensures Valid(Rebuilt(db, rid, p))
  {
    var recipes := db.recipes[rid := Merge(db.recipes[rid], p).(tags := TagSet(p.tags.value))];
    var amounts := Select(db.amounts, NotOfRecipe(rid)) + Rows(rid, p.ingredients.value);
    assert Rebuilt(db, rid, p) == db.(recipes := recipes, amounts := amounts);
    RebuiltRecipesFit(db, rid, p);
    RebuiltRowsUnique(db, rid, p);
    RebuiltRowsResolve(db, rid, p);
    ValidAfterRecipeRewrite(db, recipes, amounts);
  }

  lemma RebuiltRecipesFit(db: Db, rid: RecipeId, p: Payload)
    requires Valid(db) && rid in db.recipes && Acceptable(db, p, true)
    requires p.tags.Some? && p.ingredients.Some?
    ensures var r := Rebuilt(db, rid, p);
      forall k | k in r.recipes :: k < r.nextRecipeId && RecipeFits(r, r.recipes[k])
  {
    var r := Rebuilt(db, rid, p);
    forall k | k in r.recipes
      ensures k < r.nextRecipeId && RecipeFits(r, r.recipes[k])
    {
      if k != rid {
        assert r.recipes[k] == db.recipes[k];
      }
    }
  }

  lemma RebuiltRowsUnique(db: Db, rid: RecipeId, p: Payload)
    requires Valid(db) && rid in db.recipes
    requires p.tags.Some? && p.ingredients.Some? && DistinctIds(p.ingredients.value)
    ensures AmountsUnique(Rebuilt(db, rid, p).amounts)
  {
    var kept := Select(db.amounts, NotOfRecipe(rid));
    RowsClashIffDuplicate(kept, rid, p.ingredients.value);
    assert BulkCreate(kept, Rows(rid, p.ingredients.value)).Success?;
  }

  lemma {:induction false} RebuiltRowsResolve(db: Db, rid: RecipeId, p: Payload)
    requires Valid(db) && rid in db.recipes && Acceptable(db, p, true)
    requires p.tags.Some? && p.ingredients.Some?
    ensures var r := Rebuilt(db, rid, p);
      AmountsResolve(r, r.amounts)
  {
    var r := Rebuilt(db, rid, p);
    var entries := p.ingredients.value;
    var kept := Select(db.amounts, NotOfRecipe(rid));
    var rows := Rows(rid, entries);
    assert r.amounts == kept + rows;
    forall i | 0 <= i < |r.amounts|
      ensures r.amounts[i].recipe in r.recipes && r.amounts[i].ingredient in r.ingredients
    {
      if i < |kept| {
        assert r.amounts[i] == kept[i];
        assert kept[i] in kept;
        var k :| 0 <= k < |db.amounts| && db.amounts[k] == kept[i];
      } else {
        assert r.amounts[i] == rows[i - |kept|];
        assert entries[i - |kept|] in entries;
      }
    }
  }

  /** The steps of `update` for an accepted payload with both lists: the
      rows clash with the cleared table exactly when an ingredient repeats,
      and when they do not, the steps end in `Rebuilt`. */
  lemma UpdateSteps(db: Db, rid: RecipeId, p: Payload)
    requires rid in db.recipes && Acceptable(db, p, true) && p.tags.Some? && p.ingredients.Some?
    ensures var cleared := ClearLinks(db, rid);
      var rows := Rows(rid, p.ingredients.value);
      var merged := cleared.(recipes := cleared.recipes[rid := Merge(cleared.recipes[rid], p)]);
      && (Clashes(cleared.amounts, rows) <==> !DistinctIds(p.ingredients.value))
      && Finish(merged, rid, cleared.amounts + rows, p.tags.value) == Rebuilt(db, rid, p)
      && (Valid(db) && DistinctIds(p.ingredients.value) ==> Valid(Rebuilt(db, rid, p)))
  {
    var cleared := ClearLinks(db, rid);
    RowsClashIffDuplicate(cleared.amounts, rid, p.ingredients.value);
    FinishIsRebuilt(db, rid, p);
    if Valid(db) && DistinctIds(p.ingredients.value) {
      RebuiltValid(db, rid, p);
    }
  }

  /** Setting the tags after a merge overrides whatever tags the merged
      recipe had. */
  lemma MergeThenRetag(prev: Recipe, p: Payload, tags: set<TagId>)
    ensures Merge(prev.(tags := {}), p).(tags := tags) == Merge(prev, p).(tags := tags)
  {
  }

  /** Clearing the links, merging the scalars, inserting the rows and
      linking the tags amounts to `Rebuilt`. */
  lemma FinishIsRebuilt(db: Db, rid: RecipeId, p: Payload)
    requires rid in db.recipes && p.tags.Some? && p.ingredients.Some?
    ensures var cleared := ClearLinks(db, rid);
      var merged := cleared.(recipes := cleared.recipes[rid := Merge(cleared.recipes[rid], p)]);
      Finish(merged, rid, cleared.amounts + Rows(rid, p.ingredients.value), p.tags.value) == Rebuilt(db, rid, p)
  {
    var prev := db.recipes[rid];
    var tags := TagSet(p.tags.value);
    var cleared := ClearLinks(db, rid);
    var m := Merge(cleared.recipes[rid], p);
    var merged := cleared.(recipes := cleared.recipes[rid := m]);
    var rows := cleared.amounts + Rows(rid, p.ingredients.value);
    assert cleared.recipes[rid] == prev.(tags := {});
    MergeThenRetag(prev, p, tags);
    assert m.(tags := tags) == Merge(prev, p).(tags := tags);
    OverwriteTwice(db.recipes, rid, prev.(tags := {}), m, m.(tags := tags));
    assert merged.recipes[rid := merged.recipes[rid].(tags := tags)] == db.recipes[rid := Merge(prev, p).(tags := tags)];
    assert Finish(merged, rid, rows, p.tags.value) == merged.(amounts := rows, recipes := db.recipes[rid := Merge(prev, p).(tags := tags)]);
  }

  /** Writing a key three times keeps only the last write. */
  lemma OverwriteTwice<K, V>(m: map<K, V>, k: K, a: V, b: V, c: V)
    ensures m[k := a][k := b][k := c] == m[k := c]
  {
  }

  /** `update` behind PATCH: 404 for an unknown recipe, a partial
      validation, then clear the recipe's tags and Amount rows, pop `tags`
      and `ingredients` (a `KeyError`, so a 500, when either was omitted),
      collect the rows with the duplicate guard, insert them, merge the
      scalar fields and link the tags. Every failure after the clearing
      leaves the recipe stripped of tags and ingredients. */
  function Update(db: Db, rid: RecipeId, p: Payload): (s: Step)
    ensures rid !in db.recipes ==> s == Step(db, Failure(NotFound))
    ensures rid in db.recipes && !Acceptable(db, p, true) ==>
      s == Step(db, Failure(Invalid(FieldErrors(db, p, true))))
    ensures rid in db.recipes && Acceptable(db, p, true) && (p.tags.None? || p.ingredients.None?) ==>
      s == Step(ClearLinks(db, rid), Failure(ServerError))
    ensures (rid in db.recipes && Acceptable(db, p, true) && p.tags.Some? && p.ingredients.Some?
      && !DistinctIds(p.ingredients.value)) ==>
      s == Step(ClearLinks(db, rid), Failure(BadRequest(DuplicateIngredient)))
    ensures s.reply.Success? <==>
      rid in db.recipes && Acceptable(db, p, true) && p.tags.Some? && p.ingredients.Some?
      && DistinctIds(p.ingredients.value)
    ensures s.reply.Success? ==>
      && s.reply.value == Ok
      && s.db == Rebuilt(db, rid, p)
    ensures Valid(db) ==> Valid(s.db)
  {
    if rid !in db.recipes then Step(db, Failure(NotFound))
    else
      var errs := FieldErrors(db, p, true);
      NoErrorsIffAcceptable(db, p, true);
      if errs != {} then Step(db, Failure(Invalid(errs)))
      else
        var cleared := ClearLinks(db, rid);
        if p.tags.None? || p.ingredients.None? then Step(cleared, Failure(ServerError))
        else
          var entries := p.ingredients.value;
          match Collect(rid, entries, [])
          case Failure(e) => Step(cleared, Failure(e))
          case Success(rows) =>
            UpdateSteps(db, rid, p);
            match BulkCreate(cleared.amounts, rows)
            case Failure(e) => Step(cleared, Failure(e))
            case Success(amounts) =>
              var merged := cleared.(recipes := cleared.recipes[rid := Merge(cleared.recipes[rid], p)]);
              Step(Finish(merged, rid, amounts, p.tags.value), Success(Ok))
  }

  /** After a successful update the recipe's Amount rows are exactly the
      submitted (ingredient, amount) pairs, and no other recipe's rows have
      changed. */
  lemma UpdateReplacesRows(db: Db, rid: RecipeId, p: Payload)
    requires Update(db, rid, p).reply.Success?
    ensures forall row: AmountRow | row.recipe == rid :: row in Update(db, rid, p).db.amounts <==>
      exists e | e in p.ingredients.value :: row == AmountRow(rid, e.id, e.amount)
    ensures forall row: AmountRow | row.recipe != rid :: row in Update(db, rid, p).db.amounts <==> row in db.amounts
  {
    var kept := Select(db.amounts, NotOfRecipe(rid));
    var added := Rows(rid, p.ingredients.value);
    UpdateAmounts(db, rid, p);
    RowsMembership(rid, p.ingredients.value);
    KeptAndAdded(db.amounts, kept, added, rid);
  }

  /** The Amount table a successful update leaves behind. */
  lemma UpdateAmounts(db: Db, rid: RecipeId, p: Payload)
    requires Update(db, rid, p).reply.Success?
    ensures Update(db, rid, p).db.amounts == Select(db.amounts, NotOfRecipe(rid)) + Rows(rid, p.ingredients.value)
  {
  }

  /** Rows of other recipes survive the clearing, and the new rows all
      belong to the recipe. */
  lemma KeptAndAdded(before: seq<AmountRow>, kept: seq<AmountRow>, added: seq<AmountRow>, rid: RecipeId)
    requires kept == Select(before, NotOfRecipe(rid))
    requires forall row | row in added :: row.recipe == rid
    ensures forall row: AmountRow | row.recipe == rid :: row in kept + added <==> row in added
    ensures forall row: AmountRow | row.recipe != rid :: row in kept + added <==> row in before
  {
  }

  /** A successful update that omits a scalar field keeps its old value,
      and one that submits it stores the new value. */
  lemma UpdateMergesScalars(db: Db, rid: RecipeId, p: Payload)
    requires Update(db, rid, p).reply.Success?
    ensures var r := Update(db, rid, p).db.recipes[rid];
      var prev := db.recipes[rid];
      && r.name == (if p.name.Some? then p.name.value else prev.name)
      && r.text == (if p.text.Some? then p.text.value else prev.text)
      && r.cookingTime == (if p.cookingTime.Some? then p.cookingTime.value else prev.cookingTime)
      && r.image == (if p.image.Some? then Some(p.image.value) else prev.image)
      && r.author == prev.author && r.createdAt == prev.createdAt
      && r.tags == TagSet(p.tags.value)
  {
  }
}
