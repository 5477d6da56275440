/**
  The older revision of the recipe write path (`RecipeWriteSerializer` in
  recipes/serializers.py, the one the recipe views import). Entries carry
  plain integers: an ingredient id is checked by `validate_id`, and neither
  the amount nor the cooking time has a lower bound. `create` and `update`
  have no duplicate-ingredient guard, so a repeated ingredient is refused
  only by the database's uniqueness constraint.
*/
module LegacyRecipeWrite {
  import opened Results
  import opened Models
  import opened RecipePayload
  import ApiRecipeWrite

  /** `AmountWriteSerializer.validate_id`: accept the id of an existing
      ingredient, refuse any other with an error naming the id. */
  function ValidateId(db: Db, id: IngredientId): (r: Result<IngredientId>)
    ensures r.Success? <==> id in db.ingredients
    ensures r.Success? ==> r.value == id
    ensures r.Failure? ==> r.error == Invalid({UnknownIngredient(id)})
  {
    if id in db.ingredients then Success(id) else Failure(Invalid({UnknownIngredient(id)}))
  }

  /** `validate_id` accepts exactly the ids the later revision's primary
      key field accepts, whatever the quantity. */
  lemma ValidateIdMatchesApiField(db: Db, id: IngredientId, amount: int)
    ensures ValidateId(db, id).Success? <==> UnknownIngredients(db, [Entry(id, amount)]) == {}
    ensures ValidateId(db, id).Failure? <==> UnknownIngredient(id) in UnknownIngredients(db, [Entry(id, amount)])
  {
    assert Entry(id, amount) in [Entry(id, amount)];
  }

  /** The errors `is_valid` reports: presence, tag keys, `validate_id` on
      every entry, and the name and text checks. */
  function FieldErrors(db: Db, p: Payload, partial: bool): set<FieldError> {
    Missing(p, partial)
    + UnknownTags(db, p.tags)
    + (if p.ingredients.Some? then IdErrors(db, p.ingredients.value) else {})
    + NameErrors(p.name)
    + TextErrors(p.text)
  }

  /** The report is empty exactly when the payload is acceptable. */
  lemma NoErrorsIffAcceptable(db: Db, p: Payload, partial: bool)
    ensures FieldErrors(db, p, partial) == {} <==> Acceptable(db, p, partial)
  {
  }

  /** The errors of `validate_id` over all entries. */
  function IdErrors(db: Db, entries: seq<Entry>): (errs: set<FieldError>)
    ensures errs == UnknownIngredients(db, entries)
    ensures forall i :: UnknownIngredient(i) in errs <==>
      exists e | e in entries :: e.id == i && ValidateId(db, i).Failure?
  {
    set e | e in entries && ValidateId(db, e.id).Failure? :: UnknownIngredient(e.id)
  }

  /** What this revision's `is_valid` accepts, field by field. */
  predicate Acceptable(db: Db, p: Payload, partial: bool) {
    && (partial || Complete(p))
    && (p.tags.Some? ==> forall t | t in p.tags.value :: t in db.tags)
    && (p.ingredients.Some? ==> forall e | e in p.ingredients.value :: e.id in db.ingredients)
    && (p.name.Some? ==> 0 < |p.name.value| <= RecipeNameMaxLength)
    && p.text != Some("")
  }

  /** Every payload the later revision accepts, this one accepts too. */
  lemma ApiAcceptanceImpliesLegacy(db: Db, p: Payload, partial: bool)
    ensures ApiRecipeWrite.Acceptable(db, p, partial) ==> Acceptable(db, p, partial)
  {
  }

  /** Replace the quantities and the cooking time of a payload, keeping which
      fields are present and which ingredients are named. */
  function WithQuantities(p: Payload, amounts: seq<int>, cookingTime: int): (q: Payload)
    requires p.ingredients.Some? ==> |amounts| == |p.ingredients.value|
    ensures q.tags == p.tags && q.name == p.name && q.image == p.image && q.text == p.text
    ensures q.ingredients.Some? <==> p.ingredients.Some?
    ensures q.ingredients.Some? ==>
      |q.ingredients.value| == |p.ingredients.value|
      && forall i | 0 <= i < |q.ingredients.value| ::
        q.ingredients.value[i] == Entry(p.ingredients.value[i].id, amounts[i])
    ensures q.cookingTime.Some? <==> p.cookingTime.Some?
    ensures q.cookingTime.Some? ==> q.cookingTime.value == cookingTime
  {
    p.(
      ingredients :=
        if p.ingredients.Some?
        then Some(seq(|amounts|, i requires 0 <= i < |amounts| => Entry(p.ingredients.value[i].id, amounts[i])))
        else None,
      cookingTime := if p.cookingTime.Some? then Some(cookingTime) else None)
  }

  /** No lower bound: the quantities and the cooking time, whatever their
      values (zero or negative included), never decide acceptance. */
  lemma {:induction false} AcceptanceIgnoresQuantities(db: Db, p: Payload, partial: bool, amounts: seq<int>, cookingTime: int)
    requires p.ingredients.Some? ==> |amounts| == |p.ingredients.value|
    ensures Acceptable(db, WithQuantities(p, amounts, cookingTime), partial) <==> Acceptable(db, p, partial)
  {
    var q := WithQuantities(p, amounts, cookingTime);
    if p.ingredients.Some? {
      var es := p.ingredients.value;
      var qs := q.ingredients.value;
      assert (forall e | e in qs :: e.id in db.ingredients) <==> (forall e | e in es :: e.id in db.ingredients) by {
        if forall e | e in es :: e.id in db.ingredients {
          forall e | e in qs
            ensures e.id in db.ingredients
          {
            var k :| 0 <= k < |qs| && qs[k] == e;
            assert es[k] in es;
          }
        }
        if forall e | e in qs :: e.id in db.ingredients {
          forall e | e in es
            ensures e.id in db.ingredients
          {
            var k :| 0 <= k < |es| && es[k] == e;
            assert qs[k] in qs;
          }
        }
      }
    }
  }

  // ---------------------------------------------------------------------
  // create

  /** `create`: save the recipe, build one row per entry in order with no
      duplicate check, insert the rows (the database refuses a repeated
      ingredient with an IntegrityError, leaving the saved recipe behind),
      then add the tag links. */
  function Create(db: Db, author: UserId, p: Payload, now: int): (s: Step)
    ensures !Acceptable(db, p, false) ==> s == Step(db, Failure(Invalid(FieldErrors(db, p, false))))
    ensures Acceptable(db, p, false) && Valid(db) ==> (s.reply.Success? <==> DistinctIds(p.ingredients.value))
    ensures Acceptable(db, p, false) && s.reply.Success? ==>
      && s.reply.value == Created
      && db.nextRecipeId in s.db.recipes
      && s.db.recipes[db.nextRecipeId] ==
        Recipe(author, p.name.value, Some(p.image.value), p.text.value, p.cookingTime.value,
          ApiRecipeWrite.TagSet(p.tags.value), now)
      && s.db.amounts == db.amounts + Rows(db.nextRecipeId, p.ingredients.value)
    ensures Acceptable(db, p, false) && s.reply.Failure? ==>
      s.reply.error == IntegrityError && s.db == InsertRecipe(db, author, p, now)
  {
    var errs := FieldErrors(db, p, false);
    NoErrorsIffAcceptable(db, p, false);
    if errs != {} then Step(db, Failure(Invalid(errs)))
    else
      var rid := db.nextRecipeId;
      var saved := InsertRecipe(db, author, p, now);
      var rows := Rows(rid, p.ingredients.value);
      ClashOnNewRecipe(db, author, p, now);
      match BulkCreate(saved.amounts, rows)
      case Failure(e) => Step(saved, Failure(e))
      case Success(amounts) => Step(ApiRecipeWrite.Finish(saved, rid, amounts, p.tags.value), Success(Created))
  }

  lemma ClashOnNewRecipe(db: Db, author: UserId, p: Payload, now: int)
    requires Complete(p)
    ensures Valid(db) ==>
      (Clashes(InsertRecipe(db, author, p, now).amounts, Rows(db.nextRecipeId, p.ingredients.value))
       <==> !DistinctIds(p.ingredients.value))
  {
    if Valid(db) {
      ApiRecipeWrite.NoRowsForNextRecipe(db);
      RowsClashIffDuplicate(db.amounts, db.nextRecipeId, p.ingredients.value);
    }
  }

  /** On a payload both revisions accept, this `create` is the later
      revision's `create` as written: the later guard never fires, so only
      the validation differs. */
  lemma CreateMatchesApiAsWritten(db: Db, author: UserId, p: Payload, now: int)
    requires ApiRecipeWrite.Acceptable(db, p, false)
    ensures Create(db, author, p, now) == ApiRecipeWrite.CreateAsWritten(db, author, p, now)
  {
  }

  // ---------------------------------------------------------------------
  // update

  /** `update` behind PATCH: as in the later revision, but with no guard, so
      a repeated ingredient reaches the database after the recipe's tags and
      rows were cleared. */
  function Update(db: Db, rid: RecipeId, p: Payload): (s: Step)
    ensures rid !in db.recipes ==> s == Step(db, Failure(NotFound))
    ensures rid in db.recipes && !Acceptable(db, p, true) ==>
      s == Step(db, Failure(Invalid(FieldErrors(db, p, true))))
    ensures rid in db.recipes && Acceptable(db, p, true) && (p.tags.None? || p.ingredients.None?) ==>
      s == Step(ClearLinks(db, rid), Failure(ServerError))
    ensures (rid in db.recipes && Acceptable(db, p, true) && p.tags.Some? && p.ingredients.Some?
      && !DistinctIds(p.ingredients.value)) ==>
      s == Step(ClearLinks(db, rid), Failure(IntegrityError))
    ensures s.reply.Success? <==>
      rid in db.recipes && Acceptable(db, p, true) && p.tags.Some? && p.ingredients.Some?
      && DistinctIds(p.ingredients.value)
    ensures s.reply.Success? ==> s.reply.value == Ok && s.db == ApiRecipeWrite.Rebuilt(db, rid, p)
  {
    if rid !in db.recipes then Step(db, Failure(NotFound))
    else
      var errs := FieldErrors(db, p, true);
      NoErrorsIffAcceptable(db, p, true);
      if errs != {} then Step(db, Failure(Invalid(errs)))
      else
        var cleared := ClearLinks(db, rid);
        if p.tags.None? || p.ingredients.None? then Step(cleared, Failure(ServerError))
        else
          var rows := Rows(rid, p.ingredients.value);
          RowsClashIffDuplicate(cleared.amounts, rid, p.ingredients.value);
          ApiRecipeWrite.FinishIsRebuilt(db, rid, p);
          match BulkCreate(cleared.amounts, rows)
          case Failure(e) => Step(cleared, Failure(e))
          case Success(amounts) =>
            var merged := cleared.(recipes := cleared.recipes[rid := Merge(cleared.recipes[rid], p)]);
            Step(ApiRecipeWrite.Finish(merged, rid, amounts, p.tags.value), Success(Ok))
  }

  /** Where both revisions accept a payload they update alike, except that
      a repeated ingredient is a 400 in the later revision and a 500 here;
      both leave the recipe stripped. */
  lemma UpdateComparedWithApi(db: Db, rid: RecipeId, p: Payload)
    requires ApiRecipeWrite.Acceptable(db, p, true)
    ensures var legacy := Update(db, rid, p);
      var api := ApiRecipeWrite.Update(db, rid, p);
      && legacy.db == api.db
      && (legacy.reply == api.reply || (legacy.reply == Failure(IntegrityError) && api.reply == Failure(BadRequest(DuplicateIngredient))))
  {
  }
}
