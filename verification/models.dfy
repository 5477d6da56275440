/**
  The persistent data of the recipe backend (recipes/models.py) as one
  immutable database value.

  Each table is a map from primary key to row, except the Amount table,
  which is a sequence in insertion (primary key) order because the shopping
  cart report walks it in that order. The many-to-many relations
  "favorites" (`Recipe.subscribers`), "shopping cart" (`Recipe.buyers`) and
  the Follow relation are sets of (user, target) pairs, so a pair is either
  present or absent. A recipe's tag links are stored with the recipe.
  Primary keys are handed out by per-table counters, as an auto-increment
  column does.
*/
module Models {
  import opened Results

  type UserId = nat
  type RecipeId = nat
  type IngredientId = nat
  type TagId = nat

  // Column widths declared on the models.
  const RecipeNameMaxLength: nat := 200
  const IngredientNameMaxLength: nat := 200
  const MeasurementUnitMaxLength: nat := 200
  const TagNameMaxLength: nat := 256
  const TagColorMaxLength: nat := 7
  const TagSlugMaxLength: nat := 100

  datatype Ingredient = Ingredient(name: string, measurementUnit: string)

  datatype Tag = Tag(name: string, color: string, slug: string)

  /** `image` is the stored file's name, or None when the column is null. */
  datatype Recipe = Recipe(
    author: UserId,
    name: string,
    image: Option<string>,
    text: string,
    cookingTime: int,
    tags: set<TagId>,
    createdAt: int)

  /** One row of the Recipe x Ingredient join table with its quantity. */
  datatype AmountRow = AmountRow(recipe: RecipeId, ingredient: IngredientId, amount: int)

  datatype Db = Db(
    users: set<UserId>,
    ingredients: map<IngredientId, Ingredient>,
    tags: map<TagId, Tag>,
    recipes: map<RecipeId, Recipe>,
    amounts: seq<AmountRow>,
    favorites: set<(UserId, RecipeId)>,
    cart: set<(UserId, RecipeId)>,
    follows: set<(UserId, UserId)>,
    nextIngredientId: nat,
    nextTagId: nat,
    nextRecipeId: nat)

  /** The database after a request, with the reply sent to the client. */
  datatype Step = Step(db: Db, reply: Result<Status>)

  /** `Ingredient.__str__`: the label the shopping cart report groups by. */
  function DisplayKey(i: Ingredient): string {
    i.name + ", " + i.measurementUnit
  }

  /** Two ingredients with the same name get the same label exactly when
      their measurement units agree: units are never merged. */
  lemma DisplayKeyUnitSensitive(a: Ingredient, b: Ingredient)
    requires a.name == b.name
    ensures DisplayKey(a) == DisplayKey(b) <==> a.measurementUnit == b.measurementUnit
  {
    var n := |a.name|;
    assert DisplayKey(a)[n + 2..] == a.measurementUnit;
    assert DisplayKey(b)[n + 2..] == b.measurementUnit;
  }

  /** Position of the first comma in `s`, or `|s|` when there is none. */
  function FirstComma(s: string): (i: nat)
    ensures i <= |s|
    ensures forall j | 0 <= j < i :: s[j] != ','
    ensures i < |s| ==> s[i] == ','
  {
    if |s| == 0 then 0
    else if s[0] == ',' then 0
    else 1 + FirstComma(s[1..])
  }

  /** In the label of an ingredient whose name has no comma, the first comma
      is the one `__str__` puts right after the name. */
  lemma {:induction false} FirstCommaOfDisplayKey(i: Ingredient)
    requires ',' !in i.name
    ensures FirstComma(DisplayKey(i)) == |i.name|
  {
    var k := DisplayKey(i);
    assert k[|i.name|] == ',';
    forall j | 0 <= j < |i.name|
      ensures k[j] != ','
    {
      assert k[j] == i.name[j];
    }
  }

  /** When no name contains a comma, the label identifies the ingredient's
      (name, measurement unit) pair. */
  lemma DisplayKeyInjective(a: Ingredient, b: Ingredient)
    requires ',' !in a.name && ',' !in b.name
    ensures DisplayKey(a) == DisplayKey(b) <==> a == b
  {
    if DisplayKey(a) == DisplayKey(b) {
      var k := DisplayKey(a);
      FirstCommaOfDisplayKey(a);
      FirstCommaOfDisplayKey(b);
      var n := |a.name|;
      assert n == |b.name|;
      assert a.name == k[..n] == b.name;
      assert a.measurementUnit == k[n + 2..] == b.measurementUnit;
    }
  }

  /** Without that condition the label is ambiguous: different ingredients
      can print the same, and the cart report then adds their quantities. */
  lemma DisplayKeyCollision()
    ensures exists a: Ingredient, b: Ingredient :: a != b && DisplayKey(a) == DisplayKey(b)
  {
    var a := Ingredient("salt, sea", "g");
    var b := Ingredient("salt", "sea, g");
    assert a.name != b.name;
    assert DisplayKey(a) == "salt, sea, g" == DisplayKey(b);
  }

  // ---------------------------------------------------------------------
  // Invariants the schema declares

  /** Two rows occupy the same slot of the `unique_ingredient` constraint. */
  predicate SameSlot(a: AmountRow, b: AmountRow) {
    a.recipe == b.recipe && a.ingredient == b.ingredient
  }

  /** The `unique_ingredient` constraint: one row per (recipe, ingredient). */
  predicate AmountsUnique(rows: seq<AmountRow>) {
    forall i, j | 0 <= i < j < |rows| :: !SameSlot(rows[i], rows[j])
  }

  /** `unique=True` on the tag's name, color and slug. */
  predicate TagsUnique(tags: map<TagId, Tag>) {
    forall a, b | a in tags && b in tags && a != b ::
      tags[a].name != tags[b].name && tags[a].color != tags[b].color && tags[a].slug != tags[b].slug
  }

  predicate TagFits(t: Tag) {
    |t.name| <= TagNameMaxLength && |t.color| <= TagColorMaxLength && |t.slug| <= TagSlugMaxLength
  }

  predicate IngredientFits(i: Ingredient) {
    |i.name| <= IngredientNameMaxLength && |i.measurementUnit| <= MeasurementUnitMaxLength
  }

  /** A recipe row fits its columns and its foreign keys resolve. */
  predicate RecipeFits(db: Db, r: Recipe) {
    |r.name| <= RecipeNameMaxLength && r.author in db.users && r.tags <= db.tags.Keys
  }

  /** Every Amount row points at an existing recipe and ingredient. */
  predicate AmountsResolve(db: Db, rows: seq<AmountRow>) {
    forall i | 0 <= i < |rows| :: rows[i].recipe in db.recipes && rows[i].ingredient in db.ingredients
  }

  predicate Valid(db: Db) {
    && (forall k | k in db.ingredients :: k < db.nextIngredientId && IngredientFits(db.ingredients[k]))
    && (forall k | k in db.tags :: k < db.nextTagId && TagFits(db.tags[k]))
    && TagsUnique(db.tags)
    && (forall k | k in db.recipes :: k < db.nextRecipeId && RecipeFits(db, db.recipes[k]))
    && AmountsUnique(db.amounts)
    && AmountsResolve(db, db.amounts)
    && (forall p | p in db.favorites :: p.0 in db.users && p.1 in db.recipes)
    && (forall p | p in db.cart :: p.0 in db.users && p.1 in db.recipes)
    && (forall p | p in db.follows :: p.0 in db.users && p.1 in db.users)
  }

  /** Rewriting the recipes and the Amount table of a valid database keeps
      it valid when the recipe ids stay the same and the rewritten parts
      satisfy their own constraints. */
  lemma ValidAfterRecipeRewrite(db: Db, recipes: map<RecipeId, Recipe>, amounts: seq<AmountRow>)
    requires Valid(db)
    requires recipes.Keys == db.recipes.Keys
    requires var r := db.(recipes := recipes, amounts := amounts);
      && (forall k | k in recipes :: k < r.nextRecipeId && RecipeFits(r, recipes[k]))
      && AmountsUnique(amounts) && AmountsResolve(r, amounts)
    ensures Valid(db.(recipes := recipes, amounts := amounts))
  {
  }

  /** In a valid database a tag's name, its color and its slug each
      identify it, and the stored values fit their columns. */
  lemma TagFieldsIdentifyTag(db: Db, a: TagId, b: TagId)
    requires Valid(db) && a in db.tags && b in db.tags
    ensures db.tags[a].name == db.tags[b].name ==> a == b
    ensures db.tags[a].color == db.tags[b].color ==> a == b
    ensures db.tags[a].slug == db.tags[b].slug ==> a == b
    ensures |db.tags[a].color| <= TagColorMaxLength && |db.tags[a].name| <= TagNameMaxLength
    ensures |db.tags[a].slug| <= TagSlugMaxLength
  {
  }

  // ---------------------------------------------------------------------
  // Selecting Amount rows

  /** The row filters the ORM applies to the Amount table. */
  datatype RowFilter =
    | OfRecipe(recipe: RecipeId)          // `recipe.amount.all()`
    | NotOfRecipe(recipe: RecipeId)       // what survives deleting a recipe
    | NotOfIngredient(ingredient: IngredientId)  // what survives deleting an ingredient

  predicate Keeps(f: RowFilter, row: AmountRow) {
    match f
    case OfRecipe(r) => row.recipe == r
    case NotOfRecipe(r) => row.recipe != r
    case NotOfIngredient(i) => row.ingredient != i
  }

  /** The rows `f` keeps, in table order. */
  function Select(rows: seq<AmountRow>, f: RowFilter): (r: seq<AmountRow>)
    ensures |r| <= |rows|
    ensures forall x :: x in r <==> x in rows && Keeps(f, x)
    ensures AmountsUnique(rows) ==> AmountsUnique(r)
  {
    if |rows| == 0 then []
    else
      var rest := Select(rows[1..], f);
      assert forall x :: x in rows[1..] ==> x in rows;
      if Keeps(f, rows[0]) then
        assert AmountsUnique(rows) ==> forall j | 0 <= j < |rest| :: !SameSlot(rows[0], rest[j]) by {
          if AmountsUnique(rows) {
            forall j | 0 <= j < |rest|
              ensures !SameSlot(rows[0], rest[j])
            {
              assert rest[j] in rows[1..];
              var k :| 0 <= k < |rows[1..]| && rows[1..][k] == rest[j];
              assert rows[k + 1] == rest[j];
            }
          }
        }
        [rows[0]] + rest
      else
        rest
  }

  /** The rows a filter keeps still resolve in a database that keeps their
      recipes and ingredients. */
  lemma SelectedRowsResolve(db: Db, r: Db, f: RowFilter)
    requires AmountsResolve(db, db.amounts)
    requires r.amounts == Select(db.amounts, f)
    requires forall row | row in db.amounts && Keeps(f, row) :: row.recipe in r.recipes && row.ingredient in r.ingredients
    ensures AmountsResolve(r, r.amounts)
  {
    forall i | 0 <= i < |r.amounts|
      ensures r.amounts[i].recipe in r.recipes && r.amounts[i].ingredient in r.ingredients
    {
      assert r.amounts[i] in r.amounts;
      var k :| 0 <= k < |db.amounts| && db.amounts[k] == r.amounts[i];
    }
  }

  // ---------------------------------------------------------------------
  // Cascading deletes

  /** Deleting a recipe removes its Amount rows and its favorite and
      shopping cart links (`on_delete=CASCADE` and the implicit
      many-to-many tables). */
  function DeleteRecipe(db: Db, rid: RecipeId): (r: Db)
    ensures rid !in r.recipes && r.recipes == db.recipes - {rid}
    ensures forall row :: row in r.amounts <==> row in db.amounts && row.recipe != rid
    ensures forall p :: p in r.favorites <==> p in db.favorites && p.1 != rid
    ensures forall p :: p in r.cart <==> p in db.cart && p.1 != rid
    ensures r == db.(recipes := db.recipes - {rid}, amounts := r.amounts, favorites := r.favorites, cart := r.cart)
    ensures Valid(db) ==> Valid(r)
  {
    var favorites := set p | p in db.favorites && p.1 != rid;
    var cart := set p | p in db.cart && p.1 != rid;
    var r := db.(
      recipes := db.recipes - {rid},
      amounts := Select(db.amounts, NotOfRecipe(rid)),
      favorites := favorites,
      cart := cart);
    assert Valid(db) ==> AmountsResolve(r, r.amounts) by {
      if Valid(db) {
        SelectedRowsResolve(db, r, NotOfRecipe(rid));
      }
    }
    r
  }

  /** Deleting an ingredient removes every Amount row that uses it. */
  function DeleteIngredient(db: Db, iid: IngredientId): (r: Db)
    ensures iid !in r.ingredients && r.ingredients == db.ingredients - {iid}
    ensures forall row :: row in r.amounts <==> row in db.amounts && row.ingredient != iid
    ensures r == db.(ingredients := db.ingredients - {iid}, amounts := r.amounts)
    ensures Valid(db) ==> Valid(r)
  {
    var r := db.(
      ingredients := db.ingredients - {iid},
      amounts := Select(db.amounts, NotOfIngredient(iid)));
    assert Valid(db) ==> AmountsResolve(r, r.amounts) by {
      if Valid(db) {
        SelectedRowsResolve(db, r, NotOfIngredient(iid));
      }
    }
    r
  }
}
