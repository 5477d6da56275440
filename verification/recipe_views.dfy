/**
  The recipe view set of recipes/views.py: which recipes a listing starts
  from (`get_queryset`), the favorite and shopping cart toggles, and the
  shopping cart report.

  The requesting user is passed explicitly; `None` stands for an anonymous
  request. The permission classes that keep anonymous users away from the
  toggles are not part of this model, so the toggles take a user id.
*/
module RecipeViews {
  import opened Results
  import opened Models
  import Membership
  import opened CartAggregation

  datatype Method = Get | Post | Patch | Delete

  /** The parts of a request `get_queryset` looks at. Query parameters are
      strings; an absent one reads as the default `0`, which never equals
      the string "1". */
  datatype ListRequest = ListRequest(
    verb: Method,
    viewer: Option<UserId>,
    isFavorited: Option<string>,
    isInShoppingCart: Option<string>)

  datatype Selection = AllRecipes | FavoritesOf(user: UserId) | CartOf(user: UserId)

  /** `get_queryset`: a signed-in GET with `is_favorited=1` lists the
      viewer's favorites, which take precedence over `is_in_shopping_cart=1`,
      which lists the viewer's cart; everything else lists all recipes. */
  function SelectionFor(req: ListRequest): (s: Selection)
    ensures req.viewer.None? || req.verb != Get ==> s == AllRecipes
    ensures s.FavoritesOf? <==> req.verb == Get && req.viewer.Some? && req.isFavorited == Some("1")
    ensures s.CartOf? <==>
      req.verb == Get && req.viewer.Some? && req.isFavorited != Some("1") && req.isInShoppingCart == Some("1")
    ensures !s.AllRecipes? ==> s.user == req.viewer.value
  {
    if req.verb == Get && req.viewer.Some? then
      if req.isFavorited == Some("1") then FavoritesOf(req.viewer.value)
      else if req.isInShoppingCart == Some("1") then CartOf(req.viewer.value)
      else AllRecipes
    else AllRecipes
  }

  /** The recipe ids a selection stands for. */
  function Selected(db: Db, s: Selection): set<RecipeId> {
    match s
    case AllRecipes => db.recipes.Keys
    case FavoritesOf(u) => set p | p in db.favorites && p.0 == u :: p.1
    case CartOf(u) => set p | p in db.cart && p.0 == u :: p.1
  }

  // ---------------------------------------------------------------------
  // Favorite and shopping cart toggles

  datatype Relation = Favorites | Cart

  function Members(db: Db, rel: Relation): set<(UserId, RecipeId)> {
    match rel
    case Favorites => db.favorites
    case Cart => db.cart
  }

  function WithMembers(db: Db, rel: Relation, m: set<(UserId, RecipeId)>): Db {
    match rel
    case Favorites => db.(favorites := m)
    case Cart => db.(cart := m)
  }

  function Other(rel: Relation): Relation {
    match rel
    case Favorites => Cart
    case Cart => Favorites
  }

  function AlreadyThere(rel: Relation): Message {
    match rel
    case Favorites => AlreadyFavorited
    case Cart => AlreadyInCart
  }

  function NotThere(rel: Relation): Message {
    match rel
    case Favorites => NotFavorited
    case Cart => NotInCart
  }

  /** POST `favorite` / `shopping_cart`: 404 for an unknown recipe, 400 when
      the recipe is already in the relation, otherwise insert it and 201. */
  function AddTo(db: Db, user: UserId, rid: RecipeId, rel: Relation): (s: Step)
    ensures rid !in db.recipes ==> s == Step(db, Failure(NotFound))
    ensures s.reply.Success? <==> rid in db.recipes && (user, rid) !in Members(db, rel)
    ensures s.reply.Success? ==>
      s.reply.value == Created && s.db == WithMembers(db, rel, Members(db, rel) + {(user, rid)})
    ensures rid in db.recipes && (user, rid) in Members(db, rel) ==>
      s.reply == Failure(BadRequest(AlreadyThere(rel)))
    ensures s.reply.Failure? ==> s.db == db
    ensures Members(s.db, Other(rel)) == Members(db, Other(rel))
    ensures Valid(db) && user in db.users ==> Valid(s.db)
  {
    if rid !in db.recipes then Step(db, Failure(NotFound))
    else
      var t := Membership.Add(Members(db, rel), (user, rid), AlreadyThere(rel));
      Step(WithMembers(db, rel, t.members), t.reply)
  }

  /** DELETE `favorite` / `shopping_cart`: 404 for an unknown recipe, remove
      a present pair with 204, 400 when it is absent. */
  function RemoveFrom(db: Db, user: UserId, rid: RecipeId, rel: Relation): (s: Step)
    ensures rid !in db.recipes ==> s == Step(db, Failure(NotFound))
    ensures s.reply.Success? <==> rid in db.recipes && (user, rid) in Members(db, rel)
    ensures s.reply.Success? ==>
      s.reply.value == NoContent && s.db == WithMembers(db, rel, Members(db, rel) - {(user, rid)})
    ensures rid in db.recipes && (user, rid) !in Members(db, rel) ==>
      s.reply == Failure(BadRequest(NotThere(rel)))
    ensures s.reply.Failure? ==> s.db == db
    ensures Members(s.db, Other(rel)) == Members(db, Other(rel))
    ensures Valid(db) ==> Valid(s.db)
  {
    if rid !in db.recipes then Step(db, Failure(NotFound))
    else
      var t := Membership.Remove(Members(db, rel), (user, rid), NotThere(rel));
      Step(WithMembers(db, rel, t.members), t.reply)
  }

  /** The `favorite` action (POST). */
  function Favorite(db: Db, user: UserId, rid: RecipeId): (s: Step)
    ensures s.reply.Success? <==> rid in db.recipes && (user, rid) !in db.favorites
    ensures s.reply.Success? ==> s.reply.value == Created && s.db == db.(favorites := db.favorites + {(user, rid)})
    ensures rid !in db.recipes ==> s == Step(db, Failure(NotFound))
    ensures rid in db.recipes && (user, rid) in db.favorites ==> s == Step(db, Failure(BadRequest(AlreadyFavorited)))
  {
    AddTo(db, user, rid, Favorites)
  }

  /** The `delete_favorite` action (DELETE on `favorite`). */
  function DeleteFavorite(db: Db, user: UserId, rid: RecipeId): (s: Step)
    ensures s.reply.Success? <==> rid in db.recipes && (user, rid) in db.favorites
    ensures s.reply.Success? ==> s.reply.value == NoContent && s.db == db.(favorites := db.favorites - {(user, rid)})
    ensures rid !in db.recipes ==> s == Step(db, Failure(NotFound))
    ensures rid in db.recipes && (user, rid) !in db.favorites ==> s == Step(db, Failure(BadRequest(NotFavorited)))
  {
    RemoveFrom(db, user, rid, Favorites)
  }

  /** The `shopping_cart` action (POST). */
  function ShoppingCart(db: Db, user: UserId, rid: RecipeId): (s: Step)
    ensures s.reply.Success? <==> rid in db.recipes && (user, rid) !in db.cart
    ensures s.reply.Success? ==> s.reply.value == Created && s.db == db.(cart := db.cart + {(user, rid)})
    ensures rid !in db.recipes ==> s == Step(db, Failure(NotFound))
    ensures rid in db.recipes && (user, rid) in db.cart ==> s == Step(db, Failure(BadRequest(AlreadyInCart)))
  {
    AddTo(db, user, rid, Cart)
  }

  /** The `delete_shopping_cart` action (DELETE on `shopping_cart`). */
  function DeleteShoppingCart(db: Db, user: UserId, rid: RecipeId): (s: Step)
    ensures s.reply.Success? <==> rid in db.recipes && (user, rid) in db.cart
    ensures s.reply.Success? ==> s.reply.value == NoContent && s.db == db.(cart := db.cart - {(user, rid)})
    ensures rid !in db.recipes ==> s == Step(db, Failure(NotFound))
    ensures rid in db.recipes && (user, rid) !in db.cart ==> s == Step(db, Failure(BadRequest(NotInCart)))
  {
    RemoveFrom(db, user, rid, Cart)
  }

  /** A successful add followed by a remove puts the database back. */
  lemma AddThenRemoveRestores(db: Db, user: UserId, rid: RecipeId, rel: Relation)
    requires AddTo(db, user, rid, rel).reply.Success?
    ensures RemoveFrom(AddTo(db, user, rid, rel).db, user, rid, rel) == Step(db, Success(NoContent))
  {
    var added := AddTo(db, user, rid, rel).db;
    assert Members(added, rel) - {(user, rid)} == Members(db, rel);
    match rel
    case Favorites =>
    case Cart =>
  }

  /** The favorite/cart life cycle of one recipe: add succeeds, a second add
      fails, remove succeeds, a second remove fails. */
  lemma ToggleLifeCycle(db: Db, user: UserId, rid: RecipeId, rel: Relation)
    requires rid in db.recipes && (user, rid) !in Members(db, rel)
    ensures var s1 := AddTo(db, user, rid, rel);
      && HttpCode(s1.reply) == 201
      && var s2 := AddTo(s1.db, user, rid, rel);
      && HttpCode(s2.reply) == 400
      && var s3 := RemoveFrom(s2.db, user, rid, rel);
      && HttpCode(s3.reply) == 204
      && var s4 := RemoveFrom(s3.db, user, rid, rel);
      && HttpCode(s4.reply) == 400 && s4.db == db
  {
    AddThenRemoveRestores(db, user, rid, rel);
  }

  // ---------------------------------------------------------------------
  // The shopping cart report

  /** `download_shopping_cart`: walk the carted recipes `carted` (the order
      the database lists `user.shopping_cart` in) and each one's Amount rows,
      adding every quantity to its ingredient label's total. The report is
      only printed; the reply is a bare 200 and the cart is left as it was. */
  method DownloadShoppingCart(db: Db, user: UserId, carted: seq<RecipeId>)
    returns (after: Db, report: map<string, int>, reply: Result<Status>)
    requires Resolves(db, db.amounts)
    requires forall r :: r in carted <==> (user, r) in db.cart
    requires forall i, j | 0 <= i < j < |carted| :: carted[i] != carted[j]
    ensures after == db && reply == Success(Ok)
    ensures report == Aggregate(CartLines(db, carted))
    ensures forall k :: k in report <==>
      exists row :: row in db.amounts && (user, row.recipe) in db.cart && LineOf(db, row).key == k
    ensures forall k | k in report :: report[k] == SumFor(CartLines(db, carted), k)
    ensures SumValues(report) == Total(CartLines(db, carted))
    ensures (forall r :: (user, r) !in db.cart) ==> report == map[]
  {
    report := map[];
    var i := 0;
    while i < |carted|
      invariant 0 <= i <= |carted|
      invariant report == Aggregate(CartLines(db, carted[..i]))
    {
      var rid := carted[i];
      var rows := Select(db.amounts, OfRecipe(rid));
      assert Resolves(db, rows);
      ghost var before := report;
      report := AddRows(db, rows, report);
      AggregateConcat(map[], CartLines(db, carted[..i]), RecipeLines(db, rid));
      assert carted[..i + 1][..i] == carted[..i];
      i := i + 1;
    }
    assert carted[..i] == carted;
    CartKeys(db, carted);
    Conservation(CartLines(db, carted));
    if |carted| > 0 {
      assert (user, carted[0]) in db.cart;
    }
    after := db;
    reply := Success(Ok);
  }

  /** The inner loop of `download_shopping_cart` over one recipe's rows. */
  method AddRows(db: Db, rows: seq<AmountRow>, acc: map<string, int>) returns (report: map<string, int>)
    requires Resolves(db, rows)
    ensures report == AggregateFrom(acc, Lines(db, rows))
  {
    ghost var lines := Lines(db, rows);
    report := acc;
    var j := 0;
    while j < |rows|
      invariant 0 <= j <= |rows|
      invariant report == AggregateFrom(acc, lines[..j])
    {
      var row := rows[j];
      assert row in rows;
      var key := DisplayKey(db.ingredients[row.ingredient]);
      ghost var previous := report;
      if key in report {
        report := report[key := report[key] + row.amount];
      } else {
        report := report[key := row.amount];
      }
      assert lines[..j + 1] == lines[..j] + [lines[j]];
      AggregateSnoc(acc, lines[..j], lines[j]);
      j := j + 1;
    }
    assert lines[..j] == lines;
  }
}
