/**
  The non-recipe serializers of api/serializers.py: the Follow validation,
  the recipe previews of a subscription, the e-mail check of the sign-up
  form, and the `is_subscribed` / `is_favorited` / `is_in_shopping_cart`
  flags of the read serializers.
*/
module ApiSerializers {
  import opened Results
  import opened Models
  import Ordering
  import RecipeViews

  // ---------------------------------------------------------------------
  // FollowSerializer

  /** The ids a primary key field refuses because no such user exists. */
  function UnknownUsers(db: Db, ids: seq<UserId>): (errs: set<FieldError>)
    ensures forall u :: UnknownUser(u) in errs <==> u in ids && u !in db.users
    ensures forall e | e in errs :: e.UnknownUser?
  {
    set u | u in ids && u !in db.users :: UnknownUser(u)
  }

  /** `FollowSerializer.is_valid` for the pair (`user`, `author`). The checks
      run in the framework's order: the two primary key fields, then the
      unique-together validator of `Meta.validators`, then `validate`, which
      refuses a user following themself. */
  function ValidateFollow(db: Db, user: UserId, author: UserId): (r: Result<(UserId, UserId)>)
    ensures r.Success? <==>
      user in db.users && author in db.users && (user, author) !in db.follows && user != author
    ensures r.Success? ==> r.value == (user, author)
    ensures user !in db.users || author !in db.users ==> r.Failure? && r.error.Invalid?
    ensures user in db.users && author in db.users && (user, author) in db.follows ==>
      r == Failure(BadRequest(AlreadySubscribed))
    ensures user in db.users && author in db.users && (user, author) !in db.follows && user == author ==>
      r == Failure(BadRequest(SelfSubscription))
  {
    var unknown := UnknownUsers(db, [user, author]);
    if unknown != {} then Failure(Invalid(unknown))
    else if (user, author) in db.follows then Failure(BadRequest(AlreadySubscribed))
    else if user == author then Failure(BadRequest(SelfSubscription))
    else Success((user, author))
  }

  // ---------------------------------------------------------------------
  // SubscriptionSerializer

  /** The `recipes_limit` query parameter after Python's `int()`: absent,
      the empty string (both falsy, so no limit applies), a number, or a
      string `int()` refuses. */
  datatype LimitParam = Absent | Blank | Parsed(n: int) | Unparsable

  function Min(a: int, b: int): int {
    if a <= b then a else b
  }

  /** `get_recipes`: the author's recipes newest first, cut to the first
      `recipes_limit` when one is given. A string `int()` refuses raises
      `ValueError`, and a negative number makes the query set slice raise;
      both reach the client as a 500. */
  function Previews(db: Db, author: UserId, limit: LimitParam): (r: Result<seq<(RecipeId, Recipe)>>)
    ensures limit.Absent? || limit.Blank? ==> r.Success? && |r.value| == |Ordering.RecipesNewestFirst(db, Some(author))|
    ensures limit.Parsed? && limit.n >= 0 ==>
      r.Success? && |r.value| == Min(limit.n, |Ordering.RecipesNewestFirst(db, Some(author))|)
    ensures limit.Unparsable? || (limit.Parsed? && limit.n < 0) ==> r == Failure(ServerError)
    ensures r.Success? ==> r.value == Ordering.RecipesNewestFirst(db, Some(author))[..|r.value|]
    ensures r.Success? ==> forall p | p in r.value :: p.0 in db.recipes && p.1 == db.recipes[p.0] && p.1.author == author
    ensures r.Success? ==> forall i, j | 0 <= i < j < |r.value| :: r.value[i].1.createdAt >= r.value[j].1.createdAt
  {
    var all := Ordering.RecipesNewestFirst(db, Some(author));
    match limit
    case Absent => PrefixOfNewest(db, author, |all|); Success(all)
    case Blank => PrefixOfNewest(db, author, |all|); Success(all)
    case Parsed(n) =>
      if n < 0 then Failure(ServerError)
      else
        PrefixOfNewest(db, author, Min(n, |all|));
        Success(all[..Min(n, |all|)])
    case Unparsable => Failure(ServerError)
  }

  /** Every prefix of the author's recipes, newest first, holds recipes of
      the author and is itself newest first. */
  lemma PrefixOfNewest(db: Db, author: UserId, n: nat)
    requires n <= |Ordering.RecipesNewestFirst(db, Some(author))|
    ensures var shown := Ordering.RecipesNewestFirst(db, Some(author))[..n];
      && (forall p | p in shown :: p.0 in db.recipes && p.1 == db.recipes[p.0] && p.1.author == author)
      && (forall i, j | 0 <= i < j < |shown| :: shown[i].1.createdAt >= shown[j].1.createdAt)
  {
    var all := Ordering.RecipesNewestFirst(db, Some(author));
    var shown := all[..n];
    forall p | p in shown
      ensures p.0 in db.recipes && p.1 == db.recipes[p.0] && p.1.author == author
    {
      assert p in all;
    }
    forall i, j | 0 <= i < j < |shown|
      ensures shown[i].1.createdAt >= shown[j].1.createdAt
    {
      assert shown[i] == all[i] && shown[j] == all[j];
    }
  }

  /** A limit at least as large as the author's recipe count shows the same
      previews as no limit at all. */
  lemma LimitAtLeastCountShowsAll(db: Db, author: UserId, n: int)
    requires n >= |Ordering.RecipesNewestFirst(db, Some(author))|
    ensures Previews(db, author, Parsed(n)) == Previews(db, author, Absent)
  {
  }

  /** `SubscriptionSerializer.get_is_subscribed` looks up the very Follow row
      it renders, so for a signed-in viewer it is true for every row. */
  predicate RowIsSubscribed(db: Db, viewer: Option<UserId>, row: (UserId, UserId)) {
    viewer.Some? && row in db.follows
  }

  /** `Follow.objects.filter(user=request.user)`. */
  function Subscriptions(db: Db, user: UserId): (rows: set<(UserId, UserId)>)
    ensures forall p :: p in rows <==> p in db.follows && p.0 == user
  {
    set p | p in db.follows && p.0 == user
  }

  lemma ListedSubscriptionsAreSubscribed(db: Db, user: UserId)
    ensures forall p | p in Subscriptions(db, user) :: RowIsSubscribed(db, Some(user), p)
  {
  }

  // ---------------------------------------------------------------------
  // UserSerializer

  /** `validate_email`: refuse an address some user already has. */
  function ValidateEmail(emails: seq<string>, email: string): (r: Result<string>)
    ensures r.Success? <==> email !in emails
    ensures r.Success? ==> r.value == email
    ensures r.Failure? ==> r.error == BadRequest(EmailTaken)
  {
    if email in emails then Failure(BadRequest(EmailTaken)) else Success(email)
  }

  /** After a successful sign-up the address is taken: a second sign-up
      with it is refused, and every other address is as free as before. */
  lemma SignUpTakesAddress(emails: seq<string>, email: string)
    requires SignUp(emails, email).Success?
    ensures ValidateEmail(SignUp(emails, email).value, email) == Failure(BadRequest(EmailTaken))
    ensures forall e | e != email ::
      ValidateEmail(SignUp(emails, email).value, e).Success? <==> ValidateEmail(emails, e).Success?
  {
    var stored := SignUp(emails, email).value;
    assert stored == emails + [email];
    assert stored[|emails|] == email;
  }

  predicate Distinct(emails: seq<string>) {
    forall i, j | 0 <= i < j < |emails| :: emails[i] != emails[j]
  }

  /** Sign-up restricted to the e-mail column: validate, then store the new
      user's address after the existing ones. */
  function SignUp(emails: seq<string>, email: string): (r: Result<seq<string>>)
    ensures r.Success? <==> email !in emails
    ensures r.Success? ==> |r.value| == |emails| + 1 && r.value[..|emails|] == emails && r.value[|emails|] == email
    ensures r.Failure? ==> r.error == BadRequest(EmailTaken)
    ensures Distinct(emails) && r.Success? ==> Distinct(r.value)
  {
    var v := ValidateEmail(emails, email);
    if v.Failure? then Failure(v.error)
    else
      var stored := emails + [v.value];
      assert stored[..|emails|] == emails;
      Success(stored)
  }

  /** `UserSerializer.get_is_subscribed`. */
  predicate IsSubscribed(db: Db, viewer: Option<UserId>, author: UserId) {
    viewer.Some? && (viewer.value, author) in db.follows
  }

  // ---------------------------------------------------------------------
  // RecipeReadSerializer flags

  /** `get_is_favorited`: the viewer is signed in and has the recipe among
      their favorites. */
  predicate IsFavorited(db: Db, viewer: Option<UserId>, rid: RecipeId) {
    viewer.Some? && (viewer.value, rid) in db.favorites
  }

  /** `get_is_in_shopping_cart`. */
  predicate IsInShoppingCart(db: Db, viewer: Option<UserId>, rid: RecipeId) {
    viewer.Some? && (viewer.value, rid) in db.cart
  }

  /** The flags agree with the listing filters of `get_queryset`: a recipe
      is flagged for a signed-in viewer exactly when the corresponding
      listing selects it. */
  lemma {:induction false} FlagsMatchSelection(db: Db, user: UserId, rid: RecipeId)
    ensures IsFavorited(db, Some(user), rid) <==> rid in RecipeViews.Selected(db, RecipeViews.FavoritesOf(user))
    ensures IsInShoppingCart(db, Some(user), rid) <==> rid in RecipeViews.Selected(db, RecipeViews.CartOf(user))
  {
    if (user, rid) in db.favorites {
      assert rid == (user, rid).1;
    }
    if (user, rid) in db.cart {
      assert rid == (user, rid).1;
    }
  }

  /** The flags follow the toggles: a successful POST on `favorite` or
      `shopping_cart` turns its flag on, a successful DELETE turns it off,
      and the other flag stays as it was. */
  lemma FlagsFollowToggles(db: Db, user: UserId, rid: RecipeId)
    ensures var s := RecipeViews.Favorite(db, user, rid);
      s.reply.Success? ==> (IsFavorited(s.db, Some(user), rid)
        && (IsInShoppingCart(s.db, Some(user), rid) <==> IsInShoppingCart(db, Some(user), rid)))
    ensures var s := RecipeViews.DeleteFavorite(db, user, rid);
      s.reply.Success? ==> (!IsFavorited(s.db, Some(user), rid)
        && (IsInShoppingCart(s.db, Some(user), rid) <==> IsInShoppingCart(db, Some(user), rid)))
    ensures var s := RecipeViews.ShoppingCart(db, user, rid);
      s.reply.Success? ==> (IsInShoppingCart(s.db, Some(user), rid)
        && (IsFavorited(s.db, Some(user), rid) <==> IsFavorited(db, Some(user), rid)))
    ensures var s := RecipeViews.DeleteShoppingCart(db, user, rid);
      s.reply.Success? ==> (!IsInShoppingCart(s.db, Some(user), rid)
        && (IsFavorited(s.db, Some(user), rid) <==> IsFavorited(db, Some(user), rid)))
  {
  }

  /** An anonymous viewer sees every flag false. */
  lemma AnonymousSeesNoFlags(db: Db, author: UserId, rid: RecipeId)
    ensures !IsSubscribed(db, None, author) && !IsFavorited(db, None, rid) && !IsInShoppingCart(db, None, rid)
  {
  }
}
