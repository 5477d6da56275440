/**
  The later revision of the favorite toggle (api/views.py): one `favorite`
  action that serves both POST and DELETE and signals a refused toggle by
  raising a validation error, which the framework turns into a 400.
*/
module ApiViews {
  import opened Results
  import opened Models
  import RecipeViews

  /** The verbs the action is routed for; any other verb is answered with
      405 by the framework before the action runs. */
  datatype ActionVerb = Post | Delete

  /** `RecipeViewSet.favorite`: 404 for an unknown recipe; POST adds an
      absent favorite (201) and refuses a present one; DELETE removes a
      present favorite (204) and refuses an absent one. */
  function Favorite(db: Db, user: UserId, rid: RecipeId, verb: ActionVerb): (s: Step)
    ensures rid !in db.recipes ==> s == Step(db, Failure(NotFound))
    ensures s.reply.Success? <==>
      rid in db.recipes && (verb == Post <==> (user, rid) !in db.favorites)
    ensures s.reply.Success? ==> ((user, rid) in s.db.favorites <==> verb == Post)
    ensures s.reply.Success? ==> s.reply.value == (if verb == Post then Created else NoContent)
    ensures rid in db.recipes && s.reply.Failure? ==>
      s.reply.error == BadRequest(if verb == Post then AlreadyFavorited else NotFavorited)
    ensures s.reply.Failure? ==> s.db == db
    ensures forall q | q != (user, rid) :: q in s.db.favorites <==> q in db.favorites
    ensures s.db == db.(favorites := s.db.favorites)
  {
    if rid !in db.recipes then Step(db, Failure(NotFound))
    else
      match verb
      case Post =>
        if (user, rid) in db.favorites then Step(db, Failure(BadRequest(AlreadyFavorited)))
        else Step(db.(favorites := db.favorites + {(user, rid)}), Success(Created))
      case Delete =>
        if (user, rid) in db.favorites
        then Step(db.(favorites := db.favorites - {(user, rid)}), Success(NoContent))
        else Step(db, Failure(BadRequest(NotFavorited)))
  }

  /** The single action behaves exactly as the separate `favorite` and
      `delete_favorite` actions of recipes/views.py: the explicit 400
      response and the raised validation error reach the client alike. */
  lemma AgreesWithRecipeViews(db: Db, user: UserId, rid: RecipeId)
    ensures Favorite(db, user, rid, Post) == RecipeViews.Favorite(db, user, rid)
    ensures Favorite(db, user, rid, Delete) == RecipeViews.DeleteFavorite(db, user, rid)
  {
  }

  /** A successful POST followed by a DELETE restores the favorites. */
  lemma PostThenDeleteRestores(db: Db, user: UserId, rid: RecipeId)
    requires Favorite(db, user, rid, Post).reply.Success?
    ensures Favorite(Favorite(db, user, rid, Post).db, user, rid, Delete) == Step(db, Success(NoContent))
  {
    assert db.favorites + {(user, rid)} - {(user, rid)} == db.favorites;
  }
}
