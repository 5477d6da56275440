/**
  The subscription actions of users/views.py: `subscribe` (POST) and
  `delete_subscribe` (DELETE) on `/users/{id}/subscribe/`, over the Follow
  relation of (user, author) pairs. The requesting user is passed in; the
  permission class that keeps anonymous users out is not part of this model.
*/
module UserViews {
  import opened Results
  import opened Models
  import Membership
  import ApiSerializers

  /** No user follows themself. */
  predicate NoSelfFollow(db: Db) {
    forall p | p in db.follows :: p.0 != p.1
  }

  /** `subscribe`: 404 for an unknown author; otherwise run the Follow
      serializer and, when it accepts, store the pair and answer 201. */
  function Subscribe(db: Db, user: UserId, authorId: UserId): (s: Step)
    ensures authorId !in db.users ==> s == Step(db, Failure(NotFound))
    ensures s.reply.Success? <==>
      user in db.users && authorId in db.users && (user, authorId) !in db.follows && user != authorId
    ensures s.reply.Success? ==>
      s.reply.value == Created && s.db == db.(follows := db.follows + {(user, authorId)})
    ensures s.reply.Failure? ==> s.db == db
    ensures user in db.users && authorId in db.users && (user, authorId) in db.follows ==>
      s.reply == Failure(BadRequest(AlreadySubscribed))
    ensures user in db.users && user == authorId && (user, authorId) !in db.follows ==>
      s.reply == Failure(BadRequest(SelfSubscription))
    ensures Valid(db) ==> Valid(s.db)
    ensures NoSelfFollow(db) ==> NoSelfFollow(s.db)
  {
    if authorId !in db.users then Step(db, Failure(NotFound))
    else
      match ApiSerializers.ValidateFollow(db, user, authorId)
      case Failure(e) => Step(db, Failure(e))
      case Success(pair) => Step(db.(follows := db.follows + {pair}), Success(Created))
  }

  /** `delete_subscribe`: 404 for an unknown author; delete an existing
      subscription with 204, answer 400 when there is none. */
  function Unsubscribe(db: Db, user: UserId, authorId: UserId): (s: Step)
    ensures authorId !in db.users ==> s == Step(db, Failure(NotFound))
    ensures s.reply.Success? <==> authorId in db.users && (user, authorId) in db.follows
    ensures s.reply.Success? ==>
      s.reply.value == NoContent && s.db == db.(follows := db.follows - {(user, authorId)})
    ensures authorId in db.users && (user, authorId) !in db.follows ==>
      s == Step(db, Failure(BadRequest(NotSubscribed)))
    ensures s.reply.Failure? ==> s.db == db
    ensures Valid(db) ==> Valid(s.db)
    ensures NoSelfFollow(db) ==> NoSelfFollow(s.db)
  {
    if authorId !in db.users then Step(db, Failure(NotFound))
    else
      var t := Membership.Remove(db.follows, (user, authorId), NotSubscribed);
      Step(db.(follows := t.members), t.reply)
  }

  /** For two distinct signed-up users, subscribing is the generic add of a
      membership toggle: the Follow serializer's extra check never fires. */
  lemma SubscribeIsMembershipAdd(db: Db, user: UserId, authorId: UserId)
    requires user in db.users && authorId in db.users && user != authorId
    ensures var t := Membership.Add(db.follows, (user, authorId), AlreadySubscribed);
      Subscribe(db, user, authorId) == Step(db.(follows := t.members), t.reply)
  {
  }

  /** A successful subscribe followed by an unsubscribe restores the
      database, and the flag `is_subscribed` goes from false to true and
      back. */
  lemma SubscribeThenUnsubscribe(db: Db, user: UserId, authorId: UserId)
    requires Subscribe(db, user, authorId).reply.Success?
    ensures !ApiSerializers.IsSubscribed(db, Some(user), authorId)
    ensures ApiSerializers.IsSubscribed(Subscribe(db, user, authorId).db, Some(user), authorId)
    ensures Unsubscribe(Subscribe(db, user, authorId).db, user, authorId) == Step(db, Success(NoContent))
  {
    assert db.follows + {(user, authorId)} - {(user, authorId)} == db.follows;
  }

  /** The subscriptions listing follows the toggles: a successful
      subscribe adds exactly the new pair to the user's listing, a
      successful unsubscribe removes exactly it, and no other user's
      listing changes. */
  lemma SubscriptionsTrackToggles(db: Db, user: UserId, authorId: UserId)
    ensures var s := Subscribe(db, user, authorId);
      s.reply.Success? ==>
        ApiSerializers.Subscriptions(s.db, user) == ApiSerializers.Subscriptions(db, user) + {(user, authorId)}
        && (user, authorId) !in ApiSerializers.Subscriptions(db, user)
    ensures var s := Unsubscribe(db, user, authorId);
      s.reply.Success? ==>
        ApiSerializers.Subscriptions(s.db, user) == ApiSerializers.Subscriptions(db, user) - {(user, authorId)}
        && (user, authorId) in ApiSerializers.Subscriptions(db, user)
    ensures forall v | v != user ::
      ApiSerializers.Subscriptions(Subscribe(db, user, authorId).db, v) == ApiSerializers.Subscriptions(db, v)
      && ApiSerializers.Subscriptions(Unsubscribe(db, user, authorId).db, v) == ApiSerializers.Subscriptions(db, v)
  {
  }

  /** The subscription life cycle with its status codes. */
  lemma SubscriptionLifeCycle(db: Db, user: UserId, authorId: UserId)
    requires user in db.users && authorId in db.users && user != authorId
    requires (user, authorId) !in db.follows
    ensures var s1 := Subscribe(db, user, authorId);
      && HttpCode(s1.reply) == 201
      && var s2 := Subscribe(s1.db, user, authorId);
      && HttpCode(s2.reply) == 400
      && var s3 := Unsubscribe(s2.db, user, authorId);
      && HttpCode(s3.reply) == 204
      && var s4 := Unsubscribe(s3.db, user, authorId);
      && HttpCode(s4.reply) == 400 && s4.db == db
  {
    SubscribeThenUnsubscribe(db, user, authorId);
  }

  /** Following yourself is always refused. */
  lemma SelfSubscribeRefused(db: Db, user: UserId)
    ensures HttpCode(Subscribe(db, user, user).reply) >= 400
    ensures Subscribe(db, user, user).db == db
  {
  }
}
