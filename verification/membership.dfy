/**
  The add/remove pattern shared by the favorite, shopping cart and
  subscription endpoints: a relation is a set of (user, target) pairs and
  each pair is in one of two states, absent or present.

  - Adding a present pair fails with a 400 and changes nothing; adding an
    absent pair inserts it and answers 201.
  - Removing a present pair deletes it and answers 204; removing an absent
    pair fails with a 400 and changes nothing.
*/
module Membership {
  import opened Results

  datatype Toggled<P> = Toggled(members: set<P>, reply: Result<Status>)

  function Add<P>(members: set<P>, p: P, whenPresent: Message): (t: Toggled<P>)
    ensures p in t.members
    ensures t.members - {p} == members - {p}
    ensures t.reply.Success? <==> p !in members
    ensures t.reply.Success? ==> t.reply.value == Created
    ensures t.reply.Failure? ==> t.reply.error == BadRequest(whenPresent) && t.members == members
  {
    if p in members then Toggled(members, Failure(BadRequest(whenPresent)))
    else Toggled(members + {p}, Success(Created))
  }

  function Remove<P>(members: set<P>, p: P, whenAbsent: Message): (t: Toggled<P>)
    ensures p !in t.members
    ensures t.members + {p} == members + {p}
    ensures t.reply.Success? <==> p in members
    ensures t.reply.Success? ==> t.reply.value == NoContent
    ensures t.reply.Failure? ==> t.reply.error == BadRequest(whenAbsent) && t.members == members
  {
    if p in members then Toggled(members - {p}, Success(NoContent))
    else Toggled(members, Failure(BadRequest(whenAbsent)))
  }

  /** A successful add followed by a remove restores the relation. */
  lemma AddThenRemove<P>(members: set<P>, p: P, m1: Message, m2: Message)
    requires Add(members, p, m1).reply.Success?
    ensures Remove(Add(members, p, m1).members, p, m2).reply.Success?
    ensures Remove(Add(members, p, m1).members, p, m2).members == members
  {
  }

  /** A successful remove followed by an add restores the relation. */
  lemma RemoveThenAdd<P>(members: set<P>, p: P, m1: Message, m2: Message)
    requires Remove(members, p, m1).reply.Success?
    ensures Add(Remove(members, p, m1).members, p, m2).reply.Success?
    ensures Add(Remove(members, p, m1).members, p, m2).members == members
  {
  }

  /** Repeating a request: the second add (or remove) in a row fails and
      leaves the relation as the first one left it. */
  lemma SecondRequestFails<P>(members: set<P>, p: P, m: Message)
    ensures Add(Add(members, p, m).members, p, m) == Toggled(Add(members, p, m).members, Failure(BadRequest(m)))
    ensures Remove(Remove(members, p, m).members, p, m) == Toggled(Remove(members, p, m).members, Failure(BadRequest(m)))
  {
  }
}
