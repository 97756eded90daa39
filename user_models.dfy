/**
 * The schema of users/models.py: the User row with its unique username
 * and email, and the Subscribe edge from a follower (`user`) to an
 * `author`. Both foreign keys of Subscribe cascade; the schema puts no
 * unique constraint on the (user, author) pair.
 */
module UserModels {
  import opened Tables

  type UserId = nat

  /** A User row. Password hashes and the other AbstractUser columns are not modelled. */
  datatype User = User(username: string, email: string, firstName: string, lastName: string)

  /** A Subscribe row: `user` follows `author`. */
  datatype Subscribe = Subscribe(user: UserId, author: UserId)

  /** `username` is declared unique. */
  ghost predicate UsernamesUnique(users: map<UserId, User>)
  {
    forall a, b :: a in users && b in users && a != b ==> users[a].username != users[b].username
  }

  /** `email` is declared unique. */
  ghost predicate EmailsUnique(users: map<UserId, User>)
  {
    forall a, b :: a in users && b in users && a != b ==> users[a].email != users[b].email
  }

  ghost predicate UsersValid(users: map<UserId, User>)
  {
    UsernamesUnique(users) && EmailsUnique(users)
  }

  /** Both ends of every edge are existing users (the two foreign keys). */
  ghost predicate SubscriptionsValid(edges: seq<Subscribe>, users: map<UserId, User>)
  {
    forall e :: e in edges ==> e.user in users && e.author in users
  }

  /** The edges that survive deleting user `u`: both foreign keys cascade. */
  function EdgesWithout(edges: seq<Subscribe>, u: UserId): (r: seq<Subscribe>)
    ensures forall e :: e in r <==> e in edges && e.user != u && e.author != u
    decreases |edges|
  {
    if edges == [] then []
    else
      assert edges == [edges[0]] + edges[1..];
      var e := edges[0];
      (if e.user != u && e.author != u then [e] else []) + EdgesWithout(edges[1..], u)
  }

  /**
   * Deleting user `u` keeps the remaining usernames and emails unique and
   * leaves every surviving edge between surviving users.
   */
  lemma DeleteUserKeepsSchema(users: map<UserId, User>, edges: seq<Subscribe>, u: UserId)
    requires UsersValid(users) && SubscriptionsValid(edges, users)
    ensures UsersValid(Restrict(users, {u}))
    ensures SubscriptionsValid(EdgesWithout(edges, u), Restrict(users, {u}))
  {
  }

  /**
   * Nothing in the schema forbids two identical edges: a table holding the
   * same (user, author) pair twice satisfies every constraint.
   */
  lemma {:induction false} DuplicateEdgesAllowed(users: map<UserId, User>, u: UserId, a: UserId)
    requires UsersValid(users) && u in users && a in users
    ensures SubscriptionsValid([Subscribe(u, a), Subscribe(u, a)], users)
    ensures multiset([Subscribe(u, a), Subscribe(u, a)])[Subscribe(u, a)] == 2
    ensures !Unique([Subscribe(u, a), Subscribe(u, a)])
  {
    var rows := [Subscribe(u, a), Subscribe(u, a)];
    assert multiset(rows) == multiset{Subscribe(u, a), Subscribe(u, a)};
  }
}
