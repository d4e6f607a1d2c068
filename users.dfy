/** The `users` table as the authentication core sees it: a map from the
    SERIAL primary key to the row, with the table's UNIQUE constraints on
    `email` and `username` as store invariants. */
module Users {
  import opened Common

  type Id = nat

  /** One row of `users`. `passwordHash` is the `password` column, which holds
      the bcrypt digest; `lastLogin` and the optional columns are NULL when `None`. */
  datatype User = User(
    email: string,
    passwordHash: string,
    username: string,
    fullName: string,
    university: Option<string>,
    year: Option<int>,
    department: Option<string>,
    bio: Option<string>,
    profileImage: Option<string>,
    isActive: bool,
    lastLogin: Option<nat>,
    createdAt: nat)

  type Store = map<Id, User>

  /** `email VARCHAR(255) UNIQUE`. */
  ghost predicate UniqueEmails(users: Store)
  {
    forall a, b :: a in users && b in users && users[a].email == users[b].email ==> a == b
  }

  /** `username VARCHAR(50) UNIQUE`. */
  ghost predicate UniqueUsernames(users: Store)
  {
    forall a, b :: a in users && b in users && users[a].username == users[b].username ==> a == b
  }

  /** The request-scoped identity context `req.user`. */
  datatype Identity = Identity(userId: Id, email: string, username: string, fullName: string)

  /** The identity context built from a stored row (never from token claims). */
  function IdentityOf(id: Id, u: User): Identity
  {
    Identity(id, u.email, u.username, u.fullName)
  }
}
