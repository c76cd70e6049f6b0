/** User rows and the identity every owner check relies on (data/user.kt). */
module Users {
  import opened Wrappers
  import opened Roles

  datatype User = User(
    id: int,
    name: string,
    email: string,
    password: string,
    rank: Role,
    createdAt: int,
    updatedAt: int)

  /** The argument of `equals(other: Any?)`: null, a user, or any other object. */
  datatype AnyRef = Null | UserRef(user: User) | OtherRef

  /** `User.equals`: another user with the same name and email; null and non-users never. */
  predicate Equals(u: User, other: AnyRef)
  {
    match other
    case Null => false
    case OtherRef => false
    case UserRef(o) => o.name == u.name && o.email == u.email
  }

  /** The identity `equals` compares. */
  lemma EqualsIffSameNameAndEmail(u: User, other: AnyRef)
    ensures Equals(u, other) <==> other.UserRef? && other.user.name == u.name && other.user.email == u.email
    ensures other.Null? ==> !Equals(u, other)
    ensures other.OtherRef? ==> !Equals(u, other)
  {
  }

  /** Id, password, rank and timestamps play no part in equality. */
  lemma EqualsIgnoresOtherColumns(u: User, v: User, w: User)
    requires v.name == w.name && v.email == w.email
    ensures Equals(u, UserRef(v)) == Equals(u, UserRef(w))
    ensures Equals(v, UserRef(u)) == Equals(w, UserRef(u))
  {
  }

  /** On users, `equals` is an equivalence. */
  lemma EqualsIsEquivalence(a: User, b: User, c: User)
    ensures Equals(a, UserRef(a))
    ensures Equals(a, UserRef(b)) ==> Equals(b, UserRef(a))
    ensures Equals(a, UserRef(b)) && Equals(b, UserRef(c)) ==> Equals(a, UserRef(c))
  {
  }

  /** The optional session user as the argument of `equals` (a missing user is null). */
  function AsRef(user: Option<User>): (r: AnyRef)
    ensures r.Null? <==> user.None?
  {
    match user
    case None => Null
    case Some(u) => UserRef(u)
  }

  /** `PublicUser`: what other users may see. */
  datatype PublicUser = PublicUser(id: int, name: string, rank: Role)

  /** `User.public()`: only id, name and rank. */
  function Public(u: User): (p: PublicUser)
    ensures p.id == u.id && p.name == u.name && p.rank == u.rank
  {
    PublicUser(u.id, u.name, u.rank)
  }

  /** The public view hides email, password and timestamps: users that differ only there
      look the same, and users that differ in id, name or rank look different. */
  lemma PublicHidesSecrets(u: User, v: User)
    ensures Public(u) == Public(v) <==> u.id == v.id && u.name == v.name && u.rank == v.rank
  {
  }
}
