/**
 * The authentication decision: look the user up by email, keep it only if
 * the password matches the stored hash, and turn it into a token.
 */
module Auth {

  /** Java's `Optional`, with the two operations the decision chains. */
  datatype Option<T> = None | Some(value: T) {

    /** `Optional.filter`: keeps the value only when `keep` accepts it. */
    function Filter(keep: T -> bool): (r: Option<T>)
      ensures r.Some? <==> Some? && keep(value)
      ensures r.Some? ==> r.value == value
    {
      if Some? && keep(value) then this else None
    }

    /** `Optional.map`: applies `f` to a present value. */
    function Map<U>(f: T -> U): (r: Option<U>)
      ensures r.Some? <==> Some?
      ensures r.Some? ==> r.value == f(value)
    {
      match this
      case None => None
      case Some(v) => Some(f(v))
    }
  }

  /** A stored credential: the one-way password hash and the user's role. */
  datatype Credential = Credential(passwordHash: string, role: string)

  /** A user as the user service returns it. */
  datatype User = User(email: string, passwordHash: string, role: string)

  /** The credential store, keyed by email. */
  type Credentials = map<string, Credential>

  /** `findByEmail` on the credential store. */
  function FindByEmail(users: Credentials, email: string): Option<User>
  {
    if email in users then Some(User(email, users[email].passwordHash, users[email].role)) else None
  }

  /**
   * `authenticate`. `matches(raw, hash)` is the password encoder's check and
   * `generateToken(email, role)` the token issuer; both are left abstract.
   * A token comes back exactly when the user exists and the password
   * matches, and it is issued for the requested email and the stored role.
   */
  function Authenticate(
    users: Credentials,
    matches: (string, string) -> bool,
    generateToken: (string, string) -> string,
    email: string,
    password: string): (token: Option<string>)
    ensures token.Some? <==> email in users && matches(password, users[email].passwordHash)
    ensures token.Some? ==> token.value == generateToken(email, users[email].role)
  {
    FindByEmail(users, email)
      .Filter((u: User) => matches(password, u.passwordHash))
      .Map((u: User) => generateToken(u.email, u.role))
  }

  /** An unknown email and a wrong password give the same answer: nothing
      tells the caller which of the two it was. */
  lemma UnknownEmailAndWrongPasswordAgree(
    users: Credentials,
    matches: (string, string) -> bool,
    generateToken: (string, string) -> string,
    unknown: string, anyPassword: string,
    known: string, wrongPassword: string)
    requires unknown !in users
    requires known in users && !matches(wrongPassword, users[known].passwordHash)
    ensures Authenticate(users, matches, generateToken, unknown, anyPassword) == None
    ensures Authenticate(users, matches, generateToken, known, wrongPassword) == None
  {
  }

  /** The decision depends only on the requesting user's own credential:
      other entries of the store do not influence it. */
  lemma AuthenticateDependsOnlyOnOwnCredential(
    users: Credentials, others: Credentials,
    matches: (string, string) -> bool,
    generateToken: (string, string) -> string,
    email: string, password: string)
    requires email in users <==> email in others
    requires email in users ==> users[email] == others[email]
    ensures Authenticate(users, matches, generateToken, email, password)
         == Authenticate(others, matches, generateToken, email, password)
  {
  }
}
