/**
  The account lifecycle of server/routes/auth.js: a users table keyed by email
  with three operations, `register`, `verify/:token` and `login`. Each checks
  its error cases in a fixed order and returns early.

  bcrypt and jsonwebtoken are not part of this model: they enter as the
  function values of a `Crypto` record. The random salt and the outcome of
  sending the verification mail are parameters of `register`.
 */
module Auth {
  import opened Optional
  import opened Http

  // Messages of the three routes
  const PasswordsDoNotMatch := "Passwords do not match"
  const UserAlreadyExists := "User already exists"
  const ServerError := "Server error"
  const Registered := "User registered. Please check your email to verify your account."
  const InvalidToken := "Invalid or expired token"
  const EmailVerified := "Email verified successfully"
  const InvalidCredentials := "Invalid credentials"
  const VerifyFirst := "Please verify your email first"

  /** Width of the VARCHAR(255) columns `email`, `password` and `verification_token`. */
  const ColumnWidth: nat := 255

  /** The payload of a signed token: `{ email }` for verification, `{ id }` for a session. */
  datatype Claim = EmailClaim(email: string) | IdClaim(id: nat)

  /** The foreign cryptography, as opaque functions. */
  datatype Crypto = Crypto(
    hash: (string, string) -> string,    // bcrypt.hash(password, salt)
    compare: (string, string) -> bool,   // bcrypt.compare(password, storedHash)
    sign: Claim -> string,               // jwt.sign(payload, secret)
    decode: string -> Option<Claim>)     // jwt.verify(token, secret); None when malformed, forged or expired

  /** The one promise of bcrypt that the lifecycle relies on: a password matches its own hash. */
  ghost predicate HashAcceptsOwnPassword(c: Crypto)
  {
    forall password, salt :: c.compare(password, c.hash(password, salt))
  }

  /** A row of the `users` table; `passwordHash` is the column `password`. */
  datatype UserRow = UserRow(
    id: nat,
    email: string,
    passwordHash: string,
    verified: bool,
    verificationToken: Option<string>)

  type Users = map<string, UserRow>

  /** The table, keyed by its UNIQUE column `email`, and the next value of the SERIAL `id`. */
  datatype AuthState = AuthState(users: Users, nextId: nat)

  const Initial := AuthState(map[], 1)

  /**
    What every reachable table satisfies: rows are keyed by their own email,
    ids are distinct and already handed out, and a row carries a verification
    token exactly while it is unverified.
   */
  ghost predicate Consistent(s: AuthState)
  {
    && (forall e | e in s.users ::
          && s.users[e].email == e
          && s.users[e].id < s.nextId
          && (s.users[e].verified <==> s.users[e].verificationToken.None?))
    && (forall e1, e2 | e1 in s.users && e2 in s.users && e1 != e2 :: s.users[e1].id != s.users[e2].id)
  }

  /** Whether an INSERT of these values fits the table's VARCHAR(255) columns. */
  predicate RowFits(email: string, hashed: string, token: string)
  {
    |email| <= ColumnWidth && |hashed| <= ColumnWidth && |token| <= ColumnWidth
  }

  /** Whether `register` gets as far as inserting a row. */
  predicate Inserts(c: Crypto, s: AuthState, email: string, password: string, confirmPassword: string, salt: string)
  {
    && password == confirmPassword
    && email !in s.users
    && RowFits(email, c.hash(password, salt), c.sign(EmailClaim(email)))
  }

  /**
    `POST /register`: the new table and the response. The row is inserted
    before the mail is sent, so a failed delivery answers 500 and keeps it.
   */
  function RegisterStep(c: Crypto, s: AuthState, email: string, password: string, confirmPassword: string,
                        salt: string, mailDelivered: bool): (r: (AuthState, Response<()>))
    ensures password != confirmPassword ==>
              r.0 == s && r.1 == Response(BadRequest, Error(PasswordsDoNotMatch))
    ensures password == confirmPassword && email in s.users ==>
              r.0 == s && r.1 == Response(BadRequest, Error(UserAlreadyExists))
    // no row but that of `email` appears, and no existing row changes
    ensures r.0.users.Keys <= s.users.Keys + {email}
    ensures forall e | e in s.users :: e in r.0.users && r.0.users[e] == s.users[e]
    ensures (email in r.0.users && email !in s.users) <==> Inserts(c, s, email, password, confirmPassword, salt)
    ensures Inserts(c, s, email, password, confirmPassword, salt) ==>
              && r.0.users[email].passwordHash == c.hash(password, salt)
              && r.0.users[email].verificationToken == Some(c.sign(EmailClaim(email)))
              && !r.0.users[email].verified
    ensures r.1.status == Created <==> Inserts(c, s, email, password, confirmPassword, salt) && mailDelivered
    ensures r.1.status == Created ==> r.1.body == Message(Registered)
    // an INSERT the columns refuse is caught as a server error, and so is a failed mail, which keeps the row
    ensures password == confirmPassword && email !in s.users && !Inserts(c, s, email, password, confirmPassword, salt) ==>
              r == (s, Response(InternalError, Error(ServerError)))
    ensures Inserts(c, s, email, password, confirmPassword, salt) && !mailDelivered ==>
              r.1 == Response(InternalError, Error(ServerError))
    ensures r.1.status != Created ==> r.1.status in {BadRequest, InternalError} && r.1.body.Error?
    ensures Consistent(s) ==> Consistent(r.0)
  {
    if password != confirmPassword then
      (s, Response(BadRequest, Error(PasswordsDoNotMatch)))
    else if email in s.users then
      (s, Response(BadRequest, Error(UserAlreadyExists)))
    else
      var hashed := c.hash(password, salt);
      var token := c.sign(EmailClaim(email));
      if !RowFits(email, hashed, token) then
        (s, Response(InternalError, Error(ServerError)))
      else
        var s' := AuthState(s.users[email := UserRow(s.nextId, email, hashed, false, Some(token))], s.nextId + 1);
        if mailDelivered then (s', Response(Created, Message(Registered)))
        else (s', Response(InternalError, Error(ServerError)))
  }

  /** The row `verify` marks: the email embedded in the token, when there is one. */
  predicate Targets(c: Crypto, token: string, e: string)
  {
    c.decode(token) == Some(EmailClaim(e))
  }

  /**
    `GET /verify/:token`. The stored token is never compared: any token that
    decodes to an email verifies that email's row. A payload without an email
    (a session token) updates `WHERE email = NULL`, which matches no row.
   */
  function VerifyStep(c: Crypto, s: AuthState, token: string): (r: (AuthState, Response<()>))
    ensures c.decode(token).None? ==> r.0 == s && r.1 == Response(BadRequest, Error(InvalidToken))
    ensures c.decode(token).Some? ==> r.1 == Response(OK, Message(EmailVerified))
    ensures r.0.users.Keys == s.users.Keys && r.0.nextId == s.nextId
    ensures forall e | e in s.users && Targets(c, token, e) ::
              && r.0.users[e].verified
              && r.0.users[e].verificationToken == None
              && r.0.users[e].(verified := false, verificationToken := None)
                 == s.users[e].(verified := false, verificationToken := None)
    ensures forall e | e in s.users && !Targets(c, token, e) :: r.0.users[e] == s.users[e]
    ensures Consistent(s) ==> Consistent(r.0)
  {
    match c.decode(token)
    case None => (s, Response(BadRequest, Error(InvalidToken)))
    case Some(claim) =>
      var users :=
        if claim.EmailClaim? && claim.email in s.users then
          s.users[claim.email := s.users[claim.email].(verified := true, verificationToken := None)]
        else s.users;
      (AuthState(users, s.nextId), Response(OK, Message(EmailVerified)))
  }

  /**
    `POST /login`, which only reads the table. The verified check comes before
    the password compare, so an unverified user learns so whatever the password.
   */
  function Login(c: Crypto, users: Users, email: string, password: string): (r: Response<string>)
    ensures email !in users ==> r == Response(BadRequest, Error(InvalidCredentials))
    ensures email in users && !users[email].verified ==> r == Response(BadRequest, Error(VerifyFirst))
    ensures email in users && users[email].verified && !c.compare(password, users[email].passwordHash) ==>
              r == Response(BadRequest, Error(InvalidCredentials))
    ensures r.status == OK <==>
              email in users && users[email].verified && c.compare(password, users[email].passwordHash)
    ensures r.status == OK ==> r.body == Data(c.sign(IdClaim(users[email].id)))
    ensures r.status != OK ==> r.status == BadRequest && r.body.Error?
  {
    if email !in users then Response(BadRequest, Error(InvalidCredentials))
    else if !users[email].verified then Response(BadRequest, Error(VerifyFirst))
    else if !c.compare(password, users[email].passwordHash) then Response(BadRequest, Error(InvalidCredentials))
    else Response(OK, Data(c.sign(IdClaim(users[email].id))))
  }

  /** Verifying twice with the same token yields the same table and the same response. */
  lemma VerifyIdempotent(c: Crypto, s: AuthState, token: string)
    ensures VerifyStep(c, VerifyStep(c, s, token).0, token) == VerifyStep(c, s, token)
  {
    var s1 := VerifyStep(c, s, token).0;
    var s2 := VerifyStep(c, s1, token).0;
    assert s2.users == s1.users;
  }

  /**
    The table half of idempotence holds whatever the clock: when the second
    call decodes the token as the first did, or no longer decodes it at all
    (it expired in between), the second call leaves the table as the first
    call left it.
   */
  lemma VerifyTableIdempotentAcrossClock(c1: Crypto, c2: Crypto, s: AuthState, token: string)
    requires c2.decode(token).None? || c2.decode(token) == c1.decode(token)
    ensures VerifyStep(c2, VerifyStep(c1, s, token).0, token).0 == VerifyStep(c1, s, token).0
  {
    var s1 := VerifyStep(c1, s, token).0;
    var s2 := VerifyStep(c2, s1, token).0;
    assert s2.users == s1.users;
  }

  /** A second registration of an email that got its row is refused and adds nothing. */
  lemma RegisterTwiceRefused(c: Crypto, s: AuthState, email: string, password: string, salt: string,
                             mailDelivered: bool, password2: string, salt2: string, mailDelivered2: bool)
    requires Inserts(c, s, email, password, password, salt)
    ensures var s1 := RegisterStep(c, s, email, password, password, salt, mailDelivered).0;
            RegisterStep(c, s1, email, password2, password2, salt2, mailDelivered2)
              == (s1, Response(BadRequest, Error(UserAlreadyExists)))
  {
  }

  /**
    The whole lifecycle of one account: after registering, login is refused
    until the email is verified; verifying with the mailed (unexpired) token
    makes the same password log in, with a session token for the new row's id.
   */
  lemma {:induction false} Lifecycle(c: Crypto, s: AuthState, email: string, password: string, salt: string,
                                     mailDelivered: bool, anyPassword: string)
    requires HashAcceptsOwnPassword(c)
    requires Inserts(c, s, email, password, password, salt)
    requires c.decode(c.sign(EmailClaim(email))) == Some(EmailClaim(email))
    ensures var s1 := RegisterStep(c, s, email, password, password, salt, mailDelivered).0;
            var s2 := VerifyStep(c, s1, s1.users[email].verificationToken.value).0;
            && Login(c, s1.users, email, anyPassword) == Response(BadRequest, Error(VerifyFirst))
            && Login(c, s2.users, email, password) == Response(OK, Data(c.sign(IdClaim(s.nextId))))
  {
  }

  /** A session token presented to `verify` decodes, so it answers 200, yet it changes no row. */
  lemma SessionTokenVerifiesNothing(c: Crypto, s: AuthState, id: nat)
    requires c.decode(c.sign(IdClaim(id))) == Some(IdClaim(id))
    ensures VerifyStep(c, s, c.sign(IdClaim(id))) == (s, Response(OK, Message(EmailVerified)))
  {
  }

  /** The imperative form of the routes: the users table as a field updated in place. */
  class AuthService {
    const crypto: Crypto
    var users: Users
    var nextId: nat

    function State(): AuthState
      reads this
    {
      AuthState(users, nextId)
    }

    ghost predicate Valid()
      reads this
    {
      Consistent(State())
    }

    constructor (crypto: Crypto)
      ensures this.crypto == crypto && State() == Initial && Valid()
    {
      this.crypto := crypto;
      users := map[];
      nextId := 1;
    }

    method Register(email: string, password: string, confirmPassword: string, salt: string, mailDelivered: bool)
      returns (r: Response<()>)
      requires Valid()
      modifies this
      ensures Valid()
      ensures (State(), r) == RegisterStep(crypto, old(State()), email, password, confirmPassword, salt, mailDelivered)
    {
      if password != confirmPassword {
        return Response(BadRequest, Error(PasswordsDoNotMatch));
      }
      if email in users {
        return Response(BadRequest, Error(UserAlreadyExists));
      }
      var hashed := crypto.hash(password, salt);
      var token := crypto.sign(EmailClaim(email));
      if !RowFits(email, hashed, token) {
        return Response(InternalError, Error(ServerError));
      }
      users := users[email := UserRow(nextId, email, hashed, false, Some(token))];
      nextId := nextId + 1;
      if !mailDelivered {
        return Response(InternalError, Error(ServerError));
      }
      return Response(Created, Message(Registered));
    }

    method Verify(token: string) returns (r: Response<()>)
      requires Valid()
      modifies this
      ensures Valid()
      ensures (State(), r) == VerifyStep(crypto, old(State()), token)
    {
      var decoded := crypto.decode(token);
      if decoded.None? {
        return Response(BadRequest, Error(InvalidToken));
      }
      if decoded.value.EmailClaim? && decoded.value.email in users {
        var e := decoded.value.email;
        users := users[e := users[e].(verified := true, verificationToken := None)];
      }
      return Response(OK, Message(EmailVerified));
    }
  }
}
