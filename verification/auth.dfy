/**
 * The authentication state of AuthService: the user table, the current token pair
 * of each user (keyed by user id) and the list of refresh tokens already spent.
 * JWT verification and bcrypt comparison are functions the service is given; the
 * tokens a login or refresh issues, the bcrypt hash and the id register saves under are
 * values handed to each operation.
 */
module Auth {
  import opened Results
  import Ids

  /** A stored user; the table is keyed by `id`. */
  datatype User = User(id: string, name: string, email: string, passwordHash: string)

  /** A user as the service returns it: the password field deleted. */
  datatype Profile = Profile(id: string, name: string, email: string)

  function WithoutPassword(u: User): Profile {
    Profile(u.id, u.name, u.email)
  }

  datatype TokenPair = TokenPair(accessToken: string, refreshToken: string)

  /** A row of used_refresh_tokens. */
  datatype UsedToken = UsedToken(userId: string, refreshToken: string)

  datatype AuthState = AuthState(users: map<string, User>, pairs: map<string, TokenPair>, used: seq<UsedToken>)

  /** The two signing secrets. */
  datatype Secret = AccessSecret | RefreshSecret

  /** What `jwt.verify` does with a token and a secret: the payload's userId, or the error's message. */
  datatype Verification = Verified(userId: string) | Rejected(message: string)

  datatype AuthError =
    | UserAlreadyExists          // 400 'User already exists'
    | HashFailed                 // Error('Bcrypt hash error')
    | NotFound                   // NotFoundException
    | TokenExpired               // 401 'Token is expired'
    | InvalidAccessToken         // 400 'Invalid access token'
    | Forbidden(message: string) // 403
    | InsertRefused              // QueryFailedError: a NOT NULL column without a value

  const JWT_EXPIRED := "jwt expired"
  const FORBIDDEN := "Forbidden"
  const PLEASE_RELOGIN := "Please relogin"

  // ---------------------------------------------------------------- invariants

  /** Every user is stored under its own id. */
  predicate UsersKeyed(users: map<string, User>) {
    forall k :: k in users ==> users[k].id == k
  }

  /** No two users share an email (the email column is unique). */
  predicate EmailsUnique(users: map<string, User>) {
    forall a, b :: a in users && b in users && users[a].email == users[b].email ==> a == b
  }

  // ---------------------------------------------------------------- user lookups

  /** getUserByEmail: the first user with the email, in primary-key order. */
  function UserByEmail(users: map<string, User>, email: string): (u: Option<User>)
    ensures u.None? <==> forall k :: k in users ==> users[k].email != email
    ensures u.Some? ==> u.value in users.Values && u.value.email == email
  {
    var keys := set k | k in users && users[k].email == email;
    if keys == {} then
      assert forall k :: k in users ==> users[k].email != email by {
        forall k | k in users
          ensures users[k].email != email
        {
          assert users[k].email == email ==> k in keys;
        }
      }
      None
    else
      var k := Ids.LeastKey(keys);
      assert users[k] in users.Values;
      Some(users[k])
  }

  /** getUserByUserId: the user without its password, or NotFound. */
  function GetUserByUserId(users: map<string, User>, userId: string): (r: Result<Profile, AuthError>)
    ensures r.Failure? <==> userId !in users
    ensures r.Failure? ==> r.error == NotFound
    ensures r.Success? ==> r.value == WithoutPassword(users[userId])
  {
    if userId in users then Success(WithoutPassword(users[userId])) else Failure(NotFound)
  }

  // ---------------------------------------------------------------- operations

  /** verifyTokenTryCatch: an expired token is TokenExpired, any other failure InvalidAccessToken. */
  function VerifyTokenTryCatch(v: Verification): (r: Result<string, AuthError>)
    ensures r.Success? <==> v.Verified?
    ensures r.Success? ==> r.value == v.userId
    ensures v.Rejected? ==> r.error == (if v.message == JWT_EXPIRED then TokenExpired else InvalidAccessToken)
  {
    match v
    case Verified(userId) => Success(userId)
    case Rejected(message) => if message == JWT_EXPIRED then Failure(TokenExpired) else Failure(InvalidAccessToken)
  }

  /**
   * register: refuses a taken email, then a hash that came out falsy; otherwise
   * saves the whole body with the hash as its password and returns the user
   * without it. The validation pipe keeps undeclared properties, so the body may
   * carry `id` and `identification`:
   * - `savedId` is the row `save` writes: the body's `id` when it carries one,
   *   otherwise a generated uuid. An existing id makes `save` UPDATE that user.
   * - `identification` is the body's value for the NOT NULL `identification`
   *   column, which RegisterUserDto does not declare; an INSERT without it is
   *   refused, while an UPDATE leaves the stored value.
   */
  function Register(st: AuthState, name: string, email: string, identification: Option<int>, hash: Option<string>,
                    savedId: string): (o: (Result<Profile, AuthError>, AuthState))
    ensures o.0.Failure? ==> o.1 == st
    ensures o.1.pairs == st.pairs && o.1.used == st.used
  {
    if UserByEmail(st.users, email).Some? then (Failure(UserAlreadyExists), st)
    else if hash.None? || hash.value == "" then (Failure(HashFailed), st)
    else if savedId !in st.users && identification.None? then (Failure(InsertRefused), st)
    else
      var user := User(savedId, name, email, hash.value);
      (Success(WithoutPassword(user)), st.(users := st.users[savedId := user]))
  }

  /** A login's answer: the user without its password, and the new token pair. */
  datatype Session = Session(user: Profile, tokens: TokenPair)

  /**
   * login: an unknown email and a wrong password are both NotFound; otherwise the
   * issued pair replaces the user's current pair.
   */
  function Login(st: AuthState, passwordMatches: (string, string) -> bool, email: string, password: string,
                 issued: TokenPair): (o: (Result<Session, AuthError>, AuthState))
    ensures o.0.Failure? ==> o.1 == st
    ensures o.1.users == st.users && o.1.used == st.used
  {
    match UserByEmail(st.users, email)
    case None => (Failure(NotFound), st)
    case Some(user) =>
      if !passwordMatches(password, user.passwordHash) then (Failure(NotFound), st)
      else (Success(Session(WithoutPassword(user), issued)), st.(pairs := st.pairs[user.id := issued]))
  }

  /** The used refresh tokens recorded for `userId`, in the order they were recorded. */
  function UsedBy(used: seq<UsedToken>, userId: string): (rs: seq<UsedToken>)
    ensures forall r :: r in rs <==> r in used && r.userId == userId
  {
    if |used| == 0 then []
    else if used[0].userId == userId then [used[0]] + UsedBy(used[1..], userId)
    else UsedBy(used[1..], userId)
  }

  /**
   * refreshToken: verifies the access token, loads the user, demands that the
   * presented tokens be the user's current pair, verifies the refresh token and
   * refuses one already used; then records the refresh token as used and stores
   * the issued pair.
   */
  function Refresh(st: AuthState, verify: (string, Secret) -> Verification, userId: string,
                   accessToken: string, refreshToken: string, issued: TokenPair)
    : (o: (Result<TokenPair, AuthError>, AuthState))
    ensures o.0.Failure? ==> o.1 == st
    ensures o.1.users == st.users
  {
    match VerifyTokenTryCatch(verify(accessToken, AccessSecret))
    case Failure(e) => (Failure(e), st)
    case Success(_) =>
      match GetUserByUserId(st.users, userId)
      case Failure(e) => (Failure(e), st)
      case Success(currentUser) =>
        if userId !in st.pairs || st.pairs[userId] != TokenPair(accessToken, refreshToken) then
          (Failure(Forbidden(FORBIDDEN)), st)
        else
          match VerifyTokenTryCatch(verify(refreshToken, RefreshSecret))
          case Failure(e) => (Failure(e), st)
          case Success(_) =>
            if UsedToken(userId, refreshToken) in st.used then (Failure(Forbidden(PLEASE_RELOGIN)), st)
            else
              (Success(issued),
               st.(used := st.used + [UsedToken(currentUser.id, refreshToken)],
                   pairs := st.pairs[currentUser.id := issued]))
  }

  /** A header or cookie value as JavaScript tests it: absent and "" are falsy. */
  predicate Truthy(v: Option<string>) {
    v.Some? && v.value != ""
  }

  /**
   * validate: both tokens must be present; the access token must verify; a missing
   * user is NotFound, checked before a missing pair, which is Forbidden.
   */
  function Validate(st: AuthState, verify: (string, Secret) -> Verification, token: Option<string>,
                    refreshToken: Option<string>): (r: Result<Profile, AuthError>)
    ensures !Truthy(token) || !Truthy(refreshToken) ==> r == Failure(Forbidden(FORBIDDEN))
    ensures r.Success? ==> Truthy(token) && Truthy(refreshToken) && verify(token.value, AccessSecret).Verified?
    ensures r.Success? ==>
      var id := verify(token.value, AccessSecret).userId;
      && id in st.users && id in st.pairs && st.pairs[id] == TokenPair(token.value, refreshToken.value)
      && r.value == WithoutPassword(st.users[id])
  {
    if !Truthy(refreshToken) || !Truthy(token) then Failure(Forbidden(FORBIDDEN))
    else
      match VerifyTokenTryCatch(verify(token.value, AccessSecret))
      case Failure(e) => Failure(e)
      case Success(decodedUserId) =>
        var pairFound := decodedUserId in st.pairs
          && st.pairs[decodedUserId] == TokenPair(token.value, refreshToken.value);
        match GetUserByUserId(st.users, decodedUserId)
        case Failure(e) => Failure(e)
        case Success(user) => if !pairFound then Failure(Forbidden(FORBIDDEN)) else Success(user)
  }
}
