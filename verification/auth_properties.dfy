/** What register, login, refreshToken and validate guarantee about users, token pairs and spent refresh tokens. */
module AuthProperties {
  import opened Results
  import opened Auth

  // ---------------------------------------------------------------- register

  /** register refuses exactly the emails some user already has, and then changes nothing. */
  lemma RegisterRefusesTakenEmail(st: AuthState, name: string, email: string, identification: Option<int>,
                                  hash: Option<string>, savedId: string)
    ensures var o := Auth.Register(st, name, email, identification, hash, savedId);
      (o.0 == Failure(UserAlreadyExists) <==> exists k :: k in st.users && st.users[k].email == email)
      && (o.0.Failure? ==> o.1 == st)
  {
  }

  /** With a free email, a hash that came out falsy is 'Bcrypt hash error', and nothing is stored. */
  lemma RegisterRefusesFailedHash(st: AuthState, name: string, email: string, identification: Option<int>,
                                  hash: Option<string>, savedId: string)
    requires forall k :: k in st.users ==> st.users[k].email != email
    ensures var o := Auth.Register(st, name, email, identification, hash, savedId);
      && (o.0 == Failure(HashFailed) <==> !Truthy(hash))
      && (!Truthy(hash) ==> o.1 == st)
  {
  }

  /**
   * With a free email and a truthy hash, register saves the body: it stores the
   * user holding the hash under `savedId` (replacing the user there, when the body
   * carried an existing id) and returns it without its password. The one refusal
   * left is an INSERT of a body without `identification`.
   */
  lemma RegisterStoresUser(st: AuthState, name: string, email: string, identification: Option<int>, hash: string,
                           savedId: string)
    requires forall k :: k in st.users ==> st.users[k].email != email
    requires hash != ""
    ensures var o := Auth.Register(st, name, email, identification, Some(hash), savedId);
      && (o.0.Failure? <==> savedId !in st.users && identification.None?)
      && (o.0.Failure? ==> o.0.error == InsertRefused && o.1 == st)
      && (o.0.Success? ==> o.0.value == Profile(savedId, name, email)
                           && o.1 == st.(users := st.users[savedId := User(savedId, name, email, hash)]))
  {
  }

  /** A body with exactly the fields RegisterUserDto declares lacks `identification`, so its INSERT is refused. */
  lemma RegisterDtoExactBodyRefused(st: AuthState, name: string, email: string, hash: string, savedId: string)
    requires forall k :: k in st.users ==> st.users[k].email != email
    requires hash != "" && savedId !in st.users
    ensures Auth.Register(st, name, email, None, Some(hash), savedId) == (Failure(InsertRefused), st)
  {
  }

  /**
   * register keeps every user under its own id and every email unique, whether the
   * save inserts a new row or overwrites the user whose id the body carried.
   */
  lemma RegisterPreservesUsers(st: AuthState, name: string, email: string, identification: Option<int>,
                               hash: Option<string>, savedId: string)
    requires UsersKeyed(st.users) && EmailsUnique(st.users)
    ensures var users := Auth.Register(st, name, email, identification, hash, savedId).1.users;
      UsersKeyed(users) && EmailsUnique(users)
  {
    var users := Auth.Register(st, name, email, identification, hash, savedId).1.users;
    if users != st.users {
      assert forall k :: k in st.users ==> st.users[k].email != email;
      forall a, b | a in users && b in users && users[a].email == users[b].email
        ensures a == b
      {
        if a != savedId && b != savedId {
          assert users[a] == st.users[a] && users[b] == st.users[b];
        }
      }
    }
  }

  // ---------------------------------------------------------------- login

  /**
   * Among users with unique emails, login succeeds exactly for the stored user with
   * that email whose hash matches the password; it then returns that user without
   * its password and the issued pair, and the issued pair replaces the user's
   * previous one. Otherwise it is NotFound and nothing changes.
   */
  lemma LoginSucceedsForMatchingUser(st: AuthState, passwordMatches: (string, string) -> bool, email: string,
                                     password: string, issued: TokenPair, k: string)
    requires UsersKeyed(st.users) && EmailsUnique(st.users)
    requires k in st.users && st.users[k].email == email
    ensures var o := Auth.Login(st, passwordMatches, email, password, issued);
      && (o.0.Success? <==> passwordMatches(password, st.users[k].passwordHash))
      && (o.0.Success? ==> o.0.value == Session(WithoutPassword(st.users[k]), issued)
                           && o.1 == st.(pairs := st.pairs[k := issued]))
      && (o.0.Failure? ==> o.0.error == NotFound && o.1 == st)
  {
    var u := UserByEmail(st.users, email);
    var j :| j in st.users && st.users[j] == u.value;
    assert j == k;
  }

  /** login with an email no user has is NotFound. */
  lemma LoginUnknownEmail(st: AuthState, passwordMatches: (string, string) -> bool, email: string,
                          password: string, issued: TokenPair)
    requires forall k :: k in st.users ==> st.users[k].email != email
    ensures Auth.Login(st, passwordMatches, email, password, issued) == (Failure(NotFound), st)
  {
  }

  // ---------------------------------------------------------------- refreshToken

  /** Once the access token verifies and the user exists, tokens other than the user's current pair are Forbidden. */
  lemma RefreshNeedsCurrentPair(st: AuthState, verify: (string, Secret) -> Verification, userId: string,
                                accessToken: string, refreshToken: string, issued: TokenPair)
    requires verify(accessToken, AccessSecret).Verified? && userId in st.users
    requires userId !in st.pairs || st.pairs[userId] != TokenPair(accessToken, refreshToken)
    ensures Refresh(st, verify, userId, accessToken, refreshToken, issued) == (Failure(Forbidden(FORBIDDEN)), st)
  {
  }

  /**
   * A refresh token already recorded as used for the user is never accepted again:
   * with the current pair and both tokens verifying, it is 'Please relogin'.
   */
  lemma RefreshRejectsUsedToken(st: AuthState, verify: (string, Secret) -> Verification, userId: string,
                                accessToken: string, refreshToken: string, issued: TokenPair)
    requires UsedToken(userId, refreshToken) in st.used
    ensures var o := Refresh(st, verify, userId, accessToken, refreshToken, issued);
      o.0.Failure? && o.1 == st
    ensures verify(accessToken, AccessSecret).Verified? && userId in st.users
      && userId in st.pairs && st.pairs[userId] == TokenPair(accessToken, refreshToken)
      && verify(refreshToken, RefreshSecret).Verified?
      ==> Refresh(st, verify, userId, accessToken, refreshToken, issued).0 == Failure(Forbidden(PLEASE_RELOGIN))
  {
  }

  /** A successful refresh spends the presented refresh token and makes the issued pair the user's current one. */
  lemma RefreshSpendsToken(st: AuthState, verify: (string, Secret) -> Verification, userId: string,
                           accessToken: string, refreshToken: string, issued: TokenPair)
    requires UsersKeyed(st.users)
    requires Refresh(st, verify, userId, accessToken, refreshToken, issued).0.Success?
    ensures var after := Refresh(st, verify, userId, accessToken, refreshToken, issued).1;
      && UsedToken(userId, refreshToken) !in st.used
      && after.used == st.used + [UsedToken(userId, refreshToken)]
      && after.pairs == st.pairs[userId := issued]
      && after.users == st.users
  {
  }

  // ---------------------------------------------------------------- replay

  /** The operations that change the authentication state. */
  datatype Op =
    | RegisterOp(name: string, email: string, identification: Option<int>, hash: Option<string>, savedId: string)
    | LoginOp(email: string, password: string, issued: TokenPair)
    | RefreshOp(userId: string, accessToken: string, refreshToken: string, issued: TokenPair)

  function Apply(st: AuthState, verify: (string, Secret) -> Verification, passwordMatches: (string, string) -> bool,
                 op: Op): AuthState
  {
    match op
    case RegisterOp(name, email, identification, hash, savedId) =>
      Auth.Register(st, name, email, identification, hash, savedId).1
    case LoginOp(email, password, issued) => Auth.Login(st, passwordMatches, email, password, issued).1
    case RefreshOp(userId, accessToken, refreshToken, issued) =>
      Refresh(st, verify, userId, accessToken, refreshToken, issued).1
  }

  function Run(st: AuthState, verify: (string, Secret) -> Verification, passwordMatches: (string, string) -> bool,
               ops: seq<Op>): AuthState
    decreases |ops|
  {
    if |ops| == 0 then st else Run(Apply(st, verify, passwordMatches, ops[0]), verify, passwordMatches, ops[1..])
  }

  /** The used list only grows: every operation keeps what it held as a prefix. */
  lemma {:induction false} UsedOnlyGrows(st: AuthState, verify: (string, Secret) -> Verification,
                                         passwordMatches: (string, string) -> bool, ops: seq<Op>)
    ensures st.used <= Run(st, verify, passwordMatches, ops).used
    decreases |ops|
  {
    if |ops| > 0 {
      var next := Apply(st, verify, passwordMatches, ops[0]);
      assert st.used <= next.used;
      UsedOnlyGrows(next, verify, passwordMatches, ops[1..]);
    }
  }

  /**
   * Replay protection: after a refresh succeeds with a refresh token, that token is
   * refused by every later refresh of the same user, whatever registrations, logins
   * and refreshes happen in between and whatever access token comes with it.
   */
  lemma ReplayAlwaysRejected(st: AuthState, verify: (string, Secret) -> Verification,
                             passwordMatches: (string, string) -> bool, userId: string, accessToken: string,
                             refreshToken: string, issued: TokenPair, ops: seq<Op>, laterAccessToken: string,
                             laterIssued: TokenPair)
    requires UsersKeyed(st.users)
    requires Refresh(st, verify, userId, accessToken, refreshToken, issued).0.Success?
    ensures var later := Run(Refresh(st, verify, userId, accessToken, refreshToken, issued).1, verify, passwordMatches, ops);
      Refresh(later, verify, userId, laterAccessToken, refreshToken, laterIssued).0.Failure?
  {
    var after := Refresh(st, verify, userId, accessToken, refreshToken, issued).1;
    RefreshSpendsToken(st, verify, userId, accessToken, refreshToken, issued);
    assert UsedToken(userId, refreshToken) in after.used;
    var later := Run(after, verify, passwordMatches, ops);
    UsedOnlyGrows(after, verify, passwordMatches, ops);
    assert UsedToken(userId, refreshToken) in later.used by {
      var i :| 0 <= i < |after.used| && after.used[i] == UsedToken(userId, refreshToken);
      assert later.used[i] == after.used[i];
    }
    RefreshRejectsUsedToken(later, verify, userId, laterAccessToken, refreshToken, laterIssued);
  }

  // ---------------------------------------------------------------- validate

  /** validate without both tokens is Forbidden. */
  lemma ValidateNeedsBothTokens(st: AuthState, verify: (string, Secret) -> Verification, token: Option<string>,
                                refreshToken: Option<string>)
    requires !Truthy(token) || !Truthy(refreshToken)
    ensures Auth.Validate(st, verify, token, refreshToken) == Failure(Forbidden(FORBIDDEN))
  {
  }

  /** A user missing from the table is NotFound even when the pair is missing too: the user is checked first. */
  lemma ValidateChecksUserBeforePair(st: AuthState, verify: (string, Secret) -> Verification, token: string,
                                     refreshToken: string, userId: string)
    requires token != "" && refreshToken != ""
    requires verify(token, AccessSecret) == Verified(userId) && userId !in st.users
    ensures Auth.Validate(st, verify, Some(token), Some(refreshToken)) == Failure(NotFound)
  {
  }

  /**
   * validate succeeds exactly when the access token verifies to a stored user whose
   * current pair is the presented one, and returns that user without its password.
   */
  lemma ValidateAcceptsCurrentPair(st: AuthState, verify: (string, Secret) -> Verification, token: string,
                                   refreshToken: string, userId: string)
    requires token != "" && refreshToken != ""
    requires verify(token, AccessSecret) == Verified(userId)
    ensures var r := Auth.Validate(st, verify, Some(token), Some(refreshToken));
      && (r.Success? <==> userId in st.users && userId in st.pairs
                          && st.pairs[userId] == TokenPair(token, refreshToken))
      && (r.Success? ==> r.value == WithoutPassword(st.users[userId]))
  {
  }
}
