/**
 * AuthService as an object over the user table, the current token pairs and the
 * used refresh tokens. Each operation is a method proved to end in the state and
 * with the result the matching `Auth` function describes.
 */
module AuthServices {
  import opened Results
  import opened Auth

  class AuthService {
    var users: map<string, User>
    /** current_token_pair: one pair per user id. */
    var pairs: map<string, TokenPair>
    /** used_refresh_tokens, in insertion order. */
    var used: seq<UsedToken>
    /** `jwt.verify` with one of the two secrets. */
    const verify: (string, Secret) -> Verification
    /** `bcrypt.compare(password, hash)`. */
    const passwordMatches: (string, string) -> bool

    constructor (st: AuthState, verify: (string, Secret) -> Verification, passwordMatches: (string, string) -> bool)
      ensures State() == st && this.verify == verify && this.passwordMatches == passwordMatches
    {
      users := st.users;
      pairs := st.pairs;
      used := st.used;
      this.verify := verify;
      this.passwordMatches := passwordMatches;
    }

    function State(): AuthState
      reads this
    {
      AuthState(users, pairs, used)
    }

    /**
     * register, with `hash` the value bcrypt.hash produced, `identification` the
     * body's undeclared column value and `savedId` the id of the row `save` writes.
     */
    method Register(name: string, email: string, identification: Option<int>, hash: Option<string>, savedId: string)
      returns (r: Result<Profile, AuthError>)
      modifies this
      ensures (r, State()) == Auth.Register(old(State()), name, email, identification, hash, savedId)
    {
      if UserByEmail(users, email).Some? {
        return Failure(UserAlreadyExists);
      }
      if hash.None? || hash.value == "" {
        return Failure(HashFailed);
      }
      if savedId !in users && identification.None? {
        return Failure(InsertRefused);
      }
      var created := User(savedId, name, email, hash.value);
      users := users[savedId := created];
      return Success(WithoutPassword(created));
    }

    /** login, with `issued` the pair generateTokenPairs signed. */
    method Login(email: string, password: string, issued: TokenPair) returns (r: Result<Session, AuthError>)
      modifies this
      ensures (r, State()) == Auth.Login(old(State()), passwordMatches, email, password, issued)
    {
      var user := UserByEmail(users, email);
      if user.None? {
        return Failure(NotFound);
      }
      if !passwordMatches(password, user.value.passwordHash) {
        return Failure(NotFound);
      }
      pairs := pairs[user.value.id := issued];
      return Success(Session(WithoutPassword(user.value), issued));
    }

    /** The loop over the user's used refresh tokens: 'Please relogin' when the presented one is among them. */
    method RejectIfUsed(records: seq<UsedToken>, refreshToken: string) returns (r: Result<(), AuthError>)
      ensures r.Failure? <==> exists i :: 0 <= i < |records| && records[i].refreshToken == refreshToken
      ensures r.Failure? ==> r.error == Forbidden(PLEASE_RELOGIN)
    {
      var i := 0;
      while i < |records|
        invariant 0 <= i <= |records|
        invariant forall j :: 0 <= j < i ==> records[j].refreshToken != refreshToken
      {
        if records[i].refreshToken == refreshToken {
          return Failure(Forbidden(PLEASE_RELOGIN));
        }
        i := i + 1;
      }
      return Success(());
    }

    /** refreshToken, with `issued` the new pair generateTokenPairs signed. */
    method RefreshToken(userId: string, accessToken: string, refreshToken: string, issued: TokenPair)
      returns (r: Result<TokenPair, AuthError>)
      modifies this
      ensures (r, State()) == Refresh(old(State()), verify, userId, accessToken, refreshToken, issued)
    {
      var accessUserId :- VerifyTokenTryCatch(verify(accessToken, AccessSecret));
      var currentUser :- GetUserByUserId(users, userId);
      if userId !in pairs || pairs[userId] != TokenPair(accessToken, refreshToken) {
        return Failure(Forbidden(FORBIDDEN));
      }
      var refreshUserId :- VerifyTokenTryCatch(verify(refreshToken, RefreshSecret));
      var records := UsedBy(used, userId);
      var unused :- RejectIfUsed(records, refreshToken);
      assert UsedToken(userId, refreshToken) in used <==> UsedToken(userId, refreshToken) in records;
      used := used + [UsedToken(currentUser.id, refreshToken)];
      pairs := pairs[currentUser.id := issued];
      return Success(issued);
    }

    /** validate: reads only. */
    method Validate(token: Option<string>, refreshToken: Option<string>) returns (r: Result<Profile, AuthError>)
      ensures r == Auth.Validate(State(), verify, token, refreshToken)
    {
      if !Truthy(refreshToken) || !Truthy(token) {
        return Failure(Forbidden(FORBIDDEN));
      }
      var decodedUserId :- VerifyTokenTryCatch(verify(token.value, AccessSecret));
      var pairFound := decodedUserId in pairs && pairs[decodedUserId] == TokenPair(token.value, refreshToken.value);
      var user :- GetUserByUserId(users, decodedUserId);
      if !pairFound {
        return Failure(Forbidden(FORBIDDEN));
      }
      return Success(user);
    }
  }
}
