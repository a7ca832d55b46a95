/**
 * AuthGuard: reads the Authorization and x-client-id headers, verifies the access
 * token, checks that it was issued to the client id the request names, loads the
 * user and attaches it to the request without its password.
 */
module Guard {
  import opened Results
  import opened Auth

  // ---------------------------------------------------------------- String.prototype.split(' ')

  /** `s.split(' ')`: the pieces between single spaces; "" gives [""] and every space starts a new piece. */
  function Split(s: string): (parts: seq<string>)
    ensures |parts| >= 1
    decreases |s|
  {
    if |s| == 0 then [""]
    else
      var rest := Split(s[1..]);
      if s[0] == ' ' then [""] + rest else [[s[0]] + rest[0]] + rest[1..]
  }

  /** `parts.join(' ')`. */
  function Join(parts: seq<string>): string
    requires |parts| >= 1
    decreases |parts|
  {
    if |parts| == 1 then parts[0] else parts[0] + " " + Join(parts[1..])
  }

  predicate NoSpace(s: string) {
    forall i :: 0 <= i < |s| ==> s[i] != ' '
  }

  /** Splitting loses nothing: joining the pieces back with single spaces gives the header again. */
  lemma {:induction false} JoinSplit(s: string)
    ensures Join(Split(s)) == s
    decreases |s|
  {
    if |s| > 0 {
      var rest := Split(s[1..]);
      JoinSplit(s[1..]);
      if s[0] == ' ' {
        assert Split(s) == [""] + rest;
        assert Split(s)[1..] == rest;
        assert s == [s[0]] + s[1..];
      } else {
        var parts := Split(s);
        assert parts[0] == [s[0]] + rest[0] && parts[1..] == rest[1..];
        if |rest| == 1 {
          assert s == [s[0]] + rest[0];
        } else {
          assert Join(rest) == rest[0] + " " + Join(rest[1..]);
          assert s == [s[0]] + s[1..];
        }
      }
    }
  }

  /** No piece contains a space. */
  lemma {:induction false} SplitPiecesHaveNoSpace(s: string)
    ensures forall j :: 0 <= j < |Split(s)| ==> NoSpace(Split(s)[j])
    decreases |s|
  {
    if |s| > 0 {
      SplitPiecesHaveNoSpace(s[1..]);
      var rest := Split(s[1..]);
      if s[0] != ' ' {
        assert NoSpace(rest[0]);
        var first := [s[0]] + rest[0];
        assert forall i :: 0 < i < |first| ==> first[i] == rest[0][i - 1];
      }
    }
  }

  /** A string without spaces is one piece. */
  lemma {:induction false} SplitNoSpace(s: string)
    requires NoSpace(s)
    ensures Split(s) == [s]
    decreases |s|
  {
    if |s| > 0 {
      SplitNoSpace(s[1..]);
      assert s == [s[0]] + s[1..];
    }
  }

  /** A piece without spaces followed by a space: that piece, then the pieces of the rest. */
  lemma {:induction false} SplitAtSpace(a: string, b: string)
    requires NoSpace(a)
    ensures Split(a + " " + b) == [a] + Split(b)
    decreases |a|
  {
    if |a| == 0 {
      assert a + " " + b == [' '] + b;
      assert (a + " " + b)[1..] == b;
    } else {
      SplitAtSpace(a[1..], b);
      assert (a + " " + b)[1..] == a[1..] + " " + b;
      assert a == [a[0]] + a[1..];
    }
  }

  // ---------------------------------------------------------------- extractTokenFromHeader

  /** The two headers the guard reads; an absent header is `None`. */
  datatype Headers = Headers(authorization: Option<string>, clientId: Option<string>)

  datatype Credentials = Credentials(accessToken: Option<string>, userId: Option<string>)

  /**
   * extractTokenFromHeader: without an Authorization header both are absent;
   * otherwise the token is the second piece of the header split on ' ' (absent when
   * there is none) and the user id is the x-client-id header when it is truthy.
   */
  function ExtractTokenFromHeader(h: Headers): (c: Credentials)
    ensures !Truthy(h.authorization) ==> c == Credentials(None, None)
    ensures Truthy(h.authorization) ==> c.userId == (if Truthy(h.clientId) then h.clientId else None)
    ensures c.accessToken.Some? ==> NoSpace(c.accessToken.value)
  {
    if !Truthy(h.authorization) then Credentials(None, None)
    else
      var parts := Split(h.authorization.value);
      SplitPiecesHaveNoSpace(h.authorization.value);
      Credentials(if |parts| >= 2 then Some(parts[1]) else None,
                  if Truthy(h.clientId) then h.clientId else None)
  }

  /** `Bearer <token>`: the token is what follows the first space, when neither part has a space. */
  lemma BearerTokenExtracted(scheme: string, token: string, clientId: Option<string>)
    requires NoSpace(scheme) && NoSpace(token)
    ensures ExtractTokenFromHeader(Headers(Some(scheme + " " + token), clientId)).accessToken == Some(token)
  {
    SplitAtSpace(scheme, token);
    SplitNoSpace(token);
    assert |scheme + " " + token| > 0;
  }

  /** A header with no space at all carries no token. */
  lemma HeaderWithoutSpaceHasNoToken(header: string, clientId: Option<string>)
    requires NoSpace(header)
    ensures ExtractTokenFromHeader(Headers(Some(header), clientId)).accessToken.None?
  {
    SplitNoSpace(header);
  }

  // ---------------------------------------------------------------- canActivate

  datatype GuardError = Unauthorized

  /**
   * The guard's decision: the user to attach, or Unauthorized. Every failure inside
   * the try block (verification, id mismatch, missing user) is rethrown as
   * Unauthorized, like the missing-token check before it.
   */
  function Decide(h: Headers, verify: (string, Secret) -> Verification, users: map<string, User>)
    : (r: Result<Profile, GuardError>)
    ensures var c := ExtractTokenFromHeader(h);
      r.Success? <==> (Truthy(c.accessToken) && verify(c.accessToken.value, AccessSecret).Verified?
                       && c.userId == Some(verify(c.accessToken.value, AccessSecret).userId)
                       && verify(c.accessToken.value, AccessSecret).userId in users)
    ensures r.Success? ==> r.value == WithoutPassword(users[ExtractTokenFromHeader(h).userId.value])
  {
    var c := ExtractTokenFromHeader(h);
    if !Truthy(c.accessToken) then Failure(Unauthorized)
    else
      match verify(c.accessToken.value, AccessSecret)
      case Rejected(_) => Failure(Unauthorized)
      case Verified(payloadUserId) =>
        if c.userId != Some(payloadUserId) then Failure(Unauthorized)
        else
          match GetUserByUserId(users, payloadUserId)
          case Failure(_) => Failure(Unauthorized)
          case Success(user) => Success(user)
  }

  /** The incoming request: its headers, and the user the guard attaches to it. */
  class Request {
    const headers: Headers
    var user: Option<Profile>

    constructor (headers: Headers)
      ensures this.headers == headers && user.None?
    {
      this.headers := headers;
      user := None;
    }
  }

  class AuthGuard {
    /** `jwt.verify` with one of the two secrets. */
    const verify: (string, Secret) -> Verification

    constructor (verify: (string, Secret) -> Verification)
      ensures this.verify == verify
    {
      this.verify := verify;
    }

    /** canActivate: true with the user attached to the request, or Unauthorized with the request untouched. */
    method CanActivate(request: Request, users: map<string, User>) returns (r: Result<bool, GuardError>)
      modifies request
      ensures r.Success? <==> Decide(request.headers, verify, users).Success?
      ensures r.Success? ==> r.value && request.user == Some(Decide(request.headers, verify, users).value)
      ensures r.Failure? ==> r.error == Unauthorized && request.user == old(request.user)
    {
      var c := ExtractTokenFromHeader(request.headers);
      if !Truthy(c.accessToken) {
        return Failure(Unauthorized);
      }
      match verify(c.accessToken.value, AccessSecret)
      case Rejected(_) =>
        return Failure(Unauthorized);
      case Verified(payloadUserId) =>
        if c.userId != Some(payloadUserId) {
          return Failure(Unauthorized);
        }
        var existUser := GetUserByUserId(users, payloadUserId);
        if existUser.Failure? {
          return Failure(Unauthorized);
        }
        request.user := Some(existUser.value);
        return Success(true);
    }
  }

  // ---------------------------------------------------------------- what the guard admits

  /** Without an Authorization header the guard refuses, whatever else the request carries. */
  lemma MissingHeaderRejected(clientId: Option<string>, verify: (string, Secret) -> Verification,
                              users: map<string, User>)
    ensures Decide(Headers(None, clientId), verify, users) == Failure(Unauthorized)
  {
  }

  /**
   * The guard admits a request exactly when its token verifies to the user id the
   * x-client-id header names and that user exists; it attaches that user without
   * its password.
   */
  lemma AdmitsOnlyTheNamedUser(scheme: string, token: string, clientId: string,
                               verify: (string, Secret) -> Verification, users: map<string, User>)
    requires NoSpace(scheme) && NoSpace(token) && token != "" && clientId != ""
    ensures var r := Decide(Headers(Some(scheme + " " + token), Some(clientId)), verify, users);
      && (r.Success? <==> verify(token, AccessSecret) == Verified(clientId) && clientId in users)
      && (r.Success? ==> r.value == WithoutPassword(users[clientId]))
  {
    BearerTokenExtracted(scheme, token, Some(clientId));
  }
}
