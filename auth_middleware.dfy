/**
 * The authentication middleware: take the token from the `Authorization`
 * header (the second space-separated piece), verify it, look the user up
 * by the id in its claims, attach that user (without password) to the
 * request and pass the request on. Token verification and the user lookup
 * are foreign calls and appear as parameters.
 */
module AuthMiddleware {
  import opened Common
  import opened Text
  import opened UserModel
  import opened AuthController
  import opened RoleMiddleware

  const NoTokenMessage: string := "No token, authorization denied"
  const InvalidTokenMessage: string := "Token is not valid"

  /** What `User.findById(id).select('-password')` yields: a user, null, or a thrown error. */
  datatype Lookup = Found(user: UserView) | NotFound | LookupError

  /**
   * `req.headers.authorization?.split(" ")[1]`, kept only when it is
   * truthy: a missing header, a header without a space and an empty second
   * piece all give no token.
   */
  function BearerToken(header: Option<string>): (t: Option<string>)
    ensures t.Some? ==> t.value != "" && ' ' !in t.value
    ensures t.Some? ==> header.Some? && ' ' in header.value
  {
    match header
    case None => None
    case Some(h) =>
      var parts := Split(h, ' ');
      if |parts| >= 2 && parts[1] != "" then
        assert ' ' in h by {
          if ' ' !in h {
            SplitWithoutSeparator(h, ' ');
          }
        }
        Some(parts[1])
      else None
  }

  /** The token of `Bearer <token>`, whatever follows it after another space. */
  lemma BearerTokenOf(scheme: string, token: string, rest: Option<string>)
    requires ' ' !in scheme && ' ' !in token && token != ""
    ensures var header := scheme + " " + token + (if rest.Some? then " " + rest.value else "");
      BearerToken(Some(header)) == Some(token)
  {
    var tail := token + (if rest.Some? then " " + rest.value else "");
    assert scheme + " " + token + (if rest.Some? then " " + rest.value else "") == scheme + [' '] + tail;
    SplitAtFirst(scheme, tail, ' ');
    if rest.Some? {
      assert tail == token + [' '] + rest.value;
      SplitAtFirst(token, rest.value, ' ');
    } else {
      assert tail == token;
      SplitWithoutSeparator(token, ' ');
    }
  }

  /**
   * A header without a space (`"Bearer"` alone), one ending in its only
   * space (`"Bearer "`) and one with two spaces in a row carry no token.
   */
  lemma NoBearerToken(h: string, t: string)
    ensures ' ' !in h ==> BearerToken(Some(h)) == None
    ensures ' ' !in h ==> BearerToken(Some(h + " ")) == None
    ensures ' ' !in h ==> BearerToken(Some(h + "  " + t)) == None
  {
    if ' ' !in h {
      SplitWithoutSeparator(h, ' ');
      assert h + " " == h + [' '] + [];
      SplitAtFirst(h, [], ' ');
      assert h + "  " + t == h + [' '] + ([' '] + t);
      SplitAtFirst(h, [' '] + t, ' ');
      assert [' '] + t == [] + [' '] + t;
      SplitAtFirst([], t, ' ');
    }
  }

  /**
   * The middleware's decision: pass on exactly when there is a token, it
   * verifies and the lookup does not throw; every refusal is a 401, with
   * one message for a missing token and another for everything else.
   */
  function AuthDecision(header: Option<string>, verify: string -> Option<Claims>, find: UserId -> Lookup): (d: Decision)
    ensures d.Next? <==> BearerToken(header).Some? && verify(BearerToken(header).value).Some?
                         && !find(verify(BearerToken(header).value).value.id).LookupError?
    ensures d.Deny? ==> d.failure.status == 401
    ensures BearerToken(header).None? ==> d == Deny(Failure(401, NoTokenMessage))
    ensures BearerToken(header).Some? && d.Deny? ==> d == Deny(Failure(401, InvalidTokenMessage))
  {
    match BearerToken(header)
    case None => Deny(Failure(401, NoTokenMessage))
    case Some(token) =>
      match verify(token)
      case None => Deny(Failure(401, InvalidTokenMessage))
      case Some(claims) =>
        if find(claims.id).LookupError? then Deny(Failure(401, InvalidTokenMessage)) else Next
  }

  /** The value assigned to `req.user`: the user found, or null. */
  function Attached(lookup: Lookup): (u: Option<UserView>)
    ensures u.Some? <==> lookup.Found?
    ensures lookup.Found? ==> u.value == lookup.user
  {
    if lookup.Found? then Some(lookup.user) else None
  }

  /** The parts of a request the middlewares read and write. */
  class Request {
    const authorization: Option<string>
    var user: Option<UserView>

    constructor (authorization: Option<string>)
      ensures this.authorization == authorization && user.None?
    {
      this.authorization := authorization;
      user := None;
    }

    /** `authMiddleware(req, res, next)`. */
    method Authenticate(verify: string -> Option<Claims>, find: UserId -> Lookup) returns (d: Decision)
      modifies this
      ensures d == AuthDecision(authorization, verify, find)
      ensures d.Next? ==> user == Attached(find(verify(BearerToken(authorization).value).value.id))
      ensures d.Deny? ==> user == old(user)
    {
      var token := BearerToken(authorization);
      if token.None? {
        return Deny(Failure(401, NoTokenMessage));
      }
      var claims := verify(token.value);
      if claims.None? {
        return Deny(Failure(401, InvalidTokenMessage));
      }
      var found := find(claims.value.id);
      if found.LookupError? {
        return Deny(Failure(401, InvalidTokenMessage));
      }
      user := Attached(found);
      d := Next;
    }
  }

  /**
   * A verified token whose user no longer exists still passes the
   * middleware with a null user, which every role guard then refuses.
   */
  lemma MissingUserPassesThenDenied(header: Option<string>, verify: string -> Option<Claims>, find: UserId -> Lookup)
    requires BearerToken(header).Some? && verify(BearerToken(header).value).Some?
    requires find(verify(BearerToken(header).value).value.id).NotFound?
    ensures AuthDecision(header, verify, find).Next?
    ensures Attached(find(verify(BearerToken(header).value).value.id)).None?
    ensures var u := Attached(find(verify(BearerToken(header).value).value.id));
      IsAdmin(u).Deny? && IsSeller(u).Deny? && IsBuyer(u).Deny?
  {
  }

  /**
   * The role guards read the role of the stored user the lookup returns,
   * not the role the token claims: a token claiming `admin` for a user
   * stored as a buyer does not pass `isAdmin`.
   */
  lemma GuardsUseStoredRole(header: Option<string>, verify: string -> Option<Claims>, find: UserId -> Lookup, u: User)
    requires BearerToken(header).Some?
    requires verify(BearerToken(header).value) == Some(Claims(u.id, Admin))
    requires find(u.id) == Found(Redact(u))
    ensures AuthDecision(header, verify, find).Next?
    ensures IsAdmin(Attached(find(u.id))).Next? <==> u.role == Admin
  {
  }

  /**
   * The session a login returns authenticates its user: presenting its
   * token as `Bearer <token>` to a verifier that reads back what was signed
   * attaches that user, so the guard of the user's role passes.
   */
  lemma LoginTokenAuthenticates(users: seq<User>, username: string, password: string,
                                text: string, verify: string -> Option<Claims>, find: UserId -> Lookup)
    requires ValidTable(users)
    requires Login(users, username, password).Ok?
    requires ' ' !in text && text != ""
    requires verify(text) == Some(Login(users, username, password).value.token.claims)
    requires forall id :: FindById(users, id).Some? ==> find(id) == Found(Redact(FindById(users, id).value))
    ensures AuthDecision(Some("Bearer " + text), verify, find).Next?
    ensures var u := Attached(find(Login(users, username, password).value.user.id));
      u.Some? && u.value.username == username
      && RequireRole(u, Login(users, username, password).value.user.role, "").Next?
  {
    BearerTokenOf("Bearer", text, None);
    assert "Bearer" + " " + text + "" == "Bearer " + text;
    LoginSpec(users, username, password);
    var i :| 0 <= i < |users| && users[i].username == username && Compare(password, users[i].password);
    assert Login(users, username, password).value.user.id == i;
  }
}
