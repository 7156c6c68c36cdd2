/**
 * `signup` and `login`. Signup runs a fixed chain of validators (age for
 * buyers, phone pattern, username pattern, username and email not taken),
 * answers the first failure with 400, and otherwise builds the user
 * document and saves it into the user collection. Login looks the
 * username up, compares the password against the stored digest and signs
 * a token over the user's id and role.
 *
 * The request body's text fields are taken as present strings; `age`,
 * `artStyle` and `role` may be absent.
 */
module AuthController {
  import opened Common
  import opened Text
  import opened UserModel

  datatype SignupBody = SignupBody(
    fullName: string,
    username: string,
    password: string,
    email: string,
    phoneNumber: string,
    address: string,
    artStyle: Option<string>,
    age: Option<string>,
    role: Option<string>)

  const AgeMessage: string := "Age must be between 18 and 50 to sign up"
  const PhoneMessage: string := "Phone number should start from 98 and should be 10 digit only"
  const UsernameMessage: string := "Username should be text only and should be unique for each user and no spaces or numners"
  const EmailMessage: string := "Email already exists"
  const SignupFailedMessage: string := "Signup failed"
  const RegisteredMessage: string := "User registered successfully"
  const InvalidCredentials: string := "Invalid credentials"

  // ---------------------------------------------------------------------
  // the validators

  /**
   * `parseInt(age)` is a number within 18..50. An absent age is converted
   * to the text `"undefined"`, which holds no digits and reads as NaN.
   */
  predicate AgeAccepted(age: Option<string>)
    ensures AgeAccepted(age) ==> age.Some?
  {
    UndefinedIsNaN();
    match ParseInt(age.GetOr("undefined"))
    case None => false
    case Some(v) => 18 <= v <= 50
  }

  /** `/^98\d{8}$/`. */
  predicate PhoneValid(phone: string)
    ensures PhoneValid(phone) <==> exists tail :: |tail| == 8 && AllDigits(tail) && phone == "98" + tail
  {
    assert |phone| == 10 && phone[0] == '9' && phone[1] == '8' ==> phone == "98" + phone[2..];
    |phone| == 10 && phone[0] == '9' && phone[1] == '8' && AllDigits(phone[2..])
  }

  /** `/^[a-zA-Z]+$/`. */
  predicate UsernameValid(username: string)
    ensures UsernameValid(username) ==> username != "" && forall c :: c in username ==> !IsDigit(c) && !IsJsSpace(c)
  {
    |username| >= 1 && forall i :: 0 <= i < |username| ==> IsAsciiLetter(username[i])
  }

  /** Everything the validation chain demands of a signup. */
  predicate SignupAcceptable(users: seq<User>, body: SignupBody) {
    && (body.role == Some("buyer") ==> AgeAccepted(body.age))
    && PhoneValid(body.phoneNumber)
    && UsernameValid(body.username)
    && (forall i :: 0 <= i < |users| ==> users[i].username != body.username)
    && (forall i :: 0 <= i < |users| ==> users[i].email != body.email)
  }

  /**
   * The validation chain in its order: the first failing check, or `None`
   * when the request gets past all of them.
   */
  function CheckSignup(users: seq<User>, body: SignupBody): (r: Option<Failure>)
    ensures r.None? <==> SignupAcceptable(users, body)
    ensures r.Some? ==> r.value.status == 400
  {
    if body.role == Some("buyer") && !AgeAccepted(body.age) then Some(Failure(400, AgeMessage))
    else if !PhoneValid(body.phoneNumber) then Some(Failure(400, PhoneMessage))
    else if !UsernameValid(body.username) then Some(Failure(400, UsernameMessage))
    else if FindByUsername(users, body.username).Some? then Some(Failure(400, UsernameMessage))
    else if FindByEmail(users, body.email).Some? then Some(Failure(400, EmailMessage))
    else None
  }

  // ---------------------------------------------------------------------
  // the insert

  /**
   * `new User({...})` as validated by `save()`: `None` when the role is
   * outside the enum. The password is stored hashed, `artStyle` only for a
   * seller, and the buyer's `age` is dropped because the schema has no
   * such path.
   */
  function NewUser(body: SignupBody): (r: Option<User>)
    ensures r.Some? <==> CastRole(body.role).Some?
    ensures r.Some? ==> r.value.password == Hash(body.password) && r.value.role == CastRole(body.role).value
    ensures r.Some? && r.value.artStyle.Some? ==> r.value.role == Seller
  {
    match CastRole(body.role)
    case None => None
    case Some(role) =>
      Some(User(0, body.fullName, body.username, body.email, Hash(body.password),
                body.phoneNumber, body.address,
                if body.role == Some("seller") then body.artStyle else None,
                role))
  }

  /** The response of `signup` and the user table after it. */
  datatype SignupOutcome = SignupOutcome(reply: Reply<string>, users: seq<User>)

  function SignupResult(users: seq<User>, body: SignupBody): (r: SignupOutcome)
    ensures r.reply.Fail? ==> r.users == users
    ensures r.reply.Ok? ==>
      |r.users| == |users| + 1 && r.users[..|users|] == users
      && r.users[|users|].username == body.username && r.users[|users|].password == Hash(body.password)
  {
    match CheckSignup(users, body)
    case Some(f) => SignupOutcome(Fail(f), users)
    case None =>
      match NewUser(body)
      case None => SignupOutcome(Fail(Failure(500, SignupFailedMessage)), users)
      case Some(u) =>
        match Saved(users, u)
        case None => SignupOutcome(Fail(Failure(500, SignupFailedMessage)), users)
        case Some(t) => SignupOutcome(Ok(201, RegisteredMessage), t)
  }

  /** `signup` against the user collection. */
  method Signup(store: UserCollection, body: SignupBody) returns (reply: Reply<string>)
    requires store.Valid()
    modifies store
    ensures store.Valid()
    ensures reply == SignupResult(old(store.users), body).reply
    ensures store.users == SignupResult(old(store.users), body).users
  {
    var failure := CheckSignup(store.users, body);
    if failure.Some? {
      return Fail(failure.value);
    }
    var doc := NewUser(body);
    if doc.None? {
      return Fail(Failure(500, SignupFailedMessage));
    }
    var saved := store.Save(doc.value);
    reply := if saved.Some? then Ok(201, RegisteredMessage) else Fail(Failure(500, SignupFailedMessage));
  }

  // ---------------------------------------------------------------------
  // properties of signup

  /**
   * The checks run in the order age, phone, username pattern, username
   * taken, email taken, and the first one that fails decides the answer;
   * a taken username gets the same message as a malformed one.
   */
  lemma SignupCheckOrder(users: seq<User>, body: SignupBody)
    ensures (body.role == Some("buyer") && !AgeAccepted(body.age))
            ==> SignupResult(users, body).reply == Fail(Failure(400, AgeMessage))
    ensures ((body.role == Some("buyer") ==> AgeAccepted(body.age)) && !PhoneValid(body.phoneNumber))
            ==> SignupResult(users, body).reply == Fail(Failure(400, PhoneMessage))
    ensures ((body.role == Some("buyer") ==> AgeAccepted(body.age)) && PhoneValid(body.phoneNumber)
             && !UsernameValid(body.username))
            ==> SignupResult(users, body).reply == Fail(Failure(400, UsernameMessage))
    ensures ((body.role == Some("buyer") ==> AgeAccepted(body.age)) && PhoneValid(body.phoneNumber)
             && UsernameValid(body.username)
             && exists i :: 0 <= i < |users| && users[i].username == body.username)
            ==> SignupResult(users, body).reply == Fail(Failure(400, UsernameMessage))
    ensures ((body.role == Some("buyer") ==> AgeAccepted(body.age)) && PhoneValid(body.phoneNumber)
             && UsernameValid(body.username)
             && (forall i :: 0 <= i < |users| ==> users[i].username != body.username)
             && exists i :: 0 <= i < |users| && users[i].email == body.email)
            ==> SignupResult(users, body).reply == Fail(Failure(400, EmailMessage))
  {
  }

  /**
   * Signup succeeds exactly when every check passes and the role is one of
   * the enum's (or absent); it then appends exactly one user, under the
   * next id, holding the hashed password, the cast role and an `artStyle`
   * only for a seller. Any failure leaves the table as it was.
   */
  lemma SignupEffect(users: seq<User>, body: SignupBody)
    ensures SignupResult(users, body).reply.Ok?
        <==> SignupAcceptable(users, body) && CastRole(body.role).Some?
    ensures SignupResult(users, body).reply.Fail? ==> SignupResult(users, body).users == users
    ensures SignupResult(users, body).reply.Ok? ==>
      var role := CastRole(body.role).value;
      && SignupResult(users, body).reply.status == 201
      && SignupResult(users, body).users == users + [User(|users|, body.fullName, body.username, body.email,
           Hash(body.password), body.phoneNumber, body.address,
           if role == Seller then body.artStyle else None, role)]
  {
    if SignupAcceptable(users, body) && CastRole(body.role).Some? {
      var u := NewUser(body).value;
      if Clashes(users, u) {
        var i :| 0 <= i < |users| && (users[i].username == u.username || users[i].email == u.email);
        assert false;
      }
    }
  }

  /** Signup keeps the user table's ids and unique indexes. */
  lemma SignupKeepsTableValid(users: seq<User>, body: SignupBody)
    requires ValidTable(users)
    ensures ValidTable(SignupResult(users, body).users)
  {
    if CheckSignup(users, body).None? && NewUser(body).Some? && Saved(users, NewUser(body).value).Some? {
      SavedValid(users, NewUser(body).value);
    }
  }

  /**
   * An absent role is stored as `buyer` but skips the age check, which
   * only an explicit `"buyer"` triggers.
   */
  lemma AbsentRoleSkipsAgeCheck(users: seq<User>, body: SignupBody)
    requires body.role.None?
    ensures SignupResult(users, body).reply.Ok?
        <==> SignupAcceptable(users, body.(age := None))
    ensures SignupResult(users, body).reply.Ok? ==> SignupResult(users, body).users[|users|].role == Buyer
  {
    SignupEffect(users, body);
  }

  /**
   * The age check reads the leading numeral of the text: a numeral in
   * 18..50 followed by anything that is not a digit is accepted.
   */
  lemma AgeAcceptedDecimal(n: nat, rest: string)
    requires |rest| == 0 || (!IsDigit(rest[0]) && (n == 0 ==> rest[0] != 'x' && rest[0] != 'X'))
    ensures AgeAccepted(Some(Decimal(n) + rest)) <==> 18 <= n <= 50
  {
    ParseIntDecimal(n, rest);
  }

  /** `"25x"` counts as 25. */
  lemma AgeTrailingText()
    ensures AgeAccepted(Some("25x"))
  {
    assert Decimal(25) == "25" by {
      assert Decimal(2) == "2";
    }
    AgeAcceptedDecimal(25, "x");
    assert "25" + "x" == "25x";
  }

  /** Both ends of the range are included. */
  lemma AgeBounds()
    ensures !AgeAccepted(Some("17")) && AgeAccepted(Some("18"))
    ensures AgeAccepted(Some("50")) && !AgeAccepted(Some("51"))
  {
    assert Decimal(17) == "17" && Decimal(18) == "18" by { assert Decimal(1) == "1"; }
    assert Decimal(50) == "50" && Decimal(51) == "51" by { assert Decimal(5) == "5"; }
    AgeAcceptedDecimal(17, "");
    AgeAcceptedDecimal(18, "");
    AgeAcceptedDecimal(50, "");
    AgeAcceptedDecimal(51, "");
    assert "17" + "" == "17" && "18" + "" == "18";
    assert "50" + "" == "50" && "51" + "" == "51";
  }

  /** `parseInt("undefined")` is NaN. */
  lemma UndefinedIsNaN()
    ensures ParseInt("undefined").None?
  {
    var t := "undefined";
    assert TrimStart(t) == t;
    assert !(|t| >= 2 && t[0] == '0');
    assert DigitPrefix(t, false) == "";
  }

  /** The hexadecimal digits `19` read as 25. */
  lemma HexNineteen()
    ensures DigitPrefix("19", true) == "19"
    ensures RadixValue("19", true) == 25
  {
    assert DigitPrefix("", true) == "";
    assert "9"[1..] == "";
    assert DigitPrefix("9", true) == "9";
    assert "19"[1..] == "9";
    assert DigitPrefix("19", true) == ['1'] + "9";
    assert "1"[..0] == "";
    assert RadixValue("1", true) == 1;
    assert "19"[..1] == "1";
  }

  /** After the `0x` prefix the digits are read in radix 16. */
  lemma HexPrefixRead()
    ensures ParseUnsigned("0x19") == Some(25)
  {
    var u := "0x19";
    assert u[2..] == "19";
    HexNineteen();
  }

  /** `parseInt` without a radix reads a `0x` prefix as hexadecimal: `"0x19"` is 25. */
  lemma AgeHexadecimal()
    ensures AgeAccepted(Some("0x19"))
  {
    var t := "0x19";
    assert !IsJsSpace(t[0]);
    assert TrimStart(t) == t;
    HexPrefixRead();
    assert ParseInt(t) == Some(25);
  }

  /** The phone pattern: `98` and eight more digits, ten characters in all. */
  lemma PhoneValidSpec(phone: string)
    ensures PhoneValid(phone) <==> exists tail :: |tail| == 8 && AllDigits(tail) && phone == "98" + tail
    ensures PhoneValid("9812345678") && !PhoneValid("981234567") && !PhoneValid("9712345678")
  {
    if PhoneValid(phone) {
      assert phone == "98" + phone[2..];
    }
    assert "9812345678"[2..] == "12345678";
  }

  // ---------------------------------------------------------------------
  // login

  /** The payload `jwt.sign` signs. */
  datatype Claims = Claims(id: UserId, role: Role)

  /** A signed token; signing and its expiry are foreign and not modelled. */
  datatype Token = Token(claims: Claims)

  /** The `user` object of a login response: no password, only these four fields. */
  datatype Profile = Profile(id: UserId, username: string, fullName: string, role: Role)

  datatype Session = Session(token: Token, user: Profile)

  /**
   * `login`: an unknown username and a wrong password both give the same
   * 400 `Invalid credentials`.
   */
  function Login(users: seq<User>, username: string, password: string): (r: Reply<Session>)
    ensures r.Fail? ==> r.failure == Failure(400, InvalidCredentials)
    ensures r.Ok? ==> r.status == 200 && r.value.token.claims == Claims(r.value.user.id, r.value.user.role)
  {
    match FindByUsername(users, username)
    case None => Fail(Failure(400, InvalidCredentials))
    case Some(u) =>
      if !Compare(password, u.password) then Fail(Failure(400, InvalidCredentials))
      else Ok(200, Session(Token(Claims(u.id, u.role)), Profile(u.id, u.username, u.fullName, u.role)))
  }

  /**
   * In a table with unique usernames, login succeeds exactly when the
   * named user exists and the password matches the stored digest, and the
   * session then describes that user.
   */
  lemma LoginSpec(users: seq<User>, username: string, password: string)
    requires ValidTable(users)
    ensures Login(users, username, password).Ok?
        <==> exists i :: 0 <= i < |users| && users[i].username == username && Compare(password, users[i].password)
    ensures forall i :: 0 <= i < |users| && users[i].username == username && Compare(password, users[i].password) ==>
      Login(users, username, password)
        == Ok(200, Session(Token(Claims(i, users[i].role)), Profile(i, username, users[i].fullName, users[i].role)))
  {
    var found := FindByUsername(users, username);
    if found.Some? {
      var k :| 0 <= k < |users| && users[k] == found.value;
      forall i | 0 <= i < |users| && users[i].username == username ensures i == k {
        UsernameNamesOne(users, i, k);
      }
    }
  }

  /** A user who just signed up can log in with the same username and password. */
  lemma SignupThenLogin(users: seq<User>, body: SignupBody)
    requires SignupResult(users, body).reply.Ok?
    ensures var role := CastRole(body.role).value;
      Login(SignupResult(users, body).users, body.username, body.password)
        == Ok(200, Session(Token(Claims(|users|, role)), Profile(|users|, body.username, body.fullName, role)))
  {
    SignupEffect(users, body);
    var after := SignupResult(users, body).users;
    var found := FindByUsername(after, body.username);
    assert after[|users|].username == body.username;
    var k :| 0 <= k < |after| && after[k] == found.value;
    assert k == |users|;
    CompareHash(body.password, body.password);
  }
}
