/**
 * The User collection: the record the schema declares, the role enum and
 * its default, the two unique indexes (username, email), and the table
 * that `save()` appends to.
 *
 * Passwords are stored as bcrypt digests. Hashing is modelled
 * symbolically: a digest remembers the 72 key bytes bcrypt reads from the
 * password, so `compare(p, hash(q))` holds exactly when `p` and `q` have the
 * same key bytes; salts, the cost factor and the cipher are not modelled.
 */
module UserModel {
  import opened Common

  datatype Role = Buyer | Seller | Admin

  /** The enum's spelling of each role. */
  function RoleName(r: Role): string {
    match r
    case Buyer => "buyer"
    case Seller => "seller"
    case Admin => "admin"
  }

  /**
   * How the schema casts a `role` value: an absent value takes the default
   * `buyer`, one of the three enum names is that role, and any other text
   * fails validation (`None`), which makes `save()` reject the document.
   */
  function CastRole(v: Option<string>): (r: Option<Role>)
    ensures v.None? ==> r == Some(Buyer)
    ensures v.Some? ==> (r.Some? <==> (v.value == "buyer" || v.value == "seller" || v.value == "admin"))
    ensures v.Some? && r.Some? ==> RoleName(r.value) == v.value
  {
    match v
    case None => Some(Buyer)
    case Some(name) =>
      if name == "buyer" then Some(Buyer)
      else if name == "seller" then Some(Seller)
      else if name == "admin" then Some(Admin)
      else None
  }

  /** Each role has its own name, and casting a role's name gives it back. */
  lemma CastRoleName(r: Role)
    ensures CastRole(Some(RoleName(r))) == Some(r)
    ensures forall q: Role :: RoleName(q) == RoleName(r) ==> q == r
  {
  }

  // ---------------------------------------------------------------------
  // bcrypt

  type Byte = b: int | 0 <= b < 256

  /** The UTF-8 encoding of one Unicode scalar value. */
  function Utf8Char(c: char): (r: seq<Byte>)
    ensures 1 <= |r| <= 4
    ensures r[0] == 0 <==> c == '\0'
  {
    var n := c as int;
    var n1 := n / 0x40;
    var n2 := n1 / 0x40;
    var n3 := n2 / 0x40;
    if n < 0x80 then [n]
    else if n < 0x800 then [0xC0 + n1, 0x80 + n % 0x40]
    else if n < 0x1_0000 then [0xE0 + n2, 0x80 + n1 % 0x40, 0x80 + n % 0x40]
    else [0xF0 + n3, 0x80 + n2 % 0x40, 0x80 + n1 % 0x40, 0x80 + n % 0x40]
  }

  /** How many bytes a UTF-8 sequence whose first byte is `lead` takes. */
  function SequenceLength(lead: Byte): nat {
    if lead < 0x80 then 1 else if lead < 0xE0 then 2 else if lead < 0xF0 then 3 else 4
  }

  /** Appends the six payload bits of a continuation byte. */
  function Continuation(acc: int, b: Byte): int { acc * 0x40 + (b as int - 0x80) }

  /** The code point a complete UTF-8 sequence stands for. */
  function DecodeSequence(b: seq<Byte>): int
    requires 1 <= |b| <= 4
  {
    if |b| == 1 then b[0]
    else if |b| == 2 then Continuation(b[0] as int - 0xC0, b[1])
    else if |b| == 3 then Continuation(Continuation(b[0] as int - 0xE0, b[1]), b[2])
    else Continuation(Continuation(Continuation(b[0] as int - 0xF0, b[1]), b[2]), b[3])
  }

  /** The first byte of a character's encoding gives its length, and the bytes give the character back. */
  lemma Utf8CharDecodes(c: char)
    ensures SequenceLength(Utf8Char(c)[0]) == |Utf8Char(c)|
    ensures DecodeSequence(Utf8Char(c)) == c as int
  {
    var n := c as int;
    var n1 := n / 0x40;
    var n2 := n1 / 0x40;
    var n3 := n2 / 0x40;
    assert n == n1 * 0x40 + n % 0x40;
    assert n1 == n2 * 0x40 + n1 % 0x40;
    assert n2 == n3 * 0x40 + n2 % 0x40;
  }

  /** The UTF-8 bytes of a string, which is how bcrypt reads a password. */
  function Utf8(s: string): (r: seq<Byte>)
    ensures |r| >= |s|
    ensures 0 in r <==> '\0' in s
  {
    if |s| == 0 then [] else Utf8Char(s[0]) + Utf8(s[1..])
  }

  /** Distinct strings have distinct encodings. */
  lemma {:induction false} Utf8Injective(p: string, q: string)
    requires Utf8(p) == Utf8(q)
    ensures p == q
  {
    if |p| > 0 {
      var e, f := Utf8Char(p[0]), Utf8Char(q[0]);
      Utf8CharDecodes(p[0]);
      Utf8CharDecodes(q[0]);
      assert Utf8(p)[0] == e[0] && Utf8(q)[0] == f[0];
      assert e == Utf8(p)[..|e|] && f == Utf8(q)[..|f|];
      assert Utf8(p)[|e|..] == Utf8(p[1..]);
      assert Utf8(q)[|f|..] == Utf8(q[1..]);
      Utf8Injective(p[1..], q[1..]);
      assert p == [p[0]] + p[1..];
      assert q == [q[0]] + q[1..];
    }
  }

  /** How many key bytes the Blowfish key schedule consumes (18 words of 32 bits). */
  const KeyScheduleBytes := 72

  /**
   * The bytes bcrypt's key schedule reads from a password: the UTF-8
   * encoding followed by a zero byte, repeated cyclically, and cut at 72
   * bytes. Only these bytes enter the digest.
   */
  function BcryptKey(password: string): (k: seq<Byte>)
    ensures |k| == KeyScheduleBytes
    ensures |Utf8(password)| >= KeyScheduleBytes ==> k == Utf8(password)[..KeyScheduleBytes]
    ensures |Utf8(password)| < KeyScheduleBytes ==>
      k[..|Utf8(password)|] == Utf8(password) && k[|Utf8(password)|] == 0
  {
    var u := Utf8(password);
    var k := Cycle(u + [0], KeyScheduleBytes);
    assert |u| < KeyScheduleBytes ==> k[..|u|] == (u + [0])[..|u|];
    k
  }

  /** The first `n` bytes of `key` repeated without end. */
  function Cycle(key: seq<Byte>, n: nat): (r: seq<Byte>)
    requires |key| > 0
    ensures |r| == n
    ensures n <= |key| ==> r == key[..n]
    ensures n > |key| ==> r[..|key|] == key
  {
    if n <= |key| then key[..n] else key + Cycle(key, n - |key|)
  }

  /** A bcrypt digest; only the key bytes of the password are kept. */
  datatype Digest = Digest(key: seq<Byte>)

  /** `bcrypt.hash(password, 10)`. */
  function Hash(password: string): Digest {
    Digest(BcryptKey(password))
  }

  /** `bcrypt.compare(password, digest)`. */
  predicate Compare(password: string, digest: Digest) {
    digest == Hash(password)
  }

  /** A digest accepts the password it was made from, and exactly the passwords with the same key bytes. */
  lemma CompareHash(p: string, q: string)
    ensures Compare(p, Hash(p))
    ensures Compare(q, Hash(p)) <==> BcryptKey(q) == BcryptKey(p)
    ensures |Utf8(p)| >= KeyScheduleBytes && |Utf8(q)| >= KeyScheduleBytes ==>
      (Compare(q, Hash(p)) <==> Utf8(q)[..KeyScheduleBytes] == Utf8(p)[..KeyScheduleBytes])
  {
  }

  /**
   * For passwords shorter than 72 bytes that contain no NUL character, the
   * digest accepts only the password it was made from.
   */
  lemma CompareShortPassword(p: string, q: string)
    requires '\0' !in p && '\0' !in q
    requires |Utf8(p)| < KeyScheduleBytes && |Utf8(q)| < KeyScheduleBytes
    ensures Compare(q, Hash(p)) <==> q == p
  {
    if Compare(q, Hash(p)) {
      var k, a, b := BcryptKey(p), Utf8(p), Utf8(q);
      assert BcryptKey(q) == k;
      assert a == k[..|a|] == b;
      Utf8Injective(p, q);
    }
  }

  /**
   * Passwords whose encodings agree on their first 72 bytes are accepted
   * interchangeably: a 72-letter password followed by anything.
   */
  lemma LongPasswordsCollide(p: string, x: char, y: char)
    requires |Utf8(p)| == KeyScheduleBytes && x != y
    ensures p + [x] != p + [y]
    ensures Compare(p + [y], Hash(p + [x]))
  {
    Utf8Append(p, [x]);
    Utf8Append(p, [y]);
    assert (p + [x])[..|p|] == p;
  }

  lemma {:induction false} Utf8Append(s: string, t: string)
    ensures Utf8(s + t) == Utf8(s) + Utf8(t)
  {
    if |s| > 0 {
      assert (s + t)[1..] == s[1..] + t;
      Utf8Append(s[1..], t);
    } else {
      assert s + t == t;
    }
  }

  /**
   * A stored user. `artStyle` is present only when the signup supplied it
   * for a seller. The schema declares no `age` path, so an `age` passed to
   * the constructor is dropped by Mongoose's strict mode and never stored.
   */
  datatype User = User(
    id: UserId,
    fullName: string,
    username: string,
    email: string,
    password: Digest,
    phoneNumber: string,
    address: string,
    artStyle: Option<string>,
    role: Role)

  /** A user as `.select('-password')` returns it. */
  datatype UserView = UserView(
    id: UserId,
    fullName: string,
    username: string,
    email: string,
    phoneNumber: string,
    address: string,
    artStyle: Option<string>,
    role: Role)

  function Redact(u: User): (v: UserView)
    ensures v.id == u.id && v.username == u.username && v.role == u.role
  {
    UserView(u.id, u.fullName, u.username, u.email, u.phoneNumber, u.address, u.artStyle, u.role)
  }

  /** Document ids: the i-th stored user has id i (users are never deleted). */
  predicate Indexed(users: seq<User>) {
    forall i :: 0 <= i < |users| ==> users[i].id == i
  }

  /** The two unique indexes of the schema. */
  predicate UniqueKeys(users: seq<User>) {
    forall i, j :: 0 <= i < j < |users| ==>
      users[i].username != users[j].username && users[i].email != users[j].email
  }

  predicate ValidTable(users: seq<User>) {
    Indexed(users) && UniqueKeys(users)
  }

  /** `User.findOne({ username })`. */
  function FindByUsername(users: seq<User>, username: string): (r: Option<User>)
    ensures r.Some? ==> r.value in users && r.value.username == username
    ensures r.None? <==> forall i :: 0 <= i < |users| ==> users[i].username != username
  {
    if |users| == 0 then None
    else if users[0].username == username then Some(users[0])
    else FindByUsername(users[1..], username)
  }

  /** `User.findOne({ email })`. */
  function FindByEmail(users: seq<User>, email: string): (r: Option<User>)
    ensures r.Some? ==> r.value in users && r.value.email == email
    ensures r.None? <==> forall i :: 0 <= i < |users| ==> users[i].email != email
  {
    if |users| == 0 then None
    else if users[0].email == email then Some(users[0])
    else FindByEmail(users[1..], email)
  }

  /** `User.findById(id)`. */
  function FindById(users: seq<User>, id: UserId): (r: Option<User>)
    requires Indexed(users)
    ensures r.Some? <==> id < |users|
    ensures r.Some? ==> r.value == users[id]
  {
    if id < |users| then Some(users[id]) else None
  }

  /** A document that would violate one of the unique indexes. */
  predicate Clashes(users: seq<User>, u: User) {
    exists i :: 0 <= i < |users| && (users[i].username == u.username || users[i].email == u.email)
  }

  /**
   * The table after `save()` of a new document: `None` is the duplicate
   * key error; otherwise the document is appended under a fresh id.
   */
  function Saved(users: seq<User>, u: User): (r: Option<seq<User>>)
    ensures r.Some? <==> !Clashes(users, u)
    ensures r.Some? ==> r.value == users + [u.(id := |users|)]
  {
    if Clashes(users, u) then None else Some(users + [u.(id := |users|)])
  }

  /** Saving keeps the table's ids and unique indexes intact. */
  lemma SavedValid(users: seq<User>, u: User)
    requires ValidTable(users)
    requires Saved(users, u).Some?
    ensures ValidTable(Saved(users, u).value)
  {
    var t := Saved(users, u).value;
    forall i, j | 0 <= i < j < |t|
      ensures t[i].username != t[j].username && t[i].email != t[j].email
    {
      if j == |users| {
        assert !(users[i].username == u.username || users[i].email == u.email);
      }
    }
  }

  /** In a valid table a username names at most one user. */
  lemma UsernameNamesOne(users: seq<User>, i: int, j: int)
    requires ValidTable(users)
    requires 0 <= i < |users| && 0 <= j < |users|
    requires users[i].username == users[j].username
    ensures i == j
  {
  }

  /** The user collection, updated in place by `save()`. */
  class UserCollection {
    var users: seq<User>

    ghost predicate Valid()
      reads this
    {
      ValidTable(users)
    }

    constructor ()
      ensures Valid() && users == []
    {
      users := [];
    }

    /** `new User(u).save()`: the stored document, or `None` on a duplicate key. */
    method Save(u: User) returns (saved: Option<User>)
      requires Valid()
      modifies this
      ensures Valid()
      ensures saved.Some? <==> !Clashes(old(users), u)
      ensures saved.Some? ==> saved.value == u.(id := |old(users)|)
      ensures Saved(old(users), u).Some? ==> users == Saved(old(users), u).value
      ensures Saved(old(users), u).None? ==> users == old(users)
    {
      var next := Saved(users, u);
      if next.Some? {
        SavedValid(users, u);
        saved := Some(u.(id := |users|));
        users := next.value;
      } else {
        saved := None;
      }
    }
  }
}
