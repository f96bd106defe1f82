/** The user records the controllers store, and the two foreign services
    they lean on: bcrypt (an ideal salted hash) and JSON Web Tokens (an
    oracle that verifies a token). */
module Identity {
  import opened Api

  /** A user's `_id`. The user store hands ids out in insertion order. */
  type UserId = nat

  /** A bcrypt digest. The model treats bcrypt as an ideal hash: a digest
      records the salt and the password it was made from, so that `Compare`
      can be stated; it is a different type from a plain password, so a
      stored password can never be a plaintext string. */
  datatype Digest = Bcrypt(salt: nat, source: string)

  /** `bcrypt.hash(plain, 10)`; the salt is bcrypt's randomness. */
  function Hash(plain: string, salt: nat): Digest {
    Bcrypt(salt, plain)
  }

  /** `bcrypt.compare(plain, digest)`. */
  predicate Compare(plain: string, d: Digest) {
    d.source == plain
  }

  /** A compare succeeds exactly for the password that was hashed, whatever the salt. */
  lemma CompareHash(plain: string, other: string, salt: nat)
    ensures Compare(other, Hash(plain, salt)) <==> other == plain
  {
  }

  datatype Purpose = Access | Refresh

  /** A signed token as `jwt.sign({ sub: user._id }, secret, { expiresIn })`
      issues it: the subject, which of the two secrets signed it, and when. */
  datatype Jwt = Jwt(sub: UserId, purpose: Purpose, issuedAt: int)

  /** A user record as the user controller writes it. */
  datatype User = User(
    id: UserId,
    username: string,
    email: string,
    password: Digest,
    refreshToken: Option<Jwt>)

  /** A user looked up with `.select("-password")`. */
  datatype Principal = Principal(id: UserId, username: string, email: string, refreshToken: Option<Jwt>)

  /** The `{ id, username, email }` view the controllers send back. */
  datatype Profile = Profile(id: UserId, username: string, email: string)

  function WithoutPassword(u: User): Principal {
    Principal(u.id, u.username, u.email, u.refreshToken)
  }

  function ProfileOf(u: User): Profile {
    Profile(u.id, u.username, u.email)
  }

  /** What `jwt.verify(token, secret)` does: return the subject of a valid
      token, or throw `TokenExpiredError`, or throw any other error. */
  datatype Verdict = Verified(sub: UserId) | Expired | Rejected

  /** `User.findById(id)`: the user whose id is `id`, if any. */
  function FindById(users: seq<User>, id: UserId): (r: Option<User>)
    ensures r.Some? ==> r.value in users && r.value.id == id
    ensures r.None? ==> forall u :: u in users ==> u.id != id
  {
    if |users| == 0 then None
    else if users[0].id == id then Some(users[0])
    else FindById(users[1..], id)
  }

  /** In a store whose ids are consecutive from `base`, looking a user up by
      id is indexing. */
  lemma {:induction false} FindByIdAtPosition(users: seq<User>, id: UserId, base: nat)
    requires forall i :: 0 <= i < |users| ==> users[i].id == base + i
    ensures FindById(users, id) == if base <= id < base + |users| then Some(users[id - base]) else None
  {
    if |users| > 0 {
      FindByIdAtPosition(users[1..], id, base + 1);
    }
  }

  /** The common core of both authentication gates: verify the token, then
      look its subject up. */
  datatype Resolution = Resolved(user: Principal) | NoSuchUser | TokenExpired | TokenRejected

  /** `jwt.verify` as the library runs it: an empty token is refused before
      any signature is looked at ("jwt must be provided"), and any other
      token is left to `verify`. */
  function JwtVerify(verify: string -> Verdict, token: string): (v: Verdict)
    ensures token == "" ==> v.Rejected?
    ensures token != "" ==> v == verify(token)
  {
    if token == "" then Rejected else verify(token)
  }

  function Resolve(token: string, verify: string -> Verdict, users: seq<User>): (r: Resolution)
    ensures r.Resolved? <==> JwtVerify(verify, token).Verified? && FindById(users, JwtVerify(verify, token).sub).Some?
    ensures r.Resolved? ==> r.user.id == JwtVerify(verify, token).sub
    ensures r.Resolved? ==> exists u :: u in users && r.user == WithoutPassword(u)
    ensures r.TokenExpired? <==> JwtVerify(verify, token).Expired?
    ensures r.TokenRejected? <==> JwtVerify(verify, token).Rejected?
    ensures token == "" ==> r == TokenRejected
  {
    match JwtVerify(verify, token)
    case Expired => TokenExpired
    case Rejected => TokenRejected
    case Verified(sub) =>
      match FindById(users, sub)
      case None => NoSuchUser
      case Some(u) => Resolved(WithoutPassword(u))
  }
}
