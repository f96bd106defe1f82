/** The `protect` middleware: read a bearer token from the `Authorization`
    header, verify it, and attach the user it names to the request. */
module AuthMiddleware {
  import opened Api
  import opened JsText
  import opened Identity

  const Bearer := "Bearer "

  /** `authHeader.split(" ")[1]` for a header that starts with "Bearer ": the
      text after "Bearer " up to the next space or the end. */
  function TokenOf(header: string): (token: string)
    requires StartsWith(header, Bearer)
    ensures ' ' !in token
    ensures StartsWith(header[|Bearer|..], token)
    ensures |Bearer| + |token| == |header| || header[|Bearer| + |token|] == ' '
  {
    var rest := header[|Bearer|..];
    assert header == "Bearer" + [' '] + rest;
    SplitAfterPiece("Bearer", rest, ' ');
    SplitFirstPiece(rest, ' ');
    Split(header, ' ')[1]
  }

  /** A second space ends the token: "Bearer a b" carries the token "a". */
  lemma TokenStopsAtSpace()
    ensures TokenOf("Bearer a b") == "a"
  {
    assert "Bearer a b" == "Bearer" + [' '] + "a b";
    assert "a b" == "a" + [' '] + "b";
    SplitAfterPiece("Bearer", "a b", ' ');
    SplitAfterPiece("a", "b", ' ');
  }

  /** What `protect` decides. */
  datatype Outcome =
    | NoToken
    | UserNotFound
    | ExpiredToken
    | InvalidToken
    | Admitted(user: Principal)

  /** A header that carries a bearer token at all. */
  predicate HasBearer(header: Option<string>) {
    Truthy(header) && StartsWith(header.value, Bearer)
  }

  /** `protect`; `verify` stands for `jwt.verify` with the access secret and
      `users` for the user collection. */
  function Protect(header: Option<string>, verify: string -> Verdict, users: seq<User>): (o: Outcome)
    ensures o.NoToken? <==> !HasBearer(header)
    ensures HasBearer(header) ==> (
      var v := JwtVerify(verify, TokenOf(header.value));
      && (o.ExpiredToken? <==> v.Expired?)
      && (o.InvalidToken? <==> v.Rejected?)
      && (o.UserNotFound? <==> v.Verified? && FindById(users, v.sub).None?)
      && (o.Admitted? <==> v.Verified? && FindById(users, v.sub).Some?)
      && (o.Admitted? ==> o.user == WithoutPassword(FindById(users, v.sub).value)))
  {
    if !HasBearer(header) then NoToken
    else match Resolve(TokenOf(header.value), verify, users)
      case Resolved(u) => Admitted(u)
      case NoSuchUser => UserNotFound
      case TokenExpired => ExpiredToken
      case TokenRejected => InvalidToken
  }

  /** A header that is "Bearer " and nothing more splits into an empty
      token, which the library refuses: the answer is "Invalid token.". */
  lemma EmptyBearerIsInvalid(verify: string -> Verdict, users: seq<User>)
    ensures Protect(Some(Bearer), verify, users) == InvalidToken
  {
    assert Bearer == "Bearer" + [' '] + [];
    SplitAfterPiece("Bearer", [], ' ');
  }

  /** An admitted request carries a user of the collection, the one the
      token names, with its password left out. */
  lemma AdmittedUserIsStored(header: Option<string>, verify: string -> Verdict, users: seq<User>)
    requires Protect(header, verify, users).Admitted?
    ensures exists u :: (u in users && Protect(header, verify, users).user == WithoutPassword(u)
                         && u.id == JwtVerify(verify, TokenOf(header.value)).sub)
  {
    var v := JwtVerify(verify, TokenOf(header.value));
    var u := FindById(users, v.sub).value;
    assert u in users && u.id == v.sub;
  }

  /** The JSON response `protect` writes: its status, the `success` flag
      when present, the key the text is under, and the text. */
  datatype Reply = Reply(status: int, success: Option<bool>, key: string, text: string)

  /** The response for each outcome; an admitted request gets none, and
      `next()` runs instead. */
  function ReplyTo(o: Outcome): (r: Option<Reply>)
    ensures r.None? <==> o.Admitted?
    ensures r.Some? ==> r.value.status == 401
    ensures o.NoToken? ==> r == Some(Reply(401, Some(false), "msg", "No Token Provided."))
    ensures o.UserNotFound? ==> r == Some(Reply(401, Some(false), "message", "User not found."))
    ensures o.ExpiredToken? ==> r == Some(Reply(401, None, "message", "Token has expired. Please login again."))
    ensures o.InvalidToken? ==> r == Some(Reply(401, None, "message", "Invalid token."))
  {
    match o
    case NoToken => Some(Reply(401, Some(false), "msg", "No Token Provided."))
    case UserNotFound => Some(Reply(401, Some(false), "message", "User not found."))
    case ExpiredToken => Some(Reply(401, None, "message", "Token has expired. Please login again."))
    case InvalidToken => Some(Reply(401, None, "message", "Invalid token."))
    case Admitted(_) => None
  }
}
