/** Token issue and the `jwt_required` guard. Tokens are JSON Web Tokens
    (RFC 7519) signed with HMAC SHA-256 (section 3.2 of RFC 7518); the
    signing and checking themselves are abstract here: a `Codec` pair that is
    assumed, through `Sound`, to give back what it was handed. */
module Auth {
  import opened Optional
  import opened Json
  import opened Models
  import opened Http

  /** The claims of a token: a JSON object. */
  type Claims = map<string, Value>

  /** The outcome of checking a token: its claims, or one of the two errors
      the decoder raises (`ExpiredSignatureError`, `InvalidTokenError`). */
  datatype Decoded = Claimed(claims: Claims) | Expired | Invalid

  /** Signing and checking under a secret key, as the JWT library does them. */
  datatype Codec = Codec(
    encode: (Claims, string) -> string,
    decode: (string, string) -> Decoded)

  /** The registered claims of RFC 7519 (section 4.1) that the decoder can
      refuse a token for: `exp`, `nbf` and `iat` whenever present, and `aud`
      because no audience is expected. `iss` is not checked here (no issuer
      is passed), but an issued payload carries none of them. */
  const RegisteredClaims: set<string> := {"exp", "nbf", "iat", "aud", "iss"}

  /** The round-trip hypothesis, for the payloads this backend issues: the
      token signed for a user's claims with a key is a non-empty text that
      decodes, under the same key, to exactly those claims. */
  ghost predicate Sound(c: Codec) {
    forall u: User, key: string ::
      c.encode(ClaimsFor(u), key) != "" && c.decode(c.encode(ClaimsFor(u), key), key) == Claimed(ClaimsFor(u))
  }

  /** `create_jwt_token`'s payload: exactly the user's id and username, and no
      expiry, so the tokens it issues never expire. */
  function ClaimsFor(u: User): (claims: Claims)
    ensures claims.Keys == {"user_id", "username"}
    ensures claims["user_id"] == Int(u.id) && claims["username"] == Str(u.username)
    ensures claims.Keys !! RegisteredClaims
  {
    map["user_id" := Int(u.id), "username" := Str(u.username)]
  }

  /** `create_jwt_token`: under a sound codec, a non-empty token that decodes
      with the same secret to the user's claims. */
  function CreateToken(c: Codec, secret: string, u: User): (token: string)
    ensures Sound(c) ==> token != "" && DecodeToken(c, secret, token) == Some(ClaimsFor(u))
  {
    c.encode(ClaimsFor(u), secret)
  }

  /** `decode_jwt_token`: the claims, or `None` for an expired and for an
      otherwise invalid token alike; it never raises. */
  function DecodeToken(c: Codec, secret: string, token: string): (r: Option<Claims>)
    ensures r.None? <==> (c.decode(token, secret).Expired? || c.decode(token, secret).Invalid?)
    ensures r.Some? ==> c.decode(token, secret) == Claimed(r.value)
  {
    match c.decode(token, secret)
    case Claimed(claims) => Some(claims)
    case Expired => None
    case Invalid => None
  }

  /** The guard's decision for a request. */
  datatype Verdict =
    | TokenRequired         // no header, or an empty one
    | TokenInvalid          // decoding failed, or gave an empty payload
    | UserNotFound          // no user has the claimed id
    | ClaimFault            // no `user_id` claim, or one the lookup cannot take: an uncaught exception
    | Admit(user: User)     // the view runs with `request.user` bound to this user

  /** What the guard makes of decoded claims. Only `user_id` is consulted. */
  function Resolve(users: seq<User>, claims: Claims): (v: Verdict)
    ensures v.Admit? ==> v.user in users && "user_id" in claims && IdQueryFor(claims["user_id"]) == ById(v.user.id)
    ensures v.UserNotFound? ==> "user_id" in claims
    ensures claims != map[] && "user_id" in claims && IdQueryFor(claims["user_id"]).ById?
      && FindById(users, IdQueryFor(claims["user_id"]).id).Some?
      ==> v == Admit(FindById(users, IdQueryFor(claims["user_id"]).id).value)
    ensures v.UserNotFound? <==>
      && claims != map[] && "user_id" in claims
      && (|| IdQueryFor(claims["user_id"]).MatchesNone?
          || (IdQueryFor(claims["user_id"]).ById? && FindById(users, IdQueryFor(claims["user_id"]).id).None?))
    ensures v.ClaimFault? <==> claims != map[] && ("user_id" !in claims || IdQueryFor(claims["user_id"]).Raises?)
    ensures claims == map[] <==> v.TokenInvalid?
    ensures !v.TokenRequired?
  {
    if claims == map[] then TokenInvalid
    else if "user_id" !in claims then ClaimFault
    else match IdQueryFor(claims["user_id"])
      case Raises => ClaimFault
      case MatchesNone => UserNotFound
      case ById(id) =>
        match FindById(users, id)
        case None => UserNotFound
        case Some(u) => Admit(u)
  }

  /** The decision `jwt_required` takes, in its order: header, then token, then user. */
  function Check(users: seq<User>, apiKey: Option<string>, c: Codec, secret: string): (v: Verdict)
    ensures v.TokenRequired? <==> apiKey.None? || apiKey.value == ""
    ensures v.TokenInvalid? <==>
      && apiKey.Some? && apiKey.value != ""
      && (DecodeToken(c, secret, apiKey.value).None? || DecodeToken(c, secret, apiKey.value).value == map[])
    ensures v.Admit? ==> v.user in users
  {
    if apiKey.None? || apiKey.value == "" then TokenRequired
    else match DecodeToken(c, secret, apiKey.value)
      case None => TokenInvalid
      case Some(claims) => Resolve(users, claims)
  }

  /** The response the guard sends instead of running the view. */
  function Rejection(v: Verdict): (r: Option<Response>)
    ensures r.None? <==> v.Admit?
    ensures r.Some? ==> r.value.status == (if v.ClaimFault? then 500 else 401)
  {
    match v
    case TokenRequired => Some(Response(401, Error("Token required")))
    case TokenInvalid => Some(Response(401, Error("Invalid token")))
    case UserNotFound => Some(Response(401, Error("User not found")))
    case ClaimFault => Some(Response(500, Unhandled))
    case Admit(_) => None
  }

  /** The `jwt_required` wrapper up to the call of the view: it either answers
      the request itself and leaves `request.user` alone, or binds
      `request.user` and lets the view run. */
  method Guard(req: Request, users: seq<User>, c: Codec, secret: string) returns (denied: Option<Response>)
    modifies req
    ensures denied == Rejection(Check(users, req.apiKey, c, secret))
    ensures denied.None? ==> req.user == Some(Check(users, req.apiKey, c, secret).user)
    ensures denied.Some? ==> req.user == old(req.user)
  {
    var token := req.apiKey;
    if token.None? || token.value == "" {
      return Some(Response(401, Error("Token required")));
    }
    var payload := DecodeToken(c, secret, token.value);
    if payload.None? || payload.value == map[] {
      return Some(Response(401, Error("Invalid token")));
    }
    var claims := payload.value;
    if "user_id" !in claims {
      return Some(Response(500, Unhandled));
    }
    var found: Option<User>;
    match IdQueryFor(claims["user_id"]) {
      case Raises =>
        return Some(Response(500, Unhandled));
      case MatchesNone =>
        found := None;
      case ById(id) =>
        found := FindById(users, id);
    }
    if found.None? {
      return Some(Response(401, Error("User not found")));
    }
    req.user := found;
    denied := None;
  }

  /** Round trip: a token issued for a user who is still in the table passes
      the guard and binds that user. */
  lemma IssuedTokenAdmitsOwner(users: seq<User>, c: Codec, secret: string, u: User)
    requires Sound(c) && UniqueIds(users) && u in users
    ensures Check(users, Some(CreateToken(c, secret, u)), c, secret) == Admit(u)
  {
    FindByIdFindsOwner(users, u);
  }

  /** The `username` claim plays no part: claims that agree on `user_id`
      resolve alike, whatever their usernames say. */
  lemma UsernameClaimIgnored(users: seq<User>, claims: Claims, name: Value)
    requires "user_id" in claims
    ensures Resolve(users, claims["username" := name]) == Resolve(users, claims)
  {
    assert claims["username" := name] != map[] by {
      assert "user_id" in claims["username" := name];
    }
  }

  /** A token whose user has left the table is refused with "User not found",
      never admitted: the guard looks the user up on every request. */
  lemma DepartedUserRefused(users: seq<User>, c: Codec, secret: string, u: User)
    requires Sound(c)
    requires forall w :: w in users ==> w.id != u.id
    ensures Check(users, Some(CreateToken(c, secret, u)), c, secret) == UserNotFound
  {
  }
}
