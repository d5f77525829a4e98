/**
 * The request-authentication middleware of the backend: it takes the bearer
 * token from the `Authorization` header, verifies it, looks up the user it
 * names and either annotates the request and passes it on, or answers 401.
 * Token verification (signature, expiry, secret) and the user lookup are
 * opaque here and come in as oracle functions.
 */
module AuthMiddleware {
  import opened Optional
  import opened JsString

  /** A user's database id. */
  type UserId = nat

  /** The stored user document; only its id is used here. */
  datatype User = User(id: UserId)

  /** The decoded token payload; its `userId` claim may be missing. */
  datatype Claims = Claims(userId: Option<UserId>)

  /** How the user lookup ends: a user, no user (`null`), or a thrown error. */
  datatype Lookup = Found(user: User) | NotFound | LookupFailed

  /** The JSON body of a refusal. */
  datatype ErrorBody = ErrorBody(success: bool, message: string)

  /** Either the request is refused with a status and body, or it goes on as `user`. */
  datatype Decision = Refuse(status: int, body: ErrorBody) | Proceed(user: User)

  const BearerPrefix: string := "Bearer "
  const Unauthorized: int := 401
  const NoTokenMessage: string := "Access denied. No token provided."
  const InvalidTokenMessage: string := "Invalid token."

  /**
   * `req.header("Authorization")?.replace("Bearer ", "")`: no header gives no
   * token; otherwise the first occurrence of "Bearer ", wherever it is, is
   * removed, and putting it back where it was gives the header again.
   */
  function ExtractToken(header: Option<string>): (token: Option<string>)
    ensures header.None? <==> token.None?
    ensures header.Some? && IndexOf(header.value, BearerPrefix).None? ==> token == header
    ensures header.Some? && IndexOf(header.value, BearerPrefix).Some? ==>
              var i := IndexOf(header.value, BearerPrefix).value;
              |token.value| == |header.value| - |BearerPrefix|
              && token.value[..i] + BearerPrefix + token.value[i..] == header.value
  {
    match header
    case None => None
    case Some(h) => Some(RemoveFirst(h, BearerPrefix))
  }

  /** A header of the usual form "Bearer <t>" yields exactly `t`. */
  lemma BearerHeaderYieldsToken(t: string)
    ensures ExtractToken(Some(BearerPrefix + t)) == Some(t)
  {
    var h := BearerPrefix + t;
    assert OccursAt(h, BearerPrefix, 0) by { assert h[0..7] == BearerPrefix; }
    assert IndexOf(h, BearerPrefix) == Some(0);
    assert h[7..] == t;
  }

  /** The removal is not anchored at the start: "xBearer y" yields "xy". */
  lemma RemovalIsNotAnchored()
    ensures ExtractToken(Some("xBearer y")) == Some("xy")
  {
    var h := "xBearer y";
    assert !OccursAt(h, BearerPrefix, 0) by { assert h[0..7][0] == 'x'; }
    assert OccursAt(h, BearerPrefix, 1) by { assert h[1..8] == BearerPrefix; }
    assert IndexOfFrom(h, BearerPrefix, 1) == Some(1);
    assert IndexOf(h, BearerPrefix) == Some(1);
    assert RemoveFirst(h, BearerPrefix) == h[..1] + h[8..];
    assert h[..1] + h[8..] == "xy";
  }

  /** Of two occurrences of "Bearer " only the first is removed. */
  lemma OnlyFirstBearerRemoved()
    ensures ExtractToken(Some("Bearer Bearer y")) == Some("Bearer y")
  {
    BearerHeaderYieldsToken("Bearer y");
    assert BearerPrefix + "Bearer y" == "Bearer Bearer y";
  }

  /** JavaScript truthiness of the token: present and non-empty. */
  predicate HasToken(header: Option<string>) {
    ExtractToken(header).Some? && ExtractToken(header).value != ""
  }

  /**
   * The outcome of the middleware for a request with the given header.
   * It proceeds exactly when there is a token, it verifies, and the user it
   * names exists, and then with that user. Every refusal is a 401 with
   * `success: false`: "Access denied. No token provided." when there is no
   * token, "Invalid token." on every later failure.
   */
  function Authenticate(header: Option<string>,
                        verify: string -> Option<Claims>,
                        findById: Option<UserId> -> Lookup): (d: Decision)
    ensures d.Proceed? <==>
              && HasToken(header)
              && verify(ExtractToken(header).value).Some?
              && findById(verify(ExtractToken(header).value).value.userId).Found?
    ensures d.Proceed? ==> d.user == findById(verify(ExtractToken(header).value).value.userId).user
    ensures d.Refuse? ==> d.status == Unauthorized && !d.body.success
    ensures !HasToken(header) ==> d == Refuse(Unauthorized, ErrorBody(false, NoTokenMessage))
    ensures HasToken(header) && d.Refuse? ==> d.body.message == InvalidTokenMessage
  {
    var token := ExtractToken(header);
    if token.None? || token.value == "" then
      Refuse(Unauthorized, ErrorBody(false, NoTokenMessage))
    else
      match verify(token.value)
      case None => Refuse(Unauthorized, ErrorBody(false, InvalidTokenMessage))
      case Some(decoded) =>
        match findById(decoded.userId)
        case Found(user) => Proceed(user)
        case NotFound => Refuse(Unauthorized, ErrorBody(false, InvalidTokenMessage))
        case LookupFailed => Refuse(Unauthorized, ErrorBody(false, InvalidTokenMessage))
  }

  /** The header "Bearer " with nothing after it counts as no token at all. */
  lemma EmptyBearerIsNoToken(verify: string -> Option<Claims>, findById: Option<UserId> -> Lookup)
    ensures Authenticate(Some(BearerPrefix), verify, findById)
            == Refuse(Unauthorized, ErrorBody(false, NoTokenMessage))
  {
    BearerHeaderYieldsToken("");
    assert BearerPrefix + "" == BearerPrefix;
  }

  /**
   * Without a token neither the verifier nor the lookup is consulted: the
   * outcome is the same whatever they would answer.
   */
  lemma NoTokenConsultsNoOracle(header: Option<string>,
                                verify1: string -> Option<Claims>, findById1: Option<UserId> -> Lookup,
                                verify2: string -> Option<Claims>, findById2: Option<UserId> -> Lookup)
    requires !HasToken(header)
    ensures Authenticate(header, verify1, findById1) == Authenticate(header, verify2, findById2)
  {
  }

  /**
   * A token that fails verification and a verified token whose user does
   * not exist get identical responses: same status, same body.
   */
  lemma FailuresLookAlike(header1: Option<string>, header2: Option<string>,
                          verify: string -> Option<Claims>, findById: Option<UserId> -> Lookup)
    requires HasToken(header1) && verify(ExtractToken(header1).value).None?
    requires HasToken(header2) && verify(ExtractToken(header2).value).Some?
    requires findById(verify(ExtractToken(header2).value).value.userId).NotFound?
    ensures Authenticate(header1, verify, findById).Refuse?
    ensures Authenticate(header1, verify, findById) == Authenticate(header2, verify, findById)
  {
  }

  /** The Express request, as far as the middleware reads and writes it. */
  class Request {
    /** The value of the `Authorization` header, if sent. */
    var authorization: Option<string>
    var userId: Option<UserId>
    var user: Option<User>
  }

  /** The Express response, as far as the middleware writes it. */
  class Response {
    var status: Option<int>
    var body: Option<ErrorBody>
  }

  /**
   * The middleware itself. `nextCalls` is how many times `next()` is called.
   * On success the request is annotated with the user and `next()` runs
   * once; on every other path the response gets the refusal, the request is
   * left as it was and `next()` is not called.
   */
  method Handle(req: Request, res: Response,
                verify: string -> Option<Claims>, findById: Option<UserId> -> Lookup)
    returns (nextCalls: nat)
    modifies req`userId, req`user, res
    ensures var d := Authenticate(req.authorization, verify, findById);
      && (d.Proceed? ==> nextCalls == 1 && req.userId == Some(d.user.id) && req.user == Some(d.user)
                         && unchanged(res))
      && (d.Refuse? ==> nextCalls == 0 && res.status == Some(d.status) && res.body == Some(d.body)
                        && unchanged(req))
  {
    var token := ExtractToken(req.authorization);
    if token.None? || token.value == "" {
      res.status, res.body := Some(Unauthorized), Some(ErrorBody(false, NoTokenMessage));
      return 0;
    }
    var decoded := verify(token.value);
    if decoded.None? {
      // jwt.verify threw: the catch block answers
      res.status, res.body := Some(Unauthorized), Some(ErrorBody(false, InvalidTokenMessage));
      return 0;
    }
    var found := findById(decoded.value.userId);
    match found {
      case LookupFailed =>
        // the lookup threw: the catch block answers
        res.status, res.body := Some(Unauthorized), Some(ErrorBody(false, InvalidTokenMessage));
        return 0;
      case NotFound =>
        res.status, res.body := Some(Unauthorized), Some(ErrorBody(false, InvalidTokenMessage));
        return 0;
      case Found(user) =>
        req.userId := Some(user.id);
        req.user := Some(user);
        return 1;
    }
  }
}
