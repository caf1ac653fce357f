/** The Express middlewares of `user.middlewares.js`: body validation, the
    activation-link guard, the role gate and the bearer-token guard. Each one
    ends in exactly one `Outcome`. Token checks and the activation-state
    lookup are collaborators the model receives as functions. */
module Guards {
  import opened Outcomes
  import opened JsText

  /** The login / registration body: the two fields the user schema accepts. */
  datatype Body = Body(email: string, password: string)

  /** `req.query` of the activation link. */
  datatype Query = Query(token: Option<string>, uid: Option<string>)

  /** What `userSchema.validate(body)` reports: the messages of a failure
      (there is always a first one) or the normalised value. */
  datatype SchemaResult = SchemaError(firstMessage: string, moreMessages: seq<string>) | SchemaOk(value: Body)

  /** The parts of an Express request the core reads or writes. `body` and
      `emailVerify` are written by the guards; the rest is fixed by the time
      the guards run (`user` is whatever passport placed there). */
  class Request {
    var body: Body
    var emailVerify: Option<string>  // `req.emailVerify = { uid }`
    const query: Query
    const authorization: Option<string>  // `req.headers['authorization']`
    const user: Option<UserObj>

    constructor (body: Body, query: Query, authorization: Option<string>, user: Option<UserObj>)
      ensures this.body == body && this.query == query && this.authorization == authorization
      ensures this.user == user && emailVerify == None
    {
      this.body := body;
      this.query := query;
      this.authorization := authorization;
      this.user := user;
      emailVerify := None;
    }
  }

  const MissingTokenOrUid := "Missing token or uid in query parameters"
  const InvalidTokenOrUid := "Invalid token or uid"
  const AlreadyActivated := "Account already activated"
  const Forbidden := "Forbidden"

  // ---------------------------------------------------------------------------
  // validateUser

  /** `validateUser`: a schema failure goes to `next` as a 400 carrying the
      first message and leaves the body alone; a success replaces the body
      with the normalised value and calls `next()`. */
  method ValidateUser(req: Request, validate: Body -> SchemaResult) returns (o: Outcome)
    modifies req`body
    ensures validate(old(req.body)).SchemaError? ==>
      o == CallNextWith(StatusError(400, validate(old(req.body)).firstMessage)) && req.body == old(req.body)
    ensures validate(old(req.body)).SchemaOk? ==>
      o == CallNext && req.body == validate(old(req.body)).value
  {
    var result := validate(req.body);
    if result.SchemaError? {
      return CallNextWith(StatusError(400, result.firstMessage));
    }
    req.body := result.value;
    return CallNext;
  }

  // ---------------------------------------------------------------------------
  // validateActivateAccount

  /** A query parameter JavaScript treats as truthy: present and not empty. */
  predicate Present(p: Option<string>) {
    p.Some? && p.value != ""
  }

  /** The decision `validateActivateAccount` takes for a query, given the
      activation-token check and the activation-state lookup. `next()` is
      called exactly when both parameters are there, the token is valid and
      carries the number `uid` spells, and the account is not yet verified;
      the same link for an account already verified is answered 200
      "Account already activated". */
  function ActivationDecision(q: Query, checkToken: string -> Call<Verified>, checkAccount: string -> Call<bool>)
    : (r: Outcome)
    ensures r == CallNext <==>
      && Present(q.token) && Present(q.uid)
      && checkToken(q.token.value).Returns?
      && checkToken(q.token.value).value.Valid?
      && ParseInt(q.uid.value) == Some(checkToken(q.token.value).value.decoded.id)
      && checkAccount(q.uid.value) == Returns(false)
    ensures r == Respond(Json(200, Message(AlreadyActivated))) <==>
      && Present(q.token) && Present(q.uid)
      && checkToken(q.token.value).Returns?
      && checkToken(q.token.value).value.Valid?
      && ParseInt(q.uid.value) == Some(checkToken(q.token.value).value.decoded.id)
      && checkAccount(q.uid.value) == Returns(true)
    ensures r.Respond? ==> r.reply == Json(200, Message(AlreadyActivated))
    ensures !r.Rejects?
  {
    if !Present(q.token) || !Present(q.uid) then
      CallNextWith(StatusError(400, MissingTokenOrUid))
    else
      match checkToken(q.token.value)
      case Throws(e) => CallNextWith(e)
      case Returns(payload) =>
        if !payload.Valid? || ParseInt(q.uid.value) != Some(payload.decoded.id) then
          CallNextWith(StatusError(400, InvalidTokenOrUid))
        else
          match checkAccount(q.uid.value)
          case Throws(e) => CallNextWith(e)
          case Returns(emailVerified) =>
            if emailVerified then Respond(Json(200, Message(AlreadyActivated))) else CallNext
  }

  /** `validateActivateAccount`: takes the decision above, and on `next()`
      records `req.emailVerify = { uid }`; every other outcome leaves the
      request as it was, so answering "already activated" again and again
      changes nothing. */
  method ValidateActivateAccount(req: Request, checkToken: string -> Call<Verified>, checkAccount: string -> Call<bool>)
    returns (o: Outcome)
    modifies req`emailVerify
    ensures o == ActivationDecision(req.query, checkToken, checkAccount)
    ensures o == CallNext ==> req.query.uid.Some? && req.emailVerify == Some(req.query.uid.value)
    ensures o != CallNext ==> req.emailVerify == old(req.emailVerify)
  {
    o := ActivationDecision(req.query, checkToken, checkAccount);
    if o == CallNext {
      req.emailVerify := Some(req.query.uid.value);
    }
  }

  /** A valid link for an account that is already verified is answered 200
      "Account already activated", and the request is left as it was: a
      link followed twice changes nothing the second time. */
  method AlreadyActivatedResponds(
    req: Request, id: int, checkToken: string -> Call<Verified>, checkAccount: string -> Call<bool>)
    returns (o: Outcome)
    requires Present(req.query.token) && Present(req.query.uid)
    requires checkToken(req.query.token.value) == Returns(Valid(Claims(id)))
    requires ParseInt(req.query.uid.value) == Some(id)
    requires checkAccount(req.query.uid.value) == Returns(true)
    modifies req`emailVerify
    ensures o == Respond(Json(200, Message(AlreadyActivated)))
    ensures req.emailVerify == old(req.emailVerify) && req.body == old(req.body)
  {
    o := ValidateActivateAccount(req, checkToken, checkAccount);
  }

  /** Without both parameters the answer is the 400 "missing" error, whatever
      the token check and the lookup would say: neither is consulted. */
  lemma MissingParamsShortCircuit(
    q: Query, checkToken: string -> Call<Verified>, otherCheckToken: string -> Call<Verified>,
    checkAccount: string -> Call<bool>, otherCheckAccount: string -> Call<bool>)
    requires !Present(q.token) || !Present(q.uid)
    ensures ActivationDecision(q, checkToken, checkAccount) == CallNextWith(StatusError(400, MissingTokenOrUid))
    ensures ActivationDecision(q, checkToken, checkAccount) == ActivationDecision(q, otherCheckToken, otherCheckAccount)
  {
  }

  /** A token that is invalid, or minted for another id than `uid` names,
      gives the 400 "invalid" error and the activation state is never read. */
  lemma RejectedTokenSkipsLookup(
    q: Query, checkToken: string -> Call<Verified>,
    checkAccount: string -> Call<bool>, otherCheckAccount: string -> Call<bool>)
    requires Present(q.token) && Present(q.uid)
    requires checkToken(q.token.value).Returns?
    requires !checkToken(q.token.value).value.Valid?
          || ParseInt(q.uid.value) != Some(checkToken(q.token.value).value.decoded.id)
    ensures ActivationDecision(q, checkToken, checkAccount) == CallNextWith(StatusError(400, InvalidTokenOrUid))
    ensures ActivationDecision(q, checkToken, checkAccount) == ActivationDecision(q, checkToken, otherCheckAccount)
  {
  }

  /** An error thrown by either collaborator reaches `next` unchanged. */
  lemma CollaboratorErrorsPassToNext(q: Query, checkToken: string -> Call<Verified>, checkAccount: string -> Call<bool>)
    requires Present(q.token) && Present(q.uid)
    ensures checkToken(q.token.value).Throws? ==>
      ActivationDecision(q, checkToken, checkAccount) == CallNextWith(checkToken(q.token.value).error)
    ensures (&& checkToken(q.token.value).Returns?
             && checkToken(q.token.value).value.Valid?
             && ParseInt(q.uid.value) == Some(checkToken(q.token.value).value.decoded.id)
             && checkAccount(q.uid.value).Throws?) ==>
      ActivationDecision(q, checkToken, checkAccount) == CallNextWith(checkAccount(q.uid.value).error)
  {
  }

  /** A link whose `uid` has trailing text is still accepted: `parseInt`
      reads only the leading number, and `req.emailVerify` then records the
      raw string, trailing text included. */
  lemma TrailingTextInUidAccepted(
    id: nat, tail: string, token: string,
    checkToken: string -> Call<Verified>, checkAccount: string -> Call<bool>)
    requires token != "" && tail != [] && !IsDigitIn(tail[0], 10)
    requires id == 0 ==> tail[0] != 'x' && tail[0] != 'X'
    requires checkToken(token) == Returns(Valid(Claims(id)))
    requires checkAccount(DecimalString(id) + tail) == Returns(false)
    ensures ActivationDecision(Query(Some(token), Some(DecimalString(id) + tail)), checkToken, checkAccount) == CallNext
  {
    ParseIntReadsLeadingDecimal(id, tail);
  }

  /** The `uid` comparison is looser still: white space, a `+` sign and
      leading zeros before the id all pass it (`" 5"`, `"+5"`, `"05"` for a
      token minted for 5), and the padded text is what the account lookup
      and `req.emailVerify` receive. */
  lemma PaddedUidAccepted(
    ws: string, sign: string, zeros: string, id: nat, token: string,
    checkToken: string -> Call<Verified>, checkAccount: string -> Call<bool>)
    requires forall i :: 0 <= i < |ws| ==> IsJsWhiteSpace(ws[i])
    requires sign == "" || sign == "+"
    requires AllZeros(zeros)
    requires token != ""
    requires checkToken(token) == Returns(Valid(Claims(id)))
    requires checkAccount(ws + (sign + (zeros + DecimalString(id) + ""))) == Returns(false)
    ensures ActivationDecision(Query(Some(token), Some(ws + (sign + (zeros + DecimalString(id) + "")))), checkToken, checkAccount)
         == CallNext
  {
    ParseIntSkipsPadding(ws, sign, zeros, id, "");
  }

  /** As the module is written, `checkEmailActivateToken` is not among the
      exports of the token utilities, so the name is bound to `undefined` and
      calling it throws this `TypeError`. */
  const NotAFunction := Exception("checkEmailActivateToken is not a function")

  function UndefinedTokenCheck(token: string): Call<Verified> {
    Throws(NotAFunction)
  }

  /** With the import as written, no activation link ever gets through: a
      complete link always ends in `next(TypeError)`. */
  lemma ActivationAsWrittenNeverProceeds(q: Query, checkAccount: string -> Call<bool>)
    ensures ActivationDecision(q, UndefinedTokenCheck, checkAccount) != CallNext
    ensures Present(q.token) && Present(q.uid) ==>
      ActivationDecision(q, UndefinedTokenCheck, checkAccount) == CallNextWith(NotAFunction)
  {
  }

  // ---------------------------------------------------------------------------
  // checkUserRole

  /** `checkUserRole`: 401 without a user, `next()` for the roles `user` and
      `admin`, `next(Error("Forbidden"))` for any other role or none. */
  function CheckUserRole(user: Option<UserObj>): (r: Outcome)
    ensures r == Respond(SendStatus(401)) <==> user.None?
    ensures r == CallNext <==> user.Some? && user.value.role in {Some("user"), Some("admin")}
    ensures user.Some? && r != CallNext ==> r == CallNextWith(Exception(Forbidden))
  {
    if user.None? then Respond(SendStatus(401))
    else if user.value.role == Some("user") || user.value.role == Some("admin") then CallNext
    else CallNextWith(Exception(Forbidden))
  }

  // ---------------------------------------------------------------------------
  // verifyJWTToken

  /** `authHeader && authHeader.split(' ')[1]`, kept only when truthy: the
      text between the first and the second space of the header. */
  function BearerToken(authorization: Option<string>): (r: Option<string>)
    ensures r.Some? ==> authorization.Some? && r.value != "" && ' ' !in r.value
  {
    if authorization.None? || authorization.value == "" then None
    else
      var parts := Split(authorization.value, ' ');
      if |parts| < 2 || parts[1] == "" then None else Some(parts[1])
  }

  /** `verifyJWTToken`: 401 when there is no token to check, otherwise
      `next()` for a valid access token and 403 for any other. */
  function VerifyJwtToken(authorization: Option<string>, checkJwt: string -> Verified): (r: Outcome)
    ensures r == CallNext <==> BearerToken(authorization).Some? && checkJwt(BearerToken(authorization).value).Valid?
    ensures r != CallNext ==> r == Respond(SendStatus(if BearerToken(authorization).None? then 401 else 403))
  {
    match BearerToken(authorization)
    case None => Respond(SendStatus(401))
    case Some(token) => if checkJwt(token).Valid? then CallNext else Respond(SendStatus(403))
  }

  /** Without a token in the header the answer is 401 whatever the checker
      would say: it is never called. */
  lemma NoTokenNeverChecked(authorization: Option<string>, checkJwt: string -> Verified, otherCheckJwt: string -> Verified)
    requires BearerToken(authorization).None?
    ensures VerifyJwtToken(authorization, checkJwt) == Respond(SendStatus(401))
    ensures VerifyJwtToken(authorization, checkJwt) == VerifyJwtToken(authorization, otherCheckJwt)
  {
  }

  /** A header with no space in it (such as `"Bearer"` alone) carries no token. */
  lemma HeaderWithoutSpaceHasNoToken(header: string)
    requires ' ' !in header
    ensures BearerToken(Some(header)) == None
  {
    SplitSepFree(header, ' ');
  }

  /** `<scheme> <token>` yields the token, whatever the scheme says. */
  lemma {:induction false} BearerTokenIsSecondField(scheme: string, token: string)
    requires ' ' !in scheme && ' ' !in token && token != ""
    ensures BearerToken(Some(scheme + " " + token)) == Some(token)
  {
    SplitAround(scheme, token, ' ');
    SplitSepFree(scheme, ' ');
    SplitSepFree(token, ' ');
    assert scheme + " " + token == scheme + [' '] + token;
  }

  /** Conversely, a token found in the header is exactly what follows the
      first space, up to the next space or the end. */
  lemma {:induction false} BearerTokenFollowsFirstSpace(header: string, token: string)
    returns (scheme: string, rest: string)
    requires BearerToken(Some(header)) == Some(token)
    ensures header == scheme + " " + token + rest
    ensures ' ' !in scheme && (rest == "" || rest[0] == ' ')
  {
    var parts := Split(header, ' ');
    JoinSplit(header, ' ');
    assert parts[1] == token;
    rest := if |parts| == 2 then "" else " " + Join(parts[2..], ' ');
    assert Join(parts[1..], ' ') == token + rest by {
      assert parts[1..][0] == token;
      if |parts| > 2 {
        assert parts[1..][1..] == parts[2..];
      }
    }
    assert Join(parts, ' ') == parts[0] + " " + Join(parts[1..], ' ');
    scheme := parts[0];
  }
}
