/** The login flow (backend/auth.py): the authorization request of the OAuth 2.0
    authorization-code grant (section 4.1.1 of RFC 6749), the callback's chain
    of guards ending in a redirect, the employee upsert on a successful login,
    and the session user every other route depends on. The token request of
    section 4.1.3 of RFC 6749 and the decoding of the ID token are inputs. */
module Auth {
  import opened Base
  import opened Text
  import opened Schemas

  /** The environment the router reads at start-up. */
  datatype Config = Config(
    clientId: string,
    clientSecret: string,
    tokenUrl: string,
    authEndpoint: string,
    redirectUri: string,
    frontendUrl: string)

  /** Every variable defaults to the empty string except the front-end URL. */
  const DefaultConfig := Config("", "", "", "", "", "http://127.0.0.1:5173")

  /** What the callback stores as `request.session["user"]`. */
  datatype SessionUser = SessionUser(w3Id: string, email: Option<string>, name: Option<string>)

  /** A client's session: the user stored in it, if any. */
  type Session = Option<SessionUser>

  const NotAuthenticated := HttpError(401, "Not authenticated")

  /** `get_current_user`: the session user, or 401 when there is none. */
  function CurrentUser(session: Session): (r: Result<SessionUser>)
    ensures r.Ok? <==> session.Some?
    ensures r.Ok? ==> r.value == session.value
    ensures r.Err? ==> r.error == NotAuthenticated
  {
    match session
    case None => Err(NotAuthenticated)
    case Some(u) => Ok(u)
  }

  /** Sessions written by the callback always carry a non-empty `w3_id`. */
  ghost predicate ValidSession(session: Session)
  {
    session.Some? ==> session.value.w3Id != ""
  }

  // ---------------------------------------------------------------------------
  // Login
  // ---------------------------------------------------------------------------

  /** `login`: the authorization URL, concatenated without any encoding. */
  function LoginUrl(cfg: Config): string
  {
    cfg.authEndpoint
      + "?client_id=" + cfg.clientId
      + "&response_type=code"
      + "&redirect_uri=" + cfg.redirectUri
      + "&scope=openid email profile"
  }

  /** QueryParams reads back exactly the four parameters of the authorization
      request, provided the configured values contain no `&` and the endpoint
      no `?` (nothing is encoded, so such characters would break the query). */
  lemma LoginUrlParams(cfg: Config)
    requires '?' !in cfg.authEndpoint
    requires '&' !in cfg.clientId && '&' !in cfg.redirectUri
    ensures QueryParams(LoginUrl(cfg)) ==
      [("client_id", cfg.clientId), ("response_type", "code"),
       ("redirect_uri", cfg.redirectUri), ("scope", "openid email profile")]
  {
    LoginUrlIsJoin(cfg);
    QueryParamsFour(cfg.authEndpoint, "client_id", cfg.clientId, "response_type", "code",
                    "redirect_uri", cfg.redirectUri, "scope", "openid email profile");
  }

  /** The four `key=value` pieces of the authorization request's query. */
  function LoginPieces(cfg: Config): seq<string>
  {
    ["client_id" + "=" + cfg.clientId,
     "response_type" + "=" + "code",
     "redirect_uri" + "=" + cfg.redirectUri,
     "scope" + "=" + "openid email profile"]
  }

  lemma LoginUrlIsJoin(cfg: Config)
    ensures LoginUrl(cfg) == cfg.authEndpoint + "?" + Join(LoginPieces(cfg), '&')
  {
    QueryOfFour(cfg.authEndpoint, "client_id", cfg.clientId, "response_type", "code",
                "redirect_uri", cfg.redirectUri, "scope", "openid email profile");
    LoginUrlLiterals();
    ScopeLiteral();
  }

  /** The literal parts of the authorization URL, each cut at its `=`. */
  lemma LoginUrlLiterals()
    ensures "?" + "client_id" + "=" == "?client_id="
    ensures "&" + "response_type" + "=" + "code" == "&response_type=code"
    ensures "&" + "redirect_uri" + "=" == "&redirect_uri="
  {
  }

  lemma ScopeLiteral()
    ensures "&" + "scope" + "=" + "openid email profile" == "&scope=openid email profile"
  {
  }

  // ---------------------------------------------------------------------------
  // Callback
  // ---------------------------------------------------------------------------

  /** What decoding the returned `id_token` gave. */
  datatype IdTokenDecoding = DecodeRaised | Decoded(claims: Claims)

  /** What the token request gave: it raised (transport error or a body that is
      not JSON), it answered without `id_token`, or with one. */
  datatype TokenReply = ExchangeRaised | NoIdToken | IdToken(decoding: IdTokenDecoding)

  /** The callback's redirect target and the state it leaves behind. */
  datatype CallbackResult = CallbackResult(location: string, employees: seq<Employee>, session: Session)

  /** The front-end URL carrying an error code. */
  function ErrorRedirect(cfg: Config, reason: string): string
  {
    cfg.frontendUrl + "?error=" + reason
  }

  /** Every guard of the callback passes. */
  ghost predicate LoginSucceeds(code: Option<string>, error: Option<string>, reply: TokenReply)
  {
    && !Truthy(error)
    && Truthy(code)
    && reply.IdToken?
    && reply.decoding.Decoded?
    && Truthy(W3IdOf(reply.decoding.claims))
  }

  /** The upsert of a successful login: insert `employee_document(claims)` when
      no document has the key, otherwise refresh only `last_login_at`. */
  function RecordLogin(es: seq<Employee>, c: Claims, now: int, elapsed: nat): (r: seq<Employee>)
    requires Truthy(W3IdOf(c))
    ensures HistoryKept(es, r)
    ensures exists k :: 0 <= k < |r| && r[k].w3Id == W3IdOf(c)
    ensures UniqueKeys(es) ==> UniqueKeys(r)
    ensures EmployeesWellFormed(es) ==> EmployeesWellFormed(r)
  {
    var w := W3IdOf(c).value;
    match FindEmployee(es, w)
    case None =>
      var r := es + [EmployeeDocument(c, now, elapsed)];
      assert r[|es|].w3Id == W3IdOf(c);
      r
    case Some(i) =>
      es[i := es[i].(lastLoginAt := Some(now))]
  }

  /** With unique keys: a new key gets exactly one inserted document, a known
      key has only that document's `last_login_at` changed. */
  lemma RecordLoginEffect(es: seq<Employee>, c: Claims, now: int, elapsed: nat)
    requires Truthy(W3IdOf(c))
    requires UniqueKeys(es)
    ensures var r := RecordLogin(es, c, now, elapsed);
      && ((forall k :: 0 <= k < |es| ==> es[k].w3Id != W3IdOf(c)) ==>
            r == es + [EmployeeDocument(c, now, elapsed)])
      && ((exists k :: 0 <= k < |es| && es[k].w3Id == W3IdOf(c)) ==>
            |r| == |es| &&
            forall k :: 0 <= k < |es| ==>
              r[k] == if es[k].w3Id == W3IdOf(c) then es[k].(lastLoginAt := Some(now)) else es[k])
      && KeyCount(r, W3IdOf(c).value) == 1
  {
    var r := RecordLogin(es, c, now, elapsed);
    var w := W3IdOf(c).value;
    match FindEmployee(es, w) {
      case None =>
      case Some(i) =>
        assert forall k :: 0 <= k < i ==> es[k].w3Id != es[i].w3Id;
        assert forall k :: i < k < |es| ==> es[i].w3Id != es[k].w3Id;
    }
    assert UniqueKeys(r) by {
      assert EmployeesWellFormed(es) ==> EmployeesWellFormed(r);
      if FindEmployee(es, w).None? {
        assert r == es + [EmployeeDocument(c, now, elapsed)];
      }
    }
    UniqueKeysCount(r, w);
  }

  /** `callback`: the guards in order — a provider error, a missing code, a
      failed token request, a missing `id_token`, a failed decoding, a missing
      identity claim — each ending in a redirect that changes nothing; past
      them, the employee upsert, the session write and a redirect to the
      front end. The clock reads `now` first and `now + elapsed` second. */
  function Callback(
    cfg: Config, code: Option<string>, error: Option<string>, reply: TokenReply,
    es: seq<Employee>, session: Session, now: int, elapsed: nat): (r: CallbackResult)
    ensures r.location == cfg.frontendUrl <==> LoginSucceeds(code, error, reply)
    ensures r.location != cfg.frontendUrl ==> r.employees == es && r.session == session
    ensures Truthy(error) ==> r.location == ErrorRedirect(cfg, error.value)
    ensures !Truthy(error) && !Truthy(code) ==> r.location == ErrorRedirect(cfg, "no_code")
    ensures !Truthy(error) && Truthy(code) && (reply.ExchangeRaised? || reply == IdToken(DecodeRaised)) ==>
      r.location == ErrorRedirect(cfg, "auth_failed")
    ensures !Truthy(error) && Truthy(code) && reply.NoIdToken? ==>
      r.location == ErrorRedirect(cfg, "token_exchange_failed")
    ensures (!Truthy(error) && Truthy(code) && reply.IdToken? && reply.decoding.Decoded? &&
             !Truthy(W3IdOf(reply.decoding.claims))) ==> r.location == ErrorRedirect(cfg, "invalid_claims")
    ensures LoginSucceeds(code, error, reply) ==>
      r.employees == RecordLogin(es, reply.decoding.claims, now, elapsed)
    ensures r.location == cfg.frontendUrl ==>
      var c := reply.decoding.claims;
      && r.session == Some(SessionUser(W3IdOf(c).value, Claim(c, "email"), Claim(c, "name")))
      && ValidSession(r.session)
      && (exists k :: 0 <= k < |r.employees| && r.employees[k].w3Id == W3IdOf(c))
    ensures ValidSession(session) ==> ValidSession(r.session)
    ensures HistoryKept(es, r.employees)
    ensures EmployeesWellFormed(es) ==> EmployeesWellFormed(r.employees)
  {
    if Truthy(error) then
      CallbackResult(ErrorRedirect(cfg, error.value), es, session)
    else if !Truthy(code) then
      CallbackResult(ErrorRedirect(cfg, "no_code"), es, session)
    else
      match reply
      case ExchangeRaised =>
        CallbackResult(ErrorRedirect(cfg, "auth_failed"), es, session)
      case NoIdToken =>
        CallbackResult(ErrorRedirect(cfg, "token_exchange_failed"), es, session)
      case IdToken(DecodeRaised) =>
        CallbackResult(ErrorRedirect(cfg, "auth_failed"), es, session)
      case IdToken(Decoded(c)) =>
        var w := W3IdOf(c);
        if !Truthy(w) then
          CallbackResult(ErrorRedirect(cfg, "invalid_claims"), es, session)
        else
          var user := SessionUser(w.value, Claim(c, "email"), Claim(c, "name"));
          CallbackResult(cfg.frontendUrl, RecordLogin(es, c, now, elapsed), Some(user))
  }

  /** With the default front-end URL, an error redirect reads back as its one
      `error` parameter. */
  lemma DefaultErrorRedirectParams(reason: string)
    requires '&' !in reason
    ensures QueryParams(ErrorRedirect(DefaultConfig, reason)) == [("error", reason)]
  {
    assert '?' !in DefaultConfig.frontendUrl;
    ErrorRedirectParams(DefaultConfig, reason);
  }

  /** An error redirect carries its reason as the one `error` parameter. */
  lemma ErrorRedirectParams(cfg: Config, reason: string)
    requires '?' !in cfg.frontendUrl && '&' !in reason
    ensures QueryParams(ErrorRedirect(cfg, reason)) == [("error", reason)]
  {
    var piece := "error" + "=" + reason;
    assert "error" + "=" == "error=";
    assert ErrorRedirect(cfg, reason) == cfg.frontendUrl + "?" + Join([piece], '&');
    assert '&' !in piece by {
      assert '&' !in "error=";
    }
    QueryParamsOfJoin(cfg.frontendUrl, [piece]);
    assert '=' !in "error";
    ParseParamPair("error", reason);
    assert ParseAll([piece]) == [("error", reason)];
  }

  /** The error code the front end reads after each failed guard, the provider's
      own error taking precedence over everything else. */
  lemma CallbackErrorCodes(
    cfg: Config, code: Option<string>, error: Option<string>, reply: TokenReply,
    es: seq<Employee>, session: Session, now: int, elapsed: nat)
    requires '?' !in cfg.frontendUrl
    ensures var params := QueryParams(Callback(cfg, code, error, reply, es, session, now, elapsed).location);
      && (Truthy(error) && '&' !in error.value ==> params == [("error", error.value)])
      && (!Truthy(error) && !Truthy(code) ==> params == [("error", "no_code")])
      && (!Truthy(error) && Truthy(code) && reply.ExchangeRaised? ==> params == [("error", "auth_failed")])
      && (!Truthy(error) && Truthy(code) && reply.NoIdToken? ==> params == [("error", "token_exchange_failed")])
      && (!Truthy(error) && Truthy(code) && reply == IdToken(DecodeRaised) ==> params == [("error", "auth_failed")])
      && ((!Truthy(error) && Truthy(code) && reply.IdToken? && reply.decoding.Decoded? &&
           !Truthy(W3IdOf(reply.decoding.claims))) ==> params == [("error", "invalid_claims")])
  {
    if Truthy(error) {
      if '&' !in error.value {
        ErrorRedirectParams(cfg, error.value);
      }
    } else if !Truthy(code) {
      ErrorRedirectParams(cfg, "no_code");
    } else {
      match reply
      case ExchangeRaised => ErrorRedirectParams(cfg, "auth_failed");
      case NoIdToken => ErrorRedirectParams(cfg, "token_exchange_failed");
      case IdToken(DecodeRaised) => ErrorRedirectParams(cfg, "auth_failed");
      case IdToken(Decoded(c)) =>
        if !Truthy(W3IdOf(c)) {
          ErrorRedirectParams(cfg, "invalid_claims");
        }
    }
  }

  /** The document a first login inserts is found under the very key the
      callback looked up and wrote into the session. */
  lemma FirstLoginKey(
    cfg: Config, code: Option<string>, error: Option<string>, reply: TokenReply,
    es: seq<Employee>, session: Session, now: int, elapsed: nat)
    requires LoginSucceeds(code, error, reply)
    requires forall k :: 0 <= k < |es| ==> es[k].w3Id != W3IdOf(reply.decoding.claims)
    ensures var r := Callback(cfg, code, error, reply, es, session, now, elapsed);
      && |r.employees| == |es| + 1
      && r.employees[|es|].w3Id == Some(r.session.value.w3Id)
      && r.employees[|es|].firstLoginAt.value <= r.employees[|es|].lastLoginAt.value
  {
    var c := reply.decoding.claims;
    assert FindEmployee(es, W3IdOf(c).value).None?;
  }

  /** Logging in twice with the same identity leaves one document for it; the
      second login changes only its `last_login_at`. */
  lemma LoginTwice(
    cfg: Config, code: Option<string>, reply: TokenReply,
    es: seq<Employee>, session: Session, now1: int, now2: int, elapsed: nat)
    requires LoginSucceeds(code, None, reply)
    requires UniqueKeys(es)
    ensures var r1 := Callback(cfg, code, None, reply, es, session, now1, elapsed);
      var r2 := Callback(cfg, code, None, reply, r1.employees, r1.session, now2, elapsed);
      var c := reply.decoding.claims;
      && KeyCount(r2.employees, W3IdOf(c).value) == 1
      && |r2.employees| == |r1.employees|
      && r2.session == r1.session
      && forall k :: 0 <= k < |r1.employees| ==>
           r2.employees[k] ==
             if r1.employees[k].w3Id == W3IdOf(c) then r1.employees[k].(lastLoginAt := Some(now2))
             else r1.employees[k]
  {
    var c := reply.decoding.claims;
    var r1 := Callback(cfg, code, None, reply, es, session, now1, elapsed);
    assert r1.employees == RecordLogin(es, c, now1, elapsed);
    var r2 := Callback(cfg, code, None, reply, r1.employees, r1.session, now2, elapsed);
    assert r2.employees == RecordLogin(r1.employees, c, now2, elapsed);
    RecordLoginEffect(r1.employees, c, now2, elapsed);
  }

  // ---------------------------------------------------------------------------
  // The application as assembled: no session middleware
  // ---------------------------------------------------------------------------

  /** The answer to a request whose handler raised something other than an
      HTTP error. */
  const InternalError := HttpError(500, "Internal Server Error")

  /** `get_current_user` in the application as assembled. No session
      middleware is installed, so reading `request.session` raises and the
      route answers 500 whatever the client sent. */
  function CurrentUserAsWritten(session: Session): (r: Result<SessionUser>)
    ensures r.Err? && r.error.status == 500
  {
    Err(InternalError)
  }

  /** A signed-in client is refused as written, where `CurrentUser`, the
      behaviour with a session middleware, returns its user. */
  lemma SignedInRefusedAsWritten(u: SessionUser)
    ensures CurrentUserAsWritten(Some(u)).Err?
    ensures CurrentUser(Some(u)) == Ok(u)
  {
  }

  /** `callback` in the application as assembled. The guards run as in
      `Callback`; when they all pass, the upsert is done and then the session
      write raises, which the handler's `except` turns into `auth_failed`.
      No session is ever stored. */
  function CallbackAsWritten(
    cfg: Config, code: Option<string>, error: Option<string>, reply: TokenReply,
    es: seq<Employee>, now: int, elapsed: nat): (r: CallbackResult)
    ensures r.location != cfg.frontendUrl
    ensures r.session.None?
    ensures LoginSucceeds(code, error, reply) ==>
      && r.location == ErrorRedirect(cfg, "auth_failed")
      && r.employees == RecordLogin(es, reply.decoding.claims, now, elapsed)
    ensures !LoginSucceeds(code, error, reply) ==>
      r == Callback(cfg, code, error, reply, es, None, now, elapsed)
  {
    var r := Callback(cfg, code, error, reply, es, None, now, elapsed);
    if r.location == cfg.frontendUrl then
      assert |ErrorRedirect(cfg, "auth_failed")| > |cfg.frontendUrl|;
      r.(location := ErrorRedirect(cfg, "auth_failed"), session := None)
    else
      r
  }

  /** A first login with a valid identity, as written: the employee document is
      inserted, yet the browser is sent to `?error=auth_failed` and no session
      is stored; with a session middleware the same login succeeds. */
  lemma FirstLoginReportedAsFailed(cfg: Config, now: int)
    ensures var reply := IdToken(Decoded(map["uid" := "alice"]));
      var written := CallbackAsWritten(cfg, Some("c"), None, reply, [], now, 0);
      var intended := Callback(cfg, Some("c"), None, reply, [], None, now, 0);
      && written.location == ErrorRedirect(cfg, "auth_failed")
      && |written.employees| == 1 && written.employees[0].w3Id == Some("alice")
      && written.session.None?
      && intended.location == cfg.frontendUrl
      && intended.session == Some(SessionUser("alice", None, None))
  {
    var c: Claims := map["uid" := "alice"];
    assert Claim(c, "uid") == Some("alice");
    assert Claim(c, "email") == None && Claim(c, "name") == None;
    assert W3IdOf(c) == Some("alice");
    assert FindEmployee([], "alice") == None;
  }
}
