/**
 * The session-based authentication handlers (controllers/auth_controller.py):
 * sign-up, sign-in, sign-out and "who am I", on top of the request decoder,
 * the JSON response helper and the session store.
 *
 * The account service (a user table and password hashing) is a parameter:
 * `AuthService` gives what each of its calls returns. Signing in opens a
 * session in the store under `token`, the id the service would draw, at
 * time `now`.
 */
module AuthController {
  import opened Wrappers
  import opened Strings
  import opened Dicts
  import opened Externals
  import opened HttpRequests
  import opened HttpResponses
  import Sessions

  /**
   * A column value of a user row: one `json.dumps` can write, or one it
   * cannot, such as the `datetime` of `created_at`, named by its type.
   */
  datatype Column = Value(json: JsonValue) | Opaque(typeName: string)

  /** A user row as the user repository returns it: column name to value. */
  type UserRecord = map<string, Column>

  /** The account service calls the handlers make. */
  datatype AuthService = AuthService(
    /** `auth_service.register(username, password, nickname, email)`: the new user id, or the text of what it raises. */
    register: (JsonValue, JsonValue, JsonValue, JsonValue) -> Result<int, string>,
    /**
     * The user whose name and password match, for whom `auth_service.login`
     * opens a session; `None` for no match; or the text of what the check
     * raises (a password that is not a string has no `encode`).
     */
    authenticate: (JsonValue, JsonValue) -> Result<Option<int>, string>,
    /** `auth_service.get_user`: the user row, if there is one. */
    getUser: int -> Option<UserRecord>)

  /** What escapes a handler instead of a response. */
  datatype HandlerError =
    | PayloadNotObject  // a truthy JSON body that is not an object has no `.get`
    | ServiceRaised(reason: string)  // what `auth_service.login` raised; `login` does not catch it
    | Unserializable  // the `TypeError` of `json.dumps` on a column it cannot write

  // ---------------------------------------------------------------------------
  // The payload and `_require_fields`

  /** The payload a handler reads, `request.json_data or request.form`: a field map, or a JSON value that is none. */
  datatype Payload = Fields(fields: map<string, JsonValue>) | NotObject(value: JsonValue)

  /** The form fields as payload values. */
  function FormFields(form: map<string, string>): map<string, JsonValue> {
    map name | name in form :: JString(form[name])
  }

  /** `request.json_data or request.form`: the JSON document when there is a truthy one, otherwise the form. */
  function PayloadOf(data: RequestData): Payload {
    if data.jsonData.Some? && Truthy(data.jsonData.value) then
      match data.jsonData.value
      case JObject(fields) => Fields(fields)
      case other => NotObject(other)
    else Fields(FormFields(data.form))
  }

  /** `payload.get(name)` is truthy. */
  predicate Present(fields: map<string, JsonValue>, name: string) {
    name in fields && Truthy(fields[name])
  }

  /** The index of the first listed field that is missing or falsy, if any. */
  function FirstMissing(fields: map<string, JsonValue>, names: seq<string>): (r: Option<nat>)
    ensures r.None? <==> forall i :: 0 <= i < |names| ==> Present(fields, names[i])
    ensures r.Some? ==> r.value < |names| && !Present(fields, names[r.value])
    ensures r.Some? ==> forall i :: 0 <= i < r.value ==> Present(fields, names[i])
  {
    if names == [] then None
    else if !Present(fields, names[0]) then Some(0)
    else
      var rest := FirstMissing(fields, names[1..]);
      assert forall i :: 1 <= i < |names| ==> names[i] == names[1..][i - 1];
      match rest
      case None => None
      case Some(i) => Some(i + 1)
  }

  /** The error text for a missing field. */
  function MissingMessage(name: string): string {
    "缺少字段 " + name
  }

  /** What `_require_fields` returns: success, or failure naming the first missing field. */
  function Required(fields: map<string, JsonValue>, names: seq<string>): (bool, string) {
    match FirstMissing(fields, names)
    case None => (true, "")
    case Some(i) => (false, MissingMessage(names[i]))
  }

  /** `_require_fields`: checks the fields in order and stops at the first missing one. */
  method RequireFields(fields: map<string, JsonValue>, names: seq<string>) returns (ok: bool, msg: string)
    ensures (ok, msg) == Required(fields, names)
  {
    for i := 0 to |names|
      invariant forall j :: 0 <= j < i ==> Present(fields, names[j])
    {
      if !Present(fields, names[i]) {
        return false, MissingMessage(names[i]);
      }
    }
    return true, "";
  }

  // ---------------------------------------------------------------------------
  // Replies

  /** A JSON response: its status, its payload and the `Set-Cookie` value set on it, if any. */
  datatype Reply = Reply(status: int, payload: JsonValue, setCookie: Option<string>)

  /** `{key: text}`. */
  function Message(key: string, text: string): JsonValue {
    JObject(map[key := JString(text)])
  }

  /** `payload.get(name)`, with JSON null for a missing field. */
  function FieldOrNull(fields: map<string, JsonValue>, name: string): JsonValue {
    if name in fields then fields[name] else JNull
  }

  /** The response a reply stands for: `HttpResponse.json(payload, status)`, then the cookie header. */
  ghost predicate Sends(resp: HttpResponse, reply: Reply, lib: Lib)
    reads resp
  {
    resp.statusCode == reply.status && resp.reason == Reason(reply.status)
    && resp.body == Utf8(lib.jsonDumps(reply.payload))
    && resp.headers == match reply.setCookie
      case None => BodyHeaders(JsonContentType, resp.body)
      case Some(cookie) => Put(BodyHeaders(JsonContentType, resp.body), "Set-Cookie", cookie)
  }

  /** Builds the response of a reply. */
  method Respond(reply: Reply, lib: Lib) returns (resp: HttpResponse)
    ensures fresh(resp) && resp.Valid() && Sends(resp, reply, lib)
  {
    resp := new HttpResponse.Json(reply.payload, lib, reply.status);
    if reply.setCookie.Some? {
      resp.SetHeader("Set-Cookie", reply.setCookie.value);
    }
  }

  // ---------------------------------------------------------------------------
  // register

  const RegisterFields: seq<string> := ["username", "password", "nickname"]

  /** What `register` answers for a field map. */
  function RegisterReply(fields: map<string, JsonValue>, service: AuthService): Reply {
    match Required(fields, RegisterFields)
    case (false, msg) => Reply(400, Message("error", msg), None)
    case (true, _) =>
      assert Present(fields, RegisterFields[0]) && Present(fields, RegisterFields[1]) && Present(fields, RegisterFields[2]);
      match service.register(fields["username"], fields["password"], fields["nickname"], FieldOrNull(fields, "email"))
      case Err(reason) => Reply(400, Message("error", "注册失败: " + reason), None)
      case Ok(userId) => Reply(201, JObject(map["user_id" := JNumber(userId as real)]), None)
  }

  /** `register`: creates an account from the username, password, nickname and optional email. */
  method Register(request: HttpRequest, service: AuthService, lib: Lib) returns (r: Result<HttpResponse, HandlerError>)
    ensures PayloadOf(request.data).NotObject? ==> r == Err(PayloadNotObject)
    ensures PayloadOf(request.data).Fields? ==>
      r.Ok? && fresh(r.value) && Sends(r.value, RegisterReply(PayloadOf(request.data).fields, service), lib)
  {
    var payload := PayloadOf(request.data);
    if payload.NotObject? {
      return Err(PayloadNotObject);
    }
    var fields := payload.fields;
    var ok, msg := RequireFields(fields, RegisterFields);
    if !ok {
      var resp := Respond(Reply(400, Message("error", msg), None), lib);
      return Ok(resp);
    }
    assert Present(fields, RegisterFields[0]) && Present(fields, RegisterFields[1]) && Present(fields, RegisterFields[2]);
    var reply: Reply;
    match service.register(fields["username"], fields["password"], fields["nickname"], FieldOrNull(fields, "email")) {
      case Err(reason) =>
        reply := Reply(400, Message("error", "注册失败: " + reason), None);
      case Ok(userId) =>
        reply := Reply(201, JObject(map["user_id" := JNumber(userId as real)]), None);
    }
    var resp := Respond(reply, lib);
    return Ok(resp);
  }

  /**
   * Without a truthy username, password and nickname, `register` answers 400
   * naming the first one missing, whatever the service would do: it is not
   * called.
   */
  lemma RegisterRejectsIncomplete(fields: map<string, JsonValue>, service: AuthService, other: AuthService)
    requires !Present(fields, "username") || !Present(fields, "password") || !Present(fields, "nickname")
    ensures RegisterReply(fields, service) == RegisterReply(fields, other)
    ensures var missing :=
        if !Present(fields, "username") then "username"
        else if !Present(fields, "password") then "password"
        else "nickname";
      RegisterReply(fields, service) == Reply(400, Message("error", MissingMessage(missing)), None)
  {
    assert RegisterFields[0] == "username" && RegisterFields[1] == "password" && RegisterFields[2] == "nickname";
  }

  /** With the fields present, `register` answers 201 with the new id, or 400 with what the service raised. */
  lemma RegisterOutcome(fields: map<string, JsonValue>, service: AuthService)
    requires Present(fields, "username") && Present(fields, "password") && Present(fields, "nickname")
    ensures var result := service.register(fields["username"], fields["password"], fields["nickname"], FieldOrNull(fields, "email"));
      RegisterReply(fields, service) == match result
        case Ok(userId) => Reply(201, JObject(map["user_id" := JNumber(userId as real)]), None)
        case Err(reason) => Reply(400, Message("error", "注册失败: " + reason), None)
  {
    assert RegisterFields[0] == "username" && RegisterFields[1] == "password" && RegisterFields[2] == "nickname";
  }

  // ---------------------------------------------------------------------------
  // login

  const LoginFields: seq<string> := ["username", "password"]

  /** The `Set-Cookie` value that hands the session id to the browser. */
  function SessionCookie(sessionId: string): string {
    "session_id=" + sessionId + "; Path=/; HttpOnly"
  }

  /**
   * The user `login` opens a session for: none without both fields or without
   * a match, or what the service raised.
   */
  function LoginUser(fields: map<string, JsonValue>, service: AuthService): Result<Option<int>, string> {
    if Required(fields, LoginFields).0 then
      assert Present(fields, LoginFields[0]) && Present(fields, LoginFields[1]);
      service.authenticate(fields["username"], fields["password"])
    else Ok(None)
  }

  /** What `login` answers when the session it opens has id `sessionId`, or what escapes it. */
  function LoginReply(fields: map<string, JsonValue>, service: AuthService, sessionId: string): Result<Reply, HandlerError> {
    match Required(fields, LoginFields)
    case (false, msg) => Ok(Reply(400, Message("error", msg), None))
    case (true, _) =>
      match LoginUser(fields, service)
      case Err(reason) => Err(ServiceRaised(reason))
      case Ok(None) => Ok(Reply(401, Message("error", "用户名或密码错误"), None))
      case Ok(Some(_)) => Ok(Reply(200, Message("message", "登录成功"), Some(SessionCookie(sessionId))))
  }

  /**
   * `login`: on a match, opens a session for the user under `token` at time
   * `now` and hands its id to the browser in a cookie.
   */
  method Login(request: HttpRequest, service: AuthService, store: Sessions.SessionStore, token: string, now: int, lib: Lib)
    returns (r: Result<HttpResponse, HandlerError>)
    requires store.Valid() && token != ""
    modifies store
    ensures store.Valid()
    ensures PayloadOf(request.data).NotObject? ==> r == Err(PayloadNotObject) && store.sessions == old(store.sessions)
    ensures PayloadOf(request.data).Fields? && LoginReply(PayloadOf(request.data).fields, service, token).Err? ==>
      r == Err(LoginReply(PayloadOf(request.data).fields, service, token).error) && store.sessions == old(store.sessions)
    ensures PayloadOf(request.data).Fields? && LoginReply(PayloadOf(request.data).fields, service, token).Ok? ==>
      var fields := PayloadOf(request.data).fields;
      r.Ok? && fresh(r.value) && Sends(r.value, LoginReply(fields, service, token).value, lib)
      && store.sessions == match LoginUser(fields, service)
        case Ok(Some(userId)) => old(store.sessions)[token := Sessions.NewSession(userId, now, store.ttl)]
        case _ => old(store.sessions)
  {
    var payload := PayloadOf(request.data);
    if payload.NotObject? {
      return Err(PayloadNotObject);
    }
    var fields := payload.fields;
    var ok, msg := RequireFields(fields, LoginFields);
    if !ok {
      var resp := Respond(Reply(400, Message("error", msg), None), lib);
      return Ok(resp);
    }
    assert Present(fields, LoginFields[0]) && Present(fields, LoginFields[1]);
    var sessionId := "";
    match service.authenticate(fields["username"], fields["password"]) {
      case Err(reason) =>
        return Err(ServiceRaised(reason));
      case Ok(None) =>
      case Ok(Some(userId)) =>
        sessionId := store.Create(userId, token, now);
    }
    if sessionId == "" {
      var resp := Respond(Reply(401, Message("error", "用户名或密码错误"), None), lib);
      return Ok(resp);
    }
    var resp := Respond(Reply(200, Message("message", "登录成功"), Some(SessionCookie(sessionId))), lib);
    return Ok(resp);
  }

  /**
   * `login` answers 400 without both fields, lets what the service raised
   * escape, answers 401 without a match, and otherwise 200 with the session
   * cookie.
   */
  lemma LoginOutcome(fields: map<string, JsonValue>, service: AuthService, sessionId: string)
    ensures var result := LoginReply(fields, service, sessionId);
      var missing := exists i :: 0 <= i < |LoginFields| && !Present(fields, LoginFields[i]);
      (result.Err? <==> !missing && LoginUser(fields, service).Err?)
      && (result.Err? ==> result.error == ServiceRaised(LoginUser(fields, service).error))
      && (result.Ok? ==> var reply := result.value;
        (reply.status == 400 <==> missing)
        && (reply.status == 401 <==> !missing && LoginUser(fields, service) == Ok(None))
        && (reply.status == 200 <==> LoginUser(fields, service).Ok? && LoginUser(fields, service).value.Some?)
        && (reply.setCookie.Some? <==> reply.status == 200)
        && (reply.status == 200 ==> reply.setCookie == Some(SessionCookie(sessionId))))
  {
  }

  // ---------------------------------------------------------------------------
  // logout

  /** The `Set-Cookie` value that makes the browser drop its session cookie. */
  const ClearedCookie: string := "session_id=; Path=/; HttpOnly; Max-Age=0"

  /** What `logout` answers, whatever the request. */
  const LogoutReply: Reply := Reply(200, Message("message", "已退出"), Some(ClearedCookie))

  /** `request.cookies.get("session_id")`, with "" for a missing cookie: both are falsy. */
  function SessionIdOf(request: RequestData): string {
    Lookup(request.cookies, "session_id")
  }

  /** `logout`: ends the session the request's cookie names, if it names one, and clears the cookie. */
  method Logout(request: HttpRequest, store: Sessions.SessionStore, lib: Lib) returns (resp: HttpResponse)
    requires store.Valid()
    modifies store
    ensures store.Valid()
    ensures fresh(resp) && Sends(resp, LogoutReply, lib)
    ensures store.sessions == if SessionIdOf(request.data) == "" then old(store.sessions)
      else old(store.sessions) - {SessionIdOf(request.data)}
  {
    var sessionId := SessionIdOf(request.data);
    if sessionId != "" {
      store.Delete(sessionId);
    }
    resp := Respond(LogoutReply, lib);
  }

  // ---------------------------------------------------------------------------
  // get_current_user and current_user

  /**
   * What `get_current_user` finds for a request with these cookies at time
   * `now`, and the sessions it leaves: no user without a session cookie, for
   * an unknown or expired session, or for user id 0, which is falsy.
   */
  function CurrentUserOf(cookies: map<string, string>, sessions: map<string, Sessions.SessionData>, service: AuthService, now: int)
    : (r: (Option<UserRecord>, map<string, Sessions.SessionData>))
    requires Sessions.Readable(sessions)
    ensures Sessions.Readable(r.1)
    // no cookie, or an empty one: nobody, and the store is not read
    ensures "session_id" !in cookies || cookies["session_id"] == "" ==> r == (None, sessions)
    // an unknown session: nobody
    ensures "session_id" in cookies && cookies["session_id"] != "" && cookies["session_id"] !in sessions
      ==> r == (None, sessions)
    // an expired session: nobody, and the session is gone
    ensures var sid := Lookup(cookies, "session_id");
      sid != "" && sid in sessions && ParseInt(sessions[sid].expires).value < now
      ==> r == (None, sessions - {sid})
    // a live session: its user, except user id 0, which is falsy
    ensures var sid := Lookup(cookies, "session_id");
      sid != "" && sid in sessions && ParseInt(sessions[sid].expires).value >= now
      ==> var uid := ParseInt(sessions[sid].userId).value;
        r.1 == sessions && (uid == 0 ==> r.0 == None) && (uid != 0 ==> r.0 == service.getUser(uid))
  {
    var sessionId := Lookup(cookies, "session_id");
    if sessionId == "" then (None, sessions)
    else
      var (userId, rest) := Sessions.Lookup(sessions, sessionId, now);
      if userId.None? || userId.value == 0 then (None, rest)
      else (service.getUser(userId.value), rest)
  }

  /** `get_current_user`: the user of the request's session, reading (and so expiring) it in the store. */
  method GetCurrentUser(request: HttpRequest, store: Sessions.SessionStore, service: AuthService, now: int)
    returns (user: Option<UserRecord>)
    requires store.Valid()
    modifies store
    ensures store.Valid()
    ensures (user, store.sessions) == CurrentUserOf(request.data.cookies, old(store.sessions), service, now)
  {
    var sessionId := SessionIdOf(request.data);
    if sessionId == "" {
      return None;
    }
    var userId := store.GetUserId(sessionId, now);
    if userId.None? || userId.value == 0 {
      return None;
    }
    return service.getUser(userId.value);
  }

  /** The columns `current_user` removes before answering. */
  const SecretColumns: set<string> := {"password_hash", "salt"}

  /** `dict(user)` without `password_hash` and `salt`. */
  function SafeUser(user: UserRecord): UserRecord {
    user - SecretColumns
  }

  /** Whether `json.dumps` can write every column of a row. */
  predicate Writable(row: UserRecord) {
    forall column :: column in row ==> row[column].Value?
  }

  /** The row as a JSON object, for a row `json.dumps` can write. */
  function RowJson(row: UserRecord): map<string, JsonValue>
    requires Writable(row)
  {
    map column | column in row :: row[column].json
  }

  /**
   * What `current_user` answers for the user found: `{"user": null}` for none
   * or an empty row, otherwise the row without its password columns, or the
   * error `json.dumps` raises when a remaining column is not JSON.
   */
  function CurrentUserReply(user: Option<UserRecord>): Result<Reply, HandlerError> {
    if user.None? || user.value == map[] then Ok(Reply(200, JObject(map["user" := JNull]), None))
    else if !Writable(SafeUser(user.value)) then Err(Unserializable)
    else Ok(Reply(200, JObject(map["user" := JObject(RowJson(SafeUser(user.value)))]), None))
  }

  /** `current_user`: the signed-in user without the password columns. */
  method CurrentUser(request: HttpRequest, store: Sessions.SessionStore, service: AuthService, now: int, lib: Lib)
    returns (r: Result<HttpResponse, HandlerError>)
    requires store.Valid()
    modifies store
    ensures store.Valid()
    ensures var (user, sessions) := CurrentUserOf(request.data.cookies, old(store.sessions), service, now);
      store.sessions == sessions
      && (CurrentUserReply(user).Err? ==> r == Err(CurrentUserReply(user).error))
      && (CurrentUserReply(user).Ok? ==> r.Ok? && fresh(r.value) && Sends(r.value, CurrentUserReply(user).value, lib))
  {
    var user := GetCurrentUser(request, store, service, now);
    var reply := CurrentUserReply(user);
    if reply.Err? {
      return Err(reply.error);
    }
    var resp := Respond(reply.value, lib);
    return Ok(resp);
  }

  /**
   * `current_user` never shows a password hash or a salt, shows every other
   * column of the user unchanged, and fails exactly when one of those other
   * columns is not JSON: a password column is dropped before it is written.
   */
  lemma CurrentUserHidesSecrets(user: Option<UserRecord>)
    ensures var result := CurrentUserReply(user);
      (result.Err? <==>
        (user.Some? && user.value != map[]
         && exists column :: column in user.value && column !in SecretColumns && user.value[column].Opaque?))
      && (result.Ok? ==> result.value.status == 200 && result.value.setCookie == None)
      && (result.Ok? ==> var shown := result.value.payload.fields["user"];
        (shown == JNull <==> user.None? || user.value == map[])
        && (shown.JObject? ==> "password_hash" !in shown.fields && "salt" !in shown.fields)
        && (shown.JObject? ==> forall column :: column in shown.fields <==> column in user.value && column !in SecretColumns)
        && (shown.JObject? ==> forall column :: column in shown.fields ==> user.value[column] == Value(shown.fields[column])))
  {
    if user.Some? && user.value != map[] && !Writable(SafeUser(user.value)) {
      var column :| column in SafeUser(user.value) && !SafeUser(user.value)[column].Value?;
      assert column in user.value && column !in SecretColumns && user.value[column].Opaque?;
    } else if user.Some? {
      forall column | column in user.value && column !in SecretColumns
        ensures user.value[column].Value?
      {
        assert column in SafeUser(user.value);
      }
    }
  }

  // ---------------------------------------------------------------------------
  // Sessions across requests

  /**
   * The cookie `login` sets reads back as the session id: a browser that
   * keeps `session_id=<id>` and sends it in its `Cookie` header makes the
   * decoder find the id under "session_id".
   */
  lemma SessionCookieReadBack(sessionId: string)
    requires CookieValue(sessionId)
    ensures SessionCookie(sessionId) == CookieHeader([("session_id", sessionId)]) + "; Path=/; HttpOnly"
    ensures Cookies(CookieHeader([("session_id", sessionId)])) == map["session_id" := sessionId]
  {
    assert CookieName("session_id");
    var cookies := [("session_id", sessionId)];
    assert CookieItems(cookies) == ["session_id" + "=" + sessionId];
    assert CookieHeader(cookies) == "session_id=" + sessionId;
    CookiesOfHeader(cookies);
    DictOfShort("session_id", sessionId);
  }

  /**
   * After a successful login, a request carrying the session cookie finds the
   * signed-in user (unless its id is 0) at any time up to the session's
   * expiry, and leaves the session in place.
   */
  lemma LoginThenCurrentUser(fields: map<string, JsonValue>, service: AuthService, sessions: map<string, Sessions.SessionData>,
                             token: string, created: int, ttl: int, cookies: map<string, string>, now: int)
    requires Sessions.Readable(sessions)
    requires LoginUser(fields, service).Ok? && LoginUser(fields, service).value.Some?
    requires LoginUser(fields, service).value.value != 0
    requires token != "" && "session_id" in cookies && cookies["session_id"] == token
    requires now <= created + ttl
    ensures var userId := LoginUser(fields, service).value.value;
      var stored := sessions[token := Sessions.NewSession(userId, created, ttl)];
      Sessions.Readable(stored)
      && CurrentUserOf(cookies, stored, service, now) == (service.getUser(userId), stored)
  {
    Sessions.CreateThenLookup(sessions, LoginUser(fields, service).value.value, token, created, ttl, now);
  }

  /**
   * After logout, the same cookies find no user in the sessions `logout`
   * leaves, and leave them as they are.
   */
  lemma LogoutThenCurrentUser(sessions: map<string, Sessions.SessionData>, service: AuthService, cookies: map<string, string>, now: int)
    requires Sessions.Readable(sessions)
    ensures var sid := Lookup(cookies, "session_id");
      var rest := if sid == "" then sessions else sessions - {sid};
      Sessions.Readable(rest) && CurrentUserOf(cookies, rest, service, now) == (None, rest)
  {
  }
}
