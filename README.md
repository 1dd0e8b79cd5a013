# MiniSocketBlog HTTP substrate and authentication, in Dafny

MiniSocketBlog is a small blog server. It accepts raw TCP connections and speaks
HTTP/1.1 itself, without a protocol library. This project models the core of that
server and proves properties of the model:

- **The request decoder** (`server/http_request.py`) turns the bytes read from a
  socket into a request. A request has a method, path, version, headers, query,
  cookies, a body, and the form or JSON document the body carries.
  `HttpRequests.Decode` is the decoder as a function of the input. `Parse` and
  `ParseCookies` are its loops, proved equal to it.
- **The response encoder** (`server/http_response.py`) builds a response three
  ways: text, JSON or redirect. It serializes a response as a status line, header
  lines, an empty line and the body. This is the message layout of section 2.1 of
  RFC 9112, with the status line of section 4.
  Headers keep insertion order, as a Python dict does.
- **The router** (`server/router.py`) keeps an append-only list of
  (method, pattern, handler) routes. A request goes to the first route whose
  method equals the request's and whose pattern matches the whole path. The
  `{name}` placeholders of that pattern become the request's path parameters.
- **The route table** (`build_router` in `main.py`) registers 31 routes in a fixed
  order. Lemmas show what that order decides for paths that several patterns
  match.
- **The session store** (`server/session.py`) maps session ids to a user id and
  an expiry time. Expiry is checked lazily: an expired session is removed when it
  is read.
- **The metrics collector** (`server/metrics.py`) keeps a sliding window of
  request samples and aggregates it into a snapshot.
- **The authentication handlers** (`controllers/auth_controller.py`) cover
  sign-up, sign-in, sign-out and "who am I". They sit on the decoder, the JSON
  response and the session store.

Files: `wrappers.dfy` (Option, Result), `dicts.dfy` (Python dict semantics),
`strings.dfy` (str.split, partition, strip, case mapping, int parsing, UTF-8),
`externals.dfy` (JSON values and the library calls the code makes),
`http_request.dfy`, `http_response.dfy`, `router.dfy`, `session.dfy`,
`metrics.dfy`, `app.dfy` (the route table) and `auth_controller.dfy`.

Values the program takes from the outside world are parameters of the model:
- the clock (`now`);
- the session id `secrets.token_hex` draws (`token`);
- the library calls, gathered in `Externals.Lib`: lenient and strict UTF-8 decoding, `json.loads`, `json.dumps`, `parse_qsl` and `unquote`;
- the account service's answers (`AuthController.AuthService`);
- the route handlers (`Routing.Router.Dispatch` takes the call as a function).

Where the code raises, the model returns an error value:
- `HttpRequests.Decode` fails in two cases. A request line that is not three words gives `Err(MalformedRequestLine)` (http_request.py:36). A JSON or form body that is not UTF-8 gives `Err(UndecodableBody)` (http_request.py:48-56).
- `register` and `login` raise on a JSON body that is truthy but not an object, since it has no `.get`. They return `Err(PayloadNotObject)` for it.
- `login` does not catch what `auth_service.login` raises, for example on a password that is not a string. It returns `Err(ServiceRaised(reason))` for it and leaves the session store unchanged.
- `current_user` serializes the user row with `json.dumps` and no `default=` (http_response.py:45). A column that is not JSON, such as a `datetime`, raises `TypeError`. `AuthController.CurrentUser` returns `Err(Unserializable)` for it. A user row is a map from column names to `Column` values, and `Opaque` marks such a value. The `User` record declares `created_at: datetime` (models/dto.py:15). If the table returns it that way, every signed-in user's `current_user` fails. The table schema is not part of this model, so the model leaves it open: `getUser` may return either kind of value.

## Model

| member | source | states |
|---|---|---|
| HttpRequests.HttpRequest.constructor | server/http_request.py:9-23 | a request holds its decoded fields and its client address. It starts with no path parameters |
| HttpRequests.Lookup | server/http_request.py:45 | `d.get(k, "")`: the stored value for a present key, the empty text for a missing one |
| HttpRequests.HeaderLines | server/http_request.py:29-34 | there is always a first (request) line, and no line contains CR LF |
| HttpRequests.HeaderLinesJoin | server/http_request.py:29-34 | joining the lines with CR LF gives back the decoded header block before the first blank line |
| HttpRequests.HeaderEntry | server/http_request.py:39-43 | an empty line adds no header. A line without ':' gives its stripped, lower-cased text as the name and an empty value |
| HttpRequests.CookieEntry | server/http_request.py:75-80 | a blank item adds no cookie. An item without '=' gives a cookie with an empty value |
| HttpRequests.BodyFields | server/http_request.py:46-56 | only a non-empty body is read, and at most one of form and JSON is filled. A JSON type wins over a form type. Any other type leaves the body uninterpreted. The decode fails exactly when a JSON or form body is not UTF-8 |
| HttpRequests.ParseCookies | server/http_request.py:70-81 | the cookie loop builds exactly `Cookies(header)` |
| HttpRequests.Parse | server/http_request.py:25-68 | returns a fresh request holding exactly what `Decode` gives, or `Decode`'s error. The client address is kept and there are no path parameters |
| HttpRequests.DecodeRequestLine | server/http_request.py:35-37 | decoding fails on the request line exactly when the line is not three words. Otherwise the method is the first word upper-cased and the version the third. The second word gives the percent-decoded path before its first '?' and the query pairs after it |
| HttpRequests.DecodeRequestLineWords | server/http_request.py:36-37 | a request line of three single-spaced words decodes to exactly those words |
| HttpRequests.ThreeWords | server/http_request.py:36 | `split()` of three words joined by spaces gives the three words back |
| HttpRequests.DecodedBody | server/http_request.py:29-33 | the body is everything after the first CR LF CR LF, and is empty when there is none |
| HttpRequests.DecodeHeaders | server/http_request.py:38-56 | the decoded request carries the header dict of its header block and the cookies of its `cookie` header. Its body is interpreted by its `content-type` header |
| HttpRequests.HeadersLastWins | server/http_request.py:38-43 | a header has the value from the last non-empty line that names it. Names are compared stripped and lower-cased |
| HttpRequests.HeadersAbsent | server/http_request.py:38-43 | a name that no header line carries is not a header |
| HttpRequests.HeaderEntryOf | server/http_request.py:42-43 | a header line splits at its first ':' only. The value may contain ':' |
| HttpRequests.CookieEntryOf | server/http_request.py:79-80 | a cookie item splits at its first '=' only |
| HttpRequests.CookiesLastWins | server/http_request.py:75-80 | for a repeated cookie name the last item wins |
| HttpRequests.CookiesOfHeader | server/http_request.py:70-81 | round trip: a browser's `Cookie` header `n1=v1; n2=v2` decodes back to `dict` of its pairs |
| HttpRequests.CookieItemEntry | server/http_request.py:76-80 | a well-formed item, with or without the space after ';', gives back its own name and value |
| HttpResponses.ReasonExamples | server/http_response.py:17-28 | examples: 200, 404 and 500 get their phrases, and codes missing from the table, such as 418 and 503, get "OK" |
| HttpResponses.BodyHeaders | server/http_response.py:35-38 | header names are distinct. `Content-Type` is the given type, and `Content-Length` reads back as the body's length in bytes |
| HttpResponses.WithDefaults | server/http_response.py:62-63 | the headers as given, then `Server: MiniSocketBlog/0.1` if there was no `Server`, then `Connection: close` if there was no `Connection`. Keys stay unique |
| HttpResponses.HttpResponse.Text | server/http_response.py:30-39 | the status and its phrase. The body is the UTF-8 of the content, with its type and exact length |
| HttpResponses.HttpResponse.Json | server/http_response.py:41-50 | the status and its phrase. The body is the UTF-8 of the serialized payload, typed as JSON, with its exact length |
| HttpResponses.HttpResponse.Redirect | server/http_response.py:52-57 | 302 Found, with `Location` and a declared length of 0 for an empty body |
| HttpResponses.HttpResponse.SetHeader | controllers/auth_controller.py:42 | `resp.headers[name] = value`: the header has the new value and no other header changes |
| HttpResponses.HttpResponse.ToBytes | server/http_response.py:59-66 | adds the defaults to the response itself. The bytes are the status line, the header lines in order, an empty line, then the body |
| HttpResponses.ToBytesTwice | server/http_response.py:59-66 | serializing twice gives the same headers and the same bytes |
| Dicts.LoopDictLastWins | server/http_request.py:38-43 | for a dict filled by a loop of assignments, a key holds the value from the last item that produces it |
| Dicts.LoopDictAbsent | server/http_request.py:38-43 | a key that no item produces is not in the dict |
| Dicts.DictOfLastWins | server/http_request.py:44 | in `dict(pairs)` a key has the value of its last pair |
| Dicts.DictOfKeys | server/http_request.py:44 | `dict(pairs)` has exactly the keys the pairs carry |
| Dicts.Put | server/http_response.py:14 | dict assignment on an ordered dict: the key has the new value and every other key keeps its own. An existing key keeps its place, and a new one goes at the end |
| Dicts.SetDefault | server/http_response.py:62-63 | `setdefault` adds the pair at the end only for a missing key. A present key is left unchanged |
| Strings.Partition | server/http_request.py:37 | `partition`: when the separator occurs, the text is head + separator + tail and the head holds no earlier occurrence. Otherwise the result is (text, "") |
| Strings.SplitJoin | server/router.py:21-22 | splitting pieces joined by a separator they do not contain gives the pieces back |
| Strings.JoinSplit | server/router.py:21-22 | joining the pieces of a split gives the text back |
| Strings.TokensOfJoin | server/http_request.py:36 | `split()` of words joined by single spaces gives the words back |
| Strings.ParseIntToString | server/session.py:18-21 | `int(str(n)) == n` for every integer |
| Strings.Utf8Append | server/http_response.py:66 | the UTF-8 of a concatenation is the concatenation of the UTF-8s |
| Routing.SegmentOf | server/router.py:21 | a piece is a placeholder exactly when it has the form `{name}` with a non-empty name. Any other piece is literal text |
| Routing.Compile | server/router.py:21-22 | one segment per '/'-separated piece of the pattern |
| Routing.CompilePatternOf | server/router.py:21-22 | round trip: segments a pattern can compile to are recovered from their pattern text |
| Routing.PatternOfCompile | server/router.py:21-22 | round trip: every pattern compiles to such segments, whose text is the pattern again |
| Routing.Captures | server/router.py:33-34 | every binding pairs a placeholder's name with the path piece in its place |
| Routing.CapturesComplete | server/router.py:33-34 | every placeholder has its binding to the piece in its place, and there are no more bindings than segments |
| Routing.CapturesBind | server/router.py:21-34 | with distinct placeholder names (which `re.compile` requires), the group dict maps each placeholder to its own piece and has no other key |
| Routing.PathMatchDollar | server/router.py:22 | `^…$` matches the whole path, or else the path without a final line feed |
| Routing.MatchFilled | server/router.py:21-22 | a path made by filling the placeholders with non-empty, '/'-free text matches. With distinct placeholder names, the match binds each placeholder to its text |
| Routing.MatchedIsFilled | server/router.py:21-22 | every path that matches is such a filling of the pattern |
| Routing.FirstMatch | server/router.py:28-35 | the first route in registration order that takes the request, with its bindings. None exactly when no route takes it |
| Routing.NotSelected | server/router.py:28-32 | a route does not take a request with another method, another number of pieces, or a piece that clashes with its literal text |
| Routing.CapturesNone | server/router.py:33-34 | a pattern without placeholders binds nothing |
| Routing.CapturesOne | server/router.py:33-34 | a pattern with one placeholder binds it to its piece of the path |
| Routing.SelectsFitting | server/router.py:28-34 | a route with the request's method whose segments fit the path pieces takes the request |
| Routing.SelectsLiteral | server/router.py:28-34 | such a route without placeholders takes the request with no bindings |
| Routing.SelectsOneParam | server/router.py:28-34 | such a route with one placeholder binds it to the piece in its place |
| Routing.FirstMatchAt | server/router.py:28-34 | route i is the first match when it takes the request and no earlier route does |
| Routing.Compiled | server/router.py:21-22 | a pattern written as pieces joined by '/' compiles to the segments of those pieces |
| Routing.FirstMatchAppend | server/router.py:23 | adding a route at the end never changes where an earlier match goes. It only catches requests no earlier route took |
| Routing.Router.constructor | server/router.py:15-16 | a new router has no routes |
| Routing.Router.AddRoute | server/router.py:18-23 | appends one route, with the method upper-cased and the pattern compiled |
| Routing.Router.Resolve | server/router.py:25-35 | the first matching route's handler and bindings, which also become the request's path parameters. With no match, nothing, and the request is untouched |
| Routing.Router.Dispatch | server/router.py:37-43 | the matched handler's response, with the path parameters set to the bindings. Otherwise a fresh 404 "Not Found" text page with its `Content-Type` and `Content-Length` headers, and the path parameters untouched |
| App.AppRoutes | main.py:24-66 | the 31 registered routes, in registration order |
| App.RegisteredCanonical | main.py:24-66 | every registered pattern is made of segments a pattern can compile to |
| App.RegisteredAsWritten | main.py:24-66 | every registered method is already upper case, and every pattern compiles to the segments it is written with |
| App.BuildRouter | main.py:20-68 | a new router holding exactly the table, in order |
| App.NewPostPageBeforePostDetail | main.py:28-30 | `GET /posts/new` goes to the new-post page, not to the post page that would also take it |
| App.SubmitPostPageRoute | main.py:29 | `POST /posts/new` goes to the post submission |
| App.PostDetailRoute | main.py:30 | `GET /posts/<id>` shows post id for every non-empty id other than `new` (with or without a final line feed) |
| App.SearchPostsBeforeGetPost | main.py:43-45 | `GET /api/posts/search` searches, not the post route that would also take it |
| App.ListCommentsRoute | main.py:51 | `GET /api/posts/<id>/comments` lists the comments of that post |
| App.UnknownPathUnrouted | main.py:24-66 | no route takes `/unknown`, whatever the method |
| App.UnknownSkipsPages | main.py:24-33 | no page route takes `/unknown` |
| App.UnknownSkipsApi | main.py:36-66 | no API route takes `/unknown` |
| Sessions.NewSession | server/session.py:18-21 | the stored user id and expiry read back as the user id and now + ttl |
| Sessions.Lookup | server/session.py:24-33 | unknown id: no user. Expired id (expiry < now): no user, and the session is removed. Otherwise: its user, and nothing changes |
| Sessions.SessionStore.constructor | server/session.py:11-12 | a new store is empty |
| Sessions.SessionStore.Create | server/session.py:14-22 | stores the new record under the drawn id, changes nothing else, and returns the id |
| Sessions.SessionStore.GetUserId | server/session.py:24-33 | the answer and the new store are those of `Lookup` |
| Sessions.SessionStore.Delete | server/session.py:35-36 | removes the id if present, and nothing else |
| Sessions.CreateThenLookup | server/session.py:14-33 | a created session reads back its user at any time up to and including its expiry, and stays. Earlier times, even before its creation, count too |
| Sessions.CreateThenLookupAtOnce | server/session.py:14-33 | read at creation time, it gives its user when the lifetime is not negative |
| Sessions.LookupAfterExpiry | server/session.py:30-32 | after its expiry second a session answers nothing, is removed, and every other session stays |
| Sessions.DeleteIdempotent | server/session.py:35-36 | deleting twice is deleting once, and deleting an unknown id changes nothing |
| Metrics.Retained | server/metrics.py:67-70 | trimming drops only a prefix, and each sample dropped is older than the cutoff. The first sample kept is not |
| Metrics.RetainedInWindow | server/metrics.py:67-70 | for time-ordered samples, what is kept is time-ordered and entirely inside the window |
| Metrics.RetainedKeepsLast | server/metrics.py:67-70 | a last sample inside the window is never dropped |
| Metrics.RecordKeepsNewSample | server/metrics.py:26-31 | with a non-negative window, the sample just recorded is kept, as the last one |
| Metrics.OrderedSnoc | server/metrics.py:30 | appending a sample no older than the last keeps the queue time-ordered |
| Metrics.RecordKeepsOrder | server/metrics.py:26-31 | while the clock does not go back, recording keeps the queue time-ordered and inside the window |
| Metrics.MaxLatency | server/metrics.py:51 | the largest latency, which some sample has |
| Metrics.MinLatency | server/metrics.py:52 | the smallest latency, which some sample has |
| Metrics.TotalLatencyBounds | server/metrics.py:49 | the total lies between count × any lower bound and count × any upper bound |
| Metrics.MeanLatency | server/metrics.py:59 | the mean latency lies between the minimum and the maximum |
| Metrics.MeanLatencyBounds | server/metrics.py:59 | the total over the count lies between any bounds of the latencies, and times the count gives the total back |
| Metrics.Span | server/metrics.py:53 | the span is the larger of 1e-6 and last minus first timestamp: at least both, and equal to one of them |
| Metrics.Aggregate | server/metrics.py:49-65 | count and window as given. The average latency is the total over the count and lies between the minimum and maximum of the samples. The RTT average equals the latency average. Throughput is bytes out / 1024 / span, and the request rate is count / span |
| Metrics.Summary | server/metrics.py:37-65 | an empty window reports all zeros. Otherwise the count, the min and max latencies of the samples, the average (the total over the count), throughput = bytes out / 1024 / span, and request rate = count / span |
| Metrics.MetricsCollector.constructor | server/metrics.py:21-24 | a new collector has the given window and no samples |
| Metrics.MetricsCollector.Trim | server/metrics.py:67-70 | the loop leaves exactly `Retained(samples, now - window)` |
| Metrics.MetricsCollector.Record | server/metrics.py:26-31 | appends the sample stamped `now`, then trims |
| Metrics.MetricsCollector.TakeSnapshot | server/metrics.py:33-65 | trims, then reports `Summary` of what is left |
| AuthController.FirstMissing | controllers/auth_controller.py:9-13 | none exactly when every field is present. Otherwise the index of a missing field, with every earlier one present |
| AuthController.RequireFields | controllers/auth_controller.py:9-13 | the loop stops at the first missing field and names it, and succeeds only when none is missing |
| AuthController.Respond | server/http_response.py:41-50 | a fresh JSON response with the reply's status, payload and cookie |
| AuthController.Register | controllers/auth_controller.py:16-30 | the response `RegisterReply` gives for the payload. A truthy non-object JSON body is an error |
| AuthController.RegisterRejectsIncomplete | controllers/auth_controller.py:17-20 | without a truthy username, password and nickname: 400 naming the first missing one, whatever the service would do |
| AuthController.RegisterOutcome | controllers/auth_controller.py:21-30 | with the fields present: 201 with the new id, or 400 with the service's reason |
| AuthController.Login | controllers/auth_controller.py:33-43 | the response `LoginReply` gives. A session is created under the drawn id exactly when a user matches, and the store is unchanged otherwise. What the service raises escapes as `ServiceRaised`, with the store unchanged |
| AuthController.LoginOutcome | controllers/auth_controller.py:33-43 | 400 exactly when a field is missing. With both fields present, an error escapes exactly when the service raises; otherwise 401 exactly when no user matches and 200 exactly on a match. A cookie is set exactly on 200, and it names the session |
| AuthController.Logout | controllers/auth_controller.py:46-52 | removes the session the cookie names, if it names one, and always answers 200 with the cookie cleared |
| AuthController.CurrentUserOf | controllers/auth_controller.py:65-72 | no user and the store untouched without a non-empty `session_id` cookie or for an unknown session. No user and the session removed once it has expired. For a live session the store is untouched, and the result is no user for user id 0 and the service's user for any other id. The sessions left hold integer user ids and expiries |
| AuthController.GetCurrentUser | controllers/auth_controller.py:65-72 | the user found and the store left are those of `CurrentUserOf`: no user without a cookie, for an unknown, expired (then removed) session or user id 0, and otherwise the session's user |
| AuthController.CurrentUser | controllers/auth_controller.py:55-62 | answers `CurrentUserReply` of the user `CurrentUserOf` finds: null for none, otherwise the row without its password columns. If a remaining column is not JSON, `Err(Unserializable)` escapes instead. The store is left as `CurrentUserOf` leaves it |
| AuthController.CurrentUserHidesSecrets | controllers/auth_controller.py:57-62 | fails exactly when a column other than `password_hash` and `salt` is not JSON. Otherwise a 200 without a cookie: null exactly for no user or an empty row, else every column except `password_hash` and `salt`, unchanged |
| AuthController.SessionCookieReadBack | controllers/auth_controller.py:42 | round trip: the login cookie, sent back by the browser, decodes to the session id under "session_id" |
| AuthController.LoginThenCurrentUser | controllers/auth_controller.py:33-72 | after a successful login, the session cookie finds the signed-in user at any time up to the session's expiry |
| AuthController.LogoutThenCurrentUser | controllers/auth_controller.py:46-72 | in the sessions `logout` leaves (all of them without a non-empty cookie, all but the named one otherwise), the same cookies find no user and change nothing |

## Left out

- Sockets, the thread per connection, and the locks of the metrics collector: the model is sequential. The connection handler and the server loop (`server/tcp_http_server.py`) are not part of this model.
- Floating-point arithmetic: timestamps, latencies and the snapshot's ratios are exact reals, so rounding is not modelled.
- Unicode case mapping: `upper()` and `lower()` map ASCII letters only. Strip and split use Python's whitespace set.
- Regular-expression generality: a pattern piece is a placeholder only when the whole piece is `{name}`. Literal text is compared as text, although `re.compile` would treat `.` or `+` in it as metacharacters. A pattern that names one placeholder twice, which `re.compile` refuses, is not rejected. No route of the application does any of these.
- Library calls (lenient and strict UTF-8 decoding, `json.loads`, `json.dumps`, `parse_qsl`, `unquote`) are uninterpreted functions. What they compute is not modelled. UTF-8 encoding itself is modelled.
- The account service (user table, bcrypt) is a parameter. `auth_service.login` is modelled as the user match, or what it raises, followed by `SessionStore.Create` on a match.
- Routing.Router.Dispatch: the handler call `invoke` is a function of the handler and the request that cannot read the heap. So a handler cannot depend on the `path_params` that `resolve` has just set. Only the handler's identity and the request are passed on.
- AuthController.Login: requires a non-empty `token`, because a session id from `secrets.token_hex(16)` is never empty.
- The clock and the random session id are parameters (`now`, `token`).
- JSON object key order is not modelled: payloads are maps.
- App.BuildRouter: the table lists the segments of each pattern, and `RegisteredAsWritten` proves only that the pattern text generated from them compiles back to them. That these segments are the literal patterns of `main.py` is stated by the comment beside each entry of `App.Registered`, not proved.
- The resolution lemmas state the path by its '/'-separated pieces, not as a literal text.
- Metrics.MeanLatency: its contract states the bounds. The identity mean × count = total is proved in `MeanLatencyBounds`.
- The other controllers, the services, the repositories, the templates, static files and configuration are not part of this model. Neither are the handlers the other 27 routes lead to: `App.Handler` names them.
