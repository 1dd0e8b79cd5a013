/**
 * The response encoder of the HTTP substrate (server/http_response.py): a
 * response with a status, a reason phrase, headers kept in insertion order
 * and a body, three ways to build one, and its serialization in the
 * message layout of section 2.1 of RFC 9112 (a status line as in section 4,
 * header lines, an empty line, the body).
 */
module HttpResponses {
  import opened Wrappers
  import opened Strings
  import opened Dicts
  import opened Externals

  /** The reason phrases the server knows. */
  const ReasonTable: map<int, string> := map[
    200 := "OK",
    201 := "Created",
    204 := "No Content",
    302 := "Found",
    400 := "Bad Request",
    401 := "Unauthorized",
    403 := "Forbidden",
    404 := "Not Found",
    409 := "Conflict",
    500 := "Internal Server Error"
  ]

  /** The reason phrase for a status; a status missing from the table gets "OK". */
  function Reason(status: int): string {
    if status in ReasonTable then ReasonTable[status] else "OK"
  }

  /**
   * Examples of the table: the fallback "OK" is taken for a status the table
   * lacks, whatever its class, so 418 and 503 read "OK".
   */
  lemma ReasonExamples()
    ensures Reason(200) == "OK" && Reason(404) == "Not Found"
    ensures Reason(500) == "Internal Server Error"
    ensures Reason(418) == "OK" && Reason(503) == "OK"
  {
  }

  const ServerName: string := "MiniSocketBlog/0.1"
  const DefaultTextType: string := "text/html; charset=utf-8"
  const JsonContentType: string := "application/json; charset=utf-8"

  /** The body length a receiver reads from the `Content-Length` header, if any. */
  function DeclaredLength(headers: seq<(string, string)>): Option<nat> {
    match Get(headers, "Content-Length")
    case None => None
    case Some(v) => ParseNat(v)
  }

  /** The two headers every built body carries: its type and its length in bytes. */
  function BodyHeaders(contentType: string, body: Bytes): (h: seq<(string, string)>)
    ensures UniqueKeys(h)
    ensures Get(h, "Content-Type") == Some(contentType)
    ensures DeclaredLength(h) == Some(|body|)
  {
    var h := [("Content-Type", contentType), ("Content-Length", NatToString(|body|))];
    assert IndexOfKey(h, "Content-Length") == Some(1);
    ParseNatToString(|body|);
    h
  }

  /**
   * `to_bytes`'s header defaults: `Server` and then `Connection` are
   * appended only when absent; nothing present is changed or moved.
   */
  function WithDefaults(headers: seq<(string, string)>): (r: seq<(string, string)>)
    requires UniqueKeys(headers)
    ensures UniqueKeys(r)
    ensures |headers| <= |r| <= |headers| + 2 && r[..|headers|] == headers
    ensures Get(r, "Server") == if Get(headers, "Server").Some? then Get(headers, "Server") else Some(ServerName)
    ensures Get(r, "Connection") == if Get(headers, "Connection").Some? then Get(headers, "Connection") else Some("close")
    ensures forall k :: k != "Server" && k != "Connection" ==> Get(r, k) == Get(headers, k)
    ensures r == headers
      + (if Get(headers, "Server").None? then [("Server", ServerName)] else [])
      + (if Get(headers, "Connection").None? then [("Connection", "close")] else [])
  {
    SetDefault(SetDefault(headers, "Server", ServerName), "Connection", "close")
  }

  /** `HTTP/1.1 <code> <reason>` followed by CR LF. */
  function StatusLine(status: int, reason: string): string {
    "HTTP/1.1 " + IntToString(status) + " " + reason + "\r\n"
  }

  /** One `Name: Value` line, followed by CR LF, per header, in order. */
  function HeaderBlock(headers: seq<(string, string)>): string {
    if headers == [] then ""
    else headers[0].0 + ": " + headers[0].1 + "\r\n" + HeaderBlock(headers[1..])
  }

  /** The serialized response: the status line, the header lines, an empty line, then the body bytes. */
  function Wire(status: int, reason: string, headers: seq<(string, string)>, body: Bytes): Bytes {
    Utf8(StatusLine(status, reason) + HeaderBlock(headers) + "\r\n") + body
  }

  class HttpResponse {
    var statusCode: int
    var reason: string
    var headers: seq<(string, string)>
    var body: Bytes

    /** Header names are distinct, as the keys of a dict are. */
    ghost predicate Valid()
      reads this
    {
      UniqueKeys(headers)
    }

    /** `HttpResponse.text`: the content encoded as UTF-8, with its type and length. */
    constructor Text(content: string, status: int := 200, contentType: string := DefaultTextType)
      ensures Valid()
      ensures statusCode == status && reason == Reason(status)
      ensures body == Utf8(content)
      ensures headers == BodyHeaders(contentType, body)
    {
      statusCode := status;
      reason := Reason(status);
      body := Utf8(content);
      headers := BodyHeaders(contentType, Utf8(content));
    }

    /** `HttpResponse.json`: the payload serialized and encoded as UTF-8, typed as JSON. */
    constructor Json(payload: JsonValue, lib: Lib, status: int := 200)
      ensures Valid()
      ensures statusCode == status && reason == Reason(status)
      ensures body == Utf8(lib.jsonDumps(payload))
      ensures headers == BodyHeaders(JsonContentType, body)
    {
      statusCode := status;
      reason := Reason(status);
      body := Utf8(lib.jsonDumps(payload));
      headers := BodyHeaders(JsonContentType, Utf8(lib.jsonDumps(payload)));
    }

    /** `HttpResponse.redirect`: 302 Found to `location`, with an empty body. */
    constructor Redirect(location: string)
      ensures Valid()
      ensures statusCode == 302 && reason == "Found" && body == []
      ensures headers == [("Location", location), ("Content-Length", "0")]
      ensures Get(headers, "Location") == Some(location) && DeclaredLength(headers) == Some(0)
    {
      statusCode := 302;
      reason := "Found";
      body := [];
      var h := [("Location", location), ("Content-Length", "0")];
      assert IndexOfKey(h, "Content-Length") == Some(1);
      headers := h;
    }

    /** `resp.headers[name] = value`. */
    method SetHeader(name: string, value: string)
      requires Valid()
      modifies this
      ensures Valid()
      ensures headers == Put(old(headers), name, value)
      ensures statusCode == old(statusCode) && reason == old(reason) && body == old(body)
    {
      headers := Put(headers, name, value);
    }

    /**
     * `to_bytes`: adds the missing default headers to the response itself,
     * then serializes it.
     */
    method ToBytes() returns (out: Bytes)
      requires Valid()
      modifies this
      ensures Valid()
      ensures headers == WithDefaults(old(headers))
      ensures statusCode == old(statusCode) && reason == old(reason) && body == old(body)
      ensures out == Wire(statusCode, reason, headers, body)
    {
      headers := SetDefault(headers, "Server", ServerName);
      headers := SetDefault(headers, "Connection", "close");
      var responseLine := StatusLine(statusCode, reason);
      var headerLines := HeaderBlock(headers);
      out := Utf8(responseLine + headerLines + "\r\n") + body;
    }
  }

  /**
   * Serializing twice gives the same bytes: the second round of defaults
   * finds both headers present and changes nothing.
   */
  lemma ToBytesTwice(status: int, reason: string, headers: seq<(string, string)>, body: Bytes)
    requires UniqueKeys(headers)
    ensures var once := WithDefaults(headers);
      WithDefaults(once) == once
      && Wire(status, reason, WithDefaults(once), body) == Wire(status, reason, once, body)
  {
  }
}
