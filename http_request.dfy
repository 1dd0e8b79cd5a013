/**
 * The request decoder of the HTTP substrate (server/http_request.py): raw
 * bytes from the socket become a structured request with method, path,
 * query, headers, cookies and a body interpreted by its content type.
 *
 * `Decode` is the decoder as a function of the input bytes; `Parse` and
 * `ParseCookies` are the decoder's loops, proved equal to it.
 */
module HttpRequests {
  import opened Wrappers
  import opened Strings
  import opened Dicts
  import opened Externals

  /** The decoded fields of a request. */
  datatype RequestData = RequestData(
    httpMethod: string,
    path: string,
    version: string,
    headers: map<string, string>,
    query: map<string, string>,
    body: Bytes,
    form: map<string, string>,
    jsonData: Option<JsonValue>,
    cookies: map<string, string>)

  /** The exceptions the decoder lets escape. */
  datatype ParseError =
    | MalformedRequestLine  // the request line does not unpack into three words
    | UndecodableBody       // a JSON or form body that is not valid UTF-8

  /**
   * A request: the decoded fields, the client address, and the path
   * parameters, which the router fills in after decoding.
   */
  class HttpRequest {
    const data: RequestData
    const clientAddr: string
    var pathParams: map<string, string>

    constructor (data: RequestData, clientAddr: string)
      ensures this.data == data && this.clientAddr == clientAddr
      ensures pathParams == map[]
    {
      this.data := data;
      this.clientAddr := clientAddr;
      pathParams := map[];
    }
  }

  /** The blank line that ends the header block: CR LF CR LF. */
  const HeaderTerminator: Bytes := [13, 10, 13, 10]
  const LineBreak: string := "\r\n"
  const JsonType: string := "application/json"
  const FormType: string := "application/x-www-form-urlencoded"

  /** `d.get(k, "")`. */
  function Lookup(d: map<string, string>, k: string): (v: string)
    ensures k !in d ==> v == ""
    ensures k in d ==> v == d[k]
  {
    if k in d then d[k] else ""
  }

  /** The lines of the header block, decoded leniently; the first is the request line. */
  function HeaderLines(raw: Bytes, lib: Lib): (lines: seq<string>)
    ensures |lines| >= 1
    ensures forall i :: 0 <= i < |lines| ==> !Contains(lines[i], LineBreak)
  {
    SplitPieces(lib.decodeLenient(Partition(raw, HeaderTerminator).0), LineBreak);
    Split(lib.decodeLenient(Partition(raw, HeaderTerminator).0), LineBreak)
  }

  /** The lines, joined again by CR LF, are the decoded header block. */
  lemma HeaderLinesJoin(raw: Bytes, lib: Lib)
    ensures Join(HeaderLines(raw, lib), LineBreak) == lib.decodeLenient(Partition(raw, HeaderTerminator).0)
  {
    JoinSplit(lib.decodeLenient(Partition(raw, HeaderTerminator).0), LineBreak);
  }

  /**
   * What one header line contributes: nothing for an empty line, otherwise
   * the stripped, lower-cased name before the first ':' and the stripped
   * value after it (empty when there is no ':').
   */
  function HeaderEntry(line: string): (r: Option<(string, string)>)
    ensures r.None? <==> line == ""
    ensures r.Some? && !Contains(line, ":") ==> r.value == (Lower(Strip(line)), "")
  {
    if line == "" then None
    else
      var (name, value) := Partition(line, ":");
      Some((Lower(Strip(name)), Strip(value)))
  }

  /**
   * What one `;`-separated cookie item contributes: nothing when it is blank,
   * otherwise the stripped item split at its first '=' (the value is empty
   * when there is no '=').
   */
  function CookieEntry(item: string): (r: Option<(string, string)>)
    ensures r.None? <==> Strip(item) == ""
    ensures r.Some? && !Contains(Strip(item), "=") ==> r.value == (Strip(item), "")
  {
    var t := Strip(item);
    if t == "" then None else Some(Partition(t, "="))
  }

  /** The cookies of a `Cookie` header value. */
  function Cookies(header: string): map<string, string> {
    LoopDict(Split(header, ";"), CookieEntry)
  }

  /**
   * The form fields and the JSON document of a body. Only a non-empty body
   * is interpreted; a content type naming JSON wins over one naming a form,
   * and a body of any other type is left uninterpreted.
   */
  function BodyFields(body: Bytes, contentType: string, lib: Lib): (r: Result<(map<string, string>, Option<JsonValue>), ParseError>)
    ensures r.Ok? ==> r.value.0 == map[] || r.value.1 == None
    ensures body == [] ==> r == Ok((map[], None))
    ensures !Contains(contentType, JsonType) && !Contains(contentType, FormType) ==> r == Ok((map[], None))
    ensures r.Err? <==> body != [] && (Contains(contentType, JsonType) || Contains(contentType, FormType)) && lib.decodeStrict(body).None?
    ensures r.Ok? && body != [] && Contains(contentType, JsonType) ==>
      r.value == (map[], lib.jsonLoads(lib.decodeStrict(body).value))
    ensures r.Ok? && body != [] && !Contains(contentType, JsonType) && Contains(contentType, FormType) ==>
      r.value == (DictOf(lib.parseQsl(lib.decodeStrict(body).value)), None)
  {
    if body == [] then Ok((map[], None))
    else if Contains(contentType, JsonType) then
      match lib.decodeStrict(body)
      case None => Err(UndecodableBody)
      case Some(text) => Ok((map[], lib.jsonLoads(text)))
    else if Contains(contentType, FormType) then
      match lib.decodeStrict(body)
      case None => Err(UndecodableBody)
      case Some(text) => Ok((DictOf(lib.parseQsl(text)), None))
    else Ok((map[], None))
  }

  /** The header dict of the header block: every line after the request line, in order. */
  function Headers(lines: seq<string>): map<string, string>
    requires |lines| >= 1
  {
    LoopDict(lines[1..], HeaderEntry)
  }

  /** The decoder: what `HttpRequest.parse` returns for `raw`, or the exception it raises. */
  function Decode(raw: Bytes, lib: Lib): Result<RequestData, ParseError> {
    var (headBlob, body) := Partition(raw, HeaderTerminator);
    var lines := HeaderLines(raw, lib);
    var words := Tokens(lines[0]);
    if |words| != 3 then Err(MalformedRequestLine)
    else
      var (rawPath, queryString) := Partition(words[1], "?");
      var headers := Headers(lines);
      match BodyFields(body, Lookup(headers, "content-type"), lib)
      case Err(e) => Err(e)
      case Ok(fields) =>
        Ok(RequestData(
          Upper(words[0]), lib.unquote(rawPath), words[2], headers,
          DictOf(lib.parseQsl(queryString)), body, fields.0, fields.1,
          Cookies(Lookup(headers, "cookie"))))
  }

  // ---------------------------------------------------------------------------
  // The decoder's loops

  /** `_parse_cookies`: the cookie loop, equal to `Cookies`. */
  method ParseCookies(header: string) returns (cookies: map<string, string>)
    ensures cookies == Cookies(header)
  {
    cookies := map[];
    var items := Split(header, ";");
    for i := 0 to |items|
      invariant cookies == LoopDict(items[..i], CookieEntry)
    {
      LoopDictPrefix(items, i, CookieEntry);
      var item := Strip(items[i]);
      if item == "" {
        continue;
      }
      var (name, value) := Partition(item, "=");
      cookies := cookies[name := value];
    }
    assert items[..|items|] == items;
  }

  /**
   * `HttpRequest.parse`: a fresh request holding exactly what `Decode`
   * gives, the client address as passed and no path parameters yet, or the
   * exception `Decode` names.
   */
  method Parse(raw: Bytes, clientAddr: string, lib: Lib) returns (r: Result<HttpRequest, ParseError>)
    ensures Decode(raw, lib).Err? ==> r == Err(Decode(raw, lib).error)
    ensures Decode(raw, lib).Ok? ==> r.Ok? && fresh(r.value)
    ensures Decode(raw, lib).Ok? ==> r.value.data == Decode(raw, lib).value
    ensures Decode(raw, lib).Ok? ==> r.value.clientAddr == clientAddr && r.value.pathParams == map[]
  {
    var (headBlob, body) := Partition(raw, HeaderTerminator);
    var lines := Split(lib.decodeLenient(headBlob), LineBreak);
    var words := Tokens(lines[0]);
    if |words| != 3 {
      return Err(MalformedRequestLine);
    }
    var httpMethod, url, version := words[0], words[1], words[2];
    var (path, queryString) := Partition(url, "?");
    var headers: map<string, string> := map[];
    var headerLines := lines[1..];
    for i := 0 to |headerLines|
      invariant headers == LoopDict(headerLines[..i], HeaderEntry)
    {
      LoopDictPrefix(headerLines, i, HeaderEntry);
      var line := headerLines[i];
      if line == "" {
        continue;
      }
      var (name, value) := Partition(line, ":");
      headers := headers[Lower(Strip(name)) := Strip(value)];
    }
    assert headerLines[..|headerLines|] == headerLines;
    var query := DictOf(lib.parseQsl(queryString));
    var cookies := ParseCookies(Lookup(headers, "cookie"));
    var form: map<string, string> := map[];
    var jsonData: Option<JsonValue> := None;
    var contentType := Lookup(headers, "content-type");
    if body != [] {
      if Contains(contentType, JsonType) {
        var text := lib.decodeStrict(body);
        if text.None? {
          return Err(UndecodableBody);
        }
        jsonData := lib.jsonLoads(text.value);
      } else if Contains(contentType, FormType) {
        var text := lib.decodeStrict(body);
        if text.None? {
          return Err(UndecodableBody);
        }
        form := DictOf(lib.parseQsl(text.value));
      }
    }
    var data := RequestData(Upper(httpMethod), lib.unquote(path), version, headers, query, body, form, jsonData, cookies);
    var request := new HttpRequest(data, clientAddr);
    return Ok(request);
  }

  // ---------------------------------------------------------------------------
  // Properties of the decoder

  /** The request line is the first line of the header block. */
  function RequestLine(raw: Bytes, lib: Lib): string {
    HeaderLines(raw, lib)[0]
  }

  /**
   * The decoder fails on the request line exactly when it does not split
   * into three words; otherwise the method is the first word upper-cased,
   * the path the percent-decoded part of the second before its first '?',
   * the query the pairs after that '?', and the version the third word.
   */
  lemma DecodeRequestLine(raw: Bytes, lib: Lib)
    ensures |Tokens(RequestLine(raw, lib))| != 3 <==> Decode(raw, lib) == Err(MalformedRequestLine)
    ensures Decode(raw, lib).Ok? ==>
      var words := Tokens(RequestLine(raw, lib));
      var d := Decode(raw, lib).value;
      d.httpMethod == Upper(words[0]) && d.version == words[2]
      && d.path == lib.unquote(Partition(words[1], "?").0)
      && d.query == DictOf(lib.parseQsl(Partition(words[1], "?").1))
  {
  }

  /**
   * A request line made of three words separated by single spaces decodes
   * to those words: the first upper-cased as the method, the third as the
   * version, the second split at its first '?' into path and query.
   */
  lemma DecodeRequestLineWords(raw: Bytes, lib: Lib, httpMethod: string, url: string, version: string)
    requires IsWord(httpMethod) && IsWord(url) && IsWord(version)
    requires RequestLine(raw, lib) == httpMethod + " " + url + " " + version
    ensures Decode(raw, lib) != Err(MalformedRequestLine)
    ensures Decode(raw, lib).Ok? ==>
      var d := Decode(raw, lib).value;
      d.httpMethod == Upper(httpMethod) && d.version == version
      && d.path == lib.unquote(Partition(url, "?").0)
      && d.query == DictOf(lib.parseQsl(Partition(url, "?").1))
  {
    ThreeWords(httpMethod, url, version);
    DecodeRequestLine(raw, lib);
  }

  /** Three words joined by single spaces split back into those words. */
  lemma ThreeWords(a: string, b: string, c: string)
    requires IsWord(a) && IsWord(b) && IsWord(c)
    ensures Tokens(a + " " + b + " " + c) == [a, b, c]
  {
    var words := [a, b, c];
    assert Join(words[2..], " ") == c;
    assert Join(words[1..], " ") == b + " " + c;
    assert Join(words, " ") == a + " " + b + " " + c;
    TokensOfJoin(words);
  }

  /**
   * The body is everything after the first blank line of the message (see
   * `Partition`); a message without a blank line is all header and has an
   * empty body.
   */
  lemma DecodedBody(raw: Bytes, lib: Lib)
    requires Decode(raw, lib).Ok?
    ensures Decode(raw, lib).value.body == Partition(raw, HeaderTerminator).1
  {
  }

  /**
   * A header takes the value of the last non-empty line after the request
   * line that names it: names are compared stripped and lower-cased, and a
   * later line for the same name overwrites an earlier one.
   */
  lemma HeadersLastWins(lines: seq<string>, i: nat)
    requires 1 <= i < |lines| && lines[i] != ""
    requires forall j :: i < j < |lines| && lines[j] != "" ==> HeaderEntry(lines[j]).value.0 != HeaderEntry(lines[i]).value.0
    ensures HeaderEntry(lines[i]).value.0 in Headers(lines)
    ensures Headers(lines)[HeaderEntry(lines[i]).value.0] == HeaderEntry(lines[i]).value.1
  {
    var rest := lines[1..];
    assert rest[i - 1] == lines[i];
    forall j | i - 1 < j < |rest| && HeaderEntry(rest[j]).Some?
      ensures HeaderEntry(rest[j]).value.0 != HeaderEntry(rest[i - 1]).value.0
    {
      assert rest[j] == lines[j + 1];
    }
    LoopDictLastWins(rest, HeaderEntry, i - 1);
  }

  /** A name that no non-empty line after the request line carries is not a header. */
  lemma HeadersAbsent(lines: seq<string>, name: string)
    requires |lines| >= 1
    requires forall j :: 1 <= j < |lines| && lines[j] != "" ==> HeaderEntry(lines[j]).value.0 != name
    ensures name !in Headers(lines)
  {
    var rest := lines[1..];
    forall j | 0 <= j < |rest| && HeaderEntry(rest[j]).Some?
      ensures HeaderEntry(rest[j]).value.0 != name
    {
      assert rest[j] == lines[j + 1];
    }
    LoopDictAbsent(rest, HeaderEntry, name);
  }

  /**
   * The decoded request carries the header dict of its header block, the
   * cookies of its `Cookie` header (none without one), and the body
   * interpreted by its `Content-Type` header.
   */
  lemma DecodeHeaders(raw: Bytes, lib: Lib)
    requires Decode(raw, lib).Ok?
    ensures var d := Decode(raw, lib).value;
      d.headers == Headers(HeaderLines(raw, lib))
      && d.cookies == Cookies(Lookup(d.headers, "cookie"))
      && BodyFields(d.body, Lookup(d.headers, "content-type"), lib) == Ok((d.form, d.jsonData))
  {
    var headers := Headers(HeaderLines(raw, lib));
    var fields := BodyFields(Partition(raw, HeaderTerminator).1, Lookup(headers, "content-type"), lib);
    assert fields.Ok?;
  }

  /**
   * A header line splits at its first ':' only: the name is stripped and
   * lower-cased, and the value, which may itself contain ':', is stripped.
   */
  lemma HeaderEntryOf(name: string, value: string)
    requires ':' !in name
    ensures HeaderEntry(name + ":" + value) == Some((Lower(Strip(name)), Strip(value)))
  {
    var line := name + ":" + value;
    assert OccursAt(line, ":", |name|) by { assert line[|name|..|name| + 1] == ":"; }
    forall j | 0 <= j < |name|
      ensures !OccursAt(line, ":", j)
    {
      assert line[j] == name[j];
    }
    FindIs(line, ":", |name|);
    assert line[..|name|] == name;
    assert line[|name| + 1..] == value;
  }

  /**
   * A cookie item splits at its first '=' only, and the spaces next to the
   * '=' stay in the name and the value.
   */
  lemma CookieEntryOf(name: string, value: string)
    requires '=' !in name
    requires Strip(name + "=" + value) == name + "=" + value
    ensures CookieEntry(name + "=" + value) == Some((name, value))
  {
    var item := name + "=" + value;
    assert OccursAt(item, "=", |name|) by { assert item[|name|..|name| + 1] == "="; }
    forall j | 0 <= j < |name|
      ensures !OccursAt(item, "=", j)
    {
      assert item[j] == name[j];
    }
    FindIs(item, "=", |name|);
    assert item[..|name|] == name;
    assert item[|name| + 1..] == value;
  }

  /** For a repeated cookie name the last item wins. */
  lemma CookiesLastWins(header: string, i: nat)
    requires i < |Split(header, ";")| && CookieEntry(Split(header, ";")[i]).Some?
    requires var items := Split(header, ";");
      forall j :: i < j < |items| && CookieEntry(items[j]).Some? ==> CookieEntry(items[j]).value.0 != CookieEntry(items[i]).value.0
    ensures var (name, value) := CookieEntry(Split(header, ";")[i]).value;
      name in Cookies(header) && Cookies(header)[name] == value
  {
    LoopDictLastWins(Split(header, ";"), CookieEntry, i);
  }

  /** A cookie name a browser may send: non-empty, without whitespace, ';' or '='. */
  predicate CookieName(name: string) {
    IsWord(name) && ';' !in name && '=' !in name
  }

  /** A cookie value a browser may send: no ';' and no trailing whitespace. */
  predicate CookieValue(value: string) {
    ';' !in value && (value == [] || !IsSpace(value[|value| - 1]))
  }

  /** The `Cookie` header a browser sends for these cookies: `n1=v1; n2=v2; ...`. */
  function CookieHeader(cookies: seq<(string, string)>): string {
    Join(CookieItems(cookies), "; ")
  }

  function CookieItems(cookies: seq<(string, string)>): (items: seq<string>)
    ensures |items| == |cookies|
  {
    seq(|cookies|, i requires 0 <= i < |cookies| => cookies[i].0 + "=" + cookies[i].1)
  }

  /** Reading back a browser's `Cookie` header gives `dict` of its pairs. */
  lemma {:induction false} CookiesOfHeader(cookies: seq<(string, string)>)
    requires |cookies| >= 1
    requires forall i :: 0 <= i < |cookies| ==> CookieName(cookies[i].0) && CookieValue(cookies[i].1)
    ensures Cookies(CookieHeader(cookies)) == DictOf(cookies)
  {
    var spaced := Spaced(CookieItems(cookies));
    JoinSpaced(CookieItems(cookies), spaced);
    SpacedItemsFree(cookies);
    SplitJoin(spaced, ";");
    SpacedItemsEntries(cookies);
    LoopDictAllAccepted(spaced, CookieEntry, cookies);
  }

  /** The items with a space put in front of all but the first. */
  function Spaced(items: seq<string>): (spaced: seq<string>)
    ensures |spaced| == |items|
  {
    seq(|items|, i requires 0 <= i < |items| => if i == 0 then items[i] else " " + items[i])
  }

  /** No spaced cookie item contains ';'. */
  lemma SpacedItemsFree(cookies: seq<(string, string)>)
    requires forall i :: 0 <= i < |cookies| ==> CookieName(cookies[i].0) && CookieValue(cookies[i].1)
    ensures var spaced := Spaced(CookieItems(cookies));
      forall i :: 0 <= i < |spaced| ==> ';' !in spaced[i]
  {
    var items := CookieItems(cookies);
    forall i | 0 <= i < |items|
      ensures ';' !in Spaced(items)[i]
    {
      assert items[i] == cookies[i].0 + "=" + cookies[i].1;
    }
  }

  /** Each spaced cookie item reads back as its pair. */
  lemma SpacedItemsEntries(cookies: seq<(string, string)>)
    requires forall i :: 0 <= i < |cookies| ==> CookieName(cookies[i].0) && CookieValue(cookies[i].1)
    ensures var spaced := Spaced(CookieItems(cookies));
      forall i :: 0 <= i < |spaced| ==> CookieEntry(spaced[i]) == Some(cookies[i])
  {
    var items := CookieItems(cookies);
    forall i | 0 <= i < |items|
      ensures CookieEntry(Spaced(items)[i]) == Some(cookies[i])
    {
      CookieItemEntry(cookies[i].0, cookies[i].1, if i == 0 then "" else " ");
    }
  }

  /** Stripping a well-formed item, with or without a leading space, recovers its pair. */
  lemma CookieItemEntry(name: string, value: string, lead: string)
    requires CookieName(name) && CookieValue(value)
    requires lead == "" || lead == " "
    ensures CookieEntry(lead + (name + "=" + value)) == Some((name, value))
  {
    var item := name + "=" + value;
    assert item[0] == name[0];
    assert item[|item| - 1] == if value == [] then '=' else value[|value| - 1];
    StripAfterSpaces(lead, item);
    CookieEntryOf(name, value);
  }

  /** "; " between the items is ";" between the items with a space put in front of all but the first. */
  lemma {:induction false} JoinSpaced(items: seq<string>, spaced: seq<string>)
    requires |items| == |spaced| >= 1
    requires spaced[0] == items[0]
    requires forall i :: 1 <= i < |items| ==> spaced[i] == " " + items[i]
    ensures Join(items, "; ") == Join(spaced, ";")
    decreases |items|
  {
    if |items| > 1 {
      var tail := [" " + items[1]] + spaced[2..];
      JoinSpaced(items[1..], [items[1]] + spaced[2..]);
      JoinPrefixFirst(" ", [items[1]] + spaced[2..], ";");
      assert spaced[1..] == tail;
    }
  }
}
