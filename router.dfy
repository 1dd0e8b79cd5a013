/**
 * The router of the HTTP substrate (server/router.py): an append-only list
 * of (method, pattern, handler) routes; a request goes to the first route,
 * in registration order, whose method equals the request's and whose
 * pattern matches the whole path, and the placeholders of that pattern
 * become the request's path parameters.
 *
 * A pattern is kept as its `/`-separated segments, each literal text or a
 * `{name}` placeholder; a placeholder matches one or more characters other
 * than '/'.
 */
module Routing {
  import opened Wrappers
  import opened Strings
  import opened Dicts
  import opened HttpRequests
  import opened HttpResponses

  /** One `/`-separated segment of a route pattern. */
  datatype Segment = Lit(text: string) | Param(name: string)

  /** Whether a piece has the form `{name}` with a non-empty name. */
  predicate Braced(piece: string) {
    |piece| >= 3 && piece[0] == '{' && piece[|piece| - 1] == '}'
  }

  /** A piece of the form `{name}` is a placeholder; any other piece is literal text. */
  function SegmentOf(piece: string): (s: Segment)
    ensures s.Param? <==> Braced(piece)
    ensures s.Param? ==> piece == "{" + s.name + "}" && s.name != ""
    ensures s.Lit? ==> s.text == piece
  {
    if Braced(piece) then
      var name := piece[1..|piece| - 1];
      assert piece == "{" + name + "}";
      Param(name)
    else Lit(piece)
  }

  /** The segments of a pattern, one per `/`-separated piece. */
  function Compile(pattern: string): (segs: seq<Segment>)
    ensures |segs| == |Split(pattern, "/")| >= 1
    ensures forall i :: 0 <= i < |segs| ==> segs[i] == SegmentOf(Split(pattern, "/")[i])
  {
    var pieces := Split(pattern, "/");
    seq(|pieces|, i requires 0 <= i < |pieces| => SegmentOf(pieces[i]))
  }

  /** How a segment is written in a pattern. */
  function SegmentText(seg: Segment): string {
    match seg
    case Lit(text) => text
    case Param(name) => "{" + name + "}"
  }

  /** The pattern text of segments: their texts joined by '/'. */
  function PatternOf(segs: seq<Segment>): string {
    Join(seq(|segs|, i requires 0 <= i < |segs| => SegmentText(segs[i])), "/")
  }

  /**
   * Segments a pattern can compile to: none contains '/', no literal text
   * has the form `{name}`, and no placeholder name is empty.
   */
  predicate Canonical(segs: seq<Segment>) {
    |segs| >= 1 && forall i :: 0 <= i < |segs| ==> CanonicalSegment(segs[i])
  }

  /** A segment a pattern piece can compile to. */
  predicate CanonicalSegment(seg: Segment) {
    match seg
    case Lit(text) => '/' !in text && !Braced(text)
    case Param(name) => '/' !in name && name != ""
  }

  /** Compiling the text of canonical segments gives the segments back. */
  lemma CompilePatternOf(segs: seq<Segment>)
    requires Canonical(segs)
    ensures Compile(PatternOf(segs)) == segs
  {
    var texts := seq(|segs|, i requires 0 <= i < |segs| => SegmentText(segs[i]));
    forall i | 0 <= i < |segs|
      ensures '/' !in texts[i] && SegmentOf(texts[i]) == segs[i]
    {
      if segs[i].Param? {
        var name := segs[i].name;
        assert texts[i] == "{" + name + "}";
        assert forall c :: c in texts[i] ==> c == '{' || c == '}' || c in name;
      }
    }
    SplitJoin(texts, "/");
  }

  /** Every pattern compiles to canonical segments, whose text is the pattern again. */
  lemma PatternOfCompile(pattern: string)
    ensures Canonical(Compile(pattern))
    ensures PatternOf(Compile(pattern)) == pattern
  {
    var pieces := Split(pattern, "/");
    var segs := Compile(pattern);
    SplitFree(pattern, '/');
    forall i | 0 <= i < |segs| && segs[i].Param?
      ensures '/' !in segs[i].name
    {
      assert forall c :: c in segs[i].name ==> c in pieces[i];
    }
    assert seq(|segs|, i requires 0 <= i < |segs| => SegmentText(segs[i])) == pieces;
    JoinSplit(pattern, "/");
  }

  /** Whether one piece of a path fits one segment: literal text exactly, a placeholder any non-empty text. */
  predicate PieceFits(seg: Segment, piece: string) {
    match seg
    case Lit(text) => piece == text
    case Param(_) => piece != ""
  }

  /** Whether the pieces of a path fit the segments one to one. */
  predicate Fits(segs: seq<Segment>, pieces: seq<string>) {
    |segs| == |pieces| && forall i :: 0 <= i < |segs| ==> PieceFits(segs[i], pieces[i])
  }

  /** The (placeholder name, piece) pairs, in pattern order. */
  function Captures(segs: seq<Segment>, pieces: seq<string>): (c: seq<(string, string)>)
    requires |segs| == |pieces|
    ensures forall j :: 0 <= j < |c| ==> exists i :: 0 <= i < |segs| && segs[i] == Param(c[j].0) && pieces[i] == c[j].1
  {
    if segs == [] then []
    else
      var rest := Captures(segs[1..], pieces[1..]);
      assert forall j :: 0 <= j < |rest| ==> exists i :: 1 <= i < |segs| && segs[i] == Param(rest[j].0) && pieces[i] == rest[j].1 by {
        forall j | 0 <= j < |rest|
          ensures exists i :: 1 <= i < |segs| && segs[i] == Param(rest[j].0) && pieces[i] == rest[j].1
        {
          var i :| 0 <= i < |segs[1..]| && segs[1..][i] == Param(rest[j].0) && pieces[1..][i] == rest[j].1;
          assert segs[i + 1] == segs[1..][i] && pieces[i + 1] == pieces[1..][i];
        }
      }
      match segs[0]
      case Param(name) => [(name, pieces[0])] + rest
      case Lit(_) => rest
  }

  /** Every placeholder has its binding among the captures, which are no more than the segments. */
  lemma {:induction false} CapturesComplete(segs: seq<Segment>, pieces: seq<string>)
    requires |segs| == |pieces|
    ensures var c := Captures(segs, pieces);
      |c| <= |segs| && forall i :: 0 <= i < |segs| && segs[i].Param? ==> (segs[i].name, pieces[i]) in c
  {
    if segs != [] {
      CapturesComplete(segs[1..], pieces[1..]);
      forall i | 1 <= i < |segs| && segs[i].Param?
        ensures (segs[i].name, pieces[i]) in Captures(segs[1..], pieces[1..])
      {
        assert segs[1..][i - 1] == segs[i] && pieces[1..][i - 1] == pieces[i];
      }
    }
  }

  /** No two placeholders share a name, as `re.compile` demands of group names. */
  predicate DistinctNames(segs: seq<Segment>) {
    forall i, j :: 0 <= i < j < |segs| && segs[i].Param? && segs[j].Param? ==> segs[i].name != segs[j].name
  }

  /**
   * With distinct placeholder names, the bindings map each placeholder's name
   * to its own piece, and have no other key.
   */
  lemma CapturesBind(segs: seq<Segment>, pieces: seq<string>)
    requires |segs| == |pieces| && DistinctNames(segs)
    ensures var b := DictOf(Captures(segs, pieces));
      (forall i :: 0 <= i < |segs| && segs[i].Param? ==> segs[i].name in b && b[segs[i].name] == pieces[i])
      && (forall k :: k in b ==> Param(k) in segs)
  {
    var c := Captures(segs, pieces);
    var b := DictOf(c);
    CapturesComplete(segs, pieces);
    forall i | 0 <= i < |segs| && segs[i].Param?
      ensures segs[i].name in b && b[segs[i].name] == pieces[i]
    {
      var name := segs[i].name;
      var j :| 0 <= j < |c| && c[j] == (name, pieces[i]);
      var last := LastWith(c, name, j);
      var i' :| 0 <= i' < |segs| && segs[i'] == Param(c[last].0) && pieces[i'] == c[last].1;
      assert i' == i;
      DictOfLastWins(c, last);
    }
    forall k | k in b
      ensures Param(k) in segs
    {
      DictOfKeys(c, k);
      var j :| 0 <= j < |c| && c[j].0 == k;
      var i :| 0 <= i < |segs| && segs[i] == Param(c[j].0) && pieces[i] == c[j].1;
    }
  }

  /** Whether the pieces fit the segments, with the placeholder bindings. */
  function MatchPieces(segs: seq<Segment>, pieces: seq<string>): Option<map<string, string>> {
    if Fits(segs, pieces) then Some(DictOf(Captures(segs, pieces))) else None
  }

  /** Matching the whole of `path` against the segments, with the placeholder bindings. */
  function MatchWhole(segs: seq<Segment>, path: string): Option<map<string, string>> {
    MatchPieces(segs, Split(path, "/"))
  }

  /** Whether a text ends with a line feed. */
  predicate EndsWithNewline(s: string) {
    s != [] && s[|s| - 1] == '\n'
  }

  /** The pieces with the last character of the last piece removed. */
  function Chomp(pieces: seq<string>): (r: seq<string>)
    requires pieces != [] && pieces[|pieces| - 1] != []
    ensures |r| == |pieces| && r[..|r| - 1] == pieces[..|pieces| - 1]
    ensures r[|r| - 1] == pieces[|pieces| - 1][..|pieces[|pieces| - 1]| - 1]
  {
    var last := pieces[|pieces| - 1];
    pieces[..|pieces| - 1] + [last[..|last| - 1]]
  }

  /**
   * Matching the pieces of a path: the pieces themselves or else, because
   * `$` also matches just before a final line feed, the pieces without that
   * line feed, which can only end the last piece.
   */
  function PiecesMatch(segs: seq<Segment>, pieces: seq<string>): Option<map<string, string>>
    requires pieces != []
  {
    match MatchPieces(segs, pieces)
    case Some(b) => Some(b)
    case None =>
      if EndsWithNewline(pieces[|pieces| - 1]) then MatchPieces(segs, Chomp(pieces)) else None
  }

  /** `re.match` of the compiled `^...$` pattern against a path. */
  function PathMatch(segs: seq<Segment>, path: string): Option<map<string, string>> {
    PiecesMatch(segs, Split(path, "/"))
  }

  /**
   * `PathMatch` is the `^...$` match on the path text: the whole path, or
   * else the path without a final line feed.
   */
  lemma PathMatchDollar(segs: seq<Segment>, path: string)
    ensures PathMatch(segs, path) ==
      match MatchWhole(segs, path)
      case Some(b) => Some(b)
      case None => if EndsWithNewline(path) then MatchWhole(segs, path[..|path| - 1]) else None
  {
    LastPieceNewline(path);
    if EndsWithNewline(path) {
      ChompSplit(path);
    }
  }

  /** A path is its pieces joined by '/': the last piece ends the path. */
  lemma PathAsPieces(path: string)
    ensures var pieces := Split(path, "/");
      var n := |pieces|;
      (forall i :: 0 <= i < n ==> '/' !in pieces[i])
      && path == (if n == 1 then pieces[0] else Join(pieces[..n - 1], "/") + "/" + pieces[n - 1])
  {
    var pieces := Split(path, "/");
    var n := |pieces|;
    SplitFree(path, '/');
    JoinSplit(path, "/");
    if n > 1 {
      JoinSnoc(pieces[..n - 1], pieces[n - 1], "/");
      assert pieces == pieces[..n - 1] + [pieces[n - 1]];
    }
  }

  /** A path ends with a line feed exactly when its last piece does. */
  lemma LastPieceNewline(path: string)
    ensures var pieces := Split(path, "/");
      EndsWithNewline(path) <==> EndsWithNewline(pieces[|pieces| - 1])
  {
    PathAsPieces(path);
  }

  /** Removing a final line feed from a path removes it from the last piece. */
  lemma ChompSplit(path: string)
    requires EndsWithNewline(path)
    ensures var pieces := Split(path, "/");
      EndsWithNewline(pieces[|pieces| - 1]) && Split(path[..|path| - 1], "/") == Chomp(pieces)
  {
    PathAsPieces(path);
    LastPieceNewline(path);
    var pieces := Split(path, "/");
    var n := |pieces|;
    var last := pieces[n - 1];
    var chomped := Chomp(pieces);
    var short := last[..|last| - 1];
    assert chomped == pieces[..n - 1] + [short];
    if n > 1 {
      JoinSnoc(pieces[..n - 1], short, "/");
      assert path[..|path| - 1] == Join(pieces[..n - 1], "/") + "/" + short;
    } else {
      assert path[..|path| - 1] == Join(chomped, "/");
    }
    ChompFree(pieces);
    SplitJoin(chomped, "/");
  }

  /** Chomping pieces without '/' leaves pieces without '/'. */
  lemma ChompFree(pieces: seq<string>)
    requires pieces != [] && pieces[|pieces| - 1] != []
    requires forall i :: 0 <= i < |pieces| ==> '/' !in pieces[i]
    ensures var chomped := Chomp(pieces);
      forall i :: 0 <= i < |chomped| ==> '/' !in chomped[i]
  {
    var chomped := Chomp(pieces);
    var n := |pieces|;
    forall i | 0 <= i < n
      ensures '/' !in chomped[i]
    {
      if i == n - 1 {
        assert forall c :: c in chomped[i] ==> c in pieces[i];
      } else {
        assert chomped[i] == pieces[..n - 1][i];
      }
    }
  }

  /** The text a route's pattern stands for when each placeholder is given a value. */
  function Fill(segs: seq<Segment>, values: seq<string>): (pieces: seq<string>)
    requires |values| == |segs|
    ensures |pieces| == |segs|
    ensures forall i :: 0 <= i < |segs| ==> pieces[i] == if segs[i].Lit? then segs[i].text else values[i]
  {
    seq(|segs|, i requires 0 <= i < |segs| => if segs[i].Lit? then segs[i].text else values[i])
  }

  /** Literal segments contain no '/', as the segments of a compiled pattern do not. */
  predicate WellFormed(segs: seq<Segment>) {
    |segs| >= 1 && forall i :: 0 <= i < |segs| && segs[i].Lit? ==> '/' !in segs[i].text
  }

  /**
   * A pattern matches exactly the paths obtained by filling its placeholders
   * with non-empty text without '/': such a path matches, binding each
   * placeholder to its value ...
   */
  lemma MatchFilled(segs: seq<Segment>, values: seq<string>)
    requires WellFormed(segs) && |values| == |segs|
    requires forall i :: 0 <= i < |segs| && segs[i].Param? ==> values[i] != "" && '/' !in values[i]
    ensures var pieces := Fill(segs, values);
      MatchWhole(segs, Join(pieces, "/")) == Some(DictOf(Captures(segs, pieces)))
    ensures DistinctNames(segs) ==> var b := DictOf(Captures(segs, Fill(segs, values)));
      forall i :: 0 <= i < |segs| && segs[i].Param? ==> segs[i].name in b && b[segs[i].name] == values[i]
  {
    var pieces := Fill(segs, values);
    SplitJoin(pieces, "/");
    if DistinctNames(segs) {
      CapturesBind(segs, pieces);
    }
  }

  /** ... and every path that matches is such a filling, with the path's own pieces as values. */
  lemma MatchedIsFilled(segs: seq<Segment>, path: string)
    requires MatchWhole(segs, path).Some?
    ensures var pieces := Split(path, "/");
      |pieces| == |segs| && path == Join(Fill(segs, pieces), "/")
      && forall i :: 0 <= i < |segs| && segs[i].Param? ==> pieces[i] != "" && '/' !in pieces[i]
  {
    var pieces := Split(path, "/");
    JoinSplit(path, "/");
    SplitFree(path, '/');
    assert Fill(segs, pieces) == pieces;
  }

  // ---------------------------------------------------------------------------
  // Routes and the router

  datatype Route<H> = Route(verb: string, segments: seq<Segment>, handler: H)

  /** Whether a route takes a request with this method and path. */
  predicate Selects<H>(route: Route<H>, verb: string, path: string) {
    route.verb == verb && PathMatch(route.segments, path).Some?
  }

  /** The first route, in registration order, that takes the request, with its bindings. */
  function FirstMatch<H>(routes: seq<Route<H>>, verb: string, path: string): (r: Option<(nat, map<string, string>)>)
    ensures r.Some? ==> r.value.0 < |routes| && Selects(routes[r.value.0], verb, path)
    ensures r.Some? ==> r.value.1 == PathMatch(routes[r.value.0].segments, path).value
    ensures r.Some? ==> forall j :: 0 <= j < r.value.0 ==> !Selects(routes[j], verb, path)
    ensures r.None? <==> forall j :: 0 <= j < |routes| ==> !Selects(routes[j], verb, path)
  {
    if routes == [] then None
    else if Selects(routes[0], verb, path) then Some((0, PathMatch(routes[0].segments, path).value))
    else match FirstMatch(routes[1..], verb, path)
      case None => None
      case Some((i, b)) => Some((i + 1, b))
  }

  /**
   * Literal text at index `k` of the segments that differs from the `k`-th
   * piece and, when that piece ends the path with a line feed, also from the
   * piece without it.
   */
  predicate ClashAt(segs: seq<Segment>, pieces: seq<string>, k: nat) {
    k < |segs| && k < |pieces| && segs[k].Lit? && segs[k].text != pieces[k]
    && (k == |pieces| - 1 && EndsWithNewline(pieces[k]) ==> segs[k].text != pieces[k][..|pieces[k]| - 1])
  }

  /**
   * A route does not take a request with another method, a path with another
   * number of pieces, or a path whose pieces clash with its literal text.
   */
  lemma NotSelected<H>(route: Route<H>, verb: string, path: string, k: nat)
    requires var pieces := Split(path, "/");
      route.verb != verb || |route.segments| != |pieces| || ClashAt(route.segments, pieces, k)
    ensures !Selects(route, verb, path)
  {
    var pieces := Split(path, "/");
    var segs := route.segments;
    if route.verb == verb && |segs| == |pieces| {
      assert !Fits(segs, pieces) by {
        assert !PieceFits(segs[k], pieces[k]);
      }
      var last := pieces[|pieces| - 1];
      if EndsWithNewline(last) {
        var chomped := Chomp(pieces);
        assert !PieceFits(segs[k], chomped[k]) by {
          if k < |pieces| - 1 {
            assert chomped[k] == chomped[..|chomped| - 1][k];
          }
        }
      }
    }
  }

  /** Segments without a placeholder capture nothing. */
  lemma {:induction false} CapturesNone(segs: seq<Segment>, pieces: seq<string>)
    requires |segs| == |pieces| && forall i :: 0 <= i < |segs| ==> segs[i].Lit?
    ensures Captures(segs, pieces) == []
    decreases |segs|
  {
    if segs != [] {
      assert forall i :: 0 <= i < |segs| - 1 ==> segs[1..][i] == segs[i + 1];
      CapturesNone(segs[1..], pieces[1..]);
    }
  }

  /** Segments whose one placeholder is at `k` capture the piece at `k` under its name. */
  lemma {:induction false} CapturesOne(segs: seq<Segment>, pieces: seq<string>, k: nat)
    requires |segs| == |pieces| && k < |segs| && segs[k].Param?
    requires forall i :: 0 <= i < |segs| && i != k ==> segs[i].Lit?
    ensures Captures(segs, pieces) == [(segs[k].name, pieces[k])]
    decreases |segs|
  {
    assert forall i :: 0 <= i < |segs| - 1 ==> segs[1..][i] == segs[i + 1];
    if k == 0 {
      CapturesNone(segs[1..], pieces[1..]);
    } else {
      assert segs[1..][k - 1] == segs[k] && pieces[1..][k - 1] == pieces[k];
      CapturesOne(segs[1..], pieces[1..], k - 1);
    }
  }

  /**
   * A route takes a request with its method whose path pieces fit its
   * segments, and binds its placeholders to their pieces.
   */
  lemma SelectsFitting<H>(route: Route<H>, verb: string, path: string)
    requires route.verb == verb && Fits(route.segments, Split(path, "/"))
    ensures Selects(route, verb, path)
    ensures PathMatch(route.segments, path) == Some(DictOf(Captures(route.segments, Split(path, "/"))))
  {
  }

  /** A route without placeholders that takes a request binds nothing. */
  lemma SelectsLiteral<H>(route: Route<H>, verb: string, path: string)
    requires route.verb == verb && Fits(route.segments, Split(path, "/"))
    requires forall i :: 0 <= i < |route.segments| ==> route.segments[i].Lit?
    ensures Selects(route, verb, path) && PathMatch(route.segments, path) == Some(map[])
  {
    CapturesNone(route.segments, Split(path, "/"));
    DictOfShort<string, string>("", "");
    SelectsFitting(route, verb, path);
  }

  /** A route whose one placeholder is at `k` binds that placeholder to the `k`-th piece of the path. */
  lemma SelectsOneParam<H>(route: Route<H>, verb: string, path: string, k: nat)
    requires route.verb == verb && Fits(route.segments, Split(path, "/"))
    requires k < |route.segments| && route.segments[k].Param?
    requires forall i :: 0 <= i < |route.segments| && i != k ==> route.segments[i].Lit?
    ensures Selects(route, verb, path)
    ensures PathMatch(route.segments, path) == Some(map[route.segments[k].name := Split(path, "/")[k]])
  {
    var pieces := Split(path, "/");
    CapturesOne(route.segments, pieces, k);
    DictOfShort(route.segments[k].name, pieces[k]);
    SelectsFitting(route, verb, path);
  }

  /** The route at `i` is the first match when it takes the request and no earlier route does. */
  lemma FirstMatchAt<H>(routes: seq<Route<H>>, verb: string, path: string, i: nat)
    requires i < |routes| && Selects(routes[i], verb, path)
    requires forall j :: 0 <= j < i ==> !Selects(routes[j], verb, path)
    ensures FirstMatch(routes, verb, path) == Some((i, PathMatch(routes[i].segments, path).value))
  {
    assert FirstMatch(routes, verb, path).Some?;
  }

  /** A pattern written as pieces joined by '/' compiles to the segments of those pieces. */
  lemma Compiled(pattern: string, pieces: seq<string>, segs: seq<Segment>)
    requires |pieces| >= 1 && forall i :: 0 <= i < |pieces| ==> '/' !in pieces[i]
    requires pattern == Join(pieces, "/")
    requires |segs| == |pieces| && forall i :: 0 <= i < |pieces| ==> SegmentOf(pieces[i]) == segs[i]
    ensures Compile(pattern) == segs
  {
    SplitJoin(pieces, "/");
  }

  /** Adding a route at the end does not change how earlier routes resolve a request they take. */
  lemma FirstMatchAppend<H>(routes: seq<Route<H>>, route: Route<H>, verb: string, path: string)
    ensures FirstMatch(routes, verb, path).Some? ==> FirstMatch(routes + [route], verb, path) == FirstMatch(routes, verb, path)
    ensures FirstMatch(routes, verb, path).None? && Selects(route, verb, path) ==>
      FirstMatch(routes + [route], verb, path) == Some((|routes|, PathMatch(route.segments, path).value))
  {
    var all := routes + [route];
    assert forall j :: 0 <= j < |routes| ==> all[j] == routes[j];
    match FirstMatch(routes, verb, path)
    case Some((i, _)) =>
      FirstMatchAt(all, verb, path, i);
    case None =>
      if Selects(route, verb, path) {
        assert all[|routes|] == route;
        FirstMatchAt(all, verb, path, |routes|);
      }
  }

  class Router<H> {
    var routes: seq<Route<H>>

    constructor ()
      ensures routes == []
    {
      routes := [];
    }

    /** `add_route`: appends one route, with the method upper-cased and the pattern compiled. */
    method AddRoute(verb: string, pattern: string, handler: H)
      modifies this
      ensures routes == old(routes) + [Route(Upper(verb), Compile(pattern), handler)]
    {
      routes := routes + [Route(Upper(verb), Compile(pattern), handler)];
    }

    /**
     * `resolve`: the handler of the first route that takes the request, whose
     * bindings become the request's path parameters; with no such route,
     * nothing, and the request's path parameters are left as they were.
     */
    method Resolve(request: HttpRequest) returns (handler: Option<H>, params: map<string, string>)
      modifies request
      ensures FirstMatch(routes, request.data.httpMethod, request.data.path).None? ==>
        handler == None && params == map[] && request.pathParams == old(request.pathParams)
      ensures FirstMatch(routes, request.data.httpMethod, request.data.path).Some? ==>
        var (i, bindings) := FirstMatch(routes, request.data.httpMethod, request.data.path).value;
        handler == Some(routes[i].handler) && params == bindings && request.pathParams == bindings
    {
      var verb, path := request.data.httpMethod, request.data.path;
      for i := 0 to |routes|
        invariant forall j :: 0 <= j < i ==> !Selects(routes[j], verb, path)
        invariant request.pathParams == old(request.pathParams)
      {
        var route := routes[i];
        if route.verb != verb {
          continue;
        }
        var m := PathMatch(route.segments, path);
        if m.Some? {
          request.pathParams := m.value;
          return Some(route.handler), m.value;
        }
      }
      return None, map[];
    }

    /**
     * `dispatch`: the response of the resolved route's handler, passed on
     * unchanged, or a new 404 page when no route takes the request.
     */
    method Dispatch(request: HttpRequest, invoke: (H, HttpRequest) -> HttpResponse) returns (response: HttpResponse)
      modifies request
      ensures FirstMatch(routes, request.data.httpMethod, request.data.path).Some? ==>
        var (i, bindings) := FirstMatch(routes, request.data.httpMethod, request.data.path).value;
        response == invoke(routes[i].handler, request) && request.pathParams == bindings
      ensures FirstMatch(routes, request.data.httpMethod, request.data.path).None? ==>
        fresh(response) && response.statusCode == 404 && response.reason == "Not Found"
        && response.body == Utf8(NotFoundPage) && response.headers == BodyHeaders(DefaultTextType, Utf8(NotFoundPage))
        && request.pathParams == old(request.pathParams)
    {
      var handler, _ := Resolve(request);
      if handler.None? {
        response := new HttpResponse.Text(NotFoundPage, 404);
        return;
      }
      response := invoke(handler.value, request);
    }
  }

  /** The text of the 404 page ("resource not found"). */
  const NotFoundPage: string := "未找到资源"
}
