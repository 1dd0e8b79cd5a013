/**
 * The application's route table (main.py, `build_router`): thirty-one
 * routes registered on one router in a fixed order, and what that order
 * decides when several patterns take the same path.
 */
module App {
  import opened Wrappers
  import opened Strings
  import opened Routing

  /** The controller functions the routes lead to. */
  datatype Handler =
    | Home | LoginPage | RegisterPage | LogoutPage | NewPostPage | SubmitPostPage | PostDetail
    | ProfilePage | SearchPage | MonitorDashboard
    | Register | Login | Logout | CurrentUser
    | ListPosts | SearchPosts | CreatePost | GetPost | UpdatePost | DeletePost | PostFeed
    | ListComments | AddComment | ToggleReaction
    | FollowAuthor | UnfollowAuthor | SubscriptionFeed
    | SendMessage | Inbox | Outbox | NetworkMetrics

  /** The number of `add_route` calls `build_router` makes. */
  const RouteCount: nat := 31

  /**
   * The arguments of the `j`-th `add_route` call: the method, the pattern
   * as its segments (the text passed is `PatternOf` of them, shown in the
   * comment) and the handler.
   */
  function Registered(j: nat): Route<Handler>
    requires j < RouteCount
  {
    match j
    // Pages
    case 0 => Route("GET", [Lit(""), Lit("")], Home)  // /
    case 1 => Route("GET", [Lit(""), Lit("login")], LoginPage)  // /login
    case 2 => Route("GET", [Lit(""), Lit("register")], RegisterPage)  // /register
    case 3 => Route("GET", [Lit(""), Lit("logout")], LogoutPage)  // /logout
    case 4 => Route("GET", [Lit(""), Lit("posts"), Lit("new")], NewPostPage)  // /posts/new
    case 5 => Route("POST", [Lit(""), Lit("posts"), Lit("new")], SubmitPostPage)  // /posts/new
    case 6 => Route("GET", [Lit(""), Lit("posts"), Param("post_id")], PostDetail)  // /posts/{post_id}
    case 7 => Route("GET", [Lit(""), Lit("profile")], ProfilePage)  // /profile
    case 8 => Route("GET", [Lit(""), Lit("search")], SearchPage)  // /search
    case 9 => Route("GET", [Lit(""), Lit("monitor")], MonitorDashboard)  // /monitor
    // Sign-up, sign-in and the session
    case 10 => Route("POST", [Lit(""), Lit("api"), Lit("register")], Register)  // /api/register
    case 11 => Route("POST", [Lit(""), Lit("api"), Lit("login")], Login)  // /api/login
    case 12 => Route("POST", [Lit(""), Lit("api"), Lit("logout")], Logout)  // /api/logout
    case 13 => Route("GET", [Lit(""), Lit("api"), Lit("session")], CurrentUser)  // /api/session
    // Posts
    case 14 => Route("GET", [Lit(""), Lit("api"), Lit("posts")], ListPosts)  // /api/posts
    case 15 => Route("GET", [Lit(""), Lit("api"), Lit("posts"), Lit("search")], SearchPosts)  // /api/posts/search
    case 16 => Route("POST", [Lit(""), Lit("api"), Lit("posts")], CreatePost)  // /api/posts
    case 17 => Route("GET", [Lit(""), Lit("api"), Lit("posts"), Param("post_id")], GetPost)  // /api/posts/{post_id}
    case 18 => Route("POST", [Lit(""), Lit("api"), Lit("posts"), Param("post_id"), Lit("edit")], UpdatePost)  // /api/posts/{post_id}/edit
    case 19 => Route("POST", [Lit(""), Lit("api"), Lit("posts"), Param("post_id"), Lit("delete")], DeletePost)  // /api/posts/{post_id}/delete
    case 20 => Route("GET", [Lit(""), Lit("api"), Lit("feed")], PostFeed)  // /api/feed
    // Comments
    case 21 => Route("GET", [Lit(""), Lit("api"), Lit("posts"), Param("post_id"), Lit("comments")], ListComments)  // /api/posts/{post_id}/comments
    case 22 => Route("POST", [Lit(""), Lit("api"), Lit("posts"), Param("post_id"), Lit("comments")], AddComment)  // /api/posts/{post_id}/comments
    // Reactions
    case 23 => Route("POST", [Lit(""), Lit("api"), Lit("posts"), Param("post_id"), Lit("reaction")], ToggleReaction)  // /api/posts/{post_id}/reaction
    // Subscriptions
    case 24 => Route("POST", [Lit(""), Lit("api"), Lit("authors"), Param("author_id"), Lit("follow")], FollowAuthor)  // /api/authors/{author_id}/follow
    case 25 => Route("POST", [Lit(""), Lit("api"), Lit("authors"), Param("author_id"), Lit("unfollow")], UnfollowAuthor)  // /api/authors/{author_id}/unfollow
    case 26 => Route("GET", [Lit(""), Lit("api"), Lit("subscriptions"), Lit("feed")], SubscriptionFeed)  // /api/subscriptions/feed
    // Private messages and network metrics
    case 27 => Route("POST", [Lit(""), Lit("api"), Lit("messages")], SendMessage)  // /api/messages
    case 28 => Route("GET", [Lit(""), Lit("api"), Lit("messages"), Lit("inbox")], Inbox)  // /api/messages/inbox
    case 29 => Route("GET", [Lit(""), Lit("api"), Lit("messages"), Lit("outbox")], Outbox)  // /api/messages/outbox
    case 30 => Route("GET", [Lit(""), Lit("api"), Lit("monitor"), Lit("network")], NetworkMetrics)  // /api/monitor/network
  }

  /** The routes of the application, in registration order. */
  function AppRoutes(): (routes: seq<Route<Handler>>)
    ensures |routes| == RouteCount
    ensures forall j :: 0 <= j < RouteCount ==> routes[j] == Registered(j)
  {
    seq(RouteCount, j requires 0 <= j < RouteCount => Registered(j))
  }

  // The literal texts and placeholder names the table uses, each of which a
  // pattern piece can compile to.

  lemma PageTextsCanonical()
    ensures CanonicalSegment(Lit(""))
      && CanonicalSegment(Lit("login"))
      && CanonicalSegment(Lit("register"))
      && CanonicalSegment(Lit("logout"))
      && CanonicalSegment(Lit("posts"))
      && CanonicalSegment(Lit("new"))
      && CanonicalSegment(Lit("profile"))
      && CanonicalSegment(Lit("search"))
      && CanonicalSegment(Lit("monitor"))
  {
  }

  lemma ApiTextsCanonical()
    ensures CanonicalSegment(Lit("api"))
      && CanonicalSegment(Lit("session"))
      && CanonicalSegment(Lit("edit"))
      && CanonicalSegment(Lit("delete"))
      && CanonicalSegment(Lit("feed"))
      && CanonicalSegment(Lit("comments"))
      && CanonicalSegment(Lit("reaction"))
      && CanonicalSegment(Lit("authors"))
  {
  }

  lemma MoreApiTextsCanonical()
    ensures CanonicalSegment(Lit("follow"))
      && CanonicalSegment(Lit("unfollow"))
      && CanonicalSegment(Lit("subscriptions"))
      && CanonicalSegment(Lit("messages"))
      && CanonicalSegment(Lit("inbox"))
      && CanonicalSegment(Lit("outbox"))
      && CanonicalSegment(Lit("network"))
      && CanonicalSegment(Param("post_id")) && CanonicalSegment(Param("author_id"))
  {
  }

  /** Every registered pattern is written with segments a pattern can compile to. */
  lemma RegisteredCanonical(j: nat)
    requires j < RouteCount
    ensures Canonical(Registered(j).segments)
  {
    PageTextsCanonical();
    ApiTextsCanonical();
    MoreApiTextsCanonical();
  }

  /**
   * Every registered method is upper case and every registered pattern
   * compiles to the segments it is written with, so `add_route` stores each
   * registration as written.
   */
  lemma RegisteredAsWritten(j: nat)
    requires j < RouteCount
    ensures Upper(Registered(j).verb) == Registered(j).verb
    ensures Compile(PatternOf(Registered(j).segments)) == Registered(j).segments
  {
    UpperOfUpper("GET");
    UpperOfUpper("POST");
    RegisteredCanonical(j);
    CompilePatternOf(Registered(j).segments);
  }

  /** `build_router`: a new router holding the application's routes, in registration order. */
  method BuildRouter() returns (router: Router<Handler>)
    ensures fresh(router)
    ensures router.routes == AppRoutes() && |router.routes| == RouteCount
  {
    router := new Router();
    for j := 0 to RouteCount
      invariant router.routes == AppRoutes()[..j]
    {
      var r := Registered(j);
      RegisteredAsWritten(j);
      router.AddRoute(r.verb, PatternOf(r.segments), r.handler);
    }
  }

  // ---------------------------------------------------------------------------
  // What the registration order decides. A path is given by its pieces
  // between '/': the pieces "", "posts", "new" are those of "/posts/new".

  /**
   * `GET /posts/new` goes to the new-post page, registered before the post
   * page, which would take the path too, with "new" as the post id.
   */
  lemma NewPostPageBeforePostDetail(path: string)
    requires Split(path, "/") == ["", "posts", "new"]
    ensures FirstMatch(AppRoutes(), "GET", path) == Some((4, map[]))
    ensures AppRoutes()[4].handler == NewPostPage
    ensures Selects(AppRoutes()[6], "GET", path) && AppRoutes()[6].handler == PostDetail
  {
    forall j | 0 <= j < 4
      ensures !Selects(AppRoutes()[j], "GET", path)
    {
      NotSelected(AppRoutes()[j], "GET", path, 3);
    }
    var route, detail := AppRoutes()[4], AppRoutes()[6];
    assert route == Registered(4) && detail == Registered(6);
    SelectsLiteral(route, "GET", path);
    SelectsFitting(detail, "GET", path);
    FirstMatchAt(AppRoutes(), "GET", path, 4);
  }

  /** `POST /posts/new` submits the new post: the routes before it are all GET routes. */
  lemma SubmitPostPageRoute(path: string)
    requires Split(path, "/") == ["", "posts", "new"]
    ensures FirstMatch(AppRoutes(), "POST", path) == Some((5, map[]))
    ensures AppRoutes()[5].handler == SubmitPostPage
  {
    forall j | 0 <= j < 5
      ensures !Selects(AppRoutes()[j], "POST", path)
    {
      NotSelected(AppRoutes()[j], "POST", path, 3);
    }
    var route := AppRoutes()[5];
    assert route == Registered(5);
    SelectsLiteral(route, "POST", path);
    FirstMatchAt(AppRoutes(), "POST", path, 5);
  }

  /**
   * `GET /posts/<id>` shows post `id` for every other id than "new" (and
   * "new" followed by a line feed, which `$` lets the new-post page take).
   */
  lemma PostDetailRoute(path: string, id: string)
    requires Split(path, "/") == ["", "posts", id]
    requires id != "" && id != "new" && id != "new\n"
    ensures FirstMatch(AppRoutes(), "GET", path) == Some((6, map["post_id" := id]))
    ensures AppRoutes()[6].handler == PostDetail
  {
    forall j | 0 <= j < 6
      ensures !Selects(AppRoutes()[j], "GET", path)
    {
      NotSelected(AppRoutes()[j], "GET", path, 2);
    }
    var route := AppRoutes()[6];
    assert route == Registered(6);
    SelectsOneParam(route, "GET", path, 2);
    FirstMatchAt(AppRoutes(), "GET", path, 6);
  }

  /**
   * `GET /api/posts/search` searches, registered before the post route,
   * which would take the path too, with "search" as the post id.
   */
  lemma SearchPostsBeforeGetPost(path: string)
    requires Split(path, "/") == ["", "api", "posts", "search"]
    ensures FirstMatch(AppRoutes(), "GET", path) == Some((15, map[]))
    ensures AppRoutes()[15].handler == SearchPosts
    ensures Selects(AppRoutes()[17], "GET", path) && AppRoutes()[17].handler == GetPost
  {
    forall j | 0 <= j < 15
      ensures !Selects(AppRoutes()[j], "GET", path)
    {
      NotSelected(AppRoutes()[j], "GET", path, 4);
    }
    var route, post := AppRoutes()[15], AppRoutes()[17];
    assert route == Registered(15) && post == Registered(17);
    SelectsLiteral(route, "GET", path);
    SelectsFitting(post, "GET", path);
    FirstMatchAt(AppRoutes(), "GET", path, 15);
  }

  /**
   * `GET /api/posts/<id>/comments` lists the comments of post `id`: the post
   * route takes four pieces only, and the other five-piece routes before it
   * are POST routes.
   */
  lemma ListCommentsRoute(path: string, id: string)
    requires Split(path, "/") == ["", "api", "posts", id, "comments"]
    requires id != ""
    ensures FirstMatch(AppRoutes(), "GET", path) == Some((21, map["post_id" := id]))
    ensures AppRoutes()[21].handler == ListComments
  {
    forall j | 0 <= j < 21
      ensures !Selects(AppRoutes()[j], "GET", path)
    {
      NotSelected(AppRoutes()[j], "GET", path, 5);
    }
    var route := AppRoutes()[21];
    assert route == Registered(21);
    SelectsOneParam(route, "GET", path, 3);
    FirstMatchAt(AppRoutes(), "GET", path, 21);
  }

  /** No route takes `/unknown`, whatever the method: dispatching it gives the 404 page. */
  lemma UnknownPathUnrouted(path: string, verb: string)
    requires Split(path, "/") == ["", "unknown"]
    ensures FirstMatch(AppRoutes(), verb, path) == None
  {
    UnknownSkipsPages(path, verb);
    UnknownSkipsApi(path, verb);
  }

  /** No page route takes `/unknown`: each has another piece after the first '/', or more pieces. */
  lemma UnknownSkipsPages(path: string, verb: string)
    requires Split(path, "/") == ["", "unknown"]
    ensures forall j :: 0 <= j < 10 ==> !Selects(AppRoutes()[j], verb, path)
  {
    forall j | 0 <= j < 10
      ensures !Selects(AppRoutes()[j], verb, path)
    {
      NotSelected(AppRoutes()[j], verb, path, 1);
    }
  }

  /** No API route takes `/unknown`: each has "api" after the first '/'. */
  lemma UnknownSkipsApi(path: string, verb: string)
    requires Split(path, "/") == ["", "unknown"]
    ensures forall j :: 10 <= j < RouteCount ==> !Selects(AppRoutes()[j], verb, path)
  {
    forall j | 10 <= j < RouteCount
      ensures !Selects(AppRoutes()[j], verb, path)
    {
      NotSelected(AppRoutes()[j], verb, path, 1);
    }
  }
}
