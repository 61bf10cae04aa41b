/** The request handler of the community API as one pure transition:
    given the store, a request and the clock, the response and the new
    store. The key-value binding holds three keys, `posts`, `servers` and
    `users`; each may be absent. */
module Router {
  import opened Wrappers
  import opened JsValue

  const PostsPath := "/api/posts"
  const ServersPath := "/api/servers"
  const RegisterPath := "/api/auth/register"
  const LoginPath := "/api/auth/login"
  const StatsPath := "/api/stats"

  /** Default authors of a post ("anonymous player") and of a server ("anonymous"). */
  const AnonymousPlayer := "匿名玩家"
  const Anonymous := "匿名"

  /** Messages of the register and login replies. */
  const EmptyCredentials := "用户名和密码不能为空"
  const NameTaken := "用户名已存在"
  const Registered := "注册成功"
  const BadCredentials := "用户名或密码错误"

  /** A login token expires seven days after it is issued, in milliseconds. */
  const TokenLifetime := 7 * 24 * 60 * 60 * 1000

  /** A request body as `request.json()` sees it. */
  datatype Payload = Malformed | Parsed(json: Json)

  /** The HTTP method (`verb`) and the URL path of a request, with its body. */
  datatype Request = Request(verb: string, path: string, body: Payload)

  /** The clock reading of one request: `Date.now()` and its ISO-8601 form. */
  datatype Clock = Clock(now: int, iso: string)

  /** A registered user, stored under its name; the password is kept as given. */
  datatype User = User(id: int, username: Json, password: Json, createdAt: string)

  /** The payload of a login token. */
  datatype Token = Token(userId: int, username: Json, exp: int)

  /** The contents of the key-value binding; `None` is a key never written. */
  datatype Store = Store(
    posts: Option<seq<Obj>>,
    servers: Option<seq<Obj>>,
    users: Option<map<string, User>>)

  /** The JSON body of a response. */
  datatype Body =
    | Empty
    | Items(items: seq<Obj>)
    | Created(item: Obj)
    | Outcome(success: bool, message: string)
    | LoggedIn(token: Token, userId: int, username: Json)
    | Counts(posts: nat, servers: nat, users: nat)
    | NotFound
    | ServerError

  datatype Response = Response(status: int, body: Body)

  /** The collections as the handler reads them: an absent key reads as empty. */
  function Posts(s: Store): seq<Obj> {
    s.posts.GetOr([])
  }

  function Servers(s: Store): seq<Obj> {
    s.servers.GetOr([])
  }

  function Users(s: Store): map<string, User> {
    s.users.GetOr(map[])
  }

  // ---------------------------------------------------------------------
  // Route matching

  datatype Route =
    | Preflight
    | ListPosts
    | CreatePost
    | ListServers
    | CreateServer
    | Register
    | Login
    | Stats
    | Unmatched

  /** The branch of the handler a method and a path reach, tested in the
      handler's order: preflight first, then each path with its methods. */
  function RouteOf(verb: string, path: string): (r: Route)
    ensures r == Preflight <==> verb == "OPTIONS"
    ensures r == ListPosts <==> verb == "GET" && path == PostsPath
    ensures r == CreatePost <==> verb == "POST" && path == PostsPath
    ensures r == ListServers <==> verb == "GET" && path == ServersPath
    ensures r == CreateServer <==> verb == "POST" && path == ServersPath
    ensures r == Register <==> verb == "POST" && path == RegisterPath
    ensures r == Login <==> verb == "POST" && path == LoginPath
    ensures r == Stats <==> verb == "GET" && path == StatsPath
  {
    if verb == "OPTIONS" then Preflight
    else if path == PostsPath && verb == "GET" then ListPosts
    else if path == PostsPath && verb == "POST" then CreatePost
    else if path == ServersPath && verb == "GET" then ListServers
    else if path == ServersPath && verb == "POST" then CreateServer
    else if path == RegisterPath && verb == "POST" then Register
    else if path == LoginPath && verb == "POST" then Login
    else if path == StatsPath && verb == "GET" then Stats
    else Unmatched
  }

  /** Only the pairs above are routed; every other request is unmatched. */
  lemma UnmatchedExactly(verb: string, path: string)
    ensures RouteOf(verb, path) == Unmatched <==>
      && verb != "OPTIONS"
      && (verb, path) !in {("GET", PostsPath), ("POST", PostsPath), ("GET", ServersPath),
                             ("POST", ServersPath), ("POST", RegisterPath), ("POST", LoginPath),
                             ("GET", StatsPath)}
  {
  }

  // ---------------------------------------------------------------------
  // Creating a post or a server

  /** `{ id: Date.now(), ...data, createdAt: <now as ISO-8601>, author: data.author || anonymous }`,
      or None when reading `data.author` throws because the body is null. */
  function NewItem(data: Json, clock: Clock, anonymous: string): (r: Option<Obj>)
    ensures r.None? <==> data == JNull
    ensures r.Some? ==>
      var item, spread, author := r.value, OwnEntries(data), Member(data, "author");
      && item.Keys == spread.Keys + {"id", "createdAt", "author"}
      && item["createdAt"] == JStr(clock.iso)
      && item["author"] == (if Truthy(author) then author.value else JStr(anonymous))
      && item["id"] == (if "id" in spread then spread["id"] else JNum(clock.now))
      && forall k :: k in spread && k != "id" && k != "createdAt" && k != "author" ==>
           item[k] == spread[k]
  {
    if data == JNull then None
    else
      var author := Member(data, "author");
      var withId := map["id" := JNum(clock.now)] + OwnEntries(data);
      Some(withId["createdAt" := JStr(clock.iso)]
                  ["author" := if Truthy(author) then author.value else JStr(anonymous)])
  }

  /** The new record for a POST body: None when the body is not JSON or is null. */
  function CreateFrom(body: Payload, clock: Clock, anonymous: string): (r: Option<Obj>)
    ensures r.None? <==> body == Malformed || body == Parsed(JNull)
    ensures r.Some? ==>
      && {"id", "createdAt", "author"} <= r.value.Keys
      && r.value["createdAt"] == JStr(clock.iso)
    ensures body.Parsed? ==> r == NewItem(body.json, clock, anonymous)
  {
    match body
    case Malformed => None
    case Parsed(data) => NewItem(data, clock, anonymous)
  }

  /** A body that is a JSON object without `id`, `createdAt` or `author` keeps its
      members, gets the request's clock reading as `id`, the anonymous
      default as `author`, and no other member (in particular no
      `platform`). */
  lemma NewItemFromPlainObject(members: map<string, Json>, clock: Clock, anonymous: string)
    requires "id" !in members && "author" !in members && "createdAt" !in members
    ensures var r := NewItem(JObj(members), clock, anonymous);
      && r.Some?
      && r.value == members["id" := JNum(clock.now)]["createdAt" := JStr(clock.iso)]
                           ["author" := JStr(anonymous)]
  {
  }

  /** Adding the server `{"name": "Test", "ip": "1.2.3.4", "description": "x"}`
      answers 201 with exactly those members, the clock reading as `id`
      and `createdAt`, and the anonymous author. */
  lemma AddServerScenario(s: Store, clock: Clock)
    ensures var body := Parsed(JObj(map["name" := JStr("Test"), "ip" := JStr("1.2.3.4"),
                                        "description" := JStr("x")]));
      Handle(s, Request("POST", ServersPath, body), clock).0 ==
        Response(201, Created(map["id" := JNum(clock.now), "name" := JStr("Test"),
                                  "ip" := JStr("1.2.3.4"), "description" := JStr("x"),
                                  "createdAt" := JStr(clock.iso), "author" := JStr(Anonymous)]))
  {
    assert RouteOf("POST", ServersPath) == CreateServer;
    var members := map["name" := JStr("Test"), "ip" := JStr("1.2.3.4"), "description" := JStr("x")];
    NewItemFromPlainObject(members, clock, Anonymous);
    ServerRecordMembers(clock);
  }

  /** The record of the server above, member by member. */
  lemma ServerRecordMembers(clock: Clock)
    ensures var members := map["name" := JStr("Test"), "ip" := JStr("1.2.3.4"), "description" := JStr("x")];
      members["id" := JNum(clock.now)]["createdAt" := JStr(clock.iso)]["author" := JStr(Anonymous)]
      == map["id" := JNum(clock.now), "name" := JStr("Test"),
             "ip" := JStr("1.2.3.4"), "description" := JStr("x"),
             "createdAt" := JStr(clock.iso), "author" := JStr(Anonymous)]
  {
    var members := map["name" := JStr("Test"), "ip" := JStr("1.2.3.4"), "description" := JStr("x")];
    var item := members["id" := JNum(clock.now)]["createdAt" := JStr(clock.iso)]["author" := JStr(Anonymous)];
    var expected := map["id" := JNum(clock.now), "name" := JStr("Test"),
                        "ip" := JStr("1.2.3.4"), "description" := JStr("x"),
                        "createdAt" := JStr(clock.iso), "author" := JStr(Anonymous)];
    assert item.Keys == expected.Keys;
  }

  // ---------------------------------------------------------------------
  // Register and login

  /** `username` and `password` of a body, each possibly undefined. */
  datatype Credentials = Credentials(username: Field, password: Field)

  /** `const { username, password } = await request.json()`: None when the
      body is not JSON, or is null (destructuring null throws). */
  function ReadCredentials(body: Payload): (r: Option<Credentials>)
    ensures r.None? <==> body == Malformed || body == Parsed(JNull)
    ensures r.Some? ==> r.value == Credentials(Member(body.json, "username"), Member(body.json, "password"))
  {
    match body
    case Malformed => None
    case Parsed(v) =>
      if v == JNull then None
      else Some(Credentials(Member(v, "username"), Member(v, "password")))
  }

  /** Registration against the user table: refuses an empty field, then
      converts the name to a key, which may throw (None), then refuses a
      name already taken; otherwise adds exactly one user. The table
      returned is what the handler writes back, and it is written only on
      success. */
  function RegisterUser(users: map<string, User>, c: Credentials, clock: Clock)
    : (r: Option<(Body, map<string, User>)>)
    ensures r.None? <==> Truthy(c.username) && Truthy(c.password) && FieldKey(c.username).None?
    ensures r.Some? ==> r.value.0.Outcome?
    ensures !Truthy(c.username) || !Truthy(c.password) ==>
      r == Some((Outcome(false, EmptyCredentials), users))
    ensures Truthy(c.username) && Truthy(c.password) && FieldKey(c.username).Some? &&
            FieldKey(c.username).value in users ==>
      r == Some((Outcome(false, NameTaken), users))
    ensures r.Some? && r.value.0.success <==>
      Truthy(c.username) && Truthy(c.password) && FieldKey(c.username).Some? &&
      FieldKey(c.username).value !in users
    ensures r.Some? && r.value.0.success ==>
      var key, (reply, users') := FieldKey(c.username).value, r.value;
      && reply.message == Registered
      && key !in users
      && users'.Keys == users.Keys + {key}
      && |users'| == |users| + 1
      && users'[key] == User(clock.now, c.username.value, c.password.value, clock.iso)
      && forall k :: k in users ==> users'[k] == users[k]
  {
    if !Truthy(c.username) || !Truthy(c.password) then
      Some((Outcome(false, EmptyCredentials), users))
    else
      match FieldKey(c.username)
      case None => None
      case Some(key) =>
        if key in users then Some((Outcome(false, NameTaken), users))
        else
          Some((Outcome(true, Registered),
                users[key := User(clock.now, c.username.value, c.password.value, clock.iso)]))
  }

  /** Login: converts the name to a key, which may throw (None); the user
      stored under that key, if its password is strictly equal to the
      given one, gets a token valid for seven days. */
  function LoginUser(users: map<string, User>, c: Credentials, clock: Clock): (r: Option<Body>)
    ensures r.None? <==> FieldKey(c.username).None?
    ensures r.Some? ==>
      var key := FieldKey(c.username).value;
      r.value.LoggedIn? <==> key in users && StrictEquals(Defined(users[key].password), c.password)
    ensures r.Some? && r.value.LoggedIn? ==>
      var u := users[FieldKey(c.username).value];
      r.value == LoggedIn(Token(u.id, u.username, clock.now + 604800000), u.id, u.username)
    ensures r.Some? && !r.value.LoggedIn? ==> r.value == Outcome(false, BadCredentials)
  {
    match FieldKey(c.username)
    case None => None
    case Some(key) =>
      if key !in users || !StrictEquals(Defined(users[key].password), c.password) then
        Some(Outcome(false, BadCredentials))
      else
        var u := users[key];
        Some(LoggedIn(Token(u.id, u.username, clock.now + TokenLifetime), u.id, u.username))
  }

  /** For a user whose name and password are strings, login succeeds
      exactly when the name is registered with that password. */
  lemma LoginWithStrings(users: map<string, User>, name: string, password: string, clock: Clock)
    ensures var r := LoginUser(users, Credentials(Defined(JStr(name)), Defined(JStr(password))), clock);
      r.Some? && (r.value.LoggedIn? <==> name in users && users[name].password == JStr(password))
  {
  }

  /** A password that is an array or an object never matches, not even
      the one stored. */
  lemma LoginRefusesStructuredPassword(users: map<string, User>, c: Credentials, clock: Clock)
    requires c.password.Defined? && (c.password.value.JArr? || c.password.value.JObj?)
    ensures LoginUser(users, c, clock).Some? ==> LoginUser(users, c, clock).value == Outcome(false, BadCredentials)
  {
  }

  // ---------------------------------------------------------------------
  // One request

  /** The handler: respond to one request and give the store it leaves.
      Every status is one of four, and a request that fails leaves the
      store as it was. */
  function Handle(s: Store, req: Request, clock: Clock): (r: (Response, Store))
    ensures r.0.status in {200, 201, 404, 500}
    ensures r.0.status in {404, 500} ==> r.1 == s
  {
    match RouteOf(req.verb, req.path)
    case Preflight => (Response(200, Empty), s)
    case ListPosts => (Response(200, Items(Posts(s))), s)
    case CreatePost =>
      (match CreateFrom(req.body, clock, AnonymousPlayer)
       case None => (Response(500, ServerError), s)
       case Some(item) => (Response(201, Created(item)), s.(posts := Some([item] + Posts(s)))))
    case ListServers => (Response(200, Items(Servers(s))), s)
    case CreateServer =>
      (match CreateFrom(req.body, clock, Anonymous)
       case None => (Response(500, ServerError), s)
       case Some(item) => (Response(201, Created(item)), s.(servers := Some([item] + Servers(s)))))
    case Register =>
      (match ReadCredentials(req.body)
       case None => (Response(500, ServerError), s)
       case Some(c) =>
         match RegisterUser(Users(s), c, clock)
         case None => (Response(500, ServerError), s)
         case Some((reply, users)) =>
           (Response(200, reply), if reply.success then s.(users := Some(users)) else s))
    case Login =>
      (match ReadCredentials(req.body)
       case None => (Response(500, ServerError), s)
       case Some(c) =>
         match LoginUser(Users(s), c, clock)
         case None => (Response(500, ServerError), s)
         case Some(reply) => (Response(200, reply), s))
    case Stats => (Response(200, Counts(|Posts(s)|, |Servers(s)|, |Users(s)|)), s)
    case Unmatched => (Response(404, NotFound), s)
  }

  /** A preflight request to any path gets 200 with no body and changes nothing. */
  lemma PreflightAnyPath(s: Store, path: string, body: Payload, clock: Clock)
    ensures Handle(s, Request("OPTIONS", path, body), clock) == (Response(200, Empty), s)
  {
  }

  /** Listing posts or servers returns the stored sequence, empty when the
      key is absent, and changes nothing. */
  lemma ListingsAreReadOnly(s: Store, body: Payload, clock: Clock)
    ensures Handle(s, Request("GET", PostsPath, body), clock) == (Response(200, Items(Posts(s))), s)
    ensures Handle(s, Request("GET", ServersPath, body), clock) == (Response(200, Items(Servers(s))), s)
  {
  }

  /** A POST to the posts path answers 201 with the new post when the body
      is a JSON value other than null, and then the new list is the new
      post followed by the old list in order, with servers and users
      untouched; otherwise it answers 500 and changes nothing. */
  lemma CreatePostPrepends(s: Store, body: Payload, clock: Clock)
    ensures var (resp, s') := Handle(s, Request("POST", PostsPath, body), clock);
      if body.Parsed? && body.json != JNull then
        var item := CreateFrom(body, clock, AnonymousPlayer).value;
        && resp == Response(201, Created(item))
        && Posts(s') == [item] + Posts(s)
        && |Posts(s')| == |Posts(s)| + 1
        && Posts(s')[0] == item
        && (forall i :: 0 <= i < |Posts(s)| ==> Posts(s')[i + 1] == Posts(s)[i])
        && s'.servers == s.servers && s'.users == s.users
      else
        resp == Response(500, ServerError) && s' == s
  {
    assert RouteOf("POST", PostsPath) == CreatePost;
    if body.Parsed? && body.json != JNull {
      var item := CreateFrom(body, clock, AnonymousPlayer).value;
      var s' := s.(posts := Some([item] + Posts(s)));
      assert Posts(s') == [item] + Posts(s);
    }
  }

  /** The same for a POST to the servers path. */
  lemma CreateServerPrepends(s: Store, body: Payload, clock: Clock)
    ensures var (resp, s') := Handle(s, Request("POST", ServersPath, body), clock);
      if body.Parsed? && body.json != JNull then
        var item := CreateFrom(body, clock, Anonymous).value;
        && resp == Response(201, Created(item))
        && Servers(s') == [item] + Servers(s)
        && |Servers(s')| == |Servers(s)| + 1
        && Servers(s')[0] == item
        && (forall i :: 0 <= i < |Servers(s)| ==> Servers(s')[i + 1] == Servers(s)[i])
        && s'.posts == s.posts && s'.users == s.users
      else
        resp == Response(500, ServerError) && s' == s
  {
    assert RouteOf("POST", ServersPath) == CreateServer;
    if body.Parsed? && body.json != JNull {
      var item := CreateFrom(body, clock, Anonymous).value;
      var s' := s.(servers := Some([item] + Servers(s)));
      assert Servers(s') == [item] + Servers(s);
    }
  }

  /** Registration answers 200 whatever the outcome, except for a body
      that is not usable and for a non-empty name whose conversion to a key
      throws, which answer 500. It changes the user table only when it
      succeeds, and then by exactly one new key, and it never touches
      posts or servers. */
  lemma RegisterRequest(s: Store, body: Payload, clock: Clock)
    ensures var (resp, s') := Handle(s, Request("POST", RegisterPath, body), clock);
      var c := ReadCredentials(body);
      var thrown := c.None? ||
        (Truthy(c.value.username) && Truthy(c.value.password) && FieldKey(c.value.username).None?);
      && s'.posts == s.posts && s'.servers == s.servers
      && (thrown ==> resp == Response(500, ServerError) && s' == s)
      && (!thrown ==>
            && resp.status == 200 && resp.body.Outcome?
            && (!resp.body.success ==> s' == s)
            && (resp.body.success ==>
                  var key := FieldKey(c.value.username).value;
                  && key !in Users(s)
                  && Users(s').Keys == Users(s).Keys + {key}
                  && |Users(s')| == |Users(s)| + 1
                  && forall k :: k in Users(s) ==> Users(s')[k] == Users(s)[k]))
  {
  }

  /** A user name that is an object with its own `toString` member is
      truthy, so registration gets past the empty-field check, and then
      throws when the name becomes a key: 500, and nothing is stored. */
  lemma RegisterUnconvertibleName(s: Store, clock: Clock)
    ensures var name := JObj(map["toString" := JNum(1)]);
      var body := Parsed(JObj(map["username" := name, "password" := JStr("p")]));
      Handle(s, Request("POST", RegisterPath, body), clock) == (Response(500, ServerError), s)
  {
    var name := JObj(map["toString" := JNum(1)]);
    var body := Parsed(JObj(map["username" := name, "password" := JStr("p")]));
    assert ReadCredentials(body).value == Credentials(Defined(name), Defined(JStr("p")));
    assert KeyThrows(name);
  }

  /** A name already registered is refused and the store is left as it was. */
  lemma DuplicateRegistrationAddsNoKey(s: Store, body: Payload, clock: Clock)
    requires ReadCredentials(body).Some?
    requires FieldKey(ReadCredentials(body).value.username).Some?
    requires FieldKey(ReadCredentials(body).value.username).value in Users(s)
    ensures var (resp, s') := Handle(s, Request("POST", RegisterPath, body), clock);
      resp.body.Outcome? && !resp.body.success && s' == s
  {
  }

  /** Login never changes the store. */
  lemma LoginIsReadOnly(s: Store, body: Payload, clock: Clock)
    ensures Handle(s, Request("POST", LoginPath, body), clock).1 == s
  {
  }

  /** Stats are the lengths of the two lists and the number of users, and
      reading them changes nothing. */
  lemma StatsAreCounts(s: Store, body: Payload, clock: Clock)
    ensures var (resp, s') := Handle(s, Request("GET", StatsPath, body), clock);
      && s' == s
      && resp == Response(200, Counts(|Posts(s)|, |Servers(s)|, |Users(s).Keys|))
  {
  }

  /** The stats agree with what the two listings return on the same store. */
  lemma StatsMatchListings(s: Store, body: Payload, clock: Clock)
    ensures var stats := Handle(s, Request("GET", StatsPath, body), clock).0.body;
      && stats.posts == |Handle(s, Request("GET", PostsPath, body), clock).0.body.items|
      && stats.servers == |Handle(s, Request("GET", ServersPath, body), clock).0.body.items|
  {
  }

  /** Every request none of the routes match answers 404 and changes nothing. */
  lemma UnmatchedIsNotFound(s: Store, req: Request, clock: Clock)
    requires RouteOf(req.verb, req.path) == Unmatched
    ensures Handle(s, req, clock) == (Response(404, NotFound), s)
  {
  }

  /** Which request may change which key: posts only by creating a post,
      servers only by creating a server, users only by registering. */
  lemma StepFrame(s: Store, req: Request, clock: Clock)
    ensures var s' := Handle(s, req, clock).1;
      var r := RouteOf(req.verb, req.path);
      && (s'.posts != s.posts ==> r == CreatePost)
      && (s'.servers != s.servers ==> r == CreateServer)
      && (s'.users != s.users ==> r == Register)
  {
  }

  /** The status codes: 201 exactly for a created record, 404 exactly for
      an unmatched request, 500 exactly for a body that is not usable or a
      user name whose conversion to a key throws, and 200 otherwise. */
  lemma StatusCodes(s: Store, req: Request, clock: Clock)
    ensures var resp := Handle(s, req, clock).0;
      var r := RouteOf(req.verb, req.path);
      var thrown := match r
        case CreatePost => CreateFrom(req.body, clock, AnonymousPlayer).None?
        case CreateServer => CreateFrom(req.body, clock, Anonymous).None?
        case Register =>
          var c := ReadCredentials(req.body);
          c.None? || (Truthy(c.value.username) && Truthy(c.value.password) && FieldKey(c.value.username).None?)
        case Login =>
          var c := ReadCredentials(req.body);
          c.None? || FieldKey(c.value.username).None?
        case _ => false;
      && (resp.status == 201 <==> (r == CreatePost || r == CreateServer) && !thrown)
      && (resp.status == 404 <==> r == Unmatched)
      && (resp.status == 500 <==> thrown)
      && (resp.status == 200 <==> r != Unmatched && r != CreatePost && r != CreateServer && !thrown)
  {
  }
}
