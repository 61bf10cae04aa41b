/** The worker's `fetch` handler, step by step: read a whole collection
    from the key-value binding, change it in memory, write it back. */
module Worker {
  import opened Wrappers
  import opened JsValue
  import opened Router

  /** The key-value binding `env.MINECRAFT_KV`, one field per key; `None`
      is a key that was never written. */
  class KvNamespace {
    var posts: Option<seq<Obj>>
    var servers: Option<seq<Obj>>
    var users: Option<map<string, User>>

    constructor (init: Store)
      ensures Contents() == init
    {
      posts := init.posts;
      servers := init.servers;
      users := init.users;
    }

    /** What the binding holds. */
    function Contents(): Store
      reads this
    {
      Store(posts, servers, users)
    }

    /** `get('posts', 'json') || []` */
    method GetPosts() returns (p: seq<Obj>)
      ensures posts.Some? ==> p == posts.value
      ensures posts.None? ==> p == []
    {
      p := posts.GetOr([]);
    }

    /** `get('servers', 'json') || []` */
    method GetServers() returns (p: seq<Obj>)
      ensures servers.Some? ==> p == servers.value
      ensures servers.None? ==> p == []
    {
      p := servers.GetOr([]);
    }

    /** `get('users', 'json') || {}` */
    method GetUsers() returns (u: map<string, User>)
      ensures users.Some? ==> u == users.value
      ensures users.None? ==> u == map[]
    {
      u := users.GetOr(map[]);
    }

    /** `put('posts', ...)`: replaces the whole list and nothing else. */
    method PutPosts(p: seq<Obj>)
      modifies this
      ensures posts == Some(p)
      ensures servers == old(servers) && users == old(users)
    {
      posts := Some(p);
    }

    /** `put('servers', ...)` */
    method PutServers(p: seq<Obj>)
      modifies this
      ensures servers == Some(p)
      ensures posts == old(posts) && users == old(users)
    {
      servers := Some(p);
    }

    /** `put('users', ...)` */
    method PutUsers(u: map<string, User>)
      modifies this
      ensures users == Some(u)
      ensures posts == old(posts) && servers == old(servers)
    {
      users := Some(u);
    }
  }

  /** Handle one request against the binding. The response and the new
      contents are those of the transition `Handle`; a request that is not
      a creation or a registration leaves the binding untouched. */
  method Fetch(request: Request, env: KvNamespace, clock: Clock) returns (response: Response)
    modifies env
    ensures (response, env.Contents()) == Handle(old(env.Contents()), request, clock)
    ensures RouteOf(request.verb, request.path) !in {CreatePost, CreateServer, Register} ==>
      unchanged(env)
  {
    if request.verb == "OPTIONS" {
      return Response(200, Empty);
    }

    if request.path == PostsPath {
      if request.verb == "GET" {
        var posts := env.GetPosts();
        return Response(200, Items(posts));
      }
      if request.verb == "POST" {
        if request.body.Malformed? {
          return Response(500, ServerError);
        }
        var posts := env.GetPosts();
        var newPost := NewItem(request.body.json, clock, AnonymousPlayer);
        if newPost.None? {
          return Response(500, ServerError);
        }
        posts := [newPost.value] + posts;
        env.PutPosts(posts);
        return Response(201, Created(newPost.value));
      }
    }

    if request.path == ServersPath {
      if request.verb == "GET" {
        var servers := env.GetServers();
        return Response(200, Items(servers));
      }
      if request.verb == "POST" {
        if request.body.Malformed? {
          return Response(500, ServerError);
        }
        var servers := env.GetServers();
        var newServer := NewItem(request.body.json, clock, Anonymous);
        if newServer.None? {
          return Response(500, ServerError);
        }
        servers := [newServer.value] + servers;
        env.PutServers(servers);
        return Response(201, Created(newServer.value));
      }
    }

    if request.path == RegisterPath && request.verb == "POST" {
      var credentials := ReadCredentials(request.body);
      if credentials.None? {
        return Response(500, ServerError);
      }
      var username, password := credentials.value.username, credentials.value.password;
      if !Truthy(username) || !Truthy(password) {
        return Response(200, Outcome(false, EmptyCredentials));
      }
      var users := env.GetUsers();
      var key := FieldKey(username);
      if key.None? {
        return Response(500, ServerError);
      }
      if key.value in users {
        return Response(200, Outcome(false, NameTaken));
      }
      users := users[key.value := User(clock.now, username.value, password.value, clock.iso)];
      env.PutUsers(users);
      return Response(200, Outcome(true, Registered));
    }

    if request.path == LoginPath && request.verb == "POST" {
      var credentials := ReadCredentials(request.body);
      if credentials.None? {
        return Response(500, ServerError);
      }
      var username, password := credentials.value.username, credentials.value.password;
      var users := env.GetUsers();
      var key := FieldKey(username);
      if key.None? {
        return Response(500, ServerError);
      }
      if key.value !in users || !StrictEquals(Defined(users[key.value].password), password) {
        return Response(200, Outcome(false, BadCredentials));
      }
      var user := users[key.value];
      var token := Token(user.id, user.username, clock.now + TokenLifetime);
      return Response(200, LoggedIn(token, user.id, user.username));
    }

    if request.path == StatsPath && request.verb == "GET" {
      var posts := env.GetPosts();
      var servers := env.GetServers();
      var users := env.GetUsers();
      return Response(200, Counts(|posts|, |servers|, |users|));
    }

    return Response(404, NotFound);
  }
}
