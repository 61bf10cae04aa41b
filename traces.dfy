/** Requests handled one after another: what a run of the handler does to
    the store over many requests. */
module Traces {
  import opened Wrappers
  import opened JsValue
  import opened Router

  /** One request with the clock reading at which it is handled. */
  datatype Event = Event(request: Request, clock: Clock)

  /** The store after handling the events in order. A run never shortens
      either list. */
  function Run(s: Store, events: seq<Event>): (r: Store)
    ensures |Posts(r)| >= |Posts(s)| && |Servers(r)| >= |Servers(s)|
    decreases |events|
  {
    if events == [] then s
    else
      PostsStep(s, events[0]);
      ServersStep(s, events[0]);
      Run(Handle(s, events[0].request, events[0].clock).1, events[1..])
  }

  /** The record an event creates under the route `route`, if any. */
  function CreatedBy(e: Event, route: Route, anonymous: string): seq<Obj> {
    if RouteOf(e.request.verb, e.request.path) == route then
      match CreateFrom(e.request.body, e.clock, anonymous)
      case Some(item) => [item]
      case None => []
    else []
  }

  /** The posts the events create, newest first. */
  function NewPosts(events: seq<Event>): seq<Obj>
    decreases |events|
  {
    if events == [] then []
    else NewPosts(events[1..]) + CreatedBy(events[0], CreatePost, AnonymousPlayer)
  }

  /** The servers the events create, newest first. */
  function NewServers(events: seq<Event>): seq<Obj>
    decreases |events|
  {
    if events == [] then []
    else NewServers(events[1..]) + CreatedBy(events[0], CreateServer, Anonymous)
  }

  /** One request puts at most its own new post in front of the posts list. */
  lemma PostsStep(s: Store, e: Event)
    ensures Posts(Handle(s, e.request, e.clock).1) == CreatedBy(e, CreatePost, AnonymousPlayer) + Posts(s)
  {
  }

  lemma ServersStep(s: Store, e: Event)
    ensures Servers(Handle(s, e.request, e.clock).1) == CreatedBy(e, CreateServer, Anonymous) + Servers(s)
  {
  }

  /** Handled in sequence, requests never lose a post: the list ends as the
      new posts, newest first, in front of the old list. */
  lemma {:induction false} PostsAfterRun(s: Store, events: seq<Event>)
    ensures Posts(Run(s, events)) == NewPosts(events) + Posts(s)
    decreases |events|
  {
    if events != [] {
      var s1 := Handle(s, events[0].request, events[0].clock).1;
      assert Run(s, events) == Run(s1, events[1..]);
      PostsStep(s, events[0]);
      PostsAfterRun(s1, events[1..]);
    }
  }

  lemma {:induction false} ServersAfterRun(s: Store, events: seq<Event>)
    ensures Servers(Run(s, events)) == NewServers(events) + Servers(s)
    decreases |events|
  {
    if events != [] {
      var s1 := Handle(s, events[0].request, events[0].clock).1;
      assert Run(s, events) == Run(s1, events[1..]);
      ServersStep(s, events[0]);
      ServersAfterRun(s1, events[1..]);
    }
  }

  /** A user once registered stays registered with the same record. */
  lemma {:induction false} UsersPersist(s: Store, events: seq<Event>)
    ensures forall k :: k in Users(s) ==> k in Users(Run(s, events)) && Users(Run(s, events))[k] == Users(s)[k]
    decreases |events|
  {
    if events != [] {
      var s1 := Handle(s, events[0].request, events[0].clock).1;
      RegisterRequest(s, events[0].request.body, events[0].clock);
      UsersPersist(s1, events[1..]);
    }
  }

  /** After any run, the stats count the old records plus the new ones. */
  lemma StatsAfterRun(s: Store, events: seq<Event>, body: Payload, clock: Clock)
    ensures Handle(Run(s, events), Request("GET", StatsPath, body), clock).0.body.posts
            == |Posts(s)| + |NewPosts(events)|
    ensures Handle(Run(s, events), Request("GET", StatsPath, body), clock).0.body.servers
            == |Servers(s)| + |NewServers(events)|
  {
    PostsAfterRun(s, events);
    ServersAfterRun(s, events);
  }

  /** Listing right after a successful POST returns the new post first. */
  lemma ListAfterCreate(s: Store, body: Payload, clock: Clock, later: Clock)
    requires body.Parsed? && body.json != JNull
    ensures var (created, s') := Handle(s, Request("POST", PostsPath, body), clock);
      var listed := Handle(s', Request("GET", PostsPath, Malformed), later).0;
      && created.status == 201
      && listed.body.items == [created.body.item] + Posts(s)
  {
    CreatePostPrepends(s, body, clock);
  }

  // ---------------------------------------------------------------------
  // Post ids and arrival order

  /** The clock never runs backwards from one request to the next. */
  predicate ClockMonotone(events: seq<Event>) {
    forall i, j :: 0 <= i < j < |events| ==> events[i].clock.now <= events[j].clock.now
  }

  /** No body that is spread into a new post brings its own `id`; bodies
      of other requests are never spread and may carry anything. */
  predicate NoBodyIds(events: seq<Event>) {
    forall i ::
      (0 <= i < |events| && RouteOf(events[i].request.verb, events[i].request.path) == CreatePost &&
       events[i].request.body.Parsed?) ==>
        "id" !in OwnEntries(events[i].request.body.json)
  }

  /** Every record has a numeric `id` no smaller than `t`. */
  predicate IdsAtLeast(items: seq<Obj>, t: int) {
    forall j :: 0 <= j < |items| ==> "id" in items[j] && items[j]["id"].JNum? && items[j]["id"].n >= t
  }

  /** Every record has a numeric `id`, and the ids never increase along
      the list: newest first. */
  predicate NewestFirst(items: seq<Obj>) {
    && (forall j :: 0 <= j < |items| ==> "id" in items[j] && items[j]["id"].JNum?)
    && (forall j, k :: 0 <= j < k < |items| ==> items[j]["id"].n >= items[k]["id"].n)
  }

  /** A post created from a body without its own `id` takes the clock
      reading of its request as `id`. */
  lemma CreatedId(e: Event)
    requires RouteOf(e.request.verb, e.request.path) == CreatePost && e.request.body.Parsed? ==>
      "id" !in OwnEntries(e.request.body.json)
    ensures forall o :: o in CreatedBy(e, CreatePost, AnonymousPlayer) ==>
      "id" in o && o["id"] == JNum(e.clock.now)
  {
  }

  /** Both conditions carry over from a run to its tail. */
  lemma TailConditions(events: seq<Event>)
    requires events != [] && ClockMonotone(events) && NoBodyIds(events)
    ensures ClockMonotone(events[1..]) && NoBodyIds(events[1..])
  {
    var rest := events[1..];
    forall i, j | 0 <= i < j < |rest| ensures rest[i].clock.now <= rest[j].clock.now {
      assert rest[i] == events[i + 1] && rest[j] == events[j + 1];
    }
    forall i | 0 <= i < |rest| && RouteOf(rest[i].request.verb, rest[i].request.path) == CreatePost &&
               rest[i].request.body.Parsed?
      ensures "id" !in OwnEntries(rest[i].request.body.json)
    {
      assert rest[i] == events[i + 1];
    }
  }

  /** With a clock that never runs backwards and bodies without their own
      `id`, the posts a run creates carry ids in arrival order, newest
      first, none earlier than the first request's clock. */
  lemma {:induction false} IdsFollowArrival(events: seq<Event>)
    requires ClockMonotone(events) && NoBodyIds(events)
    ensures NewestFirst(NewPosts(events))
    ensures events != [] ==> IdsAtLeast(NewPosts(events), events[0].clock.now)
    decreases |events|
  {
    if events != [] {
      var rest := events[1..];
      TailConditions(events);
      IdsFollowArrival(rest);
      var e := events[0];
      assert RouteOf(e.request.verb, e.request.path) == CreatePost && e.request.body.Parsed? ==>
        "id" !in OwnEntries(e.request.body.json);
      CreatedId(e);
      var older := NewPosts(rest);
      var first := CreatedBy(events[0], CreatePost, AnonymousPlayer);
      var t := events[0].clock.now;
      assert IdsAtLeast(older, t) by {
        if rest != [] {
          assert rest[0] == events[1];
        }
      }
      var all: seq<Obj> := NewPosts(events);
      assert all == older + first;
      forall j | 0 <= j < |all|
        ensures "id" in all[j] && all[j]["id"].JNum? && all[j]["id"].n >= t
      {
        if j >= |older| {
          assert all[j] == first[j - |older|];
        }
      }
      forall j, k | 0 <= j < k < |all|
        ensures all[j]["id"].n >= all[k]["id"].n
      {
        if k >= |older| {
          assert all[k] == first[k - |older|];
        }
      }
    }
  }

  /** The posts list after a run from an empty store is in arrival order,
      newest first. */
  lemma PostsInArrivalOrder(s: Store, events: seq<Event>)
    requires Posts(s) == []
    requires ClockMonotone(events) && NoBodyIds(events)
    ensures NewestFirst(Posts(Run(s, events)))
  {
    PostsAfterRun(s, events);
    IdsFollowArrival(events);
    assert Posts(Run(s, events)) == NewPosts(events);
  }

  /** The body `{"username": name, "password": password}`. */
  function CredentialsBody(name: string, password: string): Payload {
    Parsed(JObj(map["username" := JStr(name), "password" := JStr(password)]))
  }

  /** Registering a name not yet taken, with a non-empty password, adds
      exactly that user and answers success. */
  lemma RegisterFresh(s: Store, name: string, password: string, clock: Clock)
    requires name != "" && password != "" && name !in Users(s)
    ensures var (reply, s1) := Handle(s, Request("POST", RegisterPath, CredentialsBody(name, password)), clock);
      && reply == Response(200, Outcome(true, Registered))
      && name in Users(s1)
      && Users(s1)[name] == User(clock.now, JStr(name), JStr(password), clock.iso)
  {
    var c := Credentials(Defined(JStr(name)), Defined(JStr(password)));
    assert ReadCredentials(CredentialsBody(name, password)) == Some(c);
    assert FieldKey(c.username) == Some(name);
    assert RouteOf("POST", RegisterPath) == Register;
  }

  /** Registering a name already taken is refused and changes nothing. */
  lemma RegisterTaken(s: Store, name: string, password: string, clock: Clock)
    requires name != "" && password != "" && name in Users(s)
    ensures Handle(s, Request("POST", RegisterPath, CredentialsBody(name, password)), clock)
      == (Response(200, Outcome(false, NameTaken)), s)
  {
    var c := Credentials(Defined(JStr(name)), Defined(JStr(password)));
    assert ReadCredentials(CredentialsBody(name, password)) == Some(c);
    assert FieldKey(c.username) == Some(name);
    assert RouteOf("POST", RegisterPath) == Register;
  }

  /** Logging in with a name stored with exactly this password gives the
      stored user a token valid seven days from the login. */
  lemma LoginStored(s: Store, name: string, password: string, clock: Clock)
    requires name in Users(s) && Users(s)[name].password == JStr(password)
    ensures var u := Users(s)[name];
      Handle(s, Request("POST", LoginPath, CredentialsBody(name, password)), clock).0
        == Response(200, LoggedIn(Token(u.id, u.username, clock.now + TokenLifetime), u.id, u.username))
  {
    var c := Credentials(Defined(JStr(name)), Defined(JStr(password)));
    assert ReadCredentials(CredentialsBody(name, password)) == Some(c);
    assert FieldKey(c.username) == Some(name);
    assert RouteOf("POST", LoginPath) == Login;
  }

  /** Registering a new name with a password and, after any further
      requests, logging in with the same pair gives a token for that user,
      valid seven days from the login. */
  lemma RegisterThenLogin(s: Store, name: string, password: string, registered: Clock,
                          events: seq<Event>, login: Clock)
    requires name != "" && password != "" && name !in Users(s)
    ensures var (reply, s1) := Handle(s, Request("POST", RegisterPath, CredentialsBody(name, password)), registered);
      var later := Run(s1, events);
      && reply == Response(200, Outcome(true, Registered))
      && Handle(later, Request("POST", LoginPath, CredentialsBody(name, password)), login).0
         == Response(200, LoggedIn(Token(registered.now, JStr(name), login.now + TokenLifetime),
                                   registered.now, JStr(name)))
  {
    RegisterFresh(s, name, password, registered);
    var s1 := Handle(s, Request("POST", RegisterPath, CredentialsBody(name, password)), registered).1;
    UsersPersist(s1, events);
    LoginStored(Run(s1, events), name, password, login);
  }

  /** Registering the same name twice: the second attempt is refused and
      leaves the store as the first one left it. */
  lemma RegisterTwice(s: Store, name: string, first: string, second: string, c1: Clock, c2: Clock)
    requires name != "" && first != "" && second != ""
    ensures var s1 := Handle(s, Request("POST", RegisterPath, CredentialsBody(name, first)), c1).1;
      Handle(s1, Request("POST", RegisterPath, CredentialsBody(name, second)), c2)
        == (Response(200, Outcome(false, NameTaken)), s1)
  {
    var s1 := Handle(s, Request("POST", RegisterPath, CredentialsBody(name, first)), c1).1;
    if name in Users(s) {
      RegisterTaken(s, name, first, c1);
    } else {
      RegisterFresh(s, name, first, c1);
    }
    RegisterTaken(s1, name, second, c2);
  }
}
