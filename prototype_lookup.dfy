/** The user table as the handler literally reads it. `users` is a plain
    JavaScript object (from JSON.parse, or the literal `{}`), so
    `users[username]` finds an own property first and otherwise one that
    every object inherits from Object.prototype. The handler means "the
    user registered under this name"; Router models that own-key reading,
    and this module models the inherited one and where the two differ. */
module PrototypeLookup {
  import opened Wrappers
  import opened JsValue
  import opened Router

  /** The names of the properties every plain object inherits. */
  const ObjectPrototypeMembers: set<string> := {
    "constructor", "hasOwnProperty", "isPrototypeOf", "propertyIsEnumerable",
    "toLocaleString", "toString", "valueOf", "__proto__",
    "__defineGetter__", "__defineSetter__", "__lookupGetter__", "__lookupSetter__"
  }

  /** What `users[key]` evaluates to: a stored user, an inherited member
      (a function or Object.prototype itself: truthy, and without a
      `password` property), or undefined. */
  datatype Lookup = Own(user: User) | Inherited | Absent

  function LookupAsWritten(users: map<string, User>, key: string): (r: Lookup)
    ensures r.Own? <==> key in users
    ensures r.Own? ==> r.user == users[key]
    ensures r.Inherited? <==> key !in users && key in ObjectPrototypeMembers
  {
    if key in users then Own(users[key])
    else if key in ObjectPrototypeMembers then Inherited
    else Absent
  }

  /** Register as written: an empty field is refused, and so is any name
      for which `users[username]` is truthy (a name whose conversion to a
      key throws is not refused: the request fails). */
  predicate RegisterRefusesAsWritten(users: map<string, User>, c: Credentials) {
    || !Truthy(c.username) || !Truthy(c.password)
    || (FieldKey(c.username).Some? && !LookupAsWritten(users, FieldKey(c.username).value).Absent?)
  }

  /** Login as written: `!user || user.password !== password` fails the
      login; an inherited member has an undefined `password`. */
  predicate LoginAcceptsAsWritten(users: map<string, User>, c: Credentials) {
    match FieldKey(c.username)
    case None => false
    case Some(key) =>
      match LookupAsWritten(users, key)
      case Absent => false
      case Own(u) => StrictEquals(Defined(u.password), c.password)
      case Inherited => StrictEquals(Undefined, c.password)
  }

  /** As written, `{"username": "constructor"}` with no password logs in
      against an empty user table, although nobody is registered. The
      corrected login refuses it. */
  lemma LoginAsWrittenAdmitsPrototypeName(clock: Clock)
    ensures var c := Credentials(Defined(JStr("constructor")), Undefined);
      && LoginAcceptsAsWritten(map[], c)
      && LoginUser(map[], c, clock) == Some(Outcome(false, BadCredentials))
  {
  }

  /** As written, registering "toString" is refused as a name already
      taken on an empty user table; the corrected registration accepts it. */
  lemma RegisterAsWrittenRefusesFreeName(clock: Clock)
    ensures var c := Credentials(Defined(JStr("toString")), Defined(JStr("secret")));
      && RegisterRefusesAsWritten(map[], c)
      && RegisterUser(map[], c, clock).value.0 == Outcome(true, Registered)
  {
  }

  /** Off the inherited names, the literal reading and the corrected one
      agree on every request. */
  lemma AgreeOffPrototype(users: map<string, User>, c: Credentials, clock: Clock)
    requires FieldKey(c.username).Some? ==> FieldKey(c.username).value !in ObjectPrototypeMembers
    ensures LoginAcceptsAsWritten(users, c) <==>
      LoginUser(users, c, clock).Some? && LoginUser(users, c, clock).value.LoggedIn?
    ensures RegisterRefusesAsWritten(users, c) <==>
      RegisterUser(users, c, clock).Some? && !RegisterUser(users, c, clock).value.0.success
  {
  }

  /** On the inherited names they differ exactly as the two lemmas above
      show: the corrected login accepts only registered users. */
  lemma CorrectedLoginNeedsRegistration(users: map<string, User>, c: Credentials, clock: Clock)
    ensures LoginUser(users, c, clock).Some? && LoginUser(users, c, clock).value.LoggedIn? ==>
      && FieldKey(c.username).value in users
      && LoginAcceptsAsWritten(users, c)
  {
  }
}
