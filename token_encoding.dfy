/** The login token as the handler literally encodes it:
    `btoa(JSON.stringify({ userId, username, exp }))`. `btoa` accepts only
    strings whose every character is at most U+00FF and throws otherwise,
    and the handler turns that into a 500. Router models the token by its
    payload, as the handler evidently means it to be issued; this module
    models the encoding step and the requests it fails. */
module TokenEncoding {
  import opened JsValue
  import opened Router
  import Traces

  /** Every character fits in one byte, as `btoa` demands. */
  predicate Latin1(s: string) {
    forall i :: 0 <= i < |s| ==> s[i] as int <= 0xFF
  }

  /** Every character of `JSON.stringify(v)` is at most U+00FF exactly
      when every string inside `v`, member names included, is: the
      punctuation, digits, literals and escapes that JSON.stringify writes
      are ASCII, and every other character of a string is copied as is. */
  predicate StringifiesToLatin1(v: Json)
    decreases v
  {
    match v
    case JStr(s) => Latin1(s)
    case JArr(items) => forall i :: 0 <= i < |items| ==> StringifiesToLatin1(items[i])
    case JObj(m) => forall k :: k in m ==> Latin1(k) && StringifiesToLatin1(m[k])
    case _ => true
  }

  /** `btoa` succeeds on the serialised payload: `userId` and `exp` are
      numbers, so only the user name can carry a wider character. */
  predicate TokenEncodes(t: Token) {
    StringifiesToLatin1(t.username)
  }

  /** The login response with the token encoding step as written: besides
      a name that cannot become a key, a login that passes the password
      check but whose token cannot be encoded answers 500. Only the encoding
      is literal here; the user lookup is the corrected own-key one of
      `LoginUser` (the literal lookup is in PrototypeLookup). */
  function LoginResponseWithBtoa(users: map<string, User>, c: Credentials, clock: Clock): (r: Response)
    ensures var b := LoginUser(users, c, clock);
      r.status == 500 <==> b.None? || (b.value.LoggedIn? && !TokenEncodes(b.value.token))
    ensures r.status != 500 ==> r == Response(200, LoginUser(users, c, clock).value)
  {
    match LoginUser(users, c, clock)
    case None => Response(500, ServerError)
    case Some(b) =>
      if b.LoggedIn? && !TokenEncodes(b.token) then Response(500, ServerError) else Response(200, b)
  }

  /** A string user name with one character above U+00FF can never log in
      as written, not even with the right password. */
  lemma WideNameNeverLogsIn(users: map<string, User>, name: string, password: Field, clock: Clock, i: nat)
    requires name in users && users[name].username == JStr(name)
    requires i < |name| && name[i] as int > 0xFF
    ensures !LoginResponseWithBtoa(users, Credentials(Defined(JStr(name)), password), clock).body.LoggedIn?
  {
  }

  /** Registering "玩家" (player) with a password and logging in with the
      same pair: as written the login answers 500; the corrected handler
      issues the token. */
  lemma ChineseNameCannotLogIn(s: Store, register: Clock, login: Clock)
    requires "玩家" !in Users(s)
    ensures var s1 := Handle(s, Request("POST", RegisterPath, Traces.CredentialsBody("玩家", "secret")), register).1;
      var c := Credentials(Defined(JStr("玩家")), Defined(JStr("secret")));
      && LoginResponseWithBtoa(Users(s1), c, login) == Response(500, ServerError)
      && Handle(s1, Request("POST", LoginPath, Traces.CredentialsBody("玩家", "secret")), login).0.body.LoggedIn?
  {
    Traces.RegisterThenLogin(s, "玩家", "secret", register, [], login);
    var body := Traces.CredentialsBody("玩家", "secret");
    assert ReadCredentials(body).value == Credentials(Defined(JStr("玩家")), Defined(JStr("secret")));
    var s1 := Handle(s, Request("POST", RegisterPath, body), register).1;
    assert Users(s1)["玩家"].username == JStr("玩家");
    assert !Latin1("玩家") by {
      assert "玩家"[0] as int > 0xFF;
    }
  }

  /** Whenever the user name is Latin-1 throughout, the literal handler and
      the corrected one give the same login response. */
  lemma AgreeOnLatin1Names(users: map<string, User>, c: Credentials, clock: Clock)
    requires FieldKey(c.username).Some? && FieldKey(c.username).value in users ==>
      StringifiesToLatin1(users[FieldKey(c.username).value].username)
    ensures LoginUser(users, c, clock).Some? ==>
      LoginResponseWithBtoa(users, c, clock) == Response(200, LoginUser(users, c, clock).value)
    ensures LoginUser(users, c, clock).None? ==>
      LoginResponseWithBtoa(users, c, clock) == Response(500, ServerError)
  {
  }
}
