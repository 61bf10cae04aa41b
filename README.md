# Minecraft community API — request handler model

A Dafny model of the Cloudflare Worker handler in `api.js`: one `fetch`
function that answers CORS preflight requests, lists and creates posts and
servers, registers users, checks logins and issues a seven-day token, and
reports counts. All state lives in one key-value binding (`MINECRAFT_KV`)
under three keys, `posts`, `servers` and `users`. Each may be absent, and an
absent key reads as an empty list or an empty table.

The model has five modules:

- `JsValue` (json_value.dfy). This is the JavaScript the handler relies on:
  parsed JSON values, truthiness (`!x`, `x || y`), the string a value becomes
  when it is used as a property key (`users[username]`), what object spread
  (`...data`) copies, and strict equality (`!==`).
- `Router` (router.dfy). The handler as one pure transition
  `Handle(store, request, clock) -> (response, store)`. It has the route
  matching, the building of a new post or server, registration, login and
  stats, and one lemma per property of a single request.
- `Traces` (traces.dfy). Many requests handled in sequence. Posts and servers
  are never lost, registered users persist, and a registration is followed
  by a working login.
- `Worker` (worker.dfy). The binding as a class, `KvNamespace`, with one
  field per key and `get`/`put` methods. The handler is the method `Fetch`,
  which reads a whole collection, changes it in memory (prepend, or one map
  update) and writes it back. Its contract ties the response and the new
  contents to `Handle`.
- `PrototypeLookup` (prototype_lookup.dfy) and `TokenEncoding`
  (token_encoding.dfy). Each models one step of the code exactly as
  written where it departs from what it evidently means: the user lookup
  (PrototypeLookup) and the token encoding (TokenEncoding, whose login
  otherwise uses the corrected lookup). See "## Findings".

Where the handler reads the clock (`Date.now()`, `new Date().toISOString()`),
the model takes a `Clock` with the reading in milliseconds and its ISO-8601
text as a parameter of the request. The request body is a `Payload`:
`Malformed` is a body that `request.json()` rejects.

The handler validates no post or server body, and login never creates a
user. The creation code sets no `platform` default, so the model sets none
either (`Router.NewItemFromPlainObject` shows that the new record has no
other members). The created `id` is the body's own `id` whenever the body
has one. `Traces.IdsFollowArrival` proves that ids follow arrival order when
no post-creating body carries an `id` and the clock never runs backwards.

A user name becomes a table key through JavaScript's string conversion.
For an object that has its own `toString` member, or an array holding such
an object, that conversion throws a TypeError, and the handler answers 500.
`JsValue.ToKey` returns `None` for exactly those values.

## Model

| member | source | states |
|---|---|---|
| `Worker.Fetch` | api.js:3-176 | The response and the binding's new contents are those of `Handle` on the old contents. A request that is not a creation or a registration leaves the binding unchanged. |
| `Worker.KvNamespace.GetPosts` | api.js:25 | The `get('posts')` read with its `[]` fallback: the stored list, or empty when the key is absent. |
| `Worker.KvNamespace.GetServers` | api.js:54 | The stored server list, or empty when absent. |
| `Worker.KvNamespace.GetUsers` | api.js:92 | The stored user table, or the empty table when absent. |
| `Worker.KvNamespace.PutPosts` | api.js:42 | Writes the whole post list and leaves the other keys as they were. |
| `Worker.KvNamespace.PutServers` | api.js:71 | Writes the whole server list and leaves the other keys as they were. |
| `Worker.KvNamespace.PutUsers` | api.js:109 | Writes the whole user table and leaves the other keys as they were. |
| `Router.RouteOf` | api.js:16-164 | Which branch a method and a path reach, as an if-and-only-if table. OPTIONS matches any path; each of the seven routed (method, path) pairs gets its own branch. |
| `Router.Handle` | api.js:3-176 | One request: the response and the store it leaves. The status is always 200, 201, 404 or 500, and a 404 or 500 leaves the store unchanged. |
| `Router.UnmatchedExactly` | api.js:161-164 | A request is unmatched exactly when it is not OPTIONS and its (method, path) is none of the seven routed pairs. |
| `Router.NewItem` | api.js:34-39 | The new record has the body's own entries plus `id`, `createdAt` and `author`. `createdAt` is always the server's time. `author` is the body's author when truthy, else the default. `id` is the body's `id` when present, else the clock. Every other entry is the body's. A null body throws. |
| `Router.CreateFrom` | api.js:31-39 | A POST body yields no record (the 500 path) exactly when it is not JSON or is null. Any record it yields has `id`, `createdAt` and `author`, with `createdAt` the server's time. For a JSON body the record is exactly `NewItem` of it: the spread entries, the `id` rule and the author default. |
| `Router.NewItemFromPlainObject` | api.js:63-68 | For an object body without `id`, `createdAt` or `author`, the record is exactly the body plus those three members (no `platform` default). |
| `Router.AddServerScenario` | api.js:58-76 | POST of `{name:"Test", ip:"1.2.3.4", description:"x"}` to the servers path answers 201 with exactly those members, the clock's `id` and `createdAt`, and author "匿名". |
| `Router.ReadCredentials` | api.js:82 | Destructuring throws exactly when the body is not JSON or is null. Otherwise the fields are the body's `username` and `password` members, each possibly undefined. |
| `Router.RegisterUser` | api.js:84-114 | An empty username or password is refused with the table unchanged. A name whose conversion to a key throws gives `None` (the 500 path). An existing name is refused with the table unchanged. Success happens exactly when none of these applies. It adds exactly one key, mapped to `{id: now, username, password, createdAt}`, and keeps every other entry. |
| `Router.LoginUser` | api.js:119-144 | A name whose conversion to a key throws gives `None` (the 500 path). Otherwise success happens exactly when the key is in the table and the stored password is strictly equal to the given one. The token is `{userId, username, exp: now + 604800000}`. Any other case gets the fixed failure reply. |
| `Router.LoginWithStrings` | api.js:121-128 | With string credentials, login succeeds exactly when the name is registered with that very password. |
| `Router.LoginRefusesStructuredPassword` | api.js:123 | A password given as an array or object never matches, because `!==` compares objects by identity. |
| `Router.PreflightAnyPath` | api.js:16-18 | OPTIONS to any path, with any body, answers 200 with no body and leaves the store unchanged. |
| `Router.ListingsAreReadOnly` | api.js:23-27 | GET posts (and, by lines 52-56, GET servers) returns the stored sequence, or empty when the key is absent, and leaves the store unchanged. |
| `Router.CreatePostPrepends` | api.js:29-48 | For a JSON body other than null: 201 with the new post. The list becomes `[post] + old`, one longer, with each old element moved to index + 1. Servers and users are unchanged. Any other body: 500 with the store unchanged. |
| `Router.CreateServerPrepends` | api.js:58-77 | The same for servers, with posts and users unchanged. |
| `Router.RegisterRequest` | api.js:80-115 | Registration answers 500 with the store unchanged for an unusable body, and for non-empty fields whose name cannot become a key. Otherwise it answers 200. The store changes only on success, and then by exactly one new user key. Posts and servers are never touched. |
| `Router.RegisterUnconvertibleName` | api.js:82-94 | `{"username":{"toString":1},"password":"p"}` gets past the empty-field check, then throws when the name becomes a key. The answer is 500 and nothing is stored. |
| `Router.DuplicateRegistrationAddsNoKey` | api.js:92-99 | Registering a name already in the table is refused and the store is unchanged. |
| `Router.LoginIsReadOnly` | api.js:117-145 | Login never changes the store. |
| `Router.StatsAreCounts` | api.js:147-158 | Stats are 200 with the lengths of both lists and the number of user keys (absent keys count 0). The store is unchanged. |
| `Router.StatsMatchListings` | api.js:149-157 | The stats' post and server counts equal the lengths of what the two listings return on the same store. |
| `Router.UnmatchedIsNotFound` | api.js:161-164 | Every unmatched request answers 404 `Not found` and leaves the store unchanged. |
| `Router.StepFrame` | api.js:20-164 | Only a post creation changes `posts`, only a server creation changes `servers`, and only a registration changes `users`. |
| `Router.StatusCodes` | api.js:20-175 | There are 201, 404 and 500 responses, each under an exact condition. 201 is a creation that did not throw. 404 is an unmatched request. 500 is one of two things: a body that `request.json()`, destructuring or `data.author` rejects, or a register or login whose user name throws when it becomes a key. Everything else is 200. |
| `JsValue.NatToString` | api.js:36 | The index keys spread gives: nonempty, all digits, no leading zero. |
| `JsValue.DecimalRoundTrip` | api.js:36 | Reading the decimal string of `n` back gives `n`. |
| `JsValue.NatToStringInjective` | api.js:36 | Distinct indices give distinct keys. |
| `JsValue.IntToStringInjective` | api.js:102 | Two numeric user names share a table key only if they are equal. |
| `JsValue.ToKey` | api.js:94 | The key `users[v]` uses, or `None` exactly when the conversion throws (`KeyThrows`: an object with its own `toString`, or an array with such an element at any depth). A string is its own key, a number's key is its decimal form, and any other object is "[object Object]". |
| `JsValue.FieldKey` | api.js:94 | The key of a possibly undefined name. `undefined` is "undefined", a string is itself, and `None` comes exactly when a defined value throws. |
| `JsValue.Truthy` | api.js:84 | Falsy exactly for undefined, null, false, 0 and the empty string. |
| `JsValue.Member` | api.js:38 | A property read finds a value only on an object, and there exactly when the object has that member; the value found is that member's. |
| `JsValue.StrictEquals` | api.js:123 | `===` holds only between equal values, and between equal values exactly when they are not arrays or objects: an array or object is never `===` to anything parsed separately. |
| `JsValue.OwnEntries` | api.js:36 | `...v` copies an object's members as they are, one entry per element of an array or character of a string, and nothing for null, booleans or numbers. |
| `JsValue.IndexedKeys` | api.js:36 | Every key that spreading an array or string gives is the index of an element. |
| `JsValue.IndexedAt` | api.js:36 | Spreading a sequence stores element `i` under the key `String(i)`. |
| `JsValue.IndexedSize` | api.js:36 | Spreading a sequence gives exactly one entry per element: no two indices share a key. |
| `JsValue.IndexedSpec` | api.js:36 | Spreading a sequence gives one entry per element, with element `i` stored under the key `String(i)`. |
| `JsValue.OwnEntriesOfSequence` | api.js:65 | `...data` for an array or string body copies each element (each character) under its index. |
| `Traces.PostsStep` | api.js:32-42 | One request puts at most its own new post in front of the list. |
| `Traces.ServersStep` | api.js:61-71 | One request puts at most its own new server in front of the list. |
| `Traces.PostsAfterRun` | api.js:32-42 | After any sequence of requests, the post list is the created posts, newest first, in front of the old list. No post is ever lost. |
| `Traces.ServersAfterRun` | api.js:61-71 | The same for servers. |
| `Traces.Run` | api.js:3-176 | Handles the requests in order. A run never shortens the post list or the server list. |
| `Traces.UsersPersist` | api.js:92-109 | A registered user stays in the table with the same record through any sequence of requests. |
| `Traces.StatsAfterRun` | api.js:147-157 | After any run, the post and server counts are the old lengths plus the number created. |
| `Traces.ListAfterCreate` | api.js:25-47 | A listing right after a successful POST returns the created post first, followed by the old list. |
| `Traces.CreatedId` | api.js:34-36 | A post created from a body without its own `id` takes its request's clock reading as `id`. |
| `Traces.IdsFollowArrival` | api.js:34-42 | Suppose the clock never runs backwards and no body of a post creation has its own `id` (other requests may carry anything). Then the posts a run creates have numeric ids that never increase along the list (newest first), none earlier than the first request's clock. |
| `Traces.PostsInArrivalOrder` | api.js:34-42 | Under those conditions and from an empty list, the stored post list is newest first by id. |
| `Traces.RegisterFresh` | api.js:84-114 | Registering a free name with non-empty strings answers success and stores exactly that user. |
| `Traces.RegisterTaken` | api.js:92-99 | Registering a taken name answers "name taken" and leaves the store unchanged. |
| `Traces.LoginStored` | api.js:119-144 | Logging in with a stored name and its exact password gives that user a token expiring seven days after the login. |
| `Traces.RegisterThenLogin` | api.js:80-144 | Register a new name with a password, handle any further requests, then log in with the same pair. The login gets a token for that user's id, expiring 604800000 ms after the login. |
| `Traces.RegisterTwice` | api.js:92-99 | A second registration of the same name is refused and leaves the store as the first one left it. |
| `PrototypeLookup.LookupAsWritten` | api.js:94 | `users[key]` on a plain object finds a stored user when the key is own. It finds an inherited member when the key names an `Object.prototype` property. Otherwise it is undefined. |
| `PrototypeLookup.RegisterRefusesAsWritten` | api.js:84-99 | As written, registration is refused when a field is empty, or when `users[username]` finds anything, an inherited `Object.prototype` member included. A name whose conversion to a key throws is not refused: that request fails. |
| `PrototypeLookup.LoginAcceptsAsWritten` | api.js:121-123 | As written, the password check passes for a stored user whose password is strictly equal to the given one. It also passes for an inherited member exactly when no password is given, since the member has an undefined `password`. An absent key, or a name that throws on conversion, never passes. |
| `PrototypeLookup.LoginAsWrittenAdmitsPrototypeName` | api.js:121-128 | As written, `{"username":"constructor"}` without a password logs in against an empty table. The corrected login refuses it. |
| `PrototypeLookup.RegisterAsWrittenRefusesFreeName` | api.js:92-99 | As written, registering "toString" on an empty table is refused as taken. The corrected registration accepts it. |
| `PrototypeLookup.AgreeOffPrototype` | api.js:92-128 | For every name that is not an `Object.prototype` member, the literal and the corrected lookups give the same login and registration outcomes. |
| `PrototypeLookup.CorrectedLoginNeedsRegistration` | api.js:121-123 | The corrected login succeeds only for a registered name, and the literal reading accepts it too. |
| `TokenEncoding.LoginResponseWithBtoa` | api.js:121-144 | With the `btoa` step as written and the corrected lookup, a login answers 500 in two cases: its name cannot become a key, or its token payload has a character above U+00FF. Any other login gets the corrected reply. |
| `TokenEncoding.WideNameNeverLogsIn` | api.js:131-135 | As written, a user whose string name has a character above U+00FF never gets a token. |
| `TokenEncoding.ChineseNameCannotLogIn` | api.js:102-135 | Register "玩家" with "secret", then log in with the same pair. As written, the login answers 500. The corrected handler issues the token. |
| `TokenEncoding.AgreeOnLatin1Names` | api.js:131-144 | When the stored name is Latin-1 throughout, the literal and the corrected logins respond the same. |
| `TokenEncoding.StringifiesToLatin1` | api.js:131 | `JSON.stringify(v)` has only characters up to U+00FF exactly when every string in `v`, member names included, has. |
| `TokenEncoding.TokenEncodes` | api.js:131-135 | `btoa` accepts the serialised token payload exactly when the user name stringifies to Latin-1, because the id and the expiry are numbers. |

## Left out

- CORS headers (api.js:8-13): every response carries the same four fixed headers. The model's `Response` has only the status and the body.
- URL parsing (api.js:4-5): the request carries its path directly. The method is compared as given (the runtime upper-cases standard method names before the handler sees them).
- JSON text: `JSON.parse` and `JSON.stringify` are not modelled. An object is modelled as a map, so member order and repeated member names are not represented. The bodies of responses are abstract `Body` values.
- Numbers: JSON numbers are integers. Fractions, `NaN`, the 53-bit precision limit and exponent notation are left out.
- JsValue.ToKey: writes every integer in plain decimal. JavaScript switches to exponent notation from 10^21 on.
- Strings are sequences of Unicode scalar values. JavaScript strings are UTF-16, so spreading a string with a character outside the Basic Multilingual Plane gives two entries there and one here.
- JsValue.Member: only an object has own properties. That holds for the three names the handler reads (`author`, `username`, `password`), and not for names like `length`.
- The store's own failures and the exception path's details: a `get` or `put` the binding rejects, `console.error`, and the `message` text of a 500 (api.js:166-174). A 500 is modelled only for the failures the handler's own code raises: a body that is not JSON, destructuring null, reading `author` of null, and converting a user name with its own `toString` to a key.
- Concurrency: two requests that interleave their read-modify-write of one key can lose an update. The model handles requests one at a time.
- Clock: the handler reads the clock separately for `id`, `createdAt` and `exp`. The model uses one reading per request.
- Token text: `Router` models the token by its payload `{userId, username, exp}`, not by its base-64 text. `TokenEncoding` models where the encoding throws.
- Stored values come back from the binding with the types the handler wrote. A binding holding anything else (a list under `users`, a non-array under `posts`) is not modelled.

## Findings

| source | as written | input that shows it | evidently intended | confidence | as-written member | corrected member |
|---|---|---|---|---|---|---|
| api.js:120-128 | `users[username]` on a plain object also finds members inherited from `Object.prototype`. Such a member is truthy and its `password` is undefined, so `user.password !== password` is false when the body has no password. | `POST /api/auth/login` with body `{"username":"constructor"}` on an empty store answers `success: true` with a token. | Only a registered user with the matching password logs in. | not executed; follows from the language's property lookup | `PrototypeLookup.LoginAsWrittenAdmitsPrototypeName` | `Router.LoginUser` |
| api.js:92-99 | The duplicate check `if (users[username])` is truthy for any `Object.prototype` member name. | `POST /api/auth/register` with `{"username":"toString","password":"secret"}` on an empty store answers "用户名已存在" (name taken). | Refuse only names that are registered. | not executed; follows from the language's property lookup | `PrototypeLookup.RegisterAsWrittenRefusesFreeName` | `Router.RegisterUser` |
| api.js:131-135 | `btoa` throws on any character above U+00FF. `JSON.stringify` copies the user name's characters as they are, so the exception becomes a 500. | Register `{"username":"玩家","password":"secret"}`, then log in with the same body: the login answers 500 "Server error". | A registered user with a non-Latin-1 name receives a token. | not executed; follows from the `btoa` definition | `TokenEncoding.ChineseNameCannotLogIn` | `Router.LoginUser` |

The corrected members are the ones `Router.Handle` and `Worker.Fetch` use. For the first two rows, the correction treats the user table as a dictionary whose keys are only the registered names. Under that reading a registration of `__proto__` adds an ordinary entry.
