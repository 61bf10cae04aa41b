/** Values as JSON.parse produces them, and the few pieces of JavaScript
    semantics the handler relies on: truthiness, property keys, object spread
    and strict equality. */
module JsValue {
  import opened Wrappers

  /** A parsed JSON value. Numbers are integers in this model. */
  datatype Json =
    | JNull
    | JBool(b: bool)
    | JNum(n: int)
    | JStr(s: string)
    | JArr(items: seq<Json>)
    | JObj(members: map<string, Json>)

  /** The value of a property read: either a value or `undefined`. */
  datatype Field = Undefined | Defined(value: Json)

  /** The own enumerable properties of an object, by name. */
  type Obj = map<string, Json>

  /** JavaScript truthiness, the test behind `!x` and `x || y`: the falsy
      values are undefined, null, false, 0 and the empty string. */
  predicate Truthy(f: Field)
    ensures Truthy(f) <==> f.Defined? && f.value !in {JNull, JBool(false), JNum(0), JStr("")}
  {
    match f
    case Undefined => false
    case Defined(v) =>
      match v
      case JNull => false
      case JBool(b) => b
      case JNum(n) => n != 0
      case JStr(s) => s != ""
      case JArr(_) => true
      case JObj(_) => true
  }

  /** `v.name` for a value `v` that is not null (reading a property of null
      throws, and the caller models that). Only an object has an own property
      under the names the handler reads (`author`, `username`, `password`);
      none of them is an index or `length`. */
  function Member(v: Json, name: string): (r: Field)
    ensures r.Defined? ==> v.JObj?
    ensures v.JObj? ==> (r.Defined? <==> name in v.members)
    ensures r.Defined? ==> r.value == v.members[name]
  {
    if v.JObj? && name in v.members then Defined(v.members[name]) else Undefined
  }

  /** Strict equality `a === b` between two values that were parsed
      separately: primitives compare by value, while two arrays or objects
      are never the same object. */
  predicate StrictEquals(a: Field, b: Field)
    ensures StrictEquals(a, b) ==> a == b
    ensures a == b && !(a.Defined? && (a.value.JArr? || a.value.JObj?)) ==> StrictEquals(a, b)
    ensures a.Defined? && (a.value.JArr? || a.value.JObj?) ==> !StrictEquals(a, b)
  {
    match (a, b)
    case (Undefined, Undefined) => true
    case (Defined(x), Defined(y)) => !x.JArr? && !x.JObj? && x == y
    case _ => false
  }

  // ---------------------------------------------------------------------
  // Decimal strings, as JavaScript writes a non-negative integer

  function DigitChar(d: nat): char
    requires d < 10
  {
    "0123456789"[d]
  }

  predicate IsDigit(c: char) {
    '0' <= c <= '9'
  }

  /** The decimal digits of `n`, without leading zeros. */
  function NatToString(n: nat): (s: string)
    ensures |s| >= 1
    ensures forall i :: 0 <= i < |s| ==> IsDigit(s[i])
    ensures s[0] == '0' ==> n == 0
    ensures n < 10 <==> |s| == 1
    decreases n
  {
    if n < 10 then [DigitChar(n)] else NatToString(n / 10) + [DigitChar(n % 10)]
  }

  /** The number a string of decimal digits denotes: the reference reading
      that NatToString must agree with. */
  function DecimalValue(s: string): nat
    requires forall i :: 0 <= i < |s| ==> IsDigit(s[i])
    decreases |s|
  {
    if s == [] then 0
    else DecimalValue(s[..|s| - 1]) * 10 + DigitValue(s[|s| - 1])
  }

  function DigitValue(c: char): nat
    requires IsDigit(c)
  {
    (c as int) - ('0' as int)
  }

  lemma {:induction false} DecimalRoundTrip(n: nat)
    ensures DecimalValue(NatToString(n)) == n
    decreases n
  {
    var s := NatToString(n);
    if n >= 10 {
      DecimalRoundTrip(n / 10);
      assert s[..|s| - 1] == NatToString(n / 10);
    }
  }

  /** Distinct numbers have distinct decimal strings. */
  lemma NatToStringInjective(a: nat, b: nat)
    ensures NatToString(a) == NatToString(b) ==> a == b
  {
    DecimalRoundTrip(a);
    DecimalRoundTrip(b);
  }

  /** `String(n)` for an integer with fewer than 22 digits. */
  function IntToString(n: int): string {
    if n < 0 then "-" + NatToString(-n) else NatToString(n)
  }

  /** Two integers give the same property key only if they are equal. */
  lemma IntToStringInjective(a: int, b: int)
    ensures IntToString(a) == IntToString(b) ==> a == b
  {
    if IntToString(a) == IntToString(b) {
      if a < 0 && b < 0 {
        assert NatToString(-a) == IntToString(a)[1..];
        NatToStringInjective(-a, -b);
      } else if a >= 0 && b >= 0 {
        NatToStringInjective(a, b);
      }
    }
  }

  // ---------------------------------------------------------------------
  // Property keys: a value used in `obj[v]` is converted to a string

  function Join(parts: seq<string>, sep: string): string
    decreases |parts|
  {
    if parts == [] then ""
    else if |parts| == 1 then parts[0]
    else Join(parts[..|parts| - 1], sep) + sep + parts[|parts| - 1]
  }

  /** Converting `v` to a string throws a TypeError. A parsed object
      converts through `toString`; when it has an own member of that name,
      that member is not callable, `valueOf` gives back the object itself,
      and no primitive is reached. An array converts by joining its
      elements, so it throws when an element other than null does. */
  predicate KeyThrows(v: Json)
    decreases v
  {
    match v
    case JObj(m) => "toString" in m
    case JArr(items) => exists i :: 0 <= i < |items| && items[i] != JNull && KeyThrows(items[i])
    case _ => false
  }

  /** The string JavaScript's ToString gives for a parsed value, which is
      the key `users[v]` reads or writes, or None when the conversion throws:
      an array is joined with commas (a null element contributing nothing)
      and an object without its own `toString` is "[object Object]". */
  function ToKey(v: Json): (k: Option<string>)
    ensures k.None? <==> KeyThrows(v)
    ensures v.JStr? ==> k == Some(v.s)
    ensures v.JNum? ==> k == Some(IntToString(v.n))
    ensures v.JObj? && k.Some? ==> k.value == "[object Object]"
    decreases v
  {
    match v
    case JNull => Some("null")
    case JBool(b) => Some(if b then "true" else "false")
    case JNum(n) => Some(IntToString(n))
    case JStr(s) => Some(s)
    case JObj(m) => if "toString" in m then None else Some("[object Object]")
    case JArr(items) =>
      var parts := seq(|items|, i requires 0 <= i < |items| =>
                         if items[i] == JNull then Some("") else ToKey(items[i]));
      assert forall i :: 0 <= i < |items| && items[i] != JNull ==> parts[i] == ToKey(items[i]);
      if forall i :: 0 <= i < |parts| ==> parts[i].Some? then
        Some(Join(seq(|parts|, i requires 0 <= i < |parts| && parts[i].Some? => parts[i].value), ","))
      else
        None
  }

  /** The key for a property read that may be `undefined`. */
  function FieldKey(f: Field): (k: Option<string>)
    ensures k.None? <==> f.Defined? && KeyThrows(f.value)
    ensures f.Undefined? ==> k == Some("undefined")
    ensures forall s :: f == Defined(JStr(s)) ==> k == Some(s)
  {
    match f
    case Undefined => Some("undefined")
    case Defined(v) => ToKey(v)
  }

  // ---------------------------------------------------------------------
  // Object spread: `{...v}` copies the own enumerable properties of v

  /** The properties of an array-like: element i under the key String(i). */
  function Indexed(items: seq<Json>): Obj
    decreases |items|
  {
    if items == [] then map[]
    else Indexed(items[..|items| - 1])[NatToString(|items| - 1) := items[|items| - 1]]
  }

  /** Every key of `Indexed(items)` is the index of an element. */
  lemma {:induction false} IndexedKeys(items: seq<Json>, k: string)
    requires k in Indexed(items)
    ensures exists i :: 0 <= i < |items| && k == NatToString(i)
    decreases |items|
  {
    var n := |items| - 1;
    if k != NatToString(n) {
      IndexedKeys(items[..n], k);
    }
  }

  /** Element `i` is stored under the key `String(i)`. */
  lemma {:induction false} IndexedAt(items: seq<Json>, i: nat)
    requires i < |items|
    ensures NatToString(i) in Indexed(items) && Indexed(items)[NatToString(i)] == items[i]
    decreases |items|
  {
    var n := |items| - 1;
    if i < n {
      IndexedAt(items[..n], i);
      NatToStringInjective(i, n);
    }
  }

  /** One entry per element. */
  lemma {:induction false} IndexedSize(items: seq<Json>)
    ensures |Indexed(items)| == |items|
    decreases |items|
  {
    if items != [] {
      var n := |items| - 1;
      var front := items[..n];
      IndexedSize(front);
      var key := NatToString(n);
      if key in Indexed(front) {
        IndexedKeys(front, key);
        var i :| 0 <= i < n && key == NatToString(i);
        NatToStringInjective(i, n);
        assert false;
      }
    }
  }

  lemma IndexedSpec(items: seq<Json>)
    ensures forall i :: 0 <= i < |items| ==>
              NatToString(i) in Indexed(items) && Indexed(items)[NatToString(i)] == items[i]
    ensures |Indexed(items)| == |items|
  {
    forall i | 0 <= i < |items|
      ensures NatToString(i) in Indexed(items) && Indexed(items)[NatToString(i)] == items[i]
    {
      IndexedAt(items, i);
    }
    IndexedSize(items);
  }

  /** A string seen as its one-character strings, as spread reads it. */
  function Chars(s: string): seq<Json> {
    seq(|s|, i requires 0 <= i < |s| => JStr([s[i]]))
  }

  /** What `...v` copies: an object's members, an array's or a string's
      elements under their indices, and nothing for null, booleans and
      numbers. */
  function OwnEntries(v: Json): (r: Obj)
    ensures v.JObj? ==> r == v.members
    ensures v.JArr? ==> |r| == |v.items|
    ensures v.JStr? ==> |r| == |v.s|
    ensures v.JNull? || v.JBool? || v.JNum? ==> r == map[]
  {
    match v
    case JObj(m) => m
    case JArr(items) => IndexedSize(items); Indexed(items)
    case JStr(s) => IndexedSize(Chars(s)); Indexed(Chars(s))
    case _ => map[]
  }

  /** Spreading an array or a string gives one entry per element, under the
      element's index. */
  lemma OwnEntriesOfSequence(v: Json)
    requires v.JArr? || v.JStr?
    ensures var elems := if v.JArr? then v.items else Chars(v.s);
      && |OwnEntries(v)| == |elems|
      && forall i :: 0 <= i < |elems| ==>
           NatToString(i) in OwnEntries(v) && OwnEntries(v)[NatToString(i)] == elems[i]
  {
    if v.JArr? {
      IndexedSpec(v.items);
    } else {
      IndexedSpec(Chars(v.s));
    }
  }
}
