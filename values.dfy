/** JavaScript values as `JSON.parse` produces them, and the handful of
    language operations the catalog flattener applies to them: truthiness,
    reading a named property and `Object.entries`. */
module Values {

  datatype Option<+T> = None | Some(value: T)

  /** The exceptions the flattener can raise. Every one of them is a
      JavaScript `TypeError`: reading a property of `null`, or calling a
      property that is not a function. */
  datatype TypeError =
    | NullRead(property: string)
    | NotCallable(callee: string)

  datatype Result<+T> = Ok(value: T) | Err(error: TypeError)

  /** A parsed JSON value. A number is kept as the text JavaScript would
      print for it (`String(n)`), which is all the flattener ever observes of
      it; zero prints as "0" whatever its sign. An object is the list of its
      own properties in `Object.entries` order. */
  datatype Json =
    | JNull
    | JBool(b: bool)
    | JNum(text: string)
    | JStr(s: string)
    | JArr(items: seq<Json>)
    | JObj(members: seq<Member>)

  datatype Member = Member(key: string, value: Json)

  /** JavaScript truthiness. `undefined` (a missing property) is falsy too:
      see `TruthyField`. */
  predicate Truthy(v: Json) {
    match v
    case JNull => false
    case JBool(b) => b
    case JNum(t) => t != "0"
    case JStr(s) => s != ""
    case JArr(_) => true
    case JObj(_) => true
  }

  predicate TruthyField(f: Option<Json>) {
    f.Some? && Truthy(f.value)
  }

  /** The value of the first member with key `key`, if any. */
  function Lookup(ms: seq<Member>, key: string): (f: Option<Json>)
    ensures f.None? <==> forall i :: 0 <= i < |ms| ==> ms[i].key != key
    ensures f.Some? ==> exists i :: 0 <= i < |ms| && ms[i] == Member(key, f.value)
  {
    if ms == [] then None
    else if ms[0].key == key then Some(ms[0].value)
    else
      var rest := Lookup(ms[1..], key);
      assert forall i :: 1 <= i < |ms| ==> ms[i] == ms[1..][i - 1];
      rest
  }

  /** `v.key` on a value that is not `null` (which throws instead), for
      keys that name no built-in property of arrays, strings, numbers,
      booleans or plain objects, such as `name`, `cmd` and `hosts`:
      `None` stands for `undefined`. */
  function Field(v: Json, key: string): (f: Option<Json>)
    requires !v.JNull?
    ensures f.Some? ==> v.JObj?
    ensures v.JObj? ==> f == Lookup(v.members, key)
  {
    if v.JObj? then Lookup(v.members, key) else None
  }

  /** The number a string of decimal digits denotes. */
  ghost function DigitsValue(s: string): nat
    requires forall i :: 0 <= i < |s| ==> '0' <= s[i] <= '9'
  {
    if s == [] then 0
    else DigitsValue(s[..|s| - 1]) * 10 + (s[|s| - 1] - '0') as nat
  }

  /** The decimal text of an array index, as `Object.entries` gives it: the
      digits of `n`, without leading zeros. */
  function Decimal(n: nat): (s: string)
    ensures s != []
    ensures forall i :: 0 <= i < |s| ==> '0' <= s[i] <= '9'
    ensures DigitsValue(s) == n
    ensures s[0] == '0' ==> s == "0"
  {
    var d := [(n % 10) as char + '0'];
    if n < 10 then d
    else
      var s := Decimal(n / 10) + d;
      assert s[..|s| - 1] == Decimal(n / 10);
      s
  }

  /** Different indices have different keys. */
  lemma DecimalInjective(m: nat, n: nat)
    ensures Decimal(m) == Decimal(n) ==> m == n
  {
  }

  /** A termination measure for the walk over a catalog. Only arrays are
      walked into from a member's value, so a member counts the size of its
      value only when that value is an array; this keeps the characters of a
      string, whose own entries are strings again, finite. */
  ghost function Size(v: Json): nat
    decreases v, 1
  {
    match v
    case JStr(s) => 1 + |s|
    case JArr(items) => 1 + SizeItems(items)
    case JObj(ms) => 1 + SizeMembers(ms)
    case _ => 1
  }

  ghost function SizeItems(items: seq<Json>): nat
    decreases items, 0
  {
    if items == [] then 0
    else SizeItems(items[..|items| - 1]) + Size(items[|items| - 1]) + 1
  }

  ghost function SizeMembers(ms: seq<Member>): nat
    decreases ms, 0
  {
    if ms == [] then 0
    else SizeMembers(ms[..|ms| - 1]) + ListSize(ms[|ms| - 1].value) + 1
  }

  ghost function ListSize(v: Json): nat
    decreases v, 2
  {
    if v.JArr? then Size(v) else 0
  }

  lemma {:induction false} ItemSmaller(items: seq<Json>, i: nat)
    requires i < |items|
    ensures Size(items[i]) < SizeItems(items)
    decreases |items|
  {
    if i < |items| - 1 {
      ItemSmaller(items[..|items| - 1], i);
    }
  }

  lemma {:induction false} MemberSmaller(ms: seq<Member>, i: nat)
    requires i < |ms|
    ensures ListSize(ms[i].value) < SizeMembers(ms)
    decreases |ms|
  {
    if i < |ms| - 1 {
      MemberSmaller(ms[..|ms| - 1], i);
    }
  }

  /** `Object.entries` of an array: one member per element, keyed by its
      index in decimal. */
  function IndexedMembers(items: seq<Json>): (ms: seq<Member>)
    ensures |ms| == |items|
    ensures forall i :: 0 <= i < |ms| ==> ms[i] == Member(Decimal(i), items[i])
  {
    seq(|items|, i requires 0 <= i < |items| => Member(Decimal(i), items[i]))
  }

  /** `Object.entries` of a string: one member per character, keyed by its
      index in decimal, whose value is that character as a string. */
  function CharMembers(s: string): (ms: seq<Member>)
    ensures |ms| == |s|
    ensures forall i :: 0 <= i < |ms| ==> ms[i] == Member(Decimal(i), JStr([s[i]]))
  {
    seq(|s|, i requires 0 <= i < |s| => Member(Decimal(i), JStr([s[i]])))
  }

  lemma {:induction false} IndexedMembersSize(items: seq<Json>)
    ensures SizeMembers(IndexedMembers(items)) <= SizeItems(items)
    decreases |items|
  {
    if items != [] {
      var n := |items| - 1;
      IndexedMembersSize(items[..n]);
      assert IndexedMembers(items)[..n] == IndexedMembers(items[..n]);
    }
  }

  lemma {:induction false} CharMembersSize(s: string)
    ensures SizeMembers(CharMembers(s)) == |s|
    decreases |s|
  {
    if s != [] {
      var n := |s| - 1;
      CharMembersSize(s[..n]);
      assert CharMembers(s)[..n] == CharMembers(s[..n]);
    }
  }

  /** `Object.entries(v)` for a value that is not `null`. Walking into the
      entries of a value always reaches smaller values. */
  function Entries(v: Json): (ms: seq<Member>)
    requires !v.JNull?
    ensures SizeMembers(ms) < Size(v)
  {
    match v
    case JObj(members) => members
    case JArr(items) => IndexedMembersSize(items); IndexedMembers(items)
    case JStr(s) => CharMembersSize(s); CharMembers(s)
    case _ => []
  }

  /** What `Object.entries` gives: the own enumerable properties of an
      object, the indexed elements of an array or the indexed characters of
      a string; a number or a boolean has none. */
  lemma EntriesOf(v: Json)
    requires !v.JNull?
    ensures v.JObj? ==> Entries(v) == v.members
    ensures v.JArr? ==>
              |Entries(v)| == |v.items| &&
              forall i :: 0 <= i < |v.items| ==> Entries(v)[i] == Member(Decimal(i), v.items[i])
    ensures v.JStr? ==>
              |Entries(v)| == |v.s| &&
              forall i :: 0 <= i < |v.s| ==> Entries(v)[i] == Member(Decimal(i), JStr([v.s[i]]))
    ensures (v.JNum? || v.JBool?) ==> Entries(v) == []
  {
  }
}
