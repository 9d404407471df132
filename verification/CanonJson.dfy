/** The canonical JSON text of a value, and a parser that inverts it. */
module CanonJson {
  import opened Utf8

  /** Floating-point numbers are not part of this model. Strings are byte strings. */
  datatype Json =
    | Null
    | Bool(b: bool)
    | Int(n: int)
    | Str(s: Bytes)
    | Arr(items: seq<Json>)
    | Obj(members: map<Bytes, Json>)

  /** Separators between items and between key and value. */
  datatype Style = Style(item: string, kv: string)

  const COMPACT := Style(",", ":")
  const SPACED := Style(", ", ": ")

  predicate GoodStyle(f: Style) {
    f.item != "" && f.item[0] == ','
  }

  // ---------------------------------------------------------------- scalars

  function HexDigit(n: nat): char
    requires n < 16
  {
    "0123456789abcdef"[n]
  }

  /** The low `width` hexadecimal digits of `n`. */
  function Hex(n: nat, width: nat): string {
    if width == 0 then "" else Hex(n / 16, width - 1) + [HexDigit(n % 16)]
  }

  function Unit(n: nat): string {
    "\\u" + Hex(n, 4)
  }

  /** One rune inside a string literal. Runes past the basic plane become a surrogate pair. */
  function Escape(r: Rune): string {
    if r == 0x22 then "\\\""
    else if r == 0x5C then "\\\\"
    else if r == 0x08 then "\\b"
    else if r == 0x0C then "\\f"
    else if r == 0x0A then "\\n"
    else if r == 0x0D then "\\r"
    else if r == 0x09 then "\\t"
    else if r < 0x20 then Unit(r)
    else if r < 0x7F then [r as char]
    else if r >= 0x10000 then Unit(0xD800 + (r - 0x10000) / 1024) + Unit(0xDC00 + (r - 0x10000) % 1024)
    else Unit(r)
  }

  function EscapeAll(rs: seq<Rune>): string {
    if rs == [] then "" else Escape(rs[0]) + EscapeAll(rs[1..])
  }

  function Quote(s: Bytes): string {
    "\"" + EscapeAll(Runes(s)) + "\""
  }

  function Digit(n: nat): char
    requires n < 10
  {
    '0' + n as char
  }

  function Decimal(n: nat): string {
    if n < 10 then [Digit(n)] else Decimal(n / 10) + [Digit(n % 10)]
  }

  function Integer(n: int): string {
    if n < 0 then "-" + Decimal(-n) else Decimal(n)
  }

  // ---------------------------------------------------------------- key order

  ghost predicate Sorted(keys: seq<Bytes>) {
    forall i, j :: 0 <= i < j < |keys| ==> Less(keys[i], keys[j])
  }

  ghost function KeySet(keys: seq<Bytes>): set<Bytes> {
    set k | k in keys
  }

  /** `keys` lists the set `ks` in increasing byte order, each key once. */
  ghost predicate Lists(keys: seq<Bytes>, ks: set<Bytes>) {
    Sorted(keys) && KeySet(keys) == ks
  }

  lemma {:induction false} LessIrreflexive(a: seq<int>)
    ensures !Less(a, a)
  {
    if a != [] { LessIrreflexive(a[1..]); }
  }

  lemma {:induction false} LessAsymmetric(a: seq<int>, b: seq<int>)
    requires Less(a, b)
    ensures !Less(b, a)
  {
    if a != [] && a[0] == b[0] { LessAsymmetric(a[1..], b[1..]); }
  }

  lemma {:induction false} LessTransitive(a: seq<int>, b: seq<int>, c: seq<int>)
    requires Less(a, b) && Less(b, c)
    ensures Less(a, c)
  {
    if a != [] && a[0] == b[0] == c[0] { LessTransitive(a[1..], b[1..], c[1..]); }
  }

  lemma {:induction false} LessTotal(a: seq<int>, b: seq<int>)
    requires a != b
    ensures Less(a, b) || Less(b, a)
  {
    if a != [] && b != [] && a[0] == b[0] {
      assert a == [a[0]] + a[1..] && b == [b[0]] + b[1..];
      LessTotal(a[1..], b[1..]);
    }
  }

  /** A set of keys has only one increasing listing. */
  lemma {:induction false} ListingUnique(a: seq<Bytes>, b: seq<Bytes>)
    requires Sorted(a) && Sorted(b) && KeySet(a) == KeySet(b)
    ensures a == b
  {
    assert a == [] <==> b == [] by {
      assert a != [] ==> a[0] in KeySet(a);
      assert b != [] ==> b[0] in KeySet(b);
    }
    if a != [] {
      assert a[0] in KeySet(b) && b[0] in KeySet(a);
      if a[0] != b[0] {
        var i :| 0 < i < |a| && a[i] == b[0];
        var j :| 0 < j < |b| && b[j] == a[0];
        LessAsymmetric(a[0], b[0]);
      }
      assert KeySet(a[1..]) == KeySet(b[1..]) by {
        SortedTail(a);
        SortedTail(b);
      }
      ListingUnique(a[1..], b[1..]);
      assert a == [a[0]] + a[1..] && b == [b[0]] + b[1..];
    }
  }

  lemma SortedTail(a: seq<Bytes>)
    requires Sorted(a) && a != []
    ensures KeySet(a[1..]) == KeySet(a) - {a[0]}
  {
    forall k
      ensures k in a[1..] <==> k in a && k != a[0]
    {
      if k in a[1..] {
        LessIrreflexive(k);
      }
    }
  }

  function Insert(keys: seq<Bytes>, k: Bytes): seq<Bytes> {
    if keys == [] || Less(k, keys[0]) then [k] + keys
    else [keys[0]] + Insert(keys[1..], k)
  }

  lemma {:induction false} InsertLists(keys: seq<Bytes>, k: Bytes)
    requires Sorted(keys) && k !in keys
    ensures Lists(Insert(keys, k), KeySet(keys) + {k})
  {
    if keys == [] {
    } else if Less(k, keys[0]) {
      forall i | 0 < i < |keys|
        ensures Less(k, keys[i])
      {
        LessTransitive(k, keys[0], keys[i]);
      }
    } else {
      LessTotal(k, keys[0]);
      InsertLists(keys[1..], k);
      var rest := Insert(keys[1..], k);
      assert KeySet(keys) == {keys[0]} + KeySet(keys[1..]) by {
        assert keys == [keys[0]] + keys[1..];
      }
      forall i | 0 <= i < |rest|
        ensures Less(keys[0], rest[i])
      {
        assert rest[i] in KeySet(rest);
      }
      assert KeySet([keys[0]] + rest) == {keys[0]} + KeySet(rest);
    }
  }

  ghost function SortedKeys(ks: set<Bytes>): (keys: seq<Bytes>)
    ensures Lists(keys, ks) && forall k :: k in keys <==> k in ks
  {
    if ks == {} then []
    else
      var k :| k in ks;
      var rest := SortedKeys(ks - {k});
      InsertLists(rest, k);
      assert forall x :: x in Insert(rest, k) <==> x in KeySet(Insert(rest, k));
      Insert(rest, k)
  }

  // ---------------------------------------------------------------- text of a value

  /** The keys an object is written with: those whose value is not nil. */
  ghost function Present(m: map<Bytes, Json>): set<Bytes> {
    set k | k in m && m[k] != Null
  }

  ghost function Text(v: Json, f: Style): string
    decreases v, 1
  {
    match v
    case Null => "null"
    case Bool(b) => if b then "true" else "false"
    case Int(n) => Integer(n)
    case Str(s) => Quote(s)
    case Arr(items) => "[" + Items(v, 0, f) + "]"
    case Obj(m) => "{" + Members(v, SortedKeys(Present(m)), f) + "}"
  }

  /** The items of an array from position `i` on. */
  ghost function Items(parent: Json, i: nat, f: Style): string
    requires parent.Arr? && i <= |parent.items|
    decreases parent, 0, |parent.items| - i
  {
    if i == |parent.items| then ""
    else if i == |parent.items| - 1 then Text(parent.items[i], f)
    else Text(parent.items[i], f) + f.item + Items(parent, i + 1, f)
  }

  ghost function Member(parent: Json, k: Bytes, f: Style): string
    requires parent.Obj? && k in parent.members
    decreases parent, 0, 0
  {
    Quote(k) + f.kv + Text(parent.members[k], f)
  }

  ghost function Members(parent: Json, keys: seq<Bytes>, f: Style): string
    requires parent.Obj? && forall k :: k in keys ==> k in parent.members
    decreases parent, 0, |keys| + 1
  {
    if keys == [] then ""
    else if |keys| == 1 then Member(parent, keys[0], f)
    else Member(parent, keys[0], f) + f.item + Members(parent, keys[1..], f)
  }

  /** The value without nil object members, at every depth. */
  ghost function Normal(v: Json): Json {
    match v
    case Arr(items) => Arr(seq(|items|, i requires 0 <= i < |items| => Normal(items[i])))
    case Obj(m) => Obj(map k | k in m && m[k] != Null :: Normal(m[k]))
    case _ => v
  }

  /** Every string and key in the value is valid UTF-8. */
  ghost predicate WellEncoded(v: Json) {
    match v
    case Str(s) => Valid(s)
    case Arr(items) => forall x :: x in items ==> WellEncoded(x)
    case Obj(m) => forall k :: k in m ==> Valid(k) && WellEncoded(m[k])
    case _ => true
  }

  /** Objects are written with their keys in Unicode code point order, though the sort is on bytes. */
  lemma KeysInCodePointOrder(m: map<Bytes, Json>)
    requires WellEncoded(Obj(m))
    ensures var keys := SortedKeys(Present(m));
            forall i, j :: 0 <= i < j < |keys| ==> Less(Runes(keys[i]), Runes(keys[j]))
  {
    var keys := SortedKeys(Present(m));
    forall i, j | 0 <= i < j < |keys|
      ensures Less(Runes(keys[i]), Runes(keys[j]))
    {
      assert keys[i] in Present(m) && keys[j] in Present(m);
      ByteOrderIsRuneOrder(keys[i], keys[j]);
    }
  }
}
