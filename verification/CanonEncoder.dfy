/** The encoder as written: a shared buffer that recursive calls append to. */
module CanonEncoder {
  import opened Utf8
  import opened CanonJson
  import opened CanonBytes
  import CanonParser

  /** Stands for `sort.Strings`: the keys in increasing byte order. */
  method SortStrings(keys: seq<Bytes>) returns (out: seq<Bytes>)
    requires forall i, j :: 0 <= i < j < |keys| ==> keys[i] != keys[j]
    ensures Lists(out, KeySet(keys))
  {
    out := [];
    for i := 0 to |keys|
      invariant Lists(out, KeySet(keys[..i]))
    {
      assert keys[i] !in KeySet(keys[..i]);
      InsertLists(out, keys[i]);
      assert KeySet(keys[..i + 1]) == KeySet(keys[..i]) + {keys[i]};
      out := Insert(out, keys[i]);
    }
    assert keys[..|keys|] == keys;
  }

  /** Asserting Unfold(0) opens a folded predicate; elsewhere it stays closed. */
  ghost predicate Unfold(k: nat) {
    k <= k
  }

  /** Folded: the bytes from `i` on hold the runes from the `n`-th on. */
  ghost predicate Remaining(s: Bytes, i: nat, all: seq<Rune>, n: nat) {
    i <= |s| && n <= |all| && forall k: nat :: Unfold(k) ==> Runes(s[i..]) == all[n..]
  }

  /** Folded: `out` is the escaped text of the first `n` runes. */
  ghost predicate Written(all: seq<Rune>, n: nat, out: string) {
    n <= |all| && forall k: nat :: Unfold(k) ==> EscapeAll(all) == out + EscapeAll(all[n..])
  }

  lemma RunesBegin(s: Bytes)
    ensures Remaining(s, 0, Runes(s), 0) && Written(Runes(s), 0, "")
  {
    assert s[0..] == s && Runes(s)[0..] == Runes(s);
  }

  lemma RunesEnd(s: Bytes, all: seq<Rune>, n: nat, out: string)
    requires Remaining(s, |s|, all, n) && Written(all, n, out)
    ensures out == EscapeAll(all)
  {
    assert Unfold(0);
    assert s[|s|..] == [];
  }

  /** Stands for `utf8.DecodeRuneInString` at position `i`. */
  method NextRune(s: Bytes, i: nat, ghost all: seq<Rune>, ghost n: nat) returns (r: Rune, size: nat)
    requires i < |s| && Remaining(s, i, all, n)
    ensures 1 <= size && n < |all| && all[n] == r && Remaining(s, i + size, all, n + 1)
  {
    var d := DecodeRune(s[i..]);
    r, size := d.0, d.1;
    assert Unfold(0);
    assert s[i..][size..] == s[i + size..];
    TakeOne(all, n, r, Runes(s[i + size..]));
  }

  class Encoder {
    const f: Style
    var buf: string

    constructor (f: Style)
      ensures this.f == f && buf == ""
    {
      this.f := f;
      buf := "";
    }

    method WriteString(s: Bytes)
      modifies this
      ensures buf == old(buf) + Quote(s) && Literal(s, Quote(s))
    {
      QuoteIff(s, Quote(s));
      buf := buf + "\"";
      WriteRunes(s);
      buf := buf + "\"";
      Grow(old(buf), "\"", EscapeAll(Runes(s)), "\"");
    }

    method WriteRunes(s: Bytes)
      modifies this
      ensures buf == old(buf) + EscapeAll(Runes(s))
    {
      ghost var all, n, out := Runes(s), 0, "";
      RunesBegin(s);
      var i := 0;
      while i < |s|
        invariant Remaining(s, i, all, n) && Written(all, n, out)
        invariant buf == old(buf) + out
      {
        var r, size := NextRune(s, i, all, n);
        EscapeNext(all, n, out);
        Assoc(old(buf), out, Escape(r));
        buf := buf + Escape(r);
        out := out + Escape(r);
        i, n := i + size, n + 1;
      }
      RunesEnd(s, all, n, out);
    }

    method Encode(v: Json)
      modifies this
      ensures buf == old(buf) + Text(v, f)
      decreases v, 1
    {
      match v
      case Null => buf := buf + "null";
      case Bool(b) => buf := buf + if b then "true" else "false";
      case Int(n) => buf := buf + Integer(n);
      case Str(s) => WriteString(s);
      case Arr(_) => WriteArray(v);
      case Obj(_) => WriteObject(v);
    }

    method WriteArray(v: Json)
      requires v.Arr?
      modifies this
      ensures buf == old(buf) + Text(v, f)
      decreases v, 0
    {
      buf := buf + "[";
      ghost var start, out := buf, "";
      for i := 0 to |v.items|
        invariant Items(v, 0, f) == out + Pending(v, i, f)
        invariant buf == start + out
      {
        ghost var sep := if i > 0 then f.item else "";
        ghost var x := Text(v.items[i], f);
        PendingStep(v, i, f);
        Grow(out, sep, x, Pending(v, i + 1, f));
        Grow(start, out, sep, x);
        if i > 0 {
          buf := buf + f.item;
        }
        Encode(v.items[i]);
        out := out + sep + x;
      }
      assert Items(v, 0, f) == out;
      buf := buf + "]";
      Grow(old(buf), "[", out, "]");
    }

    /** Keys are gathered in any order, as a map is iterated in any order. */
    method WriteObject(v: Json)
      requires v.Obj?
      modifies this
      ensures buf == old(buf) + Text(v, f)
      decreases v, 0, 1
    {
      var keys: seq<Bytes> := [];
      var todo := v.members.Keys;
      while todo != {}
        invariant todo <= v.members.Keys
        invariant forall i, j :: 0 <= i < j < |keys| ==> keys[i] != keys[j]
        invariant forall k :: k in keys <==> k in v.members && k !in todo && v.members[k] != Null
        decreases todo
      {
        var k :| k in todo;
        todo := todo - {k};
        if v.members[k] != Null {
          keys := keys + [k];
        }
      }
      assert KeySet(keys) == Present(v.members);
      keys := SortStrings(keys);
      ListingUnique(keys, SortedKeys(Present(v.members)));

      WriteMembers(v, keys);
    }

    method WriteMembers(v: Json, keys: seq<Bytes>)
      requires v.Obj? && forall k :: k in keys ==> k in v.members
      modifies this
      ensures buf == old(buf) + ("{" + Members(v, keys, f) + "}")
      decreases v, 0, 0
    {
      buf := buf + "{";
      ghost var start, out := buf, "";
      for i := 0 to |keys|
        invariant Members(v, keys, f) == out + PendingMembers(v, keys, i, f)
        invariant buf == start + out
      {
        ghost var sep := if i > 0 then f.item else "";
        ghost var x := Member(v, keys[i], f);
        PendingMembersStep(v, keys, i, f);
        Grow(out, sep, x, PendingMembers(v, keys, i + 1, f));
        Grow(start, out, sep, x);
        if i > 0 {
          buf := buf + f.item;
        }
        WriteMember(v, keys[i]);
        out := out + sep + x;
      }
      assert Members(v, keys, f) == out;
      buf := buf + "}";
      Grow(old(buf), "{", out, "}");
    }

    method WriteMember(v: Json, k: Bytes)
      requires v.Obj? && k in v.members
      modifies this
      ensures buf == old(buf) + Member(v, k, f)
      decreases v, 0, 0, 0
    {
      WriteString(k);
      buf := buf + f.kv;
      Encode(v.members[k]);
      Grow(old(buf), Quote(k), f.kv, Text(v.members[k], f));
    }
  }

  /** The canonical text: printable characters only, from which the value can be read back but for its nil
      members. */
  ghost predicate Canonical(v: Json, f: Style, text: string) {
    && (Printable(f.item) && Printable(f.kv) ==> Printable(text))
    && (GoodStyle(f) && WellEncoded(v) ==> CanonParser.ParseValue(text, f) == CanonParser.Ok(Normal(v), ""))
  }

  lemma TextIsCanonical(v: Json, f: Style)
    ensures Canonical(v, f, Text(v, f))
  {
    if Printable(f.item) && Printable(f.kv) { TextIsPrintable(v, f); }
    if GoodStyle(f) && WellEncoded(v) {
      CanonParser.ParseInvertsText(v, f, "");
      assert Text(v, f) + "" == Text(v, f);
    }
  }

  method EncodeWith(v: Json, f: Style) returns (text: string)
    ensures text == Text(v, f) && Canonical(v, f, text)
  {
    var e := new Encoder(f);
    e.Encode(v);
    assert "" + Text(v, f) == Text(v, f);
    TextIsCanonical(v, f);
    return e.buf;
  }

  /** The bytes that the hash over a part of the body is computed over. */
  method Encode(v: Json) returns (text: string)
    ensures text == Text(v, COMPACT) && Printable(text)
    ensures WellEncoded(v) ==> CanonParser.ParseValue(text, COMPACT) == CanonParser.Ok(Normal(v), "")
  {
    text := EncodeWith(v, Style(",", ":"));
  }

  /** The bytes that the signature is computed over. */
  method EncodeForSignature(v: Json) returns (text: string)
    ensures text == Text(v, SPACED) && Printable(text)
    ensures WellEncoded(v) ==> CanonParser.ParseValue(text, SPACED) == CanonParser.Ok(Normal(v), "")
  {
    text := EncodeWith(v, Style(", ", ": "));
  }

  lemma Assoc(x: string, y: string, z: string)
    ensures x + y + z == x + (y + z)
  {
  }

  lemma Grow(x: string, y: string, z: string, w: string)
    ensures x + y + z + w == x + (y + z + w) == x + (y + (z + w)) == (x + y) + (z + w)
  {
  }

  lemma TakeOne(all: seq<Rune>, n: nat, r: Rune, left: seq<Rune>)
    requires n <= |all| && all[n..] == [r] + left
    ensures n < |all| && all[n] == r && all[n + 1..] == left
  {
    assert all[n..][0] == r && all[n..][1..] == left;
  }

  lemma EscapeStep(rs: seq<Rune>, n: nat)
    requires n < |rs|
    ensures EscapeAll(rs[n..]) == Escape(rs[n]) + EscapeAll(rs[n + 1..])
  {
    assert rs[n..][1..] == rs[n + 1..];
  }

  lemma EscapeNext(all: seq<Rune>, n: nat, out: string)
    requires n < |all| && Written(all, n, out)
    ensures Written(all, n + 1, out + Escape(all[n]))
  {
    assert Unfold(0);
    EscapeStep(all, n);
    Assoc(out, Escape(all[n]), EscapeAll(all[n + 1..]));
  }

  /** What is still to be written before item `i`, separator included. */
  ghost function Pending(v: Json, i: nat, f: Style): string
    requires v.Arr? && i <= |v.items|
  {
    (if 0 < i < |v.items| then f.item else "") + Items(v, i, f)
  }

  /** A list's first entry `x`, and the rest of it behind a separator unless it was the last. */
  lemma Entry(head: string, x: string, sep: string, more: string, last: bool, list: string)
    requires list == (if last then x else x + sep + more) && (last ==> more == "")
    ensures head + list == head + x + ((if last then "" else sep) + more)
  {
    if last {
      assert x + ("" + more) == x;
    } else {
      assert x + sep + more == x + (sep + more);
    }
  }

  lemma PendingStep(v: Json, i: nat, f: Style)
    requires v.Arr? && i < |v.items|
    ensures Pending(v, i, f) == (if i > 0 then f.item else "") + Text(v.items[i], f) + Pending(v, i + 1, f)
  {
    Entry(if i > 0 then f.item else "", Text(v.items[i], f), f.item, Items(v, i + 1, f), i + 1 == |v.items|,
          Items(v, i, f));
  }

  ghost function PendingMembers(v: Json, keys: seq<Bytes>, i: nat, f: Style): string
    requires v.Obj? && i <= |keys| && forall k :: k in keys ==> k in v.members
  {
    (if 0 < i < |keys| then f.item else "") + Members(v, keys[i..], f)
  }

  lemma PendingMembersStep(v: Json, keys: seq<Bytes>, i: nat, f: Style)
    requires v.Obj? && i < |keys| && forall k :: k in keys ==> k in v.members
    ensures PendingMembers(v, keys, i, f)
         == (if i > 0 then f.item else "") + Member(v, keys[i], f) + PendingMembers(v, keys, i + 1, f)
  {
    assert keys[i..][1..] == keys[i + 1..];
    Entry(if i > 0 then f.item else "", Member(v, keys[i], f), f.item, Members(v, keys[i + 1..], f), i + 1 == |keys|,
          Members(v, keys[i..], f));
  }
}
