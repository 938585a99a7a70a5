/** The canonical byte encoding of JSON values: type tags, little-endian length
    fields, object members in ascending key order, non-finite numbers refused. */
module CanonicalJson {
  import opened Wrappers
  import opened Orders

  type Byte = x: int | 0 <= x < 256

  type Bytes = seq<Byte>

  /** Strings, member names and number texts are given by their UTF-8 bytes. A number
      also says whether it is finite (or an integer outside the float range). */
  datatype Json =
    | JNull
    | JBool(value: bool)
    | JNumber(text: Bytes, finite: bool)
    | JString(utf8: Bytes)
    | JArray(items: seq<Json>)
    | JObject(members: map<Bytes, Json>)

  const TAG_NULL: Byte := 0
  const TAG_FALSE: Byte := 1
  const TAG_TRUE: Byte := 2
  const TAG_NUMBER: Byte := 3
  const TAG_STRING: Byte := 4
  const TAG_ARRAY: Byte := 5
  const TAG_OBJECT: Byte := 6

  const LENGTH_LIMIT: nat := 0x1_0000_0000_0000_0000

  predicate ByteLt(a: Byte, b: Byte) { a < b }

  predicate BytesLt(a: Bytes, b: Bytes) { LexLt(ByteLt, a, b) }

  lemma BytesLtTotal()
    ensures StrictTotal(BytesLt)
  {
    assert StrictTotal(ByteLt);
    forall a: Bytes ensures !BytesLt(a, a) { LexIrreflexive(ByteLt, a); }
    forall a, b, c | BytesLt(a, b) && BytesLt(b, c) ensures BytesLt(a, c) {
      LexTransitive(ByteLt, a, b, c);
    }
    forall a, b ensures a == b || BytesLt(a, b) || BytesLt(b, a) { LexTotal(ByteLt, a, b); }
  }

  /** Byte strings compare at the first byte in which they differ. */
  lemma BytesLtDecides(a: Bytes, b: Bytes)
    ensures BytesLt(a, b) <==>
            exists i: nat :: i <= |a| && i < |b| && a[..i] == b[..i] && (i == |a| || a[i] < b[i])
  {
    LexLtDecides(ByteLt, a, b);
    if i: nat :| DecidedAt(ByteLt, a, b, i) {
      assert a[..i] == b[..i];
    }
    if i: nat :| i <= |a| && i < |b| && a[..i] == b[..i] && (i == |a| || a[i] < b[i]) {
      assert forall j :: 0 <= j < i ==> a[j] == a[..i][j] && b[j] == b[..i][j];
      assert DecidedAt(ByteLt, a, b, i);
    }
  }

  /** The object's member names in ascending byte order. */
  function SortedKeys(members: map<Bytes, Json>): (r: seq<Bytes>)
    ensures |r| == |members|
    ensures forall k :: k in r <==> k in members
  {
    BytesLtTotal();
    Enumerate(BytesLt, members.Keys)
  }

  /** The low `width` bytes of n, least significant first. */
  function LittleEndian(n: nat, width: nat): (r: Bytes)
    ensures |r| == width
  {
    if width == 0 then [] else [n % 256] + LittleEndian(n / 256, width - 1)
  }

  function WriteU64(n: nat): (r: Bytes)
    ensures |r| == 8
  {
    LittleEndian(n, 8)
  }

  function Tag(v: Json): Byte {
    match v
    case JNull => TAG_NULL
    case JBool(value) => if value then TAG_TRUE else TAG_FALSE
    case JNumber(_, _) => TAG_NUMBER
    case JString(_) => TAG_STRING
    case JArray(_) => TAG_ARRAY
    case JObject(_) => TAG_OBJECT
  }

  function Canonical(v: Json): Option<Bytes>
    decreases v, 2
  {
    var body := WriteBody(v);
    if body.None? then None else Some([Tag(v)] + body.value)
  }

  /** What follows the type tag. */
  function WriteBody(v: Json): Option<Bytes>
    decreases v, 1
  {
    match v
    case JNull => Some([])
    case JBool(_) => Some([])
    case JNumber(text, finite) => if finite then Some(WriteU64(|text|) + text) else None
    case JString(utf8) => Some(WriteU64(|utf8|) + utf8)
    case JArray(items) =>
      var rest := WriteItems(items);
      if rest.None? then None else Some(WriteU64(|items|) + rest.value)
    case JObject(members) =>
      var rest := WriteMembers(v, SortedKeys(members));
      if rest.None? then None else Some(WriteU64(|members|) + rest.value)
  }

  function WriteItems(items: seq<Json>): Option<Bytes>
    decreases items
  {
    if items == [] then Some([])
    else
      var head := Canonical(items[0]);
      var tail := WriteItems(items[1..]);
      if head.None? || tail.None? then None else Some(head.value + tail.value)
  }

  function WriteMembers(v: Json, keys: seq<Bytes>): Option<Bytes>
    requires v.JObject? && forall k :: k in keys ==> k in v.members
    decreases v, 0, |keys|
  {
    if keys == [] then Some([])
    else
      var head := Canonical(v.members[keys[0]]);
      var tail := WriteMembers(v, keys[1..]);
      if head.None? || tail.None? then None
      else Some(WriteU64(|keys[0]|) + keys[0] + head.value + tail.value)
  }

  /** Every length in the value fits its 64-bit field, as it does for any value that
      a machine can hold. */
  ghost predicate Fits(v: Json) {
    match v
    case JNumber(text, _) => |text| < LENGTH_LIMIT
    case JString(utf8) => |utf8| < LENGTH_LIMIT
    case JArray(items) => |items| < LENGTH_LIMIT && forall x :: x in items ==> Fits(x)
    case JObject(members) =>
      |members| < LENGTH_LIMIT && forall k :: k in members ==> |k| < LENGTH_LIMIT && Fits(members[k])
    case _ => true
  }

  ghost predicate AllFinite(v: Json) {
    match v
    case JNumber(_, finite) => finite
    case JArray(items) => forall x :: x in items ==> AllFinite(x)
    case JObject(members) => forall k :: k in members ==> AllFinite(members[k])
    case _ => true
  }

  /** A value is refused exactly when a non-finite number occurs somewhere inside it. */
  lemma {:induction false} EncodesIffFinite(v: Json)
    ensures Canonical(v).Some? <==> AllFinite(v)
    decreases v, 1
  {
    match v
    case JArray(items) => ItemsEncodeIffFinite(items);
    case JObject(members) => MembersEncodeIffFinite(v, SortedKeys(members));
    case _ =>
  }

  lemma {:induction false} ItemsEncodeIffFinite(items: seq<Json>)
    ensures WriteItems(items).Some? <==> forall x :: x in items ==> AllFinite(x)
    decreases items
  {
    if items != [] {
      EncodesIffFinite(items[0]);
      ItemsEncodeIffFinite(items[1..]);
      assert items == [items[0]] + items[1..];
    }
  }

  lemma {:induction false} MembersEncodeIffFinite(v: Json, keys: seq<Bytes>)
    requires v.JObject? && forall k :: k in keys ==> k in v.members
    ensures WriteMembers(v, keys).Some? <==> forall k :: k in keys ==> AllFinite(v.members[k])
    decreases v, 0, |keys|
  {
    if keys != [] {
      EncodesIffFinite(v.members[keys[0]]);
      MembersEncodeIffFinite(v, keys[1..]);
      assert keys == [keys[0]] + keys[1..];
    }
  }

  // ----- Different values never share an encoding -----

  ghost function Power256(width: nat): nat {
    if width == 0 then 1 else 256 * Power256(width - 1)
  }

  lemma {:induction false} LittleEndianInjective(m: nat, n: nat, width: nat)
    requires m < Power256(width) && n < Power256(width)
    requires LittleEndian(m, width) == LittleEndian(n, width)
    ensures m == n
  {
    if width != 0 {
      var a, b := LittleEndian(m, width), LittleEndian(n, width);
      assert a[0] == b[0] && a[1..] == b[1..];
      LittleEndianInjective(m / 256, n / 256, width - 1);
    }
  }

  lemma WriteU64Injective(m: nat, n: nat)
    requires m < LENGTH_LIMIT && n < LENGTH_LIMIT && WriteU64(m) == WriteU64(n)
    ensures m == n
  {
    assert Power256(8) == LENGTH_LIMIT by {
      assert Power256(4) == 256 * 256 * 256 * 256;
    }
    LittleEndianInjective(m, n, 8);
  }

  ghost function LittleEndianValue(bytes: Bytes): nat {
    if bytes == [] then 0 else bytes[0] + 256 * LittleEndianValue(bytes[1..])
  }

  /** A length field holds its length, least significant byte first. */
  lemma {:induction false} LittleEndianHolds(n: nat, width: nat)
    requires n < Power256(width)
    ensures LittleEndianValue(LittleEndian(n, width)) == n
  {
    if width != 0 {
      LittleEndianHolds(n / 256, width - 1);
      assert LittleEndian(n, width)[1..] == LittleEndian(n / 256, width - 1);
    }
  }

  /** How each kind of value starts: one tag byte from 0 to 6, then nothing, or a length
      of eight bytes, of which texts and numbers hold that many bytes. */
  lemma EncodingLayout(v: Json)
    requires Canonical(v).Some?
    ensures var bytes := Canonical(v).value;
            && (v.JNull? ==> bytes == [0])
            && (v.JBool? ==> bytes == [if v.value then 2 else 1])
            && (v.JNumber? ==> v.finite && bytes == [3] + (WriteU64(|v.text|) + v.text))
            && (v.JString? ==> bytes == [4] + (WriteU64(|v.utf8|) + v.utf8))
            && (v.JArray? ==> [5] + WriteU64(|v.items|) <= bytes)
            && (v.JObject? ==> [6] + WriteU64(|v.members|) <= bytes)
  {
  }

  /** Equal concatenations whose first parts have equal lengths agree part by part. */
  lemma SplitAt<T>(a: seq<T>, r: seq<T>, b: seq<T>, s: seq<T>)
    requires a + r == b + s && |a| == |b|
    ensures a == b && r == s
  {
    assert (a + r)[..|a|] == a && (b + s)[..|b|] == b;
    assert (a + r)[|a|..] == r && (b + s)[|b|..] == s;
  }

  /** A length field followed by that many bytes can be read back. */
  lemma FramedInjective(a: Bytes, r: Bytes, b: Bytes, s: Bytes)
    requires |a| < LENGTH_LIMIT && |b| < LENGTH_LIMIT
    requires WriteU64(|a|) + a + r == WriteU64(|b|) + b + s
    ensures a == b && r == s
  {
    assert WriteU64(|a|) + a + r == WriteU64(|a|) + (a + r);
    assert WriteU64(|b|) + b + s == WriteU64(|b|) + (b + s);
    SplitAt(WriteU64(|a|), a + r, WriteU64(|b|), b + s);
    WriteU64Injective(|a|, |b|);
    SplitAt(a, r, b, s);
  }

  /** The encoding is prefix-free: what follows it never changes what it is read as. */
  lemma {:induction false} EncodingPrefixFree(v: Json, r: Bytes, w: Json, s: Bytes)
    requires Fits(v) && Fits(w) && Canonical(v).Some? && Canonical(w).Some?
    requires Canonical(v).value + r == Canonical(w).value + s
    ensures v == w && r == s
    decreases v, 4
  {
    TagSplit(Tag(v), WriteBody(v).value, r, Tag(w), WriteBody(w).value, s);
    BodyPrefixFree(v, r, w, s);
  }

  lemma TagSplit(t: Byte, a: Bytes, r: Bytes, u: Byte, b: Bytes, s: Bytes)
    requires [t] + a + r == [u] + b + s
    ensures t == u && a + r == b + s
  {
    assert [t] + a + r == [t] + (a + r) && [u] + b + s == [u] + (b + s);
    SplitAt([t], a + r, [u], b + s);
    assert t == [t][0] == [u][0] == u;
  }

  lemma {:induction false} BodyPrefixFree(v: Json, r: Bytes, w: Json, s: Bytes)
    requires Fits(v) && Fits(w) && Tag(v) == Tag(w) && WriteBody(v).Some? && WriteBody(w).Some?
    requires WriteBody(v).value + r == WriteBody(w).value + s
    ensures v == w && r == s
    decreases v, 3
  {
    if v.JArray? {
      ArrayPrefixFree(v, r, w, s);
    } else if v.JObject? {
      ObjectPrefixFree(v, r, w, s);
    } else {
      ScalarPrefixFree(v, r, w, s);
    }
  }

  lemma ScalarPrefixFree(v: Json, r: Bytes, w: Json, s: Bytes)
    requires Fits(v) && Fits(w) && Tag(v) == Tag(w) && !v.JArray? && !v.JObject?
    requires WriteBody(v).Some? && WriteBody(w).Some?
    requires WriteBody(v).value + r == WriteBody(w).value + s
    ensures v == w && r == s
  {
    if v.JNumber? {
      FramedInjective(v.text, r, w.text, s);
    } else if v.JString? {
      FramedInjective(v.utf8, r, w.utf8, s);
    } else {
      assert [] + r == r && [] + s == s;
    }
  }

  lemma {:induction false} ArrayPrefixFree(v: Json, r: Bytes, w: Json, s: Bytes)
    requires v.JArray? && w.JArray? && Fits(v) && Fits(w) && WriteBody(v).Some? && WriteBody(w).Some?
    requires WriteBody(v).value + r == WriteBody(w).value + s
    ensures v == w && r == s
    decreases v, 2
  {
    CountedInjective(|v.items|, WriteItems(v.items).value, r, |w.items|, WriteItems(w.items).value, s);
    ItemsPrefixFree(v.items, r, w.items, s);
  }

  lemma {:induction false} ObjectPrefixFree(v: Json, r: Bytes, w: Json, s: Bytes)
    requires v.JObject? && w.JObject? && Fits(v) && Fits(w) && WriteBody(v).Some? && WriteBody(w).Some?
    requires WriteBody(v).value + r == WriteBody(w).value + s
    ensures v == w && r == s
    decreases v, 2
  {
    var ks, ls := SortedKeys(v.members), SortedKeys(w.members);
    CountedInjective(|v.members|, WriteMembers(v, ks).value, r, |w.members|, WriteMembers(w, ls).value, s);
    MembersPrefixFree(v, ks, r, w, ls, s);
    SameMembers(v.members, ks, w.members);
  }

  lemma SameMembers(members: map<Bytes, Json>, keys: seq<Bytes>, others: map<Bytes, Json>)
    requires forall k :: k in keys <==> k in members
    requires forall k :: k in keys <==> k in others
    requires forall k :: k in keys ==> members[k] == others[k]
    ensures members == others
  {
    assert members.Keys == others.Keys;
  }

  lemma CountedInjective(m: nat, x: Bytes, r: Bytes, n: nat, y: Bytes, s: Bytes)
    requires m < LENGTH_LIMIT && n < LENGTH_LIMIT
    requires WriteU64(m) + x + r == WriteU64(n) + y + s
    ensures m == n && x + r == y + s
  {
    assert WriteU64(m) + x + r == WriteU64(m) + (x + r);
    assert WriteU64(n) + y + s == WriteU64(n) + (y + s);
    SplitAt(WriteU64(m), x + r, WriteU64(n), y + s);
    WriteU64Injective(m, n);
  }

  lemma {:induction false} ItemsPrefixFree(items: seq<Json>, r: Bytes, others: seq<Json>, s: Bytes)
    requires forall x :: (x in items || x in others) ==> Fits(x)
    requires |items| == |others| && WriteItems(items).Some? && WriteItems(others).Some?
    requires WriteItems(items).value + r == WriteItems(others).value + s
    ensures items == others && r == s
    decreases items
  {
    if items == [] {
      assert [] + r == r && [] + s == s;
    } else {
      var x, y := Canonical(items[0]).value, Canonical(others[0]).value;
      var p, q := WriteItems(items[1..]).value, WriteItems(others[1..]).value;
      assert x + p + r == x + (p + r) && y + q + s == y + (q + s);
      EncodingPrefixFree(items[0], p + r, others[0], q + s);
      ItemsPrefixFree(items[1..], r, others[1..], s);
    }
  }

  lemma {:induction false} MembersPrefixFree(
    v: Json, keys: seq<Bytes>, r: Bytes, w: Json, names: seq<Bytes>, s: Bytes)
    requires v.JObject? && w.JObject? && Fits(v) && Fits(w)
    requires (forall k :: k in keys ==> k in v.members) && (forall k :: k in names ==> k in w.members)
    requires |keys| == |names| && WriteMembers(v, keys).Some? && WriteMembers(w, names).Some?
    requires WriteMembers(v, keys).value + r == WriteMembers(w, names).value + s
    ensures keys == names && r == s
    ensures forall k :: k in keys ==> v.members[k] == w.members[k]
    decreases v, 0, |keys|
  {
    if keys == [] {
      assert [] + r == r && [] + s == s;
    } else {
      var k, l := keys[0], names[0];
      var x, y := Canonical(v.members[k]).value, Canonical(w.members[l]).value;
      var p, q := WriteMembers(v, keys[1..]).value, WriteMembers(w, names[1..]).value;
      MemberSplit(k, x, p, r, l, y, q, s);
      EncodingPrefixFree(v.members[k], p + r, w.members[l], q + s);
      MembersPrefixFree(v, keys[1..], r, w, names[1..], s);
    }
  }

  lemma MemberSplit(k: Bytes, x: Bytes, p: Bytes, r: Bytes, l: Bytes, y: Bytes, q: Bytes, s: Bytes)
    requires |k| < LENGTH_LIMIT && |l| < LENGTH_LIMIT
    requires WriteU64(|k|) + k + x + p + r == WriteU64(|l|) + l + y + q + s
    ensures k == l && x + (p + r) == y + (q + s)
  {
    assert WriteU64(|k|) + k + x + p + r == WriteU64(|k|) + k + (x + (p + r));
    assert WriteU64(|l|) + l + y + q + s == WriteU64(|l|) + l + (y + (q + s));
    FramedInjective(k, x + (p + r), l, y + (q + s));
  }

  /** Comparing canonical bytes is comparing JSON values. */
  lemma CanonicalEqualIffSameValue(v: Json, w: Json)
    requires Fits(v) && Fits(w) && Canonical(v).Some? && Canonical(w).Some?
    ensures Canonical(v) == Canonical(w) <==> v == w
  {
    if Canonical(v) == Canonical(w) {
      EncodingPrefixFree(v, [], w, []);
    }
  }
}
