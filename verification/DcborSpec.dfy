/** The deterministic CBOR profile as a specification: the one encoding of each value,
    and which values have one. Section numbers are those of RFC 8949. */
module DcborSpec {
  import Sorting

  type byte = x: nat | x < 256 witness 0

  const U64: nat := 0x1_0000_0000_0000_0000

  /** Half of it: the magnitude of the least int64. */
  const I64: int := 0x8000_0000_0000_0000

  type u64 = x: nat | x < U64 witness 0

  type i64 = x: int | -I64 <= x < I64 witness 0

  const MAX_DEPTH: nat := 64

  datatype Value =
    | Uint(n: u64)
    | Neg(n: u64)
    | Decimal(exponent: i64, mantissa: i64)
    | Text(text: seq<byte>)
    | Bytes(bytes: seq<byte>)
    | Array(items: seq<Value>)
    | Map(entries: seq<Entry>)
    | Null
    /** Go's nil interface, which is no value at all. */
    | Nil

  datatype Entry = Entry(key: seq<byte>, value: Value)

  // ---- heads (section 3, shortest form per section 4.2.1) -----------------------------

  /** n in k bytes, most significant first. */
  function BigEndian(n: nat, k: nat): (s: seq<byte>)
    ensures |s| == k
  {
    if k == 0 then [] else BigEndian(n / 256, k - 1) + [n % 256]
  }

  function FromBigEndian(s: seq<byte>): nat {
    if s == [] then 0 else FromBigEndian(s[..|s| - 1]) * 256 + s[|s| - 1]
  }

  function Pow256(k: nat): nat { if k == 0 then 1 else 256 * Pow256(k - 1) }

  lemma {:induction false} BigEndianBack(n: nat, k: nat)
    requires n < Pow256(k)
    ensures FromBigEndian(BigEndian(n, k)) == n
    decreases k
  {
    if k > 0 {
      BigEndianBack(n / 256, k - 1);
      assert BigEndian(n, k)[..k - 1] == BigEndian(n / 256, k - 1);
    }
  }

  lemma {:induction false} FromBigEndianBack(s: seq<byte>)
    ensures FromBigEndian(s) < Pow256(|s|) && BigEndian(FromBigEndian(s), |s|) == s
    decreases |s|
  {
    if s != [] {
      FromBigEndianBack(s[..|s| - 1]);
      assert s[..|s| - 1] + [s[|s| - 1]] == s;
    }
  }

  lemma Pow256Values()
    ensures Pow256(1) == 0x100 && Pow256(2) == 0x1_0000 && Pow256(4) == 0x1_0000_0000 && Pow256(8) == U64
  {
    assert Pow256(3) == 0x100_0000 && Pow256(5) == 0x100_0000_0000;
    assert Pow256(6) == 0x1_0000_0000_0000 && Pow256(7) == 0x100_0000_0000_0000;
  }

  /** How many bytes follow a head's initial byte. */
  function ExtraBytes(arg: u64): nat {
    if arg < 24 then 0 else if arg <= 0xff then 1 else if arg <= 0xffff then 2 else if arg <= 0xffff_ffff then 4 else 8
  }

  /** The additional information that announces them. */
  function Info(arg: u64): nat {
    if arg < 24 then arg else if arg <= 0xff then 24 else if arg <= 0xffff then 25 else if arg <= 0xffff_ffff then 26 else 27
  }

  type Major = m: nat | m < 8

  /** The shortest head for a major type and argument. */
  function Head(major: Major, arg: u64): (s: seq<byte>)
    ensures |s| == 1 + ExtraBytes(arg) && s[0] == major * 32 + Info(arg)
  {
    [major * 32 + Info(arg)] + BigEndian(arg, ExtraBytes(arg))
  }

  lemma ExtraHolds(arg: u64)
    ensures ExtraBytes(arg) > 0 ==> arg < Pow256(ExtraBytes(arg))
  {
    Pow256Values();
  }

  /** A head can be read back from the front of any bytes. */
  lemma HeadUnique(m: Major, a: u64, x: seq<byte>, m': Major, a': u64, y: seq<byte>)
    requires Head(m, a) + x == Head(m', a') + y
    ensures m == m' && a == a' && x == y
  {
    var h, h' := Head(m, a), Head(m', a');
    assert (h + x)[0] == h[0] && (h' + y)[0] == h'[0];
    assert m == m' && Info(a) == Info(a');
    assert ExtraBytes(a) == ExtraBytes(a');
    assert h == (h + x)[..|h|] && h' == (h' + y)[..|h|];
    assert x == (h + x)[|h|..] && y == (h' + y)[|h|..];
    if ExtraBytes(a) > 0 {
      assert BigEndian(a, ExtraBytes(a)) == h[1..] && BigEndian(a', ExtraBytes(a)) == h'[1..];
      ExtraHolds(a);
      ExtraHolds(a');
      BigEndianBack(a, ExtraBytes(a));
      BigEndianBack(a', ExtraBytes(a));
    }
  }

  // ---- the encoding of a value --------------------------------------------------------

  function IntValue(i: i64): Value { if i < 0 then Neg(-(i + 1)) else Uint(i) }

  function EncInt(i: i64): seq<byte> { if i < 0 then Head(1, -(i + 1)) else Head(0, i) }

  function EncText(s: seq<byte>): seq<byte>
    requires |s| < U64
  {
    Head(3, |s|) + s
  }

  /** Go lengths are ints; nothing larger can be encoded. */
  predicate Sized(v: Value) {
    match v
    case Text(s) => |s| < U64
    case Bytes(s) => |s| < U64
    case Array(items) => |items| < U64 && forall i :: 0 <= i < |items| ==> Sized(items[i])
    case Map(entries) => |entries| < U64 && forall i :: 0 <= i < |entries| ==> |entries[i].key| < U64 && Sized(entries[i].value)
    case Nil => false
    case _ => true
  }

  function Enc(v: Value): seq<byte>
    requires Sized(v)
    decreases v, 0
  {
    match v
    case Uint(n) => Head(0, n)
    case Neg(n) => Head(1, n)
    case Decimal(e, m) => Head(6, 4) + (Head(4, 2) + (EncInt(e) + EncInt(m)))
    case Text(s) => EncText(s)
    case Bytes(s) => Head(2, |s|) + s
    case Array(items) => Head(4, |items|) + EncItems(items)
    case Map(entries) => Head(5, |entries|) + EncEntries(entries)
    case Null => [0xf6]
  }

  function EncItems(items: seq<Value>): seq<byte>
    requires forall i :: 0 <= i < |items| ==> Sized(items[i])
    decreases items
  {
    if items == [] then [] else Enc(items[0]) + EncItems(items[1..])
  }

  function EncEntries(entries: seq<Entry>): seq<byte>
    requires forall i :: 0 <= i < |entries| ==> |entries[i].key| < U64 && Sized(entries[i].value)
    decreases entries
  {
    if entries == [] then []
    else EncText(entries[0].key) + (Enc(entries[0].value) + EncEntries(entries[1..]))
  }

  // ---- the encoding is self-delimiting ------------------------------------------------

  lemma IntUnique(i: i64, x: seq<byte>, j: i64, y: seq<byte>)
    requires EncInt(i) + x == EncInt(j) + y
    ensures i == j && x == y
  {
    HeadUnique(if i < 0 then 1 else 0, if i < 0 then -(i + 1) else i, x,
               if j < 0 then 1 else 0, if j < 0 then -(j + 1) else j, y);
  }

  lemma TextUnique(s: seq<byte>, x: seq<byte>, t: seq<byte>, y: seq<byte>)
    requires |s| < U64 && |t| < U64
    requires EncText(s) + x == EncText(t) + y
    ensures s == t && x == y
  {
    assert EncText(s) + x == Head(3, |s|) + (s + x) && EncText(t) + y == Head(3, |t|) + (t + y);
    HeadUnique(3, |s|, s + x, 3, |t|, t + y);
    assert s == (s + x)[..|s|] && t == (t + y)[..|s|];
    assert x == (s + x)[|s|..] && y == (t + y)[|s|..];
  }

  function MajorOf(v: Value): Major
    requires !v.Nil?
  {
    match v
    case Uint(_) => 0
    case Neg(_) => 1
    case Bytes(_) => 2
    case Text(_) => 3
    case Array(_) => 4
    case Map(_) => 5
    case Decimal(_, _) => 6
    case Null => 7
  }

  /** The first byte of an encoding tells the kind of value. */
  lemma FirstByte(v: Value)
    requires Sized(v)
    ensures |Enc(v)| > 0 && Enc(v)[0] / 32 == MajorOf(v) && (v.Null? ==> Enc(v) == [0xf6])
  {
  }

  lemma Associative(a: seq<byte>, b: seq<byte>, c: seq<byte>)
    ensures (a + b) + c == a + (b + c)
  {
  }

  /** No encoding is a proper prefix of another: bytes begin with the encoding of at most
      one value. */
  lemma {:induction false} PrefixFree(v: Value, x: seq<byte>, w: Value, y: seq<byte>)
    requires Sized(v) && Sized(w)
    requires Enc(v) + x == Enc(w) + y
    ensures v == w && x == y
    decreases v, 1
  {
    SameKind(v, x, w, y);
    match v
    case Uint(n) => HeadUnique(0, n, x, 0, w.n, y);
    case Neg(n) => HeadUnique(1, n, x, 1, w.n, y);
    case Text(s) => TextUnique(s, x, w.text, y);
    case Bytes(s) => BytesUnique(s, x, w.bytes, y);
    case Decimal(e, m) => DecimalUnique(e, m, x, w.exponent, w.mantissa, y);
    case Array(vs) => ArrayPrefixFree(vs, x, w.items, y);
    case Map(vs) => MapPrefixFree(vs, x, w.entries, y);
    case Null => assert x == (Enc(v) + x)[1..] && y == (Enc(w) + y)[1..];
  }

  lemma SameKind(v: Value, x: seq<byte>, w: Value, y: seq<byte>)
    requires Sized(v) && Sized(w)
    requires Enc(v) + x == Enc(w) + y
    ensures MajorOf(v) == MajorOf(w)
  {
    FirstByte(v);
    FirstByte(w);
    hide Enc;
    assert (Enc(v) + x)[0] == Enc(v)[0] && (Enc(w) + y)[0] == Enc(w)[0];
  }

  lemma BytesUnique(s: seq<byte>, x: seq<byte>, t: seq<byte>, y: seq<byte>)
    requires |s| < U64 && |t| < U64
    requires (Head(2, |s|) + s) + x == (Head(2, |t|) + t) + y
    ensures s == t && x == y
  {
    Associative(Head(2, |s|), s, x);
    Associative(Head(2, |t|), t, y);
    HeadUnique(2, |s|, s + x, 2, |t|, t + y);
    assert s == (s + x)[..|s|] && t == (t + y)[..|s|];
    assert x == (s + x)[|s|..] && y == (t + y)[|s|..];
  }

  lemma {:induction false} ArrayPrefixFree(vs: seq<Value>, x: seq<byte>, ws: seq<Value>, y: seq<byte>)
    requires Sized(Array(vs)) && Sized(Array(ws))
    requires (Head(4, |vs|) + EncItems(vs)) + x == (Head(4, |ws|) + EncItems(ws)) + y
    ensures vs == ws && x == y
    decreases vs, 1
  {
    hide Enc, EncItems;
    Associative(Head(4, |vs|), EncItems(vs), x);
    Associative(Head(4, |ws|), EncItems(ws), y);
    HeadUnique(4, |vs|, EncItems(vs) + x, 4, |ws|, EncItems(ws) + y);
    ItemsPrefixFree(vs, x, ws, y);
    NoItems(ws[|vs|..], y);
    assert ws[..|vs|] == ws;
  }

  lemma {:induction false} MapPrefixFree(vs: seq<Entry>, x: seq<byte>, ws: seq<Entry>, y: seq<byte>)
    requires Sized(Map(vs)) && Sized(Map(ws))
    requires (Head(5, |vs|) + EncEntries(vs)) + x == (Head(5, |ws|) + EncEntries(ws)) + y
    ensures vs == ws && x == y
    decreases vs, 1
  {
    hide Enc, EncEntries;
    Associative(Head(5, |vs|), EncEntries(vs), x);
    Associative(Head(5, |ws|), EncEntries(ws), y);
    HeadUnique(5, |vs|, EncEntries(vs) + x, 5, |ws|, EncEntries(ws) + y);
    EntriesPrefixFree(vs, x, ws, y);
    NoEntries(ws[|vs|..], y);
    assert ws[..|vs|] == ws;
  }

  lemma NoItems(ws: seq<Value>, y: seq<byte>)
    requires ws == []
    ensures EncItems(ws) + y == y
  {
  }

  lemma NoEntries(ws: seq<Entry>, y: seq<byte>)
    requires ws == []
    ensures EncEntries(ws) + y == y
  {
  }

  lemma DecimalUnique(e: i64, m: i64, x: seq<byte>, e': i64, m': i64, y: seq<byte>)
    requires Enc(Decimal(e, m)) + x == Enc(Decimal(e', m')) + y
    ensures e == e' && m == m' && x == y
  {
    DecimalSpread(e, m, x);
    DecimalSpread(e', m', y);
    hide Enc, EncInt;
    var t, t' := EncInt(m) + x, EncInt(m') + y;
    HeadUnique(6, 4, Head(4, 2) + (EncInt(e) + t), 6, 4, Head(4, 2) + (EncInt(e') + t'));
    HeadUnique(4, 2, EncInt(e) + t, 4, 2, EncInt(e') + t');
    IntUnique(e, t, e', t');
    IntUnique(m, x, m', y);
  }

  lemma DecimalSpread(e: i64, m: i64, x: seq<byte>)
    ensures Enc(Decimal(e, m)) + x == Head(6, 4) + (Head(4, 2) + (EncInt(e) + (EncInt(m) + x)))
  {
    Associative(Head(6, 4), Head(4, 2) + (EncInt(e) + EncInt(m)), x);
    Associative(Head(4, 2), EncInt(e) + EncInt(m), x);
    Associative(EncInt(e), EncInt(m), x);
  }

  lemma ItemsSpread(vs: seq<Value>, x: seq<byte>)
    requires vs != [] && forall i :: 0 <= i < |vs| ==> Sized(vs[i])
    ensures EncItems(vs) + x == Enc(vs[0]) + (EncItems(vs[1..]) + x)
  {
    Associative(Enc(vs[0]), EncItems(vs[1..]), x);
  }

  lemma EntriesSpread(vs: seq<Entry>, x: seq<byte>)
    requires vs != [] && forall i :: 0 <= i < |vs| ==> |vs[i].key| < U64 && Sized(vs[i].value)
    ensures EncEntries(vs) + x == EncText(vs[0].key) + (Enc(vs[0].value) + (EncEntries(vs[1..]) + x))
  {
    Associative(EncText(vs[0].key), Enc(vs[0].value) + EncEntries(vs[1..]), x);
    Associative(Enc(vs[0].value), EncEntries(vs[1..]), x);
  }

  lemma Rejoin<T>(vs: seq<T>, ws: seq<T>)
    requires 0 < |vs| <= |ws| && vs[0] == ws[0] && vs[1..] == ws[1..][..|vs| - 1]
    ensures vs == ws[..|vs|] && ws[1..][|vs| - 1..] == ws[|vs|..]
  {
    assert vs == [vs[0]] + vs[1..] && ws[..|vs|] == [ws[0]] + ws[1..][..|vs| - 1];
  }

  /** Items encoded one after another, with nothing between them, split in one way. */
  lemma {:induction false} ItemsPrefixFree(vs: seq<Value>, x: seq<byte>, ws: seq<Value>, y: seq<byte>)
    requires |vs| <= |ws|
    requires forall i :: 0 <= i < |vs| ==> Sized(vs[i])
    requires forall i :: 0 <= i < |ws| ==> Sized(ws[i])
    requires EncItems(vs) + x == EncItems(ws) + y
    ensures vs == ws[..|vs|] && x == EncItems(ws[|vs|..]) + y
    decreases vs, 0
  {
    if vs == [] {
      assert ws[|vs|..] == ws && EncItems(vs) + x == x;
    } else {
      ItemsSpread(vs, x);
      ItemsSpread(ws, y);
      hide Enc, EncItems;
      PrefixFree(vs[0], EncItems(vs[1..]) + x, ws[0], EncItems(ws[1..]) + y);
      ItemsPrefixFree(vs[1..], x, ws[1..], y);
      Rejoin(vs, ws);
    }
  }

  lemma {:induction false} EntriesPrefixFree(vs: seq<Entry>, x: seq<byte>, ws: seq<Entry>, y: seq<byte>)
    requires |vs| <= |ws|
    requires forall i :: 0 <= i < |vs| ==> |vs[i].key| < U64 && Sized(vs[i].value)
    requires forall i :: 0 <= i < |ws| ==> |ws[i].key| < U64 && Sized(ws[i].value)
    requires EncEntries(vs) + x == EncEntries(ws) + y
    ensures vs == ws[..|vs|] && x == EncEntries(ws[|vs|..]) + y
    decreases vs, 0
  {
    if vs == [] {
      assert ws[|vs|..] == ws && EncEntries(vs) + x == x;
    } else {
      var vt, wt := EncEntries(vs[1..]) + x, EncEntries(ws[1..]) + y;
      EntriesSpread(vs, x);
      EntriesSpread(ws, y);
      hide Enc, EncEntries, EncText;
      TextUnique(vs[0].key, Enc(vs[0].value) + vt, ws[0].key, Enc(ws[0].value) + wt);
      PrefixFree(vs[0].value, vt, ws[0].value, wt);
      EntriesPrefixFree(vs[1..], x, ws[1..], y);
      Rejoin(vs, ws);
    }
  }

  // ---- which values are canonical -----------------------------------------------------

  predicate Continuation(b: byte) { 0x80 <= b < 0xc0 }

  /** Well-formed UTF-8: no overlong form, no surrogate, nothing above U+10FFFF. */
  predicate Utf8(s: seq<byte>)
    decreases |s|
  {
    if s == [] then true
    else if s[0] < 0x80 then Utf8(s[1..])
    else if 0xc2 <= s[0] < 0xe0 then |s| >= 2 && Continuation(s[1]) && Utf8(s[2..])
    else if 0xe0 <= s[0] < 0xf0 then
      && |s| >= 3 && Continuation(s[1]) && Continuation(s[2])
      && (s[0] == 0xe0 ==> s[1] >= 0xa0) && (s[0] == 0xed ==> s[1] < 0xa0) && Utf8(s[3..])
    else if 0xf0 <= s[0] < 0xf5 then
      && |s| >= 4 && Continuation(s[1]) && Continuation(s[2]) && Continuation(s[3])
      && (s[0] == 0xf0 ==> s[1] >= 0x90) && (s[0] == 0xf4 ==> s[1] < 0x90) && Utf8(s[4..])
    else false
  }

  /** Go's remainder takes the sign of the dividend; it is zero exactly when this is. */
  predicate CanonicalDecimal(e: i64, m: i64) { e < 0 && m != 0 && m % 10 != 0 }

  /** Bytewise lexicographic order. */
  predicate Less(a: seq<byte>, b: seq<byte>) { Sorting.LexLess(a, b) }

  ghost predicate KeysAscend(entries: seq<Entry>)
    requires forall i :: 0 <= i < |entries| ==> |entries[i].key| < U64
  {
    forall i :: 0 < i < |entries| ==> Less(EncText(entries[i - 1].key), EncText(entries[i].key))
  }

  /** A value in canonical form, held by a container at the given depth: what the
      decoder returns. */
  ghost predicate Canonical(v: Value, depth: nat)
    decreases v
  {
    match v
    case Decimal(e, m) => CanonicalDecimal(e, m) && depth < MAX_DEPTH
    case Text(s) => |s| < U64 && Utf8(s)
    case Bytes(s) => |s| < U64
    case Array(items) => |items| < U64 && depth < MAX_DEPTH && forall i :: 0 <= i < |items| ==> Canonical(items[i], depth + 1)
    case Map(entries) =>
      && |entries| < U64 && depth < MAX_DEPTH
      && (forall i :: 0 <= i < |entries| ==> |entries[i].key| < U64 && Utf8(entries[i].key) && Canonical(entries[i].value, depth + 1))
      && KeysAscend(entries)
    case Nil => false
    case _ => true
  }

  /** Asking for a size beside canonical form excludes nothing. */
  lemma {:induction false} CanonicalSized(v: Value, depth: nat)
    requires Canonical(v, depth)
    ensures Sized(v)
    decreases v
  {
    match v
    case Array(items) =>
      forall i | 0 <= i < |items| ensures Sized(items[i]) { CanonicalSized(items[i], depth + 1); }
    case Map(entries) =>
      forall i | 0 <= i < |entries| ensures Sized(entries[i].value) { CanonicalSized(entries[i].value, depth + 1); }
    case _ =>
  }
}
