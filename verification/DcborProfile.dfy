/** The deterministic profile in the terms of RFC 8949 and RFC 3629, without the functions
    the codec is written with: what a head's bytes say, what text is, which of two keys
    comes first, and which values are inside the profile. */
module DcborProfile {
  import opened DcborSpec
  import Sorting

  // ---- heads --------------------------------------------------------------------------

  /** Section 3: what the bytes of a head say, and that no shorter head says it. */
  ghost predicate Announces(h: seq<nat>, major: nat, arg: nat) {
    && |h| >= 1 && h[0] / 32 == major
    && match h[0] % 32
       case 24 => |h| == 2 && arg == h[1] && arg >= 24
       case 25 => |h| == 3 && arg == h[1] * 0x100 + h[2] && arg >= 0x100
       case 26 => |h| == 5 && arg == h[1] * 0x100_0000 + h[2] * 0x1_0000 + h[3] * 0x100 + h[4] && arg >= 0x1_0000
       case 27 =>
         && |h| == 9 && arg >= 0x1_0000_0000
         && arg == h[1] * 0x100_0000_0000_0000 + h[2] * 0x1_0000_0000_0000 + h[3] * 0x100_0000_0000 + h[4] * 0x1_0000_0000
                 + h[5] * 0x100_0000 + h[6] * 0x1_0000 + h[7] * 0x100 + h[8]
       case info => info < 24 && |h| == 1 && arg == info
  }

  lemma Unfolded(s: seq<byte>)
    ensures var t: seq<nat> := s;
      && (|s| == 1 ==> FromBigEndian(s) == t[0])
      && (|s| == 2 ==> FromBigEndian(s) == t[0] * 0x100 + t[1])
      && (|s| == 4 ==> FromBigEndian(s) == t[0] * 0x100_0000 + t[1] * 0x1_0000 + t[2] * 0x100 + t[3])
  {
    if |s| == 1 {
      assert FromBigEndian([]) == 0;
    } else if |s| == 2 {
      Unfolded(s[..1]);
    } else if |s| == 4 {
      Unfolded(s[..2]);
      assert FromBigEndian(s[..3]) == FromBigEndian(s[..3][..2]) * 256 + s[2];
      assert s[..3][..2] == s[..2];
    }
  }

  lemma UnfoldedLong(s: seq<byte>)
    requires |s| == 8
    ensures var t: seq<nat> := s;
      FromBigEndian(s) == FromBigEndian(s[..4]) * 0x1_0000_0000 + t[4] * 0x100_0000 + t[5] * 0x1_0000 + t[6] * 0x100 + t[7]
  {
    assert s[..7][..6] == s[..6] && s[..6][..5] == s[..5] && s[..5][..4] == s[..4];
    assert FromBigEndian(s) == FromBigEndian(s[..7]) * 256 + s[7];
    assert FromBigEndian(s[..7]) == FromBigEndian(s[..6]) * 256 + s[6];
    assert FromBigEndian(s[..6]) == FromBigEndian(s[..5]) * 256 + s[5];
    assert FromBigEndian(s[..5]) == FromBigEndian(s[..4]) * 256 + s[4];
  }

  lemma HeadMeaning(major: Major, arg: u64)
    ensures Announces(Head(major, arg), major, arg)
  {
    var h := Head(major, arg);
    if arg >= 24 {
      ExtraHolds(arg);
      BigEndianBack(arg, ExtraBytes(arg));
      var s := BigEndian(arg, ExtraBytes(arg));
      assert h[1..] == s;
      Unfolded(s);
      if |s| == 8 {
        UnfoldedLong(s);
        Unfolded(s[..4]);
      }
    }
  }

  // ---- which bytes come first (section 4.2.1) -----------------------------------------

  /** The two agree on their first k bytes; then a ends and b goes on, or a has the
      smaller byte. */
  predicate PartAt(a: seq<byte>, b: seq<byte>, k: nat) {
    && k <= |a| && k < |b| && a[..k] == b[..k]
    && (k < |a| ==> a[k] < b[k])
  }

  ghost predicate Precedes(a: seq<byte>, b: seq<byte>) { exists k :: PartAt(a, b, k) }

  lemma {:induction false} PartIsLess(a: seq<byte>, b: seq<byte>, k: nat)
    requires PartAt(a, b, k)
    ensures Less(a, b)
    decreases k
  {
    if k > 0 {
      assert a[0] == a[..k][0] == b[..k][0] == b[0];
      assert a[1..][..k - 1] == a[..k][1..] && b[1..][..k - 1] == b[..k][1..];
      PartIsLess(a[1..], b[1..], k - 1);
    }
  }

  lemma {:induction false} LessParts(a: seq<byte>, b: seq<byte>) returns (k: nat)
    requires Less(a, b)
    ensures PartAt(a, b, k)
    decreases |a|
  {
    if a == [] || a[0] != b[0] {
      k := 0;
    } else {
      var j := LessParts(a[1..], b[1..]);
      assert a[..j + 1] == [a[0]] + a[1..][..j] && b[..j + 1] == [b[0]] + b[1..][..j];
      k := j + 1;
    }
  }

  lemma LessMeaning(a: seq<byte>, b: seq<byte>)
    ensures Less(a, b) <==> Precedes(a, b)
  {
    if Less(a, b) { var k := LessParts(a, b); }
    if Precedes(a, b) {
      var k :| PartAt(a, b, k);
      PartIsLess(a, b, k);
    }
  }

  // ---- text (RFC 3629) ----------------------------------------------------------------

  /** A Unicode scalar value: a code point that is not a surrogate. */
  type Scalar = c: nat | c < 0x11_0000 && !(0xd800 <= c < 0xe000) witness 0

  /** Section 3 of RFC 3629: the bytes of a scalar value. */
  function Spelling(c: Scalar): seq<byte> {
    if c < 0x80 then [c]
    else if c < 0x800 then [0xc0 + c / 0x40, 0x80 + c % 0x40]
    else if c < 0x1_0000 then [0xe0 + c / 0x1000, 0x80 + c / 0x40 % 0x40, 0x80 + c % 0x40]
    else [0xf0 + c / 0x4_0000, 0x80 + c / 0x1000 % 0x40, 0x80 + c / 0x40 % 0x40, 0x80 + c % 0x40]
  }

  function Spelled(cs: seq<Scalar>): seq<byte> { if cs == [] then [] else Spelling(cs[0]) + Spelled(cs[1..]) }

  ghost predicate IsText(s: seq<byte>) { exists cs :: s == Spelled(cs) }

  /** One spelling at the front changes nothing about the rest. */
  lemma SpellingIsUtf8(c: Scalar, rest: seq<byte>)
    ensures Utf8(Spelling(c) + rest) <==> Utf8(rest)
  {
    var s := Spelling(c) + rest;
    if c < 0x80 {
      assert s[1..] == rest;
    } else if c < 0x800 {
      assert s[2..] == rest;
    } else if c < 0x1_0000 {
      assert s[3..] == rest;
      ThreeLead(c);
    } else {
      assert s[4..] == rest;
      FourLead(c);
    }
  }

  lemma ThreeLead(c: Scalar)
    requires 0x800 <= c < 0x1_0000
    ensures var x := Spelling(c);
      && |x| == 3 && 0xe0 <= x[0] < 0xf0 && Continuation(x[1]) && Continuation(x[2])
      && (x[0] == 0xe0 ==> x[1] >= 0xa0) && (x[0] == 0xed ==> x[1] < 0xa0)
  {
  }

  lemma FourLead(c: Scalar)
    requires 0x1_0000 <= c
    ensures var x := Spelling(c);
      && |x| == 4 && 0xf0 <= x[0] < 0xf5 && Continuation(x[1]) && Continuation(x[2]) && Continuation(x[3])
      && (x[0] == 0xf0 ==> x[1] >= 0x90) && (x[0] == 0xf4 ==> x[1] < 0x90)
  {
  }

  lemma {:induction false} SpelledIsUtf8(cs: seq<Scalar>)
    ensures Utf8(Spelled(cs))
    decreases |cs|
  {
    if cs != [] {
      SpelledIsUtf8(cs[1..]);
      SpellingIsUtf8(cs[0], Spelled(cs[1..]));
    }
  }

  lemma Digit(q: nat, z: nat)
    requires z < 0x40
    ensures (q * 0x40 + z) / 0x40 == q && (q * 0x40 + z) % 0x40 == z
  {
  }

  lemma TwoDigits(q: nat, y: nat, z: nat)
    requires y < 0x40 && z < 0x40
    ensures (q * 0x1000 + y * 0x40 + z) / 0x1000 == q
  {
  }

  lemma ThreeDigits(q: nat, x: nat, y: nat, z: nat)
    requires x < 0x40 && y < 0x40 && z < 0x40
    ensures (q * 0x4_0000 + x * 0x1000 + y * 0x40 + z) / 0x4_0000 == q
  {
  }

  lemma FirstScalar(s: seq<byte>) returns (c: Scalar, rest: seq<byte>)
    requires s != [] && Utf8(s)
    ensures s == Spelling(c) + rest && Utf8(rest)
  {
    var t: seq<nat> := s;
    if t[0] < 0x80 {
      c, rest := t[0], s[1..];
    } else if t[0] < 0xe0 {
      Digit(t[0] - 0xc0, t[1] - 0x80);
      c, rest := (t[0] - 0xc0) * 0x40 + (t[1] - 0x80), s[2..];
      assert Spelling(c) == s[..2];
    } else if t[0] < 0xf0 {
      c := ThreeBytes(s);
      rest := s[3..];
      assert Spelling(c) == s[..3];
    } else {
      c := FourBytes(s);
      rest := s[4..];
      assert Spelling(c) == s[..4];
    }
  }

  lemma ThreeBytes(s: seq<byte>) returns (c: Scalar)
    requires |s| >= 3 && 0xe0 <= s[0] < 0xf0 && Continuation(s[1]) && Continuation(s[2])
    requires (s[0] == 0xe0 ==> s[1] >= 0xa0) && (s[0] == 0xed ==> s[1] < 0xa0)
    ensures Spelling(c) == s[..3]
  {
    var t: seq<nat> := s;
    Digit(t[0] - 0xe0, t[1] - 0x80);
    Digit((t[0] - 0xe0) * 0x40 + (t[1] - 0x80), t[2] - 0x80);
    TwoDigits(t[0] - 0xe0, t[1] - 0x80, t[2] - 0x80);
    c := (t[0] - 0xe0) * 0x1000 + (t[1] - 0x80) * 0x40 + (t[2] - 0x80);
  }

  lemma FourBytes(s: seq<byte>) returns (c: Scalar)
    requires |s| >= 4 && 0xf0 <= s[0] < 0xf5 && Continuation(s[1]) && Continuation(s[2]) && Continuation(s[3])
    requires (s[0] == 0xf0 ==> s[1] >= 0x90) && (s[0] == 0xf4 ==> s[1] < 0x90)
    ensures Spelling(c) == s[..4]
  {
    var t: seq<nat> := s;
    Digit(t[0] - 0xf0, t[1] - 0x80);
    Digit((t[0] - 0xf0) * 0x40 + (t[1] - 0x80), t[2] - 0x80);
    Digit((t[0] - 0xf0) * 0x1000 + (t[1] - 0x80) * 0x40 + (t[2] - 0x80), t[3] - 0x80);
    TwoDigits((t[0] - 0xf0) * 0x40 + (t[1] - 0x80), t[2] - 0x80, t[3] - 0x80);
    ThreeDigits(t[0] - 0xf0, t[1] - 0x80, t[2] - 0x80, t[3] - 0x80);
    c := (t[0] - 0xf0) * 0x4_0000 + (t[1] - 0x80) * 0x1000 + (t[2] - 0x80) * 0x40 + (t[3] - 0x80);
  }

  lemma {:induction false} Scalars(s: seq<byte>) returns (cs: seq<Scalar>)
    requires Utf8(s)
    ensures s == Spelled(cs)
    decreases |s|
  {
    if s == [] {
      cs := [];
    } else {
      var c, rest := FirstScalar(s);
      var more := Scalars(rest);
      cs := [c] + more;
      assert cs[1..] == more;
    }
  }

  /** The test the codec applies accepts exactly the spellings of scalar values. */
  lemma Utf8Meaning(s: seq<byte>)
    ensures Utf8(s) <==> IsText(s)
  {
    if Utf8(s) { var cs := Scalars(s); }
    if IsText(s) {
      var cs :| s == Spelled(cs);
      SpelledIsUtf8(cs);
    }
  }

  // ---- the profile --------------------------------------------------------------------

  /** Each neighbour's encoded key comes before the next. */
  ghost predicate InOrder(entries: seq<Entry>) {
    forall i, j :: 0 <= i && j == i + 1 < |entries| ==>
      |entries[i].key| < U64 && |entries[j].key| < U64 && Precedes(EncText(entries[i].key), EncText(entries[j].key))
  }

  /** A value inside the profile, in a container at the given depth: text is text, keys
      come in order, a decimal is a fraction in lowest terms of ten, and containers nest at
      most 64 deep. */
  ghost predicate InProfile(v: Value, depth: nat)
    decreases v
  {
    match v
    case Uint(_) => true
    case Neg(_) => true
    case Null => true
    case Nil => false
    case Decimal(e, m) => e < 0 && m % 10 != 0 && depth < 64
    case Text(s) => |s| < 0x1_0000_0000_0000_0000 && IsText(s)
    case Bytes(s) => |s| < 0x1_0000_0000_0000_0000
    case Array(items) =>
      && |items| < 0x1_0000_0000_0000_0000 && depth < 64
      && forall i :: 0 <= i < |items| ==> InProfile(items[i], depth + 1)
    case Map(entries) =>
      && |entries| < 0x1_0000_0000_0000_0000 && depth < 64 && InOrder(entries)
      && forall i :: 0 <= i < |entries| ==>
           |entries[i].key| < 0x1_0000_0000_0000_0000 && IsText(entries[i].key) && InProfile(entries[i].value, depth + 1)
  }

  lemma OrderMeaning(entries: seq<Entry>)
    requires forall i :: 0 <= i < |entries| ==> |entries[i].key| < U64
    ensures KeysAscend(entries) <==> InOrder(entries)
  {
    hide Less, Precedes, EncText;
    forall i | 0 < i < |entries|
      ensures Less(EncText(entries[i - 1].key), EncText(entries[i].key)) <==> Precedes(EncText(entries[i - 1].key), EncText(entries[i].key))
    {
      LessMeaning(EncText(entries[i - 1].key), EncText(entries[i].key));
    }
  }

  /** What the codec calls canonical is what the profile allows. */
  lemma {:induction false} CanonicalMeaning(v: Value, depth: nat)
    ensures Canonical(v, depth) <==> InProfile(v, depth)
    decreases v
  {
    hide Utf8, IsText, KeysAscend, InOrder;
    match v
    case Text(s) => Utf8Meaning(s);
    case Array(items) =>
      forall i | 0 <= i < |items| ensures Canonical(items[i], depth + 1) <==> InProfile(items[i], depth + 1) {
        CanonicalMeaning(items[i], depth + 1);
      }
    case Map(entries) =>
      forall i | 0 <= i < |entries|
        ensures Canonical(entries[i].value, depth + 1) <==> InProfile(entries[i].value, depth + 1)
        ensures Utf8(entries[i].key) <==> IsText(entries[i].key)
      {
        CanonicalMeaning(entries[i].value, depth + 1);
        Utf8Meaning(entries[i].key);
      }
      if forall i :: 0 <= i < |entries| ==> |entries[i].key| < U64 { OrderMeaning(entries); }
    case _ =>
  }

  // ---- examples (appendix A and section 3.4.4) ----------------------------------------

  lemma SmallHeads(major: Major, arg: u64)
    ensures arg < 24 ==> Head(major, arg) == [major * 32 + arg]
    ensures 24 <= arg < 0x100 ==> Head(major, arg) == [major * 32 + 24, arg]
    ensures 0x100 <= arg < 0x1_0000 ==> Head(major, arg) == [major * 32 + 25, arg / 0x100, arg % 0x100]
  {
    assert BigEndian(arg, 1) == [arg % 256];
    assert BigEndian(arg, 2) == BigEndian(arg / 256, 1) + [arg % 256];
    assert BigEndian(arg / 256, 1) == [arg / 256 % 256];
  }

  /** Integers, strings, null and the decimal fraction 273.15. */
  lemma PlainExamples()
    ensures Enc(Uint(10)) == [0x0a] && Enc(Uint(100)) == [0x18, 0x64] && Enc(Uint(1000)) == [0x19, 0x03, 0xe8]
    ensures Enc(Neg(9)) == [0x29] && Enc(Neg(99)) == [0x38, 0x63] && Enc(Neg(999)) == [0x39, 0x03, 0xe7]
    ensures Enc(Bytes([1, 2, 3, 4])) == [0x44, 0x01, 0x02, 0x03, 0x04]
    ensures Enc(Text([0x49, 0x45, 0x54, 0x46])) == [0x64, 0x49, 0x45, 0x54, 0x46]
    ensures Enc(Null) == [0xf6]
    ensures Enc(Decimal(-2, 27315)) == [0xc4, 0x82, 0x21, 0x19, 0x6a, 0xb3]
  {
    SmallHeads(0, 10);
    SmallHeads(0, 100);
    SmallHeads(0, 1000);
    SmallHeads(1, 9);
    SmallHeads(1, 99);
    SmallHeads(1, 999);
    SmallHeads(2, 4);
    SmallHeads(3, 4);
    SmallHeads(6, 4);
    SmallHeads(4, 2);
    SmallHeads(1, 1);
    SmallHeads(0, 27315);
    hide Head;
  }

  lemma TwoItems(x: Value, y: Value)
    requires Sized(x) && Sized(y)
    ensures Enc(Array([x, y])) == Head(4, 2) + (Enc(x) + Enc(y))
  {
    hide Head;
    var items := [x, y];
    assert items[1..] == [y] && items[1..][1..] == [];
    assert EncItems(items[1..]) == Enc(y) + EncItems([]);
    assert EncItems(items) == Enc(x) + EncItems(items[1..]);
  }

  lemma TwoEntries(a: seq<byte>, x: Value, b: seq<byte>, y: Value)
    requires |a| < U64 && |b| < U64 && Sized(x) && Sized(y)
    ensures Enc(Map([Entry(a, x), Entry(b, y)])) == Head(5, 2) + (EncText(a) + (Enc(x) + (EncText(b) + Enc(y))))
  {
    hide Head, EncText;
    var entries := [Entry(a, x), Entry(b, y)];
    assert entries[1..] == [entries[1]] && entries[1..][1..] == [];
    assert EncEntries(entries[1..]) == EncText(b) + (Enc(y) + EncEntries([]));
    assert EncEntries(entries) == EncText(a) + (Enc(x) + EncEntries(entries[1..]));
  }

  lemma ArrayExample()
    ensures Enc(Array([Uint(2), Uint(3)])) == [0x82, 0x02, 0x03]
  {
    SmallHeads(0, 2);
    SmallHeads(0, 3);
    SmallHeads(4, 2);
    assert Enc(Uint(2)) == [0x02] && Enc(Uint(3)) == [0x03];
    hide Head, Enc;
    TwoItems(Uint(2), Uint(3));
  }

  /** The map {"a": 1, "b": [2, 3]}. */
  lemma MapExample()
    ensures Enc(Map([Entry([0x61], Uint(1)), Entry([0x62], Array([Uint(2), Uint(3)]))]))
         == [0xa2, 0x61, 0x61, 0x01, 0x61, 0x62, 0x82, 0x02, 0x03]
  {
    SmallHeads(0, 1);
    SmallHeads(3, 1);
    SmallHeads(5, 2);
    assert Enc(Uint(1)) == [0x01];
    assert EncText([0x61]) == [0x61, 0x61] && EncText([0x62]) == [0x61, 0x62];
    hide Head, Enc, EncText;
    ArrayExample();
    var inner := Array([Uint(2), Uint(3)]);
    assert Enc(inner) == [0x82, 0x02, 0x03];
    TwoEntries([0x61], Uint(1), [0x62], inner);
    MapBytes(EncText([0x61]), Enc(Uint(1)), EncText([0x62]), Enc(inner));
  }

  lemma MapBytes(a: seq<byte>, x: seq<byte>, b: seq<byte>, y: seq<byte>)
    requires a == [0x61, 0x61] && x == [0x01] && b == [0x61, 0x62] && y == [0x82, 0x02, 0x03]
    ensures [0xa2] + (a + (x + (b + y))) == [0xa2, 0x61, 0x61, 0x01, 0x61, 0x62, 0x82, 0x02, 0x03]
  {
  }
}
