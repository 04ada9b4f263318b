/** The text form's base32 (section 6 of RFC 4648, lower case, no padding), as the
    TypeScript package computes it: bits are shifted through a 32-bit buffer that is never
    cleared, so its high bits are lost. */
module Base32 {
  import opened Options
  import opened DcborSpec

  const U32: nat := 0x1_0000_0000

  type Digit = d: nat | d < 32

  // ---- numbers in base 32 and powers of two -------------------------------------------

  function FromDigits(ds: seq<Digit>): nat {
    if ds == [] then 0 else FromDigits(ds[..|ds| - 1]) * 32 + ds[|ds| - 1]
  }

  function Pow2(k: nat): (p: nat)
    ensures p > 0
  {
    if k == 0 then 1 else 2 * Pow2(k - 1)
  }

  lemma SmallPowers()
    ensures Pow2(0) == 1 && Pow2(1) == 2 && Pow2(2) == 4 && Pow2(3) == 8 && Pow2(4) == 16 && Pow2(5) == 32
    ensures Pow2(6) == 64 && Pow2(7) == 128 && Pow2(8) == 256 && Pow2(9) == 512 && Pow2(10) == 1024
    ensures Pow2(11) == 2048 && Pow2(12) == 4096
  {
    assert Pow2(3) == 8 && Pow2(6) == 64 && Pow2(9) == 512;
  }

  lemma {:induction false} DigitsUnique(a: seq<Digit>, b: seq<Digit>)
    requires |a| == |b| && FromDigits(a) == FromDigits(b)
    ensures a == b
    decreases |a|
  {
    if a != [] {
      var n := |a| - 1;
      DigitsUnique(a[..n], b[..n]);
      assert a == a[..n] + [a[n]] && b == b[..n] + [b[n]];
    }
  }

  lemma {:induction false} BytesUnique(a: seq<byte>, b: seq<byte>)
    requires |a| == |b| && FromBigEndian(a) == FromBigEndian(b)
    ensures a == b
    decreases |a|
  {
    if a != [] {
      var n := |a| - 1;
      BytesUnique(a[..n], b[..n]);
      assert a == a[..n] + [a[n]] && b == b[..n] + [b[n]];
    }
  }

  // ---- the alphabet -------------------------------------------------------------------

  /** The alphabet a to z, then 2 to 7. */
  function Letter(d: Digit): char {
    if d < 26 then ('a' as int + d) as char else ('2' as int + (d - 26)) as char
  }

  /** indexOf: where a character stands in the alphabet, if it does. */
  method IndexOf(c: char) returns (r: Option<Digit>)
    ensures r.Some? ==> Letter(r.value) == c
    ensures r.None? ==> forall d: Digit {:trigger Letter(d)} :: Letter(d) != c
  {
    for i := 0 to 32
      invariant forall d: Digit {:trigger Letter(d)} :: d < i ==> Letter(d) != c
    {
      if Letter(i) == c {
        return Some(i);
      }
    }
    r := None;
  }

  /** The text that spells some digits. */
  function Spell(ds: seq<Digit>): (t: string)
    ensures |t| == |ds|
  {
    seq(|ds|, i requires 0 <= i < |ds| => Letter(ds[i]))
  }

  lemma SpellNext(ds: seq<Digit>, d: Digit)
    ensures Spell(ds + [d]) == Spell(ds) + [Letter(d)] && FromDigits(ds + [d]) == FromDigits(ds) * 32 + d
  {
    assert (ds + [d])[..|ds|] == ds;
  }

  lemma ByteNext(bs: seq<byte>, b: byte)
    ensures FromBigEndian(bs + [b]) == FromBigEndian(bs) * 256 + b
  {
    assert (bs + [b])[..|bs|] == bs;
  }

  lemma SpellUnique(a: seq<Digit>, b: seq<Digit>)
    requires Spell(a) == Spell(b)
    ensures a == b
  {
    forall i | 0 <= i < |a| ensures a[i] == b[i] {
      assert Spell(a)[i] == Spell(b)[i];
    }
  }

  // ---- the buffer ---------------------------------------------------------------------

  lemma DivisionIs(a: nat, d: nat, q: nat, r: nat)
    requires 0 < d && r < d && a == q * d + r
    ensures a / d == q && a % d == r
  {
    var z := a / d - q;
    assert z * d == (a / d) * d - q * d;
    Multiples(z, d);
  }

  lemma Multiples(z: int, d: int)
    requires d >= 0
    ensures z >= 1 ==> z * d >= d
    ensures z <= -1 ==> z * d <= -d
  {
  }

  lemma Nested(a: nat, p: nat, q: nat, x: nat, r: nat, y: nat, s: nat)
    requires a == x * p + r && r < p && x == y * q + s && s < q
    ensures a == y * (p * q) + (s * p + r) && s * p + r < p * q
  {
    assert x * p == (y * q) * p + s * p;
    assert (y * q) * p == y * (p * q);
    assert s * p <= (q - 1) * p == p * q - p;
  }

  /** Dividing twice is dividing by the product. */
  lemma DivTwice(a: nat, p: nat, q: nat)
    requires p > 0 && q > 0
    ensures p * q > 0 && a / (p * q) == (a / p) / q
  {
    var x, r := a / p, a % p;
    var y, s := x / q, x % q;
    Nested(a, p, q, x, r, y, s);
    DivisionIs(a, p * q, y, s * p + r);
  }

  /** Reducing to 32 bits keeps the low bits, */
  lemma LowBits(a: nat, p: nat, t: nat)
    requires p > 0 && p * t == U32
    ensures (a % U32) % p == a % p && a / p == (a / U32) * t + (a % U32) / p
  {
    var k, m := a / U32, a % U32;
    assert (p * t) * k == (k * t) * p;
    assert (k * t + m / p) * p == (k * t) * p + (m / p) * p;
    DivisionIs(a, p, k * t + m / p, m % p);
  }

  /** and the next bits above those, as many as fit. */
  lemma MiddleBits(a: nat, p: nat, n: nat, t: nat)
    requires p > 0 && n > 0 && p * (n * t) == U32
    ensures (a % U32) / p % n == a / p % n
  {
    LowBits(a, p, n * t);
    MiddleOf(a / p, a / U32, n, t, (a % U32) / p);
  }

  lemma MiddleOf(y: nat, k: nat, n: nat, t: nat, x: nat)
    requires n > 0 && y == k * (n * t) + x
    ensures y % n == x % n
  {
    Regroup(k, n, t, x);
    DivisionIs(y, n, k * t + x / n, x % n);
  }

  lemma Regroup(k: nat, n: nat, t: nat, x: nat)
    requires n > 0
    ensures k * (n * t) + x == (k * t + x / n) * n + x % n
  {
    assert k * (n * t) == (k * t) * n;
    assert (k * t + x / n) * n == (k * t) * n + (x / n) * n;
  }

  lemma FiveBits(a: nat, k: nat)
    requires k <= 7
    ensures (a % U32) / Pow2(k) % 32 == a / Pow2(k) % 32
  {
    SmallPowers();
    MiddleBits(a, Pow2(k), 32, 0x800_0000 / Pow2(k));
  }

  lemma EightBits(a: nat, k: nat)
    requires k <= 7
    ensures (a % U32) / Pow2(k) % 256 == a / Pow2(k) % 256
  {
    SmallPowers();
    MiddleBits(a, Pow2(k), 256, 0x100_0000 / Pow2(k));
  }

  /** Shifting in bits below commutes with dropping the high ones. */
  lemma ShiftIn(a: nat, m: nat, x: nat)
    ensures ((a % U32) * m + x) % U32 == (a * m + x) % U32
  {
    var k, r := a / U32, a % U32;
    Distribute(k, U32, r, m, x);
    SameRemainder(k * m, U32, r * m + x);
  }

  lemma Distribute(k: nat, u: nat, r: nat, m: nat, x: nat)
    ensures (k * u + r) * m + x == (k * m) * u + (r * m + x)
  {
  }

  lemma SameRemainder(q: nat, d: nat, y: nat)
    requires d > 0
    ensures (q * d + y) % d == y % d
  {
    Distribute(q, 1, y / d, d, 0);
    DivisionIs(q * d + y, d, q + y / d, y % d);
  }

  /** Adding low bits does not change what stands above them. */
  lemma NewLowBits(a: nat, x: nat, k: nat, m: nat, bits: nat)
    requires m == Pow2(k) && x < m
    ensures (a * m + x) / Pow2(bits + k) == a / Pow2(bits)
  {
    PowSum(k, bits);
    DivisionIs(a * m + x, m, a, x);
    DivTwice(a * m + x, m, Pow2(bits));
  }

  lemma {:induction false} PowSum(a: nat, b: nat)
    ensures Pow2(a + b) == Pow2(a) * Pow2(b)
  {
    if a > 0 {
      PowSum(a - 1, b);
      assert Pow2(a + b) == 2 * Pow2(a - 1 + b) && Pow2(a) == 2 * Pow2(a - 1);
      hide Pow2;
      Regrouped(2, Pow2(a - 1), Pow2(b));
    }
  }

  lemma Regrouped(x: nat, y: nat, z: nat)
    ensures x * (y * z) == (x * y) * z
  {
  }

  // ---- the two directions -------------------------------------------------------------

  /** How many zero bits fill up the last character. */
  function Padding(n: nat): (p: nat)
    ensures p < 5 && (8 * n + p) % 5 == 0
  {
    (5 - 8 * n % 5) % 5
  }

  /** The digits of some bytes: their number, shifted left to a multiple of five bits. */
  ghost predicate Encodes(bytes: seq<byte>, ds: seq<Digit>) {
    && 5 * |ds| == 8 * |bytes| + Padding(|bytes|)
    && FromDigits(ds) == FromBigEndian(bytes) * Pow2(Padding(|bytes|))
  }

  /** Shifting into the buffer, and reading out of it. */
  function Shifted(buffer: nat, m: nat, x: nat): nat { (buffer * m + x) % U32 }

  function FiveAbove(buffer: nat, low: nat): Digit { buffer / Pow2(low) % 32 }

  function EightAbove(buffer: nat, low: nat): byte { buffer / Pow2(low) % 256 }

  function FiveBelow(buffer: nat, left: nat): Digit { buffer * Pow2(left) % U32 % 32 }

  lemma ShiftedIs(a: nat, m: nat, x: nat)
    ensures Shifted(a % U32, m, x) == (a * m + x) % U32
  {
    ShiftIn(a, m, x);
  }

  /** One more character: five bits read from under the top of the buffer. */
  lemma DigitStep(a: nat, bits: nat, ds: seq<Digit>)
    requires 5 <= bits < 13 && FromDigits(ds) == a / Pow2(bits)
    ensures FromDigits(ds + [FiveAbove(a % U32, bits - 5)]) == a / Pow2(bits - 5)
  {
    var d := (a % U32) / Pow2(bits - 5) % 32;
    FiveBits(a, bits - 5);
    PowSum(bits - 5, 5);
    SmallPowers();
    DivTwice(a, Pow2(bits - 5), 32);
    SpellNext(ds, d);
  }

  /** One more byte, on the way back. */
  lemma ByteStep(a: nat, bits: nat, out: seq<byte>)
    requires 8 <= bits < 13 && FromBigEndian(out) == a / Pow2(bits)
    ensures FromBigEndian(out + [EightAbove(a % U32, bits - 8)]) == a / Pow2(bits - 8)
  {
    var b := (a % U32) / Pow2(bits - 8) % 256;
    EightBits(a, bits - 8);
    PowSum(bits - 8, 8);
    SmallPowers();
    DivTwice(a, Pow2(bits - 8), 256);
    ByteNext(out, b);
  }

  /** The last character holds what is left, then zeros. */
  lemma LastDigit(a: nat, bits: nat, ds: seq<Digit>)
    requires 0 < bits < 5 && FromDigits(ds) == a / Pow2(bits)
    ensures FromDigits(ds + [FiveBelow(a % U32, 5 - bits)]) == a * Pow2(5 - bits)
  {
    var q, s := Pow2(bits), Pow2(5 - bits);
    SmallPowers();
    assert q * s == 32;
    var m, v := a % U32, a % q;
    LowBits(m * s, 32, 0x800_0000);
    LastBits(a, q, s, 0x800_0000);
    SpellNext(ds, m * s % U32 % 32);
  }

  lemma LastBits(a: nat, q: nat, s: nat, t: nat)
    requires q > 0 && q * s == 32 && 32 * t == U32
    ensures (a % U32) * s % 32 + a / q * 32 == a * s
  {
    var v, e := (a % q) * s, (a % U32) * s;
    Upper(a, q, s);
    DivisionIs(a * s, 32, a / q, v);
    Wrapped(a, s, t);
    DivisionIs(a * s, 32, (a / U32) * t * s + e / 32, e % 32);
  }

  lemma Upper(a: nat, q: nat, s: nat)
    requires q > 0 && q * s > 0
    ensures a * s == (a / q) * (q * s) + (a % q) * s && (a % q) * s < q * s
  {
    assert a * s == ((a / q) * q) * s + (a % q) * s;
    assert ((a / q) * q) * s == (a / q) * (q * s);
    assert s > 0;
    assert (a % q) * s <= (q - 1) * s == q * s - s;
  }

  lemma Wrapped(a: nat, s: nat, t: nat)
    requires 32 * t == U32
    ensures a * s == ((a / U32) * t * s + (a % U32) * s / 32) * 32 + (a % U32) * s % 32
  {
    var k, m := a / U32, a % U32;
    assert a * s == (k * (32 * t)) * s + m * s;
    assert (k * (32 * t)) * s == (k * t * s) * 32;
  }

  /** What the buffer keeps of the bits so far, and what stands above the last few. */
  function Kept(a: nat): nat { a % U32 }

  ghost function Above(a: nat, bits: nat): int { a / Pow2(bits) }

  /** Bits shifted in go under what is there already. */
  lemma TakeIn(a: nat, k: nat, m: nat, x: nat, bits: nat)
    requires m == Pow2(k) && x < m
    ensures Shifted(Kept(a), m, x) == Kept(a * m + x) && Above(a * m + x, bits + k) == Above(a, bits)
  {
    ShiftedIs(a, m, x);
    NewLowBits(a, x, k, m, bits);
  }

  lemma DigitOut(a: nat, bits: nat, ds: seq<Digit>)
    requires 5 <= bits < 13 && FromDigits(ds) == Above(a, bits)
    ensures FromDigits(ds + [FiveAbove(Kept(a), bits - 5)]) == Above(a, bits - 5)
  {
    DigitStep(a, bits, ds);
  }

  lemma LastOut(a: nat, bits: nat, ds: seq<Digit>)
    requires 0 < bits < 5 && FromDigits(ds) == Above(a, bits)
    ensures FromDigits(ds + [FiveBelow(Kept(a), 5 - bits)]) == a * Pow2(5 - bits)
  {
    LastDigit(a, bits, ds);
  }

  lemma NoBitsAbove(a: nat)
    ensures Above(a, 0) == a && Kept(0) == 0 && Above(0, 0) == 0
  {
  }

  lemma ByteOut(a: nat, bits: nat, out: seq<byte>)
    requires 8 <= bits < 13 && FromBigEndian(out) == Above(a, bits)
    ensures FromBigEndian(out + [EightAbove(Kept(a), bits - 8)]) == Above(a, bits - 8)
  {
    ByteStep(a, bits, out);
  }

  /** The text of some bytes. */
  ghost predicate IsTextOf(text: string, bytes: seq<byte>) {
    exists ds: seq<Digit> :: text == Spell(ds) && Encodes(bytes, ds)
  }

  method Encode(bytes: seq<byte>) returns (text: string)
    ensures IsTextOf(text, bytes)
  {
    ghost var ds: seq<Digit>;
    SmallPowers();
    hide FromBigEndian, FromDigits, Pow2, Spell, Letter, Shifted, FiveAbove, FiveBelow, Kept, Above;
    text, ds := "", [];
    var buffer: nat, bits: nat := 0, 0;
    var i := 0;
    ghost var a: nat := 0;
    Nothing();
    NoBitsAbove(0);
    while i < |bytes|
      invariant 0 <= i <= |bytes| && bits < 5 && 5 * |ds| + bits == 8 * i && text == Spell(ds)
      invariant a == FromBigEndian(bytes[..i]) && buffer == Kept(a) && FromDigits(ds) == Above(a, bits)
    {
      TakeIn(a, 8, 256, bytes[i], bits);
      ByteNext(bytes[..i], bytes[i]);
      assert bytes[..i + 1] == bytes[..i] + [bytes[i]];
      buffer := Shifted(buffer, 256, bytes[i]);
      a := a * 256 + bytes[i];
      bits := bits + 8;
      i := i + 1;
      while bits >= 5
        invariant bits < 13 && 5 * |ds| + bits == 8 * i && text == Spell(ds)
        invariant FromDigits(ds) == Above(a, bits)
      {
        var d := FiveAbove(buffer, bits - 5);
        DigitOut(a, bits, ds);
        SpellNext(ds, d);
        text, ds := text + [Letter(d)], ds + [d];
        bits := bits - 5;
      }
    }
    assert bytes[..i] == bytes;
    NoBitsAbove(a);
    if bits > 0 {
      var d := FiveBelow(buffer, 5 - bits);
      LastOut(a, bits, ds);
      SpellNext(ds, d);
      text, ds := text + [Letter(d)], ds + [d];
    }
    PaddingIs(|bytes|, bits);
    assert Encodes(bytes, ds);
  }

  lemma PaddingIs(n: nat, bits: nat)
    requires bits < 5 && 8 * n % 5 == bits
    ensures Padding(n) == if bits == 0 then 0 else 5 - bits
  {
  }

  lemma Nothing()
    ensures FromBigEndian([]) == 0 && FromDigits([]) == 0 && Spell([]) == "" && Pow2(0) == 1
  {
  }

  /** The digits that decode: no superfluous last one, and only zero bits left over. */
  ghost predicate Decodable(ds: seq<Digit>) {
    var left := 5 * |ds| % 8;
    left < 5 && FromDigits(ds) % Pow2(left) == 0
  }

  method Decode(text: string) returns (r: Option<seq<byte>>)
    ensures r.Some? ==> IsTextOf(text, r.value)
    ensures r.None? ==> forall b :: !IsTextOf(text, b)
  {
    ghost var ds: seq<Digit> := [];
    SmallPowers();
    hide FromBigEndian, FromDigits, Pow2, Spell, Letter, Encodes, Decodable, Shifted, EightAbove, Kept, Above;
    var out: seq<byte> := [];
    var buffer: nat, bits: nat := 0, 0;
    var i := 0;
    ghost var a: nat := 0;
    Nothing();
    NoBitsAbove(0);
    while i < |text|
      invariant 0 <= i <= |text| && bits < 8 && 8 * |out| + bits == 5 * i
      invariant |ds| == i && text[..i] == Spell(ds)
      invariant a == FromDigits(ds) && buffer == Kept(a) && FromBigEndian(out) == Above(a, bits)
    {
      var index := IndexOf(text[i]);
      if index.None? {
        NotSpelled(text, i);
        return None;
      }
      TakeIn(a, 5, 32, index.value, bits);
      SpellNext(ds, index.value);
      assert text[..i + 1] == text[..i] + [text[i]];
      ds := ds + [index.value];
      buffer := Shifted(buffer, 32, index.value);
      a := a * 32 + index.value;
      bits := bits + 5;
      i := i + 1;
      if bits >= 8 {
        var b := EightAbove(buffer, bits - 8);
        ByteOut(a, bits, out);
        out := out + [b];
        bits := bits - 8;
      }
    }
    assert text[..i] == text;
    LeftOver(ds, out, bits);
    if bits >= 5 || (bits > 0 && buffer % Pow2(bits) != 0) {
      Undecodable(text, ds);
      return None;
    }
    r := Some(out);
  }

  /** What the last check decides. */
  lemma LeftOver(ds: seq<Digit>, out: seq<byte>, bits: nat)
    requires bits < 8 && 8 * |out| + bits == 5 * |ds| && FromBigEndian(out) == Above(FromDigits(ds), bits)
    ensures Decodable(ds) <==> bits < 5 && (bits == 0 || Kept(FromDigits(ds)) % Pow2(bits) == 0)
    ensures Decodable(ds) ==> Encodes(out, ds)
  {
    hide FromBigEndian, FromDigits, Pow2;
    Counted(|ds|, |out|, bits);
    LowKept(FromDigits(ds), bits);
  }

  lemma LowKept(a: nat, k: nat)
    requires k <= 7
    ensures (k == 0 || (a % U32) % Pow2(k) == 0) <==> a % Pow2(k) == 0
    ensures a % Pow2(k) == 0 ==> a == a / Pow2(k) * Pow2(k)
  {
    Divides(k);
    LowBits(a, Pow2(k), U32 / Pow2(k));
    if a % Pow2(k) == 0 { ExactQuotient(a, Pow2(k)); }
  }

  lemma Divides(k: nat)
    requires k <= 7
    ensures Pow2(k) * (U32 / Pow2(k)) == U32
  {
    SmallPowers();
  }

  lemma Counted(digits: nat, bytes: nat, bits: nat)
    requires bits < 8 && 8 * bytes + bits == 5 * digits
    ensures 5 * digits % 8 == bits && (bits < 5 ==> Padding(bytes) == bits)
  {
    DivisionIs(5 * digits, 8, bytes, bits);
    if bits == 0 {
      DivisionIs(8 * bytes, 5, digits, 0);
    } else if bits < 5 {
      DivisionIs(8 * bytes, 5, digits - 1, 5 - bits);
    }
  }

  lemma ExactQuotient(a: nat, p: nat)
    requires p > 0 && a % p == 0
    ensures a == a / p * p
  {
  }

  lemma NotSpelled(text: string, i: nat)
    requires i < |text| && forall d: Digit {:trigger Letter(d)} :: Letter(d) != text[i]
    ensures forall b :: !IsTextOf(text, b)
  {
    forall b, es | Encodes(b, es) ensures text != Spell(es) {
      if |es| == |text| { assert Spell(es)[i] == Letter(es[i]); }
    }
  }

  lemma EncodesDecodable(b: seq<byte>, ds: seq<Digit>)
    requires Encodes(b, ds)
    ensures Decodable(ds) && 5 * |ds| / 8 == |b| && 5 * |ds| % 8 == Padding(|b|)
  {
    PaddingFits(|b|, |ds|);
    hide FromDigits, FromBigEndian, Padding, Pow2;
    DivisionIs(FromDigits(ds), Pow2(Padding(|b|)), FromBigEndian(b), 0);
  }

  lemma PaddingFits(n: nat, digits: nat)
    requires 5 * digits == 8 * n + Padding(n)
    ensures 5 * digits / 8 == n && 5 * digits % 8 == Padding(n)
  {
    hide Padding;
  }

  lemma Undecodable(text: string, ds: seq<Digit>)
    requires text == Spell(ds) && !Decodable(ds)
    ensures forall b :: !IsTextOf(text, b)
  {
    forall b, es | Encodes(b, es) ensures text != Spell(es) {
      EncodesDecodable(b, es);
      if text == Spell(es) { SpellUnique(ds, es); }
    }
  }

  lemma EncodesIsOneToOne(b: seq<byte>, ds: seq<Digit>, c: seq<byte>, es: seq<Digit>)
    requires Encodes(b, ds) && Encodes(c, es)
    ensures b == c <==> ds == es
  {
    if ds == es {
      EncodesDecodable(b, ds);
      EncodesDecodable(c, es);
      var m := Pow2(Padding(|b|));
      DivisionIs(FromDigits(ds), m, FromBigEndian(b), 0);
      DivisionIs(FromDigits(ds), m, FromBigEndian(c), 0);
      BytesUnique(b, c);
    }
    if b == c { DigitsUnique(ds, es); }
  }

  /** A text spells at most one byte string, and a byte string has one text. */
  lemma OneTextEach(b: seq<byte>, t: string, c: seq<byte>, u: string)
    requires IsTextOf(t, b) && IsTextOf(u, c)
    ensures b == c <==> t == u
  {
    var ds :| t == Spell(ds) && Encodes(b, ds);
    var es :| u == Spell(es) && Encodes(c, es);
    hide Encodes, Spell;
    EncodesIsOneToOne(b, ds, c, es);
    if t == u { SpellUnique(ds, es); }
  }

  /** Bytes of every length come back from their text. */
  method BytesRoundTrip(bytes: seq<byte>) returns (text: string, back: Option<seq<byte>>)
    ensures IsTextOf(text, bytes) && back == Some(bytes)
  {
    hide IsTextOf;
    text := Encode(bytes);
    back := Decode(text);
    if back.Some? { OneTextEach(bytes, text, back.value, text); }
  }

  /** A text that decodes is the text of its bytes. */
  method TextRoundTrip(text: string) returns (bytes: Option<seq<byte>>, back: string)
    ensures bytes.Some? ==> back == text
    ensures bytes.None? ==> forall b :: !IsTextOf(text, b)
  {
    hide IsTextOf;
    bytes := Decode(text);
    back := "";
    if bytes.Some? {
      back := Encode(bytes.value);
      OneTextEach(bytes.value, text, bytes.value, back);
    }
  }

  // ---- examples (section 10 of RFC 4648) ----------------------------------------------

  /** Section 6's alphabet, lower case. */
  lemma Alphabet(d: Digit)
    ensures Letter(d) == "abcdefghijklmnopqrstuvwxyz234567"[d]
  {
  }

  lemma SpelledOut(bytes: seq<byte>, ds: seq<Digit>, text: string)
    requires Encodes(bytes, ds) && |text| == |ds|
    requires forall i :: 0 <= i < |ds| ==> text[i] == "abcdefghijklmnopqrstuvwxyz234567"[ds[i]]
    ensures IsTextOf(text, bytes)
  {
    forall i | 0 <= i < |ds| ensures text[i] == Letter(ds[i]) { Alphabet(ds[i]); }
    assert text == Spell(ds);
  }

  lemma DigitsOf(ds: seq<Digit>)
    ensures var t: seq<nat> := ds;
      && (|ds| == 2 ==> FromDigits(ds) == t[0] * 32 + t[1])
      && (|ds| == 4 ==> FromDigits(ds) == t[0] * 32768 + t[1] * 1024 + t[2] * 32 + t[3])
  {
    if |ds| == 2 {
      assert FromDigits(ds[..1]) == FromDigits(ds[..1][..0]) * 32 + ds[0];
    } else if |ds| == 4 {
      DigitsOf(ds[..2]);
      assert ds[..3][..2] == ds[..2];
      assert FromDigits(ds[..3]) == FromDigits(ds[..2]) * 32 + ds[2];
    }
  }

  /** The text of "f". */
  lemma OneByteExample()
    ensures IsTextOf("my", [0x66])
  {
    var bytes: seq<byte>, ds: seq<Digit> := [0x66], [12, 24];
    DigitsOf(ds);
    SmallPowers();
    assert bytes[..0] == [] && FromBigEndian(bytes) == FromBigEndian([]) * 256 + 0x66;
    hide FromDigits, FromBigEndian, Pow2, Letter, Spell;
    SpelledOut(bytes, ds, "my");
  }

  /** The text of "fo". */
  lemma TwoByteExample()
    ensures IsTextOf("mzxq", [0x66, 0x6f])
  {
    DigitsOf([12, 25, 23, 16]);
    SmallPowers();
    var bytes: seq<byte> := [0x66, 0x6f];
    assert bytes[..1] == [0x66];
    assert FromBigEndian([0x66]) == FromBigEndian([]) * 256 + 0x66;
    assert FromBigEndian(bytes) == FromBigEndian(bytes[..1]) * 256 + 0x6f;
    hide FromDigits, FromBigEndian, Pow2, Letter, Spell;
    SpelledOut(bytes, [12, 25, 23, 16], "mzxq");
  }
}
