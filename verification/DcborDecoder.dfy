/** The decoder itself: a position advancing through the input. Errors carry an offset
    and a text that are not modelled; every one of them is None here. */
module DcborDecoder {
  import opened DcborSpec
  import opened DcborDecode
  import opened DcborProfile
  import opened Options

  class Decoder {
    const data: seq<byte>
    var pos: nat

    ghost predicate Valid()
      reads this
    {
      pos <= |data|
    }

    constructor (data: seq<byte>)
      ensures Valid() && this.data == data && pos == 0
    {
      this.data := data;
      pos := 0;
    }

    method Take(n: nat) returns (r: Option<seq<byte>>)
      requires Valid()
      modifies this
      ensures Valid()
      ensures r.None? <==> |data| - old(pos) < n
      ensures r.None? ==> pos == old(pos)
      ensures r.Some? ==> pos == old(pos) + n && r.value == data[old(pos)..pos]
    {
      if |data| - pos < n {
        return None;
      }
      r := Some(data[pos..pos + n]);
      pos := pos + n;
    }

    /** One of the wide forms of Argument. */
    method Wide(info: nat, k: nat, least: nat) returns (r: Option<u64>)
      requires Valid() && 0 < pos && data[pos - 1] % 32 == info && WideForm(info, k, least)
      modifies this
      ensures Valid() && old(pos) <= pos
      ensures r.Some? ==> Read(data, old(pos) - 1, Head(data[old(pos) - 1] / 32, r.value), pos)
      ensures r.None? ==> NoHead(data, old(pos) - 1)
    {
      ghost var p := pos - 1;
      var b := Take(k);
      if b.None? {
        NoWideHead(data, p, info, k, least);
        return None;
      }
      var v := FromBigEndian(b.value);
      WideHead(data, p, info, k, least);
      if v < least {
        NoWideHead(data, p, info, k, least);
        return None;
      }
      r := Some(v);
    }

    method Argument(ai: nat) returns (r: Option<u64>)
      requires Valid() && 0 < pos && data[pos - 1] % 32 == ai
      modifies this
      ensures Valid() && old(pos) <= pos
      ensures r.Some? ==> Read(data, old(pos) - 1, Head(data[old(pos) - 1] / 32, r.value), pos)
      ensures r.None? ==> NoHead(data, old(pos) - 1)
    {
      if ai < 24 {
        assert data[pos - 1..][..1] == [data[pos - 1]];
        r := Some(ai);
      } else if ai == 24 {
        r := Wide(ai, 1, 24);
      } else if ai == 25 {
        r := Wide(ai, 2, 0x100);
      } else if ai == 26 {
        r := Wide(ai, 4, 0x1_0000);
      } else if ai == 27 {
        r := Wide(ai, 8, 0x1_0000_0000);
      } else {
        ReservedHead(data, pos - 1);
        r := None;
      }
    }

    method Count(ai: nat) returns (r: Option<u64>)
      requires Valid() && 0 < pos && data[pos - 1] % 32 == ai
      modifies this
      ensures Valid() && old(pos) <= pos
      ensures r.Some? ==> Read(data, old(pos) - 1, Head(data[old(pos) - 1] / 32, r.value), pos)
      ensures r.Some? ==> r.value <= |data| - pos
      ensures r.None? ==> NoCount(data, old(pos) - 1)
    {
      if ai == 31 {
        ReservedHead(data, pos - 1);
        return None;
      }
      ghost var p := pos - 1;
      r := Argument(ai);
      if r.Some? && r.value > |data| - pos {
        CountTooLarge(data, p, data[p] / 32, r.value);
        return None;
      }
    }

    method StringPayload(ai: nat) returns (r: Option<seq<byte>>)
      requires Valid() && 0 < pos && data[pos - 1] % 32 == ai
      modifies this
      ensures Valid() && old(pos) <= pos
      ensures r.Some? ==>
                && |r.value| < U64
                && Read(data, old(pos) - 1, Head(data[old(pos) - 1] / 32, |r.value|) + r.value, pos)
      ensures r.None? ==> NoCount(data, old(pos) - 1)
    {
      ghost var p := pos - 1;
      var n := Count(ai);
      if n.None? {
        return None;
      }
      var raw := data[pos..pos + n.value];
      AtSplit(data, p, Head(data[p] / 32, n.value), raw);
      pos := pos + n.value;
      r := Some(raw);
    }

    /** A map key, with its encoding. */
    method TextKey() returns (r: Option<(seq<byte>, seq<byte>)>)
      requires Valid()
      modifies this
      ensures Valid() && old(pos) <= pos
      ensures r.Some? ==>
                && |r.value.0| < U64 && Utf8(r.value.0) && r.value.1 == EncText(r.value.0)
                && Read(data, old(pos), EncText(r.value.0), pos)
      ensures r.None? ==> NoText(data, old(pos))
    {
      ghost var p := pos;
      var start := pos;
      if pos >= |data| {
        NotText(data, p);
        return None;
      }
      var ib := data[pos];
      pos := pos + 1;
      if ib / 32 != 3 {
        NotText(data, p);
        return None;
      }
      var raw := StringPayload(ib % 32);
      if raw.None? {
        NotText(data, p);
        return None;
      }
      if !Utf8(raw.value) {
        NoTextHere(data, p, raw.value);
        return None;
      }
      assert data[start..pos] == EncText(raw.value);
      r := Some((raw.value, data[start..pos]));
    }

    method DecimalInt() returns (r: Option<i64>)
      requires Valid()
      modifies this
      ensures Valid() && old(pos) <= pos
      ensures r.Some? ==> Read(data, old(pos), EncInt(r.value), pos)
      ensures r.None? ==> NoInt(data, old(pos))
    {
      ghost var p := pos;
      if pos >= |data| {
        NoIntHere(data, p);
        return None;
      }
      var ib := data[pos];
      pos := pos + 1;
      var major := ib / 32;
      if major != 0 && major != 1 {
        NoIntHere(data, p);
        return None;
      }
      var arg := Argument(ib % 32);
      if arg.None? {
        NoIntHere(data, p);
        return None;
      }
      if arg.value > I64 - 1 {
        IntOutOfRange(data, p, major, arg.value);
        return None;
      }
      r := Some(if major == 1 then -1 - arg.value else arg.value);
    }

    method TagValue(ai: nat, depth: nat) returns (r: Option<Value>)
      requires Valid() && 0 < pos && data[pos - 1] % 32 == ai && data[pos - 1] / 32 == 6
      modifies this
      ensures Valid() && old(pos) <= pos
      ensures r.Some? ==> Canonical(r.value, depth) && Sized(r.value) && Read(data, old(pos) - 1, Enc(r.value), pos)
      ensures r.None? ==> NoValue(data, old(pos) - 1, depth)
    {
      hide Enc, EncInt, NoValue, NoInt, NoHead, NoCount, At;
      ghost var p := pos - 1;
      var tag := Argument(ai);
      if tag.None? || tag.value != 4 {
        NotTagFour(data, p, depth, tag);
        return None;
      }
      if depth + 1 > MAX_DEPTH {
        TooDeep(data, p, depth);
        return None;
      }
      ghost var q := pos;
      if pos >= |data| {
        NoPair(data, p, depth, q, None);
        return None;
      }
      var ib := data[pos];
      pos := pos + 1;
      if ib / 32 != 4 {
        NoPair(data, p, depth, q, None);
        return None;
      }
      var n := Count(ib % 32);
      if n.None? || n.value != 2 {
        NoPair(data, p, depth, q, n);
        return None;
      }
      ghost var q1 := pos;
      var exponent := DecimalInt();
      if exponent.None? {
        NoExponent(data, p, depth, q, q1);
        return None;
      }
      ghost var q2 := pos;
      var mantissa := DecimalInt();
      if mantissa.None? {
        NoMantissa(data, p, depth, q, q1, exponent.value, q2);
        return None;
      }
      DecimalRead(data, p, q, q1, exponent.value, q2, mantissa.value, pos);
      if !CanonicalDecimal(exponent.value, mantissa.value) {
        NotCanonical(data, p, depth, exponent.value, mantissa.value);
        return None;
      }
      r := Some(Decimal(exponent.value, mantissa.value));
    }

    method MapValue(ai: nat, depth: nat) returns (r: Option<Value>)
      requires Valid() && 0 < pos && data[pos - 1] % 32 == ai && data[pos - 1] / 32 == 5
      modifies this
      ensures Valid() && old(pos) <= pos
      ensures r.Some? ==> Canonical(r.value, depth) && Sized(r.value) && Read(data, old(pos) - 1, Enc(r.value), pos)
      ensures r.Some? ==> r.value.Map? && InOrder(r.value.entries)
      ensures r.None? ==> NoValue(data, old(pos) - 1, depth)
      decreases |data| - pos, 1
    {
      hide Enc, EncEntries, Head, EncText, Read, At, NoValue, NoCount, NoText, InOrder;
      ghost var p := pos - 1;
      var level := depth + 1;
      if level > MAX_DEPTH {
        TooDeep(data, p, depth);
        return None;
      }
      var n := Count(ai);
      if n.None? {
        NoCounted(data, p, depth);
        return None;
      }
      ghost var p' := pos;
      var m: seq<Entry>, prevKey: Option<seq<byte>> := [], None;
      NothingRead(data, p');
      while |m| < n.value
        invariant Valid() && old(pos) <= pos && |m| <= n.value
        invariant GoodEntries(m, level) && KeysAscend(m) && prevKey == LastKey(m)
        invariant Read(data, p', EncEntries(m), pos)
      {
        ghost var q := pos;
        var key := TextKey();
        if key.None? {
          NoKeyHere(data, q, level, prevKey);
          NoNextEntry(data, p, depth, n.value, p', m, q);
          return None;
        }
        if prevKey.Some? && !Less(prevKey.value, key.value.1) {
          KeyOutOfOrder(data, q, level, prevKey, key.value.0);
          NoNextEntry(data, p, depth, n.value, p', m, q);
          return None;
        }
        ghost var q' := pos;
        var val := DecodeValue(level);
        if val.None? {
          NoValueForKey(data, q, level, prevKey, key.value.0, q');
          NoNextEntry(data, p, depth, n.value, p', m, q);
          return None;
        }
        EntryRead(data, p', m, q, key.value.0, q', val.value, pos, level);
        m, prevKey := m + [Entry(key.value.0, val.value)], Some(key.value.1);
      }
      MapRead(data, p, p', m, pos, depth);
      OrderMeaning(m);
      r := Some(Map(m));
    }

    method ArrayValue(ai: nat, depth: nat) returns (r: Option<Value>)
      requires Valid() && 0 < pos && data[pos - 1] % 32 == ai && data[pos - 1] / 32 == 4
      modifies this
      ensures Valid() && old(pos) <= pos
      ensures r.Some? ==> Canonical(r.value, depth) && Sized(r.value) && Read(data, old(pos) - 1, Enc(r.value), pos)
      ensures r.None? ==> NoValue(data, old(pos) - 1, depth)
      decreases |data| - pos, 1
    {
      hide Enc, EncItems, Head, Read, At, NoValue, NoCount;
      ghost var p := pos - 1;
      var level := depth + 1;
      if level > MAX_DEPTH {
        TooDeep(data, p, depth);
        return None;
      }
      var n := Count(ai);
      if n.None? {
        NoCounted(data, p, depth);
        return None;
      }
      ghost var p' := pos;
      var arr: seq<Value> := [];
      NothingRead(data, p');
      while |arr| < n.value
        invariant Valid() && old(pos) <= pos && |arr| <= n.value
        invariant GoodItems(arr, level)
        invariant Read(data, p', EncItems(arr), pos)
      {
        ghost var q := pos;
        var item := DecodeValue(level);
        if item.None? {
          NoItem(data, p, depth, n.value, p', arr, q);
          return None;
        }
        ItemRead(data, p', arr, q, item.value, pos);
        arr := arr + [item.value];
      }
      ArrayRead(data, p, p', arr, pos, depth);
      r := Some(Array(arr));
    }

    /** Only null is inside the profile. */
    method Simple(ai: nat, depth: nat) returns (r: Option<Value>)
      requires Valid() && 0 < pos && data[pos - 1] % 32 == ai && data[pos - 1] / 32 == 7
      ensures r.Some? ==> Canonical(r.value, depth) && Sized(r.value) && Read(data, pos - 1, Enc(r.value), pos)
      ensures r.None? ==> NoValue(data, pos - 1, depth)
    {
      if ai == 22 {
        assert data[pos - 1..][..1] == [data[pos - 1]] == [0xf6];
        r := Some(Null);
      } else {
        NotNull(data, pos - 1, depth);
        r := None;
      }
    }

    method DecodeValue(depth: nat) returns (r: Option<Value>)
      requires Valid()
      modifies this
      ensures Valid() && old(pos) <= pos
      ensures r.Some? ==> Canonical(r.value, depth) && Sized(r.value) && Read(data, old(pos), Enc(r.value), pos)
      ensures r.None? ==> NoValue(data, old(pos), depth)
      decreases |data| - pos, 0
    {
      hide NoValue, NoHead, NoCount;
      if pos >= |data| {
        NoValueAtEnd(data, pos, depth);
        return None;
      }
      var ib := data[pos];
      pos := pos + 1;
      var major, ai := ib / 32, ib % 32;
      match major
      case 0 =>
        var arg := Argument(ai);
        if arg.None? {
          NoInteger(data, old(pos), depth);
          return None;
        }
        r := Some(Uint(arg.value));
      case 1 =>
        var arg := Argument(ai);
        if arg.None? {
          NoInteger(data, old(pos), depth);
          return None;
        }
        r := Some(Neg(arg.value));
      case 2 =>
        var raw := StringPayload(ai);
        if raw.None? {
          NoCounted(data, old(pos), depth);
          return None;
        }
        r := Some(Bytes(raw.value));
      case 3 =>
        var raw := StringPayload(ai);
        if raw.None? {
          NoCounted(data, old(pos), depth);
          return None;
        }
        if !Utf8(raw.value) {
          NoTextHere(data, old(pos), raw.value);
          NoTextValue(data, old(pos), depth);
          return None;
        }
        r := Some(Text(raw.value));
      case 4 => r := ArrayValue(ai, depth);
      case 5 => r := MapValue(ai, depth);
      case 6 => r := TagValue(ai, depth);
      case _ => r := Simple(ai, depth);
    }
  }

  // ---- the entry points ---------------------------------------------------------------

  /** Exactly the encodings of the values inside the profile decode, each to its own. */
  method Decode(b: seq<byte>) returns (r: Option<Value>)
    ensures r.Some? ==> Canonical(r.value, 0) && Sized(r.value) && b == Enc(r.value)
    ensures r.None? ==> forall v {:trigger Canonical(v, 0)} :: Sized(v) && Canonical(v, 0) ==> b != Enc(v)
    ensures r.Some? ==> InProfile(r.value, 0)
    ensures r.None? ==> forall v :: InProfile(v, 0) ==> Sized(v) && b != Enc(v)
  {
    var d := new Decoder(b);
    r := d.DecodeValue(0);
    if r.None? {
      NotWhole(b);
    } else if d.pos != |b| {
      Trailing(b, r.value);
      r := None;
    } else {
      assert b[0..] == b == b[0..][..d.pos];
    }
    hide Enc, Canonical, InProfile, Sized;
    if r.Some? {
      CanonicalMeaning(r.value, 0);
    } else {
      forall v | InProfile(v, 0) ensures Sized(v) && b != Enc(v) {
        CanonicalMeaning(v, 0);
        CanonicalSized(v, 0);
      }
    }
  }

  /** The one canonical value b begins with, and how many bytes it takes. */
  method DecodePrefix(b: seq<byte>) returns (r: Option<(Value, nat)>)
    ensures r.Some? ==>
              && Canonical(r.value.0, 0) && Sized(r.value.0)
              && r.value.1 == |Enc(r.value.0)| && Enc(r.value.0) <= b
    ensures r.None? ==> NoValue(b, 0, 0)
  {
    var d := new Decoder(b);
    var v := d.DecodeValue(0);
    if v.None? {
      return None;
    }
    assert b[0..] == b;
    r := Some((v.value, d.pos));
  }
}
