/** The strict decoder. It accepts exactly the canonical encodings: what it returns is a
    canonical value whose encoding is what it read, and where it refuses, the bytes do not
    begin with the encoding of any canonical value. */
module DcborDecode {
  import opened DcborSpec
  import opened Options

  /** The bytes s stand in data at position p. */
  predicate At(data: seq<byte>, p: nat, s: seq<byte>) { p <= |data| && s <= data[p..] }

  /** They take the decoder from p to q. */
  predicate Read(data: seq<byte>, p: nat, s: seq<byte>, q: nat) { At(data, p, s) && q == p + |s| }

  // ---- what stands at a position ------------------------------------------------------

  lemma AtSplit(data: seq<byte>, p: nat, a: seq<byte>, b: seq<byte>)
    ensures At(data, p, a + b) <==> At(data, p, a) && At(data, p + |a|, b)
  {
    if At(data, p, a + b) {
      assert a == (a + b)[..|a|] && b == (a + b)[|a|..];
      assert data[p..][..|a + b|] == a + b;
      assert data[p + |a|..] == data[p..][|a|..];
    }
    if At(data, p, a) && At(data, p + |a|, b) {
      assert data[p + |a|..] == data[p..][|a|..];
      assert data[p..][..|a|] == a;
    }
  }

  lemma AtRest(data: seq<byte>, p: nat, s: seq<byte>)
    requires At(data, p, s)
    ensures p + |s| <= |data| && data[p..] == s + data[p + |s|..]
  {
  }

  lemma HeadAtUnique(data: seq<byte>, p: nat, m: Major, a: u64, m': Major, a': u64)
    requires At(data, p, Head(m, a)) && At(data, p, Head(m', a'))
    ensures m == m' && a == a'
  {
    AtRest(data, p, Head(m, a));
    AtRest(data, p, Head(m', a'));
    HeadUnique(m, a, data[p + |Head(m, a)|..], m', a', data[p + |Head(m', a')|..]);
  }

  lemma ItemsAt(data: seq<byte>, p: nat, vs: seq<Value>, q: nat, ws: seq<Value>)
    requires |vs| <= |ws|
    requires forall i :: 0 <= i < |vs| ==> Sized(vs[i])
    requires forall i :: 0 <= i < |ws| ==> Sized(ws[i])
    requires Read(data, p, EncItems(vs), q) && At(data, p, EncItems(ws))
    ensures vs == ws[..|vs|] && At(data, q, EncItems(ws[|vs|..]))
  {
    hide EncItems, Sized;
    AtRest(data, p, EncItems(vs));
    AtRest(data, p, EncItems(ws));
    var x, y := data[q..], data[p + |EncItems(ws)|..];
    ItemsPrefixFree(vs, x, ws, y);
    RestIsAt(data, q, EncItems(ws[|vs|..]), y);
  }

  lemma RestIsAt(data: seq<byte>, q: nat, s: seq<byte>, rest: seq<byte>)
    requires q <= |data| && data[q..] == s + rest
    ensures At(data, q, s)
  {
  }

  lemma EntriesAt(data: seq<byte>, p: nat, vs: seq<Entry>, q: nat, ws: seq<Entry>)
    requires |vs| <= |ws|
    requires forall i :: 0 <= i < |vs| ==> |vs[i].key| < U64 && Sized(vs[i].value)
    requires forall i :: 0 <= i < |ws| ==> |ws[i].key| < U64 && Sized(ws[i].value)
    requires Read(data, p, EncEntries(vs), q) && At(data, p, EncEntries(ws))
    ensures vs == ws[..|vs|] && At(data, q, EncEntries(ws[|vs|..]))
  {
    hide EncEntries, Sized;
    AtRest(data, p, EncEntries(vs));
    AtRest(data, p, EncEntries(ws));
    var x, y := data[q..], data[p + |EncEntries(ws)|..];
    EntriesPrefixFree(vs, x, ws, y);
    RestIsAt(data, q, EncEntries(ws[|vs|..]), y);
  }

  lemma {:induction false} AppendItem(vs: seq<Value>, v: Value)
    requires Sized(v) && forall i :: 0 <= i < |vs| ==> Sized(vs[i])
    ensures EncItems(vs + [v]) == EncItems(vs) + Enc(v)
  {
    if vs != [] {
      AppendItem(vs[1..], v);
      assert (vs + [v])[1..] == vs[1..] + [v];
      Associative(Enc(vs[0]), EncItems(vs[1..]), Enc(v));
    }
  }

  lemma {:induction false} AppendEntry(es: seq<Entry>, e: Entry)
    requires |e.key| < U64 && Sized(e.value)
    requires forall i :: 0 <= i < |es| ==> |es[i].key| < U64 && Sized(es[i].value)
    ensures EncEntries(es + [e]) == EncEntries(es) + (EncText(e.key) + Enc(e.value))
  {
    if es == [] {
      assert EncEntries([e]) == EncText(e.key) + (Enc(e.value) + []);
    } else {
      AppendEntry(es[1..], e);
      assert (es + [e])[1..] == es[1..] + [e];
      hide Enc, EncText;
      var k, v, t, u := EncText(es[0].key), Enc(es[0].value), EncEntries(es[1..]), EncText(e.key) + Enc(e.value);
      assert EncEntries(es) == k + (v + t) && EncEntries(es + [e]) == k + (v + (t + u));
      Associative(v, t, u);
      Associative(k, v + t, u);
    }
  }

  /** Every item takes at least one byte, and every entry too. */
  lemma {:induction false} ItemsTakeRoom(vs: seq<Value>)
    requires forall i :: 0 <= i < |vs| ==> Sized(vs[i])
    ensures |EncItems(vs)| >= |vs|
  {
    if vs != [] {
      FirstByte(vs[0]);
      ItemsTakeRoom(vs[1..]);
    }
  }

  lemma {:induction false} EntriesTakeRoom(es: seq<Entry>)
    requires forall i :: 0 <= i < |es| ==> |es[i].key| < U64 && Sized(es[i].value)
    ensures |EncEntries(es)| >= |es|
  {
    if es != [] {
      FirstByte(es[0].value);
      EntriesTakeRoom(es[1..]);
    }
  }

  // ---- what a refusal says ------------------------------------------------------------

  ghost predicate NoHead(data: seq<byte>, p: nat) {
    forall m: Major, a: u64 {:trigger Head(m, a)} :: !At(data, p, Head(m, a))
  }

  /** No head whose argument could count what is left of the input. */
  ghost predicate NoCount(data: seq<byte>, p: nat) {
    forall m: Major, a: u64 {:trigger Head(m, a)} :: At(data, p, Head(m, a)) ==> p + |Head(m, a)| + a > |data|
  }

  ghost predicate NoInt(data: seq<byte>, p: nat) {
    forall i: i64 {:trigger EncInt(i)} :: !At(data, p, EncInt(i))
  }

  ghost predicate NoText(data: seq<byte>, p: nat) {
    forall s: seq<byte> {:trigger EncText(s)} :: |s| < U64 && Utf8(s) ==> !At(data, p, EncText(s))
  }

  /** data at p does not begin with a canonical value for that depth. */
  ghost predicate NoValue(data: seq<byte>, p: nat, depth: nat) {
    forall w {:trigger Canonical(w, depth)} :: Sized(w) && Canonical(w, depth) ==> !At(data, p, Enc(w))
  }

  ghost predicate Follows(prev: Option<seq<byte>>, key: seq<byte>) {
    prev.Some? ==> Less(prev.value, key)
  }

  ghost predicate NoEntry(data: seq<byte>, p: nat, depth: nat, prev: Option<seq<byte>>) {
    forall s: seq<byte>, w {:trigger EncText(s), Canonical(w, depth)} ::
      |s| < U64 && Utf8(s) && Follows(prev, EncText(s)) && Sized(w) && Canonical(w, depth)
      ==> !At(data, p, EncText(s) + Enc(w))
  }

  lemma FirstByteAt(data: seq<byte>, p: nat, w: Value)
    requires Sized(w) && At(data, p, Enc(w))
    ensures p < |data| && data[p] / 32 == MajorOf(w) && (w.Null? ==> data[p] == 0xf6)
  {
    FirstByte(w);
    hide Enc;
    assert data[p..][0] == data[p] == Enc(w)[0];
  }

  lemma NoValueAtEnd(data: seq<byte>, p: nat, depth: nat)
    requires p >= |data|
    ensures NoValue(data, p, depth)
  {
    forall w | Sized(w) && Canonical(w, depth) ensures !At(data, p, Enc(w)) {
      FirstByte(w);
    }
  }

  lemma NoInteger(data: seq<byte>, p: nat, depth: nat)
    requires p < |data| && data[p] / 32 <= 1 && NoHead(data, p)
    ensures NoValue(data, p, depth)
  {
    forall w | Sized(w) && Canonical(w, depth) ensures !At(data, p, Enc(w)) {
      if At(data, p, Enc(w)) {
        FirstByteAt(data, p, w);
      }
    }
  }

  /** The count of a string, array or map is at most what is left, so without one there
      is none of them. */
  lemma CountFits(data: seq<byte>, p: nat, w: Value)
    requires Sized(w) && At(data, p, Enc(w)) && 2 <= MajorOf(w) <= 5
    ensures exists a: u64 :: At(data, p, Head(MajorOf(w), a)) && p + |Head(MajorOf(w), a)| + a <= |data|
  {
    var m := MajorOf(w);
    match w
    case Text(s) =>
      AtSplit(data, p, Head(m, |s|), s);
      assert At(data, p, Head(m, |s|)) && p + |Head(m, |s|)| + |s| <= |data|;
    case Bytes(s) =>
      AtSplit(data, p, Head(m, |s|), s);
      assert At(data, p, Head(m, |s|)) && p + |Head(m, |s|)| + |s| <= |data|;
    case Array(vs) =>
      AtSplit(data, p, Head(m, |vs|), EncItems(vs));
      ItemsTakeRoom(vs);
      assert At(data, p, Head(m, |vs|)) && p + |Head(m, |vs|)| + |vs| <= |data|;
    case Map(es) =>
      AtSplit(data, p, Head(m, |es|), EncEntries(es));
      EntriesTakeRoom(es);
      assert At(data, p, Head(m, |es|)) && p + |Head(m, |es|)| + |es| <= |data|;
  }

  lemma NoCounted(data: seq<byte>, p: nat, depth: nat)
    requires p < |data| && 2 <= data[p] / 32 <= 5 && NoCount(data, p)
    ensures NoValue(data, p, depth)
  {
    forall w | Sized(w) && Canonical(w, depth) ensures !At(data, p, Enc(w)) {
      if At(data, p, Enc(w)) {
        FirstByteAt(data, p, w);
        CountFits(data, p, w);
      }
    }
  }

  lemma CountFitsText(data: seq<byte>, p: nat, s: seq<byte>)
    requires |s| < U64 && At(data, p, EncText(s))
    ensures !NoCount(data, p)
  {
    AtSplit(data, p, Head(3, |s|), s);
    assert At(data, p, Head(3, |s|)) && p + |Head(3, |s|)| + |s| <= |data|;
  }

  lemma NoTextHere(data: seq<byte>, p: nat, raw: seq<byte>)
    requires |raw| < U64 && At(data, p, EncText(raw)) && !Utf8(raw)
    ensures NoText(data, p)
  {
    forall s: seq<byte> | |s| < U64 && Utf8(s) ensures !At(data, p, EncText(s)) {
      if At(data, p, EncText(s)) {
        TextAtUnique(data, p, s, raw);
      }
    }
  }

  lemma TextAtUnique(data: seq<byte>, p: nat, s: seq<byte>, t: seq<byte>)
    requires |s| < U64 && |t| < U64 && At(data, p, EncText(s)) && At(data, p, EncText(t))
    ensures s == t
  {
    hide EncText;
    AtRest(data, p, EncText(s));
    AtRest(data, p, EncText(t));
    TextUnique(s, data[p + |EncText(s)|..], t, data[p + |EncText(t)|..]);
  }

  lemma NoTextValue(data: seq<byte>, p: nat, depth: nat)
    requires p < |data| && data[p] / 32 == 3 && NoText(data, p)
    ensures NoValue(data, p, depth)
  {
    forall w | Sized(w) && Canonical(w, depth) ensures !At(data, p, Enc(w)) {
      if At(data, p, Enc(w)) {
        FirstByteAt(data, p, w);
      }
    }
  }

  lemma NotText(data: seq<byte>, p: nat)
    requires p >= |data| || data[p] / 32 != 3 || NoCount(data, p)
    ensures NoText(data, p)
  {
    forall s: seq<byte> | |s| < U64 && Utf8(s) ensures !At(data, p, EncText(s)) {
      if At(data, p, EncText(s)) {
        FirstByteAt(data, p, Text(s));
        CountFitsText(data, p, s);
      }
    }
  }

  /** A container too deep. */
  lemma TooDeep(data: seq<byte>, p: nat, depth: nat)
    requires p < |data| && 4 <= data[p] / 32 <= 6 && depth >= MAX_DEPTH
    ensures NoValue(data, p, depth)
  {
    forall w | Sized(w) && Canonical(w, depth) ensures !At(data, p, Enc(w)) {
      if At(data, p, Enc(w)) {
        FirstByteAt(data, p, w);
      }
    }
  }

  lemma NotNull(data: seq<byte>, p: nat, depth: nat)
    requires p < |data| && data[p] / 32 == 7 && data[p] != 0xf6
    ensures NoValue(data, p, depth)
  {
    forall w | Sized(w) && Canonical(w, depth) ensures !At(data, p, Enc(w)) {
      if At(data, p, Enc(w)) {
        FirstByteAt(data, p, w);
      }
    }
  }

  /** An array whose next item is none. */
  lemma NoItem(data: seq<byte>, p: nat, depth: nat, n: u64, p': nat, vs: seq<Value>, q: nat)
    requires Read(data, p, Head(4, n), p') && |vs| < n
    requires forall i :: 0 <= i < |vs| ==> Sized(vs[i])
    requires Read(data, p', EncItems(vs), q) && NoValue(data, q, depth + 1)
    ensures NoValue(data, p, depth)
  {
    hide EncItems, Enc, Head;
    forall w | Sized(w) && Canonical(w, depth) ensures !At(data, p, Enc(w)) {
      if At(data, p, Enc(w)) {
        HeadKind(data, p, 4, n, w);
        var ws := w.items;
        ArraySplit(data, p, ws);
        HeadAtUnique(data, p, 4, n, 4, |ws|);
        ItemsAt(data, p', vs, q, ws);
        assert Canonical(ws[|vs|], depth + 1);
        NextItemAt(data, q, ws[|vs|..]);
      }
    }
  }

  lemma NextItemAt(data: seq<byte>, q: nat, rest: seq<Value>)
    requires rest != [] && forall i :: 0 <= i < |rest| ==> Sized(rest[i])
    requires At(data, q, EncItems(rest))
    ensures At(data, q, Enc(rest[0]))
  {
    AtSplit(data, q, Enc(rest[0]), EncItems(rest[1..]));
  }

  lemma HeadKind(data: seq<byte>, p: nat, m: Major, n: u64, w: Value)
    requires At(data, p, Head(m, n)) && Sized(w) && At(data, p, Enc(w))
    ensures MajorOf(w) == m
  {
    FirstByteAt(data, p, w);
    assert data[p..][0] == data[p] == Head(m, n)[0];
  }

  lemma ArraySplit(data: seq<byte>, p: nat, ws: seq<Value>)
    requires Sized(Array(ws)) && At(data, p, Enc(Array(ws)))
    ensures At(data, p, Head(4, |ws|)) && At(data, p + |Head(4, |ws|)|, EncItems(ws))
  {
    AtSplit(data, p, Head(4, |ws|), EncItems(ws));
  }

  lemma MapSplit(data: seq<byte>, p: nat, ws: seq<Entry>)
    requires Sized(Map(ws)) && At(data, p, Enc(Map(ws)))
    ensures At(data, p, Head(5, |ws|)) && At(data, p + |Head(5, |ws|)|, EncEntries(ws))
  {
    AtSplit(data, p, Head(5, |ws|), EncEntries(ws));
  }

  ghost function LastKey(es: seq<Entry>): Option<seq<byte>>
    requires forall i :: 0 <= i < |es| ==> |es[i].key| < U64
  {
    if es == [] then None else Some(EncText(es[|es| - 1].key))
  }

  /** A map whose next entry is none, or out of order. */
  lemma NoNextEntry(data: seq<byte>, p: nat, depth: nat, n: u64, p': nat, es: seq<Entry>, q: nat)
    requires Read(data, p, Head(5, n), p') && |es| < n
    requires forall i :: 0 <= i < |es| ==> |es[i].key| < U64 && Sized(es[i].value)
    requires Read(data, p', EncEntries(es), q) && NoEntry(data, q, depth + 1, LastKey(es))
    ensures NoValue(data, p, depth)
  {
    hide EncEntries, Enc, Head, EncText;
    forall w | Sized(w) && Canonical(w, depth) ensures !At(data, p, Enc(w)) {
      if At(data, p, Enc(w)) {
        HeadKind(data, p, 5, n, w);
        var ws := w.entries;
        MapSplit(data, p, ws);
        HeadAtUnique(data, p, 5, n, 5, |ws|);
        EntriesAt(data, p', es, q, ws);
        var e := ws[|es|];
        assert Follows(LastKey(es), EncText(e.key)) by {
          if |es| > 0 { assert es[|es| - 1] == ws[|es| - 1]; }
        }
        assert Canonical(e.value, depth + 1);
        NextEntryAt(data, q, ws[|es|..]);
      }
    }
  }

  lemma NextEntryAt(data: seq<byte>, q: nat, rest: seq<Entry>)
    requires rest != [] && forall i :: 0 <= i < |rest| ==> |rest[i].key| < U64 && Sized(rest[i].value)
    requires At(data, q, EncEntries(rest))
    ensures At(data, q, EncText(rest[0].key) + Enc(rest[0].value))
  {
    var k, v, t := EncText(rest[0].key), Enc(rest[0].value), EncEntries(rest[1..]);
    Associative(k, v, t);
    AtSplit(data, q, k + v, t);
  }

  lemma NoKeyHere(data: seq<byte>, q: nat, depth: nat, prev: Option<seq<byte>>)
    requires NoText(data, q)
    ensures NoEntry(data, q, depth, prev)
  {
    hide EncText, Enc;
    forall s: seq<byte>, w |
      |s| < U64 && Utf8(s) && Follows(prev, EncText(s)) && Sized(w) && Canonical(w, depth)
      ensures !At(data, q, EncText(s) + Enc(w))
    {
      AtSplit(data, q, EncText(s), Enc(w));
    }
  }

  lemma KeyOutOfOrder(data: seq<byte>, q: nat, depth: nat, prev: Option<seq<byte>>, key: seq<byte>)
    requires |key| < U64 && At(data, q, EncText(key)) && !Follows(prev, EncText(key))
    ensures NoEntry(data, q, depth, prev)
  {
    hide EncText, Enc;
    forall s: seq<byte>, w |
      |s| < U64 && Utf8(s) && Follows(prev, EncText(s)) && Sized(w) && Canonical(w, depth)
      ensures !At(data, q, EncText(s) + Enc(w))
    {
      AtSplit(data, q, EncText(s), Enc(w));
      if At(data, q, EncText(s)) { TextAtUnique(data, q, s, key); }
    }
  }

  lemma NoValueForKey(data: seq<byte>, q: nat, depth: nat, prev: Option<seq<byte>>, key: seq<byte>, q': nat)
    requires |key| < U64 && Read(data, q, EncText(key), q') && NoValue(data, q', depth)
    ensures NoEntry(data, q, depth, prev)
  {
    hide EncText, Enc;
    forall s: seq<byte>, w |
      |s| < U64 && Utf8(s) && Follows(prev, EncText(s)) && Sized(w) && Canonical(w, depth)
      ensures !At(data, q, EncText(s) + Enc(w))
    {
      AtSplit(data, q, EncText(s), Enc(w));
      if At(data, q, EncText(s)) { TextAtUnique(data, q, s, key); }
    }
  }

  // ---- heads --------------------------------------------------------------------------

  /** The four wide forms of a head: additional information, bytes, least argument. */
  predicate WideForm(info: nat, k: nat, least: nat) {
    || (info == 24 && k == 1 && least == 24)
    || (info == 25 && k == 2 && least == 0x100)
    || (info == 26 && k == 4 && least == 0x1_0000)
    || (info == 27 && k == 8 && least == 0x1_0000_0000)
  }

  lemma WideHead(data: seq<byte>, p: nat, info: nat, k: nat, least: nat)
    requires WideForm(info, k, least) && p + 1 + k <= |data| && data[p] % 32 == info
    ensures FromBigEndian(data[p + 1..p + 1 + k]) < U64
    ensures FromBigEndian(data[p + 1..p + 1 + k]) >= least
            ==> Read(data, p, Head(data[p] / 32, FromBigEndian(data[p + 1..p + 1 + k])), p + 1 + k)
  {
    var b := data[p + 1..p + 1 + k];
    FromBigEndianBack(b);
    Pow256Values();
    if FromBigEndian(b) >= least {
      assert Head(data[p] / 32, FromBigEndian(b)) == [data[p]] + b == data[p..p + 1 + k];
    }
  }

  lemma WideHeadOnly(data: seq<byte>, p: nat, info: nat, k: nat, least: nat, m: Major, a: u64)
    requires WideForm(info, k, least) && p < |data| && data[p] % 32 == info
    requires At(data, p, Head(m, a))
    ensures p + 1 + k <= |data| && FromBigEndian(data[p + 1..p + 1 + k]) == a >= least
  {
    assert data[p..][0] == data[p] == Head(m, a)[0];
    assert Info(a) == info && ExtraBytes(a) == k;
    assert data[p..][..1 + k] == Head(m, a);
    assert data[p + 1..p + 1 + k] == Head(m, a)[1..] == BigEndian(a, k);
    ExtraHolds(a);
    BigEndianBack(a, k);
  }

  lemma NoWideHead(data: seq<byte>, p: nat, info: nat, k: nat, least: nat)
    requires WideForm(info, k, least) && p < |data| && data[p] % 32 == info
    requires p + 1 + k <= |data| ==> FromBigEndian(data[p + 1..p + 1 + k]) < least
    ensures NoHead(data, p)
  {
    forall m: Major, a: u64 ensures !At(data, p, Head(m, a)) {
      if At(data, p, Head(m, a)) { WideHeadOnly(data, p, info, k, least, m, a); }
    }
  }

  lemma HeadByte(data: seq<byte>, p: nat, m: Major, a: u64)
    requires At(data, p, Head(m, a))
    ensures p < |data| && data[p] / 32 == m && data[p] % 32 == Info(a) < 28
  {
    assert data[p..][0] == data[p] == Head(m, a)[0];
  }

  lemma ReservedHead(data: seq<byte>, p: nat)
    requires p < |data| && data[p] % 32 >= 28
    ensures NoHead(data, p)
  {
    forall m: Major, a: u64 ensures !At(data, p, Head(m, a)) {
      if At(data, p, Head(m, a)) { HeadByte(data, p, m, a); }
    }
  }

  lemma CountTooLarge(data: seq<byte>, p: nat, m: Major, n: u64)
    requires At(data, p, Head(m, n)) && p + |Head(m, n)| + n > |data|
    ensures NoCount(data, p)
  {
    forall m': Major, a: u64 | At(data, p, Head(m', a)) ensures p + |Head(m', a)| + a > |data| {
      HeadAtUnique(data, p, m, n, m', a);
    }
  }

  // ---- decimal fractions --------------------------------------------------------------

  lemma NoIntHere(data: seq<byte>, p: nat)
    requires p >= |data| || data[p] / 32 > 1 || NoHead(data, p)
    ensures NoInt(data, p)
  {
    forall i: i64 ensures !At(data, p, EncInt(i)) {
      if At(data, p, EncInt(i)) {
        HeadByte(data, p, if i < 0 then 1 else 0, if i < 0 then -(i + 1) else i);
      }
    }
  }

  lemma IntOutOfRange(data: seq<byte>, p: nat, m: Major, a: u64)
    requires At(data, p, Head(m, a)) && a >= I64
    ensures NoInt(data, p)
  {
    forall i: i64 ensures !At(data, p, EncInt(i)) {
      if At(data, p, EncInt(i)) {
        HeadAtUnique(data, p, m, a, if i < 0 then 1 else 0, if i < 0 then -(i + 1) else i);
      }
    }
  }

  lemma IntAtUnique(data: seq<byte>, p: nat, i: i64, j: i64)
    requires At(data, p, EncInt(i)) && At(data, p, EncInt(j))
    ensures i == j
  {
    hide EncInt;
    AtRest(data, p, EncInt(i));
    AtRest(data, p, EncInt(j));
    IntUnique(i, data[p + |EncInt(i)|..], j, data[p + |EncInt(j)|..]);
  }

  /** The four pieces of a decimal fraction, each where the one before it ends. */
  lemma DecimalSplit(data: seq<byte>, p: nat, e: i64, m: i64)
    ensures At(data, p, Enc(Decimal(e, m))) <==>
            && At(data, p, Head(6, 4)) && At(data, p + 1, Head(4, 2))
            && At(data, p + 2, EncInt(e)) && At(data, p + 2 + |EncInt(e)|, EncInt(m))
  {
    hide EncInt, At;
    AtSplit(data, p, Head(6, 4), Head(4, 2) + (EncInt(e) + EncInt(m)));
    AtSplit(data, p + 1, Head(4, 2), EncInt(e) + EncInt(m));
    AtSplit(data, p + 2, EncInt(e), EncInt(m));
  }

  lemma NotTagFour(data: seq<byte>, p: nat, depth: nat, tag: Option<u64>)
    requires p < |data| && data[p] / 32 == 6 && tag != Some(4)
    requires if tag.None? then NoHead(data, p) else At(data, p, Head(6, tag.value))
    ensures NoValue(data, p, depth)
  {
    hide Enc, At;
    forall w | Sized(w) && Canonical(w, depth) ensures !At(data, p, Enc(w)) {
      if At(data, p, Enc(w)) {
        FirstByteAt(data, p, w);
        DecimalSplit(data, p, w.exponent, w.mantissa);
        if tag.Some? { HeadAtUnique(data, p, 6, 4, 6, tag.value); }
      }
    }
  }

  lemma NotPair(data: seq<byte>, q: nat, n: Option<u64>)
    requires q >= |data| || data[q] / 32 != 4
             || (n != Some(2) && if n.None? then NoCount(data, q) else At(data, q, Head(4, n.value)))
    ensures NoCount(data, q) || !At(data, q, Head(4, 2))
  {
    if At(data, q, Head(4, 2)) {
      HeadByte(data, q, 4, 2);
      if n.Some? && At(data, q, Head(4, n.value)) { HeadAtUnique(data, q, 4, 2, 4, n.value); }
    }
  }

  lemma NoPair(data: seq<byte>, p: nat, depth: nat, q: nat, n: Option<u64>)
    requires Read(data, p, Head(6, 4), q)
    requires q >= |data| || data[q] / 32 != 4
             || (n != Some(2) && if n.None? then NoCount(data, q) else At(data, q, Head(4, n.value)))
    ensures NoValue(data, p, depth)
  {
    hide Enc, EncInt;
    NotPair(data, q, n);
    forall w | Sized(w) && Canonical(w, depth) ensures !At(data, p, Enc(w)) {
      if At(data, p, Enc(w)) {
        HeadKind(data, p, 6, 4, w);
        DecimalSplit(data, p, w.exponent, w.mantissa);
        IntTakesRoom(w.exponent);
        IntTakesRoom(w.mantissa);
      }
    }
  }

  lemma IntTakesRoom(i: i64)
    ensures |EncInt(i)| >= 1
  {
  }

  lemma NoExponent(data: seq<byte>, p: nat, depth: nat, q: nat, q1: nat)
    requires Read(data, p, Head(6, 4), q) && Read(data, q, Head(4, 2), q1) && NoInt(data, q1)
    ensures NoValue(data, p, depth)
  {
    forall w | Sized(w) && Canonical(w, depth) ensures !At(data, p, Enc(w)) {
      if At(data, p, Enc(w)) {
        HeadKind(data, p, 6, 4, w);
        DecimalSplit(data, p, w.exponent, w.mantissa);
      }
    }
  }

  lemma NoMantissa(data: seq<byte>, p: nat, depth: nat, q: nat, q1: nat, e: i64, q2: nat)
    requires Read(data, p, Head(6, 4), q) && Read(data, q, Head(4, 2), q1)
    requires Read(data, q1, EncInt(e), q2) && NoInt(data, q2)
    ensures NoValue(data, p, depth)
  {
    hide Enc, EncInt, At;
    forall w | Sized(w) && Canonical(w, depth) ensures !At(data, p, Enc(w)) {
      if At(data, p, Enc(w)) {
        HeadKind(data, p, 6, 4, w);
        DecimalSplit(data, p, w.exponent, w.mantissa);
        IntAtUnique(data, q1, e, w.exponent);
      }
    }
  }

  lemma DecimalRead(data: seq<byte>, p: nat, q: nat, q1: nat, e: i64, q2: nat, m: i64, q3: nat)
    requires Read(data, p, Head(6, 4), q) && Read(data, q, Head(4, 2), q1)
    requires Read(data, q1, EncInt(e), q2) && Read(data, q2, EncInt(m), q3)
    ensures Read(data, p, Enc(Decimal(e, m)), q3)
  {
    DecimalSplit(data, p, e, m);
    DecimalLength(e, m);
    hide Enc, EncInt, At;
  }

  lemma DecimalLength(e: i64, m: i64)
    ensures |Enc(Decimal(e, m))| == 2 + |EncInt(e)| + |EncInt(m)|
  {
    hide EncInt;
  }

  lemma NotCanonical(data: seq<byte>, p: nat, depth: nat, e: i64, m: i64)
    requires At(data, p, Enc(Decimal(e, m))) && !CanonicalDecimal(e, m)
    ensures NoValue(data, p, depth)
  {
    hide Enc;
    forall w | Sized(w) && Canonical(w, depth) ensures !At(data, p, Enc(w)) {
      if At(data, p, Enc(w)) { ValueAtUnique(data, p, Decimal(e, m), w); }
    }
  }

  lemma ValueAtUnique(data: seq<byte>, p: nat, v: Value, w: Value)
    requires Sized(v) && Sized(w) && At(data, p, Enc(v)) && At(data, p, Enc(w))
    ensures v == w
  {
    hide Enc;
    AtRest(data, p, Enc(v));
    AtRest(data, p, Enc(w));
    PrefixFree(v, data[p + |Enc(v)|..], w, data[p + |Enc(w)|..]);
  }

  // ---- steps of the two loops ---------------------------------------------------------

  ghost predicate GoodItems(vs: seq<Value>, level: nat) {
    forall i :: 0 <= i < |vs| ==> Sized(vs[i]) && Canonical(vs[i], level)
  }

  ghost predicate GoodEntries(es: seq<Entry>, level: nat) {
    forall i :: 0 <= i < |es| ==> |es[i].key| < U64 && Utf8(es[i].key) && Sized(es[i].value) && Canonical(es[i].value, level)
  }

  lemma NothingRead(data: seq<byte>, p: nat)
    requires p <= |data|
    ensures Read(data, p, EncItems([]), p) && Read(data, p, EncEntries([]), p)
  {
  }

  lemma ItemRead(data: seq<byte>, p: nat, vs: seq<Value>, q: nat, v: Value, q': nat)
    requires Sized(v) && forall i :: 0 <= i < |vs| ==> Sized(vs[i])
    requires Read(data, p, EncItems(vs), q) && Read(data, q, Enc(v), q')
    ensures Read(data, p, EncItems(vs + [v]), q')
  {
    hide EncItems, Enc;
    AppendItem(vs, v);
    AtSplit(data, p, EncItems(vs), Enc(v));
  }

  lemma ArrayRead(data: seq<byte>, p: nat, p': nat, vs: seq<Value>, q: nat, depth: nat)
    requires |vs| < U64 && depth < MAX_DEPTH && GoodItems(vs, depth + 1)
    requires Read(data, p, Head(4, |vs|), p') && Read(data, p', EncItems(vs), q)
    ensures Sized(Array(vs)) && Canonical(Array(vs), depth) && Read(data, p, Enc(Array(vs)), q)
  {
    AtSplit(data, p, Head(4, |vs|), EncItems(vs));
  }

  lemma EntryRead(data: seq<byte>, p: nat, es: seq<Entry>, q: nat, key: seq<byte>, q': nat, v: Value, q'': nat, level: nat)
    requires GoodEntries(es, level) && KeysAscend(es)
    requires |key| < U64 && Utf8(key) && Sized(v) && Canonical(v, level) && Follows(LastKey(es), EncText(key))
    requires Read(data, p, EncEntries(es), q) && Read(data, q, EncText(key), q') && Read(data, q', Enc(v), q'')
    ensures GoodEntries(es + [Entry(key, v)], level) && KeysAscend(es + [Entry(key, v)])
    ensures Read(data, p, EncEntries(es + [Entry(key, v)]), q'')
  {
    hide EncEntries, Enc, EncText;
    AppendEntry(es, Entry(key, v));
    AtSplit(data, q, EncText(key), Enc(v));
    AtSplit(data, p, EncEntries(es), EncText(key) + Enc(v));
  }

  lemma MapRead(data: seq<byte>, p: nat, p': nat, es: seq<Entry>, q: nat, depth: nat)
    requires |es| < U64 && depth < MAX_DEPTH && GoodEntries(es, depth + 1) && KeysAscend(es)
    requires Read(data, p, Head(5, |es|), p') && Read(data, p', EncEntries(es), q)
    ensures Sized(Map(es)) && Canonical(Map(es), depth) && Read(data, p, Enc(Map(es)), q)
  {
    AtSplit(data, p, Head(5, |es|), EncEntries(es));
  }

  // ---- whole inputs -------------------------------------------------------------------

  lemma NotWhole(b: seq<byte>)
    requires NoValue(b, 0, 0)
    ensures forall v {:trigger Canonical(v, 0)} :: Sized(v) && Canonical(v, 0) ==> b != Enc(v)
  {
    hide Enc;
    forall v | Sized(v) && Canonical(v, 0) ensures b != Enc(v) {
      assert b[0..] == b;
    }
  }

  lemma Trailing(b: seq<byte>, v: Value)
    requires Sized(v) && At(b, 0, Enc(v)) && |Enc(v)| != |b|
    ensures forall w {:trigger Canonical(w, 0)} :: Sized(w) && Canonical(w, 0) ==> b != Enc(w)
  {
    hide Enc;
    forall w | Sized(w) && Canonical(w, 0) ensures b != Enc(w) {
      assert b[0..] == b;
      if b == Enc(w) { ValueAtUnique(b, 0, v, w); }
    }
  }
}
