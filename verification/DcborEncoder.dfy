/** The encoder: what it writes is the encoding of the value's normal form, and it refuses
    exactly the values the profile has no encoding for. With the decoder, both round trips. */
module DcborEncoder {
  import opened DcborSpec
  import Sorting
  import opened DcborOrder
  import opened DcborDecode
  import opened DcborProfile
  import opened Rearrangement
  import DcborDecoder
  import opened Options

  // ---- what the map loop writes -------------------------------------------------------

  lemma NormalMembers(s: seq<Entry>, t: seq<Entry>)
    requires forall i :: 0 <= i < |s| ==> |s[i].key| < U64 && Sized(s[i].value)
    requires forall i :: 0 <= i < |t| ==> |t[i].key| < U64 && Sized(t[i].value)
    requires forall e :: e in s ==> e in t
    ensures forall e :: e in NormalEntries(s) ==> e in NormalEntries(t)
  {
    hide Normal, Sized;
    forall e | e in NormalEntries(s) ensures e in NormalEntries(t) {
      var i :| 0 <= i < |s| && NormalEntries(s)[i] == e;
      assert s[i] in t;
      var j :| 0 <= j < |t| && t[j] == s[i];
      assert NormalEntries(t)[j] == e;
    }
  }

  lemma NormalKeepsKeys(s: seq<Entry>)
    requires forall i :: 0 <= i < |s| ==> |s[i].key| < U64 && Sized(s[i].value)
    ensures |NormalEntries(s)| == |s| && (KeysAscend(s) ==> KeysAscend(NormalEntries(s)))
    ensures DistinctKeys(s) ==> DistinctKeys(NormalEntries(s))
  {
    hide Normal, Sized, EncText, Less;
  }

  /** A reordering of a map that can be encoded is one too. */
  lemma ReorderedSized(entries: seq<Entry>, s: seq<Entry>)
    requires Sized(Map(entries)) && multiset(s) == multiset(entries)
    ensures Sized(Map(s))
  {
    Sorting.SameElements(s, entries);
    forall i | 0 <= i < |s| ensures |s[i].key| < U64 && Sized(s[i].value) { assert s[i] in entries; }
  }

  /** The canonical order of a map's entries is the order of their keys alone. */
  lemma SortedEntriesAreNormal(entries: seq<Entry>, s: seq<Entry>)
    requires Sized(Map(entries)) && multiset(s) == multiset(entries)
    requires KeysFit(s) && KeysAscend(s)
    ensures Sized(Map(s)) && Normal(Map(entries)) == Map(NormalEntries(s))
  {
    ReorderedSized(entries, s);
    NormalKeepsKeys(s);
    NormalKeepsKeys(entries);
    AscendIsDistinct(s);
    DistinctSurvivesReordering(s, entries);
    Sorting.SameElements(s, entries);
    NormalMembers(s, entries);
    NormalMembers(entries, s);
    hide Normal, Sort, NormalEntries, KeysAscend, DistinctKeys;
    SortAscends(NormalEntries(entries));
    Sorting.SameElements(Sort(NormalEntries(entries)), NormalEntries(entries));
    AscendingIsUnique(Sort(NormalEntries(entries)), NormalEntries(s));
    NormalMap(entries);
  }

  /** A reordering keeps what every entry has. */
  lemma EntriesKeep(entries: seq<Entry>, s: seq<Entry>, level: nat)
    requires Fits(Map(entries)) && multiset(s) == multiset(entries)
    ensures |s| == |entries| && Fits(Map(s))
    ensures (forall i :: 0 <= i < |s| ==> Utf8(s[i].key) && Encodable(s[i].value, level))
       <==> (forall i :: 0 <= i < |entries| ==> Utf8(entries[i].key) && Encodable(entries[i].value, level))
  {
    Sorting.SameElements(s, entries);
    assert forall i :: 0 <= i < |s| ==> s[i] in entries;
    assert forall i :: 0 <= i < |entries| ==> entries[i] in s;
  }

  /** The first i entries can be written. */
  ghost predicate EntriesGood(s: seq<Entry>, i: nat, level: nat)
    requires i <= |s|
  {
    forall k :: 0 <= k < i ==>
      && |s[k].key| < U64 && Fits(s[k].value) && Encodable(s[k].value, level)
      && Sized(s[k].value) && Sized(Normal(s[k].value))
  }

  /** What they come to. */
  ghost function EntriesWritten(s: seq<Entry>, i: nat, level: nat): seq<byte>
    requires i <= |s| && EntriesGood(s, i, level)
  {
    EncEntries(NormalEntries(s[..i]))
  }

  lemma EntryWritten(s: seq<Entry>, i: nat, level: nat)
    requires i < |s| && EntriesGood(s, i, level) && EntriesGood(s, i + 1, level)
    ensures EntriesWritten(s, i + 1, level)
         == EntriesWritten(s, i, level) + EncText(s[i].key) + Enc(Normal(s[i].value))
  {
    var e := Entry(s[i].key, Normal(s[i].value));
    assert NormalEntries(s[..i + 1]) == NormalEntries(s[..i]) + [e];
    AppendEntry(NormalEntries(s[..i]), e);
    Associative(EncEntries(NormalEntries(s[..i])), EncText(e.key), Enc(e.value));
  }

  ghost function NormalItems(vs: seq<Value>): seq<Value>
    requires forall i :: 0 <= i < |vs| ==> Sized(vs[i])
  {
    seq(|vs|, i requires 0 <= i < |vs| => Normal(vs[i]))
  }

  ghost predicate ItemsGood(vs: seq<Value>, i: nat, level: nat)
    requires i <= |vs|
  {
    forall k :: 0 <= k < i ==>
      Fits(vs[k]) && Encodable(vs[k], level) && Sized(vs[k]) && Sized(Normal(vs[k]))
  }

  ghost function ItemsWritten(vs: seq<Value>, i: nat, level: nat): seq<byte>
    requires i <= |vs| && ItemsGood(vs, i, level)
  {
    EncItems(NormalItems(vs[..i]))
  }

  lemma ItemWritten(vs: seq<Value>, i: nat, level: nat)
    requires i < |vs| && ItemsGood(vs, i, level) && ItemsGood(vs, i + 1, level)
    ensures ItemsWritten(vs, i + 1, level) == ItemsWritten(vs, i, level) + Enc(Normal(vs[i]))
  {
    assert NormalItems(vs[..i + 1]) == NormalItems(vs[..i]) + [Normal(vs[i])];
    AppendItem(NormalItems(vs[..i]), Normal(vs[i]));
  }

  lemma ArrayWritten(vs: seq<Value>, level: nat)
    requires Fits(Array(vs)) && 0 < level <= MAX_DEPTH && ItemsGood(vs, |vs|, level)
    ensures Encodable(Array(vs), level - 1) && Sized(Array(vs)) && Sized(Normal(Array(vs)))
    ensures Enc(Normal(Array(vs))) == Head(4, |vs|) + ItemsWritten(vs, |vs|, level)
  {
    assert vs[..|vs|] == vs;
    assert Normal(Array(vs)) == Array(NormalItems(vs));
  }

  lemma NothingWritten(vs: seq<Value>, es: seq<Entry>, level: nat)
    ensures ItemsGood(vs, 0, level) && ItemsWritten(vs, 0, level) == []
    ensures EntriesGood(es, 0, level) && EntriesWritten(es, 0, level) == []
  {
  }

  lemma NormalOfPlain(v: Value)
    ensures Sized(v) && !v.Array? && !v.Map? ==> Normal(v) == v
  {
  }

  // ---- the encoder --------------------------------------------------------------------

  class Encoder {
    var buf: seq<byte>

    constructor ()
      ensures buf == []
    {
      buf := [];
    }

    method WriteHead(major: Major, arg: u64)
      modifies this
      ensures buf == old(buf) + Head(major, arg)
    {
      if arg < 24 {
        buf := buf + [major * 32 + arg];
      } else if arg <= 0xff {
        buf := buf + [major * 32 + 24];
        assert BigEndian(arg, 1) == [arg];
        buf := buf + [arg];
      } else if arg <= 0xffff {
        buf := buf + [major * 32 + 25];
        buf := buf + BigEndian(arg, 2);
      } else if arg <= 0xffff_ffff {
        buf := buf + [major * 32 + 26];
        buf := buf + BigEndian(arg, 4);
      } else {
        buf := buf + [major * 32 + 27];
        buf := buf + BigEndian(arg, 8);
      }
    }

    method WriteInt(i: i64)
      modifies this
      ensures buf == old(buf) + EncInt(i)
    {
      match IntValue(i)
      case Uint(n) => WriteHead(0, n);
      case Neg(n) => WriteHead(1, n);
    }

    method EncodeValue(v: Value, depth: nat) returns (ok: bool)
      requires Fits(v)
      modifies this
      ensures ok <==> Encodable(v, depth)
      ensures ok ==> Sized(v) && Sized(Normal(v)) && buf == old(buf) + Enc(Normal(v))
      decreases v, 1
    {
      ok := true;
      hide Head, Normal, Utf8, CanonicalDecimal, EncItems, EncEntries, EncInt, DistinctKeys;
      NormalOfPlain(v);
      match v
      case Uint(n) => WriteHead(0, n);
      case Neg(n) => WriteHead(1, n);
      case Decimal(e, m) =>
        if !CanonicalDecimal(e, m) || depth + 1 > MAX_DEPTH {
          return false;
        }
        WriteHead(6, 4);
        WriteHead(4, 2);
        WriteInt(e);
        WriteInt(m);
        DecimalSpread(e, m, []);
      case Text(s) =>
        if !Utf8(s) {
          return false;
        }
        WriteHead(3, |s|);
        buf := buf + s;
      case Bytes(s) =>
        WriteHead(2, |s|);
        buf := buf + s;
      case Array(items) => ok := EncodeArray(items, depth);
      case Map(entries) => ok := EncodeMap(entries, depth);
      case Null => buf := buf + [0xf6];
      case Nil => return false;
    }

    method EncodeArray(items: seq<Value>, depth: nat) returns (ok: bool)
      requires Fits(Array(items))
      modifies this
      ensures ok <==> Encodable(Array(items), depth)
      ensures ok ==> Sized(Array(items)) && Sized(Normal(Array(items))) && buf == old(buf) + Enc(Normal(Array(items)))
      decreases items, 0
    {
      var level := depth + 1;
      if level > MAX_DEPTH {
        return false;
      }
      hide Enc, EncItems, Head, Sized, Normal, ItemsWritten;
      WriteHead(4, |items|);
      ghost var before := buf;
      NothingWritten(items, [], level);
      var i := 0;
      while i < |items|
        invariant 0 <= i <= |items|
        invariant ItemsGood(items, i, level) && buf == before + ItemsWritten(items, i, level)
      {
        ok := EncodeValue(items[i], level);
        if !ok {
          return;
        }
        ItemWritten(items, i, level);
        Associative(before, ItemsWritten(items, i, level), Enc(Normal(items[i])));
        i := i + 1;
      }
      ArrayWritten(items, level);
      Associative(old(buf), Head(4, |items|), ItemsWritten(items, i, level));
      ok := true;
    }

    method EncodeMap(entries: seq<Entry>, depth: nat) returns (ok: bool)
      requires Fits(Map(entries))
      modifies this
      ensures ok <==> Encodable(Map(entries), depth)
      ensures ok ==> Sized(Map(entries)) && Sized(Normal(Map(entries))) && buf == old(buf) + Enc(Normal(Map(entries)))
      ensures ok ==> Normal(Map(entries)).Map? && InOrder(Normal(Map(entries)).entries)
      decreases entries, 1
    {
      var level := depth + 1;
      if level > MAX_DEPTH {
        return false;
      }
      ok := KeysValid(entries);
      if !ok {
        return;
      }
      KeyLeqPreorder();
      var sorted := Sorting.Sort(entries, KeyLeq);
      EntriesKeep(entries, sorted, level);
      var repeated := HasRepeat(sorted);
      hide Enc, Head, EntriesWritten, Less, EncText, Normal, InOrder;
      if repeated {
        RepeatInOriginal(entries, sorted);
        return false;
      }
      OrderedIsAscending(sorted);
      WriteHead(5, |sorted|);
      assert forall k :: 0 <= k < |sorted| ==> sorted[k] in entries by { Sorting.SameElements(sorted, entries); }
      ok := WriteEntries(entries, sorted, level);
      if !ok {
        return;
      }
      MapWritten(entries, sorted, level);
      NormalInOrder(entries);
      Associative(old(buf), Head(5, |sorted|), EntriesWritten(sorted, |sorted|, level));
    }

    /** The entries one after another, up to the first whose value cannot be encoded. */
    method WriteEntries(ghost entries: seq<Entry>, sorted: seq<Entry>, level: nat) returns (ok: bool)
      requires Fits(Map(sorted)) && forall k :: 0 <= k < |sorted| ==> sorted[k] in entries
      modifies this
      ensures ok <==> forall k :: 0 <= k < |sorted| ==> Encodable(sorted[k].value, level)
      ensures ok ==> EntriesGood(sorted, |sorted|, level) && buf == old(buf) + EntriesWritten(sorted, |sorted|, level)
      decreases entries, 0
    {
      hide Enc, EncText, Head, Sized, Normal, EntriesWritten;
      NothingWritten([], sorted, level);
      var i := 0;
      while i < |sorted|
        invariant 0 <= i <= |sorted|
        invariant EntriesGood(sorted, i, level) && buf == old(buf) + EntriesWritten(sorted, i, level)
      {
        assert sorted[i] in entries;
        ghost var w, k := EntriesWritten(sorted, i, level), EncText(sorted[i].key);
        buf := buf + EncText(sorted[i].key);
        ok := EncodeValue(sorted[i].value, level);
        if !ok {
          return;
        }
        EntryWritten(sorted, i, level);
        Associative(old(buf), w, k);
        Associative(old(buf), w + k, Enc(Normal(sorted[i].value)));
        i := i + 1;
      }
      ok := true;
    }
  }

  method KeysValid(entries: seq<Entry>) returns (ok: bool)
    ensures ok <==> forall k :: 0 <= k < |entries| ==> Utf8(entries[k].key)
  {
    hide Utf8;
    for i := 0 to |entries|
      invariant forall k :: 0 <= k < i ==> Utf8(entries[k].key)
    {
      if !Utf8(entries[i].key) {
        return false;
      }
    }
    ok := true;
  }

  /** Whether two neighbours have one key. */
  method HasRepeat(sorted: seq<Entry>) returns (found: bool)
    ensures found <==> exists i :: 0 < i < |sorted| && sorted[i - 1].key == sorted[i].key
  {
    var i := 1;
    while i < |sorted|
      invariant 1 <= i
      invariant forall k :: 0 < k < i && k < |sorted| ==> sorted[k - 1].key != sorted[k].key
    {
      if sorted[i - 1].key == sorted[i].key {
        return true;
      }
      i := i + 1;
    }
    found := false;
  }

  lemma RepeatInOriginal(entries: seq<Entry>, s: seq<Entry>)
    requires multiset(s) == multiset(entries) && exists i :: 0 < i < |s| && s[i - 1].key == s[i].key
    ensures !DistinctKeys(entries)
  {
    if DistinctKeys(entries) { DistinctSurvivesReordering(entries, s); }
  }

  lemma MapWritten(entries: seq<Entry>, sorted: seq<Entry>, level: nat)
    requires 0 < level <= MAX_DEPTH && Fits(Map(entries)) && multiset(sorted) == multiset(entries)
    requires KeysFit(sorted) && KeysAscend(sorted)
    requires forall i :: 0 <= i < |entries| ==> Utf8(entries[i].key)
    requires EntriesGood(sorted, |sorted|, level)
    ensures Encodable(Map(entries), level - 1) && Sized(Map(entries)) && Sized(Normal(Map(entries)))
    ensures |sorted| == |entries| < U64
    ensures Enc(Normal(Map(entries))) == Head(5, |sorted|) + EntriesWritten(sorted, |sorted|, level)
  {
    EntriesKeep(entries, sorted, level);
    Sorting.SameElements(sorted, entries);
    assert forall i :: 0 <= i < |sorted| ==> sorted[i] in entries;
    AscendIsDistinct(sorted);
    DistinctSurvivesReordering(sorted, entries);
    EncodableSized(Map(entries), level - 1);
    NormalIsCanonical(Map(entries), level - 1);
    SortedEntriesAreNormal(entries, sorted);
    assert sorted[..|sorted|] == sorted;
  }

  lemma NormalInOrder(entries: seq<Entry>)
    requires Sized(Map(entries)) && DistinctKeys(entries)
    ensures Normal(Map(entries)).Map? && InOrder(Normal(Map(entries)).entries)
  {
    NormalMap(entries);
    NormalKeysDiffer(entries);
    hide Normal, Sort, InOrder, KeysAscend;
    SortAscends(NormalEntries(entries));
    OrderMeaning(Sort(NormalEntries(entries)));
  }

  /** Encode writes the encoding of the one arrangement of a value that is inside the
      profile, and refuses a value that has none. */
  method Encode(v: Value) returns (r: Option<seq<byte>>)
    requires Fits(v)
    ensures r.Some? <==> Encodable(v, 0)
    ensures r.Some? ==> Sized(v) && Sized(Normal(v)) && r.value == Enc(Normal(v))
    ensures r.Some? ==> InProfile(Normal(v), 0) && Rearranges(v, Normal(v))
    ensures forall w :: InProfile(w, 0) && Rearranges(v, w) ==> r.Some? && Sized(w) && r.value == Enc(w)
  {
    hide Enc, Normal, Encodable, InProfile, Rearranges, Sized;
    EncodableMeaning(v, 0);
    var e := new Encoder();
    var ok := e.EncodeValue(v, 0);
    if !ok {
      return None;
    }
    r := Some(e.buf);
  }

  // ---- the bijection ------------------------------------------------------------------

  /** Every value that encodes comes back equal. */
  method ValueRoundTrip(v: Value) returns (bytes: Option<seq<byte>>, back: Option<Value>)
    requires Fits(v)
    ensures bytes.Some? <==> Encodable(v, 0)
    ensures bytes.Some? ==> back.Some? && Equal(back.value, v)
  {
    bytes := Encode(v);
    if bytes.None? {
      return None, None;
    }
    back := DcborDecoder.Decode(bytes.value);
    ReadsBack(v, bytes.value, back);
  }

  lemma ReadsBack(v: Value, b: seq<byte>, back: Option<Value>)
    requires Fits(v) && Encodable(v, 0) && Sized(v) && Sized(Normal(v)) && b == Enc(Normal(v))
    requires back.Some? ==> Canonical(back.value, 0) && Sized(back.value) && b == Enc(back.value)
    requires back.None? ==> forall w {:trigger Canonical(w, 0)} :: Sized(w) && Canonical(w, 0) ==> b != Enc(w)
    ensures back == Some(Normal(v)) && Equal(Normal(v), v)
  {
    NormalIsCanonical(v, 0);
    EqualToNormal(v);
    if back.Some? {
      assert Enc(Normal(v)) + [] == Enc(back.value) + [];
      PrefixFree(Normal(v), [], back.value, []);
    }
  }

  /** Bytes that decode are the bytes their value encodes to. */
  method ByteRoundTrip(b: seq<byte>) returns (v: Option<Value>, back: Option<seq<byte>>)
    ensures v.Some? ==> back == Some(b)
    ensures v.None? ==> forall w {:trigger Canonical(w, 0)} :: Sized(w) && Canonical(w, 0) ==> b != Enc(w)
  {
    v := DcborDecoder.Decode(b);
    if v.None? {
      return None, None;
    }
    CanonicalIsNormal(v.value, 0);
    back := Encode(v.value);
  }
}
