/** The canonical key order of a map and the normal form of a value: what the encoder
    writes, and when two values are the same. */
module DcborOrder {
  import opened DcborSpec
  import Sorting

  // ---- the order ----------------------------------------------------------------------

  ghost predicate KeysFit(es: seq<Entry>) { forall i :: 0 <= i < |es| ==> |es[i].key| < U64 }

  ghost predicate DistinctKeys(es: seq<Entry>) {
    forall i, j :: 0 <= i < j < |es| ==> es[i].key != es[j].key
  }

  /** Entries compared by the encodings of their keys; a key too long to encode, which
      there is none of, would come last. */
  predicate KeyLeq(a: Entry, b: Entry) {
    |b.key| >= U64 || (|a.key| < U64 && !Less(EncText(b.key), EncText(a.key)))
  }

  lemma KeyLeqPreorder()
    ensures Sorting.TotalPreorder(KeyLeq)
  {
    hide EncText;
    forall a, b ensures KeyLeq(a, b) || KeyLeq(b, a) {
      if |a.key| < U64 && |b.key| < U64 { Sorting.LexLeqTotal(EncText(a.key), EncText(b.key)); }
    }
    forall a, b, c | KeyLeq(a, b) && KeyLeq(b, c) ensures KeyLeq(a, c) {
      if |c.key| < U64 { Sorting.LexLeqTransitive(EncText(a.key), EncText(b.key), EncText(c.key)); }
    }
  }

  lemma {:induction false} AscendFar(es: seq<Entry>, i: nat, j: nat)
    requires KeysFit(es) && KeysAscend(es) && i < j < |es|
    ensures Less(EncText(es[i].key), EncText(es[j].key))
    decreases j
  {
    if i < j - 1 {
      AscendFar(es, i, j - 1);
      Sorting.LexTransitive(EncText(es[i].key), EncText(es[j - 1].key), EncText(es[j].key));
    }
  }

  lemma AscendIsDistinct(es: seq<Entry>)
    requires KeysFit(es) && KeysAscend(es)
    ensures DistinctKeys(es)
  {
    forall i, j | 0 <= i < j < |es| ensures es[i].key != es[j].key {
      AscendFar(es, i, j);
      Sorting.LexIrreflexive(EncText(es[i].key));
    }
  }

  lemma KeyOf(s: seq<byte>, t: seq<byte>)
    requires |s| < U64 && |t| < U64 && EncText(s) == EncText(t)
    ensures s == t
  {
    assert EncText(s) + [] == EncText(t) + [];
    TextUnique(s, [], t, []);
  }

  /** Sorted with no two equal neighbours is strictly ascending. */
  lemma OrderedIsAscending(es: seq<Entry>)
    requires KeysFit(es) && Sorting.Sorted(es, KeyLeq) && forall i :: 0 < i < |es| ==> es[i - 1].key != es[i].key
    ensures KeysAscend(es)
  {
    forall i | 0 < i < |es| ensures Less(EncText(es[i - 1].key), EncText(es[i].key)) {
      assert KeyLeq(es[i - 1], es[i]);
      Sorting.LexTotal(EncText(es[i - 1].key), EncText(es[i].key));
      if EncText(es[i - 1].key) == EncText(es[i].key) { KeyOf(es[i - 1].key, es[i].key); }
    }
  }

  /** There is one strictly ascending arrangement of given entries. */
  lemma {:induction false} AscendingIsUnique(a: seq<Entry>, b: seq<Entry>)
    requires KeysFit(a) && KeysFit(b) && KeysAscend(a) && KeysAscend(b)
    requires forall e :: e in a <==> e in b
    ensures a == b
  {
    assert b != [] ==> b[0] in b;
    if a != [] {
      assert a[0] in b && b[0] in a by { assert a[0] in a; }
      LeastIsFirst(a, b);
      TailMembers(a);
      TailMembers(b);
      AscendingIsUnique(a[1..], b[1..]);
      assert a == [a[0]] + a[1..] && b == [b[0]] + b[1..];
    }
  }

  lemma LeastIsFirst(a: seq<Entry>, b: seq<Entry>)
    requires KeysFit(a) && KeysFit(b) && KeysAscend(a) && KeysAscend(b)
    requires a != [] && b != [] && a[0] in b && b[0] in a
    ensures a[0] == b[0]
  {
    var i :| 0 <= i < |a| && a[i] == b[0];
    var j :| 0 <= j < |b| && b[j] == a[0];
    if i > 0 && j > 0 {
      AscendFar(a, 0, i);
      AscendFar(b, 0, j);
      Sorting.LexTransitive(EncText(a[0].key), EncText(b[0].key), EncText(a[0].key));
      Sorting.LexIrreflexive(EncText(a[0].key));
    }
  }

  lemma TailMembers(a: seq<Entry>)
    requires a != [] && KeysFit(a) && KeysAscend(a)
    ensures KeysAscend(a[1..]) && forall e :: e in a[1..] <==> e in a && e != a[0]
  {
    AscendIsDistinct(a);
    forall e ensures e in a[1..] <==> e in a && e != a[0] {
      if e in a && e != a[0] {
        var i :| 0 <= i < |a| && a[i] == e;
        assert a[1..][i - 1] == e;
      }
    }
  }

  // ---- permutations -------------------------------------------------------------------

  /** Rearranging entries does not create or remove equal keys. */
  lemma DistinctSurvivesReordering(s: seq<Entry>, t: seq<Entry>)
    requires multiset(s) == multiset(t) && DistinctKeys(s)
    ensures DistinctKeys(t)
  {
    Sorting.SameElements(s, t);
    Sorting.StillNoRepeats(s, t);
    forall i, j | 0 <= i < j < |t| ensures t[i].key != t[j].key {
      assert t[i] in t && t[j] in t && t[i] != t[j];
      var m :| 0 <= m < |s| && s[m] == t[i];
      var n :| 0 <= n < |s| && s[n] == t[j];
    }
  }

  // ---- sorting ------------------------------------------------------------------------

  ghost function Insert(e: Entry, es: seq<Entry>): (s: seq<Entry>)
    requires KeysFit(es) && |e.key| < U64
    ensures |s| == |es| + 1
  {
    if es == [] || Less(EncText(e.key), EncText(es[0].key)) then [e] + es else [es[0]] + Insert(e, es[1..])
  }

  ghost function Sort(es: seq<Entry>): (s: seq<Entry>)
    requires KeysFit(es)
    ensures |s| == |es| && KeysFit(s) && multiset(s) == multiset(es)
  {
    if es == [] then []
    else
      var rest := Sort(es[1..]);
      InsertMembers(es[0], rest);
      HeadApart(es);
      Insert(es[0], rest)
  }

  lemma HeadApart(es: seq<Entry>)
    requires es != []
    ensures multiset(es) == multiset(es[1..]) + multiset{es[0]}
  {
    assert es == [es[0]] + es[1..];
  }

  lemma {:induction false} InsertMembers(e: Entry, es: seq<Entry>)
    requires KeysFit(es) && |e.key| < U64
    ensures multiset(Insert(e, es)) == multiset(es) + multiset{e} && KeysFit(Insert(e, es))
  {
    if es != [] && !Less(EncText(e.key), EncText(es[0].key)) {
      InsertMembers(e, es[1..]);
      assert es == [es[0]] + es[1..];
    }
  }

  lemma {:induction false} InsertAscends(e: Entry, es: seq<Entry>)
    requires KeysFit(es) && |e.key| < U64 && KeysAscend(es)
    requires forall i :: 0 <= i < |es| ==> es[i].key != e.key
    ensures KeysFit(Insert(e, es)) && KeysAscend(Insert(e, es))
    ensures es != [] ==> Insert(e, es)[0] == e || Insert(e, es)[0] == es[0]
    ensures es == [] ==> Insert(e, es)[0] == e
  {
    InsertMembers(e, es);
    hide EncText;
    if es != [] && !Less(EncText(e.key), EncText(es[0].key)) {
      assert KeysAscend(es[1..]);
      InsertAscends(e, es[1..]);
      var s := Insert(e, es[1..]);
      assert Less(EncText(es[0].key), EncText(s[0].key)) by {
        Sorting.LexTotal(EncText(es[0].key), EncText(e.key));
        if EncText(es[0].key) == EncText(e.key) { KeyOf(es[0].key, e.key); }
      }
      forall i | 0 < i < |Insert(e, es)| ensures Less(EncText(Insert(e, es)[i - 1].key), EncText(Insert(e, es)[i].key)) {
        assert Insert(e, es)[i] == s[i - 1];
        if i > 1 { assert Insert(e, es)[i - 1] == s[i - 2]; }
      }
    }
  }

  lemma {:induction false} SortAscends(es: seq<Entry>)
    requires KeysFit(es) && DistinctKeys(es)
    ensures KeysAscend(Sort(es))
  {
    if es != [] {
      SortAscends(es[1..]);
      var rest := Sort(es[1..]);
      Sorting.SameElements(rest, es[1..]);
      forall i | 0 <= i < |rest| ensures rest[i].key != es[0].key {
        assert rest[i] in es[1..];
        var j :| 0 <= j < |es[1..]| && es[1..][j] == rest[i];
        assert es[j + 1] == rest[i];
      }
      InsertAscends(es[0], rest);
    }
  }

  // ---- normal form --------------------------------------------------------------------

  /** The value with every map's entries in canonical order. */
  ghost function Normal(v: Value): Value
    requires Sized(v)
    decreases v
  {
    match v
    case Array(items) => Array(seq(|items|, i requires 0 <= i < |items| => Normal(items[i])))
    case Map(entries) =>
      var es := seq(|entries|, i requires 0 <= i < |entries| => Entry(entries[i].key, Normal(entries[i].value)));
      Map(Sort(es))
    case _ => v
  }

  ghost function NormalEntries(entries: seq<Entry>): (es: seq<Entry>)
    requires forall i :: 0 <= i < |entries| ==> |entries[i].key| < U64 && Sized(entries[i].value)
    ensures KeysFit(es)
  {
    seq(|entries|, i requires 0 <= i < |entries| => Entry(entries[i].key, Normal(entries[i].value)))
  }

  lemma NormalMap(entries: seq<Entry>)
    requires Sized(Map(entries))
    ensures Normal(Map(entries)) == Map(Sort(NormalEntries(entries)))
  {
    assert NormalEntries(entries) ==
           seq(|entries|, i requires 0 <= i < |entries| => Entry(entries[i].key, Normal(entries[i].value)));
  }

  /** What the encoder accepts, of values whose lengths fit: no nil, valid text, canonical
      decimals, no repeated key and no container too deep. */
  ghost predicate Encodable(v: Value, depth: nat)
    requires Fits(v)
    decreases v
  {
    match v
    case Decimal(e, m) => CanonicalDecimal(e, m) && depth < MAX_DEPTH
    case Text(s) => Utf8(s)
    case Array(items) => depth < MAX_DEPTH && forall i :: 0 <= i < |items| ==> Encodable(items[i], depth + 1)
    case Map(entries) =>
      && depth < MAX_DEPTH && DistinctKeys(entries)
      && forall i :: 0 <= i < |entries| ==> Utf8(entries[i].key) && Encodable(entries[i].value, depth + 1)
    case Nil => false
    case _ => true
  }

  /** Lengths are machine integers in Go; no value breaks this. */
  ghost predicate Fits(v: Value)
    decreases v
  {
    match v
    case Text(s) => |s| < U64
    case Bytes(s) => |s| < U64
    case Array(items) => |items| < U64 && forall i :: 0 <= i < |items| ==> Fits(items[i])
    case Map(entries) => |entries| < U64 && forall i :: 0 <= i < |entries| ==> |entries[i].key| < U64 && Fits(entries[i].value)
    case _ => true
  }

  lemma {:induction false} EncodableSized(v: Value, depth: nat)
    requires Fits(v) && Encodable(v, depth)
    ensures Sized(v)
    decreases v
  {
    match v
    case Array(items) =>
      forall i | 0 <= i < |items| ensures Sized(items[i]) { EncodableSized(items[i], depth + 1); }
    case Map(entries) =>
      forall i | 0 <= i < |entries| ensures Sized(entries[i].value) { EncodableSized(entries[i].value, depth + 1); }
    case _ =>
  }

  /** The normal form of what can be encoded is canonical. */
  lemma {:induction false} NormalIsCanonical(v: Value, depth: nat)
    requires Fits(v) && Encodable(v, depth)
    ensures Sized(v) && Canonical(Normal(v), depth) && Sized(Normal(v))
    decreases v
  {
    EncodableSized(v, depth);
    match v
    case Array(items) =>
      forall i | 0 <= i < |items| ensures Canonical(Normal(items[i]), depth + 1) && Sized(Normal(items[i])) {
        NormalIsCanonical(items[i], depth + 1);
      }
    case Map(entries) =>
      forall i | 0 <= i < |entries| ensures Canonical(Normal(entries[i].value), depth + 1) && Sized(Normal(entries[i].value)) {
        NormalIsCanonical(entries[i].value, depth + 1);
      }
      hide Canonical, Normal;
      SortedIsCanonical(entries, depth);
    case _ =>
  }

  lemma SortedIsCanonical(entries: seq<Entry>, depth: nat)
    requires Sized(Map(entries)) && |entries| < U64 && depth < MAX_DEPTH && DistinctKeys(entries)
    requires forall i :: 0 <= i < |entries| ==> |entries[i].key| < U64 && Sized(entries[i].value)
    requires forall i :: 0 <= i < |entries| ==>
               Utf8(entries[i].key) && Canonical(Normal(entries[i].value), depth + 1) && Sized(Normal(entries[i].value))
    ensures Canonical(Normal(Map(entries)), depth) && Sized(Normal(Map(entries)))
  {
    var es := NormalEntries(entries);
    NormalMap(entries);
    hide Normal, Sort, EncText, Less, KeysAscend, Canonical, Sized;
    SortAscends(es);
    var s := Sort(es);
    Sorting.SameElements(s, es);
    MembersCanonical(es, s, depth);
    MapIsCanonical(s, depth);
  }

  lemma MapIsCanonical(s: seq<Entry>, depth: nat)
    requires |s| < U64 && depth < MAX_DEPTH && KeysFit(s) && KeysAscend(s)
    requires forall i :: 0 <= i < |s| ==> Utf8(s[i].key) && Canonical(s[i].value, depth + 1) && Sized(s[i].value)
    ensures Canonical(Map(s), depth) && Sized(Map(s))
  {
    hide KeysAscend, Utf8;
  }

  lemma MembersCanonical(es: seq<Entry>, s: seq<Entry>, depth: nat)
    requires forall e :: e in s ==> e in es
    requires forall i :: 0 <= i < |es| ==> Utf8(es[i].key) && Canonical(es[i].value, depth + 1) && Sized(es[i].value)
    ensures forall i :: 0 <= i < |s| ==> Utf8(s[i].key) && Canonical(s[i].value, depth + 1) && Sized(s[i].value)
  {
    hide Utf8, Canonical, Sized;
    forall i | 0 <= i < |s| ensures Utf8(s[i].key) && Canonical(s[i].value, depth + 1) && Sized(s[i].value) {
      assert s[i] in es;
    }
  }

  /** A canonical value is its own normal form, and can be encoded. */
  lemma {:induction false} CanonicalIsNormal(v: Value, depth: nat)
    requires Canonical(v, depth)
    ensures Fits(v) && Encodable(v, depth) && Sized(v) && Normal(v) == v
    decreases v
  {
    match v
    case Array(items) =>
      forall i | 0 <= i < |items|
        ensures Fits(items[i]) && Encodable(items[i], depth + 1) && Sized(items[i]) && Normal(items[i]) == items[i]
      {
        CanonicalIsNormal(items[i], depth + 1);
      }
    case Map(entries) =>
      forall i | 0 <= i < |entries|
        ensures Fits(entries[i].value) && Encodable(entries[i].value, depth + 1)
                && Sized(entries[i].value) && Normal(entries[i].value) == entries[i].value
      {
        CanonicalIsNormal(entries[i].value, depth + 1);
      }
      hide Canonical, Normal;
      AscendIsDistinct(entries);
      AscendingIsNormal(entries);
    case _ =>
  }

  lemma AscendingIsNormal(entries: seq<Entry>)
    requires Sized(Map(entries)) && KeysAscend(entries) && DistinctKeys(entries)
    requires forall i :: 0 <= i < |entries| ==> Normal(entries[i].value) == entries[i].value
    ensures Normal(Map(entries)) == Map(entries)
  {
    NormalMap(entries);
    hide Normal, Sort;
    assert NormalEntries(entries) == entries;
    SortAscends(entries);
    Sorting.SameElements(Sort(entries), entries);
    AscendingIsUnique(Sort(entries), entries);
  }

  // ---- equality -----------------------------------------------------------------------

  /** Go's Get: the value under a key, if there is one; the first of them. */
  function Get(m: seq<Entry>, key: seq<byte>): Value {
    if m == [] then Nil else if m[0].key == key then m[0].value else Get(m[1..], key)
  }

  predicate Has(m: seq<Entry>, key: seq<byte>) { exists i :: 0 <= i < |m| && m[i].key == key }

  lemma {:induction false} GetMeaning(m: seq<Entry>, i: nat)
    requires DistinctKeys(m) && i < |m|
    ensures Has(m, m[i].key) && Get(m, m[i].key) == m[i].value
    decreases |m|
  {
    if i > 0 {
      GetMeaning(m[1..], i - 1);
      assert m[1..][i - 1] == m[i];
    }
  }

  lemma {:induction false} GetIsInside(m: seq<Entry>, key: seq<byte>)
    requires Has(m, key)
    ensures exists i :: 0 <= i < |m| && m[i] == Entry(key, Get(m, key))
    decreases |m|
  {
    if m[0].key == key {
      assert m[0] == Entry(key, Get(m, key));
    } else {
      var i :| 0 <= i < |m| && m[i].key == key;
      assert m[1..][i - 1].key == key;
      GetIsInside(m[1..], key);
      var j :| 0 <= j < |m[1..]| && m[1..][j] == Entry(key, Get(m[1..], key));
      assert m[j + 1] == Entry(key, Get(m, key));
    }
  }

  /** Equal, as the source computes it: maps are compared entry by entry, in both
      directions, whatever order they are stored in. */
  predicate Equal(a: Value, b: Value)
    decreases a
  {
    match a
    case Array(av) =>
      && b.Array? && |av| == |b.items|
      && forall i :: 0 <= i < |av| ==> Equal(av[i], b.items[i])
    case Map(av) =>
      && b.Map? && |av| == |b.entries|
      && (forall i :: 0 <= i < |av| ==> Has(b.entries, av[i].key) && Equal(av[i].value, Get(b.entries, av[i].key)))
      && (forall i :: 0 <= i < |b.entries| ==> Has(av, b.entries[i].key))
    case Nil => false
    case _ => a == b
  }

  /** The normal form keeps the kind of a value and its length. */
  lemma NormalKind(v: Value)
    requires Sized(v)
    ensures Normal(v).Array? <==> v.Array?
    ensures Normal(v).Map? <==> v.Map?
    ensures v.Array? ==> |Normal(v).items| == |v.items|
    ensures v.Map? ==> |Normal(v).entries| == |v.entries|
    ensures !v.Array? && !v.Map? ==> Normal(v) == v
  {
  }

  /** Values of different kinds or lengths are neither equal nor of one normal form. */
  lemma DifferentShapes(a: Value, b: Value)
    requires Sized(a) && Sized(b)
    requires !(a.Array? && b.Array? && |a.items| == |b.items|) && !(a.Map? && b.Map? && |a.entries| == |b.entries|)
    requires !a.Nil?
    ensures Equal(a, b) <==> Normal(a) == Normal(b)
  {
    NormalKind(a);
    NormalKind(b);
    hide Normal;
  }

  /** Equality is having one normal form. */
  lemma {:induction false} EqualIsSameNormalForm(a: Value, b: Value, da: nat, db: nat)
    requires Fits(a) && Encodable(a, da) && Fits(b) && Encodable(b, db)
    ensures Sized(a) && Sized(b) && (Equal(a, b) <==> Normal(a) == Normal(b))
    decreases a
  {
    EncodableSized(a, da);
    EncodableSized(b, db);
    hide Normal, Equal, Sized;
    if a.Array? && b.Array? && |a.items| == |b.items| {
      var av, bv := a.items, b.items;
      forall i | 0 <= i < |av| ensures Equal(av[i], bv[i]) <==> Normal(av[i]) == Normal(bv[i]) {
        EqualIsSameNormalForm(av[i], bv[i], da + 1, db + 1);
      }
      ArraysEqual(av, bv);
    } else if a.Map? && b.Map? && |a.entries| == |b.entries| {
      var av, bv := a.entries, b.entries;
      forall i, j | 0 <= i < |av| && 0 <= j < |bv|
        ensures Equal(av[i].value, bv[j].value) <==> Normal(av[i].value) == Normal(bv[j].value)
      {
        EqualIsSameNormalForm(av[i].value, bv[j].value, da + 1, db + 1);
      }
      MapsEqual(av, bv);
    } else {
      DifferentShapes(a, b);
    }
  }

  lemma ArraysEqual(a: seq<Value>, b: seq<Value>)
    requires Sized(Array(a)) && Sized(Array(b)) && |a| == |b|
    requires forall i :: 0 <= i < |a| ==> Sized(a[i]) && Sized(b[i]) && (Equal(a[i], b[i]) <==> Normal(a[i]) == Normal(b[i]))
    ensures Equal(Array(a), Array(b)) <==> Normal(Array(a)) == Normal(Array(b))
  {
    var na, nb := Normal(Array(a)).items, Normal(Array(b)).items;
    assert forall i :: 0 <= i < |a| ==> na[i] == Normal(a[i]) && nb[i] == Normal(b[i]);
  }

  lemma MapsEqual(a: seq<Entry>, b: seq<Entry>)
    requires Sized(Map(a)) && Sized(Map(b)) && DistinctKeys(a) && DistinctKeys(b)
    requires forall i, j :: 0 <= i < |a| && 0 <= j < |b|
               ==> (Equal(a[i].value, b[j].value) <==> Normal(a[i].value) == Normal(b[j].value))
    ensures Equal(Map(a), Map(b)) <==> Normal(Map(a)) == Normal(Map(b))
  {
    NormalMap(a);
    NormalMap(b);
    if Equal(Map(a), Map(b)) { EqualMapsSort(a, b); }
    if Normal(Map(a)) == Normal(Map(b)) { SortedMapsEqual(a, b); }
  }

  lemma EqualMapsSort(a: seq<Entry>, b: seq<Entry>)
    requires Sized(Map(a)) && Sized(Map(b)) && DistinctKeys(a) && DistinctKeys(b)
    requires forall i, j :: 0 <= i < |a| && 0 <= j < |b|
               ==> (Equal(a[i].value, b[j].value) <==> Normal(a[i].value) == Normal(b[j].value))
    requires Equal(Map(a), Map(b))
    ensures Sort(NormalEntries(a)) == Sort(NormalEntries(b))
  {
    hide Normal, Sort, Get, EncText, Less, KeysAscend, NormalEntries, DistinctKeys;
    var na, nb := NormalEntries(a), NormalEntries(b);
    EqualMapsHave(a, b);
    NormalKeysDiffer(a);
    NormalKeysDiffer(b);
    SortAscends(na);
    SortAscends(nb);
    Sorting.SameElements(Sort(na), na);
    Sorting.SameElements(Sort(nb), nb);
    AscendingIsUnique(Sort(na), Sort(nb));
  }

  lemma NormalKeysDiffer(a: seq<Entry>)
    requires Sized(Map(a)) && DistinctKeys(a)
    ensures KeysFit(NormalEntries(a)) && DistinctKeys(NormalEntries(a))
  {
    hide Normal;
  }

  /** Equal maps have the same normal entries. */
  lemma EqualMapsHave(a: seq<Entry>, b: seq<Entry>)
    requires Sized(Map(a)) && Sized(Map(b)) && DistinctKeys(a) && DistinctKeys(b)
    requires forall i, j :: 0 <= i < |a| && 0 <= j < |b|
               ==> (Equal(a[i].value, b[j].value) <==> Normal(a[i].value) == Normal(b[j].value))
    requires Equal(Map(a), Map(b))
    ensures forall e :: e in NormalEntries(a) <==> e in NormalEntries(b)
  {
    hide Normal, Get, EncText;
    var na, nb := NormalEntries(a), NormalEntries(b);
    forall i | 0 <= i < |na| ensures na[i] in nb {
      GetIsInside(b, a[i].key);
      var j :| 0 <= j < |b| && b[j] == Entry(a[i].key, Get(b, a[i].key));
      assert nb[j] == na[i];
    }
    forall j | 0 <= j < |nb| ensures nb[j] in na {
      GetIsInside(a, b[j].key);
      var i :| 0 <= i < |a| && a[i] == Entry(b[j].key, Get(a, b[j].key));
      GetMeaning(b, j);
      assert na[i] == nb[j];
    }
  }

  lemma SortedMapsEqual(a: seq<Entry>, b: seq<Entry>)
    requires Sized(Map(a)) && Sized(Map(b)) && DistinctKeys(a) && DistinctKeys(b)
    requires forall i, j :: 0 <= i < |a| && 0 <= j < |b|
               ==> (Equal(a[i].value, b[j].value) <==> Normal(a[i].value) == Normal(b[j].value))
    requires Sort(NormalEntries(a)) == Sort(NormalEntries(b))
    ensures Equal(Map(a), Map(b))
  {
    var na, nb := NormalEntries(a), NormalEntries(b);
    Sorting.SameElements(Sort(na), na);
    Sorting.SameElements(Sort(nb), nb);
    SameLengths(a, b);
    hide Normal, Sort, NormalEntries, DistinctKeys, Sized, Equal;
    EntriesEqual(a, b);
    MapsEqualBy(a, b);
  }

  lemma SameLengths(a: seq<Entry>, b: seq<Entry>)
    requires Sized(Map(a)) && Sized(Map(b)) && Sort(NormalEntries(a)) == Sort(NormalEntries(b))
    ensures |a| == |b|
  {
    hide Normal;
  }

  lemma EntriesEqual(a: seq<Entry>, b: seq<Entry>)
    requires Sized(Map(a)) && Sized(Map(b)) && DistinctKeys(b) && forall e :: e in NormalEntries(a) <==> e in NormalEntries(b)
    requires forall i, j :: 0 <= i < |a| && 0 <= j < |b|
               ==> (Equal(a[i].value, b[j].value) <==> Normal(a[i].value) == Normal(b[j].value))
    ensures forall i :: 0 <= i < |a| ==> Has(b, a[i].key) && Equal(a[i].value, Get(b, a[i].key))
    ensures forall j :: 0 <= j < |b| ==> Has(a, b[j].key)
  {
    hide Normal, Sort, Get, NormalEntries, DistinctKeys, Has, Equal;
    forall i | 0 <= i < |a| ensures Has(b, a[i].key) && Equal(a[i].value, Get(b, a[i].key)) {
      EntryIsEqual(a, b, i);
    }
    forall j | 0 <= j < |b| ensures Has(a, b[j].key) {
      EntryIsThere(b, a, j);
    }
  }

  lemma MapsEqualBy(a: seq<Entry>, b: seq<Entry>)
    requires |a| == |b| && forall i :: 0 <= i < |a| ==> Has(b, a[i].key) && Equal(a[i].value, Get(b, a[i].key))
    requires forall j :: 0 <= j < |b| ==> Has(a, b[j].key)
    ensures Equal(Map(a), Map(b))
  {
    hide Has, Get;
  }

  lemma EntryIsEqual(a: seq<Entry>, b: seq<Entry>, i: nat)
    requires Sized(Map(a)) && Sized(Map(b)) && i < |a| && forall e :: e in NormalEntries(a) ==> e in NormalEntries(b)
    requires DistinctKeys(b) && forall j :: 0 <= j < |b| ==> (Equal(a[i].value, b[j].value) <==> Normal(a[i].value) == Normal(b[j].value))
    ensures Has(b, a[i].key) && Equal(a[i].value, Get(b, a[i].key))
  {
    hide Normal, NormalEntries, DistinctKeys, Equal, Get;
    EntryIsThere(a, b, i);
    var j :| 0 <= j < |b| && a[i].key == b[j].key && Normal(a[i].value) == Normal(b[j].value);
    GetMeaning(b, j);
  }

  lemma EntryIsThere(a: seq<Entry>, b: seq<Entry>, i: nat)
    requires Sized(Map(a)) && Sized(Map(b)) && i < |a| && forall e :: e in NormalEntries(a) ==> e in NormalEntries(b)
    ensures Has(b, a[i].key) && exists j :: 0 <= j < |b| && a[i].key == b[j].key && Normal(a[i].value) == Normal(b[j].value)
  {
    hide Normal;
    var na, nb := NormalEntries(a), NormalEntries(b);
    assert na[i] in nb;
    var j :| 0 <= j < |nb| && nb[j] == na[i];
    assert a[i].key == b[j].key && Normal(a[i].value) == Normal(b[j].value);
  }

  /** Two values that can be encoded are equal exactly when their bytes are. */
  lemma EqualIsSameBytes(a: Value, b: Value)
    requires Fits(a) && Encodable(a, 0) && Fits(b) && Encodable(b, 0)
    ensures Sized(a) && Sized(b) && Sized(Normal(a)) && Sized(Normal(b))
    ensures Equal(a, b) <==> Enc(Normal(a)) == Enc(Normal(b))
  {
    EqualIsSameNormalForm(a, b, 0, 0);
    NormalIsCanonical(a, 0);
    NormalIsCanonical(b, 0);
    hide Fits, Encodable, Equal, Normal, Sized, Canonical, Enc;
    if Enc(Normal(a)) == Enc(Normal(b)) {
      assert Enc(Normal(a)) + [] == Enc(Normal(b)) + [];
      PrefixFree(Normal(a), [], Normal(b), []);
    }
  }

  /** A value equals the canonical one its bytes decode to. */
  lemma EqualToNormal(v: Value)
    requires Fits(v) && Encodable(v, 0)
    ensures Sized(v) && Equal(Normal(v), v)
  {
    NormalIsCanonical(v, 0);
    CanonicalIsNormal(Normal(v), 0);
    EqualIsSameNormalForm(Normal(v), v, 0, 0);
  }
}
