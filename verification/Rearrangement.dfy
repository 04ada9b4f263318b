/** What the encoder makes of a value: the one arrangement of its maps that is inside the
    profile, if there is one. */
module Rearrangement {
  import opened DcborSpec
  import opened DcborProfile
  import opened DcborOrder
  import Sorting

  /** w is v with the entries of its maps, at every depth, in some order. */
  ghost predicate Rearranges(v: Value, w: Value)
    decreases v
  {
    match v
    case Array(items) => w.Array? && |w.items| == |items| && forall i :: 0 <= i < |items| ==> Rearranges(items[i], w.items[i])
    case Map(entries) =>
      && w.Map? && |w.entries| == |entries|
      && forall j :: 0 <= j < |w.entries| ==> ComesFrom(entries, w.entries[j])
    case _ => w == v
  }

  ghost predicate ComesFrom(entries: seq<Entry>, f: Entry)
    decreases entries
  {
    exists i :: 0 <= i < |entries| && BecomesEntry(entries[i], f)
  }

  ghost predicate Becomes(e: Entry, w: seq<Entry>) { exists j :: 0 <= j < |w| && BecomesEntry(e, w[j]) }

  ghost predicate BecomesEntry(e: Entry, f: Entry)
    decreases e
  {
    e.key == f.key && Rearranges(e.value, f.value)
  }

  lemma {:induction false} NormalRearranges(v: Value)
    requires Sized(v)
    ensures Rearranges(v, Normal(v))
    decreases v
  {
    match v
    case Array(items) =>
      forall i | 0 <= i < |items| ensures Rearranges(items[i], Normal(items[i])) { NormalRearranges(items[i]); }
    case Map(entries) =>
      forall i | 0 <= i < |entries| ensures Rearranges(entries[i].value, Normal(entries[i].value)) { NormalRearranges(entries[i].value); }
      NormalMapRearranges(entries);
    case _ =>
  }

  lemma NormalMapRearranges(entries: seq<Entry>)
    requires Sized(Map(entries)) && forall i :: 0 <= i < |entries| ==> Rearranges(entries[i].value, Normal(entries[i].value))
    ensures Rearranges(Map(entries), Normal(Map(entries)))
  {
    NormalMap(entries);
    hide Normal, Sort;
    var es := NormalEntries(entries);
    var s := Sort(es);
    Sorting.SameElements(s, es);
    forall j | 0 <= j < |s| ensures ComesFrom(entries, s[j]) {
      assert s[j] in es;
      var i :| 0 <= i < |es| && es[i] == s[j];
      assert BecomesEntry(entries[i], s[j]);
    }
  }

  // ---- one arrangement is inside the profile -------------------------------------------

  ghost function Members(keys: seq<seq<byte>>): set<seq<byte>> { set k | k in keys }

  lemma NoRepeatsApart(keys: seq<seq<byte>>)
    requires keys != []
    ensures Sorting.NoRepeats(keys) <==> Sorting.NoRepeats(keys[1..]) && keys[0] !in keys[1..]
  {
    var rest := keys[1..];
    assert forall j :: 0 <= j < |rest| ==> rest[j] == keys[j + 1];
    if Sorting.NoRepeats(rest) && keys[0] !in rest {
      forall i, j | 0 <= i < j < |keys| ensures keys[i] != keys[j] {
        assert keys[j] == rest[j - 1];
        if i > 0 { assert keys[i] == rest[i - 1]; }
      }
    }
  }

  lemma {:induction false} MembersCount(keys: seq<seq<byte>>)
    ensures |Members(keys)| <= |keys|
    ensures |Members(keys)| == |keys| <==> Sorting.NoRepeats(keys)
    decreases |keys|
  {
    if keys != [] {
      hide Sorting.NoRepeats;
      MembersCount(keys[1..]);
      NoRepeatsApart(keys);
      assert keys == [keys[0]] + keys[1..];
      assert Members(keys) == Members(keys[1..]) + {keys[0]};
    } else {
      assert Members(keys) == {};
    }
  }

  /** As many keys, all of them among the others and none twice: the others have none
      twice either, and there are no others. */
  lemma SameKeys(a: seq<seq<byte>>, b: seq<seq<byte>>)
    requires |a| == |b| && Sorting.NoRepeats(b) && forall k :: k in b ==> k in a
    ensures Sorting.NoRepeats(a) && forall k :: k in a ==> k in b
  {
    MembersCount(a);
    MembersCount(b);
    assert Members(b) <= Members(a);
    SubsetOfSize(Members(b), Members(a));
    forall k | k in a ensures k in b { assert k in Members(a); }
  }

  lemma SubsetOfSize(x: set<seq<byte>>, y: set<seq<byte>>)
    requires x <= y && |y| <= |x|
    ensures x == y
  {
    assert |y| == |x| + |y - x| by { assert y == x + (y - x); }
  }

  function KeysOf(entries: seq<Entry>): (ks: seq<seq<byte>>)
    ensures |ks| == |entries| && forall i :: 0 <= i < |ks| ==> ks[i] == entries[i].key
  {
    seq(|entries|, i requires 0 <= i < |entries| => entries[i].key)
  }

  lemma DistinctIsNoRepeats(es: seq<Entry>)
    ensures DistinctKeys(es) <==> Sorting.NoRepeats(KeysOf(es))
  {
    var ks := KeysOf(es);
    assert forall i, j :: 0 <= i < j < |es| ==> ks[i] == es[i].key && ks[j] == es[j].key;
  }

  lemma KeysComeFrom(v: seq<Entry>, w: seq<Entry>)
    requires forall j :: 0 <= j < |w| ==> ComesFrom(v, w[j])
    ensures forall k :: k in KeysOf(w) ==> k in KeysOf(v)
  {
    hide ComesFrom;
    forall k | k in KeysOf(w) ensures k in KeysOf(v) {
      var j :| 0 <= j < |w| && KeysOf(w)[j] == k;
      KeyComesFrom(v, w[j]);
    }
  }

  lemma MatchedKeys(v: seq<Entry>, w: seq<Entry>)
    requires |v| == |w| && DistinctKeys(w) && forall j :: 0 <= j < |w| ==> ComesFrom(v, w[j])
    ensures DistinctKeys(v) && forall i :: 0 <= i < |v| ==> v[i].key in KeysOf(w)
  {
    hide ComesFrom, DistinctKeys, Sorting.NoRepeats;
    KeysComeFrom(v, w);
    DistinctIsNoRepeats(v);
    DistinctIsNoRepeats(w);
    SameKeys(KeysOf(v), KeysOf(w));
    forall i | 0 <= i < |v| ensures v[i].key in KeysOf(w) { assert KeysOf(v)[i] in KeysOf(v); }
  }

  lemma KeyComesFrom(v: seq<Entry>, f: Entry)
    requires ComesFrom(v, f)
    ensures f.key in KeysOf(v)
  {
    var i :| 0 <= i < |v| && BecomesEntry(v[i], f);
    assert KeysOf(v)[i] == f.key;
  }

  /** Where keys are distinct, the entry that comes from a key comes from its entry. */
  lemma BecomesItsKey(v: seq<Entry>, w: seq<Entry>, i: nat)
    requires i < |v| && DistinctKeys(v) && v[i].key in KeysOf(w) && forall j :: 0 <= j < |w| ==> ComesFrom(v, w[j])
    ensures Becomes(v[i], w)
  {
    var j :| 0 <= j < |w| && KeysOf(w)[j] == v[i].key;
    assert ComesFrom(v, w[j]);
    FromOneKey(v, i, w[j]);
  }

  lemma FromOneKey(v: seq<Entry>, i: nat, f: Entry)
    requires i < |v| && DistinctKeys(v) && ComesFrom(v, f) && f.key == v[i].key
    ensures BecomesEntry(v[i], f)
  {
    var k :| 0 <= k < |v| && BecomesEntry(v[k], f);
    assert v[k].key == v[i].key;
  }

  /** A value can be arranged into the profile in one way, its normal form, and then the
      encoder accepts it. */
  lemma {:induction false} OneArrangement(v: Value, w: Value, depth: nat)
    requires Fits(v) && Canonical(w, depth) && Rearranges(v, w)
    ensures Encodable(v, depth) && Sized(v) && Normal(v) == w
    decreases v
  {
    match v
    case Array(items) =>
      forall i | 0 <= i < |items| ensures Encodable(items[i], depth + 1) && Sized(items[i]) && Normal(items[i]) == w.items[i] {
        OneArrangement(items[i], w.items[i], depth + 1);
      }
    case Map(entries) =>
      forall i, j | 0 <= i < |entries| && 0 <= j < |w.entries| && BecomesEntry(entries[i], w.entries[j])
        ensures Encodable(entries[i].value, depth + 1) && Sized(entries[i].value) && Normal(entries[i].value) == w.entries[j].value
      {
        OneArrangement(entries[i].value, w.entries[j].value, depth + 1);
      }
      hide Normal, Encodable, Sized, Rearranges, Canonical;
      MapArranged(entries, w.entries, depth);
    case _ =>
  }

  lemma MapArranged(v: seq<Entry>, w: seq<Entry>, depth: nat)
    requires Fits(Map(v)) && Canonical(Map(w), depth) && Rearranges(Map(v), Map(w))
    requires forall i, j :: 0 <= i < |v| && 0 <= j < |w| && BecomesEntry(v[i], w[j]) ==>
               Encodable(v[i].value, depth + 1) && Sized(v[i].value) && Normal(v[i].value) == w[j].value
    ensures Encodable(Map(v), depth) && Sized(Map(v)) && Normal(Map(v)) == Map(w)
  {
    hide Normal, Utf8, EncText, Less, ComesFrom, Becomes, KeysAscend, BecomesEntry;
    AscendIsDistinct(w);
    MatchedKeys(v, w);
    forall i | 0 <= i < |v| ensures Utf8(v[i].key) && Encodable(v[i].value, depth + 1) && Sized(v[i].value) && Becomes(v[i], w) {
      BecomesItsKey(v, w, i);
      var j := BecomesWhich(v[i], w);
      assert BecomesEntry(v[i], w[j]);
    }
    assert Encodable(Map(v), depth) && Sized(Map(v));
    NormalMap(v);
    hide Encodable, Sized, Fits, Canonical, Rearranges, Sort;
    EntriesBecome(v, w);
    EntriesComeFrom(v, w);
    NormalKeysDiffer(v);
    SortAscends(NormalEntries(v));
    Sorting.SameElements(Sort(NormalEntries(v)), NormalEntries(v));
    AscendingIsUnique(Sort(NormalEntries(v)), w);
  }

  lemma BecomesWhich(e: Entry, w: seq<Entry>) returns (j: nat)
    requires Becomes(e, w)
    ensures j < |w| && BecomesEntry(e, w[j]) && e.key == w[j].key
  {
    j :| 0 <= j < |w| && BecomesEntry(e, w[j]);
  }

  lemma EntriesBecome(v: seq<Entry>, w: seq<Entry>)
    requires Sized(Map(v)) && forall i :: 0 <= i < |v| ==> Becomes(v[i], w)
    requires forall i, j :: 0 <= i < |v| && 0 <= j < |w| && BecomesEntry(v[i], w[j]) ==> Normal(v[i].value) == w[j].value
    ensures forall e :: e in NormalEntries(v) ==> e in w
  {
    hide Normal, BecomesEntry, Becomes;
    var es := NormalEntries(v);
    forall e | e in es ensures e in w {
      var i :| 0 <= i < |es| && es[i] == e;
      var j := BecomesWhich(v[i], w);
      SameEntry(v, w, i, j);
    }
  }

  lemma EntriesComeFrom(v: seq<Entry>, w: seq<Entry>)
    requires Sized(Map(v)) && forall j :: 0 <= j < |w| ==> ComesFrom(v, w[j])
    requires forall i, j :: 0 <= i < |v| && 0 <= j < |w| && BecomesEntry(v[i], w[j]) ==> Normal(v[i].value) == w[j].value
    ensures forall e :: e in w ==> e in NormalEntries(v)
  {
    hide Normal, BecomesEntry;
    forall e | e in w ensures e in NormalEntries(v) {
      var j :| 0 <= j < |w| && w[j] == e;
      assert ComesFrom(v, w[j]);
      var i :| 0 <= i < |v| && BecomesEntry(v[i], w[j]);
      SameEntry(v, w, i, j);
    }
  }

  lemma SameEntry(v: seq<Entry>, w: seq<Entry>, i: nat, j: nat)
    requires Sized(Map(v)) && i < |v| && j < |w| && BecomesEntry(v[i], w[j]) && Normal(v[i].value) == w[j].value
    ensures |NormalEntries(v)| == |v| && NormalEntries(v)[i] == w[j]
  {
    hide Normal, Rearranges;
  }

  /** What the encoder accepts is what can be arranged into the profile; what it writes is
      the encoding of that arrangement. */
  lemma EncodableMeaning(v: Value, depth: nat)
    requires Fits(v)
    ensures Encodable(v, depth) <==> exists w :: InProfile(w, depth) && Rearranges(v, w)
    ensures forall w :: InProfile(w, depth) && Rearranges(v, w) ==> Sized(v) && w == Normal(v)
    ensures Encodable(v, depth) ==> Sized(v) && InProfile(Normal(v), depth) && Rearranges(v, Normal(v))
  {
    forall w | InProfile(w, depth) && Rearranges(v, w) ensures Encodable(v, depth) && Sized(v) && w == Normal(v) {
      CanonicalMeaning(w, depth);
      OneArrangement(v, w, depth);
    }
    hide Encodable, InProfile, Rearranges, Normal, Canonical, Sized;
    if Encodable(v, depth) {
      NormalIsCanonical(v, depth);
      CanonicalMeaning(Normal(v), depth);
      NormalRearranges(v);
    }
  }
}
