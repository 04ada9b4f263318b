/** Sorting by a comparison, as the standard library promises it: the same elements, in
    order. Elements that compare equal may come out either way round. */
module Sorting {
  ghost predicate TotalPreorder<T(!new)>(le: (T, T) -> bool) {
    && (forall a, b {:trigger le(a, b)} :: le(a, b) || le(b, a))
    && (forall a, b, c {:trigger le(a, b), le(b, c)} :: le(a, b) && le(b, c) ==> le(a, c))
  }

  ghost predicate Sorted<T(!new)>(s: seq<T>, le: (T, T) -> bool) {
    forall i, j :: 0 <= i < j < |s| ==> le(s[i], s[j])
  }

  function Splice<T>(s: seq<T>, j: nat, e: T): (t: seq<T>)
    requires j <= |s|
    ensures |t| == |s| + 1
  {
    s[..j] + [e] + s[j..]
  }

  lemma SpliceAt<T>(s: seq<T>, j: nat, e: T, i: nat)
    requires j <= |s| && i <= |s|
    ensures Splice(s, j, e)[i] == if i < j then s[i] else if i == j then e else s[i - 1]
  {
  }

  lemma SpliceElements<T>(s: seq<T>, j: nat, e: T)
    requires j <= |s|
    ensures multiset(Splice(s, j, e)) == multiset(s) + multiset{e}
  {
    assert s == s[..j] + s[j..];
  }

  lemma SpliceSorted<T(!new)>(s: seq<T>, j: nat, e: T, le: (T, T) -> bool)
    requires TotalPreorder(le) && Sorted(s, le) && j <= |s|
    requires j < |s| ==> le(e, s[j])
    requires j > 0 ==> le(s[j - 1], e)
    ensures Sorted(Splice(s, j, e), le)
  {
    var t := Splice(s, j, e);
    hide Splice;
    forall i, k | 0 <= i < k < |t| ensures le(t[i], t[k]) {
      SpliceAt(s, j, e, i);
      SpliceAt(s, j, e, k);
      if i < j == k {
        assert i == j - 1 || le(s[i], s[j - 1]);
      } else if i == j < k {
        assert k == j + 1 || le(s[j], s[k - 1]);
      }
    }
  }

  lemma NextTaken<T>(s: seq<T>, i: nat)
    requires i < |s|
    ensures multiset(s[..i + 1]) == multiset(s[..i]) + multiset{s[i]}
  {
    assert s[..i + 1] == s[..i] + [s[i]];
  }

  method Sort<T(!new)>(s: seq<T>, le: (T, T) -> bool) returns (r: seq<T>)
    requires TotalPreorder(le)
    ensures Sorted(r, le) && multiset(r) == multiset(s)
  {
    hide Splice;
    r := [];
    for i := 0 to |s|
      invariant Sorted(r, le) && multiset(r) == multiset(s[..i])
    {
      var j: nat := |r|;
      while j > 0 && !le(r[j - 1], s[i])
        invariant j <= |r| && (j < |r| ==> le(s[i], r[j]))
      {
        j := j - 1;
      }
      SpliceSorted(r, j, s[i], le);
      SpliceElements(r, j, s[i]);
      NextTaken(s, i);
      r := Splice(r, j, s[i]);
    }
    assert s[..|s|] == s;
  }

  lemma SameElements<T(!new)>(s: seq<T>, t: seq<T>)
    requires multiset(s) == multiset(t)
    ensures |s| == |t| && forall e :: e in s <==> e in t
  {
    assert |multiset(s)| == |s| && |multiset(t)| == |t|;
    forall e ensures e in s <==> e in t {
      assert e in s <==> e in multiset(s);
      assert e in t <==> e in multiset(t);
    }
  }

  lemma Without<T>(t: seq<T>, j: nat)
    requires j < |t|
    ensures multiset(t) == multiset(t[..j] + t[j + 1..]) + multiset{t[j]}
  {
    assert t == t[..j] + [t[j]] + t[j + 1..];
  }

  /** Taking one element out of two rearrangements of a list leaves rearrangements. */
  lemma TakenOut<T>(s: seq<T>, t: seq<T>, j: nat)
    requires multiset(s) == multiset(t) && s != [] && j < |t| && t[j] == s[|s| - 1]
    ensures multiset(s[..|s| - 1]) == multiset(t[..j] + t[j + 1..])
  {
    Without(s, |s| - 1);
    Without(t, j);
    assert s[..|s| - 1] + s[|s| - 1 + 1..] == s[..|s| - 1];
    Cancel(multiset(s[..|s| - 1]), multiset(t[..j] + t[j + 1..]), t[j]);
  }

  lemma Cancel<T>(a: multiset<T>, b: multiset<T>, e: T)
    requires a + multiset{e} == b + multiset{e}
    ensures a == b
  {
    assert a == a + multiset{e} - multiset{e} && b == b + multiset{e} - multiset{e};
  }

  // ---- repeats ------------------------------------------------------------------------

  ghost predicate NoRepeats<T>(s: seq<T>) { forall i, j :: 0 <= i < j < |s| ==> s[i] != s[j] }

  lemma NoRepeatsAppend<T>(s: seq<T>, e: T)
    requires NoRepeats(s) && e !in s
    ensures NoRepeats(s + [e])
  {
  }

  lemma TwiceInside<T>(t: seq<T>, i: nat, j: nat)
    requires i < j < |t| && t[i] == t[j]
    ensures multiset(t)[t[i]] >= 2
  {
    assert t == t[..j] + [t[j]] + t[j + 1..];
    assert t[i] in t[..j];
    assert multiset(t[..j])[t[i]] >= 1;
  }

  lemma OnceInside<T>(s: seq<T>, m: nat)
    requires m < |s| && NoRepeats(s)
    ensures multiset(s)[s[m]] == 1
  {
    assert s == s[..m] + [s[m]] + s[m + 1..];
    assert s[m] !in s[..m] && s[m] !in s[m + 1..];
    assert multiset(s[..m])[s[m]] == 0 && multiset(s[m + 1..])[s[m]] == 0;
  }

  /** Rearranging elements does not make two of one. */
  lemma StillNoRepeats<T(!new)>(s: seq<T>, t: seq<T>)
    requires multiset(s) == multiset(t) && NoRepeats(s)
    ensures NoRepeats(t)
  {
    SameElements(s, t);
    forall i, j | 0 <= i < j < |t| ensures t[i] != t[j] {
      assert t[i] in t;
      var m :| 0 <= m < |s| && s[m] == t[i];
      OnceInside(s, m);
      if t[i] == t[j] { TwiceInside(t, i, j); }
    }
  }

  // ---- lists compared like words ------------------------------------------------------

  /** The first difference decides, and then the length. */
  predicate LexLess(a: seq<nat>, b: seq<nat>) {
    if b == [] then false
    else if a == [] then true
    else if a[0] != b[0] then a[0] < b[0]
    else LexLess(a[1..], b[1..])
  }

  lemma {:induction false} LexIrreflexive(a: seq<nat>)
    ensures !LexLess(a, a)
  {
    if a != [] { LexIrreflexive(a[1..]); }
  }

  lemma {:induction false} LexTransitive(a: seq<nat>, b: seq<nat>, c: seq<nat>)
    requires LexLess(a, b) && LexLess(b, c)
    ensures LexLess(a, c)
  {
    if a != [] && a[0] == b[0] && b[0] == c[0] { LexTransitive(a[1..], b[1..], c[1..]); }
  }

  lemma {:induction false} LexTotal(a: seq<nat>, b: seq<nat>)
    ensures a == b || LexLess(a, b) || LexLess(b, a)
  {
    if a != [] && b != [] && a[0] == b[0] {
      LexTotal(a[1..], b[1..]);
      assert a == [a[0]] + a[1..] && b == [b[0]] + b[1..];
    }
  }

  predicate LexLeq(a: seq<nat>, b: seq<nat>) { !LexLess(b, a) }

  lemma LexLeqTotal(a: seq<nat>, b: seq<nat>)
    ensures LexLeq(a, b) || LexLeq(b, a)
    ensures LexLeq(a, b) && LexLeq(b, a) ==> a == b
  {
    LexTotal(a, b);
    if LexLess(a, b) && LexLess(b, a) {
      LexTransitive(a, b, a);
      LexIrreflexive(a);
    }
  }

  lemma LexLeqTransitive(a: seq<nat>, b: seq<nat>, c: seq<nat>)
    requires LexLeq(a, b) && LexLeq(b, c)
    ensures LexLeq(a, c)
  {
    LexTotal(a, b);
    LexTotal(b, c);
    if LexLess(c, a) {
      if a != b { LexTransitive(c, a, b); }
    }
  }

  lemma LexLeqPreorder()
    ensures TotalPreorder(LexLeq)
  {
    forall a, b ensures LexLeq(a, b) || LexLeq(b, a) { LexLeqTotal(a, b); }
    forall a, b, c | LexLeq(a, b) && LexLeq(b, c) ensures LexLeq(a, c) { LexLeqTransitive(a, b, c); }
  }
}
