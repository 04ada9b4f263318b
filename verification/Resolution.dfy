/** What the answers mean: with no scan limit they are full reachability, and
    learning more (blocks or keys) never takes a decided answer back. */
module Resolution {
  import opened Blocks
  import opened Options
  import opened Search

  /** The blocks a search touches: ancestors up to the first missing one, and
      everything the refs graph names. */
  ghost predicate InSearch(s: Blocks, keys: Keyring, q: Query, d: Digest)
    requires Sound(s)
  {
    d in Ancestors(s, q.prev) || AncestorGap(s, q.prev) == Some(d) || Reachable(s, keys, q.roots, d)
  }

  ghost predicate Legible(s: Blocks, keys: Keyring, d: Digest) { d in s && Read(s, keys, d).Some? }

  /** Some legible block of the search defines e. */
  ghost predicate Definable(s: Blocks, keys: Keyring, q: Query, e: EntityDigest)
    requires Sound(s)
  {
    exists d :: InSearch(s, keys, q, d) && e in Defines(s, keys, d)
  }

  lemma {:induction false} AncestorsHeld(s: Blocks, from: Option<Digest>)
    requires Sound(s)
    ensures forall d :: d in Ancestors(s, from) ==> d in s
    ensures AncestorGap(s, from).Some? ==> AncestorGap(s, from).value !in s
    decreases from
  {
    if from.Some? && from.value in s { AncestorsHeld(s, s[from.value].prev); }
  }

  lemma SearchIsTheTwoLists(s: Blocks, keys: Keyring, q: Query, d: Digest)
    requires Sound(s)
    ensures InSearch(s, keys, q, d)
       <==> d in Ancestors(s, q.prev) || AncestorGap(s, q.prev) == Some(d) || d in Order(s, keys, q.roots)
    ensures InSearch(s, keys, q, d) && d in s ==> d in Ancestors(s, q.prev) + Order(s, keys, q.roots)
  {
    OrderIsReachability(s, keys, q.roots);
    AncestorsHeld(s, q.prev);
  }

  /** A failed lookup is definitive exactly when the whole search is legible. */
  lemma FailureMeaning(s: Blocks, keys: Keyring, q: Query)
    requires Sound(s)
    ensures Failure(s, keys, q).Absent? <==> forall d :: InSearch(s, keys, q, d) ==> Legible(s, keys, d)
    ensures forall d :: Failure(s, keys, q) == Awaits(d) ==> InSearch(s, keys, q, d) && d !in s
    ensures forall d :: Failure(s, keys, q) == Locked(d) ==>
              InSearch(s, keys, q, d) && Sealed(s, keys, d) && forall x :: InSearch(s, keys, q, x) ==> x in s
  {
    var list, up := Order(s, keys, q.roots), Ancestors(s, q.prev);
    AncestorsHeld(s, q.prev);
    FirstUnheldMeaning(s, list);
    FirstSealedMeaning(s, keys, up + list);
    match Failure(s, keys, q)
    case Awaits(d) => SearchIsTheTwoLists(s, keys, q, d);
    case Locked(d) =>
      SearchIsTheTwoLists(s, keys, q, d);
      assert d in up + list;
      forall x | InSearch(s, keys, q, x) ensures x in s { SearchIsTheTwoLists(s, keys, q, x); }
    case Absent =>
      forall x | InSearch(s, keys, q, x) ensures Legible(s, keys, x) {
        SearchIsTheTwoLists(s, keys, q, x);
      }
  }

  /** With no limit, a lookup finds exactly what some legible block of the search
      defines; it is definitive exactly when the whole search is legible; and what
      it waits for otherwise is an illegible block of the search, a missing one
      before a locked one. */
  lemma UnlimitedAnswerIsReachability(s: Blocks, keys: Keyring, limit: int, q: Query, own: set<EntityDigest>, e: EntityDigest)
    requires Sound(s) && limit < 0
    ensures Answers(s, keys, limit, q, own, e) == Found <==> e in own || Definable(s, keys, q, e)
    ensures Answers(s, keys, limit, q, own, e) == Absent
       <==> e !in own && !Definable(s, keys, q, e) && forall d :: InSearch(s, keys, q, d) ==> Legible(s, keys, d)
    ensures forall d :: Answers(s, keys, limit, q, own, e) == Awaits(d) ==> InSearch(s, keys, q, d) && d !in s
    ensures forall d :: Answers(s, keys, limit, q, own, e) == Locked(d) ==>
              InSearch(s, keys, q, d) && Sealed(s, keys, d) && forall x :: InSearch(s, keys, q, x) ==> x in s
    ensures !Answers(s, keys, limit, q, own, e).LimitHit?
  {
    var list, up := Order(s, keys, q.roots), Ancestors(s, q.prev);
    var i := FirstDefining(s, keys, list, e);
    OrderIsReachability(s, keys, q.roots);
    AncestorsHeld(s, q.prev);
    FailureMeaning(s, keys, q);
    AllDefinedMeaning(s, keys, up);
    FirstDefiningMeaning(s, keys, list, e);
    if i < |list| {
      assert list[i] in list;
    }
    forall d | d in list && e in Defines(s, keys, d) ensures i < |list| {
      var k :| 0 <= k < |list| && list[k] == d;
    }
  }

  /** A node that learns more holds every block it held and every key it held. */
  ghost predicate Learns(s: Blocks, keys: Keyring, t: Blocks, more: Keyring) {
    Extends(s, t) && keys <= more
  }

  lemma {:induction false} AncestorsGrow(s: Blocks, t: Blocks, from: Option<Digest>)
    requires Sound(s) && Sound(t) && Extends(s, t)
    ensures Ancestors(s, from) <= Ancestors(t, from)
    ensures AncestorGap(s, from).None? ==> Ancestors(s, from) == Ancestors(t, from) && AncestorGap(t, from).None?
    ensures AncestorGap(t, from).Some? ==> AncestorGap(s, from).Some?
    decreases from
  {
    if from.Some? && from.value in s { AncestorsGrow(s, t, s[from.value].prev); }
  }

  lemma ReachableGrows(s: Blocks, keys: Keyring, t: Blocks, more: Keyring, roots: seq<Digest>, d: Digest)
    requires Learns(s, keys, t, more) && Reachable(s, keys, roots, d)
    ensures Reachable(t, more, roots, d)
  {
    var p :| Path(s, keys, roots, p) && p[|p| - 1] == d;
    assert Path(t, more, roots, p);
  }

  /** Every block of the search is held, and learning more reads it no better. */
  ghost predicate Settled(s: Blocks, keys: Keyring, t: Blocks, more: Keyring, q: Query)
    requires Sound(s) && Extends(s, t)
  {
    forall x :: InSearch(s, keys, q, x) ==> x in s && Read(s, keys, x) == Read(t, more, x)
  }

  lemma {:induction false} SettledPathIsOld(s: Blocks, keys: Keyring, t: Blocks, more: Keyring, q: Query, p: seq<Digest>)
    requires Sound(s) && Learns(s, keys, t, more) && Settled(s, keys, t, more, q)
    requires Path(t, more, q.roots, p)
    ensures Reachable(s, keys, q.roots, p[|p| - 1])
    decreases |p|
  {
    if |p| == 1 {
      assert Path(s, keys, q.roots, p);
    } else {
      var before := p[..|p| - 1];
      assert Path(t, more, q.roots, before);
      SettledPathIsOld(s, keys, t, more, q, before);
      assert InSearch(s, keys, q, p[|p| - 2]);
      ReachableStep(s, keys, q.roots, p[|p| - 2], p[|p| - 1]);
    }
  }

  /** A search with nothing left to learn does not grow. */
  lemma SettledSearchIsFinal(s: Blocks, keys: Keyring, t: Blocks, more: Keyring, q: Query, d: Digest)
    requires Sound(s) && Sound(t) && Learns(s, keys, t, more) && Settled(s, keys, t, more, q)
    requires InSearch(t, more, q, d)
    ensures InSearch(s, keys, q, d) && Defines(s, keys, d) == Defines(t, more, d)
  {
    AncestorsHeld(s, q.prev);
    if AncestorGap(s, q.prev).Some? {
      assert InSearch(s, keys, q, AncestorGap(s, q.prev).value);
    }
    AncestorsGrow(s, t, q.prev);
    if Reachable(t, more, q.roots, d) {
      var p :| Path(t, more, q.roots, p) && p[|p| - 1] == d;
      SettledPathIsOld(s, keys, t, more, q, p);
    }
  }

  lemma InSearchGrows(s: Blocks, keys: Keyring, t: Blocks, more: Keyring, q: Query, d: Digest)
    requires Sound(s) && Sound(t) && Learns(s, keys, t, more)
    requires InSearch(s, keys, q, d) && d in s
    ensures InSearch(t, more, q, d)
  {
    AncestorsHeld(s, q.prev);
    AncestorsGrow(s, t, q.prev);
    if Reachable(s, keys, q.roots, d) { ReachableGrows(s, keys, t, more, q.roots, d); }
  }

  /** Found stays found and absent stays absent, whatever arrives later. */
  lemma DecidedAnswersAreStable(s: Blocks, keys: Keyring, t: Blocks, more: Keyring, limit: int, q: Query, own: set<EntityDigest>, e: EntityDigest)
    requires Sound(s) && Sound(t) && Learns(s, keys, t, more) && limit < 0
    ensures Answers(s, keys, limit, q, own, e).Found? || Answers(s, keys, limit, q, own, e).Absent?
        ==> Answers(t, more, limit, q, own, e) == Answers(s, keys, limit, q, own, e)
  {
    UnlimitedAnswerIsReachability(s, keys, limit, q, own, e);
    UnlimitedAnswerIsReachability(t, more, limit, q, own, e);
    if Definable(s, keys, q, e) {
      var d :| InSearch(s, keys, q, d) && e in Defines(s, keys, d);
      InSearchGrows(s, keys, t, more, q, d);
      assert e in Defines(t, more, d);
    }
    if Answers(s, keys, limit, q, own, e).Absent? {
      forall d | InSearch(t, more, q, d)
        ensures InSearch(s, keys, q, d) && Legible(t, more, d) && Defines(t, more, d) == Defines(s, keys, d)
      {
        SettledSearchIsFinal(s, keys, t, more, q, d);
      }
    }
  }

  /** What a larger store finds, a smaller one finds or waits for: it never mistakes
      a digest for absent, nor for locked behind a key, for want of a block. */
  lemma SmallerStoreWaits(s: Blocks, t: Blocks, keys: Keyring, limit: int, q: Query, own: set<EntityDigest>, e: EntityDigest)
    requires Sound(s) && Sound(t) && Extends(s, t) && limit < 0
    requires Answers(t, keys, limit, q, own, e).Found?
    ensures var a := Answers(s, keys, limit, q, own, e);
      a.Found? || (a.Awaits? && InSearch(s, keys, q, a.missing) && a.missing !in s)
  {
    UnlimitedAnswerIsReachability(s, keys, limit, q, own, e);
    UnlimitedAnswerIsReachability(t, keys, limit, q, own, e);
    DecidedAnswersAreStable(s, keys, t, keys, limit, q, own, e);
    if Answers(s, keys, limit, q, own, e).Locked? && Definable(t, keys, q, e) {
      var d :| InSearch(t, keys, q, d) && e in Defines(t, keys, d);
      assert InSearch(s, keys, q, Answers(s, keys, limit, q, own, e).unreadable);
      SettledSearchIsFinal(s, keys, t, keys, q, d);
      assert Definable(s, keys, q, e);
    }
  }
}
