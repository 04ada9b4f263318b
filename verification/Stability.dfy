/** How a verdict may move as the store grows. */
module Stability {
  import opened Blocks
  import opened Options
  import opened Search
  import opened Resolution
  import opened Validation

  predicate Decided(o: Outcome) { o.Accepted? || o.Rejected? }

  lemma {:induction false} ReferencesStable(s: Blocks, keys: Keyring, t: Blocks, more: Keyring, limit: int, q: Query, own: set<EntityDigest>, refs: seq<Reference>)
    requires Sound(s) && Sound(t) && Learns(s, keys, t, more) && limit < 0
    requires Decided(CheckReferences(s, keys, limit, q, own, refs))
    ensures CheckReferences(t, more, limit, q, own, refs) == CheckReferences(s, keys, limit, q, own, refs)
    decreases |refs|
  {
    hide Answers, Sound, Extends;
    if refs != [] {
      DecidedAnswersAreStable(s, keys, t, more, limit, q, own, refs[0].digest);
      UnlimitedAnswerIsReachability(s, keys, limit, q, own, refs[0].digest);
      if Answers(s, keys, limit, q, own, refs[0].digest).Found?
         && refs[0].digest.EntityHash? && RecordOf(refs[0].digest.entity).kind == refs[0].kind {
        ReferencesStable(s, keys, t, more, limit, q, own, refs[1..]);
      }
    }
  }

  /** Rules 4 and 5 with no scan limit: an acceptance and a definitive rejection stay
      as they are, whatever blocks or keys arrive; only the undecided outcome moves. */
  lemma {:induction false} OperationsStable(s: Blocks, keys: Keyring, t: Blocks, more: Keyring, limit: int, q: Query, own: set<EntityDigest>, ops: seq<Operation>)
    requires Sound(s) && Sound(t) && Learns(s, keys, t, more) && limit < 0
    requires Decided(CheckOperations(s, keys, limit, q, own, ops))
    ensures CheckOperations(t, more, limit, q, own, ops) == CheckOperations(s, keys, limit, q, own, ops)
    decreases |ops|
  {
    hide CheckReferences, Sound, Extends;
    if ops != [] {
      ReferencesStable(s, keys, t, more, limit, q, own, References(ops[0]));
      if CheckReferences(s, keys, limit, q, own, References(ops[0])).Accepted? && FillersFit(ops[0]) {
        OperationsStable(s, keys, t, more, limit, q, own + Created([ops[0]]), ops[1..]);
      }
    }
  }

  // ---- rules 6 and 10 are not stable, and exactly how --------------------------

  /** Rules 6 and 10 hold of one referenced block. */
  predicate Clean(s: Blocks, b: Block, d: Digest)
    requires d in s
  {
    !(b.content.Public? && s[d].content.Private?) && s[d].pub != b.pub
  }

  lemma {:induction false} HygieneMeaning(s: Blocks, b: Block, refs: seq<Digest>)
    ensures Hygiene(s, b, refs).Accepted? <==> forall d :: d in refs && d in s ==> Clean(s, b, d)
    decreases |refs|
  {
    if refs != [] { HygieneMeaning(s, b, refs[1..]); }
  }

  lemma {:induction false} UnheldMeaning(s: Blocks, refs: seq<Digest>)
    ensures forall d :: d in Unheld(s, refs) <==> d in refs && d !in s
    decreases |refs|
  {
    if refs != [] {
      UnheldMeaning(s, refs[..|refs| - 1]);
      assert refs == refs[..|refs| - 1] + [refs[|refs| - 1]];
    }
  }

  /** What validation would say again of a block it has accepted, once the store has
      grown, rests on the unchecked refs entries and on nothing else: it is accepted
      again exactly if each of those that has arrived satisfies rules 6 and 10. */
  lemma UncheckedRefsAreTheWholeReservation(s: Blocks, t: Blocks, keys: Keyring, limit: int, b: Block, p: Payload)
    requires Sound(s) && Sound(t) && Extends(s, t) && limit < 0
    requires JudgePayload(s, keys, limit, b, p).Accepted?
    ensures JudgePayload(t, keys, limit, b, p).Accepted?
       <==> forall d :: d in Unheld(s, p.refs) && d in t ==> Clean(t, b, d)
  {
    hide CheckOperations, Sound;
    HygieneMeaning(s, b, p.refs);
    HygieneMeaning(t, b, p.refs);
    UnheldMeaning(s, p.refs);
    OperationsStable(s, keys, t, keys, limit, Query(b.prev, p.refs), {}, p.ops);
  }

  /** And one can arrive that does not: this is why an accepted verdict is kept
      rather than recomputed. */
  lemma AcceptedVerdictWouldNotSurviveRevalidation()
    ensures exists s: Blocks, t: Blocks, b: Block ::
      && Sound(s) && Sound(t) && Extends(s, t)
      && Judge(s, {}, {}, -1, b).Accepted? && Judge(t, {}, {}, -1, b) == Rejected(6)
  {
    var late := Block(1, None, Private(Payload([], []), 0));
    var op := Create(Atom("a"));
    var b := Block(0, None, Public(Payload([BlockHash(late)], [op])));
    var s: Blocks, t: Blocks := map[], map[BlockHash(late) := late];
    var p := Payload([BlockHash(late)], [op]);
    assert References(op) == [];
    assert p.ops[1..] == [] && p.refs[1..] == [];
    assert Plaintext(b) == Some(p);
    assert Hygiene(s, b, p.refs[1..]).Accepted?;
    assert Hygiene(s, b, p.refs).Accepted?;
    assert CheckReferences(s, {}, -1, Query(None, p.refs), {}, []).Accepted?;
    assert CheckOperations(s, {}, -1, Query(None, p.refs), {} + Created([op]), []).Accepted?;
    assert CheckOperations(s, {}, -1, Query(None, p.refs), {}, p.ops).Accepted?;
    assert Judge(s, {}, {}, -1, b).Accepted?;
    assert Judge(t, {}, {}, -1, b) == Rejected(6);
  }

  // ---- a smaller store waits, it does not reject -------------------------------

  lemma {:induction false} SmallerStoreWaitsForReferences(s: Blocks, t: Blocks, keys: Keyring, limit: int, q: Query, own: set<EntityDigest>, refs: seq<Reference>)
    requires Sound(s) && Sound(t) && Extends(s, t) && limit < 0
    requires CheckReferences(t, keys, limit, q, own, refs).Accepted?
    ensures var o := CheckReferences(s, keys, limit, q, own, refs);
      o.Accepted? || (o.Awaiting? && InSearch(s, keys, q, o.block) && o.block !in s)
    decreases |refs|
  {
    hide Answers, Sound, Extends, InSearch;
    if refs != [] {
      SmallerStoreWaits(s, t, keys, limit, q, own, refs[0].digest);
      SmallerStoreWaitsForReferences(s, t, keys, limit, q, own, refs[1..]);
    }
  }

  lemma {:induction false} SmallerStoreWaitsForOperations(s: Blocks, t: Blocks, keys: Keyring, limit: int, q: Query, own: set<EntityDigest>, ops: seq<Operation>)
    requires Sound(s) && Sound(t) && Extends(s, t) && limit < 0
    requires CheckOperations(t, keys, limit, q, own, ops).Accepted?
    ensures var o := CheckOperations(s, keys, limit, q, own, ops);
      o.Accepted? || (o.Awaiting? && InSearch(s, keys, q, o.block) && o.block !in s)
    decreases |ops|
  {
    hide CheckReferences, Sound, Extends, InSearch;
    if ops != [] {
      SmallerStoreWaitsForReferences(s, t, keys, limit, q, own, References(ops[0]));
      SmallerStoreWaitsForOperations(s, t, keys, limit, q, own + Created([ops[0]]), ops[1..]);
    }
  }

  // ---- complete sets of blocks -------------------------------------------------

  /** A set of blocks closed under everything resolution follows. */
  ghost predicate ClosedSet(s: Blocks, keys: Keyring) {
    && (forall d :: d in s && s[d].prev.Some? ==> s[d].prev.value in s)
    && (forall d, x :: d in s && x in Out(s, keys, d) ==> x in s)
  }

  lemma ClosedFollows(s: Blocks, t: Blocks, keys: Keyring, d: Digest, x: Digest)
    requires Extends(s, t) && ClosedSet(t, keys) && d in t && x in Out(s, keys, d)
    ensures x in t
  {
    assert x in Out(t, keys, d);
  }

  lemma {:induction false} PathInClosedSet(s: Blocks, t: Blocks, keys: Keyring, roots: seq<Digest>, p: seq<Digest>)
    requires Extends(s, t) && ClosedSet(t, keys) && Path(s, keys, roots, p)
    requires forall r :: r in roots ==> r in t
    ensures p[|p| - 1] in t
    decreases |p|
  {
    hide Out, Extends, ClosedSet;
    if |p| > 1 {
      var before := p[..|p| - 1];
      assert Path(s, keys, roots, before);
      PathInClosedSet(s, t, keys, roots, before);
      ClosedFollows(s, t, keys, p[|p| - 2], p[|p| - 1]);
    }
  }

  lemma {:induction false} GapInClosedSet(s: Blocks, t: Blocks, keys: Keyring, from: Option<Digest>)
    requires Sound(s) && Extends(s, t) && ClosedSet(t, keys)
    requires from.Some? ==> from.value in t
    ensures AncestorGap(s, from).Some? ==> AncestorGap(s, from).value in t
    decreases from
  {
    if from.Some? && from.value in s { GapInClosedSet(s, t, keys, s[from.value].prev); }
  }

  /** What a part of a closed set searches is inside the closed set. */
  lemma SearchInClosedSet(s: Blocks, t: Blocks, keys: Keyring, q: Query, d: Digest)
    requires Sound(s) && Extends(s, t) && ClosedSet(t, keys) && InSearch(s, keys, q, d)
    requires (q.prev.Some? ==> q.prev.value in t) && forall r :: r in q.roots ==> r in t
    ensures d in t
  {
    AncestorsHeld(s, q.prev);
    GapInClosedSet(s, t, keys, q.prev);
    if Reachable(s, keys, q.roots, d) {
      var p :| Path(s, keys, q.roots, p) && p[|p| - 1] == d;
      PathInClosedSet(s, t, keys, q.roots, p);
    }
  }

  /** Every block of the set is valid against the whole set. */
  ghost predicate GoodSet(t: Blocks, keys: Keyring, limit: int) {
    && Sound(t) && ClosedSet(t, keys)
    && forall d :: d in t ==> Judge(t, t.Keys, keys, limit, t[d]).Accepted?
  }

  /** A node holding part of a good set accepts a block of it or waits: for a block
      it does not hold, or for the predecessor it has not accepted. */
  lemma PartOfGoodSetWaits(s: Blocks, t: Blocks, keys: Keyring, limit: int, accepted: set<Digest>, d: Digest)
    requires GoodSet(t, keys, limit) && Sound(s) && Extends(s, t) && limit < 0
    requires d in t
    ensures var o := Judge(s, accepted, keys, limit, t[d]);
      o.Accepted? || (o.Awaiting? && o.block in t && (o.block !in s || (t[d].prev == Some(o.block) && o.block !in accepted)))
  {
    hide CheckOperations, Sound, Hygiene;
    var b := t[d];
    if Link(s, accepted, b).Accepted? && Plaintext(b).Some? {
      var p := Plaintext(b).value;
      HygieneMeaning(s, b, p.refs);
      HygieneMeaning(t, b, p.refs);
      SmallerStoreWaitsForOperations(s, t, keys, limit, Query(b.prev, p.refs), {}, p.ops);
      var o := CheckOperations(s, keys, limit, Query(b.prev, p.refs), {}, p.ops);
      assert forall r :: r in p.refs ==> r in Out(t, keys, d);
      if o.Awaiting? { SearchInClosedSet(s, t, keys, Query(b.prev, p.refs), o.block); }
    }
  }
}
