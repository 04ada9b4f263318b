/** Validating one block against a store: rules 3, 4, 5, 6, 7 and 10, in the order
    the code applies them. */
module Validation {
  import opened Blocks
  import opened Options
  import opened Search
  import Resolution
  import Sorting
  import opened Rules
  import GoResolver

  /** The three verdicts, a rejection naming its rule. `OverLimit` is rule 4's
      rejection for a search over the scan limit. */
  datatype Outcome =
    | Accepted
    | Rejected(rule: nat)
    | OverLimit
    | Awaiting(block: Digest)
    | NeedsKey(block: Digest)
  {
    /** Stored but unvalidated: the node has not been able to decide. */
    predicate Undecided() { Awaiting? || NeedsKey? }
  }

  /** Rule 3: the predecessor is held, accepted, by the same author, not a rotation. */
  function Link(s: Blocks, accepted: set<Digest>, b: Block): Outcome {
    if b.prev.None? then Accepted
    else if b.prev.value !in s || b.prev.value !in accepted then Awaiting(b.prev.value)
    else if s[b.prev.value].pub != b.pub then Rejected(3)
    else if s[b.prev.value].content.Rotation? then Rejected(3)
    else Accepted
  }

  /** Rules 6 and 10, for the entries of refs that are held. */
  function Hygiene(s: Blocks, b: Block, refs: seq<Digest>): Outcome {
    if refs == [] then Accepted
    else if refs[0] !in s then Hygiene(s, b, refs[1..])
    else if b.content.Public? && s[refs[0]].content.Private? then Rejected(6)
    else if s[refs[0]].pub == b.pub then Rejected(10)
    else Hygiene(s, b, refs[1..])
  }

  /** Rules 4 and 5 for the digests of one operation. */
  ghost function CheckReferences(s: Blocks, keys: Keyring, limit: int, q: Query, own: set<EntityDigest>, refs: seq<Reference>): Outcome
    requires Sound(s)
  {
    if refs == [] then Accepted
    else match Answers(s, keys, limit, q, own, refs[0].digest)
      case Found =>
        if !refs[0].digest.EntityHash? || RecordOf(refs[0].digest.entity).kind != refs[0].kind then Rejected(5)
        else CheckReferences(s, keys, limit, q, own, refs[1..])
      case Absent => Rejected(4)
      case LimitHit => OverLimit
      case Awaits(d) => Awaiting(d)
      case Locked(d) => NeedsKey(d)
  }

  /** Rule 5's filler count: a molecule has one filler for each variable of its bond. */
  predicate FillersFit(op: Operation) {
    op.Create? && op.entity.Molecule? && op.entity.bond.EntityHash? ==>
      |op.entity.fillers| == RecordOf(op.entity.bond.entity).variables
  }

  /** Rules 4 and 5, operation by operation; each sees what the earlier ones created. */
  ghost function CheckOperations(s: Blocks, keys: Keyring, limit: int, q: Query, own: set<EntityDigest>, ops: seq<Operation>): Outcome
    requires Sound(s)
    decreases |ops|
  {
    if ops == [] then Accepted
    else
      var o := CheckReferences(s, keys, limit, q, own, References(ops[0]));
      if !o.Accepted? then o
      else if !FillersFit(ops[0]) then Rejected(5)
      else CheckOperations(s, keys, limit, q, own + Created([ops[0]]), ops[1..])
  }

  /** Rules 4, 5, 6 and 10 of a block whose refs and operations are at hand. */
  ghost function JudgePayload(s: Blocks, keys: Keyring, limit: int, b: Block, p: Payload): Outcome
    requires Sound(s)
  {
    if !Hygiene(s, b, p.refs).Accepted? then Hygiene(s, b, p.refs)
    else CheckOperations(s, keys, limit, Query(b.prev, p.refs), {}, p.ops)
  }

  /** The verdict on a block, given the store and the blocks it has accepted. */
  ghost function Judge(s: Blocks, accepted: set<Digest>, keys: Keyring, limit: int, b: Block): Outcome
    requires Sound(s)
  {
    if Plaintext(b).Some? && Plaintext(b).value.ops == [] then Rejected(7)
    else if !Link(s, accepted, b).Accepted? then Link(s, accepted, b)
    else if Plaintext(b).None? then Accepted
    else JudgePayload(s, keys, limit, b, Plaintext(b).value)
  }

  /** How far into the refs graph the lookups of one operation read, and those of all. */
  ghost function DepthOfReferences(s: Blocks, keys: Keyring, q: Query, own: set<EntityDigest>, refs: seq<Reference>, from: nat): nat
    requires Sound(s)
    decreases |refs|
  {
    if refs == [] then from
    else DepthOfReferences(s, keys, q, own, refs[1..], GoResolver.Furthest(from, Depth(s, keys, q, own, refs[0].digest)))
  }

  ghost function DepthOfOperations(s: Blocks, keys: Keyring, q: Query, own: set<EntityDigest>, ops: seq<Operation>, from: nat): nat
    requires Sound(s)
    decreases |ops|
  {
    if ops == [] then from
    else DepthOfOperations(s, keys, q, own + Created([ops[0]]), ops[1..], DepthOfReferences(s, keys, q, own, References(ops[0]), from))
  }

  function HeldAmong(s: Blocks, list: seq<Digest>): set<Digest> { set d | d in list && d in s }

  /** The scan count of an accepted block: the held blocks of the refs graph up to the
      furthest place any of its lookups had to read. */
  ghost predicate ScannedAsNeeded(s: Blocks, keys: Keyring, b: Block, p: Payload, scanned: nat)
    requires Sound(s)
  {
    var list := Order(s, keys, p.refs);
    var depth := DepthOfOperations(s, keys, Query(b.prev, p.refs), {}, p.ops, 0);
    depth <= |list| && scanned == |HeldAmong(s, list[..depth])|
  }

  /** The refs entries rules 6 and 10 were not checked against. */
  function Unheld(s: Blocks, refs: seq<Digest>): seq<Digest> {
    if refs == [] then []
    else Unheld(s, refs[..|refs| - 1]) + (if refs[|refs| - 1] in s then [] else [refs[|refs| - 1]])
  }

  // ---- what the verdicts mean -----------------------------------------------------

  lemma AnswerMeaning(s: Blocks, keys: Keyring, limit: int, q: Query, ops: seq<Operation>, i: nat, e: EntityDigest)
    requires Sound(s) && limit < 0 && i <= |ops|
    ensures var a := Answers(s, keys, limit, q, Created(ops[..i]), e);
      && !a.LimitHit?
      && (a.Found? <==> e.EntityHash? && Known(s, keys, q, ops, i, e.entity))
      && (a.Absent? ==> RestsOnNothing(s, keys, q, ops, i, e))
      && (a.Awaits? ==> Searched(s, keys, q, a.missing) && a.missing !in s)
      && (a.Locked? ==> Searched(s, keys, q, a.unreadable) && Sealed(s, keys, a.unreadable))
  {
    hide Answers, Created, Searched, Provides, Resolution.InSearch, Resolution.Definable, Opens;
    Resolution.UnlimitedAnswerIsReachability(s, keys, limit, q, Created(ops[..i]), e);
    CreatedMeaning(ops[..i], e);
    ProvidesIsDefinable(s, keys, q, e);
    forall d ensures Searched(s, keys, q, d) <==> Resolution.InSearch(s, keys, q, d) { SearchedIsInSearch(s, keys, q, d); }
    var a := Answers(s, keys, limit, q, Created(ops[..i]), e);
    if a.Absent? {
      forall d | Searched(s, keys, q, d) ensures exists p :: Opens(s, keys, d, p) {
        OpensIsRead(s, keys, d, Read(s, keys, d).value);
      }
    }
  }

  /** The outcome for some digests of operation i, as the rules word it. */
  ghost predicate Explained(s: Blocks, keys: Keyring, q: Query, ops: seq<Operation>, i: nat, refs: seq<Reference>, o: Outcome)
    requires i <= |ops|
  {
    match o
    case Accepted => forall r :: r in refs ==> Rests(s, keys, q, ops, i, r.digest, r.kind)
    case Rejected(rule) =>
      || (rule == 4 && exists r :: r in refs && RestsOnNothing(s, keys, q, ops, i, r.digest) && !Rests(s, keys, q, ops, i, r.digest, r.kind))
      || (rule == 5 && exists r :: r in refs && RestsOnAnother(s, keys, q, ops, i, r.digest, r.kind) && !Rests(s, keys, q, ops, i, r.digest, r.kind))
    case OverLimit => false
    case Awaiting(d) => Searched(s, keys, q, d) && d !in s && exists r :: r in refs && !Rests(s, keys, q, ops, i, r.digest, r.kind)
    case NeedsKey(d) => Searched(s, keys, q, d) && Sealed(s, keys, d) && exists r :: r in refs && !Rests(s, keys, q, ops, i, r.digest, r.kind)
  }

  lemma KindOfRecord(e: Entity, kind: Kind)
    ensures RecordOf(e).kind == kind <==> IsKind(e, kind)
  {
  }

  lemma {:induction false} ReferencesExplained(s: Blocks, keys: Keyring, limit: int, q: Query, ops: seq<Operation>, i: nat, refs: seq<Reference>)
    requires Sound(s) && limit < 0 && i <= |ops|
    ensures Explained(s, keys, q, ops, i, refs, CheckReferences(s, keys, limit, q, Created(ops[..i]), refs))
    decreases |refs|
  {
    hide Answers, Created, Searched, Known, RestsOnNothing, IsKind, RecordOf, Sealed;
    if refs != [] {
      assert refs == [refs[0]] + refs[1..];
      assert refs[0] in refs && forall r :: r in refs <==> r == refs[0] || r in refs[1..];
      var e := refs[0].digest;
      AnswerMeaning(s, keys, limit, q, ops, i, e);
      if e.EntityHash? { KindOfRecord(e.entity, refs[0].kind); }
      ReferencesExplained(s, keys, limit, q, ops, i, refs[1..]);
    }
  }

  lemma FillersFitMeaning(s: Blocks, keys: Keyring, q: Query, ops: seq<Operation>, i: nat)
    requires i < |ops|
    requires forall digest, kind :: Carries(ops[i], digest, kind) ==> Rests(s, keys, q, ops, i, digest, kind)
    ensures FillersFit(ops[i]) <==> WellFilled(ops[i])
  {
    hide Known;
    if ops[i].Create? && ops[i].entity.Molecule? {
      assert Carries(ops[i], ops[i].entity.bond, BondKind);
      assert Rests(s, keys, q, ops, i, ops[i].entity.bond, BondKind);
    }
  }

  /** The outcome for one operation. */
  function OfOperation(o: Outcome, op: Operation): Outcome { if o.Accepted? && !FillersFit(op) then Rejected(5) else o }

  /** The outcome for the operations from k on, once those before k have passed. */
  ghost predicate Explains(s: Blocks, keys: Keyring, q: Query, ops: seq<Operation>, o: Outcome) {
    && (o.Accepted? <==> forall i :: 0 <= i < |ops| ==> Passes(s, keys, q, ops, i))
    && match o
       case Accepted => true
       case Rejected(rule) => exists i :: 0 <= i < |ops| && FailsFirst(s, keys, q, ops, i, rule)
       case OverLimit => false
       case Awaiting(d) => Searched(s, keys, q, d) && d !in s
       case NeedsKey(d) => Searched(s, keys, q, d) && Sealed(s, keys, d)
  }

  /** One operation passes, or fails as the rules word it. */
  lemma OperationExplained(s: Blocks, keys: Keyring, limit: int, q: Query, ops: seq<Operation>, i: nat)
    requires Sound(s) && limit < 0 && i < |ops| && forall j :: 0 <= j < i ==> Passes(s, keys, q, ops, j)
    ensures var o := OfOperation(CheckReferences(s, keys, limit, q, Created(ops[..i]), References(ops[i])), ops[i]);
      if o.Accepted? then Passes(s, keys, q, ops, i) else Explains(s, keys, q, ops, o)
  {
    hide CheckReferences, References, Created, Searched, RestsOnNothing, RestsOnAnother, Rests, WellFilled, FillersFit, Carries, Sealed;
    var refs := References(ops[i]);
    var o := CheckReferences(s, keys, limit, q, Created(ops[..i]), refs);
    ReferencesExplained(s, keys, limit, q, ops, i, refs);
    forall r: Reference ensures r in refs <==> Carries(ops[i], r.digest, r.kind) { ReferencesMeaning(ops[i], r); }
    if o.Accepted? {
      forall digest, kind | Carries(ops[i], digest, kind) ensures Rests(s, keys, q, ops, i, digest, kind) {
        assert Reference(digest, kind) in refs;
      }
      FillersFitMeaning(s, keys, q, ops, i);
      assert !WellFilled(ops[i]) ==> FailsFirst(s, keys, q, ops, i, 5) && !Passes(s, keys, q, ops, i);
    } else {
      var r :| r in refs && !Rests(s, keys, q, ops, i, r.digest, r.kind)
        && (o == Rejected(4) ==> RestsOnNothing(s, keys, q, ops, i, r.digest))
        && (o == Rejected(5) ==> RestsOnAnother(s, keys, q, ops, i, r.digest, r.kind));
      assert Carries(ops[i], r.digest, r.kind) && !Passes(s, keys, q, ops, i);
      assert o.Rejected? ==> FailsFirst(s, keys, q, ops, i, o.rule);
    }
  }

  lemma {:induction false} OperationsExplained(s: Blocks, keys: Keyring, limit: int, q: Query, ops: seq<Operation>, k: nat)
    requires Sound(s) && limit < 0 && k <= |ops| && forall j :: 0 <= j < k ==> Passes(s, keys, q, ops, j)
    ensures Explains(s, keys, q, ops, CheckOperations(s, keys, limit, q, Created(ops[..k]), ops[k..]))
    decreases |ops| - k
  {
    hide CheckReferences, References, Created, Explains, Passes, FillersFit;
    if k == |ops| {
      AllPass(s, keys, q, ops);
    } else {
      OperationExplained(s, keys, limit, q, ops, k);
      assert ops[k..][0] == ops[k] && ops[k..][1..] == ops[k + 1..];
      if OfOperation(CheckReferences(s, keys, limit, q, Created(ops[..k]), References(ops[k])), ops[k]).Accepted? {
        CreatedNext(ops, k);
        OperationsExplained(s, keys, limit, q, ops, k + 1);
      }
    }
  }

  lemma AllPass(s: Blocks, keys: Keyring, q: Query, ops: seq<Operation>)
    requires forall j :: 0 <= j < |ops| ==> Passes(s, keys, q, ops, j)
    ensures Explains(s, keys, q, ops, Accepted)
  {
  }

  lemma CreatedNext(ops: seq<Operation>, k: nat)
    requires k < |ops|
    ensures Created(ops[..k]) + Created([ops[k]]) == Created(ops[..k + 1])
  {
    assert ops[..k + 1] == ops[..k] + [ops[k]];
  }

  /** Passing rules 6 and 10 is every held ref being clean; failing them is a ref that
      is not. */
  lemma {:induction false} HygieneExplained(s: Blocks, b: Block, refs: seq<Digest>)
    ensures match Hygiene(s, b, refs)
      case Accepted => CleanRefs(s, b, refs)
      case Rejected(rule) =>
        || (rule == 6 && b.content.Public? && exists d :: d in refs && d in s && s[d].content.Private?)
        || (rule == 10 && exists d :: d in refs && d in s && s[d].pub == b.pub)
      case _ => false
    ensures Hygiene(s, b, refs).Accepted? <==> CleanRefs(s, b, refs)
    decreases |refs|
  {
    if refs != [] {
      HygieneExplained(s, b, refs[1..]);
      assert refs == [refs[0]] + refs[1..];
      assert refs[0] in refs && forall d :: d in refs <==> d == refs[0] || d in refs[1..];
    }
  }

  lemma LinkExplained(s: Blocks, accepted: set<Digest>, b: Block)
    ensures match Link(s, accepted, b)
      case Accepted => MayExtend(s, accepted, b)
      case Rejected(rule) => rule == 3 && b.prev.Some? && b.prev.value in s && b.prev.value in accepted && !MayExtend(s, accepted, b)
      case Awaiting(d) => b.prev == Some(d) && !(d in s && d in accepted)
      case _ => false
    ensures Link(s, accepted, b).Accepted? <==> MayExtend(s, accepted, b)
  {
  }

  lemma RotationRestsOnNothing(s: Blocks, keys: Keyring, limit: int, q: Query, newPub: Key)
    requires Sound(s)
    ensures CheckOperations(s, keys, limit, q, {}, [RotateKey(newPub)]).Accepted?
  {
    assert [RotateKey(newPub)][1..] == [];
  }

  /** What the verdict on a block comes to, with no scan limit. */
  ghost predicate Means(s: Blocks, accepted: set<Digest>, keys: Keyring, b: Block, o: Outcome) {
    && (o.Accepted? <==> Acceptable(s, accepted, keys, b))
    && match o
       case Accepted => true
       case Rejected(rule) => Breaks(s, accepted, keys, b, rule)
       case OverLimit => false
       case Awaiting(d) => Wants(s, accepted, keys, b, d)
       case NeedsKey(d) => MayExtend(s, accepted, b) && WantsKey(s, keys, b, d)
  }

  /** Rules 4, 5, 6 and 10, with no scan limit. */
  lemma PayloadMeaning(s: Blocks, keys: Keyring, limit: int, b: Block, p: Payload)
    requires Sound(s) && limit < 0
    ensures JudgePayload(s, keys, limit, b, p).Accepted?
       <==> CleanRefs(s, b, p.refs) && forall i :: 0 <= i < |p.ops| ==> Passes(s, keys, Query(b.prev, p.refs), p.ops, i)
  {
    hide Hygiene, CheckOperations, CleanRefs, Passes;
    HygieneExplained(s, b, p.refs);
    assert p.ops[..0] == [] && p.ops[0..] == p.ops && Created([]) == {};
    OperationsExplained(s, keys, limit, Query(b.prev, p.refs), p.ops, 0);
  }

  lemma VerdictMeaning(s: Blocks, accepted: set<Digest>, keys: Keyring, limit: int, b: Block)
    requires Sound(s) && limit < 0
    ensures Means(s, accepted, keys, b, Judge(s, accepted, keys, limit, b))
  {
    hide Link, Hygiene, CheckOperations, MayExtend, CleanRefs, Searched, FailsFirst, Passes;
    LinkExplained(s, accepted, b);
    if Link(s, accepted, b).Accepted? && Plaintext(b).Some? {
      var p := Plaintext(b).value;
      HygieneExplained(s, b, p.refs);
      if b.content.Public? {
        assert p.ops[..0] == [] && p.ops[0..] == p.ops && Created([]) == {};
        OperationsExplained(s, keys, limit, Query(b.prev, p.refs), p.ops, 0);
      } else {
        RotationRestsOnNothing(s, keys, limit, Query(b.prev, p.refs), b.content.newPub);
      }
    }
  }

  // ---- what the scan limit costs --------------------------------------------------

  /** The refs graph up to a place holds no more blocks than the limit allows. */
  ghost predicate Affords(s: Blocks, keys: Keyring, limit: int, q: Query, depth: nat) {
    var list := Order(s, keys, q.roots);
    depth <= |list| && (limit < 0 || HeldCount(s, list[..depth]) <= limit)
  }

  lemma AnswerAffordable(s: Blocks, keys: Keyring, limit: int, q: Query, own: set<EntityDigest>, e: EntityDigest)
    requires Sound(s)
    ensures Depth(s, keys, q, own, e) <= |Order(s, keys, q.roots)|
    ensures limit >= 0 ==> (Answers(s, keys, limit, q, own, e).Found?
       <==> Answers(s, keys, -1, q, own, e).Found? && Affords(s, keys, limit, q, Depth(s, keys, q, own, e)))
  {
    hide Order, HeldCount, Defines, AllDefined, Ancestors, Sound;
    FirstDefiningMeaning(s, keys, Order(s, keys, q.roots), e);
    assert HeldCount(s, Order(s, keys, q.roots)[..0]) == 0 by { NothingHeld(s, Order(s, keys, q.roots)); }
    FailureFindsNothing(s, keys, q);
  }

  lemma FailureFindsNothing(s: Blocks, keys: Keyring, q: Query)
    requires Sound(s)
    ensures !Failure(s, keys, q).Found?
  {
  }

  lemma NothingHeld(s: Blocks, list: seq<Digest>)
    ensures HeldCount(s, list[..0]) == 0
  {
  }

  /** Reading up to the further of two places is affordable if reading up to each is. */
  lemma FurthestAffordable(s: Blocks, keys: Keyring, limit: int, q: Query, x: nat, y: nat)
    ensures Affords(s, keys, limit, q, GoResolver.Furthest(x, y)) <==> Affords(s, keys, limit, q, x) && Affords(s, keys, limit, q, y)
  {
    hide Order, HeldCount;
    var list := Order(s, keys, q.roots);
    if x <= y <= |list| { HeldCountMonotone(s, list, x, y); }
    if y <= x <= |list| { HeldCountMonotone(s, list, y, x); }
  }

  lemma {:induction false} ReferencesAffordable(s: Blocks, keys: Keyring, limit: int, q: Query, own: set<EntityDigest>, refs: seq<Reference>, from: nat)
    requires Sound(s) && limit >= 0 && Affords(s, keys, limit, q, from)
    ensures CheckReferences(s, keys, limit, q, own, refs).Accepted?
       <==> CheckReferences(s, keys, -1, q, own, refs).Accepted? && Affords(s, keys, limit, q, DepthOfReferences(s, keys, q, own, refs, from))
    decreases |refs|
  {
    hide Answers, Depth, Sound, Affords, GoResolver.Furthest;
    if refs != [] {
      var depth := Depth(s, keys, q, own, refs[0].digest);
      AnswerAffordable(s, keys, limit, q, own, refs[0].digest);
      FurthestAffordable(s, keys, limit, q, from, depth);
      if Affords(s, keys, limit, q, depth) {
        ReferencesAffordable(s, keys, limit, q, own, refs[1..], GoResolver.Furthest(from, depth));
      } else {
        DepthOnlyGrows(s, keys, limit, q, own, refs[1..], GoResolver.Furthest(from, depth));
      }
    }
  }

  lemma {:induction false} DepthOnlyGrows(s: Blocks, keys: Keyring, limit: int, q: Query, own: set<EntityDigest>, refs: seq<Reference>, from: nat)
    requires Sound(s) && !Affords(s, keys, limit, q, from)
    ensures !Affords(s, keys, limit, q, DepthOfReferences(s, keys, q, own, refs, from))
    decreases |refs|
  {
    hide Depth, Sound, Affords, GoResolver.Furthest;
    if refs != [] {
      var depth := Depth(s, keys, q, own, refs[0].digest);
      FurthestAffordable(s, keys, limit, q, from, depth);
      DepthOnlyGrows(s, keys, limit, q, own, refs[1..], GoResolver.Furthest(from, depth));
    }
  }

  lemma {:induction false} OperationsDepthGrows(s: Blocks, keys: Keyring, limit: int, q: Query, own: set<EntityDigest>, ops: seq<Operation>, from: nat)
    requires Sound(s) && !Affords(s, keys, limit, q, from)
    ensures !Affords(s, keys, limit, q, DepthOfOperations(s, keys, q, own, ops, from))
    decreases |ops|
  {
    hide DepthOfReferences, Sound, Affords;
    if ops != [] {
      DepthOnlyGrows(s, keys, limit, q, own, References(ops[0]), from);
      OperationsDepthGrows(s, keys, limit, q, own + Created([ops[0]]), ops[1..], DepthOfReferences(s, keys, q, own, References(ops[0]), from));
    }
  }

  lemma {:induction false} OperationsAffordable(s: Blocks, keys: Keyring, limit: int, q: Query, own: set<EntityDigest>, ops: seq<Operation>, from: nat)
    requires Sound(s) && limit >= 0 && Affords(s, keys, limit, q, from)
    ensures CheckOperations(s, keys, limit, q, own, ops).Accepted?
       <==> CheckOperations(s, keys, -1, q, own, ops).Accepted? && Affords(s, keys, limit, q, DepthOfOperations(s, keys, q, own, ops, from))
    decreases |ops|
  {
    hide CheckReferences, DepthOfReferences, Sound, Affords, FillersFit;
    if ops != [] {
      var depth := DepthOfReferences(s, keys, q, own, References(ops[0]), from);
      ReferencesAffordable(s, keys, limit, q, own, References(ops[0]), from);
      if Affords(s, keys, limit, q, depth) {
        OperationsAffordable(s, keys, limit, q, own + Created([ops[0]]), ops[1..], depth);
      } else {
        OperationsDepthGrows(s, keys, limit, q, own + Created([ops[0]]), ops[1..], depth);
      }
    }
  }

  /** What a block's lookups must read of the refs graph is within the limit. */
  ghost predicate Affordable(s: Blocks, keys: Keyring, limit: int, b: Block)
    requires Sound(s)
  {
    b.content.Public? ==>
      var p := b.content.payload;
      var depth := DepthOfOperations(s, keys, Query(b.prev, p.refs), {}, p.ops, 0);
      depth <= |Order(s, keys, p.refs)| && |HeldAmong(s, Order(s, keys, p.refs)[..depth])| <= limit
  }

  lemma {:induction false} CountIsHowMany(s: Blocks, list: seq<Digest>)
    requires Sorting.NoRepeats(list)
    ensures HeldCount(s, list) == |HeldAmong(s, list)|
    decreases |list|
  {
    if list != [] {
      var most, last := list[..|list| - 1], list[|list| - 1];
      CountIsHowMany(s, most);
      assert list == most + [last] && last !in most;
      assert HeldAmong(s, list) == HeldAmong(s, most) + (if last in s then {last} else {});
    }
  }

  lemma ReadIsHowMany(s: Blocks, keys: Keyring, roots: seq<Digest>, depth: nat)
    requires depth <= |Order(s, keys, roots)|
    ensures HeldCount(s, Order(s, keys, roots)[..depth]) == |HeldAmong(s, Order(s, keys, roots)[..depth])|
  {
    OrderIsReachability(s, keys, roots);
    hide Order, Reachable;
    CountIsHowMany(s, Order(s, keys, roots)[..depth]);
  }

  /** A scan limit refuses exactly the acceptable blocks whose search it cannot afford. */
  lemma AcceptanceUnderLimit(s: Blocks, accepted: set<Digest>, keys: Keyring, limit: int, b: Block)
    requires Sound(s) && limit >= 0
    ensures Judge(s, accepted, keys, limit, b).Accepted? <==> Acceptable(s, accepted, keys, b) && Affordable(s, keys, limit, b)
  {
    hide Link, Hygiene, CheckOperations, Acceptable, Affords, DepthOfOperations, Means, Order, HeldAmong;
    VerdictMeaning(s, accepted, keys, -1, b);
    assert Judge(s, accepted, keys, -1, b).Accepted? <==> Acceptable(s, accepted, keys, b) by {
      AcceptableMeans(s, accepted, keys, b, Judge(s, accepted, keys, -1, b));
    }
    if Plaintext(b).Some? {
      var p := Plaintext(b).value;
      if b.content.Public? {
        StartAffordable(s, keys, limit, Query(b.prev, p.refs));
        OperationsAffordable(s, keys, limit, Query(b.prev, p.refs), {}, p.ops, 0);
        AffordsIsHowMany(s, keys, limit, Query(b.prev, p.refs), DepthOfOperations(s, keys, Query(b.prev, p.refs), {}, p.ops, 0));
      } else {
        RotationRestsOnNothing(s, keys, limit, Query(b.prev, p.refs), b.content.newPub);
        RotationRestsOnNothing(s, keys, -1, Query(b.prev, p.refs), b.content.newPub);
      }
    }
  }

  lemma AcceptableMeans(s: Blocks, accepted: set<Digest>, keys: Keyring, b: Block, o: Outcome)
    requires Means(s, accepted, keys, b, o)
    ensures o.Accepted? <==> Acceptable(s, accepted, keys, b)
  {
  }

  lemma AffordsIsHowMany(s: Blocks, keys: Keyring, limit: int, q: Query, depth: nat)
    requires limit >= 0
    ensures Affords(s, keys, limit, q, depth)
       <==> depth <= |Order(s, keys, q.roots)| && |HeldAmong(s, Order(s, keys, q.roots)[..depth])| <= limit
  {
    hide Order, HeldCount;
    if depth <= |Order(s, keys, q.roots)| { ReadIsHowMany(s, keys, q.roots, depth); }
  }

  lemma StartAffordable(s: Blocks, keys: Keyring, limit: int, q: Query)
    requires limit >= 0
    ensures Affords(s, keys, limit, q, 0)
  {
    NothingHeld(s, Order(s, keys, q.roots));
  }

  // ---- the validator ----------------------------------------------------------

  lemma {:induction false} HygieneConcat(s: Blocks, b: Block, x: seq<Digest>, y: seq<Digest>)
    requires Hygiene(s, b, x).Accepted?
    ensures Hygiene(s, b, x + y) == Hygiene(s, b, y)
  {
    if x == [] {
      assert x + y == y;
    } else {
      assert (x + y)[1..] == x[1..] + y;
      HygieneConcat(s, b, x[1..], y);
    }
  }

  method CheckHygiene(r: GoResolver.Resolver, b: Block, refs: seq<Digest>) returns (o: Outcome, unchecked: seq<Digest>)
    requires r.Valid()
    modifies r
    ensures r.Valid() && r.own == old(r.own) && r.read == old(r.read)
    ensures o == Hygiene(r.src, b, refs)
    ensures o.Accepted? ==> unchecked == Unheld(r.src, refs)
  {
    hide Sound, GoResolver.At, GoResolver.Known;
    unchecked := [];
    for i := 0 to |refs|
      invariant r.Valid() && r.own == old(r.own) && r.read == old(r.read)
      invariant Hygiene(r.src, b, refs[..i]).Accepted? && unchecked == Unheld(r.src, refs[..i])
    {
      assert refs == refs[..i] + refs[i..] && refs[i..][1..] == refs[i + 1..];
      assert refs[..i + 1][..i] == refs[..i] && refs[..i + 1] == refs[..i] + [refs[i]];
      HygieneConcat(r.src, b, refs[..i], refs[i..]);
      HygieneConcat(r.src, b, refs[..i], [refs[i]]);
      var target := r.Fetch(refs[i]);
      if target.None? {
        unchecked := unchecked + [refs[i]];
      } else if b.content.Public? && target.value.content.Private? {
        return Rejected(6), unchecked;
      } else if target.value.pub == b.pub {
        return Rejected(10), unchecked;
      }
    }
    assert refs[..|refs|] == refs;
    return Accepted, unchecked;
  }

  method ResolveReferences(r: GoResolver.Resolver, refs: seq<Reference>) returns (o: Outcome)
    requires r.Valid() && r.read <= Order(r.src, r.keys, r.query.roots)
    modifies r
    ensures o == CheckReferences(r.src, r.keys, r.limit, r.query, old(r.own), refs)
    ensures o.Accepted? ==> r.Valid() && r.own == old(r.own) && r.read <= Order(r.src, r.keys, r.query.roots)
    ensures o.Accepted? ==> |r.read| == DepthOfReferences(r.src, r.keys, r.query, old(r.own), refs, old(|r.read|))
  {
    hide Sound, GoResolver.At, GoResolver.Known, Answers, Depth, Order, GoResolver.Furthest;
    assert refs[0..] == refs;
    for i := 0 to |refs|
      invariant r.Valid() && r.own == old(r.own) && r.read <= Order(r.src, r.keys, r.query.roots)
      invariant DepthOfReferences(r.src, r.keys, r.query, r.own, refs[i..], |r.read|)
             == DepthOfReferences(r.src, r.keys, r.query, r.own, refs, old(|r.read|))
      invariant CheckReferences(r.src, r.keys, r.limit, r.query, r.own, refs[i..])
             == CheckReferences(r.src, r.keys, r.limit, r.query, r.own, refs)
    {
      assert refs[i..][0] == refs[i] && refs[i..][1..] == refs[i + 1..];
      var a, rec := r.Resolve(refs[i].digest);
      match a
      case Found => if rec.kind != refs[i].kind { return Rejected(5); }
      case Absent => return Rejected(4);
      case LimitHit => return OverLimit;
      case Awaits(d) => return Awaiting(d);
      case Locked(d) => return NeedsKey(d);
    }
    return Accepted;
  }

  method ValidateReferences(b: Block, p: Payload, s: Blocks, keys: Keyring, limit: int)
    returns (o: Outcome, unchecked: seq<Digest>, scanned: nat)
    requires Sound(s)
    ensures o == JudgePayload(s, keys, limit, b, p)
    ensures limit < 0 ==> (o.Accepted? <==>
              CleanRefs(s, b, p.refs) && forall i :: 0 <= i < |p.ops| ==> Passes(s, keys, Query(b.prev, p.refs), p.ops, i))
    ensures o.Accepted? ==> unchecked == Unheld(s, p.refs) && ScannedAsNeeded(s, keys, b, p, scanned)
  {
    hide Sound, GoResolver.At, GoResolver.Known, CheckReferences, Hygiene, Created, Order, HeldCount, DepthOfReferences;
    if limit < 0 { PayloadMeaning(s, keys, limit, b, p); }
    hide CleanRefs, Passes;
    var r := new GoResolver.Resolver(s, keys, limit, b.prev, p.refs);
    scanned := 0;
    o, unchecked := CheckHygiene(r, b, p.refs);
    if !o.Accepted? { return; }
    var ops := p.ops;
    assert ops[0..] == ops;
    for i := 0 to |ops|
      invariant fresh(r) && r.Valid() && r.read <= Order(s, keys, p.refs)
      invariant DepthOfOperations(s, keys, r.query, r.own, ops[i..], |r.read|) == DepthOfOperations(s, keys, r.query, {}, ops, 0)
      invariant CheckOperations(s, keys, limit, r.query, r.own, ops[i..]) == CheckOperations(s, keys, limit, r.query, {}, ops)
    {
      assert ops[i..][0] == ops[i] && ops[i..][1..] == ops[i + 1..];
      o := ResolveReferences(r, References(ops[i]));
      if !o.Accepted? { return; }
      if !FillersFit(ops[i]) { return Rejected(5), unchecked, scanned; }
      r.DefineOwn(ops[i]);
    }
    GoResolver.ScannedIsHeld(s, keys, limit, r.query, r.Here());
    assert ops[|ops|..] == [] && r.read == Order(s, keys, p.refs)[..|r.read|];
    ReadIsHowMany(s, keys, p.refs, |r.read|);
    o, scanned := Accepted, r.scanned;
  }

  method Validate(b: Block, s: Blocks, accepted: set<Digest>, keys: Keyring, limit: int)
    returns (o: Outcome, unchecked: seq<Digest>, scanned: nat)
    requires Sound(s)
    ensures o == Judge(s, accepted, keys, limit, b)
    ensures limit < 0 ==> Means(s, accepted, keys, b, o)
    ensures limit >= 0 ==> (o.Accepted? <==> Acceptable(s, accepted, keys, b) && Affordable(s, keys, limit, b))
    ensures o.Accepted? && Plaintext(b).Some? ==>
              unchecked == Unheld(s, Plaintext(b).value.refs) && ScannedAsNeeded(s, keys, b, Plaintext(b).value, scanned)
  {
    hide Means, Acceptable, Affordable, ScannedAsNeeded, Unheld, JudgePayload, Link;
    if limit < 0 { VerdictMeaning(s, accepted, keys, limit, b); } else { AcceptanceUnderLimit(s, accepted, keys, limit, b); }
    var p := Plaintext(b);
    if p.Some? && p.value.ops == [] { return Rejected(7), [], 0; }
    var link := Link(s, accepted, b);
    if !link.Accepted? { return link, [], 0; }
    if p.None? { return Accepted, [], 0; }
    o, unchecked, scanned := ValidateReferences(b, p.value, s, keys, limit);
  }
}
