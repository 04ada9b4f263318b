/** The validation rules as the protocol words them, on the fields of blocks and entities:
    which block may follow which, which refs are clean, what a search reaches and provides,
    and what every operation must rest on. Nothing here says how they are checked. */
module Rules {
  import opened Blocks
  import opened Options
  import opened Search
  import opened Resolution

  // ---- what can be read -----------------------------------------------------------

  /** A node with these keys reads this payload of a held block. */
  ghost predicate Opens(s: Blocks, keys: Keyring, d: Digest, p: Payload) {
    d in s && match s[d].content
      case Public(payload) => p == payload
      case Rotation(refs, newPub) => p == Payload(refs, [RotateKey(newPub)])
      case Private(sealed, _) => d in keys && p == sealed
  }

  /** A run of blocks down the author's chain from where prev points; only its last block
      may be missing. */
  ghost predicate DownChain(s: Blocks, from: Option<Digest>, path: seq<Digest>) {
    && |path| > 0 && from == Some(path[0])
    && forall i :: 0 <= i < |path| - 1 ==> path[i] in s && s[path[i]].prev == Some(path[i + 1])
  }

  /** A run of blocks each named in the refs of a payload of the one before. */
  ghost predicate AlongRefs(s: Blocks, keys: Keyring, roots: seq<Digest>, path: seq<Digest>) {
    && |path| > 0 && path[0] in roots
    && forall i :: 0 <= i < |path| - 1 ==> RefersTo(s, keys, path[i], path[i + 1])
  }

  ghost predicate RefersTo(s: Blocks, keys: Keyring, d: Digest, x: Digest) {
    exists p :: Opens(s, keys, d, p) && x in p.refs
  }

  /** The search of a block with this predecessor and these refs comes to d. */
  ghost predicate Searched(s: Blocks, keys: Keyring, q: Query, d: Digest) {
    exists path :: (DownChain(s, q.prev, path) || AlongRefs(s, keys, q.roots, path)) && path[|path| - 1] == d
  }

  /** A block the search comes to can be read and creates the entity. */
  ghost predicate Provides(s: Blocks, keys: Keyring, q: Query, e: Entity) {
    exists d, p :: Searched(s, keys, q, d) && Opens(s, keys, d, p) && Create(e) in p.ops
  }

  // ---- the rules ------------------------------------------------------------------

  /** Rule 3: the predecessor, if there is one, is held and accepted, by the same author,
      and does not end its chain. */
  ghost predicate MayExtend(s: Blocks, accepted: set<Digest>, b: Block) {
    b.prev.Some? ==>
      && b.prev.value in s && b.prev.value in accepted
      && s[b.prev.value].pub == b.pub && !s[b.prev.value].content.Rotation?
  }

  /** Rules 6 and 10: no held ref is a private block named by a public one, or a block of
      the same author. */
  ghost predicate CleanRefs(s: Blocks, b: Block, refs: seq<Digest>) {
    forall d :: d in refs && d in s ==> !(b.content.Public? && s[d].content.Private?) && s[d].pub != b.pub
  }

  /** The operation carries a digest where the data model wants an entity of a kind: a
      molecule's bond, a filler that is an entity, the unit of a scalar filler. */
  ghost predicate Carries(op: Operation, digest: EntityDigest, kind: Kind) {
    && op.Create? && op.entity.Molecule?
    && (|| (digest == op.entity.bond && kind == BondKind)
        || RefFiller(kind, digest) in op.entity.fillers
        || (ScalarFiller(Some(digest)) in op.entity.fillers && kind == AtomKind))
  }

  predicate IsKind(e: Entity, kind: Kind) {
    match kind
    case AtomKind => e.Atom?
    case BondKind => e.Bond?
    case MoleculeKind => e.Molecule?
  }

  /** An earlier operation of the block creates the entity, or its search provides it. */
  ghost predicate Known(s: Blocks, keys: Keyring, q: Query, ops: seq<Operation>, i: nat, e: Entity)
    requires i <= |ops|
  {
    Create(e) in ops[..i] || Provides(s, keys, q, e)
  }

  /** One digest of operation i is that of a known entity of the right kind. */
  ghost predicate Rests(s: Blocks, keys: Keyring, q: Query, ops: seq<Operation>, i: nat, digest: EntityDigest, kind: Kind)
    requires i <= |ops|
  {
    digest.EntityHash? && IsKind(digest.entity, kind) && Known(s, keys, q, ops, i, digest.entity)
  }

  /** A molecule has one filler for each variable of its bond. */
  ghost predicate WellFilled(op: Operation) {
    op.Create? && op.entity.Molecule? ==>
      op.entity.bond.EntityHash? && op.entity.bond.entity.Bond? && |op.entity.fillers| == op.entity.bond.entity.variables
  }

  /** Rules 4 and 5 of operation i. */
  ghost predicate Passes(s: Blocks, keys: Keyring, q: Query, ops: seq<Operation>, i: nat)
    requires i < |ops|
  {
    && (forall digest, kind :: Carries(ops[i], digest, kind) ==> Rests(s, keys, q, ops, i, digest, kind))
    && WellFilled(ops[i])
  }

  /** Every rule a block is accepted by. The operations of a private block are its
      readers' to check; a rotation block's one operation rests on nothing. */
  ghost predicate Acceptable(s: Blocks, accepted: set<Digest>, keys: Keyring, b: Block) {
    && MayExtend(s, accepted, b)
    && match b.content
       case Public(p) =>
         && p.ops != [] && CleanRefs(s, b, p.refs)
         && forall i :: 0 <= i < |p.ops| ==> Passes(s, keys, Query(b.prev, p.refs), p.ops, i)
       case Rotation(refs, _) => CleanRefs(s, b, refs)
       case Private(_, _) => true
  }

  // ---- what a refusal or a wait says ----------------------------------------------

  /** Everything the search of a block comes to can be read. */
  ghost predicate WhollyRead(s: Blocks, keys: Keyring, q: Query) {
    forall d :: Searched(s, keys, q, d) ==> exists p :: Opens(s, keys, d, p)
  }

  /** Operation i rests on something no readable block creates, with nothing left to read. */
  ghost predicate RestsOnNothing(s: Blocks, keys: Keyring, q: Query, ops: seq<Operation>, i: nat, digest: EntityDigest)
    requires i <= |ops|
  {
    !(digest.EntityHash? && Known(s, keys, q, ops, i, digest.entity)) && WhollyRead(s, keys, q)
  }

  /** Operation i rests on an entity that is known to be of another kind. */
  ghost predicate RestsOnAnother(s: Blocks, keys: Keyring, q: Query, ops: seq<Operation>, i: nat, digest: EntityDigest, kind: Kind)
    requires i <= |ops|
  {
    digest.EntityHash? && Known(s, keys, q, ops, i, digest.entity) && !IsKind(digest.entity, kind)
  }

  /** Operation i is the first one against rule 4 or 5. */
  ghost predicate FailsFirst(s: Blocks, keys: Keyring, q: Query, ops: seq<Operation>, i: nat, rule: nat)
    requires i < |ops|
  {
    && (forall j :: 0 <= j < i ==> Passes(s, keys, q, ops, j))
    && (|| (rule == 4 && exists digest, kind :: Carries(ops[i], digest, kind) && RestsOnNothing(s, keys, q, ops, i, digest))
        || (rule == 5 && exists digest, kind :: Carries(ops[i], digest, kind) && RestsOnAnother(s, keys, q, ops, i, digest, kind))
        || (rule == 5 && !WellFilled(ops[i])))
  }

  /** The block breaks the rule, and the rules checked before it are kept. */
  ghost predicate Breaks(s: Blocks, accepted: set<Digest>, keys: Keyring, b: Block, rule: nat) {
    || (rule == 7 && b.content.Public? && b.content.payload.ops == [])
    || (rule == 3 && b.prev.Some? && b.prev.value in s && b.prev.value in accepted && !MayExtend(s, accepted, b))
    || (rule == 6 && MayExtend(s, accepted, b) && b.content.Public? && exists d :: d in b.content.payload.refs && d in s && s[d].content.Private?)
    || (rule == 10 && MayExtend(s, accepted, b) && exists d :: d in VisibleRefs(b) && d in s && s[d].pub == b.pub)
    || (MayExtend(s, accepted, b) && b.content.Public? && CleanRefs(s, b, b.content.payload.refs)
        && exists i :: 0 <= i < |b.content.payload.ops|
             && FailsFirst(s, keys, Query(b.prev, b.content.payload.refs), b.content.payload.ops, i, rule))
  }

  /** The block cannot be decided for want of d: its predecessor, not held or not
      accepted, or a block its search comes to and the store does not hold. */
  ghost predicate Wants(s: Blocks, accepted: set<Digest>, keys: Keyring, b: Block, d: Digest) {
    || (b.prev == Some(d) && !(d in s && d in accepted))
    || (b.content.Public? && d !in s && Searched(s, keys, Query(b.prev, b.content.payload.refs), d))
  }

  /** The block cannot be decided without the key to d, a private block of its search. */
  ghost predicate WantsKey(s: Blocks, keys: Keyring, b: Block, d: Digest) {
    && b.content.Public? && Searched(s, keys, Query(b.prev, b.content.payload.refs), d)
    && d in s && s[d].content.Private? && d !in keys
  }

  // ---- what the search of the definitions is --------------------------------------

  lemma OpensIsRead(s: Blocks, keys: Keyring, d: Digest, p: Payload)
    ensures Opens(s, keys, d, p) <==> d in s && Read(s, keys, d) == Some(p)
  {
  }

  lemma RefersIsOut(s: Blocks, keys: Keyring, d: Digest, x: Digest)
    ensures RefersTo(s, keys, d, x) <==> x in Out(s, keys, d)
  {
    hide Read, Opens;
    if RefersTo(s, keys, d, x) {
      var p :| Opens(s, keys, d, p) && x in p.refs;
      OpensIsRead(s, keys, d, p);
    }
    if x in Out(s, keys, d) { OpensIsRead(s, keys, d, Read(s, keys, d).value); }
  }

  lemma AlongIsPath(s: Blocks, keys: Keyring, roots: seq<Digest>, path: seq<Digest>)
    ensures AlongRefs(s, keys, roots, path) <==> Path(s, keys, roots, path)
  {
    hide RefersTo, Out;
    forall i | 0 <= i < |path| - 1 ensures RefersTo(s, keys, path[i], path[i + 1]) <==> path[i + 1] in Out(s, keys, path[i]) {
      RefersIsOut(s, keys, path[i], path[i + 1]);
    }
  }

  /** What a run down the chain ends in is an ancestor, or the one missing. */
  lemma {:induction false} DownChainEnds(s: Blocks, from: Option<Digest>, path: seq<Digest>)
    requires Sound(s) && DownChain(s, from, path)
    ensures path[|path| - 1] in Ancestors(s, from) || AncestorGap(s, from) == Some(path[|path| - 1])
    decreases |path|
  {
    if |path| > 1 {
      assert path[0] in s && s[path[0]].prev == Some(path[1]);
      assert DownChain(s, s[path[0]].prev, path[1..]);
      DownChainEnds(s, s[path[0]].prev, path[1..]);
    }
  }

  lemma {:induction false} AncestorHasRun(s: Blocks, from: Option<Digest>, d: Digest) returns (path: seq<Digest>)
    requires Sound(s) && (d in Ancestors(s, from) || AncestorGap(s, from) == Some(d))
    ensures DownChain(s, from, path) && path[|path| - 1] == d
    decreases from
  {
    if d == from.value {
      path := [d];
    } else {
      var rest := AncestorHasRun(s, s[from.value].prev, d);
      path := [from.value] + rest;
    }
  }

  lemma SearchedIsInSearch(s: Blocks, keys: Keyring, q: Query, d: Digest)
    requires Sound(s)
    ensures Searched(s, keys, q, d) <==> InSearch(s, keys, q, d)
  {
    hide RefersTo, Out;
    if Searched(s, keys, q, d) {
      var path :| (DownChain(s, q.prev, path) || AlongRefs(s, keys, q.roots, path)) && path[|path| - 1] == d;
      AlongIsPath(s, keys, q.roots, path);
      if DownChain(s, q.prev, path) { DownChainEnds(s, q.prev, path); }
    }
    if d in Ancestors(s, q.prev) || AncestorGap(s, q.prev) == Some(d) {
      var path := AncestorHasRun(s, q.prev, d);
      assert DownChain(s, q.prev, path);
    } else if Reachable(s, keys, q.roots, d) {
      var path :| Path(s, keys, q.roots, path) && path[|path| - 1] == d;
      AlongIsPath(s, keys, q.roots, path);
    }
  }

  lemma CreatedMeaning(ops: seq<Operation>, e: EntityDigest)
    ensures e in Created(ops) <==> e.EntityHash? && Create(e.entity) in ops
  {
  }

  lemma DefinesMeaning(s: Blocks, keys: Keyring, d: Digest, e: EntityDigest)
    ensures e in Defines(s, keys, d) <==> e.EntityHash? && exists p :: Opens(s, keys, d, p) && Create(e.entity) in p.ops
  {
    hide Read, Opens, Created;
    if d in s && Read(s, keys, d).Some? {
      OpensIsRead(s, keys, d, Read(s, keys, d).value);
      CreatedMeaning(Read(s, keys, d).value.ops, e);
    }
    if e.EntityHash? {
      if p :| Opens(s, keys, d, p) && Create(e.entity) in p.ops {
        OpensIsRead(s, keys, d, p);
      }
    }
  }

  lemma ProvidesIsDefinable(s: Blocks, keys: Keyring, q: Query, e: EntityDigest)
    requires Sound(s)
    ensures Definable(s, keys, q, e) <==> e.EntityHash? && Provides(s, keys, q, e.entity)
  {
    hide InSearch, Defines, Opens, Searched;
    if Definable(s, keys, q, e) {
      var d :| InSearch(s, keys, q, d) && e in Defines(s, keys, d);
      SearchedIsInSearch(s, keys, q, d);
      DefinesMeaning(s, keys, d, e);
      var p :| Opens(s, keys, d, p) && Create(e.entity) in p.ops;
      assert Searched(s, keys, q, d) && Opens(s, keys, d, p) && Create(e.entity) in p.ops;
    }
    if e.EntityHash? && Provides(s, keys, q, e.entity) {
      var d, p :| Searched(s, keys, q, d) && Opens(s, keys, d, p) && Create(e.entity) in p.ops;
      SearchedIsInSearch(s, keys, q, d);
      DefinesMeaning(s, keys, d, e);
    }
  }

  // ---- what an operation refers to -------------------------------------------------

  lemma {:induction false} FillerReferencesMeaning(fillers: seq<Filler>, r: Reference)
    ensures r in FillerReferences(fillers) <==>
              RefFiller(r.kind, r.digest) in fillers || (ScalarFiller(Some(r.digest)) in fillers && r.kind == AtomKind)
    decreases |fillers|
  {
    if fillers != [] {
      FillerReferencesMeaning(fillers[1..], r);
      assert fillers == [fillers[0]] + fillers[1..];
    }
  }

  lemma ReferencesMeaning(op: Operation, r: Reference)
    ensures r in References(op) <==> Carries(op, r.digest, r.kind)
  {
    if op.Create? && op.entity.Molecule? { FillerReferencesMeaning(op.entity.fillers, r); }
  }
}
