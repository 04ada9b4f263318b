/** The vocabulary of Layer 1: entities, operations, blocks and the digests that
    name them.

    A digest is idealised as the thing it hashes: `BlockHash(b)` is the digest of
    block `b`, and `Junk` is a digest nobody holds a preimage of. This is the whole
    of what the model assumes about SHA-256: two blocks with one digest are one
    block, and no block names itself, directly or through its ancestors. */
module Blocks {
  import opened Options

  /** An Ed25519 public key. */
  type Key = nat

  // ---- entities and operations ------------------------------------------------

  datatype Kind = AtomKind | BondKind | MoleculeKind

  datatype EntityDigest = EntityHash(entity: Entity) | JunkEntity(n: nat)

  datatype Filler =
    | RefFiller(kind: Kind, target: EntityDigest)
    | ScalarFiller(unit: Option<EntityDigest>)
    | OtherFiller

  /** `variables` stands for the number of variables of a bond's template. */
  datatype Entity =
    | Atom(description: string)
    | Bond(template: string, variables: nat)
    | Molecule(bond: EntityDigest, fillers: seq<Filler>)

  datatype Operation = Create(entity: Entity) | RotateKey(newPub: Key)

  datatype Reference = Reference(digest: EntityDigest, kind: Kind)

  /** What a digest resolved to. */
  datatype Record = Record(kind: Kind, variables: nat)

  function RecordOf(e: Entity): Record {
    match e
    case Atom(_) => Record(AtomKind, 0)
    case Bond(_, n) => Record(BondKind, n)
    case Molecule(_, _) => Record(MoleculeKind, 0)
  }

  /** The digests a molecule's fillers carry, in order; a scalar's unit is one. */
  function FillerReferences(fillers: seq<Filler>): seq<Reference> {
    if fillers == [] then [] else
    (match fillers[0]
     case RefFiller(k, d) => [Reference(d, k)]
     case ScalarFiller(Some(u)) => [Reference(u, AtomKind)]
     case _ => []) + FillerReferences(fillers[1..])
  }

  /** The digests an operation carries, in order: a molecule's bond first. */
  function References(op: Operation): seq<Reference> {
    match op
    case Create(Molecule(bond, fillers)) => [Reference(bond, BondKind)] + FillerReferences(fillers)
    case _ => []
  }

  /** The entities a list of operations creates. */
  function Created(ops: seq<Operation>): set<EntityDigest> {
    set op | op in ops && op.Create? :: EntityHash(op.entity)
  }

  // ---- the bytes of digests ----------------------------------------------------

  /** Where digests compare by their bytes, those are read as a number. */
  type ByteOrder = Digest -> nat

  ghost predicate Injective(order: ByteOrder) {
    forall a, b {:trigger order(a), order(b)} :: order(a) == order(b) ==> a == b
  }

  // ---- blocks -----------------------------------------------------------------

  datatype Digest = BlockHash(block: Block) | Junk(n: nat)

  /** What resolution reads of a block it can read. */
  datatype Payload = Payload(refs: seq<Digest>, ops: seq<Operation>)

  /** The three block types. A private block's ciphertext is idealised as the payload
      a key opens it to, under a seal. */
  datatype Content =
    | Public(payload: Payload)
    | Rotation(rotationRefs: seq<Digest>, newPub: Key)
    | Private(sealed: Payload, nonce: nat)

  datatype Block = Block(pub: Key, prev: Option<Digest>, content: Content)

  /** The plaintext of a block; None is a private block. */
  function Plaintext(b: Block): Option<Payload> {
    match b.content
    case Public(payload) => Some(payload)
    case Rotation(refs, newPub) => Some(Payload(refs, [RotateKey(newPub)]))
    case Private(_, _) => None
  }

  /** The refs in the clear; a private block shows none. */
  function VisibleRefs(b: Block): seq<Digest> {
    match b.content
    case Public(payload) => payload.refs
    case Rotation(refs, _) => refs
    case Private(_, _) => []
  }

  /** The blocks a source hands out, by digest. */
  type Blocks = map<Digest, Block>

  /** Every block is filed under its own digest. */
  ghost predicate Sound(s: Blocks) {
    forall d :: d in s ==> d == BlockHash(s[d])
  }

  /** The private blocks a decrypter opens. */
  type Keyring = set<Digest>

  /** The payload of a held block, if this node can read it. */
  function Read(s: Blocks, keys: Keyring, d: Digest): Option<Payload>
    requires d in s
  {
    if s[d].content.Private? then (if d in keys then Some(s[d].content.sealed) else None)
    else Plaintext(s[d])
  }

  ghost predicate Extends(s: Blocks, t: Blocks) {
    forall d :: d in s ==> d in t && t[d] == s[d]
  }
}
