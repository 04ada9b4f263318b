/** The validating store, one Add at a time, as a state and its transitions. */
module StoreModel {
  import opened Blocks
  import opened Validation

  /** A recorded verdict: accepted, or stored but unvalidated and why. */
  datatype Entry = Valid | Pending(why: Outcome)

  /** `waiting[d]` lists the blocks filed under d. `faulted` remembers the held
      blocks that a later validation found invalid. */
  datatype Node = Node(blocks: Blocks, verdicts: map<Digest, Entry>, waiting: map<Digest, seq<Digest>>, faulted: set<Digest>)

  datatype Admission = Refused(why: Outcome) | Admitted(entry: Entry, duplicate: bool)

  const Empty: Node := Node(map[], map[], map[], {})

  predicate Holds(n: Node, d: Digest, e: Entry) { d in n.verdicts && n.verdicts[d] == e }

  function Accepts(n: Node): set<Digest> { set d | d in n.verdicts && n.verdicts[d].Valid? }

  // ---- the waiting index ------------------------------------------------------

  type Waiting = map<Digest, seq<Digest>>

  predicate Filed(w: Waiting, awaited: Digest, d: Digest) { awaited in w && d in w[awaited] }

  function File(w: Waiting, awaited: Digest, d: Digest): Waiting {
    if Filed(w, awaited, d) then w
    else w[awaited := (if awaited in w then w[awaited] else []) + [d]]
  }

  /** How many entries the index holds. */
  ghost function Entries(w: Waiting): nat {
    if w == map[] then 0
    else var k :| k in w; |w[k]| + Entries(w - {k})
  }

  lemma {:induction false} EntriesAt(w: Waiting, k: Digest)
    requires k in w
    ensures Entries(w) == |w[k]| + Entries(w - {k})
    decreases |w|
  {
    var p :| p in w && Entries(w) == |w[p]| + Entries(w - {p});
    if p != k {
      assert (w - {p}) - {k} == (w - {k}) - {p};
      assert |w - {p}| < |w| && |w - {k}| < |w|;
      EntriesAt(w - {p}, k);
      EntriesAt(w - {k}, p);
    }
  }

  lemma EntriesFile(w: Waiting, awaited: Digest, d: Digest)
    ensures Entries(File(w, awaited, d)) <= Entries(w) + 1
  {
    if !Filed(w, awaited, d) {
      var f := File(w, awaited, d);
      EntriesAt(f, awaited);
      assert f - {awaited} == w - {awaited};
      if awaited in w { EntriesAt(w, awaited); } else { assert w - {awaited} == w; }
    }
  }

  function Take(w: Waiting, d: Digest): seq<Digest> { if d in w then w[d] else [] }

  lemma EntriesTake(w: Waiting, d: Digest)
    ensures Entries(w - {d}) + |Take(w, d)| == Entries(w)
  {
    if d in w { EntriesAt(w, d); } else { assert w - {d} == w; }
  }

  // ---- the transitions --------------------------------------------------------

  /** Validates one block and records what was decided. */
  ghost function Admit(n: Node, keys: Keyring, limit: int, b: Block): (Node, Admission)
    requires Sound(n.blocks)
  {
    var d := BlockHash(b);
    if Holds(n, d, Valid) then (n, Admitted(Valid, true))
    else
      var o := Judge(n.blocks, Accepts(n), keys, limit, b);
      if o.Accepted? then
        (n.(blocks := n.blocks[d := b], verdicts := n.verdicts[d := Valid]), Admitted(Valid, false))
      else if o.Undecided() then
        (Node(n.blocks[d := b], n.verdicts[d := Pending(o)],
              if o.Awaiting? then File(n.waiting, o.block, d) else n.waiting, n.faulted),
         Admitted(Pending(o), false))
      else
        (n.(faulted := n.faulted + (if d in n.blocks then {d} else {})), Refused(o))
  }

  lemma AdmitSound(n: Node, keys: Keyring, limit: int, b: Block)
    requires Sound(n.blocks)
    ensures Sound(Admit(n, keys, limit, b).0.blocks) && Extends(n.blocks, Admit(n, keys, limit, b).0.blocks)
  {
  }

  /** Admits the listed held blocks again, in order; lists those found valid. */
  ghost function Readmit(n: Node, keys: Keyring, limit: int, list: seq<Digest>): (Node, seq<Digest>)
    requires Sound(n.blocks)
    decreases |list|
  {
    if list == [] then (n, [])
    else if list[0] !in n.blocks then Readmit(n, keys, limit, list[1..])
    else
      AdmitSound(n, keys, limit, n.blocks[list[0]]);
      var (n1, a) := Admit(n, keys, limit, n.blocks[list[0]]);
      var (n2, more) := Readmit(n1, keys, limit, list[1..]);
      (n2, if a.Admitted? && a.entry.Valid? then [list[0]] + more else more)
  }

  lemma {:induction false} ReadmitBounds(n: Node, keys: Keyring, limit: int, list: seq<Digest>)
    requires Sound(n.blocks)
    ensures var (m, more) := Readmit(n, keys, limit, list);
      Sound(m.blocks) && Extends(n.blocks, m.blocks) && Entries(m.waiting) + |more| <= Entries(n.waiting) + |list|
    decreases |list|
  {
    hide Judge, Entries, File;
    if list != [] {
      if list[0] !in n.blocks {
        ReadmitBounds(n, keys, limit, list[1..]);
      } else {
        var b := n.blocks[list[0]];
        AdmitSound(n, keys, limit, b);
        var (n1, a) := Admit(n, keys, limit, b);
        if a.Admitted? && a.entry.Pending? && a.entry.why.Awaiting? {
          EntriesFile(n.waiting, a.entry.why.block, BlockHash(b));
        }
        ReadmitBounds(n1, keys, limit, list[1..]);
      }
    }
  }

  /** Revalidates what waited for the queued blocks, and what waited for those. The
      worklist and the index together shrink at every step. */
  ghost function Settle(n: Node, keys: Keyring, limit: int, queue: seq<Digest>): Node
    requires Sound(n.blocks)
    decreases Entries(n.waiting) + |queue|
  {
    if queue == [] then n
    else
      var taken := n.(waiting := n.waiting - {queue[0]});
      EntriesTake(n.waiting, queue[0]);
      ReadmitBounds(taken, keys, limit, Take(n.waiting, queue[0]));
      var (m, more) := Readmit(taken, keys, limit, Take(n.waiting, queue[0]));
      Settle(m, keys, limit, queue[1..] + more)
  }

  /** Offers a block to the store. */
  ghost function Add(n: Node, keys: Keyring, limit: int, b: Block): (Node, Admission)
    requires Sound(n.blocks)
  {
    AdmitSound(n, keys, limit, b);
    var (n1, a) := Admit(n, keys, limit, b);
    (if a.Refused? || a.duplicate then n1 else Settle(n1, keys, limit, [BlockHash(b)]), a)
  }
}
