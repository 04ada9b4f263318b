/** Block order: where a block stands in its author's lineage, counted from the oldest
    genesis block that key rotations lead back to. The memoised walk answers what the
    plain recursive definition does. */
module BlockOrder {
  import opened Blocks
  import opened Options
  import opened Positions

  // ---- succession ---------------------------------------------------------------------

  /** r is held as a rotation block that appoints a key. */
  predicate Appoints(s: Blocks, r: Digest, key: Key) {
    r in s && s[r].content.Rotation? && s[r].content.newPub == key
  }

  /** The rotations a genesis block claims to continue, in the order of its refs. */
  function Claims(s: Blocks, g: Block, refs: seq<Digest>): (c: seq<Digest>)
    ensures forall r :: r in c ==> r in refs && Appoints(s, r, g.pub)
  {
    if refs == [] then []
    else (if Appoints(s, refs[0], g.pub) then [refs[0]] else []) + Claims(s, g, refs[1..])
  }

  /** The genesis blocks that claim to continue a rotation's chain. */
  function Successors(s: Blocks, r: Digest): set<Digest> {
    set d | d in s && s[d].prev.None? && s[d].content.Public? && r in VisibleRefs(s[d]) && Appoints(s, r, s[d].pub)
  }

  /** The rotation behind a genesis block, when there is one and only one chain claims it.
      A source that cannot list referring blocks cannot see a second claimant. */
  function RotationBehind(s: Blocks, indexed: bool, g: Block): (r: Option<Digest>)
    ensures r.Some? ==> r.value in VisibleRefs(g)
  {
    if !g.content.Public? then None
    else
      var c := Claims(s, g, VisibleRefs(g));
      if |c| != 1 then None
      else if indexed && |Successors(s, c[0])| > 1 then None
      else Some(c[0])
  }

  /** Where an ambiguity is found, if the succession behind g is ambiguous. */
  function AmbiguousAt(s: Blocks, indexed: bool, g: Block): Option<Digest> {
    if !g.content.Public? then None
    else
      var c := Claims(s, g, VisibleRefs(g));
      if |c| > 1 then Some(BlockHash(g))
      else if |c| == 1 && indexed && |Successors(s, c[0])| > 1 then Some(c[0])
      else None
  }

  /** The blocks an ambiguity at a genesis block or a rotation is between. */
  function Involved(s: Blocks, at: Digest): set<Digest> {
    {at} + (if at in s && s[at].content.Public? then set r | r in Claims(s, s[at], VisibleRefs(s[at])) else Successors(s, at))
  }

  // ---- the definition -----------------------------------------------------------------

  /** The source holds the block a digest names. */
  predicate Held(s: Blocks, d: Digest) { d in s && BlockHash(s[d]) == d }

  /** The block before this one in its lineage. */
  function Before(s: Blocks, indexed: bool, d: Digest): Option<Digest>
    requires Held(s, d)
  {
    if s[d].prev.Some? then s[d].prev else RotationBehind(s, indexed, s[d])
  }

  /** A block's position; none if the source is missing a block of its lineage. */
  function Place(s: Blocks, indexed: bool, d: Digest): Option<Position<Digest>>
    decreases d
  {
    if !Held(s, d) then None
    else
      var before := Before(s, indexed, d);
      if before.None? then Some(Position(d, 0))
      else
        assert before.value < d by { BeforeIsSmaller(s, indexed, d); }
        var p := Place(s, indexed, before.value);
        if p.None? then None else Some(Position(p.value.lineage, p.value.index + 1))
  }

  lemma BeforeIsSmaller(s: Blocks, indexed: bool, d: Digest)
    requires Held(s, d) && Before(s, indexed, d).Some?
    ensures Before(s, indexed, d).value < d
  {
    var b := s[d];
    if b.prev.None? {
      var refs := VisibleRefs(b);
      var i :| 0 <= i < |refs| && refs[i] == Before(s, indexed, d).value;
      assert refs[i] < b;
    }
  }

  // ---- what the definition means ------------------------------------------------------

  /** Blocks of one lineage, each the one before the next. */
  ghost predicate Line(s: Blocks, indexed: bool, line: seq<Digest>) {
    && (forall i :: 0 <= i < |line| ==> Held(s, line[i]))
    && (forall i, j :: 0 <= i && j == i + 1 < |line| ==> Before(s, indexed, line[j]) == Some(line[i]))
  }

  /** A block has position (l, n) exactly when n steps back lead to l, where nothing is
      before. */
  lemma {:induction false} PlaceIsTheCount(s: Blocks, indexed: bool, line: seq<Digest>)
    requires line != [] && Line(s, indexed, line) && Before(s, indexed, line[0]).None?
    ensures Place(s, indexed, line[|line| - 1]) == Some(Position(line[0], |line| - 1))
    decreases |line|
  {
    var n := |line| - 1;
    if n > 0 {
      assert line[..n][|line[..n]| - 1] == line[n - 1];
      PlaceIsTheCount(s, indexed, line[..n]);
    }
  }

  lemma {:induction false} PlacedHasALine(s: Blocks, indexed: bool, d: Digest)
    requires Place(s, indexed, d).Some?
    ensures exists line :: line != [] && Line(s, indexed, line) && line[|line| - 1] == d
              && line[0] == Place(s, indexed, d).value.lineage && |line| == Place(s, indexed, d).value.index + 1
              && Before(s, indexed, line[0]).None?
    decreases d
  {
    var before := Before(s, indexed, d);
    if before.None? {
      assert Line(s, indexed, [d]);
    } else {
      BeforeIsSmaller(s, indexed, d);
      PlacedHasALine(s, indexed, before.value);
      var line :| line != [] && Line(s, indexed, line) && line[|line| - 1] == before.value
              && line[0] == Place(s, indexed, before.value).value.lineage
              && |line| == Place(s, indexed, before.value).value.index + 1
              && Before(s, indexed, line[0]).None?;
      assert Line(s, indexed, line + [d]);
      assert (line + [d])[0] == line[0];
    }
  }

  /** Along a lineage, through prev and across rotations alike, order only rises, by one
      at each step. */
  lemma {:induction false} OrderRises(s: Blocks, indexed: bool, line: seq<Digest>)
    requires |line| > 0 && Line(s, indexed, line) && Place(s, indexed, line[|line| - 1]).Some?
    ensures Place(s, indexed, line[0]).Some?
    ensures Place(s, indexed, line[|line| - 1]).value
         == Position(Place(s, indexed, line[0]).value.lineage, Place(s, indexed, line[0]).value.index + |line| - 1)
    decreases |line|
  {
    var n := |line| - 1;
    if n > 0 {
      assert Before(s, indexed, line[n]) == Some(line[n - 1]);
      OrderRises(s, indexed, line[..n]);
    }
  }

  // ---- what joins two chains ------------------------------------------------------------

  /** The ref at place i names a held rotation block that appoints g's key. */
  predicate NamesAt(s: Blocks, g: Block, refs: seq<Digest>, i: int) {
    0 <= i < |refs| && refs[i] in s && s[refs[i]].content.Rotation? && s[refs[i]].content.newPub == g.pub
  }

  /** d is a held public genesis block that names r, a held rotation block appointing its key. */
  predicate Claimant(s: Blocks, d: Digest, r: Digest) {
    && d in s && s[d].prev.None? && s[d].content.Public? && r in s[d].content.payload.refs
    && r in s && s[r].content.Rotation? && s[r].content.newPub == s[d].pub
  }

  ghost predicate NowhereElse(s: Blocks, g: Block, refs: seq<Digest>, i: int) { forall j :: NamesAt(s, g, refs, j) ==> j == i }

  /** A public block names a rotation that appoints its key in one place of its refs, and
      none in any other. */
  ghost predicate NamesOnly(s: Blocks, g: Block, r: Digest) {
    && g.content.Public?
    && exists i :: NamesAt(s, g, g.content.payload.refs, i) && g.content.payload.refs[i] == r && NowhereElse(s, g, g.content.payload.refs, i)
  }

  /** A public block names rotations that appoint its key in two places of its refs. */
  ghost predicate NamesTwo(s: Blocks, g: Block) {
    g.content.Public? && exists i, j :: i < j && NamesAt(s, g, g.content.payload.refs, i) && NamesAt(s, g, g.content.payload.refs, j)
  }

  ghost predicate Contested(s: Blocks, r: Digest) {
    exists d, e :: d != e && Claimant(s, d, r) && Claimant(s, e, r)
  }

  lemma {:induction false} ClaimsCount(s: Blocks, g: Block, refs: seq<Digest>, r: Digest)
    ensures multiset(Claims(s, g, refs))[r] == if Appoints(s, r, g.pub) then multiset(refs)[r] else 0
    ensures r in Claims(s, g, refs) <==> r in refs && Appoints(s, r, g.pub)
    decreases |refs|
  {
    if refs != [] {
      ClaimsCount(s, g, refs[1..], r);
      assert refs == [refs[0]] + refs[1..];
    }
  }

  lemma {:induction false} ClaimsMeaning(s: Blocks, g: Block, refs: seq<Digest>)
    ensures forall i :: NamesAt(s, g, refs, i) ==> refs[i] in Claims(s, g, refs)
    ensures |Claims(s, g, refs)| >= 1 ==> exists i :: NamesAt(s, g, refs, i) && refs[i] == Claims(s, g, refs)[0]
    ensures |Claims(s, g, refs)| <= 1 ==> forall i, j :: NamesAt(s, g, refs, i) && NamesAt(s, g, refs, j) ==> i == j
    ensures |Claims(s, g, refs)| >= 2 ==> exists i, j :: i < j && NamesAt(s, g, refs, i) && NamesAt(s, g, refs, j)
    decreases |refs|
  {
    if refs != [] {
      var rest := refs[1..];
      ClaimsMeaning(s, g, rest);
      assert refs == [refs[0]] + rest;
      forall i ensures NamesAt(s, g, refs, i) <==> (i == 0 && Appoints(s, refs[0], g.pub)) || NamesAt(s, g, rest, i - 1) {}
      if |Claims(s, g, rest)| >= 1 {
        var i :| NamesAt(s, g, rest, i) && rest[i] == Claims(s, g, rest)[0];
        assert NamesAt(s, g, refs, i + 1);
      }
      if |Claims(s, g, rest)| >= 2 {
        var i, j :| i < j && NamesAt(s, g, rest, i) && NamesAt(s, g, rest, j);
        assert NamesAt(s, g, refs, i + 1) && NamesAt(s, g, refs, j + 1);
      }
      if Appoints(s, refs[0], g.pub) { assert NamesAt(s, g, refs, 0); }
    }
  }

  lemma SuccessorsMeaning(s: Blocks, r: Digest)
    ensures forall d :: d in Successors(s, r) <==> Claimant(s, d, r)
    ensures |Successors(s, r)| > 1 <==> Contested(s, r)
  {
    var all := Successors(s, r);
    if d, e :| d != e && Claimant(s, d, r) && Claimant(s, e, r) {
      if |all| <= 1 { OneElement(all, d); }
    }
    if |all| > 1 {
      var d :| d in all;
      assert |all - {d}| == |all| - 1;
      var e :| e in all - {d};
    }
  }

  /** A chain is joined to the rotation behind it exactly when the genesis block names one
      rotation that appoints its key, in one place, and, as far as the source can tell, no
      other held public genesis block claims it. */
  lemma JoinedMeaning(s: Blocks, indexed: bool, g: Block, r: Digest)
    ensures RotationBehind(s, indexed, g) == Some(r) <==> NamesOnly(s, g, r) && !(indexed && Contested(s, r))
  {
    hide Contested, Successors, Claims;
    if g.content.Public? {
      ClaimsMeaning(s, g, g.content.payload.refs);
      SuccessorsMeaning(s, r);
    }
  }

  /** Where a genesis block joins nothing for having too many chains to join. */
  lemma AmbiguousMeaning(s: Blocks, indexed: bool, g: Block, at: Digest)
    ensures AmbiguousAt(s, indexed, g) == Some(at) <==>
              (NamesTwo(s, g) && at == BlockHash(g)) || (indexed && NamesOnly(s, g, at) && Contested(s, at))
  {
    hide Contested, Successors, Claims;
    if g.content.Public? {
      ClaimsMeaning(s, g, g.content.payload.refs);
      SuccessorsMeaning(s, at);
      var c := Claims(s, g, g.content.payload.refs);
      if |c| == 1 { SuccessorsMeaning(s, c[0]); }
    }
  }

  lemma OneElement(x: set<Digest>, d: Digest)
    requires d in x && |x| <= 1
    ensures x == {d}
  {
    assert x == {d} + (x - {d});
    assert |x| == 1 + |x - {d}|;
  }

  // ---- the memoised walk --------------------------------------------------------------

  /** A surfaced ambiguity: where it was found, the blocks it is between, and who signed
      those of them that are held. */
  datatype Ambiguity = Ambiguity(at: Digest, between: set<Digest>, declarers: set<Key>)

  function Signers(s: Blocks, between: set<Digest>): set<Key> { set d | d in between && d in s :: s[d].pub }

  /** Every position on record is the block's own, and so is every one further back. */
  ghost predicate Remembers(s: Blocks, indexed: bool, pos: map<Digest, Position<Digest>>) {
    forall d :: d in pos ==> Place(s, indexed, d) == Some(pos[d])
  }

  ghost predicate Recorded(s: Blocks, reported: set<Digest>, conflicts: seq<Ambiguity>) {
    && (forall i :: 0 <= i < |conflicts| ==> conflicts[i].at in reported && conflicts[i].between == Involved(s, conflicts[i].at))
    && (forall i :: 0 <= i < |conflicts| ==> conflicts[i].declarers == Signers(s, conflicts[i].between))
    && (forall d :: d in reported ==> exists i :: 0 <= i < |conflicts| && conflicts[i].at == d)
    && (forall i, j :: 0 <= i < j < |conflicts| ==> conflicts[i].at != conflicts[j].at)
  }

  /** Every junction looked at is reported if it is ambiguous, and nothing else is. */
  ghost predicate Honest(s: Blocks, indexed: bool, pos: map<Digest, Position<Digest>>, reported: set<Digest>) {
    && (forall d :: d in pos && d in s && s[d].prev.None? && AmbiguousAt(s, indexed, s[d]).Some?
          ==> AmbiguousAt(s, indexed, s[d]).value in reported)
    && (forall at :: at in reported ==> IsAmbiguous(s, indexed, at))
  }

  ghost predicate IsAmbiguous(s: Blocks, indexed: bool, at: Digest) {
    exists d :: Held(s, d) && s[d].prev.None? && AmbiguousAt(s, indexed, s[d]) == Some(at)
  }

  /** path leads back from d, every block of it one after the next, to where cur is. */
  ghost predicate Back(s: Blocks, indexed: bool, d: Digest, path: seq<Digest>, cur: Digest) {
    && (forall i :: 0 <= i < |path| ==> Held(s, path[i]))
    && (forall i, j :: 0 <= i && j == i + 1 < |path| ==> Before(s, indexed, path[i]) == Some(path[j]))
    && if path == [] then cur == d
       else path[0] == d && Before(s, indexed, path[|path| - 1]) == Some(cur)
  }

  lemma {:induction false} BackPlaces(s: Blocks, indexed: bool, d: Digest, path: seq<Digest>, cur: Digest)
    requires Back(s, indexed, d, path, cur)
    ensures Place(s, indexed, cur).None? ==> Place(s, indexed, d).None?
    decreases |path|
  {
    if path != [] {
      var n := |path| - 1;
      assert Back(s, indexed, d, path[..n], path[n]);
      BackPlaces(s, indexed, d, path[..n], path[n]);
    }
  }

  /** An ambiguity between a genesis block and the rotations it names. */
  ghost predicate Torn(s: Blocks, c: Ambiguity, g: Block) {
    && c.at == BlockHash(g) && Signed(s, c)
    && forall x :: x in c.between <==>
         x == BlockHash(g) || (g.content.Public? && exists i :: NamesAt(s, g, g.content.payload.refs, i) && g.content.payload.refs[i] == x)
  }

  /** An ambiguity between a rotation and the genesis blocks that claim it. */
  ghost predicate Claimed(s: Blocks, c: Ambiguity, r: Digest) {
    && c.at == r && Signed(s, c)
    && forall x :: x in c.between <==> x == r || Claimant(s, x, r)
  }

  /** It names the authors of the blocks it is between, as far as they are held. */
  ghost predicate Signed(s: Blocks, c: Ambiguity) {
    forall k :: k in c.declarers <==> exists x :: x in c.between && x in s && s[x].pub == k
  }

  /** Where a genesis block stands, and what is on record about it: it follows the one
      rotation it names, or it is the first of its lineage; and if it names two rotations,
      or one that another genesis block claims too, that is surfaced. */
  ghost predicate Junction(s: Blocks, indexed: bool, d: Digest, p: Position<Digest>, conflicts: seq<Ambiguity>)
    requires d in s
  {
    && (NamesTwo(s, s[d]) ==> p == Position(d, 0) && exists k :: 0 <= k < |conflicts| && Torn(s, conflicts[k], s[d]))
    && (forall r :: NamesOnly(s, s[d], r) ==> Named(s, indexed, d, p, conflicts, r))
    && ((forall i :: s[d].content.Public? ==> !NamesAt(s, s[d], s[d].content.payload.refs, i)) ==> p == Position(d, 0))
  }

  ghost predicate Named(s: Blocks, indexed: bool, d: Digest, p: Position<Digest>, conflicts: seq<Ambiguity>, r: Digest) {
    if indexed && Contested(s, r) then p == Position(d, 0) && exists k :: 0 <= k < |conflicts| && Claimed(s, conflicts[k], r)
    else Place(s, indexed, r).Some? && p == Position(Place(s, indexed, r).value.lineage, Place(s, indexed, r).value.index + 1)
  }

  lemma TornIsInvolved(s: Blocks, g: Block, c: Ambiguity)
    requires BlockHash(g) in s && s[BlockHash(g)] == g && g.content.Public?
    requires c.at == BlockHash(g) && c.between == Involved(s, c.at) && c.declarers == Signers(s, c.between)
    ensures Torn(s, c, g)
  {
    hide Claims;
    var refs := g.content.payload.refs;
    forall x ensures x in Claims(s, g, refs) <==> exists i :: NamesAt(s, g, refs, i) && refs[i] == x {
      ClaimsCount(s, g, refs, x);
      if x in refs && Appoints(s, x, g.pub) {
        var i :| 0 <= i < |refs| && refs[i] == x;
        assert NamesAt(s, g, refs, i);
      }
    }
  }

  lemma ClaimedIsInvolved(s: Blocks, r: Digest, c: Ambiguity)
    requires r in s && s[r].content.Rotation?
    requires c.at == r && c.between == Involved(s, r) && c.declarers == Signers(s, c.between)
    ensures Claimed(s, c, r)
  {
    SuccessorsMeaning(s, r);
    hide Successors;
  }

  lemma NamesOneOrTwo(s: Blocks, g: Block)
    requires g.content.Public?
    ensures NamesTwo(s, g) || (exists r :: NamesOnly(s, g, r)) || forall i :: !NamesAt(s, g, g.content.payload.refs, i)
    ensures NamesTwo(s, g) ==> forall r :: !NamesOnly(s, g, r)
  {
    var refs := g.content.payload.refs;
    if !NamesTwo(s, g) {
      if i :| NamesAt(s, g, refs, i) {
        assert NowhereElse(s, g, refs, i);
        assert NamesOnly(s, g, refs[i]);
      }
    }
  }

  lemma GenesisPlace(s: Blocks, indexed: bool, d: Digest)
    requires d in s && s[d].prev.None? && Place(s, indexed, d).Some?
    ensures Held(s, d)
    ensures RotationBehind(s, indexed, s[d]).None? ==> Place(s, indexed, d) == Some(Position(d, 0))
    ensures RotationBehind(s, indexed, s[d]).Some? ==>
              var p := Place(s, indexed, RotationBehind(s, indexed, s[d]).value);
              p.Some? && Place(s, indexed, d) == Some(Position(p.value.lineage, p.value.index + 1))
  {
    hide RotationBehind;
    assert Before(s, indexed, d) == RotationBehind(s, indexed, s[d]);
  }

  lemma OnRecord(s: Blocks, reported: set<Digest>, conflicts: seq<Ambiguity>, at: Digest) returns (k: nat)
    requires Recorded(s, reported, conflicts) && at in reported
    ensures k < |conflicts| && conflicts[k].at == at
    ensures conflicts[k].between == Involved(s, at) && conflicts[k].declarers == Signers(s, conflicts[k].between)
  {
    hide Involved, Signers;
    k :| 0 <= k < |conflicts| && conflicts[k].at == at;
  }

  /** What the record says of a genesis block whose position is known. */
  lemma AtJunction(s: Blocks, indexed: bool, d: Digest, pos: map<Digest, Position<Digest>>, reported: set<Digest>, conflicts: seq<Ambiguity>)
    requires Remembers(s, indexed, pos) && Recorded(s, reported, conflicts) && Honest(s, indexed, pos, reported)
    requires d in pos && d in s && s[d].prev.None?
    ensures Junction(s, indexed, d, pos[d], conflicts)
  {
    var g := s[d];
    var behind := RotationBehind(s, indexed, g);
    assert Place(s, indexed, d) == Some(pos[d]);
    hide Recorded, NamesOnly, NamesTwo, Contested, RotationBehind, Involved, Signers, Torn, Claimed, AmbiguousAt, Place, Remembers, NamesAt;
    GenesisPlace(s, indexed, d);
    if behind.Some? { JoinedMeaning(s, indexed, g, behind.value); }
    if NamesTwo(s, g) {
      NamesOneOrTwo(s, g);
      AmbiguousMeaning(s, indexed, g, d);
      var k := OnRecord(s, reported, conflicts, d);
      TornIsInvolved(s, g, conflicts[k]);
    }
    forall r | NamesOnly(s, g, r) ensures Named(s, indexed, d, pos[d], conflicts, r) {
      JoinedMeaning(s, indexed, g, r);
      if indexed && Contested(s, r) {
        AmbiguousMeaning(s, indexed, g, r);
        var k := OnRecord(s, reported, conflicts, r);
        NamedIsRotation(s, g, r);
        ClaimedIsInvolved(s, r, conflicts[k]);
      }
    }
    if behind.Some? { NamedIsRotation(s, g, behind.value); }
  }

  lemma NamedIsRotation(s: Blocks, g: Block, r: Digest)
    requires NamesOnly(s, g, r)
    ensures r in s && s[r].content.Rotation? && g.content.Public? && exists i :: NamesAt(s, g, g.content.payload.refs, i)
    ensures !NamesTwo(s, g)
  {
    NamesOneOrTwo(s, g);
  }

  /** Nothing is surfaced that is not so. */
  ghost predicate Real(s: Blocks, indexed: bool, c: Ambiguity) {
    || (exists d :: Held(s, d) && s[d].prev.None? && NamesTwo(s, s[d]) && Torn(s, c, s[d]))
    || (indexed && Contested(s, c.at) && Claimed(s, c, c.at))
  }

  lemma RecordIsReal(s: Blocks, indexed: bool, pos: map<Digest, Position<Digest>>, reported: set<Digest>, conflicts: seq<Ambiguity>, k: nat)
    requires Recorded(s, reported, conflicts) && Honest(s, indexed, pos, reported) && k < |conflicts|
    ensures Real(s, indexed, conflicts[k])
  {
    var c := conflicts[k];
    assert c.between == Involved(s, c.at) && c.declarers == Signers(s, c.between);
    assert IsAmbiguous(s, indexed, c.at);
    var d :| Held(s, d) && s[d].prev.None? && AmbiguousAt(s, indexed, s[d]) == Some(c.at);
    hide Recorded, Honest, NamesOnly, NamesTwo, Contested, Involved, Signers, Torn, Claimed, AmbiguousAt, NamesAt;
    AmbiguousMeaning(s, indexed, s[d], c.at);
    if NamesTwo(s, s[d]) && c.at == BlockHash(s[d]) {
      PublicNamesTwo(s, s[d]);
      TornIsInvolved(s, s[d], c);
    } else {
      NamedIsRotation(s, s[d], c.at);
      ClaimedIsInvolved(s, c.at, c);
    }
  }

  lemma PublicNamesTwo(s: Blocks, g: Block)
    requires NamesTwo(s, g)
    ensures g.content.Public?
  {
  }

  lemma RecordMeans(s: Blocks, indexed: bool, d: Digest, pos: map<Digest, Position<Digest>>, reported: set<Digest>, conflicts: seq<Ambiguity>)
    requires Remembers(s, indexed, pos) && Recorded(s, reported, conflicts) && Honest(s, indexed, pos, reported)
    ensures d in pos ==> d in s && (s[d].prev.None? ==> Junction(s, indexed, d, pos[d], conflicts))
    ensures forall k :: 0 <= k < |conflicts| ==> Real(s, indexed, conflicts[k])
  {
    if d in pos { assert Place(s, indexed, d).Some?; }
    hide Recorded, Honest, Place, Remembers, Junction, Real;
    if d in pos && s[d].prev.None? { AtJunction(s, indexed, d, pos, reported, conflicts); }
    forall k | 0 <= k < |conflicts| ensures Real(s, indexed, conflicts[k]) {
      RecordIsReal(s, indexed, pos, reported, conflicts, k);
    }
  }

  class BlockOrder {
    const src: Blocks
    const indexed: bool
    var pos: map<Digest, Position<Digest>>
    var reported: set<Digest>
    var conflicts: seq<Ambiguity>

    constructor (source: Blocks, listsReferrers: bool)
      ensures Valid() && src == source && indexed == listsReferrers && pos == map[] && conflicts == []
    {
      src, indexed, pos, reported, conflicts := source, listsReferrers, map[], {}, [];
    }

    ghost predicate Valid()
      reads this
    {
      && Remembers(src, indexed, pos)
      && Recorded(src, reported, conflicts)
      && Honest(src, indexed, pos, reported)
    }

    /** The authors of the blocks that are held. */
    method CollectSigners(between: set<Digest>) returns (signers: set<Key>)
      ensures signers == Signers(src, between)
    {
      signers := {};
      var left := between;
      while left != {}
        invariant left <= between && signers == Signers(src, between - left)
        decreases left
      {
        var d :| d in left;
        assert between - (left - {d}) == (between - left) + {d};
        left := left - {d};
        if d in src {
          signers := signers + {src[d].pub};
        }
      }
      assert between - left == between;
    }

    /** Records an ambiguity once, whichever way it was reached. */
    method ReportAmbiguity(at: Digest)
      requires Valid() && IsAmbiguous(src, indexed, at)
      modifies this`reported, this`conflicts
      ensures Valid() && reported == old(reported) + {at}
    {
      if at in reported {
        return;
      }
      hide Recorded, Honest, Remembers, IsAmbiguous;
      RecordedMore(src, reported, conflicts, at);
      HonestMore(src, indexed, pos, reported, at);
      reported := reported + {at};
      var signers := CollectSigners(Involved(src, at));
      conflicts := conflicts + [Ambiguity(at, Involved(src, at), signers)];
    }

    method FindRotation(d: Digest) returns (r: Option<Digest>)
      requires Valid() && Held(src, d) && src[d].prev.None?
      modifies this`reported, this`conflicts
      ensures Valid() && r == RotationBehind(src, indexed, src[d])
      ensures forall x :: r == Some(x) <==> NamesOnly(src, src[d], x) && !(indexed && Contested(src, x))
      ensures old(reported) <= reported
      ensures AmbiguousAt(src, indexed, src[d]).Some? ==> AmbiguousAt(src, indexed, src[d]).value in reported
    {
      var genesis := src[d];
      forall x ensures RotationBehind(src, indexed, genesis) == Some(x) <==> NamesOnly(src, genesis, x) && !(indexed && Contested(src, x)) {
        JoinedMeaning(src, indexed, genesis, x);
      }
      hide NamesOnly, Contested;
      if !genesis.content.Public? {
        return None;
      }
      var claims := Claims(src, genesis, VisibleRefs(genesis));
      if claims == [] {
        return None;
      }
      if |claims| > 1 {
        assert AmbiguousAt(src, indexed, genesis) == Some(d);
        ReportAmbiguity(d);
        return None;
      }
      if indexed && |Successors(src, claims[0])| > 1 {
        assert AmbiguousAt(src, indexed, genesis) == Some(claims[0]);
        ReportAmbiguity(claims[0]);
        return None;
      }
      r := Some(claims[0]);
    }

    /** Walks back from a block to one whose position is known, or to the first of its
        lineage; the walk is the path, latest first. */
    method WalkBack(d: Digest) returns (path: seq<Digest>, base: Option<Position<Digest>>, ghost anchor: Digest)
      requires Valid()
      modifies this
      ensures Valid() && Keeps(old(pos), pos) && old(reported) <= reported
      ensures base.None? ==> Place(src, indexed, d).None?
      ensures base.Some? ==>
                && Back(src, indexed, d, path, anchor)
                && anchor in pos && pos[anchor] == base.value
                && forall i :: 0 <= i < |path| ==> Announced(src, indexed, path[i], reported)
    {
      hide Remembers, Recorded, Honest, Place, Back, Before, AmbiguousAt, RotationBehind;
      path := [];
      var cur := d;
      NoPath(src, indexed, d);
      while true
        invariant Valid() && pos == old(pos) && old(reported) <= reported
        invariant Back(src, indexed, d, path, cur)
        invariant forall i :: 0 <= i < |path| ==> Announced(src, indexed, path[i], reported)
        decreases cur
      {
        anchor := cur;
        if cur in pos {
          return path, Some(pos[cur]), cur;
        }
        if cur !in src || BlockHash(src[cur]) != cur {
          NotHeld(src, indexed, cur);
          BackPlaces(src, indexed, d, path, cur);
          return path, None, cur;
        }
        var before := src[cur].prev;
        if before.None? {
          before := FindRotation(cur);
        }
        BeforeIs(src, indexed, cur, before);
        if before.None? {
          RemembersMore(src, indexed, pos, reported, cur, Position(cur, 0));
          pos := pos[cur := Position(cur, 0)];
          return path, Some(Position(cur, 0)), cur;
        }
        BeforeIsSmaller(src, indexed, cur);
        BackNext(src, indexed, d, path, cur);
        path := path + [cur];
        cur := before.value;
      }
    }

    /** The position of a block, remembering every block on the way to it. */
    method Of(d: Digest) returns (r: Option<Position<Digest>>)
      requires Valid()
      modifies this
      ensures Valid() && r == Place(src, indexed, d)
      ensures Keeps(old(pos), pos) && old(reported) <= reported
      ensures r.Some? ==> d in src && (src[d].prev.None? ==> Junction(src, indexed, d, r.value, conflicts))
      ensures forall k :: 0 <= k < |conflicts| ==> Real(src, indexed, conflicts[k])
    {
      hide Recorded, Honest, Place, Back, Junction, Real;
      if d in pos {
        RecordMeans(src, indexed, d, pos, reported, conflicts);
        return Some(pos[d]);
      }
      hide Remembers;
      var path: seq<Digest>, found: Option<Position<Digest>>;
      ghost var anchor;
      path, found, anchor := WalkBack(d);
      if found.None? {
        RecordMeans(src, indexed, d, pos, reported, conflicts);
        return None;
      }
      var base := found.value;
      BackEnd(src, indexed, d, path, anchor);
      for i := |path| downto 0
        invariant Valid() && Keeps(old(pos), pos) && old(reported) <= reported
        invariant (if i == |path| then anchor else path[i]) in pos
        invariant pos[if i == |path| then anchor else path[i]] == base
        invariant forall k :: 0 <= k < |path| ==> Announced(src, indexed, path[k], reported)
      {
        StepForward(src, indexed, d, path, anchor, i, pos);
        base := Position(base.lineage, base.index + 1);
        RemembersMore(src, indexed, pos, reported, path[i], base);
        pos := pos[path[i] := base];
      }
      Recall(src, indexed, pos, d);
      RecordMeans(src, indexed, d, pos, reported, conflicts);
      r := Some(base);
    }
  }

  /** An ambiguity at this block, if there is one, is on record. */
  ghost predicate Announced(s: Blocks, indexed: bool, x: Digest, reported: set<Digest>) {
    x in s && s[x].prev.None? && AmbiguousAt(s, indexed, s[x]).Some? ==> AmbiguousAt(s, indexed, s[x]).value in reported
  }

  /** Nothing remembered is forgotten or changed. */
  ghost predicate Keeps(before: map<Digest, Position<Digest>>, after: map<Digest, Position<Digest>>) {
    forall x :: x in before ==> x in after && after[x] == before[x]
  }

  lemma RecordedMore(s: Blocks, reported: set<Digest>, conflicts: seq<Ambiguity>, at: Digest)
    requires Recorded(s, reported, conflicts) && at !in reported
    ensures Recorded(s, reported + {at}, conflicts + [Ambiguity(at, Involved(s, at), Signers(s, Involved(s, at)))])
  {
    hide Involved, Signers;
    var more := conflicts + [Ambiguity(at, Involved(s, at), Signers(s, Involved(s, at)))];
    assert more[|conflicts|].at == at;
    forall d | d in reported + {at} ensures exists i :: 0 <= i < |more| && more[i].at == d {
      if d != at {
        var i :| 0 <= i < |conflicts| && conflicts[i].at == d;
        assert more[i].at == d;
      }
    }
  }

  lemma HonestMore(s: Blocks, indexed: bool, pos: map<Digest, Position<Digest>>, reported: set<Digest>, at: Digest)
    requires Honest(s, indexed, pos, reported) && IsAmbiguous(s, indexed, at)
    ensures Honest(s, indexed, pos, reported + {at})
  {
    hide AmbiguousAt, IsAmbiguous;
  }

  lemma RemembersMore(s: Blocks, indexed: bool, pos: map<Digest, Position<Digest>>, reported: set<Digest>, d: Digest, p: Position<Digest>)
    requires Remembers(s, indexed, pos) && Honest(s, indexed, pos, reported)
    requires Place(s, indexed, d) == Some(p) && Announced(s, indexed, d, reported)
    ensures Remembers(s, indexed, pos[d := p]) && Honest(s, indexed, pos[d := p], reported)
    ensures Keeps(pos, pos[d := p])
  {
    hide AmbiguousAt, IsAmbiguous, Place;
    assert forall x :: x in pos[d := p] ==> x == d || x in pos;
    if d in pos { assert pos[d] == p; }
  }

  lemma NoPath(s: Blocks, indexed: bool, d: Digest)
    ensures Back(s, indexed, d, [], d)
  {
  }

  lemma NotHeld(s: Blocks, indexed: bool, d: Digest)
    requires !Held(s, d)
    ensures Place(s, indexed, d).None?
  {
  }

  lemma BeforeIs(s: Blocks, indexed: bool, d: Digest, before: Option<Digest>)
    requires Held(s, d)
    requires before == if s[d].prev.Some? then s[d].prev else RotationBehind(s, indexed, s[d])
    ensures Before(s, indexed, d) == before
    ensures before.None? ==> Place(s, indexed, d) == Some(Position(d, 0))
  {
  }

  lemma BackEnd(s: Blocks, indexed: bool, d: Digest, path: seq<Digest>, anchor: Digest)
    requires Back(s, indexed, d, path, anchor)
    ensures if path == [] then anchor == d else path[0] == d
  {
  }

  lemma StepForward(s: Blocks, indexed: bool, d: Digest, path: seq<Digest>, anchor: Digest, i: nat, pos: map<Digest, Position<Digest>>)
    requires i < |path| && Back(s, indexed, d, path, anchor) && Remembers(s, indexed, pos)
    requires (if i + 1 == |path| then anchor else path[i + 1]) in pos
    ensures var p := pos[if i + 1 == |path| then anchor else path[i + 1]];
      Place(s, indexed, path[i]) == Some(Position(p.lineage, p.index + 1))
  {
    assert Before(s, indexed, path[i]) == Some(if i + 1 == |path| then anchor else path[i + 1]);
  }

  lemma Recall(s: Blocks, indexed: bool, pos: map<Digest, Position<Digest>>, d: Digest)
    requires Remembers(s, indexed, pos) && d in pos
    ensures Place(s, indexed, d) == Some(pos[d])
  {
  }

  lemma BackNext(s: Blocks, indexed: bool, d: Digest, path: seq<Digest>, cur: Digest)
    requires Back(s, indexed, d, path, cur) && Held(s, cur) && Before(s, indexed, cur).Some?
    ensures Back(s, indexed, d, path + [cur], Before(s, indexed, cur).value)
  {
  }
}
