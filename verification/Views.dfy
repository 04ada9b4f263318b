/** The view as a whole: standing first, then the closure of the equivalences that stand,
    then truth over its classes, then supersession. Each step takes what the ones before it
    decided. The view depends on what was read and not on the order it was read in. */
module Views {
  import opened Options
  import opened Positions
  import opened Graphs
  import opened Standing
  import opened Supersession
  import Equivalence
  import Truth
  import Sorting
  import Blocks
  import BlockOrder

  /** The entities that passed the filter, ascending, and what the meta-molecules among
      them declare. */
  datatype Reading = Reading(order: seq<Node>, equivalences: seq<Declaration>, supersessions: seq<Declaration>, truths: seq<TruthClaim>)

  datatype View = View(class_: map<Node, Node>, members: Members, truth: map<nat, Truth.TruthState>,
                       assertions: map<nat, seq<Truth.TruthRecord>>, conflicts: seq<Truth.Conflict>,
                       supersedes: Adjacency, supersededBy: Adjacency, cycles: seq<seq<Node>>, cycleConflicts: seq<CycleConflict>)

  type Places = map<nat, Position<nat>>

  // ---- placing the blocks -------------------------------------------------------------

  /** The place of each listed block is its place in block order. */
  ghost predicate PlacedAs(s: Blocks.Blocks, indexed: bool, number: Blocks.ByteOrder, list: seq<Blocks.Digest>, place: Places) {
    && (forall n :: n in place <==> exists d :: d in list && number(d) == n)
    && (forall d :: d in list ==> BlockOrder.Place(s, indexed, d).Some? && number(d) in place)
    && (forall d :: d in list ==> place[number(d)] == Numbered(number, BlockOrder.Place(s, indexed, d).value))
  }

  function Numbered(number: Blocks.ByteOrder, p: Position<Blocks.Digest>): Position<nat> { Position(number(p.lineage), p.index) }

  /** Every block that published an entity of the view, placed; none if one cannot be. */
  method PlaceBlocks(o: BlockOrder.BlockOrder, number: Blocks.ByteOrder, list: seq<Blocks.Digest>) returns (r: Option<Places>)
    requires o.Valid() && Blocks.Injective(number)
    modifies o
    ensures o.Valid() && (r.Some? <==> forall d :: d in list ==> BlockOrder.Place(o.src, o.indexed, d).Some?)
    ensures r.Some? ==> PlacedAs(o.src, o.indexed, number, list, r.value)
  {
    hide BlockOrder.Place;
    var place: Places := map[];
    for i := 0 to |list|
      invariant o.Valid() && PlacedAs(o.src, o.indexed, number, list[..i], place)
    {
      assert forall d :: d in list[..i + 1] <==> d in list[..i] || d == list[i];
      assert list[i] in list;
      var p := o.Of(list[i]);
      if p.None? {
        return None;
      }
      PlacedNext(o.src, o.indexed, number, list, i, place);
      place := place[number(list[i]) := Numbered(number, p.value)];
    }
    assert list[..|list|] == list;
    r := Some(place);
  }

  lemma PlacedNext(s: Blocks.Blocks, indexed: bool, number: Blocks.ByteOrder, list: seq<Blocks.Digest>, i: nat, place: Places)
    requires Blocks.Injective(number) && i < |list| && PlacedAs(s, indexed, number, list[..i], place)
    requires BlockOrder.Place(s, indexed, list[i]).Some?
    ensures var p := BlockOrder.Place(s, indexed, list[i]).value;
      PlacedAs(s, indexed, number, list[..i + 1], place[number(list[i]) := Numbered(number, p)])
  {
    hide BlockOrder.Place, Numbered;
    assert list[..i + 1] == list[..i] + [list[i]];
    assert forall d :: d in list[..i + 1] <==> d in list[..i] || d == list[i];
  }

  /** However the blocks are listed, each has one place. */
  lemma OnePlacing(s: Blocks.Blocks, indexed: bool, number: Blocks.ByteOrder, list: seq<Blocks.Digest>, place: Places,
                   list': seq<Blocks.Digest>, place': Places)
    requires PlacedAs(s, indexed, number, list, place) && PlacedAs(s, indexed, number, list', place')
    requires forall d :: d in list <==> d in list'
    ensures place == place'
  {
    hide BlockOrder.Place;
    forall n | n in place ensures n in place' && place[n] == place'[n] {
      var d :| d in list && number(d) == n;
      assert d in list';
    }
    forall n | n in place' ensures n in place {
      var d :| d in list' && number(d) == n;
      assert d in list;
    }
    assert place.Keys == place'.Keys;
  }

  // ---- the steps, in order ------------------------------------------------------------

  /** Every block the readings turn on has a place. */
  ghost predicate Placeable(r: Reading, place: Places) {
    && (forall d :: d in r.equivalences || d in r.supersessions ==> DeclarationPlaced(d, r.truths, place))
    && (forall cl, a :: cl in r.truths && cl.subject in r.order && a in cl.prov ==> a.block in place)
  }

  function PairOf(k: Kept): Equivalence.Pair { Equivalence.Pair(k.declaration.a, k.declaration.b) }

  function PairsOf(kept: seq<Kept>): seq<Equivalence.Pair> { seq(|kept|, i requires 0 <= i < |kept| => PairOf(kept[i])) }

  function AuthorsIn(prov: seq<Authorship>): set<nat> { set a | a in prov :: a.author }

  function ClaimOf(k: Kept): Claim { Claim(k.declaration.a, k.declaration.b, k.declaration.meta, AuthorsIn(k.declaration.prov)) }

  function ClaimsOf(kept: seq<Kept>): seq<Claim> { seq(|kept|, i requires 0 <= i < |kept| => ClaimOf(kept[i])) }

  /** Each entity's class is the least digest the pairs connect it to. */
  ghost predicate ClassesAre(order: seq<Node>, pairs: seq<Equivalence.Pair>, class_: map<Node, Node>, members: Members) {
    && class_.Keys == (set d | d in order)
    && (forall d :: d in order ==> Equivalence.Linked(pairs, d, class_[d]) && forall x :: Equivalence.Linked(pairs, d, x) ==> class_[d] <= x)
    && Equivalence.Listed(order, class_, members) && (forall c :: c in members ==> members[c] != [])
  }

  ghost predicate TruthIs(records: seq<Truth.TruthRecord>, v: View) {
    var all := Truth.Elements(records);
    Truth.Applied(all, Truth.Classes(all), v.truth, v.assertions, v.conflicts) && Truth.AllListed(records, Truth.Classes(all), v.assertions)
  }

  ghost predicate SupersessionIs(claims: seq<Claim>, v: View) {
    && Lists(v.supersedes, claims, v.class_, true) && Lists(v.supersededBy, claims, v.class_, false)
    && NoIdle(v.supersedes) && NoIdle(v.supersededBy)
    && CyclesAre(v.supersedes, v.cycles)
    && |v.cycleConflicts| == |v.cycles|
    && forall k :: 0 <= k < |v.cycles| ==> Surfaces(v.cycleConflicts[k], claims, v.class_, v.members, v.cycles[k])
  }

  ghost predicate CyclesAre(g: Adjacency, cycles: seq<seq<Node>>) {
    && FirstsAscending(cycles) && (forall x :: InSome(cycles, x) <==> OnCycle(g, x))
    && (forall k :: 0 <= k < |cycles| ==>
          Ascending(cycles[k]) && forall x, y :: x in cycles[k] ==> (y in cycles[k] <==> Mutual(g, x, y)))
  }

  /** What the view of a reading is: the equivalences that stand make the classes, the
      classes carry the truth, and the supersessions that stand run between them. */
  ghost predicate IsView(r: Reading, place: Places, v: View)
    requires Placeable(r, place)
  {
    && ClassesAre(r.order, PairsOf(KeepAll(r.equivalences, r.truths, place)), v.class_, v.members)
    && TruthIs(AllRecords(v.class_, r.truths, place), v)
    && SupersessionIs(ClaimsOf(KeepAll(r.supersessions, r.truths, place)), v)
  }

  // ---- what a view shows ---------------------------------------------------------------

  /** An authorship of a claim about a molecule of class c. */
  ghost predicate Speaks(truths: seq<TruthClaim>, class_: map<Node, Node>, c: Node, cl: TruthClaim, a: Authorship) {
    cl in truths && a in cl.prov && cl.subject in class_ && class_[cl.subject] == c
  }

  /** Nothing is said of the class further on in the lineage it was published in. */
  ghost predicate SpeaksLast(truths: seq<TruthClaim>, class_: map<Node, Node>, place: Places, c: Node, cl: TruthClaim, a: Authorship) {
    && Speaks(truths, class_, c, cl, a) && a.block in place
    && forall other, b :: Speaks(truths, class_, c, other, b) ==>
         b.block in place && (place[b.block].lineage == place[a.block].lineage ==> place[b.block].index <= place[a.block].index)
  }

  ghost predicate LastSays(truths: seq<TruthClaim>, class_: map<Node, Node>, place: Places, c: Node, st: Truth.Stance) {
    exists cl, a :: SpeaksLast(truths, class_, place, c, cl, a) && cl.stance == st
  }

  /** A class is held true while its last words are all assertions, held untrue while they
      are all retractions, and conflicted while there are both. */
  ghost predicate TruthShown(truths: seq<TruthClaim>, place: Places, v: View) {
    StatesShown(truths, place, v) && ConflictsShown(truths, place, v) && ListsShown(truths, place, v)
  }

  ghost predicate StatesShown(truths: seq<TruthClaim>, place: Places, v: View) {
    && (forall c :: c in v.truth <==> exists cl, a :: Speaks(truths, v.class_, c, cl, a))
    && (forall c :: c in v.truth ==> StateShown(truths, v.class_, place, c, v.truth[c]))
  }

  ghost predicate ListsShown(truths: seq<TruthClaim>, place: Places, v: View) {
    && (forall c :: c in v.assertions <==> c in v.truth)
    && (forall c :: c in v.assertions ==> AssertionsShown(truths, v.class_, place, c, v.assertions[c]))
  }

  /** The records listed for a class are those of what is said of it, in order, the last
      marked. */
  ghost predicate AssertionsShown(truths: seq<TruthClaim>, class_: map<Node, Node>, place: Places, c: Node, list: seq<Truth.TruthRecord>) {
    && (forall i, j :: 0 <= i < j < |list| ==> Truth.NotAfter(list[i], list[j]))
    && forall x :: x in list <==> exists cl, a :: Speaks(truths, class_, c, cl, a) && IsRecordAt(truths, class_, place, c, cl, a, x)
  }

  ghost predicate IsRecordAt(truths: seq<TruthClaim>, class_: map<Node, Node>, place: Places, c: Node, cl: TruthClaim, a: Authorship, x: Truth.TruthRecord) {
    && x.class_ == c && x.stance == cl.stance && x.meta == cl.meta && x.subject == cl.subject && x.author == a.author && x.block == a.block
    && a.block in place && x.lineage == place[a.block].lineage && x.index == place[a.block].index
    && (x.latest <==> SpeaksLast(truths, class_, place, c, cl, a))
  }

  ghost predicate ConflictsShown(truths: seq<TruthClaim>, place: Places, v: View) {
    && (forall c :: c in v.truth && v.truth[c].Conflicted? ==> exists k :: k in v.conflicts && k.class_ == c)
    && (forall k :: k in v.conflicts ==> k.class_ in v.truth && v.truth[k.class_].Conflicted? && ConflictShown(truths, v.class_, place, k))
  }

  ghost predicate StateShown(truths: seq<TruthClaim>, class_: map<Node, Node>, place: Places, c: Node, state: Truth.TruthState) {
    var yes, no := LastSays(truths, class_, place, c, Truth.Asserted), LastSays(truths, class_, place, c, Truth.Retracted);
    (state.HeldTrue? <==> yes && !no) && (state.HeldUntrue? <==> no && !yes) && (state.Conflicted? <==> yes && no)
  }

  /** A surfaced conflict names who last said which, with which molecules, and everyone who
      spoke of the class. */
  ghost predicate ConflictShown(truths: seq<TruthClaim>, class_: map<Node, Node>, place: Places, k: Truth.Conflict) {
    && (forall x :: x in k.assertedBy <==> exists cl, a :: SpeaksLast(truths, class_, place, k.class_, cl, a) && cl.stance.Asserted? && a.author == x)
    && (forall x :: x in k.retractedBy <==> exists cl, a :: SpeaksLast(truths, class_, place, k.class_, cl, a) && cl.stance.Retracted? && a.author == x)
    && (forall x :: x in k.meta <==> exists cl, a :: SpeaksLast(truths, class_, place, k.class_, cl, a) && cl.meta == x)
    && (forall x :: x in k.declarers <==> exists cl, a :: Speaks(truths, class_, k.class_, cl, a) && a.author == x)
  }

  /** The record of an authorship. */
  ghost function RecordAt(class_: map<Node, Node>, place: Places, cl: TruthClaim, a: Authorship): Truth.TruthRecord
    requires cl.subject in class_ && a.block in place
  {
    Truth.TruthRecord(class_[cl.subject], place[a.block].lineage, place[a.block].index, a.author, cl.stance, cl.meta, a.block, cl.subject, false)
  }

  lemma RecordAtIsSaid(truths: seq<TruthClaim>, class_: map<Node, Node>, place: Places, c: Node, cl: TruthClaim, a: Authorship)
    requires AllPlaced(class_, truths, place) && Speaks(truths, class_, c, cl, a)
    ensures a.block in place && RecordAt(class_, place, cl, a) in Stated(class_, truths, place)
  {
    var x := RecordAt(class_, place, cl, a);
    assert Records(class_, cl, a, place, x);
    StatedMeaning(class_, truths, place, x);
  }

  lemma SaidIsRecordAt(truths: seq<TruthClaim>, class_: map<Node, Node>, place: Places, x: Truth.TruthRecord) returns (cl: TruthClaim, a: Authorship)
    requires AllPlaced(class_, truths, place) && x in Stated(class_, truths, place)
    ensures Speaks(truths, class_, x.class_, cl, a) && a.block in place && x == RecordAt(class_, place, cl, a)
  {
    StatedMeaning(class_, truths, place, x);
    cl, a :| cl in truths && a in cl.prov && Records(class_, cl, a, place, x);
  }

  /** A record is the latest of its lineage exactly if it was the last thing said. */
  lemma LatestMeaning(truths: seq<TruthClaim>, class_: map<Node, Node>, place: Places, c: Node, cl: TruthClaim, a: Authorship)
    requires AllPlaced(class_, truths, place) && Speaks(truths, class_, c, cl, a) && a.block in place
    ensures Truth.IsLatest(Stated(class_, truths, place), RecordAt(class_, place, cl, a)) <==> SpeaksLast(truths, class_, place, c, cl, a)
  {
    hide Stated, AllPlaced;
    var all, x := Stated(class_, truths, place), RecordAt(class_, place, cl, a);
    if Truth.IsLatest(all, x) {
      forall other, b | Speaks(truths, class_, c, other, b)
        ensures b.block in place && (place[b.block].lineage == place[a.block].lineage ==> place[b.block].index <= place[a.block].index)
      {
        RecordAtIsSaid(truths, class_, place, c, other, b);
      }
    }
    if SpeaksLast(truths, class_, place, c, cl, a) {
      forall y | y in all && y.class_ == x.class_ && y.lineage == x.lineage ensures y.index <= x.index {
        var other, b := SaidIsRecordAt(truths, class_, place, y);
      }
    }
  }

  lemma LastWordMeaning(truths: seq<TruthClaim>, class_: map<Node, Node>, place: Places, c: Node, st: Truth.Stance)
    requires AllPlaced(class_, truths, place)
    ensures Truth.LastWord(Stated(class_, truths, place), c, st) <==> LastSays(truths, class_, place, c, st)
  {
    hide Stated, AllPlaced, SpeaksLast, Truth.IsLatest;
    var all := Stated(class_, truths, place);
    if Truth.LastWord(all, c, st) {
      var x :| x in all && x.class_ == c && x.stance == st && Truth.IsLatest(all, x);
      var cl, a := SaidIsRecordAt(truths, class_, place, x);
      LatestMeaning(truths, class_, place, c, cl, a);
    }
    if LastSays(truths, class_, place, c, st) {
      var cl, a :| SpeaksLast(truths, class_, place, c, cl, a) && cl.stance == st;
      SpeaksLastSpeaks(truths, class_, place, c, cl, a);
      RecordAtIsSaid(truths, class_, place, c, cl, a);
      LatestMeaning(truths, class_, place, c, cl, a);
      assert RecordAt(class_, place, cl, a) in all;
    }
  }

  lemma SpeaksLastSpeaks(truths: seq<TruthClaim>, class_: map<Node, Node>, place: Places, c: Node, cl: TruthClaim, a: Authorship)
    requires SpeaksLast(truths, class_, place, c, cl, a)
    ensures Speaks(truths, class_, c, cl, a) && a.block in place
  {
  }

  lemma ConflictMeaning(truths: seq<TruthClaim>, class_: map<Node, Node>, place: Places, c: Node)
    requires AllPlaced(class_, truths, place)
    ensures ConflictShown(truths, class_, place, Truth.ConflictOf(Stated(class_, truths, place), c))
  {
    hide Stated, AllPlaced, SpeaksLast, Truth.IsLatest;
    var all := Stated(class_, truths, place);
    var k := Truth.ConflictOf(all, c);
    forall x | x in all && x.class_ == c
      ensures exists cl, a :: (Speaks(truths, class_, c, cl, a) && a.block in place && x == RecordAt(class_, place, cl, a)
                               && (Truth.IsLatest(all, x) <==> SpeaksLast(truths, class_, place, c, cl, a)))
    {
      var cl, a := SaidIsRecordAt(truths, class_, place, x);
      LatestMeaning(truths, class_, place, c, cl, a);
    }
    forall cl, a | Speaks(truths, class_, c, cl, a)
      ensures a.block in place && RecordAt(class_, place, cl, a) in all
        && (Truth.IsLatest(all, RecordAt(class_, place, cl, a)) <==> SpeaksLast(truths, class_, place, c, cl, a))
    {
      RecordAtIsSaid(truths, class_, place, c, cl, a);
      LatestMeaning(truths, class_, place, c, cl, a);
    }
    forall cl, a | SpeaksLast(truths, class_, place, c, cl, a) ensures Speaks(truths, class_, c, cl, a) {
      SpeaksLastSpeaks(truths, class_, place, c, cl, a);
    }
  }

  lemma AssertionsMeaning(truths: seq<TruthClaim>, class_: map<Node, Node>, place: Places, c: Node, list: seq<Truth.TruthRecord>)
    requires AllPlaced(class_, truths, place) && Truth.GroupOf(Stated(class_, truths, place), c, list)
    requires Sorting.Sorted(list, Truth.CompareTruthRecords)
    ensures AssertionsShown(truths, class_, place, c, list)
  {
    hide Stated, AllPlaced, SpeaksLast, Truth.IsLatest, Truth.CompareTruthRecords, Truth.NotAfter;
    var all := Stated(class_, truths, place);
    forall i, j | 0 <= i < j < |list| ensures Truth.NotAfter(list[i], list[j]) {
      Truth.ComparisonMeaning(list[i], list[j]);
    }
    forall x | x in list ensures exists cl, a :: Speaks(truths, class_, c, cl, a) && IsRecordAt(truths, class_, place, c, cl, a, x) {
      assert Truth.IsMarked(all, x);
      var y :| y in all && x == Truth.Mark(all, y);
      var cl, a := SaidIsRecordAt(truths, class_, place, y);
      LatestMeaning(truths, class_, place, c, cl, a);
    }
    forall cl, a, x | Speaks(truths, class_, c, cl, a) && IsRecordAt(truths, class_, place, c, cl, a, x) ensures x in list {
      RecordAtIsSaid(truths, class_, place, c, cl, a);
      LatestMeaning(truths, class_, place, c, cl, a);
      assert x == Truth.Mark(all, RecordAt(class_, place, cl, a));
    }
  }

  lemma ClassesSpokenOf(truths: seq<TruthClaim>, class_: map<Node, Node>, place: Places, c: Node)
    requires AllPlaced(class_, truths, place)
    ensures c in Truth.Classes(Stated(class_, truths, place)) <==> exists cl, a :: Speaks(truths, class_, c, cl, a)
  {
    hide Stated, AllPlaced;
    var all := Stated(class_, truths, place);
    if c in Truth.Classes(all) {
      var x :| x in all && x.class_ == c;
      var cl, a := SaidIsRecordAt(truths, class_, place, x);
    }
    if cl, a :| Speaks(truths, class_, c, cl, a) { RecordAtIsSaid(truths, class_, place, c, cl, a); }
  }

  lemma StateMeaning(truths: seq<TruthClaim>, class_: map<Node, Node>, place: Places, c: Node)
    requires AllPlaced(class_, truths, place) && c in Truth.Classes(Stated(class_, truths, place))
    ensures StateShown(truths, class_, place, c, Truth.StateOf(Stated(class_, truths, place), c))
  {
    Truth.SomeLastWord(Stated(class_, truths, place), c);
    LastWordMeaning(truths, class_, place, c, Truth.Asserted);
    LastWordMeaning(truths, class_, place, c, Truth.Retracted);
    hide Stated, AllPlaced, LastSays, Truth.LastWord;
  }

  /** What the truth of a view says of the set of its records. */
  ghost predicate TruthFrom(all: set<Truth.TruthRecord>, v: View) {
    && v.truth.Keys == v.assertions.Keys == Truth.Classes(all)
    && (forall c :: c in v.assertions ==> Truth.GroupOf(all, c, v.assertions[c]) && Sorting.Sorted(v.assertions[c], Truth.CompareTruthRecords))
    && (forall c :: c in v.truth ==> v.truth[c] == Truth.StateOf(all, c))
    && (forall c :: c in v.truth && v.truth[c].Conflicted? ==> Truth.ConflictOf(all, c) in v.conflicts)
    && (forall k :: k in v.conflicts ==> k.class_ in v.truth && v.truth[k.class_].Conflicted? && k == Truth.ConflictOf(all, k.class_))
  }

  lemma TruthIsFrom(records: seq<Truth.TruthRecord>, v: View)
    requires TruthIs(records, v)
    ensures TruthFrom(Truth.Elements(records), v)
  {
    hide Truth.StateOf, Truth.ConflictOf, Truth.GroupOf, Truth.AllListed, Truth.Classes, Sorting.Sorted, Truth.Elements;
  }

  lemma TruthMeaning(truths: seq<TruthClaim>, place: Places, v: View)
    requires AllPlaced(v.class_, truths, place) && TruthIs(AllRecords(v.class_, truths, place), v)
    ensures TruthShown(truths, place, v)
  {
    AllRecordsAreStated(v.class_, truths, place);
    TruthIsFrom(AllRecords(v.class_, truths, place), v);
    hide Stated, AllPlaced, StatesShown, ConflictsShown, ListsShown, AllRecords, TruthIs, TruthFrom, Truth.Elements;
    StatesMeaning(truths, place, v);
    ConflictsMeaning(truths, place, v);
    ListsMeaning(truths, place, v);
  }

  lemma StatesMeaning(truths: seq<TruthClaim>, place: Places, v: View)
    requires AllPlaced(v.class_, truths, place) && TruthFrom(Stated(v.class_, truths, place), v)
    ensures StatesShown(truths, place, v)
  {
    hide Stated, AllPlaced, StateShown, Speaks, Truth.StateOf, Truth.ConflictOf, Truth.Classes, Truth.GroupOf, Sorting.Sorted;
    forall c ensures c in v.truth <==> exists cl, a :: Speaks(truths, v.class_, c, cl, a) { ClassesSpokenOf(truths, v.class_, place, c); }
    forall c | c in v.truth ensures StateShown(truths, v.class_, place, c, v.truth[c]) { StateMeaning(truths, v.class_, place, c); }
  }

  lemma ListsMeaning(truths: seq<TruthClaim>, place: Places, v: View)
    requires AllPlaced(v.class_, truths, place) && TruthFrom(Stated(v.class_, truths, place), v)
    ensures ListsShown(truths, place, v)
  {
    hide Stated, AllPlaced, AssertionsShown, Truth.StateOf, Truth.ConflictOf, Truth.Classes, Truth.GroupOf, Sorting.Sorted;
    forall c | c in v.assertions ensures AssertionsShown(truths, v.class_, place, c, v.assertions[c]) {
      AssertionsMeaning(truths, v.class_, place, c, v.assertions[c]);
    }
  }

  lemma ConflictsMeaning(truths: seq<TruthClaim>, place: Places, v: View)
    requires AllPlaced(v.class_, truths, place) && TruthFrom(Stated(v.class_, truths, place), v)
    ensures ConflictsShown(truths, place, v)
  {
    hide Stated, AllPlaced, ConflictShown, Truth.StateOf, Truth.ConflictOf, Truth.Classes, Truth.GroupOf, Sorting.Sorted;
    var all := Stated(v.class_, truths, place);
    forall c | c in v.truth && v.truth[c].Conflicted? ensures exists k :: k in v.conflicts && k.class_ == c {
      ConflictClass(all, c);
      assert Truth.ConflictOf(all, c) in v.conflicts;
    }
    forall k | k in v.conflicts ensures k.class_ in v.truth && v.truth[k.class_].Conflicted? && ConflictShown(truths, v.class_, place, k) {
      ConflictMeaning(truths, v.class_, place, k.class_);
    }
  }

  lemma ConflictClass(records: set<Truth.TruthRecord>, c: nat)
    ensures Truth.ConflictOf(records, c).class_ == c
  {
  }

  /** An equivalence in force is between the two. */
  ghost predicate Ties(r: Reading, place: Places, x: Node, y: Node) {
    exists d :: d in r.equivalences && InForce(d, r.truths, place) && ((d.a == x && d.b == y) || (d.a == y && d.b == x))
  }

  ghost predicate Tied(r: Reading, place: Places, x: Node, y: Node) {
    exists path :: Trail(r, place, path) && path[0] == x && path[|path| - 1] == y
  }

  ghost predicate Trail(r: Reading, place: Places, path: seq<Node>) {
    |path| > 0 && forall i :: 0 <= i < |path| - 1 ==> Ties(r, place, path[i], path[i + 1])
  }

  /** A molecule's class is the least it is tied to, and the classes list their molecules,
      ascending. */
  ghost predicate ClassesShown(r: Reading, place: Places, class_: map<Node, Node>, members: Members) {
    && (forall x :: x in class_ <==> x in r.order)
    && (forall x :: x in class_ ==> Tied(r, place, x, class_[x]) && forall y :: Tied(r, place, x, y) ==> class_[x] <= y)
    && (forall c :: c in members <==> exists x :: x in class_ && class_[x] == c)
    && (forall c :: c in members ==> Ascending(members[c]) && forall x :: x in members[c] <==> x in class_ && class_[x] == c)
  }

  /** A supersession in force of a molecule of class y by one of class x. */
  ghost predicate Overrides(r: Reading, place: Places, class_: map<Node, Node>, d: Declaration, x: Node, y: Node) {
    d in r.supersessions && InForce(d, r.truths, place) && d.a in class_ && class_[d.a] == x && d.b in class_ && class_[d.b] == y
  }

  /** A supersession in force between classes of a cycle. */
  ghost predicate OverridesWithin(r: Reading, place: Places, class_: map<Node, Node>, d: Declaration, cycle: seq<Node>) {
    exists x, y :: x in cycle && y in cycle && Overrides(r, place, class_, d, x, y)
  }

  /** A surfaced cycle: the molecules of its classes, the supersessions in force between
      them, and who published those. */
  ghost predicate CycleShown(r: Reading, place: Places, v: View, cycle: seq<Node>, k: CycleConflict) {
    && (forall m :: m in k.molecules <==> m in v.class_ && v.class_[m] in cycle)
    && (forall m :: m in k.meta <==> exists d :: OverridesWithin(r, place, v.class_, d, cycle) && d.meta == m)
    && (forall p :: p in k.declarers <==> exists d :: OverridesWithin(r, place, v.class_, d, cycle) && Publishes(d, p))
  }

  ghost predicate SupersessionShown(r: Reading, place: Places, v: View) {
    && (forall x, y :: y in Succ(v.supersedes, x) <==> exists d :: Overrides(r, place, v.class_, d, x, y))
    && (forall x, y :: x in Succ(v.supersededBy, y) <==> exists d :: Overrides(r, place, v.class_, d, x, y))
    && CyclesAre(v.supersedes, v.cycles)
    && |v.cycleConflicts| == |v.cycles|
    && forall k :: 0 <= k < |v.cycles| ==> CycleShown(r, place, v, v.cycles[k], v.cycleConflicts[k])
  }

  /** The view in terms of what was read: declarations in force make the classes and the
      edges between them, and the last words make the truth. */
  ghost predicate Shows(r: Reading, place: Places, v: View) {
    ClassesShown(r, place, v.class_, v.members) && TruthShown(r.truths, place, v) && SupersessionShown(r, place, v)
  }

  lemma KeptAreInForce(gated: seq<Declaration>, truths: seq<TruthClaim>, place: Places, d: Declaration)
    requires forall x :: x in gated ==> DeclarationPlaced(x, truths, place)
    ensures (exists k :: k in KeepAll(gated, truths, place) && k.declaration == d) <==> d in gated && InForce(d, truths, place)
  {
    hide KeepAll, Withdrawn, InForce, BackedBySome, DeclarationPlaced;
    GateMeaning(gated, truths, place);
  }

  lemma TiesAreJoins(r: Reading, place: Places, x: Node, y: Node)
    requires Placeable(r, place)
    ensures Equivalence.Joins(PairsOf(KeepAll(r.equivalences, r.truths, place)), x, y) <==> Ties(r, place, x, y)
  {
    hide KeepAll, InForce, DeclarationPlaced, PairsOf;
    var kept := KeepAll(r.equivalences, r.truths, place);
    PairsAre(kept);
    if Equivalence.Joins(PairsOf(kept), x, y) {
      var k :| k in kept && (PairOf(k) == Equivalence.Pair(x, y) || PairOf(k) == Equivalence.Pair(y, x));
      KeptAreInForce(r.equivalences, r.truths, place, k.declaration);
    }
    if Ties(r, place, x, y) {
      var d :| d in r.equivalences && InForce(d, r.truths, place) && ((d.a == x && d.b == y) || (d.a == y && d.b == x));
      KeptAreInForce(r.equivalences, r.truths, place, d);
      var k :| k in kept && k.declaration == d;
      assert PairOf(k) in PairsOf(kept);
    }
  }

  lemma TiedIsLinked(r: Reading, place: Places, x: Node, y: Node)
    requires Placeable(r, place)
    ensures Equivalence.Linked(PairsOf(KeepAll(r.equivalences, r.truths, place)), x, y) <==> Tied(r, place, x, y)
  {
    hide KeepAll, DeclarationPlaced, PairsOf, Ties, Equivalence.Joins;
    var pairs := PairsOf(KeepAll(r.equivalences, r.truths, place));
    forall x, y ensures Equivalence.Joins(pairs, x, y) <==> Ties(r, place, x, y) { TiesAreJoins(r, place, x, y); }
    forall p ensures Equivalence.Chain(pairs, p) <==> Trail(r, place, p) {}
  }

  lemma {:induction false} SelectMeaning(order: seq<Node>, class_: map<Node, Node>, c: Node)
    requires Ascending(order)
    ensures Ascending(Equivalence.Select(order, class_, c))
    ensures forall x :: x in Equivalence.Select(order, class_, c) <==> x in order && x in class_ && class_[x] == c
    decreases |order|
  {
    if order != [] {
      var most, last := order[..|order| - 1], order[|order| - 1];
      SelectMeaning(most, class_, c);
      assert order == most + [last];
      forall x | x in Equivalence.Select(most, class_, c) ensures x < last {
        var i :| 0 <= i < |most| && most[i] == x;
        assert order[i] == x;
      }
      var chosen := Equivalence.Select(most, class_, c);
      assert forall i :: 0 <= i < |chosen| ==> chosen[i] in chosen;
    }
  }

  lemma ClassesMeaning(r: Reading, place: Places, class_: map<Node, Node>, members: Members)
    requires Placeable(r, place) && Ascending(r.order)
    requires ClassesAre(r.order, PairsOf(KeepAll(r.equivalences, r.truths, place)), class_, members)
    ensures ClassesShown(r, place, class_, members)
  {
    hide DeclarationPlaced, KeepAll, PairsOf, Equivalence.Linked, Tied, Equivalence.Select, Ascending;
    forall x, y ensures Equivalence.Linked(PairsOf(KeepAll(r.equivalences, r.truths, place)), x, y) <==> Tied(r, place, x, y) {
      TiedIsLinked(r, place, x, y);
    }
    forall c ensures Ascending(Equivalence.Select(r.order, class_, c))
      && forall x :: x in Equivalence.Select(r.order, class_, c) <==> x in r.order && x in class_ && class_[x] == c
    {
      SelectMeaning(r.order, class_, c);
    }
    forall c ensures c in members <==> exists x :: x in class_ && class_[x] == c {
      if c in members { assert members[c][0] in members[c]; }
    }
  }

  lemma OverridingIsClaimed(r: Reading, place: Places, class_: map<Node, Node>, d: Declaration, x: Node, y: Node)
    requires Placeable(r, place) && Overrides(r, place, class_, d, x, y)
    ensures var cl := Claim(d.a, d.b, d.meta, AuthorsIn(d.prov));
      cl in ClaimsOf(KeepAll(r.supersessions, r.truths, place)) && Declares(cl, class_, x, y)
  {
    hide KeepAll, InForce, DeclarationPlaced, ClaimsOf, AuthorsIn;
    var kept := KeepAll(r.supersessions, r.truths, place);
    PairsAre(kept);
    KeptAreInForce(r.supersessions, r.truths, place, d);
    var k :| k in kept && k.declaration == d;
    assert ClaimOf(k) in ClaimsOf(kept);
  }

  /** Each claim between classes is of a supersession in force. */
  lemma ClaimIsOverriding(r: Reading, place: Places, class_: map<Node, Node>, cl: Claim, x: Node, y: Node) returns (d: Declaration)
    requires Placeable(r, place) && cl in ClaimsOf(KeepAll(r.supersessions, r.truths, place)) && Declares(cl, class_, x, y)
    ensures Overrides(r, place, class_, d, x, y) && cl == Claim(d.a, d.b, d.meta, AuthorsIn(d.prov))
  {
    hide KeepAll, InForce, DeclarationPlaced, ClaimsOf, AuthorsIn;
    var kept := KeepAll(r.supersessions, r.truths, place);
    PairsAre(kept);
    var k :| k in kept && ClaimOf(k) == cl;
    d := k.declaration;
    KeptAreInForce(r.supersessions, r.truths, place, d);
  }

  lemma EdgeMeaning(r: Reading, place: Places, class_: map<Node, Node>, x: Node, y: Node)
    requires Placeable(r, place)
    ensures Edge(ClaimsOf(KeepAll(r.supersessions, r.truths, place)), class_, x, y) <==> exists d :: Overrides(r, place, class_, d, x, y)
  {
    var claims := ClaimsOf(KeepAll(r.supersessions, r.truths, place));
    hide KeepAll, DeclarationPlaced, ClaimsOf, Overrides, Declares;
    if Edge(claims, class_, x, y) {
      var cl :| cl in claims && Declares(cl, class_, x, y);
      var d := ClaimIsOverriding(r, place, class_, cl, x, y);
    }
    if d :| Overrides(r, place, class_, d, x, y) { OverridingIsClaimed(r, place, class_, d, x, y); }
  }

  lemma MoleculesMeaning(r: Reading, place: Places, class_: map<Node, Node>, members: Members, cycle: seq<Node>, m: Node)
    requires ClassesShown(r, place, class_, members)
    ensures (exists c :: c in cycle && m in MembersOf(members, c)) <==> m in class_ && class_[m] in cycle
  {
    hide Tied, Ascending;
    if c :| c in cycle && m in MembersOf(members, c) { assert c in members && m in members[c]; }
  }

  lemma WithinIsOverriding(r: Reading, place: Places, class_: map<Node, Node>, cycle: seq<Node>, cl: Claim) returns (d: Declaration)
    requires Placeable(r, place) && cl in ClaimsOf(KeepAll(r.supersessions, r.truths, place)) && Within(cl, class_, cycle)
    ensures OverridesWithin(r, place, class_, d, cycle) && cl == Claim(d.a, d.b, d.meta, AuthorsIn(d.prov))
  {
    hide KeepAll, DeclarationPlaced, ClaimsOf, InForce;
    d := ClaimIsOverriding(r, place, class_, cl, class_[cl.a], class_[cl.b]);
  }

  lemma OverridingIsWithin(r: Reading, place: Places, class_: map<Node, Node>, cycle: seq<Node>, d: Declaration)
    requires Placeable(r, place) && OverridesWithin(r, place, class_, d, cycle)
    ensures var cl := Claim(d.a, d.b, d.meta, AuthorsIn(d.prov)); cl in ClaimsOf(KeepAll(r.supersessions, r.truths, place)) && Within(cl, class_, cycle)
  {
    hide KeepAll, DeclarationPlaced, ClaimsOf, InForce;
    var x, y :| x in cycle && y in cycle && Overrides(r, place, class_, d, x, y);
    OverridingIsClaimed(r, place, class_, d, x, y);
  }

  lemma AuthorsPublish(d: Declaration)
    ensures forall p :: p in AuthorsIn(d.prov) <==> Publishes(d, p)
  {
  }

  lemma MetaMeaning(r: Reading, place: Places, class_: map<Node, Node>, cycle: seq<Node>, m: Node)
    requires Placeable(r, place)
    ensures m in (set cl | cl in ClaimsOf(KeepAll(r.supersessions, r.truths, place)) && Within(cl, class_, cycle) :: cl.meta)
       <==> exists d :: OverridesWithin(r, place, class_, d, cycle) && d.meta == m
  {
    var claims := ClaimsOf(KeepAll(r.supersessions, r.truths, place));
    hide KeepAll, DeclarationPlaced, ClaimsOf, OverridesWithin, Within, AuthorsIn;
    if cl :| cl in claims && Within(cl, class_, cycle) && cl.meta == m { var d := WithinIsOverriding(r, place, class_, cycle, cl); }
    if d :| OverridesWithin(r, place, class_, d, cycle) && d.meta == m { OverridingIsWithin(r, place, class_, cycle, d); }
  }

  lemma DeclarersMeaning(r: Reading, place: Places, class_: map<Node, Node>, cycle: seq<Node>, p: Node)
    requires Placeable(r, place)
    ensures p in (set cl, x | cl in ClaimsOf(KeepAll(r.supersessions, r.truths, place)) && Within(cl, class_, cycle) && x in cl.authors :: x)
       <==> exists d :: OverridesWithin(r, place, class_, d, cycle) && Publishes(d, p)
  {
    var claims := ClaimsOf(KeepAll(r.supersessions, r.truths, place));
    hide KeepAll, DeclarationPlaced, ClaimsOf, OverridesWithin, Within, AuthorsIn, Publishes;
    if cl :| cl in claims && Within(cl, class_, cycle) && p in cl.authors {
      var d := WithinIsOverriding(r, place, class_, cycle, cl);
      AuthorsPublish(d);
    }
    if d :| OverridesWithin(r, place, class_, d, cycle) && Publishes(d, p) {
      AuthorsPublish(d);
      OverridingIsWithin(r, place, class_, cycle, d);
    }
  }

  lemma CycleMeaning(r: Reading, place: Places, v: View, cycle: seq<Node>, k: CycleConflict)
    requires Placeable(r, place) && ClassesShown(r, place, v.class_, v.members)
    requires Surfaces(k, ClaimsOf(KeepAll(r.supersessions, r.truths, place)), v.class_, v.members, cycle)
    ensures CycleShown(r, place, v, cycle, k)
  {
    hide KeepAll, DeclarationPlaced, ClaimsOf, Ascending, ClassesShown, OverridesWithin, Within, MembersOf, Publishes;
    forall m ensures m in k.molecules <==> m in v.class_ && v.class_[m] in cycle {
      MoleculesMeaning(r, place, v.class_, v.members, cycle, m);
    }
    forall m ensures m in k.meta <==> exists d :: OverridesWithin(r, place, v.class_, d, cycle) && d.meta == m {
      MetaMeaning(r, place, v.class_, cycle, m);
    }
    forall p ensures p in k.declarers <==> exists d :: OverridesWithin(r, place, v.class_, d, cycle) && Publishes(d, p) {
      DeclarersMeaning(r, place, v.class_, cycle, p);
    }
  }

  lemma SupersessionMeaning(r: Reading, place: Places, v: View)
    requires Placeable(r, place) && ClassesShown(r, place, v.class_, v.members)
    requires SupersessionIs(ClaimsOf(KeepAll(r.supersessions, r.truths, place)), v)
    ensures SupersessionShown(r, place, v)
  {
    hide KeepAll, DeclarationPlaced, ClaimsOf, Edge, Overrides, CyclesAre, Surfaces, CycleShown, ClassesShown, NoIdle;
    forall x, y ensures Edge(ClaimsOf(KeepAll(r.supersessions, r.truths, place)), v.class_, x, y) <==> exists d :: Overrides(r, place, v.class_, d, x, y) {
      EdgeMeaning(r, place, v.class_, x, y);
    }
    forall k | 0 <= k < |v.cycles| ensures CycleShown(r, place, v, v.cycles[k], v.cycleConflicts[k]) {
      CycleMeaning(r, place, v, v.cycles[k], v.cycleConflicts[k]);
    }
  }

  /** A view, as it is built, shows what was read. */
  lemma ViewMeaning(r: Reading, place: Places, v: View)
    requires Placeable(r, place) && Ascending(r.order) && IsView(r, place, v)
    ensures Shows(r, place, v)
  {
    hide KeepAll, DeclarationPlaced, PairsOf, ClaimsOf, ClassesAre, TruthIs, SupersessionIs, ClassesShown, TruthShown, SupersessionShown, Ascending, AllRecords;
    ClassesMeaning(r, place, v.class_, v.members);
    assert AllPlaced(v.class_, r.truths, place) by { KnownIsListed(r, place, v); }
    TruthMeaning(r.truths, place, v);
    SupersessionMeaning(r, place, v);
  }

  lemma KnownIsListed(r: Reading, place: Places, v: View)
    requires Placeable(r, place) && ClassesShown(r, place, v.class_, v.members)
    ensures AllPlaced(v.class_, r.truths, place)
  {
    hide DeclarationPlaced, Tied, Ascending;
  }

  /** Builds the view; an error iff a block cannot be placed. */
  method Build(r: Reading, place: Places) returns (v: Option<View>)
    requires Ascending(r.order)
    ensures v.Some? <==> Placeable(r, place)
    ensures v.Some? ==> IsView(r, place, v.value) && Shows(r, place, v.value)
  {
    hide DeclarationPlaced, Ascending, TruthIs, SupersessionIs, CyclesAre, Equivalence.Linked, Equivalence.Listed,
         KeepAll, Withdrawn, Gated, AllRecords, Stated, IsSaid, Origins, PairsOf, ClaimsOf,
         ClassesAre, Shows;
    var equivalences := ApplyStanding(r.equivalences, r.truths, place);
    if equivalences.None? {
      return None;
    }
    var supersessions := ApplyStanding(r.supersessions, r.truths, place);
    if supersessions.None? {
      return None;
    }
    var class_, members := Equivalence.CloseEquivalences(PairsOf(equivalences.value.0), r.order);
    ClassesOf(r.order, PairsOf(equivalences.value.0), class_, members);
    var records := TruthRecords(class_, r.truths, place);
    if records.None? {
      return None;
    }
    var t := new Truth.View();
    t.ApplyTruth(records.value);
    var supersedes, supersededBy, cycles, surfaced := ApplySupersession(ClaimsOf(supersessions.value.0), class_, members);
    var view := View(class_, members, t.truth, t.assertions, t.conflicts, supersedes, supersededBy, cycles, surfaced);
    TruthOf(records.value, view);
    SupersessionOf(ClaimsOf(supersessions.value.0), view);
    ViewMeaning(r, place, view);
    v := Some(view);
  }

  lemma ClassesOf(order: seq<Node>, pairs: seq<Equivalence.Pair>, class_: map<Node, Node>, members: Members)
    requires class_.Keys == set d | d in order
    requires forall d :: d in order ==>
               Equivalence.Linked(pairs, d, class_[d]) && forall x :: Equivalence.Linked(pairs, d, x) ==> class_[d] <= x
    requires Equivalence.Listed(order, class_, members) && forall c :: c in members ==> members[c] != []
    ensures ClassesAre(order, pairs, class_, members)
  {
    hide Equivalence.Linked, Equivalence.Listed;
  }

  lemma TruthOf(records: seq<Truth.TruthRecord>, v: View)
    requires var all := Truth.Elements(records);
      Truth.Applied(all, Truth.Classes(all), v.truth, v.assertions, v.conflicts) && Truth.AllListed(records, Truth.Classes(all), v.assertions)
    ensures TruthIs(records, v)
  {
  }

  lemma SupersessionOf(claims: seq<Claim>, v: View)
    requires Lists(v.supersedes, claims, v.class_, true) && Lists(v.supersededBy, claims, v.class_, false)
    requires NoIdle(v.supersedes) && NoIdle(v.supersededBy)
    requires FirstsAscending(v.cycles) && forall x :: InSome(v.cycles, x) <==> OnCycle(v.supersedes, x)
    requires forall k :: 0 <= k < |v.cycles| ==>
               Ascending(v.cycles[k]) && forall x, y :: x in v.cycles[k] ==> (y in v.cycles[k] <==> Mutual(v.supersedes, x, y))
    requires |v.cycleConflicts| == |v.cycles|
    requires forall k :: 0 <= k < |v.cycles| ==> Surfaces(v.cycleConflicts[k], claims, v.class_, v.members, v.cycles[k])
    ensures SupersessionIs(claims, v)
  {
  }

  // ---- one view -----------------------------------------------------------------------

  /** The same entities, the same declarations however often and in whatever order, the
      same assertions in whatever order. */
  ghost predicate SameReading(r: Reading, r': Reading) {
    && r.order == r'.order && multiset(r.truths) == multiset(r'.truths)
    && (forall d :: d in r.equivalences <==> d in r'.equivalences)
    && (forall d :: d in r.supersessions <==> d in r'.supersessions)
  }

  ghost predicate SameClaims(truths: seq<TruthClaim>, truths': seq<TruthClaim>) { forall t :: t in truths <==> t in truths' }

  lemma SameStanding(d: Declaration, truths: seq<TruthClaim>, truths': seq<TruthClaim>, place: Places)
    requires SameClaims(truths, truths') && DeclarationPlaced(d, truths, place)
    ensures DeclarationPlaced(d, truths', place) && Statements(d, truths', place) == Statements(d, truths, place)
  {
    hide Publishes;
  }

  lemma SameKept(gated: seq<Declaration>, gated': seq<Declaration>, truths: seq<TruthClaim>, truths': seq<TruthClaim>, place: Places)
    requires (forall d :: d in gated ==> DeclarationPlaced(d, truths, place)) && (forall d :: d in gated' ==> DeclarationPlaced(d, truths', place))
    requires SameClaims(truths, truths') && forall d :: d in gated <==> d in gated'
    ensures forall k :: k in KeepAll(gated, truths, place) <==> k in KeepAll(gated', truths', place)
  {
    forall k ensures k in KeepAll(gated, truths, place) <==> k in KeepAll(gated', truths', place) {
      KeepAllMembers(gated, truths, place, k);
      KeepAllMembers(gated', truths', place, k);
      if k.declaration in gated { SameStanding(k.declaration, truths, truths', place); }
    }
  }

  lemma SamePairs(kept: seq<Kept>, kept': seq<Kept>)
    requires forall k :: k in kept <==> k in kept'
    ensures forall p :: p in PairsOf(kept) <==> p in PairsOf(kept')
    ensures forall c :: c in ClaimsOf(kept) <==> c in ClaimsOf(kept')
  {
    PairsAre(kept);
    PairsAre(kept');
  }

  lemma PairsAre(kept: seq<Kept>)
    ensures forall p :: p in PairsOf(kept) <==> exists k :: k in kept && PairOf(k) == p
    ensures forall c :: c in ClaimsOf(kept) <==> exists k :: k in kept && ClaimOf(k) == c
  {
    hide PairOf, ClaimOf;
    forall k | k in kept ensures PairOf(k) in PairsOf(kept) && ClaimOf(k) in ClaimsOf(kept) {
      var i :| 0 <= i < |kept| && kept[i] == k;
      assert PairsOf(kept)[i] == PairOf(k) && ClaimsOf(kept)[i] == ClaimOf(k);
    }
  }

  lemma SameLinks(pairs: seq<Equivalence.Pair>, pairs': seq<Equivalence.Pair>, x: Node, y: Node)
    requires (forall p :: p in pairs ==> p in pairs') && Equivalence.Linked(pairs, x, y)
    ensures Equivalence.Linked(pairs', x, y)
  {
    var p :| Equivalence.Chain(pairs, p) && p[0] == x && p[|p| - 1] == y;
    assert Equivalence.Chain(pairs', p);
  }

  lemma OneClassing(order: seq<Node>, pairs: seq<Equivalence.Pair>, pairs': seq<Equivalence.Pair>,
                    class_: map<Node, Node>, members: Members, class': map<Node, Node>, members': Members)
    requires forall p :: p in pairs <==> p in pairs'
    requires ClassesAre(order, pairs, class_, members) && ClassesAre(order, pairs', class', members')
    ensures class_ == class' && members == members'
  {
    hide Equivalence.Linked, Equivalence.Select;
    forall d | d in order ensures class_[d] == class'[d] {
      SameLinks(pairs, pairs', d, class_[d]);
      SameLinks(pairs', pairs, d, class'[d]);
    }
    assert class_ == class';
    forall c ensures Succ(members, c) == Succ(members', c) {
      assert (if c in members then members[c] else []) == (if c in members' then members'[c] else []);
    }
    SameLists(members, members');
  }

  /** Tables without empty lists that list the same are the same. */
  lemma SameLists(g: map<Node, seq<Node>>, h: map<Node, seq<Node>>)
    requires (forall x :: x in g ==> g[x] != []) && (forall x :: x in h ==> h[x] != [])
    requires forall x :: Succ(g, x) == Succ(h, x)
    ensures g == h
  {
    forall x ensures x in g <==> x in h {
      assert Succ(g, x) == Succ(h, x);
    }
    forall x | x in g ensures g[x] == h[x] {
      assert Succ(g, x) == Succ(h, x);
    }
  }

  // ---- records ------------------------------------------------------------------------

  lemma {:induction false} RecordsConcat(classes: map<nat, nat>, a: seq<TruthClaim>, b: seq<TruthClaim>, place: Places)
    ensures AllRecords(classes, a + b, place) == AllRecords(classes, a, place) + AllRecords(classes, b, place)
    decreases |b|
  {
    if b == [] {
      assert a + b == a;
    } else {
      var n := |b| - 1;
      hide ClaimRecords;
      assert (a + b)[..|a + b| - 1] == a + b[..n] && (a + b)[|a + b| - 1] == b[n];
      RecordsConcat(classes, a, b[..n], place);
    }
  }

  /** One claim moved to the end. */
  lemma RecordsMoved(classes: map<nat, nat>, x: seq<TruthClaim>, c: TruthClaim, y: seq<TruthClaim>, place: Places)
    ensures multiset(AllRecords(classes, x + [c] + y, place)) == multiset(AllRecords(classes, x + y + [c], place))
  {
    hide AllRecords;
    RecordsConcat(classes, x + [c], y, place);
    RecordsConcat(classes, x, [c], place);
    RecordsConcat(classes, x + y, [c], place);
    RecordsConcat(classes, x, y, place);
  }

  lemma {:induction false} RecordsPermute(classes: map<nat, nat>, claims: seq<TruthClaim>, claims': seq<TruthClaim>, place: Places)
    requires multiset(claims) == multiset(claims')
    ensures multiset(AllRecords(classes, claims, place)) == multiset(AllRecords(classes, claims', place))
    decreases |claims|
  {
    hide AllRecords;
    Sorting.SameElements(claims, claims');
    if claims == [] {
      assert claims == claims';
    } else {
      var n := |claims| - 1;
      var c, rest := claims[n], claims[..n];
      assert c in claims;
      var j :| 0 <= j < |claims'| && claims'[j] == c;
      var x, y := claims'[..j], claims'[j + 1..];
      assert claims == rest + [c] && claims' == x + [c] + y;
      Sorting.TakenOut(claims, claims', j);
      RecordsPermute(classes, rest, x + y, place);
      RecordsStep(classes, rest, x, c, y, place);
    }
  }

  lemma RecordsStep(classes: map<nat, nat>, rest: seq<TruthClaim>, x: seq<TruthClaim>, c: TruthClaim, y: seq<TruthClaim>, place: Places)
    requires multiset(AllRecords(classes, rest, place)) == multiset(AllRecords(classes, x + y, place))
    ensures multiset(AllRecords(classes, rest + [c], place)) == multiset(AllRecords(classes, x + [c] + y, place))
  {
    hide AllRecords;
    RecordsConcat(classes, rest, [c], place);
    RecordsConcat(classes, x + y, [c], place);
    RecordsMoved(classes, x, c, y, place);
  }

  // ---- supersession -------------------------------------------------------------------

  lemma SameEdges(claims: seq<Claim>, claims': seq<Claim>, class_: map<Node, Node>)
    requires forall c :: c in claims <==> c in claims'
    ensures forall x, y :: Edge(claims, class_, x, y) <==> Edge(claims', class_, x, y)
  {
  }

  lemma OneAdjacency(g: Adjacency, h: Adjacency, claims: seq<Claim>, claims': seq<Claim>, class_: map<Node, Node>, forward: bool)
    requires Lists(g, claims, class_, forward) && Lists(h, claims', class_, forward) && NoIdle(g) && NoIdle(h)
    requires forall c :: c in claims <==> c in claims'
    ensures g == h
  {
    SameEdges(claims, claims', class_);
    hide Edge, Ascending;
    forall x ensures Succ(g, x) == Succ(h, x) {
      assert Ascending(Succ(g, x)) && Ascending(Succ(h, x));
      OneAscendingList(Succ(g, x), Succ(h, x));
    }
    SameLists(g, h);
  }

  /** The cycle a class lies on is listed in both. */
  lemma CycleIsThere(g: Adjacency, cycles: seq<seq<Node>>, cycles': seq<seq<Node>>, c: seq<Node>)
    requires CyclesAre(g, cycles) && CyclesAre(g, cycles') && c in cycles
    ensures c in cycles'
  {
    hide Mutual, OnCycle, Ascending;
    var k :| 0 <= k < |cycles| && cycles[k] == c;
    assert c != [] && c[0] in c;
    assert InSome(cycles, c[0]) && InSome(cycles', c[0]);
    var e :| e in cycles' && c[0] in e;
    var m :| 0 <= m < |cycles'| && cycles'[m] == e;
    forall y ensures y in c <==> y in e {
      assert y in cycles[k] <==> Mutual(g, c[0], y);
      assert y in cycles'[m] <==> Mutual(g, c[0], y);
    }
    OneAscendingList(c, e);
  }

  lemma {:induction false} OneCycleList(cycles: seq<seq<Node>>, cycles': seq<seq<Node>>)
    requires FirstsAscending(cycles) && FirstsAscending(cycles') && forall c :: c in cycles <==> c in cycles'
    ensures cycles == cycles'
    decreases |cycles|
  {
    assert cycles != [] ==> cycles[0] in cycles;
    assert cycles' != [] ==> cycles'[0] in cycles';
    if cycles != [] {
      FirstIsLeast(cycles, cycles'[0]);
      FirstIsLeast(cycles', cycles[0]);
      assert cycles[0] == cycles'[0];
      RestOfCycles(cycles);
      RestOfCycles(cycles');
      OneCycleList(cycles[1..], cycles'[1..]);
      assert cycles == [cycles[0]] + cycles[1..] && cycles' == [cycles'[0]] + cycles'[1..];
    }
  }

  lemma FirstIsLeast(cycles: seq<seq<Node>>, c: seq<Node>)
    requires FirstsAscending(cycles) && c in cycles
    ensures c != [] && cycles[0] != [] && cycles[0][0] <= c[0] && (cycles[0][0] == c[0] ==> cycles[0] == c)
  {
    var i :| 0 <= i < |cycles| && cycles[i] == c;
    assert i == 0 || cycles[0][0] < cycles[i][0];
  }

  lemma RestOfCycles(cycles: seq<seq<Node>>)
    requires FirstsAscending(cycles) && cycles != []
    ensures FirstsAscending(cycles[1..]) && forall c :: c in cycles[1..] <==> c in cycles && c != cycles[0]
  {
    forall c ensures c in cycles[1..] <==> c in cycles && c != cycles[0] {
      if c in cycles && c != cycles[0] {
        var i :| 0 <= i < |cycles| && cycles[i] == c;
        assert cycles[1..][i - 1] == c;
      }
      if c in cycles[1..] {
        var i :| 0 <= i < |cycles[1..]| && cycles[1..][i] == c;
        assert cycles[i + 1] == c && cycles[0][0] < cycles[i + 1][0];
      }
    }
  }

  lemma OneSurfacing(k: CycleConflict, k': CycleConflict, claims: seq<Claim>, claims': seq<Claim>, class_: map<Node, Node>, members: Members, classes: seq<Node>)
    requires forall c :: c in claims <==> c in claims'
    requires Surfaces(k, claims, class_, members, classes) && Surfaces(k', claims', class_, members, classes)
    ensures k == k'
  {
    hide Ascending, Within;
    OneAscendingList(k.molecules, k'.molecules);
  }

  lemma OneSupersession(claims: seq<Claim>, claims': seq<Claim>, v: View, v': View)
    requires SupersessionIs(claims, v) && SupersessionIs(claims', v') && forall c :: c in claims <==> c in claims'
    requires v.class_ == v'.class_ && v.members == v'.members
    ensures v.supersedes == v'.supersedes && v.supersededBy == v'.supersededBy && v.cycles == v'.cycles && v.cycleConflicts == v'.cycleConflicts
  {
    hide Lists, NoIdle, CyclesAre, Surfaces;
    OneAdjacency(v.supersedes, v'.supersedes, claims, claims', v.class_, true);
    OneAdjacency(v.supersededBy, v'.supersededBy, claims, claims', v.class_, false);
    OneCycles(v.supersedes, v.cycles, v'.cycles);
    forall k | 0 <= k < |v.cycles| ensures v.cycleConflicts[k] == v'.cycleConflicts[k] {
      OneSurfacing(v.cycleConflicts[k], v'.cycleConflicts[k], claims, claims', v.class_, v.members, v.cycles[k]);
    }
  }

  lemma OneCycles(g: Adjacency, cycles: seq<seq<Node>>, cycles': seq<seq<Node>>)
    requires CyclesAre(g, cycles) && CyclesAre(g, cycles')
    ensures cycles == cycles'
  {
    forall c ensures c in cycles <==> c in cycles' {
      if c in cycles { CycleIsThere(g, cycles, cycles', c); }
      if c in cycles' { CycleIsThere(g, cycles', cycles, c); }
    }
    OneCycleList(cycles, cycles');
  }

  lemma OneTruth(records: seq<Truth.TruthRecord>, records': seq<Truth.TruthRecord>, v: View, v': View)
    requires multiset(records) == multiset(records') && TruthIs(records, v) && TruthIs(records', v')
    ensures v.truth == v'.truth && v.assertions == v'.assertions && v.conflicts == v'.conflicts
  {
    hide Truth.Applied, Truth.AllListed, Truth.Classes, Truth.Elements;
    Truth.OneView(records, records', v.truth, v.assertions, v.conflicts, v'.truth, v'.assertions, v'.conflicts);
  }

  /** Two views of one reading, however it was ordered, are one view: classes, truth,
      assertions, conflicts, supersession and its cycles. */
  lemma OneView(r: Reading, r': Reading, place: Places, v: View, v': View)
    requires SameReading(r, r') && Placeable(r, place) && Placeable(r', place)
    requires IsView(r, place, v) && IsView(r', place, v')
    ensures v == v'
  {
    Sorting.SameElements(r.truths, r'.truths);
    assert SameClaims(r.truths, r'.truths);
    hide ClassesAre, TruthIs, SupersessionIs, DeclarationPlaced, PairsOf, ClaimsOf, KeepAll, AllRecords;
    var e, e' := KeepAll(r.equivalences, r.truths, place), KeepAll(r'.equivalences, r'.truths, place);
    SameKept(r.equivalences, r'.equivalences, r.truths, r'.truths, place);
    SamePairs(e, e');
    OneClassing(r.order, PairsOf(e), PairsOf(e'), v.class_, v.members, v'.class_, v'.members);
    RecordsPermute(v.class_, r.truths, r'.truths, place);
    OneTruth(AllRecords(v.class_, r.truths, place), AllRecords(v.class_, r'.truths, place), v, v');
    var s, s' := KeepAll(r.supersessions, r.truths, place), KeepAll(r'.supersessions, r'.truths, place);
    SameKept(r.supersessions, r'.supersessions, r.truths, r'.truths, place);
    SamePairs(s, s');
    OneSupersession(ClaimsOf(s), ClaimsOf(s'), v, v');
  }
}
