/** Where assertions come from and which declarations still stand: placing the claims of a
    view in block order, and dropping the declarations whose publishers have all taken
    them back. */
module Standing {
  import opened Options
  import opened Positions
  import opened Truth
  import Sorting

  datatype Authorship = Authorship(author: nat, block: nat)

  /** "A is true" or "A is untrue", with the subscribed authors who published it. */
  datatype TruthClaim = TruthClaim(meta: nat, subject: nat, stance: Stance, prov: seq<Authorship>)

  /** An equivalence, contradiction or supersession. */
  datatype Declaration = Declaration(meta: nat, a: nat, b: nat, prov: seq<Authorship>)

  // ---- placing the assertions ---------------------------------------------------------

  function RecordFor(cl: TruthClaim, a: Authorship, class_: nat, p: Position<nat>): TruthRecord {
    TruthRecord(class_, p.lineage, p.index, a.author, cl.stance, cl.meta, a.block, cl.subject, false)
  }

  /** Every block that an assertion about the view was published in is placed. */
  ghost predicate AllPlaced(classes: map<nat, nat>, claims: seq<TruthClaim>, place: map<nat, Position<nat>>) {
    forall cl, a :: cl in claims && cl.subject in classes && a in cl.prov ==> a.block in place
  }

  /** The records the view's assertions come to: none about a molecule outside it. */
  ghost function Stated(classes: map<nat, nat>, claims: seq<TruthClaim>, place: map<nat, Position<nat>>): set<TruthRecord>
    requires AllPlaced(classes, claims, place)
  {
    set cl, a | cl in claims && cl.subject in classes && a in cl.prov :: RecordFor(cl, a, classes[cl.subject], place[a.block])
  }

  function PositionOf(place: map<nat, Position<nat>>, block: nat): Position<nat> {
    if block in place then place[block] else Position(0, 0)
  }

  /** The records of one claim, one for each authorship, and those of all the claims about
      molecules of the view, in the order they were given. */
  function ClaimRecords(cl: TruthClaim, class_: nat, prov: seq<Authorship>, place: map<nat, Position<nat>>): seq<TruthRecord> {
    seq(|prov|, i requires 0 <= i < |prov| => RecordFor(cl, prov[i], class_, PositionOf(place, prov[i].block)))
  }

  function AllRecords(classes: map<nat, nat>, claims: seq<TruthClaim>, place: map<nat, Position<nat>>): seq<TruthRecord> {
    if claims == [] then []
    else
      var cl := claims[|claims| - 1];
      AllRecords(classes, claims[..|claims| - 1], place)
      + (if cl.subject in classes then ClaimRecords(cl, classes[cl.subject], cl.prov, place) else [])
  }

  ghost function StatedBy(cl: TruthClaim, class_: nat, prov: seq<Authorship>, place: map<nat, Position<nat>>): set<TruthRecord>
    requires forall a :: a in prov ==> a.block in place
  {
    set a | a in prov :: RecordFor(cl, a, class_, place[a.block])
  }

  /** The records of one claim; none if a block cannot be placed. */
  method RecordsOf(cl: TruthClaim, class_: nat, place: map<nat, Position<nat>>) returns (r: Option<seq<TruthRecord>>)
    ensures r.Some? <==> forall a :: a in cl.prov ==> a.block in place
    ensures r.Some? ==> Elements(r.value) == StatedBy(cl, class_, cl.prov, place) && forall x :: x in r.value ==> !x.latest
    ensures r.Some? ==> r.value == ClaimRecords(cl, class_, cl.prov, place)
  {
    var records: seq<TruthRecord> := [];
    for i := 0 to |cl.prov|
      invariant forall a :: a in cl.prov[..i] ==> a.block in place
      invariant Elements(records) == StatedBy(cl, class_, cl.prov[..i], place) && forall x :: x in records ==> !x.latest
      invariant records == ClaimRecords(cl, class_, cl.prov[..i], place)
    {
      var a := cl.prov[i];
      assert a in cl.prov;
      if a.block !in place {
        return None;
      }
      StatedByNext(cl, class_, cl.prov, place, i);
      ElementsConcat(records, [RecordFor(cl, a, class_, place[a.block])]);
      assert forall x :: x in cl.prov[..i + 1] <==> x in cl.prov[..i] || x == a;
      records := records + [RecordFor(cl, a, class_, place[a.block])];
    }
    assert cl.prov[..|cl.prov|] == cl.prov;
    r := Some(records);
  }

  /** x is the record of one authorship of a claim about a molecule of the view: the claim's
      stance and molecules, the author and block of the publication, the class of what it is
      about, and the block's place. */
  ghost predicate Records(classes: map<nat, nat>, cl: TruthClaim, a: Authorship, place: map<nat, Position<nat>>, x: TruthRecord) {
    && x.stance == cl.stance && x.meta == cl.meta && x.subject == cl.subject
    && x.author == a.author && x.block == a.block && !x.latest
    && cl.subject in classes && x.class_ == classes[cl.subject]
    && a.block in place && x.lineage == place[a.block].lineage && x.index == place[a.block].index
  }

  /** How many authorships of one claim x is the record of, and of all the claims. */
  ghost function OriginsIn(classes: map<nat, nat>, cl: TruthClaim, prov: seq<Authorship>, place: map<nat, Position<nat>>, x: TruthRecord): nat {
    if prov == [] then 0
    else OriginsIn(classes, cl, prov[..|prov| - 1], place, x) + (if Records(classes, cl, prov[|prov| - 1], place, x) then 1 else 0)
  }

  ghost function Origins(classes: map<nat, nat>, claims: seq<TruthClaim>, place: map<nat, Position<nat>>, x: TruthRecord): nat {
    if claims == [] then 0
    else Origins(classes, claims[..|claims| - 1], place, x) + OriginsIn(classes, claims[|claims| - 1], claims[|claims| - 1].prov, place, x)
  }

  lemma {:induction false} ClaimCount(classes: map<nat, nat>, cl: TruthClaim, prov: seq<Authorship>, place: map<nat, Position<nat>>, x: TruthRecord)
    requires cl.subject in classes && forall a :: a in prov ==> a.block in place
    ensures multiset(ClaimRecords(cl, classes[cl.subject], prov, place))[x] == OriginsIn(classes, cl, prov, place, x)
    decreases |prov|
  {
    if prov != [] {
      var n := |prov| - 1;
      var class_, last := classes[cl.subject], prov[n];
      assert prov == prov[..n] + [last] && last in prov;
      ClaimCount(classes, cl, prov[..n], place, x);
      assert ClaimRecords(cl, class_, prov, place) == ClaimRecords(cl, class_, prov[..n], place) + [RecordFor(cl, last, class_, place[last.block])];
      RecordsIsRecordFor(classes, cl, last, place, x);
      hide Records, RecordFor, ClaimRecords;
    }
  }

  lemma RecordsIsRecordFor(classes: map<nat, nat>, cl: TruthClaim, a: Authorship, place: map<nat, Position<nat>>, x: TruthRecord)
    requires cl.subject in classes && a.block in place
    ensures Records(classes, cl, a, place, x) <==> x == RecordFor(cl, a, classes[cl.subject], place[a.block])
  {
  }

  lemma {:induction false} NothingSaid(classes: map<nat, nat>, cl: TruthClaim, prov: seq<Authorship>, place: map<nat, Position<nat>>, x: TruthRecord)
    requires cl.subject !in classes
    ensures OriginsIn(classes, cl, prov, place, x) == 0
    decreases |prov|
  {
    if prov != [] { NothingSaid(classes, cl, prov[..|prov| - 1], place, x); }
  }

  /** Some authorship of some claim has x as its record. */
  ghost predicate IsSaid(classes: map<nat, nat>, claims: seq<TruthClaim>, place: map<nat, Position<nat>>, x: TruthRecord) {
    exists cl, a :: cl in claims && a in cl.prov && Records(classes, cl, a, place, x)
  }

  lemma StatedMeaning(classes: map<nat, nat>, claims: seq<TruthClaim>, place: map<nat, Position<nat>>, x: TruthRecord)
    requires AllPlaced(classes, claims, place)
    ensures x in Stated(classes, claims, place) <==> IsSaid(classes, claims, place, x)
  {
    hide Records, RecordFor;
    if x in Stated(classes, claims, place) {
      var cl, a :| cl in claims && cl.subject in classes && a in cl.prov && x == RecordFor(cl, a, classes[cl.subject], place[a.block]);
      RecordsIsRecordFor(classes, cl, a, place, x);
    }
    if IsSaid(classes, claims, place, x) {
      var cl, a :| cl in claims && a in cl.prov && Records(classes, cl, a, place, x);
      RecordsIsInView(classes, cl, a, place, x);
      RecordsIsRecordFor(classes, cl, a, place, x);
    }
  }

  lemma RecordsIsInView(classes: map<nat, nat>, cl: TruthClaim, a: Authorship, place: map<nat, Position<nat>>, x: TruthRecord)
    requires Records(classes, cl, a, place, x)
    ensures cl.subject in classes && a.block in place
  {
  }

  /** Each record is there as often as its claim was published, and no other is. */
  lemma {:induction false} RecordsMeaning(classes: map<nat, nat>, claims: seq<TruthClaim>, place: map<nat, Position<nat>>, x: TruthRecord)
    requires AllPlaced(classes, claims, place)
    ensures multiset(AllRecords(classes, claims, place))[x] == Origins(classes, claims, place, x)
    decreases |claims|
  {
    if claims != [] {
      var n := |claims| - 1;
      var cl := claims[n];
      assert claims == claims[..n] + [cl] && cl in claims;
      RecordsMeaning(classes, claims[..n], place, x);
      if cl.subject in classes {
        ClaimCount(classes, cl, cl.prov, place, x);
      } else {
        NothingSaid(classes, cl, cl.prov, place, x);
      }
      hide Records, OriginsIn, ClaimRecords;
    }
  }

  method TruthRecords(classes: map<nat, nat>, claims: seq<TruthClaim>, place: map<nat, Position<nat>>) returns (r: Option<seq<TruthRecord>>)
    ensures r.Some? <==> AllPlaced(classes, claims, place)
    ensures r.Some? ==> Elements(r.value) == Stated(classes, claims, place) && forall x :: x in r.value ==> !x.latest
    ensures r.Some? ==> r.value == AllRecords(classes, claims, place)
    ensures r.Some? ==> forall x :: (x in r.value <==> IsSaid(classes, claims, place, x)) && multiset(r.value)[x] == Origins(classes, claims, place, x)
  {
    var records: seq<TruthRecord> := [];
    for i := 0 to |claims|
      invariant AllPlaced(classes, claims[..i], place)
      invariant Elements(records) == Stated(classes, claims[..i], place) && forall x :: x in records ==> !x.latest
      invariant records == AllRecords(classes, claims[..i], place)
    {
      hide Elements, Stated, StatedBy, ClaimRecords;
      assert claims[..i + 1][..i] == claims[..i];
      var cl := claims[i];
      assert cl in claims;
      if cl.subject in classes {
        var more := RecordsOf(cl, classes[cl.subject], place);
        if more.None? {
          return None;
        }
        StatedNext(classes, claims, place, i);
        ElementsConcat(records, more.value);
        records := records + more.value;
      } else {
        StatedSkips(classes, claims, place, i);
      }
    }
    assert claims[..|claims|] == claims;
    hide AllRecords, Origins, Stated, IsSaid;
    forall x ensures (x in records <==> IsSaid(classes, claims, place, x)) && multiset(records)[x] == Origins(classes, claims, place, x) {
      RecordsMeaning(classes, claims, place, x);
      StatedMeaning(classes, claims, place, x);
      assert x in records <==> x in Elements(records);
    }
    r := Some(records);
  }

  lemma StatedByNext(cl: TruthClaim, class_: nat, prov: seq<Authorship>, place: map<nat, Position<nat>>, i: nat)
    requires i < |prov| && forall a :: a in prov[..i + 1] ==> a.block in place
    ensures prov[..i + 1] == prov[..i] + [prov[i]]
    ensures StatedBy(cl, class_, prov[..i + 1], place)
         == StatedBy(cl, class_, prov[..i], place) + Elements([RecordFor(cl, prov[i], class_, place[prov[i].block])])
  {
    assert prov[..i + 1] == prov[..i] + [prov[i]];
  }

  lemma ElementsConcat(s: seq<TruthRecord>, t: seq<TruthRecord>)
    ensures Elements(s + t) == Elements(s) + Elements(t)
  {
  }

  lemma StatedNext(classes: map<nat, nat>, claims: seq<TruthClaim>, place: map<nat, Position<nat>>, i: nat)
    requires i < |claims| && AllPlaced(classes, claims[..i], place) && claims[i].subject in classes
    requires forall a :: a in claims[i].prov ==> a.block in place
    ensures AllPlaced(classes, claims[..i + 1], place)
    ensures Stated(classes, claims[..i + 1], place) ==
            Stated(classes, claims[..i], place) + StatedBy(claims[i], classes[claims[i].subject], claims[i].prov, place)
  {
    assert claims[..i + 1] == claims[..i] + [claims[i]];
  }

  lemma StatedSkips(classes: map<nat, nat>, claims: seq<TruthClaim>, place: map<nat, Position<nat>>, i: nat)
    requires i < |claims| && AllPlaced(classes, claims[..i], place) && claims[i].subject !in classes
    ensures AllPlaced(classes, claims[..i + 1], place)
    ensures Stated(classes, claims[..i + 1], place) == Stated(classes, claims[..i], place)
  {
    assert claims[..i + 1] == claims[..i] + [claims[i]];
  }

  lemma {:induction false} AllRecordsAreStated(classes: map<nat, nat>, claims: seq<TruthClaim>, place: map<nat, Position<nat>>)
    requires AllPlaced(classes, claims, place)
    ensures Elements(AllRecords(classes, claims, place)) == Stated(classes, claims, place)
    decreases |claims|
  {
    if claims != [] {
      var n := |claims| - 1;
      var cl := claims[n];
      assert cl in claims && claims == claims[..n] + [cl] && claims[..n + 1] == claims;
      AllRecordsAreStated(classes, claims[..n], place);
      hide Stated, Elements, ClaimRecords, StatedBy;
      if cl.subject in classes {
        StatedNext(classes, claims, place, n);
        ClaimRecordsAreStated(cl, classes[cl.subject], cl.prov, place);
        ElementsConcat(AllRecords(classes, claims[..n], place), ClaimRecords(cl, classes[cl.subject], cl.prov, place));
      } else {
        StatedSkips(classes, claims, place, n);
        assert AllRecords(classes, claims[..n], place) + [] == AllRecords(classes, claims[..n], place);
      }
    }
  }

  lemma ClaimRecordsAreStated(cl: TruthClaim, class_: nat, prov: seq<Authorship>, place: map<nat, Position<nat>>)
    requires forall a :: a in prov ==> a.block in place
    ensures Elements(ClaimRecords(cl, class_, prov, place)) == StatedBy(cl, class_, prov, place)
  {
    hide RecordFor;
    var list := ClaimRecords(cl, class_, prov, place);
    forall x | x in StatedBy(cl, class_, prov, place) ensures x in list {
      var a :| a in prov && x == RecordFor(cl, a, class_, place[a.block]);
      var i :| 0 <= i < |prov| && prov[i] == a;
      assert list[i] == x;
    }
  }

  // ---- standing -----------------------------------------------------------------------

  /** One thing an author did about a declaration. */
  datatype Statement = Statement(author: nat, lineage: nat, index: nat, retract: bool)

  ghost predicate Publishes(d: Declaration, author: nat) { exists a :: a in d.prov && a.author == author }

  /** In this block the author did something about the declaration: published it, asserted
      it or retracted it. */
  ghost predicate Did(d: Declaration, truths: seq<TruthClaim>, author: nat, block: nat, retract: bool) {
    || (!retract && Authorship(author, block) in d.prov)
    || (exists t :: t in truths && t.subject == d.meta && (t.stance.Retracted? <==> retract) && Authorship(author, block) in t.prov)
  }

  /** The author did nothing about it further on in the same lineage. */
  ghost predicate NothingSince(d: Declaration, truths: seq<TruthClaim>, place: map<nat, Position<nat>>, author: nat, block: nat) {
    block in place && forall later, retract :: Did(d, truths, author, later, retract) ==>
      later in place && (place[later].lineage == place[block].lineage ==> place[later].index <= place[block].index)
  }

  /** A publisher of the declaration whose last act about it, in some lineage of theirs, is
      something other than taking it back. */
  ghost predicate Behind(d: Declaration, truths: seq<TruthClaim>, place: map<nat, Position<nat>>, author: nat) {
    Publishes(d, author) && exists block :: Did(d, truths, author, block, false) && NothingSince(d, truths, place, author, block)
  }

  /** The declaration is in force: some publisher is still behind it. */
  ghost predicate InForce(d: Declaration, truths: seq<TruthClaim>, place: map<nat, Position<nat>>) {
    exists author :: Behind(d, truths, place, author)
  }

  /** What the publishers of a declaration said about it: publishing it, and asserting or
      retracting it since. Nobody else's word counts. */
  ghost function Statements(d: Declaration, truths: seq<TruthClaim>, place: map<nat, Position<nat>>): set<Statement>
    requires DeclarationPlaced(d, truths, place)
  {
    Published(d.prov, place) +
    (set t, a | t in truths && t.subject == d.meta && a in t.prov && Publishes(d, a.author) :: Said(a, place, t.stance == Retracted))
  }

  function Said(a: Authorship, place: map<nat, Position<nat>>, retract: bool): Statement {
    if a.block in place then Statement(a.author, place[a.block].lineage, place[a.block].index, retract)
    else Statement(a.author, 0, 0, retract)
  }

  ghost predicate DeclarationPlaced(d: Declaration, truths: seq<TruthClaim>, place: map<nat, Position<nat>>) {
    && (forall a :: a in d.prov ==> a.block in place)
    && (forall t, a :: t in truths && t.subject == d.meta && a in t.prov && Publishes(d, a.author) ==> a.block in place)
  }

  /** At the last position an author spoke from, in some lineage of theirs, they did
      something other than retract. */
  ghost predicate StillBacks(said: set<Statement>, author: nat) {
    exists x :: x in said && x.author == author && !x.retract && IsLast(said, x)
  }

  ghost predicate IsLast(said: set<Statement>, x: Statement) {
    forall y :: y in said && y.author == x.author && y.lineage == x.lineage ==> y.index <= x.index
  }

  ghost function Backers(said: set<Statement>): set<nat> {
    set x | x in said && StillBacks(said, x.author) :: x.author
  }

  /** A stranger's retraction is no veto: claims by authors who never published the
      declaration change nothing about its standing, and neither do claims about others. */
  lemma StrangersHaveNoVeto(d: Declaration, truths: seq<TruthClaim>, t: TruthClaim, place: map<nat, Position<nat>>)
    requires DeclarationPlaced(d, truths, place)
    requires t.subject != d.meta || forall a :: a in t.prov ==> !Publishes(d, a.author)
    ensures DeclarationPlaced(d, truths + [t], place)
    ensures Statements(d, truths + [t], place) == Statements(d, truths, place)
  {
    hide Publishes;
  }

  /** Publishing is backing: while no publisher retracts, all of them stand. */
  lemma PublicationIsBacking(d: Declaration, truths: seq<TruthClaim>, place: map<nat, Position<nat>>, author: nat)
    requires DeclarationPlaced(d, truths, place) && Publishes(d, author)
    requires forall x :: x in Statements(d, truths, place) && x.author == author ==> !x.retract
    ensures author in Backers(Statements(d, truths, place))
  {
    var said := Statements(d, truths, place);
    var a :| a in d.prov && a.author == author;
    var first := Said(a, place, false);
    assert first in said;
    var line := set x | x in said && x.author == author && x.lineage == first.lineage;
    assert first in line;
    var m := LastOf(line);
    assert IsLast(said, m);
  }

  ghost function LastOf(line: set<Statement>): (m: Statement)
    requires line != {}
    ensures m in line && forall x :: x in line ==> x.index <= m.index
    decreases |line|
  {
    var r :| r in line;
    if line == {r} then r
    else
      var rest := line - {r};
      assert rest != {} && line == rest + {r};
      var m := LastOf(rest);
      if m.index <= r.index then r else m
  }

  lemma StatementMeaning(d: Declaration, truths: seq<TruthClaim>, place: map<nat, Position<nat>>, x: Statement)
    requires DeclarationPlaced(d, truths, place)
    ensures x in Statements(d, truths, place) <==> Publishes(d, x.author) && exists block ::
              Did(d, truths, x.author, block, x.retract) && block in place && place[block].lineage == x.lineage && place[block].index == x.index
  {
    if x in Statements(d, truths, place) {
      if a :| a in d.prov && x == Said(a, place, false) {
        assert Did(d, truths, x.author, a.block, x.retract) && a == Authorship(x.author, a.block);
      } else {
        var t, a :| t in truths && t.subject == d.meta && a in t.prov && Publishes(d, a.author) && x == Said(a, place, t.stance == Retracted);
        assert Did(d, truths, x.author, a.block, x.retract) && a == Authorship(x.author, a.block);
      }
    }
    if Publishes(d, x.author) {
      if block :| Did(d, truths, x.author, block, x.retract) && block in place && place[block].lineage == x.lineage && place[block].index == x.index {
        assert x == Said(Authorship(x.author, block), place, x.retract);
      }
    }
  }

  lemma ActsArePlaced(d: Declaration, truths: seq<TruthClaim>, place: map<nat, Position<nat>>, author: nat, block: nat, retract: bool)
    requires DeclarationPlaced(d, truths, place) && Publishes(d, author) && Did(d, truths, author, block, retract)
    ensures block in place && Statement(author, place[block].lineage, place[block].index, retract) in Statements(d, truths, place)
  {
    if !(!retract && Authorship(author, block) in d.prov) {
      var t :| t in truths && t.subject == d.meta && (t.stance.Retracted? <==> retract) && Authorship(author, block) in t.prov;
    }
    hide Publishes, Did;
    StatementMeaning(d, truths, place, Statement(author, place[block].lineage, place[block].index, retract));
  }

  lemma BackingMeaning(d: Declaration, truths: seq<TruthClaim>, place: map<nat, Position<nat>>, author: nat)
    requires DeclarationPlaced(d, truths, place)
    ensures author in Backers(Statements(d, truths, place)) <==> Behind(d, truths, place, author)
  {
    var said := Statements(d, truths, place);
    hide Statements, Did, Publishes, DeclarationPlaced;
    if author in Backers(said) {
      var x :| x in said && x.author == author && !x.retract && IsLast(said, x);
      StatementMeaning(d, truths, place, x);
      var block :| Did(d, truths, author, block, false) && block in place && place[block].lineage == x.lineage && place[block].index == x.index;
      forall later, retract | Did(d, truths, author, later, retract)
        ensures later in place && (place[later].lineage == place[block].lineage ==> place[later].index <= place[block].index)
      {
        ActsArePlaced(d, truths, place, author, later, retract);
      }
      assert NothingSince(d, truths, place, author, block);
    }
    if Behind(d, truths, place, author) {
      var block :| Did(d, truths, author, block, false) && NothingSince(d, truths, place, author, block);
      ActsArePlaced(d, truths, place, author, block, false);
      var x := Statement(author, place[block].lineage, place[block].index, false);
      forall y | y in said && y.author == author && y.lineage == x.lineage ensures y.index <= x.index {
        StatementMeaning(d, truths, place, y);
      }
      assert IsLast(said, x);
    }
  }

  predicate CompareStatements(a: Statement, b: Statement) {
    if a.author != b.author then a.author < b.author
    else if a.lineage != b.lineage then a.lineage < b.lineage
    else a.index <= b.index
  }

  predicate SameVoice(a: Statement, b: Statement) { a.author == b.author && a.lineage == b.lineage }

  ghost function AllOf(s: seq<Statement>): set<Statement> { set x | x in s }

  /** What the sorted statements before a point settle. */
  ghost predicate BackedBy(s: seq<Statement>, start: nat, backers: set<nat>)
    requires start <= |s|
  {
    forall p :: p in backers <==> exists i :: 0 <= i < start && s[i].author == p && !s[i].retract && IsLast(AllOf(s), s[i])
  }

  lemma VoiceEnd(s: seq<Statement>, start: nat, end: nat, i: nat)
    requires Sorting.Sorted(s, CompareStatements) && start <= i < end <= |s|
    requires forall k :: start <= k < end ==> SameVoice(s[k], s[start])
    requires start > 0 ==> !SameVoice(s[start - 1], s[start])
    requires end < |s| ==> !SameVoice(s[end], s[start])
    ensures IsLast(AllOf(s), s[i]) <==> s[i].index == s[end - 1].index
  {
    forall x | x in AllOf(s) && SameVoice(x, s[i]) ensures x.index <= s[end - 1].index {
      var k :| 0 <= k < |s| && s[k] == x;
      if k < start {
        BetweenVoices(s, k, start - 1, start);
      } else if k >= end {
        BetweenVoices(s, start, end, k);
      } else {
        assert k == end - 1 || CompareStatements(s[k], s[end - 1]);
      }
    }
    assert s[end - 1] in AllOf(s);
    assert i == end - 1 || CompareStatements(s[i], s[end - 1]);
  }

  lemma BetweenVoices(s: seq<Statement>, i: nat, j: nat, k: nat)
    requires Sorting.Sorted(s, CompareStatements) && i <= j <= k < |s| && SameVoice(s[i], s[k])
    ensures SameVoice(s[j], s[i]) && SameVoice(s[j], s[k])
  {
    assert i == j || CompareStatements(s[i], s[j]);
    assert j == k || CompareStatements(s[j], s[k]);
  }

  /** Each author's last word in each lineage, found by sorting and grouping. */
  method StillBacking(records: seq<Statement>) returns (backers: set<nat>)
    ensures backers == Backers(AllOf(records))
  {
    var s := Sorting.Sort(records, CompareStatements);
    Sorting.SameElements(s, records);
    assert AllOf(s) == AllOf(records);
    hide IsLast, AllOf, Sorting.Sorted;
    backers := {};
    var start := 0;
    while start < |s|
      invariant start <= |s|
      invariant 0 < start < |s| ==> !SameVoice(s[start - 1], s[start])
      invariant BackedBy(s, start, backers)
    {
      var end := start + 1;
      while end < |s| && SameVoice(s[end], s[start])
        invariant start < end <= |s|
        invariant forall k :: start <= k < end ==> SameVoice(s[k], s[start])
      {
        end := end + 1;
      }
      var last := s[end - 1].index;
      var i := start;
      while i < end && (s[i].index != last || s[i].retract)
        invariant start <= i <= end
        invariant forall k :: start <= k < i ==> s[k].index != last || s[k].retract
      {
        i := i + 1;
      }
      VoiceBacked(s, start, end, i, backers);
      if i < end {
        backers := backers + {s[i].author};
      }
      start := end;
    }
    BackedByAll(s, backers);
  }

  lemma VoiceBacked(s: seq<Statement>, start: nat, end: nat, i: nat, backers: set<nat>)
    requires Sorting.Sorted(s, CompareStatements) && start < end <= |s| && start <= i <= end
    requires forall k :: start <= k < end ==> SameVoice(s[k], s[start])
    requires start > 0 ==> !SameVoice(s[start - 1], s[start])
    requires end < |s| ==> !SameVoice(s[end], s[start])
    requires forall k :: start <= k < i ==> s[k].index != s[end - 1].index || s[k].retract
    requires i < end ==> s[i].index == s[end - 1].index && !s[i].retract
    requires BackedBy(s, start, backers)
    ensures BackedBy(s, end, if i < end then backers + {s[i].author} else backers)
  {
    forall k | start <= k < end ensures IsLast(AllOf(s), s[k]) <==> s[k].index == s[end - 1].index {
      VoiceEnd(s, start, end, k);
    }
    hide IsLast, AllOf, Sorting.Sorted;
  }

  lemma BackedByAll(s: seq<Statement>, backers: set<nat>)
    requires BackedBy(s, |s|, backers)
    ensures backers == Backers(AllOf(s))
  {
    hide IsLast;
    forall p | p in backers ensures p in Backers(AllOf(s)) {
      var i :| 0 <= i < |s| && s[i].author == p && !s[i].retract && IsLast(AllOf(s), s[i]);
      assert s[i] in AllOf(s);
    }
    forall p | p in Backers(AllOf(s)) ensures p in backers {
      var x :| x in AllOf(s) && x.author == p && !x.retract && IsLast(AllOf(s), x);
      var i :| 0 <= i < |s| && s[i] == x;
    }
  }

  // ---- collecting the statements ------------------------------------------------------

  /** Whether an author published the declaration. */
  method IsPublisher(d: Declaration, author: nat) returns (yes: bool)
    ensures yes <==> Publishes(d, author)
  {
    for i := 0 to |d.prov|
      invariant forall k :: 0 <= k < i ==> d.prov[k].author != author
    {
      if d.prov[i].author == author {
        assert d.prov[i] in d.prov;
        return true;
      }
    }
    yes := false;
  }

  ghost function Published(prov: seq<Authorship>, place: map<nat, Position<nat>>): set<Statement> {
    set a | a in prov :: Said(a, place, false)
  }

  lemma PublishedNext(prov: seq<Authorship>, place: map<nat, Position<nat>>, i: nat)
    requires i < |prov|
    ensures Published(prov[..i + 1], place) == Published(prov[..i], place) + AllOf([Said(prov[i], place, false)])
    ensures forall a :: a in prov[..i + 1] <==> a in prov[..i] || a == prov[i]
  {
    assert prov[..i + 1] == prov[..i] + [prov[i]];
  }

  lemma ClaimNext(d: Declaration, t: TruthClaim, prov: seq<Authorship>, place: map<nat, Position<nat>>, i: nat)
    requires i < |prov|
    ensures ClaimPlaced(d, prov[..i + 1], place) <==>
              ClaimPlaced(d, prov[..i], place) && (Publishes(d, prov[i].author) ==> prov[i].block in place)
    ensures ClaimSays(d, t, prov[..i + 1], place) == ClaimSays(d, t, prov[..i], place)
              + (if Publishes(d, prov[i].author) then AllOf([Said(prov[i], place, t.stance == Retracted)]) else {})
  {
    hide Publishes;
    assert prov[..i + 1] == prov[..i] + [prov[i]];
    assert forall a :: a in prov[..i + 1] <==> a in prov[..i] || a == prov[i];
  }

  /** The publications of a declaration, placed. */
  method Publications(prov: seq<Authorship>, place: map<nat, Position<nat>>) returns (r: Option<seq<Statement>>)
    ensures r.Some? <==> forall a :: a in prov ==> a.block in place
    ensures r.Some? ==> AllOf(r.value) == Published(prov, place)
  {
    var records: seq<Statement> := [];
    for i := 0 to |prov|
      invariant forall a :: a in prov[..i] ==> a.block in place
      invariant AllOf(records) == Published(prov[..i], place)
    {
      assert prov[i] in prov;
      PublishedNext(prov, place, i);
      AllOfConcat(records, [Said(prov[i], place, false)]);
      if prov[i].block !in place {
        return None;
      }
      records := records + [Said(prov[i], place, false)];
    }
    assert prov[..|prov|] == prov;
    r := Some(records);
  }

  ghost function ClaimSays(d: Declaration, t: TruthClaim, prov: seq<Authorship>, place: map<nat, Position<nat>>): set<Statement> {
    set a | a in prov && Publishes(d, a.author) :: Said(a, place, t.stance == Retracted)
  }

  ghost predicate ClaimPlaced(d: Declaration, prov: seq<Authorship>, place: map<nat, Position<nat>>) {
    forall a :: a in prov && Publishes(d, a.author) ==> a.block in place
  }

  /** What one truth claim about the declaration adds: its publishers' words only. */
  method ClaimStatements(d: Declaration, t: TruthClaim, place: map<nat, Position<nat>>) returns (r: Option<seq<Statement>>)
    ensures r.Some? <==> ClaimPlaced(d, t.prov, place)
    ensures r.Some? ==> AllOf(r.value) == ClaimSays(d, t, t.prov, place)
  {
    hide Publishes;
    var records: seq<Statement> := [];
    for i := 0 to |t.prov|
      invariant ClaimPlaced(d, t.prov[..i], place)
      invariant AllOf(records) == ClaimSays(d, t, t.prov[..i], place)
    {
      assert t.prov[i] in t.prov;
      ClaimNext(d, t, t.prov, place, i);
      AllOfConcat(records, [Said(t.prov[i], place, t.stance == Retracted)]);
      var publisher := IsPublisher(d, t.prov[i].author);
      if publisher {
        if t.prov[i].block !in place {
          return None;
        }
        records := records + [Said(t.prov[i], place, t.stance == Retracted)];
      }
    }
    assert t.prov[..|t.prov|] == t.prov;
    r := Some(records);
  }

  ghost function TruthsSay(d: Declaration, truths: seq<TruthClaim>, place: map<nat, Position<nat>>): set<Statement> {
    set t, a | t in truths && t.subject == d.meta && a in t.prov && Publishes(d, a.author) :: Said(a, place, t.stance == Retracted)
  }

  ghost predicate TruthsPlaced(d: Declaration, truths: seq<TruthClaim>, place: map<nat, Position<nat>>) {
    forall t :: t in truths && t.subject == d.meta ==> ClaimPlaced(d, t.prov, place)
  }

  lemma TruthsNext(d: Declaration, truths: seq<TruthClaim>, place: map<nat, Position<nat>>, i: nat)
    requires i < |truths|
    ensures TruthsPlaced(d, truths[..i + 1], place) <==>
              TruthsPlaced(d, truths[..i], place) && (truths[i].subject == d.meta ==> ClaimPlaced(d, truths[i].prov, place))
    ensures TruthsSay(d, truths[..i + 1], place) ==
              TruthsSay(d, truths[..i], place) + (if truths[i].subject == d.meta then ClaimSays(d, truths[i], truths[i].prov, place) else {})
  {
    hide Publishes, ClaimPlaced;
    assert truths[..i + 1] == truths[..i] + [truths[i]];
    assert forall t :: t in truths[..i + 1] <==> t in truths[..i] || t == truths[i];
  }

  lemma PlacedIs(d: Declaration, truths: seq<TruthClaim>, place: map<nat, Position<nat>>)
    ensures DeclarationPlaced(d, truths, place) <==> (forall a :: a in d.prov ==> a.block in place) && TruthsPlaced(d, truths, place)
    ensures DeclarationPlaced(d, truths, place) ==>
              Statements(d, truths, place) == Published(d.prov, place) + TruthsSay(d, truths, place)
  {
    hide Publishes;
  }

  lemma AllOfConcat(s: seq<Statement>, t: seq<Statement>)
    ensures AllOf(s + t) == AllOf(s) + AllOf(t)
  {
  }

  /** The publishers who still back a declaration; none if a block cannot be placed. */
  method StandingOf(d: Declaration, truths: seq<TruthClaim>, place: map<nat, Position<nat>>) returns (r: Option<set<nat>>)
    ensures r.Some? <==> DeclarationPlaced(d, truths, place)
    ensures r.Some? ==> r.value == Backers(Statements(d, truths, place))
    ensures r.Some? ==> forall author :: author in r.value <==> Behind(d, truths, place, author)
  {
    PlacedIs(d, truths, place);
    hide AllOf, TruthsSay, TruthsPlaced, ClaimSays, ClaimPlaced, Backers, DeclarationPlaced, Statements;
    var published := Publications(d.prov, place);
    if published.None? {
      return None;
    }
    var records := published.value;
    ghost var own := AllOf(records);
    NoTruths(d, place);
    for i := 0 to |truths|
      invariant TruthsPlaced(d, truths[..i], place)
      invariant AllOf(records) == own + TruthsSay(d, truths[..i], place)
    {
      TruthsNext(d, truths, place, i);
      if truths[i].subject == d.meta {
        var more := ClaimStatements(d, truths[i], place);
        if more.None? {
          StillUnplaced(d, truths, place, i);
          return None;
        }
        AllOfConcat(records, more.value);
        records := records + more.value;
      }
    }
    assert truths[..|truths|] == truths;
    var backers := StillBacking(records);
    hide Behind;
    forall author ensures author in Backers(Statements(d, truths, place)) <==> Behind(d, truths, place, author) {
      BackingMeaning(d, truths, place, author);
    }
    r := Some(backers);
  }

  lemma NoTruths(d: Declaration, place: map<nat, Position<nat>>)
    ensures TruthsPlaced(d, [], place) && TruthsSay(d, [], place) == {}
  {
  }

  lemma StillUnplaced(d: Declaration, truths: seq<TruthClaim>, place: map<nat, Position<nat>>, i: nat)
    requires i < |truths| && truths[i].subject == d.meta && !ClaimPlaced(d, truths[i].prov, place)
    ensures !TruthsPlaced(d, truths, place)
  {
    hide ClaimPlaced;
    assert truths[i] in truths;
  }

  // ---- the gate -----------------------------------------------------------------------

  /** A declaration that stands, and the publications that still back it. */
  datatype Kept = Kept(declaration: Declaration, backing: seq<Authorship>)

  function BackedFrom(prov: seq<Authorship>, backers: set<nat>): seq<Authorship> {
    if prov == [] then []
    else (if prov[0].author in backers then [prov[0]] else []) + BackedFrom(prov[1..], backers)
  }

  ghost predicate Stands(d: Declaration, truths: seq<TruthClaim>, place: map<nat, Position<nat>>)
    requires DeclarationPlaced(d, truths, place)
  {
    exists p :: Publishes(d, p) && StillBacks(Statements(d, truths, place), p)
  }

  /** The declarations that stand, in order, each with its backing. */
  ghost function KeepAll(gated: seq<Declaration>, truths: seq<TruthClaim>, place: map<nat, Position<nat>>): seq<Kept>
    requires forall d :: d in gated ==> DeclarationPlaced(d, truths, place)
  {
    if gated == [] then []
    else
      KeepAll(gated[..|gated| - 1], truths, place) +
      (var d := gated[|gated| - 1];
       if Stands(d, truths, place) then [Kept(d, BackedFrom(d.prov, Backers(Statements(d, truths, place))))] else [])
  }

  ghost function Withdrawn(gated: seq<Declaration>, truths: seq<TruthClaim>, place: map<nat, Position<nat>>): set<nat>
    requires forall d :: d in gated ==> DeclarationPlaced(d, truths, place)
  {
    set d | d in gated && !Stands(d, truths, place) :: d.meta
  }

  /** A declaration is kept exactly while some publisher of it still backs it. */
  lemma StandsWhileBacked(d: Declaration, truths: seq<TruthClaim>, place: map<nat, Position<nat>>)
    requires DeclarationPlaced(d, truths, place)
    ensures Stands(d, truths, place) <==> Backers(Statements(d, truths, place)) != {}
  {
    hide StillBacks;
    var said := Statements(d, truths, place);
    if Stands(d, truths, place) {
      var p :| Publishes(d, p) && StillBacks(said, p);
      BackerSpoke(said, p);
    }
    if Backers(said) != {} {
      var p :| p in Backers(said);
      var x :| x in said && StillBacks(said, x.author) && x.author == p;
      assert Publishes(d, p);
    }
  }

  lemma BackerSpoke(said: set<Statement>, p: nat)
    requires StillBacks(said, p)
    ensures p in Backers(said)
  {
    var x :| x in said && x.author == p && !x.retract && IsLast(said, x);
  }

  lemma KeepNone(truths: seq<TruthClaim>, place: map<nat, Position<nat>>)
    ensures KeepAll([], truths, place) == [] && Withdrawn([], truths, place) == {}
  {
  }

  lemma KeepNext(gated: seq<Declaration>, d: Declaration, truths: seq<TruthClaim>, place: map<nat, Position<nat>>)
    requires (forall x :: x in gated ==> DeclarationPlaced(x, truths, place)) && DeclarationPlaced(d, truths, place)
    ensures KeepAll(gated + [d], truths, place) == KeepAll(gated, truths, place) +
              (if Stands(d, truths, place) then [Kept(d, BackedFrom(d.prov, Backers(Statements(d, truths, place))))] else [])
    ensures Withdrawn(gated + [d], truths, place) == Withdrawn(gated, truths, place) + (if Stands(d, truths, place) then {} else {d.meta})
  {
    hide DeclarationPlaced, Stands, Backers, Statements, BackedFrom;
    assert (gated + [d])[..|gated|] == gated;
  }

  function KeptOf(d: Declaration, backers: set<nat>): Kept { Kept(d, BackedFrom(d.prov, backers)) }

  /** What is kept is what stands, each with its backing. */
  lemma {:induction false} KeepAllMembers(gated: seq<Declaration>, truths: seq<TruthClaim>, place: map<nat, Position<nat>>, k: Kept)
    requires forall d :: d in gated ==> DeclarationPlaced(d, truths, place)
    ensures k in KeepAll(gated, truths, place) <==>
              k.declaration in gated && Stands(k.declaration, truths, place)
              && k == KeptOf(k.declaration, Backers(Statements(k.declaration, truths, place)))
    decreases |gated|
  {
    if gated != [] {
      var most, last := gated[..|gated| - 1], gated[|gated| - 1];
      assert gated == most + [last];
      KeepAllMembers(most, truths, place, k);
      hide Stands, Backers, Statements, DeclarationPlaced;
    }
  }

  lemma {:induction false} BackedFromMeaning(prov: seq<Authorship>, backers: set<nat>, a: Authorship)
    ensures multiset(BackedFrom(prov, backers))[a] == if a.author in backers then multiset(prov)[a] else 0
    decreases |prov|
  {
    if prov != [] {
      BackedFromMeaning(prov[1..], backers, a);
      assert prov == [prov[0]] + prov[1..];
    }
  }

  /** What is kept: the declarations in force, each with the publications of the authors
      still behind it; and what is withdrawn: the others. */
  ghost predicate Gated(gated: seq<Declaration>, truths: seq<TruthClaim>, place: map<nat, Position<nat>>, kept: seq<Kept>, withdrawn: set<nat>) {
    && (forall d :: d in gated && InForce(d, truths, place) ==> exists k :: k in kept && k.declaration == d)
    && (forall k :: k in kept ==> k.declaration in gated && InForce(k.declaration, truths, place) && BackedBySome(k, truths, place))
    && (forall m :: m in withdrawn <==> exists d :: d in gated && d.meta == m && !InForce(d, truths, place))
  }

  ghost predicate BackedBySome(k: Kept, truths: seq<TruthClaim>, place: map<nat, Position<nat>>) {
    forall a :: multiset(k.backing)[a] == if Behind(k.declaration, truths, place, a.author) then multiset(k.declaration.prov)[a] else 0
  }

  lemma StandingMeaning(d: Declaration, truths: seq<TruthClaim>, place: map<nat, Position<nat>>)
    requires DeclarationPlaced(d, truths, place)
    ensures Stands(d, truths, place) <==> InForce(d, truths, place)
  {
    StandsWhileBacked(d, truths, place);
    hide Stands, Statements, Backers, Behind, DeclarationPlaced;
    var backers := Backers(Statements(d, truths, place));
    forall author ensures author in backers <==> Behind(d, truths, place, author) { BackingMeaning(d, truths, place, author); }
    if backers != {} { var author :| author in backers; }
  }

  lemma KeptIsBacked(k: Kept, truths: seq<TruthClaim>, place: map<nat, Position<nat>>)
    requires DeclarationPlaced(k.declaration, truths, place)
    requires k == KeptOf(k.declaration, Backers(Statements(k.declaration, truths, place)))
    ensures BackedBySome(k, truths, place)
  {
    hide Statements, Backers, Behind, DeclarationPlaced, BackedFrom;
    var backers := Backers(Statements(k.declaration, truths, place));
    forall a ensures multiset(k.backing)[a] == if Behind(k.declaration, truths, place, a.author) then multiset(k.declaration.prov)[a] else 0 {
      BackedFromMeaning(k.declaration.prov, backers, a);
      BackingMeaning(k.declaration, truths, place, a.author);
    }
  }

  lemma GateMeaning(gated: seq<Declaration>, truths: seq<TruthClaim>, place: map<nat, Position<nat>>)
    requires forall d :: d in gated ==> DeclarationPlaced(d, truths, place)
    ensures Gated(gated, truths, place, KeepAll(gated, truths, place), Withdrawn(gated, truths, place))
  {
    hide DeclarationPlaced, Stands, Backers, Statements, KeepAll, InForce, BackedBySome, BackedFrom;
    forall d | d in gated ensures Stands(d, truths, place) <==> InForce(d, truths, place) { StandingMeaning(d, truths, place); }
    var kept := KeepAll(gated, truths, place);
    forall d | d in gated && InForce(d, truths, place) ensures exists k :: k in kept && k.declaration == d {
      KeepAllMembers(gated, truths, place, KeptOf(d, Backers(Statements(d, truths, place))));
    }
    forall k | k in kept ensures k.declaration in gated && InForce(k.declaration, truths, place) && BackedBySome(k, truths, place) {
      KeepAllMembers(gated, truths, place, k);
      KeptIsBacked(k, truths, place);
    }
  }

  method ApplyStanding(gated: seq<Declaration>, truths: seq<TruthClaim>, place: map<nat, Position<nat>>)
    returns (r: Option<(seq<Kept>, set<nat>)>)
    ensures r.Some? <==> forall d :: d in gated ==> DeclarationPlaced(d, truths, place)
    ensures r.Some? ==> r.value.0 == KeepAll(gated, truths, place) && r.value.1 == Withdrawn(gated, truths, place)
    ensures r.Some? ==> Gated(gated, truths, place, r.value.0, r.value.1)
  {
    hide DeclarationPlaced, Stands, Backers, Statements, KeepAll, Withdrawn, BackedFrom;
    var out: seq<Kept>, withdrawn: set<nat> := [], {};
    KeepNone(truths, place);
    for i := 0 to |gated|
      invariant forall d :: d in gated[..i] ==> DeclarationPlaced(d, truths, place)
      invariant out == KeepAll(gated[..i], truths, place) && withdrawn == Withdrawn(gated[..i], truths, place)
    {
      var d := gated[i];
      assert d in gated && gated[..i + 1] == gated[..i] + [d];
      var backers := StandingOf(d, truths, place);
      if backers.None? {
        return None;
      }
      assert forall x :: x in gated[..i + 1] <==> x in gated[..i] || x == d;
      StandsWhileBacked(d, truths, place);
      KeepNext(gated[..i], d, truths, place);
      if backers.value == {} {
        withdrawn := withdrawn + {d.meta};
      } else {
        out := out + [Kept(d, BackedFrom(d.prov, backers.value))];
      }
    }
    assert gated[..|gated|] == gated;
    hide Gated;
    GateMeaning(gated, truths, place);
    r := Some((out, withdrawn));
  }
}
