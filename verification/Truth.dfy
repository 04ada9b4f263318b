/** Truth: what the subscribed authors last said about each class of molecules. Records
    are sorted, grouped, and reduced group by group; the rules are stated here as what
    holds of the whole set of records, whatever order it came in. */
module Truth {
  import Sorting

  datatype Stance = Asserted | Retracted

  datatype TruthState = HeldTrue | HeldUntrue | Conflicted

  /** Digests, keys and lineages are compared bytewise, and stand as numbers. `latest` is
      set by MarkLatest. */
  datatype TruthRecord = TruthRecord(class_: nat, lineage: nat, index: nat, author: nat, stance: Stance,
                                     meta: nat, block: nat, subject: nat, latest: bool)

  // ---- the rules ----------------------------------------------------------------------

  /** r is its author's last word on its class: none of the lineage's is later. */
  ghost predicate IsLatest(records: set<TruthRecord>, r: TruthRecord) {
    forall x :: x in records && x.class_ == r.class_ && x.lineage == r.lineage ==> x.index <= r.index
  }

  /** Someone's last word on a class is this stance. */
  ghost predicate LastWord(records: set<TruthRecord>, c: nat, st: Stance) {
    exists r :: r in records && r.class_ == c && r.stance == st && IsLatest(records, r)
  }

  ghost function StateOf(records: set<TruthRecord>, c: nat): TruthState {
    if LastWord(records, c, Asserted) && LastWord(records, c, Retracted) then Conflicted
    else if LastWord(records, c, Retracted) then HeldUntrue
    else HeldTrue
  }

  /** The authors whose last word on a class is a stance, and the molecules they said it
      with. */
  ghost function Side(records: set<TruthRecord>, c: nat, st: Stance): set<nat> {
    set r | r in records && r.class_ == c && r.stance == st && IsLatest(records, r) :: r.author
  }

  ghost function Meta(records: set<TruthRecord>, c: nat): set<nat> {
    set r | r in records && r.class_ == c && IsLatest(records, r) :: r.meta
  }

  ghost function Declarers(records: set<TruthRecord>, c: nat): set<nat> {
    set r | r in records && r.class_ == c :: r.author
  }

  ghost function Classes(records: set<TruthRecord>): set<nat> { set r | r in records :: r.class_ }

  /** Every class spoken of has a last word: held true means someone says so. */
  lemma SomeLastWord(records: set<TruthRecord>, c: nat)
    requires c in Classes(records)
    ensures LastWord(records, c, Asserted) || LastWord(records, c, Retracted)
  {
    var r :| r in records && r.class_ == c;
    var line := set x | x in records && x.class_ == c && x.lineage == r.lineage;
    assert r in line;
    var m := Furthest(line);
    assert IsLatest(records, m);
    assert m.stance == Asserted || m.stance == Retracted;
  }

  ghost function Furthest(line: set<TruthRecord>): (m: TruthRecord)
    requires line != {}
    ensures m in line && forall x :: x in line ==> x.index <= m.index
    decreases |line|
  {
    var r :| r in line;
    if line == {r} then r
    else
      var rest := line - {r};
      assert rest != {} && line == rest + {r};
      var m := Furthest(rest);
      if m.index <= r.index then r else m
  }

  // ---- the order records are processed in ---------------------------------------------

  function StanceNumber(st: Stance): nat { if st == Asserted then 1 else 2 }

  /** The fields compared, first to last. */
  function Fields(r: TruthRecord): seq<nat> {
    [r.class_, r.lineage, r.index, r.author, StanceNumber(r.stance), r.meta, r.block, r.subject]
  }

  predicate CompareTruthRecords(a: TruthRecord, b: TruthRecord) { Sorting.LexLeq(Fields(a), Fields(b)) }

  lemma ComparisonIsTotal()
    ensures Sorting.TotalPreorder(CompareTruthRecords)
  {
    forall a, b ensures CompareTruthRecords(a, b) || CompareTruthRecords(b, a) {
      Sorting.LexLeqTotal(Fields(a), Fields(b));
    }
    forall a, b, c | CompareTruthRecords(a, b) && CompareTruthRecords(b, c) ensures CompareTruthRecords(a, c) {
      Sorting.LexLeqTransitive(Fields(a), Fields(b), Fields(c));
    }
  }

  /** Records that compare equal are the same, marks aside. */
  lemma EqualFields(a: TruthRecord, b: TruthRecord)
    requires CompareTruthRecords(a, b) && CompareTruthRecords(b, a) && a.latest == b.latest
    ensures a == b
  {
    Sorting.LexLeqTotal(Fields(a), Fields(b));
    assert Fields(a)[0] == a.class_ && Fields(a)[1] == a.lineage && Fields(a)[2] == a.index && Fields(a)[3] == a.author;
    assert Fields(a)[4] == StanceNumber(a.stance) && Fields(a)[5] == a.meta && Fields(a)[6] == a.block && Fields(a)[7] == a.subject;
    assert Fields(b)[0] == b.class_ && Fields(b)[1] == b.lineage && Fields(b)[2] == b.index && Fields(b)[3] == b.author;
    assert Fields(b)[4] == StanceNumber(b.stance) && Fields(b)[5] == b.meta && Fields(b)[6] == b.block && Fields(b)[7] == b.subject;
  }

  /** What a sorted order says of the leading fields. */
  lemma LeadingFields(a: TruthRecord, b: TruthRecord)
    requires CompareTruthRecords(a, b)
    ensures a.class_ <= b.class_
    ensures a.class_ == b.class_ ==> a.lineage <= b.lineage
    ensures a.class_ == b.class_ && a.lineage == b.lineage ==> a.index <= b.index
  {
    var x, y := Fields(a), Fields(b);
    assert x[0] == a.class_ && y[0] == b.class_;
    if a.class_ == b.class_ {
      assert Sorting.LexLeq(x[1..], y[1..]) && x[1..][0] == a.lineage && y[1..][0] == b.lineage;
      if a.lineage == b.lineage {
        assert Sorting.LexLeq(x[1..][1..], y[1..][1..]) && x[1..][1..][0] == a.index && y[1..][1..][0] == b.index;
      }
    }
  }

  /** a is not after b: by class, lineage and position, then by author, assertions before
      retractions, and by the digests. */
  predicate NotAfter(a: TruthRecord, b: TruthRecord) {
    if a.class_ != b.class_ then a.class_ < b.class_
    else if a.lineage != b.lineage then a.lineage < b.lineage
    else if a.index != b.index then a.index < b.index
    else if a.author != b.author then a.author < b.author
    else if a.stance != b.stance then a.stance.Asserted?
    else if a.meta != b.meta then a.meta < b.meta
    else if a.block != b.block then a.block < b.block
    else a.subject <= b.subject
  }

  lemma LeqHeads(a: seq<nat>, b: seq<nat>)
    requires a != [] && b != []
    ensures Sorting.LexLeq(a, b) <==> if a[0] != b[0] then a[0] < b[0] else Sorting.LexLeq(a[1..], b[1..])
  {
  }

  /** The comparison is field by field. */
  lemma ComparisonMeaning(a: TruthRecord, b: TruthRecord)
    ensures CompareTruthRecords(a, b) <==> NotAfter(a, b)
  {
    hide Sorting.LexLeq, Sorting.LexLess;
    var x, y := Fields(a), Fields(b);
    LeqHeads(x, y);
    LeqHeads(x[1..], y[1..]);
    LeqHeads(x[2..], y[2..]);
    LeqHeads(x[3..], y[3..]);
    LeqHeads(x[4..], y[4..]);
    LeqHeads(x[5..], y[5..]);
    LeqHeads(x[6..], y[6..]);
    LeqHeads(x[7..], y[7..]);
    NothingLeft(x[8..], y[8..]);
    assert x[1..][1..] == x[2..] && x[2..][1..] == x[3..] && x[3..][1..] == x[4..] && x[4..][1..] == x[5..];
    assert y[1..][1..] == y[2..] && y[2..][1..] == y[3..] && y[3..][1..] == y[4..] && y[4..][1..] == y[5..];
    assert x[5..][1..] == x[6..] && x[6..][1..] == x[7..] && x[7..][1..] == x[8..];
    assert y[5..][1..] == y[6..] && y[6..][1..] == y[7..] && y[7..][1..] == y[8..];
  }

  lemma NothingLeft(a: seq<nat>, b: seq<nat>)
    requires a == [] && b == []
    ensures Sorting.LexLeq(a, b)
  {
  }

  /** Records by class, by lineage within a class, by position within a lineage. */
  ghost predicate InGroups(s: seq<TruthRecord>) {
    forall i, j :: 0 <= i < j < |s| ==>
      && s[i].class_ <= s[j].class_
      && (s[i].class_ == s[j].class_ ==> s[i].lineage <= s[j].lineage)
      && (s[i].class_ == s[j].class_ && s[i].lineage == s[j].lineage ==> s[i].index <= s[j].index)
  }

  lemma SortedIsGrouped(s: seq<TruthRecord>)
    requires Sorting.Sorted(s, CompareTruthRecords)
    ensures InGroups(s)
  {
    forall i, j | 0 <= i < j < |s| ensures CompareTruthRecords(s[i], s[j]) {
    }
    forall i, j | 0 <= i < j < |s|
      ensures s[i].class_ <= s[j].class_
      ensures s[i].class_ == s[j].class_ ==> s[i].lineage <= s[j].lineage
      ensures s[i].class_ == s[j].class_ && s[i].lineage == s[j].lineage ==> s[i].index <= s[j].index
    {
      LeadingFields(s[i], s[j]);
    }
  }

  // ---- marking the last words ---------------------------------------------------------

  ghost function Elements(s: seq<TruthRecord>): set<TruthRecord> { set r | r in s }

  ghost function Mark(records: set<TruthRecord>, r: TruthRecord): TruthRecord { r.(latest := IsLatest(records, r)) }

  predicate SameLine(a: TruthRecord, b: TruthRecord) { a.class_ == b.class_ && a.lineage == b.lineage }

  lemma Between(s: seq<TruthRecord>, i: nat, j: nat, k: nat)
    requires InGroups(s) && i <= j <= k < |s| && SameLine(s[i], s[k])
    ensures SameLine(s[j], s[i]) && SameLine(s[j], s[k])
  {
  }

  /** In a sorted list, the group of one lineage ends with its latest. */
  lemma GroupEnd(s: seq<TruthRecord>, start: nat, end: nat, i: nat)
    requires InGroups(s) && start <= i < end <= |s|
    requires forall k :: start <= k < end ==> SameLine(s[k], s[start])
    requires start > 0 ==> !SameLine(s[start - 1], s[start])
    requires end < |s| ==> !SameLine(s[end], s[start])
    ensures IsLatest(Elements(s), s[i]) <==> s[i].index == s[end - 1].index
  {
    forall x | x in Elements(s) && SameLine(x, s[i]) ensures x.index <= s[end - 1].index {
      var k :| 0 <= k < |s| && s[k] == x;
      if k < start {
        Between(s, k, start - 1, start);
      } else if k >= end {
        Between(s, start, end, k);
      }
    }
    assert s[end - 1] in Elements(s);
  }

  /** The marks of one group. */
  method MarkGroup(records: array<TruthRecord>, ghost s: seq<TruthRecord>, start: nat, end: nat)
    requires |s| == records.Length && InGroups(s) && start < end <= |s|
    requires forall k :: start <= k < end ==> SameLine(s[k], s[start])
    requires start > 0 ==> !SameLine(s[start - 1], s[start])
    requires end < |s| ==> !SameLine(s[end], s[start])
    requires forall k :: start <= k < end ==> records[k] == s[k]
    modifies records
    ensures forall k :: start <= k < end ==> records[k] == Mark(Elements(s), s[k])
    ensures forall k :: 0 <= k < start || end <= k < records.Length ==> records[k] == old(records[k])
  {
    hide Mark, InGroups, Elements, SameLine;
    var last := records[end - 1].index;
    for i := start to end
      invariant forall k :: start <= k < i ==> records[k] == Mark(Elements(s), s[k])
      invariant forall k :: i <= k < end ==> records[k] == s[k]
      invariant forall k :: 0 <= k < start || end <= k < records.Length ==> records[k] == old(records[k])
    {
      GroupEnd(s, start, end, i);
      MarkIs(Elements(s), s[i]);
      records[i] := records[i].(latest := records[i].index == last);
    }
  }

  /** Flags, in place, the records at the highest position of their lineage. */
  method MarkLatest(records: array<TruthRecord>)
    requires InGroups(records[..])
    modifies records
    ensures forall i :: 0 <= i < records.Length ==> records[i] == Mark(Elements(old(records[..])), old(records[i]))
  {
    hide Mark, InGroups, Elements;
    ghost var s := records[..];
    var start := 0;
    while start < records.Length
      invariant start <= records.Length
      invariant 0 < start < records.Length ==> !SameLine(s[start - 1], s[start])
      invariant forall k :: 0 <= k < start ==> records[k] == Mark(Elements(s), s[k])
      invariant forall k :: start <= k < records.Length ==> records[k] == s[k]
    {
      var end := start;
      while end < records.Length && SameLine(records[end], records[start])
        invariant start <= end <= records.Length
        invariant forall k :: start <= k < end ==> SameLine(s[k], s[start])
      {
        end := end + 1;
      }
      MarkGroup(records, s, start, end);
      start := end;
    }
  }

  lemma MarkIs(records: set<TruthRecord>, r: TruthRecord)
    ensures Mark(records, r) == r.(latest := IsLatest(records, r))
  {
  }

  // ---- one class ----------------------------------------------------------------------

  /** A surfaced disagreement: who says what, with which molecules, and who spoke at all. */
  datatype Conflict = Conflict(class_: nat, assertedBy: set<nat>, retractedBy: set<nat>, meta: set<nat>, declarers: set<nat>)

  ghost function ConflictOf(records: set<TruthRecord>, c: nat): Conflict {
    Conflict(c, Side(records, c, Asserted), Side(records, c, Retracted), Meta(records, c), Declarers(records, c))
  }

  ghost predicate IsMarked(records: set<TruthRecord>, r: TruthRecord) { exists x :: x in records && r == Mark(records, x) }

  /** The marked records of one class are exactly the class's, marked. */
  ghost predicate GroupOf(records: set<TruthRecord>, c: nat, group: seq<TruthRecord>) {
    && group != []
    && (forall r :: r in group ==> r.class_ == c && IsMarked(records, r))
    && (forall x :: x in records && x.class_ == c ==> Mark(records, x) in group)
  }

  /** The authors, and the molecules, of a group's last words of one stance. */
  function Saying(group: seq<TruthRecord>, st: Stance): set<nat> {
    set r | r in group && r.latest && r.stance == st :: r.author
  }

  function SaidWith(group: seq<TruthRecord>, st: Stance): set<nat> {
    set r | r in group && r.latest && r.stance == st :: r.meta
  }

  function Speaking(group: seq<TruthRecord>): set<nat> { set r | r in group :: r.author }

  lemma SayingIsSide(records: set<TruthRecord>, c: nat, group: seq<TruthRecord>, st: Stance)
    requires GroupOf(records, c, group)
    ensures Saying(group, st) == Side(records, c, st)
    ensures Saying(group, st) != {} <==> LastWord(records, c, st)
  {
    hide IsLatest;
    forall a | a in Saying(group, st) ensures a in Side(records, c, st) && LastWord(records, c, st) {
      var r :| r in group && r.latest && r.stance == st && r.author == a;
      var x :| x in records && r == Mark(records, x);
    }
    forall a | a in Side(records, c, st) ensures a in Saying(group, st) {
      var x :| x in records && x.class_ == c && x.stance == st && IsLatest(records, x) && x.author == a;
      assert Mark(records, x) in group;
    }
    if LastWord(records, c, st) {
      var x :| x in records && x.class_ == c && x.stance == st && IsLatest(records, x);
      assert Mark(records, x) in group && x.author in Saying(group, st);
    }
  }

  lemma SpeakingIsDeclarers(records: set<TruthRecord>, c: nat, group: seq<TruthRecord>)
    requires GroupOf(records, c, group)
    ensures Speaking(group) == Declarers(records, c)
    ensures SaidWith(group, Asserted) + SaidWith(group, Retracted) == Meta(records, c)
  {
    hide IsLatest;
    forall a | a in Speaking(group) ensures a in Declarers(records, c) {
      var r :| r in group && r.author == a;
      var x :| x in records && r == Mark(records, x);
    }
    forall a | a in Declarers(records, c) ensures a in Speaking(group) {
      var x :| x in records && x.class_ == c && x.author == a;
      assert Mark(records, x) in group;
    }
    forall m | m in SaidWith(group, Asserted) + SaidWith(group, Retracted) ensures m in Meta(records, c) {
      var r :| r in group && r.latest && r.meta == m;
      var x :| x in records && r == Mark(records, x);
    }
    forall m | m in Meta(records, c) ensures m in SaidWith(group, Asserted) + SaidWith(group, Retracted) {
      var x :| x in records && x.class_ == c && IsLatest(records, x) && x.meta == m;
      assert Mark(records, x) in group;
    }
  }

  /** What the view says once the classes in done are applied. */
  ghost predicate Applied(records: set<TruthRecord>, done: set<nat>, truth: map<nat, TruthState>,
                          assertions: map<nat, seq<TruthRecord>>, conflicts: seq<Conflict>)
  {
    && truth.Keys == done && assertions.Keys == done
    && (forall c :: c in done ==> truth[c] == StateOf(records, c))
    && (forall c :: c in done ==> GroupOf(records, c, assertions[c]) && Sorting.Sorted(assertions[c], CompareTruthRecords))
    && (forall k :: k in conflicts ==> k.class_ in done && k == ConflictOf(records, k.class_))
    && (forall c :: c in done ==> (truth[c] == Conflicted <==> ConflictOf(records, c) in conflicts))
    && (forall i, j :: 0 <= i < j < |conflicts| ==> conflicts[i].class_ < conflicts[j].class_)
  }

  /** A record as it was given, before marking. */
  function Bare(r: TruthRecord): TruthRecord { r.(latest := false) }

  /** g lists the given records of one class, marked, each as often as it was given. */
  ghost predicate Listed(records: seq<TruthRecord>, c: nat, g: seq<TruthRecord>) {
    forall r :: multiset(g)[r] == if r.class_ == c && r == Mark(Elements(records), Bare(r)) then multiset(records)[Bare(r)] else 0
  }

  ghost predicate AllListed(records: seq<TruthRecord>, done: set<nat>, assertions: map<nat, seq<TruthRecord>>) {
    assertions.Keys == done && forall c :: c in done ==> Listed(records, c, assertions[c])
  }

  class View {
    var truth: map<nat, TruthState>
    var assertions: map<nat, seq<TruthRecord>>
    var conflicts: seq<Conflict>

    constructor ()
      ensures truth == map[] && assertions == map[] && conflicts == []
    {
      truth, assertions, conflicts := map[], map[], [];
    }

    /** Reduces one class's records to a state, keeps them, and surfaces a disagreement. */
    method ApplyClass(group: seq<TruthRecord>)
      requires group != []
      modifies this
      ensures var c := group[0].class_;
        && assertions == old(assertions)[c := group]
        && truth == old(truth)[c := if Saying(group, Asserted) != {} && Saying(group, Retracted) != {} then Conflicted
                                    else if Saying(group, Retracted) != {} then HeldUntrue else HeldTrue]
        && conflicts == old(conflicts) +
             (if truth[c] == Conflicted then
                [Conflict(c, Saying(group, Asserted), Saying(group, Retracted),
                          SaidWith(group, Asserted) + SaidWith(group, Retracted), Speaking(group))]
              else [])
    {
      var asserted, retracted, assertedMeta, retractedMeta, declarers: set<nat> := {}, {}, {}, {}, {};
      for i := 0 to |group|
        invariant asserted == Saying(group[..i], Asserted) && retracted == Saying(group[..i], Retracted)
        invariant assertedMeta == SaidWith(group[..i], Asserted) && retractedMeta == SaidWith(group[..i], Retracted)
        invariant declarers == Speaking(group[..i])
        invariant truth == old(truth) && assertions == old(assertions) && conflicts == old(conflicts)
      {
        hide Saying, SaidWith, Speaking;
        var r := group[i];
        OneMore(group, i);
        declarers := declarers + {r.author};
        if r.latest {
          if r.stance == Retracted {
            retracted, retractedMeta := retracted + {r.author}, retractedMeta + {r.meta};
          } else {
            asserted, assertedMeta := asserted + {r.author}, assertedMeta + {r.meta};
          }
        }
      }
      assert group[..|group|] == group;
      var class_ := group[0].class_;
      var state := HeldTrue;
      if asserted != {} && retracted != {} {
        state := Conflicted;
      } else if retracted != {} {
        state := HeldUntrue;
      }
      truth := truth[class_ := state];
      assertions := assertions[class_ := group];
      if state == Conflicted {
        conflicts := conflicts + [Conflict(class_, asserted, retracted, assertedMeta + retractedMeta, declarers)];
      }
    }

    /** The truth of every class the records bear on. Given the same records, in any
        order, the view comes out the same. */
    method ApplyTruth(records: seq<TruthRecord>)
      requires truth == map[] && assertions == map[] && conflicts == []
      requires forall r :: r in records ==> !r.latest
      modifies this
      ensures Applied(Elements(records), Classes(Elements(records)), truth, assertions, conflicts)
      ensures AllListed(records, Classes(Elements(records)), assertions)
    {
      hide Applied, AllListed, CompareTruthRecords, Mark, GroupOf, InGroups;
      ComparisonIsTotal();
      var s := Sorting.Sort(records, CompareTruthRecords);
      SortedIsGrouped(s);
      Sorting.SameElements(s, records);
      ghost var all := Elements(records);
      assert Elements(s) == all;
      var a := new TruthRecord[|s|](i requires 0 <= i < |s| => s[i]);
      assert a[..] == s;
      MarkLatest(a);
      var m := a[..];
      assert MarksOf(all, s, m);
      MarkedCounts(records, s, m);
      hide MarksOf, MarkedFrom, Elements, Classes;
      NothingApplied(all, s);
      NothingListed(records, s);
      var start := 0;
      while start < |m|
        invariant start <= |m| == |s|
        invariant 0 < start < |m| ==> s[start - 1].class_ != s[start].class_
        invariant Applied(all, Classes(Elements(s[..start])), truth, assertions, conflicts)
        invariant AllListed(records, Classes(Elements(s[..start])), assertions)
      {
        var end := ClassEnd(m, start, all, s);
        ghost var t, n, k := truth, assertions, conflicts;
        ApplyClass(m[start..end]);
        ClassApplied(all, s, m, start, end, t, n, k, truth, assertions, conflicts);
        ClassListed(records, s, m, start, end, n, assertions);
        start := end;
      }
      assert s[..start] == s;
    }
  }

  /** Where the run of one class ends. */
  method ClassEnd(m: seq<TruthRecord>, start: nat, ghost all: set<TruthRecord>, ghost s: seq<TruthRecord>) returns (end: nat)
    requires MarksOf(all, s, m) && start < |m|
    ensures start < end <= |m| && forall k :: start <= k < end ==> s[k].class_ == s[start].class_
    ensures end < |s| ==> s[end].class_ != s[start].class_
  {
    hide Mark, InGroups, Elements, Sorting.Sorted;
    end := start + 1;
    while end < |m| && m[end].class_ == m[start].class_
      invariant start < end <= |m| && forall k :: start <= k < end ==> s[k].class_ == s[start].class_
    {
      MarkedAt(all, s, m, start);
      MarkedAt(all, s, m, end);
      end := end + 1;
    }
    MarkedAt(all, s, m, start);
    if end < |m| { MarkedAt(all, s, m, end); }
  }

  lemma OneMore(group: seq<TruthRecord>, i: nat)
    requires i < |group|
    ensures forall st :: Saying(group[..i + 1], st) == Saying(group[..i], st) + if group[i].latest && group[i].stance == st then {group[i].author} else {}
    ensures forall st :: SaidWith(group[..i + 1], st) == SaidWith(group[..i], st) + if group[i].latest && group[i].stance == st then {group[i].meta} else {}
    ensures Speaking(group[..i + 1]) == Speaking(group[..i]) + {group[i].author}
  {
    assert group[..i + 1] == group[..i] + [group[i]];
  }

  /** m is the sorted list s of all the records, marked. */
  ghost predicate MarksOf(all: set<TruthRecord>, s: seq<TruthRecord>, m: seq<TruthRecord>) {
    && |m| == |s| && Elements(s) == all && InGroups(s) && Sorting.Sorted(s, CompareTruthRecords)
    && forall i :: 0 <= i < |s| ==> m[i] == Mark(all, s[i])
  }

  lemma MarkedAt(all: set<TruthRecord>, s: seq<TruthRecord>, m: seq<TruthRecord>, i: nat)
    requires MarksOf(all, s, m) && i < |s|
    ensures m[i].class_ == s[i].class_ && Fields(m[i]) == Fields(s[i])
  {
  }

  lemma NothingApplied(all: set<TruthRecord>, s: seq<TruthRecord>)
    ensures Applied(all, Classes(Elements(s[..0])), map[], map[], [])
  {
  }

  /** A whole class stands together in a sorted list. */
  lemma GroupIsClass(all: set<TruthRecord>, s: seq<TruthRecord>, m: seq<TruthRecord>, start: nat, end: nat)
    requires MarksOf(all, s, m) && start < end <= |s|
    requires forall k :: start <= k < end ==> s[k].class_ == s[start].class_
    requires start > 0 ==> s[start - 1].class_ != s[start].class_
    requires end < |s| ==> s[end].class_ != s[start].class_
    ensures GroupOf(all, s[start].class_, m[start..end]) && Sorting.Sorted(m[start..end], CompareTruthRecords)
    ensures forall k :: 0 <= k < start ==> s[k].class_ < s[start].class_
  {
    hide Sorting.Sorted, GroupOf, Mark, CompareTruthRecords, InGroups, Elements;
    forall k | 0 <= k < start ensures s[k].class_ < s[start].class_ {
      ClassOrder(s, k, start - 1);
      ClassOrder(s, start - 1, start);
    }
    GroupSorted(all, s, m, start, end);
    GroupWhole(all, s, m, start, end);
  }

  lemma ClassOrder(s: seq<TruthRecord>, i: nat, j: nat)
    requires InGroups(s) && i <= j < |s|
    ensures s[i].class_ <= s[j].class_
  {
  }

  lemma GroupSorted(all: set<TruthRecord>, s: seq<TruthRecord>, m: seq<TruthRecord>, start: nat, end: nat)
    requires MarksOf(all, s, m) && start <= end <= |s|
    ensures Sorting.Sorted(m[start..end], CompareTruthRecords)
  {
    var g := m[start..end];
    hide InGroups, Mark, Sorting.LexLeq, Fields, Elements;
    forall i, j | 0 <= i < j < |g| ensures CompareTruthRecords(g[i], g[j]) {
      MarkedAt(all, s, m, start + i);
      MarkedAt(all, s, m, start + j);
      assert CompareTruthRecords(s[start + i], s[start + j]);
    }
  }

  lemma GroupWhole(all: set<TruthRecord>, s: seq<TruthRecord>, m: seq<TruthRecord>, start: nat, end: nat)
    requires MarksOf(all, s, m) && start < end <= |s|
    requires forall k :: start <= k < end ==> s[k].class_ == s[start].class_
    requires start > 0 ==> s[start - 1].class_ != s[start].class_
    requires end < |s| ==> s[end].class_ != s[start].class_
    ensures GroupOf(all, s[start].class_, m[start..end])
  {
    hide MarksOf, Mark, IsMarked;
    MarksSize(all, s, m);
    var g := m[start..end];
    assert g[0] == m[start];
    forall r | r in g ensures r.class_ == s[start].class_ && IsMarked(all, r) {
      GroupHasOnly(all, s, m, start, end, r);
    }
    forall x | x in all && x.class_ == s[start].class_ ensures Mark(all, x) in g {
      GroupHas(all, s, m, start, end, x);
    }
  }

  lemma MarksSize(all: set<TruthRecord>, s: seq<TruthRecord>, m: seq<TruthRecord>)
    requires MarksOf(all, s, m)
    ensures |m| == |s|
  {
    hide InGroups, Elements, Mark, Sorting.Sorted;
  }

  lemma GroupHasOnly(all: set<TruthRecord>, s: seq<TruthRecord>, m: seq<TruthRecord>, start: nat, end: nat, r: TruthRecord)
    requires MarksOf(all, s, m) && start < end <= |s| && r in m[start..end]
    requires forall k :: start <= k < end ==> s[k].class_ == s[start].class_
    ensures r.class_ == s[start].class_ && IsMarked(all, r)
  {
    hide IsLatest, InGroups, Sorting.Sorted;
    var g := m[start..end];
    var k :| 0 <= k < |g| && g[k] == r;
    assert s[start + k] in Elements(s) && r == Mark(all, s[start + k]);
  }

  lemma GroupHas(all: set<TruthRecord>, s: seq<TruthRecord>, m: seq<TruthRecord>, start: nat, end: nat, x: TruthRecord)
    requires MarksOf(all, s, m) && start < end <= |s| && x in all && x.class_ == s[start].class_
    requires start > 0 ==> s[start - 1].class_ != s[start].class_
    requires end < |s| ==> s[end].class_ != s[start].class_
    ensures Mark(all, x) in m[start..end]
  {
    hide IsLatest, InGroups, Sorting.Sorted;
    assert x in Elements(s);
    var k :| 0 <= k < |s| && s[k] == x;
    if k < start {
      ClassOrder(s, k, start - 1);
      ClassOrder(s, start - 1, start);
    } else if k >= end {
      ClassOrder(s, start, end);
      ClassOrder(s, end, k);
    }
    assert m[start..end][k - start] == Mark(all, x);
  }

  lemma ClassesGrow(s: seq<TruthRecord>, start: nat, end: nat)
    requires start < end <= |s| && forall k :: start <= k < end ==> s[k].class_ == s[start].class_
    ensures Classes(Elements(s[..end])) == Classes(Elements(s[..start])) + {s[start].class_}
  {
    forall c ensures c in Classes(Elements(s[..end])) <==> c in Classes(Elements(s[..start])) + {s[start].class_} {
      if c in Classes(Elements(s[..end])) {
        var k :| 0 <= k < end && s[k].class_ == c;
        if k < start { assert s[k] in s[..start]; }
      }
      if c in Classes(Elements(s[..start])) {
        var k :| 0 <= k < start && s[k].class_ == c;
        assert s[k] in s[..end];
      }
      assert s[start] in s[..end];
    }
  }

  lemma ClassApplied(all: set<TruthRecord>, s: seq<TruthRecord>, m: seq<TruthRecord>, start: nat, end: nat,
                     t: map<nat, TruthState>, n: map<nat, seq<TruthRecord>>, k: seq<Conflict>,
                     t': map<nat, TruthState>, n': map<nat, seq<TruthRecord>>, k': seq<Conflict>)
    requires MarksOf(all, s, m) && start < end <= |s|
    requires forall k :: start <= k < end ==> s[k].class_ == s[start].class_
    requires start > 0 ==> s[start - 1].class_ != s[start].class_
    requires end < |s| ==> s[end].class_ != s[start].class_
    requires Applied(all, Classes(Elements(s[..start])), t, n, k)
    requires var g, c := m[start..end], m[start].class_;
      && n' == n[c := g]
      && t' == t[c := if Saying(g, Asserted) != {} && Saying(g, Retracted) != {} then Conflicted
                      else if Saying(g, Retracted) != {} then HeldUntrue else HeldTrue]
      && k' == k + (if t'[c] == Conflicted then
                      [Conflict(c, Saying(g, Asserted), Saying(g, Retracted), SaidWith(g, Asserted) + SaidWith(g, Retracted), Speaking(g))]
                    else [])
    ensures Applied(all, Classes(Elements(s[..end])), t', n', k')
  {
    var g, c := m[start..end], s[start].class_;
    MarkedAt(all, s, m, start);
    GroupIsClass(all, s, m, start, end);
    ClassesGrow(s, start, end);
    var done := Classes(Elements(s[..start]));
    forall d | d in done ensures d < c {
      var r :| r in s[..start] && r.class_ == d;
    }
    hide MarksOf, GroupOf, Elements, Classes, Saying, SaidWith, Speaking, Side, Meta, Declarers, LastWord, Sorting.Sorted, Applied, StateOf;
    GroupSays(all, c, g);
    OneClassMore(all, done, c, g, t, n, k, t', n', k');
  }

  /** What the reduction makes of a class's group is what the rules say of the class. */
  lemma GroupSays(all: set<TruthRecord>, c: nat, g: seq<TruthRecord>)
    requires GroupOf(all, c, g)
    ensures StateOf(all, c) == if Saying(g, Asserted) != {} && Saying(g, Retracted) != {} then Conflicted
                               else if Saying(g, Retracted) != {} then HeldUntrue else HeldTrue
    ensures ConflictOf(all, c) ==
            Conflict(c, Saying(g, Asserted), Saying(g, Retracted), SaidWith(g, Asserted) + SaidWith(g, Retracted), Speaking(g))
  {
    hide GroupOf, Saying, SaidWith, Speaking, Side, Meta, Declarers, LastWord;
    SayingIsSide(all, c, g, Asserted);
    SayingIsSide(all, c, g, Retracted);
    SpeakingIsDeclarers(all, c, g);
  }

  lemma OneClassMore(all: set<TruthRecord>, done: set<nat>, c: nat, g: seq<TruthRecord>,
                     t: map<nat, TruthState>, n: map<nat, seq<TruthRecord>>, k: seq<Conflict>,
                     t': map<nat, TruthState>, n': map<nat, seq<TruthRecord>>, k': seq<Conflict>)
    requires Applied(all, done, t, n, k) && forall d :: d in done ==> d < c
    requires GroupOf(all, c, g) && Sorting.Sorted(g, CompareTruthRecords)
    requires t' == t[c := StateOf(all, c)] && n' == n[c := g]
    requires k' == k + (if StateOf(all, c) == Conflicted then [ConflictOf(all, c)] else [])
    ensures Applied(all, done + {c}, t', n', k')
  {
    hide GroupOf, StateOf, Side, Meta, Declarers, Sorting.Sorted;
    forall x | x in k' ensures x.class_ in done + {c} && x == ConflictOf(all, x.class_) {
    }
    assert ConflictOf(all, c).class_ == c && c !in done;
    assert ConflictOf(all, c) !in k;
    forall d | d in done + {c} ensures t'[d] == Conflicted <==> ConflictOf(all, d) in k' {
    }
  }

  /** The view is a function of the set of records: the order they came in, and how often
      each was repeated, leave no trace in states or conflicts. */
  lemma OneOutcome(all: set<TruthRecord>, t: map<nat, TruthState>, n: map<nat, seq<TruthRecord>>, k: seq<Conflict>,
                   t': map<nat, TruthState>, n': map<nat, seq<TruthRecord>>, k': seq<Conflict>)
    requires Applied(all, Classes(all), t, n, k) && Applied(all, Classes(all), t', n', k')
    ensures t == t' && k == k'
  {
    hide GroupOf, StateOf, Side, Meta, Declarers, Sorting.Sorted, Classes;
    assert forall c :: c in t ==> t[c] == t'[c];
    forall x ensures x in k <==> x in k' {
      if x in k { assert x == ConflictOf(all, x.class_) && t[x.class_] == Conflicted; }
      if x in k' { assert x == ConflictOf(all, x.class_) && t'[x.class_] == Conflicted; }
    }
    AscendingConflicts(k, k');
  }

  // ---- what is listed for each class --------------------------------------------------

  /** m holds each given record, marked, as often as it was given. */
  ghost predicate MarkedFrom(records: seq<TruthRecord>, m: seq<TruthRecord>) {
    forall r :: multiset(m)[r] == if r == Mark(Elements(records), Bare(r)) then multiset(records)[Bare(r)] else 0
  }

  /** Marking keeps counts: a record marked right stands for the bare one. */
  lemma {:induction false} MarkedCount(all: set<TruthRecord>, s: seq<TruthRecord>, m: seq<TruthRecord>, r: TruthRecord)
    requires |m| == |s| && forall i :: 0 <= i < |s| ==> !s[i].latest && m[i] == Mark(all, s[i])
    ensures multiset(m)[r] == if r == Mark(all, Bare(r)) then multiset(s)[Bare(r)] else 0
    decreases |s|
  {
    if s != [] {
      MarkIs(all, s[0]);
      assert Bare(m[0]) == s[0];
      hide IsLatest, Mark;
      CountHead(s, Bare(r));
      CountHead(m, r);
      MarkedCount(all, s[1..], m[1..], r);
    }
  }

  lemma CountHead(g: seq<TruthRecord>, r: TruthRecord)
    requires g != []
    ensures multiset(g)[r] == multiset(g[1..])[r] + if g[0] == r then 1 else 0
  {
    assert g == [g[0]] + g[1..];
  }

  lemma MarkedCounts(records: seq<TruthRecord>, s: seq<TruthRecord>, m: seq<TruthRecord>)
    requires MarksOf(Elements(records), s, m) && multiset(s) == multiset(records) && forall r :: r in records ==> !r.latest
    ensures MarkedFrom(records, m)
  {
    Sorting.SameElements(s, records);
    hide Mark, InGroups, Sorting.Sorted, Elements;
    forall r: TruthRecord ensures multiset(m)[r] == if r == Mark(Elements(records), Bare(r)) then multiset(records)[Bare(r)] else 0 {
      MarkedCount(Elements(records), s, m, r);
    }
  }

  lemma NothingListed(records: seq<TruthRecord>, s: seq<TruthRecord>)
    ensures AllListed(records, Classes(Elements(s[..0])), map[])
  {
  }

  /** The run of a class in the sorted list holds all of the class. */
  lemma RunCounts(m: seq<TruthRecord>, start: nat, end: nat, c: nat, r: TruthRecord)
    requires start <= end <= |m| && forall k :: 0 <= k < |m| ==> (m[k].class_ == c <==> start <= k < end)
    ensures multiset(m[start..end])[r] == if r.class_ == c then multiset(m)[r] else 0
  {
    var x, g, y := m[..start], m[start..end], m[end..];
    assert m == x + g + y;
    if r.class_ == c {
      assert r !in x && r !in y;
    } else {
      assert r !in g;
    }
  }

  lemma RunIsClass(all: set<TruthRecord>, s: seq<TruthRecord>, m: seq<TruthRecord>, start: nat, end: nat)
    requires MarksOf(all, s, m) && start < end <= |s|
    requires forall k :: start <= k < end ==> s[k].class_ == s[start].class_
    requires start > 0 ==> s[start - 1].class_ != s[start].class_
    requires end < |s| ==> s[end].class_ != s[start].class_
    ensures forall k :: 0 <= k < |m| ==> (m[k].class_ == s[start].class_ <==> start <= k < end)
  {
    assert InGroups(s) && |m| == |s|;
    hide MarksOf, InGroups;
    forall k | 0 <= k < |m| ensures m[k].class_ == s[start].class_ <==> start <= k < end {
      MarkedAt(all, s, m, k);
      if k < start {
        ClassOrder(s, k, start - 1);
        ClassOrder(s, start - 1, start);
      } else if k >= end {
        ClassOrder(s, start, end);
        ClassOrder(s, end, k);
      }
    }
  }

  lemma ClassListed(records: seq<TruthRecord>, s: seq<TruthRecord>, m: seq<TruthRecord>, start: nat, end: nat,
                    n: map<nat, seq<TruthRecord>>, n': map<nat, seq<TruthRecord>>)
    requires MarksOf(Elements(records), s, m) && MarkedFrom(records, m) && start < end <= |s| == |m|
    requires forall k :: start <= k < end ==> s[k].class_ == s[start].class_
    requires start > 0 ==> s[start - 1].class_ != s[start].class_
    requires end < |s| ==> s[end].class_ != s[start].class_
    requires AllListed(records, Classes(Elements(s[..start])), n) && n' == n[m[start].class_ := m[start..end]]
    ensures AllListed(records, Classes(Elements(s[..end])), n')
  {
    hide MarksOf, MarkedFrom, Elements, Classes, Listed;
    var c := m[start].class_;
    MarkedAt(Elements(records), s, m, start);
    RunIsClass(Elements(records), s, m, start, end);
    ClassesGrow(s, start, end);
    RunListed(records, m, start, end, c);
    OneMoreListed(records, Classes(Elements(s[..start])), c, n, m[start..end]);
  }

  lemma OneMoreListed(records: seq<TruthRecord>, done: set<nat>, c: nat, n: map<nat, seq<TruthRecord>>, g: seq<TruthRecord>)
    requires AllListed(records, done, n) && Listed(records, c, g)
    ensures AllListed(records, done + {c}, n[c := g])
  {
    hide Listed;
  }

  lemma RunListed(records: seq<TruthRecord>, m: seq<TruthRecord>, start: nat, end: nat, c: nat)
    requires MarkedFrom(records, m) && start <= end <= |m| && forall k :: 0 <= k < |m| ==> (m[k].class_ == c <==> start <= k < end)
    ensures Listed(records, c, m[start..end])
  {
    hide Elements, Mark;
    var g := m[start..end];
    forall r: TruthRecord
      ensures multiset(g)[r] == if r.class_ == c && r == Mark(Elements(records), Bare(r)) then multiset(records)[Bare(r)] else 0
    {
      RunCounts(m, start, end, c, r);
    }
  }

  /** The list of a class's assertions comes out one way, whatever order the records were
      given in. */
  lemma OneAssertionList(records: seq<TruthRecord>, c: nat, g: seq<TruthRecord>, h: seq<TruthRecord>)
    requires Listed(records, c, g) && Listed(records, c, h)
    requires Sorting.Sorted(g, CompareTruthRecords) && Sorting.Sorted(h, CompareTruthRecords)
    ensures g == h
  {
    var all := Elements(records);
    hide Mark, Elements;
    assert multiset(g) == multiset(h);
    forall a | a in g ensures a == Mark(all, Bare(a)) {
      assert multiset(g)[a] > 0;
    }
    forall a, b | a in g && b in g && CompareTruthRecords(a, b) && CompareTruthRecords(b, a) ensures a == b {
      BareFields(a);
      BareFields(b);
      EqualFields(Bare(a), Bare(b));
    }
    hide CompareTruthRecords;
    OneSortedList(g, h);
  }

  lemma BareFields(a: TruthRecord)
    ensures Fields(Bare(a)) == Fields(a)
  {
  }

  /** Two views of the same records, given in any two orders, are one view: states,
      assertions and conflicts. */
  lemma OneView(r: seq<TruthRecord>, r': seq<TruthRecord>,
                t: map<nat, TruthState>, n: map<nat, seq<TruthRecord>>, k: seq<Conflict>,
                t': map<nat, TruthState>, n': map<nat, seq<TruthRecord>>, k': seq<Conflict>)
    requires multiset(r) == multiset(r')
    requires Applied(Elements(r), Classes(Elements(r)), t, n, k) && AllListed(r, Classes(Elements(r)), n)
    requires Applied(Elements(r'), Classes(Elements(r')), t', n', k') && AllListed(r', Classes(Elements(r')), n')
    ensures t == t' && n == n' && k == k'
  {
    hide Applied, AllListed, Classes, Elements;
    OneSet(r, r');
    ListedKeys(r, Classes(Elements(r)), n);
    ListedKeys(r', Classes(Elements(r')), n');
    OneOutcome(Elements(r), t, n, k, t', n', k');
    forall c | c in n ensures n[c] == n'[c] {
      OneList(r, r', t, n, k, t', n', k', c);
    }
  }

  lemma ListedKeys(r: seq<TruthRecord>, done: set<nat>, n: map<nat, seq<TruthRecord>>)
    requires AllListed(r, done, n)
    ensures n.Keys == done
  {
  }

  lemma OneSet(r: seq<TruthRecord>, r': seq<TruthRecord>)
    requires multiset(r) == multiset(r')
    ensures Elements(r) == Elements(r')
  {
    Sorting.SameElements(r, r');
  }

  lemma OneList(r: seq<TruthRecord>, r': seq<TruthRecord>,
                t: map<nat, TruthState>, n: map<nat, seq<TruthRecord>>, k: seq<Conflict>,
                t': map<nat, TruthState>, n': map<nat, seq<TruthRecord>>, k': seq<Conflict>, c: nat)
    requires multiset(r) == multiset(r') && Elements(r) == Elements(r') && c in Classes(Elements(r))
    requires Applied(Elements(r), Classes(Elements(r)), t, n, k) && AllListed(r, Classes(Elements(r)), n)
    requires Applied(Elements(r'), Classes(Elements(r')), t', n', k') && AllListed(r', Classes(Elements(r')), n')
    ensures c in n && c in n' && n[c] == n'[c]
  {
    assert Listed(r, c, n[c]) && Listed(r', c, n'[c]);
    assert Sorting.Sorted(n[c], CompareTruthRecords) && Sorting.Sorted(n'[c], CompareTruthRecords);
    hide Applied, AllListed, Classes, Sorting.Sorted, CompareTruthRecords;
    SameListed(r, r', c, n'[c]);
    OneAssertionList(r, c, n[c], n'[c]);
  }

  lemma SameListed(r: seq<TruthRecord>, r': seq<TruthRecord>, c: nat, g: seq<TruthRecord>)
    requires multiset(r) == multiset(r') && Elements(r) == Elements(r') && Listed(r', c, g)
    ensures Listed(r, c, g)
  {
    hide Elements, Mark;
  }

  lemma {:induction false} OneSortedList(g: seq<TruthRecord>, h: seq<TruthRecord>)
    requires Sorting.Sorted(g, CompareTruthRecords) && Sorting.Sorted(h, CompareTruthRecords) && multiset(g) == multiset(h)
    requires forall a, b :: a in g && b in g && CompareTruthRecords(a, b) && CompareTruthRecords(b, a) ==> a == b
    ensures g == h
    decreases |g|
  {
    hide CompareTruthRecords, Sorting.Sorted;
    Sorting.SameElements(g, h);
    if g != [] {
      SameFirst(g, h);
      Beheaded(g);
      Beheaded(h);
      TailSorted(g);
      TailSorted(h);
      OneSortedList(g[1..], h[1..]);
      assert g == [g[0]] + g[1..] && h == [h[0]] + h[1..];
    }
  }

  lemma SameFirst(g: seq<TruthRecord>, h: seq<TruthRecord>)
    requires Sorting.Sorted(g, CompareTruthRecords) && Sorting.Sorted(h, CompareTruthRecords) && multiset(g) == multiset(h)
    requires g != [] && h != []
    requires forall a, b :: a in g && b in g && CompareTruthRecords(a, b) && CompareTruthRecords(b, a) ==> a == b
    ensures g[0] == h[0]
  {
    Sorting.SameElements(g, h);
    hide CompareTruthRecords, Sorting.Sorted;
    assert g[0] in g && h[0] in h;
    LeastRecord(g, h[0]);
    LeastRecord(h, g[0]);
  }

  lemma TailSorted(g: seq<TruthRecord>)
    requires g != [] && Sorting.Sorted(g, CompareTruthRecords)
    ensures Sorting.Sorted(g[1..], CompareTruthRecords)
  {
    hide CompareTruthRecords;
  }

  lemma Beheaded(g: seq<TruthRecord>)
    requires g != []
    ensures multiset(g[1..]) == multiset(g) - multiset{g[0]}
  {
    assert g == [g[0]] + g[1..];
  }

  lemma LeastRecord(g: seq<TruthRecord>, r: TruthRecord)
    requires Sorting.Sorted(g, CompareTruthRecords) && r in g
    ensures CompareTruthRecords(g[0], r)
  {
    var i :| 0 <= i < |g| && g[i] == r;
    Sorting.LexLeqTotal(Fields(r), Fields(r));
    assert i == 0 || CompareTruthRecords(g[0], g[i]);
  }

  lemma {:induction false} AscendingConflicts(k: seq<Conflict>, k': seq<Conflict>)
    requires forall i, j :: 0 <= i < j < |k| ==> k[i].class_ < k[j].class_
    requires forall i, j :: 0 <= i < j < |k'| ==> k'[i].class_ < k'[j].class_
    requires forall x :: x in k <==> x in k'
    ensures k == k'
    decreases |k|
  {
    assert k != [] ==> k[0] in k;
    assert k' != [] ==> k'[0] in k';
    if k != [] {
      FirstConflict(k, k'[0]);
      FirstConflict(k', k[0]);
      TailConflicts(k);
      TailConflicts(k');
      AscendingConflicts(k[1..], k'[1..]);
      assert k == [k[0]] + k[1..] && k' == [k'[0]] + k'[1..];
    }
  }

  lemma FirstConflict(k: seq<Conflict>, x: Conflict)
    requires x in k && forall i, j :: 0 <= i < j < |k| ==> k[i].class_ < k[j].class_
    ensures k[0].class_ <= x.class_ && (k[0].class_ == x.class_ ==> k[0] == x)
  {
    var i :| 0 <= i < |k| && k[i] == x;
    assert i == 0 || k[0].class_ < k[i].class_;
  }

  lemma TailConflicts(k: seq<Conflict>)
    requires k != [] && forall i, j :: 0 <= i < j < |k| ==> k[i].class_ < k[j].class_
    ensures forall x :: x in k[1..] <==> x in k && x != k[0]
  {
    forall x ensures x in k[1..] <==> x in k && x != k[0] {
      if x in k && x != k[0] {
        var i :| 0 <= i < |k| && k[i] == x;
        assert k[1..][i - 1] == x;
      }
    }
  }
}
