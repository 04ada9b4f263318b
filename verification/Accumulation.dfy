/** Layer 2: the graph of entities that validated blocks create, with who published each,
    and five sorted indexes over it. The graph is a function of the set of blocks
    ingested: order and repetition leave no trace, and nothing is ever lost. */
module Accumulation {
  import opened Graphs

  datatype Kind = AtomKind | BondKind | MoleculeKind

  /** An entity an operation creates. Digests and keys compare bytewise, as numbers. */
  datatype Creation = Creation(digest: nat, kind: Kind)

  datatype Record = Record(author: nat, block: nat)

  datatype Entity = Entity(kind: Kind, authors: seq<Record>)

  /** A validated block: its digest, its author, what it creates, and the digest of the
      payload it was opened to (zero for one in the clear). */
  datatype Published = Published(block: nat, author: nat, created: seq<Creation>, payload: nat)

  function At<K>(index: map<K, seq<nat>>, k: K): seq<nat> { if k in index then index[k] else [] }

  // ---- authorship lists ---------------------------------------------------------------

  predicate RecordLess(a: Record, b: Record) { a.author < b.author || (a.author == b.author && a.block < b.block) }

  predicate RecordsAscend(s: seq<Record>) { forall i, j :: 0 <= i < j < |s| ==> RecordLess(s[i], s[j]) }

  /** Inserts a tag into an ascending list, once. */
  function InsertRecord(s: seq<Record>, r: Record): (t: seq<Record>)
    requires RecordsAscend(s)
    ensures RecordsAscend(t) && forall x :: x in t <==> x in s || x == r
    decreases |s|
  {
    if s == [] then [r]
    else if s[|s| - 1] == r then s
    else if RecordLess(s[|s| - 1], r) then s + [r]
    else
      var front := InsertRecord(s[..|s| - 1], r);
      RecordsBelow(s, r, front);
      front + [s[|s| - 1]]
  }

  lemma RecordsBelow(s: seq<Record>, r: Record, front: seq<Record>)
    requires s != [] && RecordsAscend(s) && RecordsAscend(front) && s[|s| - 1] != r && !RecordLess(s[|s| - 1], r)
    requires forall x :: x in front <==> x in s[..|s| - 1] || x == r
    ensures RecordsAscend(front + [s[|s| - 1]]) && forall x :: x in front + [s[|s| - 1]] <==> x in s || x == r
  {
    var n := |s| - 1;
    assert s == s[..n] + [s[n]];
    forall i | 0 <= i < |front| ensures RecordLess(front[i], s[n]) {
      assert front[i] in front;
      if front[i] != r {
        var k :| 0 <= k < n && s[k] == front[i];
      }
    }
  }

  // ---- what the graph is --------------------------------------------------------------

  predicate Makes(p: Published, d: nat) { exists c :: c in p.created && c.digest == d }

  ghost predicate Created(s: set<Published>, d: nat) { exists p :: p in s && Makes(p, d) }

  /** One of the blocks that create an entity carries this tag. */
  ghost predicate Tagged(s: set<Published>, d: nat, r: Record) {
    exists p :: p in s && Makes(p, d) && r == Record(p.author, p.block)
  }

  /** The entities are those the blocks create, each at the kind it is created at and
      tagged with every block that creates it, and with no other. */
  ghost predicate EntitiesAre(entities: map<nat, Entity>, s: set<Published>) {
    && (forall d :: d in entities <==> Created(s, d))
    && (forall p, c :: p in s && c in p.created ==> c.digest in entities && entities[c.digest].kind == c.kind)
    && (forall d :: d in entities ==> RecordsAscend(entities[d].authors))
    && (forall d, r :: d in entities ==> (r in entities[d].authors <==> Tagged(s, d, r)))
  }

  ghost predicate BlocksAre(blocks: map<nat, nat>, blockOrder: seq<nat>, s: set<Published>) {
    && Ascending(blockOrder) && (forall d :: d in blockOrder <==> d in blocks)
    && (forall d :: d in blocks <==> exists p :: p in s && p.block == d)
    && (forall p :: p in s ==> p.block in blocks && blocks[p.block] == p.payload)
  }

  predicate HasAuthor(e: Entity, a: nat) { exists r :: r in e.authors && r.author == a }

  /** The indexes agree with the entity map, ascending and without duplicates. */
  ghost predicate Indexed(entities: map<nat, Entity>, order: seq<nat>, byKind: map<Kind, seq<nat>>,
                          byAuthor: map<nat, seq<nat>>, authors: seq<nat>)
  {
    && Ascending(order) && (forall d :: d in order <==> d in entities)
    && (forall k :: Ascending(At(byKind, k)))
    && (forall k, d :: d in At(byKind, k) <==> d in entities && entities[d].kind == k)
    && (forall a :: Ascending(At(byAuthor, a)))
    && (forall a, d :: d in At(byAuthor, a) <==> d in entities && HasAuthor(entities[d], a))
    && Ascending(authors) && (forall a :: a in authors <==> At(byAuthor, a) != [])
  }

  // ---- adding one entity --------------------------------------------------------------

  /** The entity map with one more creation tagged. */
  function Tag(entities: map<nat, Entity>, c: Creation, r: Record): map<nat, Entity>
    requires c.digest in entities ==> RecordsAscend(entities[c.digest].authors)
  {
    entities[c.digest := if c.digest in entities
                         then Entity(entities[c.digest].kind, InsertRecord(entities[c.digest].authors, r))
                         else Entity(c.kind, [r])]
  }

  lemma AuthorAdded(e: Entity, r: Record, a: nat)
    requires RecordsAscend(e.authors)
    ensures HasAuthor(Entity(e.kind, InsertRecord(e.authors, r)), a) <==> HasAuthor(e, a) || r.author == a
    ensures HasAuthor(Entity(e.kind, [r]), a) <==> r.author == a
  {
    var more := Entity(e.kind, InsertRecord(e.authors, r));
    assert r in more.authors && r in Entity(e.kind, [r]).authors;
    if HasAuthor(e, a) {
      var x :| x in e.authors && x.author == a;
      assert x in more.authors;
    }
  }

  lemma TagKeepsIndexes(entities: map<nat, Entity>, order: seq<nat>, byKind: map<Kind, seq<nat>>,
                        byAuthor: map<nat, seq<nat>>, authors: seq<nat>, c: Creation, r: Record)
    requires Indexed(entities, order, byKind, byAuthor, authors)
    requires c.digest in entities ==> RecordsAscend(entities[c.digest].authors)
    ensures var isNew := c.digest !in entities;
      Indexed(Tag(entities, c, r),
              if isNew then InsertDigest(order, c.digest) else order,
              if isNew then byKind[c.kind := InsertDigest(At(byKind, c.kind), c.digest)] else byKind,
              byAuthor[r.author := InsertDigest(At(byAuthor, r.author), c.digest)],
              InsertDigest(authors, r.author))
  {
    hide Ascending, RecordsAscend, InsertDigest, InsertRecord;
    var d := c.digest;
    var now := Tag(entities, c, r);
    var kinds := if d !in entities then byKind[c.kind := InsertDigest(At(byKind, c.kind), d)] else byKind;
    var signed := byAuthor[r.author := InsertDigest(At(byAuthor, r.author), d)];
    forall k ensures Ascending(At(kinds, k)) {
      assert Ascending(At(byKind, k));
    }
    forall k, x ensures x in At(kinds, k) <==> x in now && now[x].kind == k {
      assert x in At(byKind, k) <==> x in entities && entities[x].kind == k;
    }
    forall a ensures Ascending(At(signed, a)) {
      assert Ascending(At(byAuthor, a));
    }
    forall a, x ensures x in At(signed, a) <==> x in now && HasAuthor(now[x], a) {
      assert x in At(byAuthor, a) <==> x in entities && HasAuthor(entities[x], a);
      if x == d { AuthorAdded(if d in entities then entities[d] else Entity(c.kind, []), r, a); }
    }
    forall a ensures a in InsertDigest(authors, r.author) <==> At(signed, a) != [] {
      assert a in authors <==> At(byAuthor, a) != [];
      assert d in At(signed, r.author);
    }
  }

  /** One more creation of a block under way: the entities are those of the blocks so
      far and of the block cut short after it. */
  lemma TagGrows(entities: map<nat, Entity>, s: set<Published>, p: Published, i: nat)
    requires i < |p.created| && EntitiesAre(entities, s + {Cut(p, i)})
    requires p.created[i].digest in entities ==> entities[p.created[i].digest].kind == p.created[i].kind
    ensures EntitiesAre(Tag(entities, p.created[i], Record(p.author, p.block)), s + {Cut(p, i + 1)})
  {
    var c, r := p.created[i], Record(p.author, p.block);
    var now, before, after := Tag(entities, c, r), s + {Cut(p, i)}, s + {Cut(p, i + 1)};
    forall d ensures Created(after, d) <==> Created(before, d) || d == c.digest { CutMakes(s, p, i, d, r); }
    forall d, x ensures Tagged(after, d, x) <==> Tagged(before, d, x) || (d == c.digest && x == r) { CutMakes(s, p, i, d, x); }
    hide Created, Tagged, InsertRecord, RecordsAscend;
    forall q, b | q in after && b in q.created ensures b.digest in now && now[b.digest].kind == b.kind {
      CutCreates(s, p, i, q, b);
    }
    SingleAscends(r);
    forall d | d in now ensures RecordsAscend(now[d].authors) {
      if d in entities { assert RecordsAscend(entities[d].authors); }
    }
    forall d, x | d in now ensures x in now[d].authors <==> Tagged(after, d, x) {
      if d in entities {
        assert x in entities[d].authors <==> Tagged(before, d, x);
      } else {
        NeverTagged(before, d, x);
      }
    }
  }

  lemma SingleAscends(r: Record)
    ensures RecordsAscend([r])
  {
  }

  lemma NeverTagged(s: set<Published>, d: nat, r: Record)
    requires !Created(s, d)
    ensures !Tagged(s, d, r)
  {
  }

  function Cut(p: Published, i: nat): Published
    requires i <= |p.created|
  {
    p.(created := p.created[..i])
  }

  lemma CutMakes(s: set<Published>, p: Published, i: nat, d: nat, r: Record)
    requires i < |p.created|
    ensures Created(s + {Cut(p, i + 1)}, d) <==> Created(s + {Cut(p, i)}, d) || d == p.created[i].digest
    ensures Tagged(s + {Cut(p, i + 1)}, d, r) <==>
              Tagged(s + {Cut(p, i)}, d, r) || (d == p.created[i].digest && r == Record(p.author, p.block))
  {
    var a, b := Cut(p, i), Cut(p, i + 1);
    assert b.created == a.created + [p.created[i]];
    assert Makes(b, d) <==> Makes(a, d) || d == p.created[i].digest by {
      if Makes(a, d) {
        var c :| c in a.created && c.digest == d;
        assert c in b.created;
      }
      assert p.created[i] in b.created;
    }
    hide Makes;
    assert forall q :: q in s + {b} <==> q in s || q == b;
    assert forall q :: q in s + {a} <==> q in s || q == a;
    if Created(s + {b}, d) {
      var q :| q in s + {b} && Makes(q, d);
      if q == b && Makes(a, d) { assert a in s + {a}; } else if q in s { assert q in s + {a}; }
    }
    if Created(s + {a}, d) {
      var q :| q in s + {a} && Makes(q, d);
      if q == a { assert b in s + {b}; } else { assert q in s + {b}; }
    }
    if Tagged(s + {b}, d, r) {
      var q :| q in s + {b} && Makes(q, d) && r == Record(q.author, q.block);
      if q == b && Makes(a, d) { assert a in s + {a}; } else if q in s { assert q in s + {a}; }
    }
    if Tagged(s + {a}, d, r) {
      var q :| q in s + {a} && Makes(q, d) && r == Record(q.author, q.block);
      if q == a { assert b in s + {b}; } else { assert q in s + {b}; }
    }
    assert d == p.created[i].digest ==> b in s + {b} && Makes(b, d);
  }

  lemma CutCreates(s: set<Published>, p: Published, i: nat, q: Published, c: Creation)
    requires i < |p.created| && q in s + {Cut(p, i + 1)} && c in q.created
    ensures c == p.created[i] || (exists x :: x in s + {Cut(p, i)} && c in x.created)
  {
    if q == Cut(p, i + 1) {
      assert q.created == Cut(p, i).created + [p.created[i]];
      if c in Cut(p, i).created { assert Cut(p, i) in s + {Cut(p, i)}; }
    } else {
      assert q in s + {Cut(p, i)};
    }
  }

  // ---- the graph ----------------------------------------------------------------------

  /** A digest covers the kind of the entity it names. */
  ghost predicate Coherent(p: Published) {
    forall c, e :: c in p.created && e in p.created && c.digest == e.digest ==> c.kind == e.kind
  }

  /** Whether a graph takes a block: it holds it already with this payload, or none of its
      creations contradicts a kind on record. */
  ghost predicate Takes(entities: map<nat, Entity>, blocks: map<nat, nat>, p: Published) {
    if p.block in blocks then blocks[p.block] == p.payload
    else forall c :: c in p.created && c.digest in entities ==> entities[c.digest].kind == c.kind
  }

  /** No entity and no authorship is lost, and no kind changes. */
  ghost predicate OnlyGrows(before: map<nat, Entity>, after: map<nat, Entity>) {
    forall d :: d in before ==>
      d in after && after[d].kind == before[d].kind && forall r :: r in before[d].authors ==> r in after[d].authors
  }

  /** Tags are listed by author, and by block within an author; every other list rises. */
  ghost predicate ListsRise(entities: map<nat, Entity>, order: seq<nat>, byKind: map<Kind, seq<nat>>, byAuthor: map<nat, seq<nat>>,
                            authors: seq<nat>, blockOrder: seq<nat>) {
    && (forall d, i, j :: d in entities && 0 <= i < j < |entities[d].authors| ==>
          var a, b := entities[d].authors[i], entities[d].authors[j];
          a.author < b.author || (a.author == b.author && a.block < b.block))
    && (forall i, j :: 0 <= i < j < |order| ==> order[i] < order[j])
    && (forall k, i, j :: k in byKind && 0 <= i < j < |byKind[k]| ==> byKind[k][i] < byKind[k][j])
    && (forall a, i, j :: a in byAuthor && 0 <= i < j < |byAuthor[a]| ==> byAuthor[a][i] < byAuthor[a][j])
    && (forall i, j :: 0 <= i < j < |authors| ==> authors[i] < authors[j])
    && (forall i, j :: 0 <= i < j < |blockOrder| ==> blockOrder[i] < blockOrder[j])
  }

  lemma ValidRises(entities: map<nat, Entity>, order: seq<nat>, byKind: map<Kind, seq<nat>>, byAuthor: map<nat, seq<nat>>,
                   authors: seq<nat>, blocks: map<nat, nat>, blockOrder: seq<nat>, s: set<Published>)
    requires EntitiesAre(entities, s) && BlocksAre(blocks, blockOrder, s) && Indexed(entities, order, byKind, byAuthor, authors)
    ensures ListsRise(entities, order, byKind, byAuthor, authors, blockOrder)
  {
    hide Created, Tagged, HasAuthor;
    forall k | k in byKind ensures Ascending(byKind[k]) { assert Ascending(At(byKind, k)); }
    forall a | a in byAuthor ensures Ascending(byAuthor[a]) { assert Ascending(At(byAuthor, a)); }
  }

  class Graph {
    var entities: map<nat, Entity>
    var order: seq<nat>
    var byKind: map<Kind, seq<nat>>
    var byAuthor: map<nat, seq<nat>>
    var authors: seq<nat>
    var blocks: map<nat, nat>
    var blockOrder: seq<nat>
    ghost var ingested: set<Published>

    ghost predicate Valid()
      reads this
    {
      && EntitiesAre(entities, ingested)
      && BlocksAre(blocks, blockOrder, ingested)
      && Indexed(entities, order, byKind, byAuthor, authors)
    }

    constructor ()
      ensures Valid() && ingested == {}
    {
      entities, order, byKind, byAuthor, authors, blocks, blockOrder := map[], [], map[], map[], [], map[], [];
      ingested := {};
    }

    /** Stores one entity and its tag; the caller has checked its kind. */
    method Add(c: Creation, tag: Record)
      requires Indexed(entities, order, byKind, byAuthor, authors)
      requires c.digest in entities ==> RecordsAscend(entities[c.digest].authors)
      modifies this`entities, this`order, this`byKind, this`byAuthor, this`authors
      ensures entities == Tag(old(entities), c, tag)
      ensures Indexed(entities, order, byKind, byAuthor, authors)
    {
      TagKeepsIndexes(entities, order, byKind, byAuthor, authors, c, tag);
      assert Tag(entities, c, tag) ==
             if c.digest !in entities then entities[c.digest := Entity(c.kind, [tag])]
             else entities[c.digest := Entity(entities[c.digest].kind, InsertRecord(entities[c.digest].authors, tag))];
      hide RecordsAscend, InsertDigest, InsertRecord, Indexed, Tag, At, Ascending;
      if c.digest !in entities {
        entities := entities[c.digest := Entity(c.kind, [tag])];
        order := InsertDigest(order, c.digest);
        byKind := byKind[c.kind := InsertDigest(At(byKind, c.kind), c.digest)];
      } else {
        var e := entities[c.digest];
        entities := entities[c.digest := Entity(e.kind, InsertRecord(e.authors, tag))];
      }
      authors := InsertDigest(authors, tag.author);
      byAuthor := byAuthor[tag.author := InsertDigest(At(byAuthor, tag.author), c.digest)];
    }

    /** Accumulates a block's entities; a refused block leaves the graph as it was. */
    method Ingest(p: Published) returns (ok: bool)
      requires Valid() && Coherent(p)
      modifies this
      ensures Valid() && (ok <==> Takes(old(entities), old(blocks), p))
      ensures ingested == if ok && p.block !in old(blocks) then old(ingested) + {p} else old(ingested)
      ensures !ok || p.block in old(blocks) ==>
                && entities == old(entities) && order == old(order) && byKind == old(byKind) && byAuthor == old(byAuthor)
                && authors == old(authors) && blocks == old(blocks) && blockOrder == old(blockOrder)
      ensures OnlyGrows(old(entities), entities)
      ensures ListsRise(entities, order, byKind, byAuthor, authors, blockOrder)
    {
      ValidRises(entities, order, byKind, byAuthor, authors, blocks, blockOrder, ingested);
      if p.block in blocks {
        return blocks[p.block] == p.payload;
      }
      hide EntitiesAre, BlocksAre, Indexed, OnlyGrows, InsertDigest, ListsRise;
      GrowsNone(entities);
      ok := NoClash(p);
      if !ok {
        return;
      }
      AddAll(p);
      BlockAdded(blocks, blockOrder, ingested, p);
      blocks := blocks[p.block := p.payload];
      blockOrder := InsertDigest(blockOrder, p.block);
      ingested := ingested + {p};
      ValidRises(entities, order, byKind, byAuthor, authors, blocks, blockOrder, ingested);
    }

    /** Whether nothing the block creates is held at another kind. */
    method NoClash(p: Published) returns (ok: bool)
      ensures ok <==> forall c :: c in p.created && c.digest in entities ==> entities[c.digest].kind == c.kind
    {
      for i := 0 to |p.created|
        invariant forall k :: 0 <= k < i && p.created[k].digest in entities ==> entities[p.created[k].digest].kind == p.created[k].kind
      {
        var c := p.created[i];
        if c.digest in entities && entities[c.digest].kind != c.kind {
          assert c in p.created;
          return false;
        }
      }
      ok := true;
    }

    /** Stores every entity of a block that has been checked. */
    method AddAll(p: Published)
      requires Coherent(p) && EntitiesAre(entities, ingested) && Indexed(entities, order, byKind, byAuthor, authors)
      requires forall c :: c in p.created && c.digest in entities ==> entities[c.digest].kind == c.kind
      modifies this`entities, this`order, this`byKind, this`byAuthor, this`authors
      ensures EntitiesAre(entities, ingested + {p}) && Indexed(entities, order, byKind, byAuthor, authors)
      ensures OnlyGrows(old(entities), entities)
    {
      hide EntitiesAre, Indexed, RecordsAscend, OnlyGrows, Midway, Tag, Coherent;
      ghost var before := entities;
      MidStart(entities, ingested, p);
      for i := 0 to |p.created|
        invariant Midway(before, entities, ingested, p, i)
        invariant Indexed(entities, order, byKind, byAuthor, authors)
      {
        MidStep(before, entities, ingested, p, i);
        Add(p.created[i], Record(p.author, p.block));
      }
      MidEnd(before, entities, ingested, p);
    }

    /** Blocks that agree with one another are all taken, in any order and any number of
        times, and leave the graph of their set. */
    method IngestAll(list: seq<Published>)
      requires Valid() && ingested == {} && Agree(list)
      modifies this
      ensures Valid() && ingested == set p | p in list
    {
      hide EntitiesAre, BlocksAre, Indexed;
      for i := 0 to |list|
        invariant Valid() && ingested == set p | p in list[..i]
      {
        assert list[..i + 1] == list[..i] + [list[i]];
        AgreeTakes(entities, blocks, blockOrder, ingested, list, i);
        ghost var known := list[i].block in blocks;
        var ok := Ingest(list[i]);
        assert ok;
      }
      assert list[..|list|] == list;
    }
  }

  lemma CutNone(entities: map<nat, Entity>, s: set<Published>, p: Published)
    requires EntitiesAre(entities, s)
    ensures EntitiesAre(entities, s + {Cut(p, 0)})
  {
    var q := Cut(p, 0);
    forall d ensures Created(s + {q}, d) <==> Created(s, d) {
      assert !Makes(q, d);
      if Created(s, d) {
        var x :| x in s && Makes(x, d);
        assert x in s + {q};
      }
    }
    forall d, r ensures Tagged(s + {q}, d, r) <==> Tagged(s, d, r) {
      assert !Makes(q, d);
      if Tagged(s, d, r) {
        var x :| x in s && Makes(x, d) && r == Record(x.author, x.block);
        assert x in s + {q};
      }
    }
    hide Created, Tagged, RecordsAscend;
  }

  /** The first i creations of a block are stored, on top of what was there before. */
  ghost predicate Midway(before: map<nat, Entity>, entities: map<nat, Entity>, s: set<Published>, p: Published, i: nat)
    requires i <= |p.created|
  {
    && Coherent(p)
    && EntitiesAre(entities, s + {Cut(p, i)})
    && OnlyGrows(before, entities)
    && (forall k :: 0 <= k < |p.created| && p.created[k].digest in before ==> before[p.created[k].digest].kind == p.created[k].kind)
    && (forall d :: d in entities && d !in before ==> NewFrom(entities, p, d))
  }

  predicate NewFrom(entities: map<nat, Entity>, p: Published, d: nat)
    requires d in entities
  {
    exists c :: c in p.created && c.digest == d && entities[d].kind == c.kind
  }

  lemma MidStart(entities: map<nat, Entity>, s: set<Published>, p: Published)
    requires EntitiesAre(entities, s) && Coherent(p)
    requires forall k :: 0 <= k < |p.created| && p.created[k].digest in entities ==> entities[p.created[k].digest].kind == p.created[k].kind
    ensures Midway(entities, entities, s, p, 0)
  {
    CutNone(entities, s, p);
    hide EntitiesAre, Coherent;
  }

  lemma MidStep(before: map<nat, Entity>, entities: map<nat, Entity>, s: set<Published>, p: Published, i: nat)
    requires i < |p.created| && Midway(before, entities, s, p, i)
    ensures p.created[i].digest in entities ==> RecordsAscend(entities[p.created[i].digest].authors)
    ensures Midway(before, Tag(entities, p.created[i], Record(p.author, p.block)), s, p, i + 1)
  {
    KindFits(before, entities, p, i);
    AuthorsAscend(entities, s + {Cut(p, i)}, p.created[i].digest);
    TagGrows(entities, s, p, i);
    hide EntitiesAre, Coherent;
    TagOnlyGrows(before, entities, p, i);
  }

  lemma MidEnd(before: map<nat, Entity>, entities: map<nat, Entity>, s: set<Published>, p: Published)
    requires Midway(before, entities, s, p, |p.created|)
    ensures EntitiesAre(entities, s + {p}) && OnlyGrows(before, entities)
  {
    hide EntitiesAre, Coherent, OnlyGrows;
    assert Cut(p, |p.created|) == p;
  }

  lemma GrowsNone(entities: map<nat, Entity>)
    ensures OnlyGrows(entities, entities)
  {
  }

  lemma AuthorsAscend(entities: map<nat, Entity>, s: set<Published>, d: nat)
    requires EntitiesAre(entities, s)
    ensures d in entities ==> RecordsAscend(entities[d].authors)
  {
  }

  lemma KindFits(before: map<nat, Entity>, entities: map<nat, Entity>, p: Published, i: nat)
    requires i < |p.created| && Coherent(p) && OnlyGrows(before, entities)
    requires forall k :: 0 <= k < |p.created| && p.created[k].digest in before ==> before[p.created[k].digest].kind == p.created[k].kind
    requires forall d :: d in entities && d !in before ==> NewFrom(entities, p, d)
    ensures p.created[i].digest in entities ==> entities[p.created[i].digest].kind == p.created[i].kind
  {
    var c := p.created[i];
    assert c in p.created;
  }

  lemma TagOnlyGrows(before: map<nat, Entity>, entities: map<nat, Entity>, p: Published, i: nat)
    requires i < |p.created| && OnlyGrows(before, entities)
    requires forall d :: d in entities && d !in before ==> NewFrom(entities, p, d)
    requires p.created[i].digest in entities ==> RecordsAscend(entities[p.created[i].digest].authors)
    ensures var now := Tag(entities, p.created[i], Record(p.author, p.block));
      && OnlyGrows(before, now)
      && forall d :: d in now && d !in before ==> NewFrom(now, p, d)
  {
    hide RecordsAscend;
    var c := p.created[i];
    assert c in p.created;
    var now := Tag(entities, c, Record(p.author, p.block));
    forall d | d in now && d !in before ensures NewFrom(now, p, d) {
      if d !in entities {
        assert d == c.digest && now[d].kind == c.kind;
      } else {
        assert NewFrom(entities, p, d);
      }
    }
  }

  lemma BlockAdded(blocks: map<nat, nat>, blockOrder: seq<nat>, s: set<Published>, p: Published)
    requires BlocksAre(blocks, blockOrder, s) && p.block !in blocks
    ensures BlocksAre(blocks[p.block := p.payload], InsertDigest(blockOrder, p.block), s + {p})
  {
    hide Ascending, InsertDigest;
    var now := blocks[p.block := p.payload];
    forall d ensures d in now <==> exists q :: q in s + {p} && q.block == d {
      if d in blocks {
        var q :| q in s && q.block == d;
        assert q in s + {p};
      }
      assert p in s + {p};
    }
  }

  /** The blocks come from one content-addressed world: a digest names one block, and an
      entity's digest one kind. */
  ghost predicate Agree(list: seq<Published>) {
    && (forall p, q :: p in list && q in list && p.block == q.block ==> p == q)
    && (forall p, q, c, e :: p in list && q in list && c in p.created && e in q.created && c.digest == e.digest ==> c.kind == e.kind)
  }

  lemma AgreeTakes(entities: map<nat, Entity>, blocks: map<nat, nat>, blockOrder: seq<nat>, s: set<Published>, list: seq<Published>, i: nat)
    requires i < |list| && Agree(list) && s == set p | p in list[..i]
    requires EntitiesAre(entities, s) && BlocksAre(blocks, blockOrder, s)
    ensures Coherent(list[i]) && Takes(entities, blocks, list[i])
    ensures list[i].block in blocks ==> list[i] in s
  {
    var p := list[i];
    assert p in list;
    forall q | q in s ensures q in list { assert q in list[..i]; }
    if p.block in blocks {
      hide EntitiesAre, Ascending;
      var q :| q in s && q.block == p.block;
    } else {
      hide BlocksAre;
      forall c | c in p.created && c.digest in entities ensures entities[c.digest].kind == c.kind {
        KindKnown(entities, s, list, p, c);
      }
    }
  }

  lemma KindKnown(entities: map<nat, Entity>, s: set<Published>, list: seq<Published>, p: Published, c: Creation)
    requires Agree(list) && p in list && c in p.created && (forall q :: q in s ==> q in list)
    requires EntitiesAre(entities, s) && c.digest in entities
    ensures entities[c.digest].kind == c.kind
  {
    hide RecordsAscend, Tagged;
    assert Created(s, c.digest);
    var q :| q in s && Makes(q, c.digest);
    var e :| e in q.created && e.digest == c.digest;
    assert entities[e.digest].kind == e.kind;
  }

  // ---- one graph per set of blocks ----------------------------------------------------

  lemma {:induction false} OneRecordList(s: seq<Record>, t: seq<Record>)
    requires RecordsAscend(s) && RecordsAscend(t) && forall x :: x in s <==> x in t
    ensures s == t
    decreases |s|
  {
    assert s != [] ==> s[|s| - 1] in s;
    assert t != [] ==> t[|t| - 1] in t;
    if s != [] {
      LastRecord(s, t[|t| - 1]);
      LastRecord(t, s[|s| - 1]);
      assert s[|s| - 1] == t[|t| - 1];
      FrontRecords(s);
      FrontRecords(t);
      var u, v := s[..|s| - 1], t[..|t| - 1];
      forall x ensures x in u <==> x in v {
        assert x in u <==> x in s && x != s[|s| - 1];
      }
      OneRecordList(s[..|s| - 1], t[..|t| - 1]);
      assert s == s[..|s| - 1] + [s[|s| - 1]] && t == t[..|t| - 1] + [t[|t| - 1]];
    }
  }

  lemma LastRecord(s: seq<Record>, x: Record)
    requires RecordsAscend(s) && x in s
    ensures x == s[|s| - 1] || RecordLess(x, s[|s| - 1])
  {
  }

  lemma FrontRecords(s: seq<Record>)
    requires s != [] && RecordsAscend(s)
    ensures forall x :: x in s[..|s| - 1] <==> x in s && x != s[|s| - 1]
  {
    var n := |s| - 1;
    assert s == s[..n] + [s[n]];
  }

  lemma OneEntityMap(e: map<nat, Entity>, f: map<nat, Entity>, s: set<Published>)
    requires EntitiesAre(e, s) && EntitiesAre(f, s)
    ensures e == f
  {
    hide RecordsAscend, Tagged;
    forall d ensures d in e <==> d in f {
      assert d in e <==> Created(s, d);
    }
    forall d | d in e ensures e[d] == f[d] {
      assert Created(s, d);
      var p :| p in s && Makes(p, d);
      var c :| c in p.created && c.digest == d;
      assert e[d].kind == c.kind == f[d].kind;
      forall r ensures r in e[d].authors <==> r in f[d].authors {
        assert r in e[d].authors <==> Tagged(s, d, r);
      }
      OneRecordList(e[d].authors, f[d].authors);
    }
  }

  /** Everything the graph shows is determined by the set of blocks ingested. */
  lemma OneGraph(g: Graph, h: Graph)
    requires g.Valid() && h.Valid() && g.ingested == h.ingested
    ensures g.entities == h.entities && g.blocks == h.blocks
    ensures g.order == h.order && g.authors == h.authors && g.blockOrder == h.blockOrder
    ensures forall k :: At(g.byKind, k) == At(h.byKind, k)
    ensures forall a :: At(g.byAuthor, a) == At(h.byAuthor, a)
  {
    OneEntityMap(g.entities, h.entities, g.ingested);
    OneBlockMap(g.blocks, g.blockOrder, h.blocks, h.blockOrder, g.ingested);
    hide EntitiesAre, BlocksAre, Indexed;
    OneIndex(g.entities, g.order, g.byKind, g.byAuthor, g.authors, h.order, h.byKind, h.byAuthor, h.authors);
  }

  lemma OneIndex(entities: map<nat, Entity>, o: seq<nat>, k: map<Kind, seq<nat>>, b: map<nat, seq<nat>>, a: seq<nat>,
                 o': seq<nat>, k': map<Kind, seq<nat>>, b': map<nat, seq<nat>>, a': seq<nat>)
    requires Indexed(entities, o, k, b, a) && Indexed(entities, o', k', b', a')
    ensures o == o' && a == a' && (forall x :: At(k, x) == At(k', x)) && (forall x :: At(b, x) == At(b', x))
  {
    hide Ascending, HasAuthor, At;
    OneAscendingList(o, o');
    forall x ensures At(k, x) == At(k', x) {
      forall d ensures d in At(k, x) <==> d in At(k', x) { assert d in At(k, x) <==> d in entities && entities[d].kind == x; }
      assert Ascending(At(k, x)) && Ascending(At(k', x));
      OneAscendingList(At(k, x), At(k', x));
    }
    forall x ensures At(b, x) == At(b', x) {
      forall d ensures d in At(b, x) <==> d in At(b', x) { assert d in At(b, x) <==> d in entities && HasAuthor(entities[d], x); }
      assert Ascending(At(b, x)) && Ascending(At(b', x));
      OneAscendingList(At(b, x), At(b', x));
    }
    forall x ensures x in a <==> x in a' { assert x in a <==> At(b, x) != []; }
    OneAscendingList(a, a');
  }

  lemma OneBlockMap(b: map<nat, nat>, o: seq<nat>, c: map<nat, nat>, q: seq<nat>, s: set<Published>)
    requires BlocksAre(b, o, s) && BlocksAre(c, q, s)
    ensures b == c && o == q
  {
    hide Ascending;
    forall d | d in b ensures d in c && b[d] == c[d] {
      var p :| p in s && p.block == d;
    }
    forall d | d in c ensures d in b {
      var p :| p in s && p.block == d;
    }
    OneAscendingList(o, q);
  }
}
