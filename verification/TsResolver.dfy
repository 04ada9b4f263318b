/** The TypeScript resolver: ancestors loaded all at once, the refs graph
    de-duplicated when a digest is queued rather than when it is read, one gap for
    both directions. It answers exactly as the Go resolver does. */
module TsResolver {
  import opened Blocks
  import opened Options
  import opened Search
  import opened Sorting
  import GoResolver

  /** TypeScript validation has no decrypter. */
  const NoKeys: Keyring := {}

  // ---- de-duplicating early or late is the same order -------------------------

  /** A digest already read or already queued may be left out of the queue. */
  lemma {:induction false} RepeatIsIdle(s: Blocks, keys: Keyring, read: seq<Digest>, a: seq<Digest>, d: Digest, b: seq<Digest>)
    requires d in read || d in a
    ensures Sweep(s, keys, read, a + [d] + b) == Sweep(s, keys, read, a + b)
    decreases Unread(s, read), |a|
  {
    hide Unread, Out;
    if a == [] {
      assert a + [d] + b == [d] + b && a + b == b;
      assert ([d] + b)[1..] == b;
    } else {
      var h := a[0];
      assert (a + [d] + b)[1..] == a[1..] + [d] + b && (a + b)[1..] == a[1..] + b;
      if h in read {
        RepeatIsIdle(s, keys, read, a[1..], d, b);
      } else {
        var next, out := read + [h], Out(s, keys, h);
        assert a[1..] + [d] + b + out == a[1..] + [d] + (b + out) && a[1..] + b + out == a[1..] + (b + out);
        QueueShrinksOrReads(s, keys, read, a, h);
        RepeatIsIdle(s, keys, next, a[1..], d, b + out);
      }
    }
  }

  lemma QueueShrinksOrReads(s: Blocks, keys: Keyring, read: seq<Digest>, a: seq<Digest>, h: Digest)
    requires h !in read && a != [] && h == a[0]
    ensures Unread(s, read + [h]) < Unread(s, read) || (Unread(s, read + [h]) == Unread(s, read) && |a[1..]| < |a|)
  {
    UnreadAppend(s, read, h);
  }

  /** What is queued is new: neither read nor queued before. */
  lemma NextIsNew(read: seq<Digest>, queue: seq<Digest>)
    requires NoRepeats(read + queue) && queue != []
    ensures queue[0] !in read && NoRepeats(read + [queue[0]] + queue[1..])
  {
    var all := read + queue;
    assert read + [queue[0]] + queue[1..] == all;
    forall i | 0 <= i < |read| ensures read[i] != queue[0] { assert all[i] == read[i] && all[|read|] == queue[0]; }
  }

  lemma PrevIsBelow(s: Blocks, d: Digest)
    requires Sound(s) && d in s
    ensures s[d].prev.Some? ==> s[d].prev.value < d
  {
  }

  lemma StartsAt(s: Blocks, limit: nat, q: Query, queue: seq<Digest>)
    requires Sound(s) && Sweep(s, NoKeys, [], queue) == Order(s, NoKeys, q.roots)
    ensures var p := GoResolver.Progress([], q.prev, None, [], queue, 0, None, None);
      GoResolver.At(s, NoKeys, limit, q, p) && GoResolver.Known(s, NoKeys, {}, p) == {}
  {
  }

  // ---- the resolver -----------------------------------------------------------

  class Resolver {
    const source: Blocks
    const prev: Option<Digest>
    const limit: nat
    ghost const query: Query

    var index: map<EntityDigest, Entity>
    var ancestorsLoaded: bool
    var queue: seq<Digest>
    var queued: set<Digest>
    var scanned: nat
    var gap: Option<Digest>
    var unreadable: Option<Digest>

    ghost var own: set<EntityDigest>
    ghost var read: seq<Digest>

    /** The same place in the search, in the other resolver's terms. */
    ghost function Here(): GoResolver.Progress
      requires Sound(source)
      reads this
    {
      var up := if ancestorsLoaded then Ancestors(source, query.prev) else [];
      var stop := if ancestorsLoaded then AncestorGap(source, query.prev) else None;
      GoResolver.Progress(up, if ancestorsLoaded then None else query.prev, stop,
                          read, queue, scanned, FirstUnheld(source, read), unreadable)
    }

    ghost predicate Valid()
      reads this
    {
      && Sound(source) && query.prev == prev && GoodIndex(index)
      && GoResolver.At(source, NoKeys, limit, query, Here())
      && index.Keys == GoResolver.Known(source, NoKeys, own, Here())
      && queued == Elements(read) + Elements(queue) && NoRepeats(read + queue)
      && gap == GoResolver.OrElse(Here().ancestorGap, Here().refsGap)
      && (read != [] ==> ancestorsLoaded)
    }

    constructor (s: Blocks, lim: nat, p: Option<Digest>, refs: seq<Digest>)
      requires Sound(s)
      ensures Valid() && own == {} && read == []
      ensures source == s && limit == lim && query == Query(p, refs)
    {
      source, prev, limit, query := s, p, lim, Query(p, refs);
      index, ancestorsLoaded, queue, queued, scanned := map[], false, [], {}, 0;
      gap, unreadable := None, None;
      own, read := {}, [];
      new;
      hide Sound, Sweep, Ancestors, GoResolver.At, GoResolver.Known;
      assert queue + refs == refs;
      EnqueueAll(refs);
      StartsAt(source, limit, query, queue);
    }

    method Enqueue(d: Digest)
      requires queued == Elements(read) + Elements(queue) && NoRepeats(read + queue)
      modifies this`queue, this`queued
      ensures queued == Elements(read) + Elements(queue) && NoRepeats(read + queue)
      ensures queue == if old(d in read || d in queue) then old(queue) else old(queue) + [d]
    {
      if d in queued { return; }
      assert read + (queue + [d]) == read + queue + [d];
      NoRepeatsAppend(read + queue, d);
      GoResolver.ElementsAppend(queue, d);
      queued := queued + {d};
      queue := queue + [d];
    }

    /** Queueing with de-duplication leaves the order to be read unchanged. */
    method EnqueueAll(refs: seq<Digest>)
      requires queued == Elements(read) + Elements(queue) && NoRepeats(read + queue)
      modifies this`queue, this`queued
      ensures queued == Elements(read) + Elements(queue) && NoRepeats(read + queue)
      ensures Sweep(source, NoKeys, read, queue) == old(Sweep(source, NoKeys, read, queue + refs))
    {
      hide Sweep, NoRepeats;
      assert refs[0..] == refs;
      for i := 0 to |refs|
        invariant queued == Elements(read) + Elements(queue) && NoRepeats(read + queue)
        invariant Sweep(source, NoKeys, read, queue + refs[i..]) == old(Sweep(source, NoKeys, read, queue + refs))
      {
        assert refs[i..] == [refs[i]] + refs[i + 1..];
        assert queue + refs[i..] == queue + [refs[i]] + refs[i + 1..];
        if refs[i] in read || refs[i] in queue {
          RepeatIsIdle(source, NoKeys, read, queue, refs[i], refs[i + 1..]);
        }
        Enqueue(refs[i]);
      }
      assert queue + refs[|refs|..] == queue;
    }

    /** Records the entities of a plaintext block; the last definition stays. */
    method IndexBlock(d: Digest)
      requires d in source && GoodIndex(index)
      modifies this`index
      ensures GoodIndex(index) && index.Keys == old(index.Keys) + Defines(source, NoKeys, d)
    {
      var block := source[d];
      if block.content.Private? { return; }
      var ops := Plaintext(block).value.ops;
      for i := 0 to |ops|
        invariant GoodIndex(index) && index.Keys == old(index.Keys) + Created(ops[..i])
      {
        DefineOne(ops[i]);
        assert ops[..i + 1] == ops[..i] + [ops[i]];
        assert Created(ops[..i + 1]) == Created(ops[..i]) + Created([ops[i]]);
      }
      assert ops[..|ops|] == ops;
    }

    method DefineOne(op: Operation)
      requires GoodIndex(index)
      modifies this`index
      ensures GoodIndex(index) && index.Keys == old(index.Keys) + Created([op])
    {
      assert op in [op];
      match op
      case RotateKey(_) =>
        assert Created([op]) == {};
      case Create(entity) =>
        assert Created([op]) == {EntityHash(entity)};
        index := index[EntityHash(entity) := entity];
    }

    method Define(op: Operation)
      requires Valid()
      modifies this`index, this`own
      ensures Valid() && own == old(own) + Created([op])
    {
      hide Sound, GoResolver.At, AllDefined, Created, NoRepeats, GoodIndex;
      DefineOne(op);
      own := own + Created([op]);
    }

    /** Every held ancestor, in one walk; `visited` guards against a cyclic source. */
    method LoadAncestors()
      requires Valid() && !ancestorsLoaded
      modifies this`ancestorsLoaded, this`index, this`gap, this`unreadable
      ensures Valid() && ancestorsLoaded
    {
      hide Sound, GoResolver.At, GoResolver.ChainAt, NoRepeats, GoodIndex, Defines;
      ghost var p := Here();
      assert p == GoResolver.Progress([], prev, None, [], queue, scanned, None, unreadable);
      ancestorsLoaded := true;
      var next := prev;
      var visited := {};
      while next.Some?
        invariant ancestorsLoaded && p.next == next && p.read == read == [] && p.queue == queue && p.scanned == scanned
        invariant p.refsGap == None && p.keyGap == unreadable && p.ancestorGap == gap == None
        invariant GoResolver.At(source, NoKeys, limit, query, p)
        invariant GoodIndex(index) && index.Keys == GoResolver.Known(source, NoKeys, own, p)
        invariant forall d :: d in visited ==> next.None? || next.value < d
        decreases GoResolver.Above(source, next)
      {
        var d := next.value;
        if d in visited { return; }
        visited := visited + {d};
        GoResolver.ClimbKeepsPlace(source, NoKeys, limit, query, p, own);
        p := GoResolver.ClimbStep(source, NoKeys, p);
        if d !in source {
          if gap.None? { gap := Some(d); }
          GoResolver.UnheldDefinesNothing(source, NoKeys, d);
          break;
        }
        if source[d].content.Private? {
          if unreadable.None? { unreadable := Some(d); }
        }
        IndexBlock(d);
        PrevIsBelow(source, d);
        next := source[d].prev;
      }
      ClimbedIsEverything(p);
    }

    lemma ClimbedIsEverything(p: GoResolver.Progress)
      requires Sound(source) && GoResolver.At(source, NoKeys, limit, query, p) && p.next.None?
      ensures p.climbed == Ancestors(source, query.prev) && p.ancestorGap == AncestorGap(source, query.prev)
    {
      GoResolver.ClimbedIsAncestors(source, NoKeys, p.climbed, p.next, query.prev, p.ancestorGap);
    }

    /** One foreign block: not held, over the limit (which TypeScript throws), or
        read. */
    method ScanNext() returns (limitHit: bool)
      requires Valid() && queue != [] && ancestorsLoaded
      modifies this`queue, this`queued, this`scanned, this`gap, this`unreadable, this`index, this`read
      ensures old(queue[0] !in read)
      ensures limitHit == old(queue[0] in source && !Within(limit, scanned + 1))
      ensures !limitHit ==> Valid() && read == old(read) + [old(queue)[0]]
      ensures !limitHit ==> (Unread(source, read) < old(Unread(source, read))
                             || (Unread(source, read) == old(Unread(source, read)) && |queue| < old(|queue|)))
      ensures !limitHit ==> index.Keys == old(index.Keys) + Defines(source, NoKeys, old(queue)[0])
    {
      hide Sound, GoResolver.At, GoResolver.Known, NoRepeats, GoodIndex, Elements, Ancestors, AncestorGap, Defines, Out, Sweep, Unread;
      var d := queue[0];
      UnreadAppend(source, read, d);
      ghost var before := Here();
      NextIsNew(read, queue);
      ElementsShift(read, queue);
      FirstUnheldConcat(source, read, [d]);
      queue := queue[1..];
      if d !in source {
        GoResolver.ReadKeepsPlace(source, NoKeys, limit, query, before, own);
        GoResolver.UnheldDefinesNothing(source, NoKeys, d);
        if gap.None? { gap := Some(d); }
        read := read + [d];
        return false;
      }
      scanned := scanned + 1;
      if scanned > limit {
        return true;
      }
      GoResolver.ReadKeepsPlace(source, NoKeys, limit, query, before, own);
      read := read + [d];
      PlaintextOut(source, d);
      if source[d].content.Private? {
        if unreadable.None? { unreadable := Some(d); }
      } else {
        IndexBlock(d);
        EnqueueAll(Plaintext(source[d]).value.refs);
      }
      assert before.queue[1..] + [] == before.queue[1..];
      RequeueKeepsPlace(source, limit, query, GoResolver.ReadStep(source, NoKeys, before), own, queue);
      return false;
    }

    /** The answer of the lookup together with what validation makes of a failure. */
    method Resolve(e: EntityDigest) returns (a: Answer, entity: Option<Entity>)
      requires Valid()
      modifies this
      ensures a == Answers(source, NoKeys, limit, query, own, e)
      ensures own == old(own)
      ensures a.Found? ==> entity.Some? && e == EntityHash(entity.value)
      ensures !a.LimitHit? ==> Valid() && read <= Order(source, NoKeys, query.roots)
      ensures !a.LimitHit? ==> |read| == GoResolver.Furthest(|old(read)|, Depth(source, NoKeys, query, own, e))
    {
      hide Sound, Answers, Depth, GoResolver.At, Order, Unread, NoRepeats, Ancestors, AncestorGap;
      if e in index {
        GoResolver.ReadIsFound(source, NoKeys, limit, query, own, Here(), e);
        return Found, Some(index[e]);
      }
      if !ancestorsLoaded {
        LoadAncestors();
        if e in index {
          GoResolver.ReadIsFound(source, NoKeys, limit, query, own, Here(), e);
          return Found, Some(index[e]);
        }
      }
      while |queue| > 0
        invariant Valid() && own == old(own) && ancestorsLoaded && e !in index
        invariant |old(read)| <= |read|
        decreases Unread(source, read), |queue|
      {
        GoResolver.UnreadIsAhead(source, NoKeys, limit, query, own, Here(), e);
        ghost var before := Here();
        var limitHit := ScanNext();
        if limitHit {
          GoResolver.OverLimit(source, NoKeys, limit, query, own, before, e);
          return LimitHit, None;
        }
        if e in index {
          GoResolver.ReadIsFound(source, NoKeys, limit, query, own, Here(), e);
          return Found, Some(index[e]);
        }
      }
      GoResolver.ExhaustedIsFailure(source, NoKeys, limit, query, own, Here(), e);
      if gap.Some? {
        return Awaits(gap.value), None;
      }
      if unreadable.Some? {
        return Locked(unreadable.value), None;
      }
      return Absent, None;
    }
  }

  lemma RequeueKeepsPlace(s: Blocks, limit: nat, q: Query, p: GoResolver.Progress, own: set<EntityDigest>, queue: seq<Digest>)
    requires Sound(s) && GoResolver.At(s, NoKeys, limit, q, p)
    requires Sweep(s, NoKeys, p.read, queue) == Sweep(s, NoKeys, p.read, p.queue)
    ensures GoResolver.At(s, NoKeys, limit, q, p.(queue := queue))
    ensures GoResolver.Known(s, NoKeys, own, p.(queue := queue)) == GoResolver.Known(s, NoKeys, own, p)
  {
  }

  lemma PlaintextOut(s: Blocks, d: Digest)
    requires d in s
    ensures Defines(s, NoKeys, d) == if s[d].content.Private? then {} else Created(Plaintext(s[d]).value.ops)
    ensures Out(s, NoKeys, d) == if s[d].content.Private? then [] else Plaintext(s[d]).value.refs
    ensures GoResolver.IfSealed(s, NoKeys, d) == if s[d].content.Private? then Some(d) else None
  {
  }

  lemma ElementsShift(read: seq<Digest>, queue: seq<Digest>)
    requires queue != []
    ensures Elements(read + [queue[0]]) + Elements(queue[1..]) == Elements(read) + Elements(queue)
  {
    assert queue == [queue[0]] + queue[1..];
  }

  /** Every entry is filed under its own digest. */
  ghost predicate GoodIndex(index: map<EntityDigest, Entity>) {
    forall e :: e in index ==> e == EntityHash(index[e])
  }

  // ---- the two resolvers agree ------------------------------------------------

  datatype Call = DefineCall(op: Operation) | ResolveCall(e: EntityDigest)

  /** The answers a sequence of calls must give, up to the first that fails. */
  ghost function Transcript(s: Blocks, limit: int, q: Query, own: set<EntityDigest>, calls: seq<Call>): seq<Answer>
    requires Sound(s)
    decreases |calls|
  {
    if calls == [] then []
    else match calls[0]
      case DefineCall(op) => Transcript(s, limit, q, own + Created([op]), calls[1..])
      case ResolveCall(e) =>
        var a := Answers(s, NoKeys, limit, q, own, e);
        [a] + (if a.Found? then Transcript(s, limit, q, own, calls[1..]) else [])
  }

  /** How far into the refs graph those calls read. */
  ghost function DepthOf(s: Blocks, limit: int, q: Query, own: set<EntityDigest>, calls: seq<Call>, from: nat): nat
    requires Sound(s)
    decreases |calls|
  {
    if calls == [] then from
    else match calls[0]
      case DefineCall(op) => DepthOf(s, limit, q, own + Created([op]), calls[1..], from)
      case ResolveCall(e) =>
        var to := GoResolver.Furthest(from, Depth(s, NoKeys, q, own, e));
        if Answers(s, NoKeys, limit, q, own, e).Found? then DepthOf(s, limit, q, own, calls[1..], to) else to
  }

  ghost predicate InStep(go: GoResolver.Resolver, ts: Resolver)
    reads go, ts
  {
    && go.Valid() && ts.Valid()
    && go.src == ts.source && go.keys == NoKeys && go.limit == ts.limit && go.query == ts.query
    && go.own == ts.own && go.read == ts.read && go.read <= Order(ts.source, NoKeys, ts.query.roots)
  }

  /** One lookup through both resolvers. */
  method ResolveBoth(go: GoResolver.Resolver, ts: Resolver, e: EntityDigest) returns (a: Answer, b: Answer)
    requires InStep(go, ts)
    modifies go, ts
    ensures a == b == Answers(ts.source, NoKeys, ts.limit, ts.query, ts.own, e) && ts.own == old(ts.own)
    ensures !a.LimitHit? ==> InStep(go, ts)
    ensures !a.LimitHit? ==> |ts.read| == GoResolver.Furthest(old(|ts.read|), Depth(ts.source, NoKeys, ts.query, ts.own, e))
  {
    hide Sound, Answers, Depth, Order, NoRepeats, GoResolver.At, GoResolver.Known, Ancestors, AncestorGap;
    var inGo, _ := go.Resolve(e);
    var inTs, _ := ts.Resolve(e);
    return inGo, inTs;
  }

  method DefineBoth(go: GoResolver.Resolver, ts: Resolver, op: Operation)
    requires InStep(go, ts)
    modifies go, ts
    ensures InStep(go, ts) && ts.own == old(ts.own) + Created([op]) && ts.read == old(ts.read)
  {
    hide Sound, Order, NoRepeats, GoResolver.At, GoResolver.Known, Ancestors, AncestorGap;
    go.DefineOwn(op);
    ts.Define(op);
  }

  method StartBoth(s: Blocks, limit: nat, prev: Option<Digest>, refs: seq<Digest>) returns (go: GoResolver.Resolver, ts: Resolver)
    requires Sound(s)
    ensures fresh(go) && fresh(ts) && InStep(go, ts)
    ensures ts.source == s && ts.limit == limit && ts.query == Query(prev, refs) && ts.own == {} && ts.read == []
  {
    hide Sound, Order, NoRepeats, GoResolver.At, GoResolver.Known, Ancestors, AncestorGap;
    go := new GoResolver.Resolver(s, NoKeys, limit, prev, refs);
    ts := new Resolver(s, limit, prev, refs);
  }

  /** Both resolvers, started on one block and put through the same calls up to the
      first lookup that fails, give the same answers; unless that failure is the
      scan limit, they have scanned the same number of blocks. */
  method RunBoth(s: Blocks, limit: nat, prev: Option<Digest>, refs: seq<Digest>, calls: seq<Call>)
    returns (inGo: seq<Answer>, inTs: seq<Answer>, goScanned: nat, tsScanned: nat)
    requires Sound(s)
    ensures inGo == inTs == Transcript(s, limit, Query(prev, refs), {}, calls)
    ensures inGo == [] || !inGo[|inGo| - 1].LimitHit? ==>
              var depth := DepthOf(s, limit, Query(prev, refs), {}, calls, 0);
              depth <= |Order(s, NoKeys, refs)| && goScanned == tsScanned == HeldCount(s, Order(s, NoKeys, refs)[..depth])
  {
    hide Sound, Answers, Depth, Order, HeldCount, InStep, GoResolver.Furthest, Created;
    var go, ts := StartBoth(s, limit, prev, refs);
    ghost var q := Query(prev, refs);
    inGo, inTs := [], [];
    assert calls[0..] == calls;
    for i := 0 to |calls|
      invariant fresh(go) && fresh(ts) && InStep(go, ts)
      invariant ts.source == s && ts.limit == limit && ts.query == q
      invariant inGo == inTs && (inGo != [] ==> inGo[|inGo| - 1] == Found)
      invariant inGo + Transcript(s, limit, q, ts.own, calls[i..]) == Transcript(s, limit, q, {}, calls)
      invariant DepthOf(s, limit, q, ts.own, calls[i..], |ts.read|) == DepthOf(s, limit, q, {}, calls, 0)
    {
      assert calls[i..][0] == calls[i] && calls[i..][1..] == calls[i + 1..];
      match calls[i]
      case DefineCall(op) =>
        DefineBoth(go, ts, op);
      case ResolveCall(e) =>
        var a, b := ResolveBoth(go, ts, e);
        inGo, inTs, goScanned, tsScanned := inGo + [a], inTs + [b], go.scanned, ts.scanned;
        if !a.Found? {
          if !a.LimitHit? { ScannedAlike(go, ts); }
          return;
        }
    }
    goScanned, tsScanned := go.scanned, ts.scanned;
    ScannedAlike(go, ts);
  }

  lemma ScannedAlike(go: GoResolver.Resolver, ts: Resolver)
    requires InStep(go, ts)
    ensures |ts.read| <= |Order(ts.source, NoKeys, ts.query.roots)|
    ensures go.scanned == ts.scanned == HeldCount(ts.source, Order(ts.source, NoKeys, ts.query.roots)[..|ts.read|])
  {
    hide Sound, Order, GoResolver.At, GoResolver.Known, HeldCount;
    GoResolver.ScannedIsHeld(go.src, go.keys, go.limit, go.query, go.Here());
    GoResolver.ScannedIsHeld(ts.source, NoKeys, ts.limit, ts.query, ts.Here());
    assert Order(ts.source, NoKeys, ts.query.roots)[..|ts.read|] == ts.read;
  }
}
