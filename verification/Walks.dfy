/** The forward walk through one author's blocks that defines a source's tip and its
    ranges, and what holding the end of it means. */
module Walks {
  import opened Blocks
  import opened Options
  import opened Stores

  ghost predicate IsLeast(order: ByteOrder, at: set<Digest>, d: Digest) {
    d in at && forall e :: e in at ==> order(d) <= order(e)
  }

  lemma {:induction false} LeastExists(order: ByteOrder, at: set<Digest>)
    requires at != {}
    ensures exists d :: IsLeast(order, at, d)
    decreases |at|
  {
    var x :| x in at;
    if at == {x} {
      assert IsLeast(order, at, x);
    } else {
      assert at - {x} != {};
      LeastExists(order, at - {x});
      var y :| IsLeast(order, at - {x}, y);
      if order(x) <= order(y) { assert IsLeast(order, at, x); } else { assert IsLeast(order, at, y); }
    }
  }

  lemma LeastIsUnique(order: ByteOrder, at: set<Digest>, a: Digest, b: Digest)
    requires Injective(order) && IsLeast(order, at, a) && IsLeast(order, at, b)
    ensures a == b
  {
  }

  /** The blocks held at one position. */
  function Holders(s: Blocks, pub: Key, pos: Option<Digest>): set<Digest> {
    set d | d in s && s[d].pub == pub && s[d].prev == pos
  }

  /** The block served at a position: the lowest digest of those held there. */
  ghost function Branch(s: Blocks, order: ByteOrder, pub: Key, pos: Option<Digest>): (d: Digest)
    requires Holders(s, pub, pos) != {}
    ensures IsLeast(order, Holders(s, pub, pos), d)
  {
    LeastExists(order, Holders(s, pub, pos));
    var d :| IsLeast(order, Holders(s, pub, pos), d);
    d
  }

  // ---- termination: every step is one block further from genesis ----------------------

  ghost function Height(pos: Option<Digest>): nat
    decreases pos
  {
    if pos.Some? && pos.value.BlockHash? then 1 + Height(pos.value.block.prev) else 0
  }

  ghost function Above(s: Blocks, h: nat): set<Digest> { set d | d in s && Height(Some(d)) > h }

  lemma StepUp(s: Blocks, pub: Key, pos: Option<Digest>, d: Digest)
    requires Sound(s) && d in Holders(s, pub, pos)
    ensures Above(s, Height(Some(d))) < Above(s, Height(pos))
    ensures |Above(s, Height(Some(d)))| < |Above(s, Height(pos))|
  {
    assert d == BlockHash(s[d]) && Height(Some(d)) == 1 + Height(pos);
    var a, b := Above(s, Height(Some(d))), Above(s, Height(pos));
    assert d in b && d !in a;
    assert b == a + (b - a);
  }

  /** The whole walk from a position. */
  ghost function Walk(s: Blocks, order: ByteOrder, pub: Key, pos: Option<Digest>): seq<Digest>
    requires Sound(s)
    decreases |Above(s, Height(pos))|
  {
    if Holders(s, pub, pos) == {} then []
    else
      var d := Branch(s, order, pub, pos);
      StepUp(s, pub, pos, d);
      [d] + Walk(s, order, pub, Some(d))
  }

  function Last(w: seq<Digest>, pos: Option<Digest>): Option<Digest> { if w == [] then pos else Some(w[|w| - 1]) }

  /** A run of one author's chain after a position: what a range must be. */
  ghost predicate IsRun(s: Blocks, pub: Key, pos: Option<Digest>, w: seq<Digest>) {
    forall i :: 0 <= i < |w| ==> w[i] in s && s[w[i]].pub == pub && s[w[i]].prev == Last(w[..i], pos)
  }

  lemma {:induction false} WalkIsRun(s: Blocks, order: ByteOrder, pub: Key, pos: Option<Digest>)
    requires Sound(s)
    ensures IsRun(s, pub, pos, Walk(s, order, pub, pos))
    decreases |Above(s, Height(pos))|
  {
    if Holders(s, pub, pos) != {} {
      var d := Branch(s, order, pub, pos);
      StepUp(s, pub, pos, d);
      var rest := Walk(s, order, pub, Some(d));
      WalkIsRun(s, order, pub, Some(d));
      RunCons(s, pub, pos, d, rest);
    }
  }

  lemma RunCons(s: Blocks, pub: Key, pos: Option<Digest>, d: Digest, rest: seq<Digest>)
    requires d in s && s[d].pub == pub && s[d].prev == pos && IsRun(s, pub, Some(d), rest)
    ensures IsRun(s, pub, pos, [d] + rest)
  {
    var w := [d] + rest;
    forall i | 0 <= i < |w| ensures w[i] in s && s[w[i]].pub == pub && s[w[i]].prev == Last(w[..i], pos) {
      if i > 0 {
        assert w[i] == rest[i - 1];
        assert w[..i] == [d] + rest[..i - 1];
      }
    }
  }

  lemma RunPrev(s: Blocks, pub: Key, pos: Option<Digest>, w: seq<Digest>, j: nat)
    requires IsRun(s, pub, pos, w) && j < |w|
    ensures w[j] in s && s[w[j]].pub == pub && s[w[j]].prev == if j == 0 then pos else Some(w[j - 1])
  {
    assert s[w[j]].prev == Last(w[..j], pos);
  }

  lemma SuffixIsRun(s: Blocks, pub: Key, pos: Option<Digest>, w: seq<Digest>, n: nat)
    requires IsRun(s, pub, pos, w) && n <= |w|
    ensures IsRun(s, pub, Last(w[..n], pos), w[n..])
  {
    forall i | 0 <= i < |w| - n
      ensures w[n..][i] in s && s[w[n..][i]].pub == pub && s[w[n..][i]].prev == Last(w[n..][..i], Last(w[..n], pos))
    {
      RunPrev(s, pub, pos, w, n + i);
    }
  }

  lemma PrefixIsRun(s: Blocks, pub: Key, pos: Option<Digest>, w: seq<Digest>, v: seq<Digest>)
    requires IsRun(s, pub, pos, w) && v <= w
    ensures IsRun(s, pub, pos, v)
  {
    forall i | 0 <= i < |v| ensures v[i] in s && s[v[i]].pub == pub && s[v[i]].prev == Last(v[..i], pos) {
      assert v[..i] == w[..i];
      RunPrev(s, pub, pos, w, i);
    }
  }

  /** Asking again after the last block received continues the same walk. */
  lemma {:induction false} WalkContinues(s: Blocks, order: ByteOrder, pub: Key, pos: Option<Digest>, k: nat)
    requires Sound(s) && k <= |Walk(s, order, pub, pos)|
    ensures var w := Walk(s, order, pub, pos);
      Walk(s, order, pub, Last(w[..k], pos)) == w[k..]
    decreases k
  {
    var w := Walk(s, order, pub, pos);
    if k > 0 {
      var d := Branch(s, order, pub, pos);
      assert w == [d] + Walk(s, order, pub, Some(d)) && w[1..] == Walk(s, order, pub, Some(d));
      WalkContinues(s, order, pub, Some(d), k - 1);
      assert w[1..][..k - 1] == w[1..k] && w[..k] == [d] + w[1..k];
      assert Last(w[..k], pos) == Last(w[1..k], Some(d));
      assert w[1..][k - 1..] == w[k..];
    }
  }

  function Upto<T>(w: seq<T>, k: nat): seq<T> { if |w| <= k then w else w[..k] }

  lemma UptoTwice<T>(w: seq<T>, a: nat, b: nat)
    ensures Upto(w, a) + Upto(w[|Upto(w, a)|..], b) == Upto(w, a + b)
  {
  }

  /** What one page of a range holds. */
  ghost function Page(s: Blocks, order: ByteOrder, pub: Key, pos: Option<Digest>, limit: nat): seq<Digest>
    requires Sound(s)
  {
    Upto(Walk(s, order, pub, pos), limit)
  }

  /** The pages of n requests, each asking after the last block of the one before. */
  ghost function Pages(s: Blocks, order: ByteOrder, pub: Key, pos: Option<Digest>, limit: nat, n: nat): seq<Digest>
    requires Sound(s)
    decreases n
  {
    if n == 0 then []
    else
      var p := Page(s, order, pub, pos, limit);
      p + Pages(s, order, pub, Last(p, pos), limit, n - 1)
  }

  lemma PageContinues(s: Blocks, order: ByteOrder, pub: Key, pos: Option<Digest>, limit: nat)
    requires Sound(s)
    ensures var w, p := Walk(s, order, pub, pos), Page(s, order, pub, pos, limit);
      |p| <= |w| && Walk(s, order, pub, Last(p, pos)) == w[|p|..]
  {
    var w, p := Walk(s, order, pub, pos), Page(s, order, pub, pos, limit);
    WalkContinues(s, order, pub, pos, |p|);
    assert w[..|p|] == p;
  }

  /** Pages put end to end are the walk, as far as they go: nothing is skipped, repeated
      or reordered at a page boundary. */
  lemma {:induction false} PagesAreTheWalk(s: Blocks, order: ByteOrder, pub: Key, pos: Option<Digest>, limit: nat, n: nat)
    requires Sound(s)
    ensures Pages(s, order, pub, pos, limit, n) == Upto(Walk(s, order, pub, pos), n * limit)
    decreases n
  {
    if n > 0 {
      var w, p := Walk(s, order, pub, pos), Page(s, order, pub, pos, limit);
      PageContinues(s, order, pub, pos, limit);
      PagesAreTheWalk(s, order, pub, Last(p, pos), limit, n - 1);
      assert n * limit == limit + (n - 1) * limit;
      hide Walk;
      UptoTwice(w, limit, (n - 1) * limit);
    }
  }

  // ---- holding a chain ----------------------------------------------------------------

  /** With each of the author's blocks, its predecessor is held. */
  ghost predicate PrevClosed(s: Blocks, pub: Key) {
    forall d :: d in s && s[d].pub == pub && s[d].prev.Some? ==> s[d].prev.value in s
  }

  /** Every block of a walk. */
  ghost predicate HoldsAll(s: Blocks, w: seq<Digest>) { forall i :: 0 <= i < |w| ==> w[i] in s }

  lemma OneBlock(s: Blocks, t: Blocks, d: Digest)
    requires Sound(s) && Sound(t) && d in s && d in t
    ensures s[d] == t[d]
  {
  }

  /** A client whose chain has no hole and that holds the end of a run holds all of it. */
  lemma {:induction false} EndBringsAll(client: Blocks, s: Blocks, pub: Key, w: seq<Digest>)
    requires Sound(client) && Sound(s) && PrevClosed(client, pub)
    requires IsRun(s, pub, None, w) && w != [] && w[|w| - 1] in client
    ensures HoldsAll(client, w)
    decreases |w|
  {
    var n := |w| - 1;
    OneBlock(client, s, w[n]);
    if n > 0 {
      assert s[w[n]].prev == Last(w[..n], None) == Some(w[n - 1]);
      forall i | 0 <= i < n
        ensures w[..n][i] in s && s[w[..n][i]].pub == pub && s[w[..n][i]].prev == Last(w[..n][..i], None)
      {
        assert w[..n][..i] == w[..i];
      }
      EndBringsAll(client, s, pub, w[..n]);
      forall i | 0 <= i < |w| ensures w[i] in client {
        if i < n { assert w[i] == w[..n][i]; }
      }
    }
  }

  /** Two runs from genesis that part ways leave a fork where they do. */
  lemma DivergenceIsAFork(client: Blocks, s: Blocks, t: Blocks, pub: Key, v: seq<Digest>, w: seq<Digest>, i: nat)
    requires Sound(client) && Sound(s) && Sound(t)
    requires IsRun(s, pub, None, v) && IsRun(t, pub, None, w) && HoldsAll(client, v) && HoldsAll(client, w)
    requires i < |v| && i < |w| && v[..i] == w[..i] && v[i] != w[i]
    ensures v[i] in client && w[i] in client && IsFork(client[v[i]], client[w[i]])
    ensures {v[i], w[i]} <= Holders(client, pub, Last(v[..i], None))
  {
    OneBlock(client, s, v[i]);
    OneBlock(client, t, w[i]);
  }
}
