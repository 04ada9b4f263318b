/** The block sequence of the transport: canonical items one after another, with no
    framing at all (section 2 of RFC 8742). */
module Sequence {
  import opened Options
  import opened DcborSpec
  import opened DcborDecode
  import DcborDecoder

  ghost predicate AllCanonical(vs: seq<Value>) {
    forall i :: 0 <= i < |vs| ==> Sized(vs[i]) && Canonical(vs[i], 0)
  }

  /** Where DecodeSeq refuses: no list of blocks is what these bytes hold. */
  ghost predicate NoSequence(data: seq<byte>, isBlock: Value -> bool) {
    forall ws {:trigger AllCanonical(ws)} ::
      AllCanonical(ws) && (forall i :: 0 <= i < |ws| ==> isBlock(ws[i])) ==> EncItems(ws) != data
  }

  method EncodeSeq(blocks: seq<Value>) returns (data: seq<byte>)
    requires forall i :: 0 <= i < |blocks| ==> Sized(blocks[i])
    ensures data == EncItems(blocks)
  {
    data := [];
    for i := 0 to |blocks|
      invariant data == EncItems(blocks[..i])
    {
      hide EncItems, Enc;
      AppendItem(blocks[..i], blocks[i]);
      assert blocks[..i + 1] == blocks[..i] + [blocks[i]];
      data := data + Enc(blocks[i]);
    }
    assert blocks[..|blocks|] == blocks;
  }

  /** Whether an item's bytes are a signed block is asked of isBlock, a parameter. */
  method DecodeSeq(data: seq<byte>, isBlock: Value -> bool) returns (r: Option<seq<Value>>)
    ensures r.Some? ==>
              && AllCanonical(r.value) && (forall i :: 0 <= i < |r.value| ==> isBlock(r.value[i]))
              && data == EncItems(r.value)
    ensures r.None? ==> NoSequence(data, isBlock)
  {
    hide EncItems, Enc, At, NoValue;
    var blocks: seq<Value> := [];
    var off := 0;
    NothingRead(data, 0);
    while off < |data|
      invariant off <= |data| && AllCanonical(blocks) && forall i :: 0 <= i < |blocks| ==> isBlock(blocks[i])
      invariant Read(data, 0, EncItems(blocks), off)
    {
      var item := DcborDecoder.DecodePrefix(data[off..]);
      if item.None? {
        Stuck(data, blocks, off, isBlock, None);
        return None;
      }
      ItemHere(data, off, item.value.0);
      if !isBlock(item.value.0) {
        Stuck(data, blocks, off, isBlock, Some(item.value.0));
        return None;
      }
      ItemRead(data, 0, blocks, off, item.value.0, off + item.value.1);
      blocks, off := blocks + [item.value.0], off + item.value.1;
    }
    AtWhole(data, EncItems(blocks));
    r := Some(blocks);
  }

  lemma ItemHere(data: seq<byte>, off: nat, v: Value)
    requires off < |data| && Sized(v) && Enc(v) <= data[off..]
    ensures Read(data, off, Enc(v), off + |Enc(v)|) && |Enc(v)| > 0
  {
    FirstByte(v);
  }

  lemma AtWhole(data: seq<byte>, s: seq<byte>)
    requires Read(data, 0, s, |data|)
    ensures data == s
  {
    assert data[0..] == data;
  }

  /** A place where no block follows. */
  lemma Stuck(data: seq<byte>, blocks: seq<Value>, off: nat, isBlock: Value -> bool, item: Option<Value>)
    requires off < |data| && AllCanonical(blocks) && Read(data, 0, EncItems(blocks), off)
    requires if item.None? then NoValue(data[off..], 0, 0)
             else Sized(item.value) && At(data, off, Enc(item.value)) && !isBlock(item.value)
    ensures NoSequence(data, isBlock)
  {
    hide EncItems, Enc;
    forall ws | AllCanonical(ws) && forall i :: 0 <= i < |ws| ==> isBlock(ws[i]) ensures EncItems(ws) != data {
      if EncItems(ws) == data {
        LongerThan(data, blocks, off, ws);
        var next := ws[|blocks|];
        assert isBlock(next) && Sized(next) && Canonical(next, 0);
        if item.Some? {
          ValueAtUnique(data, off, item.value, next);
        }
      }
    }
  }

  lemma LongerThan(data: seq<byte>, blocks: seq<Value>, off: nat, ws: seq<Value>)
    requires AllCanonical(blocks) && AllCanonical(ws)
    requires off < |data| && Read(data, 0, EncItems(blocks), off) && EncItems(ws) == data
    ensures |ws| > |blocks| && At(data, off, Enc(ws[|blocks|]))
  {
    hide EncItems, Enc, At;
    WholeAt(data, EncItems(ws));
    if |ws| <= |blocks| {
      NotShorter(data, blocks, off, ws);
    } else {
      ItemsAt(data, 0, blocks, off, ws);
      NextItemAt(data, off, ws[|blocks|..]);
    }
  }

  lemma WholeAt(data: seq<byte>, s: seq<byte>)
    requires data == s
    ensures Read(data, 0, s, |data|)
  {
    assert data[0..] == data;
  }

  lemma NotShorter(data: seq<byte>, blocks: seq<Value>, off: nat, ws: seq<Value>)
    requires AllCanonical(blocks) && AllCanonical(ws) && |ws| <= |blocks|
    requires Read(data, 0, EncItems(blocks), off) && Read(data, 0, EncItems(ws), |data|)
    ensures off == |data|
  {
    hide EncItems, Enc;
    ItemsAt(data, 0, ws, |data|, blocks);
    ItemsTakeRoom(blocks[|ws|..]);
    assert blocks == blocks[..|ws|];
  }
}
