/**
 * Callers of the byte-granular pool: the two unit tests of internal/pkg/pool as the code
 * actually behaves, and the FIFO and Erase behaviour a caller can rely on, each proved from
 * the pool's contracts alone.
 */
module BytePoolScenarios {
  import opened Bytes
  import opened BytePool

  /** A Get immediately followed by a Return of the slice it produced (on a non-empty queue)
      moves the first ObjSize bytes to the back (zeroed with Erase): the queue keeps its length. */
  method GetThenReturn(p: Pool)
    requires p.Valid() && p.data.buf != []
    modifies p, p.data
    ensures p.Valid() && p.data == old(p.data)
    ensures |p.data.buf| == old(|p.data.buf|)
    ensures p.data.buf == old(p.data.buf)[p.objSize..] +
      (if p.erase then Zeros(p.objSize) else old(p.data.buf)[..p.objSize])
  {
    AlignedStep(|p.data.buf|, p.objSize);
    assert p.objSize > 0;
    var o := p.Get();
    p.Return(o);
    assert o[..p.objSize] == o[..];
  }

  /** A pool of one 16-byte object that may not grow: the first Get yields 16 bytes and the
      second yields nil. (The unit test for this configuration expects the second Get to
      succeed; the code returns nil, and this is what is proved.) */
  method SingleObjectScenario() returns (len1: int, second: array?<byte>)
    ensures len1 == 16 && second == null
  {
    var p := new Pool(16, 1, 0, false);
    p.New();
    var obj1 := p.Get();
    len1 := obj1.Length;
    second := p.Get();
  }

  /** A pool of one 8-byte object growing by a factor of 3: the second Get grows the queue to
      24 bytes of capacity, and once both slices are back the queue holds 3 * 8 = 24 bytes. */
  method GrowScenario() returns (len1: int, len2: int, queued: nat, capacity: nat)
    ensures len1 == 8 && len2 == 8 && queued == 24 && capacity == 24
  {
    var p := new Pool(8, 1, 3, false);
    p.New();
    var obj1 := p.Get();
    len1 := obj1.Length;
    GrowthAdds(1, 8, 3);
    var obj2 := p.Get();
    len2 := obj2.Length;
    p.Return(obj1);
    p.Return(obj2);
    queued, capacity := |p.data.buf|, p.data.cap;
  }

  /** Get on a pool that New never filled: the nil channel has length 0, so Get grows it. With
      ObjSize 4, NObj 2 and GrowFactor 3 the new channel has capacity 24 and holds 16 zero bytes,
      of which the first 4 are handed out. */
  method GetBeforeNewScenario() returns (taken: seq<byte>, queued: nat, capacity: nat)
    ensures taken == [0, 0, 0, 0] && queued == 12 && capacity == 24
  {
    var p := new Pool(4, 2, 3, false);
    GrowthAdds(2, 4, 3);
    var obj := p.Get();
    taken := obj[..];
    queued, capacity := |p.data.buf|, p.data.cap;
  }

  /** FIFO order and the Erase flag: a two-byte object written with 7 and returned comes out of
      the queue after the object that was already queued, with its bytes kept when Erase is off
      and zeroed when it is on. */
  method FifoScenario(erase: bool) returns (next: seq<byte>, after: seq<byte>)
    ensures next == [0, 0]
    ensures after == if erase then [0, 0] else [7, 0]
  {
    var p := new Pool(2, 2, 0, erase);
    p.New();
    assert p.data.buf == [0, 0, 0, 0];
    var obj := p.Get();
    assert obj[..] + p.data.buf == [0, 0, 0, 0] && obj.Length == 2;
    assert p.data.buf == [0, 0];
    obj[0] := 7;
    ghost var written := if erase then [0, 0] else [7, 0];
    p.Return(obj);
    assert obj[..2] == written;
    assert p.data.buf == [0, 0] + written;
    var obj2 := p.Get();
    assert obj2[..] == [0, 0] && p.data.buf == written;
    var obj3 := p.Get();
    assert obj3[..] == written;
    next, after := obj2[..], obj3[..];
  }
}
