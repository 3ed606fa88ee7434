/**
 * Callers of the object-granular pool: the two unit tests of pkg/pool and the consequences of
 * the pool's contracts that a caller relies on, each proved from those contracts alone.
 */
module ObjectPoolScenarios {
  import opened Bytes
  import opened ObjectPool

  /** A Get immediately followed by a Return of the same buffer (on a non-empty queue) moves the
      front buffer to the back: the queue keeps its length and its capacity, and the buffer keeps
      its bytes, except that an Erase pool zeroes its first ObjSize bytes. */
  method GetThenReturn(p: Pool) returns (front: array<byte>)
    requires p.Valid() && p.data.buf != []
    modifies p, p.data, p.data.buf[0]
    ensures front == old(p.data.buf)[0]
    ensures p.Valid() && p.data == old(p.data) && p.data.cap == old(p.data.cap)
    ensures p.data.buf == old(p.data.buf)[1..] + [front]
    ensures |p.data.buf| == old(|p.data.buf|)
    ensures forall j :: 0 <= j < front.Length ==>
      front[j] == if p.erase && j < p.objSize then 0 else old(front[j])
  {
    var o := p.Get();
    front := o;
    p.Return(front);
  }

  /** A pool of two 16-byte objects that may not grow: two Gets yield distinct 16-byte buffers,
      a third yields nil, and what a caller writes into one buffer survives returning the other. */
  method FixedPoolScenario() returns (len1: int, len2: int, third: array?<byte>,
                                      first: byte, second: byte, queued: nat)
    ensures len1 == 16 && len2 == 16 && third == null
    ensures first == 42 && second == 11 && queued == 2
  {
    var p := new Pool(16, 2, 0, false);
    p.New();
    ghost var initial := p.data.buf;
    var obj1 := p.Get();
    var obj2 := p.Get();
    assert obj1 == initial[0] && obj2 == initial[1] && obj1 in initial && obj2 in initial;
    len1, len2 := obj1.Length, obj2.Length;
    obj1[0] := 42;
    obj2[0] := 11;
    third := p.Get();
    p.Return(obj1);
    second := obj2[0];
    p.Return(obj2);
    first := obj1[0];
    queued := |p.data.buf|;
  }

  /** A pool of one 8-byte object growing by a factor of 3: the second Get grows the queue to
      capacity 3, and once both buffers are back the queue holds 3 buffers. */
  method GrowScenario() returns (len1: int, len2: int, queued: nat, capacity: nat)
    ensures len1 == 8 && len2 == 8 && queued == 3 && capacity == 3
  {
    var p := new Pool(8, 1, 3, false);
    p.New();
    ghost var initial := p.data.buf;
    var obj1 := p.Get();
    assert obj1 == initial[0] && obj1 in initial;
    len1 := obj1.Length;
    GrowthYieldsObject(1, 3);
    var obj2 := p.Get();
    len2 := obj2.Length;
    p.Return(obj1);
    p.Return(obj2);
    queued, capacity := |p.data.buf|, p.data.cap;
  }

  /** Get on a pool that New never filled: the nil channel has length 0, so Get grows it. With
      ObjSize 8, NObj 2 and GrowFactor 4 the new channel has capacity 8 and holds 6 buffers, one
      of which is handed out. */
  method GetBeforeNewScenario() returns (len: int, queued: nat, capacity: nat)
    ensures len == 8 && queued == 5 && capacity == 8
  {
    var p := new Pool(8, 2, 4, false);
    GrowthYieldsObject(2, 4);
    var obj := p.Get();
    len := obj.Length;
    queued, capacity := |p.data.buf|, p.data.cap;
  }

  /** Growth does not compound: in the same pool a second exhaustion installs a queue of the same
      capacity 3 while four buffers are out. Once two of them are back the queue is full, and the
      two buffers still held are distinct and not queued, so a Return of either would block. */
  method SecondGrowthScenario() returns (queued: seq<array<byte>>, capacity: nat,
                                         held: seq<array<byte>>)
    ensures |queued| == capacity == 3
    ensures |held| == 2 && held[0] != held[1]
    ensures forall b :: b in held ==> b !in queued
  {
    var p := new Pool(8, 1, 3, false);
    p.New();
    GrowthYieldsObject(1, 3);
    ghost var initial := p.data.buf;
    var obj1 := p.Get();
    assert obj1 == initial[0] && obj1 in initial;
    var obj2 := p.Get();
    ghost var grown := p.data.buf;
    var obj3 := p.Get();
    assert obj3 == grown[0] && obj3 in grown;
    var obj4 := p.Get();
    ghost var regrown := p.data.buf;
    assert regrown[0] in regrown;
    p.Return(obj1);
    p.Return(obj2);
    queued, capacity := p.data.buf, p.data.cap;
    held := [obj3, obj4];
    assert queued == [regrown[0], obj1, obj2];
  }

  /** With Erase, a buffer written by one caller comes back from the next Get as the same
      storage with the written bytes zeroed. */
  method EraseScenario() returns (same: bool, byte0: byte)
    ensures same && byte0 == 0
  {
    var p := new Pool(4, 1, 0, true);
    p.New();
    ghost var initial := p.data.buf;
    var obj := p.Get();
    assert obj == initial[0] && obj in initial;
    obj[0] := 42;
    p.Return(obj);
    var again := p.Get();
    same := again == obj;
    byte0 := again[0];
  }
}
