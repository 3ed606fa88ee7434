/**
 * The object-granular memory pool: a buffered channel of `[]byte` buffers, each handed out
 * whole by Get and taken back whole by Return. Buffers are references, so the queue holds
 * arrays and Return enqueues the caller's own array.
 */
module ObjectPool {
  import opened Bytes
  import opened Channels

  /** How many buffers growPool allocates for a channel of `nNewObj` buffers: its loop runs
      while the counter is below `nNewObj - NObj`, so it never allocates a negative number. */
  function NewObjectCount(nNewObj: int, nObj: nat): nat
  {
    if nNewObj > nObj then nNewObj - nObj else 0
  }

  /** Growth on an empty queue leaves a buffer to receive exactly when the pool holds at least
      one object and grows by a factor of at least two; with factor one it adds nothing. */
  lemma GrowthYieldsObject(nObj: nat, growFactor: int)
    requires growFactor > 0
    ensures NewObjectCount(nObj * growFactor, nObj) > 0 <==> nObj > 0 && growFactor >= 2
    ensures NewObjectCount(nObj * growFactor, nObj) == nObj * (growFactor - 1)
  {
    assert nObj * growFactor == nObj * (growFactor - 1) + nObj;
    if nObj > 0 && growFactor >= 2 {
      assert nObj * (growFactor - 1) >= nObj * 1;
    } else if nObj == 0 {
      assert nObj * (growFactor - 1) == 0;
    } else {
      assert growFactor == 1;
    }
  }

  /** No buffer occurs twice in `bufs`. */
  predicate Distinct(bufs: seq<array<byte>>)
  {
    forall i, j :: 0 <= i < j < |bufs| ==> bufs[i] != bufs[j]
  }

  /** Every buffer in `bufs` is a zeroed slice of `size` bytes, as `make([]byte, size)` gives. */
  ghost predicate ZeroBuffers(bufs: seq<array<byte>>, size: nat)
    reads bufs
  {
    forall i :: 0 <= i < |bufs| ==> bufs[i].Length == size && ZeroPrefix(bufs[i], size)
  }

  class Pool {
    const objSize: nat
    const nObj: nat
    const growFactor: int8
    const erase: bool
    /** The queue of available buffers; New and growth replace it with a new channel. */
    var data: Channel<array<byte>>

    /** The channel is within capacity, and in an Erase pool every queued buffer has at least
        ObjSize bytes (Return indexes them up to ObjSize - 1 before sending). */
    ghost predicate Valid()
      reads this, data
    {
      data.Valid() && (erase ==> forall b :: b in data.buf ==> b.Length >= objSize)
    }

    /** The struct literal `Pool{ObjSize, NObj, GrowFactor, Erase}`: `data` is the nil channel,
        which, like a channel of capacity zero, has length and capacity zero. */
    constructor (objSize: nat, nObj: nat, growFactor: int8, erase: bool)
      ensures Valid()
      ensures this.objSize == objSize && this.nObj == nObj
      ensures this.growFactor == growFactor && this.erase == erase
      ensures fresh(data) && data.buf == [] && data.cap == 0
    {
      this.objSize := objSize;
      this.nObj := nObj;
      this.growFactor := growFactor;
      this.erase := erase;
      data := new Channel(0);
    }

    /** The channel capacity every growth installs. It depends on NObj, which nothing updates,
        so every growth targets the same capacity. */
    function GrowTarget(): int
    {
      nObj * growFactor as int
    }

    /** New: a channel of capacity NObj holding NObj distinct fresh zeroed buffers of ObjSize bytes. */
    method New()
      modifies this
      ensures Valid() && fresh(data)
      ensures data.cap == nObj && |data.buf| == nObj
      ensures forall b :: b in data.buf ==> fresh(b)
      ensures Distinct(data.buf) && ZeroBuffers(data.buf, objSize)
    {
      data := new Channel(nObj);
      var i: nat := 0;
      while i < nObj
        invariant fresh(data) && data.Valid() && data.cap == nObj
        invariant i <= nObj && |data.buf| == i
        invariant forall b :: b in data.buf ==> fresh(b)
        invariant Distinct(data.buf) && ZeroBuffers(data.buf, objSize)
      {
        var b := new byte[objSize](_ => 0);
        data.Send(b);
        i := i + 1;
      }
    }

    /** growPool: discards the current channel and installs one of capacity `nNewObj` holding
        only the `nNewObj - NObj` newly allocated zeroed buffers. NObj is not updated. */
    method GrowPool(nNewObj: nat)
      modifies this
      ensures Valid() && fresh(data)
      ensures data.cap == nNewObj && |data.buf| == NewObjectCount(nNewObj, nObj)
      ensures forall b :: b in data.buf ==> fresh(b)
      ensures Distinct(data.buf) && ZeroBuffers(data.buf, objSize)
    {
      data := new Channel(nNewObj);
      var i: int := 0;
      while i < nNewObj - nObj
        invariant fresh(data) && data.Valid() && data.cap == nNewObj
        invariant 0 <= i <= NewObjectCount(nNewObj, nObj) && |data.buf| == i
        invariant forall b :: b in data.buf ==> fresh(b)
        invariant Distinct(data.buf) && ZeroBuffers(data.buf, objSize)
      {
        var b := new byte[objSize](_ => 0);
        data.Send(b);
        i := i + 1;
      }
    }

    /** Get comes back (rather than blocking on the receive) unless the queue is empty and
        growth would add no buffer. */
    predicate CanGet()
      reads this, data
    {
      |data.buf| == 0 && growFactor > 0 ==> NewObjectCount(GrowTarget(), nObj) > 0
    }

    /** Get: the front buffer of the queue; on an empty queue, nil when the pool may not grow,
        and otherwise a buffer from a freshly grown queue of capacity NObj * GrowFactor. */
    method Get() returns (o: array?<byte>)
      requires Valid() && CanGet()
      modifies this, data
      ensures Valid()
      ensures data != old(data) ==> old(data.buf) == []
      ensures old(data.buf) != [] ==>
        data == old(data) && o == old(data.buf)[0] && data.buf == old(data.buf)[1..]
      ensures old(data.buf) == [] && growFactor <= 0 ==>
        o == null && data == old(data) && data.buf == []
      ensures old(data.buf) == [] && growFactor > 0 ==>
        && fresh(data) && data.cap == GrowTarget()
        && |data.buf| == NewObjectCount(GrowTarget(), nObj) - 1
        && o != null && fresh(o) && o.Length == objSize && ZeroPrefix(o, objSize)
        && o !in data.buf && (forall b :: b in data.buf ==> fresh(b))
        && Distinct(data.buf) && ZeroBuffers(data.buf, objSize)
    {
      if |data.buf| == 0 {
        if growFactor <= 0 {
          return null;
        }
        GrowPool(GrowTarget());
      }
      ghost var queued := data.buf;
      o := data.Receive();
      // Membership in the old queue carries the old queue's facts (freshness, length, zeroed
      // bytes) over to the received buffer and to the buffers left behind.
      assert o in queued;
      assert forall b :: b in data.buf ==> b in queued;
    }

    /** Return: with Erase, zeroes the first ObjSize bytes of the caller's buffer in place;
        then enqueues that same buffer at the back of the queue. */
    method Return(o: array<byte>)
      requires Valid() && |data.buf| < data.cap
      requires erase ==> o.Length >= objSize
      modifies o, data
      ensures Valid()
      ensures data.buf == old(data.buf) + [o]
      ensures forall j :: 0 <= j < o.Length ==>
        o[j] == if erase && j < objSize then 0 else old(o[j])
    {
      if erase {
        var i: nat := 0;
        while i < objSize
          invariant i <= objSize
          invariant forall j :: 0 <= j < o.Length ==>
            o[j] == if j < i then 0 else old(o[j])
          modifies o
        {
          o[i] := 0;
          i := i + 1;
        }
      }
      data.Send(o);
    }
  }
}
