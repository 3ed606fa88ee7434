/**
 * The byte-granular memory pool: a buffered channel of single bytes of capacity
 * NObj * ObjSize. Get receives ObjSize bytes into a new slice; Return sends the first
 * ObjSize bytes of the caller's slice back one by one.
 */
module BytePool {
  import opened Bytes
  import opened Channels

  /** The capacity Get asks growPool for: `(NObj * ObjSize) * GrowFactor`. */
  function TotalSize(nObj: nat, objSize: nat, growFactor: int): int
  {
    (nObj * objSize) * growFactor
  }

  /** The number of zero bytes growPool sends into the new channel: `newSize - ObjSize * NObj`
      (its loop runs no iteration when this is not positive). */
  function SizeToAdd(newSize: int, objSize: nat, nObj: nat): int
  {
    newSize - objSize * nObj
  }

  /** A queue of `n` bytes holds whole objects of `size` bytes (none at all when size is zero). */
  predicate Aligned(n: nat, size: nat)
  {
    if size == 0 then n == 0 else n % size == 0
  }

  /** Any whole number of objects is aligned. */
  lemma {:induction false} MultipleAligned(k: nat, size: nat)
    ensures Aligned(k * size, size)
  {
    if k > 0 && size > 0 {
      MultipleAligned(k - 1, size);
      assert k * size == (k - 1) * size + size;
    }
  }

  /** Sending or receiving one whole object keeps the queue aligned, and an aligned queue that
      is not empty holds at least one whole object. */
  lemma AlignedStep(n: nat, size: nat)
    requires Aligned(n, size)
    ensures Aligned(n + size, size)
    ensures n > 0 ==> n >= size
    ensures n >= size ==> Aligned(n - size, size)
  {
    if size > 0 {
      var k := n / size;
      assert n == k * size;
      MultipleAligned(k + 1, size);
      assert n + size == (k + 1) * size;
      if n > 0 {
        assert k >= 1;
        assert n >= size by { assert k * size >= 1 * size; }
        MultipleAligned(k - 1, size);
        assert n - size == (k - 1) * size;
      }
    }
  }

  /** Growth by a positive factor adds `NObj * (GrowFactor - 1)` whole objects: the added bytes
      are aligned, and they hold at least one object exactly when NObj > 0 and GrowFactor >= 2. */
  lemma GrowthAdds(nObj: nat, objSize: nat, growFactor: int)
    requires growFactor > 0
    ensures TotalSize(nObj, objSize, growFactor) >= 0
    ensures SizeToAdd(TotalSize(nObj, objSize, growFactor), objSize, nObj)
      == (nObj * (growFactor - 1)) * objSize
    ensures Aligned(SizeToAdd(TotalSize(nObj, objSize, growFactor), objSize, nObj), objSize)
    ensures objSize > 0 ==>
      (SizeToAdd(TotalSize(nObj, objSize, growFactor), objSize, nObj) >= objSize <==>
       nObj > 0 && growFactor >= 2)
  {
    var k: nat := nObj * (growFactor - 1);
    GrowthSplits(nObj, objSize, growFactor);
    MultipleAligned(k, objSize);
    if objSize > 0 {
      if nObj > 0 && growFactor >= 2 {
        AtLeastOne(nObj, growFactor - 1);
        AtLeastOne(k, objSize);
      } else {
        assert k == 0;
      }
    }
  }

  /** `(NObj * ObjSize) * GrowFactor` splits into the ObjSize * NObj bytes already managed and
      `NObj * (GrowFactor - 1)` further objects. */
  lemma GrowthSplits(nObj: nat, objSize: nat, growFactor: int)
    ensures (nObj * objSize) * growFactor
      == (nObj * (growFactor - 1)) * objSize + objSize * nObj
  {
    calc {
      (nObj * objSize) * growFactor;
      (nObj * growFactor) * objSize;
      (nObj * (growFactor - 1) + nObj) * objSize;
      (nObj * (growFactor - 1)) * objSize + nObj * objSize;
    }
  }

  /** A product of positive naturals is at least its second factor. */
  lemma AtLeastOne(a: nat, b: nat)
    requires a >= 1
    ensures a * b >= b
  {
    assert a * b == (a - 1) * b + b;
  }

  /** Receiving a prefix of a zero-filled queue yields zeros and leaves zeros. */
  lemma ZerosSplit(n: nat, k: nat)
    requires k <= n
    ensures Zeros(n)[..k] == Zeros(k) && Zeros(n)[k..] == Zeros(n - k)
  {
  }

  class Pool {
    const objSize: nat
    const nObj: nat
    const growFactor: int8
    const erase: bool
    /** The queue of available bytes; New and growth replace it with a new channel. */
    var data: Channel<byte>

    /** The channel is within capacity and holds whole objects only. */
    ghost predicate Valid()
      reads this, data
    {
      data.Valid() && Aligned(|data.buf|, objSize)
    }

    /** The struct literal `Pool{ObjSize, NObj, GrowFactor, Erase}`: `data` is the nil channel,
        which, like a channel of capacity zero, has length and capacity zero. */
    constructor (objSize: nat, nObj: nat, growFactor: int8, erase: bool)
      ensures Valid()
      ensures this.objSize == objSize && this.nObj == nObj
      ensures this.growFactor == growFactor && this.erase == erase
      ensures fresh(data) && data.buf == [] && data.cap == 0
    {
      this.objSize := objSize;
      this.nObj := nObj;
      this.growFactor := growFactor;
      this.erase := erase;
      data := new Channel(0);
    }

    /** The bytes growth adds to the new channel; NObj is never updated, so this is the same
        for every growth. */
    function GrowthBytes(): int
    {
      SizeToAdd(TotalSize(nObj, objSize, growFactor as int), objSize, nObj)
    }

    /** New: a channel of capacity NObj * ObjSize, filled to capacity with zero bytes. */
    method New()
      modifies this
      ensures Valid() && fresh(data)
      ensures data.cap == nObj * objSize && data.buf == Zeros(nObj * objSize)
    {
      data := new Channel(nObj * objSize);
      var i: nat := 0;
      while i < data.cap
        invariant fresh(data) && data.Valid() && data.cap == nObj * objSize
        invariant data.buf == Zeros(i)
      {
        data.Send(0);
        i := i + 1;
      }
      MultipleAligned(nObj, objSize);
    }

    /** growPool: discards the current channel and installs one of capacity `newSize` holding
        `newSize - ObjSize * NObj` zero bytes. NObj is not updated. */
    method GrowPool(newSize: nat)
      modifies this
      ensures fresh(data) && data.Valid() && data.cap == newSize
      ensures data.buf == Zeros(if SizeToAdd(newSize, objSize, nObj) > 0
                                then SizeToAdd(newSize, objSize, nObj) else 0)
    {
      var sizeToAdd := SizeToAdd(newSize, objSize, nObj);
      data := new Channel(newSize);
      var i: int := 0;
      while i < sizeToAdd
        invariant fresh(data) && data.Valid() && data.cap == newSize
        invariant 0 <= i && (i <= sizeToAdd || i == 0) && data.buf == Zeros(i)
      {
        data.Send(0);
        i := i + 1;
      }
    }

    /** Get comes back (rather than blocking on a receive) unless the queue is empty and
        growth would add less than one object. */
    predicate CanGet()
      reads this, data
    {
      |data.buf| == 0 && growFactor > 0 ==> GrowthBytes() >= objSize
    }

    /** Get: the first ObjSize bytes of the queue, in order, in a new slice; on an empty queue,
        nil when the pool may not grow, and otherwise the first ObjSize bytes of a freshly grown
        queue of capacity NObj * ObjSize * GrowFactor. With ObjSize zero the slice is never
        appended to and stays nil. */
    method Get() returns (o: array?<byte>)
      requires Valid() && CanGet()
      modifies this, data
      ensures Valid()
      ensures o == null <==> (old(data.buf) == [] && growFactor <= 0) || objSize == 0
      ensures o != null ==> fresh(o) && o.Length == objSize
      ensures old(data.buf) != [] || growFactor <= 0 ==> data == old(data)
      ensures old(data.buf) == [] && growFactor <= 0 ==> data.buf == []
      ensures old(data.buf) == [] && growFactor > 0 ==>
        fresh(data) && data.cap == TotalSize(nObj, objSize, growFactor as int)
      ensures old(data.buf) != [] ==>
        o[..] == old(data.buf)[..objSize] && data.buf == old(data.buf)[objSize..]
      ensures old(data.buf) == [] && growFactor > 0 ==>
        && (o != null ==> o[..] == Zeros(objSize))
        && data.buf == Zeros(GrowthBytes() - objSize)
    {
      if |data.buf| == 0 {
        if growFactor <= 0 {
          return null;
        }
        GrowthAdds(nObj, objSize, growFactor as int);
        GrowPool(TotalSize(nObj, objSize, growFactor as int));
        ZerosSplit(GrowthBytes(), objSize);
      }
      AlignedStep(|data.buf|, objSize);
      var taken := ReceiveObject();
      AlignedStep(|data.buf|, objSize);
      if objSize == 0 {
        o := null;
      } else {
        o := new byte[objSize](j requires 0 <= j < objSize => taken[j]);
        assert o[..] == taken;
      }
    }

    /** The receive loop of Get: appends ObjSize bytes received from the queue, in order. */
    method ReceiveObject() returns (taken: seq<byte>)
      requires data.Valid() && |data.buf| >= objSize
      modifies data
      ensures data.Valid()
      ensures taken == old(data.buf)[..objSize] && data.buf == old(data.buf)[objSize..]
    {
      taken := [];
      var i: nat := 0;
      while i < objSize
        invariant i <= objSize && data.Valid()
        invariant |taken| == i && taken + data.buf == old(data.buf)
      {
        var b := data.Receive();
        taken := taken + [b];
        i := i + 1;
      }
    }

    /** Return: with Erase, zeroes the first ObjSize bytes of the caller's slice in place; then
        sends those ObjSize bytes, in index order, to the back of the queue. */
    method Return(o: array<byte>)
      requires Valid() && o.Length >= objSize && |data.buf| + objSize <= data.cap
      modifies o, data
      ensures Valid()
      ensures forall j :: 0 <= j < o.Length ==>
        o[j] == if erase && j < objSize then 0 else old(o[j])
      ensures data.buf == old(data.buf) + o[..objSize]
    {
      if erase {
        var i: nat := 0;
        while i < objSize
          invariant i <= objSize
          invariant forall j :: 0 <= j < o.Length ==>
            o[j] == if j < i then 0 else old(o[j])
          modifies o
        {
          o[i] := 0;
          i := i + 1;
        }
      }
      AlignedStep(|data.buf|, objSize);
      var i: nat := 0;
      while i < objSize
        invariant i <= objSize && data.Valid()
        invariant data.buf == old(data.buf) + o[..i]
        modifies data
      {
        data.Send(o[i]);
        i := i + 1;
        assert o[..i] == o[..i - 1] + [o[i - 1]];
      }
    }
  }
}
