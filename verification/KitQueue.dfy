/** The byte-block ring queue, as a bounded first-in first-out sequence of elements. */
module KitQueue {
  import opened Bytes
  import opened MachineInts

  // ---------------------------------------------------------------- blocks of a byte buffer

  /** Block `i` of `e` bytes lies inside a buffer of `n` bytes. */
  predicate BlockFits(n: nat, i: nat, e: nat) {
    i * e + e <= n
  }

  function Block(buf: seq<byte>, i: nat, e: nat): seq<byte>
    requires BlockFits(|buf|, i, e)
  {
    buf[i * e..i * e + e]
  }

  function WithBlock(buf: seq<byte>, i: nat, e: nat, data: seq<byte>): seq<byte>
    requires BlockFits(|buf|, i, e) && |data| == e
  {
    buf[..i * e] + data + buf[i * e + e..]
  }

  lemma LowerBlockEndsBefore(i: nat, j: nat, e: nat)
    requires i < j
    ensures i * e + e <= j * e
  {
    assert (j - i - 1) * e >= 0;
    assert j * e == i * e + e + (j - i - 1) * e;
  }

  lemma BlocksFit(n: nat, c: nat, e: nat, i: nat)
    requires c * e <= n && i < c
    ensures BlockFits(n, i, e)
  {
    LowerBlockEndsBefore(i, c, e);
  }

  /** Writing one block changes that block and no other. */
  lemma WriteIsLocal(buf: seq<byte>, i: nat, j: nat, e: nat, data: seq<byte>)
    requires BlockFits(|buf|, i, e) && BlockFits(|buf|, j, e) && |data| == e
    ensures |WithBlock(buf, i, e, data)| == |buf|
    ensures Block(WithBlock(buf, i, e, data), j, e) == if i == j then data else Block(buf, j, e)
  {
    if i < j {
      LowerBlockEndsBefore(i, j, e);
    } else if j < i {
      LowerBlockEndsBefore(j, i, e);
    }
  }

  // ---------------------------------------------------------------- ring indices

  /** `k` places after `h` on a ring of `c`. */
  function Around(h: nat, k: nat, c: nat): (s: nat)
    requires h < c && k <= c
    ensures s < c
  {
    if h + k < c then h + k else h + k - c
  }

  lemma MultipleBelowOne(d: int, c: int)
    requires 0 < c && -c < d * c < c
    ensures d == 0
  {
    assert 1 <= d ==> c <= d * c;
    assert d <= -1 ==> d * c <= -c;
  }

  lemma AroundIsRemainder(h: nat, k: nat, c: nat)
    requires h < c && k <= c
    ensures Around(h, k, c) == (h + k) % c
  {
    var n, turns := h + k, if h + k < c then 0 else 1;
    assert n == n / c * c + n % c && n == turns * c + Around(h, k, c);
    assert (n / c - turns) * c == Around(h, k, c) - n % c;
    MultipleBelowOne(n / c - turns, c);
  }

  // ---------------------------------------------------------------- the stored elements

  ghost predicate RingFits(buf: seq<byte>, head: nat, count: nat, c: nat, e: nat) {
    c * e <= |buf| && head < c && count <= c
  }

  function SlotOf(buf: seq<byte>, head: nat, k: nat, c: nat, e: nat): seq<byte>
    requires head < c && k <= c && c * e <= |buf|
  {
    BlocksFit(|buf|, c, e, Around(head, k, c));
    Block(buf, Around(head, k, c), e)
  }

  /** The elements from the oldest to the newest. */
  ghost function Elements(buf: seq<byte>, head: nat, count: nat, c: nat, e: nat): (r: seq<seq<byte>>)
    requires RingFits(buf, head, count, c, e)
    ensures |r| == count && forall k :: 0 <= k < count ==> r[k] == SlotOf(buf, head, k, c, e)
  {
    seq(count, k requires 0 <= k < count => SlotOf(buf, head, k, c, e))
  }

  /** A write at the tail adds a newest element. */
  lemma WriteAppends(buf: seq<byte>, head: nat, count: nat, c: nat, e: nat, data: seq<byte>)
    requires RingFits(buf, head, count, c, e) && count < c && |data| == e
    ensures BlockFits(|buf|, Around(head, count, c), e)
    ensures var buf' := WithBlock(buf, Around(head, count, c), e, data);
      RingFits(buf', head, count + 1, c, e)
      && Elements(buf', head, count + 1, c, e) == Elements(buf, head, count, c, e) + [data]
  {
    var t := Around(head, count, c);
    BlocksFit(|buf|, c, e, t);
    var buf' := WithBlock(buf, t, e, data);
    WriteIsLocal(buf, t, t, e, data);
    forall k | 0 <= k < count ensures SlotOf(buf', head, k, c, e) == SlotOf(buf, head, k, c, e) {
      var s := Around(head, k, c);
      BlocksFit(|buf|, c, e, s);
      WriteIsLocal(buf, t, s, e, data);
    }
  }

  /** Moving the head drops the oldest element. */
  lemma MoveDropsOldest(buf: seq<byte>, head: nat, count: nat, c: nat, e: nat)
    requires RingFits(buf, head, count, c, e) && 0 < count
    ensures var next := Around(head, 1, c);
      && RingFits(buf, next, count - 1, c, e)
      && Elements(buf, head, count, c, e) == [SlotOf(buf, head, 0, c, e)] + Elements(buf, next, count - 1, c, e)
  {
    var next := Around(head, 1, c);
    forall k | 0 < k < count ensures SlotOf(buf, head, k, c, e) == SlotOf(buf, next, k - 1, c, e) {
    }
  }

  lemma Regroup<T>(a: seq<T>, x: T, b: seq<T>)
    ensures a + ([x] + b) == (a + [x]) + b
  {
  }

  // ---------------------------------------------------------------- the queue

  class Queue {
    const buffer: array<byte>
    const capacity: uint32
    const elemSize: uint32
    var head: uint32
    var tail: uint32
    var count: uint32
    ghost var accepted: seq<seq<byte>>
    ghost var delivered: seq<seq<byte>>

    /** The tail is a count ahead of the head, byte offsets stay within 32 bits, and every accepted element is either
        delivered or still stored, in order. */
    ghost predicate Valid()
      reads this, buffer
    {
      && 0 < capacity && 0 < elemSize && capacity * elemSize < U32_SPAN
      && RingFits(buffer[..], head, count, capacity, elemSize)
      && tail == Around(head, count, capacity)
      && accepted == delivered + Contents()
    }

    ghost function Contents(): seq<seq<byte>>
      requires RingFits(buffer[..], head, count, capacity, elemSize)
      reads this, buffer
    {
      Elements(buffer[..], head, count, capacity, elemSize)
    }

    constructor (buffer: array<byte>, capacity: uint32, elemSize: uint32)
      requires 0 < capacity && 0 < elemSize && capacity * elemSize <= buffer.Length && capacity * elemSize < U32_SPAN
      ensures Valid() && Contents() == [] && accepted == [] && delivered == []
      ensures this.buffer == buffer && this.capacity == capacity && this.elemSize == elemSize
    {
      this.buffer, this.capacity, this.elemSize := buffer, capacity, elemSize;
      head, tail, count := 0, 0, 0;
      accepted, delivered := [], [];
    }

    /** Initialisation on the caller's buffer, or on a new one when there is none; refused for empty dimensions. */
    static method KitQueueInit(buffer: array?<byte>, capacity: uint32, elemSize: uint32) returns (ret: int, q: Queue?)
      requires capacity * elemSize < U32_SPAN && (buffer != null ==> capacity * elemSize <= buffer.Length)
      ensures ret == (if capacity == 0 || elemSize == 0 then -1 else 0) && (q != null <==> ret == 0)
      ensures q != null ==>
                && q.Valid() && fresh(q) && q.capacity == capacity && q.elemSize == elemSize
                && q.Contents() == [] && q.accepted == [] && q.delivered == []
                && (if buffer != null then q.buffer == buffer else fresh(q.buffer))
    {
      if capacity == 0 || elemSize == 0 {
        return -1, null;
      }
      var area: array<byte>;
      if buffer != null {
        area := buffer;
      } else {
        area := new byte[capacity * elemSize];
      }
      q := new Queue(area, capacity, elemSize);
      ret := 0;
    }

    /** `memcpy` of one element into block `i`. */
    method StoreBlock(i: nat, data: array<byte>)
      requires BlockFits(buffer.Length, i, elemSize) && data != buffer && data.Length == elemSize
      modifies buffer
      ensures buffer[..] == WithBlock(old(buffer[..]), i, elemSize, data[..])
    {
      for k := 0 to elemSize
        invariant forall m :: 0 <= m < buffer.Length ==>
                    buffer[m] == if i * elemSize <= m < i * elemSize + k then data[m - i * elemSize] else old(buffer[m])
      {
        buffer[i * elemSize + k] := data[k];
      }
    }

    /** `memcpy` of block `i` into `data`. */
    method LoadBlock(i: nat, data: array<byte>)
      requires BlockFits(buffer.Length, i, elemSize) && data != buffer && data.Length == elemSize
      modifies data
      ensures data[..] == Block(buffer[..], i, elemSize)
    {
      for k := 0 to elemSize
        invariant forall m :: 0 <= m < k ==> data[m] == buffer[i * elemSize + m]
      {
        data[k] := buffer[i * elemSize + k];
      }
    }

    method KitQueueEnqueue(data: array<byte>) returns (ret: int)
      requires Valid() && data != buffer && data.Length == elemSize
      modifies this, buffer
      ensures Valid() && delivered == old(delivered)
      ensures ret == if old(count) < capacity then 0 else -1
      ensures ret == 0 ==> accepted == old(accepted) + [data[..]] && Contents() == old(Contents()) + [data[..]]
      ensures ret == 0 ==> BlockFits(buffer.Length, old(tail), elemSize)
                           && buffer[..] == WithBlock(old(buffer[..]), old(tail), elemSize, data[..])
      ensures ret != 0 ==> accepted == old(accepted) && Contents() == old(Contents()) && buffer[..] == old(buffer[..])
    {
      if count >= capacity {
        return -1;
      }
      WriteAppends(buffer[..], head, count, capacity, elemSize, data[..]);
      AroundIsRemainder(tail, 1, capacity);
      StoreBlock(tail, data);
      tail := (tail + 1) % capacity;
      count := count + 1;
      accepted := accepted + [data[..]];
      ret := 0;
    }

    method KitQueueDequeue(data: array<byte>) returns (ret: int)
      requires Valid() && data != buffer && data.Length == elemSize
      modifies this, data
      ensures Valid() && accepted == old(accepted)
      ensures ret == if old(count) == 0 then -1 else 0
      ensures ret == 0 ==> old(Contents()) == [data[..]] + Contents() && delivered == old(delivered) + [data[..]]
      ensures ret != 0 ==> Contents() == old(Contents()) && delivered == old(delivered) && data[..] == old(data[..])
    {
      if count == 0 {
        return -1;
      }
      MoveDropsOldest(buffer[..], head, count, capacity, elemSize);
      AroundIsRemainder(head, 1, capacity);
      BlocksFit(buffer.Length, capacity, elemSize, head);
      ghost var bytes := buffer[..];
      ghost var rest := Elements(bytes, Around(head, 1, capacity), count - 1, capacity, elemSize);
      Regroup(delivered, SlotOf(bytes, head, 0, capacity, elemSize), rest);
      LoadBlock(head, data);
      assert buffer[..] == bytes;
      head := (head + 1) % capacity;
      count := count - 1;
      assert Contents() == rest;
      delivered := delivered + [data[..]];
      ret := 0;
    }

    method KitQueueIsEmpty() returns (empty: bool)
      requires Valid()
      ensures empty <==> Contents() == []
    {
      empty := count == 0;
    }

    method KitQueueIsFull() returns (full: bool)
      requires Valid()
      ensures full <==> |Contents()| == capacity
    {
      full := count == capacity;
    }

    method KitQueueCount() returns (cnt: uint32)
      requires Valid()
      ensures cnt == |Contents()| == |accepted| - |delivered|
    {
      cnt := count;
    }
  }
}
