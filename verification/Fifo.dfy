/** The byte queue of fifo.c and the pipe of pipe.c on top of it. */
module Fifo {

  /** Place k after p in a ring of the given capacity. */
  function Place(p: nat, k: nat, capacity: nat): (r: nat)
    requires p < capacity && k <= capacity
    ensures r < capacity
  {
    if p + k >= capacity then p + k - capacity else p + k
  }

  /** The n bytes of a ring from place p on. */
  function Ring(b: seq<char>, p: nat, n: nat): (r: seq<char>)
    requires p < |b| && n <= |b|
    ensures |r| == n
  {
    if p + n <= |b| then b[p..p + n] else b[p..] + b[..p + n - |b|]
  }

  lemma RingAt(b: seq<char>, p: nat, n: nat, k: nat)
    requires p < |b| && n <= |b| && k < n
    ensures Ring(b, p, n)[k] == b[Place(p, k, |b|)]
  {
  }

  lemma RingSplits(b: seq<char>, p: nat, n: nat, k: nat)
    requires p < |b| && k <= n <= |b|
    ensures Ring(b, p, n) == Ring(b, p, k) + Ring(b, Place(p, k, |b|), n - k)
  {
    hide Ring;
    forall i: nat | i < n ensures Ring(b, p, n)[i] == (Ring(b, p, k) + Ring(b, Place(p, k, |b|), n - k))[i] {
      RingAt(b, p, n, i);
      if i < k { RingAt(b, p, k, i); } else { RingAt(b, Place(p, k, |b|), n - k, i - k); }
    }
  }

  /** Bytes stored outside the n bytes do not matter. */
  lemma RingKeeps(b: seq<char>, c: seq<char>, p: nat, n: nat)
    requires |c| == |b| && p < |b| && n <= |b|
    requires forall k: nat :: k < n ==> c[Place(p, k, |b|)] == b[Place(p, k, |b|)]
    ensures Ring(c, p, n) == Ring(b, p, n)
  {
    forall i: nat | i < n ensures Ring(c, p, n)[i] == Ring(b, p, n)[i] {
      RingAt(b, p, n, i);
      RingAt(c, p, n, i);
    }
  }

  class Queue {
    const buffer: array<char>
    var size: int
    var in_: nat
    var out: nat

    ghost predicate Shape()
      reads this
    {
      in_ < buffer.Length && out < buffer.Length && size >= 0
    }

    ghost predicate Valid()
      reads this
    {
      Shape() && size <= buffer.Length && in_ == Place(out, size, buffer.Length)
    }

    /** The bytes put in and not yet got out, the oldest first. */
    ghost function Contents(): seq<char>
      requires Valid()
      reads this, buffer
    {
      Ring(buffer[..], out, size)
    }

    constructor (b: array<char>)
      requires b.Length > 0
      ensures Valid() && buffer == b && Contents() == []
    {
      buffer := b;
      size, in_, out := 0, 0, 0;
    }

    /** fifo_inc and fifo_dec */
    method Inc(p: nat) returns (r: nat)
      requires p < buffer.Length
      ensures r == Place(p, 1, buffer.Length)
    {
      r := p + 1;
      if r == buffer.Length {
        r := 0;
      }
    }

    method Dec(p: nat) returns (r: nat)
      requires p < buffer.Length
      ensures r < buffer.Length && Place(r, 1, buffer.Length) == p
    {
      r := if p == 0 then buffer.Length - 1 else p - 1;
    }

    method GetChar() returns (c: char)
      requires Valid() && size > 0
      modifies `size, `out
      ensures Valid() && old(Contents()) == [c] + Contents()
    {
      RingSplits(buffer[..], out, size, 1);
      c := buffer[out];
      out := Inc(out);
      size := size - 1;
    }

    method UngetChar(c: char)
      requires Valid() && size < buffer.Length
      modifies `size, `out, buffer
      ensures Valid() && Contents() == [c] + old(Contents())
    {
      ghost var b, p, n := buffer[..], out, size;
      out := Dec(out);
      size := size + 1;
      buffer[out] := c;
      RingKeeps(b, buffer[..], p, n);
      RingSplits(buffer[..], out, size, 1);
    }

    method PutChar(c: char)
      requires Valid() && size < buffer.Length
      modifies `size, `in_, buffer
      ensures Valid() && Contents() == old(Contents()) + [c]
    {
      ghost var b, n := buffer[..], size;
      buffer[in_] := c;
      in_ := Inc(in_);
      size := size + 1;
      RingKeeps(b, buffer[..], out, n);
      RingSplits(buffer[..], out, size, n);
    }

    method UnputChar() returns (c: char)
      requires Valid() && size > 0
      modifies `size, `in_
      ensures Valid() && old(Contents()) == Contents() + [c]
    {
      RingSplits(buffer[..], out, size, size - 1);
      in_ := Dec(in_);
      size := size - 1;
      c := buffer[in_];
    }

    /** fifo_read: up to left bytes, in chunks that end where the ring does. */
    method Read(left0: nat) returns (data: seq<char>)
      requires Valid()
      modifies `size, `out
      ensures Valid() && |data| == (if left0 <= old(size) then left0 else old(size))
      ensures old(Contents()) == data + Contents()
    {
      hide Ring, Place;
      data := [];
      var left := if left0 <= size then left0 else size;
      ghost var all := Contents();
      while left > 0
        invariant Valid() && 0 <= left <= size && all == data + Contents()
        invariant |data| + left == if left0 <= old(size) then left0 else old(size)
      {
        var chunk := if left <= buffer.Length - out then left else buffer.Length - out;
        var d := Load(chunk);
        assert data + (d + Contents()) == (data + d) + Contents();
        data := data + d;
        left := left - chunk;
      }
    }

    /** One turn of its loop: the next bytes are before the end of the ring. */
    method Load(chunk: nat) returns (d: seq<char>)
      requires Valid() && 0 < chunk <= size && chunk <= buffer.Length - out
      modifies `size, `out
      ensures Valid() && size == old(size) - chunk && |d| == chunk && old(Contents()) == d + Contents()
    {
      RingSplits(buffer[..], out, size, chunk);
      d := buffer[out..out + chunk];
      assert d == Ring(buffer[..], out, chunk);
      size := size - chunk;
      out := out + chunk;
      if out == buffer.Length {
        out := 0;
      }
    }

    /** fifo_write puts in everything, whether there is room or not: the queue is
        sound afterwards, with the bytes at its end, if and only if there is. */
    method Write(data: seq<char>)
      requires Valid()
      modifies `size, `in_, buffer
      ensures size == old(size) + |data|
      ensures Valid() <==> |data| <= buffer.Length - old(size)
      ensures |data| <= buffer.Length - old(size) ==> Contents() == old(Contents()) + data
    {
      var written := 0;
      ghost var all := Contents();
      while written < |data|
        invariant Shape() && 0 <= written <= |data| && size == old(size) + written
        invariant |data| <= buffer.Length - old(size) ==> Valid() && Contents() == all + data[..written]
        decreases |data| - written
      {
        var left := |data| - written;
        var chunk := if left <= buffer.Length - in_ then left else buffer.Length - in_;
        Store(data[written..written + chunk]);
        assert data[..written + chunk] == data[..written] + data[written..written + chunk];
        written := written + chunk;
      }
      assert data[..written] == data;
    }

    /** One turn of its loop: d fits before the end of the ring. */
    method Store(d: seq<char>)
      requires Shape() && 0 < |d| <= buffer.Length - in_
      modifies `size, `in_, buffer
      ensures Shape() && size == old(size) + |d|
      ensures old(Valid()) && |d| <= buffer.Length - old(size) ==> Valid() && Contents() == old(Contents()) + d
    {
      ghost var b, n := buffer[..], size;
      forall i | 0 <= i < |d| {
        buffer[in_ + i] := d[i];
      }
      if old(Valid()) && |d| <= buffer.Length - size {
        RingKeeps(b, buffer[..], out, n);
        RingSplits(buffer[..], out, n + |d|, n);
        assert Ring(buffer[..], in_, |d|) == d;
      }
      size := size + |d|;
      in_ := in_ + |d|;
      if in_ == buffer.Length {
        in_ := 0;
      }
    }
  }
}
