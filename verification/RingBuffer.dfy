/** The bounded buffer of the token ring: four places, of which one stays
    empty so that a full buffer differs from an empty one. */
module RingBuffer {

  const CAPACITY := 4

  /** The fields data, in and out of buffer_t. */
  datatype Buf = Buf(data: seq<int>, in_: nat, out: nat)

  predicate WellFormed(b: Buf) {
    |b.data| == CAPACITY && b.in_ < CAPACITY && b.out < CAPACITY
  }

  predicate IsEmpty(b: Buf) { b.in_ == b.out }

  predicate IsFull(b: Buf) { (b.in_ + 1) % CAPACITY == b.out }

  function Put(b: Buf, item: int): Buf
    requires WellFormed(b)
  {
    Buf(b.data[b.in_ := item], (b.in_ + 1) % CAPACITY, b.out)
  }

  function Get(b: Buf): (int, Buf)
    requires WellFormed(b)
  {
    (b.data[b.out], b.(out := (b.out + 1) % CAPACITY))
  }

  function Size(b: Buf): nat
    requires WellFormed(b)
  {
    (b.in_ + CAPACITY - b.out) % CAPACITY
  }

  /** The queued items, oldest first. */
  function Contents(b: Buf): (s: seq<int>)
    requires WellFormed(b)
    ensures |s| < CAPACITY
    ensures IsEmpty(b) <==> s == []
    ensures IsFull(b) <==> |s| == CAPACITY - 1
  {
    seq(Size(b), k requires 0 <= k < Size(b) => b.data[(b.out + k) % CAPACITY])
  }

  lemma PutAppends(b: Buf, item: int)
    requires WellFormed(b) && !IsFull(b)
    ensures WellFormed(Put(b, item)) && Contents(Put(b, item)) == Contents(b) + [item]
  {
    var b' := Put(b, item);
    assert Size(b') == Size(b) + 1;
    forall k | 0 <= k < Size(b') ensures Contents(b')[k] == (Contents(b) + [item])[k] {
      assert (b.out + Size(b)) % CAPACITY == b.in_;
    }
  }

  lemma GetRemoves(b: Buf)
    requires WellFormed(b) && !IsEmpty(b)
    ensures WellFormed(Get(b).1)
    ensures Contents(b) == [Get(b).0] + Contents(Get(b).1)
  {
    var (item, b') := Get(b);
    assert Size(b) == Size(b') + 1;
    forall k | 0 < k < Size(b) ensures Contents(b)[k] == Contents(b')[k - 1] {
      assert (b.out + k) % CAPACITY == (b'.out + (k - 1)) % CAPACITY;
    }
  }

  /** buffer_t itself, updated in place. The methods are what runs between
      taking the mutex and giving it up again. */
  class BoundedBuffer {
    const data: array<int>
    var in_: nat
    var out: nat

    ghost predicate Valid()
      reads this, data
    {
      data.Length == CAPACITY && WellFormed(Value())
    }

    ghost function Value(): Buf
      reads this, data
    {
      Buf(data[..], in_, out)
    }

    constructor ()
      ensures Valid() && Contents(Value()) == [] && fresh(data)
    {
      data := new int[CAPACITY];
      in_, out := 0, 0;
    }

    method PutItem(item: int)
      requires Valid() && !IsFull(Value())
      modifies `in_, data
      ensures Valid() && Value() == Put(old(Value()), item)
      ensures Contents(Value()) == old(Contents(Value())) + [item]
    {
      PutAppends(Value(), item);
      data[in_] := item;
      in_ := (in_ + 1) % CAPACITY;
    }

    method GetItem() returns (item: int)
      requires Valid() && !IsEmpty(Value())
      modifies `out
      ensures Valid() && (item, Value()) == Get(old(Value()))
      ensures old(Contents(Value())) == [item] + Contents(Value())
    {
      GetRemoves(Value());
      item := data[out];
      out := (out + 1) % CAPACITY;
    }
  }
}
