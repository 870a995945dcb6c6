/** The pools of memory.c: pages cut into slots of one size, each page with a list
    of its free slots. */
module Slab {
  import opened Division
  import opened Lists
  import opened Options

  /** object_count and object_list; slots are addresses. */
  datatype Bucket = Bucket(count: int, objects: seq<nat>)

  /** A bucket is known by the number of its page. */
  datatype Pool = Pool(size: nat, free: seq<nat>, busy: seq<nat>, buckets: map<nat, Bucket>)

  /** The slots that begin between two addresses. */
  function Carve(from: nat, end: nat, size: nat): (r: seq<nat>)
    requires size > 0
    decreases end - from
  {
    if from >= end then [] else [from] + Carve(from + size, end, size)
  }

  /** The slots of a page, after the 28 bytes of struct bucket. */
  function Slots(page: nat, size: nat): seq<nat>
    requires size > 0
  {
    Carve(4096 * page + 28, 4096 * page + 4096, size)
  }

  lemma CarveStep(from: nat, end: nat, size: nat)
    requires size > 0 && from < end
    ensures Carve(from, end, size) == [from] + Carve(from + size, end, size)
  {
  }

  lemma CarveNone(end: nat, size: nat)
    requires size > 0
    ensures forall from: nat :: from >= end ==> Carve(from, end, size) == []
  {
  }

  lemma {:induction false} CarveIs(from: nat, end: nat, size: nat)
    requires size > 0
    ensures Distinct(Carve(from, end, size)) && (from < end ==> Carve(from, end, size) != [])
    ensures forall a :: a in Carve(from, end, size) ==> from <= a < end
    decreases end - from
  {
    CarveNone(end, size);
    hide Carve;
    if from < end {
      CarveStep(from, end, size);
      CarveIs(from + size, end, size);
      Prepended(from, Carve(from + size, end, size));
    }
  }

  lemma Prepended(x: nat, q: seq<nat>)
    requires Distinct(q) && x !in q
    ensures Distinct([x] + q)
  {
  }

  /** page_down of a slot is its bucket. */
  lemma SlotInPage(page: nat, size: nat, a: nat)
    requires size > 0 && a in Slots(page, size)
    ensures a / 4096 == page
  {
    CarveIs(4096 * page + 28, 4096 * page + 4096, size);
  }

  /** The header of the page is left alone, and behind it every place is a slot that is a
      multiple of the size away and before the end. */
  lemma SlotsAre(page: nat, size: nat, a: nat)
    requires size > 0
    ensures a in Slots(page, size) <==>
            4096 * page + 28 <= a < 4096 * page + 4096 && (a - 4096 * page - 28) % size == 0
  {
    CarveHas(4096 * page + 28, 4096 * page + 4096, size, a);
  }

  lemma {:induction false} CarveHas(from: nat, end: nat, size: nat, a: nat)
    requires size > 0
    ensures a in Carve(from, end, size) <==> from <= a < end && (a - from) % size == 0
    decreases end - from
  {
    if from < end {
      CarveHas(from + size, end, size, a);
      if from + size <= a {
        ModMinus(a - from, size);
      } else if from <= a {
        DivModIs(a - from, size, 0, a - from);
      }
    }
  }

  /** The places in the page behind its header that are a multiple of the size away from
      it, in order. */
  ghost predicate AllPlaces(page: nat, size: nat, q: seq<nat>)
    requires size > 0
  {
    && (forall a: nat :: a in q <==>
          4096 * page + 28 <= a < 4096 * page + 4096 && (a - 4096 * page - 28) % size == 0)
    && forall i, j :: 0 <= i < j < |q| ==> q[i] < q[j]
  }

  lemma AllSlots(page: nat, size: nat)
    requires size > 0
    ensures AllPlaces(page, size, Slots(page, size))
  {
    forall a: nat
      ensures a in Slots(page, size) <==>
              4096 * page + 28 <= a < 4096 * page + 4096 && (a - 4096 * page - 28) % size == 0
    {
      SlotsAre(page, size, a);
    }
    forall i, j | 0 <= i < j < |Slots(page, size)| ensures Slots(page, size)[i] < Slots(page, size)[j] {
      CarveAscends(4096 * page + 28, 4096 * page + 4096, size, i, j);
    }
  }

  /** The slots are in order. */
  lemma {:induction false} CarveAscends(from: nat, end: nat, size: nat, i: nat, j: nat)
    requires size > 0 && i < j < |Carve(from, end, size)|
    ensures Carve(from, end, size)[i] < Carve(from, end, size)[j]
    decreases end - from
  {
    var rest := Carve(from + size, end, size);
    CarveIs(from + size, end, size);
    if i > 0 { CarveAscends(from + size, end, size, i - 1, j - 1); } else { assert rest[j - 1] in rest; }
  }

  /** Two slots, one of which begins before the other, do not overlap, but the
      last one need not end in the page. */
  lemma {:induction false} SlotsApart(from: nat, end: nat, size: nat, a: nat, b: nat)
    requires size > 0 && a in Carve(from, end, size) && b in Carve(from, end, size) && a < b
    ensures a + size <= b
    decreases end - from
  {
    CarveIs(from + size, end, size);
    if a != from {
      SlotsApart(from + size, end, size, a, b);
    }
  }

  function LastSlot(from: nat, end: nat, size: nat): (a: nat)
    requires size > 0 && from < end
    ensures a < end <= a + size
    decreases end - from
  {
    if from + size >= end then from else LastSlot(from + size, end, size)
  }

  /** The last slot begins in the page; it ends there too if and only if the slots
      fill the page exactly. */
  lemma {:induction false} LastSlotFits(from: nat, end: nat, size: nat)
    requires size > 0 && from < end
    ensures LastSlot(from, end, size) in Carve(from, end, size)
    ensures LastSlot(from, end, size) + size <= end <==> (end - from) % size == 0
    decreases end - from
  {
    var n := end - from;
    if from + size < end {
      LastSlotFits(from + size, end, size);
      ModMinus(n, size);
    } else if from + size > end {
      DivModIs(n, size, 0, n);
    } else {
      DivModIs(n, size, 1, 0);
    }
  }

  /** The sizes of alloc_memory_init. */
  function PoolSizes(): seq<nat> { [16, 32, 64, 128, 256, 512, 1024, 2000, 4000] }

  /** None of them does: in every pool, the last slot of every page runs over its
      end. */
  lemma LastSlotRunsOver(i: nat, page: nat)
    requires i < 9
    ensures var size := PoolSizes()[i];
            LastSlot(4096 * page + 28, 4096 * page + 4096, size) + size > 4096 * page + 4096
  {
    LastSlotFits(4096 * page + 28, 4096 * page + 4096, PoolSizes()[i]);
    assert 4068 % 16 == 4 && 4068 % 32 == 4 && 4068 % 64 == 36 && 4068 % 128 == 100 && 4068 % 256 == 228;
    assert 4068 % 512 == 484 && 4068 % 1024 == 996 && 4068 % 2000 == 68 && 4068 % 4000 == 68;
  }

  // ----- the lists -----

  /** The bucket of a page: its free slots are those of its slots that are not
      live, each once, as many as it says, and it is on the free list exactly
      when there are some. */
  ghost predicate BucketOk(p: Pool, b: nat, live: set<nat>)
    requires p.size > 0 && b in p.buckets
  {
    var k := p.buckets[b];
    && k.count == |k.objects| && Distinct(k.objects) && (b in p.free <==> k.objects != [])
    && (forall a :: a in k.objects ==> a in Slots(b, p.size) && a !in live)
    && (forall a :: a in Slots(b, p.size) ==> a in k.objects || a in live)
  }

  ghost predicate Good(p: Pool, live: set<nat>) {
    && p.size > 0 && Distinct(p.free) && Distinct(p.busy)
    && (forall b :: b in p.buckets <==> b in p.free || b in p.busy)
    && (forall b :: b in p.free ==> b !in p.busy)
    && (forall b :: b in p.buckets ==> BucketOk(p, b, live))
    && (forall a :: a in live ==> a / 4096 in p.buckets && a in Slots(a / 4096, p.size))
  }

  /** bucket_new and list_push_back. */
  function Grown(p: Pool, page: nat): Pool
    requires p.size > 0
  {
    var objects := Slots(page, p.size);
    p.(buckets := p.buckets[page := Bucket(|objects|, objects)], free := p.free + [page])
  }

  lemma GrownGood(p: Pool, page: nat, live: set<nat>)
    requires Good(p, live) && page !in p.buckets
    ensures Good(Grown(p, page), live)
  {
    var p' := Grown(p, page);
    AppendDistinct(p.free, page);
    CarveIs(4096 * page + 28, 4096 * page + 4096, p.size);
    hide Slots;
    forall b | b in p'.buckets ensures BucketOk(p', b, live) {
      if b != page {
        assert BucketOk(p, b, live);
      } else {
        forall a | a in Slots(page, p.size) ensures a !in live { SlotInPage(page, p.size, a); }
      }
    }
  }

  /** bucket_alloc_object on the first free bucket. */
  function Taken(p: Pool): Pool
    requires p.free != [] && p.free[0] in p.buckets && p.buckets[p.free[0]].objects != []
  {
    var b := p.free[0];
    var k := p.buckets[b];
    var p' := p.(buckets := p.buckets[b := Bucket(k.count - 1, k.objects[1..])]);
    if k.objects[1..] == [] then p'.(free := Without(p.free, b), busy := p.busy + [b]) else p'
  }

  /** The slot that is handed out was free, and is live now. */
  lemma TakenGood(p: Pool, live: set<nat>)
    requires Good(p, live) && p.free != []
    ensures p.free[0] in p.buckets && p.buckets[p.free[0]].objects != []
    ensures var a := p.buckets[p.free[0]].objects[0]; a !in live && Good(Taken(p), live + {a})
  {
    var b := p.free[0];
    assert b in p.free && BucketOk(p, b, live);
    var k := p.buckets[b];
    var a, p' := k.objects[0], Taken(p);
    assert a in k.objects && k.objects == [a] + k.objects[1..];
    SlotInPage(b, p.size, a);
    WithoutIs(p.free, b);
    AppendDistinct(p.busy, b);
    hide Slots;
    forall x | x in p'.buckets ensures BucketOk(p', x, live + {a}) {
      TakenBucket(p, live, x);
    }
  }

  lemma TakenBucket(p: Pool, live: set<nat>, x: nat)
    requires Good(p, live) && p.free != [] && p.free[0] in p.buckets && p.buckets[p.free[0]].objects != []
    requires x in p.buckets
    ensures BucketOk(Taken(p), x, live + {p.buckets[p.free[0]].objects[0]})
  {
    hide Slots, Without;
    var b := p.free[0];
    var k, a := p.buckets[b], p.buckets[b].objects[0];
    assert BucketOk(p, b, live) && BucketOk(p, x, live);
    WithoutIs(p.free, b);
    assert a in k.objects && k.objects == [a] + k.objects[1..] && a !in k.objects[1..];
    SlotInPage(b, p.size, a);
    if x != b && a in Slots(x, p.size) { SlotInPage(x, p.size, a); }
  }

  /** pool_free_object */
  function Returned(p: Pool, a: nat): Pool
    requires a / 4096 in p.buckets
  {
    var b := a / 4096;
    var k := p.buckets[b];
    p.(buckets := p.buckets[b := Bucket(k.count + 1, k.objects + [a])],
       free := Without(p.free, b) + [b], busy := Without(p.busy, b))
  }

  lemma ReturnedGood(p: Pool, live: set<nat>, a: nat)
    requires Good(p, live) && a in live
    ensures Good(Returned(p, a), live - {a})
  {
    var b, p' := a / 4096, Returned(p, a);
    WithoutIs(p.free, b);
    WithoutIs(p.busy, b);
    AppendDistinct(Without(p.free, b), b);
    hide Slots, Without;
    forall x | x in p'.buckets ensures BucketOk(p', x, live - {a}) {
      ReturnedBucket(p, live, a, x);
    }
  }

  lemma ReturnedBucket(p: Pool, live: set<nat>, a: nat, x: nat)
    requires Good(p, live) && a in live && x in p.buckets
    ensures BucketOk(Returned(p, a), x, live - {a})
  {
    var b := a / 4096;
    WithoutIs(p.free, b);
    assert BucketOk(p, x, live) && BucketOk(p, b, live);
    AppendDistinct(p.buckets[b].objects, a);
    if x != b && a in Slots(x, p.size) { SlotInPage(x, p.size, a); }
    hide Slots, Without;
  }

  class MemoryPool {
    const size: nat                     // object_size
    var free: seq<nat>                  // free_bucket_list
    var busy: seq<nat>                  // busy_bucket_list
    var buckets: map<nat, Bucket>
    ghost var live: set<nat>            // the slots handed out and not given back

    ghost function Value(): Pool
      reads this
    {
      Pool(size, free, busy, buckets)
    }

    ghost predicate Valid()
      reads this
    {
      Good(Value(), live)
    }

    /** pool_init */
    constructor (objectSize: nat)
      requires objectSize > 0
      ensures Valid() && size == objectSize && live == {}
    {
      size, free, busy, buckets, live := objectSize, [], [], map[], {};
    }

    /** bucket_new in a page that is not used yet. */
    method NewBucket(page: nat)
      requires Valid() && page !in buckets
      modifies `free, `buckets
      ensures Valid() && Value() == Grown(old(Value()), page)
    {
      GrownGood(Value(), page, live);
      assert size > 0;
      hide Good, Slots;
      var objects, count := CutPage(page);
      buckets := buckets[page := Bucket(count, objects)];
      free := free + [page];
      assert Value() == Grown(old(Value()), page);
    }

    /** Its loop. */
    method CutPage(page: nat) returns (objects: seq<nat>, count: nat)
      requires size > 0
      ensures objects == Slots(page, size) && count == |objects|
      ensures AllPlaces(page, size, objects)
    {
      CarveNone(4096 * page + 4096, size);
      AllSlots(page, size);
      var slot := 4096 * page + 28;
      objects, count := [], 0;
      hide Carve, AllPlaces;
      while slot < 4096 * page + 4096
        invariant objects + Carve(slot, 4096 * page + 4096, size) == Slots(page, size) && count == |objects|
        decreases 4096 * page + 4096 - slot
      {
        CarveStep(slot, 4096 * page + 4096, size);
        assert (objects + [slot]) + Carve(slot + size, 4096 * page + 4096, size) ==
               objects + Carve(slot, 4096 * page + 4096, size);
        objects, count, slot := objects + [slot], count + 1, slot + size;
      }
      assert objects + [] == objects && Carve(slot, 4096 * page + 4096, size) == [];
    }

    /** pool_alloc_object; page is what alloc_page returns if it is asked. A slot
        that is live is never handed out again. */
    method Alloc(page: Option<nat>) returns (r: Option<nat>)
      requires Valid() && (page.Some? ==> page.value !in buckets)
      modifies `free, `busy, `buckets, `live
      ensures Valid() && (r.None? <==> old(free) == [] && page.None?)
      ensures r.None? ==> Value() == old(Value()) && live == old(live)
      ensures r.Some? ==>
              && r.value !in old(live) && live == old(live) + {r.value} && r.value / 4096 in buckets
              && r.value in Slots(r.value / 4096, size)
              && r.value % 4096 >= 28 && (r.value % 4096 - 28) % size == 0
              && Value() == Taken(if old(free) == [] then Grown(old(Value()), page.value) else old(Value()))
    {
      assert size > 0;
      hide Good, Slots, Grown;
      if free == [] {
        if page.None? {
          return None;
        }
        NewBucket(page.value);
        GrownHasFree(old(Value()), page.value);
      }
      var a := Take();
      r := Some(a);
      LiveIsSlot(Value(), live, r.value);
      SlotsAre(r.value / 4096, size, r.value);
    }

    /** bucket_alloc_object on the first free bucket, which goes to the busy list
        with its last slot. */
    method Take() returns (a: nat)
      requires Valid() && free != []
      modifies `free, `busy, `buckets, `live
      ensures Valid() && a !in old(live) && live == old(live) + {a} && Value() == Taken(old(Value()))
    {
      hide Good, Slots;
      ghost var p := Value();
      TakenGood(p, live);
      var b := free[0];
      var k := buckets[b];
      a := k.objects[0];
      buckets := buckets[b := Bucket(k.count - 1, k.objects[1..])];
      if |k.objects| == 1 {
        free := Without(free, b);
        busy := busy + [b];
      }
      live := live + {a};
      assert Value() == Taken(p);
    }

    /** pool_free_object */
    method Free(a: nat)
      requires Valid() && a in live
      modifies `free, `busy, `buckets, `live
      ensures Valid() && live == old(live) - {a} && Value() == Returned(old(Value()), a)
    {
      hide Good, Slots;
      ReturnedGood(Value(), live, a);
      LiveIsSlot(Value(), live, a);
      var b := a / 4096;
      buckets := buckets[b := Bucket(buckets[b].count + 1, buckets[b].objects + [a])];
      free := Without(free, b) + [b];
      busy := Without(busy, b);
      live := live - {a};
    }
  }

  lemma GrownHasFree(p: Pool, page: nat)
    requires p.size > 0
    ensures Grown(p, page).free != []
  {
  }

  lemma LiveIsSlot(p: Pool, live: set<nat>, a: nat)
    requires Good(p, live) && a in live
    ensures p.size > 0 && a / 4096 in p.buckets && a in Slots(a / 4096, p.size)
  {
  }

  /** alloc_memory looks for the first pool whose slots are large enough, which is
      the smallest such; there is none for more than 4000 bytes. */
  method PoolFor(size: nat) returns (r: Option<nat>)
    ensures r.None? <==> size > 4000
    ensures r.Some? ==> r.value < 9 && size <= PoolSizes()[r.value]
    ensures r.Some? ==> forall j :: 0 <= j < 9 && size <= PoolSizes()[j] ==> PoolSizes()[r.value] <= PoolSizes()[j]
  {
    var sizes, i := PoolSizes(), 0;
    while i < 9
      invariant 0 <= i <= 9 && forall j :: 0 <= j < i ==> size > sizes[j]
    {
      if size <= sizes[i] {
        assert PoolSizes()[i] <= 4000;
        return Some(i);
      }
      i := i + 1;
    }
    assert sizes[8] == 4000;
    r := None;
  }
}
