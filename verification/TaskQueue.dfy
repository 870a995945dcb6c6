/** The circular task queue of the file finder, whose indices two semaphores
    keep apart. It holds no count of its own. */
module TaskQueue {
  import opened Division

  /** struct THREAD_FIND_ARG; a null target is a poison pill. */
  datatype Slot<T> = Job(task: T) | Pill

  datatype Queue<T> = Queue(slots: seq<Slot<T>>, start: nat, end: nat)

  predicate WellFormed<T>(q: Queue<T>) {
    q.start < |q.slots| && q.end < |q.slots|
  }

  function Wrap(x: nat, size: nat): (r: nat)
    requires x < 2 * size
    ensures r < size
  {
    if x < size then x else x - size
  }

  /** x % QUEUE_SIZE for the indices that occur. */
  lemma WrapIsMod(x: nat, size: nat)
    requires 0 < size && x < 2 * size
    ensures Wrap(x, size) == x % size
  {
    if x >= size {
      assert x % size == (x - size) % size by { ModMinus(x, size); }
    }
  }

  function Write<T>(q: Queue<T>, s: Slot<T>): Queue<T>
    requires WellFormed(q)
  {
    Queue(q.slots[q.end := s], q.start, Wrap(q.end + 1, |q.slots|))
  }

  function Take<T>(q: Queue<T>): (Slot<T>, Queue<T>)
    requires WellFormed(q)
  {
    (q.slots[q.start], q.(start := Wrap(q.start + 1, |q.slots|)))
  }

  /** The queue holds exactly the unread items, oldest first. */
  ghost predicate Holds<T>(q: Queue<T>, items: seq<Slot<T>>) {
    && WellFormed(q) && |items| <= |q.slots|
    && q.end == Wrap(q.start + |items|, |q.slots|)
    && forall k :: 0 <= k < |items| ==> q.slots[Wrap(q.start + k, |q.slots|)] == items[k]
  }

  /** With a free slot, writing destroys no unread item. */
  lemma WriteAppends<T>(q: Queue<T>, items: seq<Slot<T>>, s: Slot<T>)
    requires Holds(q, items) && |items| < |q.slots|
    ensures Holds(Write(q, s), items + [s])
  {
    var q', n := Write(q, s), |q.slots|;
    forall k | 0 <= k < |items| + 1 ensures q'.slots[Wrap(q.start + k, n)] == (items + [s])[k] {
      assert k < |items| ==> Wrap(q.start + k, n) != q.end;
    }
  }

  lemma TakeRemoves<T>(q: Queue<T>, items: seq<Slot<T>>)
    requires Holds(q, items) && |items| > 0
    ensures Take(q).0 == items[0] && Holds(Take(q).1, items[1..])
  {
    var q', n := Take(q).1, |q.slots|;
    assert q.slots[Wrap(q.start + 0, n)] == items[0];
    forall k | 0 <= k < |items| - 1 ensures q'.slots[Wrap(q'.start + k, n)] == items[1..][k] {
      assert Wrap(q'.start + k, n) == Wrap(q.start + (k + 1), n);
    }
  }

  /** A full queue has no room: one more write destroys the oldest item, and by its
      indices the queue then holds nothing but the new one. So put_task must wait on
      the semaphore `empty`. */
  lemma WriteWhenFullLoses<T>(q: Queue<T>, items: seq<Slot<T>>, s: Slot<T>)
    requires Holds(q, items) && |items| == |q.slots|
    ensures Take(Write(q, s)).0 == s && Holds(Write(q, s), [s]) && !Holds(Write(q, s), items + [s])
    ensures forall k :: 0 < k < |items| ==> Write(q, s).slots[Wrap(q.start + k, |q.slots|)] == items[k]
  {
    assert q.end == q.start;
  }

  /** The globals queue, start and end. */
  class TaskTable<T(0)> {
    const queue: array<Slot<T>>
    var start: nat
    var end: nat

    ghost function Value(): Queue<T>
      reads this, queue
    {
      Queue(queue[..], start, end)
    }

    constructor (size: nat)
      requires size > 0
      ensures queue.Length == size && fresh(queue)
      ensures Holds(Value(), [])
    {
      queue := new Slot<T>[size](_ => Pill);
      start, end := 0, 0;
    }

    /** put_task between lock and unlock. */
    method PutTask(s: Slot<T>, ghost items: seq<Slot<T>>)
      requires Holds(Value(), items) && |items| < queue.Length
      modifies queue, `end
      ensures Value() == Write(old(Value()), s) && Holds(Value(), items + [s])
    {
      WriteAppends(Value(), items, s);
      WrapIsMod(end + 1, queue.Length);
      queue[end] := s;
      end := (end + 1) % queue.Length;
    }

    /** get_task, with the copy the worker makes before unlocking. */
    method GetTask(ghost items: seq<Slot<T>>) returns (s: Slot<T>)
      requires Holds(Value(), items) && |items| > 0
      modifies `start
      ensures (s, Value()) == Take(old(Value()))
      ensures s == items[0] && Holds(Value(), items[1..])
    {
      TakeRemoves(Value(), items);
      WrapIsMod(start + 1, queue.Length);
      s := queue[start];
      start := (start + 1) % queue.Length;
    }
  }
}
