/** The worker pool of the file finder: main puts every task and then one pill
    for each worker; workers take items until they meet a pill. */
module WorkerPool {
  import opened TaskQueue

  type Task = int

  /** put_task from its first line on: before sem_wait(&empty), before the
      critical section, before sem_post(&full); Joining once all is put. */
  datatype Producer = WaitEmpty | PutHolding | PutPosting | Joining

  /** thread_func: before sem_wait(&full), before the critical section, before
      sem_post(&empty), in find_file, returned. */
  datatype Worker = WaitFull | GetHolding | GetPosting(item: Slot<Task>) | Working(task: Task) | Exited

  datatype Params = Params(tasks: seq<Task>, workers: nat, size: nat)

  datatype State = State(
    queue: Queue<Task>,
    empty: nat,
    full: nat,
    producer: Producer,
    workers: seq<Worker>,
    put: nat,               // items written so far
    taken: nat,             // items read so far
    takers: seq<nat>,           // the workers that read them
    done: seq<Task>         // tasks find_file has finished, in that order
  )

  /** What main puts, in order. */
  function Items(p: Params): (items: seq<Slot<Task>>)
    ensures |items| == |p.tasks| + p.workers
    ensures forall i :: 0 <= i < |p.tasks| ==> items[i] == Job(p.tasks[i])
    ensures forall i :: |p.tasks| <= i < |items| ==> items[i] == Pill
  {
    Jobs(p.tasks) + seq(p.workers, _ => Pill)
  }

  function Jobs(ts: seq<Task>): (js: seq<Slot<Task>>)
    ensures |js| == |ts|
    ensures forall i :: 0 <= i < |ts| ==> js[i] == Job(ts[i])
  {
    seq(|ts|, i requires 0 <= i < |ts| => Job(ts[i]))
  }

  ghost predicate Init(p: Params, s: State) {
    && p.size > 0 && p.workers > 0
    && |s.queue.slots| == p.size && Holds(s.queue, [])
    && s.empty == p.size && s.full == 0
    && s.producer == AfterPut(p, 0)
    && |s.workers| == p.workers && (forall i :: 0 <= i < p.workers ==> s.workers[i] == WaitFull)
    && s.put == 0 && s.taken == 0 && s.takers == [] && s.done == []
  }

  function AfterPut(p: Params, put: nat): Producer {
    if put < |Items(p)| then WaitEmpty else Joining
  }

  function AfterGet(item: Slot<Task>): Worker {
    match item case Pill => Exited case Job(t) => Working(t)
  }

  // ----- the steps -----

  ghost predicate ProducerStep(p: Params, s: State, s': State)
    requires WellFormed(s.queue)
  {
    match s.producer
    case WaitEmpty => s.empty > 0 && s' == s.(empty := s.empty - 1, producer := PutHolding)
    case PutHolding =>
      && s.put < |Items(p)|
      && s' == s.(queue := Write(s.queue, Items(p)[s.put]), put := s.put + 1, producer := PutPosting)
    case PutPosting => s' == s.(full := s.full + 1, producer := AfterPut(p, s.put))
    case Joining => false
  }

  ghost predicate WorkerStep(s: State, s': State, i: nat)
    requires WellFormed(s.queue)
  {
    && i < |s.workers|
    && match s.workers[i]
       case WaitFull => s.full > 0 && s' == s.(full := s.full - 1, workers := s.workers[i := GetHolding])
       case GetHolding =>
         var (item, q) := Take(s.queue);
         s' == s.(queue := q, taken := s.taken + 1, takers := s.takers + [i],
                  workers := s.workers[i := GetPosting(item)])
       case GetPosting(item) => s' == s.(empty := s.empty + 1, workers := s.workers[i := AfterGet(item)])
       case Working(t) => s' == s.(done := s.done + [t], workers := s.workers[i := WaitFull])
       case Exited => false
  }

  ghost predicate Step(p: Params, s: State, s': State) {
    WellFormed(s.queue) && (ProducerStep(p, s, s') || exists i :: WorkerStep(s, s', i))
  }

  // ----- sums over the workers -----

  function Sum(f: Worker -> nat, ws: seq<Worker>): nat
    decreases |ws|
  {
    if |ws| == 0 then 0 else Sum(f, ws[..|ws| - 1]) + f(ws[|ws| - 1])
  }

  lemma {:induction false} SumUpdate(f: Worker -> nat, ws: seq<Worker>, i: nat, w: Worker)
    requires i < |ws|
    ensures Sum(f, ws[i := w]) + f(ws[i]) == Sum(f, ws) + f(w)
    ensures Sum(f, ws) >= f(ws[i])
    decreases |ws|
  {
    var n := |ws| - 1;
    if i == n {
      assert ws[i := w][..n] == ws[..n];
    } else {
      assert ws[i := w][..n] == ws[..n][i := w];
      SumUpdate(f, ws[..n], i, w);
    }
  }

  lemma {:induction false} SumConstant(f: Worker -> nat, ws: seq<Worker>, c: nat)
    requires forall i :: 0 <= i < |ws| ==> f(ws[i]) == c
    ensures Sum(f, ws) == c * |ws|
    decreases |ws|
  {
    if |ws| > 0 {
      SumConstant(f, ws[..|ws| - 1], c);
    }
  }

  function InHolding(): Worker -> nat { (w: Worker) => if w.GetHolding? then 1 else 0 }
  function InPosting(): Worker -> nat { (w: Worker) => if w.GetPosting? then 1 else 0 }

  /** A worker has in hand what it took and is not done with; one that has
      exited still has its pill. */
  function Carries(x: Slot<Task>): Worker -> nat {
    (w: Worker) =>
      match w
      case GetPosting(item) => if item == x then 1 else 0
      case Working(t) => if x == Job(t) then 1 else 0
      case Exited => if x == Pill then 1 else 0
      case _ => 0
  }

  /** How often x is in some worker's hand. */
  function InHands(x: Slot<Task>, ws: seq<Worker>): nat { Sum(Carries(x), ws) }

  // ----- the invariant -----

  ghost predicate Inv(p: Params, s: State) {
    && p.size > 0 && p.workers > 0 && |s.queue.slots| == p.size && |s.workers| == p.workers
    && s.taken <= s.put <= |Items(p)|
    && Holds(s.queue, Items(p)[s.taken..s.put])
    && Semaphores(p, s)
    && (s.producer.WaitEmpty? || s.producer.PutHolding? ==> s.put < |Items(p)|)
    && (s.producer.Joining? ==> s.put == |Items(p)|)
    && Accounted(p, s) && PillsApart(p, s)
  }

  /** A worker that has read a pill reads no more, so no two pills have been read by
      one worker. */
  ghost predicate PillsApart(p: Params, s: State)
    requires s.taken <= |Items(p)|
  {
    && |s.takers| == s.taken && (forall k :: 0 <= k < s.taken ==> s.takers[k] < |s.workers|)
    && (forall k :: |p.tasks| <= k < s.taken ==>
          s.workers[s.takers[k]] == GetPosting(Pill) || s.workers[s.takers[k]].Exited?)
    && (forall k, l :: |p.tasks| <= k < l < s.taken ==> s.takers[k] != s.takers[l])
  }

  /** Every item read is in one worker's hand or done, and nothing else is. */
  ghost predicate Accounted(p: Params, s: State)
    requires s.taken <= |Items(p)|
  {
    forall x :: multiset(Items(p)[..s.taken])[x] == InHands(x, s.workers) + multiset(Jobs(s.done))[x]
  }

  /** Every slot is counted once: free, about to be written, unread, or read and
      not yet given back; every unread item once: posted, claimed or unposted. */
  ghost predicate Semaphores(p: Params, s: State) {
    && s.empty + (s.put - s.taken) + (if s.producer.PutHolding? then 1 else 0) + Sum(InPosting(), s.workers) == p.size
    && s.put - s.taken == s.full + Sum(InHolding(), s.workers) + (if s.producer.PutPosting? then 1 else 0)
  }

  lemma {:induction false} InitInv(p: Params, s: State)
    requires Init(p, s)
    ensures Inv(p, s)
  {
    SumConstant(InHolding(), s.workers, 0);
    SumConstant(InPosting(), s.workers, 0);
    assert Items(p)[0..0] == [] && Jobs(s.done) == [];
    forall x ensures InHands(x, s.workers) == 0 { SumConstant(Carries(x), s.workers, 0); }
  }

  /** No unread slot is overwritten: when main is about to write, the slot at
      `end` is free; when a worker is about to read, there is something to read. */
  lemma {:induction false} RoomAndWork(p: Params, s: State)
    requires Inv(p, s)
    ensures s.producer.PutHolding? ==> s.put - s.taken < p.size
    ensures forall i :: 0 <= i < |s.workers| && s.workers[i].GetHolding? ==> s.taken < s.put
  {
    forall i | 0 <= i < |s.workers| && s.workers[i].GetHolding? ensures s.taken < s.put {
      SumUpdate(InHolding(), s.workers, i, s.workers[i]);
    }
  }

  lemma {:induction false} ProducerKeeps(p: Params, s: State, s': State)
    requires Inv(p, s) && ProducerStep(p, s, s')
    ensures Inv(p, s')
  {
    RoomAndWork(p, s);
    var items := Items(p);
    if s.producer.PutHolding? {
      WriteAppends(s.queue, items[s.taken..s.put], items[s.put]);
      assert items[s.taken..s.put] + [items[s.put]] == items[s.taken..s.put + 1];
    }
    hide Accounted, Holds, Write, Sum, Items;
    AccountSame(p, s, s');
    hide PillsApart;
  }

  lemma AccountSame(p: Params, s: State, s': State)
    requires s.taken <= |Items(p)| && Accounted(p, s) && PillsApart(p, s)
    requires s'.taken == s.taken && s'.workers == s.workers && s'.done == s.done && s'.takers == s.takers
    ensures Accounted(p, s') && PillsApart(p, s')
  {
    hide Items;
  }

  lemma {:induction false} TakeKeeps(p: Params, s: State, s': State, i: nat)
    requires Inv(p, s) && WorkerStep(s, s', i) && s.workers[i].GetHolding?
    ensures s'.taken <= s'.put == s.put && Holds(s'.queue, Items(p)[s'.taken..s'.put])
    ensures s'.workers == s.workers[i := GetPosting(Items(p)[s.taken])]
    ensures multiset(Items(p)[..s'.taken]) == multiset(Items(p)[..s.taken]) + multiset{Items(p)[s.taken]}
  {
    RoomAndWork(p, s);
    var items := Items(p);
    TakeRemoves(s.queue, items[s.taken..s.put]);
    assert items[s.taken..s.put][1..] == items[s.taken + 1..s.put];
    assert items[..s.taken + 1] == items[..s.taken] + [items[s.taken]];
  }

  lemma {:induction false} DoneOne(done: seq<Task>, t: Task, x: Slot<Task>)
    ensures multiset(Jobs(done + [t]))[x] == multiset(Jobs(done))[x] + if x == Job(t) then 1 else 0
  {
    assert Jobs(done + [t]) == Jobs(done) + [Job(t)];
  }

  lemma PillsKeep(p: Params, s: State, s': State, i: nat)
    requires Inv(p, s) && WorkerStep(s, s', i) && s'.taken <= |Items(p)|
    ensures PillsApart(p, s')
  {
    hide Accounted, Semaphores, Holds, Sum;
    if s.workers[i].GetHolding? {
      TakeKeeps(p, s, s', i);
      hide Take;
      assert s.taken >= |p.tasks| ==> Items(p)[s.taken] == Pill;
    }
  }

  lemma {:induction false} AccountKeeps(p: Params, s: State, s': State, i: nat, x: Slot<Task>)
    requires Inv(p, s) && WorkerStep(s, s', i) && s'.taken <= |Items(p)|
    ensures multiset(Items(p)[..s'.taken])[x] == InHands(x, s'.workers) + multiset(Jobs(s'.done))[x]
  {
    var w, items := s'.workers[i], Items(p);
    assert multiset(items[..s.taken])[x] == InHands(x, s.workers) + multiset(Jobs(s.done))[x];
    if s.workers[i].GetHolding? { TakeKeeps(p, s, s', i); }
    if s.workers[i].Working? { DoneOne(s.done, s.workers[i].task, x); }
    HandsChange(s, s', i, x);
    hide Accounted, Semaphores, PillsApart, Holds, Take, Jobs, Items, InHands;
    assert s.workers[i].GetHolding? ==>
        multiset(items[..s'.taken])[x] == multiset(items[..s.taken])[x] + if x == items[s.taken] then 1 else 0;
  }

  /** What a step changes in the hands of the workers. */
  lemma HandsChange(s: State, s': State, i: nat, x: Slot<Task>)
    requires WellFormed(s.queue) && WorkerStep(s, s', i)
    ensures InHands(x, s'.workers) == InHands(x, s.workers) +
              if s.workers[i].GetHolding? && Take(s.queue).0 == x then 1
              else if s.workers[i].Working? && Job(s.workers[i].task) == x then -1 else 0
  {
    hide Take;
    SumUpdate(Carries(x), s.workers, i, s'.workers[i]);
    hide Sum;
  }

  lemma WorkerCounts(p: Params, s: State, s': State, i: nat)
    requires Inv(p, s) && WorkerStep(s, s', i)
    ensures Semaphores(p, s')
  {
    hide Accounted, PillsApart, Holds, Take, Items;
    SumUpdate(InHolding(), s.workers, i, s'.workers[i]);
    SumUpdate(InPosting(), s.workers, i, s'.workers[i]);
    hide Sum;
  }

  lemma WorkerQueue(p: Params, s: State, s': State, i: nat)
    requires Inv(p, s) && WorkerStep(s, s', i)
    ensures |s'.queue.slots| == p.size && |s'.workers| == p.workers && s'.taken <= s'.put == s.put
    ensures Holds(s'.queue, Items(p)[s'.taken..s'.put])
  {
    if s.workers[i].GetHolding? { TakeKeeps(p, s, s', i); }
    hide Accounted, PillsApart, Semaphores, Items;
  }

  lemma {:induction false} WorkerKeeps(p: Params, s: State, s': State, i: nat)
    requires Inv(p, s) && WorkerStep(s, s', i)
    ensures Inv(p, s')
  {
    WorkerQueue(p, s, s', i);
    WorkerCounts(p, s, s', i);
    assert s'.producer == s.producer && s'.taken <= |Items(p)|;
    hide Semaphores, Holds, Take, Items;
    PillsKeep(p, s, s', i);
    forall x ensures multiset(Items(p)[..s'.taken])[x] == InHands(x, s'.workers) + multiset(Jobs(s'.done))[x] {
      AccountKeeps(p, s, s', i, x);
    }
  }

  lemma {:induction false} StepInv(p: Params, s: State, s': State)
    requires Inv(p, s) && Step(p, s, s')
    ensures Inv(p, s')
  {
    if ProducerStep(p, s, s') {
      ProducerKeeps(p, s, s');
    } else {
      var i: nat :| WorkerStep(s, s', i);
      WorkerKeeps(p, s, s', i);
    }
  }

  // ----- whole runs -----

  ghost predicate Run(p: Params, run: seq<State>) {
    && |run| > 0 && Init(p, run[0])
    && forall i :: 0 <= i < |run| - 1 ==> Step(p, run[i], run[i + 1])
  }

  lemma {:induction false} RunInv(p: Params, run: seq<State>, m: nat)
    requires Run(p, run) && m < |run|
    ensures Inv(p, run[m])
    decreases m
  {
    if m == 0 {
      InitInv(p, run[0]);
    } else {
      RunInv(p, run, m - 1);
      StepInv(p, run[m - 1], run[m - 1 + 1]);
    }
  }

  ghost predicate AllExited(s: State) {
    forall i :: 0 <= i < |s.workers| ==> s.workers[i].Exited?
  }

  /** At every moment of every interleaving, what has been read is in some
      worker's hands or done, each item once, and no unread slot is at risk. */
  lemma Safety(p: Params, run: seq<State>, m: nat)
    requires Run(p, run) && m < |run|
    ensures var s := run[m];
            && s.taken <= s.put <= |Items(p)| && Holds(s.queue, Items(p)[s.taken..s.put])
            && (s.producer.PutHolding? ==> s.put - s.taken < p.size)
            && Accounted(p, s)
  {
    RunInv(p, run, m);
    RoomAndWork(p, run[m]);
  }

  lemma {:induction false} ExitedHands(ws: seq<Worker>, t: Task)
    requires forall i :: 0 <= i < |ws| ==> ws[i].Exited?
    ensures InHands(Pill, ws) == |ws| && InHands(Job(t), ws) == 0
  {
    SumConstant(Carries(Pill), ws, 1);
    SumConstant(Carries(Job(t)), ws, 0);
  }

  lemma {:induction false} PillsInPrefix(p: Params, m: nat)
    requires m <= |Items(p)|
    ensures multiset(Items(p)[..m])[Pill] == if m <= |p.tasks| then 0 else m - |p.tasks|
    decreases m
  {
    if m > 0 {
      PillsInPrefix(p, m - 1);
      assert Items(p)[..m] == Items(p)[..m - 1] + [Items(p)[m - 1]];
    }
  }

  lemma {:induction false} JobCounts(ts: seq<Task>, t: Task)
    ensures multiset(Jobs(ts))[Job(t)] == multiset(ts)[t] && multiset(Jobs(ts))[Pill] == 0
    decreases |ts|
  {
    if |ts| > 0 {
      var n := |ts| - 1;
      JobCounts(ts[..n], t);
      assert ts == ts[..n] + [ts[n]] && Jobs(ts) == Jobs(ts[..n]) + [Job(ts[n])];
    }
  }

  lemma {:induction false} ItemCounts(p: Params, t: Task)
    ensures multiset(Items(p))[Job(t)] == multiset(p.tasks)[t]
  {
    var pills := seq(p.workers, _ => Pill);
    JobCounts(p.tasks, t);
    assert Items(p) == Jobs(p.tasks) + pills;
    assert Job(t) !in pills;
  }

  /** The pills come last: when every worker has had one, nothing is left. */
  lemma {:induction false} AllTaken(p: Params, s: State)
    requires Inv(p, s) && AllExited(s)
    ensures s.taken == |Items(p)|
  {
    ExitedHands(s.workers, 0);
    JobCounts(s.done, 0);
    PillsInPrefix(p, s.taken);
  }

  /** When all workers have exited, every item was taken, no two pills by the same
      worker, and the tasks processed are exactly the tasks put, each as often. */
  lemma Completion(p: Params, run: seq<State>, m: nat)
    requires Run(p, run) && m < |run| && AllExited(run[m])
    ensures run[m].taken == |Items(p)|
    ensures |run[m].takers| == |Items(p)| && |run[m].workers| == p.workers
    ensures forall k :: |p.tasks| <= k < |Items(p)| ==> run[m].takers[k] < p.workers
    ensures forall k, l :: |p.tasks| <= k < l < |Items(p)| ==> run[m].takers[k] != run[m].takers[l]
    ensures multiset(run[m].done) == multiset(p.tasks)
  {
    RunInv(p, run, m);
    var s := run[m];
    ExitedHands(s.workers, 0);
    AllTaken(p, s);
    assert Items(p)[..s.taken] == Items(p);
    forall t ensures multiset(s.done)[t] == multiset(p.tasks)[t] {
      ExitedHands(s.workers, t);
      JobCounts(s.done, t);
      ItemCounts(p, t);
    }
  }

  lemma {:induction false} PillsAreExits(ws: seq<Worker>)
    requires forall i :: 0 <= i < |ws| ==> ws[i].WaitFull? || ws[i].Exited?
    ensures InHands(Pill, ws) <= |ws|
    ensures InHands(Pill, ws) == |ws| ==> forall i :: 0 <= i < |ws| ==> ws[i].Exited?
    decreases |ws|
  {
    if |ws| > 0 {
      var front := ws[..|ws| - 1];
      PillsAreExits(front);
      assert forall i :: 0 <= i < |ws| - 1 ==> ws[i] == front[i];
    }
  }

  /** No deadlock: a reachable state in which nobody can take a step is one in
      which main has put everything and every worker has exited. */
  lemma NoDeadlock(p: Params, run: seq<State>, m: nat)
    requires Run(p, run) && m < |run|
    ensures (exists s' :: Step(p, run[m], s')) || (run[m].producer.Joining? && AllExited(run[m]))
  {
    RunInv(p, run, m);
    var s := run[m];
    RoomAndWork(p, s);
    if i :| 0 <= i < |s.workers| && !s.workers[i].WaitFull? && !s.workers[i].Exited? {
      WorkerCanStep(p, s, i);
    } else {
      SumConstant(InHolding(), s.workers, 0);
      SumConstant(InPosting(), s.workers, 0);
      if s.producer.PutHolding? {
        assert Step(p, s, s.(queue := Write(s.queue, Items(p)[s.put]), put := s.put + 1, producer := PutPosting));
      } else if s.producer.PutPosting? {
        assert Step(p, s, s.(full := s.full + 1, producer := AfterPut(p, s.put)));
      } else if s.full > 0 {
        FullMeansWaiter(p, s);
      } else if s.producer.WaitEmpty? {
        assert Step(p, s, s.(empty := s.empty - 1, producer := PutHolding));
      } else {
        EmptyMeansDone(p, s);
      }
    }
  }

  lemma {:induction false} WorkerCanStep(p: Params, s: State, i: nat)
    requires Inv(p, s) && i < |s.workers| && !s.workers[i].WaitFull? && !s.workers[i].Exited?
    ensures exists s' :: Step(p, s, s')
  {
    var s' := match s.workers[i]
      case GetPosting(item) => s.(empty := s.empty + 1, workers := s.workers[i := AfterGet(item)])
      case Working(t) => s.(done := s.done + [t], workers := s.workers[i := WaitFull])
      case GetHolding => s.(queue := Take(s.queue).1, taken := s.taken + 1, takers := s.takers + [i],
          workers := s.workers[i := GetPosting(Take(s.queue).0)])
      case _ => s;
    assert WorkerStep(s, s', i);
    assert Step(p, s, s');
  }

  lemma {:induction false} EmptyMeansDone(p: Params, s: State)
    requires Inv(p, s) && s.producer.Joining? && s.full == 0
    requires forall i :: 0 <= i < |s.workers| ==> s.workers[i].WaitFull? || s.workers[i].Exited?
    ensures AllExited(s)
  {
    SumConstant(InHolding(), s.workers, 0);
    assert Items(p)[..s.taken] == Items(p);
    PillsInPrefix(p, s.taken);
    JobCounts(s.done, 0);
    PillsAreExits(s.workers);
  }

  /** With items posted and all workers idle or gone, one is idle: those gone
      have all had their pills, and the pills come last. */
  lemma {:induction false} FullMeansWaiter(p: Params, s: State)
    requires Inv(p, s) && s.full > 0
    requires forall i :: 0 <= i < |s.workers| ==> s.workers[i].WaitFull? || s.workers[i].Exited?
    ensures exists s' :: Step(p, s, s')
  {
    if AllExited(s) {
      AllTaken(p, s);
      assert false;
    } else {
      var i :| 0 <= i < |s.workers| && !s.workers[i].Exited?;
      var s' := s.(full := s.full - 1, workers := s.workers[i := GetHolding]);
      assert WorkerStep(s, s', i);
      assert Step(p, s, s');
    }
  }

  // ----- termination -----

  function Weight(): Worker -> nat {
    (w: Worker) =>
      match w
      case Exited => 0
      case GetHolding => 2
      case WaitFull => 3
      case Working(_) => 4
      case GetPosting(_) => 5
  }

  function ProducerWeight(q: Producer): nat {
    match q case Joining => 0 case PutHolding => 1 case WaitEmpty => 2 case PutPosting => 3
  }

  /** How many steps can still follow, at most. */
  function Measure(p: Params, s: State): nat
    requires s.taken <= |Items(p)| && s.put <= |Items(p)|
  {
    4 * (|Items(p)| - s.put) + ProducerWeight(s.producer) + 8 * (|Items(p)| - s.taken) + Sum(Weight(), s.workers)
  }

  lemma {:induction false} StepDecreases(p: Params, s: State, s': State)
    requires Inv(p, s) && Step(p, s, s')
    ensures Inv(p, s') && Measure(p, s') < Measure(p, s)
  {
    StepInv(p, s, s');
    if !ProducerStep(p, s, s') {
      var i: nat :| WorkerStep(s, s', i);
      WorkerDecreases(p, s, s', i);
    } else {
      hide Accounted, PillsApart, Semaphores, Holds, Write, Items;
    }
  }

  lemma WorkerDecreases(p: Params, s: State, s': State, i: nat)
    requires Inv(p, s) && Inv(p, s') && WorkerStep(s, s', i)
    ensures Measure(p, s') < Measure(p, s)
  {
    hide Accounted, PillsApart, Semaphores, Holds, Take, Items;
    SumUpdate(Weight(), s.workers, i, s'.workers[i]);
    hide Sum;
  }

  lemma {:induction false} RunMeasure(p: Params, run: seq<State>, m: nat)
    requires Run(p, run) && m < |run|
    ensures Inv(p, run[0]) && Inv(p, run[m]) && m + Measure(p, run[m]) <= Measure(p, run[0])
    decreases m
  {
    if m == 0 {
      InitInv(p, run[0]);
    } else {
      RunMeasure(p, run, m - 1);
      StepDecreases(p, run[m - 1], run[m - 1 + 1]);
    }
  }

  ghost predicate Stuck(p: Params, s: State) { forall s' :: !Step(p, s, s') }

  /** Every run ends, however the threads are scheduled, and a run that cannot
      be continued has done every task exactly once. */
  lemma TotalCorrectness(p: Params, run: seq<State>)
    requires Run(p, run)
    ensures |run| <= 12 * |p.tasks| + 15 * p.workers + 3
    ensures Stuck(p, run[|run| - 1]) ==>
            multiset(run[|run| - 1].done) == multiset(p.tasks) && AllExited(run[|run| - 1])
  {
    var m := |run| - 1;
    RunMeasure(p, run, m);
    SumConstant(Weight(), run[0].workers, 3);
    if Stuck(p, run[m]) {
      NoDeadlock(p, run, m);
      Completion(p, run, m);
    }
  }
}
