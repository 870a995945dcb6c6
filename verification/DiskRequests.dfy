/** Disk requests in flight: buffer_start_io, buffer_wait_io and buffer_end_io of
    buffer.c with the drive of hd.c, for any number of processes. A step ends
    where a process can be held up or is done. */
module DiskRequests {
  import opened Blocks
  import opened Lists
  import opened Options

  datatype Command = Read | Write

  /** The key is the number of a block, or -1. */
  datatype Buffer = Buffer(refCount: int, state: EntryState, locked: bool, key: int, data: Block)

  datatype Request = Request(b: nat, command: Command)

  /** What a process does when the drive has its request: return, wait until it is
      done, or go on in get_buffer, from the buffer that it wrote. */
  datatype After = Return | Wait | Scan(key: nat)

  /** Where a process is: in the loop of get_buffer_from_lru, having passed a buffer or
      none, for a block that it did not find; in buffer_start_io waiting for the lock; in
      hd_request waiting for the drive; or in buffer_wait_io. */
  datatype Pc = Elsewhere | Scanning(key: nat, passed: Option<nat>) | AtLock(r: Request, after: After)
              | AtDrive(r: Request, after: After) | AtIo(b: nat)

  /** clients counts the references to each buffer that processes got from get_buffer
      and still have; lru has all buffers by age; asleep are the processes in cond_wait. */
  datatype State = State(buffers: seq<Buffer>, clients: seq<nat>, lru: seq<nat>, procs: seq<Pc>, asleep: set<nat>,
                         drive: Option<Request>, disk: seq<Block>, accepted: nat, completed: nat)

  /** The process is in get_buffer, having looked for block k and not found it. */
  predicate Seeks(pc: Pc, k: nat) {
    match pc
    case Scanning(key, _) => key == k
    case AtLock(_, after) => after == Scan(k)
    case AtDrive(_, after) => after == Scan(k)
    case _ => false
  }

  /** A buffer that somebody has or that holds something is for a block. */
  ghost predicate Shape(s: State) {
    && |s.clients| == |s.buffers|
    && (forall b :: 0 <= b < |s.buffers| ==> -1 <= s.buffers[b].key < |s.disk|)
    && (forall b :: 0 <= b < |s.buffers| && (s.buffers[b].refCount > 0 || s.buffers[b].state != Invalid) ==>
          s.buffers[b].key >= 0)
    && (forall p :: 0 <= p < |s.procs| && (s.procs[p].AtLock? || s.procs[p].AtDrive?) ==> s.procs[p].r.b < |s.buffers|)
    && (forall p :: 0 <= p < |s.procs| && s.procs[p].AtIo? ==> s.procs[p].b < |s.buffers|)
    && (forall p, k: nat :: 0 <= p < |s.procs| && Seeks(s.procs[p], k) ==> k < |s.disk|)
    && (s.drive.Some? ==> s.drive.value.b < |s.buffers|)
  }

  /** Every buffer is once in the list. */
  ghost predicate LruOk(s: State) {
    Distinct(s.lru) && forall b: nat :: b in s.lru <==> b < |s.buffers|
  }

  // ----- counting requests -----

  /** A request of the process for buffer b has not reached the drive. */
  function Asks(pc: Pc, b: nat): nat {
    if (pc.AtLock? || pc.AtDrive?) && pc.r.b == b then 1 else 0
  }

  /** It has the lock of buffer b, for a request that has not reached the drive. */
  function HasLock(pc: Pc, b: nat): nat {
    if pc.AtDrive? && pc.r.b == b then 1 else 0
  }

  function Asking(procs: seq<Pc>, b: nat): nat {
    if procs == [] then 0 else Asks(procs[0], b) + Asking(procs[1..], b)
  }

  function Locking(procs: seq<Pc>, b: nat): nat {
    if procs == [] then 0 else HasLock(procs[0], b) + Locking(procs[1..], b)
  }

  lemma {:induction false} CountUpdate(procs: seq<Pc>, p: nat, pc: Pc, b: nat)
    requires p < |procs|
    ensures Asking(procs[p := pc], b) == Asking(procs, b) - Asks(procs[p], b) + Asks(pc, b)
    ensures Locking(procs[p := pc], b) == Locking(procs, b) - HasLock(procs[p], b) + HasLock(pc, b)
    ensures Asks(procs[p], b) <= Asking(procs, b) && HasLock(procs[p], b) <= Locking(procs, b)
    decreases |procs|
  {
    if p == 0 {
      assert procs[p := pc][1..] == procs[1..];
    } else {
      assert procs[p := pc][1..] == procs[1..][p - 1 := pc];
      CountUpdate(procs[1..], p - 1, pc, b);
    }
  }

  lemma {:induction false} NoneAsks(procs: seq<Pc>, b: nat)
    ensures Locking(procs, b) <= Asking(procs, b)
    ensures Asking(procs, b) == 0 <==> forall p :: 0 <= p < |procs| ==> Asks(procs[p], b) == 0
    decreases |procs|
  {
    if procs != [] {
      NoneAsks(procs[1..], b);
      assert procs == [procs[0]] + procs[1..];
    }
  }

  function OnDrive(s: State, b: nat): nat { if s.drive.Some? && s.drive.value.b == b then 1 else 0 }

  // ----- steps -----

  /** The condition of the loop process p is in holds. */
  predicate Blocked(s: State, p: nat) {
    && p < |s.procs|
    && match s.procs[p]
       case AtLock(r, _) => r.b < |s.buffers| && s.buffers[r.b].locked
       case AtDrive(_, _) => s.drive.Some?
       case AtIo(b) => b < |s.buffers| && s.buffers[b].locked
       case _ => false
  }

  /** Process p waits on the condition of buffer b. */
  predicate WaitsFor(pc: Pc, b: nat) { (pc.AtLock? && pc.r.b == b) || pc == AtIo(b) }

  /** A process that cond_signal may wake when the drive is done. */
  predicate DriveSleeper(s: State, p: nat) { p < |s.procs| && p in s.asleep && s.procs[p].AtDrive? }

  /** What is behind b in a list. */
  function Behind(q: seq<nat>, b: nat): seq<nat> {
    if q == [] then [] else if q[0] == b then q[1..] else Behind(q[1..], b)
  }

  /** The buffers a scan has still before it. */
  function Ahead(s: State, passed: Option<nat>): seq<nat> {
    if passed.None? then s.lru else Behind(s.lru, passed.value)
  }

  /** The buffer process p looks at next in its scan. */
  function Candidate(s: State, p: nat): Option<nat> {
    if p < |s.procs| && s.procs[p].Scanning? && Ahead(s, s.procs[p].passed) != [] &&
       Ahead(s, s.procs[p].passed)[0] < |s.buffers| && Ahead(s, s.procs[p].passed)[0] < |s.clients|
    then Some(Ahead(s, s.procs[p].passed)[0]) else None
  }

  predicate Idle(x: Buffer) { x.state != Dirty && x.refCount == 0 }

  datatype Action = LookUp(p: nat, key: nat, found: Option<nat>) | Pass(p: nat) | WriteOut(p: nat) | Evict(p: nat)
                  | Release(b: nat) | Modify(b: nat, data: Block)
                  | Start(p: nat, r: Request, sync: bool) | Sleep(p: nat) | Lock(p: nat) | Accept(p: nat)
                  | Complete(woken: nat) | Wake(p: nat)

  /** get_buffer looks a block up and is done with a buffer that is for it, or begins
      to scan: it passes buffers in use, writes dirty ones, and takes the first other
      one. Reads are asked for by who has got an invalid buffer, writes of dirty ones by
      anybody. The end of a request wakes who waits for the buffer, and one of those who
      wait for the drive. */
  predicate Enabled(s: State, a: Action) {
    match a
    case LookUp(p, key, found) =>
      && p < |s.procs| && s.procs[p] == Elsewhere && key < |s.disk|
      && (match found
          case Some(b) => b < |s.buffers| && b < |s.clients| && s.buffers[b].key == key
          case None => NoneFor(s, key))
    case Pass(p) =>
      Candidate(s, p).Some? && var x := s.buffers[Candidate(s, p).value]; x.state != Dirty && x.refCount != 0
    case WriteOut(p) => Candidate(s, p).Some? && s.buffers[Candidate(s, p).value].state == Dirty
    case Evict(p) => Candidate(s, p).Some? && Idle(s.buffers[Candidate(s, p).value])
    case Release(b) => b < |s.buffers| && b < |s.clients| && s.clients[b] > 0
    case Modify(b, _) => b < |s.buffers| && b < |s.clients| && s.clients[b] > 0
    case Start(p, r, _) => p < |s.procs| && s.procs[p] == Elsewhere && r.b < |s.buffers| && r.b < |s.clients|
                           && if r.command == Read then s.clients[r.b] > 0 && s.buffers[r.b].state == Invalid
                              else s.buffers[r.b].state == Dirty
    case Sleep(p) => Blocked(s, p) && p !in s.asleep
    case Lock(p) => p < |s.procs| && s.procs[p].AtLock? && s.procs[p].r.b < |s.buffers| && !Blocked(s, p) &&
        p !in s.asleep
    case Accept(p) => p < |s.procs| && s.procs[p].AtDrive? && s.procs[p].r.b < |s.buffers| && !Blocked(s, p) &&
        p !in s.asleep && 0 <= s.buffers[s.procs[p].r.b].key < |s.disk|
    case Complete(w) => s.drive.Some? && s.drive.value.b < |s.buffers|
                        && 0 <= s.buffers[s.drive.value.b].key < |s.disk|
                        && (DriveSleeper(s, w) || forall p :: 0 <= p < |s.procs| ==> !DriveSleeper(s, p))
    case Wake(p) => p < |s.procs| && s.procs[p].AtIo? && !Blocked(s, p) && p !in s.asleep
  }

  /** No buffer is for block k. */
  predicate NoneFor(s: State, k: nat) { forall i :: 0 <= i < |s.buffers| ==> s.buffers[i].key != k }

  function Put(s: State, b: nat, x: Buffer): State
    requires b < |s.buffers|
  {
    s.(buffers := s.buffers[b := x])
  }

  /** A client more has buffer b, which is the newest now. */
  function Hand(s: State, b: nat): State
    requires b < |s.buffers| && b < |s.clients|
  {
    Put(s, b, s.buffers[b].(refCount := s.buffers[b].refCount + 1))
      .(clients := s.clients[b := s.clients[b] + 1], lru := Without(s.lru, b) + [b])
  }

  /** Where a process goes on when the drive has its request. */
  function Onward(pc: Pc): Pc
    requires pc.AtDrive?
  {
    match pc.after
    case Return => Elsewhere
    case Wait => AtIo(pc.r.b)
    case Scan(key) => Scanning(key, Some(pc.r.b))
  }

  /** Who still sleeps after a request for buffer b is done. */
  function StillAsleep(s: State, b: nat, w: nat): set<nat> {
    set p | p in s.asleep && !(p < |s.procs| && WaitsFor(s.procs[p], b)) && !(p == w && DriveSleeper(s, w))
  }

  function Next(s: State, a: Action): State
    requires Enabled(s, a)
  {
    match a
    case LookUp(p, key, found) =>
      (match found
       case Some(b) => Hand(s, b)
       case None => s.(procs := s.procs[p := Scanning(key, None)]))
    case Pass(p) => s.(procs := s.procs[p := Scanning(s.procs[p].key, Candidate(s, p))])
    case WriteOut(p) =>
      var b := Candidate(s, p).value;
      Put(s, b, s.buffers[b].(refCount := s.buffers[b].refCount + 1))
        .(procs := s.procs[p := AtLock(Request(b, Write), Scan(s.procs[p].key))])
    case Evict(p) =>
      var b := Candidate(s, p).value;
      Hand(Put(s, b, s.buffers[b].(state := Invalid, key := s.procs[p].key)), b).(procs := s.procs[p := Elsewhere])
    case Release(b) =>
      Put(s, b, s.buffers[b].(refCount := s.buffers[b].refCount - 1)).(clients := s.clients[b := s.clients[b] - 1])
    case Modify(b, data) => Put(s, b, s.buffers[b].(state := Dirty, data := data))
    case Start(p, r, sync) =>
      Put(s, r.b, s.buffers[r.b].(refCount := s.buffers[r.b].refCount + 1))
        .(procs := s.procs[p := AtLock(r, if sync then Wait else Return)])
    case Sleep(p) => s.(asleep := s.asleep + {p})
    case Lock(p) =>
      var pc := s.procs[p];
      Put(s, pc.r.b, s.buffers[pc.r.b].(locked := true)).(procs := s.procs[p := AtDrive(pc.r, pc.after)])
    case Accept(p) =>
      // The data of a write goes to the drive with the command.
      var pc, x := s.procs[p], s.buffers[s.procs[p].r.b];
      s.(procs := s.procs[p := Onward(pc)], drive := Some(pc.r), accepted := s.accepted + 1,
         disk := if pc.r.command == Write then s.disk[x.key := x.data] else s.disk)
    case Complete(w) =>
      var r, x := s.drive.value, s.buffers[s.drive.value.b];
      Put(s, r.b, Buffer(x.refCount - 1, Clean, false, x.key, if r.command == Read then s.disk[x.key] else x.data))
        .(drive := None, completed := s.completed + 1, asleep := StillAsleep(s, r.b, w))
    case Wake(p) => s.(procs := s.procs[p := Elsewhere])
  }

  /** Process p sleeps until a request for buffer b is done. */
  predicate AsleepAt(s: State, p: nat, b: nat) {
    p in s.asleep && p < |s.procs| && (s.procs[p] == AtIo(b) || (s.procs[p].AtLock? && s.procs[p].r.b == b))
  }

  /** The end of a request wakes all who wait for its buffer and, of those who wait for the
      drive, one if there are any. */
  lemma CompleteWakes(s: State, w: nat)
    requires Enabled(s, Complete(w))
    ensures var b, s' := s.drive.value.b, Next(s, Complete(w));
            && (forall p :: p in s'.asleep ==> p in s.asleep)
            && (forall p :: p in s.asleep && p !in s'.asleep ==> AsleepAt(s, p, b) || (p == w && DriveSleeper(s, w)))
            && (forall p :: AsleepAt(s, p, b) ==> p !in s'.asleep)
            && (forall p :: DriveSleeper(s, p) ==> DriveSleeper(s, w) && w !in s'.asleep)
  {
  }

  // ----- what every step keeps -----

  /** References and locks of buffer b are accounted for. */
  ghost predicate Counted(s: State, b: nat)
    requires b < |s.buffers| && b < |s.clients|
  {
    && s.buffers[b].refCount == s.clients[b] + Asking(s.procs, b) + OnDrive(s, b)
    && Locking(s.procs, b) + OnDrive(s, b) == if s.buffers[b].locked then 1 else 0
  }

  ghost predicate AllCounted(s: State) {
    && Shape(s) && (forall b :: 0 <= b < |s.buffers| ==> Counted(s, b))
    && s.accepted == s.completed + if s.drive.Some? then 1 else 0
  }

  /** The process is going to read, or write, buffer b. */
  predicate Reads(pc: Pc, b: nat) { (pc.AtLock? || pc.AtDrive?) && pc.r == Request(b, Read) }

  predicate Writes(pc: Pc, b: nat) { (pc.AtLock? || pc.AtDrive?) && pc.r == Request(b, Write) }

  /** A buffer that is written has something in it. */
  ghost predicate WritesHold(s: State) {
    forall b: nat :: b < |s.buffers| && s.buffers[b].state == Invalid ==>
      s.drive != Some(Request(b, Write)) && forall p :: 0 <= p < |s.procs| ==> !Writes(s.procs[p], b)
  }

  predicate AwakeAtDrive(s: State, q: nat) { q < |s.procs| && s.procs[q].AtDrive? && q !in s.asleep }

  /** Nobody sleeps who ought to have been woken: what a sleeper waits for is not
      so, or it is the drive and somebody is up who will take it. */
  ghost predicate NoneForgotten(s: State) {
    forall p :: p in s.asleep ==>
      Blocked(s, p) || (p < |s.procs| && s.procs[p].AtDrive? && exists q: nat :: AwakeAtDrive(s, q))
  }

  ghost predicate Inv(s: State) {
    AllCounted(s) && LruOk(s) && WritesHold(s) && NoneForgotten(s)
  }

  /** Where the process of a step is afterwards, if it is somewhere else. */
  function Moved(s: State, a: Action): Option<Pc>
    requires Enabled(s, a)
  {
    match a
    case LookUp(p, key, found) => if found.Some? then None else Some(Scanning(key, None))
    case Pass(p) => Some(Scanning(s.procs[p].key, Candidate(s, p)))
    case WriteOut(p) => Some(AtLock(Request(Candidate(s, p).value, Write), Scan(s.procs[p].key)))
    case Evict(p) => Some(Elsewhere)
    case Start(p, r, sync) => Some(AtLock(r, if sync then Wait else Return))
    case Lock(p) => Some(AtDrive(s.procs[p].r, s.procs[p].after))
    case Accept(p) => Some(Onward(s.procs[p]))
    case Wake(p) => Some(Elsewhere)
    case _ => None
  }

  /** Whose step it is, if it is not an interrupt or something done to a buffer that a
      client has. */
  function Who(a: Action): Option<nat> {
    match a
    case LookUp(p, _, _) => Some(p)
    case Pass(p) => Some(p)
    case WriteOut(p) => Some(p)
    case Evict(p) => Some(p)
    case Start(p, _, _) => Some(p)
    case Sleep(p) => Some(p)
    case Lock(p) => Some(p)
    case Accept(p) => Some(p)
    case Wake(p) => Some(p)
    case _ => None
  }

  lemma MovedIs(s: State, a: Action)
    requires Enabled(s, a)
    ensures Moved(s, a).Some? ==>
            Who(a).Some? && Who(a).value < |s.procs| && Next(s, a).procs == s.procs[Who(a).value := Moved(s, a).value]
    ensures Moved(s, a).None? ==> Next(s, a).procs == s.procs
  {
    hide Ahead, StillAsleep, NoneFor, Without;
  }

  /** How a step changes what a buffer's references and lock stand for. */
  lemma StepCounts(s: State, a: Action, b: nat)
    requires Enabled(s, a)
    ensures var s', m := Next(s, a), Moved(s, a);
            && (m.None? ==> Asking(s'.procs, b) == Asking(s.procs, b) && Locking(s'.procs, b) == Locking(s.procs, b))
            && (m.Some? ==>
                  && Who(a).Some? && Who(a).value < |s.procs|
                  && var pc := s.procs[Who(a).value];
                     && Asking(s'.procs, b) == Asking(s.procs, b) - Asks(pc, b) + Asks(m.value, b)
                     && Locking(s'.procs, b) == Locking(s.procs, b) - HasLock(pc, b) + HasLock(m.value, b))
  {
    MovedIs(s, a);
    if Moved(s, a).Some? { CountUpdate(s.procs, Who(a).value, Moved(s, a).value, b); }
    hide Enabled, Next, Moved;
  }

  lemma SearchCounted(s: State, a: Action, b: nat)
    requires AllCounted(s) && Enabled(s, a) && b < |s.buffers|
    requires a.LookUp? || a.Pass? || a.WriteOut? || a.Evict?
    ensures Counted(Next(s, a), b)
  {
    assert Counted(s, b);
    StepCounts(s, a, b);
    hide Asking, Locking, Behind, Ahead, NoneFor;
  }

  lemma RequestCounted(s: State, a: Action, b: nat)
    requires AllCounted(s) && Enabled(s, a) && b < |s.buffers|
    requires !a.LookUp? && !a.Pass? && !a.WriteOut? && !a.Evict?
    ensures Counted(Next(s, a), b)
  {
    assert Counted(s, b);
    StepCounts(s, a, b);
    hide Asking, Locking, Candidate, StillAsleep;
  }

  lemma ClientHas(s: State, b: nat)
    requires AllCounted(s) && b < |s.buffers| && s.clients[b] > 0
    ensures s.buffers[b].refCount > 0 && s.buffers[b].key >= 0
  {
    assert Counted(s, b);
  }

  lemma StepShape(s: State, a: Action)
    requires AllCounted(s) && Enabled(s, a)
    ensures Shape(Next(s, a)) && |Next(s, a).buffers| == |s.buffers| && |Next(s, a).disk| == |s.disk|
    ensures |Next(s, a).procs| == |s.procs|
  {
    if a.Modify? { ClientHas(s, a.b); }
    if a.Start? && a.r.command == Read { ClientHas(s, a.r.b); }
    hide Counted;
    StepKeys(s, a);
    StepPlaces(s, a);
  }

  /** Buffers in use stay for blocks. */
  lemma StepKeys(s: State, a: Action)
    requires Shape(s) && Enabled(s, a) && (a.Modify? ==> s.buffers[a.b].key >= 0)
    requires a.Start? && a.r.command == Read ==> s.buffers[a.r.b].key >= 0
    ensures var s' := Next(s, a);
            && |s'.buffers| == |s.buffers| && |s'.clients| == |s.clients| && |s'.disk| == |s.disk|
            && forall b :: 0 <= b < |s.buffers| ==>
                 && -1 <= s'.buffers[b].key < |s.disk|
                 && (s'.buffers[b].refCount > 0 || s'.buffers[b].state != Invalid ==> s'.buffers[b].key >= 0)
  {
    hide StillAsleep, Without, Behind, Ahead;
    assert a.Evict? ==> Seeks(s.procs[a.p], s.procs[a.p].key);
  }

  lemma StepPlaces(s: State, a: Action)
    requires Shape(s) && Enabled(s, a)
    ensures var s' := Next(s, a);
            && |s'.procs| == |s.procs| && (s'.drive.Some? ==> s'.drive.value.b < |s.buffers|)
            && forall p :: 0 <= p < |s'.procs| ==> PlaceOk(s, s'.procs[p])
  {
    MovedIs(s, a);
    if Moved(s, a).Some? { MovedPlace(s, a); }
    hide Moved, Next, Candidate, NoneFor;
    forall p | 0 <= p < |s.procs| ensures PlaceOk(s, s.procs[p]) {
      var pc := s.procs[p];
      assert pc.Scanning? ==> Seeks(pc, pc.key);
      assert (pc.AtLock? || pc.AtDrive?) && pc.after.Scan? ==> Seeks(pc, pc.after.key);
    }
    NextDrive(s, a);
  }

  /** A place that fits the buffers and the disk. */
  predicate PlaceOk(s: State, pc: Pc) {
    && (pc.AtLock? || pc.AtDrive? ==> pc.r.b < |s.buffers|) && (pc.AtIo? ==> pc.b < |s.buffers|)
    && (pc.Scanning? ==> pc.key < |s.disk|)
    && ((pc.AtLock? || pc.AtDrive?) && pc.after.Scan? ==> pc.after.key < |s.disk|)
  }

  lemma NextDrive(s: State, a: Action)
    requires Shape(s) && Enabled(s, a)
    ensures Next(s, a).drive.Some? ==> Next(s, a).drive.value.b < |s.buffers|
  {
  }

  lemma MovedPlace(s: State, a: Action)
    requires Shape(s) && Enabled(s, a) && Moved(s, a).Some?
    ensures PlaceOk(s, Moved(s, a).value)
  {
    hide Behind, Ahead, NoneFor;
    if a.Pass? || a.WriteOut? { assert Seeks(s.procs[a.p], s.procs[a.p].key); }
    if a.Lock? || a.Accept? {
      assert s.procs[a.p].after.Scan? ==> Seeks(s.procs[a.p], s.procs[a.p].after.key);
    }
  }

  lemma StepCounted(s: State, a: Action)
    requires AllCounted(s) && Enabled(s, a)
    ensures AllCounted(Next(s, a))
  {
    StepShape(s, a);
    StepTally(s, a);
    hide Shape, Counted, Enabled, Next;
    forall b | 0 <= b < |s.buffers| ensures Counted(Next(s, a), b) {
      if a.LookUp? || a.Pass? || a.WriteOut? || a.Evict? {
        SearchCounted(s, a, b);
      } else {
        RequestCounted(s, a, b);
      }
    }
  }

  lemma StepTally(s: State, a: Action)
    requires Shape(s) && Enabled(s, a) && s.accepted == s.completed + if s.drive.Some? then 1 else 0
    ensures var s' := Next(s, a); s'.accepted == s'.completed + if s'.drive.Some? then 1 else 0
  {
    hide Candidate, NoneFor;
  }

  /** The list by age stays complete. */
  lemma StepLru(s: State, a: Action)
    requires Shape(s) && LruOk(s) && Enabled(s, a)
    ensures LruOk(Next(s, a))
  {
    var b := if a.LookUp? && a.found.Some? then a.found.value else if a.Evict? then Candidate(s, a.p).value else 0;
    WithoutIs(s.lru, b);
    if b < |s.buffers| { AppendDistinct(Without(s.lru, b), b); }
    hide Distinct, Without, Shape, Ahead, Behind, StillAsleep;
  }

  lemma StepWrites(s: State, a: Action)
    requires AllCounted(s) && WritesHold(s) && Enabled(s, a)
    ensures WritesHold(Next(s, a))
  {
    if a.Evict? {
      EvictWrites(s, a.p);
    } else {
      hide AllCounted, Shape, StillAsleep, Ahead, Behind, Without;
    }
  }

  lemma EvictWrites(s: State, p: nat)
    requires AllCounted(s) && WritesHold(s) && Enabled(s, Evict(p))
    ensures WritesHold(Next(s, Evict(p)))
  {
    UnusedIsIdle(s, Candidate(s, p).value);
    hide AllCounted, Shape, Ahead, Behind, Without;
  }

  /** A process that is held up stays so until a request is done. */
  lemma StillBlocked(s: State, a: Action, p: nat)
    requires Shape(s) && Enabled(s, a) && Blocked(s, p) && p in Next(s, a).asleep && p in s.asleep
    ensures var s' := Next(s, a);
            Blocked(s', p) || (a.Complete? && s'.procs[p].AtDrive? && DriveSleeper(s, a.woken) && a.woken !in s'.asleep)
  {
    if a.Complete? {
      DoneBlocked(s, a.woken, p);
    } else {
      hide Ahead, Behind, NoneFor, Without;
    }
  }

  lemma DoneBlocked(s: State, w: nat, p: nat)
    requires Shape(s) && Enabled(s, Complete(w)) && Blocked(s, p) && p in Next(s, Complete(w)).asleep && p in s.asleep
    ensures var s' := Next(s, Complete(w));
            Blocked(s', p) || (s'.procs[p].AtDrive? && DriveSleeper(s, w) && w !in s'.asleep)
  {
    hide Candidate, NoneFor, Without;
    if s.procs[p].AtDrive? { assert DriveSleeper(s, p); }
  }

  lemma StepAwake(s: State, a: Action)
    requires Shape(s) && NoneForgotten(s) && Enabled(s, a)
    ensures NoneForgotten(Next(s, a))
  {
    var s' := Next(s, a);
    forall p | p in s'.asleep
      ensures Blocked(s', p) || (p < |s'.procs| && s'.procs[p].AtDrive? && exists q: nat :: AwakeAtDrive(s', q))
    {
      if p in s.asleep && Blocked(s, p) {
        StillBlocked(s, a, p);
        if a.Complete? && !Blocked(s', p) { assert AwakeAtDrive(s', a.woken); }
      } else if p in s.asleep {
        var q: nat :| AwakeAtDrive(s, q);
        assert AwakeAtDrive(s', q) || s'.drive.Some?;
      }
    }
  }

  lemma StepInv(s: State, a: Action)
    requires Inv(s) && Enabled(s, a)
    ensures Inv(Next(s, a))
  {
    StepCounted(s, a);
    StepLru(s, a);
    StepWrites(s, a);
    StepAwake(s, a);
  }

  /** A buffer without references is in no way in use by the disk. */
  lemma UnusedIsIdle(s: State, b: nat)
    requires AllCounted(s) && b < |s.buffers| && s.buffers[b].refCount == 0
    ensures !s.buffers[b].locked && s.clients[b] == 0 && (s.drive.Some? ==> s.drive.value.b != b)
    ensures forall p :: 0 <= p < |s.procs| && (s.procs[p].AtLock? || s.procs[p].AtDrive?) ==> s.procs[p].r.b != b
  {
    NoneAsks(s.procs, b);
    assert Counted(s, b);
    forall p | 0 <= p < |s.procs| && (s.procs[p].AtLock? || s.procs[p].AtDrive?) ensures s.procs[p].r.b != b {
      assert Asks(s.procs[p], b) == 0;
    }
  }

  /** When buffer_wait_io is called after a request, its assertion holds. */
  lemma WaitHasReference(s: State, p: nat)
    requires Inv(s) && Enabled(s, Accept(p))
    ensures Next(s, Accept(p)).buffers[s.procs[p].r.b].refCount > 0
  {
    StepInv(s, Accept(p));
    assert Counted(Next(s, Accept(p)), s.procs[p].r.b);
  }

  // ----- runs -----

  /** buffer_table_init: buffers start out unused and for no block. */
  ghost predicate Init(s: State) {
    && Shape(s) && LruOk(s) && s.drive.None? && s.accepted == s.completed == 0 && s.asleep == {}
    && (forall p :: 0 <= p < |s.procs| ==> s.procs[p] == Elsewhere)
    && (forall b :: 0 <= b < |s.buffers| ==>
          && s.clients[b] == 0 && s.buffers[b].refCount == 0 && !s.buffers[b].locked && s.buffers[b].state == Invalid &&
          s.buffers[b].key == -1)
  }

  /** What can happen from a state on. */
  ghost predicate Goes(states: seq<State>, actions: seq<Action>) {
    && |states| == |actions| + 1
    && forall i :: 0 <= i < |actions| ==> Enabled(states[i], actions[i]) && states[i + 1] == Next(states[i], actions[i])
  }

  ghost predicate Run(states: seq<State>, actions: seq<Action>) {
    Goes(states, actions) && Init(states[0])
  }

  lemma {:induction false} NobodyAsks(procs: seq<Pc>, b: nat)
    requires forall p :: 0 <= p < |procs| ==> procs[p] == Elsewhere
    ensures Asking(procs, b) == 0 && Locking(procs, b) == 0
    decreases |procs|
  {
    if procs != [] { NobodyAsks(procs[1..], b); }
  }

  lemma InitInv(s: State)
    requires Init(s)
    ensures Inv(s)
  {
    forall b | 0 <= b < |s.buffers| ensures Counted(s, b) { NobodyAsks(s.procs, b); }
  }

  lemma {:induction false} RunInv(states: seq<State>, actions: seq<Action>, m: nat)
    requires Goes(states, actions) && m < |states| && (Init(states[0]) || Inv(states[0]))
    ensures Inv(states[m])
    decreases m
  {
    hide Inv, Enabled, Next, Init;
    if m == 0 {
      if Init(states[0]) { InitInv(states[0]); }
    } else {
      RunInv(states, actions, m - 1);
      assert states[m - 1 + 1] == Next(states[m - 1], actions[m - 1]);
      StepInv(states[m - 1], actions[m - 1]);
    }
  }

  /** In every interleaving: the drive has at most one request, and every request
      it took is done once or is the one it has; and what get_buffer takes for
      another block, having seen that it is not dirty and has no references, is
      not locked, waited for or at the drive. */
  lemma InFlightSafety(states: seq<State>, actions: seq<Action>, m: nat)
    requires Run(states, actions) && m < |states|
    ensures var s := states[m];
            && s.accepted == s.completed + (if s.drive.Some? then 1 else 0)
            && (m < |actions| && actions[m].Evict? ==>
                  && Candidate(s, actions[m].p).Some?
                  && var b := Candidate(s, actions[m].p).value;
                  && b < |s.buffers| && b < |s.clients| && s.buffers[b].state != Dirty && !s.buffers[b].locked &&
                       s.clients[b] == 0
                  && (s.drive.Some? ==> s.drive.value.b != b)
                  && forall p :: 0 <= p < |s.procs| && (s.procs[p].AtLock? || s.procs[p].AtDrive?) ==>
                       s.procs[p].r.b != b)
  {
    RunInv(states, actions, m);
    if m < |actions| && actions[m].Evict? {
      UnusedIsIdle(states[m], Candidate(states[m], actions[m].p).value);
    }
  }

  // ----- progress -----

  /** A step of the drive, or of a process that is in get_buffer or that a request
      holds up. */
  predicate Moves(a: Action) {
    a.Complete? || a.Accept? || a.Lock? || a.Wake? || a.Pass? || a.WriteOut? || a.Evict?
  }

  /** get_buffer_from_lru has come to the end of the list, and the assertion of
      get_buffer stops the kernel. */
  predicate FindsNone(s: State, p: nat) { p < |s.procs| && s.procs[p].Scanning? && Candidate(s, p).None? }

  predicate AllDone(s: State) { s.drive.None? && forall p :: 0 <= p < |s.procs| ==> s.procs[p] == Elsewhere }

  /** No wakeup is lost: in every state that can be reached there is a step to do for
      what has been asked for, or it is all done, or an assertion has failed. */
  lemma NoDeadlock(states: seq<State>, actions: seq<Action>, m: nat) returns (a: Action)
    requires Run(states, actions) && m < |states|
    ensures var s := states[m]; (Moves(a) && Enabled(s, a)) || AllDone(s) || exists p: nat :: FindsNone(s, p)
  {
    RunInv(states, actions, m);
    a := NextMove(states[m]);
  }

  lemma NextMove(s: State) returns (a: Action)
    requires Inv(s)
    ensures (Moves(a) && Enabled(s, a)) || AllDone(s) || exists p: nat :: FindsNone(s, p)
  {
    hide Asking, Locking, LruOk, WritesHold;
    if s.drive.Some? {
      var w := SomeWoken(s);
      DriveHas(s);
      a := Complete(w);
    } else if p: nat :| p < |s.procs| && s.procs[p].AtDrive? {
      var q: nat := p;
      if p in s.asleep { q :| AwakeAtDrive(s, q); }
      AskerHas(s, q);
      a := Accept(q);
    } else if p: nat :| p < |s.procs| && s.procs[p].Scanning? {
      a := ScanMove(s, p);
    } else if p: nat :| p < |s.procs| && s.procs[p] != Elsewhere {
      Unlocked(s);
      assert !Blocked(s, p) && p !in s.asleep;
      a := if s.procs[p].AtLock? then Lock(p) else Wake(p);
    } else {
      a := Wake(0);
    }
  }

  lemma ScanMove(s: State, p: nat) returns (a: Action)
    requires p < |s.procs| && s.procs[p].Scanning?
    ensures Moves(a) && (Enabled(s, a) || FindsNone(s, p))
  {
    hide Ahead, Behind;
    if Candidate(s, p).None? {
      a := Pass(p);
    } else {
      var x := s.buffers[Candidate(s, p).value];
      a := if x.state == Dirty then WriteOut(p) else if x.refCount == 0 then Evict(p) else Pass(p);
    }
  }

  lemma SomeWoken(s: State) returns (w: nat)
    ensures DriveSleeper(s, w) || forall p :: 0 <= p < |s.procs| ==> !DriveSleeper(s, p)
  {
    w :| DriveSleeper(s, w) || forall p :: 0 <= p < |s.procs| ==> !DriveSleeper(s, p);
  }

  /** A buffer that a request is for is for a block. */
  lemma AskerHas(s: State, p: nat)
    requires AllCounted(s) && p < |s.procs| && (s.procs[p].AtLock? || s.procs[p].AtDrive?)
    ensures s.buffers[s.procs[p].r.b].refCount > 0 && s.buffers[s.procs[p].r.b].key >= 0
  {
    NoneAsks(s.procs, s.procs[p].r.b);
    assert Counted(s, s.procs[p].r.b) && Asks(s.procs[p], s.procs[p].r.b) == 1;
  }

  lemma DriveHas(s: State)
    requires AllCounted(s) && s.drive.Some?
    ensures s.buffers[s.drive.value.b].refCount > 0 && 0 <= s.buffers[s.drive.value.b].key < |s.disk|
    ensures s.buffers[s.drive.value.b].locked
  {
    assert Counted(s, s.drive.value.b);
  }

  lemma Unlocked(s: State)
    requires AllCounted(s) && s.drive.None? && forall p :: 0 <= p < |s.procs| ==> !s.procs[p].AtDrive?
    ensures forall b :: 0 <= b < |s.buffers| ==> !s.buffers[b].locked
  {
    forall b | 0 <= b < |s.buffers| ensures !s.buffers[b].locked {
      assert Counted(s, b);
      NoneLocks(s.procs, b);
    }
  }

  lemma {:induction false} NoneLocks(procs: seq<Pc>, b: nat)
    ensures Locking(procs, b) > 0 <==> exists p :: 0 <= p < |procs| && HasLock(procs[p], b) > 0
    decreases |procs|
  {
    if procs != [] {
      NoneLocks(procs[1..], b);
      assert procs == [procs[0]] + procs[1..];
    }
  }
}
