/** Processes as sync.c, wait.c, pcb.c and fork.c keep them: the pcb table, the
    lists of pcbs, and what one stretch of kernel code does to them. The kernel is
    not preempted, so a stretch ends where a process gives up the processor or
    goes back to user mode. */
module Processes {
  import opened Lists
  import opened Options

  // pcb_table has PCB_NUMBER, that is 128, slots.

  /** What a process can wait for: the exit of a child of the process in slot pid,
      or something a device or pipe signals. */
  datatype Condition = ChildExit(pid: nat) | Device(k: nat)

  datatype ListId = RunningList | ZombieList | Sleepers(c: Condition)

  datatype PcbState = Running | Waiting | Zombie

  /** Where a process goes on when it runs next: in user mode or a call that is
      not one of the following, in the loop of sys_wait, or in sys_exit after its
      exit code is set. */
  datatype Context = InUser | InWait | InExit

  /** list is the list its chain links it into. */
  datatype Pcb = Pcb(pid: nat, ppid: int, state: PcbState, exitCode: int, list: ListId, context: Context)

  datatype Sys = Sys(table: map<nat, Pcb>, lists: map<ListId, seq<nat>>, current: nat)

  function ListOf(s: Sys, id: ListId): seq<nat> {
    if id in s.lists then s.lists[id] else []
  }

  /** Every pcb is on one list, once, the one its chain says. */
  ghost predicate Chained(s: Sys) {
    && (forall p :: p in s.table ==> p in ListOf(s, s.table[p].list))
    && (forall id, p :: p in ListOf(s, id) ==> p in s.table && s.table[p].list == id)
    && (forall id :: Distinct(ListOf(s, id)))
  }

  /** chain_remove, then list_push_back. */
  function Move(s: Sys, p: nat, id: ListId, state: PcbState): Sys
    requires p in s.table
  {
    var from := s.table[p].list;
    var lists := s.lists[from := Without(ListOf(s, from), p)];
    var to := (if id in lists then lists[id] else []) + [p];
    Sys(s.table[p := s.table[p].(list := id, state := state)], lists[id := to], s.current)
  }

  function SetContext(s: Sys, p: nat, c: Context): Sys
    requires p in s.table
  {
    s.(table := s.table[p := s.table[p].(context := c)])
  }

  /** yield_cpu. Its assertion is that somebody is left to run. */
  function YieldCpu(s: Sys, id: ListId, state: PcbState): Option<Sys>
    requires s.current in s.table
  {
    var s' := Move(s, s.current, id, state);
    var running := ListOf(s', RunningList);
    if running == [] then None else Some(s'.(current := running[0]))
  }

  /** What Move does to the lists: p leaves its own and is the last of id. */
  lemma MoveLists(s: Sys, p: nat, id: ListId, state: PcbState)
    requires p in s.table
    ensures var s', from := Move(s, p, id, state), s.table[p].list;
            && ListOf(s', id) == (if id == from then Without(ListOf(s, from), p) else ListOf(s, id)) + [p]
            && (from != id ==> ListOf(s', from) == Without(ListOf(s, from), p))
            && (forall x :: x != id && x != from ==> ListOf(s', x) == ListOf(s, x))
  {
  }

  /** Afterwards p is on id and nowhere else, and all others are where they were. */
  lemma MoveMembers(s: Sys, p: nat, id: ListId, state: PcbState, l: ListId)
    requires Chained(s) && p in s.table
    ensures var q := ListOf(Move(s, p, id, state), l);
            Distinct(q) && forall x :: x in q <==> if x == p then l == id else x in ListOf(s, l)
  {
    var from := s.table[p].list;
    MoveLists(s, p, id, state);
    WithoutIs(ListOf(s, from), p);
    hide Move, Without;
    assert l != from ==> p !in ListOf(s, l);
    assert Distinct(ListOf(s, l));
    if l == id {
      AppendDistinct(if id == from then Without(ListOf(s, from), p) else ListOf(s, id), p);
    }
  }

  lemma MoveChained(s: Sys, p: nat, id: ListId, state: PcbState)
    requires Chained(s) && p in s.table
    ensures Chained(Move(s, p, id, state))
  {
    var s' := Move(s, p, id, state);
    forall l ensures Distinct(ListOf(s', l)) && forall x :: x in ListOf(s', l) <==>
        if x == p then l == id else x in ListOf(s, l) {
      MoveMembers(s, p, id, state, l);
    }
    hide Distinct, Without, ListOf;
  }

  function CondSignal(s: Sys, c: Condition): (r: Sys)
    requires Chained(s)
    ensures Chained(r)
    ensures |ListOf(r, Sleepers(c))| == if ListOf(s, Sleepers(c)) == [] then 0 else |ListOf(s, Sleepers(c))| - 1
  {
    var q := ListOf(s, Sleepers(c));
    if q == [] then s else
    assert q[0] in q;
    MoveLists(s, q[0], RunningList, Running);
    MoveChained(s, q[0], RunningList, Running);
    Move(s, q[0], RunningList, Running)
  }

  function CondBroadcast(s: Sys, c: Condition): (r: Sys)
    requires Chained(s)
    ensures Chained(r)
    decreases |ListOf(s, Sleepers(c))|
  {
    if ListOf(s, Sleepers(c)) == [] then s else CondBroadcast(CondSignal(s, c), c)
  }

  /** The lowest free slot. */
  function AllocPid(s: Sys, i: nat): (r: Option<nat>)
    requires i <= 128
    ensures r.None? <==> forall j :: i <= j < 128 ==> j in s.table
    ensures r.Some? ==> i <= r.value < 128 && r.value !in s.table && forall j :: i <= j < r.value ==> j in s.table
    decreases 128 - i
  {
    if i == 128 then None else if i !in s.table then Some(i) else AllocPid(s, i + 1)
  }

  predicate ZombieChild(s: Sys, z: nat, parent: int) {
    z in s.table && s.table[z].ppid == parent && s.table[z].state == Zombie
  }

  /** find_zombie: the zombie child in the lowest slot. */
  function FindZombie(s: Sys, ppid: int, i: nat): (r: Option<nat>)
    requires i <= 128
    ensures r.None? <==> forall j :: i <= j < 128 ==> !ZombieChild(s, j, ppid)
    ensures r.Some? ==> i <= r.value < 128 && ZombieChild(s, r.value, ppid)
    ensures r.Some? ==> forall j :: i <= j < r.value ==> !ZombieChild(s, j, ppid)
    decreases 128 - i
  {
    if i == 128 then None else if ZombieChild(s, i, ppid) then Some(i) else FindZombie(s, ppid, i + 1)
  }

  /** find_pcb */
  function FindPcb(s: Sys, pid: int, i: nat): (r: Option<nat>)
    requires i <= 128
    ensures r.None? <==> forall j :: i <= j < 128 && j in s.table ==> s.table[j].pid != pid
    ensures r.Some? ==> i <= r.value < 128 && r.value in s.table && s.table[r.value].pid == pid
    ensures r.Some? ==> forall j :: i <= j < r.value && j in s.table ==> s.table[j].pid != pid
    decreases 128 - i
  {
    if i == 128 then None else if i in s.table && s.table[i].pid == pid then Some(i) else FindPcb(s, pid, i + 1)
  }

  /** (status >> 8) & 0xff, where the shift of a negative number rounds down. */
  function WExitStatus(status: int): int { status / 256 % 256 }

  /** The two low bytes of a status, and what is above them. */
  predicate StatusBytes(status: int, high: int, code: int, low: int) {
    status == 65536 * high + 256 * code + low && 0 <= code < 256 && 0 <= low < 256
  }

  // ----- the stretches of kernel code -----

  /** uninstall_pcb */
  function UninstallPcb(s: Sys, z: nat): Sys
    requires z in s.table
  {
    var from := s.table[z].list;
    Sys(s.table - {z}, s.lists[from := Without(ListOf(s, from), z)], s.current)
  }

  /** install_pcb, where a slot is free, and what else sys_fork sets. */
  function InstallPcb(s: Sys, pid: nat, ppid: int): Sys {
    Sys(s.table[pid := Pcb(pid, ppid, Running, 0, RunningList, InUser)],
        s.lists[RunningList := ListOf(s, RunningList) + [pid]], s.current)
  }

  datatype Action = Schedule | Block(k: nat) | Signal(k: nat) | Broadcast(k: nat) | Fork | Wait
                  | ExitStart(status: int) | ExitEnd

  /** The current process can do this next. Process 0 is the idle process, whose
      program forks and then only calls nice. */
  predicate Enabled(s: Sys, a: Action) {
    s.current in s.table &&
    var me := s.table[s.current];
    match a
    case Schedule => me.context.InUser?
    case Block(_) => !me.context.InWait? && s.current != 0
    case Signal(_) => !me.context.InWait?
    case Broadcast(_) => !me.context.InWait?
    case Fork => me.context.InUser? && AllocPid(s, 0).Some?
    case Wait => !me.context.InExit? && s.current != 0
    case ExitStart(_) => me.context.InUser? && s.current != 0
    case ExitEnd => me.context.InExit?
  }

  /** From the entry of sys_wait, or its return from cond_wait, up to its end or
      the next cond_wait. */
  function SysWait(s: Sys): Option<Sys>
    requires s.current in s.table
  {
    match FindZombie(s, s.table[s.current].pid, 0)
    case Some(z) => if z == s.current then None else Some(SetContext(UninstallPcb(s, z), s.current, InUser))
    case None => YieldCpu(SetContext(s, s.current, InWait), Sleepers(ChildExit(s.table[s.current].pid)), Waiting)
  }

  function ExitSet(s: Sys, status: int): Sys
    requires s.current in s.table
  {
    s.(table := s.table[s.current := s.table[s.current].(exitCode := WExitStatus(status), context := InExit)])
  }

  function WakeParent(s: Sys): Sys
    requires Chained(s) && s.current in s.table
  {
    var parent := FindPcb(s, s.table[s.current].ppid, 0);
    if parent.Some? then CondSignal(s, ChildExit(parent.value)) else s
  }

  /** The end of sys_exit: the parent, if there is one, is woken, and the process
      becomes a zombie. */
  function SysExitEnd(s: Sys): Option<Sys>
    requires Chained(s) && s.current in s.table
  {
    var s' := WakeParent(s);
    if s'.current !in s'.table then None else YieldCpu(s', ZombieList, Zombie)
  }

  /** None where the assertion in yield_cpu fails. */
  function Next(s: Sys, a: Action): Option<Sys>
    requires Chained(s) && Enabled(s, a)
  {
    match a
    case Schedule => YieldCpu(s, RunningList, Running)
    case Block(k) => YieldCpu(s, Sleepers(Device(k)), Waiting)
    case Signal(k) => Some(CondSignal(s, Device(k)))
    case Broadcast(k) => Some(CondBroadcast(s, Device(k)))
    case Fork => Some(InstallPcb(s, AllocPid(s, 0).value, s.table[s.current].pid))
    case Wait => SysWait(s)
    case ExitStart(status) => Some(ExitSet(s, status))
    case ExitEnd => SysExitEnd(s)
  }

  /** sys_exit leaves the second byte of its status as the exit code. */
  lemma ExitCodeIs(s: Sys, status: int, high: int, code: int, low: int)
    requires Chained(s) && Enabled(s, ExitStart(status)) && StatusBytes(status, high, code, low)
    ensures var s' := Next(s, ExitStart(status));
            s'.Some? && s.current in s'.value.table && s'.value.table[s.current].exitCode == code
  {
    assert status / 256 == 256 * high + code;
  }

  // ----- what every step keeps -----

  /** The state of a pcb says which list it is on, and only a process in sys_wait
      sleeps on a wait_child_exit, its own. */
  predicate Matches(pcb: Pcb) {
    && (pcb.list == RunningList <==> pcb.state == Running)
    && (pcb.list == ZombieList <==> pcb.state == Zombie)
    && (pcb.state == Zombie ==> pcb.context.InExit?)
    && (pcb.context.InWait? ==> pcb.list == RunningList || pcb.list == Sleepers(ChildExit(pcb.pid)))
    && (pcb.list.Sleepers? && pcb.list.c.ChildExit? ==> pcb.list.c.pid == pcb.pid && pcb.context.InWait?)
  }

  ghost predicate HasZombie(s: Sys, p: int) {
    exists z :: ZombieChild(s, z, p)
  }

  /** A process in the loop of sys_wait is awake exactly when it has a zombie
      child: its wakeup is never lost, and it is never woken for nothing. */
  ghost predicate PcbOk(s: Sys, p: nat)
    requires p in s.table
  {
    && p < 128 && s.table[p].pid == p && Matches(s.table[p])
    && (s.table[p].context.InWait? ==> (s.table[p].list == RunningList <==> HasZombie(s, p)))
  }

  /** The running process is the head of the running list. */
  ghost predicate Front(s: Sys) {
    ListOf(s, RunningList) != [] && ListOf(s, RunningList)[0] == s.current
  }

  ghost predicate IdleRuns(s: Sys) {
    0 in s.table && s.table[0].list == RunningList && s.table[0].context.InUser?
  }

  ghost predicate Ok(s: Sys) {
    Chained(s) && Front(s) && IdleRuns(s) && forall p :: p in s.table ==> PcbOk(s, p)
  }

  lemma FrontInTable(s: Sys)
    requires Chained(s) && Front(s)
    ensures s.current in s.table && s.table[s.current].list == RunningList
  {
    assert s.current in ListOf(s, RunningList);
  }

  /** Who is a zombie does not depend on anything but the pcbs' states. */
  lemma SameZombies(s: Sys, s': Sys, p: int)
    requires forall z :: ZombieChild(s, z, p) <==> ZombieChild(s', z, p)
    ensures HasZombie(s, p) <==> HasZombie(s', p)
  {
    if HasZombie(s, p) { var z :| ZombieChild(s, z, p); assert ZombieChild(s', z, p); }
    if HasZombie(s', p) { var z :| ZombieChild(s', z, p); assert ZombieChild(s, z, p); }
  }

  lemma ChainedBy(s: Sys, s': Sys)
    requires Chained(s) && s'.table == s.table && s'.lists == s.lists
    ensures Chained(s')
  {
    hide Distinct;
    assert forall l :: ListOf(s', l) == ListOf(s, l);
  }

  /** The assertion in yield_cpu holds if and only if the process that gives up the
      processor stays on the running list or is not alone there. */
  lemma LeftToRun(s: Sys, id: ListId, state: PcbState)
    requires Chained(s) && Front(s) && s.current in s.table
    ensures YieldCpu(s, id, state).Some? <==> id == RunningList || |ListOf(s, RunningList)| > 1
  {
    FrontInTable(s);
    MoveLists(s, s.current, id, state);
  }

  /** What yield_cpu does to the lists: the process goes from the head of the running
      list to the end of the other one, and who is next there runs. */
  lemma YieldLists(s: Sys, id: ListId, state: PcbState)
    requires Chained(s) && Front(s) && s.current in s.table && (id == RunningList || |ListOf(s, RunningList)| > 1)
    ensures YieldCpu(s, id, state).Some?
    ensures var s', me := YieldCpu(s, id, state).value, s.current;
            && Chained(s') && Front(s')
            && s'.table == s.table[me := s.table[me].(list := id, state := state)]
            && ListOf(s', RunningList) == ListOf(s, RunningList)[1..] + (if id == RunningList then [me] else [])
            && (id != RunningList ==> ListOf(s', id) == ListOf(s, id) + [me])
            && forall l :: l != id && l != RunningList ==> ListOf(s', l) == ListOf(s, l)
  {
    FrontInTable(s);
    LeftToRun(s, id, state);
    var m := Move(s, s.current, id, state);
    MoveLists(s, s.current, id, state);
    MoveChained(s, s.current, id, state);
    hide Chained;
    ChainedBy(m, YieldCpu(s, id, state).value);
    assert forall l :: ListOf(YieldCpu(s, id, state).value, l) == ListOf(m, l);
  }

  /** What cond_signal does to the lists. */
  lemma SignalLists(s: Sys, c: Condition)
    requires Chained(s) && ListOf(s, Sleepers(c)) != []
    ensures var s', p := CondSignal(s, c), ListOf(s, Sleepers(c))[0];
            && p in s.table && s'.current == s.current
            && s'.table == s.table[p := s.table[p].(list := RunningList, state := Running)]
            && ListOf(s', Sleepers(c)) == ListOf(s, Sleepers(c))[1..]
            && ListOf(s', RunningList) == ListOf(s, RunningList) + [p]
            && forall l :: l != Sleepers(c) && l != RunningList ==> ListOf(s', l) == ListOf(s, l)
  {
    var p := ListOf(s, Sleepers(c))[0];
    assert p in ListOf(s, Sleepers(c));
    MoveLists(s, p, RunningList, Running);
  }

  /** Somebody is left to run: the idle process, if nobody else. */
  lemma YieldIs(s: Sys, id: ListId, state: PcbState)
    requires Chained(s) && Front(s) && IdleRuns(s) && s.current in s.table && (s.current != 0 || id == RunningList)
    ensures var s' := YieldCpu(s, id, state);
            && s'.Some? && Chained(s'.value) && Front(s'.value) && IdleRuns(s'.value)
            && s'.value.table == s.table[s.current := s.table[s.current].(list := id, state := state)]
  {
    var m := Move(s, s.current, id, state);
    MoveChained(s, s.current, id, state);
    MoveMembers(s, s.current, id, state, RunningList);
    assert 0 in ListOf(s, RunningList);
    hide Chained;
    ChainedBy(m, YieldCpu(s, id, state).value);
  }

  /** The pcbs after p has gone to the list id, but not as a zombie. */
  lemma MovedPcb(s: Sys, s': Sys, p: nat, id: ListId, state: PcbState, x: nat)
    requires p in s.table && s'.table == s.table[p := s.table[p].(list := id, state := state)] && x in s'.table
    requires state != Zombie && s.table[p].state != Zombie
    requires x != p ==> PcbOk(s, x)
    requires var me := s.table[p].(list := id, state := state);
             p < 128 && me.pid == p && Matches(me) && (me.context.InWait? ==> (id == RunningList <==> HasZombie(s, p)))
    ensures PcbOk(s', x)
  {
    SameZombies(s, s', x);
    hide HasZombie, Matches;
  }

  /** Giving up the processor other than as a zombie. */
  lemma YieldOk(s: Sys, id: ListId, state: PcbState)
    requires Chained(s) && Front(s) && IdleRuns(s) && s.current in s.table
    requires forall p :: p in s.table && p != s.current ==> PcbOk(s, p)
    requires s.current < 128 && (s.current != 0 || id == RunningList) && state != Zombie
    requires s.table[s.current].state != Zombie
    requires var me := s.table[s.current].(list := id, state := state);
             me.pid == s.current && Matches(me) && (me.context.InWait? ==>
                 (id == RunningList <==> HasZombie(s, s.current)))
    ensures var s' := YieldCpu(s, id, state); s'.Some? && Ok(s'.value)
  {
    YieldIs(s, id, state);
    var s' := YieldCpu(s, id, state).value;
    hide Chained, Front, YieldCpu, ListOf, Matches, HasZombie, PcbOk;
    forall p | p in s'.table ensures PcbOk(s', p) {
      MovedPcb(s, s', s.current, id, state, p);
    }
  }

  lemma ScheduleOk(s: Sys)
    requires Ok(s) && Enabled(s, Schedule)
    ensures var s' := Next(s, Schedule); s'.Some? && Ok(s'.value)
  {
    FrontInTable(s);
    YieldOk(s, RunningList, Running);
  }

  lemma BlockOk(s: Sys, k: nat)
    requires Ok(s) && Enabled(s, Block(k))
    ensures var s' := Next(s, Block(k)); s'.Some? && Ok(s'.value)
  {
    FrontInTable(s);
    YieldOk(s, Sleepers(Device(k)), Waiting);
  }

  /** cond_signal wakes the first sleeper, if there is one. */
  lemma SignalIs(s: Sys, c: Condition)
    requires Chained(s) && Front(s)
    ensures var s', q := CondSignal(s, c), ListOf(s, Sleepers(c));
            && Chained(s') && Front(s') && s'.current == s.current
            && (q == [] ==> s' == s)
            && (q != [] ==>
                  && q[0] in s.table && s.table[q[0]].list == Sleepers(c)
                  && ListOf(s', RunningList) == ListOf(s, RunningList) + [q[0]]
                  && s'.table == s.table[q[0] := s.table[q[0]].(list := RunningList, state := Running)])
  {
    var q := ListOf(s, Sleepers(c));
    if q != [] {
      assert q[0] in q;
      MoveLists(s, q[0], RunningList, Running);
    }
  }

  lemma SignalOk(s: Sys, k: nat)
    requires Ok(s)
    ensures Ok(CondSignal(s, Device(k))) && CondSignal(s, Device(k)).current == s.current
    ensures forall p :: p in s.table <==> p in CondSignal(s, Device(k)).table
    ensures CondSignal(s, Device(k)).table[s.current].context == s.table[s.current].context
  {
    SignalIs(s, Device(k));
    FrontInTable(s);
    hide Matches;
    var s', q := CondSignal(s, Device(k)), ListOf(s, Sleepers(Device(k)));
    hide Chained, CondSignal, ListOf, PcbOk, Front;
    if q != [] {
      assert PcbOk(s, q[0]);
      forall x | x in s'.table ensures PcbOk(s', x) {
        assert PcbOk(s, x);
        WokenPcb(s, s', q[0], Device(k), x);
      }
    }
  }

  lemma WokenPcb(s: Sys, s': Sys, p: nat, c: Condition, x: nat)
    requires p in s.table && s'.table == s.table[p := s.table[p].(list := RunningList, state := Running)]
    requires x in s'.table
    requires s.table[p].list == Sleepers(c) && c.Device? && PcbOk(s, p) && PcbOk(s, x)
    ensures PcbOk(s', x)
  {
    MovedPcb(s, s', p, RunningList, Running, x);
  }

  lemma {:induction false} BroadcastOk(s: Sys, k: nat)
    requires Ok(s)
    ensures Ok(CondBroadcast(s, Device(k)))
    decreases |ListOf(s, Sleepers(Device(k)))|
  {
    if ListOf(s, Sleepers(Device(k))) != [] {
      SignalOk(s, k);
      BroadcastOk(CondSignal(s, Device(k)), k);
    }
  }

  lemma InstallChained(s: Sys, pid: nat, ppid: int)
    requires Chained(s) && pid !in s.table
    ensures Chained(InstallPcb(s, pid, ppid))
  {
    hide Distinct, ListOf;
    var s' := InstallPcb(s, pid, ppid);
    forall l ensures Distinct(ListOf(s', l)) && forall x :: x in ListOf(s', l) <==>
        x in ListOf(s, l) || (x == pid && l == RunningList) {
      InstallMembers(s, pid, ppid, l);
    }
  }

  lemma InstallMembers(s: Sys, pid: nat, ppid: int, l: ListId)
    requires Chained(s) && pid !in s.table
    ensures var q := ListOf(InstallPcb(s, pid, ppid), l);
            Distinct(q) && forall x :: x in q <==> x in ListOf(s, l) || (x == pid && l == RunningList)
  {
    assert Distinct(ListOf(s, l)) && pid !in ListOf(s, l);
    hide Chained;
    if l == RunningList {
      AppendDistinct(ListOf(s, l), pid);
    } else {
      assert ListOf(InstallPcb(s, pid, ppid), l) == ListOf(s, l);
    }
  }

  lemma InstallIs(s: Sys, pid: nat, ppid: int)
    requires Chained(s) && Front(s) && IdleRuns(s) && pid !in s.table
    ensures var s' := InstallPcb(s, pid, ppid);
            Chained(s') && Front(s') && IdleRuns(s') && s'.current == s.current
            && s'.table == s.table[pid := Pcb(pid, ppid, Running, 0, RunningList, InUser)]
            && ListOf(s', RunningList) == ListOf(s, RunningList) + [pid]
  {
    InstallChained(s, pid, ppid);
  }

  lemma ForkOk(s: Sys)
    requires Ok(s) && Enabled(s, Fork)
    ensures var s' := Next(s, Fork); s'.Some? && Ok(s'.value)
  {
    hide Chained, Front, IdleRuns, PcbOk, AllocPid, InstallPcb, ListOf, Distinct;
    var pid, ppid := AllocPid(s, 0).value, s.table[s.current].pid;
    var s' := InstallPcb(s, pid, ppid);
    InstallIs(s, pid, ppid);
    forall x | x in s'.table ensures PcbOk(s', x) {
      NewPcb(s, s', pid, ppid, x);
    }
  }

  lemma NewPcb(s: Sys, s': Sys, pid: nat, ppid: int, x: nat)
    requires pid !in s.table && pid < 128 && s'.table == s.table[pid := Pcb(pid, ppid, Running, 0, RunningList, InUser)]
    requires x in s'.table && (x != pid ==> PcbOk(s, x))
    ensures PcbOk(s', x)
  {
    SameZombies(s, s', x);
    hide HasZombie;
  }

  lemma UninstallMembers(s: Sys, z: nat, l: ListId)
    requires Chained(s) && z in s.table
    ensures var q := ListOf(UninstallPcb(s, z), l); Distinct(q) && forall x :: x in q <==> x in ListOf(s, l) && x != z
  {
    var s', from := UninstallPcb(s, z), s.table[z].list;
    WithoutIs(ListOf(s, from), z);
    hide Without;
    assert Distinct(ListOf(s, l));
    if l != from {
      assert ListOf(s', l) == ListOf(s, l) && z !in ListOf(s, l);
    }
  }

  lemma ChainedWithout(s: Sys, s': Sys, z: nat)
    requires Chained(s) && s'.table == s.table - {z}
    requires forall l :: Distinct(ListOf(s', l)) && forall x :: x in ListOf(s', l) <==> x in ListOf(s, l) && x != z
    ensures Chained(s')
  {
    hide Distinct, ListOf;
    forall p | p in s'.table ensures p in ListOf(s', s'.table[p].list) {
      assert p in ListOf(s, s.table[p].list);
    }
  }

  lemma UninstallChained(s: Sys, z: nat)
    requires Chained(s) && z in s.table
    ensures Chained(UninstallPcb(s, z))
  {
    var s' := UninstallPcb(s, z);
    hide Chained, Distinct, Without, ListOf;
    forall l ensures Distinct(ListOf(s', l)) && forall x :: x in ListOf(s', l) <==> x in ListOf(s, l) && x != z {
      UninstallMembers(s, z, l);
    }
    ChainedWithout(s, s', z);
  }

  /** Removing a zombie leaves the running list as it is. */
  lemma UninstallIs(s: Sys, z: nat)
    requires Chained(s) && Front(s) && IdleRuns(s) && z in s.table && s.table[z].list == ZombieList
    ensures var s' := UninstallPcb(s, z);
            Chained(s') && Front(s') && IdleRuns(s') && s'.current == s.current && s'.table == s.table - {z}
            && ListOf(s', RunningList) == ListOf(s, RunningList)
  {
    UninstallChained(s, z);
  }

  lemma ContextIs(s: Sys, p: nat, c: Context)
    requires Chained(s) && Front(s) && IdleRuns(s) && p in s.table && p != 0
    ensures var s' := SetContext(s, p, c);
            Chained(s') && Front(s') && IdleRuns(s') && s'.current == s.current && s'.lists == s.lists
            && s'.table == s.table[p := s.table[p].(context := c)]
  {
    ContextChained(s, p, c);
  }

  /** A process that is about to sleep in sys_wait is not alone on the running list. */
  lemma WaitSleeps(s: Sys)
    requires Ok(s) && Enabled(s, Wait) && FindZombie(s, s.table[s.current].pid, 0) == None
    ensures var s', id := SetContext(s, s.current, InWait), Sleepers(ChildExit(s.table[s.current].pid));
            && Chained(s') && Front(s') && s'.current in s'.table && |ListOf(s', RunningList)| > 1
            && Next(s, Wait) == YieldCpu(s', id, Waiting)
  {
    ContextIs(s, s.current, InWait);
    var s', id := SetContext(s, s.current, InWait), Sleepers(ChildExit(s.table[s.current].pid));
    YieldIs(s', id, Waiting);
    LeftToRun(s', id, Waiting);
  }

  lemma Reapable(s: Sys, z: nat)
    requires Ok(s) && s.current in s.table && FindZombie(s, s.table[s.current].pid, 0) == Some(z)
    ensures ZombieChild(s, z, s.current) && z != s.current && z in s.table && s.table[z].list == ZombieList
    ensures PcbOk(s, s.current) && s.table[s.current].state == Running
  {
    FrontInTable(s);
    hide Chained;
    assert PcbOk(s, s.current) && PcbOk(s, z);
  }

  lemma WaitReaps(s: Sys, z: nat)
    requires s.current in s.table && Enabled(s, Wait) && Chained(s)
    requires FindZombie(s, s.table[s.current].pid, 0) == Some(z) && z != s.current
    ensures Next(s, Wait) == Some(SetContext(UninstallPcb(s, z), s.current, InUser))
  {
    hide FindZombie, UninstallPcb, SetContext, Chained;
  }

  /** sys_wait with a zombie child. */
  lemma ReapOk(s: Sys, z: nat)
    requires Ok(s) && Enabled(s, Wait) && FindZombie(s, s.table[s.current].pid, 0) == Some(z)
    ensures z != s.current && Next(s, Wait) == Some(SetContext(UninstallPcb(s, z), s.current, InUser))
    ensures Ok(Next(s, Wait).value)
  {
    hide Chained, Front, IdleRuns, PcbOk, FindZombie, UninstallPcb, SetContext, Next, ListOf;
    Reapable(s, z);
    WaitReaps(s, z);
    UninstallIs(s, z);
    var u := UninstallPcb(s, z);
    ContextIs(u, s.current, InUser);
    var s' := SetContext(u, s.current, InUser);
    forall x | x in s'.table ensures PcbOk(s', x) {
      ReapedPcb(s, s', z, x);
    }
  }

  lemma ContextChained(s: Sys, p: nat, c: Context)
    requires Chained(s) && p in s.table
    ensures Chained(SetContext(s, p, c))
  {
    var s' := SetContext(s, p, c);
    hide Distinct;
    assert forall l :: ListOf(s', l) == ListOf(s, l);
  }

  lemma ReapedPcb(s: Sys, s': Sys, z: nat, x: nat)
    requires s.current in s.table && PcbOk(s, s.current) && s.table[s.current].state == Running && z != s.current
    requires ZombieChild(s, z, s.current)
    requires s'.table == (s.table - {z})[s.current := s.table[s.current].(context := InUser)]
    requires x in s'.table && PcbOk(s, x)
    ensures PcbOk(s', x)
  {
    if x != s.current {
      SameZombies(s, s', x);
      hide HasZombie;
    }
  }

  /** sys_wait without one. */
  lemma SleepOk(s: Sys)
    requires Ok(s) && Enabled(s, Wait) && FindZombie(s, s.table[s.current].pid, 0).None?
    ensures var s' := Next(s, Wait); s'.Some? && Ok(s'.value)
  {
    var me := s.table[s.current];
    var m := SetContext(s, s.current, InWait);
    assert Next(s, Wait) == YieldCpu(m, Sleepers(ChildExit(me.pid)), Waiting) by {
      hide Ok, FindZombie, YieldCpu, SetContext;
    }
    FrontInTable(s);
    NoZombies(s);
    hide Next, FindZombie, Chained, ListOf, Front, SetContext, YieldCpu;
    assert PcbOk(s, s.current);
    ContextIs(s, s.current, InWait);
    SameZombies(s, m, s.current);
    forall x | x in m.table && x != s.current ensures PcbOk(m, x) {
      SleptPcb(s, m, x);
    }
    YieldOk(m, Sleepers(ChildExit(me.pid)), Waiting);
  }

  lemma SleptPcb(s: Sys, m: Sys, x: nat)
    requires s.current in s.table && m.table == s.table[s.current := s.table[s.current].(context := InWait)]
    requires x in s.table && x != s.current && PcbOk(s, x)
    ensures PcbOk(m, x)
  {
    SameZombies(s, m, x);
    hide HasZombie, Matches;
  }

  lemma NoZombies(s: Sys)
    requires Ok(s) && s.current in s.table && FindZombie(s, s.table[s.current].pid, 0).None?
    ensures !HasZombie(s, s.current)
  {
    hide Chained;
    assert PcbOk(s, s.current);
    forall z ensures !ZombieChild(s, z, s.current) {
      if z in s.table { assert PcbOk(s, z); }
    }
  }

  lemma ExitSetIs(s: Sys, status: int)
    requires Chained(s) && Front(s) && IdleRuns(s) && s.current in s.table && s.current != 0
    ensures var s' := ExitSet(s, status);
            Chained(s') && Front(s') && IdleRuns(s') && s'.current == s.current && s'.lists == s.lists
            && s'.table == s.table[s.current := s.table[s.current].(exitCode := WExitStatus(status), context := InExit)]
  {
    var s' := ExitSet(s, status);
    hide Distinct;
    assert forall l :: ListOf(s', l) == ListOf(s, l);
  }

  lemma ExitingPcb(s: Sys, s': Sys, status: int, x: nat)
    requires s.current in s.table
    requires s'.table == s.table[s.current := s.table[s.current].(exitCode := WExitStatus(status), context := InExit)]
    requires x in s.table && PcbOk(s, x) && s.table[s.current].context.InUser?
    ensures PcbOk(s', x)
  {
    SameZombies(s, s', x);
    hide HasZombie;
  }

  lemma ExitStartOk(s: Sys, status: int)
    requires Ok(s) && Enabled(s, ExitStart(status))
    ensures var s' := Next(s, ExitStart(status)); s'.Some? && Ok(s'.value)
  {
    FrontInTable(s);
    ExitSetIs(s, status);
    var s' := ExitSet(s, status);
    hide Chained, Front, ListOf, PcbOk, ExitSet;
    forall x | x in s'.table ensures PcbOk(s', x) {
      ExitingPcb(s, s', status, x);
    }
  }

  lemma FindPcbIs(s: Sys, p: int, i: nat)
    requires i <= 128 && forall x :: x in s.table ==> PcbOk(s, x)
    ensures var r := FindPcb(s, p, i); r.Some? ==> r.value == p && r.value in s.table
    ensures i == 0 && p in s.table ==> FindPcb(s, p, i) == Some(p)
  {
    hide Matches, HasZombie;
    if p in s.table { assert PcbOk(s, p); }
  }

  /** After the parent has been woken, if it was asleep, and the process has
      become a zombie. */
  lemma ExitedPcb(s: Sys, s1: Sys, s': Sys, x: nat)
    requires s.current in s.table && PcbOk(s, s.current) && s.table[s.current].list == RunningList
    requires s.table[s.current].context.InExit?
    requires var parent := s.table[s.current].ppid;
             if parent in s.table && s.table[parent].list == Sleepers(ChildExit(parent))
             then s1.table == s.table[parent := s.table[parent].(list := RunningList, state := Running)]
             else s1.table == s.table
    requires s.table[s.current].ppid in s.table ==> PcbOk(s, s.table[s.current].ppid)
    requires s.current in s1.table
    requires s'.table == s1.table[s.current := s1.table[s.current].(list := ZombieList, state := Zombie)]
    requires x in s.table && PcbOk(s, x)
    ensures x in s'.table && PcbOk(s', x)
  {
    if x == s.current {
    } else if s.table[s.current].ppid == x {
      assert ZombieChild(s', s.current, x);
    } else {
      SameZombiesButOne(s, s', s.current, x);
    }
  }

  lemma SameZombiesButOne(s: Sys, s': Sys, p: nat, x: int)
    requires p in s.table && s.table[p].ppid != x && p in s'.table && s'.table[p].ppid != x
    requires forall z :: z != p ==> (ZombieChild(s, z, x) <==> ZombieChild(s', z, x))
    ensures HasZombie(s, x) <==> HasZombie(s', x)
  {
    SameZombies(s, s', x);
  }

  lemma ParentWoken(s: Sys)
    requires Ok(s) && s.current in s.table
    ensures var parent, s1 := s.table[s.current].ppid, WakeParent(s);
            Chained(s1) && Front(s1) && s1.current == s.current && s1.current in s1.table
            && if parent in s.table && s.table[parent].list == Sleepers(ChildExit(parent))
               then s1.table == s.table[parent := s.table[parent].(list := RunningList, state := Running)]
               else s1.table == s.table
  {
    var parent, found := s.table[s.current].ppid, FindPcb(s, s.table[s.current].ppid, 0);
    FindPcbIs(s, parent, 0);
    if found.Some? {
      SignalIs(s, ChildExit(found.value));
      var q := ListOf(s, Sleepers(ChildExit(found.value)));
      assert found.value in s.table && PcbOk(s, found.value);
      if q != [] {
        assert q[0] in q && PcbOk(s, q[0]);
      } else {
        assert found.value !in q;
      }
    }
  }

  /** The idle process neither exits nor sleeps. */
  lemma IdleStays(s: Sys)
    requires Ok(s) && Enabled(s, ExitEnd)
    ensures Chained(s) && s.current in s.table && s.current != 0 && IdleRuns(WakeParent(s))
  {
    ParentWoken(s);
    assert PcbOk(s, 0);
    hide WakeParent;
  }

  lemma ExitEndOk(s: Sys)
    requires Ok(s) && Enabled(s, ExitEnd)
    ensures var s' := Next(s, ExitEnd); s'.Some? && Ok(s'.value)
  {
    hide Chained, Front, IdleRuns, PcbOk, WakeParent, YieldCpu, ListOf, FindPcb;
    FrontInTable(s);
    ParentWoken(s);
    IdleStays(s);
    var s1 := WakeParent(s);
    YieldIs(s1, ZombieList, Zombie);
    var s' := YieldCpu(s1, ZombieList, Zombie).value;
    forall x | x in s'.table ensures PcbOk(s', x) {
      ExitedPcb(s, s1, s', x);
    }
  }

  /** Every stretch keeps all of it, and the assertion in yield_cpu never fails. */
  lemma StepOk(s: Sys, a: Action)
    requires Ok(s) && Enabled(s, a)
    ensures Next(s, a).Some? && Ok(Next(s, a).value)
  {
    hide Chained, Front, IdleRuns, PcbOk, YieldCpu, CondSignal, CondBroadcast, InstallPcb, AllocPid, SysWait,
        ExitSet, SysExitEnd, FindZombie;
    match a
    case Schedule => ScheduleOk(s);
    case Block(k) => BlockOk(s, k);
    case Signal(k) => SignalOk(s, k);
    case Broadcast(k) => BroadcastOk(s, k);
    case Fork => ForkOk(s);
    case Wait =>
      if FindZombie(s, s.table[s.current].pid, 0).Some? {
        ReapOk(s, FindZombie(s, s.table[s.current].pid, 0).value);
      } else {
        SleepOk(s);
      }
    case ExitStart(status) => ExitStartOk(s, status);
    case ExitEnd => ExitEndOk(s);
  }
}
