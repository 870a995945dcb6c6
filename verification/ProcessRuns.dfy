/** Whole runs of the kernel: how long a process waits for the processor, and
    what becomes of those that exit. */
module ProcessRuns {
  import opened Lists
  import opened Options
  import opened Processes

  // ----- turns -----

  /** The stretch ends with the processor given up. */
  predicate Yields(s: Sys, a: Action) {
    a.Schedule? || a.Block? || a.ExitEnd? ||
    (a.Wait? && s.current in s.table && FindZombie(s, s.table[s.current].pid, 0).None?)
  }

  function RunningOf(s: Sys): seq<nat> { ListOf(s, RunningList) }

  /** Everybody on the running list keeps his place, or moves up by one when the
      processor is given up; new and woken processes come after them. */
  lemma StepTurns(s: Sys, a: Action)
    requires Ok(s) && Enabled(s, a)
    ensures Next(s, a).Some? && RunningOf(s) != []
    ensures (if Yields(s, a) then RunningOf(s)[1..] else RunningOf(s)) <= RunningOf(Next(s, a).value)
  {
    hide Chained, IdleRuns, PcbOk, YieldCpu, CondSignal, CondBroadcast, InstallPcb, UninstallPcb, SetContext,
        ExitSet, AllocPid, FindZombie, WakeParent;
    StepOk(s, a);
    FrontInTable(s);
    match a
    case Schedule => YieldTurns(s, RunningList, Running);
    case Block(k) => YieldTurns(s, Sleepers(Device(k)), Waiting);
    case Signal(k) => SignalIs(s, Device(k));
    case Broadcast(k) => BroadcastTurns(s, k);
    case Fork => InstallIs(s, AllocPid(s, 0).value, s.table[s.current].pid);
      assert AllocPid(s, 0).Some?;
    case Wait =>
      if FindZombie(s, s.table[s.current].pid, 0).Some? {
        var z := FindZombie(s, s.table[s.current].pid, 0).value;
        Reapable(s, z);
        WaitReaps(s, z);
        UninstallIs(s, z);
        ContextIs(UninstallPcb(s, z), s.current, InUser);
      } else {
        ContextIs(s, s.current, InWait);
        YieldTurns(SetContext(s, s.current, InWait), Sleepers(ChildExit(s.table[s.current].pid)), Waiting);
      }
    case ExitStart(status) => ExitSetIs(s, status);
    case ExitEnd =>
      ParentWoken(s);
      ParentTurns(s);
      YieldTurns(WakeParent(s), ZombieList, Zombie);
  }

  lemma YieldTurns(s: Sys, id: ListId, state: PcbState)
    requires Chained(s) && Front(s) && s.current in s.table && YieldCpu(s, id, state).Some?
    ensures RunningOf(s) != [] && RunningOf(s)[1..] <= RunningOf(YieldCpu(s, id, state).value)
  {
    FrontInTable(s);
    MoveLists(s, s.current, id, state);
    hide Move;
    assert Without(RunningOf(s), s.current) == RunningOf(s)[1..];
  }

  lemma {:induction false} BroadcastTurns(s: Sys, k: nat)
    requires Ok(s)
    ensures RunningOf(s) <= RunningOf(CondBroadcast(s, Device(k)))
    decreases |ListOf(s, Sleepers(Device(k)))|
  {
    hide Chained, Front, IdleRuns, PcbOk, CondSignal, CondBroadcast;
    BroadcastUnfolds(s, Device(k));
    if ListOf(s, Sleepers(Device(k))) != [] {
      SignalOk(s, k);
      SignalIs(s, Device(k));
      BroadcastTurns(CondSignal(s, Device(k)), k);
    }
  }

  lemma ParentTurns(s: Sys)
    requires Ok(s) && s.current in s.table
    ensures RunningOf(s) <= RunningOf(WakeParent(s))
  {
    var found := FindPcb(s, s.table[s.current].ppid, 0);
    if found.Some? {
      SignalIs(s, ChildExit(found.value));
    }
  }

  /** As the machine starts: the idle process alone. */
  function Boot(): Sys {
    Sys(map[0 := Pcb(0, -1, Running, 0, RunningList, InUser)], map[RunningList := [0]], 0)
  }

  ghost predicate Run(states: seq<Sys>, actions: seq<Action>) {
    && |states| == |actions| + 1 && states[0] == Boot()
    && forall i :: 0 <= i < |actions| ==>
         Chained(states[i]) && Enabled(states[i], actions[i]) && Next(states[i], actions[i]) == Some(states[i + 1])
  }

  lemma BootOk()
    ensures Ok(Boot())
  {
    assert ListOf(Boot(), RunningList) == [0];
  }

  /** In every run, at every point: each pcb is on exactly one list, the one its
      state says; the running process heads the running list; whoever sleeps in
      sys_wait has no zombie child, and whoever was woken there has one. */
  lemma {:induction false} RunOk(states: seq<Sys>, actions: seq<Action>, m: nat)
    requires Run(states, actions) && m < |states|
    ensures Ok(states[m])
    decreases m
  {
    if m == 0 {
      BootOk();
    } else {
      RunOk(states, actions, m - 1);
      StepOk(states[m - 1], actions[m - 1]);
      assert Next(states[m - 1], actions[m - 1]) == Some(states[m - 1 + 1]);
    }
  }

  /** How often the processor is given up between points m and n. */
  function YieldsBetween(states: seq<Sys>, actions: seq<Action>, m: nat, n: nat): (r: nat)
    requires m <= n <= |actions| <= |states|
    ensures r <= n - m
    decreases n
  {
    if n == m then 0 else
    YieldsBetween(states, actions, m, n - 1) + if Yields(states[n - 1], actions[n - 1]) then 1 else 0
  }

  /** Round robin: who is at position i of the running list has moved up by the
      number of yields, whatever was forked or woken meanwhile, and runs when
      there have been i of them, not before. */
  lemma {:induction false} RoundRobin(states: seq<Sys>, actions: seq<Action>, m: nat, n: nat, i: nat)
    requires Run(states, actions) && m <= n <= |actions| <= |states|
    requires i < |RunningOf(states[m])| && YieldsBetween(states, actions, m, n) <= i
    ensures var y := YieldsBetween(states, actions, m, n);
            && i - y < |RunningOf(states[n])| && RunningOf(states[n])[i - y] == RunningOf(states[m])[i]
            && (states[n].current == RunningOf(states[m])[i] <==> y == i)
    decreases n
  {
    hide *;
    YieldsSteps(states, actions, m, n);
    if m == n {
      StateOfRun(states, actions, n);
    } else {
      var y := YieldsBetween(states, actions, m, n - 1);
      RoundRobin(states, actions, m, n - 1, i);
      StepOfRun(states, actions, n - 1);
      StepTurns(states[n - 1], actions[n - 1]);
      StateOfRun(states, actions, n - 1);
      Advance(RunningOf(states[n - 1]), RunningOf(states[n]), Yields(states[n - 1], actions[n - 1]), i - y);
    }
    StateOfRun(states, actions, n);
    OnlyHead(states[n], i - YieldsBetween(states, actions, m, n));
  }

  lemma YieldsSteps(states: seq<Sys>, actions: seq<Action>, m: nat, n: nat)
    requires m <= n <= |actions| <= |states|
    ensures m == n ==> YieldsBetween(states, actions, m, n) == 0
    ensures m < n ==> YieldsBetween(states, actions, m, n) ==
                      YieldsBetween(states, actions, m, n - 1) + if Yields(states[n - 1], actions[n - 1]) then 1 else 0
  {
    hide Yields;
  }

  lemma StateOfRun(states: seq<Sys>, actions: seq<Action>, m: nat)
    requires Run(states, actions) && m <= |actions|
    ensures |states| == |actions| + 1 && Ok(states[m])
  {
    RunOk(states, actions, m);
  }

  lemma StepOfRun(states: seq<Sys>, actions: seq<Action>, m: nat)
    requires Run(states, actions) && m < |actions|
    ensures |states| == |actions| + 1 && Ok(states[m]) && Chained(states[m]) && Enabled(states[m], actions[m])
    ensures Next(states[m], actions[m]) == Some(states[m + 1])
  {
    RunOk(states, actions, m);
  }

  lemma Advance(q: seq<nat>, r: seq<nat>, gaveUp: bool, k: nat)
    requires k < |q| && (if gaveUp then q[1..] else q) <= r && (gaveUp ==> k > 0)
    ensures var j := if gaveUp then k - 1 else k; j < |r| && r[j] == q[k]
  {
  }

  lemma OnlyHead(s: Sys, k: nat)
    requires Ok(s) && k < |RunningOf(s)|
    ensures s.current == RunningOf(s)[k] <==> k == 0
  {
    assert Distinct(RunningOf(s));
  }

  // ----- who is who -----

  predicate SamePerson(a: Pcb, b: Pcb) {
    b.pid == a.pid && b.ppid == a.ppid && b.exitCode == a.exitCode && b.context == a.context
  }

  /** The zombie that a stretch reaps, and the slot it fills. */
  function Reaped(s: Sys, a: Action): Option<nat>
    requires s.current in s.table
  {
    if a.Wait? then FindZombie(s, s.table[s.current].pid, 0) else None
  }

  function Born(s: Sys, a: Action): Option<nat> {
    if a.Fork? then AllocPid(s, 0) else None
  }

  /** What the running process is after the stretch, its list and state apart. */
  function Me(s: Sys, a: Action): Pcb
    requires s.current in s.table
  {
    var me := s.table[s.current];
    match a
    case ExitStart(status) => me.(exitCode := WExitStatus(status), context := InExit)
    case Wait => me.(context := if Reaped(s, a).Some? then InUser else InWait)
    case _ => me
  }

  /** The same processes, as far as one is not reaped or forked, and only the
      running one has changed in anything but its list. */
  ghost predicate SameButFor(s: Sys, s': Sys, gone: Option<nat>, born: Option<nat>, me: Pcb)
    requires s.current in s.table
  {
    && (forall p :: p in s'.table <==> (p in s.table && Some(p) != gone) || Some(p) == born)
    && (forall p :: p in s.table && p in s'.table && p != s.current ==> SamePerson(s.table[p], s'.table[p]))
    && s.current in s'.table && SamePerson(me, s'.table[s.current])
    && (born.Some? ==>
          && born.value in s'.table && s'.table[born.value].ppid == s.table[s.current].pid
          && s'.table[born.value].context.InUser?)
  }

  lemma StepPeople(s: Sys, a: Action)
    requires Ok(s) && Enabled(s, a)
    ensures Next(s, a).Some? && SameButFor(s, Next(s, a).value, Reaped(s, a), Born(s, a), Me(s, a))
  {
    hide Chained, IdleRuns, PcbOk, YieldCpu, CondSignal, CondBroadcast, InstallPcb, UninstallPcb, SetContext,
        ExitSet, AllocPid, FindZombie, WakeParent, Front, ListOf;
    StepOk(s, a);
    FrontInTable(s);
    match a
    case Schedule => YieldIs(s, RunningList, Running);
    case Block(k) => YieldIs(s, Sleepers(Device(k)), Waiting);
    case Signal(k) => SignalIs(s, Device(k));
    case Broadcast(k) => BroadcastPeople(s, k);
    case Fork =>
      assert AllocPid(s, 0).Some?;
      InstallIs(s, AllocPid(s, 0).value, s.table[s.current].pid);
    case Wait =>
      var z := FindZombie(s, s.table[s.current].pid, 0);
      if z.Some? {
        Reapable(s, z.value);
        WaitReaps(s, z.value);
        UninstallIs(s, z.value);
        ContextIs(UninstallPcb(s, z.value), s.current, InUser);
      } else {
        ContextIs(s, s.current, InWait);
        YieldIs(SetContext(s, s.current, InWait), Sleepers(ChildExit(s.table[s.current].pid)), Waiting);
      }
     
    case ExitStart(status) => ExitSetIs(s, status);
    case ExitEnd => ExitPeople(s);
  }

  /** Nothing but lists and states has changed. */
  ghost predicate OnlyLists(s: Sys, s': Sys) {
    && s'.current == s.current
    && (forall p :: p in s.table <==> p in s'.table)
    && (forall p :: p in s.table && p in s'.table ==> SamePerson(s.table[p], s'.table[p]))
  }

  lemma SignalPeople(s: Sys, k: nat)
    requires Ok(s)
    ensures OnlyLists(s, CondSignal(s, Device(k)))
  {
    hide Chained, Front, IdleRuns, PcbOk, CondSignal, ListOf;
    SignalIs(s, Device(k));
  }

  lemma {:induction false} BroadcastPeople(s: Sys, k: nat)
    requires Ok(s)
    ensures OnlyLists(s, CondBroadcast(s, Device(k)))
    decreases |ListOf(s, Sleepers(Device(k)))|
  {
    hide Chained, Front, IdleRuns, PcbOk, CondSignal, CondBroadcast, ListOf;
    BroadcastUnfolds(s, Device(k));
    if ListOf(s, Sleepers(Device(k))) != [] {
      var s1 := CondSignal(s, Device(k));
      SignalOk(s, k);
      SignalPeople(s, k);
      BroadcastPeople(s1, k);
    }
  }

  lemma BroadcastUnfolds(s: Sys, c: Condition)
    requires Chained(s)
    ensures CondBroadcast(s, c) == if ListOf(s, Sleepers(c)) == [] then s else CondBroadcast(CondSignal(s, c), c)
  {
    hide Chained, ListOf, CondSignal;
  }

  /** All sleepers have gone to the end of the running list, in their order, and nothing
      else has changed. */
  ghost predicate AllWoken(s: Sys, s': Sys, c: Condition) {
    && s'.current == s.current && s'.table.Keys == s.table.Keys && ListOf(s', Sleepers(c)) == []
    && ListOf(s', RunningList) == ListOf(s, RunningList) + ListOf(s, Sleepers(c))
    && (forall l :: l != Sleepers(c) && l != RunningList ==> ListOf(s', l) == ListOf(s, l))
    && forall p :: p in s.table && p in s'.table ==>
         s'.table[p] == if p in ListOf(s, Sleepers(c)) then s.table[p].(list := RunningList, state := Running)
                        else s.table[p]
  }

  lemma {:induction false} BroadcastIs(s: Sys, c: Condition)
    requires Chained(s)
    ensures Chained(CondBroadcast(s, c)) && AllWoken(s, CondBroadcast(s, c), c)
    decreases |ListOf(s, Sleepers(c))|
  {
    BroadcastUnfolds(s, c);
    if ListOf(s, Sleepers(c)) != [] {
      SignalLists(s, c);
      ChainedDistinct(s, Sleepers(c));
      hide Chained, ListOf, CondSignal, CondBroadcast, AllWoken;
      BroadcastIs(CondSignal(s, c), c);
      OneMoreWoken(s, CondSignal(s, c), CondBroadcast(s, c), c);
    }
  }

  lemma OneMoreWoken(s: Sys, m: Sys, s': Sys, c: Condition)
    requires AllWoken(m, s', c) && ListOf(s, Sleepers(c)) != []
    requires var q := ListOf(s, Sleepers(c));
             && q[0] in s.table && q[0] !in q[1..] && m.current == s.current
             && m.table == s.table[q[0] := s.table[q[0]].(list := RunningList, state := Running)]
             && ListOf(m, Sleepers(c)) == q[1..] && ListOf(m, RunningList) == ListOf(s, RunningList) + [q[0]]
    requires forall l :: l != Sleepers(c) && l != RunningList ==> ListOf(m, l) == ListOf(s, l)
    ensures AllWoken(s, s', c)
  {
    hide ListOf;
    var q := ListOf(s, Sleepers(c));
    assert q == [q[0]] + q[1..];
    assert m.table.Keys == s.table.Keys;
    assert (ListOf(s, RunningList) + [q[0]]) + q[1..] == ListOf(s, RunningList) + q;
  }

  lemma ChainedDistinct(s: Sys, l: ListId)
    requires Chained(s) && ListOf(s, l) != []
    ensures ListOf(s, l)[0] !in ListOf(s, l)[1..]
  {
    assert Distinct(ListOf(s, l));
  }

  lemma ExitPeople(s: Sys)
    requires Ok(s) && Enabled(s, ExitEnd)
    ensures Next(s, ExitEnd).Some? && SameButFor(s, Next(s, ExitEnd).value, None, None, s.table[s.current])
  {
    hide Chained, Front, IdleRuns, PcbOk, YieldCpu, WakeParent, ListOf;
    FrontInTable(s);
    ParentWoken(s);
    IdleStays(s);
    YieldIs(WakeParent(s), ZombieList, Zombie);
  }

  // ----- waiting for a child -----

  lemma YieldsGrow(states: seq<Sys>, actions: seq<Action>, m: nat, n: nat)
    requires m < n <= |actions| <= |states|
    ensures YieldsBetween(states, actions, m, n - 1) <= YieldsBetween(states, actions, m, n)
  {
    hide Yields;
  }

  /** p goes on being in sys_wait while it does not run. */
  lemma {:induction false} StillWaiting(states: seq<Sys>, actions: seq<Action>, m: nat, n: nat, i: nat, p: nat)
    requires Run(states, actions) && m <= n <= |actions| <= |states|
    requires i < |RunningOf(states[m])| && RunningOf(states[m])[i] == p
    requires n > m ==> YieldsBetween(states, actions, m, n - 1) < i
    requires p in states[m].table && states[m].table[p].context.InWait?
    ensures p in states[n].table && states[n].table[p].context.InWait?
    decreases n
  {
    hide *;
    if m < n {
      if m < n - 1 { YieldsGrow(states, actions, m, n - 1); }
      StillWaiting(states, actions, m, n - 1, i, p);
      RoundRobin(states, actions, m, n - 1, i);
      StepOfRun(states, actions, n - 1);
      StaysInWait(states[n - 1], actions[n - 1], p);
    }
  }

  lemma StaysInWait(s: Sys, a: Action, p: nat)
    requires Ok(s) && Enabled(s, a) && p in s.table && s.table[p].context.InWait? && p != s.current
    ensures Next(s, a).Some? && p in Next(s, a).value.table && Next(s, a).value.table[p].context.InWait?
  {
    StepPeople(s, a);
    NotReaped(s, a, p);
    hide Next, Ok, Enabled, Reaped, Born, Me;
  }

  /** Only zombies are reaped. */
  lemma NotReaped(s: Sys, a: Action, p: nat)
    requires Ok(s) && s.current in s.table && p in s.table && !s.table[p].context.InExit?
    ensures Reaped(s, a) != Some(p)
  {
    hide Chained, Front, HasZombie;
    assert PcbOk(s, p);
  }

  /** A waiting process with a zombie child is at some position i of the running
      list. When there have been i yields, it runs and finds a zombie to reap. */
  lemma PromptReap(states: seq<Sys>, actions: seq<Action>, m: nat, n: nat, p: nat)
    requires Run(states, actions) && m <= n <= |actions| <= |states|
    requires p in states[m].table && states[m].table[p].context.InWait? && HasZombie(states[m], p)
    requires RunningOf(states[m]) != [] && YieldsBetween(states, actions, m, n) < |RunningOf(states[m])|
    requires RunningOf(states[m])[YieldsBetween(states, actions, m, n)] == p
    requires n > m ==> YieldsBetween(states, actions, m, n - 1) < YieldsBetween(states, actions, m, n)
    ensures states[n].current == p && p in states[n].table && states[n].table[p].context.InWait?
    ensures FindZombie(states[n], states[n].table[p].pid, 0).Some?
  {
    hide *;
    var i := YieldsBetween(states, actions, m, n);
    StillWaiting(states, actions, m, n, i, p);
    RoundRobin(states, actions, m, n, i);
    StateOfRun(states, actions, n);
    AwakeFinds(states[n]);
  }

  /** Such a process is on the running list. */
  lemma WaiterIsAwake(s: Sys, p: nat)
    requires Ok(s) && p in s.table && s.table[p].context.InWait?
    ensures HasZombie(s, p) <==> p in RunningOf(s)
    ensures !HasZombie(s, p) <==> p in ListOf(s, Sleepers(ChildExit(p)))
  {
    assert PcbOk(s, p);
    hide HasZombie;
  }

  lemma AwakeFinds(s: Sys)
    requires Ok(s) && s.current in s.table && s.table[s.current].context.InWait?
    ensures FindZombie(s, s.table[s.current].pid, 0).Some?
  {
    hide Chained, Matches;
    FrontInTable(s);
    assert PcbOk(s, s.current);
    var z :| ZombieChild(s, z, s.current);
    assert PcbOk(s, z);
  }
}
