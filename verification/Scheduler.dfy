/** The same stretches as the kernel carries them out, on the pcb table and the
    lists. */
module Scheduler {
  import Lists
  import opened Options
  import P = Processes
  import R = ProcessRuns

  lemma ExitEndIs(s: P.Sys)
    requires P.Ok(s) && P.Enabled(s, P.ExitEnd)
    ensures P.Chained(s) && s.current in s.table && P.Next(s, P.ExitEnd).Some?
    ensures var w := P.WakeParent(s);
            w.current in w.table && P.YieldCpu(w, P.ZombieList, P.Zombie) == P.Next(s, P.ExitEnd)
  {
    P.StepOk(s, P.ExitEnd);
    hide P.Ok, P.Chained, P.WakeParent, P.YieldCpu;
  }

  class Kernel {
    var table: map<nat, P.Pcb>               // pcb_table
    var lists: map<P.ListId, seq<nat>>       // the lists, by slots
    var current: nat                         // this_pcb

    ghost function Value(): P.Sys
      reads this
    {
      P.Sys(table, lists, current)
    }

    /** launch_idle_process */
    constructor ()
      ensures Value() == R.Boot() && P.Ok(Value())
    {
      table := map[0 := P.Pcb(0, -1, P.Running, 0, P.RunningList, P.InUser)];
      lists := map[P.RunningList := [0]];
      current := 0;
      R.BootOk();
    }

    function List(id: P.ListId): (q: seq<nat>)
      reads this
      ensures q == P.ListOf(Value(), id)
    {
      if id in lists then lists[id] else []
    }

    /** chain_remove, list_push_back and the new state. */
    method Move(p: nat, id: P.ListId, state: P.PcbState)
      requires p in table
      modifies this
      ensures Value() == P.Move(old(Value()), p, id, state)
    {
      var from := table[p].list;
      lists := lists[from := Lists.Without(List(from), p)];
      lists := lists[id := List(id) + [p]];
      table := table[p := table[p].(list := id, state := state)];
    }

    /** yield_cpu, with its assertion as a requirement. */
    method YieldCpu(id: P.ListId, state: P.PcbState)
      requires P.Chained(Value()) && P.Front(Value()) && current in table
      requires id == P.RunningList || |List(P.RunningList)| > 1
      modifies this
      ensures P.Chained(Value()) && P.Front(Value())
      ensures table == old(table)[old(current) := old(table[current]).(list := id, state := state)]
      ensures List(P.RunningList) == old(List(P.RunningList))[1..] + if id == P.RunningList then [old(current)] else []
      ensures id != P.RunningList ==> List(id) == old(List(id)) + [old(current)]
      ensures forall l :: l != id && l != P.RunningList ==> List(l) == old(List(l))
      ensures P.YieldCpu(old(Value()), id, state) == Some(Value())
    {
      P.YieldLists(Value(), id, state);
      Move(current, id, state);
      current := List(P.RunningList)[0];
    }

    /** cond_signal: the first sleeper, if there is one, goes to the end of the
        running list. */
    method CondSignal(c: P.Condition)
      requires P.Chained(Value())
      modifies this
      ensures P.Chained(Value()) && current == old(current)
      ensures old(List(P.Sleepers(c))) == [] ==> Value() == old(Value())
      ensures old(List(P.Sleepers(c))) != [] ==>
                var p := old(List(P.Sleepers(c)))[0];
                && p in old(table)
                && table == old(table)[p := old(table)[p].(list := P.RunningList, state := P.Running)]
                && List(P.Sleepers(c)) == old(List(P.Sleepers(c)))[1..]
                && List(P.RunningList) == old(List(P.RunningList)) + [p]
                && forall l :: l != P.Sleepers(c) && l != P.RunningList ==> List(l) == old(List(l))
      ensures Value() == P.CondSignal(old(Value()), c)
    {
      var q := List(P.Sleepers(c));
      if q != [] {
        P.SignalLists(Value(), c);
        Move(q[0], P.RunningList, P.Running);
      }
    }

    method CondBroadcast(c: P.Condition)
      requires P.Chained(Value())
      modifies this
      ensures P.Chained(Value()) && current == old(current) && table.Keys == old(table).Keys
      ensures List(P.Sleepers(c)) == []
      ensures List(P.RunningList) == old(List(P.RunningList)) + old(List(P.Sleepers(c)))
      ensures forall l :: l != P.Sleepers(c) && l != P.RunningList ==> List(l) == old(List(l))
      ensures forall p :: p in old(table) ==>
                table[p] == if p in old(List(P.Sleepers(c)))
                            then old(table)[p].(list := P.RunningList, state := P.Running) else old(table)[p]
      ensures Value() == P.CondBroadcast(old(Value()), c)
    {
      R.BroadcastIs(Value(), c);
      while List(P.Sleepers(c)) != []
        invariant P.Chained(Value()) && P.CondBroadcast(Value(), c) == P.CondBroadcast(old(Value()), c)
        decreases |List(P.Sleepers(c))|
      {
        hide P.Chained, P.CondSignal;
        R.BroadcastUnfolds(Value(), c);
        CondSignal(c);
      }
      R.BroadcastUnfolds(Value(), c);
    }

    method AllocPid() returns (pid: Option<nat>)
      ensures pid == P.AllocPid(Value(), 0)
    {
      var i := 0;
      while i < 128
        invariant 0 <= i <= 128 && P.AllocPid(Value(), i) == P.AllocPid(Value(), 0)
      {
        if i !in table {
          return Some(i);
        }
        i := i + 1;
      }
      pid := None;
    }

    method FindPcb(pid: int) returns (p: Option<nat>)
      ensures p == P.FindPcb(Value(), pid, 0)
    {
      var i := 0;
      while i < 128
        invariant 0 <= i <= 128 && P.FindPcb(Value(), pid, i) == P.FindPcb(Value(), pid, 0)
      {
        if i in table && table[i].pid == pid {
          return Some(i);
        }
        i := i + 1;
      }
      p := None;
    }

    method FindZombie() returns (z: Option<nat>)
      requires current in table
      ensures z == P.FindZombie(Value(), table[current].pid, 0)
    {
      var ppid, i := table[current].pid, 0;
      while i < 128
        invariant 0 <= i <= 128 && P.FindZombie(Value(), ppid, i) == P.FindZombie(Value(), ppid, 0)
      {
        if i in table && table[i].ppid == ppid && table[i].state == P.Zombie {
          return Some(i);
        }
        i := i + 1;
      }
      z := None;
    }

    /** sys_nice, and what the clock does. */
    method Schedule()
      requires P.Ok(Value()) && P.Enabled(Value(), P.Schedule)
      modifies this
      ensures P.Ok(Value()) && P.Next(old(Value()), P.Schedule) == Some(Value())
    {
      P.StepOk(Value(), P.Schedule);
      P.LeftToRun(Value(), P.RunningList, P.Running);
      YieldCpu(P.RunningList, P.Running);
    }

    /** cond_wait for a device or a pipe. */
    method CondWait(k: nat)
      requires P.Ok(Value()) && P.Enabled(Value(), P.Block(k))
      modifies this
      ensures P.Ok(Value()) && P.Next(old(Value()), P.Block(k)) == Some(Value())
    {
      P.StepOk(Value(), P.Block(k));
      P.LeftToRun(Value(), P.Sleepers(P.Device(k)), P.Waiting);
      YieldCpu(P.Sleepers(P.Device(k)), P.Waiting);
    }

    /** sys_fork, as far as the table and the lists go. */
    method SysFork() returns (pid: nat)
      requires P.Ok(Value()) && P.Enabled(Value(), P.Fork)
      modifies this
      ensures P.Ok(Value()) && P.Next(old(Value()), P.Fork) == Some(Value())
      ensures pid !in old(table) && pid < 128 && (forall j :: 0 <= j < pid ==> j in old(table))
      ensures current == old(current) && current in old(table)
      ensures table == old(table)[pid := P.Pcb(pid, old(table)[current].pid, P.Running, 0, P.RunningList, P.InUser)]
      ensures List(P.RunningList) == old(List(P.RunningList)) + [pid]
      ensures forall l :: l != P.RunningList ==> List(l) == old(List(l))
    {
      P.StepOk(Value(), P.Fork);
      var slot := AllocPid();
      pid := slot.value;
      table := table[pid := P.Pcb(pid, table[current].pid, P.Running, 0, P.RunningList, P.InUser)];
      lists := lists[P.RunningList := List(P.RunningList) + [pid]];
      assert current in old(table);
    }

    /** The loop of sys_wait up to its end, with the status, or to its next
        cond_wait. */
    method SysWait() returns (status: Option<int>)
      requires P.Ok(Value()) && P.Enabled(Value(), P.Wait)
      modifies this
      ensures P.Ok(Value()) && P.Next(old(Value()), P.Wait) == Some(Value())
      ensures status == (match P.FindZombie(old(Value()), old(table[current].pid), 0)
                         case Some(z) => Some(old(table)[z].exitCode)
                         case None => None)
    {
      hide P.Ok, P.Chained, P.FindZombie;
      P.StepOk(Value(), P.Wait);
      var zombie := FindZombie();
      if zombie.Some? {
        var z := zombie.value;
        P.ReapOk(Value(), z);
        status := Some(table[z].exitCode);
        var from := table[z].list;
        lists := lists[from := Lists.Without(List(from), z)];
        table := table - {z};
        table := table[current := table[current].(context := P.InUser)];
      } else {
        status := None;
        P.WaitSleeps(Value());
        table := table[current := table[current].(context := P.InWait)];
        YieldCpu(P.Sleepers(P.ChildExit(table[current].pid)), P.Waiting);
      }
    }

    /** sys_exit up to where it closes files. */
    method SysExitStart(status: int)
      requires P.Ok(Value()) && P.Enabled(Value(), P.ExitStart(status))
      modifies this
      ensures P.Ok(Value()) && P.Next(old(Value()), P.ExitStart(status)) == Some(Value())
      ensures current == old(current) && current in table
      ensures forall high, code, low :: P.StatusBytes(status, high, code, low) ==> table[current].exitCode == code
    {
      P.StepOk(Value(), P.ExitStart(status));
      forall high, code, low | P.StatusBytes(status, high, code, low)
        ensures P.Next(Value(), P.ExitStart(status)).value.table[current].exitCode == code
      {
        P.ExitCodeIs(Value(), status, high, code, low);
      }
      table := table[current := table[current].(exitCode := P.WExitStatus(status), context := P.InExit)];
    }

    /** The rest of sys_exit. */
    method SysExitEnd()
      requires P.Ok(Value()) && P.Enabled(Value(), P.ExitEnd)
      modifies this
      ensures P.Ok(Value()) && P.Next(old(Value()), P.ExitEnd) == Some(Value())
    {
      ghost var s := Value();
      P.StepOk(s, P.ExitEnd);
      ExitEndIs(s);
      hide *;
      var parent := FindPcb(table[current].ppid);
      if parent.Some? {
        CondSignal(P.ChildExit(parent.value));
      }
      assert Value() == P.WakeParent(s);
      YieldCpu(P.ZombieList, P.Zombie);
    }
  }
}
