/** A run in which a process is told of the exit of another's child. Process 2
    exits while its child 3 lives, is waited for, and its slot is given to a new
    process; when 3 exits, its ppid is the slot of the new process. */
module ProcessStranger {
  import opened Lists
  import opened Options
  import opened Processes
  import opened ProcessRuns
  import opened ProcessHistory

  function Person(p: nat, ppid: int): Pcb { Pcb(p, ppid, Running, 0, RunningList, InUser) }

  function People(table: map<nat, Pcb>, running: seq<nat>): Sys
    requires running != []
  {
    Sys(table, map[RunningList := running], running[0])
  }

  function WithZombies(table: map<nat, Pcb>, running: seq<nat>, zombies: seq<nat>): Sys
    requires running != []
  {
    Sys(table, map[RunningList := running, ZombieList := zombies], running[0])
  }

  function Two(): map<nat, Pcb> { map[0 := Person(0, -1), 1 := Person(1, 0)] }

  function Three(): map<nat, Pcb> { Two()[2 := Person(2, 1)] }

  function Four(): map<nat, Pcb> { Three()[3 := Person(3, 2)] }

  function Dying(p: nat, ppid: int, code: int): Pcb { Pcb(p, ppid, Running, code, RunningList, InExit) }

  function Dead(p: nat, ppid: int, code: int): Pcb { Pcb(p, ppid, Zombie, code, ZombieList, InExit) }

  function Orphaned(): map<nat, Pcb> { Two()[3 := Person(3, 2)] }

  function State(k: nat): Sys {
    if k == 0 then Boot()
    else if k == 1 then People(Two(), [0, 1])
    else if k == 2 then People(Two(), [1, 0])
    else if k == 3 then People(Three(), [1, 0, 2])
    else if k == 4 then People(Three(), [0, 2, 1])
    else if k == 5 then People(Three(), [2, 1, 0])
    else if k == 6 then People(Four(), [2, 1, 0, 3])
    else if k == 7 then People(Four()[2 := Dying(2, 1, 0)], [2, 1, 0, 3])
    else if k == 8 then WithZombies(Four()[2 := Dead(2, 1, 0)], [1, 0, 3], [2])
    else if k == 9 then WithZombies(Orphaned(), [1, 0, 3], [])
    else if k == 10 then WithZombies(Four(), [1, 0, 3, 2], [])
    else if k == 11 then WithZombies(Four(), [0, 3, 2, 1], [])
    else if k == 12 then WithZombies(Four(), [3, 2, 1, 0], [])
    else if k == 13 then WithZombies(Four()[3 := Dying(3, 2, 7)], [3, 2, 1, 0], [])
    else if k == 14 then WithZombies(Four()[3 := Dead(3, 2, 7)], [2, 1, 0], [3])
    else WithZombies(Three(), [2, 1, 0], [])
  }

  function Deeds(): seq<Action> {
    [Fork, Schedule, Fork, Schedule, Schedule, Fork, ExitStart(0), ExitEnd, Wait, Fork, Schedule, Schedule,
     ExitStart(0x700), ExitEnd, Wait]
  }

  predicate RunningOnly(s: Sys, s': Sys, running: seq<nat>) {
    && RunningList in s'.lists && s'.lists[RunningList] == running
    && s'.lists == s.lists[RunningList := s'.lists[RunningList]]
  }

  lemma Schedules(s: Sys, s': Sys)
    requires Chained(s) && Front(s) && s.current in s.table && s.table[s.current].context == InUser
    requires s.table[s.current].list == RunningList && s.table[s.current].state == Running
    requires RunningList in s.lists && |s.lists[RunningList]| > 1
    requires var q := s.lists[RunningList];
             s'.table == s.table && RunningOnly(s, s', q[1..] + [q[0]]) && s'.current == q[1]
    ensures Next(s, Schedule) == Some(s')
  {
    hide Chained;
    var q, m := s.lists[RunningList], Move(s, s.current, RunningList, Running);
    assert Without(q, s.current) == q[1..];
    assert m.table == s.table && m.lists == s'.lists;
  }

  lemma Slot(s: Sys, c: nat)
    requires c < 128 && c !in s.table && forall j :: 0 <= j < c ==> j in s.table
    ensures AllocPid(s, 0) == Some(c)
  {
    var r := AllocPid(s, 0);
    assert c !in s.table && r.Some?;
    assert r.value == c;
  }

  lemma OnlyZombie(s: Sys, z: nat, p: nat)
    requires ZombieChild(s, z, p) && z < 128 && forall x :: x in s.table && x != z ==> s.table[x].state != Zombie
    ensures FindZombie(s, p, 0) == Some(z)
  {
    var r := FindZombie(s, p, 0);
    assert ZombieChild(s, z, p) && r.Some?;
    assert r.value == z;
  }

  lemma Forks(s: Sys, s': Sys, c: nat)
    requires Chained(s) && s.current in s.table && s.table[s.current].context == InUser
    requires s.table[s.current].pid == s.current
    requires c < 128 && c !in s.table && forall j :: 0 <= j < c ==> j in s.table
    requires RunningList in s.lists
    requires s'.table == s.table[c := Person(c, s.current)] && RunningOnly(s, s', s.lists[RunningList] + [c])
    requires s'.current == s.current
    ensures Enabled(s, Fork) && AllocPid(s, 0) == Some(c) && Next(s, Fork) == Some(s')
  {
    hide Chained, AllocPid;
    Slot(s, c);
  }

  lemma Ends(s: Sys, s': Sys)
    requires Chained(s) && s.current in s.table && s.table[s.current].context == InExit
    requires s.table[s.current].list == RunningList
    requires s.table[s.current].ppid >= 0 && s.table[s.current].ppid in s.table
    requires s.table[s.table[s.current].ppid].pid == s.table[s.current].ppid
    requires Sleepers(ChildExit(s.table[s.current].ppid)) !in s.lists && RunningList in s.lists
    requires forall p :: p in s.table ==> s.table[p].pid == p < 128
    requires var q := s.lists[RunningList];
             && |q| > 1 && q[0] == s.current
             && s'.table == s.table[s.current := s.table[s.current].(list := ZombieList, state := Zombie)]
             && RunningList in s'.lists && s'.lists[RunningList] == q[1..] && ZombieList in s'.lists &&
                  s'.lists[ZombieList] == ListOf(s, ZombieList) + [s.current]
             && s'.lists == s.lists[RunningList := s'.lists[RunningList]][ZombieList := s'.lists[ZombieList]]
             && s'.current == q[1]
    ensures Enabled(s, ExitEnd) && Next(s, ExitEnd) == Some(s')
  {
    hide Chained;
    var q, parent := s.lists[RunningList], FindPcb(s, s.table[s.current].ppid, 0);
    assert Without(q, s.current) == q[1..];
    assert s.table[s.table[s.current].ppid].pid == s.table[s.current].ppid && parent.Some?;
    assert CondSignal(s, ChildExit(parent.value)) == s;
  }

  lemma Waits(s: Sys, s': Sys, z: nat)
    requires Chained(s) && s.current in s.table && s.table[s.current].context == InUser && s.current != 0
    requires ZombieChild(s, z, s.table[s.current].pid) && z != s.current && z < 128 && s.table[z].list == ZombieList
    requires forall x :: x in s.table && x != z ==> s.table[x].state != Zombie
    requires ZombieList in s.lists && s.lists[ZombieList] == [z]
    requires s'.table == s.table - {z} && s'.lists == s.lists[ZombieList := []] && s'.current == s.current
    ensures Enabled(s, Wait) && FindZombie(s, s.table[s.current].pid, 0) == Some(z) && Next(s, Wait) == Some(s')
  {
    hide Chained, FindZombie;
    OnlyZombie(s, z, s.table[s.current].pid);
    assert (s.table - {z})[s.current := s.table[s.current]] == s.table - {z};
  }

  lemma ForkSteps(k: nat, c: nat)
    requires (k == 0 && c == 1) || (k == 2 && c == 2) || (k == 5 && c == 3) || (k == 9 && c == 2)
    requires Chained(State(k)) && Front(State(k))
    ensures Enabled(State(k), Deeds()[k]) && Next(State(k), Deeds()[k]) == Some(State(k + 1))
  {
    hide Chained, Front, AllocPid, Next;
    Forks(State(k), State(k + 1), c);
  }

  lemma EarlySchedules(k: nat)
    requires k == 1 || k == 3 || k == 4
    requires Chained(State(k)) && Front(State(k))
    ensures Enabled(State(k), Deeds()[k]) && Next(State(k), Deeds()[k]) == Some(State(k + 1))
  {
    hide Chained, Front, Next;
    Schedules(State(k), State(k + 1));
  }

  lemma LateSchedules(k: nat)
    requires k == 10 || k == 11
    requires Chained(State(k)) && Front(State(k))
    ensures Enabled(State(k), Deeds()[k]) && Next(State(k), Deeds()[k]) == Some(State(k + 1))
  {
    hide Chained, Front, Next;
    Schedules(State(k), State(k + 1));
  }

  lemma ExitSteps(k: nat)
    requires k == 6 || k == 12
    requires Chained(State(k)) && Front(State(k))
    ensures Enabled(State(k), Deeds()[k]) && Next(State(k), Deeds()[k]) == Some(State(k + 1))
  {
    hide Chained, Front;
    assert State(k + 1).table == ExitSet(State(k), Deeds()[k].status).table;
  }

  lemma EndSteps(k: nat)
    requires k == 7 || k == 13
    requires Chained(State(k)) && Front(State(k))
    ensures Enabled(State(k), Deeds()[k]) && Next(State(k), Deeds()[k]) == Some(State(k + 1))
  {
    hide Chained, Front, FindPcb, Next;
    Ends(State(k), State(k + 1));
  }

  lemma WaitSteps(k: nat, z: nat)
    requires (k == 8 && z == 2) || (k == 14 && z == 3)
    requires Chained(State(k)) && Front(State(k))
    ensures Enabled(State(k), Deeds()[k]) && Next(State(k), Deeds()[k]) == Some(State(k + 1))
  {
    hide Chained, Front, FindZombie, Next;
    Waits(State(k), State(k + 1), z);
  }

  lemma Steps(k: nat)
    requires k < 15 && Chained(State(k)) && Front(State(k))
    ensures Enabled(State(k), Deeds()[k]) && Next(State(k), Deeds()[k]) == Some(State(k + 1))
  {
    assert |Deeds()| == 15;
    hide *;
    if k in {0, 2, 5, 9} { ForkSteps(k, if k == 0 then 1 else if k == 5 then 3 else 2); }
    else if k in {1, 3, 4} { EarlySchedules(k); }
    else if k in {10, 11} { LateSchedules(k); }
    else if k in {6, 12} { ExitSteps(k); }
    else if k in {7, 13} { EndSteps(k); }
    else { WaitSteps(k, if k == 8 then 2 else 3); }
  }

  lemma {:induction false} Plays(k: nat)
    requires k <= 15
    ensures Ok(State(k))
    ensures k < 15 ==> Enabled(State(k), Deeds()[k]) && Next(State(k), Deeds()[k]) == Some(State(k + 1))
  {
    assert |Deeds()| == 15 && State(0) == Boot();
    hide State, Deeds, Next, Enabled, Chained, Front, IdleRuns, PcbOk;
    if k == 0 {
      BootOk();
      assert Ok(State(k));
    } else {
      Plays(k - 1);
      StepOk(State(k - 1), Deeds()[k - 1]);
      assert Ok(State(k - 1 + 1));
      assert Ok(State(k));
    }
    if k < 15 { Steps(k); }
  }

  function Tale(): seq<Sys> { seq(16, (k: nat) => State(k)) }

  lemma TaleIs(k: nat)
    requires k < 16
    ensures |Tale()| == 16 && |Deeds()| == 15 && Tale()[k] == State(k)
  {
    hide State;
  }

  ghost predicate GoesOn(k: nat) {
    && k < 16 && |Tale()| == 16 && |Deeds()| == 15 && Ok(Tale()[k])
    && (k < 15 ==> Enabled(Tale()[k], Deeds()[k]) && Next(Tale()[k], Deeds()[k]) == Some(Tale()[k + 1]))
  }

  lemma TaleGoesOn(k: nat)
    requires k < 16
    ensures GoesOn(k)
  {
    TaleIs(k);
    Plays(k);
    if k < 15 { TaleIs(k + 1); }
    hide State, Deeds, Tale, Ok, Enabled, Next;
  }

  lemma TaleRuns()
    ensures Run(Tale(), Deeds())
  {
    forall k: nat | k < 16 ensures GoesOn(k) { TaleGoesOn(k); }
    TaleIs(0);
    assert Tale()[0] == Boot();
    hide Tale, Deeds, Enabled, Next, Front, IdleRuns, PcbOk;
    assert GoesOn(0);
    forall k | 0 <= k < 15
      ensures Chained(Tale()[k]) && Enabled(Tale()[k], Deeds()[k]) && Next(Tale()[k], Deeds()[k]) == Some(Tale()[k + 1])
    {
      assert GoesOn(k);
    }
  }

  lemma WhoIsReaped(g: nat)
    requires 5 < g < 15
    ensures Reaps(State(g), Deeds()[g], 2) <==> g == 8
    ensures Reaps(State(g), Deeds()[g], 3) <==> g == 14
  {
    hide FindZombie;
    if g == 8 { OnlyZombie(State(8), 2, 1); }
    if g == 14 { OnlyZombie(State(14), 3, 2); }
  }

  lemma WhoIsForked()
    ensures Deeds()[5] == Fork && AllocPid(State(5), 0) == Some(3)
    ensures State(5).current == 2 && State(14).current == 2
  {
    hide AllocPid;
    Slot(State(5), 3);
  }

  /** The process that forks into slot 3 and the one that is told of its exit are
      both in slot 2, and they are not the same. */
  lemma StrangerReaped() returns (states: seq<Sys>, actions: seq<Action>, told: seq<History>)
    ensures Told(states, actions, told) && |told| == |states| == |actions| + 1 == 16
    ensures actions[5] == Fork && AllocPid(states[5], 0) == Some(3) && Reaps(states[14], actions[14], 3)
    ensures states[5].current == 2 && states[14].current == 2
    ensures 2 in told[5].number && 2 in told[14].number && told[14].number[2] != told[5].number[2]
    ensures 3 in told[14].number && told[14].number[3] in told[14].parent
    ensures told[14].parent[told[14].number[3]] == told[5].number[2]
  {
    hide *;
    states, actions := Tale(), Deeds();
    TaleRuns();
    TaleIs(5);
    TaleIs(8);
    told := HasHistory(states, actions, 15);
    assert states[..16] == states && actions[..15] == actions;
    WhoIsForked();
    forall g: nat | 5 < g < 15
      ensures (Reaps(states[g], actions[g], 2) <==> g == 8) && (Reaps(states[g], actions[g], 3) <==> g == 14)
    {
      TaleIs(g);
      WhoIsReaped(g);
    }
    TaleIs(14);
    ToldIffStayed(states, actions, told, 5, 14, 3);
  }
}
