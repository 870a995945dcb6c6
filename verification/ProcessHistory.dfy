/** Who was forked by whom, what each process exited with and who was told.
    Slots of the pcb table are used again, so every process gets a number of its
    own here. */
module ProcessHistory {
  import opened Options
  import opened Processes
  import opened ProcessRuns

  /** A wait that returned: the processes' numbers and the status. */
  datatype Reaping = Reaping(waiter: nat, child: nat, code: int)

  /** number: of the process in a slot; parent: who forked it; exits: what it
      exited with. */
  datatype History = History(number: map<nat, nat>, next: nat, parent: map<nat, nat>, exits: map<nat, int>,
      reaped: seq<Reaping>)

  function AtBoot(): History { History(map[0 := 0], 1, map[], map[], []) }

  /** What a stretch adds. */
  function Record(s: Sys, h: History, a: Action): History
    requires Enabled(s, a) && h.number.Keys == s.table.Keys
  {
    var me := h.number[s.current];
    match a
    case Fork =>
      h.(number := h.number[AllocPid(s, 0).value := h.next], next := h.next + 1, parent := h.parent[h.next := me])
    case Wait =>
      (match FindZombie(s, s.table[s.current].pid, 0)
       case None => h
       case Some(z) => h.(number := h.number - {z}, reaped := h.reaped +
           [Reaping(me, h.number[z], s.table[z].exitCode)]))
    case ExitStart(status) => h.(exits := h.exits[me := WExitStatus(status)])
    case _ => h
  }

  /** The process in slot p is known by its number, and what is known of it is
      right: it has exited exactly if it says so, and its ppid is its parent's
      slot or that of a process that came after it. */
  ghost predicate Known(s: Sys, h: History, p: nat)
    requires p in s.table && p in h.number
  {
    var n, pcb := h.number[p], s.table[p];
    && n < h.next
    && (pcb.context.InExit? <==> n in h.exits)
    && (n in h.exits ==> h.exits[n] == pcb.exitCode)
    && (pcb.ppid >= 0 ==> n in h.parent)
    && (pcb.ppid in h.number ==> pcb.ppid != p && n in h.parent && (h.parent[n] == h.number[pcb.ppid] <==>
         h.number[pcb.ppid] < n))
  }

  ghost predicate Remembered(h: History, r: Reaping) {
    && r.child in h.exits && r.code == h.exits[r.child] && r.child < h.next
    && (forall p :: p in h.number ==> h.number[p] != r.child)
    && r.child in h.parent && (h.parent[r.child] == r.waiter <==> r.waiter < r.child)
  }

  ghost predicate Numbered(s: Sys, h: History) {
    && h.number.Keys == s.table.Keys
    && (forall p, q :: p in h.number && q in h.number && p != q ==> h.number[p] != h.number[q])
    && (forall n :: n in h.parent ==> h.parent[n] < n < h.next)
  }

  ghost predicate AllKnown(s: Sys, h: History)
    requires h.number.Keys == s.table.Keys
  {
    forall p :: p in h.number ==> Known(s, h, p)
  }

  ghost predicate AllRemembered(h: History) {
    && (forall i :: 0 <= i < |h.reaped| ==> Remembered(h, h.reaped[i]))
    && (forall i, j :: 0 <= i < j < |h.reaped| ==> h.reaped[i].child != h.reaped[j].child)
  }

  ghost predicate Consistent(s: Sys, h: History) {
    Numbered(s, h) && AllKnown(s, h) && AllRemembered(h)
  }

  // ----- a fork -----

  function Forked(s: Sys, h: History, c: nat): History
    requires s.current in h.number
  {
    h.(number := h.number[c := h.next], next := h.next + 1, parent := h.parent[h.next := h.number[s.current]])
  }

  lemma ForkNumbered(s: Sys, s': Sys, h: History, c: nat)
    requires Numbered(s, h) && AllKnown(s, h) && s.current in s.table && c !in s.table
    requires s'.table.Keys == s.table.Keys + {c}
    ensures Numbered(s', Forked(s, h, c))
  {
    forall p | p in h.number ensures h.number[p] < h.next { assert Known(s, h, p); }
    hide AllKnown;
  }

  lemma ForkKnown(s: Sys, s': Sys, h: History, c: nat, p: nat)
    requires Numbered(s, h) && s.current in s.table && c !in s.table && c in s'.table && p in s'.table
    requires s'.table.Keys == s.table.Keys + {c}
    requires p != c ==> Known(s, h, p) && SamePerson(s.table[p], s'.table[p])
    requires s'.table[c].ppid == s.current && s'.table[c].context.InUser?
    requires h.next !in h.exits && h.number[s.current] < h.next
    ensures Known(s', Forked(s, h, c), p)
  {
  }

  lemma ForkRemembered(s: Sys, h: History, c: nat)
    requires AllRemembered(h) && s.current in h.number && forall n :: n in h.parent ==> n < h.next
    ensures AllRemembered(Forked(s, h, c))
  {
    var h' := Forked(s, h, c);
    forall i | 0 <= i < |h.reaped| ensures Remembered(h', h'.reaped[i]) {
      assert Remembered(h, h.reaped[i]);
    }
  }

  // ----- a wait -----

  function Buried(s: Sys, h: History, z: nat): History
    requires s.current in h.number && z in h.number && z in s.table
  {
    h.(number := h.number - {z}, reaped := h.reaped + [Reaping(h.number[s.current], h.number[z], s.table[z].exitCode)])
  }

  lemma BuriedKnown(s: Sys, s': Sys, h: History, z: nat, p: nat)
    requires s.current in h.number && z in h.number && z in s.table && p in s.table && p in s'.table
    requires p in h.number && p != z
    requires Known(s, h, p) && s'.table[p].ppid == s.table[p].ppid && s'.table[p].exitCode == s.table[p].exitCode
    requires s'.table[p].context.InExit? <==> s.table[p].context.InExit?
    ensures Known(s', Buried(s, h, z), p)
  {
  }

  lemma BuriedRemembered(s: Sys, h: History, z: nat)
    requires Numbered(s, h) && AllRemembered(h) && s.current in s.table && z in s.table && Known(s, h, z)
    requires s.table[z].ppid == s.current && s.table[z].context.InExit?
    ensures AllRemembered(Buried(s, h, z))
  {
    var h' := Buried(s, h, z);
    forall i | 0 <= i < |h'.reaped| ensures Remembered(h', h'.reaped[i]) {
      if i < |h.reaped| { assert Remembered(h, h.reaped[i]); }
    }
    forall i | 0 <= i < |h.reaped| ensures h.reaped[i].child != h.number[z] {
      assert Remembered(h, h.reaped[i]);
    }
    hide Remembered, Known;
  }

  // ----- an exit -----

  function Gone(s: Sys, h: History, status: int): History
    requires s.current in h.number
  {
    h.(exits := h.exits[h.number[s.current] := WExitStatus(status)])
  }

  lemma GoneKnown(s: Sys, s': Sys, h: History, status: int, p: nat)
    requires Numbered(s, h) && s.current in s.table && p in s.table && p in s'.table && Known(s, h, p)
    requires p != s.current ==> SamePerson(s.table[p], s'.table[p])
    requires p == s.current ==> SamePerson(s.table[p].(exitCode := WExitStatus(status), context := InExit), s'.table[p])
    ensures Known(s', Gone(s, h, status), p)
  {
  }

  lemma GoneRemembered(s: Sys, h: History, status: int)
    requires AllRemembered(h) && s.current in h.number
    ensures AllRemembered(Gone(s, h, status))
  {
    var h' := Gone(s, h, status);
    forall i | 0 <= i < |h.reaped| ensures Remembered(h', h'.reaped[i]) {
      assert Remembered(h, h.reaped[i]);
    }
  }

  // ----- every step -----

  /** Numbers that have exited were given out. */
  ghost predicate ExitsOld(h: History) { forall n :: n in h.exits ==> n < h.next }

  lemma CurrentKnown(s: Sys, h: History)
    requires Ok(s) && Consistent(s, h) && s.current in s.table
    ensures h.number.Keys == s.table.Keys && s.table[s.current].pid == s.current && h.number[s.current] < h.next
    ensures forall n :: n in h.parent ==> n < h.next
  {
    hide Chained, Remembered, AllRemembered;
    assert PcbOk(s, s.current) && Known(s, h, s.current);
  }

  lemma ForkRecord(s: Sys, h: History)
    requires Enabled(s, Fork) && h.number.Keys == s.table.Keys
    ensures Record(s, h, Fork) == Forked(s, h, AllocPid(s, 0).value)
  {
    hide AllocPid;
  }

  lemma ForkConsistent(s: Sys, s': Sys, h: History)
    requires Ok(s) && Enabled(s, Fork) && Consistent(s, h) && ExitsOld(h)
    requires SameButFor(s, s', None, AllocPid(s, 0), s.table[s.current])
    ensures Consistent(s', Record(s, h, Fork))
  {
    hide Ok, AllocPid, Known, Numbered, AllRemembered, Forked, Record, SamePerson;
    var c := AllocPid(s, 0).value;
    CurrentKnown(s, h);
    ForkRecord(s, h);
    assert h.next !in h.exits;
    assert s'.table.Keys == s.table.Keys + {c};
    ForkNumbered(s, s', h, c);
    NumbersAre(s', Forked(s, h, c));
    forall p | p in s'.table ensures Known(s', Forked(s, h, c), p) {
      ForkKnown(s, s', h, c, p);
    }
    ForkRemembered(s, h, c);
  }

  lemma NumbersAre(s: Sys, h: History)
    requires Numbered(s, h)
    ensures h.number.Keys == s.table.Keys
  {
  }

  lemma WaitRecord(s: Sys, h: History, z: nat)
    requires Enabled(s, Wait) && h.number.Keys == s.table.Keys && FindZombie(s, s.table[s.current].pid, 0) == Some(z)
    ensures Record(s, h, Wait) == Buried(s, h, z)
  {
    hide FindZombie, Enabled;
  }

  lemma BuriedNumbered(s: Sys, s': Sys, h: History, z: nat)
    requires Numbered(s, h) && s.current in s.table && z in s.table && s'.table.Keys == s.table.Keys - {z}
    ensures Numbered(s', Buried(s, h, z))
  {
  }

  /** What the waiting process is afterwards, as far as it matters here. */
  lemma WaiterIs(s: Sys)
    requires s.current in s.table && !s.table[s.current].context.InExit?
    ensures var me, me' := s.table[s.current], Me(s, Wait);
            me'.pid == me.pid && me'.ppid == me.ppid && me'.exitCode == me.exitCode && !me'.context.InExit?
  {
    hide FindZombie;
  }

  lemma ZombieIs(s: Sys, z: nat)
    requires Ok(s) && s.current in s.table && FindZombie(s, s.table[s.current].pid, 0) == Some(z)
    ensures z in s.table && z != s.current && s.table[z].ppid == s.current && s.table[z].context.InExit?
  {
    Reapable(s, z);
    assert PcbOk(s, z);
    hide Chained;
  }

  lemma ReapConsistent(s: Sys, s': Sys, h: History, z: nat)
    requires Ok(s) && Enabled(s, Wait) && Consistent(s, h) && FindZombie(s, s.table[s.current].pid, 0) == Some(z)
    requires SameButFor(s, s', Some(z), None, Me(s, Wait))
    ensures Consistent(s', Record(s, h, Wait))
  {
    hide Ok, FindZombie, Known, Numbered, AllRemembered, Buried, Record, Me;
    CurrentKnown(s, h);
    ZombieIs(s, z);
    WaitRecord(s, h, z);
    WaiterIs(s);
    assert s'.table.Keys == s.table.Keys - {z};
    BuriedNumbered(s, s', h, z);
    NumbersAre(s', Buried(s, h, z));
    forall p | p in s'.table ensures Known(s', Buried(s, h, z), p) {
      BuriedKnown(s, s', h, z, p);
    }
    BuriedRemembered(s, h, z);
  }

  lemma ExitConsistent(s: Sys, s': Sys, h: History, status: int)
    requires Enabled(s, ExitStart(status)) && Consistent(s, h)
    requires SameButFor(s, s', None, None, Me(s, ExitStart(status)))
    ensures Consistent(s', Record(s, h, ExitStart(status)))
  {
    hide Known, Remembered, AllRemembered, SamePerson;
    assert s'.table.Keys == s.table.Keys;
    forall p | p in s'.table ensures Known(s', Gone(s, h, status), p) {
      GoneKnown(s, s', h, status, p);
    }
    GoneRemembered(s, h, status);
  }

  lemma OtherConsistent(s: Sys, s': Sys, h: History, me: Pcb)
    requires s.current in s.table && Consistent(s, h) && SameButFor(s, s', None, None, me)
    requires me.pid == s.table[s.current].pid && me.ppid == s.table[s.current].ppid
    requires me.exitCode == s.table[s.current].exitCode
    requires me.context.InExit? <==> s.table[s.current].context.InExit?
    ensures Consistent(s', h)
  {
    hide Remembered, AllRemembered;
    assert s'.table.Keys == s.table.Keys;
    forall p | p in h.number ensures Known(s', h, p) {
      assert Known(s, h, p);
    }
  }

  lemma RecordExits(s: Sys, h: History, a: Action)
    requires Enabled(s, a) && h.number.Keys == s.table.Keys && h.number[s.current] < h.next && ExitsOld(h)
    ensures ExitsOld(Record(s, h, a))
  {
    hide FindZombie, AllocPid;
  }

  lemma StepConsistent(s: Sys, h: History, a: Action)
    requires Ok(s) && Enabled(s, a) && Consistent(s, h) && ExitsOld(h)
    ensures Next(s, a).Some? && Consistent(Next(s, a).value, Record(s, h, a)) && ExitsOld(Record(s, h, a))
  {
    CurrentKnown(s, h);
    RecordExits(s, h, a);
    hide Ok, Next, FindZombie, AllocPid, AllKnown, AllRemembered, ExitsOld, SameButFor;
    StepPeople(s, a);
    var s' := Next(s, a).value;
    match a
    case Fork => ForkConsistent(s, s', h);
    case Wait =>
      if Reaped(s, a).Some? {
        ReapConsistent(s, s', h, Reaped(s, a).value);
      } else {
        OtherConsistent(s, s', h, Me(s, a));
      }
    case ExitStart(status) => ExitConsistent(s, s', h, status);
    case _ => OtherConsistent(s, s', h, Me(s, a));
  }

  /** A run with its history. */
  ghost predicate Told(states: seq<Sys>, actions: seq<Action>, told: seq<History>) {
    && Run(states, actions) && |told| == |states| && told[0] == AtBoot()
    && forall i :: 0 <= i < |actions| ==>
         told[i].number.Keys == states[i].table.Keys && told[i + 1] == Record(states[i], told[i], actions[i])
  }

  lemma {:induction false} RunConsistent(states: seq<Sys>, actions: seq<Action>, told: seq<History>, m: nat)
    requires Told(states, actions, told) && m < |states|
    ensures Consistent(states[m], told[m]) && ExitsOld(told[m])
    decreases m
  {
    hide *;
    ToldIsRun(states, actions, told);
    if m == 0 {
      BootConsistent();
    } else {
      RunConsistent(states, actions, told, m - 1);
      StepOfRun(states, actions, m - 1);
      StepConsistent(states[m - 1], told[m - 1], actions[m - 1]);
      HistoryOfRun(states, actions, told, m - 1);
    }
  }

  lemma ToldIsRun(states: seq<Sys>, actions: seq<Action>, told: seq<History>)
    requires Told(states, actions, told)
    ensures Run(states, actions) && |told| == |states| == |actions| + 1 && states[0] == Boot() && told[0] == AtBoot()
  {
  }

  lemma BootConsistent()
    ensures Consistent(Boot(), AtBoot()) && ExitsOld(AtBoot())
  {
    assert AtBoot().number.Keys == {0};
    assert Boot().table.Keys == {0};
  }

  lemma HistoryOfRun(states: seq<Sys>, actions: seq<Action>, told: seq<History>, m: nat)
    requires Told(states, actions, told) && m < |actions|
    requires |states| == |actions| + 1 && Enabled(states[m], actions[m])
    ensures |told| == |states| && told[m].number.Keys == states[m].table.Keys
    ensures told[m + 1] == Record(states[m], told[m], actions[m])
  {
  }

  /** Every process that has exited is waited for at most once, the status told is
      the one it exited with, and who is told it is the process that forked it
      exactly if he was there first: a slot of the table can have been given to
      somebody else meanwhile. */
  lemma ReapedOnce(states: seq<Sys>, actions: seq<Action>, told: seq<History>, m: nat, i: nat)
    requires Told(states, actions, told) && m < |states| && i < |told[m].reaped|
    ensures var r, h := told[m].reaped[i], told[m];
            && (forall j :: 0 <= j < |h.reaped| && j != i ==> h.reaped[j].child != r.child)
            && r.child in h.exits && r.code == h.exits[r.child] && (forall p :: p in h.number ==>
                 h.number[p] != r.child)
            && r.child in h.parent && (h.parent[r.child] == r.waiter <==> r.waiter < r.child)
  {
    RunConsistent(states, actions, told, m);
    assert Remembered(told[m], told[m].reaped[i]);
    hide Known;
    forall j | 0 <= j < |told[m].reaped| && j != i ensures told[m].reaped[j].child != told[m].reaped[i].child {
      if j < i { assert told[m].reaped[j].child != told[m].reaped[i].child; }
    }
  }

  // ----- what is told -----

  /** Nobody exits twice. */
  lemma StepExits(s: Sys, h: History, a: Action, n: nat)
    requires Ok(s) && Enabled(s, a) && Consistent(s, h) && n in h.exits
    ensures var h' := Record(s, h, a); n in h'.exits && h'.exits[n] == h.exits[n]
  {
    CurrentKnown(s, h);
    assert a.ExitStart? ==> Known(s, h, s.current);
    hide Ok, FindZombie, AllocPid, Remembered;
  }

  lemma {:induction false} ExitKept(states: seq<Sys>, actions: seq<Action>, told: seq<History>, f: nat, m: nat, n: nat)
    requires Told(states, actions, told) && f <= m < |told| && |states| == |actions| + 1 == |told|
    requires n in told[f].exits
    ensures n in told[m].exits && told[m].exits[n] == told[f].exits[n]
    decreases m
  {
    hide *;
    if f < m {
      ExitKept(states, actions, told, f, m - 1, n);
      StepOfRunTold(states, actions, told, m - 1);
      StepExits(states[m - 1], told[m - 1], actions[m - 1], n);
    }
  }

  /** Who has exited has called sys_exit. */
  lemma {:induction false} ExitBefore(states: seq<Sys>, actions: seq<Action>, told: seq<History>, m: nat, n: nat)
      returns (e: nat)
    requires Told(states, actions, told) && m < |told| && |states| == |actions| + 1 == |told| && n in told[m].exits
    ensures e < m && actions[e].ExitStart? && states[e].current in told[e].number
    ensures told[e].number[states[e].current] == n
    decreases m
  {
    hide *;
    ToldIsRun(states, actions, told);
    if m == 0 {
      NoneExited();
      assert false;
    } else {
      StepOfRunTold(states, actions, told, m - 1);
      CurrentKnown(states[m - 1], told[m - 1]);
      if n in told[m - 1].exits {
        e := ExitBefore(states, actions, told, m - 1, n);
      } else {
        NewExit(states[m - 1], told[m - 1], actions[m - 1], n);
        e := m - 1;
      }
    }
  }

  lemma NoneExited()
    ensures AtBoot().exits == map[]
  {
  }

  lemma NewExit(s: Sys, h: History, a: Action, n: nat)
    requires Enabled(s, a) && h.number.Keys == s.table.Keys && n !in h.exits && n in Record(s, h, a).exits
    ensures a.ExitStart? && s.current in h.number && h.number[s.current] == n
  {
    hide FindZombie, AllocPid;
  }

  lemma ExitsOnce(states: seq<Sys>, actions: seq<Action>, told: seq<History>, e: nat, f: nat)
    requires Told(states, actions, told) && e < f < |actions| && |states| == |actions| + 1 == |told|
    requires actions[e].ExitStart? && actions[f].ExitStart?
    ensures states[e].current in told[e].number && states[f].current in told[f].number
    ensures told[e].number[states[e].current] != told[f].number[states[f].current]
  {
    hide *;
    StepOfRunTold(states, actions, told, e);
    StepOfRunTold(states, actions, told, f);
    ExitNoted(states[e], told[e], actions[e].status);
    ExitKept(states, actions, told, e + 1, f, told[e].number[states[e].current]);
    NotYetExited(states[f], told[f], actions[f].status);
  }

  lemma NotYetExited(s: Sys, h: History, status: int)
    requires Ok(s) && Consistent(s, h) && Enabled(s, ExitStart(status))
    ensures s.current in h.number && h.number[s.current] !in h.exits
  {
    CurrentKnown(s, h);
    assert Known(s, h, s.current);
  }

  /** The status told of a process is the second byte of what it called sys_exit with, which
      it did once. */
  lemma ToldCode(states: seq<Sys>, actions: seq<Action>, told: seq<History>, m: nat, i: nat) returns (e: nat)
    requires Told(states, actions, told) && m < |told| && |states| == |actions| + 1 == |told| && i < |told[m].reaped|
    ensures e < m && actions[e].ExitStart? && states[e].current in told[e].number
    ensures told[e].number[states[e].current] == told[m].reaped[i].child
    ensures forall f :: 0 <= f < |actions| && f != e && actions[f].ExitStart? ==>
              states[f].current in told[f].number && told[f].number[states[f].current] != told[m].reaped[i].child
    ensures forall high, code, low :: StatusBytes(actions[e].status, high, code, low) ==> told[m].reaped[i].code == code
  {
    ReapedOnce(states, actions, told, m, i);
    hide *;
    var n := told[m].reaped[i].child;
    e := ExitBefore(states, actions, told, m, n);
    StepOfRunTold(states, actions, told, e);
    forall f | 0 <= f < |actions| && f != e && actions[f].ExitStart?
      ensures states[f].current in told[f].number && told[f].number[states[f].current] != n
    {
      if f < e { ExitsOnce(states, actions, told, f, e); } else { ExitsOnce(states, actions, told, e, f); }
    }
    ExitNoted(states[e], told[e], actions[e].status);
    ExitKept(states, actions, told, e + 1, m, n);
    forall high, code, low | StatusBytes(actions[e].status, high, code, low) ensures told[m].reaped[i].code == code {
      ExitCodeIs(states[e], actions[e].status, high, code, low);
    }
  }

  lemma ExitNoted(s: Sys, h: History, status: int)
    requires Chained(s) && Enabled(s, ExitStart(status)) && h.number.Keys == s.table.Keys
    ensures var n, s' := h.number[s.current], Next(s, ExitStart(status));
            && n in Record(s, h, ExitStart(status)).exits && s'.Some? && s.current in s'.value.table
            && Record(s, h, ExitStart(status)).exits[n] == s'.value.table[s.current].exitCode
  {
  }

  // ----- who is told -----

  /** The stretch is a wait that reaps the process in slot p. */
  predicate Reaps(s: Sys, a: Action, p: nat) { s.current in s.table && Reaped(s, a) == Some(p) }

  ghost predicate Recorded(h: History, n: nat) {
    exists i :: 0 <= i < |h.reaped| && h.reaped[i].child == n
  }

  /** What a stretch does to one slot, and what it leaves written down. */
  lemma StepSlot(s: Sys, h: History, a: Action, p: nat, n: nat)
    requires Ok(s) && Enabled(s, a) && h.number.Keys == s.table.Keys
    ensures var h' := Record(s, h, a);
            && (p in h.number && !Reaps(s, a, p) ==> p in h'.number && h'.number[p] == h.number[p])
            && (p in h.number && Reaps(s, a, p) ==> Recorded(h', h.number[p]))
            && (Recorded(h, n) ==> Recorded(h', n))
            && (n in h.parent && n != h.next ==> n in h'.parent && h'.parent[n] == h.parent[n])
  {
    hide Ok, FindZombie, AllocPid;
    var h' := Record(s, h, a);
    if a.Fork? { assert AllocPid(s, 0).value !in s.table; }
    if Recorded(h, n) {
      var i :| 0 <= i < |h.reaped| && h.reaped[i].child == n;
      assert h'.reaped[i].child == n;
    }
    if p in h.number && Reaps(s, a, p) { assert h'.reaped[|h.reaped|].child == h.number[p]; }
  }

  /** A slot keeps its process until that is reaped, and a process that has been
      reaped is written down. */
  lemma {:induction false} SlotKept(states: seq<Sys>, actions: seq<Action>, told: seq<History>, f: nat, m: nat, p: nat)
    requires Told(states, actions, told) && f <= m < |told| && |states| == |actions| + 1 == |told|
    requires p in told[f].number
    ensures (forall g :: f <= g < m ==> !Reaps(states[g], actions[g], p)) ==>
              p in told[m].number && told[m].number[p] == told[f].number[p]
    ensures (exists g :: f <= g < m && Reaps(states[g], actions[g], p)) ==> Recorded(told[m], told[f].number[p])
    decreases m
  {
    hide *;
    if f < m {
      var n := told[f].number[p];
      SlotKept(states, actions, told, f, m - 1, p);
      StepOfRunTold(states, actions, told, m - 1);
      StepSlot(states[m - 1], told[m - 1], actions[m - 1], p, n);
    }
  }

  lemma StepOfRunTold(states: seq<Sys>, actions: seq<Action>, told: seq<History>, m: nat)
    requires Told(states, actions, told) && m < |actions|
    ensures |told| == |states| == |actions| + 1 && Ok(states[m]) && Chained(states[m])
    ensures Enabled(states[m], actions[m]) && Next(states[m], actions[m]) == Some(states[m + 1])
    ensures told[m].number.Keys == states[m].table.Keys && told[m + 1] == Record(states[m], told[m], actions[m])
    ensures Consistent(states[m], told[m])
  {
    StepOfRun(states, actions, m);
    RunConsistent(states, actions, told, m);
  }

  lemma {:induction false} ParentKept(states: seq<Sys>, actions: seq<Action>, told: seq<History>, f: nat, m: nat,
                                      n: nat)
    requires Told(states, actions, told) && f <= m < |told| && |states| == |actions| + 1 == |told|
    requires n in told[f].parent
    ensures n in told[m].parent && told[m].parent[n] == told[f].parent[n]
    decreases m
  {
    hide *;
    if f < m {
      ParentKept(states, actions, told, f, m - 1, n);
      StepOfRunTold(states, actions, told, m - 1);
      ParentIsOld(states[m - 1], told[m - 1], n);
      StepSlot(states[m - 1], told[m - 1], actions[m - 1], 0, n);
    }
  }

  lemma ParentIsOld(s: Sys, h: History, n: nat)
    requires Consistent(s, h) && n in h.parent
    ensures n < h.next
  {
    hide AllKnown, AllRemembered;
  }

  /** A process that is not reaped keeps its ppid. */
  lemma {:induction false} PpidKept(states: seq<Sys>, actions: seq<Action>, f: nat, m: nat, c: nat)
    requires Run(states, actions) && f <= m <= |actions| && |states| == |actions| + 1 && c in states[f].table
    requires forall g :: f <= g < m ==> !Reaps(states[g], actions[g], c)
    ensures c in states[m].table && states[m].table[c].ppid == states[f].table[c].ppid
    decreases m
  {
    hide *;
    if f < m {
      PpidKept(states, actions, f, m - 1, c);
      StepOfRun(states, actions, m - 1);
      assert !Reaps(states[m - 1], actions[m - 1], c);
      StepPpid(states[m - 1], actions[m - 1], c);
    }
  }

  lemma StepPpid(s: Sys, a: Action, c: nat)
    requires Ok(s) && Enabled(s, a) && c in s.table && !Reaps(s, a, c)
    ensures Next(s, a).Some? && c in Next(s, a).value.table && Next(s, a).value.table[c].ppid == s.table[c].ppid
  {
    StepPeople(s, a);
    hide Ok, Next, Reaped, Born, Enabled;
  }

  lemma BornOf(s: Sys, h: History, c: nat)
    requires Ok(s) && Enabled(s, Fork) && Consistent(s, h) && AllocPid(s, 0) == Some(c)
    ensures h.number.Keys == s.table.Keys && s.current in h.number
    ensures var h' := Record(s, h, Fork);
            && c in h'.number && h'.number[c] == h.next && h.next in h'.parent
            && h'.parent[h.next] == h.number[s.current] && s.current != c
    ensures Next(s, Fork).Some? && c in Next(s, Fork).value.table && Next(s, Fork).value.table[c].ppid == s.current
  {
    CurrentKnown(s, h);
    assert PcbOk(s, s.current);
    StepPeople(s, Fork);
    hide Ok, Consistent, Next;
  }

  /** A process forks a child into slot c; later that child is reaped. Then the one
      who is told is in the slot of the one who forked, and it is the same process
      if and only if nobody in that slot was reaped in between. */
  lemma ToldIffStayed(states: seq<Sys>, actions: seq<Action>, told: seq<History>, f: nat, w: nat, c: nat)
    requires Told(states, actions, told) && f < w < |actions| && |states| == |actions| + 1 == |told|
    requires actions[f] == Fork && AllocPid(states[f], 0) == Some(c)
    requires Reaps(states[w], actions[w], c) && forall g :: f < g < w ==> !Reaps(states[g], actions[g], c)
    ensures var p := states[f].current;
            && states[w].current == p && p in told[f].number && p in told[w].number && c in told[w].number
            && told[w].number[c] in told[w].parent && told[w].parent[told[w].number[c]] == told[f].number[p]
            && (told[w].number[p] == told[f].number[p] <==>
                forall g :: f < g < w ==> !Reaps(states[g], actions[g], p))
  {
    var p := states[f].current;
    assert Run(states, actions) && !actions[f].Wait?;
    StepOfRunTold(states, actions, told, f);
    StepOfRunTold(states, actions, told, w);
    hide Told, Run, Ok, Chained, AllocPid, FindZombie, Next, Record, AllKnown, Numbered;
    BornOf(states[f], told[f], c);
    PpidKept(states, actions, f + 1, w, c);
    ZombieIs(states[w], c);
    SlotKept(states, actions, told, f + 1, w, c);
    ParentKept(states, actions, told, f + 1, w, told[f].next);
    SlotKept(states, actions, told, f, w, p);
    assert !Reaps(states[f], actions[f], p);
    if g :| f < g < w && Reaps(states[g], actions[g], p) {
      var i :| 0 <= i < |told[w].reaped| && told[w].reaped[i].child == told[f].number[p];
      assert Remembered(told[w], told[w].reaped[i]);
    }
  }

  // ----- every run has a history -----

  lemma {:induction false} HasHistory(states: seq<Sys>, actions: seq<Action>, m: nat) returns (told: seq<History>)
    requires Run(states, actions) && m <= |actions| && |states| == |actions| + 1
    ensures |told| == m + 1 && Told(states[..m + 1], actions[..m], told)
    decreases m
  {
    if m == 0 {
      told := [AtBoot()];
    } else {
      hide Run, Told;
      var before := HasHistory(states, actions, m - 1);
      told := TellMore(states, actions, before, m - 1);
    }
  }

  lemma TellMore(states: seq<Sys>, actions: seq<Action>, told: seq<History>, m: nat) returns (more: seq<History>)
    requires Run(states, actions) && m < |actions| && |states| == |actions| + 1
    requires |told| == m + 1 && Told(states[..m + 1], actions[..m], told)
    ensures |more| == m + 2 && Told(states[..m + 2], actions[..m + 1], more)
  {
    hide Record, Next, Consistent, Ok, Chained, Enabled, Run;
    RunConsistent(states[..m + 1], actions[..m], told, m);
    PartOfRun(states, actions, m + 1);
    StepOfRun(states, actions, m);
    KeysAre(states[m], told[m]);
    more := told + [Record(states[m], told[m], actions[m])];
    forall i | 0 <= i < m + 1
      ensures more[i].number.Keys == states[i].table.Keys && Enabled(states[i], actions[i])
      ensures more[i + 1] == Record(states[i], more[i], actions[i])
    {
      StepOfRun(states, actions, i);
      if i < m { assert actions[..m][i] == actions[i]; }
    }
  }

  lemma KeysAre(s: Sys, h: History)
    requires Consistent(s, h)
    ensures h.number.Keys == s.table.Keys
  {
  }

  lemma PartOfRun(states: seq<Sys>, actions: seq<Action>, m: nat)
    requires Run(states, actions) && m <= |actions|
    ensures Run(states[..m + 1], actions[..m])
  {
    hide Chained, Enabled, Next;
  }
}
