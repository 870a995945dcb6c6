/** What has been asked of the buffers and the drive comes to an end, unless an assertion
    of get_buffer stops the kernel first. */
module DiskProgress {
  import opened Blocks
  import opened DiskRequests
  import opened Division
  import opened Lists
  import opened Options

  // ----- sums over the processes -----

  function Sum(f: Pc -> nat, procs: seq<Pc>): nat
    decreases |procs|
  {
    if procs == [] then 0 else f(procs[0]) + Sum(f, procs[1..])
  }

  lemma {:induction false} SumUpdate(f: Pc -> nat, procs: seq<Pc>, p: nat, pc: Pc)
    requires p < |procs|
    ensures Sum(f, procs[p := pc]) == Sum(f, procs) - f(procs[p]) + f(pc) && f(procs[p]) <= Sum(f, procs)
    decreases |procs|
  {
    if p == 0 {
      assert procs[p := pc][1..] == procs[1..];
    } else {
      assert procs[p := pc][1..] == procs[1..][p - 1 := pc];
      SumUpdate(f, procs[1..], p - 1, pc);
    }
  }

  lemma {:induction false} SumBound(f: Pc -> nat, procs: seq<Pc>, c: nat)
    requires forall pc :: f(pc) <= c
    ensures Sum(f, procs) <= |procs| * c
    decreases |procs|
  {
    if procs != [] {
      SumBound(f, procs[1..], c);
      assert |procs| * c == (|procs| - 1) * c + c;
    }
  }

  // ----- what is left to do -----

  /** A process that searches, */
  function Search(): Pc -> nat {
    (pc: Pc) => if pc.Scanning? || ((pc.AtLock? || pc.AtDrive?) && pc.after.Scan?) then 1 else 0
  }

  /** the buffers that it has before it, */
  function Left(lru: seq<nat>): Pc -> nat {
    (pc: Pc) =>
      match pc
      case Scanning(_, passed) => if passed.None? then |lru| else |Behind(lru, passed.value)|
      case AtLock(r, after) => if after.Scan? then |Behind(lru, r.b)| else 0
      case AtDrive(r, after) => if after.Scan? then |Behind(lru, r.b)| else 0
      case _ => 0
  }

  /** and how far its request is. */
  function Stage(): Pc -> nat {
    (pc: Pc) =>
      match pc
      case AtLock(_, _) => 4
      case AtDrive(_, _) => 3
      case AtIo(_) => 1
      case _ => 0
  }

  function Requests(s: State): nat { Sum(Stage(), s.procs) + if s.drive.Some? then 1 else 0 }

  /** Searches and buffers left: a buffer that is taken can be before all others again. */
  function Searching(s: State): nat {
    Sum(Search(), s.procs) * (|s.procs| * |s.lru| + 1) + Sum(Left(s.lru), s.procs)
  }

  ghost predicate SleepersKnown(s: State) { forall p :: p in s.asleep ==> p < |s.procs| }

  /** How many steps can follow at most if nothing new is asked for. */
  function Measure(s: State): int {
    (5 * Searching(s) + Requests(s)) * (|s.procs| + 1) + |s.procs| - |s.asleep|
  }

  /** The step belongs to what has been asked for. */
  predicate Served(a: Action) { Moves(a) || a.Sleep? }

  lemma {:induction false} BehindShort(q: seq<nat>, b: nat)
    ensures |Behind(q, b)| <= |q|
    decreases |q|
  {
    if q != [] { BehindShort(q[1..], b); }
  }

  lemma {:induction false} BehindNext(q: seq<nat>, b: nat)
    requires Distinct(q) && Behind(q, b) != []
    ensures |Behind(q, Behind(q, b)[0])| < |Behind(q, b)|
    decreases |q|
  {
    var x := Behind(q, b)[0];
    BehindIn(q[1..], b);
    assert Distinct(q[1..]) by { assert forall i :: 0 <= i < |q| - 1 ==> q[1..][i] == q[i + 1]; }
    if q[0] == b {
      assert x == q[1] && x != q[0];
      assert Behind(q, x) == Behind(q[1..], x) == q[1..][1..];
    } else {
      assert x in q[1..] && x != q[0];
      BehindNext(q[1..], b);
    }
  }

  lemma {:induction false} BehindIn(q: seq<nat>, b: nat)
    ensures forall x :: x in Behind(q, b) ==> x in q
    decreases |q|
  {
    if q != [] { BehindIn(q[1..], b); }
  }

  /** A scan that gets past a buffer has fewer before it. */
  lemma Passes(s: State, p: nat)
    requires LruOk(s) && p < |s.procs| && s.procs[p].Scanning? && Candidate(s, p).Some?
    ensures |Behind(s.lru, Candidate(s, p).value)| < |Ahead(s, s.procs[p].passed)|
  {
    var b := Candidate(s, p).value;
    if s.procs[p].passed.None? {
      assert Behind(s.lru, b) == s.lru[1..];
    } else {
      BehindNext(s.lru, s.procs[p].passed.value);
    }
  }

  lemma ScanDecreases(s: State, a: Action)
    requires Inv(s) && Enabled(s, a) && (a.Pass? || a.WriteOut?)
    ensures var s' := Next(s, a);
            && Searching(s') < Searching(s) && Requests(s') <= Requests(s) + 4 && s'.asleep == s.asleep
            && |s'.procs| == |s.procs|
  {
    var s', p := Next(s, a), a.p;
    MovedIs(s, a);
    var pc := Moved(s, a).value;
    Passes(s, p);
    hide Inv;
    SumUpdate(Search(), s.procs, p, pc);
    SumUpdate(Left(s.lru), s.procs, p, pc);
    SumUpdate(Stage(), s.procs, p, pc);
    assert s'.lru == s.lru && s'.procs == s.procs[p := pc];
    hide Sum, Enabled, Next, Moved, Behind;
  }

  lemma EvictDecreases(s: State, a: Action)
    requires Inv(s) && Enabled(s, a) && a.Evict?
    ensures var s' := Next(s, a);
            && Searching(s') < Searching(s) && Requests(s') == Requests(s) && s'.asleep == s.asleep
            && |s'.procs| == |s.procs|
  {
    CandidateIn(s, a.p);
    hide Inv, Without, Behind, Ahead;
    hide Searching, Requests;
    FewerSearches(s, Next(s, a), a.p);
  }

  lemma CandidateIn(s: State, p: nat)
    requires Candidate(s, p).Some?
    ensures Candidate(s, p).value in s.lru
  {
    if s.procs[p].passed.Some? { BehindIn(s.lru, s.procs[p].passed.value); }
  }

  lemma FewerSearches(s: State, s': State, p: nat)
    requires p < |s.procs| && s.procs[p].Scanning? && s'.procs == s.procs[p := Elsewhere]
    requires |s'.lru| == |s.lru| && s'.drive == s.drive
    ensures Searching(s') < Searching(s) && Requests(s') == Requests(s)
  {
    SumUpdate(Search(), s.procs, p, Elsewhere);
    SumUpdate(Stage(), s.procs, p, Elsewhere);
    LeftBound(s'.lru, s'.procs);
    hide Sum, Left;
    LessTimes(Sum(Search(), s.procs), Sum(Search(), s'.procs), |s.procs| * |s.lru| + 1);
  }

  lemma LeftBound(lru: seq<nat>, procs: seq<Pc>)
    ensures Sum(Left(lru), procs) <= |procs| * |lru|
  {
    forall pc ensures Left(lru)(pc) <= |lru| {
      match pc
      case Scanning(_, passed) => if passed.Some? { BehindShort(lru, passed.value); }
      case AtLock(r, _) => BehindShort(lru, r.b);
      case AtDrive(r, _) => BehindShort(lru, r.b);
      case _ =>
    }
    SumBound(Left(lru), procs, |lru|);
  }

  lemma RequestDecreases(s: State, a: Action)
    requires Inv(s) && Enabled(s, a) && (a.Lock? || a.Accept? || a.Wake? || a.Complete?)
    ensures var s' := Next(s, a);
            && Searching(s') == Searching(s) && Requests(s') < Requests(s) && s'.asleep <= s.asleep
            && |s'.procs| == |s.procs|
  {
    if a.Complete? {
      hide Inv, Sum, Candidate, NoneFor, Behind;
    } else {
      MoveDecreases(s, a);
    }
  }

  lemma MoveDecreases(s: State, a: Action)
    requires Enabled(s, a) && (a.Lock? || a.Accept? || a.Wake?)
    ensures var s' := Next(s, a);
            && Searching(s') == Searching(s) && Requests(s') < Requests(s) && s'.asleep == s.asleep
            && |s'.procs| == |s.procs|
  {
    MovedIs(s, a);
    var pc := Moved(s, a).value;
    SumUpdate(Search(), s.procs, a.p, pc);
    SumUpdate(Left(s.lru), s.procs, a.p, pc);
    SumUpdate(Stage(), s.procs, a.p, pc);
    hide Sum, Behind, Candidate;
    assert Next(s, a).lru == s.lru;
  }

  lemma SleepersIn(s: State)
    requires Inv(s)
    ensures |s.asleep| <= |s.procs| && SleepersKnown(s)
  {
    hide AllCounted, LruOk, WritesHold;
    FewBelow(s.asleep, |s.procs|);
  }

  lemma StepDecreases(s: State, a: Action)
    requires Inv(s) && Enabled(s, a) && Served(a)
    ensures 0 <= Measure(Next(s, a)) < Measure(s)
  {
    var s' := Next(s, a);
    StepInv(s, a);
    SleepersIn(s);
    SleepersIn(s');
    if a.Sleep? {
      assert s' == s.(asleep := s.asleep + {a.p});
      assert |s'.asleep| == |s.asleep| + 1;
      SleepDecreases(s, s');
    } else {
      if a.Pass? || a.WriteOut? {
        ScanDecreases(s, a);
      } else if a.Evict? {
        EvictDecreases(s, a);
      } else {
        RequestDecreases(s, a);
      }
      Less(s, s');
    }
  }

  lemma SleepDecreases(s: State, s': State)
    requires s'.procs == s.procs && s'.lru == s.lru && s'.drive == s.drive && |s'.asleep| == |s.asleep| + 1
    requires |s'.asleep| <= |s.procs|
    ensures 0 <= Measure(s') < Measure(s)
  {
    hide Sum;
    assert Searching(s') == Searching(s) && Requests(s') == Requests(s);
    hide Searching, Requests;
    assert (5 * Searching(s) + Requests(s)) * (|s.procs| + 1) >= 0;
  }

  /** Less to do outweighs all sleepers that have been woken. */
  lemma Less(s: State, s': State)
    requires |s'.procs| == |s.procs| && |s'.asleep| <= |s.procs| && |s.asleep| <= |s.procs|
    requires 5 * Searching(s') + Requests(s') < 5 * Searching(s) + Requests(s)
    ensures 0 <= Measure(s') < Measure(s)
  {
    LessTimes(5 * Searching(s) + Requests(s), 5 * Searching(s') + Requests(s'), |s.procs| + 1);
    hide Searching, Requests;
  }

  /** From any point of any run, if nothing new is asked for, the steps are bounded. */
  lemma {:induction false} Bounded(states: seq<State>, actions: seq<Action>, m: nat, n: nat)
    requires Run(states, actions) && m <= n < |states| && forall i :: m <= i < n ==> Served(actions[i])
    ensures Measure(states[n]) >= 0 && n - m + Measure(states[n]) <= Measure(states[m])
    decreases n
  {
    hide *;
    if m < n {
      StepOfRun(states, actions, n - 1);
      assert Served(actions[n - 1]);
      Bounded(states, actions, m, n - 1);
      StepDecreases(states[n - 1], actions[n - 1]);
    } else {
      InvOfRun(states, actions, n);
      MeasureNat(states[n]);
    }
  }

  lemma InvOfRun(states: seq<State>, actions: seq<Action>, n: nat)
    requires Run(states, actions) && n < |states|
    ensures Inv(states[n]) && |states| == |actions| + 1
  {
    RunInv(states, actions, n);
  }

  lemma StepOfRun(states: seq<State>, actions: seq<Action>, n: nat)
    requires Run(states, actions) && n < |states| - 1
    ensures |states| == |actions| + 1 && Inv(states[n]) && Enabled(states[n], actions[n])
    ensures states[n + 1] == Next(states[n], actions[n])
  {
    RunInv(states, actions, n);
    hide Inv, Enabled, Next, Init;
  }

  lemma MeasureNat(s: State)
    requires Inv(s)
    ensures Measure(s) >= 0
  {
    SleepersIn(s);
    hide Inv, Searching, Requests;
    assert (5 * Searching(s) + Requests(s)) * (|s.procs| + 1) >= 0;
  }

  /** And when none of them can be taken any more, everything that was asked for is done, or
      an assertion of get_buffer has failed. */
  lemma Terminates(states: seq<State>, actions: seq<Action>, m: nat, n: nat)
    requires Run(states, actions) && m <= n < |states| && forall i :: m <= i < n ==> Served(actions[i])
    ensures n - m <= Measure(states[m])
    ensures (forall a :: Served(a) ==> !Enabled(states[n], a)) ==>
              AllDone(states[n]) || exists p: nat :: FindsNone(states[n], p)
  {
    Bounded(states, actions, m, n);
    var a := NoDeadlock(states, actions, n);
    hide *;
    if Moves(a) { MovesServed(a); }
  }

  lemma MovesServed(a: Action)
    requires Moves(a)
    ensures Served(a)
  {
  }

  // ----- requests that are waited for -----

  /** Process p waits for request r, which is on its way or at the drive. */
  ghost predicate Pending(s: State, p: nat, r: Request) {
    && p < |s.procs| && r.b < |s.buffers|
    && (s.procs[p] == AtLock(r, After.Wait) || s.procs[p] == AtDrive(r, After.Wait) ||
        (s.procs[p] == AtIo(r.b) && s.drive == Some(r) && s.buffers[r.b].locked))
  }

  /** The drive is done with it. */
  ghost predicate Does(s: State, a: Action, r: Request) { a.Complete? && s.drive == Some(r) }

  lemma StaysPending(s: State, a: Action, p: nat, r: Request)
    requires AllCounted(s) && Enabled(s, a) && Pending(s, p, r)
    ensures a != Wake(p)
    ensures Pending(Next(s, a), p, r) || (Does(s, a, r) && s.procs[p] == AtIo(r.b))
  {
    if s.procs[p].AtDrive? { HasItsLock(s, p); }
    if a.Complete? {
      hide AllCounted, Candidate, NoneFor, StillAsleep;
    } else if a.Evict? || a.LookUp? || a.Pass? || a.WriteOut? {
      SearchPending(s, a, p, r);
    } else {
      hide AllCounted, Candidate, NoneFor;
    }
  }

  lemma SearchPending(s: State, a: Action, p: nat, r: Request)
    requires Enabled(s, a) && Pending(s, p, r) && (a.Evict? || a.LookUp? || a.Pass? || a.WriteOut?)
    ensures Pending(Next(s, a), p, r)
  {
    hide Ahead, NoneFor, Behind, Without;
  }

  lemma HasItsLock(s: State, p: nat)
    requires AllCounted(s) && p < |s.procs| && s.procs[p].AtDrive?
    ensures s.procs[p].r.b < |s.buffers| && s.buffers[s.procs[p].r.b].locked
  {
    var b := s.procs[p].r.b;
    NoneLocks(s.procs, b);
    assert HasLock(s.procs[p], b) > 0 && Counted(s, b);
  }

  /** buffer_sync_io: a process that has a request waited for goes on only when the drive has
      done it, and then the buffer is clean and unlocked, and if it was read holds what is on
      the disk. */
  lemma SyncWaits(states: seq<State>, actions: seq<Action>, f: nat, w: nat, p: nat, r: Request) returns (g: nat)
    requires Run(states, actions) && |states| == |actions| + 1 && f < w < |actions|
    requires actions[f] == Start(p, r, true) && actions[w] == Wake(p)
    ensures f < g < w && Does(states[g], actions[g], r) && r.b < |states[g + 1].buffers|
    ensures var x, disk := states[g + 1].buffers[r.b], states[g + 1].disk;
            && x.state == Clean && !x.locked
            && (r.command == Read ==> 0 <= x.key < |disk| && x.data == disk[x.key])
  {
    assert Enabled(states[f], actions[f]) && states[f + 1] == Next(states[f], actions[f]);
    RunInv(states, actions, f);
    g := DoneBefore(states, actions, f + 1, w, p, r);
    assert Enabled(states[g], actions[g]) && states[g + 1] == Next(states[g], actions[g]);
    hide Inv, Init, Enabled;
  }

  lemma {:induction false} DoneBefore(states: seq<State>, actions: seq<Action>, m: nat, w: nat, p: nat, r: Request)
      returns (g: nat)
    requires Run(states, actions) && |states| == |actions| + 1 && m <= w < |actions| && Pending(states[m], p, r)
    requires actions[w] == Wake(p)
    ensures m <= g < w && Does(states[g], actions[g], r)
    decreases w - m
  {
    RunInv(states, actions, m);
    assert Enabled(states[m], actions[m]) && states[m + 1] == Next(states[m], actions[m]);
    StaysPending(states[m], actions[m], p, r);
    hide Inv, Init, Enabled, Next, Pending;
    if Pending(states[m + 1], p, r) {
      g := DoneBefore(states, actions, m + 1, w, p, r);
    } else {
      g := m;
    }
  }
}
