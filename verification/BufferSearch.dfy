/** get_buffer of buffer.c between its search for a block and its taking a buffer for
    it: when a block can come to have two buffers, in runs of a kernel that is not
    preempted. */
module BufferSearch {
  import opened Blocks
  import opened DiskContents
  import opened DiskRequests
  import opened Lists
  import opened Options

  // ----- stretches of kernel code -----

  /** turn is the process in the middle of a stretch of kernel code. */
  datatype Config = Config(s: State, turn: Option<nat>)

  /** The process has something more to do before it sleeps or returns. */
  predicate GoesOn(s: State, p: nat) { p < |s.procs| && s.procs[p] != Elsewhere && p !in s.asleep }

  /** A process in the middle of a stretch is not interrupted. */
  predicate May(c: Config, a: Action) { Enabled(c.s, a) && (c.turn.Some? ==> Who(a) == c.turn) }

  function Step(c: Config, a: Action): Config
    requires May(c, a)
  {
    var s := Next(c.s, a);
    Config(s, if Who(a).Some? && GoesOn(s, Who(a).value) then Who(a) else None)
  }

  /** A run of the kernel. */
  ghost predicate Kernel(configs: seq<Config>, actions: seq<Action>) {
    && |configs| == |actions| + 1
    && forall i :: 0 <= i < |actions| ==> May(configs[i], actions[i]) && configs[i + 1] == Step(configs[i], actions[i])
  }

  function States(configs: seq<Config>): seq<State> {
    seq(|configs|, i requires 0 <= i < |configs| => configs[i].s)
  }

  lemma KernelGoes(configs: seq<Config>, actions: seq<Action>)
    requires Kernel(configs, actions)
    ensures Goes(States(configs), actions) && |States(configs)| == |configs|
    ensures forall i :: 0 <= i < |configs| ==> States(configs)[i] == configs[i].s
  {
    hide Enabled, Next, Who, GoesOn;
  }

  // ----- when a block gets a second buffer -----

  /** The step takes a buffer for block k. */
  predicate Inserts(s: State, a: Action, k: nat) {
    a.Evict? && Candidate(s, a.p).Some? && s.procs[a.p].key == k
  }

  lemma StepKey(s: State, a: Action, i: nat, k: nat)
    requires Enabled(s, a) && i < |s.buffers| && s.buffers[i].key != k
    ensures i < |Next(s, a).buffers|
    ensures Next(s, a).buffers[i].key == k ==> Inserts(s, a, k) && Candidate(s, a.p) == Some(i)
  {
    hide Ahead, NoneFor, StillAsleep, Without;
  }

  /** A buffer that has come to be for block k was taken for it. */
  lemma {:induction false} TakenFor(states: seq<State>, actions: seq<Action>, f: nat, w: nat, i: nat, k: nat)
    requires Goes(states, actions) && f <= w < |states| && i < |states[f].buffers| && states[f].buffers[i].key != k
    requires i < |states[w].buffers| && states[w].buffers[i].key == k && |states| == |actions| + 1
    ensures exists g :: f <= g < w && Inserts(states[g], actions[g], k) && Candidate(states[g], actions[g].p) == Some(i)
    decreases w
  {
    hide Enabled, Next, Inserts, Candidate;
    if f < w {
      assert Enabled(states[w - 1], actions[w - 1]) && states[w - 1 + 1] == Next(states[w - 1], actions[w - 1]);
      SameBuffers(states, actions, f, w - 1);
      if states[w - 1].buffers[i].key == k {
        TakenFor(states, actions, f, w - 1, i, k);
      } else {
        StepKey(states[w - 1], actions[w - 1], i, k);
      }
    }
  }

  lemma {:induction false} SameBuffers(states: seq<State>, actions: seq<Action>, f: nat, w: nat)
    requires Goes(states, actions) && f <= w < |states|
    ensures |states[w].buffers| == |states[f].buffers|
    decreases w
  {
    if f < w {
      hide Enabled, Next;
      SameBuffers(states, actions, f, w - 1);
      assert Enabled(states[w - 1], actions[w - 1]) && states[w - 1 + 1] == Next(states[w - 1], actions[w - 1]);
      SameSize(states[w - 1], actions[w - 1]);
    }
  }

  lemma SameSize(s: State, a: Action)
    requires Enabled(s, a)
    ensures |Next(s, a).buffers| == |s.buffers|
  {
    hide NoneFor, Ahead, StillAsleep, Blocked, Without;
  }

  lemma StepSeeks(s: State, a: Action, p: nat, k: nat)
    requires Enabled(s, a) && p < |s.procs| && Seeks(s.procs[p], k)
    ensures p < |Next(s, a).procs|
    ensures a != Evict(p) ==> Seeks(Next(s, a).procs[p], k)
    ensures a == Evict(p) ==> Inserts(s, a, k)
  {
    hide Ahead, NoneFor, StillAsleep, Without, Blocked;
  }

  /** A process that has not found a block is at it until it takes a buffer. */
  lemma {:induction false} StillSeeks(states: seq<State>, actions: seq<Action>, f: nat, w: nat, p: nat, k: nat)
    requires Goes(states, actions) && f < w < |states| && f < |actions| && actions[f] == LookUp(p, k, None)
    requires forall g :: f < g < w ==> actions[g] != Evict(p)
    ensures p < |states[w].procs| && Seeks(states[w].procs[p], k)
    decreases w
  {
    assert Enabled(states[w - 1], actions[w - 1]) && states[w - 1 + 1] == Next(states[w - 1], actions[w - 1]);
    if f < w - 1 {
      StillSeeks(states, actions, f, w - 1, p, k);
      StepSeeks(states[w - 1], actions[w - 1], p, k);
    }
  }

  /** The step at g took another buffer for block k than the step at w, and that buffer
      is for it still. */
  ghost predicate TakenBefore(states: seq<State>, actions: seq<Action>, g: nat, w: nat, k: nat)
    requires g < w < |actions| < |states|
  {
    && Inserts(states[g], actions[g], k) && Inserts(states[w], actions[w], k)
    && var i := Candidate(states[g], actions[g].p).value;
       Candidate(states[w], actions[w].p) != Some(i) && i < |states[w].buffers| && states[w].buffers[i].key == k
  }

  /** A process looks for a block, does not find it, and later takes a buffer for it. Then
      the block gets a second buffer if and only if somebody has taken one for it in
      between and that is for it still. */
  lemma SecondBuffer(states: seq<State>, actions: seq<Action>, f: nat, w: nat, p: nat, k: nat)
    requires Goes(states, actions) && f < w < |actions| < |states| && actions[f] == LookUp(p, k, None)
    requires actions[w] == Evict(p) && forall g :: f < g < w ==> actions[g] != Evict(p)
    ensures Inserts(states[w], actions[w], k)
    ensures Doubles(states[w], actions[w], k) <==> exists g :: f < g < w && TakenBefore(states, actions, g, w, k)
  {
    assert Enabled(states[w], actions[w]) && Enabled(states[f], actions[f]) && NoneFor(states[f], k);
    hide Goes, Candidate, Enabled, Next;
    StillSeeks(states, actions, f, w, p, k);
    StepSeeks(states[w], actions[w], p, k);
    SameBuffers(states, actions, f, w);
    if Doubles(states[w], actions[w], k) { DoubledBefore(states, actions, f, w, k); }
  }

  /** A buffer that is for the block besides was taken for it since. */
  lemma DoubledBefore(states: seq<State>, actions: seq<Action>, f: nat, w: nat, k: nat)
    requires Goes(states, actions) && f < w < |actions| < |states| && NoneFor(states[f], k)
    requires |states| == |actions| + 1 && |states[w].buffers| == |states[f].buffers|
    requires Inserts(states[w], actions[w], k) && Doubles(states[w], actions[w], k)
    requires !Inserts(states[f], actions[f], k)
    ensures exists g :: f < g < w && TakenBefore(states, actions, g, w, k)
  {
    hide Goes, Candidate, Enabled, Next;
    var p := actions[w].p;
    if i :| 0 <= i < |states[w].buffers| && Some(i) != Candidate(states[w], p) && states[w].buffers[i].key == k {
      TakenFor(states, actions, f, w, i, k);
      var g :| f <= g < w && Inserts(states[g], actions[g], k) && Candidate(states[g], actions[g].p) == Some(i);
      assert TakenBefore(states, actions, g, w, k);
    }
  }

  // ----- searches that do not sleep -----

  /** A scan of these buffers does not sleep before it takes one: no buffer is dirty
      before the first that is idle, or one, whose lock is free while the drive is. */
  predicate SleepFree(s: State, q: seq<nat>, driveFree: bool) {
    q == [] || q[0] >= |s.buffers| ||
    var x := s.buffers[q[0]];
    if x.state == Dirty then !x.locked && driveFree && SleepFree(s, q[1..], false)
    else x.refCount == 0 || SleepFree(s, q[1..], driveFree)
  }

  /** What can be told when get_buffer does not find a block. */
  predicate Prompt(s: State) { SleepFree(s, s.lru, s.drive.None?) }

  lemma {:induction false} SleepFreeSame(s: State, t: State, q: seq<nat>, driveFree: bool)
    requires |t.buffers| == |s.buffers| && forall b: nat :: b in q && b < |s.buffers| ==> t.buffers[b] == s.buffers[b]
    ensures SleepFree(t, q, driveFree) == SleepFree(s, q, driveFree)
    decreases |q|
  {
    if q != [] && q[0] < |s.buffers| {
      assert q[0] in q;
      SleepFreeSame(s, t, q[1..], driveFree);
      SleepFreeSame(s, t, q[1..], false);
    }
  }

  lemma {:induction false} BehindIs(q: seq<nat>, b: nat)
    requires Distinct(q)
    ensures |Behind(q, b)| <= |q| && (b in q ==> |Behind(q, b)| < |q|)
    ensures b !in Behind(q, b) && forall x :: x in Behind(q, b) ==> x in q
    ensures Behind(q, b) != [] ==> Behind(q, Behind(q, b)[0]) == Behind(q, b)[1..]
    decreases |q|
  {
    if q != [] {
      assert Distinct(q[1..]) by { assert forall i :: 0 <= i < |q| - 1 ==> q[1..][i] == q[i + 1]; }
      BehindIs(q[1..], b);
      assert q[0] !in q[1..];
    }
  }

  /** What is behind the first buffer ahead of a scan is what is ahead of it then. */
  lemma AheadStep(s: State, passed: Option<nat>)
    requires LruOk(s) && Ahead(s, passed) != []
    ensures var q := Ahead(s, passed);
            && Behind(s.lru, q[0]) == q[1..] && q[0] < |s.buffers| && q[0] !in q[1..]
            && forall x :: x in q ==> x in s.lru && x < |s.buffers|
  {
    var q := Ahead(s, passed);
    if passed.Some? { BehindIs(s.lru, passed.value); }
    assert q[0] in q;
    BehindIs(s.lru, q[0]);
  }

  /** Process p, in get_buffer for block k, is not going to sleep, and no buffer is for the
      block yet. */
  ghost predicate Unhindered(s: State, p: nat, k: nat) {
    && p < |s.procs| && p !in s.asleep && NoneFor(s, k)
    && match s.procs[p]
       case Scanning(key, passed) => key == k && SleepFree(s, Ahead(s, passed), s.drive.None?)
       case AtLock(r, after) =>
         && after == Scan(k) && r.b < |s.buffers| && !s.buffers[r.b].locked && s.drive.None?
         && SleepFree(s, Behind(s.lru, r.b), false)
       case AtDrive(r, after) => after == Scan(k) && s.drive.None? && SleepFree(s, Behind(s.lru, r.b), false)
       case _ => false
  }

  lemma UnhinderedScan(s: State, a: Action, p: nat, k: nat)
    requires LruOk(s) && Unhindered(s, p, k) && Enabled(s, a) && Who(a) == Some(p) && s.procs[p].Scanning?
    ensures a == Evict(p) || Unhindered(Next(s, a), p, k)
  {
    var q := Ahead(s, s.procs[p].passed);
    AheadStep(s, s.procs[p].passed);
    SleepFreeSame(s, Next(s, a), q[1..], s.drive.None?);
    SleepFreeSame(s, Next(s, a), q[1..], false);
    hide Behind, LruOk, Without;
  }

  lemma UnhinderedRequest(s: State, a: Action, p: nat, k: nat)
    requires LruOk(s) && Unhindered(s, p, k) && Enabled(s, a) && Who(a) == Some(p) && !s.procs[p].Scanning?
    ensures Unhindered(Next(s, a), p, k) && (a.Lock? || a.Accept?)
  {
    var b := s.procs[p].r.b;
    BehindIs(s.lru, b);
    SleepFreeSame(s, Next(s, a), Behind(s.lru, b), false);
    hide Behind, LruOk, Without;
  }

  lemma UnhinderedStep(s: State, a: Action, p: nat, k: nat)
    requires p < |s.procs| && LruOk(s) && Unhindered(s, p, k) && Enabled(s, a) && Who(a) == Some(p)
    ensures a == Evict(p) || Unhindered(Next(s, a), p, k)
  {
    hide Unhindered, Enabled, Next, LruOk;
    if s.procs[p].Scanning? { UnhinderedScan(s, a, p, k); } else { UnhinderedRequest(s, a, p, k); }
  }

  /** Block k has one buffer at most, and who is in get_buffer for it is not going to sleep. */
  ghost predicate OneSearch(c: Config, k: nat) {
    && OneFor(c.s, k)
    && forall q :: 0 <= q < |c.s.procs| && Seeks(c.s.procs[q], k) ==> c.turn == Some(q) && Unhindered(c.s, q, k)
  }

  /** A search for block k that fails is one that does not sleep. */
  predicate PromptMiss(s: State, a: Action, k: nat) { a.LookUp? && a.key == k && a.found.None? ==> Prompt(s) }

  lemma SearchStep(c: Config, a: Action, k: nat)
    requires Inv(c.s) && OneSearch(c, k) && May(c, a) && PromptMiss(c.s, a, k)
    ensures OneSearch(Step(c, a), k) && !Doubles(c.s, a, k)
  {
    var s := c.s;
    if q: nat :| q < |s.procs| && Seeks(s.procs[q], k) {
      SeekerStep(c, a, q, k);
    } else {
      NoSeekerStep(c, a, k);
    }
  }

  lemma SeekerStep(c: Config, a: Action, q: nat, k: nat)
    requires Inv(c.s) && OneSearch(c, k) && May(c, a) && q < |c.s.procs| && Seeks(c.s.procs[q], k)
    ensures OneSearch(Step(c, a), k) && !Doubles(c.s, a, k)
  {
    var s, s' := c.s, Next(c.s, a);
    assert Who(a) == Some(q) && Unhindered(s, q, k);
    UnhinderedStep(s, a, q, k);
    MovedIs(s, a);
    StepSeeks(s, a, q, k);
    SeekersSame(s, a, q, k);
    assert a == Evict(q) ==>
        forall i :: 0 <= i < |s.buffers| && s'.buffers[i].key == k ==> Candidate(s, q) == Some(i) by {
      if a == Evict(q) {
        forall i: nat | i < |s.buffers| && s'.buffers[i].key == k ensures Candidate(s, q) == Some(i) {
          StepKey(s, a, i, k);
        }
      }
    }
    assert a != Evict(q) ==> NoneFor(s', k);
    hide Next, Enabled, Candidate, Inv;
  }

  /** Nobody but the one whose step it is begins or ends a search. */
  lemma SeekersSame(s: State, a: Action, q: nat, k: nat)
    requires Enabled(s, a) && Who(a) == Some(q)
    ensures forall r :: 0 <= r < |s.procs| && r != q ==> r < |Next(s, a).procs| && Next(s, a).procs[r] == s.procs[r]
    ensures |Next(s, a).procs| == |s.procs|
    ensures a == Evict(q) ==> q < |s.procs| && Next(s, a).procs[q] == Elsewhere
  {
    MovedIs(s, a);
    hide Next;
    if a.Evict? { assert Moved(s, a) == Some(Elsewhere); }
  }

  lemma NoNewBuffer(s: State, a: Action, k: nat)
    requires Enabled(s, a) && forall q: nat :: q < |s.procs| ==> !Seeks(s.procs[q], k)
    ensures !Inserts(s, a, k)
    ensures forall i: nat :: i < |s.buffers| ==>
              i < |Next(s, a).buffers| && (Next(s, a).buffers[i].key == k ==> s.buffers[i].key == k)
  {
    assert !Inserts(s, a, k) by { assert Inserts(s, a, k) ==> a.p < |s.procs| && Seeks(s.procs[a.p], k); }
    forall i: nat | i < |s.buffers| && s.buffers[i].key != k
      ensures i < |Next(s, a).buffers| && Next(s, a).buffers[i].key != k
    {
      StepKey(s, a, i, k);
    }
    SameSize(s, a);
    hide Candidate, Next, Inserts, Seeks;
  }

  lemma NoSeekerStep(c: Config, a: Action, k: nat)
    requires Inv(c.s) && OneFor(c.s, k) && May(c, a) && PromptMiss(c.s, a, k)
    requires forall q: nat :: q < |c.s.procs| ==> !Seeks(c.s.procs[q], k)
    ensures OneSearch(Step(c, a), k) && !Doubles(c.s, a, k)
  {
    var s, s' := c.s, Next(c.s, a);
    MovedIs(s, a);
    NoNewBuffer(s, a, k);
    NotAsleep(s);
    StepShape(s, a);
    hide Inv, Inserts, Seeks;
    forall q | 0 <= q < |s'.procs| && Seeks(s'.procs[q], k) ensures Step(c, a).turn == Some(q) && Unhindered(s', q, k) {
      NewSeeker(s, a, q, k);
    }
  }

  lemma NotAsleep(s: State)
    requires Inv(s)
    ensures forall p :: 0 <= p < |s.procs| && s.procs[p] == Elsewhere ==> p !in s.asleep
  {
  }

  lemma NewSeeker(s: State, a: Action, q: nat, k: nat)
    requires Enabled(s, a) && q < |s.procs| && !Seeks(s.procs[q], k) && PromptMiss(s, a, k)
    requires q < |Next(s, a).procs| && Seeks(Next(s, a).procs[q], k) && (s.procs[q] == Elsewhere ==> q !in s.asleep)
    ensures a == LookUp(q, k, None) && Unhindered(Next(s, a), q, k)
  {
    var s' := Next(s, a);
    MovedIs(s, a);
    assert a == LookUp(q, k, None);
    SleepFreeSame(s, s', s.lru, s.drive.None?);
    hide Without, Behind;
  }

  /** If every search for block k that fails is one that does not sleep, the block has one
      buffer at most, always. */
  lemma {:induction false} OneBuffer(configs: seq<Config>, actions: seq<Action>, m: nat, k: nat)
    requires Kernel(configs, actions) && m < |configs| && Inv(configs[0].s) && OneSearch(configs[0], k)
    requires forall i :: 0 <= i < m ==> PromptMiss(configs[i].s, actions[i], k)
    ensures Inv(configs[m].s) && OneSearch(configs[m], k)
    ensures forall i :: 0 <= i < m ==> !Doubles(configs[i].s, actions[i], k)
    decreases m
  {
    hide Inv, OneSearch, Enabled, Next, PromptMiss, Doubles, GoesOn, Who;
    if m > 0 {
      OneBuffer(configs, actions, m - 1, k);
      assert May(configs[m - 1], actions[m - 1]) && configs[m - 1 + 1] == Step(configs[m - 1], actions[m - 1]);
      assert PromptMiss(configs[m - 1].s, actions[m - 1], k);
      StepInv(configs[m - 1].s, actions[m - 1]);
      SearchStep(configs[m - 1], actions[m - 1], k);
    }
  }

  // ----- what the blocks hold in such runs -----

  /** The kernel at the start, with nobody in the middle of a stretch. */
  ghost predicate Boot(c: Config) { Init(c.s) && c.turn.None? }

  lemma BootSearch(c: Config, k: nat)
    requires Boot(c)
    ensures Inv(c.s) && OneSearch(c, k)
  {
    InitInv(c.s);
    hide Inv, LruOk;
  }

  /** A run in which no buffer is changed that the disk is busy with, and no search that
      fails is one that sleeps. */
  ghost predicate Careful(configs: seq<Config>, actions: seq<Action>) {
    && Kernel(configs, actions) && Boot(configs[0])
    && forall i :: 0 <= i < |actions| ==>
         && (actions[i].Modify? ==> Quiet(configs[i].s, actions[i].b))
         && (actions[i].LookUp? && actions[i].found.None? ==> Prompt(configs[i].s))
  }

  /** In such a run the buffers are coherent with the disk. */
  lemma {:induction false} RunCoherent(configs: seq<Config>, actions: seq<Action>, m: nat)
    requires Careful(configs, actions) && m < |configs|
    ensures Inv(configs[m].s) && Coherent(configs[m].s)
    decreases m
  {
    if m == 0 {
      InitInv(configs[0].s);
      NothingCached(configs[0].s);
    } else {
      CarefulStep(configs, actions, m - 1);
      RunCoherent(configs, actions, m - 1);
      hide *;
      StepCoherent(configs[m - 1].s, actions[m - 1]);
    }
  }

  lemma NothingCached(s: State)
    requires Init(s)
    ensures Coherent(s)
  {
    hide LruOk;
    forall k: nat ensures BlockOk(s, k) {}
  }

  lemma CarefulStep(configs: seq<Config>, actions: seq<Action>, m: nat)
    requires Careful(configs, actions) && m < |actions|
    ensures |configs| == |actions| + 1 && Enabled(configs[m].s, actions[m])
    ensures configs[m + 1].s == Next(configs[m].s, actions[m])
    ensures actions[m].Modify? ==> Quiet(configs[m].s, actions[m].b)
    ensures forall k: nat :: !Doubles(configs[m].s, actions[m], k)
  {
    assert May(configs[m], actions[m]) && configs[m + 1] == Step(configs[m], actions[m]);
    forall k: nat ensures !Doubles(configs[m].s, actions[m], k) { CarefulAlone(configs, actions, m, k); }
    hide Init, Enabled, Next, Quiet, Who, GoesOn, Prompt, Doubles;
  }

  lemma CarefulAlone(configs: seq<Config>, actions: seq<Action>, m: nat, k: nat)
    requires Careful(configs, actions) && m < |actions|
    ensures |configs| == |actions| + 1 && !Doubles(configs[m].s, actions[m], k)
  {
    hide Init, Enabled, Next, Quiet, Who, GoesOn, Prompt, OneSearch, Doubles;
    BootSearch(configs[0], k);
    forall i | 0 <= i < m + 1 ensures PromptMiss(configs[i].s, actions[i], k) {
      assert actions[i].LookUp? && actions[i].found.None? ==> Prompt(configs[i].s);
    }
    OneBuffer(configs, actions, m + 1, k);
    assert m < m + 1;
  }

  /** In a run of the kernel, from a change of a buffer that the disk is not busy with until
      the next change of that block, the block holds what was written, whatever is done to
      other blocks and whatever is written out, evicted and read again meanwhile, if every
      search for the block that fails is one that does not sleep. */
  lemma LastChangeSeen(configs: seq<Config>, actions: seq<Action>, m: nat, n: nat, k: nat)
    requires Kernel(configs, actions) && Boot(configs[0]) && m < n < |configs|
    requires actions[m].Modify? && Changes(configs[m].s, actions[m], k) && Quiet(configs[m].s, actions[m].b)
    requires forall i :: m < i < n ==> !Changes(configs[i].s, actions[i], k)
    requires forall i :: 0 <= i < n ==> PromptMiss(configs[i].s, actions[i], k)
    ensures Keeps(configs[n].s, k, actions[m].data)
  {
    BootSearch(configs[0], k);
    OneBuffer(configs, actions, m, k);
    OneBuffer(configs, actions, n, k);
    KernelGoes(configs, actions);
    var states := States(configs);
    hide Inv, Init, Enabled, Next, Quiet, Kernel, States;
    forall i | m < i < n ensures Alone(states[i], actions[i], k) {
      assert !Doubles(configs[i].s, actions[i], k) && !Changes(configs[i].s, actions[i], k);
    }
    ChangeStays(states, actions, m, n);
  }
}
