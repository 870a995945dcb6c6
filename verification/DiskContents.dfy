/** What is in the buffers and on the disk while requests are in flight, and which
    changes of a buffer are kept. */
module DiskContents {
  import opened Blocks
  import opened DiskRequests
  import opened Options

  // ----- coherence -----

  /** Block k is d on the disk. */
  predicate OnDisk(s: State, k: int, d: Block) { 0 <= k < |s.disk| && s.disk[k] == d }

  /** A clean buffer holds what is on the disk, and what is at the drive to be
      written is there already; a buffer that is going to be read is neither dirty
      nor going to be written. */
  ghost predicate BufferOk(s: State, b: nat)
    requires Shape(s) && b < |s.buffers|
  {
    var x := s.buffers[b];
    && (x.state == Clean || s.drive == Some(Request(b, Write)) ==> OnDisk(s, x.key, x.data))
    && (s.drive == Some(Request(b, Read)) || (exists p :: 0 <= p < |s.procs| && Reads(s.procs[p], b)) ==>
          && x.state != Dirty && s.drive != Some(Request(b, Write))
          && forall p :: 0 <= p < |s.procs| ==> !Writes(s.procs[p], b))
  }

  /** Not more than one buffer is for block k. */
  ghost predicate OneFor(s: State, k: int) {
    forall i, j ::
      0 <= i < |s.buffers| && 0 <= j < |s.buffers| && s.buffers[i].key == k && s.buffers[j].key == k ==> i == j
  }

  /** Block k has one buffer at most, and that is so. */
  ghost predicate BlockOk(s: State, k: int)
    requires Shape(s)
  {
    OneFor(s, k) && forall b :: 0 <= b < |s.buffers| && s.buffers[b].key == k ==> BufferOk(s, b)
  }

  ghost predicate Coherent(s: State)
    requires Shape(s)
  {
    forall k: nat :: BlockOk(s, k)
  }

  /** The step makes a second buffer be for block k. */
  predicate Doubles(s: State, a: Action, k: int) {
    && a.Evict? && Candidate(s, a.p).Some? && s.procs[a.p].key == k
    && exists i :: 0 <= i < |s.buffers| && i != Candidate(s, a.p).value && s.buffers[i].key == k
  }

  /** Nothing is going on at the disk that a change of buffer b would get lost in. */
  ghost predicate Quiet(s: State, b: nat) {
    && (s.drive.Some? ==> s.drive.value.b != b)
    && forall p :: 0 <= p < |s.procs| ==> !Reads(s.procs[p], b)
  }

  predicate Changes(s: State, a: Action, k: int) {
    a.Modify? && a.b < |s.buffers| && s.buffers[a.b].key == k
  }

  lemma ModifyBlockOk(s: State, b: nat, d: Block)
    requires AllCounted(s) && Enabled(s, Modify(b, d)) && Quiet(s, b) && OneFor(s, s.buffers[b].key)
    ensures var s' := Next(s, Modify(b, d)); Shape(s') && BlockOk(s', s.buffers[b].key)
  {
    StepShape(s, Modify(b, d));
    hide AllCounted;
  }

  lemma ClientBlockOk(s: State, a: Action, k: int)
    requires Inv(s) && BlockOk(s, k) && Enabled(s, a) && !Changes(s, a, k) && Shape(Next(s, a))
    requires a.LookUp? || a.Release? || a.Modify? || a.Sleep? || a.Pass?
    ensures BlockOk(Next(s, a), k)
  {
    hide AllCounted, LruOk, NoneForgotten, Ahead, NoneFor;
  }

  lemma DoneBlockOk(s: State, a: Action, k: int)
    requires Inv(s) && BlockOk(s, k) && Enabled(s, a) && a.Complete? && Shape(Next(s, a))
    ensures BlockOk(Next(s, a), k)
  {
    hide AllCounted, LruOk, NoneForgotten, StillAsleep, Candidate, NoneFor;
  }

  lemma EvictBlockOk(s: State, a: Action, k: int)
    requires Inv(s) && BlockOk(s, k) && Enabled(s, a) && a.Evict? && !Doubles(s, a, k) && Shape(Next(s, a))
    ensures BlockOk(Next(s, a), k)
  {
    UnusedIsIdle(s, Candidate(s, a.p).value);
    hide AllCounted, LruOk, NoneForgotten, Ahead, WritesHold;
  }

  lemma AskBlockOk(s: State, a: Action, k: int)
    requires Inv(s) && BlockOk(s, k) && Enabled(s, a) && (a.Start? || a.Lock? || a.WriteOut?) && Shape(Next(s, a))
    ensures BlockOk(Next(s, a), k)
  {
    hide AllCounted, LruOk, NoneForgotten, Ahead;
  }

  lemma DriveBlockOk(s: State, a: Action, k: int)
    requires Inv(s) && BlockOk(s, k) && Enabled(s, a) && (a.Accept? || a.Wake?) && Shape(Next(s, a))
    ensures BlockOk(Next(s, a), k)
  {
    hide AllCounted, LruOk, NoneForgotten;
  }

  lemma StepBlockOk(s: State, a: Action, k: int)
    requires Inv(s) && BlockOk(s, k) && Enabled(s, a) && (Changes(s, a, k) ==> Quiet(s, a.b)) && !Doubles(s, a, k)
    ensures Inv(Next(s, a)) && BlockOk(Next(s, a), k)
  {
    StepInv(s, a);
    if Changes(s, a, k) { ModifyBlockOk(s, a.b, a.data); }
    hide BlockOk, Enabled, Next, Quiet, Shape, Counted, Doubles;
    if a.Start? || a.Lock? || a.WriteOut? {
      AskBlockOk(s, a, k);
    } else if a.Accept? || a.Wake? {
      DriveBlockOk(s, a, k);
    } else if a.Evict? {
      EvictBlockOk(s, a, k);
    } else if !Changes(s, a, k) {
      if a.Complete? { DoneBlockOk(s, a, k); } else { ClientBlockOk(s, a, k); }
    }
  }

  lemma StepCoherent(s: State, a: Action)
    requires forall k: nat :: !Doubles(s, a, k)
    requires Inv(s) && Coherent(s) && Enabled(s, a) && (a.Modify? ==> Quiet(s, a.b))
    ensures Inv(Next(s, a)) && Coherent(Next(s, a))
  {
    StepInv(s, a);
    var s' := Next(s, a);
    hide Inv, BlockOk, Enabled, Next, Quiet;
    forall k: nat ensures BlockOk(s', k) { StepBlockOk(s, a, k); }
  }

  // ----- what becomes of a change -----

  predicate Current(s: State, b: int, k: int) {
    0 <= b < |s.buffers| && s.buffers[b].key == k && s.buffers[b].state != Invalid
  }

  /** Block k holds d: its buffer does, if it has one that is valid, and the disk
      does unless that buffer is still to be written. */
  ghost predicate Keeps(s: State, k: int, d: Block) {
    && 0 <= k < |s.disk|
    && (forall b :: Current(s, b, k) ==> s.buffers[b].data == d && (s.buffers[b].state == Clean ==> OnDisk(s, k, d)))
    && ((forall b :: !Current(s, b, k)) ==> OnDisk(s, k, d))
  }

  /** No step but a change of its buffer changes what a block holds. */
  lemma StepKeeps(s: State, a: Action, k: int, d: Block)
    requires Inv(s) && BlockOk(s, k) && Enabled(s, a) && Keeps(s, k, d) && !Changes(s, a, k) && !Doubles(s, a, k)
    ensures Keeps(Next(s, a), k, d)
  {
    var s' := Next(s, a);
    StepBlockOk(s, a, k);
    hide Inv, BlockOk, Enabled, Next, Changes, Doubles;
    forall b | Current(s', b, k)
      ensures s'.buffers[b].data == d && (s'.buffers[b].state == Clean ==> OnDisk(s', k, d))
    {
      CurrentKeeps(s, a, b, k, d);
    }
    if forall b :: !Current(s', b, k) { DiskKeeps(s, a, k, d); }
  }

  lemma CurrentKeeps(s: State, a: Action, b: nat, k: int, d: Block)
    requires Inv(s) && BlockOk(s, k) && Enabled(s, a) && Keeps(s, k, d) && !Changes(s, a, k)
    requires Inv(Next(s, a)) && BlockOk(Next(s, a), k) && Current(Next(s, a), b, k)
    ensures var s' := Next(s, a);
            s'.buffers[b].data == d && (s'.buffers[b].state == Clean ==> OnDisk(s', k, d))
  {
    StepShape(s, a);
    hide Counted, LruOk, NoneForgotten, StillAsleep, Ahead, NoneFor;
    var s' := Next(s, a);
    assert BufferOk(s', b);
    if Current(s, b, k) {
      assert BufferOk(s, b);
    } else {
      ReadIn(s, a, b, k);
      assert forall x :: !Current(s, x, k);
    }
  }

  /** A buffer comes to hold its block when it has been read. */
  lemma ReadIn(s: State, a: Action, b: nat, k: int)
    requires Inv(s) && BlockOk(s, k) && Enabled(s, a) && !Changes(s, a, k)
    requires b < |s.buffers| == |Next(s, a).buffers| && Current(Next(s, a), b, k) && !Current(s, b, k)
    ensures a.Complete? && s.drive == Some(Request(b, Read)) && forall x :: !Current(s, x, k)
  {
    hide AllCounted, LruOk, NoneForgotten, StillAsleep, Ahead, NoneFor;
  }

  lemma DiskKeeps(s: State, a: Action, k: int, d: Block)
    requires Inv(s) && BlockOk(s, k) && Enabled(s, a) && Keeps(s, k, d) && !Changes(s, a, k)
    requires forall b :: !Current(Next(s, a), b, k)
    ensures OnDisk(Next(s, a), k, d)
  {
    StepShape(s, a);
    hide Counted, LruOk, NoneForgotten, StillAsleep, Ahead, NoneFor;
    if b :| Current(s, b, k) {
      assert !Current(Next(s, a), b, k);
      assert a.Evict? && Candidate(s, a.p) == Some(b) && BufferOk(s, b);
    } else if a.Accept? {
      var b := s.procs[a.p].r.b;
      assert s.procs[a.p].r.command == Write ==> Writes(s.procs[a.p], b) && Current(s, b, s.buffers[b].key);
    }
  }

  /** Block k is not changed and gets no second buffer. */
  ghost predicate Alone(s: State, a: Action, k: int) { !Changes(s, a, k) && !Doubles(s, a, k) }

  ghost predicate Unchanged(states: seq<State>, actions: seq<Action>, from: nat, k: int) {
    |states| == |actions| + 1 && forall i :: from <= i < |actions| ==> Alone(states[i], actions[i], k)
  }

  lemma {:induction false} GoesOnKeeping(states: seq<State>, actions: seq<Action>, m: nat, n: nat, k: int, d: Block)
    requires Goes(states, actions) && m <= n < |states| && Inv(states[m]) && BlockOk(states[m], k)
    requires Keeps(states[m], k, d) && forall i :: m <= i < n ==> Alone(states[i], actions[i], k)
    ensures Inv(states[n]) && BlockOk(states[n], k) && Keeps(states[n], k, d)
    decreases n
  {
    hide Inv, BlockOk, Enabled, Next, Keeps, Changes, Quiet;
    if m < n {
      GoesOnKeeping(states, actions, m, n - 1, k, d);
      assert states[n - 1 + 1] == Next(states[n - 1], actions[n - 1]) && Alone(states[n - 1], actions[n - 1], k);
      StepBlockOk(states[n - 1], actions[n - 1], k);
      StepKeeps(states[n - 1], actions[n - 1], k, d);
    }
  }

  lemma ModifyKeeps(s: State, b: nat, d: Block)
    requires Inv(s) && Enabled(s, Modify(b, d)) && OneFor(s, s.buffers[b].key)
    ensures Inv(Next(s, Modify(b, d))) && Keeps(Next(s, Modify(b, d)), s.buffers[b].key, d)
  {
    ClientHas(s, b);
    StepInv(s, Modify(b, d));
    assert Current(Next(s, Modify(b, d)), b, s.buffers[b].key);
  }

  /** From a change of a buffer that the disk is not busy with until the next change of
      that block, the block holds what was written, whatever is done to other blocks and
      whatever is written out, evicted and read again meanwhile, as long as the block has
      one buffer at most. */
  lemma ChangeStays(states: seq<State>, actions: seq<Action>, m: nat, n: nat)
    requires Run(states, actions) && m < n < |states| && actions[m].Modify? && Quiet(states[m], actions[m].b)
    requires actions[m].b < |states[m].buffers|
    requires OneFor(states[m], states[m].buffers[actions[m].b].key)
    requires forall i :: m < i < n ==> Alone(states[i], actions[i], states[m].buffers[actions[m].b].key)
    ensures Keeps(states[n], states[m].buffers[actions[m].b].key, actions[m].data)
  {
    var a := actions[m];
    assert Enabled(states[m], a) && states[m + 1] == Next(states[m], a);
    assert a == Modify(a.b, a.data);
    RunInv(states, actions, m);
    ModifyBlockOk(states[m], a.b, a.data);
    ModifyKeeps(states[m], a.b, a.data);
    hide Inv, BlockOk, Enabled, Next, Keeps, Changes, Quiet;
    GoesOnKeeping(states, actions, m + 1, n, states[m].buffers[a.b].key, a.data);
  }

  // ----- which changes are kept -----

  /** Block k holds d from s on, whatever happens, unless it is changed. */
  ghost predicate Survives(s: State, k: int, d: Block) {
    forall states, actions ::
      Goes(states, actions) && states[0] == s && Unchanged(states, actions, 0, k) ==> Keeps(states[|actions|], k, d)
  }

  /** If it can get lost after a step, it can get lost. */
  lemma LostLater(s: State, a: Action, k: int, d: Block)
    requires Enabled(s, a) && Alone(s, a, k) && !Survives(Next(s, a), k, d)
    ensures !Survives(s, k, d)
  {
    hide Enabled, Next, Alone, Keeps;
    var states, actions :| Goes(states, actions) && states[0] == Next(s, a) && Unchanged(states, actions, 0, k)
      && !Keeps(states[|actions|], k, d);
    var states', actions' := [s] + states, [a] + actions;
    assert forall i :: 0 < i < |actions'| ==> actions'[i] == actions[i - 1] && states'[i] == states[i - 1];
    assert Goes(states', actions') && Unchanged(states', actions', 0, k);
  }

  lemma LostNow(s: State, k: int, d: Block)
    requires !Keeps(s, k, d)
    ensures !Survives(s, k, d)
  {
    assert Goes([s], []) && Unchanged([s], [], 0, k);
  }

  /** Buffer b of block k has been changed, to what the disk does not have. */
  ghost predicate Changed(s: State, b: nat, k: int, d: Block) {
    && Inv(s) && b < |s.buffers| && s.buffers[b].key == k && s.buffers[b].state == Dirty && s.buffers[b].data == d
    && 0 <= k < |s.disk| && s.disk[k] != d && OneFor(s, k)
  }

  /** When the drive is done with the buffer it counts as clean, although the disk
      does not have the change. */
  lemma LostAtDrive(s: State, b: nat, k: int, d: Block)
    requires Changed(s, b, k, d) && s.drive.Some? && s.drive.value.b == b
    ensures !Survives(s, k, d)
  {
    var w := SomeWoken(s);
    var s' := Next(s, Complete(w));
    assert Current(s', b, k) && s'.buffers[b].state == Clean && !OnDisk(s', k, d);
    LostNow(s', k, d);
    LostLater(s, Complete(w), k, d);
  }

  /** It is lost when a process that is to read the buffer gets the drive, */
  lemma LostAtAccept(s: State, p: nat, b: nat, k: int, d: Block)
    requires Changed(s, b, k, d) && Enabled(s, Accept(p)) && Reads(s.procs[p], b)
    ensures !Survives(s, k, d)
  {
    StepInv(s, Accept(p));
    LostAtDrive(Next(s, Accept(p)), b, k, d);
    LostLater(s, Accept(p), k, d);
  }

  /** which it does when the drive is done with what it has, */
  lemma LostAfterDrive(s: State, p: nat, b: nat, k: int, d: Block)
    requires Changed(s, b, k, d) && s.drive.Some? && p < |s.procs| && s.procs[p].AtDrive? && Reads(s.procs[p], b)
    ensures !Survives(s, k, d)
  {
    if s.drive.value.b == b {
      LostAtDrive(s, b, k, d);
    } else {
      DriveHas(s);
      var w := SomeWoken(s);
      var a := Complete(if p in s.asleep then p else w);
      assert p in s.asleep ==> DriveSleeper(s, p);
      StepInv(s, a);
      LostAtAccept(Next(s, a), p, b, k, d);
      LostLater(s, a, k, d);
    }
  }

  lemma {:induction false} OneLocks(procs: seq<Pc>, p: nat, q: nat, b: nat)
    requires p < |procs| && q < |procs| && p != q && HasLock(procs[p], b) > 0 && HasLock(procs[q], b) > 0
    ensures Locking(procs, b) >= 2
    decreases |procs|
  {
    if p > 0 && q > 0 {
      OneLocks(procs[1..], p - 1, q - 1, b);
    } else {
      var o := if p == 0 then q else p;
      assert procs[1..][o - 1] == procs[o];
      NoneLocks(procs[1..], b);
    }
  }

  /** or at once, or after another one that was awake. */
  lemma LostWithLock(s: State, p: nat, b: nat, k: int, d: Block)
    requires Changed(s, b, k, d) && p < |s.procs| && s.procs[p].AtDrive? && Reads(s.procs[p], b)
    ensures !Survives(s, k, d)
  {
    if s.drive.Some? {
      LostAfterDrive(s, p, b, k, d);
    } else if p !in s.asleep {
      LostAtAccept(s, p, b, k, d);
    } else {
      var q: nat :| AwakeAtDrive(s, q);
      assert s.procs[q].r.b != b by {
        assert Counted(s, b);
        if s.procs[q].r.b == b { OneLocks(s.procs, p, q, b); }
      }
      AskerHas(s, q);
      StepInv(s, Accept(q));
      LostAfterDrive(Next(s, Accept(q)), p, b, k, d);
      LostLater(s, Accept(q), k, d);
    }
  }

  lemma ReadsOrWrites(pc: Pc, b: nat)
    requires HasLock(pc, b) > 0
    ensures Reads(pc, b) || Writes(pc, b)
  {
    assert pc.r.command.Read? || pc.r.command.Write?;
  }

  /** A process that is to read the buffer gets the lock, or another that is to
      read it has it. */
  lemma LostToReader(s: State, p: nat, b: nat, k: int, d: Block)
    requires Changed(s, b, k, d) && p < |s.procs| && Reads(s.procs[p], b)
    requires forall q :: 0 <= q < |s.procs| ==> !Writes(s.procs[q], b)
    ensures !Survives(s, k, d)
  {
    if s.procs[p].AtDrive? {
      LostWithLock(s, p, b, k, d);
    } else if s.drive.Some? && s.drive.value.b == b {
      LostAtDrive(s, b, k, d);
    } else if s.buffers[b].locked {
      assert Counted(s, b);
      NoneLocks(s.procs, b);
      var q :| 0 <= q < |s.procs| && HasLock(s.procs[q], b) > 0;
      ReadsOrWrites(s.procs[q], b);
      LostWithLock(s, q, b, k, d);
    } else {
      StepInv(s, Lock(p));
      LostWithLock(Next(s, Lock(p)), p, b, k, d);
      LostLater(s, Lock(p), k, d);
    }
  }

  /** A block that holds on the disk and in its buffer what it was changed to
      stays so. */
  ghost predicate Same(s: State, k: int, d: Block) {
    Inv(s) && OnDisk(s, k, d) && forall b :: Current(s, b, k) ==> s.buffers[b].data == d
  }

  lemma StepSame(s: State, a: Action, k: int, d: Block)
    requires Same(s, k, d) && Enabled(s, a) && !Changes(s, a, k)
    ensures Same(Next(s, a), k, d)
  {
    StepInv(s, a);
    hide AllCounted, LruOk, NoneForgotten, StillAsleep;
    forall b: nat | Current(Next(s, a), b, k) ensures Next(s, a).buffers[b].data == d { BufferSame(s, a, b, k, d); }
    if a.Accept? && Writes(s.procs[a.p], s.procs[a.p].r.b) {
      assert s.buffers[s.procs[a.p].r.b].state != Invalid;
    }
  }

  lemma BufferSame(s: State, a: Action, b: nat, k: int, d: Block)
    requires Same(s, k, d) && Enabled(s, a) && !Changes(s, a, k) && Current(Next(s, a), b, k)
    ensures Next(s, a).buffers[b].data == d
  {
    hide AllCounted, NoneForgotten, LruOk, StillAsleep, Ahead, NoneFor;
    if !Current(s, b, k) { assert a.Complete? && s.drive.value.b == b; }
  }

  lemma {:induction false} StaysSame(states: seq<State>, actions: seq<Action>, n: nat, k: int, d: Block)
    requires Goes(states, actions) && n < |states| && Same(states[0], k, d) && Unchanged(states, actions, 0, k)
    ensures Same(states[n], k, d)
    decreases n
  {
    hide Same, Enabled, Next, Changes, Doubles;
    if n > 0 {
      StaysSame(states, actions, n - 1, k, d);
      assert states[n - 1 + 1] == Next(states[n - 1], actions[n - 1]) && Alone(states[n - 1], actions[n - 1], k);
      StepSame(states[n - 1], actions[n - 1], k, d);
    }
  }

  /** A change of a buffer is kept, whatever happens afterwards, if and only if the
      disk is not busy with the buffer and nobody is going to read it, or the disk
      has the same already. */
  lemma SurvivesIffQuiet(s: State, b: nat, d: Block)
    requires Inv(s) && Coherent(s) && Enabled(s, Modify(b, d))
    ensures Survives(Next(s, Modify(b, d)), s.buffers[b].key, d) <==> Quiet(s, b) || OnDisk(s, s.buffers[b].key, d)
  {
    ClientHas(s, b);
    assert BlockOk(s, s.buffers[b].key);
    if Quiet(s, b) {
      QuietSurvives(s, b, d);
    } else if OnDisk(s, s.buffers[b].key, d) {
      SameSurvives(s, b, d);
    } else {
      BusyLoses(s, b, d);
    }
  }

  lemma QuietSurvives(s: State, b: nat, d: Block)
    requires Inv(s) && Enabled(s, Modify(b, d)) && Quiet(s, b) && OneFor(s, s.buffers[b].key)
    ensures Survives(Next(s, Modify(b, d)), s.buffers[b].key, d)
  {
    var s', k := Next(s, Modify(b, d)), s.buffers[b].key;
    ModifyBlockOk(s, b, d);
    ModifyKeeps(s, b, d);
    hide Inv, BlockOk, Enabled, Next, Keeps, Changes, Quiet;
    forall states, actions | Goes(states, actions) && states[0] == s' && Unchanged(states, actions, 0, k)
      ensures Keeps(states[|actions|], k, d)
    {
      GoesOnKeeping(states, actions, 0, |actions|, k, d);
    }
  }

  lemma SameSurvives(s: State, b: nat, d: Block)
    requires Inv(s) && Enabled(s, Modify(b, d)) && OnDisk(s, s.buffers[b].key, d) && OneFor(s, s.buffers[b].key)
    ensures Survives(Next(s, Modify(b, d)), s.buffers[b].key, d)
  {
    var s', k := Next(s, Modify(b, d)), s.buffers[b].key;
    StepInv(s, Modify(b, d));
    assert Same(s', k, d);
    hide Inv, Enabled, Next, Changes;
    forall states, actions | Goes(states, actions) && states[0] == s' && Unchanged(states, actions, 0, k)
      ensures Keeps(states[|actions|], k, d)
    {
      StaysSame(states, actions, |actions|, k, d);
    }
  }

  lemma BusyLoses(s: State, b: nat, d: Block)
    requires Inv(s) && Coherent(s) && Enabled(s, Modify(b, d)) && !Quiet(s, b) && !OnDisk(s, s.buffers[b].key, d)
    ensures !Survives(Next(s, Modify(b, d)), s.buffers[b].key, d)
  {
    var s', k := Next(s, Modify(b, d)), s.buffers[b].key;
    StepInv(s, Modify(b, d));
    ClientHas(s, b);
    assert BlockOk(s, k) && BufferOk(s, b);
    assert Changed(s', b, k, d);
    if s.drive.Some? && s.drive.value.b == b {
      LostAtDrive(s', b, k, d);
    } else {
      var p :| 0 <= p < |s.procs| && Reads(s.procs[p], b);
      LostToReader(s', p, b, k, d);
    }
  }
}
