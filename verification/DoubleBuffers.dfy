/** What follows when get_buffer sleeps: another process can look for the same block
    meanwhile, and then the block gets two buffers. */
module DoubleBuffers {
  import opened Blocks
  import opened BufferSearch
  import opened DiskContents
  import opened DiskRequests
  import opened Lists
  import opened Options

  // ----- what can be done from a configuration -----

  /** Where these steps lead, if they can be taken. */
  function Play(c: Config, actions: seq<Action>): Option<Config>
    decreases |actions|
  {
    if actions == [] then Some(c)
    else if May(c, actions[0]) then Play(Step(c, actions[0]), actions[1..]) else None
  }

  lemma {:induction false} PlayOn(c: Config, front: seq<Action>, back: seq<Action>)
    ensures Play(c, front + back) == match Play(c, front) case None => None case Some(d) => Play(d, back)
    decreases |front|
  {
    hide May, Step;
    if front == [] {
      assert front + back == back;
    } else {
      assert (front + back)[1..] == front[1..] + back;
      if May(c, front[0]) { PlayOn(Step(c, front[0]), front[1..], back); }
    }
  }

  lemma PlayOne(c: Config, a: Action)
    requires May(c, a)
    ensures Play(c, [a]) == Some(Step(c, a))
  {
    hide May, Step;
  }

  /** A path from c to d. */
  ghost predicate Path(c: Config, actions: seq<Action>, d: Config) { Play(c, actions) == Some(d) && Inv(d.s) }

  lemma Extend(c: Config, front: seq<Action>, d: Config, back: seq<Action>, e: Config)
    requires Path(c, front, d) && Path(d, back, e)
    ensures Path(c, front + back, e)
  {
    PlayOn(c, front, back);
    hide Inv;
  }

  lemma First(c: Config, a: Action)
    requires Inv(c.s) && May(c, a)
    ensures Path(c, [a], Step(c, a))
  {
    PlayOne(c, a);
    StepInv(c.s, a);
    hide Inv, Enabled, Next;
  }

  lemma Then(c: Config, front: seq<Action>, d: Config, a: Action)
    requires Path(c, front, d) && May(d, a)
    ensures Path(c, front + [a], Step(d, a))
  {
    First(d, a);
    Extend(c, front, d, [a], Step(d, a));
  }

  // ----- what is kept while others are served -----

  /** The process is in get_buffer and has not found its block. */
  predicate Searches(pc: Pc) { pc.Scanning? || ((pc.AtLock? || pc.AtDrive?) && pc.after.Scan?) }

  /** Buffers are for the same blocks, in the same order and held by the same clients, idle
      ones are idle still, and of the processes in get_buffer only p has moved. */
  ghost predicate Kept(s: State, t: State, p: nat) {
    && |t.buffers| == |s.buffers| && |t.procs| == |s.procs| && t.lru == s.lru && |t.disk| == |s.disk|
    && t.clients == s.clients
    && (forall b :: 0 <= b < |s.buffers| ==>
          t.buffers[b].key == s.buffers[b].key && (Idle(s.buffers[b]) ==> Idle(t.buffers[b])))
    && (forall r :: 0 <= r < |s.procs| && r != p ==>
          if Searches(s.procs[r]) then t.procs[r] == s.procs[r] else !Searches(t.procs[r]))
  }

  lemma KeptSelf(s: State, p: nat)
    ensures Kept(s, s, p)
  {
  }

  lemma KeptOn(s: State, t: State, u: State, p: nat)
    requires Kept(s, t, p) && Kept(t, u, p)
    ensures Kept(s, u, p)
  {
    hide Searches, Idle;
  }

  /** Processes in get_buffer other than p wait for a lock. */
  ghost predicate Calm(s: State, p: nat) {
    forall r :: 0 <= r < |s.procs| && r != p && Searches(s.procs[r]) ==> s.procs[r].AtLock?
  }

  lemma CalmOn(s: State, t: State, p: nat)
    requires Calm(s, p) && Kept(s, t, p)
    ensures Calm(t, p)
  {
    hide Searches, Idle;
  }

  /** These steps take no buffer for a block and pass none. */
  predicate Serves(a: Action) { a.Sleep? || a.Lock? || a.Accept? || a.Complete? }

  lemma ServesKeeps(s: State, a: Action, p: nat)
    requires Inv(s) && Enabled(s, a) && Serves(a)
    requires (a.Lock? || a.Accept?) && a.p != p ==> a.Accept? && !Searches(s.procs[a.p])
    ensures Kept(s, Next(s, a), p)
  {
    if a.Lock? || a.Accept? { AskerHas(s, a.p); }
    if a.Complete? { DriveHas(s); }
    hide AllCounted, LruOk, WritesHold, NoneForgotten, StillAsleep;
  }

  /** The end of a request: who is awake afterwards. */
  lemma CompleteWakes(c: Config, w: nat)
    requires Inv(c.s) && c.turn.None? && May(c, Complete(w))
    ensures var d := Step(c, Complete(w));
            && d.turn.None? && d.s.drive.None? && d.s.procs == c.s.procs
            && !d.s.buffers[c.s.drive.value.b].locked
            && (forall b :: 0 <= b < |c.s.buffers| && b != c.s.drive.value.b ==> d.s.buffers[b] == c.s.buffers[b])
            && (forall p: nat :: p !in c.s.asleep ==> p !in d.s.asleep)
            && (DriveSleeper(c.s, w) ==> w !in d.s.asleep)
            && (forall p: nat :: p < |c.s.procs| && WaitsFor(c.s.procs[p], c.s.drive.value.b) ==> p !in d.s.asleep)
  {
    hide AllCounted, LruOk, WritesHold, NoneForgotten;
  }

  /** The drive finishes, and p, if it sleeps there, is the one that is woken. */
  lemma Finish(c: Config, p: nat) returns (actions: seq<Action>, d: Config)
    requires Inv(c.s) && c.turn.None? && c.s.drive.Some? && p < |c.s.procs|
    ensures Path(c, actions, d) && d.turn.None? && d.s.drive.None? && d.s.procs == c.s.procs
    ensures forall x: nat :: Kept(c.s, d.s, x)
    ensures c.s.procs[p].AtDrive? || WaitsFor(c.s.procs[p], c.s.drive.value.b) ==> p !in d.s.asleep
    ensures c.s.drive.value.b < |d.s.buffers| && !d.s.buffers[c.s.drive.value.b].locked
    ensures forall b :: 0 <= b < |c.s.buffers| && b != c.s.drive.value.b ==> d.s.buffers[b] == c.s.buffers[b]
  {
    DriveHas(c.s);
    var w := SomeWoken(c.s);
    var a := Complete(if DriveSleeper(c.s, p) then p else w);
    actions, d := [a], Step(c, a);
    First(c, a);
    CompleteWakes(c, a.woken);
    forall x: nat ensures Kept(c.s, d.s, x) { ServesKeeps(c.s, a, x); }
    hide Inv, Next, Kept;
  }

  /** A process that has the lock and is not in get_buffer takes the drive, and then
      sleeps or returns. */
  lemma TakeDrive(c: Config, q: nat, p: nat) returns (actions: seq<Action>, d: Config)
    requires Inv(c.s) && c.turn.None? && AwakeAtDrive(c.s, q) && c.s.drive.None? && q != p && p < |c.s.procs|
    requires !Searches(c.s.procs[q])
    ensures Path(c, actions, d) && d.turn.None? && d.s.drive == Some(c.s.procs[q].r) && Kept(c.s, d.s, p)
    ensures d.s.buffers == c.s.buffers && (p in d.s.asleep <==> p in c.s.asleep) && d.s.procs[p] == c.s.procs[p]
    ensures forall r :: 0 <= r < |c.s.procs| && r != q ==> d.s.procs[r] == c.s.procs[r]
  {
    AskerHas(c.s, q);
    var b := c.s.procs[q].r.b;
    HolderLocks(c.s, q);
    First(c, Accept(q));
    ServesKeeps(c.s, Accept(q), p);
    actions, d := [Accept(q)], Step(c, Accept(q));
    if d.turn.Some? {
      assert d.s.procs[q] == AtIo(b) && d.s.buffers[b].locked;
      ServesKeeps(d.s, Sleep(q), p);
      Then(c, actions, d, Sleep(q));
      KeptOn(c.s, d.s, Next(d.s, Sleep(q)), p);
      actions, d := actions + [Sleep(q)], Step(d, Sleep(q));
    }
    hide Inv, Kept;
  }

  lemma HolderLocks(s: State, q: nat)
    requires AllCounted(s) && q < |s.procs| && s.procs[q].AtDrive?
    ensures s.buffers[s.procs[q].r.b].locked
  {
    var b := s.procs[q].r.b;
    NoneLocks(s.procs, b);
    assert HasLock(s.procs[q], b) == 1 && Counted(s, b);
  }

  /** Process r, which has a lock, comes to be awake with the drive free. It is p, or
      one that has the lock p waits for. */
  lemma ToDrive(c: Config, r: nat, p: nat) returns (actions: seq<Action>, d: Config)
    requires Inv(c.s) && c.turn.None? && r < |c.s.procs| && p < |c.s.procs| && c.s.procs[r].AtDrive? && Calm(c.s, p)
    requires r == p || (!Searches(c.s.procs[r]) && c.s.procs[p].AtLock?)
    ensures Path(c, actions, d) && d.turn.None? && d.s.drive.None? && AwakeAtDrive(d.s, r) && Kept(c.s, d.s, p)
    ensures d.s.procs[r] == c.s.procs[r] && d.s.procs[p] == c.s.procs[p]
  {
    if c.s.drive.Some? {
      actions, d := Finish(c, r);
    } else if r !in c.s.asleep {
      actions, d := [], c;
      KeptSelf(c.s, p);
    } else {
      var q: nat :| AwakeAtDrive(c.s, q);
      assert q != p && q != r;
      assert !Searches(c.s.procs[q]);
      hide Inv, Kept, Calm;
      var front, m := TakeDrive(c, q, p);
      var back, e := Finish(m, r);
      Extend(c, front, m, back, e);
      KeptOn(c.s, m.s, e.s, p);
      actions, d := front + back, e;
    }
    hide Inv, Kept, Calm;
  }

  /** The lock p waits for comes to be free, and p awake. */
  lemma Unlock(c: Config, p: nat) returns (actions: seq<Action>, d: Config)
    requires Inv(c.s) && c.turn.None? && p < |c.s.procs| && c.s.procs[p].AtLock? && Calm(c.s, p)
    requires c.s.buffers[c.s.procs[p].r.b].locked
    ensures Path(c, actions, d) && d.turn.None? && d.s.drive.None? && p !in d.s.asleep && Kept(c.s, d.s, p)
    ensures d.s.procs[p] == c.s.procs[p] && c.s.procs[p].r.b < |d.s.buffers| && !d.s.buffers[c.s.procs[p].r.b].locked
  {
    var b := c.s.procs[p].r.b;
    if c.s.drive.Some? && c.s.drive.value.b == b {
      actions, d := Finish(c, p);
    } else {
      assert Counted(c.s, b);
      NoneLocks(c.s.procs, b);
      var r :| 0 <= r < |c.s.procs| && HasLock(c.s.procs[r], b) > 0;
      assert r != p && !Searches(c.s.procs[r]);
      hide Inv, Kept, Calm;
      var front, m := ToDrive(c, r, p);
      var middle, n := TakeDrive(m, r, p);
      var back, e := Finish(n, p);
      Extend(c, front, m, middle, n);
      Extend(c, front + middle, n, back, e);
      KeptOn(c.s, m.s, n.s, p);
      KeptOn(c.s, n.s, e.s, p);
      actions, d := front + middle + back, e;
    }
    hide Inv, Kept, Calm;
  }

  /** Process p in get_buffer for block k waits to write a buffer. */
  predicate Parked(s: State, p: nat, k: nat) {
    p < |s.procs| && (s.procs[p].AtLock? || s.procs[p].AtDrive?) && s.procs[p].after == Scan(k)
  }

  /** Its request is taken, and it goes on behind that buffer. */
  lemma ServeAtDrive(c: Config, p: nat, k: nat) returns (actions: seq<Action>, d: Config)
    requires Inv(c.s) && c.turn.None? && Parked(c.s, p, k) && c.s.procs[p].AtDrive? && Calm(c.s, p)
    ensures Path(c, actions, d) && d.turn == Some(p) && Kept(c.s, d.s, p) && p < |d.s.procs|
    ensures d.s.procs[p] == Scanning(k, Some(c.s.procs[p].r.b)) && p !in d.s.asleep
  {
    var front, m := ToDrive(c, p, p);
    AskerHas(m.s, p);
    Then(c, front, m, Accept(p));
    ServesKeeps(m.s, Accept(p), p);
    KeptOn(c.s, m.s, Next(m.s, Accept(p)), p);
    actions, d := front + [Accept(p)], Step(m, Accept(p));
    hide Inv, Kept, Calm;
  }

  lemma Serve(c: Config, p: nat, k: nat) returns (actions: seq<Action>, d: Config)
    requires Inv(c.s) && c.turn.None? && Parked(c.s, p, k) && Calm(c.s, p)
    ensures Path(c, actions, d) && d.turn == Some(p) && Kept(c.s, d.s, p) && p < |d.s.procs|
    ensures d.s.procs[p] == Scanning(k, Some(c.s.procs[p].r.b)) && p !in d.s.asleep
  {
    if c.s.procs[p].AtDrive? {
      actions, d := ServeAtDrive(c, p, k);
    } else {
      var front, m := [], c;
      KeptSelf(c.s, p);
      if c.s.buffers[c.s.procs[p].r.b].locked { front, m := Unlock(c, p); }
      assert !Blocked(m.s, p) && p !in m.s.asleep;
      Then(c, front, m, Lock(p));
      ServesKeeps(m.s, Lock(p), p);
      var n := Step(m, Lock(p));
      KeptOn(c.s, m.s, n.s, p);
      hide Inv, Kept, Calm;
      actions, d := ServeLocked(c, front + [Lock(p)], n, p, k);
    }
  }

  /** The end of that: p has just got the lock. */
  lemma ServeLocked(c: Config, front: seq<Action>, n: Config, p: nat, k: nat) returns (actions: seq<Action>, d: Config)
    requires Path(c, front, n) && n.turn == Some(p) && Kept(c.s, n.s, p) && Calm(c.s, p) && p !in n.s.asleep
    requires Parked(n.s, p, k) && n.s.procs[p].AtDrive?
    ensures Path(c, actions, d) && d.turn == Some(p) && Kept(c.s, d.s, p) && p < |d.s.procs|
    ensures d.s.procs[p] == Scanning(k, Some(n.s.procs[p].r.b)) && p !in d.s.asleep
  {
    CalmOn(c.s, n.s, p);
    AskerHas(n.s, p);
    if n.s.drive.None? {
      Then(c, front, n, Accept(p));
      ServesKeeps(n.s, Accept(p), p);
      actions, d := front + [Accept(p)], Step(n, Accept(p));
      KeptOn(c.s, n.s, d.s, p);
    } else {
      Then(c, front, n, Sleep(p));
      ServesKeeps(n.s, Sleep(p), p);
      var e := Step(n, Sleep(p));
      KeptOn(c.s, n.s, e.s, p);
      CalmOn(c.s, e.s, p);
      hide Inv, Kept, Calm;
      var back, f := ServeAtDrive(e, p, k);
      Extend(c, front + [Sleep(p)], e, back, f);
      KeptOn(c.s, e.s, f.s, p);
      actions, d := front + [Sleep(p)] + back, f;
    }
    hide Inv, Kept, Calm;
  }

  // ----- the scan -----

  /** What p's own steps do to buffers: dirty ones stay so, locks and references are added. */
  ghost predicate Added(s: State, t: State) {
    && |t.buffers| == |s.buffers|
    && forall b :: 0 <= b < |s.buffers| ==>
         && t.buffers[b].state == s.buffers[b].state && t.buffers[b].refCount >= s.buffers[b].refCount
         && (s.buffers[b].locked ==> t.buffers[b].locked)
  }

  lemma AddedOn(s: State, t: State, u: State)
    requires Added(s, t) && Added(t, u)
    ensures Added(s, u)
  {
  }

  /** A step of p's scan that takes no buffer. */
  lemma ScanKeeps(s: State, a: Action, p: nat)
    requires Inv(s) && Enabled(s, a) && (a == Pass(p) || a == WriteOut(p))
    ensures Kept(s, Next(s, a), p) && Added(s, Next(s, a))
    ensures p < |s.procs| && Next(s, a).asleep == s.asleep && Next(s, a).drive == s.drive
  {
    hide AllCounted, LruOk, WritesHold, NoneForgotten, Ahead;
  }

  lemma RequestAdds(s: State, a: Action, p: nat)
    requires Enabled(s, a) && (a == Lock(p) || a == Accept(p) || a == Sleep(p))
    ensures Added(s, Next(s, a))
  {
  }

  /** p has come to a dirty buffer and asks for it to be written. It sleeps, or goes on
      with its scan if lock and drive are free. */
  lemma AskDrive(c: Config, p: nat, k: nat) returns (actions: seq<Action>, d: Config)
    requires Inv(c.s) && c.turn == Some(p) && Parked(c.s, p, k) && c.s.procs[p].AtLock? && p !in c.s.asleep
    ensures Path(c, actions, d) && Kept(c.s, d.s, p) && Added(c.s, d.s) && p < |d.s.procs|
    ensures c.s.procs[p].r.b < |d.s.buffers| && d.s.buffers[c.s.procs[p].r.b].locked
    ensures if c.s.buffers[c.s.procs[p].r.b].locked || c.s.drive.Some?
            then d.turn.None? && Parked(d.s, p, k) && d.s.procs[p].r == c.s.procs[p].r
            else && d.turn == Some(p) && d.s.procs[p] == Scanning(k, Some(c.s.procs[p].r.b)) && p !in d.s.asleep
                 && d.s.drive.Some?
    ensures c.s.buffers[c.s.procs[p].r.b].locked ==> d.s.procs[p].AtLock?
    ensures forall b :: 0 <= b < |c.s.buffers| && b != c.s.procs[p].r.b ==> d.s.buffers[b] == c.s.buffers[b]
    ensures d.s.procs == c.s.procs[p := d.s.procs[p]] && forall a :: a in actions ==> !a.Evict?
  {
    AskerHas(c.s, p);
    if c.s.buffers[c.s.procs[p].r.b].locked {
      actions, d := [Sleep(p)], Step(c, Sleep(p));
      First(c, Sleep(p));
      ServesKeeps(c.s, Sleep(p), p);
      RequestAdds(c.s, Sleep(p), p);
      hide Inv, Kept, Added;
    } else {
      var m := LockFirst(c, p, k);
      hide Inv, Kept, Added;
      actions, d := AskLocked(c, m, p, k);
    }
  }

  lemma LockFirst(c: Config, p: nat, k: nat) returns (m: Config)
    requires Inv(c.s) && c.turn == Some(p) && Parked(c.s, p, k) && c.s.procs[p].AtLock? && p !in c.s.asleep
    requires c.s.procs[p].r.b < |c.s.buffers| && !c.s.buffers[c.s.procs[p].r.b].locked
    ensures Path(c, [Lock(p)], m) && m.turn == Some(p) && Kept(c.s, m.s, p) && Added(c.s, m.s) && p !in m.s.asleep
    ensures m.s.procs == c.s.procs[p := AtDrive(c.s.procs[p].r, Scan(k))] && m.s.drive == c.s.drive
    ensures m.s.buffers == c.s.buffers[c.s.procs[p].r.b := c.s.buffers[c.s.procs[p].r.b].(locked := true)]
  {
    m := Step(c, Lock(p));
    First(c, Lock(p));
    ServesKeeps(c.s, Lock(p), p);
    RequestAdds(c.s, Lock(p), p);
    hide Inv, Kept, Added;
  }

  lemma AskLocked(c: Config, m: Config, p: nat, k: nat) returns (actions: seq<Action>, d: Config)
    requires Path(c, [Lock(p)], m) && m.turn == Some(p) && Kept(c.s, m.s, p) && Added(c.s, m.s) && p !in m.s.asleep
    requires Parked(m.s, p, k) && m.s.procs[p].AtDrive?
    ensures Path(c, actions, d) && Kept(c.s, d.s, p) && Added(c.s, d.s) && p < |d.s.procs|
    ensures if m.s.drive.Some? then d.turn.None? && d.s.procs == m.s.procs
            else && d.turn == Some(p) && d.s.procs == m.s.procs[p := Scanning(k, Some(m.s.procs[p].r.b))]
                 && p !in d.s.asleep && d.s.drive.Some?
    ensures d.s.buffers == m.s.buffers && forall a :: a in actions ==> !a.Evict?
  {
    var a := if m.s.drive.Some? then Sleep(p) else Accept(p);
    AskerHas(m.s, p);
    Then(c, [Lock(p)], m, a);
    ServesKeeps(m.s, a, p);
    RequestAdds(m.s, a, p);
    actions, d := [Lock(p)] + [a], Step(m, a);
    KeptOn(c.s, m.s, d.s, p);
    AddedOn(c.s, m.s, d.s);
    hide Inv, Kept, Added;
  }

  /** p has taken buffer b for block k. */
  ghost predicate Took(s: State, t: State, p: nat, k: nat, b: nat) {
    && |t.buffers| == |s.buffers| && |t.procs| == |s.procs| && |t.disk| == |s.disk|
    && b < |s.buffers| && t.buffers[b].key == k && t.lru == Without(s.lru, b) + [b]
    && b < |s.clients| && s.clients[b] == 0 && t.clients == s.clients[b := 1]
    && (forall x :: 0 <= x < |s.buffers| && x != b ==>
          t.buffers[x].key == s.buffers[x].key && (Idle(s.buffers[x]) ==> Idle(t.buffers[x])))
    && p < |s.procs| && t.procs[p] == Elsewhere
    && (forall r :: 0 <= r < |s.procs| && r != p ==>
          if Searches(s.procs[r]) then t.procs[r] == s.procs[r] && (s.procs[r].AtLock? ==> s.procs[r].r.b != b)
          else !Searches(t.procs[r]))
  }

  lemma KeptTook(s: State, t: State, u: State, p: nat, k: nat, b: nat)
    requires Kept(s, t, p) && Took(t, u, p, k, b)
    ensures Took(s, u, p, k, b)
  {
    hide Idle, Searches, Without;
  }

  lemma EvictTakes(c: Config, p: nat, k: nat, b: nat)
    requires Inv(c.s) && c.turn == Some(p) && p < |c.s.procs| && c.s.procs[p].Scanning? && c.s.procs[p].key == k
    requires Candidate(c.s, p) == Some(b) && Idle(c.s.buffers[b])
    ensures May(c, Evict(p)) && Step(c, Evict(p)).turn.None? && Took(c.s, Step(c, Evict(p)).s, p, k, b)
  {
    forall r | 0 <= r < |c.s.procs| && c.s.procs[r].AtLock? ensures c.s.procs[r].r.b != b { AskerHas(c.s, r); }
    assert Counted(c.s, b);
    hide AllCounted, LruOk, WritesHold, NoneForgotten, Ahead;
  }

  /** p scans on and takes a buffer, or waits to write one; v is an idle buffer before it. */
  lemma {:induction false} ScanOn(c: Config, p: nat, k: nat, v: nat)
    returns (actions: seq<Action>, d: Config, took: Option<nat>)
    requires Inv(c.s) && c.turn == Some(p) && p < |c.s.procs| && c.s.procs[p].Scanning? && c.s.procs[p].key == k
    requires p !in c.s.asleep && v in Ahead(c.s, c.s.procs[p].passed) && v < |c.s.buffers| && Idle(c.s.buffers[v])
    ensures Path(c, actions, d) && d.turn.None?
    ensures took.Some? ==> Took(c.s, d.s, p, k, took.value)
    ensures took.None? ==>
              && Kept(c.s, d.s, p) && Parked(d.s, p, k) && v in Behind(d.s.lru, d.s.procs[p].r.b)
              && |Behind(d.s.lru, d.s.procs[p].r.b)| < |Ahead(c.s, c.s.procs[p].passed)|
    decreases |Ahead(c.s, c.s.procs[p].passed)|
  {
    var q := Ahead(c.s, c.s.procs[p].passed);
    AheadStep(c.s, c.s.procs[p].passed);
    ClientsAre(c.s);
    var x := q[0];
    if Idle(c.s.buffers[x]) {
      EvictTakes(c, p, k, x);
      First(c, Evict(p));
      actions, d, took := [Evict(p)], Step(c, Evict(p)), Some(x);
    } else {
      var front, m := PassOne(c, p, k);
      if m.turn.Some? {
        hide Inv, Kept, Added;
        var back;
        back, d, took := ScanOn(m, p, k, v);
        Extend(c, front, m, back, d);
        actions := front + back;
        if took.Some? { KeptTook(c.s, m.s, d.s, p, k, took.value); } else { KeptOn(c.s, m.s, d.s, p); }
      } else {
        actions, d, took := front, m, None;
      }
    }
    hide Inv, Kept, Took;
  }

  lemma ClientsAre(s: State)
    requires Inv(s)
    ensures |s.clients| == |s.buffers| && LruOk(s) && forall b :: 0 <= b < |s.buffers| ==> s.buffers[b].refCount >= 0
  {
    forall b | 0 <= b < |s.buffers| ensures s.buffers[b].refCount >= 0 { assert Counted(s, b); }
  }

  lemma WritesOut(c: Config, p: nat, x: nat)
    requires Inv(c.s) && May(c, WriteOut(p)) && Candidate(c.s, p) == Some(x)
    ensures var m := Step(c, WriteOut(p));
            && Parked(m.s, p, c.s.procs[p].key) && m.turn == Some(p)
            && m.s.procs == c.s.procs[p := AtLock(Request(x, Write), Scan(c.s.procs[p].key))]
            && m.s.buffers == c.s.buffers[x := c.s.buffers[x].(refCount := c.s.buffers[x].refCount + 1)]
  {
    hide Inv, Ahead;
    NotAsleepScan(c.s, p);
  }

  lemma NotAsleepScan(s: State, p: nat)
    requires Inv(s) && p < |s.procs| && s.procs[p].Scanning?
    ensures p !in s.asleep
  {
  }

  /** p gets past a buffer that is not idle, or waits to write it. */
  lemma PassOne(c: Config, p: nat, k: nat) returns (actions: seq<Action>, d: Config)
    requires Inv(c.s) && c.turn == Some(p) && p < |c.s.procs| && c.s.procs[p].Scanning? && c.s.procs[p].key == k
    requires p !in c.s.asleep && Ahead(c.s, c.s.procs[p].passed) != []
    requires Ahead(c.s, c.s.procs[p].passed)[0] < |c.s.buffers|
    requires !Idle(c.s.buffers[Ahead(c.s, c.s.procs[p].passed)[0]])
    ensures var q := Ahead(c.s, c.s.procs[p].passed);
            && Path(c, actions, d) && Kept(c.s, d.s, p) && Added(c.s, d.s) && p < |d.s.procs|
            && Behind(d.s.lru, q[0]) == q[1..]
            && (forall b :: 0 <= b < |c.s.buffers| && b != q[0] ==> d.s.buffers[b] == c.s.buffers[b])
            && (c.s.buffers[q[0]].state == Dirty ==> d.s.buffers[q[0]].locked)
            && (if c.s.buffers[q[0]].state == Dirty && (c.s.buffers[q[0]].locked || c.s.drive.Some?)
                then d.turn.None? && Parked(d.s, p, k) && d.s.procs[p].r.b == q[0]
                else d.turn == Some(p) && d.s.procs[p] == Scanning(k, Some(q[0])) && p !in d.s.asleep)
            && (c.s.buffers[q[0]].state == Dirty && c.s.buffers[q[0]].locked ==> d.s.procs[p].AtLock?)
            && (d.turn.Some? ==> d.s.drive.Some? <==> c.s.drive.Some? || c.s.buffers[q[0]].state == Dirty)
            && d.s.procs == c.s.procs[p := d.s.procs[p]] && forall a :: a in actions ==> !a.Evict?
  {
    var q := Ahead(c.s, c.s.procs[p].passed);
    AheadStep(c.s, c.s.procs[p].passed);
    ClientsAre(c.s);
    var x := q[0];
    if c.s.buffers[x].state == Dirty {
      var m := Step(c, WriteOut(p));
      First(c, WriteOut(p));
      ScanKeeps(c.s, WriteOut(p), p);
      WritesOut(c, p, x);
      hide Inv, Kept, Added, Next, Enabled;
      var back;
      back, d := AskDrive(m, p, k);
      Extend(c, [WriteOut(p)], m, back, d);
      KeptOn(c.s, m.s, d.s, p);
      AddedOn(c.s, m.s, d.s);
      SameLru(c.s, d.s, p);
      actions := [WriteOut(p)] + back;
    } else {
      actions, d := [Pass(p)], Step(c, Pass(p));
      First(c, Pass(p));
      ScanKeeps(c.s, Pass(p), p);
    }
    hide Inv, Kept, Added;
  }

  lemma SameLru(s: State, t: State, p: nat)
    requires Kept(s, t, p)
    ensures t.lru == s.lru
  {
  }

  /** A process that waits to write a buffer, with an idle one further on, comes to take
      a buffer. */
  lemma {:induction false} Hunt(c: Config, p: nat, k: nat, v: nat) returns (actions: seq<Action>, d: Config, b: nat)
    requires Inv(c.s) && c.turn.None? && Parked(c.s, p, k) && Calm(c.s, p)
    requires v < |c.s.buffers| && Idle(c.s.buffers[v]) && v in Behind(c.s.lru, c.s.procs[p].r.b)
    ensures Path(c, actions, d) && Inv(d.s) && d.turn.None? && Took(c.s, d.s, p, k, b)
    decreases |Behind(c.s.lru, c.s.procs[p].r.b)|
  {
    var front, m := Serve(c, p, k);
    KeptIdle(c.s, m.s, p, v);
    hide Inv, Kept, Took, Calm;
    var middle, n, took := ScanOn(m, p, k, v);
    Extend(c, front, m, middle, n);
    if took.Some? {
      actions, d, b := front + middle, n, took.value;
      KeptTook(c.s, m.s, d.s, p, k, b);
    } else {
      KeptIdle(m.s, n.s, p, v);
      KeptOn(c.s, m.s, n.s, p);
      CalmOn(c.s, n.s, p);
      var back;
      back, d, b := Hunt(n, p, k, v);
      Extend(c, front + middle, n, back, d);
      KeptTook(c.s, n.s, d.s, p, k, b);
      actions := front + middle + back;
    }
  }

  lemma KeptIdle(s: State, t: State, p: nat, v: nat)
    requires Kept(s, t, p) && v < |s.buffers| && Idle(s.buffers[v])
    ensures v < |t.buffers| && Idle(t.buffers[v]) && t.lru == s.lru
  {
  }

  // ----- searches that sleep -----

  /** The first buffer of these that is not passed is dirty and locked. */
  predicate LockedAhead(s: State, q: seq<nat>) {
    q != [] && q[0] < |s.buffers| &&
    var x := s.buffers[q[0]];
    if x.state == Dirty then x.locked else x.refCount > 0 && LockedAhead(s, q[1..])
  }

  lemma {:induction false} LockedNotFree(s: State, q: seq<nat>, driveFree: bool)
    requires LockedAhead(s, q)
    ensures !SleepFree(s, q, driveFree)
    decreases |q|
  {
    if s.buffers[q[0]].state != Dirty { LockedNotFree(s, q[1..], driveFree); }
  }

  lemma {:induction false} LockedStill(s: State, t: State, q: seq<nat>)
    requires LockedAhead(s, q) && Added(s, t)
    ensures LockedAhead(t, q)
    decreases |q|
  {
    if s.buffers[q[0]].state != Dirty { LockedStill(s, t, q[1..]); }
  }

  /** A scan that is not free of sleep comes to wait, before any idle buffer, and then
      nobody else gets past the first dirty buffer either. */
  lemma {:induction false} ScanParks(c: Config, p: nat, k: nat) returns (actions: seq<Action>, d: Config)
    requires Inv(c.s) && c.turn == Some(p) && p < |c.s.procs| && c.s.procs[p].Scanning? && c.s.procs[p].key == k
    requires p !in c.s.asleep && !SleepFree(c.s, Ahead(c.s, c.s.procs[p].passed), c.s.drive.None?)
    ensures Path(c, actions, d) && d.turn.None? && Kept(c.s, d.s, p) && Added(c.s, d.s) && Parked(d.s, p, k)
    ensures LockedAhead(d.s, Ahead(c.s, c.s.procs[p].passed))
    ensures LockedAhead(c.s, Ahead(c.s, c.s.procs[p].passed)) ==> d.s.procs[p].AtLock?
    ensures d.s.procs == c.s.procs[p := d.s.procs[p]] && forall a :: a in actions ==> !a.Evict?
    ensures forall v :: v in Ahead(c.s, c.s.procs[p].passed) && v < |c.s.buffers| && Idle(c.s.buffers[v]) ==>
              v in Behind(d.s.lru, d.s.procs[p].r.b)
    decreases |Ahead(c.s, c.s.procs[p].passed)|
  {
    var q := Ahead(c.s, c.s.procs[p].passed);
    assert q != [] && q[0] < |c.s.buffers|;
    AheadStep(c.s, c.s.procs[p].passed);
    ClientsAre(c.s);
    var front, m := PassOne(c, p, k);
    SleepFreeSame(c.s, m.s, q[1..], false);
    SleepFreeSame(c.s, m.s, q[1..], c.s.drive.None?);
    SameLru(c.s, m.s, p);
    if m.turn.Some? {
      assert Ahead(m.s, m.s.procs[p].passed) == q[1..];
      if LockedAhead(c.s, q) { LockedAfter(c.s, m.s, q); }
      hide Inv, Kept;
      var back;
      back, d := ScanParks(m, p, k);
      Extend(c, front, m, back, d);
      KeptOn(c.s, m.s, d.s, p);
      AddedOn(c.s, m.s, d.s);
      actions := front + back;
      forall v | v in q && v < |c.s.buffers| && Idle(c.s.buffers[v]) ensures v in Behind(d.s.lru, d.s.procs[p].r.b) {
        assert v in q[1..] && m.s.buffers[v] == c.s.buffers[v];
      }
    } else {
      actions, d := front, m;
    }
    hide Inv, Kept;
  }

  lemma LockedAfter(s: State, t: State, q: seq<nat>)
    requires LockedAhead(s, q) && s.buffers[q[0]].state != Dirty && Added(s, t)
    ensures LockedAhead(t, q[1..])
  {
    LockedStill(s, t, q[1..]);
  }

  // ----- two buffers -----

  /** While p is in get_buffer, q looks for the same block and does not find it. */
  ghost predicate Meanwhile(actions: seq<Action>, p: nat, q: nat, k: nat) {
    && actions != [] && actions[0] == LookUp(p, k, None)
    && exists j :: 0 < j < |actions| && actions[j] == LookUp(q, k, None) &&
                   forall i :: 0 <= i < j ==> actions[i] != Evict(p)
  }

  lemma {:induction false} BehindStays(q: seq<nat>, b: nat, f: nat, x: nat)
    requires Distinct(q) && x in Behind(q, f) && x != b && f != b
    ensures x in Behind(Without(q, b) + [b], f)
    decreases |q|
  {
    if q[0] == b {
      assert Without(q, b) + [b] == q[1..] + [b];
      BehindAdd(q[1..], b, f, x);
    } else {
      assert Without(q, b) + [b] == [q[0]] + (Without(q[1..], b) + [b]);
      assert ([q[0]] + (Without(q[1..], b) + [b]))[1..] == Without(q[1..], b) + [b];
      if q[0] == f {
        WithoutHas(q[1..], b, x);
      } else {
        assert Distinct(q[1..]) by { assert forall i :: 0 <= i < |q| - 1 ==> q[1..][i] == q[i + 1]; }
        BehindStays(q[1..], b, f, x);
      }
    }
  }

  lemma {:induction false} BehindAdd(q: seq<nat>, b: nat, f: nat, x: nat)
    requires x in Behind(q, f)
    ensures x in Behind(q + [b], f)
    decreases |q|
  {
    assert (q + [b])[1..] == q[1..] + [b];
    if q[0] != f { BehindAdd(q[1..], b, f, x); }
  }

  lemma {:induction false} WithoutHas(q: seq<nat>, b: nat, x: nat)
    requires x in q && x != b
    ensures x in Without(q, b)
    decreases |q|
  {
    if q[0] != b && q[0] != x { WithoutHas(q[1..], b, x); }
  }

  /** A look-up that finds nothing, by a process that is in no stretch. */
  lemma LookUpStep(c: Config, p: nat, k: nat)
    requires Inv(c.s) && c.turn.None? && p < |c.s.procs| && c.s.procs[p] == Elsewhere
    requires k < |c.s.disk| && NoneFor(c.s, k)
    ensures May(c, LookUp(p, k, None))
    ensures Step(c, LookUp(p, k, None)) == Config(c.s.(procs := c.s.procs[p := Scanning(k, None)]), Some(p))
    ensures p !in c.s.asleep
  {
    NotAsleep(c.s);
  }

  /** Where all but two processes are as they were, and those are in get_buffer, the one
      waiting for a lock, the other one can be left to go on. */
  lemma CalmWith(s: State, t: State, p: nat, q: nat)
    requires forall r :: 0 <= r < |s.procs| ==> !Searches(s.procs[r])
    requires |t.procs| == |s.procs| && forall r :: 0 <= r < |s.procs| && r != p && r != q ==> t.procs[r] == s.procs[r]
    requires q < |t.procs| && (t.procs[q].AtLock? || !Searches(t.procs[q]))
    ensures Calm(t, p)
  {
  }

  /** p looks for block k, does not find it, and sleeps in its scan. */
  lemma ParkOne(c: Config, p: nat, k: nat) returns (actions: seq<Action>, d: Config)
    requires Inv(c.s) && c.turn.None? && p < |c.s.procs| && c.s.procs[p] == Elsewhere
    requires k < |c.s.disk| && NoneFor(c.s, k) && !Prompt(c.s)
    ensures Path(c, actions, d) && d.turn.None? && Parked(d.s, p, k) && NoneFor(d.s, k) && Sames(c.s, d.s)
    ensures d.s.procs == c.s.procs[p := d.s.procs[p]] && LockedAhead(d.s, c.s.lru)
    ensures LockedAhead(c.s, c.s.lru) ==> d.s.procs[p].AtLock?
    ensures actions != [] && actions[0] == LookUp(p, k, None) && forall a :: a in actions ==> !a.Evict?
    ensures forall v :: v in c.s.lru && v < |c.s.buffers| && Idle(c.s.buffers[v]) ==>
              v in Behind(c.s.lru, d.s.procs[p].r.b)
  {
    var a := LookUp(p, k, None);
    LookUpStep(c, p, k);
    var m := Step(c, a);
    First(c, a);
    SleepFreeSame(c.s, m.s, c.s.lru, c.s.drive.None?);
    if LockedAhead(c.s, c.s.lru) { LockedStill(c.s, m.s, c.s.lru); }
    hide Inv, Enabled, Next, Step, May;
    var back;
    back, d := ScanParks(m, p, k);
    Extend(c, [a], m, back, d);
    KeptNone(m.s, d.s, p, k);
    actions := [a] + back;
    hide Kept, Added;
  }

  /** The same list and sizes, and idle buffers are idle still. */
  ghost predicate Sames(s: State, t: State) {
    && |t.buffers| == |s.buffers| && |t.disk| == |s.disk| && t.lru == s.lru
    && forall v :: 0 <= v < |s.buffers| && Idle(s.buffers[v]) ==> Idle(t.buffers[v])
  }

  lemma KeptNone(s: State, t: State, p: nat, k: nat)
    requires Kept(s, t, p)
    ensures (NoneFor(s, k) ==> NoneFor(t, k)) && Sames(s, t)
  {
    hide Searches, Idle;
  }

  /** p looks for block k and sleeps; q looks for it too, and sleeps. */
  lemma BothPark(s: State, p: nat, q: nat, k: nat) returns (actions: seq<Action>, d: Config)
    requires Inv(s) && p < |s.procs| && q < |s.procs| && p != q && s.procs[p] == Elsewhere && s.procs[q] == Elsewhere
    requires k < |s.disk| && NoneFor(s, k) && !Prompt(s)
    ensures Path(Config(s, None), actions, d) && Inv(d.s) && d.turn.None? && Meanwhile(actions, p, q, k)
    ensures Sames(s, d.s) && |d.s.procs| == |s.procs|
    ensures Parked(d.s, p, k) && Parked(d.s, q, k) && d.s.procs[q].AtLock?
    ensures d.s.procs == s.procs[p := d.s.procs[p]][q := d.s.procs[q]]
    ensures forall v :: v in s.lru && v < |s.buffers| && Idle(s.buffers[v]) ==>
              v in Behind(s.lru, d.s.procs[p].r.b) && v in Behind(s.lru, d.s.procs[q].r.b)
  {
    hide Inv, Enabled, Next, Step, May, Idle;
    var front, m := ParkOne(Config(s, None), p, k);
    LockedNotFree(m.s, s.lru, m.s.drive.None?);
    var back;
    back, d := ParkOne(m, q, k);
    Extend(Config(s, None), front, m, back, d);
    actions := front + back;
    assert actions[|front|] == back[0] && actions[0] == front[0];
    assert forall i :: 0 <= i < |front| ==> actions[i] == front[i] && front[i] in front;
  }

  lemma TwoFor(t: State, k: nat, a: nat, b: nat)
    requires a != b && a < |t.buffers| && b < |t.buffers| && t.buffers[a].key == k && t.buffers[b].key == k
    ensures !OneFor(t, k)
  {
  }

  lemma MeanwhileOn(front: seq<Action>, back: seq<Action>, p: nat, q: nat, k: nat)
    requires Meanwhile(front, p, q, k)
    ensures Meanwhile(front + back, p, q, k)
  {
    var j :| 0 < j < |front| && front[j] == LookUp(q, k, None) && forall i :: 0 <= i < j ==> front[i] != Evict(p);
    assert (front + back)[j] == front[j] && (front + back)[0] == front[0];
    assert forall i :: 0 <= i < j ==> (front + back)[i] == front[i];
  }

  /** When p has taken buffer b, an idle buffer other than b is idle still and as far
      behind the one that q waits for. */
  lemma AfterFirst(s: State, t: State, p: nat, q: nat, k: nat, b: nat, u: nat)
    requires Took(s, t, p, k, b) && LruOk(s) && p != q && Parked(s, q, k) && s.procs[q].AtLock?
    requires u != b && u < |s.buffers| && Idle(s.buffers[u]) && u in Behind(s.lru, s.procs[q].r.b)
    ensures Parked(t, q, k) && t.procs[q] == s.procs[q] && u < |t.buffers| && Idle(t.buffers[u])
    ensures u in Behind(t.lru, t.procs[q].r.b)
  {
    assert Searches(s.procs[q]);
    BehindStays(s.lru, b, s.procs[q].r.b, u);
    hide Without, Behind, Distinct;
  }

  lemma CalmAfter(s: State, t: State, u: State, p: nat, q: nat, k: nat, b: nat)
    requires forall r :: 0 <= r < |s.procs| ==> !Searches(s.procs[r])
    requires p < |s.procs| && q < |s.procs| && |t.procs| == |s.procs| && Took(t, u, p, k, b)
    requires t.procs == s.procs[p := t.procs[p]][q := t.procs[q]]
    ensures Calm(u, q)
  {
    hide Idle, Without;
  }

  lemma TookTwo(s: State, t: State, u: State, p: nat, q: nat, k: nat, b: nat, b': nat)
    requires Took(s, t, p, k, b) && Took(t, u, q, k, b')
    ensures !OneFor(u, k)
  {
    hide Idle, Searches, Without;
    TwoFor(u, k, b, b');
  }

  /** Both sleep, and p goes on and takes buffer b; u is an idle buffer for q. */
  lemma FirstTakes(s: State, p: nat, q: nat, k: nat, v: nat, w: nat)
      returns (actions: seq<Action>, m: Config, d: Config, b: nat, u: nat)
    requires Inv(s) && p < |s.procs| && q < |s.procs| && p != q && s.procs[p] == Elsewhere && s.procs[q] == Elsewhere
    requires k < |s.disk| && NoneFor(s, k) && !Prompt(s) && forall r :: 0 <= r < |s.procs| ==> !Searches(s.procs[r])
    requires v != w && v < |s.buffers| && w < |s.buffers| && Idle(s.buffers[v]) && Idle(s.buffers[w])
    ensures Path(Config(s, None), actions, d) && Inv(d.s) && d.turn.None? && Meanwhile(actions, p, q, k)
    ensures Took(m.s, d.s, p, k, b) && Parked(d.s, q, k) && Calm(d.s, q)
    ensures u < |d.s.buffers| && Idle(d.s.buffers[u]) && u in Behind(d.s.lru, d.s.procs[q].r.b)
  {
    ClientsAre(s);
    assert v in s.lru && w in s.lru;
    hide Inv, LruOk, Enabled, Next, Idle, Kept, Took, Calm, Path, Meanwhile, Prompt, Behind, NoneFor, OneFor;
    var front;
    front, m := BothPark(s, p, q, k);
    CalmWith(s, m.s, p, q);
    ClientsAre(m.s);
    var middle;
    middle, d, b := Hunt(m, p, k, v);
    u := if b == v then w else v;
    AfterFirst(m.s, d.s, p, q, k, b, u);
    CalmAfter(s, m.s, d.s, p, q, k, b);
    Extend(Config(s, None), front, m, middle, d);
    MeanwhileOn(front, middle, p, q, k);
    actions := front + middle;
  }

  /** Where nobody else is in get_buffer and two buffers are idle, both then take one. */
  lemma Doubled(s: State, p: nat, q: nat, k: nat, v: nat, w: nat) returns (actions: seq<Action>, d: Config)
    requires Inv(s) && p < |s.procs| && q < |s.procs| && p != q && s.procs[p] == Elsewhere && s.procs[q] == Elsewhere
    requires k < |s.disk| && NoneFor(s, k) && !Prompt(s) && forall r :: 0 <= r < |s.procs| ==> !Searches(s.procs[r])
    requires v != w && v < |s.buffers| && w < |s.buffers| && Idle(s.buffers[v]) && Idle(s.buffers[w])
    ensures Path(Config(s, None), actions, d) && Meanwhile(actions, p, q, k) && !OneFor(d.s, k)
  {
    hide *;
    var front, m, n, b, u := FirstTakes(s, p, q, k, v, w);
    var back, e, b' := Hunt(n, q, k, u);
    Extend(Config(s, None), front, n, back, e);
    MeanwhileOn(front, back, p, q, k);
    TookTwo(m.s, n.s, e.s, p, q, k, b, b');
    actions, d := front + back, e;
  }

  // ----- searches that do not sleep -----

  /** As long as p has taken no buffer, its search that is free of sleep goes on and nobody
      else can do anything. */
  lemma {:induction false} NobodyElse(c: Config, actions: seq<Action>, d: Config, p: nat, k: nat)
    requires Inv(c.s) && c.turn == Some(p) && Unhindered(c.s, p, k) && Play(c, actions) == Some(d)
    requires forall a :: a in actions ==> a != Evict(p)
    ensures d.turn == Some(p)
    decreases |actions|
  {
    if actions != [] {
      var a, m := actions[0], Step(c, actions[0]);
      assert a in actions && forall x :: x in actions[1..] ==> x in actions;
      StepInv(c.s, a);
      UnhinderedStep(c.s, a, p, k);
      assert GoesOn(m.s, p) && m.turn == Some(p) by { UnhinderedGoes(m.s, p, k); }
      hide Inv, Unhindered, Enabled, Next;
      NobodyElse(m, actions[1..], d, p, k);
    }
  }

  lemma UnhinderedGoes(s: State, p: nat, k: nat)
    requires Unhindered(s, p, k)
    ensures GoesOn(s, p)
  {
    hide SleepFree, NoneFor;
  }

  /** If the search is free of sleep, nobody looks for the block meanwhile. */
  lemma NotMeanwhile(s: State, p: nat, q: nat, k: nat, actions: seq<Action>, d: Config)
    requires Inv(s) && p < |s.procs| && p != q && s.procs[p] == Elsewhere && k < |s.disk| && NoneFor(s, k)
    requires Prompt(s) && Path(Config(s, None), actions, d)
    ensures !Meanwhile(actions, p, q, k)
  {
    var c, l := Config(s, None), LookUp(p, k, None);
    if Meanwhile(actions, p, q, k) {
      var j :| 0 < j < |actions| && actions[j] == LookUp(q, k, None) &&
               forall i :: 0 <= i < j ==> actions[i] != Evict(p);
      LookUpStep(c, p, k);
      var m := Step(c, l);
      First(c, l);
      SleepFreeSame(s, m.s, s.lru, s.drive.None?);
      assert Unhindered(m.s, p, k);
      hide Inv, Unhindered, Enabled, Next, Step;
      PlayParts(c, actions, j);
      var e := Play(m, actions[1..j]).value;
      NobodyElse(m, actions[1..j], e, p, k);
    }
  }

  lemma PlayParts(c: Config, actions: seq<Action>, j: nat)
    requires Play(c, actions).Some? && 0 < j < |actions|
    ensures May(c, actions[0]) && Play(Step(c, actions[0]), actions[1..j]).Some?
    ensures May(Play(Step(c, actions[0]), actions[1..j]).value, actions[j])
  {
    hide May, Step;
    assert actions[1..] == actions[1..j] + actions[j..];
    PlayOn(Step(c, actions[0]), actions[1..j], actions[j..]);
    assert actions[j..][0] == actions[j];
  }

  /** Nobody is in get_buffer, two buffers are idle, and p looks for a block that has no
      buffer. The block can come to have two buffers by another process' looking for it
      meanwhile if and only if the search is not free of sleep. */
  lemma DoubledIffSleeps(s: State, p: nat, q: nat, k: nat, v: nat, w: nat)
    requires Inv(s) && p < |s.procs| && q < |s.procs| && p != q && s.procs[p] == Elsewhere && s.procs[q] == Elsewhere
    requires k < |s.disk| && NoneFor(s, k) && forall r :: 0 <= r < |s.procs| ==> !Searches(s.procs[r])
    requires v != w && v < |s.buffers| && w < |s.buffers| && Idle(s.buffers[v]) && Idle(s.buffers[w])
    ensures (exists actions, d ::
               Path(Config(s, None), actions, d) && Meanwhile(actions, p, q, k) && !OneFor(d.s, k)) <==>
            !Prompt(s)
  {
    hide *;
    if Prompt(s) {
      forall actions, d | Path(Config(s, None), actions, d) ensures !Meanwhile(actions, p, q, k) {
        NotMeanwhile(s, p, q, k, actions, d);
      }
    } else {
      var actions, d := Doubled(s, p, q, k, v, w);
    }
  }
}
