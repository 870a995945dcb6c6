/** Runs of the buffers from the start of the kernel in which a block comes to have two
    buffers, and in which a change of a buffer is lost. */
module DiskExamples {
  import opened Blocks
  import opened BufferSearch
  import opened DiskContents
  import opened DiskRequests
  import opened DoubleBuffers
  import opened Lists
  import opened Options

  function Unused(): Buffer { Buffer(0, Invalid, false, -1, ZeroBlock()) }

  /** Four buffers, three processes, and a disk of five blocks of zeros. */
  function Fresh(): State {
    State([Unused(), Unused(), Unused(), Unused()], [0, 0, 0, 0], [0, 1, 2, 3], [Elsewhere, Elsewhere, Elsewhere], {},
          None, [ZeroBlock(), ZeroBlock(), ZeroBlock(), ZeroBlock(), ZeroBlock()], 0, 0)
  }

  lemma FreshInit()
    ensures Init(Fresh()) && Boot(Config(Fresh(), None))
  {
  }

  /** Two steps of get_buffer for a block that has no buffer, where the oldest buffer is idle. */
  function Fetched(s: State, b: nat, k: nat): State
    requires b < |s.buffers| && b < |s.clients|
  {
    s.(buffers := s.buffers[b := s.buffers[b].(refCount := s.buffers[b].refCount + 1, state := Invalid, key := k)],
       clients := s.clients[b := s.clients[b] + 1], lru := Without(s.lru, b) + [b])
  }

  predicate CanFetch(s: State, p: nat, b: nat, k: nat) {
    && p < |s.procs| && s.procs[p] == Elsewhere && k < |s.disk| && NoneFor(s, k)
    && s.lru != [] && s.lru[0] == b && b < |s.buffers| && b < |s.clients| && Idle(s.buffers[b])
  }

  lemma Fetch(c: Config, acts: seq<Action>, s: State, p: nat, b: nat, k: nat) returns (acts': seq<Action>)
    requires Path(c, acts, Config(s, None)) && CanFetch(s, p, b, k)
    ensures b < |s.buffers| && b < |s.clients| && Path(c, acts', Config(Fetched(s, b, k), None))
  {
    var l, m := LookUp(p, k, None), Config(s.(procs := s.procs[p := Scanning(k, None)]), Some(p));
    LookUpStep(Config(s, None), p, k);
    Then(c, acts, Config(s, None), l);
    assert Candidate(m.s, p) == Some(b);
    assert m.s.procs[p := Elsewhere] == s.procs;
    assert Next(m.s, Evict(p)) == Fetched(s, b, k);
    hide Inv;
    Then(c, acts + [l], m, Evict(p));
    acts' := acts + [l] + [Evict(p)];
  }

  /** One step leads from the one to the other. */
  ghost predicate Leads(c: Config, a: Action, d: Config) { May(c, a) && Step(c, a) == d }

  lemma Add(c: Config, acts: seq<Action>, m: Config, a: Action, d: Config) returns (acts': seq<Action>)
    requires Path(c, acts, m) && Leads(m, a, d)
    ensures Path(c, acts', d)
  {
    hide Path, May, Step;
    Then(c, acts, m, a);
    acts' := acts + [a];
  }

  // ----- two buffers for one block -----

  function Dirtied(k: nat, d: Block): Buffer { Buffer(1, Dirty, false, k, d) }

  function Held(k: nat): Buffer { Buffer(1, Invalid, false, k, ZeroBlock()) }

  function Free(k: nat): Buffer { Buffer(0, Invalid, false, k, ZeroBlock()) }

  function With(buffers: seq<Buffer>, clients: seq<nat>, lru: seq<nat>): State {
    Fresh().(buffers := buffers, clients := clients, lru := lru)
  }

  /** Two dirty buffers and then two idle ones, and how they come about. */
  function Loading(i: nat, d: Block): State {
    if i == 0 then Fresh()
    else if i == 1 then With([Held(0), Unused(), Unused(), Unused()], [1, 0, 0, 0], [1, 2, 3, 0])
    else if i == 2 then With([Dirtied(0, d), Unused(), Unused(), Unused()], [1, 0, 0, 0], [1, 2, 3, 0])
    else if i == 3 then With([Dirtied(0, d), Held(1), Unused(), Unused()], [1, 1, 0, 0], [2, 3, 0, 1])
    else if i == 4 then With([Dirtied(0, d), Dirtied(1, d), Unused(), Unused()], [1, 1, 0, 0], [2, 3, 0, 1])
    else if i == 5 then With([Dirtied(0, d), Dirtied(1, d), Held(2), Unused()], [1, 1, 1, 0], [3, 0, 1, 2])
    else if i == 6 then With([Dirtied(0, d), Dirtied(1, d), Free(2), Unused()], [1, 1, 0, 0], [3, 0, 1, 2])
    else if i == 7 then With([Dirtied(0, d), Dirtied(1, d), Free(2), Held(3)], [1, 1, 0, 1], [0, 1, 2, 3])
    else With([Dirtied(0, d), Dirtied(1, d), Free(2), Free(3)], [1, 1, 0, 0], [0, 1, 2, 3])
  }

  lemma LoadingReady(i: nat, d: Block)
    requires i < 4
    ensures CanFetch(Loading(2 * i, d), 0, i, i) && |Loading(2 * i, d).buffers| == |Loading(2 * i, d).clients| == 4
    ensures Without(Loading(2 * i, d).lru, i) == Loading(2 * i, d).lru[1..]
  {
  }

  lemma LoadingFetches(i: nat, d: Block)
    requires i < 4
    ensures CanFetch(Loading(2 * i, d), 0, i, i) && |Loading(2 * i, d).buffers| == |Loading(2 * i, d).clients| == 4
    ensures Fetched(Loading(2 * i, d), i, i) == Loading(2 * i + 1, d)
  {
    LoadingReady(i, d);
    hide CanFetch, Without;
  }

  function Deed(i: nat, d: Block): Action { if i < 2 then Modify(i, d) else Release(i) }

  lemma LoadingDeeds(i: nat, d: Block)
    requires i < 4
    ensures Leads(Config(Loading(2 * i + 1, d), None), Deed(i, d), Config(Loading(2 * i + 2, d), None))
  {
  }

  lemma {:induction false} LoadedFrom(i: nat, d: Block) returns (acts: seq<Action>)
    requires i <= 4
    ensures Path(Config(Fresh(), None), acts, Config(Loading(2 * i, d), None))
    decreases i
  {
    if i == 0 {
      FreshInit();
      InitInv(Fresh());
      acts := [];
      hide Inv, Init;
    } else {
      var j := i - 1;
      LoadingFetches(j, d);
      LoadingDeeds(j, d);
      hide Loading, Fetched, CanFetch, Leads, Path, Deed;
      acts := LoadedFrom(j, d);
      acts := Fetch(Config(Fresh(), None), acts, Loading(2 * j, d), 0, j, j);
      acts := Add(Config(Fresh(), None), acts, Config(Loading(2 * j + 1, d), None), Deed(j, d),
                  Config(Loading(2 * j + 2, d), None));
      assert 2 * j + 2 == 2 * i;
    }
  }

  lemma NotPrompt(d: Block)
    ensures !Prompt(Loading(8, d)) && NoneFor(Loading(8, d), 4)
  {
    var s := Loading(8, d);
    assert s.lru[1..] == [1, 2, 3];
    assert !SleepFree(s, [1, 2, 3], false);
  }

  lemma LoadedIs(d: Block)
    ensures var s := Loading(8, d);
            && |s.procs| == 3 && |s.disk| == 5 && |s.buffers| == 4 && Idle(s.buffers[2]) && Idle(s.buffers[3])
            && forall r :: 0 <= r < |s.procs| ==> s.procs[r] == Elsewhere && !Searches(s.procs[r])
  {
  }

  /** From the start of the kernel: two processes look for block 4, which is in no buffer,
      and each comes to have a buffer for it. */
  lemma TwoBuffers(d: Block) returns (acts: seq<Action>, c: Config)
    ensures Init(Fresh()) && Path(Config(Fresh(), None), acts, c) && !OneFor(c.s, 4)
  {
    FreshInit();
    NotPrompt(d);
    LoadedIs(d);
    hide Loading, Init, Prompt, NoneFor, OneFor, Idle, Searches, Fresh;
    var front := LoadedFrom(4, d);
    assert Inv(Loading(8, d));
    hide Path, Inv;
    var back;
    back, c := Doubled(Loading(8, d), 0, 1, 4, 2, 3);
    Extend(Config(Fresh(), None), front, Config(Loading(8, d), None), back, c);
    acts := front + back;
  }

  // ----- lost changes -----

  function InFlight(n: nat, k: nat): Buffer { Buffer(n, Invalid, true, k, ZeroBlock()) }

  /** Process 0 gets a buffer for block 0, asks for it to be read, and sleeps; process 1
      gets one for block 1 and waits for the drive. */
  function Reading(i: nat): Config {
    var r, q := Request(0, Read), Request(1, Read);
    var first := With([Held(0), Unused(), Unused(), Unused()], [1, 0, 0, 0], [1, 2, 3, 0]);
    var second := With([InFlight(2, 0), Held(1), Unused(), Unused()], [1, 1, 0, 0], [2, 3, 0, 1])
      .(drive := Some(r), accepted := 1, asleep := {0});
    if i == 0 then Config(first, None)
    else if i == 1 then
      Config(first.(buffers := [Buffer(2, Invalid, false, 0, ZeroBlock()), Unused(), Unused(), Unused()],
                    procs := [AtLock(r, Wait), Elsewhere, Elsewhere]), Some(0))
    else if i == 2 then
      Config(first.(buffers := [InFlight(2, 0), Unused(), Unused(), Unused()],
                    procs := [AtDrive(r, Wait), Elsewhere, Elsewhere]), Some(0))
    else if i == 3 then
      Config(first.(buffers := [InFlight(2, 0), Unused(), Unused(), Unused()], drive := Some(r), accepted := 1,
                    procs := [AtIo(0), Elsewhere, Elsewhere]), Some(0))
    else if i == 4 then
      Config(first.(buffers := [InFlight(2, 0), Unused(), Unused(), Unused()], drive := Some(r), accepted := 1,
                    procs := [AtIo(0), Elsewhere, Elsewhere], asleep := {0}), None)
    else if i == 5 then Config(second.(procs := [AtIo(0), Elsewhere, Elsewhere]), None)
    else if i == 6 then
      Config(second.(buffers := [InFlight(2, 0), Buffer(2, Invalid, false, 1, ZeroBlock()), Unused(), Unused()],
                     procs := [AtIo(0), AtLock(q, Wait), Elsewhere]), Some(1))
    else if i == 7 then
      Config(second.(buffers := [InFlight(2, 0), InFlight(2, 1), Unused(), Unused()],
                     procs := [AtIo(0), AtDrive(q, Wait), Elsewhere]), Some(1))
    else
      Config(second.(buffers := [InFlight(2, 0), InFlight(2, 1), Unused(), Unused()],
                     procs := [AtIo(0), AtDrive(q, Wait), Elsewhere], asleep := {0, 1}), None)
  }

  function Asked(i: nat): Action {
    if i == 0 then Start(0, Request(0, Read), true) else if i == 1 then Lock(0) else if i == 2 then Accept(0)
    else if i == 3 then Sleep(0) else if i == 5 then Start(1, Request(1, Read), true) else if i == 6 then Lock(1)
    else Sleep(1)
  }

  lemma FirstSteps(i: nat)
    requires i < 4
    ensures Leads(Reading(i), Asked(i), Reading(i + 1))
  {
    hide NoneFor, Without;
  }

  lemma SecondSteps(i: nat)
    requires 5 <= i < 8
    ensures Leads(Reading(i), Asked(i), Reading(i + 1))
  {
    hide NoneFor, Without;
  }

  lemma SecondFetch()
    ensures CanFetch(Reading(4).s, 1, 1, 1) && |Reading(4).s.buffers| == |Reading(4).s.clients| == 4
    ensures Config(Fetched(Reading(4).s, 1, 1), None) == Reading(5) && Reading(4).turn.None?
  {
    assert Without([1, 2, 3, 0], 1) == [2, 3, 0];
  }

  lemma FirstFetch()
    ensures CanFetch(Fresh(), 0, 0, 0) && |Fresh().buffers| == |Fresh().clients| == 4
    ensures Config(Fetched(Fresh(), 0, 0), None) == Reading(0)
  {
    assert Without([0, 1, 2, 3], 0) == [1, 2, 3];
  }

  lemma {:induction false} ReadingFrom(i: nat) returns (acts: seq<Action>)
    requires i <= 8
    ensures Path(Config(Fresh(), None), acts, Reading(i))
    decreases i
  {
    var c := Config(Fresh(), None);
    if i == 0 {
      FreshInit();
      InitInv(Fresh());
      FirstFetch();
      assert Path(c, [], c);
      hide Fresh, Path, CanFetch, Fetched, Reading, Inv, Init;
      acts := Fetch(c, [], Fresh(), 0, 0, 0);
    } else {
      hide *;
      acts := ReadingFrom(i - 1);
      if i == 5 {
        SecondFetch();
        acts := Fetch(c, acts, Reading(4).s, 1, 1, 1);
      } else {
        if i < 5 { FirstSteps(i - 1); } else { SecondSteps(i - 1); }
        acts := Add(c, acts, Reading(i - 1), Asked(i - 1), Reading(i));
      }
    }
  }

  /** A further process gets a buffer that is to be read, and would change it. */
  function Got(i: nat, b: nat): Config
    requires b < 2
  {
    var s := Reading(i).s;
    if b >= |s.buffers| || b >= |s.clients| then Reading(i) else
    Config(s.(buffers := s.buffers[b := s.buffers[b].(refCount := s.buffers[b].refCount + 1)],
              clients := s.clients[b := s.clients[b] + 1], lru := Without(s.lru, b) + [b]), None)
  }

  lemma GotBusy(i: nat, b: nat, p: nat, d: Block)
    requires (i == 4 && b == 0 && p == 1) || (i == 8 && b == 1 && p == 2)
    ensures Leads(Reading(i), LookUp(p, b, Some(b)), Got(i, b)) && Got(i, b).turn.None?
    ensures var s := Got(i, b).s;
            && Enabled(s, Modify(b, d)) && !Quiet(s, b) && s.buffers[b].key == b && s.drive == Some(Request(0, Read))
            && (d != ZeroBlock() ==> !OnDisk(s, b, d))
  {
    hide Without;
    assert i == 8 ==> Reads(Got(i, b).s.procs[1], 1);
  }

  lemma GotCoherent(i: nat, b: nat)
    requires (i == 4 && b == 0) || (i == 8 && b == 1)
    requires Shape(Got(i, b).s)
    ensures Coherent(Got(i, b).s)
  {
    hide Without;
    var s := Got(i, b).s;
    forall k: nat ensures BlockOk(s, k) {}
  }

  /** From the start: while the drive reads buffer 0 for process 0, process 1 gets the buffer
      and changes it (b is 0); or process 1 waits for the drive to read block 1 into buffer 1,
      and process 2 gets that and changes it (b is 1). Both changes are lost, the second one
      though its buffer is not at the drive. */
  lemma LostChange(b: nat, d: Block) returns (acts: seq<Action>, s: State)
    requires b < 2 && d != ZeroBlock()
    ensures Init(Fresh()) && Path(Config(Fresh(), None), acts, Config(s, None)) && Enabled(s, Modify(b, d))
    ensures s.drive == Some(Request(0, Read)) && s.buffers[b].key == b && !Survives(Next(s, Modify(b, d)), b, d)
  {
    FreshInit();
    var i, p := if b == 0 then 4 else 8, b + 1;
    hide Fresh, Init, Reading, Leads, Enabled, Next, Coherent, Survives, Quiet, Inv, Shape;
    acts := ReadingFrom(i);
    GotBusy(i, b, p, d);
    acts := Add(Config(Fresh(), None), acts, Reading(i), LookUp(p, b, Some(b)), Got(i, b));
    s := Got(i, b).s;
    assert Inv(s);
    InvShape(s);
    GotCoherent(i, b);
    SurvivesIffQuiet(s, b, d);
  }

  lemma InvShape(s: State)
    requires Inv(s)
    ensures Shape(s)
  {
  }
}
