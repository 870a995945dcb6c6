/** A pipe under any number of readers and writers: pipe_read and pipe_write of
    pipe.c, turn by turn of their loops, in every interleaving. */
module PipeRuns {
  import opened Division
  import opened Lists

  /** What a turn ends in: sleep, some bytes read or written, or EPIPE. */
  datatype Outcome = Sleep | Got(data: seq<char>) | Took(count: nat) | Broken

  function Min(a: nat, b: nat): nat { if a <= b then a else b }

  /** One turn of pipe_read's loop. */
  function ReadTurn(buffered: seq<char>, writers: nat, size: nat): (Outcome, seq<char>) {
    if buffered == [] then (if writers == 0 then Got([]) else Sleep, [])
    else (Got(buffered[..Min(size, |buffered|)]), buffered[Min(size, |buffered|)..])
  }

  /** One turn of pipe_write's loop with data left, passing on no more than there
      is room for. */
  function WriteTurn(capacity: nat, buffered: seq<char>, readers: nat, data: seq<char>): (Outcome, seq<char>)
    requires |buffered| <= capacity
  {
    if readers == 0 then (Broken, buffered)
    else if |buffered| == capacity then (Sleep, buffered)
    else var n := Min(|data|, capacity - |buffered|); (Took(n), buffered + data[..n])
  }

  /** The call a process is in. */
  datatype Call = Idle | InRead(size: nat) | InWrite(data: seq<char>, sent: nat)

  datatype Chunk = Chunk(writer: nat, data: seq<char>)

  /** readers and writers count open ends; asleep are the processes in cond_wait;
      got is all that was read and log what was written, by whom. */
  datatype State = State(capacity: nat, buffered: seq<char>, readers: nat, writers: nat, calls: seq<Call>,
                         asleep: set<nat>, got: seq<char>, log: seq<Chunk>)

  datatype Action = StartRead(p: nat, size: nat) | StartWrite(p: nat, data: seq<char>) | Turn(p: nat)
                  | CloseRead | CloseWrite

  predicate Enabled(s: State, a: Action) {
    match a
    case StartRead(p, _) => p < |s.calls| && s.calls[p].Idle?
    case StartWrite(p, _) => p < |s.calls| && s.calls[p].Idle?
    case Turn(p) => p < |s.calls| && !s.calls[p].Idle? && p !in s.asleep
                    && |s.buffered| <= s.capacity && (s.calls[p].InWrite? ==> s.calls[p].sent <= |s.calls[p].data|)
    case CloseRead => s.readers > 0
    case CloseWrite => s.writers > 0
  }

  /** A turn that moves bytes wakes everybody. Closing an end wakes nobody. */
  function Next(s: State, a: Action): State
    requires Enabled(s, a)
  {
    match a
    case StartRead(p, size) => s.(calls := s.calls[p := InRead(size)])
    case StartWrite(p, data) => s.(calls := s.calls[p := InWrite(data, 0)])
    case Turn(p) => if s.calls[p].InRead? then NextRead(s, p) else NextWrite(s, p)
    case CloseRead => s.(readers := s.readers - 1)
    case CloseWrite => s.(writers := s.writers - 1)
  }

  function NextRead(s: State, p: nat): State
    requires p < |s.calls| && s.calls[p].InRead?
  {
    var (o, b) := ReadTurn(s.buffered, s.writers, s.calls[p].size);
    match o
    case Got(d) =>
      s.(calls := s.calls[p := Idle], buffered := b, got := s.got + d,
         asleep := if s.buffered == [] then s.asleep else {})
    case _ => s.(asleep := s.asleep + {p})
  }

  function NextWrite(s: State, p: nat): State
    requires p < |s.calls| && s.calls[p].InWrite? && s.calls[p].sent <= |s.calls[p].data| && |s.buffered| <= s.capacity
  {
    var InWrite(data, sent) := s.calls[p];
    if sent == |data| then s.(calls := s.calls[p := Idle]) else
    var (o, b) := WriteTurn(s.capacity, s.buffered, s.readers, data[sent..]);
    match o
    case Took(n) =>
      s.(calls := s.calls[p := InWrite(data, sent + n)], buffered := b,
         log := s.log + [Chunk(p, data[sent..][..Min(n, |data| - sent)])], asleep := {})
    case Broken => s.(calls := s.calls[p := Idle])
    case _ => s.(asleep := s.asleep + {p})
  }

  // ----- what every step keeps -----

  /** All that was written, and what one process wrote of it. */
  function Written(log: seq<Chunk>): seq<char> {
    if log == [] then [] else Written(log[..|log| - 1]) + log[|log| - 1].data
  }

  function WrittenBy(log: seq<Chunk>, p: nat): seq<char> {
    if log == [] then [] else
    WrittenBy(log[..|log| - 1], p) + if log[|log| - 1].writer == p then log[|log| - 1].data else []
  }

  lemma OneMoreChunk(log: seq<Chunk>, c: Chunk, p: nat)
    ensures Written(log + [c]) == Written(log) + c.data
    ensures WrittenBy(log + [c], p) == WrittenBy(log, p) + if c.writer == p then c.data else []
  {
    assert (log + [c])[..|log|] == log;
  }

  predicate EndsWith(q: seq<char>, d: seq<char>) { |d| <= |q| && q[|q| - |d|..] == d }

  /** A write that has got so far has written so much last. */
  ghost predicate WriterOk(s: State, p: nat)
    requires p < |s.calls|
  {
    s.calls[p].InWrite? ==>
      s.calls[p].sent <= |s.calls[p].data| && EndsWith(WrittenBy(s.log, p), s.calls[p].data[..s.calls[p].sent])
  }

  /** Who sleeps had a reason to: nothing to read, or no room. */
  ghost predicate SleeperOk(s: State, p: nat) {
    && p < |s.calls|
    && match s.calls[p]
       case Idle => false
       case InRead(_) => s.buffered == []
       case InWrite(data, sent) => |s.buffered| == s.capacity && sent < |data|
  }

  ghost predicate Inv(s: State) {
    && s.capacity > 0 && |s.buffered| <= s.capacity
    && s.got + s.buffered == Written(s.log)
    && (forall p :: 0 <= p < |s.calls| ==> WriterOk(s, p))
    && (forall p :: p in s.asleep ==> SleeperOk(s, p))
  }

  lemma ReadInv(s: State, p: nat)
    requires Inv(s) && Enabled(s, Turn(p)) && s.calls[p].InRead?
    ensures Inv(NextRead(s, p))
  {
    var s' := NextRead(s, p);
    assert s.got + s.buffered == s'.got + s'.buffered;
    forall q | 0 <= q < |s'.calls| ensures WriterOk(s', q) { assert WriterOk(s, q); }
    forall q | q in s'.asleep ensures SleeperOk(s', q) { assert q != p ==> SleeperOk(s, q); }
  }

  /** What a turn of a write passes on. */
  function Passed(s: State, p: nat): seq<char>
    requires p < |s.calls| && s.calls[p].InWrite? && s.calls[p].sent <= |s.calls[p].data| && |s.buffered| <= s.capacity
  {
    var InWrite(data, sent) := s.calls[p];
    if s.readers == 0 then [] else data[sent..][..Min(|data| - sent, s.capacity - |s.buffered|)]
  }

  lemma WriteIs(s: State, p: nat)
    requires Inv(s) && Enabled(s, Turn(p)) && s.calls[p].InWrite?
    ensures var s', d := NextWrite(s, p), Passed(s, p);
            && s'.got == s.got && s'.buffered == s.buffered + d && s'.capacity == s.capacity
            && |s'.buffered| <= s.capacity && |s'.calls| == |s.calls|
            && s'.log == (if d == [] then s.log else s.log + [Chunk(p, d)])
            && (s'.calls[p].InWrite? ==> s'.calls[p] == InWrite(s.calls[p].data, s.calls[p].sent + |d|))
            && forall q :: 0 <= q < |s.calls| && q != p ==> s'.calls[q] == s.calls[q]
  {
    hide WriterOk, SleeperOk, Written;
  }

  lemma WriteInv(s: State, p: nat)
    requires Inv(s) && Enabled(s, Turn(p)) && s.calls[p].InWrite?
    ensures Inv(NextWrite(s, p))
  {
    WriteIs(s, p);
    hide SleeperOk, NextWrite, Passed, Written, WrittenBy, EndsWith;
    var s', d := NextWrite(s, p), Passed(s, p);
    forall q: nat | q < |s.calls| ensures WriterOk(s', q) {
      assert WriterOk(s, q);
      WriterStep(s, s', p, d, q);
    }
    forall q | q in s'.asleep ensures SleeperOk(s', q) { WriteSleeper(s, p, q); }
    WrittenMore(s, s', p, d);
    hide WriterOk;
  }

  lemma WrittenMore(s: State, s': State, p: nat, d: seq<char>)
    requires s.got + s.buffered == Written(s.log) && s'.got == s.got && s'.buffered == s.buffered + d
    requires s'.log == if d == [] then s.log else s.log + [Chunk(p, d)]
    ensures s'.got + s'.buffered == Written(s'.log)
  {
    OneMoreChunk(s.log, Chunk(p, d), p);
    hide Written;
    assert s.got + (s.buffered + d) == (s.got + s.buffered) + d;
    if d == [] { assert s.buffered + d == s.buffered; }
  }

  lemma WriteSleeper(s: State, p: nat, q: nat)
    requires Inv(s) && Enabled(s, Turn(p)) && s.calls[p].InWrite? && q in NextWrite(s, p).asleep
    ensures SleeperOk(NextWrite(s, p), q)
  {
    hide WriterOk, Written;
    assert q != p ==> SleeperOk(s, q);
  }

  lemma WriterStep(s: State, s': State, p: nat, d: seq<char>, q: nat)
    requires p < |s.calls| && s.calls[p].InWrite? && s.calls[p].sent <= |s.calls[p].data| && |s.buffered| <= s.capacity
    requires q < |s.calls| == |s'.calls| && WriterOk(s, q) && d == Passed(s, p)
    requires s'.log == if d == [] then s.log else s.log + [Chunk(p, d)]
    requires s'.calls[p].InWrite? ==> s'.calls[p] == InWrite(s.calls[p].data, s.calls[p].sent + |d|)
    requires q != p ==> s'.calls[q] == s.calls[q]
    ensures WriterOk(s', q)
  {
    var InWrite(data, sent) := s.calls[p];
    OneMoreChunk(s.log, Chunk(p, d), q);
    PassedIs(s, p);
    hide Passed, Written, WrittenBy, EndsWith;
    if q == p { EndsMore(WrittenBy(s.log, p), data[..sent], d); }
    if d == [] {
      assert WrittenBy(s.log, p) + d == WrittenBy(s.log, p);
    }
  }

  lemma PassedIs(s: State, p: nat)
    requires p < |s.calls| && s.calls[p].InWrite? && s.calls[p].sent <= |s.calls[p].data| && |s.buffered| <= s.capacity
    ensures var InWrite(data, sent) := s.calls[p];
            && sent + |Passed(s, p)| <= |data| && data[..sent + |Passed(s, p)|] == data[..sent] + Passed(s, p)
  {
  }

  lemma EndsMore(q: seq<char>, d: seq<char>, more: seq<char>)
    requires EndsWith(q, d)
    ensures EndsWith(q + more, d + more)
  {
    assert (q + more)[|q| - |d|..] == q[|q| - |d|..] + more;
  }

  lemma StepInv(s: State, a: Action)
    requires Inv(s) && Enabled(s, a)
    ensures Inv(Next(s, a))
  {
    if a.Turn? && s.calls[a.p].InRead? {
      ReadInv(s, a.p);
    } else if a.Turn? {
      WriteInv(s, a.p);
    } else {
      forall q | 0 <= q < |s.calls| ensures WriterOk(Next(s, a), q) { assert WriterOk(s, q); }
      forall q | q in s.asleep ensures SleeperOk(Next(s, a), q) { assert SleeperOk(s, q); }
    }
  }

  // ----- runs -----

  /** pipe_new: empty, with one open end each. */
  predicate Init(s: State) {
    && s.capacity > 0 && s.buffered == [] && s.readers == 1 && s.writers == 1 && s.asleep == {} && s.got == []
    && s.log == [] && forall p :: 0 <= p < |s.calls| ==> s.calls[p].Idle?
  }

  ghost predicate Run(states: seq<State>, actions: seq<Action>) {
    && |states| == |actions| + 1 && Init(states[0])
    && forall i :: 0 <= i < |actions| ==> Enabled(states[i], actions[i]) && states[i + 1] == Next(states[i], actions[i])
  }

  lemma {:induction false} RunInv(states: seq<State>, actions: seq<Action>, m: nat)
    requires Run(states, actions) && m < |states|
    ensures Inv(states[m])
    decreases m
  {
    if m > 0 {
      hide Inv, Next, Enabled;
      RunInv(states, actions, m - 1);
      assert states[m - 1 + 1] == Next(states[m - 1], actions[m - 1]);
      StepInv(states[m - 1], actions[m - 1]);
    }
  }

  /** In every interleaving: what was read, followed by what is in the pipe, is what
      was written, and every write has its bytes there in their order; nobody sleeps
      to read while there is something, or to write while there is room, so that
      readers and writers never sleep at the same time. */
  lemma InOrder(states: seq<State>, actions: seq<Action>, m: nat)
    requires Run(states, actions) && m < |states|
    ensures var s := states[m];
            && s.got + s.buffered == Written(s.log) && |s.buffered| <= s.capacity
            && (forall p :: 0 <= p < |s.calls| && s.calls[p].InWrite? ==>
                  && s.calls[p].sent <= |s.calls[p].data|
                  && EndsWith(WrittenBy(s.log, p), s.calls[p].data[..s.calls[p].sent]))
            && forall p, q :: p in s.asleep && q in s.asleep ==>
                 p < |s.calls| && q < |s.calls| && (s.calls[p].InRead? <==> s.calls[q].InRead?)
  {
    RunInv(states, actions, m);
    var s := states[m];
    forall p | 0 <= p < |s.calls| && s.calls[p].InWrite?
      ensures s.calls[p].sent <= |s.calls[p].data|
      ensures EndsWith(WrittenBy(s.log, p), s.calls[p].data[..s.calls[p].sent])
    {
      assert WriterOk(s, p);
    }
    hide WriterOk;
    forall p, q | p in s.asleep && q in s.asleep
      ensures p < |s.calls| && q < |s.calls| && (s.calls[p].InRead? <==> s.calls[q].InRead?)
    {
      assert SleeperOk(s, p) && SleeperOk(s, q);
    }
  }

  // ----- what a call comes to -----

  /** The call that process p makes at f returns with its turn at w. */
  ghost predicate Returns(states: seq<State>, actions: seq<Action>, f: nat, w: nat, p: nat)
    requires |states| == |actions| + 1
  {
    && f < w < |actions| && (actions[f].StartRead? || actions[f].StartWrite?) && actions[f].p == p
    && actions[w] == Turn(p) && (forall i :: f < i <= w ==> InCall(states[i], p)) && !InCall(states[w + 1], p)
  }

  predicate InCall(s: State, p: nat) { p < |s.calls| && !s.calls[p].Idle? }

  /** Until it returns it is the same call. */
  predicate SameCall(a: Action, c: Call) {
    match a
    case StartRead(_, size) => c == InRead(size)
    case StartWrite(_, data) => c.InWrite? && c.data == data
    case _ => false
  }

  lemma {:induction false} CallKept(states: seq<State>, actions: seq<Action>, f: nat, w: nat, p: nat)
    requires Run(states, actions) && |states| == |actions| + 1 && f < w <= |actions|
    requires (actions[f].StartRead? || actions[f].StartWrite?) && actions[f].p == p
    requires forall i :: f < i <= w ==> InCall(states[i], p)
    ensures p < |states[w].calls| && SameCall(actions[f], states[w].calls[p])
    decreases w
  {
    assert Enabled(states[w - 1], actions[w - 1]) && states[w - 1 + 1] == Next(states[w - 1], actions[w - 1]);
    if f < w - 1 {
      CallKept(states, actions, f, w - 1, p);
      assert InCall(states[w - 1 + 1], p);
      StepCall(states[w - 1], actions[w - 1], p, actions[f]);
    }
  }

  lemma StepCall(s: State, a: Action, p: nat, start: Action)
    requires Enabled(s, a) && p < |s.calls| && SameCall(start, s.calls[p]) && InCall(Next(s, a), p)
    ensures SameCall(start, Next(s, a).calls[p])
  {
  }

  /** A read of up to size bytes, when it returns, has taken the oldest bytes from the pipe, as
      many as there were but no more than size: none only if size is 0, or the pipe was
      empty and without writers. */
  lemma ReadReturns(states: seq<State>, actions: seq<Action>, f: nat, w: nat, p: nat, size: nat) returns (d: seq<char>)
    requires Run(states, actions) && |states| == |actions| + 1
    requires Returns(states, actions, f, w, p) && actions[f] == StartRead(p, size)
    ensures states[w + 1].got == states[w].got + d && states[w].buffered == d + states[w + 1].buffered
    ensures |d| == if size <= |states[w].buffered| then size else |states[w].buffered|
    ensures d == [] <==> size == 0 || (states[w].buffered == [] && states[w].writers == 0)
  {
    CallKept(states, actions, f, w, p);
    assert states[w + 1] == Next(states[w], actions[w]);
    var (o, b) := ReadTurn(states[w].buffered, states[w].writers, size);
    d := if o.Got? then o.data else [];
  }

  /** A write, when it returns, has written all its bytes, in their order and last of all that
      the process wrote, or there is no reader. */
  lemma WriteReturns(states: seq<State>, actions: seq<Action>, f: nat, w: nat, p: nat, data: seq<char>)
    requires Run(states, actions) && |states| == |actions| + 1
    requires Returns(states, actions, f, w, p) && actions[f] == StartWrite(p, data)
    ensures states[w].readers == 0 || EndsWith(WrittenBy(states[w + 1].log, p), data)
  {
    CallKept(states, actions, f, w, p);
    RunInv(states, actions, w);
    assert Enabled(states[w], actions[w]) && states[w + 1] == Next(states[w], actions[w]);
    assert WriterOk(states[w], p);
    assert data[..|data|] == data;
    hide Written, WrittenBy, EndsWith;
  }

  // ----- sleepers that are not woken -----

  /** If process p took a turn, it would sleep again. */
  predicate Blocked(s: State, p: nat) {
    && p < |s.calls| && |s.buffered| <= s.capacity
    && match s.calls[p]
       case Idle => false
       case InRead(size) => ReadTurn(s.buffered, s.writers, size).0.Sleep?
       case InWrite(data, sent) =>
         sent < |data| && WriteTurn(s.capacity, s.buffered, s.readers, data[sent..]).0.Sleep?
  }

  predicate OtherEndOpen(s: State, p: nat) {
    p < |s.calls| && if s.calls[p].InRead? then s.writers > 0 else s.readers > 0
  }

  /** A sleeping process has still a reason to sleep if and only if the other end
      has not been closed meanwhile. */
  lemma SleepsRightly(states: seq<State>, actions: seq<Action>, m: nat, p: nat)
    requires Run(states, actions) && m < |states| && p in states[m].asleep
    ensures Blocked(states[m], p) <==> OtherEndOpen(states[m], p)
  {
    RunInv(states, actions, m);
    assert SleeperOk(states[m], p);
    hide WriterOk;
  }

  /** A reader goes to sleep, and the only writer closes its end: the reader could
      return, but nobody can take a turn any more. */
  lemma CloseNotSeen(capacity: nat, size: nat) returns (states: seq<State>, actions: seq<Action>)
    requires capacity > 0
    ensures Run(states, actions) && |actions| == 3
    ensures var s := states[3];
            0 in s.asleep && |s.calls| == 1 && s.calls[0] == InRead(size) && !Blocked(s, 0) &&
            forall p :: !Enabled(s, Turn(p))
  {
    var s0 := State(capacity, [], 1, 1, [Idle], {}, [], []);
    actions := [StartRead(0, size), Turn(0), CloseWrite];
    var s1 := Next(s0, actions[0]);
    var s2 := Next(s1, actions[1]);
    var s3 := Next(s2, actions[2]);
    states := [s0, s1, s2, s3];
    assert s2 == State(capacity, [], 1, 1, [InRead(size)], {0}, [], []);
  }

  // ----- how long a run is -----

  /** What a call has to do yet. */
  function Work(c: Call): nat {
    match c
    case Idle => 0
    case InRead(_) => 1
    case InWrite(data, sent) => if sent <= |data| then |data| - sent + 1 else 0
  }

  function Works(calls: seq<Call>): nat {
    if calls == [] then 0 else Work(calls[0]) + Works(calls[1..])
  }

  lemma {:induction false} WorksUpdate(calls: seq<Call>, p: nat, c: Call)
    requires p < |calls|
    ensures Works(calls[p := c]) == Works(calls) - Work(calls[p]) + Work(c) && Work(calls[p]) <= Works(calls)
    decreases |calls|
  {
    if p == 0 {
      assert calls[p := c][1..] == calls[1..];
    } else {
      assert calls[p := c][1..] == calls[1..][p - 1 := c];
      WorksUpdate(calls[1..], p - 1, c);
    }
  }

  /** How many turns can follow at most if no new call is made. */
  function Measure(s: State): int { Works(s.calls) * (|s.calls| + 1) + |s.calls| - |s.asleep| }

  lemma SleepersIn(s: State)
    requires Inv(s)
    ensures |s.asleep| <= |s.calls|
  {
    hide WriterOk, Written;
    forall p | p in s.asleep ensures p < |s.calls| { assert SleeperOk(s, p); }
    FewBelow(s.asleep, |s.calls|);
  }

  /** A turn does some work, or puts somebody to sleep. */
  lemma TurnWorks(s: State, p: nat)
    requires Inv(s) && Enabled(s, Turn(p))
    ensures var s' := Next(s, Turn(p));
            && |s'.calls| == |s.calls|
            && (Works(s'.calls) < Works(s.calls) ||
                (s'.calls == s.calls && s'.asleep == s.asleep + {p} && p !in s.asleep))
  {
    var s' := Next(s, Turn(p));
    hide Inv, Written, WrittenBy;
    if s'.calls != s.calls { WorksUpdate(s.calls, p, s'.calls[p]); }
    hide Works;
  }

  lemma TurnDecreases(s: State, p: nat)
    requires Inv(s) && Enabled(s, Turn(p))
    ensures 0 <= Measure(Next(s, Turn(p))) < Measure(s)
  {
    var s' := Next(s, Turn(p));
    StepInv(s, Turn(p));
    SleepersIn(s);
    SleepersIn(s');
    TurnWorks(s, p);
    hide Inv, Enabled, Next;
    Less(s, s', p);
  }

  lemma Less(s: State, s': State, p: nat)
    requires |s'.calls| == |s.calls| && |s'.asleep| <= |s.calls| && |s.asleep| <= |s.calls|
    requires Works(s'.calls) < Works(s.calls) || (s'.calls == s.calls && s'.asleep == s.asleep + {p} && p !in s.asleep)
    ensures 0 <= Measure(s') < Measure(s)
  {
    hide Works;
    if Works(s'.calls) < Works(s.calls) {
      LessTimes(Works(s.calls), Works(s'.calls), |s.calls| + 1);
    } else {
      assert |s'.asleep| == |s.asleep| + 1;
      assert Works(s.calls) * (|s.calls| + 1) >= 0;
    }
  }

  lemma {:induction false} Bounded(states: seq<State>, actions: seq<Action>, m: nat, n: nat)
    requires Run(states, actions) && m <= n < |states| && forall i :: m <= i < n ==> actions[i].Turn?
    ensures Inv(states[n]) && Measure(states[n]) >= 0 && n - m + Measure(states[n]) <= Measure(states[m])
    decreases n
  {
    RunInv(states, actions, n);
    hide Inv, Enabled, Next, Measure;
    if m < n {
      Bounded(states, actions, m, n - 1);
      assert Enabled(states[n - 1], actions[n - 1]) && states[n - 1 + 1] == Next(states[n - 1], actions[n - 1]);
      assert actions[n - 1] == Turn(actions[n - 1].p);
      TurnDecreases(states[n - 1], actions[n - 1].p);
    } else {
      MeasureNat(states[n]);
    }
  }

  lemma MeasureNat(s: State)
    requires Inv(s)
    ensures Measure(s) >= 0
  {
    SleepersIn(s);
    assert Works(s.calls) * (|s.calls| + 1) >= 0;
  }

  /** From any point of any run, if no new call is made, the turns are bounded, by the bytes
      left to write and the number of processes; and when there is none any more, every call
      has returned or sleeps, to read from an empty pipe or to write into a full one. */
  lemma Terminates(states: seq<State>, actions: seq<Action>, m: nat, n: nat)
    requires Run(states, actions) && m <= n < |states| && forall i :: m <= i < n ==> actions[i].Turn?
    ensures n - m <= Works(states[m].calls) * (|states[m].calls| + 1) + |states[m].calls|
    ensures var s := states[n];
            (forall p :: !Enabled(s, Turn(p))) ==>
              forall p :: 0 <= p < |s.calls| && !s.calls[p].Idle? ==>
                p in s.asleep && if s.calls[p].InRead? then s.buffered == [] else |s.buffered| == s.capacity
  {
    Bounded(states, actions, m, n);
    var s := states[n];
    hide Written, WrittenBy, EndsWith, Run;
    if forall p :: !Enabled(s, Turn(p)) {
      forall p | 0 <= p < |s.calls| && !s.calls[p].Idle?
        ensures p in s.asleep && if s.calls[p].InRead? then s.buffered == [] else |s.buffered| == s.capacity
      {
        assert WriterOk(s, p) && !Enabled(s, Turn(p));
        assert SleeperOk(s, p);
      }
    }
  }
}
