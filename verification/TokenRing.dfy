/** The token ring: N threads, each taking numbers from its own buffer, printing
    them and putting the successor into the next thread's buffer, R times over;
    main starts it by putting 0 into the first buffer. */
module TokenRing {
  import opened Division
  import opened RingBuffer

  /** Where a thread is. A stretch under a buffer's mutex is one step: nobody
      else can look at the buffer meanwhile. Getting and Putting stand before
      the test of the waiting loop, the two Asleep states in pthread_cond_wait. */
  datatype Pc =
    | Getting
    | GetAsleep
    | Printing(item: int)
    | Putting(item: int)
    | PutAsleep(item: int)
    | Finished

  /** round counts the turns of thread_entry's loop already completed. */
  datatype Thread = Thread(round: nat, pc: Pc)

  datatype State = State(
    buffers: seq<Buf>,
    threads: seq<Thread>,
    starter: Pc,               // main, inside its buffer_put
    log: seq<(nat, int)>       // what was printed, by whom
  )

  datatype Params = Params(n: nat, rounds: nat)

  ghost predicate Proper(p: Params) { p.n >= 1 }

  ghost predicate Typed(p: Params, s: State) {
    && |s.buffers| == p.n && |s.threads| == p.n
    && forall i :: 0 <= i < p.n ==> WellFormed(s.buffers[i])
  }

  ghost predicate Init(p: Params, s: State) {
    && Typed(p, s)
    && (forall i :: 0 <= i < p.n ==> IsEmpty(s.buffers[i]))
    && (forall i :: 0 <= i < p.n ==> s.threads[i] == Thread(0, AtTop(p, 0)))
    && s.starter == Putting(0) && s.log == []
  }

  /** The loop test of thread_entry. */
  function AtTop(p: Params, round: nat): Pc {
    if round < p.rounds then Getting else Finished
  }

  /** (i + 1) % N */
  function Next(p: Params, i: nat): (j: nat)
    requires i < p.n
    ensures j < p.n
  {
    if i + 1 == p.n then 0 else i + 1
  }

  /** Thread i's buffer to read from is i, the one it writes to is Next(i).
      The signal a reader sends wakes writers asleep on that buffer: any of
      them may be woken, and at least one is if there are any. */
  ghost predicate WakesWriters(p: Params, s: State, s': State, b: nat)
    requires Proper(p) && b < p.n == |s.threads| == |s'.threads|
  {
    && (forall j :: 0 <= j < p.n && s'.threads[j] != s.threads[j] ==>
          Next(p, j) == b && s.threads[j].pc.PutAsleep? &&
          s'.threads[j] == s.threads[j].(pc := Putting(s.threads[j].pc.item)))
    && (s'.starter != s.starter ==> b == 0 && s.starter.PutAsleep? && s'.starter == Putting(s.starter.item))
    && ((exists j :: 0 <= j < p.n && Next(p, j) == b && s.threads[j].pc.PutAsleep?) || (b == 0 &&
         s.starter.PutAsleep?) ==>
          s'.threads != s.threads || s'.starter != s.starter)
  }

  /** A writer's signal wakes the one reader of the buffer if it is asleep. */
  function WakeReader(threads: seq<Thread>, b: nat): seq<Thread>
    requires b < |threads|
  {
    if threads[b].pc.GetAsleep? then threads[b := threads[b].(pc := Getting)] else threads
  }

  // ----- the steps -----

  /** buffer_get finds the buffer empty and sleeps. */
  ghost predicate GetBlocks(p: Params, s: State, s': State, i: nat)
    requires Proper(p) && Typed(p, s)
  {
    && i < p.n && s.threads[i].pc.Getting? && IsEmpty(s.buffers[i])
    && s' == s.(threads := s.threads[i := s.threads[i].(pc := GetAsleep)])
  }

  /** buffer_get takes the oldest item and signals. */
  ghost predicate GetTakes(p: Params, s: State, s': State, i: nat)
    requires Proper(p) && Typed(p, s) && |s'.threads| == p.n
  {
    && i < p.n && s.threads[i].pc.Getting? && !IsEmpty(s.buffers[i])
    && var (item, b) := Get(s.buffers[i]);
       var mid := s.(buffers := s.buffers[i := b], threads := s.threads[i := s.threads[i].(pc := Printing(item))]);
       && s'.buffers == mid.buffers && s'.log == mid.log
       && WakesWriters(p, mid, s', i)
  }

  ghost predicate Prints(p: Params, s: State, s': State, i: nat)
    requires Proper(p) && Typed(p, s)
  {
    && i < p.n && s.threads[i].pc.Printing?
    && var item := s.threads[i].pc.item;
       s' == s.(threads := s.threads[i := s.threads[i].(pc := Putting(item + 1))], log := s.log + [(i, item)])
  }

  ghost predicate PutBlocks(p: Params, s: State, s': State, i: nat)
    requires Proper(p) && Typed(p, s)
  {
    && i < p.n && s.threads[i].pc.Putting? && IsFull(s.buffers[Next(p, i)])
    && s' == s.(threads := s.threads[i := s.threads[i].(pc := PutAsleep(s.threads[i].pc.item))])
  }

  /** buffer_put stores the item and signals; the loop turns. */
  ghost predicate PutStores(p: Params, s: State, s': State, i: nat)
    requires Proper(p) && Typed(p, s)
  {
    && i < p.n && s.threads[i].pc.Putting? && !IsFull(s.buffers[Next(p, i)])
    && var b := Next(p, i);
       var t := s.threads[i];
       var threads := s.threads[i := Thread(t.round + 1, AtTop(p, t.round + 1))];
       s' == s.(buffers := s.buffers[b := Put(s.buffers[b], t.pc.item)], threads := WakeReader(threads, b))
  }

  ghost predicate StarterBlocks(p: Params, s: State, s': State)
    requires Proper(p) && Typed(p, s)
  {
    && s.starter.Putting? && IsFull(s.buffers[0])
    && s' == s.(starter := PutAsleep(s.starter.item))
  }

  ghost predicate StarterStores(p: Params, s: State, s': State)
    requires Proper(p) && Typed(p, s)
  {
    && s.starter.Putting? && !IsFull(s.buffers[0])
    && s' == s.(starter := Finished, buffers := s.buffers[0 := Put(s.buffers[0], s.starter.item)],
                threads := WakeReader(s.threads, 0))
  }

  /** pthread_cond_wait may return without a signal. */
  ghost predicate Spurious(p: Params, s: State, s': State, i: nat)
    requires Proper(p) && Typed(p, s)
  {
    && i < p.n && (s.threads[i].pc.GetAsleep? || s.threads[i].pc.PutAsleep?)
    && s' == s.(threads := s.threads[i := s.threads[i].(pc :=
         if s.threads[i].pc.GetAsleep? then Getting else Putting(s.threads[i].pc.item))])
  }

  ghost predicate ThreadStep(p: Params, s: State, s': State, i: nat)
    requires Proper(p) && Typed(p, s) && Typed(p, s')
  {
    GetBlocks(p, s, s', i) || GetTakes(p, s, s', i) || Prints(p, s, s', i) || PutBlocks(p, s, s', i) || PutStores(p,
        s, s', i)
  }

  ghost predicate Step(p: Params, s: State, s': State)
    requires Proper(p)
  {
    && Typed(p, s) && Typed(p, s')
    && (StarterBlocks(p, s, s') || StarterStores(p, s, s')
        || exists i :: ThreadStep(p, s, s', i) || Spurious(p, s, s', i))
  }

  // ----- the invariant -----

  /** Where the one token is. In round r at index b, n * r + b numbers have been
      printed before; AfterPrint is the moment between a thread's print and put. */
  datatype Place =
    | AtStarter
    | InBuffer(r: nat, b: nat)
    | BeforePrint(r: nat, b: nat)
    | AfterPrint(r: nat, b: nat)

  /** A thread that does not hold the token, having done that many rounds. */
  ghost predicate Rest(p: Params, t: Thread, round: nat) {
    && t.round == round <= p.rounds
    && (t.pc.Getting? || t.pc.GetAsleep? || t.pc.Finished?)
    && (t.pc.Finished? <==> round == p.rounds)
  }

  /** The printed lines: the k-th is thread k mod N's and says k. */
  ghost predicate InTurn(p: Params, log: seq<(nat, int)>)
    requires Proper(p)
  {
    forall k :: 0 <= k < |log| ==> log[k] == (k % p.n, k)
  }

  ghost predicate Sleepers(p: Params, s: State)
    requires Typed(p, s)
  {
    forall i :: 0 <= i < p.n && s.threads[i].pc.GetAsleep? ==> IsEmpty(s.buffers[i])
  }

  ghost predicate AllEmpty(p: Params, s: State)
    requires Typed(p, s)
  {
    forall i :: 0 <= i < p.n ==> IsEmpty(s.buffers[i])
  }

  /** Threads before b are one round ahead; holder, if below n, is left out. */
  ghost predicate Rests(p: Params, s: State, r: nat, b: nat, holder: nat)
    requires Typed(p, s)
  {
    forall i :: 0 <= i < p.n && i != holder ==> Rest(p, s.threads[i], if i < b then r + 1 else r)
  }

  ghost predicate Inv(p: Params, s: State, place: Place)
    requires Proper(p)
  {
    && Typed(p, s) && InTurn(p, s.log) && Sleepers(p, s)
    && match place
       case AtStarter =>
         s.log == [] && s.starter == Putting(0) && AllEmpty(p, s) && Rests(p, s, 0, 0, p.n)
       case InBuffer(r, b) =>
         && b < p.n && |s.log| == p.n * r + b && s.starter.Finished?
         && Contents(s.buffers[b]) == [|s.log|]
         && (forall i :: 0 <= i < p.n && i != b ==> IsEmpty(s.buffers[i]))
         && Rests(p, s, r, b, p.n)
       case BeforePrint(r, b) =>
         && b < p.n && |s.log| == p.n * r + b && s.starter.Finished? && AllEmpty(p, s)
         && s.threads[b] == Thread(r, Printing(|s.log|)) && r < p.rounds
         && Rests(p, s, r, b, b)
       case AfterPrint(r, b) =>
         && b < p.n && |s.log| == p.n * r + b + 1 && s.starter.Finished? && AllEmpty(p, s)
         && s.threads[b] == Thread(r, Putting(|s.log|)) && r < p.rounds
         && Rests(p, s, r, b, b)
  }

  ghost predicate Good(p: Params, s: State)
    requires Proper(p)
  {
    exists place :: Inv(p, s, place)
  }

  lemma InitGood(p: Params, s: State)
    requires Proper(p) && Init(p, s)
    ensures Good(p, s)
  {
    assert Inv(p, s, AtStarter);
  }

  /** Who holds the token is where the place says it is. */
  lemma {:induction false} Holder(p: Params, s: State, place: Place, i: nat)
    requires Proper(p) && Inv(p, s, place) && i < p.n
    ensures s.threads[i].pc.Printing? <==> place.BeforePrint? && i == place.b
    ensures s.threads[i].pc.Putting? <==> place.AfterPrint? && i == place.b
    ensures !s.threads[i].pc.PutAsleep? && !s.starter.PutAsleep?
    ensures !IsEmpty(s.buffers[i]) <==> place.InBuffer? && i == place.b
    ensures !IsFull(s.buffers[i])
    ensures !s.starter.Putting? <==> !place.AtStarter?
  {
    match place
    case AtStarter => assert Rest(p, s.threads[i], 0);
    case InBuffer(r, b) => assert Rest(p, s.threads[i], if i < b then r + 1 else r);
    case BeforePrint(r, b) => assert i != b ==> Rest(p, s.threads[i], if i < b then r + 1 else r);
    case AfterPrint(r, b) => assert i != b ==> Rest(p, s.threads[i], if i < b then r + 1 else r);
  }

  lemma {:induction false} Holders(p: Params, s: State, place: Place)
    requires Proper(p) && Inv(p, s, place)
    ensures forall i :: 0 <= i < p.n ==> !s.threads[i].pc.PutAsleep? && !IsFull(s.buffers[i])
    ensures !s.starter.PutAsleep?
  {
    forall i | 0 <= i < p.n ensures !s.threads[i].pc.PutAsleep? && !IsFull(s.buffers[i]) { Holder(p, s, place, i); }
    Holder(p, s, place, 0);
  }

  lemma {:induction false} GetTakesKeeps(p: Params, s: State, s': State, i: nat, place: Place)
    requires Proper(p) && Inv(p, s, place) && Typed(p, s') && GetTakes(p, s, s', i)
    ensures place.InBuffer? && Inv(p, s', BeforePrint(place.r, place.b))
  {
    Holders(p, s, place);
    Holder(p, s, place, i);
    GetRemoves(s.buffers[i]);
    assert Contents(s.buffers[i])[0] == Get(s.buffers[i]).0;
    assert s'.threads == s.threads[i := s.threads[i].(pc := Printing(Get(s.buffers[i]).0))];
    assert Rest(p, s.threads[i], place.r);
  }

  lemma {:induction false} PrintsKeeps(p: Params, s: State, s': State, i: nat, place: Place)
    requires Proper(p) && Inv(p, s, place) && Typed(p, s') && Prints(p, s, s', i)
    ensures place.BeforePrint? && Inv(p, s', AfterPrint(place.r, place.b))
  {
    Holder(p, s, place, i);
    DivModIs(|s.log|, p.n, place.r, place.b);
  }

  lemma {:induction false} PutStoresKeeps(p: Params, s: State, s': State, i: nat, place: Place)
    requires Proper(p) && Inv(p, s, place) && Typed(p, s') && PutStores(p, s, s', i)
    ensures place.AfterPrint?
    ensures Inv(p, s', if i + 1 == p.n then InBuffer(place.r + 1, 0) else InBuffer(place.r, i + 1))
  {
    Holder(p, s, place, i);
    var k, b := |s.log|, Next(p, i);
    assert p.n * (place.r + 1) == p.n * place.r + p.n;
    PutAppends(s.buffers[b], k);
    assert Contents(s.buffers[b]) + [k] == [k];
    assert Rest(p, Thread(place.r + 1, AtTop(p, place.r + 1)), place.r + 1);
  }

  lemma {:induction false} StarterStoresKeeps(p: Params, s: State, s': State, place: Place)
    requires Proper(p) && Inv(p, s, place) && Typed(p, s') && StarterStores(p, s, s')
    ensures Inv(p, s', InBuffer(0, 0))
  {
    Holder(p, s, place, 0);
    PutAppends(s.buffers[0], 0);
    assert Contents(s.buffers[0]) + [0] == [0];
    assert Rest(p, s.threads[0], 0);
  }

  lemma {:induction false} SleepKeeps(p: Params, s: State, s': State, i: nat, place: Place)
    requires Proper(p) && Inv(p, s, place) && Typed(p, s')
    requires GetBlocks(p, s, s', i) || Spurious(p, s, s', i)
    ensures Inv(p, s', place)
  {
    Holder(p, s, place, i);
  }

  /** Every step of every thread keeps the invariant. */
  lemma {:induction false} StepGood(p: Params, s: State, s': State)
    requires Proper(p) && Good(p, s) && Step(p, s, s')
    ensures Good(p, s')
  {
    var place :| Inv(p, s, place);
    Holders(p, s, place);
    if StarterStores(p, s, s') {
      StarterStoresKeeps(p, s, s', place);
    } else if !StarterBlocks(p, s, s') {
      var i :| ThreadStep(p, s, s', i) || Spurious(p, s, s', i);
      if GetTakes(p, s, s', i) { GetTakesKeeps(p, s, s', i, place); }
      else if Prints(p, s, s', i) { PrintsKeeps(p, s, s', i, place); }
      else if PutStores(p, s, s', i) { PutStoresKeeps(p, s, s', i, place); }
      else { SleepKeeps(p, s, s', i, place); }
    }
  }

  /** The wiring of main: Next is the index modulo N. */
  lemma NextIsMod(p: Params, i: nat)
    requires i < p.n
    ensures Next(p, i) == (i + 1) % p.n
  {
    if i + 1 < p.n { DivModIs(i + 1, p.n, 0, i + 1); } else { DivModIs(i + 1, p.n, 1, 0); }
  }

  // ----- whole runs -----

  ghost predicate Run(p: Params, run: seq<State>)
    requires Proper(p)
  {
    && |run| > 0 && Init(p, run[0])
    && forall i :: 0 <= i < |run| - 1 ==> Step(p, run[i], run[i + 1])
  }

  lemma {:induction false} RunGood(p: Params, run: seq<State>, m: nat)
    requires Proper(p) && Run(p, run) && m < |run|
    ensures Good(p, run[m])
    decreases m
  {
    if m == 0 {
      InitGood(p, run[0]);
    } else {
      RunGood(p, run, m - 1);
      StepGood(p, run[m - 1], run[m - 1 + 1]);
    }
  }

  function Held(pc: Pc): nat {
    if pc.Printing? || pc.Putting? || pc.PutAsleep? then 1 else 0
  }

  /** The tokens in the first m buffers and threads. */
  ghost function Tokens(p: Params, s: State, m: nat): nat
    requires Typed(p, s) && m <= p.n
  {
    if m == 0 then Held(s.starter)
    else Tokens(p, s, m - 1) + |Contents(s.buffers[m - 1])| + Held(s.threads[m - 1].pc)
  }

  lemma {:induction false} OneToken(p: Params, s: State, place: Place, m: nat)
    requires Proper(p) && Inv(p, s, place) && m <= p.n
    ensures Tokens(p, s, m) == if place.AtStarter? || place.b < m then 1 else 0
    decreases m
  {
    Holders(p, s, place);
    Holder(p, s, place, 0);
    if m > 0 {
      OneToken(p, s, place, m - 1);
      Holder(p, s, place, m - 1);
    }
  }

  /** In every interleaving, at every moment: there is exactly one token in all
      buffers and threads, and the k-th line printed is thread k mod N's, with
      the number k. */
  lemma Safety(p: Params, run: seq<State>, m: nat)
    requires Proper(p) && Run(p, run) && m < |run|
    ensures Typed(p, run[m]) && Tokens(p, run[m], p.n) == 1
    ensures InTurn(p, run[m].log) && |run[m].log| <= p.n * p.rounds
  {
    RunGood(p, run, m);
    var place :| Inv(p, run[m], place);
    OneToken(p, run[m], place, p.n);
    LogBounded(p, run[m], place);
  }

  lemma {:induction false} LogBounded(p: Params, s: State, place: Place)
    requires Proper(p) && Inv(p, s, place)
    ensures |s.log| <= p.n * p.rounds
    ensures place.InBuffer? && place.r == p.rounds ==> place.b == 0 && |s.log| == p.n * p.rounds
  {
    if place.AtStarter? {
      Multiple(p.n, p.rounds);
    } else {
      hide Inv;
      RoundsLeft(p, s, place);
      var d := p.rounds - place.r;
      assert p.n * d == p.n * p.rounds - p.n * place.r;
      Multiple(p.n, d);
    }
  }

  lemma RoundsLeft(p: Params, s: State, place: Place)
    requires Proper(p) && Inv(p, s, place) && !place.AtStarter?
    ensures place.b < p.n && place.r <= p.rounds && (place.r == p.rounds ==> place.b == 0 && place.InBuffer?)
    ensures p.n * place.r + place.b <= |s.log| <= p.n * place.r + place.b + 1
    ensures !place.AfterPrint? ==> |s.log| == p.n * place.r + place.b
  {
    if place.InBuffer? {
      assert Rest(p, s.threads[0], if 0 < place.b then place.r + 1 else place.r);
      assert Rest(p, s.threads[p.n - 1], place.r);
    }
    hide Sleepers, AllEmpty, InTurn, Contents, Rest;
  }

  ghost predicate AllDone(p: Params, s: State)
    requires Typed(p, s)
  {
    s.starter.Finished? && forall i :: 0 <= i < p.n ==> s.threads[i].pc.Finished?
  }

  /** A thread or main can take this step, and not by a spurious wakeup. */
  ghost predicate Advances(p: Params, s: State, s': State)
    requires Proper(p) && Typed(p, s)
  {
    Typed(p, s') && (StarterStores(p, s, s') || exists i :: ThreadStep(p, s, s', i))
  }

  /** No deadlock and nothing lost: in every reachable state, either somebody
      can go on, or all threads have ended and all N times R lines are out. */
  lemma NoDeadlock(p: Params, run: seq<State>, m: nat)
    requires Proper(p) && Run(p, run) && m < |run|
    ensures Typed(p, run[m])
    ensures (exists s' :: Advances(p, run[m], s')) || (AllDone(p, run[m]) && |run[m].log| == p.n * p.rounds)
  {
    RunGood(p, run, m);
    var place :| Inv(p, run[m], place);
    match place
    case AtStarter => ProgressStarter(p, run[m]);
    case InBuffer(_, _) => ProgressBuffer(p, run[m], place);
    case BeforePrint(_, _) => ProgressHolder(p, run[m], place);
    case AfterPrint(_, _) => ProgressHolder(p, run[m], place);
  }

  lemma {:induction false} ProgressStarter(p: Params, s: State)
    requires Proper(p) && Inv(p, s, AtStarter)
    ensures exists s' :: Advances(p, s, s')
  {
    var s' := s.(starter := Finished, buffers := s.buffers[0 := Put(s.buffers[0], 0)],
        threads := WakeReader(s.threads, 0));
    Holder(p, s, AtStarter, 0);
    PutAppends(s.buffers[0], 0);
    assert Advances(p, s, s');
  }

  lemma {:induction false} ProgressBuffer(p: Params, s: State, place: Place)
    requires Proper(p) && Inv(p, s, place) && place.InBuffer?
    ensures (exists s' :: Advances(p, s, s')) || (AllDone(p, s) && |s.log| == p.n * p.rounds)
  {
    var r, b := place.r, place.b;
    LogBounded(p, s, place);
    assert Rest(p, s.threads[b], r);
    if r == p.rounds {
      assert forall i :: 0 <= i < p.n ==> Rest(p, s.threads[i], r);
    } else {
      Holders(p, s, place);
      GetRemoves(s.buffers[b]);
      var (item, rest) := Get(s.buffers[b]);
      var s' := s.(buffers := s.buffers[b := rest], threads := s.threads[b := s.threads[b].(pc := Printing(item))]);
      assert WakesWriters(p, s', s', b);
      assert ThreadStep(p, s, s', b);
      assert Advances(p, s, s');
    }
  }

  lemma {:induction false} ProgressHolder(p: Params, s: State, place: Place)
    requires Proper(p) && Inv(p, s, place) && (place.BeforePrint? || place.AfterPrint?)
    ensures exists s' :: Advances(p, s, s')
  {
    var b, k := place.b, |s.log|;
    if place.BeforePrint? {
      var s' := s.(threads := s.threads[b := s.threads[b].(pc := Putting(k + 1))], log := s.log + [(b, k)]);
      assert ThreadStep(p, s, s', b);
      assert Advances(p, s, s');
    } else {
      var next := Next(p, b);
      Holder(p, s, place, next);
      PutAppends(s.buffers[next], k);
      var threads := s.threads[b := Thread(place.r + 1, AtTop(p, place.r + 1))];
      var s' := s.(buffers := s.buffers[next := Put(s.buffers[next], k)], threads := WakeReader(threads, next));
      assert ThreadStep(p, s, s', b);
      assert Advances(p, s, s');
    }
  }

  // ----- how long a run is -----

  function GettingOne(t: Thread): nat { if t.pc.Getting? then 1 else 0 }

  /** How many threads are about to look into their buffers. */
  function Gettings(threads: seq<Thread>): (r: nat)
    ensures r <= |threads|
  {
    if threads == [] then 0 else GettingOne(threads[0]) + Gettings(threads[1..])
  }

  lemma {:induction false} GettingsUpdate(threads: seq<Thread>, i: nat, t: Thread)
    requires i < |threads|
    ensures Gettings(threads[i := t]) == Gettings(threads) - GettingOne(threads[i]) + GettingOne(t)
    decreases |threads|
  {
    if i == 0 {
      assert threads[i := t][1..] == threads[1..];
    } else {
      assert threads[i := t][1..] == threads[1..][i - 1 := t];
      GettingsUpdate(threads[1..], i - 1, t);
    }
  }

  lemma WakingGettings(threads: seq<Thread>, b: nat)
    requires b < |threads|
    ensures Gettings(WakeReader(threads, b)) <= Gettings(threads) + 1
  {
    GettingsUpdate(threads, b, threads[b].(pc := Getting));
  }

  /** How far the token has come, in takes, prints and puts. */
  function Come(s: State, place: Place): int {
    match place
    case AtStarter => 0
    case InBuffer(_, _) => 1 + 3 * |s.log|
    case BeforePrint(_, _) => 2 + 3 * |s.log|
    case AfterPrint(_, _) => 3 * |s.log|
  }

  /** It comes on, or a thread falls asleep; a put wakes one thread at most and
      sends its own to the next turn. */
  function Progress(s: State, place: Place): int { 3 * Come(s, place) - Gettings(s.threads) }

  lemma StepProgress(p: Params, s: State, s': State, place: Place) returns (place': Place)
    requires Proper(p) && Inv(p, s, place) && Advances(p, s, s')
    ensures Inv(p, s', place') && Progress(s', place') > Progress(s, place)
  {
    Holders(p, s, place);
    if StarterStores(p, s, s') {
      StarterStoresKeeps(p, s, s', place);
      WakingGettings(s.threads, 0);
      Holder(p, s, place, 0);
      place' := InBuffer(0, 0);
    } else {
      var i :| ThreadStep(p, s, s', i);
      place' := ThreadProgress(p, s, s', place, i);
    }
  }

  lemma ThreadProgress(p: Params, s: State, s': State, place: Place, i: nat) returns (place': Place)
    requires Proper(p) && Inv(p, s, place) && Typed(p, s') && ThreadStep(p, s, s', i)
    ensures Inv(p, s', place') && Progress(s', place') > Progress(s, place)
  {
    Holders(p, s, place);
    hide Inv, Progress, GetTakes, Prints, PutStores, GetBlocks;
    if GetTakes(p, s, s', i) {
      place' := TakeProgress(p, s, s', place, i);
    } else if Prints(p, s, s', i) {
      place' := PrintProgress(p, s, s', place, i);
    } else if PutStores(p, s, s', i) {
      place' := PutProgress(p, s, s', place, i);
    } else {
      assert GetBlocks(p, s, s', i);
      SleepProgress(p, s, s', place, i);
      place' := place;
    }
  }

  lemma TakeProgress(p: Params, s: State, s': State, place: Place, i: nat) returns (place': Place)
    requires Proper(p) && Inv(p, s, place) && Typed(p, s') && GetTakes(p, s, s', i)
    ensures Inv(p, s', place') && Progress(s', place') > Progress(s, place)
  {
    Holders(p, s, place);
    GetTakesKeeps(p, s, s', i, place);
    var t := s.threads[i].(pc := Printing(Get(s.buffers[i]).0));
    GettingsUpdate(s.threads, i, t);
    assert s'.threads == s.threads[i := t];
    place' := BeforePrint(place.r, place.b);
    hide Inv, Gettings;
  }

  lemma PrintProgress(p: Params, s: State, s': State, place: Place, i: nat) returns (place': Place)
    requires Proper(p) && Inv(p, s, place) && Typed(p, s') && Prints(p, s, s', i)
    ensures Inv(p, s', place') && Progress(s', place') > Progress(s, place)
  {
    PrintsKeeps(p, s, s', i, place);
    hide Inv, Gettings;
    GettingsUpdate(s.threads, i, s'.threads[i]);
    place' := AfterPrint(place.r, place.b);
  }

  lemma PutProgress(p: Params, s: State, s': State, place: Place, i: nat) returns (place': Place)
    requires Proper(p) && Inv(p, s, place) && Typed(p, s') && PutStores(p, s, s', i)
    ensures Inv(p, s', place') && Progress(s', place') > Progress(s, place)
  {
    PutStoresKeeps(p, s, s', i, place);
    hide Inv, Gettings, WakeReader;
    var t := Thread(s.threads[i].round + 1, AtTop(p, s.threads[i].round + 1));
    GettingsUpdate(s.threads, i, t);
    WakingGettings(s.threads[i := t], Next(p, i));
    place' := if i + 1 == p.n then InBuffer(place.r + 1, 0) else InBuffer(place.r, i + 1);
  }

  lemma SleepProgress(p: Params, s: State, s': State, place: Place, i: nat)
    requires Proper(p) && Inv(p, s, place) && Typed(p, s') && GetBlocks(p, s, s', i)
    ensures Inv(p, s', place) && Progress(s', place) > Progress(s, place)
  {
    SleepKeeps(p, s, s', i, place);
    hide Inv, Gettings;
    GettingsUpdate(s.threads, i, s'.threads[i]);
  }

  lemma {:induction false} RunProgress(p: Params, run: seq<State>, m: nat) returns (place: Place)
    requires Proper(p) && Run(p, run) && m < |run| && forall i :: 0 <= i < m ==> Advances(p, run[i], run[i + 1])
    ensures Inv(p, run[m], place) && Progress(run[m], place) >= m - p.n
    decreases m
  {
    hide Inv, Advances;
    if m == 0 {
      place := AtStarter;
      InitAtStarter(p, run[0]);
    } else {
      var before := RunProgress(p, run, m - 1);
      assert Advances(p, run[m - 1], run[m - 1 + 1]);
      place := StepProgress(p, run[m - 1], run[m], before);
    }
  }

  lemma InitAtStarter(p: Params, s: State)
    requires Proper(p) && Init(p, s)
    ensures Inv(p, s, AtStarter)
  {
  }

  /** Without spurious wakeups every run ends, however the threads are scheduled, and
      one that cannot go on has printed all lines. */
  lemma Terminates(p: Params, run: seq<State>)
    requires Proper(p) && Run(p, run) && forall i :: 0 <= i < |run| - 1 ==> Advances(p, run[i], run[i + 1])
    ensures |run| <= 9 * (p.n * p.rounds) + p.n + 4
    ensures var s := run[|run| - 1];
            Typed(p, s) && ((forall s' :: !Advances(p, s, s')) ==> AllDone(p, s) && |s.log| == p.n * p.rounds)
  {
    var m := |run| - 1;
    var place := RunProgress(p, run, m);
    LogBounded(p, run[m], place);
    if place.BeforePrint? { RoomToPrint(p, run[m], place); }
    NoDeadlock(p, run, m);
  }

  lemma RoomToPrint(p: Params, s: State, place: Place)
    requires Proper(p) && Inv(p, s, place) && place.BeforePrint?
    ensures |s.log| < p.n * p.rounds
  {
    var d := p.rounds - place.r;
    assert p.n * d == p.n * p.rounds - p.n * place.r;
    Multiple(p.n, d);
  }
}
