/** Runs of a pool: no slot is handed out twice without being given back. */
module SlabRuns {
  import opened Slab

  /** A page is taken for slots, a slot is handed out, or a slot comes back. */
  datatype Event = Grow(page: nat) | Take | Return(a: nat)

  /** A pool and the slots that are in use. */
  datatype State = State(pool: Pool, live: set<nat>)

  predicate HasSlot(p: Pool) {
    p.free != [] && p.free[0] in p.buckets && p.buckets[p.free[0]].objects != []
  }

  /** The slot pool_alloc_object hands out. */
  function SlotOf(p: Pool): nat
    requires HasSlot(p)
  {
    p.buckets[p.free[0]].objects[0]
  }

  predicate Enabled(s: State, e: Event) {
    match e
    case Grow(page) => s.pool.size > 0 && page !in s.pool.buckets
    case Take => HasSlot(s.pool)
    case Return(a) => a in s.live && a / 4096 in s.pool.buckets
  }

  function Next(s: State, e: Event): State
    requires Enabled(s, e)
  {
    match e
    case Grow(page) => s.(pool := Grown(s.pool, page))
    case Take => State(Taken(s.pool), s.live + {SlotOf(s.pool)})
    case Return(a) => State(Returned(s.pool, a), s.live - {a})
  }

  ghost predicate Run(states: seq<State>, events: seq<Event>) {
    && |states| == |events| + 1 && Good(states[0].pool, states[0].live)
    && forall i :: 0 <= i < |events| ==> Enabled(states[i], events[i]) && states[i + 1] == Next(states[i], events[i])
  }

  lemma StepGood(s: State, e: Event)
    requires Good(s.pool, s.live) && Enabled(s, e)
    ensures Good(Next(s, e).pool, Next(s, e).live) && (e.Take? ==> SlotOf(s.pool) !in s.live)
  {
    hide Good, Taken, Returned, Grown;
    match e
    case Grow(page) => GrownGood(s.pool, page, s.live);
    case Take => TakenGood(s.pool, s.live);
    case Return(a) => ReturnedGood(s.pool, s.live, a);
  }

  /** At any point of any run the account of slots and buckets is right, so a free
      list has a slot exactly when some slot is free. */
  lemma {:induction false} RunGood(states: seq<State>, events: seq<Event>, m: nat)
    requires Run(states, events) && m < |states|
    ensures Good(states[m].pool, states[m].live)
    decreases m
  {
    hide Good, Next, Enabled;
    if m > 0 {
      RunGood(states, events, m - 1);
      assert states[m - 1 + 1] == Next(states[m - 1], events[m - 1]);
      StepGood(states[m - 1], events[m - 1]);
    }
  }

  /** A slot stays in use until it is given back. */
  lemma {:induction false} StaysLive(states: seq<State>, events: seq<Event>, m: nat, n: nat, a: nat)
    requires Run(states, events) && m <= n < |states| && a in states[m].live
    requires forall i :: m <= i < n && i < |events| ==> events[i] != Return(a)
    ensures a in states[n].live
    decreases n
  {
    if m < n {
      StaysLive(states, events, m, n - 1, a);
      assert states[n - 1 + 1] == Next(states[n - 1], events[n - 1]) && events[n - 1] != Return(a);
      hide Enabled, Taken, Returned, Grown;
    }
  }

  /** In every run, two slots handed out are not the same unless the first was given
      back in between. */
  lemma NeverTwice(states: seq<State>, events: seq<Event>, m: nat, n: nat)
    requires Run(states, events) && m < n < |events| < |states| && events[m] == Take && events[n] == Take
    ensures HasSlot(states[m].pool) && HasSlot(states[n].pool)
    ensures var a := SlotOf(states[m].pool);
            (forall i :: m < i < n ==> events[i] != Return(a)) ==> SlotOf(states[n].pool) != a
  {
    var a := SlotOf(states[m].pool);
    RunGood(states, events, n);
    assert Enabled(states[n], events[n]) && Enabled(states[m], events[m]);
    assert states[m + 1] == Next(states[m], events[m]);
    assert a in states[m + 1].live;
    StepGood(states[n], events[n]);
    hide Good, Enabled, Next, Run, SlotOf, HasSlot;
    if forall i :: m < i < n ==> events[i] != Return(a) {
      StaysLive(states, events, m + 1, n, a);
    }
  }
}
