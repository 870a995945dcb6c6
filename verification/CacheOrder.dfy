/** Which entry of a cache is taken for another item: the one that was got least recently. */
module CacheOrder {
  import opened Blocks
  import opened Lists
  import opened Options
  import opened HashCache
  import opened CacheRuns

  /** Entry i comes before entry j in the list by age. */
  predicate Older(q: seq<nat>, i: nat, j: nat) { exists a, b :: 0 <= a < b < |q| && q[a] == i && q[b] == j }

  lemma OlderOne(q: seq<nat>, a: nat, b: nat)
    requires a < b < |q|
    ensures Older(q, q[a], q[b])
  {
  }

  /** In a list without repetitions one of two comes first. */
  lemma OlderNot(q: seq<nat>, i: nat, j: nat)
    requires Distinct(q) && i in q && j in q && i != j
    ensures Older(q, i, j) <==> !Older(q, j, i)
  {
    var a :| 0 <= a < |q| && q[a] == i;
    var b :| 0 <= b < |q| && q[b] == j;
    if a < b { OlderOne(q, a, b); } else { OlderOne(q, b, a); }
  }

  /** Whoever is got goes behind all others, whose order stays. */
  lemma {:induction false} Renewed(q: seq<nat>, r: nat, i: nat, j: nat)
    requires Distinct(q) && r in q && i in q
    ensures var q' := Without(q, r) + [r];
            && Distinct(q') && (forall x :: x in q' <==> x in q) && (i != r ==> Older(q', i, r))
            && (i != r && j != r && Older(q, i, j) ==> Older(q', i, j))
  {
    var q' := Without(q, r) + [r];
    WithoutIs(q, r);
    AppendDistinct(Without(q, r), r);
    if i != r {
      var a :| 0 <= a < |q| - 1 && Without(q, r)[a] == i;
      assert q'[a] == i && q'[|q| - 1] == r;
      if j != r && Older(q, i, j) {
        WithoutKeeps(q, r, i, j);
        var c, d :| 0 <= c < d < |q| - 1 && Without(q, r)[c] == i && Without(q, r)[d] == j;
        assert q'[c] == i && q'[d] == j;
      }
    }
  }

  lemma {:induction false} WithoutKeeps(q: seq<nat>, r: nat, i: nat, j: nat)
    requires Older(q, i, j) && i != r && j != r
    ensures Older(Without(q, r), i, j)
    decreases |q|
  {
    var a, b :| 0 <= a < b < |q| && q[a] == i && q[b] == j;
    if q[0] == r {
      assert q[1..][a - 1] == i && q[1..][b - 1] == j;
    } else {
      var t := Without(q[1..], r);
      assert Without(q, r) == [q[0]] + t;
      if a == 0 {
        WithoutHas(q[1..], r, j, b - 1);
        var d :| 0 <= d < |t| && t[d] == j;
        OlderOne([q[0]] + t, 0, d + 1);
      } else {
        assert q[1..][a - 1] == i && q[1..][b - 1] == j;
        WithoutKeeps(q[1..], r, i, j);
        var c, d :| 0 <= c < d < |t| && t[c] == i && t[d] == j;
        OlderOne([q[0]] + t, c + 1, d + 1);
      }
    }
  }

  lemma {:induction false} WithoutHas(q: seq<nat>, r: nat, j: nat, b: nat)
    requires b < |q| && q[b] == j && j != r
    ensures j in Without(q, r)
    decreases |q|
  {
    if q[0] != r && b > 0 { WithoutHas(q[1..], r, j, b - 1); }
    if q[0] == r { assert q[1..][b - 1] == j; }
  }

  lemma OlderAfter(x: nat, q: seq<nat>, i: nat, j: nat)
    requires Older(q, i, j)
    ensures Older([x] + q, i, j)
  {
    var a, b :| 0 <= a < b < |q| && q[a] == i && q[b] == j;
    OlderOne([x] + q, a + 1, b + 1);
  }

  // ----- what get_buffer and get_inode do to the entries and their order -----

  predicate IdleAt<D>(c: Cache<D>, i: nat) { i < |c.entries| && Idle(c.entries[i]) }

  /** The victim is the first idle entry of the list. */
  lemma {:induction false} VictimIsOldest<D>(c: Cache<D>, n: nat)
    requires Good(c) && n <= |c.lru|
    ensures var (r, c') := FromLru(c, n);
            && (r.Some? ==> r.value in c.lru[n..] && IdleAt(c, r.value))
            && (r.Some? ==> forall i: nat :: i in c.lru[n..] && i != r.value && IdleAt(c, i) ==>
                              Older(c.lru[n..], r.value, i))
    decreases |c.lru| - n
  {
    hide Good, Flushed, HashOk;
    GoodShape(c);
    FromLruIs(c, n);
    if n < |c.lru| {
      var x := c.lru[n];
      assert x in c.lru && c.lru[n..] == [x] + c.lru[n + 1..];
      OthersLater(c, x, n);
      var f := if c.entries[x].state == Dirty then Flushed(c, x) else c;
      if c.entries[x].state == Dirty {
        FlushedGood(c, x);
        FlushedIs(c, x);
      }
      if !Idle(c.entries[x]) {
        VictimIsOldest(f, n + 1);
        var r := FromLru(f, n + 1).0;
        forall i: nat | r.Some? && i in c.lru[n..] && i != r.value && IdleAt(c, i)
          ensures Older(c.lru[n..], r.value, i)
        {
          LaterEntry(c, f, n, i);
          OlderAfter(x, c.lru[n + 1..], r.value, i);
        }
      } else {
        forall i: nat | i in c.lru[n..] && i != x ensures Older(c.lru[n..], x, i) {
          var a :| 0 <= a < |c.lru[n..]| && c.lru[n..][a] == i;
          OlderOne(c.lru[n..], 0, a);
        }
      }
    }
  }

  lemma LaterEntry<D>(c: Cache<D>, f: Cache<D>, n: nat, i: nat)
    requires Shape(c) && LruOk(c) && n < |c.lru| && c.lru[n] < |c.entries|
    requires (f == c || f == Flushed(c, c.lru[n])) && i in c.lru[n..] && IdleAt(c, i) && !IdleAt(c, c.lru[n])
    ensures i in c.lru[n + 1..] && i < |f.entries| && f.entries[i] == c.entries[i] && f.lru == c.lru
    ensures IdleAt(f, i)
  {
    assert c.lru[n..] == [c.lru[n]] + c.lru[n + 1..];
    assert i in c.lru;
  }

  /** Entry r has been got for item k: one reference more, and it is the newest. All others
      have the references, the item and the data that they had. */
  ghost predicate Got<D>(c: Cache<D>, c': Cache<D>, r: nat, k: Key) {
    && r < |c.entries| == |c'.entries| && c'.entries[r].key == k && c'.lru == Without(c.lru, r) + [r]
    && forall i :: 0 <= i < |c.entries| ==>
         && c'.entries[i].refCount == c.entries[i].refCount + (if i == r then 1 else 0)
         && (i != r ==> c'.entries[i].key == c.entries[i].key && c'.entries[i].data == c.entries[i].data)
  }

  /** get_buffer and get_inode take the item's own entry, or else the oldest of those that
      are neither dirty nor held, which then holds nothing yet. */
  lemma GetTakesOldest<D>(c: Cache<D>, k: Key)
    requires Good(c) && k in c.disk && k != NoKey()
    ensures var (r, c') := GetEntry(c, k);
            && (r.Some? ==> Got(c, c', r.value, k))
            && (r.Some? && c.entries[r.value].key == k ==>
                  c'.entries[r.value] == c.entries[r.value].(refCount := c.entries[r.value].refCount + 1))
            && (r.Some? && c.entries[r.value].key != k ==>
                  && IdleAt(c, r.value) && c'.entries[r.value].state == Invalid
                  && forall i: nat :: i != r.value && IdleAt(c, i) ==> Older(c.lru, r.value, i))
            && (r.None? ==> c'.lru == c.lru)
  {
    FoundIs(c, k);
    GoodShape(c);
    if FromHash(c, k).None? { VictimTaken(c, k); }
    hide FromLru, FromHash, LruOk, HashOk, Older, Good, Replaced;
  }

  lemma ReadTakesOldest<D>(c: Cache<D>, k: Key)
    requires Good(c) && k in c.disk && k != NoKey()
    ensures var (r, c') := ReadEntry(c, k);
            && r == GetEntry(c, k).0 && (r.Some? ==> Got(c, c', r.value, k)) && (r.None? ==> c'.lru == c.lru)
  {
    GetTakesOldest(c, k);
    hide Good, GetEntry, LruOk, HashOk, Older;
  }

  lemma VictimTaken<D>(c: Cache<D>, k: Key)
    requires Good(c)
    ensures var (r, m) := FromLru(c, 0);
            && m.lru == c.lru && |m.entries| == |m.hash| == |c.entries|
            && (r.Some? ==>
                  && r.value < |c.entries| && IdleAt(c, r.value) && m.entries[r.value].bucket < |m.hash|
                  && Got(c, Hold(Replaced(m, r.value, k), r.value, 1), r.value, k)
                  && Replaced(m, r.value, k).entries[r.value].state == Invalid
                  && forall i: nat :: i != r.value && IdleAt(c, i) ==> Older(c.lru, r.value, i))
  {
    FromLruIs(c, 0);
    VictimIsOldest(c, 0);
    GoodShape(c);
    GoodShape(FromLru(c, 0).1);
    assert c.lru[0..] == c.lru;
    hide FromLru, SameView, Older, Good;
  }

  lemma FoundIs<D>(c: Cache<D>, k: Key)
    requires Good(c) && k != NoKey()
    ensures var r := FromHash(c, k);
            && (r.Some? ==> r.value < |c.entries| && c.entries[r.value].key == k)
            && (r.None? ==> forall i :: 0 <= i < |c.entries| ==> c.entries[i].key != k)
  {
    forall i: nat | i < |c.entries| ensures FromHash(c, k) == Some(i) <==> c.entries[i].key == k {
      FromHashExact(c, k, i);
    }
    hide HashOk, LruOk;
  }

  // ----- over runs -----

  /** The entry that a call returns. */
  ghost function Returned<D>(c: Cache<D>, a: Call<D>): Option<nat>
    requires Good(c)
  {
    if (a.Get? || a.Read?) then GetEntry(c, a.k).0 else None
  }

  lemma StepOrder<D>(c: Cache<D>, a: Call<D>)
    requires Good(c) && Allowed(c, a)
    ensures var r, c' := Returned(c, a), After(c, a);
            c'.lru == (if r.Some? then Without(c.lru, r.value) + [r.value] else c.lru)
    ensures Returned(c, a).Some? ==> Returned(c, a).value < |c.entries|
  {
    if a.Get? || a.Read? { GetTakesOldest(c, a.k); }
    if a.Sync? { SyncOrder(c, 0); }
    hide Good, GetEntry, SyncFrom;
  }

  lemma {:induction false} SyncOrder<D>(c: Cache<D>, n: nat)
    requires n <= |c.lru| && forall i: nat :: i in c.lru ==> i < |c.entries|
    ensures SyncFrom(c, n).lru == c.lru
    decreases |c.lru| - n
  {
    if n < |c.lru| {
      var i := c.lru[n];
      assert i in c.lru;
      SyncOrder(if c.entries[i].state == Dirty then Flushed(c, i) else c, n + 1);
    }
  }

  /** From when v was got until j is, j is the older one. */
  lemma {:induction false} StaysOlder<D(!new)>(caches: seq<Cache<D>>, calls: seq<Call<D>>, f: nat, w: nat, v: nat,
                                               j: nat)
    requires Run(caches, calls) && f < w < |caches| == |calls| + 1 && Good(caches[f]) && Good(caches[w])
    requires v != j && j in caches[f].lru && Returned(caches[f], calls[f]) == Some(v)
    requires forall g :: f < g < w ==> Good(caches[g]) && Returned(caches[g], calls[g]) != Some(j)
    ensures j in caches[w].lru && v in caches[w].lru && Older(caches[w].lru, j, v)
    decreases w
  {
    hide *;
    CallOrder(caches, calls, w - 1);
    LruHas(caches[w - 1]);
    LruHas(caches[f]);
    if f < w - 1 { StaysOlder(caches, calls, f, w - 1, v, j); }
    var r := Returned(caches[w - 1], calls[w - 1]);
    if r.Some? { Renewed(caches[w - 1].lru, r.value, j, v); }
  }

  lemma CallOrder<D(!new)>(caches: seq<Cache<D>>, calls: seq<Call<D>>, n: nat)
    requires Run(caches, calls) && n < |calls|
    ensures |caches| == |calls| + 1 && Good(caches[n])
    ensures var r := Returned(caches[n], calls[n]);
            && (r.Some? ==> r.value in caches[n].lru)
            && caches[n + 1].lru == if r.Some? then Without(caches[n].lru, r.value) + [r.value] else caches[n].lru
  {
    assert Good(caches[n]) && Allowed(caches[n], calls[n]) && caches[n + 1] == After(caches[n], calls[n]);
    StepOrder(caches[n], calls[n]);
    LruHas(caches[n]);
    hide Good, After, Allowed, Returned;
  }

  lemma LruHas<D>(c: Cache<D>)
    requires Good(c)
    ensures Distinct(c.lru) && forall i: nat :: i in c.lru <==> i < |c.entries|
  {
  }

  /** In every run, what is taken for another item was got least recently of all entries that
      are neither dirty nor held: each of those has been got since it was. */
  lemma LeastRecent<D(!new)>(caches: seq<Cache<D>>, calls: seq<Call<D>>, f: nat, w: nat, v: nat, j: nat)
    requires Run(caches, calls) && f < w < |calls| && |caches| == |calls| + 1 && Good(caches[f]) && Good(caches[w])
    requires Returned(caches[f], calls[f]) == Some(v) && Returned(caches[w], calls[w]) == Some(v)
    requires v < |caches[w].entries| && caches[w].entries[v].key != calls[w].k && v != j && IdleAt(caches[w], j)
    ensures exists g :: f < g < w && Good(caches[g]) && Returned(caches[g], calls[g]) == Some(j)
  {
    TakenIsOlder(caches, calls, w, v, j);
    SameSize(caches, calls, f);
    SameSize(caches, calls, w);
    LruHas(caches[f]);
    LruHas(caches[w]);
    forall i | 0 <= i < |calls| ensures Good(caches[i]) {}
    hide Run, Good, Returned, Older, Distinct;
    if forall g :: f < g < w ==> Returned(caches[g], calls[g]) != Some(j) {
      StaysOlder(caches, calls, f, w, v, j);
      OlderNot(caches[w].lru, v, j);
    }
  }

  lemma TakenIsOlder<D(!new)>(caches: seq<Cache<D>>, calls: seq<Call<D>>, w: nat, v: nat, j: nat)
    requires Run(caches, calls) && w < |calls| <= |caches| && Good(caches[w])
    requires Returned(caches[w], calls[w]) == Some(v) && v < |caches[w].entries|
    requires caches[w].entries[v].key != calls[w].k && v != j && IdleAt(caches[w], j)
    ensures Older(caches[w].lru, v, j)
  {
    assert Allowed(caches[w], calls[w]);
    GetTakesOldest(caches[w], calls[w].k);
    hide Good, GetEntry, After, Older;
  }
}
