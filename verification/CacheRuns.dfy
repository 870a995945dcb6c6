/** Runs of calls of a cache: what its items are after any number of them. */
module CacheRuns {
  import opened HashCache

  /** Entries are named by their places. Clear is the end of inode_free. */
  datatype Call<D> = Get(k: Key) | Read(k: Key) | Write(i: nat, data: D) | Release(i: nat) | Clear(i: nat) | Sync

  /** What the code asks of its callers: to hold what they change or give up. */
  predicate Allowed<D>(c: Cache<D>, a: Call<D>) {
    match a
    case Get(k) => k in c.disk && k != NoKey()
    case Read(k) => k in c.disk && k != NoKey()
    case Write(i, _) => i < |c.entries| && c.entries[i].refCount > 0 && c.entries[i].key != NoKey()
    case Release(i) => i < |c.entries| && c.entries[i].refCount > 0
    case Clear(i) => i < |c.entries| && c.entries[i].refCount == 0
    case Sync => true
  }

  ghost function After<D>(c: Cache<D>, a: Call<D>): Cache<D>
    requires Good(c) && Allowed(c, a)
  {
    match a
    case Get(k) => GetEntry(c, k).1
    case Read(k) => ReadEntry(c, k).1
    case Write(i, data) => Modified(c, i, data)
    case Release(i) => Hold(c, i, -1)
    case Clear(i) => Cleared(c, i)
    case Sync => SyncFrom(c, 0)
  }

  predicate Writes<D>(c: Cache<D>, a: Call<D>, k: Key) {
    a.Write? && a.i < |c.entries| && c.entries[a.i].key == k
  }

  predicate Clears<D>(c: Cache<D>, a: Call<D>, k: Key) {
    a.Clear? && a.i < |c.entries| && c.entries[a.i].key == k
  }

  /** One call: only a write of its item changes an item, unless the item is cleared. */
  lemma StepView<D>(c: Cache<D>, a: Call<D>, k: Key)
    requires Good(c) && Allowed(c, a) && k in c.disk
    ensures Good(After(c, a)) && k in After(c, a).disk
    ensures !Clears(c, a, k) ==> View(After(c, a), k) == if Writes(c, a, k) then a.data else View(c, k)
  {
    hide Good, View, GetEntry, ReadEntry, SyncFrom, Idle;
    match a
    case Get(x) => GetEntryGood(c, x);
    case Read(x) => ReadEntryGood(c, x);
    case Write(i, data) => ModifiedGood(c, i, data);
    case Release(i) => HoldGood(c, i, -1);
    case Clear(i) => ClearedGood(c, i);
    case Sync => SyncAll(c);
  }

  ghost predicate Run<D(!new)>(caches: seq<Cache<D>>, calls: seq<Call<D>>) {
    && |caches| == |calls| + 1 && Good(caches[0])
    && forall i :: 0 <= i < |calls| ==>
         Good(caches[i]) && Allowed(caches[i], calls[i]) && caches[i + 1] == After(caches[i], calls[i])
  }

  /** At any point of any run the cache is good. So no two entries are for the same
      item, and one search finds an item's entry exactly when there is one. */
  lemma {:induction false} RunGood<D(!new)>(caches: seq<Cache<D>>, calls: seq<Call<D>>, m: nat, k: Key)
    requires Run(caches, calls) && m < |caches| && k in caches[0].disk
    ensures Good(caches[m]) && k in caches[m].disk
    decreases m
  {
    hide Good, After, Allowed;
    if m > 0 {
      RunGood(caches, calls, m - 1, k);
      assert caches[m - 1 + 1] == After(caches[m - 1], calls[m - 1]);
      StepView(caches[m - 1], calls[m - 1], k);
    }
  }

  /** Nothing between two points of the run is about the item. */
  ghost predicate LeftAlone<D(!new)>(caches: seq<Cache<D>>, calls: seq<Call<D>>, m: nat, n: nat, k: Key)
    requires n <= |calls| <= |caches|
  {
    forall i :: m <= i < n ==> !Writes(caches[i], calls[i], k) && !Clears(caches[i], calls[i], k)
  }

  lemma {:induction false} ViewStays<D(!new)>(caches: seq<Cache<D>>, calls: seq<Call<D>>, m: nat, n: nat, k: Key)
    requires Run(caches, calls) && m <= n <= |calls| && |caches| == |calls| + 1 && k in caches[0].disk
    requires LeftAlone(caches, calls, m, n, k)
    ensures k in caches[m].disk && k in caches[n].disk && View(caches[n], k) == View(caches[m], k)
    decreases n
  {
    hide Good, After, Allowed, View, Writes, Clears;
    RunGood(caches, calls, n, k);
    if m < n {
      ViewStays(caches, calls, m, n - 1, k);
      assert caches[n - 1 + 1] == After(caches[n - 1], calls[n - 1]);
      assert !Writes(caches[n - 1], calls[n - 1], k) && !Clears(caches[n - 1], calls[n - 1], k);
      StepView(caches[n - 1], calls[n - 1], k);
    }
  }

  /** What an item is at point n: what was written at point m, or, if m is 0 and
      nothing was written, what it was at the start. */
  ghost predicate LastWrite<D(!new)>(caches: seq<Cache<D>>, calls: seq<Call<D>>, m: nat, n: nat, k: Key, d: D)
    requires n <= |calls| <= |caches|
  {
    || (m < n && Writes(caches[m], calls[m], k) && calls[m].data == d && LeftAlone(caches, calls, m + 1, n, k))
    || (|caches| > 0 && k in caches[0].disk && View(caches[0], k) == d && LeftAlone(caches, calls, 0, n, k))
  }

  lemma RunView<D(!new)>(caches: seq<Cache<D>>, calls: seq<Call<D>>, m: nat, n: nat, k: Key, d: D)
    requires Run(caches, calls) && n <= |calls| && |caches| == |calls| + 1 && k in caches[0].disk
    requires LastWrite(caches, calls, m, n, k, d)
    ensures Good(caches[n]) && k in caches[n].disk && View(caches[n], k) == d
  {
    RunGood(caches, calls, n, k);
    hide Good, After, Allowed, View, LeftAlone;
    if m < n && Writes(caches[m], calls[m], k) && calls[m].data == d && LeftAlone(caches, calls, m + 1, n, k) {
      RunGood(caches, calls, m, k);
      assert caches[m + 1] == After(caches[m], calls[m]);
      StepView(caches[m], calls[m], k);
      ViewStays(caches, calls, m + 1, n, k);
    } else {
      ViewStays(caches, calls, 0, n, k);
    }
  }

  /** In every run, a read that finds an entry finds in it what was written last,
      whatever was evicted, written out and read again meanwhile, and it finds none
      exactly when the item is not cached and every entry is dirty or held. */
  lemma ReadsLastWritten<D(!new)>(caches: seq<Cache<D>>, calls: seq<Call<D>>, m: nat, n: nat, k: Key, d: D)
    requires Run(caches, calls) && n < |calls| && |caches| == |calls| + 1 && k in caches[0].disk
    requires calls[n] == Read(k) && LastWrite(caches, calls, m, n, k, d)
    ensures Good(caches[n]) && k in caches[n].disk
    ensures var c, r := caches[n], ReadEntry(caches[n], k).0;
            && (r.Some? ==> r.value < |caches[n + 1].entries| && caches[n + 1].entries[r.value].key == k
                            && caches[n + 1].entries[r.value].data == d)
            && (r.None? <==> forall i :: 0 <= i < |c.entries| ==> c.entries[i].key != k && !Idle(c.entries[i]))
  {
    RunView(caches, calls, m, n, k, d);
    assert Allowed(caches[n], calls[n]) && caches[n + 1] == After(caches[n], calls[n]);
    hide Good, View, ReadEntry, Run, LastWrite, Idle;
    ReadEntryGood(caches[n], k);
  }

  /** And a sync leaves that on the disk. */
  lemma SyncsLastWritten<D(!new)>(caches: seq<Cache<D>>, calls: seq<Call<D>>, m: nat, n: nat, k: Key, d: D)
    requires Run(caches, calls) && n < |calls| && |caches| == |calls| + 1 && k in caches[0].disk
    requires calls[n] == Sync && LastWrite(caches, calls, m, n, k, d)
    ensures k in caches[n + 1].disk && caches[n + 1].disk[k] == d
  {
    RunView(caches, calls, m, n, k, d);
    assert Allowed(caches[n], calls[n]) && caches[n + 1] == After(caches[n], calls[n]);
    hide Good, View, SyncFrom, Run, LastWrite;
    SyncAll(caches[n]);
  }

  // ----- entries that are never given up -----

  /** The item has an entry, and that is held. */
  ghost predicate KeptFor<D>(c: Cache<D>, k: Key) {
    exists i :: 0 <= i < |c.entries| && c.entries[i].key == k && c.entries[i].refCount > 0
  }

  /** The call asks for item k and gets an entry. */
  ghost predicate Gets<D>(c: Cache<D>, a: Call<D>, k: Key) {
    Good(c) && Allowed(c, a) && (a == Get(k) || a == Read(k)) && GetEntry(c, k).0.Some?
  }

  /** The call gives up a reference to the entry of item k. */
  predicate GivesUp<D>(c: Cache<D>, a: Call<D>, k: Key) {
    a.Release? && a.i < |c.entries| && c.entries[a.i].key == k
  }

  lemma StepKept<D>(c: Cache<D>, a: Call<D>, k: Key)
    requires Good(c) && Allowed(c, a) && !GivesUp(c, a, k)
    ensures |After(c, a).entries| == |c.entries|
    ensures KeptFor(c, k) || Gets(c, a, k) ==> KeptFor(After(c, a), k)
  {
    hide Good, GetEntry, ReadEntry, SyncFrom, LruOk, HashOk, Idle, SameView;
    if !a.Release? { StepHeld(c, a); }
    if a.Get? { GetEntryGood(c, a.k); }
    if a.Read? { ReadEntryGood(c, a.k); GetEntryGood(c, a.k); }
    hide After;
    if i :| 0 <= i < |c.entries| && c.entries[i].key == k && c.entries[i].refCount > 0 {
      assert After(c, a).entries[i].key == k && After(c, a).entries[i].refCount > 0;
    }
  }

  lemma StepHeld<D>(c: Cache<D>, a: Call<D>)
    requires Good(c) && Allowed(c, a) && !a.Release?
    ensures HeldStay(c, After(c, a))
  {
    GoodShape(c);
    LruEntries(c);
    hide Good, GetEntry, ReadEntry, SyncFrom, LruOk, HashOk;
    match a {
    case Get(x) => GetKeepsHeld(c, x);
    case Read(x) => ReadKeepsHeld(c, x);
    case Sync => SyncKeepsHeld(c, 0);
    case _ =>
    }
  }

  lemma LruEntries<D>(c: Cache<D>)
    requires Good(c)
    ensures forall i: nat :: i in c.lru ==> i < |c.entries|
  {
  }

  lemma {:induction false} StaysKept<D(!new)>(caches: seq<Cache<D>>, calls: seq<Call<D>>, m: nat, n: nat, k: Key)
    requires Run(caches, calls) && m < n <= |calls| && |caches| == |calls| + 1 && Gets(caches[m], calls[m], k)
    requires forall i :: 0 <= i < n ==> !GivesUp(caches[i], calls[i], k)
    ensures KeptFor(caches[n], k)
    decreases n
  {
    hide Good, After, Allowed, Gets, KeptFor, GivesUp;
    assert caches[n - 1 + 1] == After(caches[n - 1], calls[n - 1]) && !GivesUp(caches[n - 1], calls[n - 1], k);
    if m < n - 1 { StaysKept(caches, calls, m, n - 1, k); }
    StepKept(caches[n - 1], calls[n - 1], k);
  }

  lemma ReleaseSize<D>(c: Cache<D>, a: Call<D>)
    requires Good(c) && Allowed(c, a) && a.Release?
    ensures |After(c, a).entries| == |c.entries|
  {
  }

  lemma {:induction false} SameSize<D(!new)>(caches: seq<Cache<D>>, calls: seq<Call<D>>, n: nat)
    requires Run(caches, calls) && n <= |calls| && |caches| == |calls| + 1
    ensures |caches[n].entries| == |caches[0].entries|
    decreases n
  {
    hide Good, After, Allowed;
    if n > 0 {
      SameSize(caches, calls, n - 1);
      assert caches[n - 1 + 1] == After(caches[n - 1], calls[n - 1]);
      var a := calls[n - 1];
      if !a.Release? { StepKept(caches[n - 1], a, NoKey()); } else { ReleaseSize(caches[n - 1], a); }
    }
  }

  /** The items of the first n entries that are held. */
  ghost function KeptKeys<D>(c: Cache<D>, n: nat): set<Key>
    requires n <= |c.entries|
  {
    if n == 0 then {} else
    KeptKeys(c, n - 1) + if c.entries[n - 1].refCount > 0 then {c.entries[n - 1].key} else {}
  }

  lemma {:induction false} KeptKeysAre<D>(c: Cache<D>, n: nat)
    requires n <= |c.entries|
    ensures |KeptKeys(c, n)| <= n
    ensures |KeptKeys(c, n)| == n ==> forall i :: 0 <= i < n ==> c.entries[i].refCount > 0
    ensures forall i :: 0 <= i < n && c.entries[i].refCount > 0 ==> c.entries[i].key in KeptKeys(c, n)
  {
    if n > 0 { KeptKeysAre(c, n - 1); }
  }

  /** As many items kept as there are entries: all entries are held, for those items. */
  lemma AllKept<D>(c: Cache<D>, keys: set<Key>)
    requires |keys| == |c.entries| && forall k :: k in keys ==> KeptFor(c, k)
    ensures forall i :: 0 <= i < |c.entries| ==> c.entries[i].refCount > 0 && c.entries[i].key in keys
  {
    var n := |c.entries|;
    KeptKeysAre(c, n);
    forall k | k in keys ensures k in KeptKeys(c, n) {
      var i :| 0 <= i < n && c.entries[i].key == k && c.entries[i].refCount > 0;
    }
    Subset(keys, KeptKeys(c, n));
  }

  lemma Subset(a: set<Key>, b: set<Key>)
    requires a <= b && |b| <= |a|
    ensures a == b
  {
    var rest := b - a;
    assert b == a + rest && |b| == |a| + |rest|;
  }

  /** inode_read and inode_write never give up the buffers of data blocks. When as many blocks
      have been got and not given up as there are buffers, the next other one stops the kernel
      at the assertion of get_buffer, whatever was done otherwise. */
  lemma LeakStops<D(!new)>(caches: seq<Cache<D>>, calls: seq<Call<D>>, n: nat, keys: set<Key>, k: Key)
    requires Run(caches, calls) && n <= |calls| && |caches| == |calls| + 1
    requires forall x, i :: x in keys && 0 <= i < n ==> !GivesUp(caches[i], calls[i], x)
    requires forall x :: x in keys ==> exists i :: 0 <= i < n && Gets(caches[i], calls[i], x)
    requires |keys| == |caches[0].entries| && k !in keys && k in caches[0].disk && k != NoKey()
    ensures Good(caches[n]) && k in caches[n].disk && GetEntry(caches[n], k).0.None?
  {
    RunGood(caches, calls, n, k);
    SameSize(caches, calls, n);
    forall x | x in keys ensures KeptFor(caches[n], x) {
      var i :| 0 <= i < n && Gets(caches[i], calls[i], x);
      StaysKept(caches, calls, i, n, x);
    }
    hide Run, Good, KeptFor, Gets, GivesUp;
    AllKept(caches[n], keys);
    GetEntryGood(caches[n], k);
  }
}
