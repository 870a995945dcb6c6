/** The caches of buffer.c and itable.c: entries in hash lists by device and number
    and in one list by age, over a store whose requests are done at once. For the
    buffers there are 256 entries and as many lists, for the inodes 128. */
module HashCache {
  import opened Blocks
  import opened Lists
  import opened Options

  datatype Key = Key(device: int, number: int)

  /** bucket is the hash list that hash_chain links the entry into. */
  datatype Entry<D> = Entry(refCount: nat, state: EntryState, key: Key, bucket: nat, data: D)

  /** lru and the lists of hash hold places of entries. */
  datatype Cache<D> = Cache(entries: seq<Entry<D>>, lru: seq<nat>, hash: seq<seq<nat>>, disk: map<Key, D>)

  /** The key of an entry that is not used. */
  function NoKey(): Key { Key(-1, -1) }

  /** (device + number) & (n - 1), for a power of two n */
  function Hash(k: Key, n: nat): (h: nat)
    requires n > 0
    ensures h < n
  {
    (k.device + k.number) % n
  }

  ghost predicate Shape<D>(c: Cache<D>) {
    |c.entries| == |c.hash| > 0
  }

  /** Every entry is once in the list by age. */
  ghost predicate LruOk<D>(c: Cache<D>) {
    Distinct(c.lru) && forall i: nat :: i in c.lru <==> i < |c.entries|
  }

  /** Every entry is once in the hash list its chain says and in no other. */
  ghost predicate HashOk<D>(c: Cache<D>)
    requires Shape(c)
  {
    && (forall h :: 0 <= h < |c.hash| ==> Distinct(c.hash[h]))
    && (forall h, i: nat {:trigger i in c.hash[h]} :: 0 <= h < |c.hash| && i in c.hash[h] ==>
         i < |c.entries| && c.entries[i].bucket == h)
    && (forall i: nat :: i < |c.entries| ==> c.entries[i].bucket < |c.hash| && i in c.hash[c.entries[i].bucket])
  }

  /** No two entries are for the same item, and one that is for an item is in the
      hash list of its key. One that is not used may be in any list. */
  ghost predicate KeysOk<D>(c: Cache<D>)
    requires Shape(c)
  {
    && (forall i, j | 0 <= i < |c.entries| && 0 <= j < |c.entries| ::
          c.entries[i].key == c.entries[j].key && c.entries[i].key != NoKey() ==> i == j)
    && (forall i :: 0 <= i < |c.entries| ==>
          if c.entries[i].key == NoKey() then c.entries[i].state == Invalid
          else c.entries[i].key in c.disk && c.entries[i].bucket == Hash(c.entries[i].key, |c.hash|))
  }

  /** A clean entry holds what is on the disk. */
  ghost predicate CleanOk<D>(c: Cache<D>)
    requires Shape(c)
  {
    forall i :: 0 <= i < |c.entries| && c.entries[i].state == Clean ==>
      c.entries[i].key in c.disk && c.disk[c.entries[i].key] == c.entries[i].data
  }

  ghost predicate Good<D>(c: Cache<D>) {
    Shape(c) && LruOk(c) && HashOk(c) && KeysOk(c) && CleanOk(c)
  }

  /** Entry i holds the item. */
  predicate Holds<D>(c: Cache<D>, i: int, k: Key) {
    0 <= i < |c.entries| && c.entries[i].key == k && c.entries[i].state != Invalid
  }

  ghost predicate Held<D>(c: Cache<D>, k: Key) { exists i :: Holds(c, i, k) }

  ghost function Holder<D>(c: Cache<D>, k: Key): (i: int)
    requires Held(c, k)
    ensures Holds(c, i, k)
  {
    var i :| Holds(c, i, k); i
  }

  /** What an item is, seen through the cache. */
  ghost function View<D>(c: Cache<D>, k: Key): D
    requires k in c.disk
  {
    if Held(c, k) then c.entries[Holder(c, k)].data else c.disk[k]
  }

  lemma ViewCached<D>(c: Cache<D>, i: int, k: Key)
    requires Good(c) && k in c.disk && Holds(c, i, k)
    ensures View(c, k) == c.entries[i].data
  {
    hide LruOk, HashOk, CleanOk;
    var j := Holder(c, k);
    assert c.entries[i].key == c.entries[j].key && k != NoKey();
  }

  ghost predicate SameView<D>(c: Cache<D>, c': Cache<D>) {
    && (forall k :: k in c.disk <==> k in c'.disk)
    && (forall k :: k in c.disk && k in c'.disk ==> View(c', k) == View(c, k))
  }

  lemma SameViewTransitive<D>(c: Cache<D>, c': Cache<D>, c'': Cache<D>)
    requires SameView(c, c') && SameView(c', c'')
    ensures SameView(c, c'')
  {
  }

  /** The view of an item is the same where the same entry holds the same. */
  lemma ViewHeld<D>(c: Cache<D>, c': Cache<D>, k: Key, i: int)
    requires Good(c) && Good(c') && k in c.disk && k in c'.disk
    requires Holds(c, i, k) && Holds(c', i, k) && c'.entries[i].data == c.entries[i].data
    ensures View(c', k) == View(c, k)
  {
    hide Good;
    ViewCached(c, i, k);
    ViewCached(c', i, k);
  }

  /** Whether the lists are right is a matter of the buckets. */
  lemma SameBuckets<D>(c: Cache<D>, c': Cache<D>)
    requires Shape(c) && LruOk(c) && HashOk(c) && Shape(c') && c'.lru == c.lru && c'.hash == c.hash
    requires |c'.entries| == |c.entries| && forall i :: 0 <= i < |c.entries| ==>
              c'.entries[i].bucket == c.entries[i].bucket
    ensures LruOk(c') && HashOk(c')
  {
  }

  // ----- the steps -----

  function WithEntry<D>(c: Cache<D>, i: nat, b: Entry<D>): Cache<D>
    requires i < |c.entries|
  {
    c.(entries := c.entries[i := b])
  }

  /** A write request, done. */
  function Flushed<D>(c: Cache<D>, i: nat): Cache<D>
    requires i < |c.entries|
  {
    var b := c.entries[i];
    WithEntry(c, i, b.(state := Clean)).(disk := c.disk[b.key := b.data])
  }

  lemma FlushedGood<D>(c: Cache<D>, i: nat)
    requires Good(c) && i < |c.entries| && c.entries[i].state == Dirty
    ensures Good(Flushed(c, i)) && SameView(c, Flushed(c, i))
  {
    var c' := Flushed(c, i);
    FlushedShape(c, i);
    hide Good;
    forall k | k in c.disk ensures View(c', k) == View(c, k) {
      if Held(c, k) {
        ViewHeld(c, c', k, Holder(c, k));
      } else {
        assert Holds(c, i, c.entries[i].key);
        assert forall j :: Holds(c', j, k) ==> Holds(c, j, k);
      }
    }
  }

  lemma FlushedShape<D>(c: Cache<D>, i: nat)
    requires Good(c) && i < |c.entries| && c.entries[i].state == Dirty
    ensures Good(Flushed(c, i)) && forall k :: k in c.disk <==> k in Flushed(c, i).disk
  {
    SameBuckets(c, Flushed(c, i));
    hide HashOk, LruOk;
    assert c.entries[i].key in c.disk && c.entries[i].key != NoKey();
  }

  /** A read request, done. */
  function Loaded<D>(c: Cache<D>, i: nat): Cache<D>
    requires i < |c.entries| && c.entries[i].key in c.disk
  {
    var b := c.entries[i];
    WithEntry(c, i, b.(state := Clean, data := c.disk[b.key]))
  }

  lemma LoadedGood<D>(c: Cache<D>, i: nat)
    requires Good(c) && i < |c.entries| && c.entries[i].state == Invalid && c.entries[i].key in c.disk
    requires c.entries[i].key != NoKey()
    ensures Good(Loaded(c, i)) && SameView(c, Loaded(c, i))
  {
    var c', key := Loaded(c, i), c.entries[i].key;
    SameBuckets(c, c');
    NotHeld(c, i);
    hide Good;
    forall k | k in c.disk ensures View(c', k) == View(c, k) {
      if k == key {
        ViewCached(c', i, k);
      } else if Held(c, k) {
        ViewHeld(c, c', k, Holder(c, k));
      } else {
        assert forall j :: Holds(c', j, k) ==> Holds(c, j, k);
      }
    }
  }

  /** A key whose entry holds nothing is not held. */
  lemma NotHeld<D>(c: Cache<D>, i: nat)
    requires Good(c) && i < |c.entries| && c.entries[i].state == Invalid && c.entries[i].key != NoKey()
    ensures !Held(c, c.entries[i].key)
  {
    hide LruOk, HashOk, CleanOk;
  }

  /** get_buffer_from_hash and get_inode_from_hash: the first in the list with the key. */
  function FirstWith<D>(c: Cache<D>, q: seq<nat>, k: Key): (r: Option<nat>)
    ensures r.Some? ==> r.value in q && r.value < |c.entries| && c.entries[r.value].key == k
    ensures r.None? ==> forall i: nat :: i in q && i < |c.entries| ==> c.entries[i].key != k
  {
    if q == [] then None
    else if q[0] < |c.entries| && c.entries[q[0]].key == k then Some(q[0])
    else FirstWith(c, q[1..], k)
  }

  function FromHash<D>(c: Cache<D>, k: Key): Option<nat>
    requires |c.hash| > 0
  {
    FirstWith(c, c.hash[Hash(k, |c.hash|)], k)
  }

  /** The search in one list finds the entry of an item exactly when there is one,
      although cleared entries are left in the lists of their former keys. */
  lemma FromHashExact<D>(c: Cache<D>, k: Key, i: nat)
    requires Good(c) && k != NoKey() && i < |c.entries|
    ensures FromHash(c, k) == Some(i) <==> c.entries[i].key == k
  {
    hide LruOk, CleanOk;
    if c.entries[i].key == k {
      assert i in c.hash[Hash(k, |c.hash|)];
    }
  }

  /** get_buffer_from_lru and get_inode_from_lru, from place n of the list on: dirty entries are written
      and passed over, and the first that is not in use is taken. */
  function FromLru<D>(c: Cache<D>, n: nat): (Option<nat>, Cache<D>)
    requires n <= |c.lru| && forall i: nat :: i in c.lru ==> i < |c.entries|
    decreases |c.lru| - n
  {
    if n == |c.lru| then (None, c) else
    var i := c.lru[n];
    assert i in c.lru;
    if c.entries[i].state == Dirty then FromLru(Flushed(c, i), n + 1)
    else if c.entries[i].refCount != 0 then FromLru(c, n + 1)
    else (Some(i), c)
  }

  /** It could be taken. */
  predicate Idle<D>(b: Entry<D>) { b.state != Dirty && b.refCount == 0 }

  /** The same entries, apart from what has been written to the disk meanwhile. */
  ghost predicate Written<D>(c: Cache<D>, c': Cache<D>)
    requires Shape(c) && Shape(c')
  {
    && c'.lru == c.lru && c'.hash == c.hash && |c'.entries| == |c.entries|
    && forall i :: 0 <= i < |c.entries| ==>
         && c'.entries[i].key == c.entries[i].key && c'.entries[i].bucket == c.entries[i].bucket &&
              c'.entries[i].refCount == c.entries[i].refCount
         && c'.entries[i].data == c.entries[i].data
         && (c.entries[i].state != Dirty ==> c'.entries[i].state == c.entries[i].state)
         && (c.entries[i].state == Dirty ==> c'.entries[i].state != Invalid)
  }

  /** A victim is neither dirty nor held, and there is none only if every entry was
      dirty or held when the search began. */
  lemma {:induction false} FromLruIs<D>(c: Cache<D>, n: nat)
    requires Good(c) && n <= |c.lru|
    ensures var (r, c') := FromLru(c, n);
            && Good(c') && SameView(c, c') && Written(c, c')
            && (r.Some? ==>
                  && r.value < |c.entries| && r.value in c.lru[n..]
                  && Idle(c'.entries[r.value]) && Idle(c.entries[r.value]))
            && (r.None? <==> forall m: nat :: n <= m < |c.lru| ==> c.lru[m] < |c.entries| && !Idle(c.entries[c.lru[m]]))
    decreases |c.lru| - n
  {
    hide Good, Flushed, Holds, Distinct, SameView, HashOk;
    GoodShape(c);
    if n < |c.lru| {
      var i := c.lru[n];
      assert i in c.lru && c.lru[n..] == [i] + c.lru[n + 1..];
      OthersLater(c, i, n);
      if c.entries[i].state == Dirty {
        FlushedGood(c, i);
        FlushedIs(c, i);
        var f := Flushed(c, i);
        FromLruIs(f, n + 1);
        SameViewTransitive(c, f, FromLru(f, n + 1).1);
      } else if c.entries[i].refCount != 0 {
        FromLruIs(c, n + 1);
      } else {
        SameViewSelf(c);
      }
    } else {
      SameViewSelf(c);
    }
  }

  lemma GoodShape<D>(c: Cache<D>)
    requires Good(c)
    ensures Shape(c) && LruOk(c) && HashOk(c)
  {
  }

  lemma SameViewSelf<D>(c: Cache<D>)
    ensures SameView(c, c)
  {
  }

  lemma FlushedIs<D>(c: Cache<D>, i: nat)
    requires Shape(c) && i < |c.entries|
    ensures var b := c.entries[i];
            Flushed(c, i) == Cache(c.entries[i := b.(state := Clean)], c.lru, c.hash, c.disk[b.key := b.data])
  {
  }

  /** Flushing the one at place n makes none of the later ones idle. */
  lemma OthersLater<D>(c: Cache<D>, i: nat, n: nat)
    requires Shape(c) && LruOk(c) && n < |c.lru| && c.lru[n] == i
    ensures i < |c.entries| && i !in c.lru[n + 1..]
    ensures forall m: nat :: n < m < |c.lru| ==>
              c.lru[m] < |c.entries| && Flushed(c, i).entries[c.lru[m]] == c.entries[c.lru[m]]
  {
    assert c.lru[n] in c.lru;
    forall m: nat | n < m < |c.lru| ensures c.lru[m] < |c.entries| && c.lru[m] != i { assert c.lru[m] in c.lru; }
  }

  /** buffer_mark_mru and inode_mark_mru */
  function MarkMru<D>(c: Cache<D>, i: nat): Cache {
    c.(lru := Without(c.lru, i) + [i])
  }

  lemma MarkMruGood<D>(c: Cache<D>, i: nat)
    requires Good(c) && i < |c.entries|
    ensures Good(MarkMru(c, i)) && SameView(c, MarkMru(c, i))
  {
    var c' := MarkMru(c, i);
    WithoutIs(c.lru, i);
    AppendDistinct(Without(c.lru, i), i);
    SameEntrys(c, c');
  }

  /** The view is a matter of the entries and the disk. */
  lemma SameEntrys<D>(c: Cache<D>, c': Cache<D>)
    requires Good(c) && Shape(c') && LruOk(c') && c'.entries == c.entries && c'.hash == c.hash && c'.disk == c.disk
    ensures Good(c') && SameView(c, c')
  {
    hide LruOk;
    forall k | k in c.disk ensures View(c', k) == View(c, k) {
      if Held(c, k) {
        ViewHeld(c, c', k, Holder(c, k));
      } else {
        assert forall j :: Holds(c', j, k) ==> Holds(c, j, k);
      }
    }
  }

  function Hold<D>(c: Cache<D>, i: nat, more: int): Cache<D>
    requires i < |c.entries| && c.entries[i].refCount + more >= 0
  {
    WithEntry(c, i, c.entries[i].(refCount := c.entries[i].refCount + more))
  }

  lemma HoldGood<D>(c: Cache<D>, i: nat, more: int)
    requires Good(c) && i < |c.entries| && c.entries[i].refCount + more >= 0
    ensures Good(Hold(c, i, more)) && SameView(c, Hold(c, i, more))
  {
    var c' := Hold(c, i, more);
    SameBuckets(c, c');
    hide HashOk, LruOk;
    assert Good(c');
    hide Good;
    forall k | k in c.disk ensures View(c', k) == View(c, k) {
      if Held(c, k) {
        ViewHeld(c, c', k, Holder(c, k));
      } else {
        assert forall j :: Holds(c', j, k) ==> Holds(c, j, k);
      }
    }
  }

  /** The entry i is for k from now on. */
  function Replaced<D>(c: Cache<D>, i: nat, k: Key): Cache<D>
    requires Shape(c) && i < |c.entries| && c.entries[i].bucket < |c.hash|
  {
    var b, h := c.entries[i], Hash(k, |c.hash|);
    var hash := c.hash[b.bucket := Without(c.hash[b.bucket], i)];
    Cache(c.entries[i := b.(state := Invalid, key := k, bucket := h)], Without(c.lru, i) + [i],
          hash[h := hash[h] + [i]], c.disk)
  }

  lemma ReplacedLists<D>(c: Cache<D>, i: nat, k: Key)
    requires Shape(c) && LruOk(c) && HashOk(c) && i < |c.entries|
    ensures Shape(Replaced(c, i, k)) && LruOk(Replaced(c, i, k)) && HashOk(Replaced(c, i, k))
  {
    var c', was := Replaced(c, i, k), c.entries[i].bucket;
    WithoutIs(c.lru, i);
    AppendDistinct(Without(c.lru, i), i);
    forall h: nat | h < |c.hash|
      ensures Distinct(c'.hash[h]) && forall x: nat :: x in c'.hash[h] <==>
                if x == i then h == Hash(k, |c.hash|) else x in c.hash[h]
    {
      ReplacedList(c, i, k, h);
    }
    assert |c'.hash| == |c.hash| && c'.entries == c.entries[i := c.entries[i].(state := Invalid, key := k,
        bucket := Hash(k, |c.hash|))];
    hide Distinct, Replaced, LruOk;
  }

  lemma ReplacedList<D>(c: Cache<D>, i: nat, k: Key, h: nat)
    requires Shape(c) && HashOk(c) && i < |c.entries| && h < |c.hash|
    ensures var q := Replaced(c, i, k).hash[h];
            Distinct(q) && forall x: nat :: x in q <==> if x == i then h == Hash(k, |c.hash|) else x in c.hash[h]
  {
    var was := c.entries[i].bucket;
    WithoutIs(c.hash[was], i);
    hide Without;
    assert h != was ==> i !in c.hash[h];
    if h == Hash(k, |c.hash|) {
      AppendDistinct(if h == was then Without(c.hash[was], i) else c.hash[h], i);
    }
  }

  /** Taking an entry that is not dirty for another item changes no item's view. */
  lemma ReplacedGood<D>(c: Cache<D>, i: nat, k: Key)
    requires Good(c) && i < |c.entries| && c.entries[i].state != Dirty && k in c.disk && k != NoKey()
    requires forall j :: 0 <= j < |c.entries| ==> c.entries[j].key != k
    ensures Good(Replaced(c, i, k)) && SameView(c, Replaced(c, i, k))
  {
    var c' := Replaced(c, i, k);
    ReplacedLists(c, i, k);
    hide LruOk, HashOk;
    assert Good(c');
    forall x | x in c.disk ensures View(c', x) == View(c, x) {
      if x == c.entries[i].key {
        if Held(c, x) { ViewCached(c, Holder(c, x), x); }
        assert !Held(c', x);
      } else if Held(c, x) {
        ViewHeld(c, c', x, Holder(c, x));
      } else {
        assert forall j :: Holds(c', j, x) ==> Holds(c, j, x);
      }
    }
  }

  /** get_buffer and get_inode; None where the assertion fails. */
  function GetEntry<D>(c: Cache<D>, k: Key): (Option<nat>, Cache<D>)
    requires Shape(c) && LruOk(c) && HashOk(c)
  {
    match FromHash(c, k)
    case Some(i) => (Some(i), Hold(MarkMru(c, i), i, 1))
    case None =>
      var (r, c') := FromLru(c, 0);
      if r.Some? && |c'.entries| == |c'.hash| && r.value < |c'.entries| && c'.entries[r.value].bucket < |c'.hash|
      then (r, Hold(Replaced(c', r.value, k), r.value, 1))
      else (None, c')
  }

  lemma GetEntryGood<D>(c: Cache<D>, k: Key)
    requires Good(c) && k in c.disk && k != NoKey()
    ensures var (r, c') := GetEntry(c, k);
            && Good(c') && |c'.entries| == |c.entries| && SameView(c, c')
            && (r.Some? ==> r.value < |c.entries| && c'.entries[r.value].key == k && c'.entries[r.value].refCount > 0)
            && (r.None? <==> (forall i :: 0 <= i < |c.entries| ==> c.entries[i].key != k && !Idle(c.entries[i])))
  {
    var found := FromHash(c, k);
    forall i: nat | i < |c.entries| ensures FromHash(c, k) == Some(i) <==>
        c.entries[i].key == k { FromHashExact(c, k, i); }
    assert found.Some? ==> found.value < |c.entries| && c.entries[found.value].key == k;
    hide FromHash, Good, SameView, Idle;
    if found.Some? {
      var i := found.value;
      MarkMruGood(c, i);
      HoldGood(MarkMru(c, i), i, 1);
      SameViewTransitive(c, MarkMru(c, i), Hold(MarkMru(c, i), i, 1));
    } else {
      FromLruIs(c, 0);
      AllInLru(c);
      var (r, m) := FromLru(c, 0);
      if r.Some? {
        IdleIsClean(m.entries[r.value]);
        SameBlocks(c, m, k);
        ReplacedGood(m, r.value, k);
        var e := Replaced(m, r.value, k);
        HoldGood(e, r.value, 1);
        SameViewTransitive(c, m, e);
        SameViewTransitive(c, e, Hold(e, r.value, 1));
      }
    }
  }

  /** An entry that is held is for the same item, and held, afterwards. */
  ghost predicate HeldStay<D>(c: Cache<D>, c': Cache<D>) {
    && |c'.entries| == |c.entries|
    && forall i :: 0 <= i < |c.entries| && c.entries[i].refCount > 0 ==>
         c'.entries[i].key == c.entries[i].key && c'.entries[i].refCount >= c.entries[i].refCount
  }

  lemma GetKeepsHeld<D>(c: Cache<D>, k: Key)
    requires Good(c) && k in c.disk && k != NoKey()
    ensures HeldStay(c, GetEntry(c, k).1)
  {
    GetEntryGood(c, k);
    FromLruIs(c, 0);
    hide Good, FromLru, SameView, FromHash, LruOk, HashOk;
  }

  lemma ReadKeepsHeld<D>(c: Cache<D>, k: Key)
    requires Good(c) && k in c.disk && k != NoKey()
    ensures HeldStay(c, ReadEntry(c, k).1)
  {
    GetKeepsHeld(c, k);
    hide Good, GetEntry, LruOk, HashOk;
  }

  lemma {:induction false} SyncKeepsHeld<D>(c: Cache<D>, n: nat)
    requires Shape(c) && n <= |c.lru| && forall i: nat :: i in c.lru ==> i < |c.entries|
    ensures HeldStay(c, SyncFrom(c, n))
    decreases |c.lru| - n
  {
    if n < |c.lru| {
      var i := c.lru[n];
      assert i in c.lru;
      SyncKeepsHeld(if c.entries[i].state == Dirty then Flushed(c, i) else c, n + 1);
    }
  }

  lemma IdleIsClean<D>(b: Entry<D>)
    requires Idle(b)
    ensures b.state != Dirty
  {
  }

  lemma SameBlocks<D>(c: Cache<D>, c': Cache<D>, k: Key)
    requires SameView(c, c')
    ensures k in c.disk <==> k in c'.disk
  {
  }

  lemma AllInLru<D>(c: Cache<D>)
    requires Good(c)
    ensures (forall m: nat :: m < |c.lru| ==> c.lru[m] < |c.entries| && !Idle(c.entries[c.lru[m]])) <==>
              forall i :: 0 <= i < |c.entries| ==> !Idle(c.entries[i])
  {
    hide Idle, HashOk, KeysOk, CleanOk;
    if forall m: nat :: m < |c.lru| ==> c.lru[m] < |c.entries| && !Idle(c.entries[c.lru[m]]) {
      forall i: nat | i < |c.entries| ensures !Idle(c.entries[i]) { assert i in c.lru; }
    }
    forall m: nat | m < |c.lru| ensures c.lru[m] < |c.entries| { assert c.lru[m] in c.lru; }
  }

  /** read_buffer and read_inode; a request always succeeds. */
  function ReadEntry<D>(c: Cache<D>, k: Key): (Option<nat>, Cache<D>)
    requires Shape(c) && LruOk(c) && HashOk(c) && k in c.disk
  {
    var (r, c') := GetEntry(c, k);
    if r.Some? && r.value < |c'.entries| && c'.entries[r.value].state == Invalid && c'.entries[r.value].key in c'.disk
    then (r, Loaded(c', r.value)) else (r, c')
  }

  /** A read changes no item's view, and what is in the entry is what the item is. */
  lemma ReadEntryGood<D>(c: Cache<D>, k: Key)
    requires Good(c) && k in c.disk && k != NoKey()
    ensures var (r, c') := ReadEntry(c, k);
            && Good(c') && |c'.entries| == |c.entries| && SameView(c, c')
            && (r.Some? ==> r.value < |c.entries| && c'.entries[r.value].key == k && c'.entries[r.value].refCount > 0
                            && c'.entries[r.value].state != Invalid && c'.entries[r.value].data == View(c, k))
            && (r.None? <==> (forall i :: 0 <= i < |c.entries| ==> c.entries[i].key != k && !Idle(c.entries[i])))
  {
    var (r, m) := GetEntry(c, k);
    GetEntryGood(c, k);
    hide Good, GetEntry, Idle, View;
    if r.Some? {
      GoodShape(m);
      if m.entries[r.value].state == Invalid {
        LoadedGood(m, r.value);
        SameViewTransitive(c, m, Loaded(m, r.value));
        ViewCached(Loaded(m, r.value), r.value, k);
      } else {
        ViewCached(m, r.value, k);
      }
    }
  }

  /** What a client writes into an entry that it then marks dirty. */
  function Modified<D>(c: Cache<D>, i: nat, data: D): Cache<D>
    requires i < |c.entries|
  {
    WithEntry(c, i, c.entries[i].(state := Dirty, data := data))
  }

  /** It is what the item is then, and no other item's view changes. */
  lemma ModifiedGood<D>(c: Cache<D>, i: nat, data: D)
    requires Good(c) && i < |c.entries| && c.entries[i].key != NoKey()
    ensures var c', k := Modified(c, i, data), c.entries[i].key;
            && Good(c') && k in c.disk && c'.disk == c.disk
            && forall x :: x in c.disk ==> View(c', x) == if x == k then data else View(c, x)
  {
    var c', k := Modified(c, i, data), c.entries[i].key;
    SameBuckets(c, c');
    hide HashOk, LruOk;
    assert Good(c');
    hide Good;
    forall x | x in c.disk ensures View(c', x) == if x == k then data else View(c, x) {
      if x == k {
        ViewCached(c', i, x);
      } else if Held(c, x) {
        ViewHeld(c, c', x, Holder(c, x));
      } else {
        assert forall j :: Holds(c', j, x) ==> Holds(c, j, x);
      }
    }
  }

  /** sync_all_buffer and sync_all_inode, from place n of the list on. */
  function SyncFrom<D>(c: Cache<D>, n: nat): Cache<D>
    requires n <= |c.lru| && forall i: nat :: i in c.lru ==> i < |c.entries|
    decreases |c.lru| - n
  {
    if n == |c.lru| then c else
    var i := c.lru[n];
    assert i in c.lru;
    SyncFrom(if c.entries[i].state == Dirty then Flushed(c, i) else c, n + 1)
  }

  lemma {:induction false} SyncFromIs<D>(c: Cache<D>, n: nat)
    requires Good(c) && n <= |c.lru| && forall m: nat :: m < n ==>
              c.lru[m] < |c.entries| && c.entries[c.lru[m]].state != Dirty
    ensures var c' := SyncFrom(c, n);
            && Good(c') && |c'.entries| == |c.entries| && SameView(c, c') && forall i :: 0 <= i < |c.entries| ==>
                 c'.entries[i].state != Dirty
    decreases |c.lru| - n
  {
    hide Good, Flushed, Holds, Distinct, SameView;
    GoodShape(c);
    SameViewSelf(c);
    if n == |c.lru| {
      forall i: nat | i < |c.entries| ensures c.entries[i].state != Dirty { assert i in c.lru; }
    } else {
      var i := c.lru[n];
      assert i in c.lru;
      if c.entries[i].state == Dirty {
        FlushedGood(c, i);
        FlushedIs(c, i);
        var f := Flushed(c, i);
        SyncFromIs(f, n + 1);
        SameViewTransitive(c, f, SyncFrom(f, n + 1));
      } else {
        SyncFromIs(c, n + 1);
      }
    }
  }

  /** After a sync every item is what it was, and the disk has it too. */
  lemma SyncAll<D>(c: Cache<D>)
    requires Good(c)
    ensures var c' := SyncFrom(c, 0);
            && Good(c') && |c'.entries| == |c.entries| && SameView(c, c') && forall k :: k in c.disk ==>
                 k in c'.disk && c'.disk[k] == View(c, k)
  {
    SyncFromIs(c, 0);
    var c' := SyncFrom(c, 0);
    hide LruOk, HashOk;
    forall k | k in c.disk ensures c'.disk[k] == View(c', k) {
      if Held(c', k) { ViewCached(c', Holder(c', k), k); }
    }
  }

  /** buffer_table_init and inode_table_init: all entries in one list. */
  function Empty<D>(size: nat, blank: D, disk: map<Key, D>): Cache<D>
    requires size > 0
  {
    var h0 := Hash(NoKey(), size);
    Cache(seq(size, _ => Entry(0, Invalid, NoKey(), h0, blank)), seq(size, i => i),
          seq(size, h => if h == h0 then seq(size, i => i) else []), disk)
  }

  lemma EmptyGood<D>(size: nat, blank: D, disk: map<Key, D>)
    requires size > 0
    ensures Good(Empty(size, blank, disk)) && forall k :: k in disk ==> View(Empty(size, blank, disk), k) == disk[k]
  {
    var c, h0 := Empty(size, blank, disk), Hash(NoKey(), size);
    forall i: nat | i < size ensures i in c.lru && i in c.hash[h0] { assert c.lru[i] == i && c.hash[h0][i] == i; }
    forall k | k in disk ensures View(c, k) == disk[k] { assert !Held(c, k); }
  }

  /** inode_free of an inode that has no link and is not used: its entry is for
      nothing from then on, but stays in the list it was in. */
  function Cleared<D>(c: Cache<D>, i: nat): Cache<D>
    requires i < |c.entries|
  {
    WithEntry(c, i, c.entries[i].(state := Invalid, key := NoKey()))
  }

  /** No other item's view changes, the item has no entry any more, and the other
      entries are still found. */
  lemma ClearedGood<D>(c: Cache<D>, i: nat)
    requires Good(c) && i < |c.entries|
    ensures var c', k := Cleared(c, i), c.entries[i].key;
            && Good(c') && c'.disk == c.disk && !Held(c', k)
            && (k != NoKey() ==> forall j :: 0 <= j < |c'.entries| ==> c'.entries[j].key != k)
            && forall x :: x in c.disk && x != k ==> View(c', x) == View(c, x)
  {
    var c', k := Cleared(c, i), c.entries[i].key;
    SameBuckets(c, c');
    hide HashOk, LruOk;
    assert Good(c');
    forall x | x in c.disk && x != k ensures View(c', x) == View(c, x) {
      if Held(c, x) {
        ViewHeld(c, c', x, Holder(c, x));
      } else {
        assert forall j :: Holds(c', j, x) ==> Holds(c, j, x);
      }
    }
  }

  class Table<D> {
    var entries: seq<Entry<D>>
    var lru: seq<nat>
    var hash: seq<seq<nat>>
    var disk: map<Key, D>

    ghost function Value(): Cache<D>
      reads this
    {
      Cache(entries, lru, hash, disk)
    }

    ghost predicate Valid()
      reads this
    {
      Good(Value())
    }

    constructor (size: nat, blank: D, device: map<Key, D>)
      requires size > 0
      ensures Valid() && Value() == Empty(size, blank, device)
    {
      var c := Empty(size, blank, device);
      entries, lru, hash, disk := c.entries, c.lru, c.hash, c.disk;
      EmptyGood(size, blank, device);
    }

    /** buffer_free, and inode_free as long as the inode has a link. */
    method Free(i: nat)
      requires Valid() && i < |entries| && entries[i].refCount > 0
      modifies `entries
      ensures Valid() && Value() == Hold(old(Value()), i, -1) && SameView(old(Value()), Value())
      ensures entries == old(entries)[i := old(entries)[i].(refCount := old(entries)[i].refCount - 1)]
    {
      HoldGood(Value(), i, -1);
      entries := entries[i := entries[i].(refCount := entries[i].refCount - 1)];
    }

    /** What holders of an entry do to it before buffer_touch or inode_touch. */
    method Write(i: nat, data: D)
      requires Valid() && i < |entries| && entries[i].refCount > 0 && entries[i].key != NoKey()
      modifies `entries
      ensures Valid() && Value() == Modified(old(Value()), i, data) && entries[i].key in disk
      ensures |entries| == |old(entries)| && entries[i].state == Dirty
      ensures forall j :: 0 <= j < |entries| ==> entries[j].refCount == old(entries)[j].refCount
      ensures forall k :: k in disk ==> View(Value(), k) == if k == entries[i].key then data else View(old(Value()), k)
    {
      ModifiedGood(Value(), i, data);
      entries := entries[i := entries[i].(state := Dirty, data := data)];
    }

    /** The end of inode_free. */
    method Clear(i: nat)
      requires Valid() && i < |entries| && entries[i].refCount == 0
      modifies `entries
      ensures Valid() && Value() == Cleared(old(Value()), i)
      ensures !Held(Value(), old(entries)[i].key) && |entries| == |old(entries)|
      ensures forall j :: 0 <= j < |entries| ==> entries[j].refCount == old(entries)[j].refCount
      ensures forall k :: k in disk && k != old(entries)[i].key ==> View(Value(), k) == View(old(Value()), k)
    {
      ClearedGood(Value(), i);
      entries := entries[i := entries[i].(state := Invalid, key := NoKey())];
    }

    method FindInHash(k: Key) returns (r: Option<nat>)
      requires |hash| > 0 && forall h: nat, i: nat {:trigger i in hash[h]} :: h < |hash| && i in hash[h] ==>
                i < |entries|
      ensures r == FromHash(Value(), k)
    {
      var q := hash[Hash(k, |hash|)];
      var n := 0;
      while n < |q|
        invariant 0 <= n <= |q| && FirstWith(Value(), q[n..], k) == FirstWith(Value(), q, k)
      {
        assert q[n] in hash[Hash(k, |hash|)];
        if entries[q[n]].key == k {
          return Some(q[n]);
        }
        assert q[n..][1..] == q[n + 1..];
        n := n + 1;
      }
      r := None;
    }

    /** buffer_start_io and what follows of a write; fs_store_inode. */
    method WriteOut(i: nat)
      requires i < |entries|
      modifies `entries, `disk
      ensures Value() == Flushed(old(Value()), i)
    {
      disk := disk[entries[i].key := entries[i].data];
      entries := entries[i := entries[i].(state := Clean)];
    }

    method FindVictim() returns (r: Option<nat>)
      requires Valid()
      modifies `entries, `disk
      ensures Valid() && (r, Value()) == FromLru(old(Value()), 0)
    {
      hide Good, Flushed;
      ghost var c := Value();
      FromLruIs(c, 0);
      GoodShape(c);
      var n := 0;
      while n < |lru|
        invariant 0 <= n <= |lru| && Valid() && Shape(Value()) && LruOk(Value()) && lru == c.lru
        invariant FromLru(Value(), n) == FromLru(c, 0)
      {
        GoodShape(Value());
        var i := lru[n];
        assert i in lru;
        if entries[i].state == Dirty {
          FlushedGood(Value(), i);
          FlushedIs(Value(), i);
          WriteOut(i);
          GoodShape(Value());
        } else if entries[i].refCount == 0 {
          return Some(i);
        }
        n := n + 1;
      }
      r := None;
    }

    /** What is done to a victim. */
    method Replace(i: nat, k: Key)
      requires |entries| == |hash| && i < |entries| && entries[i].bucket < |hash|
      modifies `entries, `hash, `lru
      ensures Value() == Replaced(old(Value()), i, k) && |entries| == old(|entries|)
    {
      var b, h := entries[i], Hash(k, |hash|);
      entries := entries[i := b.(state := Invalid, key := k, bucket := h)];
      hash := hash[b.bucket := Without(hash[b.bucket], i)];
      lru := Without(lru, i);
      hash := hash[h := hash[h] + [i]];
      lru := lru + [i];
    }

    /** get_buffer and get_inode */
    method Get(k: Key) returns (r: Option<nat>)
      requires Valid() && k in disk && k != NoKey()
      modifies this
      ensures Valid() && (r, Value()) == GetEntry(old(Value()), k)
    {
      hide Good, Replaced, SameView, Idle, FromLru;
      GetEntryGood(Value(), k);
      GoodShape(Value());
      var found := FindInHash(k);
      if found.Some? {
        lru := Without(lru, found.value) + [found.value];
        entries := entries[found.value := entries[found.value].(refCount := entries[found.value].refCount + 1)];
        return found;
      }
      FromLruIs(Value(), 0);
      var victim := FindVictim();
      if victim.None? {
        return None;
      }
      GoodShape(Value());
      var i := victim.value;
      Replace(i, k);
      entries := entries[i := entries[i].(refCount := entries[i].refCount + 1)];
      r := victim;
    }

    /** read_buffer and read_inode, with the request done at once. */
    method Read(k: Key) returns (r: Option<nat>)
      requires Valid() && k in disk && k != NoKey()
      modifies this
      ensures Valid() && (r, Value()) == ReadEntry(old(Value()), k)
    {
      hide Good, GetEntry;
      ReadEntryGood(Value(), k);
      GetEntryGood(Value(), k);
      r := Get(k);
      if r.Some? {
        GoodShape(Value());
        if entries[r.value].state == Invalid {
          entries := entries[r.value := entries[r.value].(state := Clean, data := disk[entries[r.value].key])];
        }
      }
    }

    method Sync()
      requires Valid()
      modifies `entries, `disk
      ensures Valid() && Value() == SyncFrom(old(Value()), 0)
      ensures forall k :: k in old(disk) ==> k in disk && disk[k] == View(old(Value()), k)
    {
      ghost var c := Value();
      SyncAll(c);
      SyncFromIs(c, 0);
      hide Good, Flushed;
      var n := 0;
      while n < |lru|
        invariant 0 <= n <= |lru| && Valid() && lru == c.lru && SyncFrom(Value(), n) == SyncFrom(c, 0)
      {
        GoodShape(Value());
        var i := lru[n];
        assert i in lru;
        if entries[i].state == Dirty {
          FlushedGood(Value(), i);
          FlushedIs(Value(), i);
          WriteOut(i);
        }
        n := n + 1;
      }
    }
  }
}
