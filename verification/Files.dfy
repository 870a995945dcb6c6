/** Inodes, the blocks their bytes are in, and the flat files these stand for. */
module Files {
  import opened Blocks

  // An inode has DIRECT_BLOCK_COUNT, 9, addresses of data blocks and one of an
  // indirect block of 128 more. The bitmap is one block, of 4096 bits.

  datatype Inode = Inode(size: nat, address: seq<nat>)

  /** What a block is for: block n of a file, or the indirect block of a file. */
  datatype Slot = Data(ino: nat, n: nat) | Indirect(ino: nat)

  /** The disk and the inodes. at and owner say what each block in use is for, and
      extent how many blocks of a file there are. */
  datatype Store = Store(start: nat, blocks: seq<Block>, inodes: map<nat, Inode>,
                         at: map<Slot, nat>, owner: map<nat, Slot>, extent: map<nat, nat>)

  /** As many blocks as the size needs, and no more. */
  function BlocksOf(size: nat): (n: nat)
    ensures 512 * n >= size && (n > 0 ==> 512 * (n - 1) < size)
  {
    (size + 512 - 1) / 512
  }

  predicate InRegion(s: Store, a: nat) { s.start <= a < s.start + 4096 }

  /** Every block in use is for one thing, and everything is in one block. */
  ghost predicate Paired(s: Store) {
    && 0 < s.start && s.start + 4096 <= |s.blocks| < 0x1_0000_0000
    && (forall o :: o in s.at ==> InRegion(s, s.at[o]) && s.at[o] in s.owner && s.owner[s.at[o]] == o)
    && (forall a :: a in s.owner ==> s.owner[a] in s.at && s.at[s.owner[a]] == a)
  }

  /** A file has its first blocks, and an indirect block if it has more than 9. */
  ghost predicate Closed(s: Store) {
    && (forall ino :: ino in s.extent <==> ino in s.inodes)
    && (forall ino :: ino in s.extent ==> s.extent[ino] <= 137)
    && (forall ino: nat, n: nat :: Data(ino, n) in s.at <==> ino in s.extent && n < s.extent[ino])
    && (forall ino: nat :: Indirect(ino) in s.at ==> ino in s.extent && s.extent[ino] >= 9)
    && (forall ino :: ino in s.extent && s.extent[ino] > 9 ==> Indirect(ino) in s.at)
  }

  function Link(at: map<Slot, nat>, o: Slot): nat { if o in at then at[o] else 0 }

  ghost predicate InodeLinks(s: Store, ino: nat)
    requires ino in s.inodes
  {
    && |s.inodes[ino].address| == 10
    && (forall n: nat :: n < 9 ==> s.inodes[ino].address[n] == Link(s.at, Data(ino, n)))
    && s.inodes[ino].address[9] == Link(s.at, Indirect(ino))
  }

  ghost predicate EntryLinks(s: Store, ino: nat)
    requires Paired(s) && Indirect(ino) in s.at
  {
    forall k: nat :: k < 128 ==> Entry(s.blocks[s.at[Indirect(ino)]], k) == Link(s.at, Data(ino, 9 + k))
  }

  /** The addresses written down are those of the file's blocks. */
  ghost predicate Good(s: Store) {
    && Paired(s) && Closed(s)
    && (forall ino :: ino in s.inodes ==> InodeLinks(s, ino))
    && (forall ino: nat :: Indirect(ino) in s.at ==> EntryLinks(s, ino))
  }

  /** Blocks that are not in use hold zeros. */
  ghost predicate FreshZero(s: Store)
    requires Paired(s)
  {
    forall a: nat :: InRegion(s, a) && a !in s.owner ==> s.blocks[a] == ZeroBlock()
  }

  ghost function FreeSet(s: Store): (r: set<int>)
    ensures forall a: int :: a in r <==> s.start <= a < s.start + 4096 && a !in s.owner
  {
    set a: int | s.start <= a < s.start + 4096 && a !in s.owner
  }

  // ----- the order in which free blocks are given out -----

  ghost predicate IsLeast(free: set<int>, a: int) { a in free && forall b :: b in free ==> a <= b }

  lemma HasOne(free: set<int>)
    ensures free != {} <==> exists a :: a in free
  {
    if forall a :: a !in free { assert free == {}; }
  }

  lemma {:induction false} LeastExists(free: set<int>, x: int)
    requires x in free
    ensures exists a :: IsLeast(free, a)
    decreases |free|
  {
    if y :| y in free && y < x {
      LeastExists(free - {x}, y);
      var a :| IsLeast(free - {x}, a);
      assert y in free - {x};
      forall b | b in free ensures a <= b { assert b == x || b in free - {x}; }
      assert IsLeast(free, a);
    } else {
      assert IsLeast(free, x);
    }
  }

  ghost function Least(free: set<int>): (a: int)
    requires free != {}
    ensures IsLeast(free, a)
  {
    HasOne(free);
    var x :| x in free;
    LeastExists(free, x);
    var a :| IsLeast(free, a); a
  }

  /** The block that is given out after j others. */
  ghost function Pick(free: set<int>, j: nat): (a: int)
    requires j < |free|
    ensures a in free
    decreases j
  {
    if j == 0 then Least(free) else Pick(free - {Least(free)}, j - 1)
  }

  /** What is free after the next n. */
  ghost function Skip(free: set<int>, n: nat): (r: set<int>)
    requires n <= |free|
    ensures |r| == |free| - n
    decreases n
  {
    if n == 0 then free else Skip(free - {Least(free)}, n - 1)
  }

  lemma {:induction false} SkipAdds(free: set<int>, m: nat, n: nat)
    requires m + n <= |free|
    ensures Skip(Skip(free, m), n) == Skip(free, m + n)
    ensures forall j: nat :: j < n ==> Pick(Skip(free, m), j) == Pick(free, m + j)
    decreases m
  {
    if m > 0 {
      SkipAdds(free - {Least(free)}, m - 1, n);
      forall j: nat | j < n ensures Pick(Skip(free, m), j) == Pick(free, m + j) {
        assert Pick(free, m + j) == Pick(free - {Least(free)}, m + j - 1);
        assert Skip(free, m) == Skip(free - {Least(free)}, m - 1);
        assert m + j - 1 == m - 1 + j;
      }
    }
  }

  // ----- flat files -----

  type Bytes = seq<Byte>

  /** Block n of the file f. */
  ghost predicate BlockIs(b: Block, n: nat, f: Bytes) {
    forall j: nat :: j < 512 && 512 * n + j < |f| ==> b[j] == f[512 * n + j]
  }

  ghost predicate DataIs(s: Store, o: Slot, f: Bytes)
    requires Paired(s) && o in s.at && o.Data?
  {
    BlockIs(s.blocks[s.at[o]], o.n, f)
  }

  /** The store holds these files. What their last blocks hold past the end is
      anything. */
  ghost predicate Refines(s: Store, files: map<nat, Bytes>)
    requires Paired(s)
  {
    && (forall ino :: ino in files <==> ino in s.inodes)
    && (forall ino :: ino in files && ino in s.inodes ==> |files[ino]| == s.inodes[ino].size)
    && (forall o :: o in s.at && o.Data? && o.ino in files ==> DataIs(s, o, files[o.ino]))
  }

  /** No file has fewer or more blocks than its size needs. */
  ghost predicate Exact(s: Store) {
    && (forall ino :: ino in s.extent <==> ino in s.inodes)
    && (forall ino :: ino in s.extent && ino in s.inodes ==>
          s.extent[ino] == BlocksOf(s.inodes[ino].size) && (Indirect(ino) in s.at <==> s.extent[ino] > 9))
  }

  // ----- a block more -----

  /** A block a for o, holding b. */
  ghost function Claim(s: Store, o: Slot, a: nat): Store {
    s.(at := s.at[o := a], owner := s.owner[a := o])
  }

  ghost predicate Free(s: Store, a: nat) { InRegion(s, a) && a !in s.owner }

  lemma ClaimPaired(s: Store, o: Slot, a: nat)
    requires Paired(s) && Free(s, a) && o !in s.at
    ensures Paired(Claim(s, o, a))
    ensures FreeSet(Claim(s, o, a)) == FreeSet(s) - {a} && |FreeSet(Claim(s, o, a))| == |FreeSet(s)| - 1
  {
    assert FreeSet(Claim(s, o, a)) == FreeSet(s) - {a as int};
  }

  lemma Apart(s: Store, o: Slot, x: Slot)
    requires Paired(s) && o in s.at && x in s.at
    ensures o != x ==> s.at[o] != s.at[x]
    ensures s.at[o] != 0 && s.at[o] < |s.blocks|
  {
  }

  /** address[n] of a file with n blocks. */
  ghost function AddDirect(s: Store, ino: nat, a: nat): Store
    requires Good(s) && ino in s.inodes && s.extent[ino] < 9
  {
    var n, i := s.extent[ino], s.inodes[ino];
    Claim(s, Data(ino, n), a).(inodes := s.inodes[ino := i.(address := i.address[n := a])],
        extent := s.extent[ino := n + 1])
  }

  /** address[9] */
  ghost function AddIndirect(s: Store, ino: nat, a: nat): Store
    requires Good(s) && ino in s.inodes
  {
    var i := s.inodes[ino];
    Claim(s, Indirect(ino), a).(inodes := s.inodes[ino := i.(address := i.address[9 := a])])
  }

  /** The next entry of the indirect block. */
  ghost function AddEntry(s: Store, ino: nat, a: nat): Store
    requires Good(s) && ino in s.inodes && 9 <= s.extent[ino] < 137 && Indirect(ino) in s.at && a < 0x1_0000_0000
  {
    var n, b := s.extent[ino], s.at[Indirect(ino)];
    Claim(s, Data(ino, n), a).(blocks := s.blocks[b := WithEntry(s.blocks[b], n - 9, a)],
        extent := s.extent[ino := n + 1])
  }

  lemma AddsClosed(s: Store, s': Store, ino: nat, a: nat)
    requires Closed(s) && ino in s.inodes && s.extent[ino] < 137 && (s.extent[ino] >= 9 ==> Indirect(ino) in s.at)
    requires s'.at == s.at[Data(ino, s.extent[ino]) := a] && s'.extent == s.extent[ino := s.extent[ino] + 1]
    requires forall x :: x in s'.inodes <==> x in s.inodes
    ensures Closed(s')
  {
  }

  /** Whatever is recorded of o, what is recorded of others is as before. */
  lemma OtherLinks(s: Store, s': Store, o: Slot, x: nat)
    requires x in s.inodes && InodeLinks(s, x) && x in s'.inodes && s'.inodes[x] == s.inodes[x]
    requires forall y :: y != o ==> (y in s'.at <==> y in s.at)
    requires forall y :: y != o && y in s.at && y in s'.at ==> s'.at[y] == s.at[y]
    requires forall n: nat :: n < 9 ==> Data(x, n) != o
    requires Indirect(x) != o
    ensures InodeLinks(s', x)
  {
  }

  lemma OtherEntries(s: Store, s': Store, o: Slot, x: nat)
    requires Paired(s) && Paired(s') && Indirect(x) in s.at && Indirect(x) in s'.at && EntryLinks(s, x)
    requires s'.at[Indirect(x)] == s.at[Indirect(x)] && s'.blocks[s.at[Indirect(x)]] == s.blocks[s.at[Indirect(x)]]
    requires forall y :: y != o ==> (y in s'.at <==> y in s.at)
    requires forall y :: y != o && y in s.at && y in s'.at ==> s'.at[y] == s.at[y]
    requires forall n: nat :: n >= 9 ==> Data(x, n) != o
    ensures EntryLinks(s', x)
  {
  }

  lemma HasExtent(s: Store, ino: nat)
    requires Good(s) && ino in s.inodes
    ensures Paired(s) && ino in s.extent && s.extent[ino] <= 137 && Data(ino, s.extent[ino]) !in s.at
  {
  }

  lemma FreeIsSmall(s: Store, a: nat)
    requires Paired(s) && Free(s, a)
    ensures 0 < a < |s.blocks| && a < 0x1_0000_0000
  {
  }

  lemma AddDirectShape(s: Store, ino: nat, a: nat)
    requires Good(s) && ino in s.inodes && s.extent[ino] < 9 && Free(s, a)
    ensures Paired(AddDirect(s, ino, a)) && Closed(AddDirect(s, ino, a))
  {
    hide InodeLinks, EntryLinks;
    ClaimPaired(s, Data(ino, s.extent[ino]), a);
    AddsClosed(s, AddDirect(s, ino, a), ino, a);
  }

  lemma AddDirectGood(s: Store, ino: nat, a: nat)
    requires Good(s) && ino in s.inodes && s.extent[ino] < 9 && Free(s, a)
    ensures Good(AddDirect(s, ino, a))
  {
    hide Closed, Paired, EntryLinks, InodeLinks, FreshZero;
    HasExtent(s, ino);
    var s', o := AddDirect(s, ino, a), Data(ino, s.extent[ino]);
    AddDirectShape(s, ino, a);
    forall x | x in s'.inodes ensures InodeLinks(s', x) {
      if x == ino {
        NewDirectLinks(s, ino, a);
      } else {
        OtherLinks(s, s', o, x);
      }
    }
    forall x: nat | Indirect(x) in s'.at ensures EntryLinks(s', x) {
      OtherEntries(s, s', o, x);
    }
  }

  lemma NewDirectLinks(s: Store, ino: nat, a: nat)
    requires Good(s) && ino in s.inodes && s.extent[ino] < 9
    ensures InodeLinks(AddDirect(s, ino, a), ino)
  {
    assert InodeLinks(s, ino);
    hide Closed, Paired, EntryLinks;
  }

  lemma AddIndirectShape(s: Store, ino: nat, a: nat)
    requires Good(s) && ino in s.inodes && s.extent[ino] == 9 && Indirect(ino) !in s.at && Free(s, a)
    ensures Paired(AddIndirect(s, ino, a)) && Closed(AddIndirect(s, ino, a))
  {
    hide InodeLinks, EntryLinks;
    ClaimPaired(s, Indirect(ino), a);
  }

  lemma AddIndirectGood(s: Store, ino: nat, a: nat)
    requires Good(s) && ino in s.inodes && s.extent[ino] == 9 && Indirect(ino) !in s.at && Free(s, a)
    requires s.blocks[a] == ZeroBlock()
    ensures Good(AddIndirect(s, ino, a))
  {
    hide Closed, Paired, EntryLinks, InodeLinks;
    var s', o := AddIndirect(s, ino, a), Indirect(ino);
    AddIndirectShape(s, ino, a);
    NewIndirectLinks(s, ino, a);
    NoDataYet(s, ino);
    forall x | x in s'.inodes ensures InodeLinks(s', x) {
      if x != ino { OtherLinks(s, s', o, x); }
    }
    forall x: nat | Indirect(x) in s'.at ensures EntryLinks(s', x) {
      if x == ino { NewEntries(s', ino); } else { OtherEntries(s, s', o, x); }
    }
  }

  lemma NewIndirectLinks(s: Store, ino: nat, a: nat)
    requires Good(s) && ino in s.inodes
    ensures InodeLinks(AddIndirect(s, ino, a), ino)
  {
    assert InodeLinks(s, ino);
    hide Closed, Paired, EntryLinks;
  }

  lemma NoDataYet(s: Store, ino: nat)
    requires Closed(s) && ino in s.inodes && s.extent[ino] <= 9
    ensures forall n: nat :: n >= 9 ==> Data(ino, n) !in s.at
  {
  }

  lemma NewEntries(s: Store, ino: nat)
    requires Paired(s) && Indirect(ino) in s.at && s.blocks[s.at[Indirect(ino)]] == ZeroBlock()
    requires forall n: nat :: n >= 9 ==> Data(ino, n) !in s.at
    ensures EntryLinks(s, ino)
  {
    forall k: nat | k < 128 ensures Entry(ZeroBlock(), k) == 0 { NoEntries(k); }
  }

  lemma AddEntryShape(s: Store, ino: nat, a: nat)
    requires Good(s) && ino in s.inodes && 9 <= s.extent[ino] < 137 && Indirect(ino) in s.at && Free(s, a)
    ensures Paired(AddEntry(s, ino, a)) && Closed(AddEntry(s, ino, a))
  {
    hide InodeLinks, EntryLinks, WithEntry;
    ClaimPaired(s, Data(ino, s.extent[ino]), a);
    AddsClosed(s, AddEntry(s, ino, a), ino, a);
  }

  lemma AddEntryGood(s: Store, ino: nat, a: nat)
    requires Good(s) && ino in s.inodes && 9 <= s.extent[ino] < 137 && Indirect(ino) in s.at && Free(s, a)
    ensures Good(AddEntry(s, ino, a))
  {
    hide Closed, Paired, EntryLinks, InodeLinks, WithEntry;
    HasExtent(s, ino);
    FreeIsSmall(s, a);
    var s', o := AddEntry(s, ino, a), Data(ino, s.extent[ino]);
    AddEntryShape(s, ino, a);
    forall x | x in s'.inodes ensures InodeLinks(s', x) {
      OtherLinks(s, s', o, x);
    }
    forall x: nat | Indirect(x) in s'.at ensures EntryLinks(s', x) {
      AddEntryLinks(s, ino, a, x);
    }
  }

  lemma HasEntries(s: Store, x: nat)
    requires Good(s) && Indirect(x) in s.at
    ensures Paired(s) && EntryLinks(s, x)
  {
  }

  lemma AddEntryLinks(s: Store, ino: nat, a: nat, x: nat)
    requires Good(s) && ino in s.inodes && 9 <= s.extent[ino] < 137 && Indirect(ino) in s.at && Free(s, a)
    requires Indirect(x) in s.at && Paired(AddEntry(s, ino, a))
    ensures Indirect(x) in AddEntry(s, ino, a).at && EntryLinks(AddEntry(s, ino, a), x)
  {
    hide Good, Closed, WithEntry, Entry;
    GoodIsPaired(s);
    HasEntries(s, x);
    Apart(s, Indirect(ino), Indirect(x));
    var s', n, b := AddEntry(s, ino, a), s.extent[ino], s.at[Indirect(ino)];
    forall k: nat | k < 128 ensures Entry(s'.blocks[s'.at[Indirect(x)]], k) == Link(s'.at, Data(x, 9 + k)) {
      assert Entry(s.blocks[s.at[Indirect(x)]], k) == Link(s.at, Data(x, 9 + k));
      EntryRoundTrip(s.blocks[b], n - 9, a, k);
    }
  }

  /** What a new block holds is past the end of its file, and nobody's bytes change. */
  lemma AddKeepsFiles(s: Store, s': Store, o: Slot, a: nat, files: map<nat, Bytes>)
    requires Paired(s) && Paired(s') && Refines(s, files) && o !in s.at && |s'.blocks| == |s.blocks|
    requires s'.at == s.at[o := a]
    requires forall ino :: ino in s.inodes <==> ino in s'.inodes
    requires forall ino :: ino in s.inodes && ino in s'.inodes ==> s'.inodes[ino].size == s.inodes[ino].size
    requires forall x :: x in s.at && x.Data? ==> s'.blocks[s.at[x]] == s.blocks[s.at[x]]
    requires o.Data? && o.ino in files ==> |files[o.ino]| <= 512 * o.n
    ensures Refines(s', files)
  {
    forall x | x in s'.at && x.Data? && x.ino in files ensures DataIs(s', x, files[x.ino]) {
      if x != o {
        assert DataIs(s, x, files[x.ino]);
      }
    }
  }

  lemma AddEntryKeepsBlocks(s: Store, ino: nat, a: nat)
    requires Good(s) && ino in s.inodes && 9 <= s.extent[ino] < 137 && Indirect(ino) in s.at && Free(s, a)
    ensures var s' := AddEntry(s, ino, a);
            |s'.blocks| == |s.blocks| && forall x :: x in s.at && x.Data? ==> s'.blocks[s.at[x]] == s.blocks[s.at[x]]
  {
    var s' := AddEntry(s, ino, a);
    forall x | x in s.at && x.Data? ensures s'.blocks[s.at[x]] == s.blocks[s.at[x]] {
      Apart(s, Indirect(ino), x);
    }
  }

  ghost predicate Sound(s: Store, files: map<nat, Bytes>) {
    Good(s) && Refines(s, files)
  }

  lemma GoodIsPaired(s: Store)
    requires Good(s)
    ensures Paired(s) && Closed(s)
  {
  }

  lemma AddDirectSound(s: Store, ino: nat, a: nat, files: map<nat, Bytes>)
    requires Sound(s, files) && ino in s.inodes && ino in files && s.extent[ino] < 9 && Free(s, a)
    requires |files[ino]| <= 512 * s.extent[ino]
    ensures Sound(AddDirect(s, ino, a), files)
  {
    hide Good, Refines, Paired, Closed;
    HasExtent(s, ino);
    FreeIsSmall(s, a);
    AddDirectGood(s, ino, a);
    GoodIsPaired(s);
    GoodIsPaired(AddDirect(s, ino, a));
    AddKeepsFiles(s, AddDirect(s, ino, a), Data(ino, s.extent[ino]), a, files);
  }

  /** A free block about to become an indirect block. inode_map does not clear it;
      clears says that it does. */
  ghost function Ready(s: Store, a: nat, clears: bool): Store
    requires a < |s.blocks|
  {
    if clears then s.(blocks := s.blocks[a := ZeroBlock()]) else s
  }

  lemma ReadySound(s: Store, files: map<nat, Bytes>, a: nat, clears: bool)
    requires Sound(s, files) && Free(s, a) && a < |s.blocks|
    ensures Sound(Ready(s, a, clears), files) && Free(Ready(s, a, clears), a)
  {
    var r := Ready(s, a, clears);
    ReadyShape(s, a, clears);
    hide Closed, InodeLinks, BlockIs, Entry;
    forall x | x in r.inodes ensures InodeLinks(r, x) { SameLinks(s, r, x); }
    forall x: nat | Indirect(x) in r.at ensures EntryLinks(r, x) { assert EntryLinks(s, x); }
    forall x | x in r.at && x.Data? && x.ino in files ensures DataIs(r, x, files[x.ino]) {
      assert DataIs(s, x, files[x.ino]);
    }
  }

  lemma ReadyShape(s: Store, a: nat, clears: bool)
    requires Paired(s) && Closed(s) && Free(s, a) && a < |s.blocks|
    ensures var r := Ready(s, a, clears); Paired(r) && Closed(r) && Free(r, a)
    ensures forall o :: o in s.at ==> s.at[o] != a
  {
  }

  lemma AddIndirectSound(s: Store, ino: nat, a: nat, files: map<nat, Bytes>)
    requires Sound(s, files) && ino in s.inodes && s.extent[ino] == 9 && Indirect(ino) !in s.at && Free(s, a)
    requires a < |s.blocks| && s.blocks[a] == ZeroBlock()
    ensures Sound(AddIndirect(s, ino, a), files)
  {
    hide Good, Refines, Paired, Closed;
    HasExtent(s, ino);
    FreeIsSmall(s, a);
    GoodIsPaired(s);
    AddIndirectGood(s, ino, a);
    GoodIsPaired(AddIndirect(s, ino, a));
    AddKeepsFiles(s, AddIndirect(s, ino, a), Indirect(ino), a, files);
  }

  lemma AddEntrySound(s: Store, ino: nat, a: nat, files: map<nat, Bytes>)
    requires Sound(s, files) && ino in s.inodes && ino in files && 9 <= s.extent[ino] < 137
    requires Indirect(ino) in s.at && Free(s, a)
    requires |files[ino]| <= 512 * s.extent[ino]
    ensures Sound(AddEntry(s, ino, a), files)
  {
    hide Good, Refines, Paired, Closed;
    HasExtent(s, ino);
    FreeIsSmall(s, a);
    AddEntryGood(s, ino, a);
    AddEntryKeepsBlocks(s, ino, a);
    GoodIsPaired(s);
    GoodIsPaired(AddEntry(s, ino, a));
    AddKeepsFiles(s, AddEntry(s, ino, a), Data(ino, s.extent[ino]), a, files);
  }

  /** How many free blocks a file needs to get from n blocks to more. */
  function Need(n: nat, more: nat): nat {
    if more <= n then 0 else more - n + if n <= 9 < more then 1 else 0
  }

  lemma NeedSteps(n: nat, more: nat)
    requires n < more
    ensures Need(n, more) == Need(n, n + 1) + Need(n + 1, more)
  {
  }

  /** The blocks of other files are where they were. */
  ghost predicate OthersKept(s: Store, s': Store, ino: nat) {
    && (forall o: Slot :: o.ino != ino ==> (o in s.at <==> o in s'.at))
    && (forall o: Slot :: o.ino != ino && o in s.at && o in s'.at ==> s'.at[o] == s.at[o])
  }

  lemma OthersTransitive(s: Store, s': Store, s'': Store, ino: nat)
    requires OthersKept(s, s', ino) && OthersKept(s', s'', ino)
    ensures OthersKept(s, s'', ino)
  {
  }

  /** What is recorded stays, and only words of indirect blocks have changed. */
  ghost predicate OnlyIndirects(s: Store, s': Store) {
    && |s'.blocks| == |s.blocks| && s'.start == s.start
    && (forall o :: o in s.at ==> o in s'.at && s'.at[o] == s.at[o])
    && (forall a: nat :: a < |s.blocks| && s'.blocks[a] != s.blocks[a] ==> a in s'.owner && s'.owner[a].Indirect?)
  }

  lemma IndirectsTransitive(s: Store, s': Store, s'': Store)
    requires Paired(s') && Paired(s'') && OnlyIndirects(s, s') && OnlyIndirects(s', s'')
    ensures OnlyIndirects(s, s'')
  {
    forall a: nat | a < |s.blocks| && s''.blocks[a] != s.blocks[a] ensures a in s''.owner && s''.owner[a].Indirect? {
      if s'.blocks[a] != s.blocks[a] { assert s''.at[s'.owner[a]] == a; }
    }
  }

  /** ino has got block n, and an indirect block if that is the first that needs
      it; sizes are the same. */
  ghost predicate OneMore(s: Store, s': Store, ino: nat, n: nat) {
    && s'.extent == s.extent[ino := n + 1]
    && (forall x :: x in s'.inodes <==> x in s.inodes)
    && (forall x :: x in s.inodes && x in s'.inodes ==> s'.inodes[x].size == s.inodes[x].size)
    && (forall x: nat :: Indirect(x) in s'.at <==> Indirect(x) in s.at || (x == ino && n >= 9))
    && |FreeSet(s')| == |FreeSet(s)| - Need(n, n + 1) && OthersKept(s, s', ino) && OnlyIndirects(s, s')
  }

  lemma OneFewerFree(s: Store, s': Store, a: nat, o: Slot)
    requires Paired(s) && Free(s, a) && s'.owner == s.owner[a := o] && s'.start == s.start
    ensures FreeSet(s') == FreeSet(s) - {a as int} && |FreeSet(s')| == |FreeSet(s)| - 1
  {
    assert FreeSet(s') == FreeSet(s) - {a as int};
  }

  lemma ClaimKeepsOthers(s: Store, s': Store, o: Slot, a: nat)
    requires s'.at == s.at[o := a]
    ensures OthersKept(s, s', o.ino)
  {
  }

  lemma DirectIsOneMore(s: Store, ino: nat, a: nat)
    requires Good(s) && ino in s.inodes && s.extent[ino] < 9 && Free(s, a)
    ensures OneMore(s, AddDirect(s, ino, a), ino, s.extent[ino])
    ensures var s' := AddDirect(s, ino, a);
            FreeSet(s') == FreeSet(s) - {a as int} && Data(ino, s.extent[ino]) in s'.at &&
            s'.at[Data(ino, s.extent[ino])] == a
  {
    hide Good, Paired, FreeSet, OthersKept;
    HasExtent(s, ino);
    ClaimKeepsOthers(s, AddDirect(s, ino, a), Data(ino, s.extent[ino]), a);
    OneFewerFree(s, AddDirect(s, ino, a), a, Data(ino, s.extent[ino]));
  }

  /** ino has got an indirect block. */
  ghost predicate IndirectMore(s: Store, s': Store, ino: nat) {
    && s'.extent == s.extent
    && (forall x :: x in s'.inodes <==> x in s.inodes)
    && (forall x :: x in s.inodes && x in s'.inodes ==> s'.inodes[x].size == s.inodes[x].size)
    && (forall x: nat :: Indirect(x) in s'.at <==> Indirect(x) in s.at || x == ino)
    && |FreeSet(s')| == |FreeSet(s)| - 1 && OthersKept(s, s', ino) && OnlyIndirects(s, s')
  }

  /** The blocks of ino from number from up to number to have been given out since s0,
      and the indirect block with the tenth; the lowest free one each time. */
  ghost predicate Placed(s0: Store, s: Store, ino: nat, from: nat, to: nat) {
    && from <= to && Need(from, to) <= |FreeSet(s0)| && FreeSet(s) == Skip(FreeSet(s0), Need(from, to))
    && forall m: nat :: from <= m < to ==> PlacedBlock(s0, s, ino, from, m)
  }

  ghost predicate PlacedBlock(s0: Store, s: Store, ino: nat, from: nat, m: nat) {
    && Data(ino, m) in s.at && 0 < Need(from, m + 1) <= |FreeSet(s0)|
    && s.at[Data(ino, m)] == Pick(FreeSet(s0), Need(from, m + 1) - 1)
  }

  lemma PlacedNothing(s: Store, ino: nat, n: nat)
    ensures Placed(s, s, ino, n, n)
  {
    assert Need(n, n) == 0 && Skip(FreeSet(s), 0) == FreeSet(s);
  }

  lemma PlacedOn(s0: Store, s: Store, s': Store, ino: nat, from: nat, n: nat, to: nat)
    requires Placed(s0, s, ino, from, n) && Placed(s, s', ino, n, to)
    requires forall o :: o in s.at ==> o in s'.at && s'.at[o] == s.at[o]
    ensures Placed(s0, s', ino, from, to)
  {
    hide FreeSet, Skip, Pick;
    assert Need(from, to) == Need(from, n) + Need(n, to) && from <= n <= to;
    SkipAdds(FreeSet(s0), Need(from, n), Need(n, to));
    forall m: nat | from <= m < to ensures PlacedBlock(s0, s', ino, from, m) {
      if m < n {
        assert PlacedBlock(s0, s, ino, from, m);
      } else {
        assert PlacedBlock(s, s', ino, n, m);
        assert Need(from, m + 1) == Need(from, n) + Need(n, m + 1) && Need(n, m + 1) <= Need(n, to);
      }
    }
  }

  /** One block, and not the tenth. */
  lemma OnePlaced(s: Store, s': Store, ino: nat, n: nat, a: nat)
    requires Need(n, n + 1) == 1 && FreeSet(s) != {} && a == Least(FreeSet(s)) && FreeSet(s') == FreeSet(s) - {a as int}
    requires Data(ino, n) in s'.at && s'.at[Data(ino, n)] == a
    ensures Placed(s, s', ino, n, n + 1)
  {
    hide FreeSet, Least;
    assert Skip(FreeSet(s), 1) == Skip(FreeSet(s) - {Least(FreeSet(s))}, 0);
  }

  lemma TwoPlaced(s: Store, m: Store, s': Store, ino: nat, b: nat, a: nat)
    requires FreeSet(s) != {} && b == Least(FreeSet(s)) && FreeSet(m) == FreeSet(s) - {b as int}
    requires FreeSet(m) != {} && a == Least(FreeSet(m)) && FreeSet(s') == FreeSet(m) - {a as int}
    requires Data(ino, 9) in s'.at && s'.at[Data(ino, 9)] == a
    ensures Placed(s, s', ino, 9, 10)
  {
    hide FreeSet, Least;
    assert |FreeSet(m)| > 0 && |FreeSet(m)| == |FreeSet(s)| - 1;
    assert Skip(FreeSet(s), 2) == Skip(FreeSet(m), 1) == Skip(FreeSet(s'), 0);
    assert Pick(FreeSet(s), 1) == Pick(FreeSet(m), 0);
  }

  lemma AddIndirectIs(s: Store, ino: nat, b: nat, clears: bool)
    requires Good(s) && ino in s.inodes && Free(s, b) && b < |s.blocks|
    requires Good(Ready(s, b, clears)) && Indirect(ino) !in s.at
    ensures IndirectMore(s, AddIndirect(Ready(s, b, clears), ino, b), ino)
    ensures FreeSet(AddIndirect(Ready(s, b, clears), ino, b)) == FreeSet(s) - {b as int}
  {
    hide Good, Paired, FreeSet, OthersKept, OnlyIndirects;
    GoodIsPaired(s);
    IndirectsHere(s, ino, b, clears);
    var m := AddIndirect(Ready(s, b, clears), ino, b);
    ClaimKeepsOthers(s, m, Indirect(ino), b);
    OneFewerFree(s, m, b, Indirect(ino));
  }

  lemma IndirectsHere(s: Store, ino: nat, b: nat, clears: bool)
    requires Good(s) && ino in s.inodes && b < |s.blocks| && Good(Ready(s, b, clears)) && Indirect(ino) !in s.at
    ensures OnlyIndirects(s, AddIndirect(Ready(s, b, clears), ino, b))
  {
    hide Good, Paired;
  }

  /** ino has got block n, and its entry in the indirect block. */
  ghost predicate EntryMore(s: Store, s': Store, ino: nat, n: nat) {
    && s'.extent == s.extent[ino := n + 1] && s'.inodes == s.inodes
    && (forall x: nat :: Indirect(x) in s'.at <==> Indirect(x) in s.at)
    && |FreeSet(s')| == |FreeSet(s)| - 1 && OthersKept(s, s', ino) && OnlyIndirects(s, s')
    && Paired(s) && Paired(s')
  }

  lemma AddEntryIs(s: Store, ino: nat, a: nat)
    requires Good(s) && ino in s.inodes && 9 <= s.extent[ino] < 137 && Indirect(ino) in s.at && Free(s, a)
    ensures a < 0x1_0000_0000 && EntryMore(s, AddEntry(s, ino, a), ino, s.extent[ino])
    ensures var s' := AddEntry(s, ino, a);
            FreeSet(s') == FreeSet(s) - {a as int} && Data(ino, s.extent[ino]) in s'.at &&
            s'.at[Data(ino, s.extent[ino])] == a
  {
    hide Good, Paired, FreeSet, WithEntry, OthersKept, OnlyIndirects;
    HasExtent(s, ino);
    FreeIsSmall(s, a);
    AddEntryShape(s, ino, a);
    EntryIndirects(s, ino, a);
    ClaimKeepsOthers(s, AddEntry(s, ino, a), Data(ino, s.extent[ino]), a);
    OneFewerFree(s, AddEntry(s, ino, a), a, Data(ino, s.extent[ino]));
  }

  lemma EntryIndirects(s: Store, ino: nat, a: nat)
    requires Good(s) && ino in s.inodes && 9 <= s.extent[ino] < 137 && Indirect(ino) in s.at && Free(s, a)
    requires a < 0x1_0000_0000
    ensures OnlyIndirects(s, AddEntry(s, ino, a))
  {
    HasExtent(s, ino);
    hide Closed, InodeLinks, EntryLinks, WithEntry;
  }

  lemma EntryIsOneMore(s: Store, s': Store, ino: nat, n: nat)
    requires EntryMore(s, s', ino, n) && n > 9 && Indirect(ino) in s.at
    ensures OneMore(s, s', ino, n)
  {
    hide Paired, FreeSet, OthersKept, OnlyIndirects;
  }

  lemma BothAreOneMore(s: Store, m: Store, s': Store, ino: nat)
    requires IndirectMore(s, m, ino) && EntryMore(m, s', ino, 9)
    ensures OneMore(s, s', ino, 9)
  {
    IndirectsTransitive(s, m, s');
    OthersTransitive(s, m, s', ino);
    hide Paired, FreeSet, OthersKept, OnlyIndirects;
  }

  /** The blocks of ino from its old extent up to n are there since s0. */
  ghost predicate Grew(s0: Store, s: Store, ino: nat, n: nat) {
    && Exact(s0) && ino in s0.inodes && ino in s.inodes && s0.extent[ino] <= n
    && s.extent == s0.extent[ino := n]
    && (forall x :: x in s.inodes <==> x in s0.inodes)
    && (forall x :: x in s.inodes && x in s0.inodes ==> s.inodes[x].size == s0.inodes[x].size)
    && (forall x: nat :: Indirect(x) in s.at <==> if x == ino then n > 9 else Indirect(x) in s0.at)
    && |FreeSet(s)| == |FreeSet(s0)| - Need(s0.extent[ino], n)
    && OthersKept(s0, s, ino) && OnlyIndirects(s0, s)
  }

  lemma GrewNothing(s: Store, ino: nat)
    requires Good(s) && Exact(s) && ino in s.inodes
    ensures ino in s.extent && Grew(s, s, ino, s.extent[ino])
  {
    hide FreeSet;
  }

  lemma GrewIs(s0: Store, s: Store, ino: nat, n: nat)
    requires Grew(s0, s, ino, n)
    ensures ino in s.inodes && ino in s.extent && s.extent[ino] == n && (Indirect(ino) in s.at <==> n > 9)
    ensures ino in s0.inodes && s.inodes[ino].size == s0.inodes[ino].size && OnlyIndirects(s0, s)
    ensures ino in s0.extent && s0.extent[ino] <= n && s0.extent[ino] == BlocksOf(s0.inodes[ino].size)
  {
    hide OthersKept, OnlyIndirects, FreeSet;
  }

  lemma GrewMore(s0: Store, s: Store, s': Store, ino: nat, n: nat)
    requires Grew(s0, s, ino, n) && OneMore(s, s', ino, n) && Paired(s) && Paired(s')
    ensures Grew(s0, s', ino, n + 1)
  {
    hide OthersKept, OnlyIndirects, FreeSet, Paired, Exact;
    OthersTransitive(s0, s, s', ino);
    IndirectsTransitive(s0, s, s');
    GrewIs(s0, s, ino, n);
    NeedAdds(s0.extent[ino], n);
    hide Need;
  }

  lemma NeedAdds(from: nat, n: nat)
    requires from <= n
    ensures Need(from, n + 1) == Need(from, n) + Need(n, n + 1)
  {
  }

  lemma OneMoreHas(s: Store, s': Store, ino: nat, n: nat)
    requires OneMore(s, s', ino, n) && ino in s.inodes
    ensures ino in s'.inodes && |FreeSet(s')| == |FreeSet(s)| - Need(n, n + 1)
    ensures forall o :: o in s.at ==> o in s'.at && s'.at[o] == s.at[o]
  {
  }

  lemma GrewFresh(s: Store, s': Store, ino: nat, n: nat)
    requires OneMore(s, s', ino, n) && Paired(s) && Paired(s') && FreshZero(s)
    ensures FreshZero(s')
  {
    IndirectsUntouched(s, s', ino, 0);
    StillFresh(s, s', ino, 0);
  }

  lemma GrewAll(s0: Store, s: Store, ino: nat, size: nat)
    requires Grew(s0, s, ino, BlocksOf(size)) && Paired(s) && ino in s.inodes
    ensures var z := s.(inodes := s.inodes[ino := s.inodes[ino].(size := size)]);
            && Exact(z) && OthersKept(s0, z, ino) && Untouched(s0, z, ino, 0)
            && ino in s0.inodes && |FreeSet(z)| == |FreeSet(s0)| - Need(BlocksOf(s0.inodes[ino].size), BlocksOf(size))
  {
    var z := s.(inodes := s.inodes[ino := s.inodes[ino].(size := size)]);
    IndirectsUntouched(s0, s, ino, 0);
    SizedUntouched(s0, s, z, ino);
    GrewExact(s0, s, ino, size);
    hide OthersKept, OnlyIndirects, Untouched, Exact, Paired;
  }

  lemma SizedUntouched(s0: Store, s: Store, z: Store, ino: nat)
    requires z == s.(inodes := z.inodes) && OthersKept(s0, s, ino) && Untouched(s0, s, ino, 0)
    ensures OthersKept(s0, z, ino) && Untouched(s0, z, ino, 0) && FreeSet(z) == FreeSet(s)
  {
    hide StoredByte;
  }

  lemma GrewExact(s0: Store, s: Store, ino: nat, size: nat)
    requires Grew(s0, s, ino, BlocksOf(size)) && ino in s.inodes
    ensures Exact(s.(inodes := s.inodes[ino := s.inodes[ino].(size := size)]))
  {
    hide OthersKept, OnlyIndirects, FreeSet, BlocksOf;
  }

  // ----- bytes -----

  /** Byte i of file ino as it is on the disk, before or past the end of the file. */
  ghost function StoredByte(blocks: seq<Block>, at: map<Slot, nat>, ino: nat, i: nat): Byte {
    var o := Data(ino, i / 512);
    if o in at && at[o] < |blocks| then blocks[at[o]][i % 512] else 0
  }

  /** What blocks hold of a file of size from behind its end, up to byte to: what
      comes to light when the file grows. */
  ghost function Rest(blocks: seq<Block>, at: map<Slot, nat>, ino: nat, from: nat, to: nat): (r: Bytes)
    ensures |r| == if to > from then to - from else 0
  {
    if to > from then seq<Byte>(to - from, k requires 0 <= k => StoredByte(blocks, at, ino, from + k)) else []
  }

  lemma RestSame(s: Store, s': Store, ino: nat, from: nat, to: nat)
    requires Paired(s') && OnlyIndirects(s, s')
    ensures Rest(s'.blocks, s'.at, ino, from, to) == Rest(s.blocks, s'.at, ino, from, to)
  {
    forall i: nat ensures StoredByte(s'.blocks, s'.at, ino, i) == StoredByte(s.blocks, s'.at, ino, i) {
      var o := Data(ino, i / 512);
      if o in s'.at { assert s'.owner[s'.at[o]] == o; }
    }
  }

  /** Where block n of a file of n0 blocks is, or is going to be. */
  ghost function AddressOf(s: Store, ino: nat, n0: nat, n: nat): int {
    if n < n0 then if Data(ino, n) in s.at then s.at[Data(ino, n)] else 0
    else if 0 < Need(n0, n + 1) <= |FreeSet(s)| then Pick(FreeSet(s), Need(n0, n + 1) - 1) else 0
  }

  ghost function ComingByte(s: Store, ino: nat, n0: nat, i: nat): Byte {
    var a := AddressOf(s, ino, n0, i / 512);
    if 0 <= a < |s.blocks| then s.blocks[a][i % 512] else 0
  }

  /** What will come to light when file ino grows from byte from to byte to. */
  ghost function Coming(s: Store, ino: nat, from: nat, to: nat): (r: Bytes)
    ensures |r| == if to > from then to - from else 0
  {
    if to > from then seq<Byte>(to - from, k requires 0 <= k => ComingByte(s, ino, BlocksOf(from), from + k)) else []
  }

  /** When it has grown, that has come to light. */
  lemma ComingIs(s: Store, s': Store, ino: nat, from: nat, to: nat, blocks: nat)
    requires Placed(s, s', ino, BlocksOf(from), blocks) && BlocksOf(to) <= blocks
    requires forall o :: o in s.at ==> o in s'.at && s'.at[o] == s.at[o]
    requires forall m: nat :: m < BlocksOf(from) ==> Data(ino, m) in s.at
    ensures Rest(s.blocks, s'.at, ino, from, to) == Coming(s, ino, from, to)
  {
    forall i: nat | from <= i < to
      ensures StoredByte(s.blocks, s'.at, ino, i) == ComingByte(s, ino, BlocksOf(from), i)
    {
      assert i / 512 < blocks;
      ComingAddress(s, s', ino, BlocksOf(from), i / 512, blocks);
    }
  }

  lemma ComingAddress(s: Store, s': Store, ino: nat, n0: nat, n: nat, blocks: nat)
    requires Placed(s, s', ino, n0, blocks) && n < blocks
    requires forall o :: o in s.at ==> o in s'.at && s'.at[o] == s.at[o]
    requires forall m: nat :: m < n0 ==> Data(ino, m) in s.at
    ensures Data(ino, n) in s'.at && s'.at[Data(ino, n)] == AddressOf(s, ino, n0, n)
  {
    hide FreeSet, Pick, Skip;
    NeedPositive(n0, n);
    hide Need;
    if n >= n0 { assert PlacedBlock(s, s', ino, n0, n); }
  }

  lemma NeedPositive(n: nat, m: nat)
    ensures n <= m ==> Need(n, m + 1) > 0
  {
  }

  /** From s to s' nothing has changed that is in no file: free blocks, and what
      the blocks of ino hold from byte size on. */
  ghost predicate Untouched(s: Store, s': Store, ino: nat, size: nat) {
    && |s'.blocks| == |s.blocks| && s'.start == s.start
    && (forall o :: o in s.at ==> o in s'.at && s'.at[o] == s.at[o])
    && (forall a: nat :: Free(s', a) && a < |s.blocks| ==> s'.blocks[a] == s.blocks[a])
    && (forall i: nat :: i >= size ==> StoredByte(s'.blocks, s'.at, ino, i) == StoredByte(s.blocks, s'.at, ino, i))
  }

  lemma IndirectsUntouched(s: Store, s': Store, ino: nat, size: nat)
    requires Paired(s') && OnlyIndirects(s, s')
    ensures Untouched(s, s', ino, size)
  {
    forall i: nat ensures StoredByte(s'.blocks, s'.at, ino, i) == StoredByte(s.blocks, s'.at, ino, i) {
      var o := Data(ino, i / 512);
      if o in s'.at { assert s'.owner[s'.at[o]] == o; }
    }
  }

  /** What comes to light later has been there from the start. */
  lemma LaterByte(s: Store, s': Store, s'': Store, ino: nat, size: nat, i: nat)
    requires Paired(s') && Paired(s'') && Untouched(s, s', ino, size) && i >= size && s''.start == s'.start
    requires |s''.blocks| == |s'.blocks| && forall o :: o in s'.at ==> o in s''.at && s''.at[o] == s'.at[o]
    ensures StoredByte(s'.blocks, s''.at, ino, i) == StoredByte(s.blocks, s''.at, ino, i)
  {
    var o := Data(ino, i / 512);
    if o in s''.at && o !in s'.at {
      NewlyUsed(s', s'', o);
    } else if o in s''.at {
      assert StoredByte(s'.blocks, s'.at, ino, i) == StoredByte(s.blocks, s'.at, ino, i);
    }
  }

  lemma NewlyUsed(s: Store, s': Store, o: Slot)
    requires Paired(s) && Paired(s') && o in s'.at && o !in s.at && s'.start == s.start
    requires forall x :: x in s.at ==> x in s'.at && s'.at[x] == s.at[x]
    ensures Free(s, s'.at[o])
  {
    StaysUsed(s, s');
  }

  lemma StaysUsed(s: Store, s': Store)
    requires Paired(s) && Paired(s') && forall x :: x in s.at ==> x in s'.at && s'.at[x] == s.at[x]
    ensures forall a :: a in s.owner ==> a in s'.owner && s'.owner[a] == s.owner[a]
  {
    forall a | a in s.owner ensures a in s'.owner && s'.owner[a] == s.owner[a] { assert s'.at[s.owner[a]] == a; }
  }

  lemma UntouchedTransitive(s: Store, s': Store, s'': Store, ino: nat, size: nat, size': nat)
    requires Paired(s') && Paired(s'') && size <= size'
    requires Untouched(s, s', ino, size) && Untouched(s', s'', ino, size')
    ensures Untouched(s, s'', ino, size')
  {
    StaysUsed(s', s'');
    forall a: nat | Free(s'', a) && a < |s.blocks| ensures s''.blocks[a] == s.blocks[a] { assert Free(s', a); }
    forall i: nat | i >= size' ensures StoredByte(s''.blocks, s''.at, ino, i) == StoredByte(s.blocks, s''.at, ino, i) {
      LaterByte(s, s', s'', ino, size, i);
    }
  }

  lemma StillFresh(s: Store, s': Store, ino: nat, size: nat)
    requires Paired(s) && Paired(s') && Untouched(s, s', ino, size) && FreshZero(s)
    ensures FreshZero(s')
  {
    StaysUsed(s, s');
    forall a: nat | InRegion(s', a) && a !in s'.owner ensures s'.blocks[a] == ZeroBlock() {
      assert Free(s', a) && a !in s.owner;
    }
  }

  function Splice(f: Bytes, position: nat, d: Bytes): (r: Bytes)
    requires position + |d| <= |f|
    ensures |r| == |f|
  {
    f[..position] + d + f[position + |d|..]
  }

  /** A file after a write: grown by rest if need be, and d at the position. */
  function Overlay(f: Bytes, rest: Bytes, position: nat, d: Bytes): (r: Bytes)
    requires position + |d| <= |f| + |rest|
    ensures |r| == |f| + |rest|
  {
    Splice(f + rest, position, d)
  }

  lemma OverlayByte(f: Bytes, rest: Bytes, position: nat, d: Bytes, i: nat)
    requires position + |d| <= |f| + |rest| && i < |f| + |rest|
    ensures Overlay(f, rest, position, d)[i] ==
            if position <= i < position + |d| then d[i - position] else if i < |f| then f[i] else rest[i - |f|]
  {
  }

  function Zeros(n: nat): Bytes { seq(n, _ => 0) }

  /** A write past the end leaves zeros in between, as it should, if and only if the
      blocks hold zeros there that the file has and is going to get. */
  lemma GapIsZero(s: Store, ino: nat, f: Bytes, position: nat, d: Bytes)
    requires position >= |f|
    ensures var rest := Coming(s, ino, |f|, position + |d|);
            && |f| + |rest| == position + |d|
            && (Overlay(f, rest, position, d) == f + Zeros(position - |f|) + d <==>
                forall i: nat :: |f| <= i < position ==> ComingByte(s, ino, BlocksOf(|f|), i) == 0)
  {
    hide ComingByte;
    var rest := Coming(s, ino, |f|, position + |d|);
    var g, h := Overlay(f, rest, position, d), f + Zeros(position - |f|) + d;
    forall i: nat | |f| <= i < position ensures g[i] == ComingByte(s, ino, BlocksOf(|f|), i) && h[i] == 0 {
      OverlayByte(f, rest, position, d, i);
    }
    forall i: nat | i < |f| || position <= i < |h| ensures g[i] == h[i] { OverlayByte(f, rest, position, d, i); }
  }

  lemma TwoParts(f: Bytes, a: nat, b: nat, c: nat)
    requires a <= b <= c <= |f|
    ensures f[a..c] == f[a..b] + f[b..c]
  {
  }

  lemma SpliceMore(f: Bytes, position: nat, d: Bytes, k: nat, c: nat)
    requires position + |d| <= |f| && k + c <= |d|
    ensures Splice(Splice(f, position, d[..k]), position + k, d[k..k + c]) == Splice(f, position, d[..k + c])
  {
    var g := Splice(f, position, d[..k]);
    assert d[..k + c] == d[..k] + d[k..k + c];
    assert g[..position + k] == f[..position] + d[..k];
    assert g[position + k + c..] == f[position + k + c..];
  }

  /** Only sizes are new. */
  lemma GrowFiles(s: Store, files: map<nat, Bytes>, ino: nat, size: nat)
    requires Paired(s) && Refines(s, files) && ino in s.inodes && size >= s.inodes[ino].size
    ensures Refines(s.(inodes := s.inodes[ino := s.inodes[ino].(size := size)]),
                files[ino := files[ino] + Rest(s.blocks, s.at, ino, |files[ino]|, size)])
  {
    var s', f := s.(inodes := s.inodes[ino := s.inodes[ino].(size := size)]), files[ino];
    var files' := files[ino := f + Rest(s.blocks, s.at, ino, |f|, size)];
    assert Paired(s');
    forall x | x in s'.at && x.Data? && x.ino in files' ensures DataIs(s', x, files'[x.ino]) {
      assert DataIs(s, x, files[x.ino]);
      if x.ino == ino { GrownBlock(s, x, f, size); }
    }
  }

  lemma GrownBlock(s: Store, x: Slot, f: Bytes, size: nat)
    requires Paired(s) && x in s.at && x.Data? && DataIs(s, x, f)
    ensures DataIs(s, x, f + Rest(s.blocks, s.at, x.ino, |f|, size))
  {
    var b, f' := s.blocks[s.at[x]], f + Rest(s.blocks, s.at, x.ino, |f|, size);
    forall j: nat | j < 512 && 512 * x.n + j < |f'| ensures b[j] == f'[512 * x.n + j] {
      var i := 512 * x.n + j;
      assert i / 512 == x.n && i % 512 == j;
      if i >= |f| { assert f'[i] == StoredByte(s.blocks, s.at, x.ino, i); }
    }
  }

  lemma SizesGood(s: Store, ino: nat, size: nat)
    requires Good(s) && ino in s.inodes
    ensures Good(s.(inodes := s.inodes[ino := s.inodes[ino].(size := size)]))
  {
    var s' := s.(inodes := s.inodes[ino := s.inodes[ino].(size := size)]);
    assert Paired(s') && Closed(s');
    hide Closed, InodeLinks;
    forall x | x in s'.inodes ensures InodeLinks(s', x) { SameLinks(s, s', x); }
    forall x: nat | Indirect(x) in s'.at ensures EntryLinks(s', x) { assert EntryLinks(s, x); }
  }

  // ----- a chunk -----

  function PutBytes(b: Block, offset: nat, d: Bytes): Block
    requires offset + |d| <= 512
  {
    b[..offset] + d + b[offset + |d|..]
  }

  ghost function PutChunk(s: Store, o: Slot, offset: nat, d: Bytes): Store
    requires Paired(s) && o in s.at && offset + |d| <= 512
  {
    s.(blocks := s.blocks[s.at[o] := PutBytes(s.blocks[s.at[o]], offset, d)])
  }

  lemma ChunkGood(s: Store, o: Slot, offset: nat, d: Bytes)
    requires Good(s) && o in s.at && o.Data? && offset + |d| <= 512
    ensures Good(PutChunk(s, o, offset, d))
  {
    var s' := PutChunk(s, o, offset, d);
    ChunkShape(s, o, offset, d);
    hide Closed, PutBytes, InodeLinks, Paired, EntryLinks;
    forall x | x in s'.inodes ensures InodeLinks(s', x) { SameLinks(s, s', x); }
    forall x: nat | Indirect(x) in s'.at ensures EntryLinks(s', x) { ChunkEntries(s, o, offset, d, x); }
  }

  lemma ChunkShape(s: Store, o: Slot, offset: nat, d: Bytes)
    requires Paired(s) && Closed(s) && o in s.at && offset + |d| <= 512
    ensures Paired(PutChunk(s, o, offset, d)) && Closed(PutChunk(s, o, offset, d))
  {
    hide PutBytes;
  }

  lemma ChunkEntries(s: Store, o: Slot, offset: nat, d: Bytes, x: nat)
    requires Paired(s) && o in s.at && o.Data? && offset + |d| <= 512 && Paired(PutChunk(s, o, offset, d))
    requires Indirect(x) in s.at && EntryLinks(s, x)
    ensures EntryLinks(PutChunk(s, o, offset, d), x)
  {
    Apart(s, o, Indirect(x));
    hide PutBytes, Paired, Entry;
  }

  lemma SameLinks(s: Store, s': Store, x: nat)
    requires x in s.inodes && InodeLinks(s, x) && s'.at == s.at
    requires x in s'.inodes && s'.inodes[x].address == s.inodes[x].address
    ensures InodeLinks(s', x)
  {
  }

  /** Writing a chunk of one file's block is a splice of that file and leaves the
      others as they are, because no block has two owners. */
  lemma ChunkFiles(s: Store, o: Slot, offset: nat, d: Bytes, files: map<nat, Bytes>)
    requires Paired(s) && Refines(s, files) && o in s.at && o.Data? && o.ino in files && offset + |d| <= 512
    requires 512 * o.n + offset + |d| <= |files[o.ino]|
    ensures Paired(PutChunk(s, o, offset, d))
    ensures Refines(PutChunk(s, o, offset, d), files[o.ino := Splice(files[o.ino], 512 * o.n + offset, d)])
  {
    var s', files' := PutChunk(s, o, offset, d), files[o.ino := Splice(files[o.ino], 512 * o.n + offset, d)];
    assert Paired(s');
    forall x | x in s'.at && x.Data? && x.ino in files' ensures DataIs(s', x, files'[x.ino]) {
      assert DataIs(s, x, files[x.ino]);
      Apart(s, o, x);
      hide Paired, PutBytes, Refines;
      if x == o {
        ChunkBlock(s.blocks[s.at[o]], files[o.ino], o.n, offset, d);
      } else if x.ino == o.ino {
        OtherBlocks(s.blocks[s.at[x]], files[o.ino], o.n, offset, d, x.n);
      }
    }
  }

  /** The block of the chunk, */
  lemma ChunkBlock(b: Block, f: Bytes, n: nat, offset: nat, d: Bytes)
    requires offset + |d| <= 512 && 512 * n + offset + |d| <= |f| && BlockIs(b, n, f)
    ensures BlockIs(PutBytes(b, offset, d), n, Splice(f, 512 * n + offset, d))
  {
  }

  /** and the other blocks of its file. */
  lemma OtherBlocks(b: Block, f: Bytes, n: nat, offset: nat, d: Bytes, m: nat)
    requires offset + |d| <= 512 && 512 * n + offset + |d| <= |f| && m != n && BlockIs(b, m, f)
    ensures BlockIs(b, m, Splice(f, 512 * n + offset, d))
  {
  }

  /** A chunk that ends before byte size leaves what comes after it. */
  lemma ChunkUntouched(s: Store, o: Slot, offset: nat, d: Bytes, size: nat)
    requires Paired(s) && o in s.at && o.Data? && offset + |d| <= 512 && 512 * o.n + offset + |d| <= size
    ensures Untouched(s, PutChunk(s, o, offset, d), o.ino, size)
  {
    var s' := PutChunk(s, o, offset, d);
    forall i: nat | i >= size
      ensures StoredByte(s'.blocks, s'.at, o.ino, i) == StoredByte(s.blocks, s'.at, o.ino, i)
    {
      var x := Data(o.ino, i / 512);
      if x in s.at { Apart(s, o, x); }
    }
  }

  /** A chunk within a block is that part of the file. */
  lemma ChunkIs(s: Store, files: map<nat, Bytes>, ino: nat, position: nat, chunk: nat)
    requires Paired(s) && Refines(s, files) && ino in files && Data(ino, position / 512) in s.at
    requires position % 512 + chunk <= 512 && position + chunk <= |files[ino]|
    ensures var b := s.blocks[s.at[Data(ino, position / 512)]];
            b[position % 512..position % 512 + chunk] == files[ino][position..position + chunk]
  {
    var o, offset := Data(ino, position / 512), position % 512;
    assert DataIs(s, o, files[ino]);
    forall j: nat | offset <= j < offset + chunk ensures s.blocks[s.at[o]][j] == files[ino][position - offset + j] {
      assert 512 * o.n + j == position - offset + j;
    }
  }

  lemma BlockInside(size: nat, position: nat)
    requires position < size
    ensures position / 512 < BlocksOf(size)
  {
  }

  // ----- the end of a file -----

  /** One of the first k data blocks of ino. */
  ghost predicate Early(o: Slot, ino: nat, k: nat) { o.Data? && o.ino == ino && o.n < k }

  /** Those blocks are not in use any more. */
  ghost function Cut(s: Store, ino: nat, k: nat): Store {
    s.(at := map o | o in s.at && !Early(o, ino, k) :: s.at[o],
       owner := map a | a in s.owner && !Early(s.owner[a], ino, k) :: s.owner[a])
  }

  /** Nothing is ino's any more. */
  ghost function Dropped(s: Store, ino: nat): Store {
    s.(at := map o | o in s.at && o.ino != ino :: s.at[o],
       owner := map a | a in s.owner && s.owner[a].ino != ino :: s.owner[a],
       inodes := s.inodes - {ino}, extent := s.extent - {ino})
  }

  lemma CutNothing(s: Store, ino: nat)
    ensures Cut(s, ino, 0) == s
  {
    assert Cut(s, ino, 0).at == s.at && Cut(s, ino, 0).owner == s.owner;
  }

  lemma CutIs(s: Store, ino: nat, k: nat)
    ensures var c := Cut(s, ino, k);
            && c.start == s.start && c.blocks == s.blocks && c.inodes == s.inodes && c.extent == s.extent
            && forall o :: o in c.at ==> o in s.at && c.at[o] == s.at[o]
  {
  }

  lemma CutSteps(s: Store, ino: nat, k: nat)
    requires Paired(s) && Data(ino, k) in s.at
    ensures var c, o := Cut(s, ino, k), Data(ino, k);
            && o in c.at && s.at[o] in c.owner && InRegion(s, s.at[o])
            && Cut(s, ino, k + 1).at == c.at - {o} && Cut(s, ino, k + 1).owner == c.owner - {s.at[o]}
  {
    var c, d, o := Cut(s, ino, k), Cut(s, ino, k + 1), Data(ino, k);
    assert forall x :: x in d.at <==> x in c.at && x != o;
    forall a ensures a in d.owner <==> a in c.owner && a != s.at[o] {
      if a in s.owner { assert s.at[s.owner[a]] == a; }
    }
  }

  /** Without its data blocks and the indirect block nothing of ino is left. */
  lemma CutAll(s: Store, ino: nat)
    requires Paired(s) && Closed(s) && ino in s.extent
    ensures var c, d := Cut(s, ino, s.extent[ino]), Dropped(s, ino);
            if Indirect(ino) in s.at
            then Indirect(ino) in c.at && s.at[Indirect(ino)] in c.owner && InRegion(s, s.at[Indirect(ino)]) &&
                 d.at == c.at - {Indirect(ino)} && d.owner == c.owner - {s.at[Indirect(ino)]}
            else d.at == c.at && d.owner == c.owner
  {
    if Indirect(ino) in s.at { Apart(s, Indirect(ino), Indirect(ino)); }
    hide Paired, Closed, Early;
    CutAllAt(s, ino);
    CutAllOwner(s, ino);
  }

  lemma CutAllAt(s: Store, ino: nat)
    requires Closed(s) && ino in s.extent
    ensures var c, d := Cut(s, ino, s.extent[ino]), Dropped(s, ino);
            && (Indirect(ino) in c.at <==> Indirect(ino) in s.at)
            && d.at == if Indirect(ino) in s.at then c.at - {Indirect(ino)} else c.at
  {
    LeftAt(s, ino);
    hide Closed;
    var c, d := Cut(s, ino, s.extent[ino]), Dropped(s, ino);
    assert forall o :: o in d.at <==> o in c.at && o != Indirect(ino);
  }

  lemma CutAllOwner(s: Store, ino: nat)
    requires Paired(s) && Closed(s) && ino in s.extent
    ensures var c, d := Cut(s, ino, s.extent[ino]), Dropped(s, ino);
            if Indirect(ino) in s.at
            then s.at[Indirect(ino)] in c.owner && d.owner == c.owner - {s.at[Indirect(ino)]} else d.owner == c.owner
  {
    LeftOwners(s, ino);
    hide Closed;
    var c, d := Cut(s, ino, s.extent[ino]), Dropped(s, ino);
    assert Indirect(ino) in s.at ==> s.at[Indirect(ino)] in s.owner && s.owner[s.at[Indirect(ino)]] == Indirect(ino);
    hide Paired;
    assert forall a :: a in d.owner <==> a in c.owner && s.owner[a] != Indirect(ino);
  }

  lemma LeftAt(s: Store, ino: nat)
    requires Closed(s) && ino in s.extent
    ensures forall o :: o in s.at ==> (o.ino != ino <==> !Early(o, ino, s.extent[ino]) && o != Indirect(ino))
  {
    forall o | o in s.at ensures o.ino != ino <==> !Early(o, ino, s.extent[ino]) && o != Indirect(ino) {
      OnlyEarly(s, ino, o);
    }
  }

  lemma LeftOwners(s: Store, ino: nat)
    requires Paired(s) && Closed(s) && ino in s.extent
    ensures forall a :: a in s.owner ==>
              (s.owner[a].ino != ino <==> !Early(s.owner[a], ino, s.extent[ino]) && s.owner[a] != Indirect(ino))
    ensures forall a :: a in s.owner && s.owner[a] == Indirect(ino) ==>
              Indirect(ino) in s.at && s.at[Indirect(ino)] == a
  {
    LeftAt(s, ino);
  }

  lemma OnlyEarly(s: Store, ino: nat, o: Slot)
    requires Closed(s) && ino in s.extent && o in s.at
    ensures o.ino == ino <==> Early(o, ino, s.extent[ino]) || o == Indirect(ino)
  {
    if o.Data? { assert Data(o.ino, o.n) in s.at; }
  }

  lemma DroppedPaired(s: Store, ino: nat)
    requires Paired(s)
    ensures Paired(Dropped(s, ino))
  {
  }

  lemma DroppedShape(s: Store, ino: nat)
    requires Closed(s) && Exact(s)
    ensures Closed(Dropped(s, ino)) && Exact(Dropped(s, ino))
  {
  }

  lemma DroppedInode(s: Store, ino: nat, x: nat)
    requires x in s.inodes && InodeLinks(s, x) && x != ino
    ensures x in Dropped(s, ino).inodes && InodeLinks(Dropped(s, ino), x)
  {
  }

  lemma DroppedGood(s: Store, ino: nat)
    requires Good(s) && Exact(s)
    ensures Good(Dropped(s, ino)) && Exact(Dropped(s, ino))
  {
    hide Paired, Closed, Exact, InodeLinks, FreshZero;
    var d := Dropped(s, ino);
    DroppedPaired(s, ino);
    DroppedShape(s, ino);
    forall x | x in d.inodes ensures InodeLinks(d, x) { DroppedInode(s, ino, x); }
    forall x: nat | Indirect(x) in d.at ensures EntryLinks(d, x) { assert EntryLinks(s, x); }
  }

  lemma DroppedFiles(s: Store, ino: nat, files: map<nat, Bytes>)
    requires Paired(s) && Paired(Dropped(s, ino)) && Refines(s, files)
    ensures Refines(Dropped(s, ino), files - {ino})
  {
    var d := Dropped(s, ino);
    forall x | x in d.at && x.Data? && x.ino in files - {ino} ensures DataIs(d, x, (files - {ino})[x.ino]) {
      assert DataIs(s, x, files[x.ino]);
    }
  }

  /** The blocks of ino. */
  ghost function BlocksIn(s: Store, ino: nat): (r: set<int>)
    ensures forall a: int :: a in r <==> a in s.owner && s.owner[a].ino == ino
  {
    set a: int | a in s.owner.Keys && s.owner[a].ino == ino
  }

  lemma DroppedFree(s: Store, ino: nat)
    requires Paired(s)
    ensures FreeSet(Dropped(s, ino)) == FreeSet(s) + BlocksIn(s, ino) && FreeSet(s) !! BlocksIn(s, ino)
  {
    forall a: int | a in BlocksIn(s, ino) ensures s.start <= a < s.start +
        4096 { assert InRegion(s, s.at[s.owner[a]]); }
  }

  /** A truncated inode keeps its addresses. */
  ghost function Truncated(s: Store, ino: nat): Store
    requires ino in s.inodes
  {
    Dropped(s, ino).(inodes := s.inodes[ino := s.inodes[ino].(size := 0)], extent := s.extent[ino := 0])
  }

  lemma EmptyOrNot(s: Store, ino: nat)
    requires Closed(s) && Exact(s) && ino in s.inodes
    ensures s.inodes[ino].size == 0 ==> forall o :: o in s.at ==> o.ino != ino
    ensures s.inodes[ino].size == 0 ==> s.extent[ino] == 0
    ensures s.inodes[ino].size > 0 ==> s.extent[ino] > 0
  {
    forall o | o in s.at && s.inodes[ino].size == 0 ensures o.ino != ino {
      if o.Data? { assert Data(o.ino, o.n) in s.at; } else { assert Indirect(o.ino) in s.at; }
    }
  }

  /** It can be used again as an empty file if and only if it was one. */
  lemma TruncatedIsGood(s: Store, ino: nat)
    requires Good(s) && Exact(s) && ino in s.inodes
    ensures Good(Truncated(s, ino)) <==> s.inodes[ino].size == 0
  {
    EmptyOrNot(s, ino);
    hide Good, Exact, Truncated;
    if s.inodes[ino].size == 0 {
      TruncatedEmpty(s, ino);
    } else {
      StaleAddress(s, ino);
    }
  }

  lemma TruncatedEmpty(s: Store, ino: nat)
    requires Paired(s) && ino in s.inodes && ino in s.extent && s.inodes[ino].size == 0 && s.extent[ino] == 0
    requires forall o :: o in s.at ==> o.ino != ino
    ensures Truncated(s, ino) == s
  {
    var t := Truncated(s, ino);
    assert t.at == s.at && t.owner == s.owner;
  }

  lemma StaleAddress(s: Store, ino: nat)
    requires Good(s) && ino in s.inodes && s.extent[ino] > 0
    ensures !Good(Truncated(s, ino))
  {
    var t := Truncated(s, ino);
    assert InodeLinks(s, ino) && Data(ino, 0) in s.at;
    Apart(s, Data(ino, 0), Data(ino, 0));
    hide Paired, Closed, EntryLinks;
    assert Data(ino, 0) !in t.at;
    assert !InodeLinks(t, ino) by { assert t.inodes[ino].address[0] != Link(t.at, Data(ino, 0)); }
  }

  /** Otherwise its first block is free, and when another file gets it, both
      inodes have it written down. */
  lemma TruncatedShares(s: Store, ino: nat, x: nat)
    requires Good(s) && Exact(s) && ino in s.inodes && s.inodes[ino].size > 0
    requires x in s.inodes && x != ino && s.extent[x] < 9
    ensures var d, b := Dropped(s, ino), s.at[Data(ino, 0)];
            && Good(d) && Free(d, b) && x in d.inodes && d.extent[x] == s.extent[x]
            && |Truncated(s, ino).inodes[ino].address| == 10 && Truncated(s, ino).inodes[ino].address[0] == b
            && AddDirect(d, x, b).inodes[x].address[s.extent[x]] == b
  {
    DroppedGood(s, ino);
    assert InodeLinks(s, ino) && Data(ino, 0) in s.at;
  }

  /** A new indirect block is sound if and only if the block held zeros; another
      entry would be taken for an address. */
  lemma IndirectNeedsZeros(s: Store, ino: nat, a: nat)
    requires Good(s) && ino in s.inodes && s.extent[ino] == 9 && Indirect(ino) !in s.at && Free(s, a)
    ensures Good(AddIndirect(s, ino, a)) <==> forall k: nat :: k < 128 ==> Entry(s.blocks[a], k) == 0
  {
    var s' := AddIndirect(s, ino, a);
    AddIndirectShape(s, ino, a);
    NoDataYet(s, ino);
    FreeIsSmall(s, a);
    AddIndirectLinks(s, ino, a);
    NewEntriesLink(s', ino, a);
    hide Closed, Paired, InodeLinks, EntryLinks, Entry;
  }

  /** Everything but the new block's own entries is right. */
  lemma AddIndirectLinks(s: Store, ino: nat, a: nat)
    requires Good(s) && ino in s.inodes && s.extent[ino] == 9 && Indirect(ino) !in s.at && Free(s, a)
    requires Paired(AddIndirect(s, ino, a)) && Closed(AddIndirect(s, ino, a))
    ensures var s' := AddIndirect(s, ino, a); Indirect(ino) in s'.at && (Good(s') <==> EntryLinks(s', ino))
  {
    hide Closed, Paired, InodeLinks, EntryLinks;
    OtherInodesLink(s, ino, a);
    OtherEntriesLink(s, ino, a);
  }

  lemma OtherInodesLink(s: Store, ino: nat, a: nat)
    requires Good(s) && ino in s.inodes
    ensures var s' := AddIndirect(s, ino, a); forall x :: x in s'.inodes ==> InodeLinks(s', x)
  {
    NewIndirectLinks(s, ino, a);
    hide Closed, Paired, InodeLinks, EntryLinks;
    var s', o := AddIndirect(s, ino, a), Indirect(ino);
    forall x | x in s'.inodes ensures InodeLinks(s', x) {
      if x != ino { OtherLinks(s, s', o, x); }
    }
  }

  lemma OtherEntriesLink(s: Store, ino: nat, a: nat)
    requires Good(s) && ino in s.inodes && Indirect(ino) !in s.at && Paired(AddIndirect(s, ino, a))
    ensures var s' := AddIndirect(s, ino, a);
            forall x: nat :: Indirect(x) in s'.at && x != ino ==> EntryLinks(s', x)
  {
    hide Closed, InodeLinks, EntryLinks;
    GoodIsPaired(s);
    hide Paired;
    var s', o := AddIndirect(s, ino, a), Indirect(ino);
    forall x: nat | Indirect(x) in s'.at && x != ino ensures EntryLinks(s', x) {
      OtherEntries(s, s', o, x);
    }
  }

  lemma NewEntriesLink(s: Store, ino: nat, a: nat)
    requires Paired(s) && Indirect(ino) in s.at && s.at[Indirect(ino)] == a < |s.blocks|
    requires forall n: nat :: n >= 9 ==> Data(ino, n) !in s.at
    ensures EntryLinks(s, ino) <==> forall k: nat :: k < 128 ==> Entry(s.blocks[a], k) == 0
  {
    hide Paired, Entry;
    forall k: nat | k < 128
      ensures Entry(s.blocks[a], k) == Link(s.at, Data(ino, 9 + k)) <==> Entry(s.blocks[a], k) == 0
    {
      assert Data(ino, 9 + k) !in s.at;
    }
  }

  // ----- runs of writes -----

  datatype Patch = Patch(position: nat, d: Bytes)

  predicate Covers(w: Patch, i: nat) { w.position <= i < w.position + |w.d| }

  /** How far the writes of a run reach. */
  function EndOf(ws: seq<Patch>): nat {
    if ws == [] then 0 else
    var n, end := |ws| - 1, EndOf(ws[..|ws| - 1]);
    if ws[n].position + |ws[n].d| > end then ws[n].position + |ws[n].d| else end
  }

  lemma {:induction false} EndOfCovers(ws: seq<Patch>, i: nat)
    requires exists w :: w in ws && Covers(w, i)
    ensures i < EndOf(ws)
    decreases |ws|
  {
    var n := |ws| - 1;
    assert ws == ws[..n] + [ws[n]];
    if !Covers(ws[n], i) { EndOfCovers(ws[..n], i); }
  }

  lemma {:induction false} EndOfPart(ws: seq<Patch>, n: nat)
    requires n <= |ws|
    ensures EndOf(ws[..n]) <= EndOf(ws) && (n < |ws| ==> ws[n].position + |ws[n].d| <= EndOf(ws))
    decreases |ws|
  {
    if n == |ws| {
      assert ws[..n] == ws;
    } else {
      EndOfPart(ws[..|ws| - 1], n);
      assert ws[..|ws| - 1][..n] == ws[..n];
    }
  }

  /** Byte i after a run of writes, if it was x. */
  function ByteAfter(x: Byte, ws: seq<Patch>, i: nat): Byte {
    if ws == [] then x else
    var n := |ws| - 1;
    if Covers(ws[n], i) then ws[n].d[i - ws[n].position] else ByteAfter(x, ws[..n], i)
  }

  /** A file after a run of writes that it is long enough for. */
  function WriteAll(f: Bytes, ws: seq<Patch>): (g: Bytes)
    ensures |g| == |f|
  {
    seq(|f|, i requires 0 <= i < |f| => ByteAfter(f[i], ws, i))
  }

  /** Byte i is written by the write at place n last. */
  predicate WrittenLast(ws: seq<Patch>, n: nat, i: nat) {
    n < |ws| && Covers(ws[n], i) && forall j :: n < j < |ws| ==> !Covers(ws[j], i)
  }

  predicate NeverWritten(ws: seq<Patch>, i: nat) { forall j :: 0 <= j < |ws| ==> !Covers(ws[j], i) }

  /** Every byte is what was written there last, or what it was before. */
  lemma {:induction false} LastWritten(f: Bytes, ws: seq<Patch>, i: nat, k: nat)
    requires i < |f| && k <= |ws| && (if k < |ws| then WrittenLast(ws, k, i) else NeverWritten(ws, i))
    ensures WriteAll(f, ws)[i] == if k < |ws| then ws[k].d[i - ws[k].position] else f[i]
    decreases |ws|
  {
    if ws != [] {
      var n := |ws| - 1;
      if k != n {
        LastWritten(f, ws[..n], i, if k == |ws| then n else k);
      }
    }
  }

  lemma {:induction false} NotCovered(x: Byte, ws: seq<Patch>, i: nat)
    requires i >= EndOf(ws)
    ensures ByteAfter(x, ws, i) == x
    decreases |ws|
  {
    if ws != [] {
      NotCovered(x, ws[..|ws| - 1], i);
    }
  }

  /** An empty file, with no address. */
  function NewInode(): Inode { Inode(0, [0, 0, 0, 0, 0, 0, 0, 0, 0, 0]) }

  ghost function Created(s: Store, ino: nat): Store {
    s.(inodes := s.inodes[ino := NewInode()], extent := s.extent[ino := 0])
  }

  lemma CreatedGood(s: Store, ino: nat, files: map<nat, Bytes>)
    requires Good(s) && Exact(s) && Refines(s, files) && ino !in s.inodes
    ensures Good(Created(s, ino)) && Exact(Created(s, ino)) && Refines(Created(s, ino), files[ino := []])
    ensures Created(s, ino).owner == s.owner
  {
    hide Closed, Exact, Paired;
    var c := Created(s, ino);
    CreatedShape(s, ino);
    forall x | x in c.inodes ensures InodeLinks(c, x) {
      if x != ino { assert InodeLinks(s, x); }
    }
    forall x: nat | Indirect(x) in c.at ensures EntryLinks(c, x) { assert EntryLinks(s, x); }
    forall x | x in c.at && x.Data? && x.ino in files[ino := []] ensures DataIs(c, x, files[ino := []][x.ino]) {
      assert DataIs(s, x, files[x.ino]);
    }
  }

  lemma CreatedShape(s: Store, ino: nat)
    requires Good(s) && Exact(s) && ino !in s.inodes
    ensures Paired(Created(s, ino)) && Closed(Created(s, ino)) && Exact(Created(s, ino))
    ensures forall o :: o in s.at ==> o.ino != ino
  {
    hide Good, Exact, Closed;
    GoodIsPaired(s);
    NothingOf(s, ino);
    CreatedClosed(s, ino);
    CreatedExact(s, ino);
  }

  lemma CreatedExact(s: Store, ino: nat)
    requires Exact(s) && ino !in s.inodes && forall o :: o in s.at ==> o.ino != ino
    ensures Exact(Created(s, ino))
  {
  }

  lemma CreatedClosed(s: Store, ino: nat)
    requires Closed(s) && ino !in s.inodes && forall o :: o in s.at ==> o.ino != ino
    ensures Closed(Created(s, ino))
  {
  }

  lemma NothingOf(s: Store, ino: nat)
    requires Closed(s) && ino !in s.inodes
    ensures forall o :: o in s.at ==> o.ino != ino
  {
    forall o | o in s.at ensures o.ino != ino {
      if o.Data? { assert Data(o.ino, o.n) in s.at; } else { assert Indirect(o.ino) in s.at; }
    }
  }

  /** What is left when a file that was not there before is removed. */
  lemma RemovedAll(s: Store, s': Store, ino: nat)
    requires Paired(s) && Paired(s') && OthersKept(s, s', ino) && s'.start == s.start
    requires forall o :: o in s.at ==> o.ino != ino
    ensures var d := Dropped(s', ino); d.at == s.at && d.owner.Keys == s.owner.Keys && FreeSet(d) == FreeSet(s)
  {
    var d := Dropped(s', ino);
    assert forall o :: o in d.at <==> o in s.at;
    assert d.start == s.start;
    DroppedPaired(s', ino);
    hide Dropped;
    forall a ensures a in d.owner <==> a in s.owner {
      if a in d.owner { assert d.at[d.owner[a]] == a; }
      if a in s.owner { assert s.at[s.owner[a]] == a; }
    }
  }
}
