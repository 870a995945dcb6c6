/** regular.c and fs.c: allocating blocks, mapping, growing, reading, writing and
    truncating files, on a disk whose blocks are read and written as they are. */
module FileStore {
  import opened Blocks
  import opened Files
  import Bitmap
  import opened Options

  // ----- fs_alloc_block and fs_free_block -----

  ghost predicate FullBits(b: seq<bv8>)
    requires |b| == 512
  {
    forall k :: 0 <= k < 4096 ==> Bitmap.TestBit(b, k)
  }

  /** The bit that fs_free_block clears for a block. */
  ghost predicate Taken(bits: seq<seq<bv8>>, start: nat, block: int)
    requires forall i :: 0 <= i < |bits| ==> |bits[i]| == 512
    requires 0 <= block - start < 4096 * |bits|
  {
    Bitmap.TestBit(bits[(block - start) / 4096], (block - start) % 4096)
  }

  /** Buffers of a bitmap: one block each, no two of them the same. */
  ghost predicate BitmapBuffers(buffers: seq<array<bv8>>) {
    && (forall i :: 0 <= i < |buffers| ==> buffers[i].Length == 512)
    && (forall i, j :: 0 <= i < j < |buffers| ==> buffers[i] != buffers[j])
  }

  /** What fs_alloc_block does to a bitmap, and what it returns. */
  ghost predicate Allocates(bits: seq<seq<bv8>>, bits': seq<seq<bv8>>, start: nat, i: nat, a: nat) {
    && |bits'| == |bits| && i < |bits| && (forall j :: 0 <= j < |bits| ==> |bits[j]| == 512)
    && (forall j :: 0 <= j < i ==> FullBits(bits[j])) && !FullBits(bits[i])
    && start <= a < start + 4096 && !Bitmap.TestBit(bits[i], a - start)
    && (forall k :: 0 <= k < a - start ==> Bitmap.TestBit(bits[i], k))
    && bits' == bits[i := Bitmap.SetBit(bits[i], a - start)]
  }

  ghost function Bits(buffers: seq<array<bv8>>): (bits: seq<seq<bv8>>)
    reads buffers
    ensures |bits| == |buffers| && forall i :: 0 <= i < |buffers| ==> bits[i] == buffers[i][..]
  {
    if buffers == [] then [] else [buffers[0][..]] + Bits(buffers[1..])
  }

  /** fs_alloc_block takes the lowest clear bit of the first block of the bitmap
      that has one, but the address it returns leaves out which block of the
      bitmap that was. 0 is FREE_BLOCK. */
  method AllocBlock(buffers: seq<array<bv8>>, start: nat) returns (a: nat, ghost i: nat)
    requires BitmapBuffers(buffers)
    modifies buffers
    ensures i <= |buffers| && forall j :: 0 <= j < i ==> FullBits(old(Bits(buffers))[j])
    ensures i == |buffers| ==> a == 0 && Bits(buffers) == old(Bits(buffers))
    ensures i < |buffers| ==> Allocates(old(Bits(buffers)), Bits(buffers), start, i, a)
  {
    hide Bits, FullBits;
    ghost var bits := Bits(buffers);
    i := 0;
    var n := 0;
    while n < |buffers|
      invariant n == i <= |buffers| && Bits(buffers) == bits
      invariant forall j :: 0 <= j < i ==> FullBits(bits[j])
    {
      var block := AllocIn(buffers, n);
      if block >= 0 {
        return start + block, n;
      }
      n, i := n + 1, i + 1;
    }
    a := 0;
  }

  /** alloc_bit on block n of the bitmap. */
  method AllocIn(buffers: seq<array<bv8>>, n: nat) returns (k: int)
    requires BitmapBuffers(buffers) && n < |buffers|
    modifies buffers
    ensures k < 0 ==> Bits(buffers) == old(Bits(buffers)) && FullBits(Bits(buffers)[n])
    ensures k >= 0 ==>
            && k < 4096 && Bits(buffers) == old(Bits(buffers))[n := Bitmap.SetBit(old(Bits(buffers))[n], k)]
            && !FullBits(old(Bits(buffers))[n]) && !Bitmap.TestBit(old(Bits(buffers))[n], k)
            && (forall l :: 0 <= l < k ==> Bitmap.TestBit(old(Bits(buffers))[n], l))
  {
    hide Bits, Bitmap.SetBit, Bitmap.TestBit;
    ghost var bits := Bits(buffers);
    k := Bitmap.AllocBit(buffers[n]);
    assert Bits(buffers) == bits[n := buffers[n][..]];
  }

  /** fs_free_block; its assertions are that the address is in the region and the
      bit is set. */
  method FreeBlock(buffers: seq<array<bv8>>, start: nat, block: int)
    requires BitmapBuffers(buffers) && start <= block < start + 4096 * |buffers|
    requires Bitmap.TestBit(buffers[(block - start) / 4096][..], (block - start) % 4096)
    modifies buffers
    ensures var bit := block - start;
            && buffers[bit / 4096][..] == Bitmap.ClearBit(old(buffers[bit / 4096][..]), bit % 4096)
            && forall j :: 0 <= j < |buffers| && j != bit / 4096 ==> buffers[j][..] == old(buffers[j][..])
  {
    var bit := block - start;
    Bitmap.FreeBit(buffers[bit / 4096], bit % 4096);
  }

  /** The block returned was free, in the sense of fs_free_block, and is taken now,
      if and only if the first block of the bitmap was not full. */
  lemma AllocIsRight(bits: seq<seq<bv8>>, bits': seq<seq<bv8>>, start: nat, i: nat, a: nat)
    requires Allocates(bits, bits', start, i, a)
    ensures !Taken(bits, start, a) && Taken(bits', start, a) <==> !FullBits(bits[0])
  {
    Bitmap.SetSetsOne(bits[i], a - start, a - start);
    assert (a - start) / 4096 == 0 && (a - start) % 4096 == a - start;
    if i > 0 {
      assert FullBits(bits[0]);
    }
  }

  /** With two blocks of which the first is full, it returns a block in use. */
  lemma AllocGoesWrong(start: nat) returns (bits: seq<seq<bv8>>, bits': seq<seq<bv8>>)
    ensures Allocates(bits, bits', start, 1, start) && Taken(bits, start, start)
  {
    var full, empty := seq<bv8>(512, _ => 0xFF), seq<bv8>(512, _ => 0);
    bits := [full, empty];
    assert !Bitmap.TestBit(empty, 0);
    bits' := bits[1 := Bitmap.SetBit(empty, 0)];
    forall k | 0 <= k < 4096 ensures Bitmap.TestBit(full, k) {
      Bitmap.NonZero(Bitmap.Mask(k % 8));
    }
  }

  // ----- regular.c -----

  /** The address written down for block n of an inode. */
  function Lookup(i: Inode, blocks: seq<Block>, n: nat): nat
    requires |i.address| == 10 && n < 137 && (n >= 9 ==> i.address[9] < |blocks|)
  {
    if n < 9 then i.address[n] else Entry(blocks[i.address[9]], n - 9)
  }

  lemma LookupIs(s: Store, ino: nat, n: nat)
    requires Good(s) && ino in s.inodes && n < s.extent[ino]
    ensures var i := s.inodes[ino];
            && |i.address| == 10 && n < 137 && Data(ino, n) in s.at && (n >= 9 ==> 0 < i.address[9] < |s.blocks|)
            && 0 < Lookup(i, s.blocks, n) == s.at[Data(ino, n)] < |s.blocks|
  {
    assert InodeLinks(s, ino);
    Apart(s, Data(ino, n), Data(ino, n));
    if n >= 9 {
      Apart(s, Indirect(ino), Indirect(ino));
      assert EntryLinks(s, ino);
      assert 9 + (n - 9) == n;
    }
  }

  /** A bit is set exactly when its block is in use. */
  ghost predicate BitsMatch(b: seq<bv8>, start: nat, owner: map<nat, Slot>)
    requires |b| == 512
  {
    forall k: nat :: k < 4096 ==> (Bitmap.TestBit(b, k) <==> start + k in owner)
  }

  lemma SetMatches(b: seq<bv8>, start: nat, owner: map<nat, Slot>, a: nat, o: Slot)
    requires |b| == 512 && start <= a < start + 4096 && BitsMatch(b, start, owner)
    ensures BitsMatch(Bitmap.SetBit(b, a - start), start, owner[a := o])
  {
    var b' := Bitmap.SetBit(b, a - start);
    forall k: nat | k < 4096 ensures Bitmap.TestBit(b', k) <==> start + k in owner[a := o] {
      Bitmap.SetSetsOne(b, a - start, k);
    }
  }

  lemma NotFull(b: seq<bv8>, start: nat, owner: map<nat, Slot>, f: int)
    requires |b| == 512 && start <= f < start + 4096 && f !in owner && BitsMatch(b, start, owner)
    ensures !FullBits(b)
  {
    assert start + (f - start) == f && !Bitmap.TestBit(b, f - start);
  }

  /** The lowest clear bit is that of the lowest free block. */
  lemma LowestIsLeast(s: Store, b: seq<bv8>, a: nat)
    requires |b| == 512 && s.start <= a < s.start + 4096 && BitsMatch(b, s.start, s.owner)
    requires !Bitmap.TestBit(b, a - s.start) && forall k :: 0 <= k < a - s.start ==> Bitmap.TestBit(b, k)
    ensures FreeSet(s) != {} && a == Least(FreeSet(s))
  {
    assert s.start + (a - s.start) == a;
    assert (a as int) in FreeSet(s);
    forall f | f in FreeSet(s) ensures a <= f {
      assert s.start + (f - s.start) == f && !Bitmap.TestBit(b, f - s.start);
    }
    assert IsLeast(FreeSet(s), a);
  }

  lemma ClearMatches(b: seq<bv8>, start: nat, owner: map<nat, Slot>, a: nat)
    requires |b| == 512 && start <= a < start + 4096 && BitsMatch(b, start, owner)
    ensures BitsMatch(Bitmap.ClearBit(b, a - start), start, owner - {a})
  {
    var b' := Bitmap.ClearBit(b, a - start);
    forall k: nat | k < 4096 ensures Bitmap.TestBit(b', k) <==> start + k in owner - {a} {
      Bitmap.ClearClearsOne(b, a - start, k);
    }
  }

  class Disk {
    const bitmap: array<bv8>       // the one block of the data bitmap
    const start: nat               // where the data blocks start
    const clears: bool             // whether inode_map clears a new indirect block; it does not
    var blocks: seq<Block>         // the device
    var inodes: map<nat, Inode>    // by number

    ghost var at: map<Slot, nat>
    ghost var owner: map<nat, Slot>
    ghost var extent: map<nat, nat>
    ghost var files: map<nat, Bytes>

    ghost function Value(): Store
      reads this
    {
      Store(start, blocks, inodes, at, owner, extent)
    }

    ghost predicate BitsOk()
      reads `owner, bitmap
    {
      bitmap.Length == 512 && BitsMatch(bitmap[..], start, owner)
    }

    ghost predicate Mid()
      reads this, bitmap
    {
      BitsOk() && Sound(Value(), files)
    }

    ghost predicate Valid()
      reads this, bitmap
    {
      BitsOk() && Good(Value()) && Refines(Value(), files) && Exact(Value())
    }

    /** A file can grow past 9 blocks: its indirect block is going to be zero. */
    ghost predicate CanGrow(from: nat, to: nat)
      reads this
    {
      clears || from > 9 || to <= 9 || (Paired(Value()) && FreshZero(Value()))
    }

    method Alloc(ghost o: Slot) returns (a: nat)
      requires BitsOk() && Paired(Value()) && o !in at && |FreeSet(Value())| > 0
      modifies bitmap, `at, `owner
      ensures BitsOk() && Free(old(Value()), a) && at == old(at)[o := a] && owner == old(owner)[a := o]
      ensures FreeSet(old(Value())) != {} && a == Least(FreeSet(old(Value())))
    {
      ghost var f :| f in FreeSet(Value());
      NotFull(bitmap[..], start, owner, f);
      ghost var i;
      a, i := AllocBlock([bitmap], start);
      assert old(Bits([bitmap]))[0] == old(bitmap[..]) && Bits([bitmap])[0] == bitmap[..];
      LowestIsLeast(Value(), old(bitmap[..]), a);
      SetMatches(old(bitmap[..]), start, owner, a, o);
      assert start + (a - start) == a;
      at := at[o := a];
      owner := owner[a := o];
    }

    // The branch of inode_translate that allocates, for each kind of entry.

    method NewDirect(ino: nat, n: nat) returns (address: nat)
      requires Mid() && ino in inodes && extent[ino] == n < 9 && |files[ino]| <= 512 * n && |FreeSet(Value())| > 0
      modifies bitmap, `at, `owner, `inodes, `extent
      ensures Mid() && Free(old(Value()), address) && Value() == AddDirect(old(Value()), ino, address)
      ensures FreeSet(old(Value())) != {} && address == Least(FreeSet(old(Value())))
    {
      hide Sound, Good, Closed, Paired, Refines, BitsOk, FreeSet, InodeLinks, EntryLinks;
      ghost var s, o := Value(), Data(ino, n);
      SoundIs(s, files, ino);
      address := Alloc(o);
      AddDirectSound(s, ino, address, files);
      var i := inodes[ino];
      inodes := inodes[ino := i.(address := i.address[n := address])];
      extent := extent[ino := n + 1];
      assert Value() == AddDirect(s, ino, address);
    }

    method NewIndirect(ino: nat) returns (address: nat)
      requires Mid() && ino in inodes && extent[ino] == 9 && Indirect(ino) !in at && |FreeSet(Value())| > 0
      requires CanGrow(9, 10)
      modifies bitmap, `at, `owner, `inodes, `blocks
      ensures Mid() && Free(old(Value()), address) && address < |old(blocks)|
      ensures Sound(Ready(old(Value()), address, clears), files)
      ensures ino in old(inodes) && Value() == AddIndirect(Ready(old(Value()), address, clears), ino, address)
      ensures FreeSet(old(Value())) != {} && address == Least(FreeSet(old(Value())))
    {
      hide Sound, Good, Closed, Paired, Refines, BitsOk, FreeSet, InodeLinks, EntryLinks, FreshZero;
      ghost var s, o := Value(), Indirect(ino);
      SoundIs(s, files, ino);
      address := Alloc(o);
      ReadyIsZero(s, files, ino, address, clears);
      if clears {
        blocks := blocks[address := ZeroBlock()];
      }
      var i := inodes[ino];
      inodes := inodes[ino := i.(address := i.address[9 := address])];
      assert Value() == AddIndirect(Ready(s, address, clears), ino, address);
    }

    method NewEntry(ino: nat, indirect: nat, k: nat) returns (address: nat)
      requires Mid() && ino in inodes && extent[ino] == k + 9 < 137 && Indirect(ino) in at
      requires indirect == at[Indirect(ino)]
      requires |files[ino]| <= 512 * (k + 9) && |FreeSet(Value())| > 0
      modifies bitmap, `at, `owner, `blocks, `extent
      ensures Mid() && Free(old(Value()), address) && Value() == AddEntry(old(Value()), ino, address)
      ensures FreeSet(old(Value())) != {} && address == Least(FreeSet(old(Value())))
    {
      hide Sound, Good, Closed, Paired, Refines, BitsOk, FreeSet, InodeLinks, EntryLinks;
      ghost var s, o := Value(), Data(ino, k + 9);
      SoundIs(s, files, ino);
      Apart(s, Indirect(ino), Indirect(ino));
      address := Alloc(o);
      AddEntrySound(s, ino, address, files);
      blocks := blocks[indirect := WithEntry(blocks[indirect], k, address)];
      extent := extent[ino := k + 9 + 1];
      assert Value() == AddEntry(s, ino, address);
    }

    /** inode_map: the address of block n, which is known, or the file is one
        block shorter and gets it now. */
    method InodeMap(ino: nat, n: nat, ghost known: bool) returns (address: nat)
      requires ino in inodes && |inodes[ino].address| == 10 && n < 137
      requires known ==> (n >= 9 ==> 0 < inodes[ino].address[9] < |blocks|) && Lookup(inodes[ino], blocks, n) != 0
      requires !known ==>
               && Mid() && ino in extent && extent[ino] == n && (Indirect(ino) in at <==> n > 9)
               && |files[ino]| <= 512 * n && |FreeSet(Value())| >= Need(n, n + 1) && CanGrow(n, n + 1)
      modifies bitmap, `at, `owner, `inodes, `blocks, `extent
      ensures known ==> address == Lookup(old(inodes[ino]), old(blocks), n)
      ensures known ==> Value() == old(Value()) && bitmap[..] == old(bitmap[..])
      ensures !known ==> Mid() && OneMore(old(Value()), Value(), ino, n) && Placed(old(Value()), Value(), ino, n, n + 1)
    {
      hide BitsOk, Sound, Good, Paired, Closed, FreshZero, Refines, FreeSet, InodeLinks, EntryLinks, OneMore, Free,
          AddDirect, AddIndirect, AddEntry, Entry, Ready;
      ghost var s := Value();
      if !known { Unmapped(s, files, ino); }
      if n < 9 {
        address := inodes[ino].address[n];
        if address == 0 {
          address := NewDirect(ino, n);
          DirectIsOneMore(s, ino, address);
          OnePlaced(s, Value(), ino, n, address);
        }
      } else {
        address := MapIndirect(ino, n, known);
      }
    }

    /** Its part for blocks that are not direct. */
    method MapIndirect(ino: nat, n: nat, ghost known: bool) returns (address: nat)
      requires ino in inodes && |inodes[ino].address| == 10 && 9 <= n < 137
      requires known ==> 0 < inodes[ino].address[9] < |blocks| && Lookup(inodes[ino], blocks, n) != 0
      requires !known ==>
               && Mid() && ino in extent && extent[ino] == n && (Indirect(ino) in at <==> n > 9)
               && |files[ino]| <= 512 * n && |FreeSet(Value())| >= Need(n, n + 1) && CanGrow(n, n + 1)
      modifies bitmap, `at, `owner, `inodes, `blocks, `extent
      ensures known ==> address == Lookup(old(inodes[ino]), old(blocks), n)
      ensures known ==> Value() == old(Value()) && bitmap[..] == old(bitmap[..])
      ensures !known ==> Mid() && OneMore(old(Value()), Value(), ino, n) && Placed(old(Value()), Value(), ino, n, n + 1)
    {
      hide BitsOk, Sound, Good, Paired, Closed, FreshZero, Refines, FreeSet, InodeLinks, EntryLinks, OneMore, Free,
          AddDirect, AddIndirect, AddEntry, Entry, Ready, IndirectMore, EntryMore;
      ghost var s := Value();
      if !known { Unmapped(s, files, ino); }
      var block := n - 9;
      var indirect := inodes[ino].address[9];
      if indirect == 0 {
        indirect := NewIndirect(ino);
        ghost var m := Value();
        IndirectAdded(s, m, files, ino, indirect, clears);
        address := Entry(blocks[indirect], block);
        if address == 0 {
          address := NewEntry(ino, indirect, block);
          AddEntryIs(m, ino, address);
          BothAreOneMore(s, m, Value(), ino);
          TwoPlaced(s, m, Value(), ino, indirect, address);
        }
        return;
      }
      address := Entry(blocks[indirect], block);
      if address == 0 {
        address := NewEntry(ino, indirect, block);
        AddEntryIs(s, ino, address);
        EntryIsOneMore(s, Value(), ino, n);
        OnePlaced(s, Value(), ino, n, address);
      }
    }

    /** The blocks of ino from its old extent up to n are there since s0, and free
        blocks enough for those up to more. */
    ghost predicate Growing(s0: Store, files0: map<nat, Bytes>, ino: nat, n: nat, more: nat)
      reads this, bitmap
    {
      && Mid() && files == files0 && Grew(s0, Value(), ino, n) && more <= 137
      && ino in s0.extent && s0.extent[ino] <= n && Placed(s0, Value(), ino, s0.extent[ino], n)
      && |FreeSet(Value())| >= Need(n, more) && CanGrow(n, more)
    }

    lemma GrowingStarts(ino: nat, more: nat)
      requires Valid() && ino in inodes && more <= 137 && CanGrow(extent[ino], more)
      requires |FreeSet(Value())| >= Need(extent[ino], more)
      ensures Growing(Value(), files, ino, extent[ino], more)
    {
      hide Good, Refines, BitsOk, FreshZero, FreeSet, Grew;
      GrewNothing(Value(), ino);
      PlacedNothing(Value(), ino, extent[ino]);
    }

    method GrowNext(ino: nat, block: nat, ghost s0: Store, ghost files0: map<nat, Bytes>, ghost more: nat)
      requires Growing(s0, files0, ino, block, more) && block < more
      modifies bitmap, `at, `owner, `inodes, `blocks, `extent
      ensures Growing(s0, files0, ino, block + 1, more)
    {
      hide Sound, FreeSet, BitsOk, Good, Grew, OneMore, FreshZero, Paired, Placed;
      ghost var s := Value();
      NeedSteps(block, more);
      GrewIs(s0, s, ino, block);
      SoundIs(s, files, ino);
      var _ := InodeMap(ino, block, false);
      OneMoreHas(s, Value(), ino, block);
      SoundIs(Value(), files, ino);
      GrewMore(s0, s, Value(), ino, block);
      PlacedOn(s0, s, Value(), ino, s0.extent[ino], block, block + 1);
      if FreshZero(s) { GrewFresh(s, Value(), ino, block); }
    }

    /** inode_grow: what comes to light is what the blocks held before. */
    method InodeGrow(ino: nat, size: nat)
      requires Valid() && ino in inodes && inodes[ino].size < size <= 512 * 137
      requires |FreeSet(Value())| >= Need(BlocksOf(inodes[ino].size), BlocksOf(size))
      requires CanGrow(BlocksOf(inodes[ino].size), BlocksOf(size))
      modifies bitmap, `at, `owner, `inodes, `blocks, `extent, `files
      ensures Valid() && ino in inodes && ino in old(files)
      ensures files == old(files)[ino := old(files)[ino] + Coming(old(Value()), ino, |old(files)[ino]|, size)]
      ensures |FreeSet(Value())| == |FreeSet(old(Value()))| - Need(BlocksOf(old(inodes[ino].size)), BlocksOf(size))
      ensures OthersKept(old(Value()), Value(), ino) && Untouched(old(Value()), Value(), ino, 0)
      ensures Placed(old(Value()), Value(), ino, BlocksOf(old(inodes[ino].size)), BlocksOf(size))
    {
      hide BitsOk, Good, Refines, Exact, FreshZero, Growing, FreeSet, OthersKept, Untouched, Rest, BlocksOf, Need,
          Sound, Paired, OnlyIndirects, Placed, Coming;
      ghost var s0, files0 := Value(), files;
      var from, to := BlocksOf(inodes[ino].size), BlocksOf(size);
      SizeFits(s0, ino, size);
      FileKnown(s0, files, ino);
      HasAllBlocks(s0, ino);
      GrowingStarts(ino, to);
      GrowBlocks(ino, from, to, s0, files0);
      GrowingEnds(s0, files0, ino, size);
      GrowingFiles(s0, files0, ino, size);
      UntouchedIs(s0, Sized(ino, size), ino, 0);
      ComingIs(s0, Sized(ino, size), ino, s0.inodes[ino].size, size, to);
      inodes := inodes[ino := inodes[ino].(size := size)];
      files := files[ino := files[ino] + Rest(s0.blocks, at, ino, |files[ino]|, size)];
    }

    /** The store at the end, when the size has been set. */
    ghost function Sized(ino: nat, size: nat): Store
      requires ino in inodes
      reads this
    {
      Value().(inodes := inodes[ino := inodes[ino].(size := size)])
    }

    lemma GrowingEnds(s0: Store, files0: map<nat, Bytes>, ino: nat, size: nat)
      requires Growing(s0, files0, ino, BlocksOf(size), BlocksOf(size)) && ino in s0.inodes && Exact(s0)
      ensures ino in inodes && BitsOk()
      ensures var s := Sized(ino, size);
              && Exact(s) && OthersKept(s0, s, ino) && Untouched(s0, s, ino, 0)
              && |FreeSet(s)| == |FreeSet(s0)| - Need(BlocksOf(s0.inodes[ino].size), BlocksOf(size))
              && Placed(s0, s, ino, BlocksOf(s0.inodes[ino].size), BlocksOf(size))
    {
      PlacedSame(s0, Value(), Sized(ino, size), ino, BlocksOf(s0.inodes[ino].size), BlocksOf(size));
      hide Good, Refines, FreshZero, BitsOk, Paired, Exact, Untouched, OthersKept, Grew, FreeSet, Placed;
      GrewIs(s0, Value(), ino, BlocksOf(size));
      SoundIs(Value(), files, ino);
      GrewAll(s0, Value(), ino, size);
    }

    lemma GrowingFiles(s0: Store, files0: map<nat, Bytes>, ino: nat, size: nat)
      requires Growing(s0, files0, ino, BlocksOf(size), BlocksOf(size)) && ino in s0.inodes
      requires ino in s0.inodes && s0.inodes[ino].size <= size
      ensures ino in inodes && files == files0 && ino in files
      ensures var s := Sized(ino, size);
              var files' := files[ino := files[ino] + Rest(s0.blocks, at, ino, |files[ino]|, size)];
              Sound(s, files') && Good(s) && Paired(s) && Refines(s, files')
    {
      hide Good, Refines, FreshZero, BitsOk, Paired, OthersKept, OnlyIndirects, Rest, FreeSet, Exact, Grew;
      GrewIs(s0, Value(), ino, BlocksOf(size));
      SoundIs(Value(), files, ino);
      RestSame(s0, Value(), ino, |files[ino]|, size);
      SizeGrown(Value(), files, ino, size);
      GoodIsPaired(Sized(ino, size));
    }

    /** Its loop. */
    method GrowBlocks(ino: nat, from: nat, to: nat, ghost s0: Store, ghost files0: map<nat, Bytes>)
      requires Growing(s0, files0, ino, from, to) && from <= to
      modifies bitmap, `at, `owner, `inodes, `blocks, `extent
      ensures Growing(s0, files0, ino, to, to)
    {
      hide *;
      var block := from;
      while block < to
        invariant from <= block <= to && Growing(s0, files0, ino, block, to)
      {
        GrowNext(ino, block, s0, files0, to);
        block := block + 1;
      }
    }

    /** What reading and writing a byte of a file need to know about its block. */
    lemma BlockKnown(ino: nat, position: nat)
      requires BitsOk() && Good(Value()) && Refines(Value(), files) && Exact(Value()) && ino in inodes
      requires position < inodes[ino].size
      ensures var n := position / 512;
              && ino in files && |files[ino]| == inodes[ino].size && |inodes[ino].address| == 10 && n < 137
              && (n >= 9 ==> 0 < inodes[ino].address[9] < |blocks|) && Data(ino, n) in at
              && 0 < Lookup(inodes[ino], blocks, n) == at[Data(ino, n)] < |blocks|
    {
      BlockInside(inodes[ino].size, position);
      LookupIs(Value(), ino, position / 512);
    }

    /** inode_read: the bytes from the position on, as many as asked for or as there are.
        None is EIO. */
    method InodeRead(ino: nat, position0: nat, size0: nat) returns (memory: Option<Bytes>)
      requires Valid() && ino in inodes
      modifies bitmap, `at, `owner, `inodes, `blocks, `extent
      ensures Valid() && Value() == old(Value())
      ensures ino in files && files == old(files) && memory.Some?
      ensures |memory.value| == (if position0 >= |files[ino]| then 0
                                 else if size0 <= |files[ino]| - position0 then size0 else |files[ino]| - position0)
      ensures forall i :: 0 <= i < |memory.value| ==> memory.value[i] == files[ino][position0 + i]
    {
      hide Good, Refines, Exact;
      FileKnown(Value(), files, ino);
      if position0 >= inodes[ino].size {
        return Some([]);
      }
      var size := if position0 + size0 > inodes[ino].size then inodes[ino].size - position0 else size0;
      var position, p: Bytes := position0, [];
      ghost var f, s, bits := files[ino], Value(), bitmap[..];
      while |p| < size
        invariant Valid() && Value() == s && bitmap[..] == bits
        invariant |p| <= size && position == position0 + |p| && p == f[position0..position]
        decreases size - |p|
      {
        var block, offset := position / 512, position % 512;
        var chunk := if size - |p| < 512 - offset then size - |p| else 512 - offset;
        BlockKnown(ino, position);
        ChunkIs(Value(), files, ino, position, chunk);
        block := InodeMap(ino, block, true);
        if block == 0 {
          return None;
        }
        TwoParts(f, position0, position, position + chunk);
        p := p + blocks[block][offset..offset + chunk];
        position := position + chunk;
      }
      memory := Some(p);
    }

    /** Since s0 the first k bytes of memory have been written into the file f. */
    ghost predicate Writing(s0: Store, files0: map<nat, Bytes>, f: Bytes, ino: nat, position0: nat, memory: Bytes,
        k: nat)
      reads this, bitmap
    {
      && Valid() && ino in inodes && k <= |memory| && position0 + |memory| <= |f|
      && files == files0[ino := Splice(f, position0, memory[..k])]
      && at == s0.at && FreeSet(Value()) == FreeSet(s0) && Untouched(s0, Value(), ino, |f|)
    }

    /** One turn of inode_write's loop; c is the size of the chunk, or the result
        is EIO. */
    method WriteChunk(ino: nat, position0: nat, memory: Bytes, k: nat, ghost s0: Store, ghost files0: map<nat, Bytes>,
        ghost f: Bytes) returns (c: int)
      requires Writing(s0, files0, f, ino, position0, memory, k) && k < |memory|
      modifies bitmap, `at, `owner, `inodes, `blocks, `extent, `files
      ensures 0 < c <= |memory| - k && Writing(s0, files0, f, ino, position0, memory, k + c)
    {
      hide Good, Refines, Exact, Paired, PutBytes, Untouched;
      ghost var s := Value();
      FileKnown(s, files, ino);
      var position := position0 + k;
      var block, offset := position / 512, position % 512;
      c := if |memory| - k < 512 - offset then |memory| - k else 512 - offset;
      BlockKnown(ino, position);
      ghost var o := Data(ino, block);
      block := InodeMap(ino, block, true);
      if block == 0 {
        return -4;
      }
      var d := memory[k..k + c];
      ChunkAll(s0, s, o, offset, d, files, |f|);
      SpliceMore(f, position0, memory, k, c);
      blocks := blocks[block := PutBytes(blocks[block], offset, d)];
      files := files[ino := Splice(files[ino], position, d)];
      assert Value() == PutChunk(s, o, offset, d);
    }

    /** inode_write: the number of bytes written, or EIO. */
    method InodeWrite(ino: nat, position: nat, memory: Bytes) returns (r: int)
      requires Valid() && ino in inodes && position + |memory| <= 512 * 137
      requires |FreeSet(Value())| >= Need(BlocksOf(inodes[ino].size), BlocksOf(position + |memory|))
      requires CanGrow(BlocksOf(inodes[ino].size), BlocksOf(position + |memory|))
      modifies bitmap, `at, `owner, `inodes, `blocks, `extent, `files
      ensures Valid() && ino in inodes && ino in old(files) && ino in files && r == |memory|
      ensures var f := old(files)[ino];
              files == old(files)[ino :=
                Overlay(f, Coming(old(Value()), ino, |f|, position + |memory|), position, memory)]
      ensures |FreeSet(Value())| == |FreeSet(old(Value()))| - Need(BlocksOf(old(inodes[ino].size)),
                BlocksOf(position + |memory|))
      ensures OthersKept(old(Value()), Value(), ino) && Untouched(old(Value()), Value(), ino, |files[ino]|)
      ensures Placed(old(Value()), Value(), ino, BlocksOf(old(inodes[ino].size)), BlocksOf(inodes[ino].size))
    {
      hide Good, Refines, Exact, FreshZero, Paired, FreeSet, BitsOk, Untouched, OthersKept, Coming, Splice, Writing,
          Placed, BlocksOf;
      ghost var s, files0 := Value(), files;
      FileKnown(s, files, ino);
      ghost var rest;
      if position + |memory| > inodes[ino].size {
        InodeGrow(ino, position + |memory|);
        rest := Coming(s, ino, |files0[ino]|, position + |memory|);
      } else {
        NoNeed(inodes[ino].size, position + |memory|);
        NothingDone(s, ino);
        PlacedNothing(s, ino, BlocksOf(inodes[ino].size));
        rest := [];
        NothingComing(s, ino, |files0[ino]|, position + |memory|);
        assert files0[ino] + rest == files0[ino] && files0[ino := files0[ino]] == files0;
      }
      GoodIsPaired(Value());
      ghost var m, f := Value(), files0[ino] + rest;
      r := WriteAtAll(ino, position, memory, m, files0, f);
      WrittenAll(s, m, files0, f, ino, position, memory);
      FileKnown(Value(), files, ino);
      PlacedSame(s, m, Value(), ino, BlocksOf(s.inodes[ino].size), BlocksOf(inodes[ino].size));
    }

    /** Its loop. */
    method WriteAtAll(ino: nat, position: nat, memory: Bytes, ghost m: Store, ghost files0: map<nat, Bytes>,
        ghost f: Bytes) returns (r: int)
      requires Valid() && ino in inodes && position + |memory| <= |f| && m == Value() && files == files0[ino := f]
      modifies bitmap, `at, `owner, `inodes, `blocks, `extent, `files
      ensures Writing(m, files0, f, ino, position, memory, |memory|) && r == |memory|
    {
      hide *;
      StartWriting(files0, f, ino, position, memory);
      var p := 0;
      while p < |memory|
        invariant 0 <= p <= |memory| && Writing(m, files0, f, ino, position, memory, p)
      {
        var c := WriteChunk(ino, position, memory, p, m, files0, f);
        if c < 0 {
          return -4;
        }
        p := p + c;
      }
      r := p;
    }

    lemma StartWriting(files0: map<nat, Bytes>, f: Bytes, ino: nat, position: nat, memory: Bytes)
      requires Valid() && ino in inodes && position + |memory| <= |f| && files == files0[ino := f]
      ensures Writing(Value(), files0, f, ino, position, memory, 0)
    {
      hide Good, Refines, Exact, Paired, FreeSet, BitsOk;
      SpliceNothing(f, position, memory);
    }

    lemma WrittenAll(s: Store, m: Store, files0: map<nat, Bytes>, f: Bytes, ino: nat, position: nat, memory: Bytes)
      requires Writing(m, files0, f, ino, position, memory, |memory|)
      requires Paired(m) && OthersKept(s, m, ino) && Untouched(s, m, ino, 0)
      ensures Valid() && ino in inodes && ino in files && at == m.at && FreeSet(Value()) == FreeSet(m)
      ensures files == files0[ino := Splice(f, position, memory)]
      ensures OthersKept(s, Value(), ino) && Untouched(s, Value(), ino, |files[ino]|)
    {
      hide Good, Refines, Exact, FreeSet, BitsOk;
      assert memory[..|memory|] == memory;
      GoodIsPaired(Value());
      UntouchedTransitive(s, m, Value(), ino, 0, |f|);
      hide Untouched, Paired;
    }

    /** fs_free_block for a block in use. */
    method Free1(a: nat, ghost o: Slot)
      requires BitsOk() && o in at && at[o] == a && a in owner && InRegion(Value(), a)
      modifies bitmap, `at, `owner
      ensures BitsOk() && at == old(at) - {o} && owner == old(owner) - {a}
    {
      assert start + (a - start) == a && Bitmap.TestBit(bitmap[..], a - start);
      ClearMatches(bitmap[..], start, owner, a);
      assert [bitmap][0] == bitmap;
      FreeBlock([bitmap], start, a);
      at := at - {o};
      owner := owner - {a};
    }

    /** The first k data blocks of ino are free, and nothing else has changed. */
    ghost predicate Truncating(s0: Store, ino: nat, k: nat)
      reads this, bitmap
    {
      BitsOk() && Good(s0) && ino in s0.inodes && k <= s0.extent[ino] && Value() == Cut(s0, ino, k)
    }

    /** One turn of inode_trunc's loop. The addresses are still written down, so
        the block is found, and it has not been freed before. */
    method TruncNext(ino: nat, block: nat, ghost s0: Store)
      requires Truncating(s0, ino, block) && block < s0.extent[ino]
      modifies bitmap, `at, `owner, `inodes, `blocks, `extent
      ensures Truncating(s0, ino, block + 1)
    {
      hide Good, Cut;
      CutIs(s0, ino, block);
      CutIs(s0, ino, block + 1);
      LookupIs(s0, ino, block);
      GoodIsPaired(s0);
      CutSteps(s0, ino, block);
      var address := InodeMap(ino, block, true);
      Free1(address, Data(ino, block));
    }

    /** inode_trunc. The inode keeps its addresses, of blocks that are free now. */
    method InodeTrunc(ino: nat)
      requires Valid() && ino in inodes
      modifies bitmap, `at, `owner, `inodes, `blocks, `extent
      ensures BitsOk() && blocks == old(blocks) && extent == old(extent)
      ensures inodes == old(inodes)[ino := old(inodes)[ino].(size := 0)]
      ensures at == Dropped(old(Value()), ino).at && owner == Dropped(old(Value()), ino).owner
    {
      hide Good, Paired, Closed, Exact, Refines, BitsOk, Cut, Dropped, BlocksOf;
      ghost var s0 := Value();
      GoodIsPaired(s0);
      ExactIs(s0, ino);
      CutNothing(s0, ino);
      var to := BlocksOf(inodes[ino].size);
      var block := 0;
      while block < to
        invariant 0 <= block <= to && Truncating(s0, ino, block)
      {
        TruncNext(ino, block, s0);
        block := block + 1;
      }
      CutAll(s0, ino);
      CutIs(s0, ino, block);
      if block > 9 {
        IndirectIs(s0, ino);
        Free1(inodes[ino].address[9], Indirect(ino));
      }
      inodes := inodes[ino := inodes[ino].(size := 0)];
    }

    /** A file without a link that nobody uses is truncated, and its inode is not
        looked at again. */
    method Remove(ino: nat)
      requires Valid() && ino in inodes
      modifies bitmap, `at, `owner, `inodes, `blocks, `extent, `files
      ensures Valid() && files == old(files) - {ino} && Value() == Dropped(old(Value()), ino)
      ensures FreeSet(Value()) == FreeSet(old(Value())) + BlocksIn(old(Value()), ino)
    {
      hide Good, Exact, Refines, BitsOk, FreeSet, BlocksIn;
      ghost var s := Value();
      RemovalSound(s, files, ino);
      InodeTrunc(ino);
      inodes := inodes - {ino};
      extent := extent - {ino};
      files := files - {ino};
      assert Value() == Dropped(s, ino);
    }

    /** An inode for a new file, as dir_make_common ought to fill it in. */
    method Create(ino: nat)
      requires Valid() && ino !in inodes
      modifies `inodes, `extent, `files
      ensures Valid() && files == old(files)[ino := []] && Value() == Created(old(Value()), ino)
    {
      hide Good, Refines, Exact, BitsOk;
      CreatedGood(Value(), ino, files);
      inodes := inodes[ino := NewInode()];
      extent := extent[ino := 0];
      files := files[ino := []];
      assert Value() == Created(old(Value()), ino);
    }

    /** A run of writes: every byte is what was written there last, or what it was
        before, or what its block held if the file has grown over it. */
    method WriteRun(ino: nat, ws: seq<Patch>)
      requires Valid() && ino in inodes && EndOf(ws) <= 512 * 137
      requires |FreeSet(Value())| >= Need(BlocksOf(inodes[ino].size), BlocksOf(EndOf(ws)))
      requires CanGrow(BlocksOf(inodes[ino].size), BlocksOf(EndOf(ws)))
      modifies bitmap, `at, `owner, `inodes, `blocks, `extent, `files
      ensures Valid() && ino in inodes && ino in old(files)
      ensures var f := old(files)[ino];
              files == old(files)[ino := WriteAll(f + Coming(old(Value()), ino, |f|, EndOf(ws)), ws)]
      ensures OthersKept(old(Value()), Value(), ino)
    {
      var n := 0;
      hide *;
      ghost var s0 := Value();
      FirstOfRun(ino, ws);
      while n < |ws|
        invariant 0 <= n <= |ws| && ino in old(files) && InRun(s0, old(files), ino, ws, n)
      {
        WriteNext(ino, ws, n, s0, old(files));
        n := n + 1;
      }
      LastOfRun(s0, ino, ws, old(files));
    }

    /** A read after a run of writes: each byte that was written is what was written there last,
        and each other byte of the former file is what it was. What is read ends where the file
        does, which is as long as before or as the furthest write goes. */
    method ReadAfterRun(ino: nat, ws: seq<Patch>, position: nat, size: nat) returns (memory: Option<Bytes>)
      requires Valid() && ino in inodes && EndOf(ws) <= 512 * 137
      requires |FreeSet(Value())| >= Need(BlocksOf(inodes[ino].size), BlocksOf(EndOf(ws)))
      requires CanGrow(BlocksOf(inodes[ino].size), BlocksOf(EndOf(ws)))
      modifies bitmap, `at, `owner, `inodes, `blocks, `extent, `files
      ensures Valid() && ino in old(files) && memory.Some?
      ensures var end := if EndOf(ws) > |old(files)[ino]| then EndOf(ws) else |old(files)[ino]|;
              |memory.value| == if position >= end then 0 else if size <= end - position then size else end - position
      ensures forall i: nat, n: nat :: i < |memory.value| && WrittenLast(ws, n, position + i) ==>
                memory.value[i] == ws[n].d[position + i - ws[n].position]
      ensures forall i: nat ::
                i < |memory.value| && position + i < |old(files)[ino]| && NeverWritten(ws, position + i) ==>
                memory.value[i] == old(files)[ino][position + i]
    {
      hide Good, Refines, Exact, BitsOk, FreshZero, FreeSet, OthersKept, Coming, BlocksOf, EndOf, CanGrow, WriteAll;
      FileKnown(Value(), files, ino);
      ghost var f, more := files[ino], Coming(Value(), ino, |files[ino]|, EndOf(ws));
      WriteRun(ino, ws);
      memory := InodeRead(ino, position, size);
      ghost var g := f + more;
      assert files[ino] == WriteAll(g, ws);
      forall i: nat, n: nat | i < |memory.value| && WrittenLast(ws, n, position + i)
        ensures memory.value[i] == ws[n].d[position + i - ws[n].position]
      {
        LastWritten(g, ws, position + i, n);
      }
      forall i: nat | i < |memory.value| && position + i < |f| && NeverWritten(ws, position + i)
        ensures memory.value[i] == f[position + i]
      {
        LastWritten(g, ws, position + i, |ws|);
      }
    }

    /** The first n writes have been done since s0. */
    ghost predicate InRun(s0: Store, files0: map<nat, Bytes>, ino: nat, ws: seq<Patch>, n: nat)
      requires ino in files0 && n <= |ws|
      reads this, bitmap
    {
      && Valid() && ino in inodes && ino in files && EndOf(ws) <= 512 * 137
      && files == files0[ino := RunFile(s0, at, files0[ino], ino, ws[..n])]
      && Untouched(s0, Value(), ino, |files[ino]|) && OthersKept(s0, Value(), ino)
      && Placed(s0, Value(), ino, BlocksOf(|files0[ino]|), BlocksOf(|files[ino]|))
      && (forall m: nat :: m < BlocksOf(|files0[ino]|) ==> Data(ino, m) in s0.at)
      && |FreeSet(Value())| >= Need(BlocksOf(inodes[ino].size), BlocksOf(EndOf(ws)))
      && CanGrow(BlocksOf(inodes[ino].size), BlocksOf(EndOf(ws)))
    }

    lemma FirstOfRun(ino: nat, ws: seq<Patch>)
      requires Valid() && ino in inodes && EndOf(ws) <= 512 * 137
      requires |FreeSet(Value())| >= Need(BlocksOf(inodes[ino].size), BlocksOf(EndOf(ws)))
      requires CanGrow(BlocksOf(inodes[ino].size), BlocksOf(EndOf(ws)))
      ensures ino in files && InRun(Value(), files, ino, ws, 0)
    {
      hide Good, Exact, BitsOk, FreshZero, FreeSet;
      FileKnown(Value(), files, ino);
      HasAllBlocks(Value(), ino);
      PlacedNothing(Value(), ino, BlocksOf(|files[ino]|));
      NothingDone(Value(), ino);
      RunFileNone(Value(), at, files[ino], ino);
      assert ws[..0] == [] && files[ino := files[ino]] == files;
    }

    lemma LastOfRun(s0: Store, ino: nat, ws: seq<Patch>, files0: map<nat, Bytes>)
      requires ino in files0 && InRun(s0, files0, ino, ws, |ws|)
      ensures OthersKept(s0, Value(), ino) && ino in inodes && Valid()
      ensures var f := files0[ino];
              files == files0[ino := WriteAll(f + Coming(s0, ino, |f|, EndOf(ws)), ws)]
    {
      hide Good, Refines, Exact, BitsOk, FreshZero, FreeSet, Untouched, OthersKept, Placed, Rest, WriteAll;
      assert ws[..|ws|] == ws;
      UntouchedIs(s0, Value(), ino, |files[ino]|);
      RunFileSize(s0, at, files0[ino], ino, ws);
      ComingIs(s0, Value(), ino, |files0[ino]|, EndOf(ws), BlocksOf(|files[ino]|));
    }

    method WriteNext(ino: nat, ws: seq<Patch>, n: nat, ghost s0: Store, ghost files0: map<nat, Bytes>)
      requires n < |ws| && ino in files0 && InRun(s0, files0, ino, ws, n)
      modifies bitmap, `at, `owner, `inodes, `blocks, `extent, `files
      ensures InRun(s0, files0, ino, ws, n + 1)
    {
      hide Good, Refines, Exact, FreshZero, BitsOk, FreeSet, Overlay, OthersKept, Untouched, RunFile, Rest, EndOf,
          Coming, Placed, BlocksOf;
      var w := ws[n];
      EndOfPart(ws, n);
      FileKnown(Value(), files, ino);
      NeedSplits(inodes[ino].size, w.position + |w.d|, EndOf(ws));
      ghost var s, f := Value(), files[ino];
      HasBlocks(s, files, ino);
      HasAllBlocks(s, ino);
      var _ := InodeWrite(ino, w.position, w.d);
      FileKnown(Value(), files, ino);
      UntouchedIs(s, Value(), ino, |files[ino]|);
      PlacedOn(s0, s, Value(), ino, BlocksOf(|files0[ino]|), BlocksOf(|f|), BlocksOf(|files[ino]|));
      ReachesEnd(w.position + |w.d|, |files[ino]|);
      ComingIs(s, Value(), ino, |f|, w.position + |w.d|, BlocksOf(|files[ino]|));
      NextOfRun(s0, s, Value(), files0[ino], f, ino, ws, n, |files[ino]|);
    }

    /** A whole life: a file is made, written to any number of times, and removed.
        Then the other files are as they were, and so is the bitmap. */
    method FileLife(ino: nat, ws: seq<Patch>)
      requires Valid() && ino !in inodes && EndOf(ws) <= 512 * 137
      requires |FreeSet(Value())| >= Need(0, BlocksOf(EndOf(ws))) && CanGrow(0, BlocksOf(EndOf(ws)))
      modifies bitmap, `at, `owner, `inodes, `blocks, `extent, `files
      ensures Valid() && files == old(files) && FreeSet(Value()) == FreeSet(old(Value()))
      ensures bitmap[..] == old(bitmap[..])
    {
      hide Good, Exact, Refines, FreshZero, FreeSet, OthersKept, Created, Dropped, BlocksOf, WriteAll, BlocksIn, Rest;
      ghost var s0, files0, bits := Value(), files, bitmap[..];
      assert Matching(bits, s0.owner);
      hide BitsOk, BitsMatch;
      NotYet(s0, files0, ino);
      Create(ino);
      ghost var c := Value();
      GoodIsPaired(s0);
      GoodIsPaired(c);
      CreatedIs(s0, ino);
      WriteRun(ino, ws);
      ghost var s1 := Value();
      GoodIsPaired(s1);
      OthersTransitive(s0, c, s1, ino);
      RemovedAll(s0, s1, ino);
      ghost var f := files[ino];
      Remove(ino);
      Forgotten(files0, ino, files, f);
      MatchingNow();
      SameBitmap(bits, bitmap[..], s0.owner, owner);
    }

    /** A file that grows shows what a removed file held: d is written into x, x is
        removed, and ino is made and grown. */
    method StaleSeen(x: nat, ino: nat, d: Bytes)
      requires Valid() && x !in inodes && ino !in inodes && |FreeSet(Value())| > 0 && |d| == 512
      modifies bitmap, `at, `owner, `inodes, `blocks, `extent, `files
      ensures Valid() && files == old(files)[ino := d]
    {
      hide *;
      NoSuchFile(ino);
      WriteAndRemove(x, d);
      NoSuchFile(ino);
      GrowInto(ino, d);
    }

    /** The next free block holds d. */
    ghost predicate NextIs(d: Bytes)
      reads this
    {
      && |FreeSet(Value())| > 0
      && var a := Least(FreeSet(Value())); 0 <= a < |blocks| && blocks[a] == d
    }

    lemma NoSuchFile(ino: nat)
      requires Valid()
      ensures ino in files <==> ino in inodes
    {
    }

    method WriteAndRemove(x: nat, d: Bytes)
      requires Valid() && x !in inodes && |FreeSet(Value())| > 0 && |d| == 512
      modifies bitmap, `at, `owner, `inodes, `blocks, `extent, `files
      ensures Valid() && files == old(files) && NextIs(d) && at == old(at)
    {
      hide Good, Exact, Refines, FreshZero, FreeSet, OthersKept, Created, Dropped, BlocksIn, Coming, Untouched, BitsOk,
          Paired, Overlay, OnlyIndirects, Placed;
      ghost var s0, files0 := Value(), files;
      NotYet(s0, files0, x);
      GoodIsPaired(s0);
      Create(x);
      CreatedIs(s0, x);
      ghost var c := Value();
      GoodIsPaired(c);
      var _ := InodeWrite(x, 0, d);
      ghost var w := Value();
      GoodIsPaired(w);
      OthersTransitive(s0, c, w, x);
      WholeBlock(Coming(c, x, 0, 512), d);
      FirstBlock(w, files, x, d);
      FileKnown(w, files, x);
      FirstPlaced(c, w, x);
      RemovedAll(s0, w, x);
      DroppedBlocks(w, x);
      Remove(x);
      Forgotten(files0, x, files, d);
    }

    /** inode_map for the tenth block of a file of nine, as the code has it: the indirect
        block is not cleared. */
    method MapTenth(ino: nat) returns (address: nat)
      requires Valid() && ino in inodes && inodes[ino].size == 9 * 512 && |FreeSet(Value())| > 0
      modifies bitmap, `at, `owner, `inodes, `blocks
      ensures var a := Least(FreeSet(old(Value())));
              && 0 < a < |old(blocks)| && blocks == old(blocks) && at == old(at)[Indirect(ino) := a]
              && (Entry(blocks[a], 0) != 0 ==>
                    && address == Entry(blocks[a], 0) && ino in inodes && |inodes[ino].address| == 10
                    && inodes[ino].address[9] == a)
    {
      hide Good, Exact, Refines, FreshZero, BitsOk, Paired, FreeSet;
      NoIndirectYet(Value(), ino);
      ghost var s := Value();
      var indirect := Alloc(Indirect(ino));
      FreeIsSmall(s, indirect);
      inodes := inodes[ino := inodes[ino].(address := inodes[ino].address[9 := indirect])];
      address := Entry(blocks[indirect], 0);
      if address == 0 {
        // Here a data block would be given out.
        return;
      }
    }

    /** A file takes another's block: d, with the address of y's first block in front, is
        written into x, x is removed, and ino grows to ten blocks. Then its tenth block
        is y's first. */
    method StaleIndirect(x: nat, ino: nat, y: nat, d: Bytes) returns (address: nat)
      requires Valid() && x !in inodes && |FreeSet(Value())| > 0 && |d| == 512
      requires ino in inodes && inodes[ino].size == 9 * 512 && y != ino && Data(y, 0) in at
      requires Word(d, 0) == at[Data(y, 0)]
      modifies bitmap, `at, `owner, `inodes, `blocks, `extent, `files
      ensures Data(y, 0) in at && address == old(at)[Data(y, 0)] == at[Data(y, 0)]
      ensures ino in inodes && |inodes[ino].address| == 10
      ensures 0 < inodes[ino].address[9] < |blocks| && Lookup(inodes[ino], blocks, 9) == address
    {
      hide Good, Exact, Refines, FreshZero, BitsOk, Paired, FreeSet, Least, Word;
      InUse(Value(), Data(y, 0));
      SizeKnown(ino);
      WriteAndRemove(x, d);
      SizeKnown(ino);
      address := MapTenth(ino);
    }

    lemma SizeKnown(ino: nat)
      requires Valid()
      ensures ino in files <==> ino in inodes
      ensures ino in inodes ==> |files[ino]| == inodes[ino].size
    {
    }

    method GrowInto(ino: nat, d: Bytes)
      requires Valid() && ino !in inodes && NextIs(d) && |d| == 512
      modifies bitmap, `at, `owner, `inodes, `blocks, `extent, `files
      ensures Valid() && files == old(files)[ino := d]
    {
      hide Good, Exact, Refines, FreshZero, FreeSet, OthersKept, Created, Coming, Untouched, BitsOk, Paired, Placed;
      ghost var s0, files0 := Value(), files;
      NotYet(s0, files0, ino);
      CreatedIs(s0, ino);
      Create(ino);
      NextComes(Value(), ino, d);
      InodeGrow(ino, 512);
      assert [] + d == d;
    }

    lemma MatchingNow()
      requires BitsOk()
      ensures Matching(bitmap[..], owner)
    {
    }

    ghost predicate Matching(b: seq<bv8>, own: map<nat, Slot>) {
      |b| == 512 && BitsMatch(b, start, own)
    }

    lemma SameBitmap(b: seq<bv8>, c: seq<bv8>, own: map<nat, Slot>, own': map<nat, Slot>)
      requires Matching(b, own) && Matching(c, own') && own.Keys == own'.Keys
      ensures b == c
    {
      assert forall a :: a in own <==> a in own'.Keys;
      Bitmap.SameBits(b, c);
    }
  }

  lemma SoundIs(s: Store, files: map<nat, Bytes>, ino: nat)
    requires Sound(s, files) && ino in s.inodes
    ensures Good(s) && Paired(s) && ino in files && ino in s.extent && |files[ino]| == s.inodes[ino].size
    ensures InodeLinks(s, ino) && s.extent[ino] <= 137 && Data(ino, s.extent[ino]) !in s.at
    ensures s.start + 4096 <= |s.blocks| < 0x1_0000_0000
  {
  }

  /** A block past the last one has no address. */
  lemma Unmapped(s: Store, files: map<nat, Bytes>, ino: nat)
    requires Sound(s, files) && ino in s.inodes && s.extent[ino] < 137 && (Indirect(ino) in s.at <==> s.extent[ino] > 9)
    ensures var i, n := s.inodes[ino], s.extent[ino];
            && Good(s) && ino in files && |i.address| == 10
            && (n < 9 ==> i.address[n] == 0) && (n == 9 ==> i.address[9] == 0)
            && (n > 9 ==>
                  && 0 < i.address[9] < |s.blocks| && i.address[9] == s.at[Indirect(ino)]
                  && Entry(s.blocks[i.address[9]], n - 9) == 0)
  {
    var n := s.extent[ino];
    assert InodeLinks(s, ino);
    if n > 9 {
      Apart(s, Indirect(ino), Indirect(ino));
      assert EntryLinks(s, ino);
      assert 9 + (n - 9) == n;
    }
  }

  lemma ReadyIsZero(s: Store, files: map<nat, Bytes>, ino: nat, a: nat, clears: bool)
    requires Sound(s, files) && ino in s.inodes && s.extent[ino] == 9 && Indirect(ino) !in s.at && Free(s, a)
    requires clears || (Paired(s) && FreshZero(s))
    ensures a < |s.blocks| && Sound(Ready(s, a, clears), files) && Good(Ready(s, a, clears))
    ensures Sound(AddIndirect(Ready(s, a, clears), ino, a), files)
  {
    hide Good, Refines;
    GoodIsPaired(s);
    FreeIsSmall(s, a);
    ReadySound(s, files, a, clears);
    AddIndirectSound(Ready(s, a, clears), ino, a, files);
  }

  lemma IndirectAdded(s: Store, m: Store, files: map<nat, Bytes>, ino: nat, b: nat, clears: bool)
    requires Good(s) && ino in s.inodes && s.extent[ino] == 9 && Indirect(ino) !in s.at && Free(s, b)
    requires b < |s.blocks| && Sound(Ready(s, b, clears), files)
    requires m == AddIndirect(Ready(s, b, clears), ino, b) && Sound(m, files)
    ensures Good(m) && ino in m.inodes && m.extent[ino] == 9 && Indirect(ino) in m.at
    ensures b == m.at[Indirect(ino)] && b < |m.blocks|
    ensures Entry(m.blocks[b], 0) == 0 && |FreeSet(m)| == |FreeSet(s)| - 1 && IndirectMore(s, m, ino)
    ensures FreeSet(m) == FreeSet(s) - {b as int}
  {
    hide Good, Refines, IndirectMore, FreeSet, Entry;
    AddIndirectIs(s, ino, b, clears);
    GoodIsPaired(s);
    GoodIsPaired(m);
    OneFewerFree(s, m, b, Indirect(ino));
    Apart(m, Indirect(ino), Indirect(ino));
    HasEntries(m, ino);
    HasExtent(m, ino);
    assert Data(ino, 9 + 0) !in m.at;
  }

  lemma SizeGrown(s: Store, files: map<nat, Bytes>, ino: nat, size: nat)
    requires Sound(s, files) && ino in s.inodes && size >= s.inodes[ino].size
    ensures ino in files
    ensures Sound(s.(inodes := s.inodes[ino := s.inodes[ino].(size := size)]),
                files[ino := files[ino] + Rest(s.blocks, s.at, ino, |files[ino]|, size)])
  {
    SizesGood(s, ino, size);
    GrowFiles(s, files, ino, size);
  }

  lemma SizeFits(s: Store, ino: nat, size: nat)
    requires Exact(s) && ino in s.inodes && s.inodes[ino].size < size <= 512 * 137
    ensures ino in s.extent && s.extent[ino] == BlocksOf(s.inodes[ino].size) <= BlocksOf(size) <= 137
  {
  }

  lemma FileKnown(s: Store, files: map<nat, Bytes>, ino: nat)
    requires Good(s) && Refines(s, files) && ino in s.inodes
    ensures Paired(s) && ino in files && |files[ino]| == s.inodes[ino].size
  {
  }

  lemma ChunkExact(s: Store, o: Slot, offset: nat, d: Bytes)
    requires Paired(s) && Exact(s) && o in s.at && offset + |d| <= 512
    ensures Exact(PutChunk(s, o, offset, d)) && FreeSet(PutChunk(s, o, offset, d)) == FreeSet(s)
  {
    hide PutBytes;
  }

  /** All that a chunk keeps and changes. */
  lemma ChunkAll(s0: Store, s: Store, o: Slot, offset: nat, d: Bytes, files: map<nat, Bytes>, size: nat)
    requires Good(s) && Paired(s) && Exact(s) && Refines(s, files) && o in s.at && o.Data? && o.ino in files
    requires offset + |d| <= 512 && 512 * o.n + offset + |d| <= |files[o.ino]| == size && Untouched(s0, s, o.ino, size)
    ensures var s' := PutChunk(s, o, offset, d);
            && Good(s') && Paired(s') && Exact(s') && FreeSet(s') == FreeSet(s) && Untouched(s0, s', o.ino, size)
            && Refines(s', files[o.ino := Splice(files[o.ino], 512 * o.n + offset, d)])
  {
    hide Good, Refines, Exact, Paired, PutBytes, Untouched, FreeSet, Splice;
    ChunkGood(s, o, offset, d);
    ChunkFiles(s, o, offset, d, files);
    ChunkExact(s, o, offset, d);
    ChunkUntouched(s, o, offset, d, size);
    UntouchedTransitive(s0, s, PutChunk(s, o, offset, d), o.ino, size, size);
  }

  lemma NoNeed(size: nat, end: nat)
    requires end <= size
    ensures Need(BlocksOf(size), BlocksOf(end)) == 0
  {
  }

  lemma SpliceNothing(f: Bytes, position: nat, d: Bytes)
    requires position + |d| <= |f|
    ensures Splice(f, position, d[..0]) == f
  {
  }

  lemma ExactIs(s: Store, ino: nat)
    requires Good(s) && Exact(s) && ino in s.inodes
    ensures ino in s.extent && s.extent[ino] == BlocksOf(s.inodes[ino].size)
    ensures (Indirect(ino) in s.at <==> s.extent[ino] > 9)
  {
  }

  lemma IndirectIs(s: Store, ino: nat)
    requires Good(s) && Indirect(ino) in s.at
    ensures ino in s.inodes && |s.inodes[ino].address| == 10 && s.inodes[ino].address[9] == s.at[Indirect(ino)] != 0
  {
    assert InodeLinks(s, ino);
  }

  lemma NeedSplits(size: nat, end: nat, last: nat)
    requires end <= last
    ensures BlocksOf(end) <= BlocksOf(last)
    ensures Need(BlocksOf(size), BlocksOf(end)) <= Need(BlocksOf(size), BlocksOf(last))
    ensures Need(BlocksOf(size), BlocksOf(last)) - Need(BlocksOf(size), BlocksOf(end)) ==
            Need(BlocksOf(if end > size then end else size), BlocksOf(last))
  {
    var a, b, c := BlocksOf(size), BlocksOf(end), BlocksOf(last);
    assert end > size ==> a <= b;
    assert end <= size ==> b <= a;
    assert b <= c;
    hide BlocksOf;
  }

  lemma UntouchedIs(s: Store, s': Store, ino: nat, size: nat)
    requires Untouched(s, s', ino, size)
    ensures |s'.blocks| == |s.blocks| && s'.start == s.start
    ensures forall o :: o in s.at ==> o in s'.at && s'.at[o] == s.at[o]
  {
  }

  lemma NothingDone(s: Store, ino: nat)
    ensures OthersKept(s, s, ino) && forall size: nat :: Untouched(s, s, ino, size)
  {
  }

  /** The file after the writes of a run, in blocks that are now where at says and
      held what s0 says. */
  ghost function RunFile(s0: Store, at: map<Slot, nat>, f: Bytes, ino: nat, ws: seq<Patch>): Bytes {
    WriteAll(f + Rest(s0.blocks, at, ino, |f|, EndOf(ws)), ws)
  }

  lemma RunFileNone(s0: Store, at: map<Slot, nat>, f: Bytes, ino: nat)
    ensures RunFile(s0, at, f, ino, []) == f
  {
    var g := f + Rest(s0.blocks, at, ino, |f|, 0);
    assert g == f;
    assert forall i :: 0 <= i < |f| ==> WriteAll(f, [])[i] == f[i];
  }

  lemma RunFileByte(s0: Store, at: map<Slot, nat>, f: Bytes, ino: nat, ws: seq<Patch>, i: nat)
    requires i < |RunFile(s0, at, f, ino, ws)|
    ensures RunFile(s0, at, f, ino, ws)[i] ==
            ByteAfter(if i < |f| then f[i] else StoredByte(s0.blocks, at, ino, i), ws, i)
    ensures |RunFile(s0, at, f, ino, ws)| == if EndOf(ws) > |f| then EndOf(ws) else |f|
  {
    hide EndOf, ByteAfter, StoredByte;
  }

  /** One more write. */
  lemma RunFileNext(s0: Store, s: Store, s': Store, f0: Bytes, f: Bytes, ino: nat, ws: seq<Patch>, n: nat)
    requires n < |ws| && Paired(s) && Paired(s') && Untouched(s0, s, ino, |f|)
    requires s'.start == s.start && |s'.blocks| == |s.blocks|
    requires forall o :: o in s.at ==> o in s'.at && s'.at[o] == s.at[o]
    requires f == RunFile(s0, s.at, f0, ino, ws[..n])
    requires forall m: nat :: 512 * m < |f| ==> Data(ino, m) in s.at
    ensures var w := ws[n];
            Overlay(f, Rest(s.blocks, s'.at, ino, |f|, w.position + |w.d|), w.position, w.d) ==
            RunFile(s0, s'.at, f0, ino, ws[..n + 1])
  {
    var w := ws[n];
    var rest := Rest(s.blocks, s'.at, ino, |f|, w.position + |w.d|);
    var g, h := Overlay(f, rest, w.position, w.d), RunFile(s0, s'.at, f0, ino, ws[..n + 1]);
    assert ws[..n + 1][..n] == ws[..n] && ws[..n + 1][n] == w;
    assert |g| == |h|;
    hide Overlay, RunFile, Rest, Untouched, Paired;
    forall i: nat | i < |g| ensures g[i] == h[i] {
      OverlayByte(f, rest, w.position, w.d, i);
      if i < |f| {
        OldByte(s0, s.at, s'.at, f0, f, ino, ws, n, i);
      } else {
        LaterByte(s0, s, s', ino, |f|, i);
        NewByte(s0, s'.at, f0, |f|, ino, ws, n, i);
        assert rest[i - |f|] == StoredByte(s.blocks, s'.at, ino, i) by { RestByte(s.blocks, s'.at, ino, |f|, i, rest); }
      }
    }
  }

  lemma RestByte(blocks: seq<Block>, at: map<Slot, nat>, ino: nat, from: nat, i: nat, rest: Bytes)
    requires exists to: nat :: i < to && rest == Rest(blocks, at, ino, from, to)
    requires from <= i
    ensures i - from < |rest| && rest[i - from] == StoredByte(blocks, at, ino, i)
  {
  }

  /** A byte the file had already, */
  lemma OldByte(s0: Store, at: map<Slot, nat>, at': map<Slot, nat>, f0: Bytes, f: Bytes, ino: nat, ws: seq<Patch>,
      n: nat, i: nat)
    requires n < |ws| && f == RunFile(s0, at, f0, ino, ws[..n]) && i < |f|
    requires i < |RunFile(s0, at', f0, ino, ws[..n + 1])|
    requires forall o :: o in at ==> o in at' && at'[o] == at[o]
    requires forall m: nat :: 512 * m < |f| ==> Data(ino, m) in at
    ensures RunFile(s0, at', f0, ino, ws[..n + 1])[i] == if Covers(ws[n], i) then ws[n].d[i - ws[n].position] else f[i]
  {
    hide RunFile, Rest, EndOf;
    assert ws[..n + 1][..n] == ws[..n] && ws[..n + 1][n] == ws[n];
    RunFileByte(s0, at', f0, ino, ws[..n + 1], i);
    RunFileByte(s0, at, f0, ino, ws[..n], i);
    assert Data(ino, i / 512) in at by { assert 512 * (i / 512) < |f|; }
  }

  /** and one that comes to light. */
  lemma NewByte(s0: Store, at: map<Slot, nat>, f0: Bytes, size: nat, ino: nat, ws: seq<Patch>, n: nat, i: nat)
    requires n < |ws| && EndOf(ws[..n]) <= size <= i && |f0| <= size && i < |RunFile(s0, at, f0, ino, ws[..n + 1])|
    ensures RunFile(s0, at, f0, ino, ws[..n + 1])[i] ==
            if Covers(ws[n], i) then ws[n].d[i - ws[n].position] else StoredByte(s0.blocks, at, ino, i)
  {
    hide RunFile, Rest, EndOf;
    assert ws[..n + 1][..n] == ws[..n] && ws[..n + 1][n] == ws[n];
    RunFileByte(s0, at, f0, ino, ws[..n + 1], i);
    NotCovered(StoredByte(s0.blocks, at, ino, i), ws[..n], i);
  }

  lemma NextOfRun(s0: Store, s: Store, s': Store, f0: Bytes, f: Bytes, ino: nat, ws: seq<Patch>, n: nat, size: nat)
    requires n < |ws| && Paired(s) && Paired(s') && |f| <= size
    requires Untouched(s0, s, ino, |f|) && Untouched(s, s', ino, size)
    requires OthersKept(s0, s, ino) && OthersKept(s, s', ino)
    requires f == RunFile(s0, s.at, f0, ino, ws[..n])
    requires forall m: nat :: 512 * m < |f| ==> Data(ino, m) in s.at
    ensures OthersKept(s0, s', ino) && Untouched(s0, s', ino, size) && (FreshZero(s) ==> FreshZero(s'))
    ensures var w := ws[n];
            Overlay(f, Rest(s.blocks, s'.at, ino, |f|, w.position + |w.d|), w.position, w.d) ==
            RunFile(s0, s'.at, f0, ino, ws[..n + 1])
  {
    hide Paired, Untouched, OthersKept, RunFile, Overlay, Rest, FreshZero;
    OthersTransitive(s0, s, s', ino);
    UntouchedTransitive(s0, s, s', ino, |f|, size);
    if FreshZero(s) { StillFresh(s, s', ino, size); }
    UntouchedIs(s, s', ino, size);
    RunFileNext(s0, s, s', f0, f, ino, ws, n);
  }

  lemma HasBlocks(s: Store, files: map<nat, Bytes>, ino: nat)
    requires Good(s) && Exact(s) && Refines(s, files) && ino in s.inodes
    ensures ino in files && forall m: nat :: 512 * m < |files[ino]| ==> Data(ino, m) in s.at
  {
  }

  lemma DroppedBlocks(s: Store, ino: nat)
    ensures Dropped(s, ino).blocks == s.blocks
  {
  }

  lemma WholeBlock(rest: Bytes, d: Bytes)
    requires |rest| == |d|
    ensures Overlay([], rest, 0, d) == d
  {
  }

  /** The block of a file of one block. */
  lemma FirstBlock(s: Store, files: map<nat, Bytes>, ino: nat, d: Bytes)
    requires Good(s) && Exact(s) && Refines(s, files) && ino in s.inodes && ino in files && |d| == 512
    requires files[ino] == d
    ensures Data(ino, 0) in s.at && s.at[Data(ino, 0)] < |s.blocks| && s.blocks[s.at[Data(ino, 0)]] == d
    ensures s.at[Data(ino, 0)] in BlocksIn(s, ino)
  {
    HasBlocks(s, files, ino);
    Apart(s, Data(ino, 0), Data(ino, 0));
    assert DataIs(s, Data(ino, 0), d);
  }

  /** The first block of a new file is the next free one. */
  lemma FirstPlaced(s: Store, s': Store, ino: nat)
    requires Placed(s, s', ino, BlocksOf(0), BlocksOf(512)) && |FreeSet(s)| > 0
    ensures Data(ino, 0) in s'.at && s'.at[Data(ino, 0)] == Least(FreeSet(s))
  {
    hide FreeSet, Skip;
    assert PlacedBlock(s, s', ino, 0, 0);
  }

  lemma NextComes(s: Store, ino: nat, d: Bytes)
    requires |FreeSet(s)| > 0 && |d| == 512
    requires var a := Least(FreeSet(s)); 0 <= a < |s.blocks| && s.blocks[a] == d
    ensures Coming(s, ino, 0, 512) == d
  {
    var a := Least(FreeSet(s));
    hide FreeSet, Least;
    forall i: nat | i < 512 ensures ComingByte(s, ino, 0, i) == d[i] {
      assert AddressOf(s, ino, 0, 0) == a;
    }
  }

  lemma PlacedSame(s0: Store, s: Store, s': Store, ino: nat, from: nat, to: nat)
    requires Placed(s0, s, ino, from, to) && s'.at == s.at && FreeSet(s') == FreeSet(s)
    ensures Placed(s0, s', ino, from, to)
  {
    hide FreeSet, Pick, Skip;
    forall m: nat | from <= m < to ensures PlacedBlock(s0, s', ino, from, m) {
      assert PlacedBlock(s0, s, ino, from, m);
    }
  }

  lemma InUse(s: Store, o: Slot)
    requires Good(s) && o in s.at
    ensures s.at[o] != 0
  {
    Apart(s, o, o);
  }

  /** A file of nine blocks has no indirect block. */
  lemma NoIndirectYet(s: Store, ino: nat)
    requires Good(s) && Exact(s) && ino in s.inodes && s.inodes[ino].size == 9 * 512
    ensures Paired(s) && Indirect(ino) !in s.at && |s.inodes[ino].address| == 10
  {
    assert InodeLinks(s, ino);
  }

  lemma NothingComing(s: Store, ino: nat, from: nat, to: nat)
    requires to <= from
    ensures Coming(s, ino, from, to) == []
  {
  }

  lemma ReachesEnd(end: nat, size: nat)
    requires end <= size
    ensures BlocksOf(end) <= BlocksOf(size)
  {
  }

  lemma HasAllBlocks(s: Store, ino: nat)
    requires Good(s) && Exact(s) && ino in s.inodes
    ensures forall m: nat :: m < BlocksOf(s.inodes[ino].size) ==> Data(ino, m) in s.at
  {
  }

  lemma RunFileSize(s0: Store, at: map<Slot, nat>, f: Bytes, ino: nat, ws: seq<Patch>)
    ensures |RunFile(s0, at, f, ino, ws)| == if EndOf(ws) > |f| then EndOf(ws) else |f|
    ensures BlocksOf(EndOf(ws)) <= BlocksOf(|RunFile(s0, at, f, ino, ws)|)
  {
    hide EndOf;
  }

  lemma NotYet(s: Store, files: map<nat, Bytes>, ino: nat)
    requires Good(s) && Exact(s) && Refines(s, files) && ino !in s.inodes
    ensures ino !in files && forall o :: o in s.at ==> o.ino != ino
  {
    CreatedShape(s, ino);
  }

  lemma CreatedIs(s: Store, ino: nat)
    ensures var c := Created(s, ino);
            ino in c.inodes && c.inodes[ino].size == 0 && BlocksOf(0) == 0 && FreeSet(c) == FreeSet(s) &&
                OthersKept(s, c, ino)
    ensures Paired(s) && Paired(Created(s, ino)) && FreshZero(s) ==> FreshZero(Created(s, ino))
  {
    assert FreeSet(Created(s, ino)) == FreeSet(s);
  }

  lemma Forgotten(files0: map<nat, Bytes>, ino: nat, files: map<nat, Bytes>, f: Bytes)
    requires ino !in files0 && files == files0[ino := []][ino := f] - {ino}
    ensures files == files0
  {
  }

  lemma RemovalSound(s: Store, files: map<nat, Bytes>, ino: nat)
    requires Good(s) && Exact(s) && Refines(s, files)
    ensures var d := Dropped(s, ino);
            Good(d) && Exact(d) && Refines(d, files - {ino}) && FreeSet(d) == FreeSet(s) + BlocksIn(s, ino)
  {
    hide *;
    GoodIsPaired(s);
    DroppedGood(s, ino);
    GoodIsPaired(Dropped(s, ino));
    DroppedFiles(s, ino, files);
    DroppedFree(s, ino);
  }
}
