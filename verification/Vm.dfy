/** Frames, page tables and address spaces: page.c, mmu.c and vm.c. */
module Vm {
  import opened Options
  import opened Paging
  import opened Spaces

  /** What the kernel keeps of a process here: the frames of its page directory
      and kernel stack, and its code, data and stack segments. */
  datatype Proc = Proc(dir: nat, stack: nat, segs: seq<Segment>)

  const SEGMENT_NUMBER := 3

  /** Code and data begin and end where the program says; the stack begins at a page
      boundary, as ustack_init and the idle process make it. */
  predicate GoodSegs(segs: seq<Segment>) {
    && |segs| == SEGMENT_NUMBER && (forall k :: 0 <= k < |segs| ==> UserSegment(segs[k]))
    && segs[2].start % 4096 == 0
  }

  /** Segments that share no page. Loading asserts it: map_range stops at a page
      that is mapped already. */
  ghost predicate PageDisjoint(segs: seq<Segment>)
    requires GoodSegs(segs)
  {
    forall i, j :: 0 <= i < j < |segs| ==> Pages(segs[i]) !! Pages(segs[j])
  }

  /** The pages of the first k segments. */
  ghost function PagesTo(segs: seq<Segment>, k: nat): (r: set<int>)
    requires GoodSegs(segs) && k <= |segs|
  {
    if k == 0 then {} else PagesTo(segs, k - 1) + Pages(segs[k - 1])
  }

  /** Where page v of process p is recorded. */
  function PageOf(p: nat, v: nat): Use { User(p, v / 1024, v % 1024) }

  lemma PageInjective(p: nat, v: nat, w: nat)
    ensures PageOf(p, v) == PageOf(p, w) <==> v == w
  {
  }

  /** The pages mapped for p. */
  ghost function Mapped(at: map<Use, nat>, p: nat): (r: set<int>)
    ensures forall v :: v in r <==> 0 <= v < USER_PAGES && PageOf(p, v) in at
  {
    set v | v in Range(0, USER_PAGES) && PageOf(p, v) in at
  }

  /** The directory indices p has tables for. */
  ghost function Tables(at: map<Use, nat>, p: nat): (r: set<int>)
    ensures forall i :: i in r <==> 0 <= i < USER_PDES && Table(p, i) in at
  {
    set i | i in Range(0, USER_PDES) && Table(p, i) in at
  }

  /** Frames enough to map the pages from v to hi: one each, and one for each
      table, except that the first may be there. */
  ghost function Reserve(first: bool, v: int, hi: int): (n: nat)
    ensures v >= hi ==> n == 0
    ensures v < hi ==> n >= 1 + if first then 0 else 1
  {
    if v >= hi then 0 else hi - v + (hi - 1) / 1024 - v / 1024 + if first then 0 else 1
  }

  lemma ReserveStep(first: bool, next: bool, v: int, hi: int)
    requires v < hi && (v / 1024 == (v + 1) / 1024 ==> next)
    ensures Reserve(next, v + 1, hi) + 1 + (if first then 0 else 1) <= Reserve(first, v, hi)
  {
  }

  /** Page number v and the address where the page begins. */
  ghost predicate AtPage(vaddr: nat, v: nat) {
    vaddr == v * 4096 && v < USER_PAGES
  }

  lemma PageIndices(vaddr: nat, v: nat)
    requires AtPage(vaddr, v)
    ensures vaddr < USER_END && PdeIndex(vaddr) == v / 1024 < USER_PDES && PteIndex(vaddr) == v % 1024 < ENTRIES
  {
  }

  /** The process table and the record of uses agree. */
  ghost predicate ProcsAt(procs: map<nat, Proc>, at: map<Use, nat>) {
    && (forall p :: p in procs <==> Dir(p) in at)
    && (forall p :: p in procs ==> Stack(p) in at && procs[p].dir == at[Dir(p)] && procs[p].stack == at[Stack(p)])
  }

  function NoSegs(): seq<Segment> { [Segment(0, 0), Segment(0, 0), Segment(0, 0)] }

  lemma NotThere(procs: map<nat, Proc>, s: Space, c: nat)
    requires ProcsAt(procs, s.at) && Closed(s) && c !in procs
    ensures Dir(c) !in s.at && Stack(c) !in s.at && (forall o :: Belongs(o, c) ==> o !in s.at)
    ensures Mapped(s.at, c) == {}
  {
    assert Dir(c) !in s.at;
  }

  lemma MoreProcs(procs: map<nat, Proc>, at: map<Use, nat>, c: nat, proc: Proc)
    requires ProcsAt(procs, at)
    ensures ProcsAt(procs[c := proc], at[Dir(c) := proc.dir][Stack(c) := proc.stack])
  {
  }

  lemma SegsOnly(procs: map<nat, Proc>, at: map<Use, nat>, p: nat, segs: seq<Segment>)
    requires ProcsAt(procs, at) && p in procs
    ensures ProcsAt(procs[p := procs[p].(segs := segs)], at)
  {
  }

  lemma FewerProcs(procs: map<nat, Proc>, at: map<Use, nat>, c: nat)
    requires ProcsAt(procs, at)
    ensures ProcsAt(procs - {c}, at - {Dir(c)} - {Stack(c)})
  {
  }

  lemma NoPagesYet(s: Space, c: nat, dir: nat, stack: nat, page: Page)
    requires dir < |s.mem| && stack < |s.mem|
    ensures Mapped(AddProc(s, c, dir, stack, page).at, c) == Mapped(s.at, c)
  {
    var at := AddProc(s, c, dir, stack, page).at;
    forall v ensures v in Mapped(at, c) <==> v in Mapped(s.at, c) {
      if 0 <= v < USER_PAGES {
        assert PageOf(c, v).User?;
      }
    }
  }

  lemma ProcAt(procs: map<nat, Proc>, at: map<Use, nat>, p: nat)
    requires ProcsAt(procs, at) && p in procs
    ensures Dir(p) in at && Stack(p) in at && procs[p].dir == at[Dir(p)] && procs[p].stack == at[Stack(p)]
  {
  }

  lemma MoreUses(procs: map<nat, Proc>, at: map<Use, nat>, o: Use, f: nat)
    requires ProcsAt(procs, at) && (o.Table? || o.User?)
    ensures ProcsAt(procs, at[o := f])
  {
  }

  lemma FewerUses(procs: map<nat, Proc>, at: map<Use, nat>, o: Use)
    requires ProcsAt(procs, at) && (o.Table? || o.User?)
    ensures ProcsAt(procs, at - {o})
  {
  }

  /** Exactly the unused frames, each once. */
  ghost predicate Lists(free: seq<nat>, owner: map<nat, Use>) {
    && (forall f :: f in free <==> f < PHYSICAL_PAGES && f !in owner)
    && (forall i, j :: 0 <= i < j < |free| ==> free[i] != free[j])
  }

  lemma TakenFromList(free: seq<nat>, owner: map<nat, Use>, o: Use)
    requires Lists(free, owner) && free != []
    ensures Lists(free[1..], owner[free[0] := o]) && free[0] < PHYSICAL_PAGES && free[0] !in owner
  {
    assert free[0] in free;
    assert forall g :: g in free[1..] <==> g in free && g != free[0];
  }

  class Kernel {
    var mem: seq<Page>
    var free: seq<nat>             // free_page_list
    var freeCount: int             // free_page_count
    var refs: seq<int>             // ref_count of each page
    var procs: map<nat, Proc>
    const kernelPde: nat           // the entry kernel_pgtbl_share copies

    // The use of every frame, in both directions.
    ghost var at: map<Use, nat>
    ghost var owner: map<nat, Use>

    ghost function Sp(): Space
      reads this
    {
      Space(mem, at, owner, kernelPde)
    }

    /** The allocator: a frame is on the free list exactly when it is unused,
        once, and with reference count 0. */
    ghost predicate FramesOk()
      reads `free, `freeCount, `refs, `owner
    {
      && |refs| == PHYSICAL_PAGES && freeCount == |free|
      && 0 in owner && owner[0].Other?
      && Lists(free, owner)
      && (forall f :: 0 <= f < PHYSICAL_PAGES ==> refs[f] == if f in owner then 1 else 0)
    }

    ghost predicate Valid()
      reads this
    {
      |mem| == PHYSICAL_PAGES && FramesOk() && Good(Sp()) && ProcsAt(procs, at)
    }

    /** Valid, which every method keeps, has the kernel mapped in every process, by the
        entry that kernel_pgtbl_share copies. */
    lemma KernelMapped(p: nat)
      requires Valid() && p in procs
      ensures procs[p].dir < |mem| && mem[procs[p].dir][KERNEL_PDE] == kernelPde
    {
      hide FramesOk;
      GoodIsPaired(Sp());
      ProcAt(procs, at, p);
      Located(Sp(), Dir(p));
      KernelShared(Sp(), p, p, KERNEL_PDE);
    }

    /** The mapped pages of p are the pages of its segments. */
    ghost predicate Settled(p: nat)
      reads `procs, `at
    {
      && p in procs && GoodSegs(procs[p].segs) && PageDisjoint(procs[p].segs)
      && Mapped(at, p) == PagesTo(procs[p].segs, SEGMENT_NUMBER)
    }

    /** The set of unused frames. */
    ghost function FreeSet(): set<nat>
      reads `free
    {
      Elements(free)
    }

    // ----- page.c -----

    /** alloc_frame; o records what the frame is going to be used for. */
    method AllocFrame(ghost o: Use) returns (f: nat)
      requires |mem| == PHYSICAL_PAGES && FramesOk() && Paired(Sp()) && o !in at
      modifies `free, `freeCount, `refs, `owner, `at
      ensures FramesOk()
      ensures old(free) == [] ==> f == 0 && Sp() == old(Sp()) && free == old(free)
      ensures old(free) != [] ==>
              && f == old(free)[0] != 0 && free == old(free)[1..] && Unused(old(Sp()), f)
              && at == old(at)[o := f] && owner == old(owner)[f := o] && Paired(Sp())
    {
      if |free| == 0 {
        return 0;
      }
      f := free[0];
      assert f in free;
      TakenFromList(free, owner, o);
      hide Lists;
      free := free[1..];
      freeCount := freeCount - 1;
      refs := refs[f := 1];
      AssignPaired(Sp(), o, f);
      owner := owner[f := o];
      at := at[o := f];
    }

    /** free_frame, by page_free: a frame held once goes to the end of the list. */
    method FreeFrame(f: nat, ghost o: Use)
      requires |mem| == PHYSICAL_PAGES && FramesOk() && Paired(Sp()) && o in at && at[o] == f != 0
      modifies `free, `freeCount, `refs, `owner, `at
      ensures FramesOk() && Paired(Sp())
      ensures Sp() == Release(old(Sp()), o) && free == old(free) + [f]
    {
      ReleasePaired(Sp(), o);
      refs := refs[f := refs[f] - 1];
      if refs[f] > 0 {
        return;
      }
      free := free + [f];
      freeCount := freeCount + 1;
      owner := owner - {f};
      at := at - {o};
    }

    // ----- mmu.c -----

    /** pgtbl_open_pte: the frame of the table for an address, exactly if the process
        has one. */
    method OpenPte(p: nat, vaddr: nat) returns (table: Option<nat>)
      requires Valid() && p in procs && vaddr < USER_END
      ensures table.Some? <==> Table(p, PdeIndex(vaddr)) in at
      ensures table.Some? ==> table.value == at[Table(p, PdeIndex(vaddr))] < |mem|
    {
      hide FramesOk, Good, ProcsAt;
      GoodIsPaired(Sp());
      ProcAt(procs, at, p);
      IndicesOfPage(vaddr);
      DirEntry(Sp(), p, PdeIndex(vaddr));
      var pde := mem[procs[p].dir][PdeIndex(vaddr)];
      table := if PtePresent(pde) then Some(PteFrame(pde)) else None;
      if table.Some? { Located(Sp(), Table(p, PdeIndex(vaddr))); }
    }

    /** pgtbl_create_pte: makes sure the table for the address exists. */
    method CreatePte(p: nat, vaddr: nat, ghost v: nat) returns (table: nat)
      requires Valid() && p in procs && AtPage(vaddr, v)
      requires |free| > 0 || Table(p, v / 1024) in at
      modifies `mem, `free, `freeCount, `refs, `owner, `at
      ensures Valid() && OnlyTouches(old(Sp()), Sp(), p) && KeepsPages(old(Sp()), Sp(), p)
      ensures var o := Table(p, v / 1024);
              && o in at && at[o] == table
              && at == (if o in old(at) then old(at) else old(at)[o := table])
              && free == (if o in old(at) then old(free) else old(free)[1..])
    {
      var i := PdeIndex(vaddr);
      PageIndices(vaddr, v);
      var open := OpenPte(p, vaddr);
      if open.Some? {
        table := open.value;
      } else {
        table := NewTable(p, i);
      }
    }

    method NewTable(p: nat, i: nat) returns (table: nat)
      requires Valid() && p in procs && i < USER_PDES && Table(p, i) !in at && |free| > 0
      modifies `mem, `free, `freeCount, `refs, `owner, `at
      ensures Valid() && OnlyTouches(old(Sp()), Sp(), p) && KeepsPages(old(Sp()), Sp(), p)
      ensures at == old(at)[Table(p, i) := table] && free == old(free)[1..]
    {
      hide Good, Paired, OnlyTouches, KeepsPages, FramesOk, ProcsAt;
      GoodIsPaired(Sp());
      var dir := procs[p].dir;
      assert dir == at[Dir(p)] && Dir(p) in at by { ProcAt(procs, at, p); }
      ghost var s := Sp();
      table := AllocFrame(Table(p, i));
      AddTableGood(s, p, i, table);
      MoreUses(procs, s.at, Table(p, i), table);
      mem := mem[table := ZeroPage()];
      mem := mem[dir := mem[dir][i := PteMake(table)]];
      assert Sp() == AddTable(s, p, i, table);
    }

    /** alloc_frame, copy_frame where there is something to copy, and pte_make,
        for one page whose table exists. */
    method PlacePage(p: nat, vaddr: nat, ghost v: nat, table: nat, source: Option<nat>) returns (f: nat)
      requires Valid() && p in procs && AtPage(vaddr, v) && PageOf(p, v) !in at && |free| > 0
      requires Table(p, v / 1024) in at && at[Table(p, v / 1024)] == table
      requires source.Some? ==> source.value < |mem|
      modifies `mem, `free, `freeCount, `refs, `owner, `at
      ensures Valid() && OnlyTouches(old(Sp()), Sp(), p) && KeepsPages(old(Sp()), Sp(), p)
      ensures f == old(free)[0] && free == old(free)[1..] && at == old(at)[PageOf(p, v) := f]
      ensures f < |mem| == |old(mem)| && mem[f] == old(mem)[if source.Some? then source.value else f]
    {
      hide Good, Paired, OnlyTouches, KeepsPages, FramesOk, ProcsAt;
      ghost var s := Sp();
      GoodIsPaired(s);
      Located(s, Table(p, v / 1024));
      PageIndices(vaddr, v);
      ghost var i := PdeIndex(vaddr);
      var j := PteIndex(vaddr);
      f := AllocFrame(User(p, i, j));
      ghost var page := mem[if source.Some? then source.value else f];
      AddPageGood(s, p, i, j, f, page);
      MoreUses(procs, s.at, User(p, i, j), f);
      if source.Some? {
        mem := mem[f := mem[source.value]];
      }
      mem := mem[table := mem[table][j := PteMake(f)]];
      assert Sp() == AddPage(s, p, i, j, f, page);
    }

    /** The body of map_range's loop: a fresh frame for one page. */
    method MapPage(p: nat, vaddr: nat, ghost v: nat)
      requires Valid() && p in procs && AtPage(vaddr, v) && v !in Mapped(at, p)
      requires |free| >= 1 + if v / 1024 in Tables(at, p) then 0 else 1
      modifies `mem, `free, `freeCount, `refs, `owner, `at
      ensures Valid() && OnlyTouches(old(Sp()), Sp(), p) && KeepsPages(old(Sp()), Sp(), p)
      ensures Mapped(at, p) == Mapped(old(at), p) + {v} && Tables(at, p) == Tables(old(at), p) + {v / 1024}
      ensures |free| == |old(free)| - 1 - if v / 1024 in Tables(old(at), p) then 0 else 1
    {
      hide DirsMirror, TablesMirror, Closed;
      ghost var s := Sp();
      PageIndices(vaddr, v);
      var table := CreatePte(p, vaddr, v);
      ghost var s' := Sp();
      var f := PlacePage(p, vaddr, v, table, None);
      MapsOneMore(s.at, s'.at, p, v, table, f);
      TouchesTransitive(s, s', Sp(), p);
      KeepsTransitive(s, s', Sp(), p);
    }

    // ----- vm.c -----

    /** The pages from lo to v have been mapped since s0 and nothing else has
        changed; there are frames enough for those from v to hi, and extra. */
    ghost predicate Mapping(s0: Space, p: nat, lo: nat, v: nat, hi: nat, extra: nat)
      reads this
    {
      && Paired(s0) && Valid() && p in procs && lo <= v <= hi <= USER_PAGES
      && OnlyTouches(s0, Sp(), p) && KeepsPages(s0, Sp(), p)
      && Mapped(at, p) == Mapped(s0.at, p) + Range(lo, v)
      && |free| >= Reserve(v / 1024 in Tables(at, p), v, hi) + extra
    }

    lemma MappingStarts(s0: Space, p: nat, lo: nat, hi: nat, extra: nat)
      requires Valid() && p in procs && s0 == Sp() && lo <= hi <= USER_PAGES
      requires |free| >= Reserve(false, lo, hi) + extra
      ensures Mapping(s0, p, lo, lo, hi, extra)
    {
      hide DirsMirror, TablesMirror, Closed, FramesOk, PageOf, ProcsAt;
      assert Range(lo, lo) == {};
    }

    method MapNext(p: nat, vaddr: nat, ghost s0: Space, ghost lo: nat, ghost v: nat, ghost hi: nat, ghost extra: nat)
      requires Mapping(s0, p, lo, v, hi, extra) && v < hi && vaddr == v * 4096
      requires Range(lo, hi) !! Mapped(s0.at, p)
      modifies `mem, `free, `freeCount, `refs, `owner, `at
      ensures Mapping(s0, p, lo, v + 1, hi, extra)
    {
      hide DirsMirror, TablesMirror, Closed, FramesOk, ProcsAt, OnlyTouches, KeepsPages, PageOf, Reserve;
      ghost var s := Sp();
      RangeSteps(lo, v, hi);
      ghost var first := v / 1024 in Tables(at, p);
      MapPage(p, vaddr, v);
      ReserveStep(first, (v + 1) / 1024 in Tables(at, p), v, hi);
      TouchesTransitive(s0, s, Sp(), p);
      KeepsTransitive(s0, s, Sp(), p);
    }

    /** map_range from the page lo up to the page hi. */
    method MapRange(p: nat, start: nat, end: nat, ghost s0: Space, ghost lo: nat, ghost hi: nat, ghost extra: nat)
      requires Mapping(s0, p, lo, lo, hi, extra) && start == lo * 4096 && end == hi * 4096 && lo <= hi
      requires Range(lo, hi) !! Mapped(s0.at, p)
      modifies `mem, `free, `freeCount, `refs, `owner, `at
      ensures Mapping(s0, p, lo, hi, hi, extra)
    {
      hide *;
      var vaddr := start;
      ghost var v := lo;
      while vaddr < end
        invariant vaddr == v * 4096 && lo <= v <= hi && Mapping(s0, p, lo, v, hi, extra)
      {
        MapNext(p, vaddr, s0, lo, v, hi, extra);
        vaddr, v := vaddr + 4096, v + 1;
      }
    }

    /** sys_brk: 0 asks for the end of the data segment; growing it maps the
        pages between. That those are unmapped is an assertion of map_range.
        extra frames are left over. */
    method SysBrk(p: nat, newEnd: nat, ghost extra: nat) returns (r: nat)
      requires Valid() && Settled(p) && BreakFits(procs[p].segs, newEnd)
      requires |free| >= BreakReserve(procs[p].segs, newEnd) + extra
      modifies `mem, `free, `freeCount, `refs, `owner, `at, `procs
      ensures Valid() && Settled(p) && OnlyTouches(old(Sp()), Sp(), p) && KeepsPages(old(Sp()), Sp(), p)
      ensures var segs := old(procs)[p].segs;
              r == if newEnd == 0 then segs[1].end
                   else if newEnd < segs[1].end || newEnd >= segs[2].start then 0x1_0000_0000 - 21 else 0
      ensures r != 0 || newEnd == 0 ==> procs == old(procs) && Sp() == old(Sp())
      ensures r == 0 && newEnd != 0 ==>
                var data := old(procs)[p].segs[1];
                procs == old(procs)[p := old(procs)[p].(segs := old(procs)[p].segs[1 := Segment(data.start, newEnd)])]
      ensures !Grows(old(procs)[p].segs, newEnd) ==> procs == old(procs) && Sp() == old(Sp())
      ensures procs == old(procs)[p := old(procs)[p].(segs := AfterBreak(old(procs)[p].segs, newEnd))]
      ensures |free| >= extra
    {
      hide Good, FramesOk, ProcsAt, PageDisjoint, PagesTo, Mapped, GrowthReserve, BreakFits, OnlyTouches, KeepsPages;
      var segs := procs[p].segs;
      GoodIsPaired(Sp());
      TouchesSelf(Sp(), p);
      assert procs == procs[p := procs[p].(segs := segs)];
      if newEnd == 0 {
        return segs[1].end;
      }
      if newEnd < segs[1].end || newEnd >= segs[2].start {
        return EINVAL;
      }
      GrowData(p, newEnd, extra);
      r := 0;
    }

    method GrowData(p: nat, newEnd: nat, ghost extra: nat)
      requires Valid() && Settled(p) && BreakFits(procs[p].segs, newEnd) && Grows(procs[p].segs, newEnd)
      requires newEnd < 0x1_0000_0000 && |free| >= GrowthReserve(procs[p].segs, newEnd) + extra
      modifies `mem, `free, `freeCount, `refs, `owner, `at, `procs
      ensures Valid() && Settled(p) && OnlyTouches(old(Sp()), Sp(), p) && KeepsPages(old(Sp()), Sp(), p)
      ensures procs == old(procs)[p := old(procs)[p].(segs := Grown(old(procs)[p].segs, newEnd))]
      ensures |free| >= extra
    {
      hide Good, FramesOk, ProcsAt, PageOf, BreakFits, PageDisjoint, PagesTo, OnlyTouches, KeepsPages;
      var segs := procs[p].segs;
      BreakFitsIff(segs, newEnd);
      ghost var s := Sp();
      SegsOnly(procs, at, p, Grown(segs, newEnd));
      procs := procs[p := procs[p].(segs := Grown(segs, newEnd))];
      GrowthIsUp(segs, newEnd);
      ghost var lo, hi := PastPage(segs[1]), PageUp(newEnd) / 4096;
      MappingStarts(s, p, lo, hi, extra);
      MapRange(p, PageUp(segs[1].end), PageUp(newEnd), s, lo, hi, extra);
      GrowSettles(segs, newEnd);
    }

    /** The body of copy_segment's loop: one page of p copied for c. */
    method CopyPage(p: nat, c: nat, vaddr: nat, ghost v: nat)
      requires Valid() && p in procs && c in procs && p != c && AtPage(vaddr, v)
      requires v in Mapped(at, p) && v !in Mapped(at, c)
      requires |free| >= 1 + if v / 1024 in Tables(at, c) then 0 else 1
      modifies `mem, `free, `freeCount, `refs, `owner, `at
      ensures Valid() && OnlyTouches(old(Sp()), Sp(), c) && KeepsPages(old(Sp()), Sp(), c)
      ensures Mapped(at, c) == Mapped(old(at), c) + {v} && Tables(at, c) == Tables(old(at), c) + {v / 1024}
      ensures |free| == |old(free)| - 1 - if v / 1024 in Tables(old(at), c) then 0 else 1
      ensures SamePage(old(Sp()), Sp(), p, c, v)
    {
      hide DirsMirror, TablesMirror, Closed;
      ghost var s := Sp();
      PageIndices(vaddr, v);
      var thisFrame := FrameOf(p, vaddr, v);
      var thatTable := CreatePte(c, vaddr, v);
      ghost var s' := Sp();
      var thatFrame := PlacePage(c, vaddr, v, thatTable, Some(thisFrame));
      MapsOneMore(s.at, s'.at, c, v, thatTable, thatFrame);
      TouchesTransitive(s, s', Sp(), c);
      KeepsTransitive(s, s', Sp(), c);
    }

    /** pgtbl_open_pte and pte_paddr of a page that is mapped. */
    method FrameOf(p: nat, vaddr: nat, ghost v: nat) returns (f: nat)
      requires Valid() && p in procs && AtPage(vaddr, v) && v in Mapped(at, p)
      ensures f == at[PageOf(p, v)] < |mem|
    {
      PageIndices(vaddr, v);
      DirEntry(Sp(), p, v / 1024);
      TableEntry(Sp(), p, v / 1024, v % 1024);
      var table := OpenPte(p, vaddr);
      f := PteFrame(mem[table.value][PteIndex(vaddr)]);
    }

    /** p's pages from lo to v have been copied for c since s0 and nothing else
        has changed; there are frames enough for those from v to hi, and extra. */
    ghost predicate Copying(s0: Space, p: nat, c: nat, lo: nat, v: nat, hi: nat, extra: nat)
      reads this
    {
      && Paired(s0) && Valid() && p in procs && c in procs && p != c && lo <= v <= hi <= USER_PAGES
      && OnlyTouches(s0, Sp(), c) && KeepsPages(s0, Sp(), c)
      && Mapped(at, c) == Mapped(s0.at, c) + Range(lo, v)
      && SamePages(s0, Sp(), p, c, Range(lo, v))
      && |free| >= Reserve(v / 1024 in Tables(at, c), v, hi) + extra
    }

    lemma CopyingStarts(s0: Space, p: nat, c: nat, lo: nat, hi: nat, extra: nat)
      requires Valid() && p in procs && c in procs && p != c && s0 == Sp() && lo <= hi <= USER_PAGES
      requires |free| >= Reserve(false, lo, hi) + extra
      ensures Copying(s0, p, c, lo, lo, hi, extra)
    {
      hide DirsMirror, TablesMirror, Closed, FramesOk, PageOf, ProcsAt;
      assert Range(lo, lo) == {};
    }

    method CopyNext(p: nat, c: nat, vaddr: nat, ghost s0: Space, ghost lo: nat, ghost v: nat, ghost hi: nat,
                    ghost extra: nat)
      requires Copying(s0, p, c, lo, v, hi, extra) && v < hi && vaddr == v * 4096
      requires Range(lo, hi) !! Mapped(s0.at, c) && Range(lo, hi) <= Mapped(s0.at, p)
      modifies `mem, `free, `freeCount, `refs, `owner, `at
      ensures Copying(s0, p, c, lo, v + 1, hi, extra)
    {
      hide DirsMirror, TablesMirror, Closed, FramesOk, ProcsAt, OnlyTouches, KeepsPages, PageOf, Reserve, SamePage;
      ghost var s := Sp();
      OthersMapped(s0, s, p, c);
      RangeSteps(lo, v, hi);
      ghost var first := v / 1024 in Tables(at, c);
      CopyPage(p, c, vaddr, v);
      ReserveStep(first, (v + 1) / 1024 in Tables(at, c), v, hi);
      CopyTransitive(s0, s, Sp(), p, c, Range(lo, v), v);
    }

    /** copy_segment's loop. */
    method CopyRange(p: nat, c: nat, start: nat, end: nat, ghost s0: Space, ghost lo: nat, ghost hi: nat,
        ghost extra: nat)
      requires Copying(s0, p, c, lo, lo, hi, extra) && start == lo * 4096 && end == hi * 4096 && lo <= hi
      requires Range(lo, hi) <= Mapped(s0.at, p) && Range(lo, hi) !! Mapped(s0.at, c)
      modifies `mem, `free, `freeCount, `refs, `owner, `at
      ensures Copying(s0, p, c, lo, hi, hi, extra)
    {
      hide *;
      var vaddr := start;
      ghost var v := lo;
      while vaddr < end
        invariant vaddr == v * 4096 && lo <= v <= hi && Copying(s0, p, c, lo, v, hi, extra)
      {
        CopyNext(p, c, vaddr, s0, lo, v, hi, extra);
        vaddr, v := vaddr + 4096, v + 1;
      }
    }

    /** copy_segment for segment k; extra frames are left over. */
    method CopySegment(p: nat, c: nat, k: nat, ghost extra: nat)
      requires Valid() && p in procs && c in procs && p != c && k < SEGMENT_NUMBER
      requires GoodSegs(procs[p].segs) && |procs[c].segs| == SEGMENT_NUMBER
      requires Pages(procs[p].segs[k]) <= Mapped(at, p) && Pages(procs[p].segs[k]) !! Mapped(at, c)
      requires |free| >= SegmentReserve(procs[p].segs[k]) + extra
      modifies `mem, `free, `freeCount, `refs, `owner, `at, `procs
      ensures Valid() && OnlyTouches(old(Sp()), Sp(), c) && KeepsPages(old(Sp()), Sp(), c)
      ensures var seg := old(procs)[p].segs[k];
              && procs == old(procs)[c := old(procs)[c].(segs := old(procs)[c].segs[k := seg])]
              && Mapped(at, c) == Mapped(old(at), c) + Pages(seg)
              && SamePages(old(Sp()), Sp(), p, c, Pages(seg))
      ensures |free| >= extra
    {
      hide Good, OnlyTouches, KeepsPages, FramesOk, PageOf, ProcsAt, SamePage;
      GoodIsPaired(Sp());
      var seg := procs[p].segs[k];
      SegsOnly(procs, at, c, procs[c].segs[k := seg]);
      procs := procs[c := procs[c].(segs := procs[c].segs[k := seg])];
      PageUpIs(seg.end);
      ghost var s0, lo, hi := Sp(), FirstPage(seg), PastPage(seg);
      CopyingStarts(s0, p, c, lo, hi, extra);
      CopyRange(p, c, PageDown(seg.start), PageUp(seg.end), s0, lo, hi, extra);
    }

    /** pgtbl_new, kernel_pgtbl_share and the kernel stack of a new process. The
        kernel's addresses take up one directory entry. */
    method NewProc(c: nat)
      requires Valid() && c !in procs && |free| >= 2
      modifies `mem, `free, `freeCount, `refs, `owner, `at, `procs
      ensures Valid() && OnlyTouches(old(Sp()), Sp(), c)
      ensures c in procs && procs == old(procs)[c := procs[c]] && procs[c].dir < |mem|
      ensures mem[procs[c].dir][KERNEL_PDE] == kernelPde
      ensures procs[c].segs == NoSegs()
      ensures Mapped(at, c) == {} && |free| == |old(free)| - 2
    {
      hide Good, OnlyTouches, FramesOk, ProcsAt, PageOf, Closed, Mapped, Paired;
      ghost var s := Sp();
      GoodIsPaired(s);
      ghost var procs0 := procs;
      assert ProcsAt(procs0, s.at);
      NotThere(procs, s, c);
      var dir := AllocFrame(Dir(c));
      mem := mem[dir := ZeroPage()];
      mem := mem[dir := mem[dir][KERNEL_PDE := kernelPde]];
      ghost var page := mem[dir];
      ClaimPaired(s, Dir(c), dir, page);
      assert Sp() == Claim(s, Dir(c), dir, page);
      var stack := AllocFrame(Stack(c));
      AddProcGood(s, c, dir, stack, page);
      MoreProcs(procs0, s.at, c, Proc(dir, stack, NoSegs()));
      NoPagesYet(s, c, dir, stack, page);
      procs := procs[c := Proc(dir, stack, NoSegs())];
      assert Sp() == AddProc(s, c, dir, stack, page);
      hide Claim, AddProc, Assign, Unused;
    }

    /** p's first k segments have been copied for c since s0. */
    ghost predicate Forking(s0: Space, p: nat, c: nat, k: nat, segs: seq<Segment>, procs0: map<nat, Proc>, extra: nat)
      reads this
    {
      && Good(s0) && Valid() && p in procs && c in procs && p != c && GoodSegs(segs) && k <= |segs|
      && procs == procs0[c := procs[c]] && procs[p].segs == segs && |procs[c].segs| == |segs|
      && procs[c].segs[..k] == segs[..k]
      && OnlyTouches(s0, Sp(), c)
      && Mapped(at, c) == PagesTo(segs, k) && SamePages(s0, Sp(), p, c, PagesTo(segs, k))
      && |free| >= ReserveFrom(segs, k) + extra
    }

    method ForkNext(p: nat, c: nat, k: nat, ghost s0: Space, ghost segs: seq<Segment>, ghost procs0: map<nat, Proc>,
        ghost extra: nat)
      requires Forking(s0, p, c, k, segs, procs0, extra) && k < |segs| && PageDisjoint(segs)
      requires Mapped(s0.at, p) == PagesTo(segs, SEGMENT_NUMBER)
      modifies `mem, `free, `freeCount, `refs, `owner, `at, `procs
      ensures Forking(s0, p, c, k + 1, segs, procs0, extra)
    {
      hide Good, FramesOk, ProcsAt, OnlyTouches, KeepsPages, Mapped, SegmentReserve, SamePage, SamePages;
      ghost var s := Sp();
      GoodIsPaired(s0);
      GoodIsPaired(s);
      OthersMapped(s0, s, p, c);
      PagesToHas(segs, k, SEGMENT_NUMBER);
      DisjointFromEarlier(segs, k, k);
      ForkedProcs(procs0, procs, c, k, segs);
      CopySegment(p, c, k, ReserveFrom(segs, k + 1) + extra);
      GoodIsPaired(Sp());
      SamePagesLater(s0, s, Sp(), p, c, PagesTo(segs, k), Pages(segs[k]));
      TouchesTransitive(s0, s, Sp(), c);
    }

    /** copy_vm: c becomes a copy of p. */
    method CopyVm(p: nat, c: nat, ghost extra: nat)
      requires Valid() && Settled(p) && c !in procs
      requires |free| >= 2 + ReserveFrom(procs[p].segs, 0) + extra
      modifies `mem, `free, `freeCount, `refs, `owner, `at, `procs
      ensures Valid() && Settled(p) && Settled(c) && Forked(old(Sp()), Sp(), p, c)
      ensures procs == old(procs)[c := procs[c]] && procs[c].segs == procs[p].segs && |free| >= extra
      ensures procs[c].dir < |mem| && mem[procs[c].dir][KERNEL_PDE] == kernelPde
    {
      hide Good, OnlyTouches, FramesOk, ProcsAt, PageOf, KeepsPages, SamePage, Pages, SegmentReserve;
      ghost var s0, segs, procs0 := Sp(), procs[p].segs, procs;
      GoodIsPaired(s0);
      NotThere(procs, s0, c);
      ProcAt(procs, at, p);
      NewProc(c);
      CopySegments(p, c, s0, segs, procs0, extra);
      GoodIsPaired(Sp());
      OthersMapped(s0, Sp(), p, c);
      ProcAt(procs, at, p);
      ProcAt(procs, at, c);
      CopiedIsForked(s0, Sp(), p, c);
      WholePrefix(procs[c].segs, segs);
      KernelMapped(c);
    }

    /** copy_vm's loop. */
    method CopySegments(p: nat, c: nat, ghost s0: Space, ghost segs: seq<Segment>, ghost procs0: map<nat, Proc>,
        ghost extra: nat)
      requires Forking(s0, p, c, 0, segs, procs0, extra) && PageDisjoint(segs) && |segs| == SEGMENT_NUMBER
      requires Mapped(s0.at, p) == PagesTo(segs, SEGMENT_NUMBER)
      modifies `mem, `free, `freeCount, `refs, `owner, `at, `procs
      ensures Forking(s0, p, c, SEGMENT_NUMBER, segs, procs0, extra)
    {
      hide *;
      var i := 0;
      while i < SEGMENT_NUMBER
        invariant i <= SEGMENT_NUMBER && Forking(s0, p, c, i, segs, procs0, extra)
      {
        ForkNext(p, c, i, s0, segs, procs0, extra);
        i := i + 1;
      }
    }

    /** The body of flush_segment's loop. */
    method FlushPage(p: nat, vaddr: nat, ghost v: nat)
      requires Valid() && p in procs && AtPage(vaddr, v) && v in Mapped(at, p)
      modifies `mem, `free, `freeCount, `refs, `owner, `at
      ensures Valid() && OnlyTouches(old(Sp()), Sp(), p)
      ensures Mapped(at, p) == Mapped(old(at), p) - {v}
    {
      hide Good, OnlyTouches, FramesOk, ProcsAt;
      GoodIsPaired(Sp());
      ghost var s, i, o := Sp(), v / 1024, PageOf(p, v);
      PageIndices(vaddr, v);
      var j := PteIndex(vaddr);
      ProcAt(procs, at, p);
      DirEntry(s, p, i);
      TableEntry(s, p, i, j);
      NotFrameZero(o);
      RemovePageGood(s, p, i, j);
      var open := OpenPte(p, vaddr);
      var table := open.value;
      var frame := PteFrame(mem[table][j]);
      FreeFrame(frame, o);
      mem := mem[table := mem[table][j := 0]];
      assert Sp() == RemovePage(s, p, i, j);
      FewerUses(procs, s.at, o);
      MapsOneFewer(s.at, p, v);
    }

    lemma NotFrameZero(o: Use)
      requires FramesOk() && Paired(Sp()) && o in at && !o.Other?
      ensures at[o] != 0
    {
    }

    /** p's pages from lo to v have been unmapped since s0. */
    ghost predicate Flushing(s0: Space, p: nat, lo: nat, v: nat, hi: nat)
      reads this
    {
      && Paired(s0) && Valid() && p in procs && lo <= v <= hi <= USER_PAGES
      && OnlyTouches(s0, Sp(), p) && Mapped(at, p) == Mapped(s0.at, p) - Range(lo, v)
    }

    lemma FlushingStarts(s0: Space, p: nat, lo: nat, hi: nat)
      requires Valid() && p in procs && s0 == Sp() && lo <= hi <= USER_PAGES
      ensures Flushing(s0, p, lo, lo, hi)
    {
      hide DirsMirror, TablesMirror, Closed, FramesOk, PageOf, ProcsAt;
      assert Range(lo, lo) == {};
    }

    method FlushNext(p: nat, vaddr: nat, ghost s0: Space, ghost lo: nat, ghost v: nat, ghost hi: nat)
      requires Flushing(s0, p, lo, v, hi) && v < hi && vaddr == v * 4096 && Range(lo, hi) <= Mapped(s0.at, p)
      modifies `mem, `free, `freeCount, `refs, `owner, `at
      ensures Flushing(s0, p, lo, v + 1, hi)
    {
      hide DirsMirror, TablesMirror, Closed, FramesOk, ProcsAt, OnlyTouches, PageOf;
      ghost var s := Sp();
      RangeSteps(lo, v, hi);
      FlushPage(p, vaddr, v);
      TouchesTransitive(s0, s, Sp(), p);
    }

    method FlushRange(p: nat, start: nat, end: nat, ghost s0: Space, ghost lo: nat, ghost hi: nat)
      requires Flushing(s0, p, lo, lo, hi) && start == lo * 4096 && end == hi * 4096 && lo <= hi
      requires Range(lo, hi) <= Mapped(s0.at, p)
      modifies `mem, `free, `freeCount, `refs, `owner, `at
      ensures Flushing(s0, p, lo, hi, hi)
    {
      hide *;
      var vaddr := start;
      ghost var v := lo;
      while vaddr < end
        invariant vaddr == v * 4096 && lo <= v <= hi && Flushing(s0, p, lo, v, hi)
      {
        FlushNext(p, vaddr, s0, lo, v, hi);
        vaddr, v := vaddr + 4096, v + 1;
      }
    }

    /** flush_segment */
    method FlushSegment(p: nat, k: nat)
      requires Valid() && p in procs && GoodSegs(procs[p].segs) && k < SEGMENT_NUMBER
      requires Pages(procs[p].segs[k]) <= Mapped(at, p)
      modifies `mem, `free, `freeCount, `refs, `owner, `at, `procs
      ensures Valid() && OnlyTouches(old(Sp()), Sp(), p)
      ensures Mapped(at, p) == Mapped(old(at), p) - Pages(old(procs)[p].segs[k])
      ensures procs == old(procs)[p := old(procs)[p].(segs := old(procs)[p].segs[k := Segment(0, 0)])]
    {
      hide Good, OnlyTouches, FramesOk, PageOf, ProcsAt;
      GoodIsPaired(Sp());
      var seg := procs[p].segs[k];
      PageUpIs(seg.end);
      ghost var s0, lo, hi := Sp(), FirstPage(seg), PastPage(seg);
      FlushingStarts(s0, p, lo, hi);
      FlushRange(p, PageDown(seg.start), PageUp(seg.end), s0, lo, hi);
      SegsOnly(procs, at, p, procs[p].segs[k := Segment(0, 0)]);
      procs := procs[p := procs[p].(segs := procs[p].segs[k := Segment(0, 0)])];
    }

    /** The tables for directory indices below i are gone since s0. */
    ghost predicate Compacting(s0: Space, p: nat, i: nat)
      reads this
    {
      && Paired(s0) && Valid() && p in procs && i <= 768
      && OnlyTouches(s0, Sp(), p) && Mapped(at, p) == {} && Tables(at, p) !! Range(0, i)
    }

    method CompactNext(p: nat, vaddr: nat, ghost s0: Space, ghost i: nat)
      requires Compacting(s0, p, i) && i < 768 && vaddr == i * 0x40_0000
      modifies `mem, `free, `freeCount, `refs, `owner, `at
      ensures Compacting(s0, p, i + 1)
    {
      hide Good, OnlyTouches, FramesOk, ProcsAt, PageOf, Closed, Paired, Mapped, Tables, Range;
      GoodIsPaired(Sp());
      ghost var s := Sp();
      var dir, k := procs[p].dir, vaddr / 0x40_0000;
      ProcAt(procs, at, p);
      DirEntry(s, p, i);
      var pde := mem[dir][k];
      if PtePresent(pde) {
        ghost var o := Table(p, i);
        NotFrameZero(o);
        forall j: nat ensures User(p, i, j) !in at { MappedUser(s, p, i, j); }
        RemoveTableGood(s, p, i);
        FreeFrame(PteFrame(pde), o);
        mem := mem[dir := mem[dir][k := 0]];
        assert Sp() == RemoveTable(s, p, i);
        FewerUses(procs, s.at, o);
        TouchesTransitive(s0, s, Sp(), p);
        OneTableFewer(s.at, p, i);
      }
      CompactSteps(at, p, i);
    }

    /** pgtbl_compact */
    method Compact(p: nat)
      requires Valid() && p in procs && Mapped(at, p) == {}
      modifies `mem, `free, `freeCount, `refs, `owner, `at
      ensures Valid() && OnlyTouches(old(Sp()), Sp(), p) && Mapped(at, p) == {} && Tables(at, p) == {}
    {
      ghost var s0 := Sp();
      TouchesSelf(s0, p);
      CompactAll(p, s0);
      assert forall i :: i in Tables(at, p) ==> i in Range(0, USER_PDES);
    }

    method CompactAll(p: nat, ghost s0: Space)
      requires Compacting(s0, p, 0)
      modifies `mem, `free, `freeCount, `refs, `owner, `at
      ensures Compacting(s0, p, 768)
    {
      hide *;
      var vaddr := 0;
      ghost var i := 0;
      while vaddr < 0xC000_0000
        invariant vaddr == i * 0x40_0000 && 0 <= i <= 768 && Compacting(s0, p, i)
      {
        CompactNext(p, vaddr, s0, i);
        vaddr, i := vaddr + 0x40_0000, i + 1;
      }
    }

    /** flush_vm of an exiting process. */
    method FlushVm(p: nat)
      requires Valid() && Settled(p)
      modifies `mem, `free, `freeCount, `refs, `owner, `at, `procs
      ensures Valid() && OnlyTouches(old(Sp()), Sp(), p)
      ensures procs == old(procs)[p := old(procs)[p].(segs := NoSegs())]
      ensures Mapped(at, p) == {} && Tables(at, p) == {}
    {
      hide Good, OnlyTouches, FramesOk, ProcsAt, PageOf, Pages, Range;
      ghost var s0, segs := Sp(), procs[p].segs;
      ThreeSegments(segs);
      FlushSegment(p, 0);
      ghost var s1 := Sp();
      FlushSegment(p, 1);
      ghost var s2 := Sp();
      FlushSegment(p, 2);
      ghost var s3 := Sp();
      assert segs[0 := Segment(0, 0)][1 := Segment(0, 0)][2 := Segment(0, 0)] == NoSegs();
      assert Mapped(at, p) == {};
      Compact(p);
      GoodIsPaired(s0); GoodIsPaired(s1); GoodIsPaired(s2); GoodIsPaired(s3); GoodIsPaired(Sp());
      TouchesTransitive(s0, s1, s2, p);
      TouchesTransitive(s0, s2, s3, p);
      TouchesTransitive(s0, s3, Sp(), p);
    }

    /** kill_zombie, apart from the pcb's own slab memory. */
    method KillZombie(p: nat)
      requires Valid() && p in procs && Tables(at, p) == {}
      modifies `mem, `free, `freeCount, `refs, `owner, `at, `procs
      ensures Valid() && OnlyTouches(old(Sp()), Sp(), p)
      ensures procs == old(procs) - {p} && forall o :: Belongs(o, p) ==> o !in at
    {
      hide Good, OnlyTouches, ProcsAt, PageOf, Closed, Paired, FramesOk, Tables, RemoveProc;
      GoodIsPaired(Sp());
      ghost var s, procs0 := Sp(), procs;
      assert ProcsAt(procs0, s.at);
      ProcAt(procs, at, p);
      NotFrameZero(Dir(p));
      NotFrameZero(Stack(p));
      NoTablesOf(s, p);
      RemoveProcGood(s, p);
      RemoveProcIs(s, p);
      FreeFrame(procs[p].dir, Dir(p));
      NotFrameZero(Stack(p));
      FreeFrame(procs[p].stack, Stack(p));
      assert Sp() == RemoveProc(s, p);
      FewerProcs(procs0, s.at, p);
      procs := procs - {p};
    }

    /** c has made the first k changes of its break and there are frames enough
        for the others; run is what memory was like after each. */
    ghost predicate Breaking(run: seq<Space>, procs0: map<nat, Proc>, c: nat, ends: seq<nat>, k: nat)
      reads this
    {
      && Valid() && Settled(c) && procs == procs0[c := procs[c]] && k <= |ends|
      && BreaksFit(procs[c].segs, ends[k..]) && |free| >= BreaksReserve(procs[c].segs, ends[k..])
      && Living(run, c) && run[|run| - 1] == Sp()
    }

    method BreakNext(c: nat, ends: seq<nat>, k: nat, ghost run: seq<Space>, ghost procs0: map<nat, Proc>)
        returns (ghost run': seq<Space>)
      requires Breaking(run, procs0, c, ends, k) && k < |ends|
      modifies `mem, `free, `freeCount, `refs, `owner, `at, `procs
      ensures Breaking(run', procs0, c, ends, k + 1) && run' == run + [Sp()]
    {
      hide Good, Living, OnlyTouches, ProcsAt, FramesOk, Mapped, PageDisjoint, PagesTo, BreakFits, BreakReserve, Grows,
          AfterBreak, KeepsPages;
      BreaksUnfold(procs[c].segs, ends, k);
      var _ := SysBrk(c, ends[k], BreaksReserve(AfterBreak(procs[c].segs, ends[k]), ends[k + 1..]));
      GoodIsPaired(Sp());
      run' := run + [Sp()];
      LivesOn(run, c, Sp());
    }

    /** Any number of changes of c's break. */
    method Breaks(c: nat, ends: seq<nat>, ghost run0: seq<Space>, ghost procs0: map<nat, Proc>)
        returns (ghost run: seq<Space>)
      requires Breaking(run0, procs0, c, ends, 0) && run0 != []
      modifies `mem, `free, `freeCount, `refs, `owner, `at, `procs
      ensures Breaking(run, procs0, c, ends, |ends|) && run != [] && run[0] == run0[0]
    {
      hide *;
      var k := 0;
      run := run0;
      while k < |ends|
        invariant 0 <= k <= |ends| && Breaking(run, procs0, c, ends, k) && run != [] && run[0] == run0[0]
      {
        run := BreakNext(c, ends, k, run, procs0);
        k := k + 1;
      }
    }

    /** A whole life: p forks c, c changes its break any number of times, exits and
        is waited for. The same frames are free as before, as many of them, and
        what is in the others has not changed. */
    method ProcessLife(p: nat, c: nat, ends: seq<nat>)
      requires Valid() && Settled(p) && c !in procs && BreaksFit(procs[p].segs, ends)
      requires |free| >= 2 + ReserveFrom(procs[p].segs, 0) + BreaksReserve(procs[p].segs, ends)
      modifies `mem, `free, `freeCount, `refs, `owner, `at, `procs
      ensures Valid() && procs == old(procs) && owner == old(owner)
      ensures FreeSet() == old(FreeSet()) && freeCount == old(freeCount)
      ensures forall f :: f in owner ==> f < |mem| == |old(mem)| && mem[f] == old(mem)[f]
    {
      hide Good, Living, OnlyTouches, ProcsAt, PageOf, Forked, Paired, Mapped, Lists, BreaksFit, BreaksReserve,
          ReserveFrom, PageDisjoint, PagesTo;
      ghost var s0, procs0 := Sp(), procs;
      ghost var run := StartOfLife(p, c, ends);
      run := Breaks(c, ends, run, procs0);
      EndOfLife(c, run, procs0);
      assert Lists(old(free), s0.owner) && Lists(free, owner);
      SameLists(free, old(free), owner, s0.owner);
    }

    /** sys_fork, as far as memory goes. */
    method StartOfLife(p: nat, c: nat, ends: seq<nat>) returns (ghost run: seq<Space>)
      requires Valid() && Settled(p) && c !in procs && BreaksFit(procs[p].segs, ends)
      requires |free| >= 2 + ReserveFrom(procs[p].segs, 0) + BreaksReserve(procs[p].segs, ends)
      modifies `mem, `free, `freeCount, `refs, `owner, `at, `procs
      ensures Breaking(run, old(procs), c, ends, 0) && run == [old(Sp()), Sp()]
      ensures forall o :: Belongs(o, c) ==> o !in old(at)
    {
      hide Good, OnlyTouches, ProcsAt, PageOf, Forked, Paired, FramesOk, Mapped, PageDisjoint, PagesTo, ReserveFrom,
          BreaksFit, BreaksReserve;
      ghost var s0 := Sp();
      GoodIsPaired(s0);
      NotThere(procs, s0, c);
      CopyVm(p, c, BreaksReserve(procs[p].segs, ends));
      ForkTouches(s0, Sp(), p, c);
      run := [s0, Sp()];
      assert ends[0..] == ends;
    }

    /** sys_exit and the parent's sys_wait, as far as memory goes. */
    method EndOfLife(c: nat, ghost run: seq<Space>, ghost procs0: map<nat, Proc>)
      requires Valid() && Settled(c) && procs == procs0[c := procs[c]] && c !in procs0
      requires Living(run, c) && run[|run| - 1] == Sp() && forall o :: Belongs(o, c) ==> o !in run[0].at
      modifies `mem, `free, `freeCount, `refs, `owner, `at, `procs
      ensures Valid() && procs == procs0 && owner == run[0].owner
      ensures forall f :: f in owner ==> f < |run[0].mem| && f < |mem| && mem[f] == run[0].mem[f]
    {
      hide Good, Living, OnlyTouches, ProcsAt, PageOf, Paired, FramesOk, Mapped, PageDisjoint, PagesTo;
      ghost var s := Sp();
      FlushVm(c);
      ghost var s', proc := Sp(), procs[c];
      assert procs == procs0[c := proc];
      KillZombie(c);
      Forgotten(procs0, c, proc);
      GoodIsPaired(s');
      GoodIsPaired(Sp());
      LivesOn(run, c, s');
      LivesOn(run + [s'], c, Sp());
      ghost var life := run + [s'] + [Sp()];
      LifeConserves(life, c);
      assert life[0] == run[0] && life[|life| - 1] == Sp();
    }
  }

  lemma WholePrefix(a: seq<Segment>, b: seq<Segment>)
    requires |a| == |b| == SEGMENT_NUMBER && a[..SEGMENT_NUMBER] == b[..SEGMENT_NUMBER]
    ensures a == b
  {
  }

  /** One more segment of c is as in segs. */
  lemma ForkedProcs(procs0: map<nat, Proc>, procs: map<nat, Proc>, c: nat, k: nat, segs: seq<Segment>)
    requires c in procs && procs == procs0[c := procs[c]] && k < |segs| == |procs[c].segs|
    requires procs[c].segs[..k] == segs[..k]
    ensures var procs' := procs[c := procs[c].(segs := procs[c].segs[k := segs[k]])];
            procs' == procs0[c := procs'[c]] && procs'[c].segs[..k + 1] == segs[..k + 1]
  {
    assert segs[..k + 1] == segs[..k] + [segs[k]];
    var segs' := procs[c].segs[k := segs[k]];
    assert segs'[..k + 1] == segs'[..k] + [segs[k]];
  }

  lemma ForkTouches(s: Space, s': Space, p: nat, c: nat)
    requires Forked(s, s', p, c)
    ensures Paired(s) && Paired(s') && OnlyTouches(s, s', c)
  {
  }

  lemma RemoveProcIs(s: Space, p: nat)
    requires Good(s) && Dir(p) in s.at && Stack(p) in s.at
    ensures RemoveProc(s, p) == Release(Release(s, Dir(p)), Stack(p))
    ensures RemoveProc(s, p).at == s.at - {Dir(p)} - {Stack(p)}
  {
  }

  lemma Forgotten(procs: map<nat, Proc>, c: nat, proc: Proc)
    requires c !in procs
    ensures procs[c := proc] - {c} == procs
  {
  }

  lemma NoTablesOf(s: Space, p: nat)
    requires Closed(s) && Tables(s.at, p) == {}
    ensures forall i: nat :: Table(p, i) !in s.at
  {
    forall i: nat ensures Table(p, i) !in s.at { assert (i as int) !in Tables(s.at, p); }
  }

  lemma MapsOneFewer(at: map<Use, nat>, p: nat, v: nat)
    requires v < USER_PAGES
    ensures Mapped(at - {PageOf(p, v)}, p) == Mapped(at, p) - {v}
  {
    forall w | 0 <= w < USER_PAGES ensures w in Mapped(at - {PageOf(p, v)}, p) <==> w in Mapped(at, p) && w != v {
      PageInjective(p, v, w);
    }
  }

  lemma CompactSteps(at: map<Use, nat>, p: nat, i: nat)
    requires Tables(at, p) !! Range(0, i) && Table(p, i) !in at
    ensures Tables(at, p) !! Range(0, i + 1)
  {
  }

  lemma OneTableFewer(at: map<Use, nat>, p: nat, i: nat)
    ensures Mapped(at - {Table(p, i)}, p) == Mapped(at, p)
    ensures Tables(at - {Table(p, i)}, p) == Tables(at, p) - {i}
  {
  }

  /** With the same frames in use, the lists are of the same frames and as long. */
  lemma {:induction false} SameLists(a: seq<nat>, b: seq<nat>, inA: map<nat, Use>, inB: map<nat, Use>)
    requires Lists(a, inA) && Lists(b, inB) && inA.Keys == inB.Keys
    ensures Elements(a) == Elements(b) && |a| == |b|
  {
    SetSize(a);
    SetSize(b);
    assert forall f :: f in inA <==> f in inB.Keys;
    assert Elements(a) == Elements(b);
  }

  ghost function Elements(a: seq<nat>): (r: set<nat>)
    ensures forall f :: f in r <==> f in a
  {
    set f | f in a
  }

  lemma {:induction false} SetSize(a: seq<nat>)
    requires forall i, j :: 0 <= i < j < |a| ==> a[i] != a[j]
    ensures |Elements(a)| == |a|
    decreases |a|
  {
    if |a| > 0 {
      var n := |a| - 1;
      SetSize(a[..n]);
      assert Elements(a) == Elements(a[..n]) + {a[n]};
    }
  }

  /** (ulong) EINVAL */
  const EINVAL: nat := 0x1_0000_0000 - 21

  /** c's page v holds what p's page v held. */
  ghost predicate SamePage(s: Space, s': Space, p: nat, c: nat, v: int)
    requires Paired(s) && Paired(s')
  {
    && v in Mapped(s.at, p) && v in Mapped(s'.at, c)
    && s'.mem[s'.at[PageOf(c, v)]] == s.mem[s.at[PageOf(p, v)]]
  }

  ghost predicate SamePages(s: Space, s': Space, p: nat, c: nat, vs: set<int>)
    requires Paired(s) && Paired(s')
  {
    forall v :: v in vs ==> SamePage(s, s', p, c, v)
  }

  lemma OthersMapped(s: Space, s': Space, p: nat, c: nat)
    requires Paired(s) && Paired(s') && p != c && OnlyTouches(s, s', c)
    ensures Mapped(s'.at, p) == Mapped(s.at, p)
  {
  }

  lemma CopyTransitive(s: Space, s': Space, s'': Space, p: nat, c: nat, vs: set<int>, v: nat)
    requires Paired(s) && Paired(s') && Paired(s'') && p != c
    requires OnlyTouches(s, s', c) && OnlyTouches(s', s'', c) && KeepsPages(s, s', c) && KeepsPages(s', s'', c)
    requires SamePages(s, s', p, c, vs) && SamePage(s', s'', p, c, v)
    ensures OnlyTouches(s, s'', c) && KeepsPages(s, s'', c)
    ensures SamePages(s, s'', p, c, vs + {v})
  {
    TouchesTransitive(s, s', s'', c);
    KeepsTransitive(s, s', s'', c);
    forall w | w in vs + {v} ensures SamePage(s, s'', p, c, w) {
      if w in vs { assert SamePage(s, s', p, c, w); }
    }
  }

  lemma RangeSteps(lo: int, v: int, hi: int)
    requires lo <= v < hi
    ensures Range(lo, v + 1) == Range(lo, v) + {v} && Range(v, hi) - {v} == Range(v + 1, hi)
    ensures v in Range(lo, hi) && v !in Range(lo, v)
  {
  }

  /** When sys_brk grows the data segment. */
  predicate Grows(segs: seq<Segment>, newEnd: nat)
    requires |segs| == SEGMENT_NUMBER
  {
    newEnd != 0 && segs[1].end <= newEnd < segs[2].start
  }

  /** The pages sys_brk maps, and the segments it leaves. */
  ghost function NewPages(segs: seq<Segment>, newEnd: nat): set<int>
    requires GoodSegs(segs) && newEnd < 0x1_0000_0000
  {
    Range(PastPage(segs[1]), PageUp(newEnd) / 4096)
  }

  ghost function SegmentReserve(s: Segment): nat
    requires UserSegment(s)
  {
    Reserve(false, FirstPage(s), PastPage(s))
  }

  ghost function GrowthReserve(segs: seq<Segment>, newEnd: nat): nat
    requires GoodSegs(segs) && segs[1].end <= newEnd <= segs[2].start
  {
    Reserve(false, PastPage(segs[1]), PageUp(newEnd) / 4096)
  }

  lemma GrowthIsUp(segs: seq<Segment>, newEnd: nat)
    requires GoodSegs(segs) && segs[1].end <= newEnd <= segs[2].start
    ensures PastPage(segs[1]) <= PageUp(newEnd) / 4096 <= USER_PAGES
    ensures PageUp(newEnd) % 4096 == 0 && PageUp(segs[1].end) % 4096 == 0
  {
    PageUpIs(segs[1].end);
    PageUpIs(newEnd);
  }

  /** Growing maps no page that the code has already. */
  predicate BreakFits(segs: seq<Segment>, newEnd: nat)
    requires GoodSegs(segs)
  {
    && newEnd < 0x1_0000_0000
    && (Grows(segs, newEnd) ==>
          RangesApart(PastPage(segs[1]), PageUp(newEnd) / 4096, FirstPage(segs[0]), PastPage(segs[0])))
  }

  predicate RangesApart(a: int, b: int, c: int, d: int) { a >= b || c >= d || b <= c || d <= a }

  lemma RangesApartIs(a: int, b: int, c: int, d: int)
    ensures RangesApart(a, b, c, d) <==> Range(a, b) !! Range(c, d)
  {
    if !RangesApart(a, b, c, d) {
      var x := if a < c then c else a;
      assert x in Range(a, b) && x in Range(c, d);
    }
  }

  /** The assertion of map_range holds for a growing break if and only if it fits: the
      stack is never in the way, since it begins with its page. */
  lemma BreakFitsIff(segs: seq<Segment>, newEnd: nat)
    requires GoodSegs(segs) && Grows(segs, newEnd) && newEnd < 0x1_0000_0000
    ensures BreakFits(segs, newEnd) <==> NewPages(segs, newEnd) !! PagesTo(segs, SEGMENT_NUMBER)
  {
    var lo, hi := PastPage(segs[1]), PageUp(newEnd) / 4096;
    ThreeSegments(segs);
    UpWithin(newEnd, FirstPage(segs[2]));
    hide PageUp;
    RangesApartIs(lo, hi, FirstPage(segs[0]), PastPage(segs[0]));
    RangesApartIs(lo, hi, FirstPage(segs[1]), PastPage(segs[1]));
    RangesApartIs(lo, hi, FirstPage(segs[2]), PastPage(segs[2]));
    hide Range;
  }

  /** It does not fit exactly where there is code above the data and the new end comes
      to lie past the beginning of the code's first page. */
  lemma BreakHitsCode(segs: seq<Segment>, newEnd: nat)
    requires GoodSegs(segs) && PageDisjoint(segs) && Grows(segs, newEnd) && newEnd < 0x1_0000_0000
    requires segs[0].start < segs[0].end && segs[1].start < segs[1].end
    ensures !BreakFits(segs, newEnd) <==>
            segs[1].end <= PageDown(segs[0].start) && PageDown(segs[0].start) < newEnd
  {
    hide PageUp, PageDown;
    var past, code := PastPage(segs[1]), FirstPage(segs[0]);
    UpWithin(segs[1].end, code);
    UpWithin(segs[0].end, code);
    UpWithin(segs[1].end, FirstPage(segs[1]));
    UpWithin(newEnd, code);
    assert PageDown(segs[0].start) == 4096 * code;
    assert Pages(segs[0]) !! Pages(segs[1]);
    RangesApartIs(FirstPage(segs[0]), PastPage(segs[0]), FirstPage(segs[1]), past);
  }

  /** For instance, a program with its code a few pages above its data. */
  lemma BreakHitsCodeAt(segs: seq<Segment>)
    requires segs == [Segment(0x8000, 0x9000), Segment(0x1000, 0x2000), Segment(0xBFFF_F000, 0xC000_0000)]
    ensures GoodSegs(segs) && PageDisjoint(segs) && Grows(segs, 0x9000) && !BreakFits(segs, 0x9000)
    ensures NewPages(segs, 0x9000) * Pages(segs[0]) == {8}
  {
    var code, data, stack := segs[0], segs[1], segs[2];
    assert FirstPage(code) == 8 && FirstPage(data) == 1 && FirstPage(stack) == 0xBFFFF;
    assert PastPage(code) == 9 && PastPage(data) == 2 && PageUp(0x9000) / 4096 == 9;
    hide PageUp, PageDown;
    assert Grows(segs, 0x9000);
    hide FirstPage, PastPage;
    ThreeSegments(segs);
    hide PagesTo, PageDisjoint;
    assert Pages(code) == {8};
  }

  lemma UpWithin(a: nat, v: nat)
    requires a <= USER_END
    ensures PageUp(a) / 4096 <= v <==> a <= v * 4096
  {
    PageUpIs(a);
    hide PageUp;
  }

  /** The segments after sys_brk. */
  function AfterBreak(segs: seq<Segment>, newEnd: nat): seq<Segment>
    requires |segs| == SEGMENT_NUMBER
  {
    if Grows(segs, newEnd) then Grown(segs, newEnd) else segs
  }

  ghost function BreakReserve(segs: seq<Segment>, newEnd: nat): nat
    requires GoodSegs(segs)
  {
    if Grows(segs, newEnd) then GrowthReserve(segs, newEnd) else 0
  }

  /** Every change of the break of a run fits the segments it finds. */
  predicate BreaksFit(segs: seq<Segment>, ends: seq<nat>)
    requires GoodSegs(segs)
    decreases |ends|
  {
    ends == [] || (BreakFits(segs, ends[0]) && BreaksFit(AfterBreak(segs, ends[0]), ends[1..]))
  }

  ghost function BreaksReserve(segs: seq<Segment>, ends: seq<nat>): nat
    requires GoodSegs(segs)
    decreases |ends|
  {
    if ends == [] then 0 else BreakReserve(segs, ends[0]) + BreaksReserve(AfterBreak(segs, ends[0]), ends[1..])
  }

  lemma BreaksUnfold(segs: seq<Segment>, ends: seq<nat>, k: nat)
    requires GoodSegs(segs) && k < |ends| && BreaksFit(segs, ends[k..])
    ensures var segs' := AfterBreak(segs, ends[k]);
            && BreakFits(segs, ends[k]) && GoodSegs(segs') && BreaksFit(segs', ends[k + 1..])
            && BreaksReserve(segs, ends[k..]) == BreakReserve(segs, ends[k]) + BreaksReserve(segs', ends[k + 1..])
  {
    assert ends[k..][0] == ends[k] && ends[k..][1..] == ends[k + 1..];
  }

  function Grown(segs: seq<Segment>, newEnd: nat): seq<Segment>
    requires |segs| == SEGMENT_NUMBER
  {
    segs[1 := Segment(segs[1].start, newEnd)]
  }

  /** Growing the data segment adds the new pages, and if those were not in use
      the segments stay disjoint. */
  lemma GrowSettles(segs: seq<Segment>, newEnd: nat)
    requires GoodSegs(segs) && PageDisjoint(segs) && segs[1].end <= newEnd < segs[2].start
    requires NewPages(segs, newEnd) !! PagesTo(segs, SEGMENT_NUMBER)
    ensures var segs' := Grown(segs, newEnd);
            GoodSegs(segs') && PageDisjoint(segs') && PagesTo(segs', SEGMENT_NUMBER) == PagesTo(segs,
                SEGMENT_NUMBER) + NewPages(segs, newEnd)
  {
    var segs', more := Grown(segs, newEnd), NewPages(segs, newEnd);
    PageUpIs(segs[1].end);
    PageUpIs(newEnd);
    assert Pages(segs'[1]) == Pages(segs[1]) + more;
    ThreeSegments(segs);
    ThreeSegments(segs');
    assert more !! Pages(segs[0]) && more !! Pages(segs[2]);
  }

  lemma ThreeSegments(segs: seq<Segment>)
    requires GoodSegs(segs)
    ensures PagesTo(segs, SEGMENT_NUMBER) == Pages(segs[0]) + Pages(segs[1]) + Pages(segs[2])
    ensures PageDisjoint(segs) <==>
              Pages(segs[0]) !! Pages(segs[1]) && Pages(segs[0]) !! Pages(segs[2]) && Pages(segs[1]) !! Pages(segs[2])
  {
    hide Pages, Range;
    assert PagesTo(segs, 3) == PagesTo(segs, 2) + Pages(segs[2]);
    assert PagesTo(segs, 2) == PagesTo(segs, 1) + Pages(segs[1]);
    assert PagesTo(segs, 1) == Pages(segs[0]);
    if PageDisjoint(segs) {
      assert Pages(segs[0]) !! Pages(segs[1]) && Pages(segs[0]) !! Pages(segs[2]) && Pages(segs[1]) !! Pages(segs[2]);
    }
  }

  lemma {:induction false} PagesToHas(segs: seq<Segment>, k: nat, n: nat)
    requires GoodSegs(segs) && k < n <= |segs|
    ensures Pages(segs[k]) <= PagesTo(segs, n) && PagesTo(segs, k) <= PagesTo(segs, n)
    decreases n
  {
    if k < n - 1 {
      PagesToHas(segs, k, n - 1);
    }
  }

  lemma {:induction false} DisjointFromEarlier(segs: seq<Segment>, k: nat, n: nat)
    requires GoodSegs(segs) && PageDisjoint(segs) && k <= n < |segs|
    ensures PagesTo(segs, k) !! Pages(segs[n])
    decreases k
  {
    if k > 0 {
      DisjointFromEarlier(segs, k - 1, n);
      assert Pages(segs[k - 1]) !! Pages(segs[n]);
    }
  }

  /** Frames enough to copy segment k and the later ones. */
  ghost function ReserveFrom(segs: seq<Segment>, k: nat): nat
    requires GoodSegs(segs) && k <= |segs|
    decreases |segs| - k
  {
    if k == |segs| then 0 else SegmentReserve(segs[k]) + ReserveFrom(segs, k + 1)
  }

  /** A recorded page is one of the mapped ones. */
  lemma MappedUser(s: Space, p: nat, i: nat, j: nat)
    requires Good(s)
    ensures User(p, i, j) in s.at <==> i < USER_PDES && j < ENTRIES && i * 1024 + j in Mapped(s.at, p)
  {
    if i < USER_PDES && j < ENTRIES {
      assert (i * 1024 + j) / 1024 == i && (i * 1024 + j) % 1024 == j;
      assert PageOf(p, i * 1024 + j) == User(p, i, j);
    }
  }

  /** What a copy of all pages amounts to. */
  lemma CopiedIsForked(s: Space, s': Space, p: nat, c: nat)
    requires Good(s) && Good(s') && Dir(p) in s.at && Dir(c) in s'.at && p != c
    requires (forall o :: Belongs(o, c) ==> o !in s.at) && OnlyTouches(s, s', c)
    requires Mapped(s'.at, c) == Mapped(s.at, p) && SamePages(s, s', p, c, Mapped(s.at, p))
    ensures Forked(s, s', p, c)
  {
    hide OnlyTouches, DirsMirror, TablesMirror, Closed;
    forall i: nat, j: nat
      ensures User(c, i, j) in s'.at <==> User(p, i, j) in s.at
      ensures User(p, i, j) in s.at ==> s'.mem[s'.at[User(c, i, j)]] == s.mem[s.at[User(p, i, j)]]
    {
      CopiedPage(s, s', p, c, i, j);
    }
  }

  lemma CopiedPage(s: Space, s': Space, p: nat, c: nat, i: nat, j: nat)
    requires Good(s) && Good(s') && p != c
    requires Mapped(s'.at, c) == Mapped(s.at, p) && SamePages(s, s', p, c, Mapped(s.at, p))
    ensures User(c, i, j) in s'.at <==> User(p, i, j) in s.at
    ensures User(p, i, j) in s.at ==> s'.mem[s'.at[User(c, i, j)]] == s.mem[s.at[User(p, i, j)]]
  {
    hide DirsMirror, TablesMirror, Closed;
    MappedUser(s, p, i, j);
    MappedUser(s', c, i, j);
    if User(p, i, j) in s.at {
      assert SamePage(s, s', p, c, i * 1024 + j);
      assert PageOf(p, i * 1024 + j) == User(p, i, j) && PageOf(c, i * 1024 + j) == User(c, i, j);
    }
  }

  lemma SamePagesLater(s: Space, s': Space, s'': Space, p: nat, c: nat, vs: set<int>, ws: set<int>)
    requires Paired(s) && Paired(s') && Paired(s'') && p != c
    requires OnlyTouches(s, s', c) && OnlyTouches(s', s'', c) && KeepsPages(s', s'', c)
    requires SamePages(s, s', p, c, vs) && SamePages(s', s'', p, c, ws)
    ensures SamePages(s, s'', p, c, vs + ws)
  {
    forall v | v in vs + ws ensures SamePage(s, s'', p, c, v) {
      if v in vs { assert SamePage(s, s', p, c, v); } else { assert SamePage(s', s'', p, c, v); }
    }
  }

  lemma MapsOneMore(at: map<Use, nat>, at': map<Use, nat>, p: nat, v: nat, table: nat, f: nat)
    requires at' == at || at' == at[Table(p, v / 1024) := table]
    requires v < USER_PAGES && Table(p, v / 1024) in at'
    ensures Mapped(at'[PageOf(p, v) := f], p) == Mapped(at, p) + {v}
    ensures Tables(at'[PageOf(p, v) := f], p) == Tables(at, p) + {v / 1024}
  {
    forall w | 0 <= w < USER_PAGES ensures w in Mapped(at'[PageOf(p, v) := f], p) <==> w in Mapped(at, p) || w == v {
      PageInjective(p, v, w);
    }
  }
}
