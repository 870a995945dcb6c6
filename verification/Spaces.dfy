/** Physical memory together with what each of its frames is used for, and the
    changes paging code makes to the two. */
module Spaces {
  import opened Options
  import opened Paging

  /** What a frame is for: the page directory or kernel stack of a process, its
      table for directory index i, its page at index j of that table, or
      something outside this model (kernel image, slab pages, pipes). */
  datatype Use = Dir(pid: nat) | Stack(pid: nat) | Table(pid: nat, i: nat) | User(pid: nat, i: nat,
      j: nat) | Other(frame: nat)

  predicate Belongs(o: Use, p: nat) { !o.Other? && o.pid == p }

  /** at finds the frame of a use, owner the use of a frame; kernel is the directory
      entry for the kernel's addresses. */
  datatype Space = Space(mem: seq<Page>, at: map<Use, nat>, owner: map<nat, Use>, kernel: nat)

  /** Every use has a frame of its own. */
  ghost predicate Paired(s: Space) {
    && (forall o :: o in s.at ==> s.at[o] < |s.mem| && s.at[o] in s.owner && s.owner[s.at[o]] == o)
    && (forall f :: f in s.owner ==> s.owner[f] in s.at && s.at[s.owner[f]] == f)
  }

  /** Pages hang under tables and tables under directories. */
  ghost predicate Closed(s: Space) {
    && (forall p: nat :: Dir(p) in s.at <==> Stack(p) in s.at)
    && (forall p: nat, i: nat :: Table(p, i) in s.at ==> i < USER_PDES && Dir(p) in s.at)
    && (forall p: nat, i: nat, j: nat :: User(p, i, j) in s.at ==> j < ENTRIES && Table(p, i) in s.at)
  }

  /** The word that points to the frame of a use: 0 where there is none. */
  function Link(at: map<Use, nat>, o: Use): nat {
    if o in at then PteMake(at[o]) else 0
  }

  /** What entry i of a directory says: where the table is, or the kernel is mapped. */
  function DirWord(s: Space, p: nat, i: nat): nat {
    if i < USER_PDES then Link(s.at, Table(p, i)) else if i == KERNEL_PDE then s.kernel else 0
  }

  ghost predicate DirsMirror(s: Space)
    requires Paired(s)
  {
    forall p: nat, i: nat :: Dir(p) in s.at && i < ENTRIES ==> s.mem[s.at[Dir(p)]][i] == DirWord(s, p, i)
  }

  ghost predicate TablesMirror(s: Space)
    requires Paired(s)
  {
    forall p: nat, i: nat, j: nat :: Table(p, i) in s.at && j < ENTRIES ==>
        s.mem[s.at[Table(p, i)]][j] == Link(s.at, User(p, i, j))
  }

  ghost predicate Good(s: Space) {
    Paired(s) && Closed(s) && DirsMirror(s) && TablesMirror(s)
  }

  lemma GoodIsPaired(s: Space)
    requires Good(s)
    ensures Paired(s) && Closed(s)
  {
  }

  /** From s to s' nothing has changed that is not c's: not which frame has
      which use, not a word in one of them. */
  ghost predicate OnlyTouches(s: Space, s': Space, c: nat)
    requires Paired(s) && Paired(s')
  {
    && s'.kernel == s.kernel && (forall o :: !Belongs(o, c) ==> (o in s.at <==> o in s'.at))
    && (forall o :: !Belongs(o, c) && o in s.at ==> s'.at[o] == s.at[o] && s'.mem[s.at[o]] == s.mem[s.at[o]])
  }

  lemma TouchesSelf(s: Space, c: nat)
    requires Paired(s)
    ensures OnlyTouches(s, s, c) && KeepsPages(s, s, c)
  {
  }

  lemma TouchesTransitive(s: Space, s': Space, s'': Space, c: nat)
    requires Paired(s) && Paired(s') && Paired(s'')
    requires OnlyTouches(s, s', c) && OnlyTouches(s', s'', c)
    ensures OnlyTouches(s, s'', c)
  {
  }

  /** The pages of c that s has, s' has, in the same frames with the same words. */
  ghost predicate KeepsPages(s: Space, s': Space, c: nat)
    requires Paired(s) && Paired(s')
  {
    forall i: nat, j: nat :: User(c, i, j) in s.at ==>
      User(c, i, j) in s'.at && s'.at[User(c, i, j)] == s.at[User(c, i, j)] &&
          s'.mem[s.at[User(c, i, j)]] == s.mem[s.at[User(c, i, j)]]
  }

  lemma KeepsTransitive(s: Space, s': Space, s'': Space, c: nat)
    requires Paired(s) && Paired(s') && Paired(s'')
    requires KeepsPages(s, s', c) && KeepsPages(s', s'', c)
    ensures KeepsPages(s, s'', c)
  {
  }

  // ----- taking, giving back and writing frames -----

  ghost predicate Unused(s: Space, f: nat) { f < |s.mem| && f !in s.owner }

  ghost function Claim(s: Space, o: Use, f: nat, page: Page): Space
    requires f < |s.mem|
  {
    Space(s.mem[f := page], s.at[o := f], s.owner[f := o], s.kernel)
  }

  /** Claim, leaving the words as they are. */
  ghost function Assign(s: Space, o: Use, f: nat): Space
    requires f < |s.mem|
  {
    Space(s.mem, s.at[o := f], s.owner[f := o], s.kernel)
  }

  ghost function Release(s: Space, o: Use): Space
    requires o in s.at
  {
    Space(s.mem, s.at - {o}, s.owner - {s.at[o]}, s.kernel)
  }

  ghost function Poke(s: Space, f: nat, k: nat, w: nat): Space
    requires f < |s.mem| && k < ENTRIES
  {
    s.(mem := s.mem[f := s.mem[f][k := w]])
  }

  lemma ClaimPaired(s: Space, o: Use, f: nat, page: Page)
    requires Paired(s) && Unused(s, f) && o !in s.at
    ensures Paired(Claim(s, o, f, page))
    ensures forall x :: x in s.at ==> s.at[x] != f
  {
  }

  lemma AssignPaired(s: Space, o: Use, f: nat)
    requires Paired(s) && Unused(s, f) && o !in s.at
    ensures Paired(Assign(s, o, f))
  {
  }

  lemma ReleasePaired(s: Space, o: Use)
    requires Paired(s) && o in s.at
    ensures Paired(Release(s, o))
  {
  }

  lemma Located(s: Space, o: Use)
    requires Paired(s) && o in s.at
    ensures s.at[o] < |s.mem|
  {
  }

  lemma UnderDir(s: Space, p: nat, i: nat)
    requires Good(s) && Table(p, i) in s.at
    ensures Dir(p) in s.at && i < USER_PDES
  {
  }

  /** Two uses never share a frame. */
  lemma Distinct(s: Space, a: Use, b: Use)
    requires Paired(s) && a in s.at && b in s.at
    ensures a != b ==> s.at[a] != s.at[b]
  {
  }

  /** Claiming a frame for p and writing a word of p's directory or a table of
      p's touches nothing else, and none of p's pages. */
  lemma ClaimPokeTouches(s: Space, o: Use, f: nat, page: Page, at: Use, k: nat, w: nat)
    requires Paired(s) && Unused(s, f) && o !in s.at && at in s.at && k < ENTRIES
    requires !o.Other? && (at == Dir(o.pid) || (at.Table? && at.pid == o.pid))
    ensures var s' := Poke(Claim(s, o, f, page), s.at[at], k, w);
            Paired(s') && OnlyTouches(s, s', o.pid) && KeepsPages(s, s', o.pid) && s'.mem[f] == page
  {
    ClaimPaired(s, o, f, page);
    var s' := Poke(Claim(s, o, f, page), s.at[at], k, w);
    forall x | x in s.at && x != at ensures s'.at[x] == s.at[x] && s'.mem[s.at[x]] == s.mem[s.at[x]] {
      Distinct(s, x, at);
    }
  }

  lemma ReleasePokeTouches(s: Space, o: Use, at: Use, k: nat, w: nat)
    requires Paired(s) && o in s.at && at in s.at && k < ENTRIES
    requires !o.Other? && (at == Dir(o.pid) || (at.Table? && at.pid == o.pid))
    ensures var s' := Poke(Release(s, o), s.at[at], k, w); Paired(s') && OnlyTouches(s, s', o.pid)
  {
    ReleasePaired(s, o);
    var s' := Poke(Release(s, o), s.at[at], k, w);
    forall x | x in s.at && x != at ensures s'.mem[s.at[x]] == s.mem[s.at[x]] {
      Distinct(s, x, at);
    }
  }

  // ----- a table -----

  ghost function AddTable(s: Space, p: nat, i: nat, f: nat): Space
    requires Good(s) && Dir(p) in s.at && i < USER_PDES && Unused(s, f)
  {
    Poke(Claim(s, Table(p, i), f, ZeroPage()), s.at[Dir(p)], i, PteMake(f))
  }

  lemma AddTablePaired(s: Space, p: nat, i: nat, f: nat)
    requires Good(s) && Dir(p) in s.at && i < USER_PDES && Unused(s, f) && Table(p, i) !in s.at
    ensures Paired(AddTable(s, p, i, f)) && Closed(AddTable(s, p, i, f))
    ensures forall j: nat :: User(p, i, j) !in s.at
  {
    ClaimPaired(s, Table(p, i), f, ZeroPage());
  }

  lemma AddTableMirrors(s: Space, p: nat, i: nat, f: nat)
    requires Good(s) && Dir(p) in s.at && i < USER_PDES && Unused(s, f) && Table(p, i) !in s.at
    requires Paired(AddTable(s, p, i, f))
    ensures DirsMirror(AddTable(s, p, i, f)) && TablesMirror(AddTable(s, p, i, f))
  {
    var s' := AddTable(s, p, i, f);
    forall q: nat, k: nat | Dir(q) in s'.at && k < ENTRIES
      ensures s'.mem[s'.at[Dir(q)]][k] == DirWord(s', q, k)
    {
      AddTableDirWord(s, p, i, f, q, k);
    }
    forall q: nat, k: nat, j: nat | Table(q, k) in s'.at && j < ENTRIES
      ensures s'.mem[s'.at[Table(q, k)]][j] == Link(s'.at, User(q, k, j))
    {
      AddTableWord(s, p, i, f, q, k, j);
    }
  }

  lemma AddTableDirWord(s: Space, p: nat, i: nat, f: nat, q: nat, k: nat)
    requires Good(s) && Dir(p) in s.at && i < USER_PDES && Unused(s, f) && Table(p, i) !in s.at
    requires Dir(q) in s.at && k < ENTRIES
    ensures var s' := AddTable(s, p, i, f);
            Dir(q) in s'.at && s'.at[Dir(q)] < |s'.mem| && s'.mem[s'.at[Dir(q)]][k] == DirWord(s', q, k)
  {
    hide Closed, TablesMirror, Paired;
    GoodIsPaired(s);
    Located(s, Dir(q));
    Distinct(s, Dir(q), Dir(p));
    assert s.mem[s.at[Dir(q)]][k] == DirWord(s, q, k);
  }

  lemma AddTableWord(s: Space, p: nat, i: nat, f: nat, q: nat, k: nat, j: nat)
    requires Good(s) && Dir(p) in s.at && i < USER_PDES && Unused(s, f) && Table(p, i) !in s.at
    requires Table(q, k) in s.at || (q == p && k == i)
    requires j < ENTRIES
    ensures var s' := AddTable(s, p, i, f);
            Table(q, k) in s'.at && s'.at[Table(q, k)] < |s'.mem| &&
                s'.mem[s'.at[Table(q, k)]][j] == Link(s'.at, User(q, k, j))
  {
    hide DirsMirror, Closed, Paired;
    GoodIsPaired(s);
    AddTablePaired(s, p, i, f);
    if Table(q, k) in s.at {
      Located(s, Table(q, k));
      Distinct(s, Table(q, k), Dir(p));
      assert s.mem[s.at[Table(q, k)]][j] == Link(s.at, User(q, k, j));
    }
  }

  lemma AddTableGood(s: Space, p: nat, i: nat, f: nat)
    requires Good(s) && Dir(p) in s.at && i < USER_PDES && Unused(s, f) && Table(p, i) !in s.at
    ensures var s' := AddTable(s, p, i, f); Good(s') && OnlyTouches(s, s', p) && KeepsPages(s, s', p)
  {
    AddTablePaired(s, p, i, f);
    AddTableMirrors(s, p, i, f);
    ClaimPokeTouches(s, Table(p, i), f, ZeroPage(), Dir(p), i, PteMake(f));
  }

  // ----- a page -----

  ghost function AddPage(s: Space, p: nat, i: nat, j: nat, f: nat, page: Page): Space
    requires Good(s) && Table(p, i) in s.at && j < ENTRIES && Unused(s, f)
  {
    Poke(Claim(s, User(p, i, j), f, page), s.at[Table(p, i)], j, PteMake(f))
  }

  lemma AddPageGood(s: Space, p: nat, i: nat, j: nat, f: nat, page: Page)
    requires Good(s) && Table(p, i) in s.at && j < ENTRIES && Unused(s, f) && User(p, i, j) !in s.at
    ensures var s' := AddPage(s, p, i, j, f, page);
            Good(s') && OnlyTouches(s, s', p) && KeepsPages(s, s', p) && s'.mem[f] == page
  {
    ClaimPokeTouches(s, User(p, i, j), f, page, Table(p, i), j, PteMake(f));
    PageMirrors(s, AddPage(s, p, i, j, f, page), p, i, j);
  }

  /** A page's entry is the only word that changes, and it says what it should. */
  lemma PageMirrors(s: Space, s': Space, p: nat, i: nat, j: nat)
    requires Good(s) && Paired(s') && Table(p, i) in s.at && j < ENTRIES && |s'.mem| == |s.mem|
    requires s'.kernel == s.kernel
    requires forall o :: o != User(p, i, j) ==> (o in s'.at <==> o in s.at)
    requires forall o :: o != User(p, i, j) && o in s.at ==> s'.at[o] == s.at[o]
    requires forall o :: o != Table(p, i) && o in s.at && o in s'.at ==> s'.mem[s.at[o]] == s.mem[s.at[o]]
    requires s'.mem[s.at[Table(p, i)]] == s.mem[s.at[Table(p, i)]][j := Link(s'.at, User(p, i, j))]
    ensures Good(s')
  {
    PageClosed(s, s', p, i, j);
    hide Closed;
    forall q: nat, k: nat | Dir(q) in s'.at && k < ENTRIES
      ensures s'.mem[s'.at[Dir(q)]][k] == DirWord(s', q, k)
    {
      assert s.mem[s.at[Dir(q)]][k] == DirWord(s, q, k);
    }
    forall q: nat, k: nat, l: nat | Table(q, k) in s'.at && l < ENTRIES
      ensures s'.mem[s'.at[Table(q, k)]][l] == Link(s'.at, User(q, k, l))
    {
      assert s.mem[s.at[Table(q, k)]][l] == Link(s.at, User(q, k, l));
    }
  }

  lemma PageClosed(s: Space, s': Space, p: nat, i: nat, j: nat)
    requires Closed(s) && Table(p, i) in s.at && j < ENTRIES
    requires forall o :: o != User(p, i, j) ==> (o in s'.at <==> o in s.at)
    ensures Closed(s')
  {
  }

  ghost function RemovePage(s: Space, p: nat, i: nat, j: nat): Space
    requires Good(s) && User(p, i, j) in s.at
  {
    Poke(Release(s, User(p, i, j)), s.at[Table(p, i)], j, 0)
  }

  lemma RemovePageGood(s: Space, p: nat, i: nat, j: nat)
    requires Good(s) && User(p, i, j) in s.at
    ensures var s' := RemovePage(s, p, i, j); Good(s') && OnlyTouches(s, s', p)
  {
    ReleasePokeTouches(s, User(p, i, j), Table(p, i), j, 0);
    var s' := RemovePage(s, p, i, j);
    forall o | o != Table(p, i) && o in s.at && o in s'.at ensures s'.mem[s.at[o]] == s.mem[s.at[o]] {
      Distinct(s, o, Table(p, i));
    }
    PageMirrors(s, s', p, i, j);
  }

  ghost function RemoveTable(s: Space, p: nat, i: nat): Space
    requires Good(s) && Table(p, i) in s.at
  {
    Poke(Release(s, Table(p, i)), s.at[Dir(p)], i, 0)
  }

  lemma RemoveTableDirs(s: Space, p: nat, i: nat)
    requires Good(s) && Table(p, i) in s.at && Paired(RemoveTable(s, p, i))
    ensures DirsMirror(RemoveTable(s, p, i))
  {
    var s' := RemoveTable(s, p, i);
    forall q: nat, k: nat | Dir(q) in s'.at && k < ENTRIES
      ensures s'.mem[s'.at[Dir(q)]][k] == DirWord(s', q, k)
    {
      RemoveTableDirWord(s, p, i, q, k);
    }
  }

  lemma RemoveTableDirWord(s: Space, p: nat, i: nat, q: nat, k: nat)
    requires Good(s) && Table(p, i) in s.at && Dir(q) in s.at && k < ENTRIES
    ensures var s' := RemoveTable(s, p, i);
            Dir(q) in s'.at && s'.at[Dir(q)] < |s'.mem| && s'.mem[s'.at[Dir(q)]][k] == DirWord(s', q, k)
  {
    hide TablesMirror, Closed, Paired;
    UnderDir(s, p, i);
    GoodIsPaired(s);
    Located(s, Dir(q));
    Distinct(s, Dir(q), Dir(p));
    assert s.mem[s.at[Dir(q)]][k] == DirWord(s, q, k);
  }

  lemma RemoveTableTables(s: Space, p: nat, i: nat)
    requires Good(s) && Table(p, i) in s.at && Paired(RemoveTable(s, p, i))
    ensures TablesMirror(RemoveTable(s, p, i))
  {
    var s' := RemoveTable(s, p, i);
    forall q: nat, k: nat, l: nat | Table(q, k) in s'.at && l < ENTRIES
      ensures s'.mem[s'.at[Table(q, k)]][l] == Link(s'.at, User(q, k, l))
    {
      RemoveTableWord(s, p, i, q, k, l);
    }
  }

  lemma RemoveTableWord(s: Space, p: nat, i: nat, q: nat, k: nat, l: nat)
    requires Good(s) && Table(p, i) in s.at && Table(q, k) in s.at && Table(q, k) != Table(p, i) && l < ENTRIES
    ensures var s' := RemoveTable(s, p, i);
            Table(q, k) in s'.at && s'.at[Table(q, k)] == s.at[Table(q, k)] &&
            s'.mem[s.at[Table(q, k)]][l] == Link(s'.at, User(q, k, l))
  {
    hide DirsMirror, Closed, Paired;
    UnderDir(s, p, i);
    GoodIsPaired(s);
    Located(s, Table(q, k));
    Distinct(s, Table(q, k), Dir(p));
    assert s.mem[s.at[Table(q, k)]][l] == Link(s.at, User(q, k, l));
  }

  lemma RemoveTableGood(s: Space, p: nat, i: nat)
    requires Good(s) && Table(p, i) in s.at && forall j: nat :: User(p, i, j) !in s.at
    ensures var s' := RemoveTable(s, p, i); Good(s') && OnlyTouches(s, s', p)
  {
    ReleasePokeTouches(s, Table(p, i), Dir(p), i, 0);
    RemoveTableDirs(s, p, i);
    RemoveTableTables(s, p, i);
  }

  // ----- a process -----

  ghost function AddProc(s: Space, p: nat, dir: nat, stack: nat, page: Page): Space
    requires dir < |s.mem| && stack < |s.mem|
  {
    Assign(Claim(s, Dir(p), dir, page), Stack(p), stack)
  }

  lemma AddProcPaired(s: Space, p: nat, dir: nat, stack: nat, page: Page)
    requires Good(s) && Dir(p) !in s.at && Unused(s, dir) && Unused(s, stack) && dir != stack
    ensures var s' := AddProc(s, p, dir, stack, page); Paired(s') && Closed(s') && OnlyTouches(s, s', p)
    ensures forall i: nat :: Table(p, i) !in s.at
  {
    hide Good, Paired, Closed, OnlyTouches, Claim, Assign;
    GoodIsPaired(s);
    NoStackEither(s, p);
    ClaimTouches(s, Dir(p), dir, page);
    var mid := Claim(s, Dir(p), dir, page);
    UnusedAfterClaim(s, Dir(p), dir, page, stack);
    AssignTouches(mid, Stack(p), stack);
    TouchesTransitive(s, mid, AddProc(s, p, dir, stack, page), p);
    AddProcClosed(s, p, dir, stack, page);
  }

  lemma NoStackEither(s: Space, p: nat)
    requires Closed(s) && Dir(p) !in s.at
    ensures Stack(p) !in s.at && forall i: nat :: Table(p, i) !in s.at
  {
  }

  /** Taking a frame for a new use leaves every other use where it is. */
  lemma ClaimTouches(s: Space, o: Use, f: nat, page: Page)
    requires Paired(s) && Unused(s, f) && o !in s.at && !o.Other?
    ensures Paired(Claim(s, o, f, page)) && OnlyTouches(s, Claim(s, o, f, page), o.pid)
  {
    ClaimPaired(s, o, f, page);
  }

  lemma AssignTouches(s: Space, o: Use, f: nat)
    requires Paired(s) && Unused(s, f) && o !in s.at && !o.Other?
    ensures Paired(Assign(s, o, f)) && OnlyTouches(s, Assign(s, o, f), o.pid)
  {
    AssignPaired(s, o, f);
  }

  lemma UnusedAfterClaim(s: Space, o: Use, f: nat, page: Page, g: nat)
    requires Unused(s, f) && Unused(s, g) && g != f
    ensures Unused(Claim(s, o, f, page), g) && forall x :: x in Claim(s, o, f, page).at <==> x in s.at || x == o
  {
  }

  lemma AddProcClosed(s: Space, p: nat, dir: nat, stack: nat, page: Page)
    requires Closed(s) && dir < |s.mem| && stack < |s.mem|
    ensures Closed(AddProc(s, p, dir, stack, page))
  {
  }

  lemma AddProcGood(s: Space, p: nat, dir: nat, stack: nat, page: Page)
    requires Good(s) && Dir(p) !in s.at && Unused(s, dir) && Unused(s, stack) && dir != stack
    requires forall i :: 0 <= i < ENTRIES ==> page[i] == if i == KERNEL_PDE then s.kernel else 0
    ensures var s' := AddProc(s, p, dir, stack, page); Good(s') && OnlyTouches(s, s', p)
  {
    AddProcPaired(s, p, dir, stack, page);
    var s' := AddProc(s, p, dir, stack, page);
    forall q: nat, k: nat | Dir(q) in s'.at && k < ENTRIES
      ensures s'.mem[s'.at[Dir(q)]][k] == DirWord(s', q, k)
    {
      if q != p { assert s.mem[s.at[Dir(q)]][k] == DirWord(s, q, k); }
    }
    forall q: nat, k: nat, l: nat | Table(q, k) in s'.at && l < ENTRIES
      ensures s'.mem[s'.at[Table(q, k)]][l] == Link(s'.at, User(q, k, l))
    {
      assert s.mem[s.at[Table(q, k)]][l] == Link(s.at, User(q, k, l));
    }
  }

  ghost function RemoveProc(s: Space, p: nat): Space
    requires Good(s) && Dir(p) in s.at
  {
    Release(Release(s, Dir(p)), Stack(p))
  }

  /** Releasing a frame leaves every other use where it is. */
  lemma ReleaseTouches(s: Space, o: Use)
    requires Paired(s) && o in s.at && !o.Other?
    ensures Paired(Release(s, o)) && OnlyTouches(s, Release(s, o), o.pid)
  {
    ReleasePaired(s, o);
  }

  lemma RemoveProcPaired(s: Space, p: nat)
    requires Good(s) && Dir(p) in s.at
    ensures var s' := RemoveProc(s, p);
            && Paired(s') && OnlyTouches(s, s', p) && s'.mem == s.mem
            && s'.at == s.at - {Dir(p)} - {Stack(p)} && s'.kernel == s.kernel
  {
    ReleaseTouches(s, Dir(p));
    var mid := Release(s, Dir(p));
    ReleaseTouches(mid, Stack(p));
    TouchesTransitive(s, mid, RemoveProc(s, p), p);
  }

  /** With fewer directories and otherwise the same uses and words, all words
      are still what they should be. */
  ghost predicate FewerDirs(s: Space, s': Space) {
    && s'.mem == s.mem && s'.kernel == s.kernel
    && (forall o :: o in s'.at ==> o in s.at && s'.at[o] == s.at[o])
    && (forall o :: o in s.at && (o.Table? || o.User?) ==> o in s'.at)
  }

  lemma FewerDirsMirror(s: Space, s': Space)
    requires Good(s) && Paired(s') && FewerDirs(s, s')
    ensures DirsMirror(s')
  {
    hide TablesMirror, Closed;
    forall q: nat, k: nat | Dir(q) in s'.at && k < ENTRIES
      ensures s'.mem[s'.at[Dir(q)]][k] == DirWord(s', q, k)
    {
      assert s.mem[s.at[Dir(q)]][k] == DirWord(s, q, k);
    }
  }

  lemma SameTablesMirror(s: Space, s': Space)
    requires Good(s) && Paired(s') && FewerDirs(s, s')
    ensures TablesMirror(s')
  {
    hide DirsMirror, Closed;
    forall q: nat, k: nat, l: nat | Table(q, k) in s'.at && l < ENTRIES
      ensures s'.mem[s'.at[Table(q, k)]][l] == Link(s'.at, User(q, k, l))
    {
      assert s.mem[s.at[Table(q, k)]][l] == Link(s.at, User(q, k, l));
    }
  }

  lemma RemoveProcGood(s: Space, p: nat)
    requires Good(s) && Dir(p) in s.at && forall i: nat :: Table(p, i) !in s.at
    ensures var s' := RemoveProc(s, p); Good(s') && OnlyTouches(s, s', p) && (forall o :: Belongs(o, p) ==> o !in s'.at)
  {
    hide OnlyTouches, RemoveProc, Paired;
    GoodIsPaired(s);
    RemoveProcPaired(s, p);
    RemoveProcClosed(s, p);
    FewerDirsMirror(s, RemoveProc(s, p));
    SameTablesMirror(s, RemoveProc(s, p));
  }

  lemma RemoveProcClosed(s: Space, p: nat)
    requires Closed(s) && Dir(p) in s.at && Stack(p) in s.at && forall i: nat :: Table(p, i) !in s.at
    ensures var at := s.at - {Dir(p)} - {Stack(p)};
            Closed(s.(at := at)) && forall o :: Belongs(o, p) ==> o !in at
  {
    assert forall i: nat, j: nat :: User(p, i, j) !in s.at;
  }

  // ----- what the processor sees -----

  /** A directory entry is present exactly when there is a table, and names it. */
  lemma DirEntry(s: Space, p: nat, i: nat)
    requires Good(s) && Dir(p) in s.at && i < USER_PDES
    ensures var pde := s.mem[s.at[Dir(p)]][i];
            && (PtePresent(pde) <==> Table(p, i) in s.at) && (Permits(pde) <==> Table(p, i) in s.at)
            && (Table(p, i) in s.at ==> PteFrame(pde) == s.at[Table(p, i)])
  {
    hide TablesMirror, Closed;
    if Table(p, i) in s.at { PteRoundTrip(s.at[Table(p, i)]); }
  }

  lemma TableEntry(s: Space, p: nat, i: nat, j: nat)
    requires Good(s) && Table(p, i) in s.at && j < ENTRIES
    ensures var pte := s.mem[s.at[Table(p, i)]][j];
            && (PtePresent(pte) <==> User(p, i, j) in s.at) && (Permits(pte) <==> User(p, i, j) in s.at)
            && (User(p, i, j) in s.at ==> PteFrame(pte) == s.at[User(p, i, j)])
  {
    hide DirsMirror, Closed;
    if User(p, i, j) in s.at { PteRoundTrip(s.at[User(p, i, j)]); }
  }

  /** The frame the processor reaches from a process's directory is the one in
      its address space, and there is a fault exactly where there is none. */
  lemma WalkIs(s: Space, p: nat, v: nat)
    requires Good(s) && Dir(p) in s.at && v < USER_PAGES
    ensures var o := User(p, v / 1024, v % 1024);
            Walk(s.mem, s.at[Dir(p)], v) == if o in s.at then Some(s.at[o]) else None
  {
    var i, j := v / 1024, v % 1024;
    DirEntry(s, p, i);
    if Table(p, i) in s.at {
      Located(s, Table(p, i));
      TableEntry(s, p, i, j);
    }
    hide DirsMirror, TablesMirror, Paired, Permits, PteFrame, PtePresent;
    GoodIsPaired(s);
    Located(s, Dir(p));
  }

  /** map_range and copy_segment do not look whether there was a frame. If not, alloc_frame
      returns 0, and the process gets the kernel's frame 0 as its page. */
  lemma FrameZeroMapped(s: Space, p: nat, i: nat, j: nat)
    requires Good(s) && Table(p, i) in s.at && j < ENTRIES && User(p, i, j) !in s.at
    requires 0 in s.owner && s.owner[0].Other?
    ensures var s' := Poke(s, s.at[Table(p, i)], j, PteMake(0));
            !Good(s') && s'.at[Dir(p)] < |s'.mem| && Walk(s'.mem, s'.at[Dir(p)], i * 1024 + j) == Some(0)
  {
    var t := s.at[Table(p, i)];
    var s' := Poke(s, t, j, PteMake(0));
    PteRoundTrip(0);
    UnderDir(s, p, i);
    DirEntry(s, p, i);
    Distinct(s, Table(p, i), Dir(p));
    assert (i * 1024 + j) / 1024 == i && (i * 1024 + j) % 1024 == j;
    assert s'.mem[s'.at[Table(p, i)]][j] != Link(s'.at, User(p, i, j));
  }

  /** After a fork: c has p's pages, each in a frame that was unused before and
      with the same words, and nothing that is not c's has changed. */
  ghost predicate Forked(s: Space, s': Space, p: nat, c: nat) {
    && Good(s) && Good(s') && Dir(p) in s.at && Dir(c) in s'.at && p != c
    && (forall o :: Belongs(o, c) ==> o !in s.at)
    && OnlyTouches(s, s', c)
    && (forall i: nat, j: nat :: User(c, i, j) in s'.at <==> User(p, i, j) in s.at)
    && (forall i: nat, j: nat :: User(p, i, j) in s.at ==> s'.mem[s'.at[User(c, i, j)]] == s.mem[s.at[User(p, i, j)]])
  }

  /** Frames c has got were unused before. */
  lemma FreshFrames(s: Space, s': Space, c: nat, o: Use)
    requires Paired(s) && Paired(s') && OnlyTouches(s, s', c)
    requires forall x :: Belongs(x, c) ==> x !in s.at
    requires o in s'.at && Belongs(o, c)
    ensures s'.at[o] !in s.owner
  {
    var f := s'.at[o];
    assert forall x :: x in s.at && !Belongs(x, c) ==> x in s'.at && s'.at[x] == s.at[x];
  }

  lemma ForkedPage(s: Space, s': Space, p: nat, c: nat, i: nat, j: nat)
    requires Forked(s, s', p, c)
    ensures var mine, other := User(p, i, j), User(c, i, j);
            && (mine in s'.at <==> mine in s.at) && (other in s'.at <==> mine in s.at)
            && (mine in s.at ==>
                  && s'.at[mine] == s.at[mine] < |s.mem| && s'.at[other] < |s'.mem| && s'.at[mine] < |s'.mem|
                  && s'.mem[s'.at[other]] == s.mem[s.at[mine]] && s'.mem[s.at[mine]] == s.mem[s.at[mine]]
                  && s'.at[other] !in s.owner && s.at[mine] in s.owner)
  {
    if User(p, i, j) in s.at {
      FreshFrames(s, s', c, User(c, i, j));
    }
  }

  /** The kernel is mapped for every process alike, and so for the child as for the parent:
      its entry is there in every directory, and nothing else above the user's part. */
  lemma KernelShared(s: Space, p: nat, q: nat, i: nat)
    requires Good(s) && Dir(p) in s.at && Dir(q) in s.at && USER_PDES <= i < ENTRIES
    ensures s.mem[s.at[Dir(p)]][i] == s.mem[s.at[Dir(q)]][i]
    ensures s.mem[s.at[Dir(p)]][i] == if i == KERNEL_PDE then s.kernel else 0
  {
    hide TablesMirror, Closed;
    assert s.mem[s.at[Dir(p)]][i] == DirWord(s, p, i) && s.mem[s.at[Dir(q)]][i] == DirWord(s, q, i);
  }

  /** Isolation, as the processor sees it: at every user address the child sees
      the words the parent saw, or faults where the parent faulted; the parent
      still sees what it saw; and the child's frame is not one that any process,
      page table or the kernel had before. At the kernel's addresses the child's directory
      has what the parent's had. */
  lemma ForkIsolation(s: Space, s': Space, p: nat, c: nat, v: nat)
    requires Forked(s, s', p, c) && v < USER_PAGES
    ensures var before := Walk(s.mem, s.at[Dir(p)], v);
            var parent := Walk(s'.mem, s'.at[Dir(p)], v);
            var child := Walk(s'.mem, s'.at[Dir(c)], v);
            && parent == before
            && (child.Some? <==> before.Some?)
            && (before.Some? ==>
                  && before.value < |s.mem| && child.value < |s'.mem|
                  && s'.mem[child.value] == s.mem[before.value]
                  && before.value < |s'.mem| && s'.mem[before.value] == s.mem[before.value]
                  && child.value !in s.owner && before.value in s.owner)
    ensures forall i :: USER_PDES <= i < ENTRIES ==> s'.mem[s'.at[Dir(c)]][i] == s.mem[s.at[Dir(p)]][i]
  {
    forall i | USER_PDES <= i < ENTRIES ensures s'.mem[s'.at[Dir(c)]][i] == s.mem[s.at[Dir(p)]][i] {
      KernelShared(s', p, c, i);
      KernelShared(s, p, p, i);
    }
    WalkIs(s, p, v);
    WalkIs(s', p, v);
    WalkIs(s', c, v);
    ForkedPage(s, s', p, c, v / 1024, v % 1024);
  }

  /** Things done for c, one after another. */
  ghost predicate Living(run: seq<Space>, c: nat) {
    && |run| > 0 && (forall i :: 0 <= i < |run| ==> Paired(run[i]))
    && (forall i :: 0 <= i < |run| - 1 ==> OnlyTouches(run[i], run[i + 1], c))
  }

  lemma LivesOn(run: seq<Space>, c: nat, s: Space)
    requires Living(run, c) && Paired(s) && OnlyTouches(run[|run| - 1], s, c)
    ensures Living(run + [s], c) && run != [] && (run + [s])[|run|] == s && (run + [s])[0] == run[0]
  {
    hide Paired, OnlyTouches;
  }

  /** Conservation over a life: whatever is done for a process that did not exist
      at the start and does not at the end, in any number of steps none of which
      touches what is another's, the frames in use are the same again. */
  lemma {:induction false} LifeConserves(run: seq<Space>, c: nat)
    requires Living(run, c)
    requires forall o :: Belongs(o, c) ==> o !in run[0].at && o !in run[|run| - 1].at
    ensures run[|run| - 1].owner == run[0].owner && run[|run| - 1].at == run[0].at
    ensures forall f :: f in run[0].owner ==> f < |run[0].mem| && f < |run[|run| - 1].mem| &&
                                              run[|run| - 1].mem[f] == run[0].mem[f]
  {
    RunTouches(run, c, |run| - 1);
    SameUsers(run[0], run[|run| - 1], c);
    forall f | f in run[0].owner ensures run[|run| - 1].mem[f] == run[0].mem[f] {
      var o := run[0].owner[f];
      assert o in run[0].at && run[0].at[o] == f;
    }
  }

  lemma {:induction false} RunTouches(run: seq<Space>, c: nat, m: nat)
    requires Living(run, c) && m < |run|
    ensures OnlyTouches(run[0], run[m], c)
    decreases m
  {
    if m > 0 {
      RunTouches(run, c, m - 1);
      assert OnlyTouches(run[m - 1], run[m - 1 + 1], c);
      TouchesTransitive(run[0], run[m - 1], run[m], c);
    }
  }

  /** With the same use of frames, the same frames are in use. */
  lemma SameUsers(s: Space, s': Space, c: nat)
    requires Paired(s) && Paired(s') && OnlyTouches(s, s', c)
    requires forall o :: Belongs(o, c) ==> o !in s.at && o !in s'.at
    ensures s'.owner == s.owner && s'.at == s.at
  {
    assert forall o :: o in s.at <==> o in s'.at;
    forall f ensures f in s.owner <==> f in s'.owner {
      if f in s.owner { assert s'.at[s.owner[f]] == f; }
      if f in s'.owner { assert s.at[s'.owner[f]] == f; }
    }
  }
}
