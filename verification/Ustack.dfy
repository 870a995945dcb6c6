/** The first page of the stack of a program that execve starts: argc, argv and
    envv as ustack.c lays them out, and what the program finds there. */
module Ustack {
  import opened Blocks

  // The page is at USER_END - PAGE_SIZE, 0xBFFFF000.

  type Bytes = seq<Byte>

  /** A string as the program gives it, without the zero at its end. */
  ghost predicate IsString(s: Bytes) {
    forall i :: 0 <= i < |s| ==> s[i] != 0
  }

  /** The strings one after the other, each with its zero. */
  function Flat(ss: seq<Bytes>): Bytes {
    if ss == [] then [] else ss[0] + [0] + Flat(ss[1..])
  }

  lemma {:induction false} FlatAppend(a: seq<Bytes>, b: seq<Bytes>)
    ensures Flat(a + b) == Flat(a) + Flat(b)
    decreases |a|
  {
    if a == [] {
      assert a + b == b;
    } else {
      assert (a + b)[1..] == a[1..] + b && (a + b)[0] == a[0];
      FlatAppend(a[1..], b);
      assert a[0] + [0] + (Flat(a[1..]) + Flat(b)) == a[0] + [0] + Flat(a[1..]) + Flat(b);
    }
  }

  /** String k begins after the strings before it. */
  lemma FlatAt(ss: seq<Bytes>, k: nat)
    requires k < |ss|
    ensures Flat(ss) == Flat(ss[..k]) + ((ss[k] + [0]) + Flat(ss[k + 1..]))
  {
    hide Flat;
    var before, after := ss[..k], [ss[k]] + ss[k + 1..];
    assert before + after == ss;
    FlatCons(ss[k], ss[k + 1..]);
    FlatAppend(before, after);
  }

  lemma FlatNext(ss: seq<Bytes>, k: nat)
    requires k < |ss|
    ensures Flat(ss[..k + 1]) == Flat(ss[..k]) + (ss[k] + [0])
  {
    FlatAt(ss[..k + 1], k);
    assert ss[..k + 1][..k] == ss[..k] && ss[..k + 1][k + 1..] == [];
    assert ss[k] + [0] + [] == ss[k] + [0];
  }

  lemma FlatCons(s: Bytes, ss: seq<Bytes>)
    ensures Flat([s] + ss) == s + [0] + Flat(ss)
  {
    assert ([s] + ss)[1..] == ss;
  }

  /** round_down to 4 */
  function Down4(p: int): int { p - p % 4 }

  /** Where the table of pointers to ss is, when the strings are put below sp. */
  function TableAt(sp: int, ss: seq<Bytes>): int {
    Down4(sp - |Flat(ss)|) - 4 * (|ss| + 1)
  }

  /** Where the stack ends: below argc, argp and envp. */
  function StackEnd(argv: seq<Bytes>, envv: seq<Bytes>): int {
    TableAt(TableAt(4096, envv), argv) - 12
  }

  /** Each table is as close below its strings as a multiple of four can be, and the three
      words are just below the tables. */
  lemma EndIs(argv: seq<Bytes>, envv: seq<Bytes>, argp: int, envp: int)
    requires envp % 4 == 0 && 4096 - |Flat(envv)| - 4 < envp + 4 * |envv| + 4 <= 4096 - |Flat(envv)|
    requires argp % 4 == 0 && envp - |Flat(argv)| - 4 < argp + 4 * |argv| + 4 <= envp - |Flat(argv)|
    ensures StackEnd(argv, envv) == argp - 12
  {
    TableClose(4096, envv, envp);
    TableClose(envp, argv, argp);
    hide TableAt;
  }

  /** The table of ss is as close below its strings as a multiple of four can be. */
  lemma TableClose(sp: int, ss: seq<Bytes>, p: int)
    ensures p % 4 == 0 && sp - |Flat(ss)| - 4 < p + 4 * |ss| + 4 <= sp - |Flat(ss)| <==> TableAt(sp, ss) == p
  {
    hide Flat;
    var low, n := sp - |Flat(ss)|, 4 * (|ss| + 1);
    Rounded(low, p + n);
    assert (p + n) % 4 == 0 <==> p % 4 == 0;
    hide Down4;
  }

  lemma Rounded(a: int, x: int)
    ensures x % 4 == 0 && a - 4 < x <= a <==> Down4(a) == x
  {
  }

  // ----- what the program finds -----

  /** The bytes up to the next zero. */
  function ReadString(mem: Bytes, a: nat): Bytes
    decreases |mem| - a
  {
    if a >= |mem| || mem[a] == 0 then [] else [mem[a]] + ReadString(mem, a + 1)
  }

  /** The strings that a table of addresses points to, up to its NULL. */
  function ReadVector(mem: Bytes, p: nat): seq<Bytes>
    decreases |mem| - p
  {
    if p + 4 > |mem| || Word(mem, p) < 0xBFFF_F000 then [] else
    [ReadString(mem, Word(mem, p) - 0xBFFF_F000)] + ReadVector(mem, p + 4)
  }

  ghost predicate StringAt(mem: Bytes, a: nat, s: Bytes) {
    a + |s| < |mem| && mem[a..a + |s|] == s && mem[a + |s|] == 0
  }

  /** There is a table for ss at p, and everything it leads to is above. */
  ghost predicate VectorAt(mem: Bytes, p: nat, ss: seq<Bytes>) {
    && p + 4 * |ss| + 4 <= |mem| && Word(mem, p + 4 * |ss|) == 0
    && forall k: nat :: k < |ss| ==>
         Word(mem, p + 4 * k) >= 0xBFFF_F000 + p && StringAt(mem, Word(mem, p + 4 * k) - 0xBFFF_F000, ss[k])
  }

  lemma {:induction false} StringReads(mem: Bytes, a: nat, s: Bytes)
    requires StringAt(mem, a, s) && IsString(s)
    ensures ReadString(mem, a) == s
    decreases |s|
  {
    if s != [] {
      assert mem[a] == mem[a..a + |s|][0] == s[0];
      assert mem[a + 1..a + |s|] == mem[a..a + |s|][1..] == s[1..];
      StringReads(mem, a + 1, s[1..]);
      assert s == [s[0]] + s[1..];
    }
  }

  lemma {:induction false} VectorReads(mem: Bytes, p: nat, ss: seq<Bytes>, k: nat)
    requires VectorAt(mem, p, ss) && k <= |ss| && forall i :: 0 <= i < |ss| ==> IsString(ss[i])
    ensures ReadVector(mem, p + 4 * k) == ss[k..]
    decreases |ss| - k
  {
    hide Word, IsString, StringAt, ReadString, VectorAt, ReadVector;
    VectorEntry(mem, p, ss, k);
    if k < |ss| {
      VectorReads(mem, p, ss, k + 1);
      StringReads(mem, Word(mem, p + 4 * k) - 0xBFFF_F000, ss[k]);
      ReadVectorIs(mem, p + 4 * k);
      assert p + 4 * (k + 1) == p + 4 * k + 4;
      assert ss[k..] == [ss[k]] + ss[k + 1..];
    } else {
      ReadVectorIs(mem, p + 4 * k);
    }
  }

  lemma VectorEntry(mem: Bytes, p: nat, ss: seq<Bytes>, k: nat)
    requires VectorAt(mem, p, ss) && k <= |ss|
    ensures p + 4 * k + 4 <= |mem|
    ensures if k == |ss| then Word(mem, p + 4 * k) == 0
            else Word(mem, p + 4 * k) >= 0xBFFF_F000 + p && StringAt(mem, Word(mem, p + 4 * k) - 0xBFFF_F000, ss[k])
  {
  }

  lemma ReadVectorIs(mem: Bytes, p: nat)
    requires p + 4 <= |mem|
    ensures Word(mem, p) < 0xBFFF_F000 ==> ReadVector(mem, p) == []
    ensures Word(mem, p) >= 0xBFFF_F000 ==>
              ReadVector(mem, p) == [ReadString(mem, Word(mem, p) - 0xBFFF_F000)] + ReadVector(mem, p + 4)
  {
    hide Word;
  }

  /** Only what is above the table matters. */
  lemma VectorKept(mem: Bytes, mem': Bytes, p: nat, ss: seq<Bytes>)
    requires VectorAt(mem, p, ss) && |mem'| == |mem| && mem'[p..] == mem[p..]
    ensures VectorAt(mem', p, ss)
  {
    forall i: nat | p <= i < |mem| ensures mem'[i] == mem[i] { assert mem'[p..][i - p] == mem[p..][i - p]; }
    forall k: nat | k < |ss| ensures StringAt(mem', Word(mem, p + 4 * k) - 0xBFFF_F000, ss[k]) {
      var a := Word(mem, p + 4 * k) - 0xBFFF_F000;
      assert mem'[a..a + |ss[k]|] == mem[a..a + |ss[k]|];
    }
  }

  /** The strings are at a, one after the other, and the first k addresses of the
      table at p are theirs. */
  ghost predicate Filled(mem: Bytes, p: nat, a: nat, ss: seq<Bytes>, k: nat) {
    && p + 4 * |ss| + 4 <= a && a + |Flat(ss)| <= |mem| <= 4096 && k <= |ss|
    && mem[a..a + |Flat(ss)|] == Flat(ss)
    && forall i: nat :: i < k ==> Word(mem, p + 4 * i) == 0xBFFF_F000 + a + |Flat(ss[..i])|
  }

  lemma StringInFlat(mem: Bytes, a: nat, ss: seq<Bytes>, k: nat)
    requires a + |Flat(ss)| <= |mem| && mem[a..a + |Flat(ss)|] == Flat(ss) && k < |ss|
    ensures StringAt(mem, a + |Flat(ss[..k])|, ss[k]) && |Flat(ss[..k + 1])| == |Flat(ss[..k])| + |ss[k]| + 1
    ensures |Flat(ss[..k + 1])| <= |Flat(ss)|
  {
    hide Flat;
    FlatAt(ss, k);
    FlatNext(ss, k);
    var f, b := Flat(ss), |Flat(ss[..k])|;
    Middle(Flat(ss[..k]), ss[k] + [0], Flat(ss[k + 1..]));
    assert (ss[k] + [0])[..|ss[k]|] == ss[k];
    Part(mem, a, f, b, |ss[k]| + 1);
    assert mem[a + b..a + b + |ss[k]|] == mem[a + b..a + b + |ss[k]| + 1][..|ss[k]|];
    assert mem[a + b + |ss[k]|] == mem[a + b..a + b + |ss[k]| + 1][|ss[k]|];
  }

  lemma Middle(x: Bytes, y: Bytes, z: Bytes)
    ensures (x + (y + z))[|x|..|x| + |y|] == y
  {
  }

  lemma Part(mem: Bytes, a: nat, f: Bytes, b: nat, n: nat)
    requires a + |f| <= |mem| && mem[a..a + |f|] == f && b + n <= |f|
    ensures mem[a + b..a + b + n] == f[b..b + n]
  {
    forall j: nat | a + b <= j < a + b + n ensures mem[j] == f[j - a] {
      assert mem[a..a + |f|][j - a] == f[j - a];
    }
  }

  lemma FilledIsVector(mem: Bytes, p: nat, a: nat, ss: seq<Bytes>)
    requires Filled(mem, p, a, ss, |ss|) && Word(mem, p + 4 * |ss|) == 0
    ensures VectorAt(mem, p, ss)
  {
    forall k: nat | k < |ss|
      ensures Word(mem, p + 4 * k) >= 0xBFFF_F000 + p && StringAt(mem, Word(mem, p + 4 * k) - 0xBFFF_F000, ss[k])
    {
      StringInFlat(mem, a, ss, k);
    }
  }

  /** Where the strings of argv and envv, the two tables and the three words are:
      one after the other, with no overlap, up to the end of the page. */
  ghost predicate LaidOut(mem: Bytes, sp: nat, argv: seq<Bytes>, envv: seq<Bytes>) {
    var envp, argp := TableAt(4096, envv), TableAt(TableAt(4096, envv), argv);
    var envs, args := 4096 - |Flat(envv)|, envp - |Flat(argv)|;
    && |mem| == 4096 && sp % 4 == 0 && sp + 12 == argp
    && args - 4 < argp + 4 * |argv| + 4 <= args && envs - 4 < envp + 4 * |envv| + 4 <= envs
    && Word(mem, sp) == |argv| && Word(mem, sp + 4) == 0xBFFF_F000 + argp && Word(mem, sp + 8) == 0xBFFF_F000 + envp
    && mem[args..envp] == Flat(argv) && mem[envs..] == Flat(envv)
    && VectorAt(mem, argp, argv) && VectorAt(mem, envp, envv)
  }

  /** Following the three words gives back argv and envv. */
  lemma Recovered(mem: Bytes, sp: nat, argv: seq<Bytes>, envv: seq<Bytes>)
    requires LaidOut(mem, sp, argv, envv)
    requires (forall i :: 0 <= i < |argv| ==> IsString(argv[i])) && forall i :: 0 <= i < |envv| ==> IsString(envv[i])
    ensures Word(mem, sp + 4) >= 0xBFFF_F000 && Word(mem, sp + 8) >= 0xBFFF_F000 && Word(mem, sp) == |argv|
    ensures ReadVector(mem, Word(mem, sp + 4) - 0xBFFF_F000) == argv
    ensures ReadVector(mem, Word(mem, sp + 8) - 0xBFFF_F000) == envv
  {
    hide VectorAt, Word, Flat, ReadVector;
    VectorReads(mem, Word(mem, sp + 4) - 0xBFFF_F000, argv, 0);
    VectorReads(mem, Word(mem, sp + 8) - 0xBFFF_F000, envv, 0);
  }

  class Stack {
    const page: array<Byte>
    var sp: int       // the offset in the page, negative where it would be below
    var argc: int
    var argp: int
    var envc: int
    var envp: int

    ghost predicate Shape()
      reads this
    {
      page.Length == 4096 && sp <= 4096
    }

    /** ustack_init */
    constructor (newPage: array<Byte>)
      requires newPage.Length == 4096
      ensures Shape() && page == newPage && sp == 4096
    {
      page, sp := newPage, 4096;
      argc, argp, envc, envp := 0, 0, 0, 0;
    }

    /** ustack_push_string; -13 is EFAULT. */
    method PushString(s: Bytes) returns (error: int)
      requires Shape() && sp >= 0
      modifies `sp, page
      ensures Shape() && sp == old(sp) - |s| - 1 && error == if sp < 0 then -13 else 0
      ensures error == 0 ==> page[sp..old(sp)] == s + [0] && page[old(sp)..] == old(page[sp..])
    {
      sp := sp - (|s| + 1);
      if sp < 0 {
        return -13;
      }
      ghost var before, top := page[..], sp + |s| + 1;
      forall i | 0 <= i < |s| {
        page[sp + i] := s[i];
      }
      page[sp + |s|] := 0;
      assert page[top..] == before[top..];
      error := 0;
    }

    /** ustack_push_vector: the strings from the last to the first, or EFAULT. */
    method PushVector(vector: seq<Bytes>) returns (count: int)
      requires Shape() && sp >= 0
      modifies `sp, page
      ensures Shape() && (count == -13 <==> old(sp) < |Flat(vector)|)
      ensures count != -13 ==>
              && count == |vector| && sp == old(sp) - |Flat(vector)|
              && page[sp..old(sp)] == Flat(vector) && page[old(sp)..] == old(page[sp..])
    {
      count := 0;
      var i := |vector| - 1;
      ghost var top, before := sp, page[..];
      assert vector[|vector|..] == [];
      while i >= 0
        invariant -1 <= i < |vector| && Shape() && 0 <= sp <= top && count == |vector| - 1 - i
        invariant sp == top - |Flat(vector[i + 1..])| && page[sp..top] == Flat(vector[i + 1..])
        invariant page[top..] == before[top..]
      {
        ghost var sp1, mem1 := sp, page[..];
        var error := PushString(vector[i]);
        FlatCons(vector[i], vector[i + 1..]);
        assert vector[i..] == [vector[i]] + vector[i + 1..];
        FlatAt(vector, i);
        if error != 0 {
          return -13;
        }
        assert page[sp..top] == page[sp..sp1] + page[sp1..top];
        assert page[sp1..top] == page[sp1..][..top - sp1] == mem1[sp1..top];
        assert page[top..] == page[sp1..][top - sp1..] == mem1[top..];
        count := count + 1;
        i := i - 1;
      }
      assert vector[0..] == vector;
    }

    /** strlen of a string in the page. */
    method Strlen(a: nat, ghost s: Bytes) returns (n: nat)
      requires Shape() && StringAt(page[..], a, s) && IsString(s)
      ensures n == |s|
    {
      n := 0;
      assert forall i :: 0 <= i < |s| ==> page[..][a..a + |s|][i] == s[i];
      while page[a + n] != 0
        invariant n <= |s|
        invariant forall i :: 0 <= i < |s| ==> page[a + i] == s[i] && page[a + i] != 0
        decreases |s| - n
      {
        n := n + 1;
      }
    }

    /** *lp = v */
    method StoreWord(p: nat, v: nat)
      requires Shape() && p + 4 <= 4096 && v < 0x1_0000_0000
      modifies page
      ensures Word(page[..], p) == v && page[..p] == old(page[..p]) && page[p + 4..] == old(page[p + 4..])
    {
      var b := WordBytes(v);
      FourBytes(v);
      page[p], page[p + 1], page[p + 2], page[p + 3] := b[0], b[1], b[2], b[3];
    }

    /** The strings of a vector and a table of where they are: what
        ustack_push_argv and ustack_push_envv have in common. */
    method PushTable(vector: seq<Bytes>) returns (error: int, count: int, table: int)
      requires Shape() && sp >= 0 && forall i :: 0 <= i < |vector| ==> IsString(vector[i])
      modifies `sp, page
      ensures Shape() && error == (if TableAt(old(sp), vector) >= 0 then 0 else -13)
      ensures error == 0 ==>
              && count == |vector| && table == sp == TableAt(old(sp), vector) &&
                   sp + 4 * |vector| + 4 <= old(sp) - |Flat(vector)|
              && page[old(sp) - |Flat(vector)|..old(sp)] == Flat(vector)
              && page[old(sp)..] == old(page[sp..]) && VectorAt(page[..], sp, vector)
    {
      hide Flat, VectorAt, Word;
      ghost var top, before := sp, page[..];
      table := 0;
      count := PushVector(vector);
      if count < 0 {
        return -13, count, table;
      }
      var args := sp;
      ghost var mem := page[..];
      table := Down4(sp) - 4 * (count + 1);
      sp := table;
      if sp < 0 {
        return -13, count, table;
      }
      assert mem[args..args + |Flat(vector)|] == Flat(vector);
      FillTable(table, args, count, vector);
      assert page[args..top] == page[args..][..top - args] && mem[args..top] == mem[args..][..top - args];
      assert page[top..] == page[args..][top - args..] && mem[top..] == mem[args..][top - args..];
      error := 0;
    }

    /** Their loop, and the NULL. */
    method FillTable(table: nat, strings: nat, count: nat, ghost vector: seq<Bytes>)
      requires Shape() && count == |vector| && table + 4 * count + 4 <= strings && strings + |Flat(vector)| <= 4096
      requires page[strings..strings + |Flat(vector)|] == Flat(vector) && forall i :: 0 <= i < |vector| ==>
                IsString(vector[i])
      modifies page
      ensures page[strings..] == old(page[strings..]) && VectorAt(page[..], table, vector)
    {
      hide Flat, VectorAt, Word;
      ghost var mem := page[..];
      var lp, i, args := table, 0, strings;
      FlatNothing(vector);
      assert mem[strings..strings + |Flat(vector)|] == Flat(vector);
      while i < count
        invariant 0 <= i <= count && lp == table + 4 * i && args == strings + |Flat(vector[..i])|
        invariant page[strings..] == mem[strings..] && Filled(page[..], table, strings, vector, i)
      {
        var n := FillNext(table, strings, vector, i, lp, args);
        StringInFlat(page[..], strings, vector, i);
        args := args + n + 1;
        lp, i := lp + 4, i + 1;
      }
      ghost var mem1 := page[..];
      StoreWord(lp, 0);
      FilledKept(mem1, page[..], table, strings, vector, count);
      FilledIsVector(page[..], table, strings, vector);
      assert page[strings..] == page[lp + 4..][strings - lp - 4..] == mem1[lp +
          4..][strings - lp - 4..] == mem1[strings..];
    }

    /** One turn of its loop. */
    method FillNext(ghost table: nat, ghost strings: nat, ghost vector: seq<Bytes>, ghost i: nat, lp: nat,
        args: nat) returns (n: nat)
      requires Shape() && Filled(page[..], table, strings, vector, i) && i < |vector|
      requires lp == table + 4 * i && args == strings + |Flat(vector[..i])| && IsString(vector[i])
      modifies page
      ensures Filled(page[..], table, strings, vector, i + 1) && page[strings..] == old(page[strings..])
      ensures n == |vector[i]|
    {
      hide Flat, Word;
      ghost var mem := page[..];
      StringInFlat(mem, strings, vector, i);
      StoreWord(lp, 0xBFFF_F000 + args);
      assert page[strings..] == page[lp + 4..][strings - lp - 4..] == mem[lp +
          4..][strings - lp - 4..] == mem[strings..];
      FilledKept(mem, page[..], table, strings, vector, i);
      StringInFlat(page[..], strings, vector, i);
      n := Strlen(args, vector[i]);
    }

    /** ustack_push_argv */
    method PushArgv(argv: seq<Bytes>) returns (error: int)
      requires Shape() && sp >= 0 && forall i :: 0 <= i < |argv| ==> IsString(argv[i])
      modifies `sp, page, `argc, `argp
      ensures Shape() && error == (if TableAt(old(sp), argv) >= 0 then 0 else -13)
      ensures error == 0 ==>
              && argc == |argv| && argp == sp == TableAt(old(sp), argv) && sp + 4 * |argv| + 4 <= old(sp) - |Flat(argv)|
              && page[old(sp) - |Flat(argv)|..old(sp)] == Flat(argv)
              && page[old(sp)..] == old(page[sp..]) && VectorAt(page[..], sp, argv)
    {
      var count, table;
      error, count, table := PushTable(argv);
      argp := table;
      if error == 0 {
        argc := count;
      }
    }

    /** ustack_push_envv */
    method PushEnvv(envv: seq<Bytes>) returns (error: int)
      requires Shape() && sp >= 0 && forall i :: 0 <= i < |envv| ==> IsString(envv[i])
      modifies `sp, page, `envc, `envp
      ensures Shape() && error == (if TableAt(old(sp), envv) >= 0 then 0 else -13)
      ensures error == 0 ==>
              && envc == |envv| && envp == sp == TableAt(old(sp), envv) && sp + 4 * |envv| + 4 <= old(sp) - |Flat(envv)|
              && page[old(sp) - |Flat(envv)|..old(sp)] == Flat(envv)
              && page[old(sp)..] == old(page[sp..]) && VectorAt(page[..], sp, envv)
    {
      var count, table;
      error, count, table := PushTable(envv);
      envp := table;
      if error == 0 {
        envc := count;
      }
    }

    /** ustack_build on a new stack succeeds if and only if everything fits in the
        page, and then it is laid out as it should be. */
    method Build(argv: seq<Bytes>, envv: seq<Bytes>) returns (error: int)
      requires Shape() && sp == 4096
      requires (forall i :: 0 <= i < |argv| ==> IsString(argv[i])) && forall i :: 0 <= i < |envv| ==> IsString(envv[i])
      modifies this, page
      ensures Shape() && error == (if StackEnd(argv, envv) >= 0 then 0 else -13)
      ensures error == 0 ==> sp == StackEnd(argv, envv) && LaidOut(page[..], sp, argv, envv)
    {
      hide Flat, VectorAt, Word, TableAt;
      EndIsLowest(argv, envv);
      error := PushEnvv(envv);
      if error != 0 {
        return;
      }
      ghost var mem0 := page[..];
      error := PushArgv(argv);
      if error != 0 {
        return;
      }
      ghost var mem1 := page[..];
      TopSame(mem0, mem1, envp, envp, 4096);
      VectorKept(mem0, mem1, envp, envv);
      TopSame(mem0, mem1, envp, 4096 - |Flat(envv)|, 4096);
      sp := sp - 12;
      if sp < 0 {
        return -13;
      }
      ThreeWords(argv, envv);
    }

    /** *lp++ = argc and so on. */
    method ThreeWords(ghost argv: seq<Bytes>, ghost envv: seq<Bytes>)
      requires Shape() && sp >= 0 && argc == |argv| && sp == StackEnd(argv, envv) && argp == sp + 12
      requires envp == TableAt(4096, envv)
      requires argp + 4 * |argv| + 4 <= envp - |Flat(argv)| && envp + 4 * |envv| + 4 <= 4096 - |Flat(envv)|
      requires page[envp - |Flat(argv)|..envp] == Flat(argv) && page[4096 - |Flat(envv)|..] == Flat(envv)
      requires VectorAt(page[..], argp, argv) && VectorAt(page[..], envp, envv)
      modifies page
      ensures LaidOut(page[..], sp, argv, envv)
    {
      hide Flat, VectorAt, TableAt, Word, LaidOut;
      ghost var mem := page[..];
      StackAligned(argv, envv);
      StoreThree(sp, argc, 0xBFFF_F000 + argp, 0xBFFF_F000 + envp);
      ThreeWordsLaid(mem, page[..], sp, argv, envv);
    }

    method StoreThree(p: nat, a: nat, b: nat, c: nat)
      requires Shape() && p + 12 <= 4096 && a < 0x1_0000_0000 && b < 0x1_0000_0000 && c < 0x1_0000_0000
      modifies page
      ensures Word(page[..], p) == a && Word(page[..], p + 4) == b && Word(page[..], p + 8) == c
      ensures page[p + 12..] == old(page[p + 12..])
    {
      hide Word;
      ghost var mem := page[..];
      StoreWord(p, a);
      ghost var mem1 := page[..];
      StoreWord(p + 4, b);
      ghost var mem2 := page[..];
      StoreWord(p + 8, c);
      ghost var mem3 := page[..];
      TopSame(mem, mem1, p + 4, p + 12, 4096);
      TopSame(mem1, mem2, p + 8, p + 12, 4096);
      WordSame(mem1, mem2, p + 4, p);
      WordSame(mem2, mem3, p + 8, p);
      WordSame(mem2, mem3, p + 8, p + 4);
    }
  }

  lemma EndIsLowest(argv: seq<Bytes>, envv: seq<Bytes>)
    ensures StackEnd(argv, envv) >= 0 ==> TableAt(TableAt(4096, envv), argv) >= 0
    ensures TableAt(TableAt(4096, envv), argv) >= 0 ==> TableAt(4096, envv) >= 0
  {
  }

  /** With the three words below what was there. */
  lemma ThreeWordsLaid(mem: Bytes, mem': Bytes, sp: nat, argv: seq<Bytes>, envv: seq<Bytes>)
    requires |mem| == |mem'| == 4096 && sp % 4 == 0 && sp + 12 <= 4096 && mem'[sp + 12..] == mem[sp + 12..]
    requires var envp, argp := TableAt(4096, envv), sp + 12;
             && argp == TableAt(envp, argv) && argp + 4 * |argv| + 4 <= envp - |Flat(argv)|
             && envp + 4 * |envv| + 4 <= 4096 - |Flat(envv)|
             && mem[envp - |Flat(argv)|..envp] == Flat(argv) && mem[4096 - |Flat(envv)|..] == Flat(envv)
             && VectorAt(mem, argp, argv) && VectorAt(mem, envp, envv)
             && Word(mem', sp) == |argv| && Word(mem', sp + 4) == 0xBFFF_F000 + argp
             && Word(mem', sp + 8) == 0xBFFF_F000 + envp
    ensures LaidOut(mem', sp, argv, envv)
  {
    var envp, argp := TableAt(4096, envv), sp + 12;
    TableClose(4096, envv, envp);
    TableClose(envp, argv, argp);
    hide Flat, VectorAt, TableAt, Word;
    TopSame(mem, mem', argp, envp - |Flat(argv)|, envp);
    EndSame(mem, mem', argp, 4096 - |Flat(envv)|);
    EndSame(mem, mem', argp, envp);
    VectorKept(mem, mem', argp, argv);
    VectorKept(mem, mem', envp, envv);
  }

  lemma EndSame(mem: Bytes, mem': Bytes, t: nat, x: nat)
    requires |mem'| == |mem| && t <= x <= |mem| && mem'[t..] == mem[t..]
    ensures mem'[x..] == mem[x..]
  {
    TopSame(mem, mem', t, x, |mem|);
    assert mem'[x..|mem|] == mem'[x..] && mem[x..|mem|] == mem[x..];
  }

  lemma StackAligned(argv: seq<Bytes>, envv: seq<Bytes>)
    ensures StackEnd(argv, envv) % 4 == 0
  {
  }

  lemma FlatNothing(ss: seq<Bytes>)
    ensures |Flat(ss[..0])| == 0
  {
  }

  lemma FilledKept(mem: Bytes, mem': Bytes, p: nat, a: nat, ss: seq<Bytes>, k: nat)
    requires Filled(mem, p, a, ss, k) && |mem'| == |mem| && mem'[..p + 4 * k] == mem[..p + 4 * k]
    requires mem'[p + 4 * k + 4..] == mem[p + 4 * k + 4..]
    ensures Filled(mem', p, a, ss, k)
  {
    hide Flat;
    TopSame(mem, mem', p + 4 * k + 4, a, a + |Flat(ss)|);
    forall i: nat | i < k ensures Word(mem', p + 4 * i) == Word(mem, p + 4 * i) {
      WordSame(mem, mem', p + 4 * k, p + 4 * i);
    }
  }

  lemma TopSame(mem: Bytes, mem': Bytes, t: nat, x: nat, y: nat)
    requires |mem'| == |mem| && t <= x <= y <= |mem| && mem'[t..] == mem[t..]
    ensures mem'[x..y] == mem[x..y]
  {
    forall i: nat | x <= i < y ensures mem'[i] == mem[i] { assert mem'[t..][i - t] == mem[t..][i - t]; }
  }

  lemma WordSame(mem: Bytes, mem': Bytes, t: nat, x: nat)
    requires |mem'| == |mem| && x + 4 <= t <= |mem| && mem'[..t] == mem[..t]
    ensures Word(mem', x) == Word(mem, x)
  {
    assert Word(mem, x) == Word(mem[..t], x) && Word(mem', x) == Word(mem'[..t], x);
  }
}
