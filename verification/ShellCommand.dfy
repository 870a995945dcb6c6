/** parsecmd as a whole: parse a NUL-terminated buffer, then terminate every
    word in place, so that each pointer into the buffer is a C string. */
module ShellCommand {
  import opened Options
  import opened ShellSyntax
  import opened ShellText
  import opened ShellTokens
  import opened ShellParser

  /** The positions nulterminate writes to. */
  ghost function Ends(cmd: Cmd<Slice>): set<nat> {
    match cmd
    case Exec(argv) => set w | w in argv :: w.eq
    case Redir(c, _, f) => Ends(c) + {f.eq}
    case Pipe(l, r) => Ends(l) + Ends(r)
    case List(l, r) => Ends(l) + Ends(r)
    case Back(c) => Ends(c)
  }

  /** b' is b with NUL at the given positions. */
  ghost predicate Cut(b: seq<char>, b': seq<char>, ends: set<nat>) {
    && |b'| == |b|
    && forall i :: 0 <= i < |b| ==> b'[i] == if i in ends then '\0' else b[i]
  }

  method NulTerminate(t: Tree, buf: array<char>)
    requires forall e :: e in Ends(View(t)) ==> e < buf.Length
    modifies buf
    ensures View(t) == old(View(t))
    ensures Cut(old(buf[..]), buf[..], Ends(View(t)))
    decreases t
  {
    ghost var cmd, b := View(t), buf[..];
    assert allocated(Nodes(t));
    match t {
      case ExecLeaf(node) =>
        var i := 0;
        while i < |node.argv|
          invariant 0 <= i <= |node.argv|
          invariant Cut(b, buf[..], set w | w in node.argv[..i] :: w.eq)
        {
          assert node.argv[i].eq in Ends(View(t));
          buf[node.argv[i].eq] := '\0';
          i := i + 1;
        }
        assert node.argv[..i] == node.argv;
      case RedirNode(c, _, f) =>
        assert cmd == Redir(View(c), t.mode, f) && Ends(cmd) == Ends(View(c)) + {f.eq};
        NulTerminate(c, buf);
        buf[f.eq] := '\0';
      case PipeNode(l, r) =>
        ghost var x, y := View(l), View(r);
        assert cmd == Pipe(x, y) && Ends(cmd) == Ends(x) + Ends(y);
        NulTerminate(l, buf);
        assert View(r) == y;
        NulTerminate(r, buf);
        assert View(l) == x;
      case ListNode(l, r) =>
        ghost var x, y := View(l), View(r);
        assert cmd == List(x, y) && Ends(cmd) == Ends(x) + Ends(y);
        NulTerminate(l, buf);
        assert View(r) == y;
        NulTerminate(r, buf);
        assert View(l) == x;
      case BackNode(c) =>
        assert cmd == Back(View(c)) && Ends(cmd) == Ends(View(c));
        NulTerminate(c, buf);
    }
    assert View(t) == cmd;
  }

  /** The C string at position i. */
  function CString(b: seq<char>, i: nat): string
    decreases |b| - i
  {
    if i < |b| && b[i] != '\0' then [b[i]] + CString(b, i + 1) else ""
  }

  lemma {:induction false} CStringIs(b: seq<char>, q: nat, eq: nat)
    requires q <= eq < |b| && b[eq] == '\0'
    requires forall k :: q <= k < eq ==> b[k] != '\0'
    ensures CString(b, q) == b[q..eq]
    decreases eq - q
  {
    if q < eq {
      CStringIs(b, q + 1, eq);
      assert b[q..eq] == [b[q]] + b[q + 1..eq];
    }
  }

  /** A command read through the C strings its pointers denote. */
  function CStrings(b: seq<char>): Slice -> string {
    (w: Slice) => CString(b, w.q)
  }

  lemma {:induction false} SameWords<W>(f: Slice -> W, g: Slice -> W, p: Slice -> bool, cmd: Cmd<Slice>)
    requires AllWords(p, cmd) && forall w :: p(w) ==> f(w) == g(w)
    ensures MapCmd(f, cmd) == MapCmd(g, cmd)
    decreases cmd
  {
    match cmd
    case Exec(argv) => assert MapWords(f, argv) == MapWords(g, argv);
    case Redir(c, _, _) => SameWords(f, g, p, c);
    case Pipe(l, r) => SameWords(f, g, p, l); SameWords(f, g, p, r);
    case List(l, r) => SameWords(f, g, p, l); SameWords(f, g, p, r);
    case Back(c) => SameWords(f, g, p, c);
  }

  lemma {:induction false} EndsDelimit(line: string, cmd: Cmd<Slice>)
    requires AllWords(w => Delimited(line, w), cmd)
    ensures forall e :: e in Ends(cmd) ==> e <= |line| && (e < |line| ==> !IsWordChar(line[e]))
    ensures forall w :: w in WordSet(cmd) ==> w.eq in Ends(cmd) && Delimited(line, w)
    decreases cmd
  {
    match cmd
    case Exec(argv) =>
    case Redir(c, _, _) => EndsDelimit(line, c);
    case Pipe(l, r) => EndsDelimit(line, l); EndsDelimit(line, r);
    case List(l, r) => EndsDelimit(line, l); EndsDelimit(line, r);
    case Back(c) => EndsDelimit(line, c);
  }

  ghost function WordSet(cmd: Cmd<Slice>): set<Slice> {
    match cmd
    case Exec(argv) => set w | w in argv
    case Redir(c, _, f) => WordSet(c) + {f}
    case Pipe(l, r) => WordSet(l) + WordSet(r)
    case List(l, r) => WordSet(l) + WordSet(r)
    case Back(c) => WordSet(c)
  }

  lemma {:induction false} InWordSet(cmd: Cmd<Slice>, s: set<Slice>)
    requires WordSet(cmd) <= s
    ensures AllWords(w => w in s, cmd) <== AllWords(w => true, cmd)
    decreases cmd
  {
    match cmd
    case Exec(argv) => assert forall i :: 0 <= i < |argv| ==> argv[i] in argv;
    case Redir(c, _, _) => InWordSet(c, s);
    case Pipe(l, r) => InWordSet(l, s); InWordSet(r, s);
    case List(l, r) => InWordSet(l, s); InWordSet(r, s);
    case Back(c) => InWordSet(c, s);
  }

  lemma {:induction false} Weaken(p: Slice -> bool, cmd: Cmd<Slice>)
    requires AllWords(p, cmd)
    ensures AllWords(w => true, cmd)
    decreases cmd
  {
    match cmd
    case Exec(argv) =>
    case Redir(c, _, _) => Weaken(p, c);
    case Pipe(l, r) => Weaken(p, l); Weaken(p, r);
    case List(l, r) => Weaken(p, l); Weaken(p, r);
    case Back(c) => Weaken(p, c);
  }

  /** Cutting a line at the ends of a command's words leaves every word whole
      and makes it a C string: no end lies inside any word. */
  lemma CutKeepsWords(line: string, b: seq<char>, b': seq<char>, cmd: Cmd<Slice>)
    requires |line| < |b| && b[|line|] == '\0' && b[..|line|] == line && '\0' !in line
    requires AllWords(w => Delimited(line, w), cmd) && Cut(b, b', Ends(cmd))
    ensures MapCmd(CStrings(b'), cmd) == MapCmd(TextIn(line), cmd)
  {
    EndsDelimit(line, cmd);
    forall w | w in WordSet(cmd) ensures CString(b', w.q) == SliceText(line, w) {
      forall k | w.q <= k < w.eq ensures b'[k] == line[k] && b'[k] != '\0' {
        assert IsWordChar(line[k]);
        assert b[k] == b[..|line|][k] == line[k] && line[k] in line;
      }
      CStringIs(b', w.q, w.eq);
      assert b'[w.q..w.eq] == line[w.q..w.eq];
    }
    Weaken(w => Delimited(line, w), cmd);
    InWordSet(cmd, WordSet(cmd));
    SameWords(CStrings(b'), TextIn(line), w => w in WordSet(cmd), cmd);
  }

  /** The line a buffer holds: everything before the first NUL. */
  function Line(b: seq<char>): string {
    CString(b, 0)
  }

  /** parsecmd: the result is the one command that the line spells, every word of it
      now a C string in the buffer, or None where an assertion stops the shell, because
      it spells none. Nothing else in the buffer changes. */
  method ParseCommand(buf: array<char>) returns (r: Option<Tree>)
    requires '\0' in buf[..]
    modifies buf
    ensures r.Some? ==> forall cmd ::
              Spells(Line(old(buf[..])), cmd) <==> cmd == MapCmd(CStrings(buf[..]), View(r.value))
    ensures r.None? ==> buf[..] == old(buf[..]) && forall cmd :: !Spells(Line(old(buf[..])), cmd)
    ensures r.Some? ==> Cut(old(buf[..]), buf[..], Ends(View(r.value)))
    ensures ParseText(Line(old(buf[..]))) ==
            if r.None? then None else Some(MapCmd(CStrings(buf[..]), View(r.value)))
  {
    ghost var b := buf[..];
    var es := 0;
    ghost var z :| 0 <= z < buf.Length && buf[z] == '\0';
    while buf[es] != '\0'
      invariant 0 <= es <= z
      invariant forall i :: 0 <= i < es ==> buf[i] != '\0'
      decreases z - es
    {
      es := es + 1;
    }
    ghost var line := b[..es];
    CStringIs(b, 0, es);
    var p := new Parser(buf, es);
    r := p.ParseCmd();
    assert p.line == line && buf[..] == b;
    if r.Some? {
      ghost var cmd := View(r.value);
      ParsedSlicesDelimited(line);
      EndsDelimit(line, cmd);
      NulTerminate(r.value, buf);
      CutKeepsWords(line, b, buf[..], cmd);
    }
    hide *;
    forall cmd ensures Spells(line, cmd) <==> ParseText(line) == Some(cmd) { ParsesWhatIsSpelled(line, cmd); }
  }
}
