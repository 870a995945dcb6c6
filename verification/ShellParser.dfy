/** The shell parser in the form of the source: a cursor that advances over a
    character buffer, command nodes built bottom up, and nulterminate, which
    writes into the buffer. */
module ShellParser {
  import opened Options
  import opened Seqs
  import opened ShellSyntax
  import opened ShellGrammar

  /** struct execcmd: parseexec stores words into a node that redirections may
      already have been wrapped around. */
  class ExecNode {
    var argv: seq<Slice>

    constructor ()
      ensures argv == []
    {
      argv := [];
    }
  }

  datatype Tree =
    | ExecLeaf(node: ExecNode)
    | RedirNode(cmd: Tree, mode: Mode, file: Slice)
    | PipeNode(left: Tree, right: Tree)
    | ListNode(left: Tree, right: Tree)
    | BackNode(cmd: Tree)

  ghost function Nodes(t: Tree): set<ExecNode> {
    match t
    case ExecLeaf(n) => {n}
    case RedirNode(c, _, _) => Nodes(c)
    case PipeNode(l, r) => Nodes(l) + Nodes(r)
    case ListNode(l, r) => Nodes(l) + Nodes(r)
    case BackNode(c) => Nodes(c)
  }

  /** The command a tree of nodes represents at this moment. */
  ghost function View(t: Tree): Cmd<Slice>
    reads Nodes(t)
  {
    match t
    case ExecLeaf(n) => Exec(n.argv)
    case RedirNode(c, m, f) => Redir(View(c), m, f)
    case PipeNode(l, r) => Pipe(View(l), View(r))
    case ListNode(l, r) => List(View(l), View(r))
    case BackNode(c) => Back(View(c))
  }

  /** A tree wrapped in redirections, the first of them innermost. */
  ghost function WrapTree(t: Tree, rs: seq<Redirection<Slice>>): Tree
    decreases |rs|
  {
    if |rs| == 0 then t else WrapTree(RedirNode(t, rs[0].mode, rs[0].file), rs[1..])
  }

  lemma {:induction false} ViewWrap(t: Tree, rs: seq<Redirection<Slice>>)
    ensures Nodes(WrapTree(t, rs)) == Nodes(t)
    ensures View(WrapTree(t, rs)) == Wrap(View(t), rs)
    decreases |rs|
  {
    if |rs| > 0 {
      ViewWrap(RedirNode(t, rs[0].mode, rs[0].file), rs[1..]);
    }
  }

  lemma {:induction false} WrapTreeConcat(t: Tree, a: seq<Redirection<Slice>>, b: seq<Redirection<Slice>>)
    ensures WrapTree(t, a + b) == WrapTree(WrapTree(t, a), b)
    decreases |a|
  {
    if |a| == 0 {
      assert a + b == b;
    } else {
      assert (a + b)[1..] == a[1..] + b;
      WrapTreeConcat(RedirNode(t, a[0].mode, a[0].file), a[1..], b);
    }
  }

  lemma {:induction false} WrapTreeOne(t: Tree, r: Redirection<Slice>)
    ensures WrapTree(t, [r]) == RedirNode(t, r.mode, r.file)
  {
    assert WrapTree(RedirNode(t, r.mode, r.file), [r][1..]) == RedirNode(t, r.mode, r.file);
  }

  /** What gettoken returns and stores for a token. */
  ghost predicate Reports(t: Token<Slice>, ret: char, q: nat, eq: nat) {
    match t case Op(c) => ret == c case Word(w) => ret == 'a' && w == Slice(q, eq)
  }

  class Parser {
    const buf: array<char>
    const es: nat
    var s: nat
    ghost const line: string
    ghost var rest: seq<Token<Slice>>  // the tokens still to be read

    ghost predicate Valid()
      reads this, buf
    {
      && es == |line| < buf.Length && buf[es] == '\0'
      && (forall i :: 0 <= i < es ==> buf[i] == line[i] && buf[i] != '\0')
      && s <= es && rest == Lex(line, s)
    }

    constructor (buf: array<char>, es: nat)
      requires es < buf.Length && buf[es] == '\0' && forall i :: 0 <= i < es ==> buf[i] != '\0'
      ensures Valid() && this.buf == buf && this.es == es && s == 0 && line == buf[..es]
    {
      this.buf, this.es, this.s := buf, es, 0;
      this.line := buf[..es];
      this.rest := Lex(buf[..es], 0);
    }

    method SkipSpaces(from: nat) returns (p: nat)
      requires Valid() && from <= es
      ensures p == SkipSpace(line, from)
    {
      p := from;
      while p < es && IsSpace(buf[p])
        invariant from <= p <= es && SkipSpace(line, p) == SkipSpace(line, from)
      {
        p := p + 1;
      }
    }

    method SkipWordChars(from: nat) returns (p: nat)
      requires Valid() && from <= es
      ensures p == SkipWord(line, from)
    {
      p := from;
      while p < es && !IsSpace(buf[p]) && !IsSymbol(buf[p])
        invariant from <= p <= es && SkipWord(line, p) == SkipWord(line, from)
      {
        p := p + 1;
      }
    }

    /** gettoken: takes the first token off the rest of the line. */
    method GetToken() returns (ret: char, q: nat, eq: nat)
      requires Valid()
      modifies `s, `rest
      ensures Valid() && old(s) <= s
      ensures old(rest) == [] ==> ret == '\0' && rest == []
      ensures old(rest) != [] ==> rest == old(rest)[1..] && Reports(old(rest)[0], ret, q, eq) && old(s) < s
      ensures old(rest) != [] ==> ret != '\0' && (ret == 'a' <==> old(rest)[0].Word?)
    {
      q := SkipSpaces(s);
      var p := q;
      ret := buf[p];
      if buf[p] == '\0' {
      } else if buf[p] == '|' || buf[p] == '(' || buf[p] == ')' || buf[p] == ';' || buf[p] == '&' || buf[p] == '<' {
        p := p + 1;
      } else if buf[p] == '>' {
        p := p + 1;
        if buf[p] == '>' {
          ret := '+';
          p := p + 1;
        }
      } else {
        ret := 'a';
        p := SkipWordChars(p);
      }
      eq := p;
      assert q < es ==> ScanToken(line, q).1 == p && Reports(ScanToken(line, q).0, ret, q, eq);
      LexTakes(line, s, q, p);
      s := SkipSpaces(p);
      rest := Lex(line, s);
    }

    /** peek: looks at the next token without taking it. */
    method Peek(toks: set<char>) returns (found: bool)
      requires Valid()
      requires forall c :: c in toks ==> IsSymbol(c)
      modifies `s, `rest
      ensures Valid() && old(s) <= s && rest == old(rest)
      ensures found <==> Starts(rest, toks)
      ensures s == SkipSpace(line, old(s))
    {
      LexSkipSpace(line, s);
      s := SkipSpaces(s);
      found := buf[s] != '\0' && buf[s] in toks;
      if s < es {
        var t := ScanToken(line, s).0;
        assert rest[0] == t;
        assert t.Op? && t.c != '+' ==> t.c == line[s];
      }
    }

    /** The outcome of a parse method agrees with the parser on tokens. */
    ghost predicate Agrees(r: Option<Tree>, p: Parsed<Slice>)
      reads this, if r.Some? then Nodes(r.value) else {}
    {
      match p
      case Failed => r.None?
      case Ok(c, end) => r.Some? && View(r.value) == c && rest == end
    }

    /** parsecmd, up to nulterminate. */
    method ParseCmd() returns (r: Option<Tree>)
      requires Valid() && s == 0
      modifies `s, `rest
      ensures Valid()
      ensures r.Some? ==> fresh(Nodes(r.value))
      ensures ParseAll(Lex(line, 0)) == if r.None? then None else Some(View(r.value))
    {
      r := ParseLine();
      if r.None? {
        return;
      }
      assert allocated(Nodes(r.value));
      var _ := Peek({});
      assert SkipSpace(line, s) == s;
      LexSkipSpace(line, s);
      if s != es {
        r := None;
      }
    }

    method ParseLine() returns (r: Option<Tree>)
      requires Valid()
      modifies `s, `rest
      ensures Valid() && old(s) <= s
      ensures r.Some? ==> fresh(Nodes(r.value))
      ensures Agrees(r, ShellGrammar.ParseLine(old(rest)))
      decreases es - s, 3
    {
      r := ParsePipe();
      if r.None? {
        return;
      }
      ghost var c0, rest0 := View(r.value), rest;
      var cmd := ParseBacks(r.value);
      ghost var c := View(cmd);
      assert (c, rest) == ParseAmps(c0, rest0);
      assert allocated(Nodes(cmd));
      var more := Peek({';'});
      assert View(cmd) == c;
      r := Some(cmd);
      if more {
        var _, _, _ := GetToken();
        assert View(cmd) == c;
        r := ParseLine();
        if r.None? {
          return;
        }
        assert View(cmd) == c;
        r := Some(ListNode(cmd, r.value));
      }
    }

    /** parseline's loop on `&`. */
    method ParseBacks(first: Tree) returns (cmd: Tree)
      requires Valid()
      modifies `s, `rest
      ensures Valid() && old(s) <= s && Nodes(cmd) == Nodes(first)
      ensures (View(cmd), rest) == ParseAmps(old(View(first)), old(rest))
    {
      cmd := first;
      assert allocated(Nodes(cmd));
      var more := Peek({'&'});
      while more
        invariant Valid() && old(s) <= s && Nodes(cmd) == Nodes(first)
        invariant more <==> Starts(rest, {'&'})
        invariant ParseAmps(View(cmd), rest) == ParseAmps(old(View(first)), old(rest))
        decreases |rest|
      {
        ghost var c := View(cmd);
        assert allocated(Nodes(cmd));
        var _, _, _ := GetToken();
        more := Peek({'&'});
        assert View(cmd) == c;
        cmd := BackNode(cmd);
      }
    }

    method ParsePipe() returns (r: Option<Tree>)
      requires Valid()
      modifies `s, `rest
      ensures Valid() && old(s) <= s
      ensures r.Some? ==> fresh(Nodes(r.value))
      ensures Agrees(r, ShellGrammar.ParsePipe(old(rest)))
      decreases es - s, 2
    {
      r := ParseExec();
      if r.None? {
        return;
      }
      var cmd := r.value;
      ghost var c0 := View(cmd);
      assert allocated(Nodes(cmd));
      var more := Peek({'|'});
      assert View(cmd) == c0;
      if more {
        var _, _, _ := GetToken();
        assert View(cmd) == c0;
        r := ParsePipe();
        if r.None? {
          return;
        }
        assert View(cmd) == c0;
        cmd := PipeNode(cmd, r.value);
      }
      r := Some(cmd);
    }

    /** parseredirs: wraps cmd in the redirections that come next. */
    method ParseRedirs(cmd: Tree) returns (r: Option<Tree>, ghost rs: seq<Redirection<Slice>>)
      requires Valid()
      modifies `s, `rest
      ensures Valid() && old(s) <= s
      ensures r.Some? ==> r.value == WrapTree(cmd, rs)
      ensures ShellGrammar.ParseRedirs(old(rest)) == if r.None? then BadRedir else Redirs(rs, rest)
    {
      var c := cmd;
      rs := [];
      ghost var ts := rest;
      var more := Peek({'<', '>'});
      while more
        invariant Valid() && old(s) <= s && c == WrapTree(cmd, rs)
        invariant more <==> Starts(rest, {'<', '>'})
        invariant ShellGrammar.ParseRedirs(ts) == After(rs, ShellGrammar.ParseRedirs(rest))
        decreases |rest|
      {
        ghost var ts0 := rest;
        var tok, _, _ := GetToken();
        var ret, q, eq := GetToken();
        if ret != 'a' {
          return None, rs;
        }
        ghost var next := Redirection(ModeOf(tok), Slice(q, eq));
        assert ts0[1..][1..] == ts0[2..];
        RedirsStep(rs, ts0);
        WrapTreeConcat(cmd, rs, [next]);
        WrapTreeOne(c, next);
        rs := rs + [next];
        match tok {
          case '<' => c := RedirNode(c, Input, Slice(q, eq));
          case '>' => c := RedirNode(c, Truncate, Slice(q, eq));
          case _ => c := RedirNode(c, Append, Slice(q, eq));
        }
        more := Peek({'<', '>'});
      }
      assert rs + [] == rs;
      r := Some(c);
    }

    method ParseBlock() returns (r: Option<Tree>)
      requires Valid() && Starts(rest, {'('})
      modifies `s, `rest
      ensures Valid() && old(s) <= s
      ensures r.Some? ==> fresh(Nodes(r.value))
      ensures Agrees(r, ShellGrammar.ParseBlock(old(rest)))
      decreases es - s, 0
    {
      var _, _, _ := GetToken();
      r := ParseLine();
      if r.None? {
        return;
      }
      var cmd := r.value;
      ghost var c := View(cmd);
      assert allocated(Nodes(cmd));
      var closed := Peek({')'});
      if !closed {
        return None;
      }
      var _, _, _ := GetToken();
      ghost var rs;
      r, rs := ParseRedirs(cmd);
      assert View(cmd) == c;
      ViewWrap(cmd, rs);
    }

    method ParseExec() returns (r: Option<Tree>)
      requires Valid()
      modifies `s, `rest
      ensures Valid() && old(s) <= s
      ensures r.Some? ==> fresh(Nodes(r.value))
      ensures Agrees(r, ShellGrammar.ParseExec(old(rest)))
      decreases es - s, 1
    {
      var block := Peek({'('});
      if block {
        r := ParseBlock();
        return;
      }
      var cmd := new ExecNode();
      ghost var rs;
      r, rs := ParseRedirs(ExecLeaf(cmd));
      if r.None? {
        return;
      }
      r, rs := ParseWords(cmd, r.value, rs, Prepend([], rs, ParseArgs(0, rest)));
      ViewWrap(ExecLeaf(cmd), rs);
    }

    /** One gettoken of parseexec, whose word goes into the node. */
    method TakeWord(cmd: ExecNode) returns (tok: char)
      requires Valid()
      modifies `s, `rest, cmd
      ensures Valid() && old(s) <= s
      ensures tok == '\0' <==> old(rest) == []
      ensures old(rest) == [] ==> rest == []
      ensures old(rest) != [] ==> rest == old(rest)[1..]
      ensures tok == 'a' <==> |old(rest)| > 0 && old(rest)[0].Word?
      ensures cmd.argv == if tok == 'a' then old(cmd.argv) + [old(rest)[0].text] else old(cmd.argv)
    {
      var q, eq;
      tok, q, eq := GetToken();
      if tok == 'a' {
        cmd.argv := cmd.argv + [Slice(q, eq)];
      }
    }

    /** parseexec's loop. The node cmd may be inside redirections already: ret
        is cmd wrapped in those read so far, and words go on being added to cmd. */
    method ParseWords(cmd: ExecNode, ret: Tree, ghost lead: seq<Redirection<Slice>>, ghost goal: ParsedArgs<Slice>)
      returns (r: Option<Tree>, ghost rs: seq<Redirection<Slice>>)
      requires Valid() && cmd.argv == [] && ret == WrapTree(ExecLeaf(cmd), lead)
      requires goal == Prepend([], lead, ParseArgs(0, rest))
      modifies `s, `rest, cmd
      ensures Valid() && old(s) <= s
      ensures goal == if r.None? then BadArgs else Args(cmd.argv, rs, rest)
      ensures r.Some? ==> r.value == WrapTree(ExecLeaf(cmd), rs)
    {
      hide Prepend, ParseArgs, WrapTree, Lex, SkipSpace;
      r, rs := Some(ret), lead;
      var argc := 0;
      var stop := Peek({'|', ')', '&', ';'});
      while !stop
        invariant Valid() && old(s) <= s && |cmd.argv| == argc
        invariant r == Some(WrapTree(ExecLeaf(cmd), rs))
        invariant stop <==> Starts(rest, {'|', ')', '&', ';'})
        invariant goal == Prepend(cmd.argv, rs, ParseArgs(argc, rest))
        decreases |rest|
      {
        ArgsStep(cmd.argv, rs, argc, rest);
        var tok := TakeWord(cmd);
        if tok == '\0' {
          break;
        }
        if tok != 'a' {
          return None, rs;
        }
        argc := argc + 1;
        if argc >= MAXARGS {
          return None, rs;
        }
        ghost var more;
        r, more := ParseRedirs(r.value);
        if r.None? {
          return;
        }
        WrapTreeConcat(ExecLeaf(cmd), rs, more);
        rs := rs + more;
        stop := Peek({'|', ')', '&', ';'});
      }
      ArgsEnd(cmd.argv, rs, argc, rest);
    }
  }

  /** What is left of the tokens when the first one has been scanned. */
  lemma {:induction false} LexTakes(line: string, i: nat, q: nat, p: nat)
    requires i <= |line| && q == SkipSpace(line, i) && p <= |line|
    requires p == if q < |line| then ScanToken(line, q).1 else q
    ensures q == |line| ==> Lex(line, i) == [] == Lex(line, SkipSpace(line, p))
    ensures q < |line| ==> |Lex(line, i)| > 0 && Lex(line, i)[0] == ScanToken(line, q).0
                           && Lex(line, i)[1..] == Lex(line, SkipSpace(line, p))
  {
    LexSkipSpace(line, i);
    LexSkipSpace(line, p);
    if q < |line| {
      ConsTail(ScanToken(line, q).0, Lex(line, p));
    }
  }

  ghost function After(rs: seq<Redirection<Slice>>, p: ParsedRedirs<Slice>): ParsedRedirs<Slice> {
    match p case BadRedir => BadRedir case Redirs(rs', end) => Redirs(rs + rs', end)
  }

  /** One turn of parseredirs' loop. */
  lemma {:induction false} RedirsStep(rs: seq<Redirection<Slice>>, ts: seq<Token<Slice>>)
    requires Starts(ts, {'<', '>'})
    ensures After(rs, ShellGrammar.ParseRedirs(ts)) ==
            if |ts| < 2 || !ts[1].Word? then BadRedir
            else After(rs + [Redirection(ModeOf(ts[0].c), ts[1].text)], ShellGrammar.ParseRedirs(ts[2..]))
  {
    if |ts| >= 2 && ts[1].Word? {
      var later := ShellGrammar.ParseRedirs(ts[2..]);
      var next := Redirection(ModeOf(ts[0].c), ts[1].text);
      if later.Redirs? {
        assert rs + ([next] + later.redirs) == rs + [next] + later.redirs;
      }
    }
  }

  /** The end of parseexec's loop. */
  lemma {:induction false} ArgsEnd(words: seq<Slice>, rs: seq<Redirection<Slice>>, n: nat, ts: seq<Token<Slice>>)
    requires |ts| == 0 || Starts(ts, {'|', ')', '&', ';'})
    ensures Prepend(words, rs, ParseArgs(n, ts)) == Args(words, rs, ts)
  {
    assert words + [] == words && rs + [] == rs;
  }

  /** One turn of parseexec's loop: a word and the redirections after it. */
  lemma {:induction false} ArgsStep(words: seq<Slice>, rs: seq<Redirection<Slice>>, n: nat, ts: seq<Token<Slice>>)
    ensures |ts| > 0 && ts[0].Word? ==>
            Prepend(words, rs, ParseArgs(n, ts)) ==
            if n + 1 >= MAXARGS then BadArgs else
            match ShellGrammar.ParseRedirs(ts[1..])
            case BadRedir => BadArgs
            case Redirs(more, rest) => Prepend(words + [ts[0].text], rs + more, ParseArgs(n + 1, rest))
    ensures |ts| > 0 && !ts[0].Word? && !Starts(ts, {'|', ')', '&', ';'}) ==>
            Prepend(words, rs, ParseArgs(n, ts)) == BadArgs
  {
    if |ts| > 0 && ts[0].Word? {
      match ShellGrammar.ParseRedirs(ts[1..])
      case BadRedir =>
      case Redirs(more, rest) =>
        var p := ParseArgs(n + 1, rest);
        if p.Args? {
          assert words + ([ts[0].text] + p.words) == words + [ts[0].text] + p.words;
          assert rs + (more + p.redirs) == rs + more + p.redirs;
        }
    }
  }
}
