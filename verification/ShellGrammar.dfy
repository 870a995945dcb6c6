/** The recursive-descent parser of the shell as functions on token sequences,
    and the grammar it decides, given independently by derivation trees. */
module ShellGrammar {
  import opened Options
  import opened Seqs
  import opened ShellSyntax

  // ----- the parser, one function a C function -----

  datatype Parsed<W> = Ok(cmd: Cmd<W>, rest: seq<Token<W>>) | Failed

  datatype ParsedRedirs<W> = Redirs(redirs: seq<Redirection<W>>, rest: seq<Token<W>>) | BadRedir

  /** The words and redirections of a simple command, in order. */
  datatype ParsedArgs<W> = Args(words: seq<W>, redirs: seq<Redirection<W>>, rest: seq<Token<W>>) | BadArgs

  function ModeOf(c: char): Mode {
    if c == '<' then Input else if c == '>' then Truncate else Append
  }

  /** parseredirs */
  function ParseRedirs<W>(ts: seq<Token<W>>): (r: ParsedRedirs<W>)
    ensures r.Redirs? ==> |r.rest| <= |ts| && !Starts(r.rest, {'<', '>'})
    decreases |ts|
  {
    if !Starts(ts, {'<', '>'}) then Redirs([], ts)
    else if |ts| < 2 || !ts[1].Word? then BadRedir
    else match ParseRedirs(ts[2..])
      case BadRedir => BadRedir
      case Redirs(rs, rest) => Redirs([Redirection(ModeOf(ts[0].c), ts[1].text)] + rs, rest)
  }

  /** The loop of parseexec, entered with n words already stored. */
  function ParseArgs<W>(n: nat, ts: seq<Token<W>>): (r: ParsedArgs<W>)
    ensures r.Args? ==> |r.rest| <= |ts|
    decreases |ts|
  {
    if |ts| == 0 || Starts(ts, {'|', ')', '&', ';'}) then Args([], [], ts)
    else if !ts[0].Word? || n + 1 >= MAXARGS then BadArgs
    else match ParseRedirs(ts[1..])
      case BadRedir => BadArgs
      case Redirs(rs, rest) => Prepend([ts[0].text], rs, ParseArgs(n + 1, rest))
  }

  function Prepend<W>(words: seq<W>, rs: seq<Redirection<W>>, p: ParsedArgs<W>): ParsedArgs<W> {
    match p
    case BadArgs => BadArgs
    case Args(ws, rs', rest) => Args(words + ws, rs + rs', rest)
  }

  /** The part of parseexec that follows the test for a block. */
  function ParseSimple<W>(ts: seq<Token<W>>): (r: ParsedArgs<W>)
    ensures r.Args? ==> |r.rest| <= |ts|
  {
    match ParseRedirs(ts)
    case BadRedir => BadArgs
    case Redirs(rs, rest) => Prepend([], rs, ParseArgs(0, rest))
  }

  function ParseExec<W>(ts: seq<Token<W>>): (r: Parsed<W>)
    ensures r.Ok? ==> |r.rest| <= |ts|
    decreases |ts|, 1
  {
    if Starts(ts, {'('}) then ParseBlock(ts)
    else match ParseSimple(ts)
      case BadArgs => Failed
      case Args(ws, rs, rest) => Ok(Wrap(Exec(ws), rs), rest)
  }

  function ParseBlock<W>(ts: seq<Token<W>>): (r: Parsed<W>)
    requires Starts(ts, {'('})
    ensures r.Ok? ==> |r.rest| <= |ts|
    decreases |ts|, 0
  {
    match ParseLine(ts[1..])
    case Failed => Failed
    case Ok(cmd, rest) =>
      if !Starts(rest, {')'}) then Failed
      else match ParseRedirs(rest[1..])
        case BadRedir => Failed
        case Redirs(rs, rest') => Ok(Wrap(cmd, rs), rest')
  }

  function ParsePipe<W>(ts: seq<Token<W>>): (r: Parsed<W>)
    ensures r.Ok? ==> |r.rest| <= |ts|
    decreases |ts|, 2
  {
    match ParseExec(ts)
    case Failed => Failed
    case Ok(cmd, rest) =>
      if !Starts(rest, {'|'}) then Ok(cmd, rest)
      else match ParsePipe(rest[1..])
        case Failed => Failed
        case Ok(right, rest') => Ok(Pipe(cmd, right), rest')
  }

  /** parseline's loop on `&`. */
  function ParseAmps<W>(cmd: Cmd<W>, ts: seq<Token<W>>): (r: (Cmd<W>, seq<Token<W>>))
    ensures |r.1| <= |ts|
    decreases |ts|
  {
    if Starts(ts, {'&'}) then ParseAmps(Back(cmd), ts[1..]) else (cmd, ts)
  }

  function ParseLine<W>(ts: seq<Token<W>>): (r: Parsed<W>)
    ensures r.Ok? ==> |r.rest| <= |ts|
    decreases |ts|, 3
  {
    match ParsePipe(ts)
    case Failed => Failed
    case Ok(cmd, rest) =>
      var (cmd', rest') := ParseAmps(cmd, rest);
      if !Starts(rest', {';'}) then Ok(cmd', rest')
      else match ParseLine(rest'[1..])
        case Failed => Failed
        case Ok(right, rest'') => Ok(List(cmd', right), rest'')
  }

  /** parsecmd up to nulterminate: the whole line must be used up. */
  function ParseAll<W>(ts: seq<Token<W>>): Option<Cmd<W>> {
    match ParseLine(ts)
    case Failed => None
    case Ok(cmd, rest) => if |rest| == 0 then Some(cmd) else None
  }

  // ----- the grammar -----
  //   line ::= pipe '&'* [';' line]
  //   pipe ::= exec ['|' pipe]
  //   exec ::= '(' line ')' redir*  |  redir* (word redir*)*   with at most nine words

  datatype LineTree<W> = LineTree(pipe: PipeTree<W>, amps: nat, next: NextLine<W>)
  datatype NextLine<W> = LineEnd | Semicolon(line: LineTree<W>)
  datatype PipeTree<W> = PipeTree(first: ExecTree<W>, next: NextPipe<W>)
  datatype NextPipe<W> = PipeEnd | Bar(pipe: PipeTree<W>)
  datatype ExecTree<W> =
    | Block(line: LineTree<W>, redirs: seq<Redirection<W>>)
    | Simple(redirs: seq<Redirection<W>>, args: seq<Arg<W>>)
  datatype Arg<W> = Arg(word: W, redirs: seq<Redirection<W>>)

  ghost predicate ValidLine<W>(l: LineTree<W>) {
    ValidPipe(l.pipe) && (l.next.Semicolon? ==> ValidLine(l.next.line))
  }

  ghost predicate ValidPipe<W>(p: PipeTree<W>) {
    ValidExec(p.first) && (p.next.Bar? ==> ValidPipe(p.next.pipe))
  }

  ghost predicate ValidExec<W>(e: ExecTree<W>) {
    match e
    case Block(l, _) => ValidLine(l)
    case Simple(_, args) => |args| <= 9
  }

  /** The sentence a derivation tree derives, followed by rest. */
  function YieldLine<W>(l: LineTree<W>, rest: seq<Token<W>>): seq<Token<W>> {
    YieldPipe(l.pipe, Amps(l.amps,
      match l.next
      case LineEnd => rest
      case Semicolon(l') => [Op(';')] + YieldLine(l', rest)))
  }

  function Amps<W>(n: nat, rest: seq<Token<W>>): seq<Token<W>> {
    if n == 0 then rest else [Op('&')] + Amps(n - 1, rest)
  }

  function YieldPipe<W>(p: PipeTree<W>, rest: seq<Token<W>>): seq<Token<W>> {
    YieldExec(p.first,
      match p.next
      case PipeEnd => rest
      case Bar(p') => [Op('|')] + YieldPipe(p', rest))
  }

  function YieldExec<W>(e: ExecTree<W>, rest: seq<Token<W>>): seq<Token<W>> {
    match e
    case Block(l, rs) => [Op('(')] + YieldLine(l, [Op(')')] + YieldRedirs(rs, rest))
    case Simple(rs, args) => YieldRedirs(rs, YieldArgs(args, rest))
  }

  function OpOf(m: Mode): char {
    match m case Input => '<' case Truncate => '>' case Append => '+'
  }

  function YieldRedirs<W>(rs: seq<Redirection<W>>, rest: seq<Token<W>>): seq<Token<W>>
    decreases |rs|
  {
    if |rs| == 0 then rest
    else [Op(OpOf(rs[0].mode))] + ([Word(rs[0].file)] + YieldRedirs(rs[1..], rest))
  }

  function YieldArgs<W>(args: seq<Arg<W>>, rest: seq<Token<W>>): seq<Token<W>>
    decreases |args|
  {
    if |args| == 0 then rest
    else [Word(args[0].word)] + YieldRedirs(args[0].redirs, YieldArgs(args[1..], rest))
  }

  /** The command a derivation tree stands for: pipes and lists nest to the
      right, redirections of a simple command go around all of it. */
  function MeaningLine<W>(l: LineTree<W>): Cmd<W> {
    var c := Backs(MeaningPipe(l.pipe), l.amps);
    match l.next
    case LineEnd => c
    case Semicolon(l') => List(c, MeaningLine(l'))
  }

  function Backs<W>(c: Cmd<W>, n: nat): Cmd<W>
    decreases n
  {
    if n == 0 then c else Backs(Back(c), n - 1)
  }

  function MeaningPipe<W>(p: PipeTree<W>): Cmd<W> {
    match p.next
    case PipeEnd => MeaningExec(p.first)
    case Bar(p') => Pipe(MeaningExec(p.first), MeaningPipe(p'))
  }

  function MeaningExec<W>(e: ExecTree<W>): Cmd<W> {
    match e
    case Block(l, rs) => Wrap(MeaningLine(l), rs)
    case Simple(rs, args) => Wrap(Exec(ArgWords(args)), rs + ArgRedirs(args))
  }

  function ArgWords<W>(args: seq<Arg<W>>): (r: seq<W>)
    ensures |r| == |args|
    ensures forall i :: 0 <= i < |args| ==> r[i] == args[i].word
    decreases |args|
  {
    if |args| == 0 then [] else [args[0].word] + ArgWords(args[1..])
  }

  function ArgRedirs<W>(args: seq<Arg<W>>): seq<Redirection<W>>
    decreases |args|
  {
    if |args| == 0 then [] else args[0].redirs + ArgRedirs(args[1..])
  }

  // ----- completeness: every sentence of the grammar is parsed to its meaning -----

  /** What may follow an exec, a pipe and a line inside a sentence. */
  ghost predicate Follows<W>(rest: seq<Token<W>>, ops: set<char>) {
    |rest| == 0 || Starts(rest, ops)
  }

  lemma {:induction false} RedirsCons<W>(r: Redirection<W>, ts: seq<Token<W>>)
    ensures ParseRedirs([Op(OpOf(r.mode))] + ([Word(r.file)] + ts)) ==
            match ParseRedirs(ts)
            case BadRedir => BadRedir
            case Redirs(rs, rest) => Redirs([r] + rs, rest)
  {
    DropTwo(Op(OpOf(r.mode)), Word(r.file), ts);
    assert Redirection(ModeOf(OpOf(r.mode)), r.file) == r;
  }

  lemma {:induction false} ArgsCons<W>(n: nat, w: W, ts: seq<Token<W>>)
    requires n + 1 < MAXARGS
    ensures ParseArgs(n, [Word(w)] + ts) ==
            match ParseRedirs(ts)
            case BadRedir => BadArgs
            case Redirs(rs, rest) => Prepend([w], rs, ParseArgs(n + 1, rest))
  {
    ConsTail(Word(w), ts);
  }

  lemma {:induction false} CompleteRedirs<W>(rs: seq<Redirection<W>>, rest: seq<Token<W>>)
    requires !Starts(rest, {'<', '>'})
    ensures ParseRedirs(YieldRedirs(rs, rest)) == Redirs(rs, rest)
    decreases |rs|
  {
    if |rs| > 0 {
      CompleteRedirs(rs[1..], rest);
      RedirsCons(rs[0], YieldRedirs(rs[1..], rest));
      HeadTail(rs);
    }
  }

  lemma {:induction false} CompleteArgs<W>(n: nat, args: seq<Arg<W>>, rest: seq<Token<W>>)
    requires n + |args| < MAXARGS && Follows(rest, {'|', ')', '&', ';'})
    ensures ParseArgs(n, YieldArgs(args, rest)) == Args(ArgWords(args), ArgRedirs(args), rest)
    decreases |args|
  {
    if |args| > 0 {
      var y := YieldArgs(args[1..], rest);
      CompleteRedirs(args[0].redirs, y);
      CompleteArgs(n + 1, args[1..], rest);
      ArgsCons(n, args[0].word, YieldRedirs(args[0].redirs, y));
    }
  }

  lemma {:induction false} CompleteSimple<W>(rs: seq<Redirection<W>>, args: seq<Arg<W>>, rest: seq<Token<W>>)
    requires |args| < MAXARGS && Follows(rest, {'|', ')', '&', ';'})
    ensures ParseExec(YieldExec(Simple(rs, args), rest)) == Ok(MeaningExec(Simple(rs, args)), rest)
  {
    var y := YieldArgs(args, rest);
    CompleteRedirs(rs, y);
    CompleteArgs(0, args, rest);
    assert !Starts(YieldRedirs(rs, y), {'('});
    assert [] + ArgWords(args) == ArgWords(args);
  }

  lemma {:induction false} CompleteExec<W>(e: ExecTree<W>, rest: seq<Token<W>>)
    requires ValidExec(e) && Follows(rest, {'|', ')', '&', ';'})
    ensures ParseExec(YieldExec(e, rest)) == Ok(MeaningExec(e), rest)
    decreases e
  {
    match e
    case Block(l, rs) =>
      var y := YieldRedirs(rs, rest);
      CompleteLine(l, [Op(')')] + y);
      CompleteRedirs(rs, rest);
      ConsTail(Op('('), YieldLine(l, [Op(')')] + y));
      ConsTail(Op(')'), y);
    case Simple(rs, args) =>
      CompleteSimple(rs, args, rest);
  }

  lemma {:induction false} CompletePipe<W>(p: PipeTree<W>, rest: seq<Token<W>>)
    requires ValidPipe(p) && Follows(rest, {')', '&', ';'})
    ensures ParsePipe(YieldPipe(p, rest)) == Ok(MeaningPipe(p), rest)
    decreases p
  {
    match p.next
    case PipeEnd =>
      CompleteExec(p.first, rest);
    case Bar(p') =>
      CompleteExec(p.first, [Op('|')] + YieldPipe(p', rest));
      CompletePipe(p', rest);
      ConsTail(Op('|'), YieldPipe(p', rest));
  }

  lemma {:induction false} CompleteAmps<W>(c: Cmd<W>, n: nat, rest: seq<Token<W>>)
    requires !Starts(rest, {'&'})
    ensures ParseAmps(c, Amps(n, rest)) == (Backs(c, n), rest)
    decreases n
  {
    if n > 0 {
      CompleteAmps(Back(c), n - 1, rest);
      ConsTail(Op('&'), Amps(n - 1, rest));
    }
  }

  /** A line of the grammar, followed by nothing or by `)`, is parsed to its
      meaning and nothing more is consumed. */
  lemma {:induction false} CompleteLine<W>(l: LineTree<W>, rest: seq<Token<W>>)
    requires ValidLine(l) && Follows(rest, {')'})
    ensures ParseLine(YieldLine(l, rest)) == Ok(MeaningLine(l), rest)
    decreases l
  {
    match l.next
    case LineEnd =>
      CompletePipe(l.pipe, Amps(l.amps, rest));
      CompleteAmps(MeaningPipe(l.pipe), l.amps, rest);
    case Semicolon(l') =>
      var tail := [Op(';')] + YieldLine(l', rest);
      CompletePipe(l.pipe, Amps(l.amps, tail));
      CompleteAmps(MeaningPipe(l.pipe), l.amps, tail);
      CompleteLine(l', rest);
      ConsTail(Op(';'), YieldLine(l', rest));
  }

  // ----- soundness: what the parser accepts is a sentence with that meaning -----

  lemma {:induction false} SoundRedirs<W>(ts: seq<Token<W>>)
    requires ParseRedirs(ts).Redirs?
    ensures ts == YieldRedirs(ParseRedirs(ts).redirs, ParseRedirs(ts).rest)
    decreases |ts|
  {
    if Starts(ts, {'<', '>'}) {
      SoundRedirs(ts[2..]);
      var p := ParseRedirs(ts[2..]);
      ConsTail(Redirection(ModeOf(ts[0].c), ts[1].text), p.redirs);
      TwoHeads(ts);
    }
  }

  lemma {:induction false} SoundArgs<W>(n: nat, ts: seq<Token<W>>) returns (args: seq<Arg<W>>)
    requires ParseArgs(n, ts).Args?
    ensures ts == YieldArgs(args, ParseArgs(n, ts).rest)
    ensures ArgWords(args) == ParseArgs(n, ts).words && ArgRedirs(args) == ParseArgs(n, ts).redirs
    ensures args == [] || n + |args| < MAXARGS
    decreases |ts|
  {
    if |ts| == 0 || Starts(ts, {'|', ')', '&', ';'}) {
      args := [];
    } else {
      var Redirs(rs, rest) := ParseRedirs(ts[1..]);
      SoundRedirs(ts[1..]);
      var args' := SoundArgs(n + 1, rest);
      args := [Arg(ts[0].text, rs)] + args';
      ConsTail(Arg(ts[0].text, rs), args');
      HeadTail(ts);
    }
  }

  lemma {:induction false} SoundSimple<W>(ts: seq<Token<W>>, cmd: Cmd<W>, rest: seq<Token<W>>) returns (e: ExecTree<W>)
    requires !Starts(ts, {'('}) && ParseExec(ts) == Ok(cmd, rest)
    ensures ValidExec(e) && MeaningExec(e) == cmd && ts == YieldExec(e, rest)
  {
    var rs, r := ParseRedirs(ts).redirs, ParseRedirs(ts).rest;
    SoundRedirs(ts);
    var args := SoundArgs(0, r);
    e := Simple(rs, args);
    assert [] + ArgWords(args) == ArgWords(args);
  }

  lemma {:induction false} SoundExec<W>(ts: seq<Token<W>>, cmd: Cmd<W>, rest: seq<Token<W>>) returns (e: ExecTree<W>)
    requires ParseExec(ts) == Ok(cmd, rest)
    ensures ValidExec(e) && MeaningExec(e) == cmd && ts == YieldExec(e, rest)
    decreases |ts|, 1
  {
    if Starts(ts, {'('}) {
      var Ok(inner, r) := ParseLine(ts[1..]);
      var l := SoundLine(ts[1..], inner, r);
      SoundRedirs(r[1..]);
      e := Block(l, ParseRedirs(r[1..]).redirs);
      HeadTail(ts);
      HeadTail(r);
    } else {
      e := SoundSimple(ts, cmd, rest);
    }
  }

  lemma {:induction false} SoundPipe<W>(ts: seq<Token<W>>, cmd: Cmd<W>, rest: seq<Token<W>>) returns (p: PipeTree<W>)
    requires ParsePipe(ts) == Ok(cmd, rest)
    ensures ValidPipe(p) && MeaningPipe(p) == cmd && ts == YieldPipe(p, rest)
    decreases |ts|, 2
  {
    var Ok(left, r) := ParseExec(ts);
    var e := SoundExec(ts, left, r);
    if Starts(r, {'|'}) {
      var p' := SoundPipe(r[1..], ParsePipe(r[1..]).cmd, rest);
      p := PipeTree(e, Bar(p'));
      HeadTail(r);
    } else {
      p := PipeTree(e, PipeEnd);
    }
  }

  lemma {:induction false} SoundAmps<W>(c: Cmd<W>, ts: seq<Token<W>>) returns (n: nat)
    ensures ParseAmps(c, ts).0 == Backs(c, n) && ts == Amps(n, ParseAmps(c, ts).1)
    decreases |ts|
  {
    if Starts(ts, {'&'}) {
      var m := SoundAmps(Back(c), ts[1..]);
      n := m + 1;
      HeadTail(ts);
    } else {
      n := 0;
    }
  }

  lemma {:induction false} SoundLine<W>(ts: seq<Token<W>>, cmd: Cmd<W>, rest: seq<Token<W>>) returns (l: LineTree<W>)
    requires ParseLine(ts) == Ok(cmd, rest)
    ensures ValidLine(l) && MeaningLine(l) == cmd && ts == YieldLine(l, rest)
    decreases |ts|, 3
  {
    var Ok(c, r) := ParsePipe(ts);
    var p := SoundPipe(ts, c, r);
    var n := SoundAmps(c, r);
    var r' := ParseAmps(c, r).1;
    if Starts(r', {';'}) {
      var l' := SoundLine(r'[1..], ParseLine(r'[1..]).cmd, rest);
      l := LineTree(p, n, Semicolon(l'));
      HeadTail(r');
    } else {
      l := LineTree(p, n, LineEnd);
    }
  }

  /** The parser decides the grammar: it returns a command exactly when some
      derivation of the whole line means that command. */
  lemma Language<W>(ts: seq<Token<W>>, cmd: Cmd<W>)
    ensures ParseAll(ts) == Some(cmd) <==>
            exists l :: ValidLine(l) && YieldLine(l, []) == ts && MeaningLine(l) == cmd
  {
    if ParseAll(ts) == Some(cmd) {
      var l := SoundLine(ts, cmd, []);
      assert YieldLine(l, []) == ts;
    }
    if l :| ValidLine(l) && YieldLine(l, []) == ts && MeaningLine(l) == cmd {
      CompleteLine(l, []);
    }
  }

  /** The grammar is unambiguous in what its sentences mean. */
  lemma Unambiguous<W>(a: LineTree<W>, b: LineTree<W>)
    requires ValidLine(a) && ValidLine(b) && YieldLine(a, []) == YieldLine(b, [])
    ensures MeaningLine(a) == MeaningLine(b)
  {
    Language(YieldLine(a, []), MeaningLine(a));
    Language(YieldLine(b, []), MeaningLine(b));
  }

  // ----- printing with every subcommand in parentheses -----

  function Print<W>(cmd: Cmd<W>): LineTree<W> {
    match cmd
    case Exec(argv) => OneLine(Simple([], PlainArgs(argv)), 0)
    case Redir(c, m, f) => OneLine(Block(Print(c), [Redirection(m, f)]), 0)
    case Pipe(l, r) =>
      LineTree(PipeTree(Block(Print(l), []), Bar(PipeTree(Block(Print(r), []), PipeEnd))), 0, LineEnd)
    case List(l, r) =>
      OneLine(Block(Print(l), []), 0).(next := Semicolon(OneLine(Block(Print(r), []), 0)))
    case Back(c) => OneLine(Block(Print(c), []), 1)
  }

  function OneLine<W>(e: ExecTree<W>, amps: nat): LineTree<W> {
    LineTree(PipeTree(e, PipeEnd), amps, LineEnd)
  }

  function PlainArgs<W>(words: seq<W>): (args: seq<Arg<W>>)
    ensures |args| == |words|
    ensures ArgWords(args) == words && ArgRedirs(args) == []
    decreases |words|
  {
    if |words| == 0 then [] else
    var args := [Arg(words[0], [])] + PlainArgs(words[1..]);
    assert args[1..] == PlainArgs(words[1..]);
    args
  }

  lemma {:induction false} MeansBlock<W>(l: LineTree<W>, rs: seq<Redirection<W>>, amps: nat)
    requires |rs| <= 1 && amps <= 1
    ensures ValidLine(l) ==> ValidLine(OneLine(Block(l, rs), amps))
    ensures var c := MeaningLine(l);
            var c' := if rs == [] then c else Redir(c, rs[0].mode, rs[0].file);
            MeaningLine(OneLine(Block(l, rs), amps)) == if amps == 0 then c' else Back(c')
  {
    var c := MeaningLine(l);
    if rs != [] {
      assert Wrap(Redir(c, rs[0].mode, rs[0].file), rs[1..]) == Redir(c, rs[0].mode, rs[0].file);
    }
    var c', p := Wrap(c, rs), PipeTree(Block(l, rs), PipeEnd);
    if amps == 1 {
      assert Backs(c', amps) == Backs(Back(c'), 0) == Back(c');
    }
    assert MeaningPipe(p) == MeaningExec(p.first) == c';
    assert ValidExec(p.first) == ValidLine(l) && ValidPipe(p) == ValidExec(p.first);
  }

  lemma {:induction false} PrintMeans<W>(cmd: Cmd<W>)
    ensures MeaningLine(Print(cmd)) == cmd
    ensures Fits(cmd) ==> ValidLine(Print(cmd))
    decreases cmd
  {
    match cmd
    case Exec(argv) =>
      var p := PipeTree(Simple([], PlainArgs(argv)), PipeEnd);
      assert [] + ArgRedirs(PlainArgs(argv)) == [];
      assert MeaningPipe(p) == MeaningExec(p.first) == Wrap(Exec(argv), []) == cmd;
    case Redir(c, m, f) =>
      PrintMeans(c);
      MeansBlock(Print(c), [Redirection(m, f)], 0);
    case Pipe(l, r) =>
      PrintMeans(l); PrintMeans(r);
      MeansBlock(Print(r), [], 0);
      var p := PipeTree(Block(Print(r), []), PipeEnd);
      assert MeaningPipe(p) == MeaningExec(p.first) == Wrap(r, []) == r;
      var p' := PipeTree(Block(Print(l), []), Bar(p));
      assert MeaningExec(p'.first) == Wrap(l, []) == l;
      assert MeaningPipe(p') == Pipe(l, r);
      assert Fits(cmd) ==> ValidPipe(p) && ValidPipe(p');
    case List(l, r) =>
      PrintMeans(l); PrintMeans(r);
      MeansBlock(Print(l), [], 0);
      MeansBlock(Print(r), [], 0);
    case Back(c) =>
      PrintMeans(c);
      MeansBlock(Print(c), [], 1);
  }

  /** Parsing the printed tokens of any command that fits gives it back. */
  lemma PrintParse<W>(cmd: Cmd<W>)
    requires Fits(cmd)
    ensures ParseAll(YieldLine(Print(cmd), [])) == Some(cmd)
  {
    PrintMeans(cmd);
    Language(YieldLine(Print(cmd), []), cmd);
  }
}
