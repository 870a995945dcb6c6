/** From tokens to text: what a line of characters parses to, how a command is
    spelled, and the round trip between the two. */
module ShellText {
  import opened Options
  import opened Seqs
  import opened ShellSyntax
  import opened ShellGrammar

  // ----- replacing the words of tokens and commands -----

  function MapToken<V, W>(f: V -> W, t: Token<V>): Token<W> {
    match t case Op(c) => Op(c) case Word(w) => Word(f(w))
  }

  function MapTokens<V, W>(f: V -> W, ts: seq<Token<V>>): (r: seq<Token<W>>)
    ensures |r| == |ts|
    ensures forall i :: 0 <= i < |ts| ==> r[i] == MapToken(f, ts[i])
  {
    seq(|ts|, i requires 0 <= i < |ts| => MapToken(f, ts[i]))
  }

  function MapWords<V, W>(f: V -> W, ws: seq<V>): (r: seq<W>)
    ensures |r| == |ws|
    ensures forall i :: 0 <= i < |ws| ==> r[i] == f(ws[i])
  {
    seq(|ws|, i requires 0 <= i < |ws| => f(ws[i]))
  }

  function MapRedir<V, W>(f: V -> W, r: Redirection<V>): Redirection<W> {
    Redirection(r.mode, f(r.file))
  }

  function MapRedirs<V, W>(f: V -> W, rs: seq<Redirection<V>>): (r: seq<Redirection<W>>)
    ensures |r| == |rs|
    ensures forall i :: 0 <= i < |rs| ==> r[i] == MapRedir(f, rs[i])
  {
    seq(|rs|, i requires 0 <= i < |rs| => MapRedir(f, rs[i]))
  }

  function MapCmd<V, W>(f: V -> W, cmd: Cmd<V>): Cmd<W> {
    match cmd
    case Exec(argv) => Exec(MapWords(f, argv))
    case Redir(c, m, file) => Redir(MapCmd(f, c), m, f(file))
    case Pipe(l, r) => Pipe(MapCmd(f, l), MapCmd(f, r))
    case List(l, r) => List(MapCmd(f, l), MapCmd(f, r))
    case Back(c) => Back(MapCmd(f, c))
  }

  function MapParsed<V, W>(f: V -> W, p: Parsed<V>): Parsed<W> {
    match p case Failed => Failed case Ok(c, rest) => Ok(MapCmd(f, c), MapTokens(f, rest))
  }

  function MapArgs<V, W>(f: V -> W, p: ParsedArgs<V>): ParsedArgs<W> {
    match p
    case BadArgs => BadArgs
    case Args(ws, rs, rest) => Args(MapWords(f, ws), MapRedirs(f, rs), MapTokens(f, rest))
  }

  // ----- the parser looks at the kinds of tokens only, never into the words -----

  lemma {:induction false} WrapMap<V, W>(f: V -> W, c: Cmd<V>, rs: seq<Redirection<V>>)
    ensures MapCmd(f, Wrap(c, rs)) == Wrap(MapCmd(f, c), MapRedirs(f, rs))
    decreases |rs|
  {
    if |rs| > 0 {
      WrapMap(f, Redir(c, rs[0].mode, rs[0].file), rs[1..]);
      assert MapRedirs(f, rs)[1..] == MapRedirs(f, rs[1..]);
    }
  }

  lemma {:induction false} RedirsMap<V, W>(f: V -> W, ts: seq<Token<V>>)
    ensures ParseRedirs(MapTokens(f, ts)) ==
            match ParseRedirs(ts)
            case BadRedir => BadRedir
            case Redirs(rs, rest) => Redirs(MapRedirs(f, rs), MapTokens(f, rest))
    decreases |ts|
  {
    var us := MapTokens(f, ts);
    if !Starts(ts, {'<', '>'}) {
      assert MapRedirs(f, []) == [];
    } else if |ts| >= 2 && ts[1].Word? {
      assert us[2..] == MapTokens(f, ts[2..]);
      RedirsMap(f, ts[2..]);
      match ParseRedirs(ts[2..]) {
        case BadRedir =>
        case Redirs(rs, rest) =>
          var r := Redirection(ModeOf(ts[0].c), ts[1].text);
          assert MapRedirs(f, [r] + rs) == [MapRedir(f, r)] + MapRedirs(f, rs);
      }
    }
  }

  lemma {:induction false} PrependMap<V, W>(f: V -> W, ws: seq<V>, rs: seq<Redirection<V>>, p: ParsedArgs<V>)
    ensures MapArgs(f, Prepend(ws, rs, p)) == Prepend(MapWords(f, ws), MapRedirs(f, rs), MapArgs(f, p))
  {
    if p.Args? {
      assert MapWords(f, ws + p.words) == MapWords(f, ws) + MapWords(f, p.words);
      assert MapRedirs(f, rs + p.redirs) == MapRedirs(f, rs) + MapRedirs(f, p.redirs);
    }
  }

  lemma {:induction false} ArgsMap<V, W>(f: V -> W, n: nat, ts: seq<Token<V>>)
    ensures ParseArgs(n, MapTokens(f, ts)) == MapArgs(f, ParseArgs(n, ts))
    decreases |ts|
  {
    var us := MapTokens(f, ts);
    if |ts| == 0 || Starts(ts, {'|', ')', '&', ';'}) {
      assert MapWords(f, []) == [] && MapRedirs(f, []) == [];
    } else if ts[0].Word? && n + 1 < MAXARGS {
      assert us[1..] == MapTokens(f, ts[1..]);
      RedirsMap(f, ts[1..]);
      match ParseRedirs(ts[1..]) {
        case BadRedir =>
        case Redirs(rs, rest) =>
          ArgsMap(f, n + 1, rest);
          PrependMap(f, [ts[0].text], rs, ParseArgs(n + 1, rest));
          assert MapWords(f, [ts[0].text]) == [f(ts[0].text)];
      }
    }
  }

  lemma {:induction false} SimpleMap<V, W>(f: V -> W, ts: seq<Token<V>>)
    ensures ParseSimple(MapTokens(f, ts)) == MapArgs(f, ParseSimple(ts))
  {
    RedirsMap(f, ts);
    match ParseRedirs(ts)
    case BadRedir =>
    case Redirs(rs, rest) =>
      ArgsMap(f, 0, rest);
      PrependMap(f, [], rs, ParseArgs(0, rest));
      assert MapWords(f, []) == [];
  }

  lemma {:induction false} ExecMap<V, W>(f: V -> W, ts: seq<Token<V>>)
    ensures ParseExec(MapTokens(f, ts)) == MapParsed(f, ParseExec(ts))
    decreases |ts|, 1
  {
    var us := MapTokens(f, ts);
    if Starts(ts, {'('}) {
      assert us[1..] == MapTokens(f, ts[1..]);
      LineMap(f, ts[1..]);
      match ParseLine(ts[1..]) {
        case Failed =>
        case Ok(c, rest) =>
          if Starts(rest, {')'}) {
            assert MapTokens(f, rest)[1..] == MapTokens(f, rest[1..]);
            RedirsMap(f, rest[1..]);
            if ParseRedirs(rest[1..]).Redirs? {
              WrapMap(f, c, ParseRedirs(rest[1..]).redirs);
            }
          }
      }
    } else {
      SimpleMap(f, ts);
      match ParseSimple(ts) {
        case BadArgs =>
        case Args(ws, rs, rest) => WrapMap(f, Exec(ws), rs);
      }
    }
  }

  lemma {:induction false} PipeMap<V, W>(f: V -> W, ts: seq<Token<V>>)
    ensures ParsePipe(MapTokens(f, ts)) == MapParsed(f, ParsePipe(ts))
    decreases |ts|, 2
  {
    ExecMap(f, ts);
    match ParseExec(ts)
    case Failed =>
    case Ok(c, rest) =>
      if Starts(rest, {'|'}) {
        assert MapTokens(f, rest)[1..] == MapTokens(f, rest[1..]);
        PipeMap(f, rest[1..]);
      }
  }

  lemma {:induction false} AmpsMap<V, W>(f: V -> W, c: Cmd<V>, ts: seq<Token<V>>)
    ensures ParseAmps(MapCmd(f, c), MapTokens(f, ts)) ==
            (MapCmd(f, ParseAmps(c, ts).0), MapTokens(f, ParseAmps(c, ts).1))
    decreases |ts|
  {
    if Starts(ts, {'&'}) {
      assert MapTokens(f, ts)[1..] == MapTokens(f, ts[1..]);
      AmpsMap(f, Back(c), ts[1..]);
    }
  }

  lemma {:induction false} LineMap<V, W>(f: V -> W, ts: seq<Token<V>>)
    ensures ParseLine(MapTokens(f, ts)) == MapParsed(f, ParseLine(ts))
    decreases |ts|, 3
  {
    PipeMap(f, ts);
    match ParsePipe(ts)
    case Failed =>
    case Ok(c, r) =>
      AmpsMap(f, c, r);
      var rest := ParseAmps(c, r).1;
      if Starts(rest, {';'}) {
        assert MapTokens(f, rest)[1..] == MapTokens(f, rest[1..]);
        LineMap(f, rest[1..]);
      }
  }

  // ----- lines of text -----

  function SliceText(line: string, w: Slice): string {
    if w.q <= w.eq <= |line| then line[w.q..w.eq] else ""
  }

  /** The reading of slices as text in a given line. */
  function TextIn(line: string): Slice -> string {
    (w: Slice) => SliceText(line, w)
  }

  /** What parsecmd makes of a line, as text; None when an assertion stops it. */
  function ParseText(line: string): Option<Cmd<string>> {
    match ParseAll(Lex(line, 0))
    case None => None
    case Some(cmd) => Some(MapCmd(TextIn(line), cmd))
  }

  /** The words of the line, as text. */
  function Words(line: string): seq<Token<string>> {
    MapTokens(TextIn(line), Lex(line, 0))
  }

  lemma {:induction false} ParseTextIsParseOfWords(line: string)
    ensures ParseText(line) == ParseAll(Words(line))
  {
    LineMap(TextIn(line), Lex(line, 0));
  }

  function SpellToken(t: Token<string>): string {
    match t
    case Op(c) => if c == '+' then ">> " else [c, ' ']
    case Word(w) => w + " "
  }

  function Spell(ts: seq<Token<string>>): string
    decreases |ts|
  {
    if |ts| == 0 then "" else SpellToken(ts[0]) + Spell(ts[1..])
  }

  ghost predicate LegalWord(w: string) {
    w != "" && forall i :: 0 <= i < |w| ==> IsWordChar(w[i])
  }

  ghost predicate LegalToken(t: Token<string>) {
    match t case Op(c) => IsSymbol(c) || c == '+' case Word(w) => LegalWord(w)
  }

  /** s stands in the line at position i. */
  ghost predicate At(line: string, i: nat, s: string) {
    i + |s| <= |line| && forall k :: 0 <= k < |s| ==> line[i + k] == s[k]
  }

  lemma {:induction false} ScanSpelledOp(line: string, i: nat, c: char)
    requires LegalToken(Op(c)) && At(line, i, SpellToken(Op(c)))
    ensures var j := i + |SpellToken(Op(c))| - 1;
            !IsSpace(line[i]) && ScanToken(line, i) == (Op(c), j) && line[j] == ' '
  {
    var s := SpellToken(Op(c));
    assert line[i + 0] == s[0] && line[i + 1] == s[1] && line[i + (|s| - 1)] == s[|s| - 1];
  }

  lemma {:induction false} ScanSpelledWord(line: string, i: nat, w: string)
    requires LegalWord(w) && At(line, i, w + " ")
    ensures !IsSpace(line[i]) && ScanToken(line, i) == (Word(Slice(i, i + |w|)), i + |w|) && line[i + |w|] == ' '
    ensures SliceText(line, Slice(i, i + |w|)) == w
  {
    var s := w + " ";
    assert line[i + 0] == s[0] == w[0] && line[i + |w|] == s[|w|] == ' ';
    assert forall k :: 0 <= k < |w| ==> line[i + k] == s[k] == w[k];
    assert forall k :: i <= k < i + |w| ==> line[k] == w[k - i];
    assert line[i..i + |w|] == w;
  }

  /** The tokens from i on read ts. */
  ghost predicate LexesTo(line: string, i: nat, ts: seq<Token<string>>)
    requires i <= |line|
  {
    MapTokens(TextIn(line), Lex(line, i)) == ts
  }

  lemma {:induction false} LexBeforeSpace(line: string, i: nat, tok: Token<Slice>, j: nat)
    requires i < |line| && !IsSpace(line[i]) && ScanToken(line, i) == (tok, j)
    requires j < |line| && line[j] == ' '
    ensures forall ts :: LexesTo(line, j + 1, ts) ==> LexesTo(line, i, [MapToken(TextIn(line), tok)] + ts)
  {
    assert SkipSpace(line, i) == i;
    assert SkipSpace(line, j) == SkipSpace(line, j + 1);
    assert Lex(line, i) == [tok] + Lex(line, j + 1);
  }

  /** Lexing one spelled token at position i. */
  lemma {:induction false} LexSpelledToken(line: string, i: nat, t: Token<string>, e: nat)
    requires LegalToken(t) && At(line, i, SpellToken(t)) && e == i + |SpellToken(t)|
    ensures forall ts :: LexesTo(line, e, ts) ==> LexesTo(line, i, [t] + ts)
  {
    match t {
      case Op(c) =>
        ScanSpelledOp(line, i, c);
        assert MapToken(TextIn(line), Op(c)) == t;
        LexBeforeSpace(line, i, Op(c), e - 1);
      case Word(w) =>
        ScanSpelledWord(line, i, w);
        assert MapToken(TextIn(line), Word(Slice(i, i + |w|))) == Word(w);
        LexBeforeSpace(line, i, Word(Slice(i, i + |w|)), e - 1);
    }
  }

  ghost predicate SpelledAt(line: string, i: nat, ts: seq<Token<string>>)
    requires i <= |line|
  {
    line[i..] == Spell(ts)
  }

  lemma {:induction false} SplitSpelled(line: string, i: nat, ts: seq<Token<string>>) returns (e: nat)
    requires i <= |line| && SpelledAt(line, i, ts) && |ts| > 0
    ensures e == i + |SpellToken(ts[0])| <= |line|
    ensures At(line, i, SpellToken(ts[0])) && SpelledAt(line, e, ts[1..])
  {
    var s, rest := SpellToken(ts[0]), Spell(ts[1..]);
    e := i + |s|;
    assert line[i..] == s + rest;
    assert forall k :: 0 <= k < |s| ==> line[i + k] == line[i..][k] == s[k];
    assert forall k :: 0 <= k < |rest| ==> line[e + k] == line[i..][|s| + k] == rest[k];
  }

  lemma {:induction false} LexesToEnd(line: string, i: nat, ts: seq<Token<string>>)
    requires i <= |line| && SpelledAt(line, i, ts) && |ts| == 0
    ensures LexesTo(line, i, ts)
  {
    assert |line[i..]| == 0;
  }

  /** Lexing what was spelled gives the tokens back. */
  lemma {:induction false} LexSpelled(line: string, i: nat, ts: seq<Token<string>>)
    requires i <= |line| && SpelledAt(line, i, ts)
    requires forall k :: 0 <= k < |ts| ==> LegalToken(ts[k])
    ensures LexesTo(line, i, ts)
    decreases |ts|
  {
    if |ts| == 0 {
      LexesToEnd(line, i, ts);
    } else {
      var e := SplitSpelled(line, i, ts);
      LexSpelledToken(line, i, ts[0], e);
      LexSpelled(line, e, ts[1..]);
      HeadTail(ts);
    }
  }

  // ----- legal commands -----

  ghost predicate LegalCmd(cmd: Cmd<string>) {
    match cmd
    case Exec(argv) => |argv| < MAXARGS && forall w :: w in argv ==> LegalWord(w)
    case Redir(c, _, f) => LegalCmd(c) && LegalWord(f)
    case Pipe(l, r) => LegalCmd(l) && LegalCmd(r)
    case List(l, r) => LegalCmd(l) && LegalCmd(r)
    case Back(c) => LegalCmd(c)
  }

  ghost predicate LegalTokens(ts: seq<Token<string>>) {
    forall i :: 0 <= i < |ts| ==> LegalToken(ts[i])
  }

  lemma {:induction false} PlainArgsLegal(argv: seq<string>, rest: seq<Token<string>>)
    requires forall w :: w in argv ==> LegalWord(w)
    requires LegalTokens(rest)
    ensures LegalTokens(YieldArgs(PlainArgs(argv), rest))
    decreases |argv|
  {
    if |argv| > 0 {
      PlainArgsLegal(argv[1..], rest);
      ConsTail(Arg(argv[0], []), PlainArgs(argv[1..]));
    }
  }

  lemma {:induction false} OneLineYield(e: ExecTree<string>, rest: seq<Token<string>>)
    ensures YieldLine(OneLine(e, 0), rest) == YieldExec(e, rest)
  {
    assert Amps(0, rest) == rest;
  }

  lemma {:induction false} PlainBlockYield(l: LineTree<string>, rest: seq<Token<string>>)
    ensures YieldExec(Block(l, []), rest) == [Op('(')] + YieldLine(l, [Op(')')] + rest)
  {
    assert YieldRedirs([], rest) == rest;
  }

  lemma {:induction false} PrintLegal(cmd: Cmd<string>, rest: seq<Token<string>>)
    requires LegalCmd(cmd) && LegalTokens(rest)
    ensures Fits(cmd)
    ensures LegalTokens(YieldLine(Print(cmd), rest))
    decreases cmd
  {
    match cmd
    case Exec(argv) =>
      PlainArgsLegal(argv, rest);
      OneLineYield(Simple([], PlainArgs(argv)), rest);
      assert YieldRedirs([], YieldArgs(PlainArgs(argv), rest)) == YieldArgs(PlainArgs(argv), rest);
    case Redir(c, m, f) =>
      var one := [Redirection(m, f)];
      assert YieldRedirs(one, rest) == [Op(OpOf(m))] + ([Word(f)] + YieldRedirs(one[1..], rest));
      PrintLegal(c, [Op(')')] + YieldRedirs(one, rest));
      OneLineYield(Block(Print(c), one), rest);
    case Pipe(l, r) =>
      var p := PipeTree(Block(Print(r), []), PipeEnd);
      PlainBlockYield(Print(r), rest);
      PlainBlockYield(Print(l), [Op('|')] + YieldPipe(p, rest));
      PrintLegal(r, [Op(')')] + rest);
      PrintLegal(l, [Op(')')] + ([Op('|')] + YieldPipe(p, rest)));
      assert Amps(0, rest) == rest;
    case List(l, r) =>
      var e := Block(Print(r), []);
      OneLineYield(e, rest);
      PlainBlockYield(Print(r), rest);
      PlainBlockYield(Print(l), [Op(';')] + YieldExec(e, rest));
      PrintLegal(r, [Op(')')] + rest);
      PrintLegal(l, [Op(')')] + ([Op(';')] + YieldExec(e, rest)));
      assert Amps(0, [Op(';')] + YieldExec(e, rest)) == [Op(';')] + YieldExec(e, rest);
    case Back(c) =>
      PlainBlockYield(Print(c), [Op('&')] + rest);
      PrintLegal(c, [Op(')')] + ([Op('&')] + rest));
      assert Amps(1, rest) == [Op('&')] + Amps(0, rest);
  }

  /** The round trip: any command of legal words, spelled out with all its
      parentheses, is parsed back to itself and the whole line is used. */
  lemma RoundTrip(cmd: Cmd<string>)
    requires LegalCmd(cmd)
    ensures ParseText(Spell(YieldLine(Print(cmd), []))) == Some(cmd)
  {
    var ts := YieldLine(Print(cmd), []);
    PrintLegal(cmd, []);
    LexSpelled(Spell(ts), 0, ts);
    ParseTextIsParseOfWords(Spell(ts));
    PrintParse(cmd);
  }

  // ----- the parser returns legal commands only -----

  /** Every word of the command satisfies p and it fits. */
  ghost predicate AllWords<W>(p: W -> bool, cmd: Cmd<W>) {
    match cmd
    case Exec(argv) => |argv| < MAXARGS && forall i :: 0 <= i < |argv| ==> p(argv[i])
    case Redir(c, _, f) => AllWords(p, c) && p(f)
    case Pipe(l, r) => AllWords(p, l) && AllWords(p, r)
    case List(l, r) => AllWords(p, l) && AllWords(p, r)
    case Back(c) => AllWords(p, c)
  }

  ghost predicate AllTokens<W>(p: W -> bool, ts: seq<Token<W>>) {
    forall i :: 0 <= i < |ts| && ts[i].Word? ==> p(ts[i].text)
  }

  lemma {:induction false} WrapWords<W>(p: W -> bool, c: Cmd<W>, rs: seq<Redirection<W>>)
    requires AllWords(p, c) && forall i :: 0 <= i < |rs| ==> p(rs[i].file)
    ensures AllWords(p, Wrap(c, rs))
    decreases |rs|
  {
    if |rs| > 0 {
      WrapWords(p, Redir(c, rs[0].mode, rs[0].file), rs[1..]);
    }
  }

  lemma {:induction false} RedirsWords<W>(p: W -> bool, ts: seq<Token<W>>)
    requires AllTokens(p, ts) && ParseRedirs(ts).Redirs?
    ensures var r := ParseRedirs(ts); AllTokens(p, r.rest) && forall i :: 0 <= i < |r.redirs| ==> p(r.redirs[i].file)
    decreases |ts|
  {
    if Starts(ts, {'<', '>'}) {
      RedirsWords(p, ts[2..]);
    }
  }

  lemma {:induction false} ArgsWords<W>(p: W -> bool, n: nat, ts: seq<Token<W>>)
    requires AllTokens(p, ts) && ParseArgs(n, ts).Args? && n < MAXARGS
    ensures var r := ParseArgs(n, ts);
            && AllTokens(p, r.rest) && n + |r.words| < MAXARGS
            && (forall i :: 0 <= i < |r.words| ==> p(r.words[i]))
            && (forall i :: 0 <= i < |r.redirs| ==> p(r.redirs[i].file))
    decreases |ts|
  {
    if |ts| > 0 && !Starts(ts, {'|', ')', '&', ';'}) {
      RedirsWords(p, ts[1..]);
      ArgsWords(p, n + 1, ParseRedirs(ts[1..]).rest);
    }
  }

  lemma {:induction false} SimpleWords<W>(p: W -> bool, ts: seq<Token<W>>)
    requires AllTokens(p, ts) && ParseSimple(ts).Args?
    ensures var r := ParseSimple(ts); AllTokens(p, r.rest) && AllWords(p, Wrap(Exec(r.words), r.redirs))
  {
    RedirsWords(p, ts);
    var r := ParseRedirs(ts);
    ArgsWords(p, 0, r.rest);
    var s := ParseSimple(ts);
    WrapWords(p, Exec(s.words), s.redirs);
  }

  ghost predicate GoodResult<W>(p: W -> bool, r: Parsed<W>) {
    r.Ok? ==> AllWords(p, r.cmd) && AllTokens(p, r.rest)
  }

  lemma {:induction false} ExecWords<W>(p: W -> bool, ts: seq<Token<W>>)
    requires AllTokens(p, ts)
    ensures GoodResult(p, ParseExec(ts))
    decreases |ts|, 1
  {
    if Starts(ts, {'('}) {
      LineWords(p, ts[1..]);
      match ParseLine(ts[1..]) {
        case Failed =>
        case Ok(c, rest) =>
          if Starts(rest, {')'}) && ParseRedirs(rest[1..]).Redirs? {
            RedirsWords(p, rest[1..]);
            WrapWords(p, c, ParseRedirs(rest[1..]).redirs);
          }
      }
    } else if ParseSimple(ts).Args? {
      SimpleWords(p, ts);
    }
  }

  lemma {:induction false} PipeWords<W>(p: W -> bool, ts: seq<Token<W>>)
    requires AllTokens(p, ts)
    ensures GoodResult(p, ParsePipe(ts))
    decreases |ts|, 2
  {
    ExecWords(p, ts);
    match ParseExec(ts)
    case Failed =>
    case Ok(c, rest) =>
      if Starts(rest, {'|'}) { PipeWords(p, rest[1..]); }
  }

  lemma {:induction false} AmpsWords<W>(p: W -> bool, c: Cmd<W>, ts: seq<Token<W>>)
    requires AllTokens(p, ts) && AllWords(p, c)
    ensures AllWords(p, ParseAmps(c, ts).0) && AllTokens(p, ParseAmps(c, ts).1)
    decreases |ts|
  {
    if Starts(ts, {'&'}) { AmpsWords(p, Back(c), ts[1..]); }
  }

  lemma {:induction false} LineWords<W>(p: W -> bool, ts: seq<Token<W>>)
    requires AllTokens(p, ts)
    ensures GoodResult(p, ParseLine(ts))
    decreases |ts|, 3
  {
    PipeWords(p, ts);
    match ParsePipe(ts)
    case Failed =>
    case Ok(c, r) =>
      AmpsWords(p, c, r);
      var rest := ParseAmps(c, r).1;
      if Starts(rest, {';'}) { LineWords(p, rest[1..]); }
  }

  /** Every slice in the command parsed from a line is one of its words, and a
      command has at most nine of them. */
  lemma ParsedSlicesDelimited(line: string)
    ensures var r := ParseLine(Lex(line, 0));
            r.Ok? ==> AllWords(w => Delimited(line, w), r.cmd)
  {
    var p := w => Delimited(line, w);
    LexDelimits(line, 0);
    assert AllTokens(p, Lex(line, 0)) by {
      var ts := Lex(line, 0);
      forall i | 0 <= i < |ts| && ts[i].Word? ensures p(ts[i].text) { assert ts[i] in ts; }
    }
    LineWords(p, Lex(line, 0));
  }

  lemma {:induction false} DelimitedIsLegal(line: string, cmd: Cmd<Slice>)
    requires AllWords(w => Delimited(line, w), cmd)
    ensures LegalCmd(MapCmd(TextIn(line), cmd))
    decreases cmd
  {
    match cmd
    case Exec(argv) =>
    case Redir(c, _, f) => DelimitedIsLegal(line, c);
    case Pipe(l, r) => DelimitedIsLegal(line, l); DelimitedIsLegal(line, r);
    case List(l, r) => DelimitedIsLegal(line, l); DelimitedIsLegal(line, r);
    case Back(c) => DelimitedIsLegal(line, c);
  }

  /** Parsing any line whatever, printing the result and parsing again changes
      nothing: printed text is a normal form of every line the shell accepts. */
  lemma NormalForm(line: string)
    requires ParseText(line).Some?
    ensures var cmd := ParseText(line).value;
            LegalCmd(cmd) && ParseText(Spell(YieldLine(Print(cmd), []))) == ParseText(line)
  {
    ParsedSlicesDelimited(line);
    DelimitedIsLegal(line, ParseLine(Lex(line, 0)).cmd);
    RoundTrip(ParseText(line).value);
  }
}
