/** What a line of characters is cut into, said in terms of its characters only, and what it
    then means. */
module ShellTokens {
  import opened Options
  import opened ShellSyntax
  import opened ShellGrammar
  import opened ShellText

  predicate Blank(c: char) { c in " \t\r\n\U{0B}" }

  predicate Separator(c: char) { c in " \t\r\n\U{0B}<|>&;()" }

  /** The token stands in the line from w.q to w.eq. A word is as long as it can be, and so
      is an operator. */
  ghost predicate Reads(line: string, w: Slice, t: Token<Slice>)
    requires w.q < w.eq <= |line|
  {
    match t
    case Word(text) =>
      && text == w && (forall k :: w.q <= k < w.eq ==> !Separator(line[k]))
      && (w.q > 0 ==> Separator(line[w.q - 1])) && (w.eq < |line| ==> Separator(line[w.eq]))
    case Op(c) =>
      if c == '+' then line[w.q..w.eq] == ">>"
      else c in "<|>&;()" && line[w.q..w.eq] == [c] && (c == '>' && w.eq < |line| ==> line[w.eq] != '>')
  }

  /** From position i on, the tokens are in the line one behind the other, at the given
      places, and all else is white space. */
  ghost predicate Tokenized(line: string, i: nat, ts: seq<Token<Slice>>, spans: seq<Slice>) {
    && |spans| == |ts|
    && (forall n :: 0 <= n < |ts| ==> i <= spans[n].q < spans[n].eq <= |line| && Reads(line, spans[n], ts[n]))
    && (forall m, n :: 0 <= m < n < |ts| ==> spans[m].eq <= spans[n].q)
    && (forall k :: i <= k < |line| && !Inside(spans, k) ==> Blank(line[k]))
  }

  ghost predicate Inside(spans: seq<Slice>, k: int) {
    exists n :: 0 <= n < |spans| && spans[n].q <= k < spans[n].eq
  }

  /** No word goes on across position i. */
  predicate Boundary(line: string, i: nat) {
    i == 0 || i >= |line| || Separator(line[i - 1]) || Separator(line[i])
  }

  lemma {:induction false} Skipped(line: string, i: nat)
    requires i <= |line|
    ensures forall k :: i <= k < SkipSpace(line, i) ==> Blank(line[k])
    ensures SkipSpace(line, i) < |line| ==> !Blank(line[SkipSpace(line, i)])
    decreases |line| - i
  {
    if i < |line| && IsSpace(line[i]) { Skipped(line, i + 1); }
  }

  /** What is scanned stands there. */
  lemma Scanned(line: string, q: nat)
    requires q < |line| && !Blank(line[q]) && (q > 0 && !Separator(line[q]) ==> Separator(line[q - 1]))
    ensures !IsSpace(line[q])
    ensures var (t, e) := ScanToken(line, q); Reads(line, Slice(q, e), t) && Boundary(line, e)
  {
    var (t, e) := ScanToken(line, q);
    if t.Op? && t.c == '+' { assert line[q..e] == ">>"; }
  }

  /** Nothing else stands there. */
  lemma ScannedOnly(line: string, q: nat, t: Token<Slice>, e: nat)
    requires q < e <= |line| && Reads(line, Slice(q, e), t)
    ensures !IsSpace(line[q]) && ScanToken(line, q) == (t, e) && !Blank(line[q]) && Boundary(line, e)
  {
    assert line[q] == line[q..e][0];
    if t.Op? && t.c == '+' {
      assert line[q + 1] == line[q..e][1];
    } else if t.Word? {
      assert !Separator(line[q]);
      WordEnds(line, q, e);
    }
  }

  lemma {:induction false} WordEnds(line: string, q: nat, e: nat)
    requires q <= e <= |line| && (forall k :: q <= k < e ==> !Separator(line[k])) && (e < |line| ==> Separator(line[e]))
    ensures SkipWord(line, q) == e
    decreases e - q
  {
    if q < e {
      assert !Separator(line[q]);
      WordEnds(line, q + 1, e);
    }
  }

  /** The lexer cuts the line into tokens, */
  lemma {:induction false} LexTokenizes(line: string, i: nat) returns (spans: seq<Slice>)
    requires i <= |line| && Boundary(line, i)
    ensures Tokenized(line, i, Lex(line, i), spans)
    decreases |line| - i
  {
    var q := SkipSpace(line, i);
    Skipped(line, i);
    if q == |line| {
      spans := [];
    } else {
      assert q > i ==> Blank(line[q - 1]);
      Scanned(line, q);
      var (t, e) := ScanToken(line, q);
      var later := LexTokenizes(line, e);
      spans := [Slice(q, e)] + later;
      OneMoreToken(line, i, q, e, t, Lex(line, e), later);
    }
  }

  lemma OneMoreToken(line: string, i: nat, q: nat, e: nat, t: Token<Slice>, ts: seq<Token<Slice>>, later: seq<Slice>)
    requires i <= q < e <= |line| && Reads(line, Slice(q, e), t) && Tokenized(line, e, ts, later)
    requires forall k :: i <= k < q ==> Blank(line[k])
    ensures Tokenized(line, i, [t] + ts, [Slice(q, e)] + later)
  {
    hide Reads, Blank;
    var all := [Slice(q, e)] + later;
    forall k | i <= k < |line| && !Inside(all, k) ensures Blank(line[k]) { InsideMore(Slice(q, e), later, k); }
  }

  lemma InsideMore(w: Slice, spans: seq<Slice>, k: int)
    ensures Inside([w] + spans, k) <==> w.q <= k < w.eq || Inside(spans, k)
  {
    var all := [w] + spans;
    if w.q <= k < w.eq { assert all[0].q <= k < all[0].eq; }
    if n :| 0 <= n < |spans| && spans[n].q <= k < spans[n].eq { assert all[n + 1].q <= k < all[n + 1].eq; }
  }

  /** and there is no other way to. */
  lemma {:induction false} LexOnly(line: string, i: nat, ts: seq<Token<Slice>>, spans: seq<Slice>)
    requires i <= |line| && Tokenized(line, i, ts, spans)
    ensures ts == Lex(line, i)
    decreases |line| - i
  {
    var q := SkipSpace(line, i);
    Skipped(line, i);
    if ts == [] {
      assert q < |line| ==> !Inside(spans, q);
    } else {
      FirstToken(line, i, ts, spans, q);
      var e := spans[0].eq;
      ScannedOnly(line, q, ts[0], e);
      LaterTokens(line, i, ts, spans);
      LexOnly(line, e, ts[1..], spans[1..]);
      assert ts == [ts[0]] + ts[1..];
    }
  }

  /** The first token begins where the white space ends. */
  lemma FirstToken(line: string, i: nat, ts: seq<Token<Slice>>, spans: seq<Slice>, q: nat)
    requires Tokenized(line, i, ts, spans) && ts != [] && i <= q <= |line|
    requires (forall k :: i <= k < q ==> Blank(line[k])) && (q < |line| ==> !Blank(line[q]))
    ensures spans[0].q == q && q < |line|
  {
    var p := spans[0].q;
    ScannedOnly(line, p, ts[0], spans[0].eq);
    hide Reads, Blank;
    assert p >= q;
    var n :| 0 <= n < |spans| && spans[n].q <= q < spans[n].eq;
    if n > 0 { assert false; }
  }

  lemma LaterTokens(line: string, i: nat, ts: seq<Token<Slice>>, spans: seq<Slice>)
    requires Tokenized(line, i, ts, spans) && ts != []
    ensures Tokenized(line, spans[0].eq, ts[1..], spans[1..])
  {
    hide Reads, Blank;
    assert spans == [spans[0]] + spans[1..];
    forall k | spans[0].eq <= k < |line| && !Inside(spans[1..], k) ensures Blank(line[k]) {
      InsideMore(spans[0], spans[1..], k);
    }
  }

  /** The tokens of a line are those that it consists of. */
  lemma LexIff(line: string, ts: seq<Token<Slice>>)
    ensures ts == Lex(line, 0) <==> exists spans :: Tokenized(line, 0, ts, spans)
  {
    if ts == Lex(line, 0) {
      var spans := LexTokenizes(line, 0);
    }
    if spans :| Tokenized(line, 0, ts, spans) {
      LexOnly(line, 0, ts, spans);
    }
  }

  /** The line consists of these tokens, and the derivation of them means the command. */
  ghost predicate SpelledBy(line: string, ts: seq<Token<Slice>>, spans: seq<Slice>, l: LineTree<Slice>,
                            cmd: Cmd<string>) {
    && Tokenized(line, 0, ts, spans) && ValidLine(l) && YieldLine(l, []) == ts
    && MapCmd(TextIn(line), MeaningLine(l)) == cmd
  }

  ghost predicate Spells(line: string, cmd: Cmd<string>) {
    exists ts, spans, l :: SpelledBy(line, ts, spans, l, cmd)
  }

  lemma ParsedIsSpelled(line: string, cmd: Cmd<string>)
    requires ParseText(line) == Some(cmd)
    ensures Spells(line, cmd)
  {
    var ts := Lex(line, 0);
    var c := ParseAll(ts).value;
    assert MapCmd(TextIn(line), c) == cmd;
    hide ValidLine, YieldLine, MeaningLine, MapCmd, Lex, ParseLine, ParseText, ParseAll;
    var spans := LexTokenizes(line, 0);
    hide Tokenized;
    Language(ts, c);
    var l :| ValidLine(l) && YieldLine(l, []) == ts && MeaningLine(l) == c;
    assert SpelledBy(line, ts, spans, l, cmd);
  }

  lemma SpelledIsParsed(line: string, ts: seq<Token<Slice>>, spans: seq<Slice>, l: LineTree<Slice>, cmd: Cmd<string>)
    requires SpelledBy(line, ts, spans, l, cmd)
    ensures ParseText(line) == Some(cmd)
  {
    hide Tokenized, ValidLine, YieldLine, MeaningLine, Lex, ParseAll;
    LexOnly(line, 0, ts, spans);
    Language(ts, MeaningLine(l));
    assert ParseAll(ts) == Some(MeaningLine(l));
  }

  /** What parsecmd makes of a line is what the line spells. */
  lemma ParsesWhatIsSpelled(line: string, cmd: Cmd<string>)
    ensures ParseText(line) == Some(cmd) <==> Spells(line, cmd)
  {
    if ParseText(line) == Some(cmd) { ParsedIsSpelled(line, cmd); }
    if Spells(line, cmd) {
      var ts, spans, l :| SpelledBy(line, ts, spans, l, cmd);
      SpelledIsParsed(line, ts, spans, l, cmd);
    }
  }

  // ----- two words with an operator between them -----

  ghost predicate PlainWord(w: string) { w != "" && forall k :: 0 <= k < |w| ==> !Separator(w[k]) }

  function CodeOf(op: string): char { if op == ">>" then '+' else if op == "" then ' ' else op[0] }

  /** What is where in a line of three parts. */
  lemma Parts(a: string, op: string, b: string)
    ensures var line, m, n := a + op + b, |a|, |a| + |op|;
            && |line| == n + |b| && line[..m] == a && line[m..n] == op && line[n..n + |b|] == b
            && (forall k :: 0 <= k < m ==> line[k] == a[k]) && (forall k :: m <= k < n ==> line[k] == op[k - m])
            && forall k :: n <= k < n + |b| ==> line[k] == b[k - n]
  {
  }

  /** Without any space, "a>>b" is three tokens, and likewise for the other operators. */
  function ThreeTokens(a: string, op: string, b: string): seq<Token<Slice>> {
    [Word(Slice(0, |a|)), Op(CodeOf(op)), Word(Slice(|a| + |op|, |a| + |op| + |b|))]
  }

  lemma ThreeStand(a: string, op: string, b: string) returns (spans: seq<Slice>)
    requires PlainWord(a) && PlainWord(b) && op in {"<", ">", ">>", "|", ";", "&"}
    ensures Tokenized(a + op + b, 0, ThreeTokens(a, op, b), spans)
  {
    var line, m, n := a + op + b, |a|, |a| + |op|;
    spans := [Slice(0, m), Slice(m, n), Slice(n, n + |b|)];
    var ts := ThreeTokens(a, op, b);
    Parts(a, op, b);
    assert Separator(op[0]) && Separator(op[|op| - 1]) && |op| <= 2;
    assert Reads(line, spans[0], ts[0]) by { assert line[m] == op[0]; }
    assert Reads(line, spans[2], ts[2]) by { assert line[n - 1] == op[|op| - 1]; }
    assert Reads(line, spans[1], ts[1]) by { assert line[n] == b[0]; }
    hide Reads, Separator, Blank, PlainWord;
    forall k | 0 <= k < |line| ensures Inside(spans, k) {
      var i := if k < m then 0 else if k < n then 1 else 2;
      assert spans[i].q <= k < spans[i].eq;
    }
  }

  lemma ThreeLexed(a: string, op: string, b: string)
    requires PlainWord(a) && PlainWord(b) && op in {"<", ">", ">>", "|", ";", "&"}
    ensures Lex(a + op + b, 0) == ThreeTokens(a, op, b)
  {
    var spans := ThreeStand(a, op, b);
    LexOnly(a + op + b, 0, ThreeTokens(a, op, b), spans);
  }

  lemma ThreeWords(a: string, op: string, b: string)
    requires PlainWord(a) && PlainWord(b) && op in {"<", ">", ">>", "|", ";", "&"}
    ensures Words(a + op + b) == [Word(a), Op(CodeOf(op)), Word(b)]
  {
    ThreeLexed(a, op, b);
    Parts(a, op, b);
    hide Lex;
  }

  /** What each operator does with two words. */
  lemma OperatorText(a: string, op: string, b: string)
    requires PlainWord(a) && PlainWord(b) && op in {"<", ">", ">>", "|", ";", "&"}
    ensures ParseText(a + op + b) ==
            if op == "<" then Some(Redir(Exec([a]), Input, b))
            else if op == ">" then Some(Redir(Exec([a]), Truncate, b))
            else if op == ">>" then Some(Redir(Exec([a]), Append, b))
            else if op == "|" then Some(Pipe(Exec([a]), Exec([b])))
            else if op == ";" then Some(List(Exec([a]), Exec([b])))
            else None
  {
    ParseTextIsParseOfWords(a + op + b);
    ThreeWords(a, op, b);
    OperatorMeans(a, CodeOf(op), b);
    hide ParseText, Words, PlainWord, ParseAll;
  }

  lemma OneArg<W>(w: W, rs: seq<Redirection<W>>)
    ensures ArgRedirs([Arg(w, rs)]) == rs && ArgWords([Arg(w, rs)]) == [w]
    ensures forall rest :: YieldArgs([Arg(w, rs)], rest) == [Word(w)] + YieldRedirs(rs, rest)
  {
    assert [Arg(w, rs)][1..] == [];
  }

  lemma OneWord(w: string, rest: seq<Token<string>>)
    requires rest == [] || Starts(rest, {'|', '&', ';'})
    ensures ParseExec([Word(w)] + rest) == Ok(Exec([w]), rest)
  {
    OneArg<string>(w, []);
    CompleteSimple([], [Arg(w, [])], rest);
    var none: seq<Redirection<string>> := [];
    assert YieldRedirs(none, rest) == rest;
    assert YieldArgs([Arg(w, [])], rest) == [Word(w)] + YieldRedirs(none, rest);
    assert YieldExec(Simple([], [Arg(w, [])]), rest) == [Word(w)] + rest;
    assert none + none == none;
  }

  lemma RedirMeans(a: string, c: char, b: string)
    requires c in "<>+"
    ensures ParseExec([Word(a), Op(c), Word(b)]) == Ok(Redir(Exec([a]), ModeOf(c), b), [])
  {
    var rs := [Redirection(ModeOf(c), b)];
    var args := [Arg(a, rs)];
    OneArg(a, rs);
    CompleteSimple([], args, []);
    assert OpOf(ModeOf(c)) == c && rs[1..] == [];
    assert YieldRedirs(rs, []) == [Op(c)] + ([Word(b)] + YieldRedirs(rs[1..], []));
    assert YieldRedirs(rs, []) == [Op(c), Word(b)];
    assert YieldArgs(args, []) == [Word(a)] + YieldRedirs(rs, []);
    assert YieldExec(Simple([], args), []) == [Word(a), Op(c), Word(b)];
    assert [] + ArgRedirs(args) == rs;
    assert Wrap(Redir(Exec([a]), ModeOf(c), b), rs[1..]) == Redir(Exec([a]), ModeOf(c), b);
  }

  lemma OperatorMeans(a: string, c: char, b: string)
    requires c in "<>+|;&"
    ensures ParseAll([Word(a), Op(c), Word(b)]) ==
            if c in "<>+" then Some(Redir(Exec([a]), ModeOf(c), b))
            else if c == '|' then Some(Pipe(Exec([a]), Exec([b])))
            else if c == ';' then Some(List(Exec([a]), Exec([b])))
            else None
  {
    var ts := [Word(a), Op(c), Word(b)];
    OneWord(b, []);
    assert [Word(b)] + [] == [Word(b)];
    assert ParseLine([Word(b)]) == Ok(Exec([b]), []);
    if c in "<>+" {
      RedirMeans(a, c, b);
      assert ParsePipe(ts) == ParseLine(ts) == Ok(Redir(Exec([a]), ModeOf(c), b), []);
    } else {
      OneWord(a, ts[1..]);
      assert ts == [Word(a)] + ts[1..] && ts[1..][1..] == [Word(b)];
      assert ParseExec(ts) == Ok(Exec([a]), ts[1..]);
      assert ParsePipe([Word(b)]) == Ok(Exec([b]), []);
      if c == '|' {
        assert ParsePipe(ts) == Ok(Pipe(Exec([a]), Exec([b])), []);
      } else {
        assert ParsePipe(ts) == Ok(Exec([a]), ts[1..]);
        if c == '&' {
          assert ParseAmps(Exec([a]), ts[1..]) == ParseAmps(Back(Exec([a])), [Word(b)]) == (Back(Exec([a])), [Word(b)]);
        }
      }
    }
  }
}
