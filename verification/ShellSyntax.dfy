/** Command trees of the shell, the tokens they are read from, and the lexer
    of `gettoken` and `peek` as a function on the line. */
module ShellSyntax {

  /** The three ways parseredirs opens a file: `<` on descriptor 0, `>` with
      truncation and `>>` without it, both on descriptor 1. */
  datatype Mode = Input | Truncate | Append

  datatype Redirection<W> = Redirection(mode: Mode, file: W)

  datatype Cmd<W> =
    | Exec(argv: seq<W>)
    | Redir(cmd: Cmd<W>, mode: Mode, file: W)
    | Pipe(left: Cmd<W>, right: Cmd<W>)
    | List(left: Cmd<W>, right: Cmd<W>)
    | Back(cmd: Cmd<W>)

  /** gettoken's return codes: an operator character ('+' stands for `>>`), or
      a word, whose code is 'a'. */
  datatype Token<W> = Op(c: char) | Word(text: W)

  /** A word of the line: the pointers q and eq of gettoken. */
  datatype Slice = Slice(q: nat, eq: nat)

  const MAXARGS := 10

  /** peek: the next token is an operator that begins with one of the characters. */
  predicate Starts<W>(ts: seq<Token<W>>, toks: set<char>) {
    |ts| > 0 && ts[0].Op? && (if ts[0].c == '+' then '>' else ts[0].c) in toks
  }

  /** A command wrapped in redirections, the first of them innermost. */
  function Wrap<W>(cmd: Cmd<W>, rs: seq<Redirection<W>>): Cmd<W>
    decreases |rs|
  {
    if |rs| == 0 then cmd else Wrap(Redir(cmd, rs[0].mode, rs[0].file), rs[1..])
  }

  lemma {:induction false} WrapConcat<W>(cmd: Cmd<W>, a: seq<Redirection<W>>, b: seq<Redirection<W>>)
    ensures Wrap(cmd, a + b) == Wrap(Wrap(cmd, a), b)
    decreases |a|
  {
    if |a| == 0 {
      assert a + b == b;
    } else {
      assert (a + b)[1..] == a[1..] + b;
      WrapConcat(Redir(cmd, a[0].mode, a[0].file), a[1..], b);
    }
  }

  /** The arrays argv and eargv have MAXARGS places and the last is the
      terminator, so a command the shell can hold has at most nine words. */
  ghost predicate Fits<W>(cmd: Cmd<W>) {
    match cmd
    case Exec(argv) => |argv| <= 9
    case Redir(c, _, _) => Fits(c)
    case Pipe(l, r) => Fits(l) && Fits(r)
    case List(l, r) => Fits(l) && Fits(r)
    case Back(c) => Fits(c)
  }

  // ----- the lexer -----

  predicate IsSpace(c: char) { c == ' ' || c == '\t' || c == '\r' || c == '\n' || c == '\U{0B}' }

  predicate IsSymbol(c: char) {
    c == '<' || c == '|' || c == '>' || c == '&' || c == ';' || c == '(' || c == ')'
  }

  predicate IsWordChar(c: char) { !IsSpace(c) && !IsSymbol(c) }

  function SkipSpace(line: string, i: nat): (j: nat)
    requires i <= |line|
    ensures i <= j <= |line|
    ensures j < |line| ==> !IsSpace(line[j])
    decreases |line| - i
  {
    if i < |line| && IsSpace(line[i]) then SkipSpace(line, i + 1) else i
  }

  function SkipWord(line: string, i: nat): (j: nat)
    requires i <= |line|
    ensures i <= j <= |line|
    ensures forall k :: i <= k < j ==> IsWordChar(line[k])
    ensures j < |line| ==> !IsWordChar(line[j])
    decreases |line| - i
  {
    if i < |line| && IsWordChar(line[i]) then SkipWord(line, i + 1) else i
  }

  /** The token that begins at q, and where it ends. */
  function ScanToken(line: string, q: nat): (r: (Token<Slice>, nat))
    requires q < |line| && !IsSpace(line[q])
    ensures q < r.1 <= |line|
  {
    if IsSymbol(line[q]) && line[q] != '>' then (Op(line[q]), q + 1)
    else if line[q] == '>' then
      if q + 1 < |line| && line[q + 1] == '>' then (Op('+'), q + 2) else (Op('>'), q + 1)
    else (Word(Slice(q, SkipWord(line, q))), SkipWord(line, q))
  }

  /** All tokens of the line from position i on. */
  function Lex(line: string, i: nat): seq<Token<Slice>>
    requires i <= |line|
    decreases |line| - i
  {
    var q := SkipSpace(line, i);
    if q == |line| then [] else
    var (t, e) := ScanToken(line, q);
    [t] + Lex(line, e)
  }

  /** Skipping white space does not change the tokens that follow. */
  lemma {:induction false} LexSkipSpace(line: string, i: nat)
    requires i <= |line|
    ensures Lex(line, SkipSpace(line, i)) == Lex(line, i)
    ensures Lex(line, i) == [] <==> SkipSpace(line, i) == |line|
  {
    var q := SkipSpace(line, i);
    assert SkipSpace(line, q) == q;
  }

  /** A legal slice is a non-empty run of word characters that the line's end
      or a byte outside every word delimits. */
  ghost predicate Delimited(line: string, w: Slice) {
    && w.q < w.eq <= |line|
    && (forall k :: w.q <= k < w.eq ==> IsWordChar(line[k]))
    && (w.eq < |line| ==> !IsWordChar(line[w.eq]))
  }

  lemma {:induction false} LexDelimits(line: string, i: nat)
    requires i <= |line|
    ensures forall t :: t in Lex(line, i) && t.Word? ==> Delimited(line, t.text)
    decreases |line| - i
  {
    var q := SkipSpace(line, i);
    if q < |line| {
      LexDelimits(line, ScanToken(line, q).1);
    }
  }
}
