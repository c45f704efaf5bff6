/** Printing a command tree with every subtree in parentheses and parsing it gives the tree back. */
module ShellRoundTrip {
  import opened ShellSpec

  /** The word a span stands for. */
  function Str(t: Line, s: Span): string {
    if s.q <= s.eq <= |t| then t[s.q..s.eq] else ""
  }

  function Strs(t: Line, args: seq<Span>): seq<string> {
    seq(|args|, k requires 0 <= k < |args| => Str(t, args[k]))
  }

  /** What the parsed command means: its spans read as words. */
  function Meant(t: Line, c: Cmd<Span>): Cmd<string> {
    match c
    case Exec(args) => Exec(Strs(t, args))
    case Redir(cmd, file, out) => Redir(Meant(t, cmd), Str(t, file), out)
    case Pipe(l, r) => Pipe(Meant(t, l), Meant(t, r))
    case List(l, r) => List(Meant(t, l), Meant(t, r))
    case Back(cmd) => Back(Meant(t, cmd))
  }

  predicate LegalWord(w: string) { w != "" && forall k :: 0 <= k < |w| ==> IsWordChar(w[k]) }

  predicate Legal(c: Cmd<string>) {
    match c
    case Exec(ws) => |ws| < MAXARGS && forall k :: 0 <= k < |ws| ==> LegalWord(ws[k])
    case Redir(cmd, file, _) => Legal(cmd) && LegalWord(file)
    case Pipe(l, r) => Legal(l) && Legal(r)
    case List(l, r) => Legal(l) && Legal(r)
    case Back(cmd) => Legal(cmd)
  }

  function PrintWords(ws: seq<string>): string {
    if ws == [] then "" else ws[0] + (" " + PrintWords(ws[1..]))
  }

  function Paren(c: Cmd<string>): string
    decreases c, 1
  {
    "(" + (Print(c) + ")")
  }

  function Print(c: Cmd<string>): string
    decreases c, 0
  {
    match c
    case Exec(ws) => PrintWords(ws)
    case Redir(cmd, file, out) => Paren(cmd) + ((if out then ">" else "<") + file)
    case Pipe(l, r) => Paren(l) + ("|" + Paren(r))
    case List(l, r) => Paren(l) + (";" + Paren(r))
    case Back(cmd) => Paren(cmd) + "&"
  }

  /** s stands at position i of t. */
  predicate Has(t: Line, i: nat, s: string) { i + |s| <= |t| && t[i..i + |s|] == s }

  lemma HasSplit(t: Line, i: nat, a: string, b: string)
    requires Has(t, i, a + b)
    ensures Has(t, i, a) && Has(t, i + |a|, b)
  {
    var s := t[i..i + |a + b|];
    assert t[i..i + |a|] == s[..|a|] == a;
    assert t[i + |a|..i + |a| + |b|] == s[|a|..] == b;
  }

  lemma HasChar(t: Line, i: nat, s: string)
    requires Has(t, i, s) && s != ""
    ensures i < |t| && At(t, i) == s[0]
  {
    assert t[i..i + |s|][0] == t[i];
  }

  /** The text ends here, or the enclosing parenthesis does. */
  predicate Stop(t: Line, i: nat) { i <= |t| && (i == |t| || t[i] == ')') }

  /** A legal word at i, not continued, is one token. */
  lemma WordToken(t: Line, i: nat, w: string, e: nat)
    requires Has(t, i, w) && LegalWord(w) && e == i + |w| && !IsWordChar(At(t, e))
    ensures TokenAt(t, i) == Token('a', i, e, Skip(t, e)) && Str(t, Span(i, e)) == w
  {
    assert forall k :: i <= k < e ==> t[k] == w[k - i];
    assert At(t, i) == w[0];
    assert Skip(t, i) == i;
    assert WordEnd(t, i) == e;
  }

  /** A one-character symbol at i. */
  lemma SymbolToken(t: Line, i: nat)
    requires i < |t| && IsSymbol(t[i]) && t[i] != '>' && (i + 1 == |t| || !IsSpace(t[i + 1]))
    ensures TokenAt(t, i) == Token(t[i], i, i + 1, i + 1)
  {
    assert Skip(t, i) == i;
  }

  lemma NoRedirs(t: Line, i: nat, cmd: Cmd<Span>)
    requires i <= |t| && CmdOk(t, cmd) && !IsSpace(At(t, i)) && At(t, i) != '<' && At(t, i) != '>'
    ensures RedirsAt(t, i, cmd) == Ok(cmd, i)
  {
    assert Skip(t, i) == i;
  }

  /** One word and the blank behind it. */
  lemma OneWord(t: Line, i: nat, w: string, m: nat, j: nat, args: seq<Span>)
    requires Has(t, i, w) && LegalWord(w) && m == i + |w| && j == m + 1 && At(t, m) == ' '
    requires j <= |t| && !IsSpace(At(t, j)) && At(t, j) != '<' && At(t, j) != '>'
    requires CmdOk(t, Exec(args)) && |args| + 1 < MAXARGS
    ensures CmdOk(t, Exec(args + [Span(i, m)])) && Str(t, Span(i, m)) == w
    ensures WordsAt(t, i, Exec(args)) == WordsAt(t, j, Exec(args + [Span(i, m)]))
  {
    HasChar(t, i, w);
    assert Skip(t, j) == j;
    assert Skip(t, m) == j;
    WordToken(t, i, w, m);
    assert Skip(t, i) == i;
    NoRedirs(t, j, Exec(args + [Span(i, m)]));
  }

  /** Where the printed words are. */
  function Spans(i: nat, ws: seq<string>): seq<Span>
    decreases |ws|
  {
    if ws == [] then [] else [Span(i, i + |ws[0]|)] + Spans(i + |ws[0]| + 1, ws[1..])
  }

  lemma FirstOf(t: Line, i: nat, ws: seq<string>, m: nat, j: nat)
    requires Has(t, i, PrintWords(ws)) && ws != [] && m == i + |ws[0]| && j == m + 1
    requires Legal(Exec(ws))
    ensures Has(t, i, ws[0]) && At(t, m) == ' ' && Has(t, j, PrintWords(ws[1..])) && LegalWord(ws[0])
            && Legal(Exec(ws[1..]))
    ensures i + |PrintWords(ws)| == j + |PrintWords(ws[1..])|
  {
    hide Has, LegalWord;
    var rest := PrintWords(ws[1..]);
    HasSplit(t, i, ws[0], " " + rest);
    HasSplit(t, m, " ", rest);
    HasChar(t, m, " ");
  }

  lemma NoWords(t: Line, e: nat, args: seq<Span>, ws: seq<string>, i: nat)
    requires Stop(t, e) && CmdOk(t, Exec(args)) && ws == [] && e == i + |PrintWords(ws)|
    ensures e == i && Strs(t, Spans(i, ws)) == ws
    ensures WordsAt(t, i, Exec(args)) == Ok(Exec(args + Spans(i, ws)), i)
  {
    assert Skip(t, i) == i;
    assert args + Spans(i, ws) == args;
  }

  lemma SpansSplit(t: Line, i: nat, ws: seq<string>, m: nat, j: nat, args: seq<Span>)
    requires ws != [] && m == i + |ws[0]| && j == m + 1 && Str(t, Span(i, m)) == ws[0]
             && Strs(t, Spans(j, ws[1..])) == ws[1..]
    ensures args + [Span(i, m)] + Spans(j, ws[1..]) == args + Spans(i, ws) && Strs(t, Spans(i, ws)) == ws
  {
    hide Str;
    var tail := Spans(j, ws[1..]);
    assert Spans(i, ws) == [Span(i, m)] + tail;
    assert Strs(t, [Span(i, m)] + tail) == [ws[0]] + Strs(t, tail);
  }

  /** The words of an exec node, one by one. */
  lemma {:induction false} WordsParse(t: Line, i: nat, ws: seq<string>, args: seq<Span>, e: nat)
    requires Has(t, i, PrintWords(ws)) && e == i + |PrintWords(ws)| && Stop(t, e) && Legal(Exec(ws))
    requires CmdOk(t, Exec(args)) && |args| + |ws| < MAXARGS
    ensures WordsAt(t, i, Exec(args)) == Ok(Exec(args + Spans(i, ws)), e) && Strs(t, Spans(i, ws)) == ws
    decreases |ws|
  {
    hide *;
    if ws == [] {
      NoWords(t, e, args, ws, i);
    } else {
      var m := i + |ws[0]|;
      var j := m + 1;
      FirstOf(t, i, ws, m, j);
      AfterBlank(t, j, ws[1..], e);
      OneWord(t, i, ws[0], m, j, args);
      WordsParse(t, j, ws[1..], args + [Span(i, m)], e);
      SpansSplit(t, i, ws, m, j, args);
    }
  }

  /** What follows a blank is a word or the end. */
  lemma AfterBlank(t: Line, j: nat, ws: seq<string>, e: nat)
    requires Has(t, j, PrintWords(ws)) && e == j + |PrintWords(ws)| && Stop(t, e) && Legal(Exec(ws))
    ensures j <= |t| && !IsSpace(At(t, j)) && At(t, j) != '<' && At(t, j) != '>' && At(t, j) != '('
  {
    if ws != [] {
      HasSplit(t, j, ws[0], " " + PrintWords(ws[1..]));
      HasChar(t, j, ws[0]);
    }
  }

  // ---------- trees ----------

  /** Reading at a position that is not blank. */
  lemma Here(t: Line, i: nat, toks: string)
    requires i <= |t| && !IsSpace(At(t, i)) && '\0' !in toks
    ensures Skip(t, i) == i && (Peeks(t, i, toks) <==> At(t, i) in toks)
  {
  }

  /** An operator that the parser is looking for. */
  lemma OpHere(t: Line, j: nat, toks: string)
    requires j < |t| && toks == [t[j]] && (t[j] == '|' || t[j] == '&' || t[j] == ';') && !IsSpace(At(t, j + 1))
    ensures Peeks(t, j, toks) && TokenAt(t, j).next == j + 1
  {
    SymbolToken(t, j);
    hide TokenAt, Skip, Peeks;
    Here(t, j, toks);
  }

  lemma PipeNone(t: Line, i: nat, l: Cmd<Span>, j: nat)
    requires i <= |t| && ExecAt(t, i) == Ok(l, j) && j <= |t| && !IsSpace(At(t, j)) && At(t, j) != '|'
    ensures PipeAt(t, i) == Ok(l, j)
  {
    hide ExecAt, Skip, Peeks, IsSpace;
    Here(t, j, "|");
  }

  lemma PipeSome(t: Line, i: nat, l: Cmd<Span>, j: nat, r: Cmd<Span>, e: nat)
    requires i <= |t| && ExecAt(t, i) == Ok(l, j) && j < |t| && t[j] == '|' && !IsSpace(At(t, j + 1))
    requires PipeAt(t, j + 1) == Ok(r, e)
    ensures PipeAt(t, i) == Ok(Pipe(l, r), e)
  {
    hide ExecAt, Skip, Peeks, TokenAt, IsSymbol, IsSpace, CmdOk;
    OpHere(t, j, "|");
  }

  lemma BacksNone(t: Line, j: nat, c: Cmd<Span>)
    requires j <= |t| && CmdOk(t, c) && !IsSpace(At(t, j)) && At(t, j) != '&'
    ensures BacksAt(t, j, c) == Ok(c, j)
  {
    hide Skip, Peeks, IsSpace, CmdOk;
    Here(t, j, "&");
  }

  lemma BacksSome(t: Line, j: nat, c: Cmd<Span>)
    requires j < |t| && CmdOk(t, c) && t[j] == '&' && !IsSpace(At(t, j + 1))
    ensures BacksAt(t, j, c) == BacksAt(t, j + 1, Back(c))
  {
    hide Skip, Peeks, TokenAt, IsSymbol, IsSpace, CmdOk;
    OpHere(t, j, "&");
  }

  lemma LineLast(t: Line, i: nat, p: Cmd<Span>, k: nat, l: Cmd<Span>, j: nat)
    requires i <= |t| && PipeAt(t, i) == Ok(p, k) && BacksAt(t, k, p) == Ok(l, j) && j <= |t| && !IsSpace(At(t, j))
             && At(t, j) != ';'
    ensures LineAt(t, i) == Ok(l, j)
  {
    hide Skip, Peeks, PipeAt, BacksAt, IsSpace;
    Here(t, j, ";");
  }

  lemma LineMore(t: Line, i: nat, p: Cmd<Span>, k: nat, l: Cmd<Span>, j: nat, r: Cmd<Span>, e: nat)
    requires i <= |t| && PipeAt(t, i) == Ok(p, k) && BacksAt(t, k, p) == Ok(l, j) && j < |t| && t[j] == ';'
             && !IsSpace(At(t, j + 1))
    requires LineAt(t, j + 1) == Ok(r, e)
    ensures LineAt(t, i) == Ok(List(l, r), e)
  {
    hide Skip, Peeks, TokenAt, PipeAt, BacksAt, IsSymbol, IsSpace, CmdOk;
    OpHere(t, j, ";");
  }

  /** A command that reaches a stop is a whole line. */
  lemma LineEnds(t: Line, i: nat, cmd: Cmd<Span>, e: nat)
    requires i <= |t| && ExecAt(t, i) == Ok(cmd, e) && Stop(t, e)
    ensures PipeAt(t, i) == Ok(cmd, e) && LineAt(t, i) == Ok(cmd, e)
  {
    hide ExecAt, PipeAt, LineAt, BacksAt, Skip, CmdOk;
    PipeNone(t, i, cmd, e);
    BacksNone(t, e, cmd);
    LineLast(t, i, cmd, e, cmd, e);
  }

  /** A parenthesised line, and the redirections behind it. */
  lemma BlockParses(t: Line, i: nat, cmd: Cmd<Span>, j: nat)
    requires i + 1 < j <= |t| && t[i] == '(' && t[j - 1] == ')' && !IsSpace(At(t, i + 1)) && !IsSpace(At(t, j))
    requires LineAt(t, i + 1) == Ok(cmd, j - 1)
    ensures ExecAt(t, i) == RedirsAt(t, j, cmd)
  {
    hide Skip, Peeks, TokenAt, RedirsAt, LineAt, IsSpace, IsSymbol, IsWordChar, CmdOk;
    ParenTokens(t, i, j - 1, j);
  }

  lemma ParenTokens(t: Line, i: nat, k: nat, j: nat)
    requires i < k < |t| && j == k + 1 && t[i] == '(' && t[k] == ')' && !IsSpace(At(t, i + 1)) && !IsSpace(At(t, j))
    ensures Skip(t, i) == i && Peeks(t, i, "(") && TokenAt(t, i).next == i + 1
    ensures Peeks(t, k, ")") && TokenAt(t, k).next == j
  {
    SymbolToken(t, i);
    SymbolToken(t, k);
    hide TokenAt, Skip, Peeks;
    Here(t, i, "(");
    Here(t, k, ")");
  }

  /** A printed command does not start with a blank. */
  lemma NoBlankFirst(t: Line, i: nat, c: Cmd<string>)
    requires Has(t, i, Print(c)) && Legal(c) && Stop(t, i + |Print(c)|)
    ensures !IsSpace(At(t, i))
  {
    if c.Exec? {
      AfterBlank(t, i, c.args, i + |PrintWords(c.args)|);
    } else {
      HasChar(t, i, Print(c));
      assert Print(c)[0] == '(';
    }
  }

  /** A parenthesised command, whatever follows. */
  lemma {:induction false} ParenParses(t: Line, i: nat, c: Cmd<string>, j: nat)
    requires Has(t, i, Paren(c)) && j == i + |Paren(c)| && Legal(c) && !IsSpace(At(t, j))
    ensures LineAt(t, i + 1).Ok? && Meant(t, LineAt(t, i + 1).cmd) == c && CmdOk(t, LineAt(t, i + 1).cmd)
    ensures j <= |t| && ExecAt(t, i) == RedirsAt(t, j, LineAt(t, i + 1).cmd)
    decreases c, 1
  {
    hide Print, LineAt, ExecAt, RedirsAt, Legal, Meant;
    ParenMeans(t, i, c, j);
    LineParses(t, i + 1, c, j - 1);
    NoBlankFirst(t, i + 1, c);
    BlockParses(t, i, LineAt(t, i + 1).cmd, j);
  }

  lemma ParenMeans(t: Line, i: nat, c: Cmd<string>, j: nat)
    requires Has(t, i, Paren(c)) && j == i + |Paren(c)|
    ensures i + 1 < j <= |t| && t[i] == '(' && t[j - 1] == ')' && Has(t, i + 1, Print(c)) && j - 1 == i + 1 + |Print(c)|
  {
    hide Print;
    HasSplit(t, i, "(", Print(c) + ")");
    HasSplit(t, i + 1, Print(c), ")");
    HasChar(t, i, "(");
    HasChar(t, i + 1 + |Print(c)|, ")");
  }

  /** A parenthesised command, an operator and the rest. */
  lemma OpSplit(t: Line, i: nat, c: Cmd<string>, op: string, rest: string, j: nat)
    requires Has(t, i, Paren(c) + (op + rest)) && |op| == 1 && j == i + |Paren(c)|
    ensures Has(t, i, Paren(c)) && At(t, j) == op[0] && j < |t| && Has(t, j + 1, rest)
  {
    hide Paren;
    HasSplit(t, i, Paren(c), op + rest);
    HasSplit(t, j, op, rest);
    HasChar(t, j, op);
  }

  /** A printed command up to a stop parses to itself. */
  lemma {:induction false} LineParses(t: Line, i: nat, c: Cmd<string>, e: nat)
    requires Has(t, i, Print(c)) && e == i + |Print(c)| && Legal(c) && Stop(t, e)
    ensures LineAt(t, i).Ok? && LineAt(t, i).next == e && Meant(t, LineAt(t, i).cmd) == c
    decreases c, 0
  {
    hide Has, LineAt, ExecAt, RedirsAt, Paren, CmdOk, LegalWord, PrintWords, Strs, Str;
    match c
    case Exec(ws) => ExecParses(t, i, ws, e);
    case Redir(cmd, file, out) =>
      var j := i + |Paren(cmd)|;
      OpSplit(t, i, cmd, if out then ">" else "<", file, j);
      ParenParses(t, i, cmd, j);
      RedirParses(t, j, LineAt(t, i + 1).cmd, file, out, e);
      LineEnds(t, i, Redir(LineAt(t, i + 1).cmd, Span(j + 1, e), out), e);
    case Pipe(l, r) =>
      var j := i + |Paren(l)|;
      OpSplit(t, i, l, "|", Paren(r), j);
      ParenParses(t, i, l, j);
      ParenParses(t, j + 1, r, e);
      ParenFirst(t, j + 1, r);
      PipeParses(t, i, LineAt(t, i + 1).cmd, j, LineAt(t, j + 2).cmd, e);
    case List(l, r) =>
      var j := i + |Paren(l)|;
      OpSplit(t, i, l, ";", Paren(r), j);
      ParenParses(t, i, l, j);
      ParenParses(t, j + 1, r, e);
      ParenFirst(t, j + 1, r);
      ListParses(t, i, LineAt(t, i + 1).cmd, j, LineAt(t, j + 2).cmd, e);
    case Back(cmd) =>
      var j := i + |Paren(cmd)|;
      assert Paren(cmd) + "&" == Paren(cmd) + ("&" + "");
      OpSplit(t, i, cmd, "&", "", j);
      ParenParses(t, i, cmd, j);
      BackParses(t, i, LineAt(t, i + 1).cmd, j);
  }

  lemma ParenFirst(t: Line, i: nat, c: Cmd<string>)
    requires Has(t, i, Paren(c))
    ensures At(t, i) == '('
  {
    hide Print;
    HasChar(t, i, Paren(c));
  }

  lemma ExecParses(t: Line, i: nat, ws: seq<string>, e: nat)
    requires Has(t, i, PrintWords(ws)) && e == i + |PrintWords(ws)| && Legal(Exec(ws)) && Stop(t, e)
    ensures LineAt(t, i) == Ok(Exec(Spans(i, ws)), e) && Meant(t, Exec(Spans(i, ws))) == Exec(ws)
  {
    AfterBlank(t, i, ws, e);
    NoRedirs(t, i, Exec([]));
    assert Skip(t, i) == i;
    WordsParse(t, i, ws, [], e);
    assert [] + Spans(i, ws) == Spans(i, ws);
    LineEnds(t, i, Exec(Spans(i, ws)), e);
  }

  lemma RedirParses(t: Line, j: nat, cmd: Cmd<Span>, file: string, out: bool, e: nat)
    requires j < |t| && t[j] == (if out then '>' else '<') && Has(t, j + 1, file) && e == j + 1 + |file|
             && LegalWord(file) && Stop(t, e)
    requires CmdOk(t, cmd)
    ensures RedirsAt(t, j, cmd) == Ok(Redir(cmd, Span(j + 1, e), out), e) && Str(t, Span(j + 1, e)) == file
  {
    WordToken(t, j + 1, file, e);
    HasChar(t, j + 1, file);
    Here(t, j, "<>");
    Here(t, e, "<>");
    ArrowToken(t, j);
    hide Skip, Peeks, TokenAt, Has, LegalWord, IsSpace, IsSymbol, Str;
    assert CmdOk(t, Redir(cmd, Span(j + 1, e), out));
    NoRedirs(t, e, Redir(cmd, Span(j + 1, e), out));
  }

  lemma ArrowToken(t: Line, j: nat)
    requires j < |t| && t[j] in "<>" && IsWordChar(At(t, j + 1))
    ensures TokenAt(t, j) == Token(t[j], j, j + 1, j + 1)
  {
    Here(t, j, "<>");
    Here(t, j + 1, "<>");
    hide Skip;
  }

  lemma PipeParses(t: Line, i: nat, l: Cmd<Span>, j: nat, r: Cmd<Span>, e: nat)
    requires i <= j < |t| && t[j] == '|' && !IsSpace(At(t, j + 1)) && CmdOk(t, l) && CmdOk(t, r) && Stop(t, e)
    requires ExecAt(t, i) == RedirsAt(t, j, l) && ExecAt(t, j + 1) == RedirsAt(t, e, r)
    ensures LineAt(t, i) == Ok(Pipe(l, r), e)
  {
    hide Skip, ExecAt, RedirsAt, PipeAt, BacksAt, LineAt;
    NoRedirs(t, j, l);
    NoRedirs(t, e, r);
    LineEnds(t, j + 1, r, e);
    PipeSome(t, i, l, j, r, e);
    BacksNone(t, e, Pipe(l, r));
    LineLast(t, i, Pipe(l, r), e, Pipe(l, r), e);
  }

  lemma ListParses(t: Line, i: nat, l: Cmd<Span>, j: nat, r: Cmd<Span>, e: nat)
    requires i <= j < |t| && t[j] == ';' && !IsSpace(At(t, j + 1)) && CmdOk(t, l) && CmdOk(t, r) && Stop(t, e)
    requires ExecAt(t, i) == RedirsAt(t, j, l) && ExecAt(t, j + 1) == RedirsAt(t, e, r)
    ensures LineAt(t, i) == Ok(List(l, r), e)
  {
    hide Skip, ExecAt, RedirsAt, PipeAt, BacksAt, LineAt;
    NoRedirs(t, j, l);
    NoRedirs(t, e, r);
    LineEnds(t, j + 1, r, e);
    PipeNone(t, i, l, j);
    BacksNone(t, j, l);
    LineMore(t, i, l, j, l, j, r, e);
  }

  lemma BackParses(t: Line, i: nat, cmd: Cmd<Span>, j: nat)
    requires i <= j < |t| && t[j] == '&' && CmdOk(t, cmd) && Stop(t, j + 1)
    requires ExecAt(t, i) == RedirsAt(t, j, cmd)
    ensures LineAt(t, i) == Ok(Back(cmd), j + 1)
  {
    hide Skip, ExecAt, RedirsAt, PipeAt, BacksAt, LineAt;
    NoRedirs(t, j, cmd);
    PipeNone(t, i, cmd, j);
    BacksSome(t, j, cmd);
    BacksNone(t, j + 1, Back(cmd));
    LineLast(t, i, cmd, j, Back(cmd), j + 1);
  }

  /** ROUND TRIP: parsing the printed form of any legal command tree gives that tree. */
  lemma ParsePrint(c: Cmd<string>, t: Line)
    requires Legal(c) && t == Print(c)
    ensures CmdAt(t).Ok? && CmdAt(t).next == |t| && Meant(t, CmdAt(t).cmd) == c
  {
    assert t[0..0 + |t|] == t;
    LineParses(t, 0, c, |t|);
  }

  /** The printed form has no NUL in it, so it is a line. */
  lemma {:induction false} PrintIsLine(c: Cmd<string>)
    requires Legal(c)
    ensures '\0' !in Print(c)
  {
    match c
    case Exec(ws) => WordsAreLine(ws);
    case Redir(cmd, file, out) => PrintIsLine(cmd);
    case Pipe(l, r) => PrintIsLine(l); PrintIsLine(r);
    case List(l, r) => PrintIsLine(l); PrintIsLine(r);
    case Back(cmd) => PrintIsLine(cmd);
  }

  lemma {:induction false} WordsAreLine(ws: seq<string>)
    requires forall k :: 0 <= k < |ws| ==> LegalWord(ws[k])
    ensures '\0' !in PrintWords(ws)
  {
    if ws != [] {
      WordsAreLine(ws[1..]);
      assert LegalWord(ws[0]);
    }
  }
}
