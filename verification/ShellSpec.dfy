/** What the shell's recursive-descent parser (xv6/sh.c) computes, position by position. The text has
    no NUL in it; the NUL that ends it is what is read at position |t|. */
module ShellSpec {

  const MAXARGS := 10

  /** The bytes from q up to, but not including, eq. */
  datatype Span = Span(q: nat, eq: nat)

  /** A parsed command; W is Span as parsed and string as meant. `out` opens for writing on descriptor 1,
      otherwise for reading on descriptor 0. */
  datatype Cmd<W> =
    | Exec(args: seq<W>)
    | Redir(cmd: Cmd<W>, file: W, out: bool)
    | Pipe(left: Cmd<W>, right: Cmd<W>)
    | List(left: Cmd<W>, right: Cmd<W>)
    | Back(cmd: Cmd<W>)

  datatype Result = Ok(cmd: Cmd<Span>, next: nat) | Panic(message: string)

  /** whitespace[] */
  predicate IsSpace(c: char) { c == ' ' || c == '\t' || c == '\r' || c == '\n' || c == '\U{0b}' }

  predicate IsSingle(c: char) { c == '|' || c == '(' || c == ')' || c == ';' || c == '&' || c == '<' }

  /** symbols[] */
  predicate IsSymbol(c: char) { IsSingle(c) || c == '>' }

  predicate IsWordChar(c: char) { !IsSpace(c) && !IsSymbol(c) && c != '\0' }

  type Line = t: string | '\0' !in t

  function At(t: Line, i: nat): (c: char)
    ensures c == '\0' <==> i >= |t|
  {
    if i < |t| then t[i] else '\0'
  }

  function Skip(t: Line, i: nat): (j: nat)
    requires i <= |t|
    ensures i <= j <= |t| && !IsSpace(At(t, j)) && forall k :: i <= k < j ==> IsSpace(t[k])
    decreases |t| - i
  {
    if i < |t| && IsSpace(t[i]) then Skip(t, i + 1) else i
  }

  function WordEnd(t: Line, i: nat): (j: nat)
    requires i <= |t|
    ensures i <= j <= |t| && !IsWordChar(At(t, j)) && forall k :: i <= k < j ==> IsWordChar(t[k])
    decreases |t| - i
  {
    if i < |t| && IsWordChar(t[i]) then WordEnd(t, i + 1) else i
  }

  datatype Token = Token(kind: char, q: nat, eq: nat, next: nat)

  function TokenAt(t: Line, i: nat): (k: Token)
    requires i <= |t|
    ensures i <= k.q <= k.eq <= k.next <= |t|
    ensures k.kind != '\0' ==> k.q < k.eq
    ensures k.kind == '\0' <==> Skip(t, i) == |t|
    ensures k.kind == 'a' ==> SpanOk(t, Span(k.q, k.eq))
  {
    var q := Skip(t, i);
    var c := At(t, q);
    if c == '\0' then Token('\0', q, q, Skip(t, q))
    else if IsSingle(c) then Token(c, q, q + 1, Skip(t, q + 1))
    else if c == '>' then
      if At(t, q + 1) == '>' then Token('+', q, q + 2, Skip(t, q + 2)) else Token('>', q, q + 1, Skip(t, q + 1))
    else Token('a', q, WordEnd(t, q), Skip(t, WordEnd(t, q)))
  }

  predicate Peeks(t: Line, i: nat, toks: string)
    requires i <= |t|
  {
    Skip(t, i) < |t| && t[Skip(t, i)] in toks
  }

  /** A word: a nonempty run of word characters that ends where the run ends. */
  predicate SpanOk(t: Line, s: Span) {
    && s.q < s.eq <= |t| && !IsWordChar(At(t, s.eq))
    && forall k :: s.q <= k < s.eq ==> IsWordChar(t[k])
  }

  predicate CmdOk(t: Line, c: Cmd<Span>) {
    match c
    case Exec(args) => |args| < MAXARGS && forall k :: 0 <= k < |args| ==> SpanOk(t, args[k])
    case Redir(cmd, file, _) => CmdOk(t, cmd) && SpanOk(t, file)
    case Pipe(l, r) => CmdOk(t, l) && CmdOk(t, r)
    case List(l, r) => CmdOk(t, l) && CmdOk(t, r)
    case Back(cmd) => CmdOk(t, cmd)
  }

  predicate Good(t: Line, i: nat, r: Result) {
    r.Ok? ==> i <= r.next <= |t| && CmdOk(t, r.cmd)
  }

  // ---------- the grammar ----------

  /** parseredirs. */
  function RedirsAt(t: Line, i: nat, cmd: Cmd<Span>): (r: Result)
    requires i <= |t| && CmdOk(t, cmd)
    ensures Good(t, i, r)
    ensures r.Ok? && IsExec(cmd) ==> IsExec(r.cmd) && Argc(r.cmd) == Argc(cmd)
    decreases |t| - i
  {
    if !Peeks(t, i, "<>") then Ok(cmd, Skip(t, i))
    else
      var tok := TokenAt(t, i);
      var f := TokenAt(t, tok.next);
      if f.kind != 'a' then Panic("missing file for redirection")
      else RedirsAt(t, f.next, Redir(cmd, Span(f.q, f.eq), tok.kind != '<'))
  }

  /** An exec node under any number of redirections. */
  predicate IsExec<W>(c: Cmd<W>) {
    c.Exec? || (c.Redir? && IsExec(c.cmd))
  }

  function Argc<W>(c: Cmd<W>): nat
    requires IsExec(c)
  {
    if c.Exec? then |c.args| else Argc(c.cmd)
  }

  /** argv[argc] = word, in the exec node at the bottom. */
  function AddArg(t: Line, c: Cmd<Span>, w: Span): (d: Cmd<Span>)
    requires IsExec(c) && CmdOk(t, c) && SpanOk(t, w) && Argc(c) + 1 < MAXARGS
    ensures IsExec(d) && CmdOk(t, d) && Argc(d) == Argc(c) + 1
  {
    if c.Exec? then Exec(c.args + [w]) else Redir(AddArg(t, c.cmd, w), c.file, c.out)
  }

  /** The loop of parseexec. */
  function WordsAt(t: Line, i: nat, ret: Cmd<Span>): (r: Result)
    requires i <= |t| && IsExec(ret) && CmdOk(t, ret)
    ensures Good(t, i, r)
    decreases |t| - i
  {
    if Peeks(t, i, "|)&;") then Ok(ret, Skip(t, i))
    else
      var tok := TokenAt(t, i);
      if tok.kind == '\0' then Ok(ret, tok.next)
      else if tok.kind != 'a' then Panic("syntax")
      else if Argc(ret) + 1 >= MAXARGS then Panic("too many args")
      else
        var r := RedirsAt(t, tok.next, AddArg(t, ret, Span(tok.q, tok.eq)));
        if r.Panic? then r else WordsAt(t, r.next, r.cmd)
  }

  function ExecAt(t: Line, i: nat): (r: Result)
    requires i <= |t|
    ensures Good(t, i, r)
    decreases |t| - i, 1
  {
    if Peeks(t, i, "(") then BlockAt(t, Skip(t, i))
    else
      var r := RedirsAt(t, i, Exec([]));
      if r.Panic? then r else WordsAt(t, r.next, r.cmd)
  }

  function BlockAt(t: Line, i: nat): (r: Result)
    requires i <= |t|
    ensures Good(t, i, r)
    decreases |t| - i, 0
  {
    if !Peeks(t, i, "(") then Panic("parseblock")
    else
      var r := LineAt(t, TokenAt(t, i).next);
      if r.Panic? then r
      else if !Peeks(t, r.next, ")") then Panic("syntax - missing )")
      else RedirsAt(t, TokenAt(t, r.next).next, r.cmd)
  }

  function PipeAt(t: Line, i: nat): (r: Result)
    requires i <= |t|
    ensures Good(t, i, r)
    decreases |t| - i, 2
  {
    var l := ExecAt(t, i);
    if l.Panic? || !Peeks(t, l.next, "|") then Advance(t, l)
    else
      var r := PipeAt(t, TokenAt(t, l.next).next);
      if r.Panic? then r else Ok(Pipe(l.cmd, r.cmd), r.next)
  }

  /** A peek that fails still skips blanks. */
  function Advance(t: Line, r: Result): (s: Result)
    requires Good(t, 0, r)
    ensures s.Ok? <==> r.Ok?
    ensures r.Ok? ==> s.cmd == r.cmd && s.next == Skip(t, r.next)
  {
    if r.Panic? then r else Ok(r.cmd, Skip(t, r.next))
  }

  /** The while loop of parseline. */
  function BacksAt(t: Line, i: nat, cmd: Cmd<Span>): (r: Result)
    requires i <= |t| && CmdOk(t, cmd)
    ensures Good(t, i, r) && r.Ok?
    decreases |t| - i
  {
    if Peeks(t, i, "&") then BacksAt(t, TokenAt(t, i).next, Back(cmd)) else Ok(cmd, Skip(t, i))
  }

  function LineAt(t: Line, i: nat): (r: Result)
    requires i <= |t|
    ensures Good(t, i, r)
    decreases |t| - i, 3
  {
    var p := PipeAt(t, i);
    if p.Panic? then p
    else
      var l := BacksAt(t, p.next, p.cmd);
      if !Peeks(t, l.next, ";") then l
      else
        var r := LineAt(t, TokenAt(t, l.next).next);
        if r.Panic? then r else Ok(List(l.cmd, r.cmd), r.next)
  }

  /** parsecmd, up to the NULs. */
  function CmdAt(t: Line): (r: Result)
    ensures Good(t, 0, r)
  {
    var r := LineAt(t, 0);
    if r.Ok? && Skip(t, r.next) != |t| then Panic("syntax") else Advance(t, r)
  }
}
