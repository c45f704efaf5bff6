/** The shell's parser as it runs (xv6/sh.c): loops that advance a position, and NULs written into the
    command line in place. */
module Shell {
  import opened ShellSpec
  import opened ShellRoundTrip

  method SkipBlanks(t: Line, i: nat) returns (s: nat)
    requires i <= |t|
    ensures s == Skip(t, i)
  {
    s := i;
    while s < |t| && IsSpace(t[s])
      invariant i <= s <= |t| && Skip(t, s) == Skip(t, i)
    {
      s := s + 1;
    }
  }

  method GetToken(t: Line, ps: nat) returns (token: Token)
    requires ps <= |t|
    ensures token == TokenAt(t, ps)
  {
    var s := SkipBlanks(t, ps);
    var q := s;
    var ret := At(t, s);
    if ret == '\0' {
    } else if IsSingle(ret) {
      s := s + 1;
    } else if ret == '>' {
      s := s + 1;
      if At(t, s) == '>' {
        ret := '+';
        s := s + 1;
      }
    } else {
      ret := 'a';
      while s < |t| && !IsSpace(t[s]) && !IsSymbol(t[s])
        invariant q <= s <= |t| && WordEnd(t, s) == WordEnd(t, q)
      {
        s := s + 1;
      }
    }
    var eq := s;
    s := SkipBlanks(t, s);
    return Token(ret, q, eq, s);
  }

  method Peek(t: Line, ps: nat, toks: string) returns (found: bool, s: nat)
    requires ps <= |t|
    ensures s == Skip(t, ps) && (found <==> Peeks(t, ps, toks))
    ensures Skip(t, s) == s && (found <==> Peeks(t, s, toks)) && TokenAt(t, s) == TokenAt(t, ps)
  {
    s := SkipBlanks(t, ps);
    found := s < |t| && t[s] in toks;
  }

  /** One redirection more, or none. */
  lemma RedirsStep(t: Line, i: nat, cmd: Cmd<Span>)
    requires i <= |t| && CmdOk(t, cmd) && Skip(t, i) == i
    ensures !Peeks(t, i, "<>") ==> RedirsAt(t, i, cmd) == Ok(cmd, i)
    ensures var tok := TokenAt(t, i);
            var f := TokenAt(t, tok.next);
            var c := Redir(cmd, Span(f.q, f.eq), tok.kind != '<');
            Peeks(t, i, "<>") ==>
              && i < f.next
              && (f.kind != 'a' ==> RedirsAt(t, i, cmd) == Panic("missing file for redirection"))
              && (f.kind == 'a' ==> CmdOk(t, c) && RedirsAt(t, i, cmd) == RedirsAt(t, f.next, c))
  {
    hide TokenAt, Skip, SpanOk;
  }

  /** Blanks before a redirection do not matter. */
  lemma RedirsBlank(t: Line, i: nat, s: nat, cmd: Cmd<Span>)
    requires i <= |t| && CmdOk(t, cmd) && s == Skip(t, i) && Skip(t, s) == s && TokenAt(t, s) == TokenAt(t, i)
    ensures RedirsAt(t, s, cmd) == RedirsAt(t, i, cmd)
  {
    hide TokenAt, Skip, SpanOk, CmdOk;
  }

  method ParseRedirs(t: Line, cmd: Cmd<Span>, ps: nat) returns (r: Result)
    requires ps <= |t| && CmdOk(t, cmd)
    ensures r == RedirsAt(t, ps, cmd)
  {
    hide TokenAt, Skip, SpanOk, RedirsAt, CmdOk, Peeks;
    var c := cmd;
    var more, s := Peek(t, ps, "<>");
    RedirsBlank(t, ps, s, c);
    while more
      invariant s <= |t| && CmdOk(t, c) && s == Skip(t, s)
      invariant RedirsAt(t, s, c) == RedirsAt(t, ps, cmd) && (more <==> Peeks(t, s, "<>"))
      decreases |t| - s
    {
      RedirsStep(t, s, c);
      var tok := GetToken(t, s);
      var f := GetToken(t, tok.next);
      if f.kind != 'a' {
        return Panic("missing file for redirection");
      }
      c := Redir(c, Span(f.q, f.eq), tok.kind != '<');
      more, s := Peek(t, f.next, "<>");
      RedirsBlank(t, f.next, s, c);
    }
    RedirsStep(t, s, c);
    return Ok(c, s);
  }

  method ParseExec(t: Line, ps: nat) returns (r: Result)
    requires ps <= |t|
    ensures r == ExecAt(t, ps)
    decreases |t| - ps, 1
  {
    hide TokenAt, Skip, SpanOk, RedirsAt, WordsAt, BlockAt, LineAt;
    var block, s := Peek(t, ps, "(");
    if block {
      r := ParseBlock(t, s);
      return;
    }
    r := ParseRedirs(t, Exec([]), ps);
    if r.Ok? {
      r := ParseWords(t, r.cmd, r.next);
    }
  }

  /** The loop of parseexec; ret is the exec node with the redirections read so far around it. */
  method ParseWords(t: Line, ret: Cmd<Span>, ps: nat) returns (r: Result)
    requires ps <= |t| && IsExec(ret) && CmdOk(t, ret)
    ensures r == WordsAt(t, ps, ret)
  {
    hide TokenAt, Skip, SpanOk, RedirsAt, IsExec, Argc, AddArg, CmdOk;
    var cmd, argc := ret, Argc(ret);
    var stop, s := Peek(t, ps, "|)&;");
    while !stop
      invariant s <= |t| && IsExec(cmd) && CmdOk(t, cmd) && s == Skip(t, s) && argc == Argc(cmd)
      invariant WordsAt(t, s, cmd) == WordsAt(t, ps, ret) && (stop <==> Peeks(t, s, "|)&;"))
      decreases |t| - s
    {
      var tok := GetToken(t, s);
      if tok.kind == '\0' {
        s := tok.next;
        break;
      }
      if tok.kind != 'a' {
        return Panic("syntax");
      }
      argc := argc + 1;
      if argc >= MAXARGS {
        return Panic("too many args");
      }
      cmd := AddArg(t, cmd, Span(tok.q, tok.eq));
      var next := ParseRedirs(t, cmd, tok.next);
      if next.Panic? {
        return next;
      }
      cmd := next.cmd;
      stop, s := Peek(t, next.next, "|)&;");
    }
    return Ok(cmd, s);
  }

  method ParseBlock(t: Line, ps: nat) returns (r: Result)
    requires ps <= |t|
    ensures r == BlockAt(t, ps)
    decreases |t| - ps, 0
  {
    hide TokenAt, Skip, SpanOk, RedirsAt, LineAt;
    var open, s := Peek(t, ps, "(");
    if !open {
      return Panic("parseblock");
    }
    var tok := GetToken(t, s);
    r := ParseLine(t, tok.next);
    if r.Panic? {
      return;
    }
    var closed, e := Peek(t, r.next, ")");
    if !closed {
      return Panic("syntax - missing )");
    }
    tok := GetToken(t, e);
    r := ParseRedirs(t, r.cmd, tok.next);
  }

  method ParsePipe(t: Line, ps: nat) returns (r: Result)
    requires ps <= |t|
    ensures r == PipeAt(t, ps)
    decreases |t| - ps, 2
  {
    hide TokenAt, Skip, SpanOk, ExecAt;
    r := ParseExec(t, ps);
    if r.Panic? {
      return;
    }
    var more, s := Peek(t, r.next, "|");
    if !more {
      return Ok(r.cmd, s);
    }
    var tok := GetToken(t, s);
    var right := ParsePipe(t, tok.next);
    if right.Panic? {
      return right;
    }
    return Ok(Pipe(r.cmd, right.cmd), right.next);
  }

  method ParseLine(t: Line, ps: nat) returns (r: Result)
    requires ps <= |t|
    ensures r == LineAt(t, ps)
    decreases |t| - ps, 3
  {
    hide TokenAt, Skip, SpanOk, PipeAt;
    r := ParsePipe(t, ps);
    if r.Panic? {
      return;
    }
    var cmd := r.cmd;
    var back, s := Peek(t, r.next, "&");
    while back
      invariant r.next <= s <= |t| && CmdOk(t, cmd) && s == Skip(t, s)
      invariant BacksAt(t, s, cmd) == BacksAt(t, r.next, r.cmd) && (back <==> Peeks(t, s, "&"))
      decreases |t| - s
    {
      var tok := GetToken(t, s);
      cmd := Back(cmd);
      back, s := Peek(t, tok.next, "&");
    }
    var more, _ := Peek(t, s, ";");
    if !more {
      return Ok(cmd, s);
    }
    var tok := GetToken(t, s);
    var right := ParseLine(t, tok.next);
    if right.Panic? {
      return right;
    }
    return Ok(List(cmd, right.cmd), right.next);
  }

  // ---------- NUL termination in place ----------

  /** The words of a command. */
  function SpansOf(c: Cmd<Span>): set<Span> {
    match c
    case Exec(args) => set k | 0 <= k < |args| :: args[k]
    case Redir(cmd, file, _) => SpansOf(cmd) + {file}
    case Pipe(l, r) => SpansOf(l) + SpansOf(r)
    case List(l, r) => SpansOf(l) + SpansOf(r)
    case Back(cmd) => SpansOf(cmd)
  }

  /** The positions where a word ends. */
  ghost predicate EndsAt(words: set<Span>, k: nat) { exists w :: w in words && w.eq == k }

  lemma {:induction false} SpansAreOk(t: Line, c: Cmd<Span>, w: Span)
    requires CmdOk(t, c) && w in SpansOf(c)
    ensures SpanOk(t, w)
  {
    match c
    case Exec(args) =>
    case Redir(cmd, file, _) => if w != file { SpansAreOk(t, cmd, w); }
    case Pipe(l, r) => if w in SpansOf(l) { SpansAreOk(t, l, w); } else { SpansAreOk(t, r, w); }
    case List(l, r) => if w in SpansOf(l) { SpansAreOk(t, l, w); } else { SpansAreOk(t, r, w); }
    case Back(cmd) => SpansAreOk(t, cmd, w);
  }

  /** b is a with a NUL at the end of each of the words. */
  ghost predicate Terminated(a: seq<char>, b: seq<char>, words: set<Span>) {
    |b| == |a| && forall k :: 0 <= k < |a| ==> b[k] == if EndsAt(words, k) then '\0' else a[k]
  }

  lemma TerminatedTwice(a: seq<char>, b: seq<char>, c: seq<char>, v: set<Span>, w: set<Span>)
    requires Terminated(a, b, v) && Terminated(b, c, w)
    ensures Terminated(a, c, v + w)
  {
    forall k | 0 <= k < |a| ensures c[k] == if EndsAt(v + w, k) then '\0' else a[k] {
      if EndsAt(v, k) {
        var x :| x in v && x.eq == k;
        assert x in v + w;
      }
      if EndsAt(w, k) {
        var x :| x in w && x.eq == k;
        assert x in v + w;
      }
    }
  }

  method NulTerminate(buf: array<char>, c: Cmd<Span>)
    requires forall w :: w in SpansOf(c) ==> w.eq < buf.Length
    modifies buf
    ensures Terminated(old(buf[..]), buf[..], SpansOf(c))
    decreases c
  {
    ghost var was := buf[..];
    match c {
      case Exec(args) =>
        TerminateArgs(buf, args);
      case Redir(cmd, file, _) =>
        NulTerminate(buf, cmd);
        ghost var mid := buf[..];
        buf[file.eq] := '\0';
        TerminatedTwice(was, mid, buf[..], SpansOf(cmd), {file});
      case Pipe(left, right) =>
        NulTerminate(buf, left);
        ghost var mid := buf[..];
        NulTerminate(buf, right);
        TerminatedTwice(was, mid, buf[..], SpansOf(left), SpansOf(right));
      case List(left, right) =>
        NulTerminate(buf, left);
        ghost var mid := buf[..];
        NulTerminate(buf, right);
        TerminatedTwice(was, mid, buf[..], SpansOf(left), SpansOf(right));
      case Back(cmd) =>
        NulTerminate(buf, cmd);
    }
  }

  method TerminateArgs(buf: array<char>, args: seq<Span>)
    requires forall w :: w in SpansOf(Exec(args)) ==> w.eq < buf.Length
    modifies buf
    ensures Terminated(old(buf[..]), buf[..], SpansOf(Exec(args)))
  {
    ghost var was := buf[..];
    var i := 0;
    while i < |args|
      invariant 0 <= i <= |args| && Terminated(was, buf[..], SpansOf(Exec(args[..i])))
    {
      ghost var mid := buf[..];
      assert args[i] in SpansOf(Exec(args));
      buf[args[i].eq] := '\0';
      TerminatedTwice(was, mid, buf[..], SpansOf(Exec(args[..i])), {args[i]});
      assert SpansOf(Exec(args[..i + 1])) == SpansOf(Exec(args[..i])) + {args[i]};
      i := i + 1;
    }
    assert args[..|args|] == args;
  }

  /** The C string at position q: up to the first NUL. */
  function CString(b: seq<char>, q: nat): string
    requires q <= |b|
    decreases |b| - q
  {
    if q == |b| || b[q] == '\0' then "" else [b[q]] + CString(b, q + 1)
  }

  lemma {:induction false} CStringIs(b: seq<char>, q: nat, e: nat)
    requires q <= e < |b| && b[e] == '\0' && forall k :: q <= k < e ==> b[k] != '\0'
    ensures CString(b, q) == b[q..e]
    decreases e - q
  {
    if q < e {
      CStringIs(b, q + 1, e);
      assert b[q..e] == [b[q]] + b[q + 1..e];
    }
  }

  /** EVERY WORD BECOMES A C STRING equal to its token, and no byte of any word is overwritten. */
  lemma WordsTerminated(t: Line, c: Cmd<Span>, a: seq<char>, b: seq<char>, w: Span)
    requires CmdOk(t, c) && |a| > |t| && a[..|t|] == t && Terminated(a, b, SpansOf(c)) && w in SpansOf(c)
    ensures w.q < w.eq < |b| == |a| && CString(b, w.q) == Str(t, w)
    ensures forall k :: w.q <= k < w.eq ==> b[k] == a[k]
  {
    SpansAreOk(t, c, w);
    forall k | w.q <= k < w.eq ensures b[k] == a[k] == t[k] {
      assert a[..|t|][k] == t[k];
      forall x | x in SpansOf(c) ensures x.eq != k {
        SpansAreOk(t, c, x);
      }
    }
    assert EndsAt(SpansOf(c), w.eq);
    CStringIs(b, w.q, w.eq);
    assert b[w.q..w.eq] == t[w.q..w.eq];
  }

  function StringAt(b: seq<char>, w: Span): string { if w.q <= |b| then CString(b, w.q) else "" }

  /** The command as runcmd finds it in the buffer: C strings at the words' positions. */
  function Seen(b: seq<char>, c: Cmd<Span>): Cmd<string> {
    match c
    case Exec(args) => Exec(seq(|args|, k requires 0 <= k < |args| => StringAt(b, args[k])))
    case Redir(cmd, file, out) => Redir(Seen(b, cmd), StringAt(b, file), out)
    case Pipe(l, r) => Pipe(Seen(b, l), Seen(b, r))
    case List(l, r) => List(Seen(b, l), Seen(b, r))
    case Back(cmd) => Back(Seen(b, cmd))
  }

  lemma {:induction false} SeenIsMeant(t: Line, b: seq<char>, c: Cmd<Span>)
    requires forall w :: w in SpansOf(c) ==> StringAt(b, w) == Str(t, w)
    ensures Seen(b, c) == Meant(t, c)
  {
    hide StringAt, Str;
    match c
    case Exec(args) =>
      forall k | 0 <= k < |args| ensures StringAt(b, args[k]) == Str(t, args[k]) {
        assert args[k] in SpansOf(c);
      }
    case Redir(cmd, file, out) => assert file in SpansOf(c); SeenIsMeant(t, b, cmd);
    case Pipe(l, r) => SeenIsMeant(t, b, l); SeenIsMeant(t, b, r);
    case List(l, r) => SeenIsMeant(t, b, l); SeenIsMeant(t, b, r);
    case Back(cmd) => SeenIsMeant(t, b, cmd);
  }

  /** parsecmd on a buffer that holds the line t and its NUL. */
  method ParseCmd(buf: array<char>, t: Line) returns (r: Result)
    requires |t| < buf.Length && buf[..|t|] == t && buf[|t|] == '\0'
    modifies buf
    ensures r == CmdAt(t)
    ensures r.Panic? ==> buf[..] == old(buf[..])
    ensures r.Ok? ==> Terminated(old(buf[..]), buf[..], SpansOf(r.cmd))
    ensures r.Ok? ==> Seen(buf[..], r.cmd) == Meant(t, r.cmd)
    ensures r.Ok? ==> forall w, k :: w in SpansOf(r.cmd) && w.q <= k < w.eq && k < buf.Length ==> buf[k] == old(buf[k])
  {
    hide LineAt, CmdOk, SpanOk, Skip, Terminated, SpansOf, CString, Str, Meant, Seen;
    r := ParseLine(t, 0);
    if r.Panic? {
      return;
    }
    var _, s := Peek(t, r.next, "");
    if s != |t| {
      return Panic("syntax");
    }
    r := Ok(r.cmd, s);
    ghost var a := buf[..];
    forall w | w in SpansOf(r.cmd) ensures w.eq < buf.Length {
      SpanFits(t, r.cmd, w);
    }
    NulTerminate(buf, r.cmd);
    forall w | w in SpansOf(r.cmd)
      ensures StringAt(buf[..], w) == Str(t, w)
      ensures forall k :: w.q <= k < w.eq && k < buf.Length ==> buf[k] == a[k]
    {
      WordsTerminated(t, r.cmd, a, buf[..], w);
    }
    SeenIsMeant(t, buf[..], r.cmd);
  }

  /** From the printed form of a command tree in the buffer, the shell runs that very tree. */
  method ParsePrinted(buf: array<char>, t: Line, ghost c: Cmd<string>) returns (r: Result)
    requires Legal(c) && t == Print(c) && |t| < buf.Length && buf[..|t|] == t && buf[|t|] == '\0'
    modifies buf
    ensures r.Ok? && Seen(buf[..], r.cmd) == c
  {
    ParsePrint(c, t);
    r := ParseCmd(buf, t);
  }

  lemma SpanFits(t: Line, c: Cmd<Span>, w: Span)
    requires CmdOk(t, c) && w in SpansOf(c)
    ensures w.eq <= |t|
  {
    SpansAreOk(t, c, w);
  }
}
