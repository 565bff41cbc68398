/** The parser of sh.c on the command buffer: tokens found at a cursor, recursive descent
    that moves the cursor, and the final pass that ends every token with a NUL in place. */
module Shell {
  import opened ShellGrammar

  const WHITESPACE: string := " \t\r\n\U{0B}"
  const SYMBOLS: string := "<|>&;()"

  /** A token's place in the buffer, as the pair of pointers the parser keeps. */
  datatype Span = Span(s: nat, e: nat)

  predicate IsSpace(c: char) { c in WHITESPACE }
  predicate IsSymbol(c: char) { c in SYMBOLS }
  predicate IsWordChar(c: char) { !IsSpace(c) && !IsSymbol(c) }

  // ---------------------------------------------------------------- tokens

  function SkipSpace(buf: string, p: nat): (q: nat)
    requires p <= |buf|
    ensures p <= q <= |buf| && (q < |buf| ==> !IsSpace(buf[q]))
    decreases |buf| - p
  {
    if p < |buf| && IsSpace(buf[p]) then SkipSpace(buf, p + 1) else p
  }

  function WordEnd(buf: string, p: nat): (q: nat)
    requires p <= |buf|
    ensures p <= q <= |buf| && (q < |buf| ==> !IsWordChar(buf[q]))
    ensures p < |buf| && IsWordChar(buf[p]) ==> p < q
    decreases |buf| - p
  {
    if p < |buf| && IsWordChar(buf[p]) then WordEnd(buf, p + 1) else p
  }

  function TokenEnd(buf: string, p: nat): (q: nat)
    requires p < |buf| && !IsSpace(buf[p])
    ensures p < q <= |buf|
  {
    if !IsSymbol(buf[p]) then WordEnd(buf, p)
    else if buf[p] == '>' && p + 1 < |buf| && buf[p + 1] == '>' then p + 2
    else p + 1
  }

  function TokenAt(buf: string, p: nat): (t: Tok<Span>)
    requires p < |buf| && !IsSpace(buf[p])
  {
    if !IsSymbol(buf[p]) then Word(Span(p, WordEnd(buf, p)))
    else if buf[p] == '>' && p + 1 < |buf| && buf[p + 1] == '>' then Sym('+')
    else Sym(buf[p])
  }

  /** The tokens of the buffer from p on. */
  function Lex(buf: string, p: nat): (ts: seq<Tok<Span>>)
    requires p <= |buf|
    decreases |buf| - p
  {
    var q := SkipSpace(buf, p);
    if q == |buf| then [] else [TokenAt(buf, q)] + Lex(buf, TokenEnd(buf, q))
  }

  lemma {:induction false} SkipTwice(buf: string, p: nat)
    requires p <= |buf|
    ensures SkipSpace(buf, SkipSpace(buf, p)) == SkipSpace(buf, p)
    ensures Lex(buf, SkipSpace(buf, p)) == Lex(buf, p)
    decreases |buf| - p
  {
  }

  /** What the first character tells of the first token. */
  lemma FirstChar(buf: string, p: nat)
    requires p <= |buf|
    ensures var q, ts := SkipSpace(buf, p), Lex(buf, p);
            && (ts == [] <==> q == |buf|)
            && (forall c :: c in "|&;()" ==> (Is(ts, c) <==> q < |buf| && buf[q] == c))
            && (IsRedir(ts) <==> q < |buf| && buf[q] in "<>")
            && (Stops(ts) <==> q == |buf| || buf[q] in "|)&;")
  {
  }

  // ---------------------------------------------------------------- the parser

  datatype Result = Parsed(cmd: Cmd<Span>) | Panicked

  /** A method's outcome is what the grammar says of the tokens before it, and the cursor is
      at the tokens left over. */
  ghost predicate Agrees(r: Result, p: Parse<Span>, left: seq<Tok<Span>>) {
    if p.Panic? then r == Panicked else r == Parsed(p.cmd) && left == p.rest
  }

  class Parser {
    const buf: string
    var pos: nat

    constructor (buf: string)
      ensures this.buf == buf && pos == 0
    {
      this.buf, pos := buf, 0;
    }

    /** peek: the next token starts with one of the characters. */
    method Peek(toks: string) returns (found: bool)
      requires pos <= |buf|
      modifies this
      ensures pos == SkipSpace(buf, old(pos)) <= |buf| && Lex(buf, pos) == Lex(buf, old(pos))
      ensures SkipSpace(buf, pos) == pos
      ensures found <==> pos < |buf| && buf[pos] in toks
    {
      SkipTwice(buf, pos);
      while pos < |buf| && buf[pos] in WHITESPACE
        invariant pos <= |buf| && SkipSpace(buf, pos) == SkipSpace(buf, old(pos))
      {
        pos := pos + 1;
      }
      found := pos < |buf| && buf[pos] in toks;
    }

    /** gettoken: the next token and the place of its characters; 0 at the end. */
    method GetToken() returns (tok: char, q: nat, eq: nat)
      requires pos <= |buf| && '\0' !in buf
      modifies this
      ensures pos <= |buf|
      ensures Lex(buf, old(pos)) == [] ==> tok == '\0' && Lex(buf, pos) == []
      ensures Lex(buf, old(pos)) != [] ==> tok != '\0' && Lex(buf, pos) == Lex(buf, old(pos))[1..]
      ensures Lex(buf, old(pos)) != [] ==> var t := Lex(buf, old(pos))[0];
                tok == (if t.Word? then 'a' else t.c) && (t.Word? ==> t.w == Span(q, eq)) && (t.Sym? ==> t.c != 'a')
    {
      var _ := Peek("");
      q := pos;
      if pos == |buf| {
        return '\0', q, q;
      }
      tok := buf[pos];
      if tok in "|();&<" {
        pos := pos + 1;
      } else if tok == '>' {
        pos := pos + 1;
        if pos < |buf| && buf[pos] == '>' {
          tok := '+';
          pos := pos + 1;
        }
      } else {
        tok := 'a';
        while pos < |buf| && buf[pos] !in WHITESPACE && buf[pos] !in SYMBOLS
          invariant q <= pos <= |buf| && WordEnd(buf, pos) == WordEnd(buf, q)
        {
          pos := pos + 1;
        }
      }
      eq := pos;
      assert eq == TokenEnd(buf, q);
      var _ := Peek("");
    }

    /** parseredirs, adding to the redirections rs. */
    method ParseRedirs(rs: seq<Redir<Span>>) returns (ok: bool, redirs: seq<Redir<Span>>)
      requires pos <= |buf| && '\0' !in buf
      modifies this
      ensures pos <= |buf|
      ensures var r := Redirs(Lex(buf, old(pos)), rs); ok == r.Found? && (ok ==> r == Found([], redirs, Lex(buf, pos)))
    {
      ok, redirs := true, rs;
      FirstChar(buf, pos);
      var more := Peek("<>");
      while more
        invariant pos <= |buf| && more == IsRedir(Lex(buf, pos))
        invariant Redirs(Lex(buf, pos), redirs) == Redirs(Lex(buf, old(pos)), rs)
        decreases |Lex(buf, pos)|
      {
        ghost var ts := Lex(buf, pos);
        var tok, _, _ := GetToken();
        var kind, q, eq := GetToken();
        if kind != 'a' {
          return false, redirs;
        }
        assert Lex(buf, pos) == ts[2..] && ts[1] == Word(Span(q, eq));
        redirs := redirs + [Redir(Span(q, eq), tok != '<')];
        FirstChar(buf, pos);
        more := Peek("<>");
      }
    }

    /** The loop of parseexec. */
    method ParseArgs(rs: seq<Redir<Span>>) returns (ok: bool, args: seq<Span>, redirs: seq<Redir<Span>>)
      requires pos <= |buf| && '\0' !in buf
      modifies this
      ensures pos <= |buf|
      ensures var r := Args(Lex(buf, old(pos)), [], rs); ok == r.Found? && (ok ==> r == Found(args, redirs, Lex(buf, pos)))
    {
      ok, args, redirs := true, [], rs;
      FirstChar(buf, pos);
      var stop := Peek("|)&;");
      while !stop
        invariant pos <= |buf| && (stop ==> Stops(Lex(buf, pos)))
        invariant Stops(Lex(buf, pos)) ==> stop || Lex(buf, pos) == []
        invariant Args(Lex(buf, pos), args, redirs) == Args(Lex(buf, old(pos)), [], rs)
        decreases if stop then 0 else 1, |Lex(buf, pos)|
      {
        ghost var ts := Lex(buf, pos);
        var tok, q, eq := GetToken();
        if tok == '\0' {
          break;
        }
        if tok != 'a' {
          return false, args, redirs;
        }
        ghost var args0 := args;
        args := args + [Span(q, eq)];
        if |args| >= MAXARGS {
          return false, args, redirs;
        }
        ghost var redirs0 := redirs;
        ok, redirs := ParseRedirs(redirs);
        ArgsTurn(ts, args0, redirs0);
        if !ok {
          return false, args, redirs;
        }
        FirstChar(buf, pos);
        stop := Peek("|)&;");
      }
    }

    method ParseExec() returns (r: Result)
      requires pos <= |buf| && '\0' !in buf
      modifies this
      ensures pos <= |buf| && Agrees(r, Exec(Lex(buf, old(pos))), Lex(buf, pos))
      decreases |Lex(buf, pos)|, 0
    {
      FirstChar(buf, pos);
      var paren := Peek("(");
      if paren {
        r := ParseBlock();
        return;
      }
      var ok, redirs := ParseRedirs([]);
      if !ok {
        return Panicked;
      }
      var args;
      ok, args, redirs := ParseArgs(redirs);
      if !ok {
        return Panicked;
      }
      r := Parsed(Wrap(ExecCmd(args), redirs));
    }

    method ParseBlock() returns (r: Result)
      requires pos <= |buf| && '\0' !in buf && Is(Lex(buf, pos), '(')
      modifies this
      ensures pos <= |buf| && Agrees(r, Block(Lex(buf, old(pos))), Lex(buf, pos))
      decreases |Lex(buf, pos)| - 1, 4
    {
      var _, _, _ := GetToken();
      r := ParseLine();
      if r.Panicked? {
        return;
      }
      FirstChar(buf, pos);
      var paren := Peek(")");
      if !paren {
        return Panicked;
      }
      var _, _, _ := GetToken();
      var ok, redirs := ParseRedirs([]);
      if !ok {
        return Panicked;
      }
      r := Parsed(Wrap(r.cmd, redirs));
    }

    method ParsePipe() returns (r: Result)
      requires pos <= |buf| && '\0' !in buf
      modifies this
      ensures pos <= |buf| && Agrees(r, Pipe(Lex(buf, old(pos))), Lex(buf, pos))
      decreases |Lex(buf, pos)|, 1
    {
      r := ParseExec();
      if r.Panicked? {
        return;
      }
      FirstChar(buf, pos);
      var bar := Peek("|");
      if bar {
        var _, _, _ := GetToken();
        var right := ParsePipe();
        r := if right.Panicked? then Panicked else Parsed(PipeCmd(r.cmd, right.cmd));
      }
    }

    method ParseLine() returns (r: Result)
      requires pos <= |buf| && '\0' !in buf
      modifies this
      ensures pos <= |buf| && Agrees(r, Line(Lex(buf, old(pos))), Lex(buf, pos))
      decreases |Lex(buf, pos)|, 3
    {
      r := ParsePipe();
      if r.Panicked? {
        return;
      }
      ghost var p := Pipe(Lex(buf, old(pos)));
      FirstChar(buf, pos);
      var amp := Peek("&");
      while amp
        invariant pos <= |buf| && amp == Is(Lex(buf, pos), '&') && r.Parsed?
        invariant Backs(r.cmd, Lex(buf, pos)) == Backs(p.cmd, p.rest)
        invariant |Lex(buf, pos)| <= |Lex(buf, old(pos))|
        decreases |Lex(buf, pos)|
      {
        var _, _, _ := GetToken();
        r := Parsed(BackCmd(r.cmd));
        FirstChar(buf, pos);
        amp := Peek("&");
      }
      FirstChar(buf, pos);
      var semi := Peek(";");
      if semi {
        var _, _, _ := GetToken();
        var right := ParseLine();
        r := if right.Panicked? then Panicked else Parsed(ListCmd(r.cmd, right.cmd));
      }
    }
  }
}
