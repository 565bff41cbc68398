/** The command language of sh.c at the level of tokens: what the parser computes, a printer,
    and that the parser undoes the printer. W is how a word is represented. */
module ShellGrammar {
  const MAXARGS: nat := 10

  /** A symbol ('+' for ">>") or a word. */
  datatype Tok<W> = Sym(c: char) | Word(w: W)

  datatype Redir<W> = Redir(file: W, out: bool)

  datatype Cmd<W> =
    | ExecCmd(args: seq<W>)
    | RedirCmd(cmd: Cmd<W>, file: W, out: bool)
    | PipeCmd(left: Cmd<W>, right: Cmd<W>)
    | ListCmd(left: Cmd<W>, right: Cmd<W>)
    | BackCmd(cmd: Cmd<W>)

  datatype Parse<W> = Ok(cmd: Cmd<W>, rest: seq<Tok<W>>) | Panic
  datatype ParseList<W> = Found(args: seq<W>, redirs: seq<Redir<W>>, rest: seq<Tok<W>>) | NotFound

  predicate Is<W>(ts: seq<Tok<W>>, c: char) { ts != [] && ts[0] == Sym(c) }

  predicate IsRedir<W>(ts: seq<Tok<W>>) { Is(ts, '<') || Is(ts, '>') || Is(ts, '+') }

  /** What may follow a command without parentheses. */
  predicate Stops<W>(ts: seq<Tok<W>>) { ts == [] || Is(ts, '|') || Is(ts, ')') || Is(ts, '&') || Is(ts, ';') }

  /** Redirections around a command, the first innermost. */
  function Wrap<W>(c: Cmd<W>, rs: seq<Redir<W>>): Cmd<W> {
    if rs == [] then c else RedirCmd(Wrap(c, rs[..|rs| - 1]), rs[|rs| - 1].file, rs[|rs| - 1].out)
  }

  // ---------------------------------------------------------------- parsing

  /** parseredirs, on top of the redirections rs. */
  function Redirs<W>(ts: seq<Tok<W>>, rs: seq<Redir<W>>): (r: ParseList<W>)
    ensures r.Found? ==> |r.rest| <= |ts| && r.args == []
    decreases |ts|
  {
    if !IsRedir(ts) then Found([], rs, ts)
    else if |ts| < 2 || !ts[1].Word? then NotFound
    else Redirs(ts[2..], rs + [Redir(ts[1].w, ts[0].c != '<')])
  }

  /** The loop of parseexec. */
  function Args<W>(ts: seq<Tok<W>>, args: seq<W>, rs: seq<Redir<W>>): (r: ParseList<W>)
    ensures r.Found? ==> |r.rest| <= |ts|
    decreases |ts|
  {
    if Stops(ts) then Found(args, rs, ts)
    else if !ts[0].Word? || |args| + 1 >= MAXARGS then NotFound
    else
      var r := Redirs(ts[1..], rs);
      if r.NotFound? then NotFound else Args(r.rest, args + [ts[0].w], r.redirs)
  }

  function Exec<W>(ts: seq<Tok<W>>): (r: Parse<W>)
    ensures r.Ok? ==> |r.rest| <= |ts|
    decreases |ts|, 0
  {
    if Is(ts, '(') then Block(ts)
    else
      var r := Redirs(ts, []);
      if r.NotFound? then Panic
      else
        var a := Args(r.rest, [], r.redirs);
        if a.NotFound? then Panic else Ok(Wrap(ExecCmd(a.args), a.redirs), a.rest)
  }

  function Block<W>(ts: seq<Tok<W>>): (r: Parse<W>)
    requires Is(ts, '(')
    ensures r.Ok? ==> |r.rest| < |ts|
    decreases |ts| - 1, 4
  {
    var l := Line(ts[1..]);
    if l.Panic? || !Is(l.rest, ')') then Panic
    else
      var r := Redirs(l.rest[1..], []);
      if r.NotFound? then Panic else Ok(Wrap(l.cmd, r.redirs), r.rest)
  }

  function Pipe<W>(ts: seq<Tok<W>>): (r: Parse<W>)
    ensures r.Ok? ==> |r.rest| <= |ts|
    decreases |ts|, 1
  {
    var e := Exec(ts);
    if e.Panic? || !Is(e.rest, '|') then e
    else
      var p := Pipe(e.rest[1..]);
      if p.Panic? then Panic else Ok(PipeCmd(e.cmd, p.cmd), p.rest)
  }

  /** The loop of parseline over '&'. */
  function Backs<W>(c: Cmd<W>, ts: seq<Tok<W>>): (r: Parse<W>)
    ensures r.Ok? && |r.rest| <= |ts| && !Is(r.rest, '&')
    decreases |ts|
  {
    if Is(ts, '&') then Backs(BackCmd(c), ts[1..]) else Ok(c, ts)
  }

  function Line<W>(ts: seq<Tok<W>>): (r: Parse<W>)
    ensures r.Ok? ==> |r.rest| <= |ts|
    decreases |ts|, 3
  {
    var p := Pipe(ts);
    if p.Panic? then Panic
    else
      var b := Backs(p.cmd, p.rest);
      if !Is(b.rest, ';') then b
      else
        var l := Line(b.rest[1..]);
        if l.Panic? then Panic else Ok(ListCmd(b.cmd, l.cmd), l.rest)
  }

  // ---------------------------------------------------------------- printing

  datatype Level = AsLine | AsBack | AsPipe | AsExec

  /** The order in which the printers call one another on the same command. */
  function Rank<W>(c: Cmd<W>, k: Level): nat {
    var n := match k case AsLine => 0 case AsBack => 1 case AsPipe => 2 case AsExec => 3;
    if c.ExecCmd? || c.RedirCmd? then 3 - n
    else if c.PipeCmd? then (6 - n) % 4
    else if c.ListCmd? then (4 - n) % 4
    else (5 - n) % 4
  }

  /** The canonical tokens of a command, with parentheses where the grammar needs them. */
  function Print<W>(c: Cmd<W>, k: Level): (ts: seq<Tok<W>>)
    decreases c, Rank(c, k)
  {
    match k
    case AsLine => if c.ListCmd? then Print(c.left, AsBack) + [Sym(';')] + Print(c.right, AsLine) else Print(c, AsBack)
    case AsBack => if c.BackCmd? then Print(c.cmd, AsBack) + [Sym('&')] else Print(c, AsPipe)
    case AsPipe => if c.PipeCmd? then Print(c.left, AsExec) + [Sym('|')] + Print(c.right, AsPipe) else Print(c, AsExec)
    case AsExec =>
      match c
      case ExecCmd(args) => Words(args)
      case RedirCmd(x, f, out) => Print(x, AsExec) + [Sym(if out then '>' else '<'), Word(f)]
      case _ => [Sym('(')] + Print(c, AsLine) + [Sym(')')]
  }

  function Words<W>(args: seq<W>): (ts: seq<Tok<W>>)
    ensures |ts| == |args| && forall i :: 0 <= i < |args| ==> ts[i] == Word(args[i])
  {
    seq(|args|, i requires 0 <= i < |args| => Word(args[i]))
  }

  /** Every simple command is within the argument limit. */
  predicate Fits<W>(c: Cmd<W>) {
    match c
    case ExecCmd(args) => |args| < MAXARGS
    case RedirCmd(x, _, _) => Fits(x)
    case PipeCmd(l, r) => Fits(l) && Fits(r)
    case ListCmd(l, r) => Fits(l) && Fits(r)
    case BackCmd(x) => Fits(x)
  }

  // ---------------------------------------------------------------- parsing undoes printing

  function RedirToks<W>(rs: seq<Redir<W>>): (ts: seq<Tok<W>>) {
    if rs == [] then [] else [Sym(if rs[0].out then '>' else '<'), Word(rs[0].file)] + RedirToks(rs[1..])
  }

  lemma {:induction false} RedirsTrip<W>(rs0: seq<Redir<W>>, rs: seq<Redir<W>>, rest: seq<Tok<W>>)
    requires !IsRedir(rest)
    ensures Redirs(RedirToks(rs) + rest, rs0) == Found([], rs0 + rs, rest)
    decreases |rs|
  {
    var ts := RedirToks(rs) + rest;
    if rs == [] {
      assert ts == rest && rs0 + rs == rs0;
    } else {
      assert ts[2..] == RedirToks(rs[1..]) + rest;
      RedirsTrip(rs0 + [rs[0]], rs[1..], rest);
      assert rs0 + [rs[0]] + rs[1..] == rs0 + rs;
    }
  }

  lemma {:induction false} ArgsTrip<W>(a0: seq<W>, args: seq<W>, rs: seq<Redir<W>>, rest: seq<Tok<W>>)
    requires Stops(rest) && args != [] && |a0| + |args| < MAXARGS
    ensures Args(Words(args) + RedirToks(rs) + rest, a0, []) == Found(a0 + args, rs, rest)
    decreases |args|
  {
    hide Redirs, RedirToks, Args;
    var ts := Words(args) + RedirToks(rs) + rest;
    assert ts[0] == Word(args[0]);
    if |args| == 1 {
      assert ts[1..] == RedirToks(rs) + rest;
      RedirsTrip([], rs, rest);
      assert [] + rs == rs && a0 + [args[0]] == a0 + args;
      ArgsStop(rest, a0 + args, rs);
    } else {
      assert ts[1..] == Words(args[1..]) + RedirToks(rs) + rest;
      assert ts[1..][0] == Word(args[1]);
      NothingFound(ts[1..], []);
      ArgsTrip(a0 + [args[0]], args[1..], rs, rest);
      assert a0 + [args[0]] + args[1..] == a0 + args;
    }
    ArgsTurn(ts, a0, []);
  }

  lemma ArgsStop<W>(ts: seq<Tok<W>>, args: seq<W>, rs: seq<Redir<W>>)
    requires Stops(ts)
    ensures Args(ts, args, rs) == Found(args, rs, ts)
  {
  }

  /** One argument and the redirections after it. */
  lemma ArgsTurn<W>(ts: seq<Tok<W>>, args: seq<W>, rs: seq<Redir<W>>)
    requires ts != [] && ts[0].Word? && |args| + 1 < MAXARGS
    ensures var r := Redirs(ts[1..], rs);
            Args(ts, args, rs) == if r.NotFound? then NotFound else Args(r.rest, args + [ts[0].w], r.redirs)
  {
  }

  lemma {:induction false} WrapFirst<W>(c: Cmd<W>, r: Redir<W>, rs: seq<Redir<W>>)
    ensures Wrap(RedirCmd(c, r.file, r.out), rs) == Wrap(c, [r] + rs)
    decreases |rs|
  {
    if rs == [] {
      assert [r] + rs == [r];
      assert [r][..0] == [];
    } else {
      var all := [r] + rs;
      assert all[..|all| - 1] == [r] + rs[..|rs| - 1];
      WrapFirst(c, r, rs[..|rs| - 1]);
    }
  }

  lemma NothingFound<W>(ts: seq<Tok<W>>, rs: seq<Redir<W>>)
    ensures !IsRedir(ts) ==> Redirs(ts, rs) == Found([], rs, ts)
    ensures Stops(ts) ==> Args(ts, [], rs) == Found([], rs, ts)
  {
  }

  lemma ExecFound<W>(ts: seq<Tok<W>>, r: ParseList<W>, a: ParseList<W>)
    requires !Is(ts, '(') && r.Found? && Redirs(ts, []) == r && a.Found? && Args(r.rest, [], r.redirs) == a
    ensures Exec(ts) == Ok(Wrap(ExecCmd(a.args), a.redirs), a.rest)
  {
  }

  lemma SimpleTrip<W>(args: seq<W>, rs: seq<Redir<W>>, rest: seq<Tok<W>>)
    requires |args| < MAXARGS && Stops(rest)
    ensures Exec(Words(args) + RedirToks(rs) + rest) == Ok(Wrap(ExecCmd(args), rs), rest)
  {
    hide Redirs, Args, Exec, Wrap;
    var ts := Words(args) + RedirToks(rs) + rest;
    if args == [] {
      assert ts == RedirToks(rs) + rest;
      assert rs != [] ==> ts[0] == Sym(if rs[0].out then '>' else '<');
      RedirsTrip([], rs, rest);
      assert [] + rs == rs;
      NothingFound(rest, rs);
      ExecFound(ts, Found([], rs, rest), Found([], rs, rest));
    } else {
      assert ts[0] == Word(args[0]);
      NothingFound(ts, []);
      ArgsTrip([], args, rs, rest);
      assert [] + args == args;
      ExecFound(ts, Found([], [], ts), Found(args, rs, rest));
    }
  }

  lemma BlockTrip<W>(c: Cmd<W>, body: seq<Tok<W>>, rs: seq<Redir<W>>, rest: seq<Tok<W>>)
    requires Stops(rest) && Line(body + ([Sym(')')] + (RedirToks(rs) + rest))) == Ok(c, [Sym(')')] + (RedirToks(rs) + rest))
    ensures Exec([Sym('(')] + body + [Sym(')')] + RedirToks(rs) + rest) == Ok(Wrap(c, rs), rest)
  {
    hide Redirs, RedirToks, Line, Wrap;
    var ts := [Sym('(')] + body + [Sym(')')] + RedirToks(rs) + rest;
    var inner := [Sym(')')] + (RedirToks(rs) + rest);
    assert ts[0] == Sym('(') && ts[1..] == body + inner;
    assert inner[1..] == RedirToks(rs) + rest;
    RedirsTrip([], rs, rest);
    assert [] + rs == rs;
  }

  /** A command printed at exec level, with more redirections after it. */
  lemma {:induction false} ExecTrip<W>(c: Cmd<W>, rs: seq<Redir<W>>, rest: seq<Tok<W>>)
    requires Fits(c) && Stops(rest)
    ensures Exec(Print(c, AsExec) + RedirToks(rs) + rest) == Ok(Wrap(c, rs), rest)
    decreases c, Rank(c, AsExec)
  {
    hide Exec, Line, Wrap;
    match c
    case ExecCmd(args) => SimpleTrip(args, rs, rest);
    case RedirCmd(x, f, out) =>
      var r := Redir(f, out);
      assert ([r] + rs)[1..] == rs;
      assert Print(c, AsExec) + RedirToks(rs) + rest == Print(x, AsExec) + RedirToks([r] + rs) + rest;
      ExecTrip(x, [r] + rs, rest);
      WrapFirst(x, r, rs);
    case _ =>
      LineTrip(c, [Sym(')')] + (RedirToks(rs) + rest));
      BlockTrip(c, Print(c, AsLine), rs, rest);
  }

  lemma {:induction false} PipeTrip<W>(c: Cmd<W>, rest: seq<Tok<W>>)
    requires Fits(c) && Stops(rest) && !Is(rest, '|')
    ensures Pipe(Print(c, AsPipe) + rest) == Ok(c, rest)
    decreases c, Rank(c, AsPipe)
  {
    var ts := Print(c, AsPipe) + rest;
    if c.PipeCmd? {
      var more := [Sym('|')] + (Print(c.right, AsPipe) + rest);
      assert ts == Print(c.left, AsExec) + RedirToks<W>([]) + more;
      ExecTrip(c.left, [], more);
      assert more[1..] == Print(c.right, AsPipe) + rest;
      PipeTrip(c.right, rest);
    } else {
      assert ts == Print(c, AsExec) + RedirToks<W>([]) + rest;
      ExecTrip(c, [], rest);
    }
  }

  lemma {:induction false} BackTrip<W>(c: Cmd<W>, rest: seq<Tok<W>>)
    requires Fits(c) && Stops(rest) && !Is(rest, '|')
    ensures var p := Pipe(Print(c, AsBack) + rest); p.Ok? && Backs(p.cmd, p.rest) == Backs(c, rest)
    decreases c, Rank(c, AsBack)
  {
    if c.BackCmd? {
      var more := [Sym('&')] + rest;
      assert Print(c, AsBack) + rest == Print(c.cmd, AsBack) + more;
      BackTrip(c.cmd, more);
      assert more[1..] == rest;
    } else {
      PipeTrip(c, rest);
    }
  }

  /** Parsing the canonical printing of a command gives the command back. */
  lemma {:induction false} LineTrip<W>(c: Cmd<W>, rest: seq<Tok<W>>)
    requires Fits(c) && (rest == [] || Is(rest, ')'))
    ensures Line(Print(c, AsLine) + rest) == Ok(c, rest)
    decreases c, Rank(c, AsLine)
  {
    if c.ListCmd? {
      var more := [Sym(';')] + (Print(c.right, AsLine) + rest);
      assert Print(c, AsLine) + rest == Print(c.left, AsBack) + more;
      BackTrip(c.left, more);
      assert more[1..] == Print(c.right, AsLine) + rest;
      LineTrip(c.right, rest);
    } else {
      BackTrip(c, rest);
    }
  }

  // ---------------------------------------------------------------- words

  /** The words of a command. */
  function WordsOf<W>(c: Cmd<W>): (ws: set<W>) {
    match c
    case ExecCmd(args) => set a | a in args
    case RedirCmd(x, f, _) => WordsOf(x) + {f}
    case PipeCmd(l, r) => WordsOf(l) + WordsOf(r)
    case ListCmd(l, r) => WordsOf(l) + WordsOf(r)
    case BackCmd(x) => WordsOf(x)
  }

  ghost predicate From<W(!new)>(ws: set<W>, ts: seq<Tok<W>>) {
    forall w :: w in ws ==> Word(w) in ts
  }

  ghost predicate Within<W(!new)>(us: seq<Tok<W>>, ts: seq<Tok<W>>) {
    forall u :: u in us ==> u in ts
  }

  ghost predicate FilesFrom<W>(rs: seq<Redir<W>>, ts: seq<Tok<W>>) {
    forall i :: 0 <= i < |rs| ==> Word(rs[i].file) in ts
  }

  ghost predicate ArgsFrom<W>(args: seq<W>, ts: seq<Tok<W>>) {
    forall i :: 0 <= i < |args| ==> Word(args[i]) in ts
  }

  lemma {:induction false} WrapFrom<W(!new)>(c: Cmd<W>, rs: seq<Redir<W>>, ts: seq<Tok<W>>)
    requires From(WordsOf(c), ts) && FilesFrom(rs, ts)
    ensures From(WordsOf(Wrap(c, rs)), ts)
    decreases |rs|
  {
    if rs != [] {
      WrapFrom(c, rs[..|rs| - 1], ts);
    }
  }

  lemma {:induction false} RedirsFrom<W(!new)>(ts: seq<Tok<W>>, rs: seq<Redir<W>>, all: seq<Tok<W>>)
    requires Within(ts, all) && FilesFrom(rs, all)
    ensures var r := Redirs(ts, rs); r.Found? ==> FilesFrom(r.redirs, all) && Within(r.rest, all)
    decreases |ts|
  {
    if IsRedir(ts) && |ts| >= 2 && ts[1].Word? {
      assert ts[1] in all;
      RedirsFrom(ts[2..], rs + [Redir(ts[1].w, ts[0].c != '<')], all);
    }
  }

  lemma {:induction false} ArgsFound<W(!new)>(ts: seq<Tok<W>>, args: seq<W>, rs: seq<Redir<W>>, all: seq<Tok<W>>)
    requires Within(ts, all) && FilesFrom(rs, all) && ArgsFrom(args, all)
    ensures var r := Args(ts, args, rs); r.Found? ==> FilesFrom(r.redirs, all) && ArgsFrom(r.args, all) && Within(r.rest, all)
    decreases |ts|
  {
    if !Stops(ts) && ts[0].Word? && |args| + 1 < MAXARGS {
      RedirsFrom(ts[1..], rs, all);
      var r := Redirs(ts[1..], rs);
      if r.Found? {
        assert ts[0] in all;
        ArgsFound(r.rest, args + [ts[0].w], r.redirs, all);
      }
    }
  }

  lemma {:induction false} BacksFrom<W(!new)>(c: Cmd<W>, ts: seq<Tok<W>>, all: seq<Tok<W>>)
    requires From(WordsOf(c), all) && Within(ts, all)
    ensures var r := Backs(c, ts); From(WordsOf(r.cmd), all) && Within(r.rest, all)
    decreases |ts|
  {
    if Is(ts, '&') {
      BacksFrom(BackCmd(c), ts[1..], all);
    }
  }

  lemma {:induction false} ExecFrom<W(!new)>(ts: seq<Tok<W>>, all: seq<Tok<W>>)
    requires Within(ts, all)
    ensures var r := Exec(ts); r.Ok? ==> From(WordsOf(r.cmd), all) && Within(r.rest, all)
    decreases |ts|, 0
  {
    if Is(ts, '(') {
      LineFrom(ts[1..], all);
      var l := Line(ts[1..]);
      if l.Ok? && Is(l.rest, ')') {
        RedirsFrom(l.rest[1..], [], all);
        var r := Redirs(l.rest[1..], []);
        if r.Found? {
          WrapFrom(l.cmd, r.redirs, all);
        }
      }
    } else {
      RedirsFrom(ts, [], all);
      var r := Redirs(ts, []);
      if r.Found? {
        ArgsFound(r.rest, [], r.redirs, all);
        var a := Args(r.rest, [], r.redirs);
        if a.Found? {
          WrapFrom(ExecCmd(a.args), a.redirs, all);
        }
      }
    }
  }

  lemma {:induction false} PipeFrom<W(!new)>(ts: seq<Tok<W>>, all: seq<Tok<W>>)
    requires Within(ts, all)
    ensures var r := Pipe(ts); r.Ok? ==> From(WordsOf(r.cmd), all) && Within(r.rest, all)
    decreases |ts|, 1
  {
    ExecFrom(ts, all);
    var e := Exec(ts);
    if e.Ok? && Is(e.rest, '|') {
      PipeFrom(e.rest[1..], all);
    }
  }

  /** Every word of a parsed command is one of the tokens. */
  lemma {:induction false} LineFrom<W(!new)>(ts: seq<Tok<W>>, all: seq<Tok<W>>)
    requires Within(ts, all)
    ensures var r := Line(ts); r.Ok? ==> From(WordsOf(r.cmd), all) && Within(r.rest, all)
    decreases |ts|, 3
  {
    PipeFrom(ts, all);
    var p := Pipe(ts);
    if p.Ok? {
      BacksFrom(p.cmd, p.rest, all);
      var b := Backs(p.cmd, p.rest);
      if Is(b.rest, ';') {
        LineFrom(b.rest[1..], all);
      }
    }
  }

  // ---------------------------------------------------------------- what is parsed fits

  lemma {:induction false} WrapFits<W>(c: Cmd<W>, rs: seq<Redir<W>>)
    ensures Fits(Wrap(c, rs)) == Fits(c)
    decreases |rs|
  {
    if rs != [] {
      WrapFits(c, rs[..|rs| - 1]);
    }
  }

  lemma {:induction false} ArgsFit<W>(ts: seq<Tok<W>>, args: seq<W>, rs: seq<Redir<W>>)
    requires |args| < MAXARGS
    ensures var r := Args(ts, args, rs); r.Found? ==> |r.args| < MAXARGS
    decreases |ts|
  {
    if !Stops(ts) && ts[0].Word? && |args| + 1 < MAXARGS {
      var r := Redirs(ts[1..], rs);
      if r.Found? {
        ArgsFit(r.rest, args + [ts[0].w], r.redirs);
      }
    }
  }

  lemma {:induction false} ExecFits<W>(ts: seq<Tok<W>>)
    ensures Exec(ts).Ok? ==> Fits(Exec(ts).cmd)
    decreases |ts|, 0
  {
    if Is(ts, '(') {
      BlockFits(ts);
    } else {
      var r := Redirs(ts, []);
      if r.Found? {
        ArgsFit(r.rest, [], r.redirs);
        var a := Args(r.rest, [], r.redirs);
        if a.Found? {
          WrapFits(ExecCmd(a.args), a.redirs);
        }
      }
    }
  }

  lemma {:induction false} BlockFits<W>(ts: seq<Tok<W>>)
    requires Is(ts, '(')
    ensures Block(ts).Ok? ==> Fits(Block(ts).cmd)
    decreases |ts| - 1, 4
  {
    LineFits(ts[1..]);
    var l := Line(ts[1..]);
    if l.Ok? && Is(l.rest, ')') {
      var r := Redirs(l.rest[1..], []);
      if r.Found? {
        WrapFits(l.cmd, r.redirs);
      }
    }
  }

  lemma {:induction false} PipeFits<W>(ts: seq<Tok<W>>)
    ensures Pipe(ts).Ok? ==> Fits(Pipe(ts).cmd)
    decreases |ts|, 1
  {
    ExecFits(ts);
    var e := Exec(ts);
    if e.Ok? && Is(e.rest, '|') {
      PipeFits(e.rest[1..]);
    }
  }

  lemma {:induction false} BacksFit<W>(c: Cmd<W>, ts: seq<Tok<W>>)
    ensures Fits(Backs(c, ts).cmd) == Fits(c)
    decreases |ts|
  {
    if Is(ts, '&') {
      BacksFit(BackCmd(c), ts[1..]);
    }
  }

  /** Every parsed command is within the argument limit. */
  lemma {:induction false} LineFits<W>(ts: seq<Tok<W>>)
    ensures Line(ts).Ok? ==> Fits(Line(ts).cmd)
    decreases |ts|, 3
  {
    PipeFits(ts);
    var p := Pipe(ts);
    if p.Ok? {
      BacksFit(p.cmd, p.rest);
      var b := Backs(p.cmd, p.rest);
      if Is(b.rest, ';') {
        LineFits(b.rest[1..]);
      }
    }
  }

  /** Printing a command and parsing it again gives the command back if and only if it is
      within the argument limit; so any accepted line, printed and parsed again, gives the
      same command. */
  lemma PrintParse<W>(c: Cmd<W>, ts: seq<Tok<W>>)
    ensures Line(Print(c, AsLine)) == Ok(c, []) <==> Fits(c)
    ensures var r := Line(ts); r.Ok? ==> Line(Print(r.cmd, AsLine)) == Ok(r.cmd, [])
  {
    LineFits(Print(c, AsLine));
    if Fits(c) {
      LineTrip(c, []);
      assert Print(c, AsLine) + [] == Print(c, AsLine);
    }
    LineFits(ts);
    var r := Line(ts);
    if r.Ok? {
      LineTrip(r.cmd, []);
      assert Print(r.cmd, AsLine) + [] == Print(r.cmd, AsLine);
    }
  }

  // ---------------------------------------------------------------- appending

  /** Every ">>" written as ">". */
  function Flat<W>(ts: seq<Tok<W>>): (us: seq<Tok<W>>)
    ensures |us| == |ts| && forall i :: 0 <= i < |ts| ==> us[i] == if ts[i] == Sym('+') then Sym('>') else ts[i]
  {
    seq(|ts|, i requires 0 <= i < |ts| => if ts[i] == Sym('+') then Sym('>') else ts[i])
  }

  function FlatParse<W>(p: Parse<W>): Parse<W> { if p.Ok? then p.(rest := Flat(p.rest)) else p }

  function FlatList<W>(l: ParseList<W>): ParseList<W> { if l.Found? then l.(rest := Flat(l.rest)) else l }

  lemma FlatTokens<W>(ts: seq<Tok<W>>)
    ensures forall k: nat :: k <= |ts| ==> Flat(ts)[k..] == Flat(ts[k..])
    ensures IsRedir(Flat(ts)) == IsRedir(ts) && Stops(Flat(ts)) == Stops(ts)
    ensures forall c: char :: c != '>' && c != '+' ==> Is(Flat(ts), c) == Is(ts, c)
  {
  }

  lemma {:induction false} RedirsFlat<W>(ts: seq<Tok<W>>, rs: seq<Redir<W>>)
    ensures Redirs(Flat(ts), rs) == FlatList(Redirs(ts, rs))
    decreases |ts|
  {
    FlatTokens(ts);
    if IsRedir(ts) && |ts| >= 2 && ts[1].Word? {
      RedirsFlat(ts[2..], rs + [Redir(ts[1].w, ts[0].c != '<')]);
    }
  }

  lemma {:induction false} ArgsFlat<W>(ts: seq<Tok<W>>, args: seq<W>, rs: seq<Redir<W>>)
    ensures Args(Flat(ts), args, rs) == FlatList(Args(ts, args, rs))
    decreases |ts|
  {
    FlatTokens(ts);
    if !Stops(ts) && ts[0].Word? && |args| + 1 < MAXARGS {
      RedirsFlat(ts[1..], rs);
      var r := Redirs(ts[1..], rs);
      if r.Found? {
        ArgsFlat(r.rest, args + [ts[0].w], r.redirs);
      }
    }
  }

  lemma {:induction false} ExecFlat<W>(ts: seq<Tok<W>>)
    ensures Exec(Flat(ts)) == FlatParse(Exec(ts))
    decreases |ts|, 0
  {
    FlatTokens(ts);
    if Is(ts, '(') {
      BlockFlat(ts);
    } else {
      RedirsFlat(ts, []);
      var r := Redirs(ts, []);
      if r.Found? {
        ArgsFlat(r.rest, [], r.redirs);
      }
    }
  }

  lemma {:induction false} BlockFlat<W>(ts: seq<Tok<W>>)
    requires Is(ts, '(')
    ensures Is(Flat(ts), '(') && Block(Flat(ts)) == FlatParse(Block(ts))
    decreases |ts| - 1, 4
  {
    FlatTokens(ts);
    LineFlat(ts[1..]);
    var l := Line(ts[1..]);
    if l.Ok? {
      FlatTokens(l.rest);
      if Is(l.rest, ')') {
        RedirsFlat(l.rest[1..], []);
      }
    }
  }

  lemma {:induction false} PipeFlat<W>(ts: seq<Tok<W>>)
    ensures Pipe(Flat(ts)) == FlatParse(Pipe(ts))
    decreases |ts|, 1
  {
    ExecFlat(ts);
    var e := Exec(ts);
    if e.Ok? {
      FlatTokens(e.rest);
      if Is(e.rest, '|') {
        PipeFlat(e.rest[1..]);
      }
    }
  }

  lemma {:induction false} BacksFlat<W>(c: Cmd<W>, ts: seq<Tok<W>>)
    ensures Backs(c, Flat(ts)) == FlatParse(Backs(c, ts))
    decreases |ts|
  {
    FlatTokens(ts);
    if Is(ts, '&') {
      BacksFlat(BackCmd(c), ts[1..]);
    }
  }

  /** No command tells ">>" from ">": with every ">>" written as ">" the same command is
      parsed, or the same error met. */
  lemma {:induction false} LineFlat<W>(ts: seq<Tok<W>>)
    ensures Line(Flat(ts)) == FlatParse(Line(ts))
    decreases |ts|, 3
  {
    PipeFlat(ts);
    var p := Pipe(ts);
    if p.Ok? {
      BacksFlat(p.cmd, p.rest);
      var b := Backs(p.cmd, p.rest);
      FlatTokens(b.rest);
      if Is(b.rest, ';') {
        LineFlat(b.rest[1..]);
      }
    }
  }
}
