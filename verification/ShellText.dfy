/** Commands as text: printing a command to a line and parsing the line again, and reading
    the tokens of a parsed line as C strings after nulterminate. */
module ShellText {
  import opened ShellGrammar
  import opened Shell

  // ---------------------------------------------------------------- text of tokens

  function Text(buf: string, w: Span): string {
    if w.s <= w.e <= |buf| then buf[w.s..w.e] else ""
  }

  function TextTok(buf: string, t: Tok<Span>): Tok<string> {
    match t
    case Sym(c) => Sym(c)
    case Word(w) => Word(Text(buf, w))
  }

  ghost predicate TextToks(buf: string, ts: seq<Tok<Span>>, us: seq<Tok<string>>) {
    |us| == |ts| && forall i :: 0 <= i < |ts| ==> us[i] == TextTok(buf, ts[i])
  }

  function TextArgs(buf: string, args: seq<Span>): (r: seq<string>)
    ensures |r| == |args| && forall i :: 0 <= i < |args| ==> r[i] == Text(buf, args[i])
  {
    seq(|args|, i requires 0 <= i < |args| => Text(buf, args[i]))
  }

  function TextCmd(buf: string, c: Cmd<Span>): Cmd<string> {
    match c
    case ExecCmd(args) => ExecCmd(TextArgs(buf, args))
    case RedirCmd(x, f, out) => RedirCmd(TextCmd(buf, x), Text(buf, f), out)
    case PipeCmd(l, r) => PipeCmd(TextCmd(buf, l), TextCmd(buf, r))
    case ListCmd(l, r) => ListCmd(TextCmd(buf, l), TextCmd(buf, r))
    case BackCmd(x) => BackCmd(TextCmd(buf, x))
  }

  // ---------------------------------------------------------------- printing a line

  predicate GoodWord(w: string) {
    w != "" && forall i :: 0 <= i < |w| ==> IsWordChar(w[i])
  }

  predicate GoodTok(t: Tok<string>) {
    if t.Word? then GoodWord(t.w) else t.c in "|&;()<>+"
  }

  function Show(t: Tok<string>): (s: string)
  {
    if t.Word? then t.w else if t.c == '+' then ">>" else [t.c]
  }

  function Render(ts: seq<Tok<string>>): (s: string) {
    if ts == [] then "" else Show(ts[0]) + " " + Render(ts[1..])
  }

  lemma {:induction false} WordEndIs(buf: string, p: nat, e: nat)
    requires p <= e <= |buf| && (forall i :: p <= i < e ==> IsWordChar(buf[i])) && (e < |buf| ==> !IsWordChar(buf[e]))
    ensures WordEnd(buf, p) == e
    decreases e - p
  {
    if p < e {
      WordEndIs(buf, p + 1, e);
    }
  }

  /** The first token of a rendered line, followed by a space. */
  lemma LexFirst(buf: string, p: nat, t: Tok<string>)
    requires GoodTok(t) && p + |Show(t)| < |buf| && buf[p..p + |Show(t)|] == Show(t) && buf[p + |Show(t)|] == ' '
    ensures Lex(buf, p) != [] && TextTok(buf, Lex(buf, p)[0]) == t && Lex(buf, p)[1..] == Lex(buf, p + |Show(t)| + 1)
  {
    var e := p + |Show(t)|;
    assert forall i :: p <= i < e ==> buf[i] == Show(t)[i - p];
    assert !IsSpace(buf[p]) && SkipSpace(buf, p) == p;
    if t.Word? {
      WordEndIs(buf, p, e);
    }
    assert TokenEnd(buf, p) == e;
    assert SkipSpace(buf, e) == SkipSpace(buf, e + 1);
  }

  lemma LexEnd(buf: string)
    ensures Lex(buf, |buf|) == []
  {
  }

  lemma {:induction false} LexRender(pre: string, ts: seq<Tok<string>>)
    requires forall i :: 0 <= i < |ts| ==> GoodTok(ts[i])
    ensures TextToks(pre + Render(ts), Lex(pre + Render(ts), |pre|), ts)
    decreases |ts|
  {
    hide Lex, TextTok, GoodTok;
    var buf := pre + Render(ts);
    if ts == [] {
      LexEnd(buf);
    } else {
      var pre' := pre + Show(ts[0]) + " ";
      assert buf == pre' + Render(ts[1..]);
      assert buf[|pre|..|pre| + |Show(ts[0])|] == Show(ts[0]);
      LexFirst(buf, |pre|, ts[0]);
      LexRender(pre', ts[1..]);
      var us := Lex(buf, |pre|);
      assert us[1..] == Lex(buf, |pre'|);
      forall i | 0 <= i < |us| ensures ts[i] == TextTok(buf, us[i]) {
        assert i > 0 ==> us[i] == us[1..][i - 1] && ts[i] == ts[1..][i - 1];
      }
    }
  }

  lemma TextSlice(buf: string, ts: seq<Tok<Span>>, us: seq<Tok<string>>, i: nat, j: nat)
    requires TextToks(buf, ts, us) && i <= j <= |ts|
    ensures TextToks(buf, ts[i..j], us[i..j])
  {
  }

  /** Tokens whose texts are two lists with a symbol between them. */
  lemma SplitAt(buf: string, ts: seq<Tok<Span>>, left: seq<Tok<string>>, c: char, right: seq<Tok<string>>)
    requires TextToks(buf, ts, left + [Sym(c)] + right)
    ensures |left| < |ts| && TextToks(buf, ts[..|left|], left) && TextToks(buf, ts[|left| + 1..], right)
    ensures ts == ts[..|left|] + [Sym(c)] + ts[|left| + 1..]
  {
    var us, n := left + [Sym(c)] + right, |left|;
    assert us[n] == TextTok(buf, ts[n]);
    TextSlice(buf, ts, us, 0, n);
    TextSlice(buf, ts, us, n + 1, |ts|);
    assert us[0..n] == left && us[n + 1..|ts|] == right && ts[0..n] == ts[..n] && ts[n + 1..|ts|] == ts[n + 1..];
  }

  /** A command has the shape of its text, so it is within the argument limit if that is. */
  lemma {:induction false} TextFits(buf: string, c: Cmd<Span>)
    ensures Fits(TextCmd(buf, c)) == Fits(c)
  {
    match c
    case ExecCmd(_) =>
    case RedirCmd(x, _, _) => TextFits(buf, x);
    case PipeCmd(l, r) => TextFits(buf, l); TextFits(buf, r);
    case ListCmd(l, r) => TextFits(buf, l); TextFits(buf, r);
    case BackCmd(x) => TextFits(buf, x);
  }

  /** Tokens whose texts print a command are themselves the printing of a command with those
      texts. */
  lemma {:induction false} Lift(buf: string, ts: seq<Tok<Span>>, c: Cmd<string>, k: Level) returns (d: Cmd<Span>)
    requires TextToks(buf, ts, Print(c, k)) && Fits(c)
    ensures Print(d, k) == ts && TextCmd(buf, d) == c
    decreases c, Rank(c, k)
  {
    hide Text, TextToks;
    if k == AsLine && c.ListCmd? {
      var us := Print(c.left, AsBack);
      SplitAt(buf, ts, us, ';', Print(c.right, AsLine));
      var l := Lift(buf, ts[..|us|], c.left, AsBack);
      var r := Lift(buf, ts[|us| + 1..], c.right, AsLine);
      d := ListCmd(l, r);
    } else if k == AsBack && c.BackCmd? {
      var us := Print(c.cmd, AsBack);
      assert Print(c, AsBack) == us + [Sym('&')] + [];
      SplitAt(buf, ts, us, '&', []);
      EmptyText(buf, ts[|us| + 1..]);
      var x := Lift(buf, ts[..|us|], c.cmd, AsBack);
      d := BackCmd(x);
    } else if k == AsPipe && c.PipeCmd? {
      var us := Print(c.left, AsExec);
      SplitAt(buf, ts, us, '|', Print(c.right, AsPipe));
      var l := Lift(buf, ts[..|us|], c.left, AsExec);
      var r := Lift(buf, ts[|us| + 1..], c.right, AsPipe);
      d := PipeCmd(l, r);
    } else if k == AsExec {
      d := LiftExec(buf, ts, c);
    } else {
      d := Lift(buf, ts, c, if k == AsLine then AsBack else if k == AsBack then AsPipe else AsExec);
      Shape(buf, d, c);
    }
  }

  lemma EmptyText(buf: string, ts: seq<Tok<Span>>)
    requires TextToks(buf, ts, [])
    ensures ts == []
  {
  }

  lemma Shape(buf: string, d: Cmd<Span>, c: Cmd<string>)
    requires TextCmd(buf, d) == c
    ensures d.ListCmd? == c.ListCmd? && d.BackCmd? == c.BackCmd? && d.PipeCmd? == c.PipeCmd?
    ensures d.ExecCmd? == c.ExecCmd? && d.RedirCmd? == c.RedirCmd?
  {
  }

  lemma LiftWords(buf: string, ts: seq<Tok<Span>>, args: seq<string>) returns (d: Cmd<Span>)
    requires TextToks(buf, ts, Words(args)) && |args| < MAXARGS
    ensures d.ExecCmd? && Words(d.args) == ts && TextArgs(buf, d.args) == args && |d.args| == |args|
  {
    assert forall i :: 0 <= i < |ts| ==> Words(args)[i] == Word(args[i]) == TextTok(buf, ts[i]);
    d := ExecCmd(seq(|ts|, i requires 0 <= i < |ts| => ts[i].w));
  }

  lemma OneWord(buf: string, ts: seq<Tok<Span>>, f: string)
    requires TextToks(buf, ts, [Word(f)])
    ensures |ts| == 1 && ts[0].Word? && ts == [Word(ts[0].w)] && Text(buf, ts[0].w) == f
  {
    assert [Word(f)][0] == TextTok(buf, ts[0]);
  }

  /** Tokens whose texts are a list in parentheses. */
  lemma Enclosed(buf: string, ts: seq<Tok<Span>>, us: seq<Tok<string>>)
    requires TextToks(buf, ts, [Sym('(')] + us + [Sym(')')])
    ensures |ts| == |us| + 2 && TextToks(buf, ts[1..|us| + 1], us) && ts == [Sym('(')] + ts[1..|us| + 1] + [Sym(')')]
  {
    hide TextTok;
    var vs := us + [Sym(')')];
    assert [Sym('(')] + us + [Sym(')')] == [] + [Sym('(')] + vs && vs == us + [Sym(')')] + [];
    SplitAt(buf, ts, [], '(', vs);
    SplitAt(buf, ts[1..], us, ')', []);
    assert ts[1..][..|us|] == ts[1..|us| + 1];
  }

  lemma {:induction false} LiftExec(buf: string, ts: seq<Tok<Span>>, c: Cmd<string>) returns (d: Cmd<Span>)
    requires TextToks(buf, ts, Print(c, AsExec)) && Fits(c)
    ensures Print(d, AsExec) == ts && TextCmd(buf, d) == c
    decreases c, Rank(c, AsExec), 0
  {
    hide Text, TextToks;
    match c
    case ExecCmd(args) => d := LiftWords(buf, ts, args);
    case RedirCmd(x, f, out) =>
      var us, ch := Print(x, AsExec), if out then '>' else '<';
      assert Print(c, AsExec) == us + [Sym(ch)] + [Word(f)];
      SplitAt(buf, ts, us, ch, [Word(f)]);
      OneWord(buf, ts[|us| + 1..], f);
      var y := LiftExec(buf, ts[..|us|], x);
      d := RedirCmd(y, ts[|us| + 1].w, out);
    case _ =>
      var us := Print(c, AsLine);
      Enclosed(buf, ts, us);
      d := Lift(buf, ts[1..|us| + 1], c, AsLine);
      Shape(buf, d, c);
  }

  ghost predicate GoodWords(c: Cmd<string>) {
    forall w :: w in WordsOf(c) ==> GoodWord(w)
  }

  lemma {:induction false} PrintGood(c: Cmd<string>, k: Level)
    requires GoodWords(c)
    ensures forall i :: 0 <= i < |Print(c, k)| ==> GoodTok(Print(c, k)[i])
    decreases c, Rank(c, k)
  {
    if k == AsLine && c.ListCmd? {
      PrintGood(c.left, AsBack);
      PrintGood(c.right, AsLine);
    } else if k == AsBack && c.BackCmd? {
      PrintGood(c.cmd, AsBack);
    } else if k == AsPipe && c.PipeCmd? {
      PrintGood(c.left, AsExec);
      PrintGood(c.right, AsPipe);
    } else if k == AsExec {
      match c
      case ExecCmd(args) => assert forall i :: 0 <= i < |args| ==> args[i] in WordsOf(c);
      case RedirCmd(x, _, _) => PrintGood(x, AsExec);
      case _ => PrintGood(c, AsLine);
    } else {
      PrintGood(c, if k == AsLine then AsBack else if k == AsBack then AsPipe else AsExec);
    }
  }

  /** Parsing the canonical line of a command gives a command with exactly its words in its
      shape, and nothing left over, if and only if the command is within the argument limit. */
  lemma RoundTrip(c: Cmd<string>)
    requires GoodWords(c)
    ensures var buf := Render(Print(c, AsLine));
            var r := Line(Lex(buf, 0));
            r.Ok? && r.rest == [] && TextCmd(buf, r.cmd) == c <==> Fits(c)
  {
    var us := Print(c, AsLine);
    var buf := Render(us);
    var ts := Lex(buf, 0);
    LineFits(ts);
    if Fits(c) {
      PrintGood(c, AsLine);
      LexRender("", us);
      assert "" + buf == buf;
      var d := Lift(buf, ts, c, AsLine);
      TextFits(buf, d);
      LineTrip(d, []);
      assert Print(d, AsLine) + [] == ts;
    } else if Line(ts).Ok? {
      TextFits(buf, Line(ts).cmd);
    }
  }

  // ---------------------------------------------------------------- nulterminate

  /** A word's place: a maximal run of word characters. */
  ghost predicate Token(buf: string, w: Span) {
    w.s < w.e <= |buf| && (forall i :: w.s <= i < w.e ==> IsWordChar(buf[i])) && (w.e < |buf| ==> !IsWordChar(buf[w.e]))
  }

  lemma {:induction false} WordEndRun(buf: string, p: nat)
    requires p <= |buf|
    ensures forall i :: p <= i < WordEnd(buf, p) ==> IsWordChar(buf[i])
    decreases |buf| - p
  {
    if p < |buf| && IsWordChar(buf[p]) {
      WordEndRun(buf, p + 1);
    }
  }

  lemma {:induction false} LexTokens(buf: string, p: nat)
    requires p <= |buf|
    ensures forall t :: t in Lex(buf, p) && t.Word? ==> Token(buf, t.w)
    decreases |buf| - p
  {
    var q := SkipSpace(buf, p);
    if q < |buf| {
      WordEndRun(buf, q);
      LexTokens(buf, TokenEnd(buf, q));
    }
  }

  /** The C string at p of a buffer. */
  function CString(text: seq<char>, p: nat): (s: string)
    requires p <= |text|
    decreases |text| - p
  {
    if p < |text| && text[p] != '\0' then [text[p]] + CString(text, p + 1) else ""
  }

  lemma {:induction false} CStringIs(text: seq<char>, p: nat, e: nat)
    requires p <= e < |text| && text[e] == '\0' && forall i :: p <= i < e ==> text[i] != '\0'
    ensures CString(text, p) == text[p..e]
    decreases e - p
  {
    if p < e {
      CStringIs(text, p + 1, e);
      assert text[p..e] == [text[p]] + text[p + 1..e];
    }
  }

  /** The ends of a command's words. */
  ghost predicate EndsAt(ws: set<Span>, k: nat) {
    exists w :: w in ws && w.e == k
  }

  /** Every word ended by a NUL reads as exactly itself, since no word ends inside another. */
  lemma ReadsExactly(buf: string, text: seq<char>, ws: set<Span>, w: Span)
    requires '\0' !in buf && |text| == |buf| + 1 && (forall u :: u in ws ==> Token(buf, u)) && w in ws
    requires forall k: nat :: k < |buf| ==> text[k] == if EndsAt(ws, k) then '\0' else buf[k]
    requires text[|buf|] == '\0'
    ensures w.s <= |text| && CString(text, w.s) == Text(buf, w)
  {
    assert Token(buf, w) && EndsAt(ws, w.e);
    forall i | w.s <= i < w.e ensures text[i] == buf[i] != '\0' {
      assert forall u :: u in ws && u.e == i ==> Token(buf, u);
    }
    CStringIs(text, w.s, w.e);
    assert text[w.s..w.e] == buf[w.s..w.e];
  }

  /** nulterminate: a NUL at the end of each word of the command and no other change. */
  method Nulterminate(cmd: Cmd<Span>, text: array<char>)
    requires forall w :: w in WordsOf(cmd) ==> w.e < text.Length
    modifies text
    ensures forall k: nat :: k < text.Length ==> text[k] == if EndsAt(WordsOf(cmd), k) then '\0' else old(text[k])
    decreases cmd
  {
    match cmd
    case ExecCmd(args) =>
      var i := 0;
      while i < |args|
        invariant i <= |args|
        invariant forall k: nat :: k < text.Length ==>
                    text[k] == if (exists j :: 0 <= j < i && args[j].e == k) then '\0' else old(text[k])
      {
        assert args[i] in WordsOf(cmd);
        text[args[i].e] := '\0';
        i := i + 1;
      }
      forall k: nat | k < text.Length ensures EndsAt(WordsOf(cmd), k) <==> exists j :: 0 <= j < |args| && args[j].e == k {
        assert forall j :: 0 <= j < |args| ==> args[j] in WordsOf(cmd);
      }
    case RedirCmd(x, file, _) =>
      Nulterminate(x, text);
      assert file in WordsOf(cmd);
      text[file.e] := '\0';
    case PipeCmd(l, r) =>
      Nulterminate(l, text);
      Nulterminate(r, text);
    case ListCmd(l, r) =>
      Nulterminate(l, text);
      Nulterminate(r, text);
    case BackCmd(x) =>
      Nulterminate(x, text);
  }

  /** parsecmd on a line and its final NUL: either the syntax error, or the command the
      grammar gives, with every argument and file name readable in place. */
  method ParseCmd(text: array<char>) returns (r: Result)
    requires text.Length > 0 && text[text.Length - 1] == '\0' && '\0' !in text[..text.Length - 1]
    modifies text
    ensures var buf := old(text[..text.Length - 1]);
            var l := Line(Lex(buf, 0));
            && (r.Parsed? <==> l.Ok? && l.rest == [])
            && (r.Parsed? ==> r.cmd == l.cmd)
            && (r.Parsed? ==> forall w :: w in WordsOf(r.cmd) ==> w.s < text.Length && CString(text[..], w.s) == Text(buf, w))
    ensures r.Panicked? ==> text[..] == old(text[..])
  {
    var buf := text[..text.Length - 1];
    var parser := new Parser(buf);
    r := parser.ParseLine();
    if r.Panicked? {
      return;
    }
    var _ := parser.Peek("");
    FirstChar(buf, parser.pos);
    if parser.pos != |buf| {
      return Panicked;
    }
    ParsedTokens(buf);
    Nulterminate(r.cmd, text);
    forall w | w in WordsOf(r.cmd) ensures w.s < text.Length && CString(text[..], w.s) == Text(buf, w) {
      assert Token(buf, w);
      ReadsExactly(buf, text[..], WordsOf(r.cmd), w);
    }
  }

  /** The words of a parsed line are maximal runs of word characters. */
  lemma ParsedTokens(buf: string)
    ensures var l := Line(Lex(buf, 0)); l.Ok? ==> forall w :: w in WordsOf(l.cmd) ==> Token(buf, w)
  {
    LexTokens(buf, 0);
    LineFrom(Lex(buf, 0), Lex(buf, 0));
  }
}
