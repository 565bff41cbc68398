/** The shell's grammar on its own, as trees with a yield and a meaning, and that the parser
    accepts exactly the yields of its trees and returns their meanings. */
module ShellTrees {
  import opened ShellGrammar

  /** A redirection as written. */
  datatype Arrow<W> = Arrow(sym: char, file: W)

  /** What a simple command is made of, in any order. */
  datatype Item<W> = Arg(w: W) | Into(a: Arrow<W>)

  /** simple: items; group: "(" line ")" redirections; pipe: exec ["|" pipe];
      line: pipe {"&"} [";" line]. */
  datatype Tree<W> =
    | Simple(items: seq<Item<W>>)
    | Group(body: Tree<W>, after: seq<Arrow<W>>)
    | Piped(left: Tree<W>, right: Tree<W>)
    | Amp(body: Tree<W>)
    | Then(first: Tree<W>, second: Tree<W>)

  predicate ArrowOk<W>(a: Arrow<W>) { a.sym == '<' || a.sym == '>' || a.sym == '+' }

  predicate ArrowsOk<W>(s: seq<Arrow<W>>) { forall i :: 0 <= i < |s| ==> ArrowOk(s[i]) }

  predicate ItemsOk<W>(items: seq<Item<W>>) {
    forall i :: 0 <= i < |items| && items[i].Into? ==> ArrowOk(items[i].a)
  }

  /** The tree belongs to the grammar at this level. */
  predicate Grammatical<W>(t: Tree<W>, k: Level) {
    match t
    case Simple(items) => ItemsOk(items) && |ArgsOf(items)| < MAXARGS
    case Group(body, after) => Grammatical(body, AsLine) && ArrowsOk(after)
    case Piped(l, r) => k != AsExec && Grammatical(l, AsExec) && Grammatical(r, AsPipe)
    case Amp(body) => (k == AsBack || k == AsLine) && Grammatical(body, AsBack)
    case Then(a, b) => k == AsLine && Grammatical(a, AsBack) && Grammatical(b, AsLine)
  }

  // ---------------------------------------------------------------- yield and meaning

  function ArrowToks<W>(s: seq<Arrow<W>>): (ts: seq<Tok<W>>) {
    if s == [] then [] else [Sym(s[0].sym), Word(s[0].file)] + ArrowToks(s[1..])
  }

  function ItemToks<W>(items: seq<Item<W>>): (ts: seq<Tok<W>>) {
    if items == [] then [] else OneItem(items[0]) + ItemToks(items[1..])
  }

  function OneItem<W>(x: Item<W>): (ts: seq<Tok<W>>) {
    match x
    case Arg(w) => [Word(w)]
    case Into(a) => [Sym(a.sym), Word(a.file)]
  }

  function Yield<W>(t: Tree<W>): (ts: seq<Tok<W>>) {
    match t
    case Simple(items) => ItemToks(items)
    case Group(body, after) => [Sym('(')] + Yield(body) + [Sym(')')] + ArrowToks(after)
    case Piped(l, r) => Yield(l) + [Sym('|')] + Yield(r)
    case Amp(body) => Yield(body) + [Sym('&')]
    case Then(a, b) => Yield(a) + [Sym(';')] + Yield(b)
  }

  /** Every redirection but "<" writes. */
  function RedirOf<W>(a: Arrow<W>): Redir<W> { Redir(a.file, a.sym != '<') }

  function RedirsOf<W>(s: seq<Arrow<W>>): (rs: seq<Redir<W>>) {
    if s == [] then [] else [RedirOf(s[0])] + RedirsOf(s[1..])
  }

  function ArgsOf<W>(items: seq<Item<W>>): (args: seq<W>) {
    if items == [] then []
    else (if items[0].Arg? then [items[0].w] else []) + ArgsOf(items[1..])
  }

  function IntosOf<W>(items: seq<Item<W>>): (rs: seq<Redir<W>>) {
    if items == [] then []
    else (if items[0].Into? then [RedirOf(items[0].a)] else []) + IntosOf(items[1..])
  }

  function Meaning<W>(t: Tree<W>): (c: Cmd<W>) {
    match t
    case Simple(items) => Wrap(ExecCmd(ArgsOf(items)), IntosOf(items))
    case Group(body, after) => Wrap(Meaning(body), RedirsOf(after))
    case Piped(l, r) => PipeCmd(Meaning(l), Meaning(r))
    case Amp(body) => BackCmd(Meaning(body))
    case Then(a, b) => ListCmd(Meaning(a), Meaning(b))
  }

  // ---------------------------------------------------------------- every tree is parsed

  lemma {:induction false} ArrowsParsed<W>(s: seq<Arrow<W>>, rs: seq<Redir<W>>, rest: seq<Tok<W>>)
    requires ArrowsOk(s) && !IsRedir(rest)
    ensures Redirs(ArrowToks(s) + rest, rs) == Found([], rs + RedirsOf(s), rest)
    decreases |s|
  {
    var ts := ArrowToks(s) + rest;
    if s == [] {
      assert ts == rest && rs + RedirsOf(s) == rs;
    } else {
      assert ts[2..] == ArrowToks(s[1..]) + rest;
      ArrowsParsed(s[1..], rs + [RedirOf(s[0])], rest);
      assert rs + [RedirOf(s[0])] + RedirsOf(s[1..]) == rs + RedirsOf(s);
    }
  }

  /** The loop of parseexec from between two items. */
  function Items<W>(ts: seq<Tok<W>>, args: seq<W>, rs: seq<Redir<W>>): ParseList<W> {
    var r := Redirs(ts, rs);
    if r.NotFound? then NotFound else Args(r.rest, args, r.redirs)
  }

  /** One redirection, one argument, or the end. */
  lemma ItemsStep<W>(ts: seq<Tok<W>>, args: seq<W>, rs: seq<Redir<W>>)
    ensures IsRedir(ts) ==>
              Items(ts, args, rs) == if |ts| < 2 || !ts[1].Word? then NotFound else Items(ts[2..], args, rs + [Redir(ts[1].w, ts[0].c != '<')])
    ensures Stops(ts) ==> Items(ts, args, rs) == Found(args, rs, ts)
    ensures !IsRedir(ts) && !Stops(ts) ==>
              Items(ts, args, rs) == if !ts[0].Word? || |args| + 1 >= MAXARGS then NotFound else Items(ts[1..], args + [ts[0].w], rs)
  {
  }

  lemma ItemCons<W>(x: Item<W>, items: seq<Item<W>>)
    ensures ItemToks([x] + items) == OneItem(x) + ItemToks(items)
    ensures ArgsOf([x] + items) == (if x.Arg? then [x.w] else []) + ArgsOf(items)
    ensures IntosOf([x] + items) == (if x.Into? then [RedirOf(x.a)] else []) + IntosOf(items)
    ensures ItemsOk([x] + items) <==> ItemsOk(items) && (x.Into? ==> ArrowOk(x.a))
  {
    assert ([x] + items)[1..] == items;
    assert ItemsOk([x] + items) ==> forall i :: 0 <= i < |items| ==> items[i] == ([x] + items)[i + 1];
  }

  lemma ItemRead<W>(x: Item<W>, us: seq<Tok<W>>, args: seq<W>, rs: seq<Redir<W>>)
    requires x.Into? ==> ArrowOk(x.a)
    requires x.Arg? ==> |args| + 1 < MAXARGS
    ensures Items(OneItem(x) + us, args, rs) ==
            if x.Arg? then Items(us, args + [x.w], rs) else Items(us, args, rs + [RedirOf(x.a)])
  {
    hide Items;
    var ts := OneItem(x) + us;
    ItemsStep(ts, args, rs);
    if x.Arg? {
      assert ts[1..] == us;
    } else {
      assert ts[2..] == us;
    }
  }

  lemma {:induction false} ItemsParsed<W>(items: seq<Item<W>>, args: seq<W>, rs: seq<Redir<W>>, rest: seq<Tok<W>>)
    requires ItemsOk(items) && Stops(rest) && |args| + |ArgsOf(items)| < MAXARGS
    ensures Items(ItemToks(items) + rest, args, rs) == Found(args + ArgsOf(items), rs + IntosOf(items), rest)
    decreases |items|
  {
    hide Items, OneItem;
    if items == [] {
      assert ItemToks(items) + rest == rest && args + ArgsOf(items) == args && rs + IntosOf(items) == rs;
      ItemsStep(rest, args, rs);
    } else {
      var x, more := items[0], items[1..];
      hide ItemToks, ArgsOf, IntosOf;
      assert items == [x] + more;
      ItemCons(x, more);
      assert ItemToks(items) + rest == OneItem(x) + (ItemToks(more) + rest);
      ItemRead(x, ItemToks(more) + rest, args, rs);
      if x.Into? {
        ItemsParsed(more, args, rs + [RedirOf(x.a)], rest);
        assert rs + [RedirOf(x.a)] + IntosOf(more) == rs + IntosOf(items);
      } else {
        ItemsParsed(more, args + [x.w], rs, rest);
        assert args + [x.w] + ArgsOf(more) == args + ArgsOf(items);
      }
    }
  }

  lemma SimpleParsed<W>(items: seq<Item<W>>, rest: seq<Tok<W>>)
    requires ItemsOk(items) && |ArgsOf(items)| < MAXARGS && Stops(rest)
    ensures Exec(ItemToks(items) + rest) == Ok(Meaning(Simple(items)), rest)
  {
    var ts := ItemToks(items) + rest;
    NoParen(items, rest);
    ItemsParsed(items, [], [], rest);
    assert [] + ArgsOf(items) == ArgsOf(items) && [] + IntosOf(items) == IntosOf(items);
  }

  lemma NoParen<W>(items: seq<Item<W>>, rest: seq<Tok<W>>)
    requires ItemsOk(items) && Stops(rest)
    ensures !Is(ItemToks(items) + rest, '(')
  {
  }

  lemma GroupParsed<W>(c: Cmd<W>, body: seq<Tok<W>>, after: seq<Arrow<W>>, rest: seq<Tok<W>>)
    requires Stops(rest) && ArrowsOk(after)
    requires Line(body + ([Sym(')')] + (ArrowToks(after) + rest))) == Ok(c, [Sym(')')] + (ArrowToks(after) + rest))
    ensures Exec([Sym('(')] + body + [Sym(')')] + ArrowToks(after) + rest) == Ok(Wrap(c, RedirsOf(after)), rest)
  {
    hide Redirs, ArrowToks, Line, Wrap;
    var ts := [Sym('(')] + body + [Sym(')')] + ArrowToks(after) + rest;
    var inner := [Sym(')')] + (ArrowToks(after) + rest);
    assert ts[0] == Sym('(') && ts[1..] == body + inner;
    assert inner[1..] == ArrowToks(after) + rest;
    ArrowsParsed(after, [], rest);
    assert [] + RedirsOf(after) == RedirsOf(after);
  }

  function Depth(k: Level): nat {
    match k case AsExec => 0 case AsPipe => 1 case AsBack => 2 case AsLine => 3
  }

  lemma {:induction false} ExecParsed<W>(t: Tree<W>, rest: seq<Tok<W>>)
    requires Grammatical(t, AsExec) && Stops(rest)
    ensures Exec(Yield(t) + rest) == Ok(Meaning(t), rest)
    decreases t, 0
  {
    hide Exec, Line, Wrap;
    match t
    case Simple(items) => SimpleParsed(items, rest);
    case Group(body, after) =>
      LineParsed(body, [Sym(')')] + (ArrowToks(after) + rest));
      GroupParsed(Meaning(body), Yield(body), after, rest);
  }

  lemma Regroup<T>(a: seq<T>, x: T, b: seq<T>, rest: seq<T>)
    ensures a + [x] + b + rest == a + ([x] + (b + rest)) && ([x] + (b + rest))[1..] == b + rest
  {
  }

  lemma {:induction false} PipeParsed<W>(t: Tree<W>, rest: seq<Tok<W>>)
    requires Grammatical(t, AsPipe) && Stops(rest) && !Is(rest, '|')
    ensures Pipe(Yield(t) + rest) == Ok(Meaning(t), rest)
    decreases t, 1
  {
    hide Exec, Grammatical;
    if t.Piped? {
      Parts(t, AsPipe);
      var more := [Sym('|')] + (Yield(t.right) + rest);
      Regroup(Yield(t.left), Sym('|'), Yield(t.right), rest);
      ExecParsed(t.left, more);
      PipeParsed(t.right, rest);
    } else {
      Shapes(t, AsPipe);
      Lower(t, AsPipe, AsExec);
      ExecParsed(t, rest);
    }
  }

  /** What is no pipe, list or background command belongs to the levels below too. */
  lemma Lower<W>(t: Tree<W>, k: Level, lower: Level)
    requires Grammatical(t, k) && Depth(lower) <= Depth(k)
    requires (t.Piped? ==> lower != AsExec) && (t.Amp? ==> lower == AsBack || lower == AsLine) && (t.Then? ==> lower == AsLine)
    ensures Grammatical(t, lower)
  {
  }

  lemma Parts<W>(t: Tree<W>, k: Level)
    requires Grammatical(t, k)
    ensures t.Piped? ==> Grammatical(t.left, AsExec) && Grammatical(t.right, AsPipe)
    ensures t.Amp? ==> Grammatical(t.body, AsBack)
    ensures t.Then? ==> Grammatical(t.first, AsBack) && Grammatical(t.second, AsLine)
  {
  }

  lemma {:induction false} BackParsed<W>(t: Tree<W>, rest: seq<Tok<W>>)
    requires Grammatical(t, AsBack) && Stops(rest) && !Is(rest, '|')
    ensures var p := Pipe(Yield(t) + rest); p.Ok? && Backs(p.cmd, p.rest) == Backs(Meaning(t), rest)
    decreases t, 2
  {
    hide Pipe, Grammatical;
    if t.Amp? {
      Parts(t, AsBack);
      var more := [Sym('&')] + rest;
      assert Yield(t) + rest == Yield(t.body) + more;
      BackParsed(t.body, more);
      assert more[1..] == rest;
    } else {
      Shapes(t, AsBack);
      Lower(t, AsBack, AsPipe);
      PipeParsed(t, rest);
    }
  }

  lemma Shapes<W>(t: Tree<W>, k: Level)
    requires Grammatical(t, k)
    ensures k == AsBack ==> !t.Then?
    ensures k == AsPipe ==> !t.Then? && !t.Amp?
  {
  }

  /** The parser accepts the yield of every tree and returns its meaning. */
  lemma {:induction false} LineParsed<W>(t: Tree<W>, rest: seq<Tok<W>>)
    requires Grammatical(t, AsLine) && (rest == [] || Is(rest, ')'))
    ensures Line(Yield(t) + rest) == Ok(Meaning(t), rest)
    decreases t, 3
  {
    hide Pipe, Grammatical;
    if t.Then? {
      Parts(t, AsLine);
      var more := [Sym(';')] + (Yield(t.second) + rest);
      Regroup(Yield(t.first), Sym(';'), Yield(t.second), rest);
      BackParsed(t.first, more);
      LineParsed(t.second, rest);
    } else {
      Lower(t, AsLine, AsBack);
      BackParsed(t, rest);
    }
  }

  // ---------------------------------------------------------------- what is parsed has a tree

  /** A list in two parts with a separator between them. */
  lemma Between<T>(ts: seq<T>, a: seq<T>, rest: seq<T>, b: seq<T>, end: seq<T>)
    requires ts == a + rest && rest != [] && rest[1..] == b + end
    ensures ts == a + [rest[0]] + b + end
  {
    HeadTail(rest);
    Assoc([rest[0]], b, end);
    Assoc(a, [rest[0]] + b, end);
    Assoc(a, [rest[0]], b);
  }

  lemma HeadTail<T>(ts: seq<T>)
    requires ts != []
    ensures ts == [ts[0]] + ts[1..]
    ensures |ts| >= 2 ==> ts == [ts[0], ts[1]] + ts[2..]
  {
  }

  lemma Assoc<T>(a: seq<T>, b: seq<T>, c: seq<T>)
    ensures a + (b + c) == a + b + c
  {
  }

  lemma {:induction false} ArrowsFound<W>(ts: seq<Tok<W>>, rs: seq<Redir<W>>) returns (s: seq<Arrow<W>>)
    requires Redirs(ts, rs).Found?
    ensures ArrowsOk(s) && ts == ArrowToks(s) + Redirs(ts, rs).rest && Redirs(ts, rs).redirs == rs + RedirsOf(s)
    ensures !IsRedir(Redirs(ts, rs).rest)
    decreases |ts|
  {
    RedirsStep(ts, rs);
    hide Redirs;
    if !IsRedir(ts) {
      s := [];
      assert rs + RedirsOf(s) == rs && ArrowToks(s) + ts == ts;
    } else {
      var a := Arrow(ts[0].c, ts[1].w);
      var more := ArrowsFound(ts[2..], rs + [RedirOf(a)]);
      hide ArrowToks, RedirsOf;
      s := [a] + more;
      ArrowCons(a, more);
      assert rs + [RedirOf(a)] + RedirsOf(more) == rs + RedirsOf(s);
      assert ts == [ts[0], ts[1]] + ts[2..];
    }
  }

  lemma RedirsStep<W>(ts: seq<Tok<W>>, rs: seq<Redir<W>>)
    ensures Redirs(ts, rs) ==
            if !IsRedir(ts) then Found([], rs, ts)
            else if |ts| < 2 || !ts[1].Word? then NotFound
            else Redirs(ts[2..], rs + [Redir(ts[1].w, ts[0].c != '<')])
  {
  }

  lemma ArrowCons<W>(a: Arrow<W>, s: seq<Arrow<W>>)
    ensures ArrowToks([a] + s) == [Sym(a.sym), Word(a.file)] + ArrowToks(s) && RedirsOf([a] + s) == [RedirOf(a)] + RedirsOf(s)
    ensures ArrowOk(a) && ArrowsOk(s) ==> ArrowsOk([a] + s)
  {
    assert ([a] + s)[1..] == s;
  }

  lemma {:induction false} ItemsRead<W>(ts: seq<Tok<W>>, args: seq<W>, rs: seq<Redir<W>>) returns (items: seq<Item<W>>)
    requires Items(ts, args, rs).Found?
    ensures var r := Items(ts, args, rs);
            && ItemsOk(items) && ts == ItemToks(items) + r.rest && Stops(r.rest)
            && r.args == args + ArgsOf(items) && r.redirs == rs + IntosOf(items)
    decreases |ts|
  {
    ItemsStep(ts, args, rs);
    hide Items;
    if Stops(ts) {
      items := [];
      assert args + ArgsOf(items) == args && rs + IntosOf(items) == rs && ItemToks(items) + ts == ts;
    } else {
      hide ItemToks, ArgsOf, IntosOf;
      HeadTail(ts);
      if IsRedir(ts) {
        var a := Arrow(ts[0].c, ts[1].w);
        var more := ItemsRead(ts[2..], args, rs + [RedirOf(a)]);
        items := [Into(a)] + more;
        ItemCons(Into(a), more);
        Assoc(OneItem(Into(a)), ItemToks(more), Items(ts, args, rs).rest);
        Assoc(rs, [RedirOf(a)], IntosOf(more));
        assert [] + ArgsOf(more) == ArgsOf(more);
      } else {
        var w := ts[0].w;
        var more := ItemsRead(ts[1..], args + [w], rs);
        items := [Arg(w)] + more;
        ItemCons(Arg(w), more);
        Assoc(OneItem(Arg(w)), ItemToks(more), Items(ts, args, rs).rest);
        Assoc(args, [w], ArgsOf(more));
        assert [] + IntosOf(more) == IntosOf(more);
      }
    }
  }

  lemma {:induction false} ExecTree<W>(ts: seq<Tok<W>>) returns (t: Tree<W>)
    requires Exec(ts).Ok?
    ensures Grammatical(t, AsExec) && ts == Yield(t) + Exec(ts).rest && Meaning(t) == Exec(ts).cmd
    decreases |ts|, 0
  {
    hide Redirs, Args, Line, Wrap;
    if Is(ts, '(') {
      t := BlockTree(ts);
    } else {
      var items := ItemsRead(ts, [], []);
      var a := Items(ts, [], []);
      assert [] + ArgsOf(items) == ArgsOf(items) && [] + IntosOf(items) == IntosOf(items);
      t := Simple(items);
      ExecFits(ts);
      WrapFits(ExecCmd(a.args), a.redirs);
    }
  }

  lemma {:induction false} BlockTree<W>(ts: seq<Tok<W>>) returns (t: Tree<W>)
    requires Is(ts, '(') && Block(ts).Ok?
    ensures Grammatical(t, AsExec) && ts == Yield(t) + Block(ts).rest && Meaning(t) == Block(ts).cmd
    decreases |ts| - 1, 4
  {
    hide Redirs, Line, Wrap;
    var l := Line(ts[1..]);
    var body := LineTree(ts[1..]);
    var s := ArrowsFound(l.rest[1..], []);
    t := Group(body, s);
    var r := Redirs(l.rest[1..], []);
    assert [] + RedirsOf(s) == RedirsOf(s);
    HeadTail(ts);
    HeadTail(l.rest);
    Assoc([Sym(')')], ArrowToks(s), r.rest);
    Assoc(Yield(body), [Sym(')')] + ArrowToks(s), r.rest);
    Assoc(Yield(body), [Sym(')')], ArrowToks(s));
    Assoc([Sym('(')], Yield(body) + [Sym(')')] + ArrowToks(s), r.rest);
    Assoc([Sym('(')], Yield(body) + [Sym(')')], ArrowToks(s));
    Assoc([Sym('(')], Yield(body), [Sym(')')]);
  }

  lemma {:induction false} PipeTree<W>(ts: seq<Tok<W>>) returns (t: Tree<W>)
    requires Pipe(ts).Ok?
    ensures Grammatical(t, AsPipe) && ts == Yield(t) + Pipe(ts).rest && Meaning(t) == Pipe(ts).cmd
    decreases |ts|, 1
  {
    hide Exec;
    var e := Exec(ts);
    var left := ExecTree(ts);
    if Is(e.rest, '|') {
      var right := PipeTree(e.rest[1..]);
      t := Piped(left, right);
      Between(ts, Yield(left), e.rest, Yield(right), Pipe(ts).rest);
    } else {
      t := left;
      Higher(t);
    }
  }

  lemma Higher<W>(t: Tree<W>)
    ensures Grammatical(t, AsExec) ==> Grammatical(t, AsPipe)
    ensures Grammatical(t, AsPipe) ==> Grammatical(t, AsBack)
    ensures Grammatical(t, AsBack) ==> Grammatical(t, AsLine)
  {
  }

  lemma {:induction false} BacksTree<W>(t: Tree<W>, ts: seq<Tok<W>>) returns (r: Tree<W>)
    requires Grammatical(t, AsBack)
    ensures var b := Backs(Meaning(t), ts);
            Grammatical(r, AsBack) && Yield(t) + ts == Yield(r) + b.rest && Meaning(r) == b.cmd
    decreases |ts|
  {
    if Is(ts, '&') {
      r := BacksTree(Amp(t), ts[1..]);
      assert ts == [ts[0]] + ts[1..];
      assert Yield(t) + ts == Yield(Amp(t)) + ts[1..];
    } else {
      r := t;
    }
  }

  /** Whatever the parser accepts is the yield of a tree, followed by what is left over, and
      what it returns is the tree's meaning. */
  lemma {:induction false} LineTree<W>(ts: seq<Tok<W>>) returns (t: Tree<W>)
    requires Line(ts).Ok?
    ensures Grammatical(t, AsLine) && ts == Yield(t) + Line(ts).rest && Meaning(t) == Line(ts).cmd
    decreases |ts|, 3
  {
    hide Pipe;
    var p := Pipe(ts);
    var first := PipeTree(ts);
    Higher(first);
    var back := BacksTree(first, p.rest);
    var b := Backs(p.cmd, p.rest);
    if Is(b.rest, ';') {
      var second := LineTree(b.rest[1..]);
      t := Then(back, second);
      Between(ts, Yield(back), b.rest, Yield(second), Line(ts).rest);
    } else {
      t := back;
      Higher(t);
    }
  }

  /** Some tree has this yield and this meaning. */
  ghost predicate Means<W(!new)>(ts: seq<Tok<W>>, c: Cmd<W>) {
    exists t :: Grammatical(t, AsLine) && Yield(t) == ts && Meaning(t) == c
  }

  /** The parser is sound and complete: it accepts exactly the lines of the grammar, with
      nothing left over, and returns what they mean; so no line has two meanings. */
  lemma ParsesExactly<W(!new)>(ts: seq<Tok<W>>, c: Cmd<W>)
    ensures Line(ts) == Ok(c, []) <==> Means(ts, c)
    ensures forall d :: Means(ts, c) && Means(ts, d) ==> c == d
  {
    hide Line, Grammatical, Yield, Meaning;
    if Line(ts) == Ok(c, []) {
      var t := LineTree(ts);
      assert Yield(t) + [] == Yield(t);
    }
    forall d | Means(ts, d) ensures Line(ts) == Ok(d, []) {
      var t :| Grammatical(t, AsLine) && Yield(t) == ts && Meaning(t) == d;
      LineParsed(t, []);
      assert Yield(t) + [] == Yield(t);
    }
  }
}
