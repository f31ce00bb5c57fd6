/** sh.c: command trees, the token lists that print them, and the shell's grammar on token lists. */
module ShellGrammar {
  import opened Wrappers

  const MAXARGS := 10

  datatype Cmd<W> =
    | ExecCmd(argv: seq<W>)
    | RedirCmd(cmd: Cmd<W>, file: W, output: bool)   // "<" is input; ">" and ">>" are both output
    | PipeCmd(left: Cmd<W>, right: Cmd<W>)
    | ListCmd(left: Cmd<W>, right: Cmd<W>)
    | BackCmd(cmd: Cmd<W>)

  /** Sym is one of | ( ) ; & < and >, Append is >>. */
  datatype Tok<W> = Sym(c: char) | Append | Word(w: W)

  predicate Starts<W(==)>(ts: seq<Tok<W>>, t: Tok<W>) { ts != [] && ts[0] == t }

  /** peek(ps, es, "<>") */
  predicate AtRedir<W(==)>(ts: seq<Tok<W>>) { Starts(ts, Sym('<')) || Starts(ts, Sym('>')) || Starts(ts, Append) }

  /** peek(ps, es, "|)&;") */
  predicate AtEnd<W(==)>(ts: seq<Tok<W>>)
  {
    Starts(ts, Sym('|')) || Starts(ts, Sym(')')) || Starts(ts, Sym('&')) || Starts(ts, Sym(';'))
  }

  // ---------------------------------------------------------------- the parser's result on a token list

  /** A command, and the tokens left; None is a syntax panic. */
  type Parsed<W> = Option<(Cmd<W>, seq<Tok<W>>)>

  function AddArg<W>(c: Cmd<W>, w: W): Cmd<W>
  {
    match c
    case ExecCmd(argv) => ExecCmd(argv + [w])
    case RedirCmd(d, f, o) => RedirCmd(AddArg(d, w), f, o)
    case _ => c
  }

  /** The simple command inside redirections, if there is one, has n words. */
  predicate Argc<W>(c: Cmd<W>, n: nat)
  {
    match c
    case ExecCmd(argv) => |argv| == n
    case RedirCmd(d, _, _) => Argc(d, n)
    case _ => false
  }

  function Redirs<W(==)>(c: Cmd<W>, ts: seq<Tok<W>>): (r: Parsed<W>)
    ensures r.Some? ==> |r.value.1| <= |ts|
    decreases |ts|
  {
    if !AtRedir(ts) then Some((c, ts))
    else if |ts| >= 2 && ts[1].Word? then Redirs(RedirCmd(c, ts[1].w, ts[0] != Sym('<')), ts[2..])
    else None
  }

  function Args<W(==)>(c: Cmd<W>, argc: nat, ts: seq<Tok<W>>): (r: Parsed<W>)
    ensures r.Some? ==> |r.value.1| <= |ts|
    decreases |ts|
  {
    if AtEnd(ts) || ts == [] then Some((c, ts))
    else if !ts[0].Word? || argc + 1 >= MAXARGS then None
    else
      match Redirs(AddArg(c, ts[0].w), ts[1..])
      case None => None
      case Some(p) => Args(p.0, argc + 1, p.1)
  }

  function Simple<W(==)>(ts: seq<Tok<W>>): (r: Parsed<W>)
    ensures r.Some? ==> |r.value.1| <= |ts|
    decreases |ts|, 0
  {
    if Starts(ts, Sym('(')) then
      match Line(ts[1..])
      case None => None
      case Some(p) => if Starts(p.1, Sym(')')) then Redirs(p.0, p.1[1..]) else None
    else
      match Redirs(ExecCmd([]), ts)
      case None => None
      case Some(p) => Args(p.0, 0, p.1)
  }

  function Pipeline<W(==)>(ts: seq<Tok<W>>): (r: Parsed<W>)
    ensures r.Some? ==> |r.value.1| <= |ts|
    decreases |ts|, 1
  {
    match Simple(ts)
    case None => None
    case Some(p) =>
      if !Starts(p.1, Sym('|')) then Some(p)
      else
        match Pipeline(p.1[1..])
        case None => None
        case Some(q) => Some((PipeCmd(p.0, q.0), q.1))
  }

  function Backs<W(==)>(c: Cmd<W>, ts: seq<Tok<W>>): (r: (Cmd<W>, seq<Tok<W>>))
    ensures |r.1| <= |ts|
    decreases |ts|
  {
    if Starts(ts, Sym('&')) then Backs(BackCmd(c), ts[1..]) else (c, ts)
  }

  function Line<W(==)>(ts: seq<Tok<W>>): (r: Parsed<W>)
    ensures r.Some? ==> |r.value.1| <= |ts|
    decreases |ts|, 2
  {
    match Pipeline(ts)
    case None => None
    case Some(p) =>
      var q := Backs(p.0, p.1);
      if !Starts(q.1, Sym(';')) then Some(q)
      else
        match Line(q.1[1..])
        case None => None
        case Some(l) => Some((ListCmd(q.0, l.0), l.1))
  }

  // ---------------------------------------------------------------- printing a tree

  /** The loosest operator: 0 a command with redirections, 1 "|", 2 "&", 3 ";". */
  function Loose<W>(c: Cmd<W>): nat
  {
    match c
    case ExecCmd(_) => 0
    case RedirCmd(_, _, _) => 0
    case PipeCmd(_, _) => 1
    case BackCmd(_) => 2
    case ListCmd(_, _) => 3
  }

  function Words<W>(argv: seq<W>): seq<Tok<W>> { seq(|argv|, i requires 0 <= i < |argv| => Word(argv[i])) }

  /** The tokens of a tree where operators up to the given looseness may stand; parentheses elsewhere. */
  function Toks<W>(c: Cmd<W>, level: nat): seq<Tok<W>>
    decreases c, if Loose(c) > level then 1 else 0
  {
    if Loose(c) > level then [Sym('(')] + Toks(c, 3) + [Sym(')')]
    else
      match c
      case ExecCmd(argv) => Words(argv)
      case RedirCmd(d, f, o) => Toks(d, 0) + [Sym(if o then '>' else '<'), Word(f)]
      case PipeCmd(l, r) => Toks(l, 0) + [Sym('|')] + Toks(r, 1)
      case BackCmd(d) => Toks(d, 2) + [Sym('&')]
      case ListCmd(l, r) => Toks(l, 2) + [Sym(';')] + Toks(r, 3)
  }

  /** Each simple command's words fit in argv with its terminator. */
  predicate FewArgs<W>(c: Cmd<W>)
  {
    match c
    case ExecCmd(argv) => |argv| < MAXARGS
    case RedirCmd(d, _, _) => FewArgs(d)
    case PipeCmd(l, r) => FewArgs(l) && FewArgs(r)
    case ListCmd(l, r) => FewArgs(l) && FewArgs(r)
    case BackCmd(d) => FewArgs(d)
  }

  // ---------------------------------------------------------------- parsing what was printed

  /** What parseexec does once it has read c: more redirections, and more words if c is no block. */
  function After<W(==)>(c: Cmd<W>, argc: nat, ts: seq<Tok<W>>): Parsed<W>
  {
    match Redirs(c, ts)
    case None => None
    case Some(p) => if Argc(c, argc) then Args(p.0, argc, p.1) else Some(p)
  }

  predicate Simplest<W(==)>(ts: seq<Tok<W>>) { ts == [] || AtEnd(ts) || AtRedir(ts) }

  lemma {:induction false} ArgsOfWords<W>(a: seq<W>, b: seq<W>, ts: seq<Tok<W>>)
    requires b != [] && |a| + |b| < MAXARGS && Simplest(ts)
    ensures Args(ExecCmd(a), |a|, Words(b) + ts) == After(ExecCmd(a + b), |a| + |b|, ts)
    decreases |b|
  {
    hide Args, Redirs, After;
    var us := Words(b) + ts;
    assert us[0] == Word(b[0]);
    assert us[1..] == Words(b[1..]) + ts;
    ArgsStep(a, us);
    if |b| == 1 {
      assert us[1..] == ts && b == [b[0]];
    } else {
      assert us[1..][0] == Word(b[1]);
      NoRedirs(ExecCmd(a + [b[0]]), us[1..]);
      ArgcExact(a + [b[0]], us[1..]);
      ArgsOfWords(a + [b[0]], b[1..], ts);
      assert a + [b[0]] + b[1..] == a + b;
    }
  }

  /** Reading one more word. */
  lemma ArgsStep<W>(a: seq<W>, ts: seq<Tok<W>>)
    requires ts != [] && ts[0].Word? && |a| + 1 < MAXARGS
    ensures Args(ExecCmd(a), |a|, ts) == After(ExecCmd(a + [ts[0].w]), |a| + 1, ts[1..])
  {
  }

  lemma NoRedirs<W>(c: Cmd<W>, ts: seq<Tok<W>>)
    requires !AtRedir(ts)
    ensures Redirs(c, ts) == Some((c, ts))
  {
  }

  lemma ArgcExact<W>(a: seq<W>, ts: seq<Tok<W>>)
    requires Redirs(ExecCmd(a), ts) == Some((ExecCmd(a), ts))
    ensures After(ExecCmd(a), |a|, ts) == Args(ExecCmd(a), |a|, ts)
  {
  }

  function ArgcOf<W>(c: Cmd<W>): nat
  {
    match c
    case ExecCmd(argv) => |argv|
    case RedirCmd(d, _, _) => ArgcOf(d)
    case _ => 0
  }

  lemma SimpleOfWords<W>(argv: seq<W>, ts: seq<Tok<W>>)
    requires |argv| < MAXARGS && Simplest(ts)
    ensures Simple(Words(argv) + ts) == After(ExecCmd(argv), |argv|, ts)
  {
    if argv == [] {
      assert Words(argv) + ts == ts;
    } else {
      assert (Words(argv) + ts)[0] == Word(argv[0]);
      ArgsOfWords([], argv, ts);
      assert [] + argv == argv;
    }
  }

  lemma SimpleOfBlock<W>(c: Cmd<W>, ts: seq<Tok<W>>)
    requires Line(Toks(c, 3) + ([Sym(')')] + ts)) == Some((c, [Sym(')')] + ts)) && Loose(c) > 0
    ensures Simple(Toks(c, 0) + ts) == After(c, ArgcOf(c), ts)
  {
    var us := Toks(c, 3) + ([Sym(')')] + ts);
    assert Toks(c, 0) + ts == [Sym('(')] + us;
    assert ([Sym('(')] + us)[1..] == us && ([Sym(')')] + ts)[1..] == ts;
  }

  lemma AfterRedir<W>(d: Cmd<W>, f: W, o: bool, ts: seq<Tok<W>>)
    ensures After(d, ArgcOf(d), [Sym(if o then '>' else '<'), Word(f)] + ts) == After(RedirCmd(d, f, o), ArgcOf(d), ts)
  {
    var us := [Sym(if o then '>' else '<'), Word(f)] + ts;
    assert us[2..] == ts;
  }

  lemma {:induction false} SimpleOfToks<W>(c: Cmd<W>, ts: seq<Tok<W>>)
    requires FewArgs(c) && Simplest(ts)
    ensures Simple(Toks(c, 0) + ts) == After(c, ArgcOf(c), ts)
    decreases c, Turn(c, 0)
  {
    hide Simple, After, Line;
    match c
    case ExecCmd(argv) =>
      SimpleOfWords(argv, ts);
    case RedirCmd(d, f, o) =>
      var us := [Sym(if o then '>' else '<'), Word(f)] + ts;
      assert Toks(c, 0) + ts == Toks(d, 0) + us;
      SimpleOfToks(d, us);
      AfterRedir(d, f, o, ts);
    case _ =>
      LineOfToks(c, [Sym(')')] + ts);
      SimpleOfBlock(c, ts);
  }

  lemma AfterEnd<W>(c: Cmd<W>, ts: seq<Tok<W>>)
    requires ts == [] || AtEnd(ts)
    ensures After(c, ArgcOf(c), ts) == Some((c, ts))
  {
  }

  lemma {:induction false} PipelineOfToks<W>(c: Cmd<W>, ts: seq<Tok<W>>)
    requires FewArgs(c) && (ts == [] || (AtEnd(ts) && !Starts(ts, Sym('|'))))
    ensures Pipeline(Toks(c, 1) + ts) == Some((c, ts))
    decreases c, Turn(c, 1)
  {
    hide Simple, After;
    if c.PipeCmd? {
      var us := [Sym('|')] + (Toks(c.right, 1) + ts);
      assert Toks(c, 1) + ts == Toks(c.left, 0) + us;
      SimpleOfToks(c.left, us);
      AfterEnd(c.left, us);
      PipelineOfToks(c.right, ts);
      assert us[1..] == Toks(c.right, 1) + ts;
    } else {
      SimpleOfToks(c, ts);
      AfterEnd(c, ts);
      assert Toks(c, 1) == Toks(c, 0);
    }
  }

  /** A command that may end in "&" signs: the pipeline and the signs together. */
  lemma {:induction false} BacksOfToks<W>(c: Cmd<W>, ts: seq<Tok<W>>)
    requires FewArgs(c) && (ts == [] || (AtEnd(ts) && !Starts(ts, Sym('|'))))
    ensures var r := Pipeline(Toks(c, 2) + ts); r.Some? && Backs(r.value.0, r.value.1) == Backs(c, ts)
    decreases c, Turn(c, 2)
  {
    if c.BackCmd? {
      var us := [Sym('&')] + ts;
      assert Toks(c, 2) + ts == Toks(c.cmd, 2) + us;
      BacksOfToks(c.cmd, us);
      assert us[1..] == ts;
    } else {
      PipelineOfToks(c, ts);
      assert Toks(c, 2) == Toks(c, 1);
    }
  }

  lemma {:induction false} LineOfToks<W>(c: Cmd<W>, ts: seq<Tok<W>>)
    requires FewArgs(c) && (ts == [] || Starts(ts, Sym(')')))
    ensures Line(Toks(c, 3) + ts) == Some((c, ts))
    decreases c, Turn(c, 3)
  {
    if c.ListCmd? {
      var us := [Sym(';')] + (Toks(c.right, 3) + ts);
      assert Toks(c, 3) + ts == Toks(c.left, 2) + us;
      BacksOfToks(c.left, us);
      LineOfToks(c.right, ts);
      assert us[1..] == Toks(c.right, 3) + ts;
    } else {
      BacksOfToks(c, ts);
      assert Toks(c, 3) == Toks(c, 2);
    }
  }

  // ---------------------------------------------------------------- where the words of a parsed tree come from

  /** Every word is in ws, and no simple command has too many. */
  ghost predicate Made<W(!new)>(c: Cmd<W>, ws: set<W>)
  {
    match c
    case ExecCmd(argv) => |argv| < MAXARGS && forall w :: w in argv ==> w in ws
    case RedirCmd(d, f, _) => Made(d, ws) && f in ws
    case PipeCmd(l, r) => Made(l, ws) && Made(r, ws)
    case ListCmd(l, r) => Made(l, ws) && Made(r, ws)
    case BackCmd(d) => Made(d, ws)
  }

  ghost predicate WordsIn<W(!new)>(ts: seq<Tok<W>>, ws: set<W>)
  {
    forall i :: 0 <= i < |ts| && ts[i].Word? ==> ts[i].w in ws
  }

  lemma {:induction false} AddArgMade<W(!new)>(c: Cmd<W>, argc: nat, w: W, ws: set<W>)
    requires Made(c, ws) && Argc(c, argc) && argc + 1 < MAXARGS && w in ws
    ensures Made(AddArg(c, w), ws) && Argc(AddArg(c, w), argc + 1)
  {
    if c.RedirCmd? {
      AddArgMade(c.cmd, argc, w, ws);
    }
  }

  lemma {:induction false} RedirsMade<W(!new)>(c: Cmd<W>, ts: seq<Tok<W>>, ws: set<W>)
    requires Made(c, ws) && WordsIn(ts, ws) && Redirs(c, ts).Some?
    ensures var p := Redirs(c, ts).value; Made(p.0, ws) && WordsIn(p.1, ws) && forall n: nat :: Argc(c, n) ==>
              Argc(p.0, n)
    decreases |ts|
  {
    if AtRedir(ts) {
      RedirsMade(RedirCmd(c, ts[1].w, ts[0] != Sym('<')), ts[2..], ws);
    }
  }

  lemma {:induction false} ArgsMade<W(!new)>(c: Cmd<W>, argc: nat, ts: seq<Tok<W>>, ws: set<W>)
    requires Made(c, ws) && Argc(c, argc) && WordsIn(ts, ws) && Args(c, argc, ts).Some?
    ensures var p := Args(c, argc, ts).value; Made(p.0, ws) && WordsIn(p.1, ws)
    decreases |ts|
  {
    if !AtEnd(ts) && ts != [] {
      AddArgMade(c, argc, ts[0].w, ws);
      RedirsMade(AddArg(c, ts[0].w), ts[1..], ws);
      var p := Redirs(AddArg(c, ts[0].w), ts[1..]).value;
      ArgsMade(p.0, argc + 1, p.1, ws);
    }
  }

  lemma {:induction false} SimpleMade<W(!new)>(ts: seq<Tok<W>>, ws: set<W>)
    requires WordsIn(ts, ws) && Simple(ts).Some?
    ensures var p := Simple(ts).value; Made(p.0, ws) && WordsIn(p.1, ws)
    decreases |ts|, 0
  {
    if Starts(ts, Sym('(')) {
      LineMade(ts[1..], ws);
      var p := Line(ts[1..]).value;
      RedirsMade(p.0, p.1[1..], ws);
    } else {
      RedirsMade(ExecCmd([]), ts, ws);
      var p := Redirs(ExecCmd([]), ts).value;
      assert Argc(Cmd<W>.ExecCmd([]), 0);
      ArgsMade(p.0, 0, p.1, ws);
    }
  }

  lemma {:induction false} PipelineMade<W(!new)>(ts: seq<Tok<W>>, ws: set<W>)
    requires WordsIn(ts, ws) && Pipeline(ts).Some?
    ensures var p := Pipeline(ts).value; Made(p.0, ws) && WordsIn(p.1, ws)
    decreases |ts|, 1
  {
    SimpleMade(ts, ws);
    var p := Simple(ts).value;
    if Starts(p.1, Sym('|')) {
      PipelineMade(p.1[1..], ws);
    }
  }

  lemma {:induction false} BacksMade<W(!new)>(c: Cmd<W>, ts: seq<Tok<W>>, ws: set<W>)
    requires Made(c, ws) && WordsIn(ts, ws)
    ensures Made(Backs(c, ts).0, ws) && WordsIn(Backs(c, ts).1, ws)
    decreases |ts|
  {
    if Starts(ts, Sym('&')) {
      BacksMade(BackCmd(c), ts[1..], ws);
    }
  }

  /** A parsed tree holds only words of the line, at most MAXARGS - 1 to a simple command. */
  lemma {:induction false} LineMade<W(!new)>(ts: seq<Tok<W>>, ws: set<W>)
    requires WordsIn(ts, ws) && Line(ts).Some?
    ensures var p := Line(ts).value; Made(p.0, ws) && WordsIn(p.1, ws)
    decreases |ts|, 2
  {
    PipelineMade(ts, ws);
    var p := Pipeline(ts).value;
    BacksMade(p.0, p.1, ws);
    var q := Backs(p.0, p.1);
    if Starts(q.1, Sym(';')) {
      LineMade(q.1[1..], ws);
    }
  }

  /** How many levels printing descends, through parentheses if need be, before it splits the tree. */
  function Turn<W>(c: Cmd<W>, level: nat): nat
    requires level <= 3
  {
    if Loose(c) <= level then level - Loose(c) else level - Loose(c) + 4
  }
}
