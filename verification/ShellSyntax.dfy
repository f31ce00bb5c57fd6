/** sh.c: the shell's command language, and that the parser accepts exactly it, with its meaning. */
module ShellSyntax {
  import opened Wrappers
  import opened ShellGrammar
  import opened ShellLex

  // ---------------------------------------------------------------- sentences

  /** < file, > file or >> file. */
  datatype Redirection<W> = In(file: W) | Out(file: W) | Add(file: W)

  /** A simple command is words and redirections in any order. */
  datatype Item<W> = Arg(w: W) | To(r: Redirection<W>)

  datatype Command<W> = Plain(items: seq<Item<W>>) | Block(inner: Sentence<W>, redirs: seq<Redirection<W>>)

  datatype Chain<W> = Last(c: Command<W>) | Piped(c: Command<W>, rest: Chain<W>)

  /** A pipeline with any number of & signs, alone or before a ; and the rest of the line. */
  datatype Sentence<W> = Final(p: Chain<W>, amps: nat) | Then(p: Chain<W>, amps: nat, rest: Sentence<W>)

  // ---------------------------------------------------------------- how a sentence is written

  function RedirToks<W>(r: Redirection<W>): seq<Tok<W>>
  {
    match r
    case In(f) => [Sym('<'), Word(f)]
    case Out(f) => [Sym('>'), Word(f)]
    case Add(f) => [Append, Word(f)]
  }

  function ItemToks<W>(i: Item<W>): seq<Tok<W>>
  {
    match i
    case Arg(w) => [Word(w)]
    case To(r) => RedirToks(r)
  }

  function RedirsToks<W>(rs: seq<Redirection<W>>): seq<Tok<W>>
  {
    if rs == [] then [] else RedirToks(rs[0]) + RedirsToks(rs[1..])
  }

  function ItemsToks<W>(items: seq<Item<W>>): seq<Tok<W>>
  {
    if items == [] then [] else ItemToks(items[0]) + ItemsToks(items[1..])
  }

  function AmpToks<W>(n: nat): seq<Tok<W>> { if n == 0 then [] else [Sym('&')] + AmpToks(n - 1) }

  function CommandToks<W>(c: Command<W>): seq<Tok<W>>
  {
    match c
    case Plain(items) => ItemsToks(items)
    case Block(s, rs) => [Sym('(')] + SentenceToks(s) + [Sym(')')] + RedirsToks(rs)
  }

  function ChainToks<W>(p: Chain<W>): seq<Tok<W>>
  {
    match p
    case Last(c) => CommandToks(c)
    case Piped(c, rest) => CommandToks(c) + [Sym('|')] + ChainToks(rest)
  }

  function SentenceToks<W>(s: Sentence<W>): seq<Tok<W>>
  {
    match s
    case Final(p, n) => ChainToks(p) + AmpToks(n)
    case Then(p, n, rest) => ChainToks(p) + AmpToks(n) + [Sym(';')] + SentenceToks(rest)
  }

  // ---------------------------------------------------------------- what a sentence means

  function ArgsOf<W>(items: seq<Item<W>>): seq<W>
  {
    if items == [] then [] else (if items[0].Arg? then [items[0].w] else []) + ArgsOf(items[1..])
  }

  function RedirsOf<W>(items: seq<Item<W>>): seq<Redirection<W>>
  {
    if items == [] then [] else (if items[0].To? then [items[0].r] else []) + RedirsOf(items[1..])
  }

  /** Redirections apply one after the other, each around those before it; >> is the same as >. */
  function Redirected<W>(c: Cmd<W>, rs: seq<Redirection<W>>): Cmd<W>
  {
    if rs == [] then c
    else RedirCmd(Redirected(c, rs[..|rs| - 1]), rs[|rs| - 1].file, !rs[|rs| - 1].In?)
  }

  function InBackground<W>(c: Cmd<W>, n: nat): Cmd<W> { if n == 0 then c else BackCmd(InBackground(c, n - 1)) }

  function CommandTree<W>(c: Command<W>): Cmd<W>
  {
    match c
    case Plain(items) => Redirected(ExecCmd(ArgsOf(items)), RedirsOf(items))
    case Block(s, rs) => Redirected(SentenceTree(s), rs)
  }

  function ChainTree<W>(p: Chain<W>): Cmd<W>
  {
    match p
    case Last(c) => CommandTree(c)
    case Piped(c, rest) => PipeCmd(CommandTree(c), ChainTree(rest))
  }

  function SentenceTree<W>(s: Sentence<W>): Cmd<W>
  {
    match s
    case Final(p, n) => InBackground(ChainTree(p), n)
    case Then(p, n, rest) => ListCmd(InBackground(ChainTree(p), n), SentenceTree(rest))
  }

  /** No simple command has more than nine words. */
  predicate CommandFits<W>(c: Command<W>)
  {
    match c
    case Plain(items) => |ArgsOf(items)| < 10
    case Block(s, _) => Fits(s)
  }

  predicate ChainFits<W>(p: Chain<W>)
  {
    match p
    case Last(c) => CommandFits(c)
    case Piped(c, rest) => CommandFits(c) && ChainFits(rest)
  }

  predicate Fits<W>(s: Sentence<W>)
  {
    match s
    case Final(p, _) => ChainFits(p)
    case Then(p, _, rest) => ChainFits(p) && Fits(rest)
  }

  // ---------------------------------------------------------------- every sentence is parsed

  lemma {:induction false} RedirectedFirst<W>(c: Cmd<W>, rs: seq<Redirection<W>>)
    requires rs != []
    ensures Redirected(c, rs) == Redirected(RedirCmd(c, rs[0].file, !rs[0].In?), rs[1..])
    decreases |rs|
  {
    if |rs| == 1 {
      assert rs[..0] == [] && rs[1..] == [];
    } else {
      RedirectedFirst(c, rs[..|rs| - 1]);
      assert rs[..|rs| - 1][1..] == rs[1..][..|rs[1..]| - 1];
    }
  }

  lemma {:induction false} RedirsRead<W>(c: Cmd<W>, rs: seq<Redirection<W>>, ts: seq<Tok<W>>)
    requires !AtRedir(ts)
    ensures Redirs(c, RedirsToks(rs) + ts) == Some((Redirected(c, rs), ts))
    decreases |rs|
  {
    hide Redirected, RedirToks;
    if rs == [] {
      Empties(c);
      assert RedirsToks(rs) + ts == ts;
    } else {
      var us := RedirsToks(rs[1..]) + ts;
      assert RedirsToks(rs) + ts == RedirToks(rs[0]) + us;
      OneRedir(c, rs[0], us);
      RedirsRead(RedirCmd(c, rs[0].file, !rs[0].In?), rs[1..], ts);
      RedirectedFirst(c, rs);
    }
  }

  lemma OneRedir<W>(c: Cmd<W>, r: Redirection<W>, ts: seq<Tok<W>>)
    ensures Redirs(c, RedirToks(r) + ts) == Redirs(RedirCmd(c, r.file, !r.In?), ts)
  {
    var us := RedirToks(r) + ts;
    assert us[2..] == ts;
  }

  /** What parseexec does from the middle of a simple command on. */
  function Onward<W(==)>(c: Cmd<W>, argc: nat, ts: seq<Tok<W>>): Parsed<W>
  {
    match Redirs(c, ts)
    case None => None
    case Some(p) => Args(p.0, argc, p.1)
  }

  /** c with more words and redirections, taken one by one. */
  function Extended<W>(c: Cmd<W>, items: seq<Item<W>>): Cmd<W>
    decreases |items|
  {
    if items == [] then c
    else
      match items[0]
      case Arg(w) => Extended(AddArg(c, w), items[1..])
      case To(r) => Extended(RedirCmd(c, r.file, !r.In?), items[1..])
  }

  /** Taking the first item. */
  lemma FirstItem<W>(c: Cmd<W>, items: seq<Item<W>>)
    requires items != []
    ensures ItemsToks(items) == ItemToks(items[0]) + ItemsToks(items[1..])
    ensures items[0].Arg? ==> ArgsOf(items) == [items[0].w] + ArgsOf(items[1..])
                              && RedirsOf(items) == RedirsOf(items[1..])
                              && Extended(c, items) == Extended(AddArg(c, items[0].w), items[1..])
    ensures items[0].To? ==> ArgsOf(items) == ArgsOf(items[1..])
                             && RedirsOf(items) == [items[0].r] + RedirsOf(items[1..])
                             && Extended(c, items) ==
                                Extended(RedirCmd(c, items[0].r.file, !items[0].r.In?), items[1..])
  {
    assert [] + ArgsOf(items[1..]) == ArgsOf(items[1..]) && [] + RedirsOf(items[1..]) == RedirsOf(items[1..]);
  }

  lemma OneArg<W>(c: Cmd<W>, argc: nat, w: W, ts: seq<Tok<W>>)
    requires argc + 1 < 10
    ensures Onward(c, argc, [Word(w)] + ts) == Onward(AddArg(c, w), argc + 1, ts)
  {
    assert ([Word(w)] + ts)[1..] == ts;
  }

  lemma OneTo<W>(c: Cmd<W>, argc: nat, r: Redirection<W>, ts: seq<Tok<W>>)
    ensures Onward(c, argc, RedirToks(r) + ts) == Onward(RedirCmd(c, r.file, !r.In?), argc, ts)
  {
    hide Redirs, Args;
    OneRedir(c, r, ts);
  }

  lemma OnwardEnd<W>(c: Cmd<W>, argc: nat, ts: seq<Tok<W>>)
    requires ts == [] || AtEnd(ts)
    ensures Onward(c, argc, ItemsToks([]) + ts) == Some((c, ts)) && Extended(c, []) == c
  {
    assert ItemsToks<W>([]) + ts == ts;
  }

  lemma {:induction false} ItemsRead<W>(c: Cmd<W>, argc: nat, items: seq<Item<W>>, ts: seq<Tok<W>>)
    requires argc + |ArgsOf(items)| < 10 && (ts == [] || AtEnd(ts))
    ensures Onward(c, argc, ItemsToks(items) + ts) == Some((Extended(c, items), ts))
    decreases |items|
  {
    hide Onward, Extended, ItemsToks, ArgsOf, RedirsOf, RedirToks, AddArg, AtEnd;
    if items == [] {
      OnwardEnd(c, argc, ts);
    } else {
      var us := ItemsToks(items[1..]) + ts;
      FirstItem(c, items);
      assert ItemsToks(items) + ts == ItemToks(items[0]) + us;
      match items[0]
      case Arg(w) =>
        OneArg(c, argc, w, us);
        ItemsRead(AddArg(c, w), argc + 1, items[1..], ts);
      case To(r) =>
        OneTo(c, argc, r, us);
        ItemsRead(RedirCmd(c, r.file, !r.In?), argc, items[1..], ts);
    }
  }

  lemma {:induction false} AddArgInside<W>(a: seq<W>, rs: seq<Redirection<W>>, w: W)
    ensures AddArg(Redirected(ExecCmd(a), rs), w) == Redirected(ExecCmd(a + [w]), rs)
    decreases |rs|
  {
    if rs != [] {
      AddArgInside(a, rs[..|rs| - 1], w);
    }
  }

  lemma OneMore<W>(c: Cmd<W>, rs: seq<Redirection<W>>, r: Redirection<W>)
    ensures Redirected(c, rs + [r]) == RedirCmd(Redirected(c, rs), r.file, !r.In?)
  {
    assert (rs + [r])[..|rs|] == rs;
  }

  lemma Empties<W>(c: Cmd<W>)
    ensures Extended(c, []) == c && ArgsOf<W>([]) == [] && RedirsOf<W>([]) == [] && Redirected(c, []) == c
    ensures ItemsToks<W>([]) == [] && RedirsToks<W>([]) == []
  {
  }

  /** Where words and redirections stand does not matter, only their order among themselves. */
  lemma {:induction false} ExtendedIs<W>(a: seq<W>, rs: seq<Redirection<W>>, items: seq<Item<W>>)
    ensures Extended(Redirected(ExecCmd(a), rs), items) ==
            Redirected(ExecCmd(a + ArgsOf(items)), rs + RedirsOf(items))
    decreases |items|
  {
    hide Extended, ArgsOf, RedirsOf, Redirected, ItemsToks, AddArg, ItemToks;
    var c := Redirected(ExecCmd(a), rs);
    if items == [] {
      Empties(c);
      assert a + [] == a && rs + [] == rs;
    } else {
      FirstItem(c, items);
      match items[0]
      case Arg(w) =>
        AddArgInside(a, rs, w);
        ExtendedIs(a + [w], rs, items[1..]);
        assert a + [w] + ArgsOf(items[1..]) == a + ArgsOf(items);
      case To(r) =>
        OneMore(ExecCmd(a), rs, r);
        ExtendedIs(a, rs + [r], items[1..]);
        assert rs + [r] + RedirsOf(items[1..]) == rs + RedirsOf(items);
    }
  }

  lemma ItemsMean<W>(items: seq<Item<W>>)
    ensures Extended(ExecCmd([]), items) == CommandTree(Plain(items))
  {
    ExtendedIs([], [], items);
    assert [] + ArgsOf(items) == ArgsOf(items) && [] + RedirsOf(items) == RedirsOf(items);
  }

  lemma {:induction false} CommandRead<W>(c: Command<W>, ts: seq<Tok<W>>)
    requires CommandFits(c) && (ts == [] || AtEnd(ts))
    ensures Simple(CommandToks(c) + ts) == Some((CommandTree(c), ts))
    decreases c
  {
    hide Simple, Line, Redirs, AtEnd;
    match c
    case Plain(items) =>
      PlainStart(items, ts);
      ItemsRead(ExecCmd([]), 0, items, ts);
      ItemsMean(items);
    case Block(s, rs) =>
      SentenceRead(s, [Sym(')')] + (RedirsToks(rs) + ts));
      BlockRead(s, rs, ts);
  }

  lemma BlockRead<W>(s: Sentence<W>, rs: seq<Redirection<W>>, ts: seq<Tok<W>>)
    requires ts == [] || AtEnd(ts)
    requires var us := [Sym(')')] + (RedirsToks(rs) + ts); Line(SentenceToks(s) + us) == Some((SentenceTree(s), us))
    ensures Simple(CommandToks(Block(s, rs)) + ts) == Some((CommandTree(Block(s, rs)), ts))
  {
    hide Line, Redirs, SentenceToks, SentenceTree, RedirsToks, Redirected;
    var us := [Sym(')')] + (RedirsToks(rs) + ts);
    assert CommandToks(Block(s, rs)) + ts == [Sym('(')] + (SentenceToks(s) + us);
    assert ([Sym('(')] + (SentenceToks(s) + us))[1..] == SentenceToks(s) + us;
    assert us[1..] == RedirsToks(rs) + ts;
    RedirsRead(SentenceTree(s), rs, ts);
  }

  lemma PlainStart<W>(items: seq<Item<W>>, ts: seq<Tok<W>>)
    requires ts == [] || AtEnd(ts)
    ensures Simple(ItemsToks(items) + ts) == Onward(ExecCmd([]), 0, ItemsToks(items) + ts)
  {
    if items == [] {
      assert ItemsToks(items) + ts == ts;
    } else {
      assert (ItemsToks(items) + ts)[0] == ItemToks(items[0])[0];
    }
  }

  lemma {:induction false} ChainRead<W>(p: Chain<W>, ts: seq<Tok<W>>)
    requires ChainFits(p) && (ts == [] || (AtEnd(ts) && !Starts(ts, Sym('|'))))
    ensures Pipeline(ChainToks(p) + ts) == Some((ChainTree(p), ts))
    decreases p
  {
    match p
    case Last(c) => CommandRead(c, ts);
    case Piped(c, rest) =>
      var us := [Sym('|')] + (ChainToks(rest) + ts);
      assert ChainToks(p) + ts == CommandToks(c) + us;
      CommandRead(c, us);
      assert us[1..] == ChainToks(rest) + ts;
      ChainRead(rest, ts);
  }

  lemma {:induction false} AmpsRead<W>(c: Cmd<W>, m: nat, n: nat, ts: seq<Tok<W>>)
    requires !Starts(ts, Sym('&'))
    ensures Backs(InBackground(c, m), AmpToks(n) + ts) == (InBackground(c, m + n), ts)
    decreases n
  {
    if n == 0 {
      assert AmpToks(n) + ts == ts;
    } else {
      var us := AmpToks(n) + ts;
      assert us[0] == Sym('&') && us[1..] == AmpToks(n - 1) + ts;
      AmpsRead(c, m + 1, n - 1, ts);
    }
  }

  lemma AmpsEnd<W>(n: nat, ts: seq<Tok<W>>)
    requires ts == [] || (AtEnd(ts) && !Starts(ts, Sym('|')))
    ensures var us := AmpToks(n) + ts; us == [] || (AtEnd(us) && !Starts(us, Sym('|')))
  {
    if n == 0 {
      assert AmpToks(n) + ts == ts;
    } else {
      assert (AmpToks(n) + ts)[0] == Sym('&');
    }
  }

  lemma {:induction false} SentenceRead<W>(s: Sentence<W>, ts: seq<Tok<W>>)
    requires Fits(s) && (ts == [] || Starts(ts, Sym(')')))
    ensures Line(SentenceToks(s) + ts) == Some((SentenceTree(s), ts))
    decreases s
  {
    var tail := if s.Final? then ts else [Sym(';')] + (SentenceToks(s.rest) + ts);
    assert SentenceToks(s) + ts == ChainToks(s.p) + (AmpToks(s.amps) + tail);
    AmpsEnd(s.amps, tail);
    ChainRead(s.p, AmpToks(s.amps) + tail);
    AmpsRead(ChainTree(s.p), 0, s.amps, tail);
    if s.Then? {
      assert tail[1..] == SentenceToks(s.rest) + ts;
      SentenceRead(s.rest, ts);
    }
  }

  // ---------------------------------------------------------------- whatever is parsed is a sentence

  lemma {:induction false} RedirsFrom<W>(c: Cmd<W>, ts: seq<Tok<W>>) returns (rs: seq<Redirection<W>>)
    requires Redirs(c, ts).Some?
    ensures ts == RedirsToks(rs) + Redirs(c, ts).value.1 && Redirs(c, ts).value.0 == Redirected(c, rs)
    ensures !AtRedir(Redirs(c, ts).value.1)
    decreases |ts|
  {
    if !AtRedir(ts) {
      rs := [];
    } else {
      var f := ts[1].w;
      var r := if ts[0] == Sym('<') then In(f) else if ts[0] == Sym('>') then Out(f) else Add(f);
      var rest := RedirsFrom(RedirCmd(c, f, ts[0] != Sym('<')), ts[2..]);
      rs := [r] + rest;
      assert rs[1..] == rest && ts == RedirToks(r) + ts[2..];
      RedirectedFirst(c, rs);
    }
  }

  function Tos<W>(rs: seq<Redirection<W>>): (items: seq<Item<W>>)
    ensures |items| == |rs|
  {
    if rs == [] then [] else [To(rs[0])] + Tos(rs[1..])
  }

  lemma {:induction false} TosAre<W>(c: Cmd<W>, rs: seq<Redirection<W>>)
    ensures ItemsToks(Tos(rs)) == RedirsToks(rs) && ArgsOf(Tos(rs)) == []
    ensures Extended(c, Tos(rs)) == Redirected(c, rs)
    decreases |rs|
  {
    if rs != [] {
      assert Tos(rs)[1..] == Tos(rs[1..]);
      TosAre(RedirCmd(c, rs[0].file, !rs[0].In?), rs[1..]);
      RedirectedFirst(c, rs);
    }
  }

  lemma {:induction false} ItemsJoin<W>(c: Cmd<W>, a: seq<Item<W>>, b: seq<Item<W>>)
    ensures ItemsToks(a + b) == ItemsToks(a) + ItemsToks(b) && ArgsOf(a + b) == ArgsOf(a) + ArgsOf(b)
    ensures Extended(c, a + b) == Extended(Extended(c, a), b)
    decreases |a|
  {
    hide Extended, ArgsOf, RedirsOf, ItemsToks, AddArg, ItemToks;
    if a == [] {
      Empties(c);
      assert a + b == b;
    } else {
      FirstItem(c, a);
      FirstItem(c, a + b);
      assert (a + b)[1..] == a[1..] + b && (a + b)[0] == a[0];
      var d := if a[0].Arg? then AddArg(c, a[0].w) else RedirCmd(c, a[0].r.file, !a[0].r.In?);
      ItemsJoin(d, a[1..], b);
    }
  }

  lemma ItemsCons<W>(c: Cmd<W>, w: W, rs: seq<Redirection<W>>, rest: seq<Item<W>>)
    ensures var items := [Arg(w)] + (Tos(rs) + rest);
            && ItemsToks(items) == [Word(w)] + (RedirsToks(rs) + ItemsToks(rest))
            && |ArgsOf(items)| == 1 + |ArgsOf(rest)|
            && Extended(c, items) == Extended(Redirected(AddArg(c, w), rs), rest)
  {
    hide RedirsToks, Redirected;
    var items := [Arg(w)] + (Tos(rs) + rest);
    TosAre(AddArg(c, w), rs);
    ItemsJoin(AddArg(c, w), Tos(rs), rest);
    assert items[1..] == Tos(rs) + rest;
  }

  lemma NoItems<W>(c: Cmd<W>, argc: nat, ts: seq<Tok<W>>)
    requires AtEnd(ts) || ts == []
    ensures Args(c, argc, ts) == Some((c, ts))
    ensures ItemsToks<W>([]) == [] && ArgsOf<W>([]) == [] && Extended(c, []) == c
  {
  }

  lemma ArgsUnfold<W>(c: Cmd<W>, argc: nat, ts: seq<Tok<W>>)
    requires Args(c, argc, ts).Some? && ts != [] && !AtEnd(ts)
    ensures ts[0].Word? && argc + 1 < 10 && Redirs(AddArg(c, ts[0].w), ts[1..]).Some?
    ensures var p := Redirs(AddArg(c, ts[0].w), ts[1..]).value; Args(c, argc, ts) == Args(p.0, argc + 1, p.1)
  {
  }

  lemma {:induction false} ArgsFrom<W>(c: Cmd<W>, argc: nat, ts: seq<Tok<W>>) returns (items: seq<Item<W>>)
    requires Args(c, argc, ts).Some? && argc < 10
    ensures ts == ItemsToks(items) + Args(c, argc, ts).value.1 && Args(c, argc, ts).value.0 == Extended(c, items)
    ensures argc + |ArgsOf(items)| < 10
    decreases |ts|
  {
    hide Args, Redirs, AtEnd, ItemsToks, RedirsToks, ArgsOf, Extended, Redirected, AddArg, Tos;
    if AtEnd(ts) || ts == [] {
      NoItems(c, argc, ts);
      items := [];
    } else {
      ArgsUnfold(c, argc, ts);
      var d := AddArg(c, ts[0].w);
      var rs := RedirsFrom(d, ts[1..]);
      var p := Redirs(d, ts[1..]).value;
      var rest := ArgsFrom(p.0, argc + 1, p.1);
      ItemsCons(c, ts[0].w, rs, rest);
      items := [Arg(ts[0].w)] + (Tos(rs) + rest);
      assert ts == [ts[0]] + ts[1..];
    }
  }

  lemma PlainFrom<W>(ts: seq<Tok<W>>) returns (c: Command<W>)
    requires Simple(ts).Some? && !Starts(ts, Sym('('))
    ensures CommandFits(c) && ts == CommandToks(c) + Simple(ts).value.1 && Simple(ts).value.0 == CommandTree(c)
  {
    hide Args, Redirs, ItemsToks, RedirsToks, ArgsOf, Extended, Redirected, Line, RedirsOf;
    var rs := RedirsFrom(ExecCmd([]), ts);
    var p := Redirs(ExecCmd([]), ts).value;
    var items := ArgsFrom(p.0, 0, p.1);
    TosAre(ExecCmd([]), rs);
    ItemsJoin(ExecCmd([]), Tos(rs), items);
    c := Plain(Tos(rs) + items);
    ItemsMean(Tos(rs) + items);
    assert ts == RedirsToks(rs) + (ItemsToks(items) + Simple(ts).value.1);
  }

  lemma BlockFrom<W>(s: Sentence<W>, ts: seq<Tok<W>>) returns (c: Command<W>)
    requires Simple(ts).Some? && Starts(ts, Sym('(')) && Line(ts[1..]).Some?
    requires Fits(s) && ts[1..] == SentenceToks(s) + Line(ts[1..]).value.1
    requires Line(ts[1..]).value.0 == SentenceTree(s)
    ensures CommandFits(c) && ts == CommandToks(c) + Simple(ts).value.1 && Simple(ts).value.0 == CommandTree(c)
  {
    hide Redirs, RedirsToks, Redirected, Line, SentenceToks, SentenceTree, Fits;
    var p := Line(ts[1..]).value;
    var rs := RedirsFrom(p.0, p.1[1..]);
    c := Block(s, rs);
    assert ts == [ts[0]] + ts[1..] && p.1 == [p.1[0]] + p.1[1..];
    assert ts == [Sym('(')] + (SentenceToks(s) + ([Sym(')')] + (RedirsToks(rs) + Simple(ts).value.1)));
  }

  lemma {:induction false} CommandFrom<W>(ts: seq<Tok<W>>) returns (c: Command<W>)
    requires Simple(ts).Some?
    ensures CommandFits(c) && ts == CommandToks(c) + Simple(ts).value.1 && Simple(ts).value.0 == CommandTree(c)
    decreases |ts|, 0
  {
    if Starts(ts, Sym('(')) {
      assert Line(ts[1..]).Some?;
      hide Simple, Line, CommandToks, CommandTree, CommandFits;
      var s := SentenceFrom(ts[1..]);
      c := BlockFrom(s, ts);
    } else {
      c := PlainFrom(ts);
    }
  }

  lemma PipelineUnfold<W>(ts: seq<Tok<W>>)
    requires Pipeline(ts).Some?
    ensures Simple(ts).Some?
    ensures var q := Simple(ts).value;
            && (!Starts(q.1, Sym('|')) ==> Pipeline(ts) == Some(q))
            && (Starts(q.1, Sym('|')) ==>
                  && |q.1[1..]| < |ts| && Pipeline(q.1[1..]).Some?
                  && Pipeline(ts) == Some((PipeCmd(q.0, Pipeline(q.1[1..]).value.0), Pipeline(q.1[1..]).value.1)))
  {
  }

  lemma {:induction false} ChainFrom<W>(ts: seq<Tok<W>>) returns (p: Chain<W>)
    requires Pipeline(ts).Some?
    ensures ChainFits(p) && ts == ChainToks(p) + Pipeline(ts).value.1 && Pipeline(ts).value.0 == ChainTree(p)
    decreases |ts|, 1
  {
    hide Simple, Pipeline, CommandToks, CommandTree, CommandFits;
    PipelineUnfold(ts);
    var c := CommandFrom(ts);
    var q := Simple(ts).value;
    if !Starts(q.1, Sym('|')) {
      p := Last(c);
    } else {
      var rest := ChainFrom(q.1[1..]);
      p := Piped(c, rest);
      Joined(CommandToks(c), [Sym('|')], ChainToks(rest), Pipeline(ts).value.1);
      assert q.1 == [Sym('|')] + q.1[1..];
    }
  }

  lemma Joined<T>(a: seq<T>, b: seq<T>, c: seq<T>, d: seq<T>)
    ensures a + (b + (c + d)) == a + b + c + d
  {
  }

  lemma {:induction false} AmpsFrom<W>(c: Cmd<W>, m: nat, ts: seq<Tok<W>>) returns (n: nat)
    ensures ts == AmpToks(n) + Backs(InBackground(c, m), ts).1
    ensures Backs(InBackground(c, m), ts).0 == InBackground(c, m + n)
    decreases |ts|
  {
    if Starts(ts, Sym('&')) {
      var k := AmpsFrom(c, m + 1, ts[1..]);
      n := k + 1;
      assert ts == [ts[0]] + ts[1..];
    } else {
      n := 0;
    }
  }

  lemma LineUnfold<W>(ts: seq<Tok<W>>)
    requires Line(ts).Some?
    ensures Pipeline(ts).Some?
    ensures var q := Pipeline(ts).value;
            var b := Backs(q.0, q.1);
            && (!Starts(b.1, Sym(';')) ==> Line(ts) == Some(b))
            && (Starts(b.1, Sym(';')) ==>
                  && |b.1[1..]| < |ts| && Line(b.1[1..]).Some?
                  && Line(ts) == Some((ListCmd(b.0, Line(b.1[1..]).value.0), Line(b.1[1..]).value.1)))
  {
  }

  lemma {:induction false} SentenceFrom<W>(ts: seq<Tok<W>>) returns (s: Sentence<W>)
    requires Line(ts).Some?
    ensures Fits(s) && ts == SentenceToks(s) + Line(ts).value.1 && Line(ts).value.0 == SentenceTree(s)
    decreases |ts|, 2
  {
    hide Line, Pipeline, Backs, ChainToks, AmpToks, ChainTree, ChainFits;
    LineUnfold(ts);
    var p := ChainFrom(ts);
    var q := Pipeline(ts).value;
    NoAmps(q.0);
    var n := AmpsFrom(q.0, 0, q.1);
    var b := Backs(q.0, q.1);
    if !Starts(b.1, Sym(';')) {
      s := Final(p, n);
    } else {
      var rest := SentenceFrom(b.1[1..]);
      s := Then(p, n, rest);
      assert b.1 == [Sym(';')] + b.1[1..];
      Joined(ChainToks(p) + AmpToks(n), [Sym(';')], SentenceToks(rest), Line(ts).value.1);
      Joined(ChainToks(p), AmpToks(n), [Sym(';')], SentenceToks(rest) + Line(ts).value.1);
    }
  }

  lemma NoAmps<W>(c: Cmd<W>)
    ensures InBackground(c, 0) == c
  {
  }

  /** The grammar in one sentence: a token list is accepted, with a tree, exactly if it is a way to write a sentence
      of the language whose meaning is that tree. */
  lemma AcceptsExactly<W(!new)>(ts: seq<Tok<W>>, c: Cmd<W>)
    ensures Line(ts) == Some((c, []))
            <==> exists s: Sentence<W> :: Fits(s) && SentenceToks(s) == ts && SentenceTree(s) == c
  {
    hide Line, SentenceToks, SentenceTree, Fits;
    if Line(ts) == Some((c, [])) {
      var s := SentenceFrom(ts);
      assert SentenceToks(s) + [] == SentenceToks(s);
    }
    forall s: Sentence<W> | Fits(s) && SentenceToks(s) == ts && SentenceTree(s) == c
      ensures Line(ts) == Some((c, []))
    {
      SentenceRead(s, []);
      assert SentenceToks(s) + [] == SentenceToks(s);
    }
  }
}
