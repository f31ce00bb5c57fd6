/** sh.c's tokens: what gettoken and peek see in a line, and how a token list is written out. */
module ShellLex {
  import opened Wrappers
  import opened ShellGrammar

  const VT := 11 as char

  predicate White(c: char) { c in " \t\r\n" || c == VT }
  predicate Symbol(c: char) { c in "<|>&;()" }
  predicate InWord(c: char) { !White(c) && !Symbol(c) }

  /** A word as the parser keeps it: from q up to eq. */
  datatype Span = Span(q: nat, eq: nat)

  function Skip(s: string, p: nat): (r: nat)
    requires p <= |s|
    ensures p <= r <= |s| && (r < |s| ==> !White(s[r])) && forall i :: p <= i < r ==> White(s[i])
    decreases |s| - p
  {
    if p < |s| && White(s[p]) then Skip(s, p + 1) else p
  }

  function WordEnd(s: string, p: nat): (r: nat)
    requires p <= |s|
    ensures p <= r <= |s| && (r < |s| ==> !InWord(s[r])) && (forall i :: p <= i < r ==> InWord(s[i]))
            && (p < |s| && InWord(s[p]) ==> p < r)
    decreases |s| - p
  {
    if p < |s| && InWord(s[p]) then WordEnd(s, p + 1) else p
  }

  /** The token at position q, not white, and the position after it. */
  function TokenAt(s: string, q: nat): (r: (Tok<Span>, nat))
    requires q < |s| && !White(s[q])
    ensures q < r.1 <= |s|
  {
    if !Symbol(s[q]) then (Word(Span(q, WordEnd(s, q))), WordEnd(s, q))
    else if s[q] == '>' && q + 1 < |s| && s[q + 1] == '>' then (Append, q + 2)
    else (Sym(s[q]), q + 1)
  }

  /** The tokens of the line from position p on. */
  function Lex(s: string, p: nat): (ts: seq<Tok<Span>>)
    requires p <= |s|
    decreases |s| - p
  {
    var q := Skip(s, p);
    if q == |s| then [] else [TokenAt(s, q).0] + Lex(s, TokenAt(s, q).1)
  }

  /** White space before a token does not matter. */
  lemma LexSkip(s: string, p: nat, q: nat)
    requires p <= |s| && p <= q <= Skip(s, p)
    ensures Lex(s, q) == Lex(s, p)
  {
    SkipOnce(s, p, q);
  }

  lemma {:induction false} SkipOnce(s: string, p: nat, q: nat)
    requires p <= |s| && p <= q <= Skip(s, p)
    ensures Skip(s, q) == Skip(s, p)
    decreases q - p
  {
    if p < q {
      SkipOnce(s, p + 1, q);
    }
  }

  // ---------------------------------------------------------------- writing tokens out

  predicate LegalWord(w: string) { w != "" && forall i :: 0 <= i < |w| ==> InWord(w[i]) && w[i] != '\0' }

  predicate LegalTok(t: Tok<string>)
  {
    match t
    case Sym(c) => Symbol(c)
    case Append => true
    case Word(w) => LegalWord(w)
  }

  predicate LegalToks(ts: seq<Tok<string>>) { forall i :: 0 <= i < |ts| ==> LegalTok(ts[i]) }

  function Text(t: Tok<string>): string
  {
    match t
    case Sym(c) => [c]
    case Append => ">>"
    case Word(w) => w
  }

  /** The tokens with a space after each. */
  function Render(ts: seq<Tok<string>>): string
  {
    if ts == [] then "" else Text(ts[0]) + " " + Render(ts[1..])
  }

  predicate Spelled(s: string, u: Tok<Span>, t: Tok<string>)
  {
    match u
    case Sym(c) => t == Sym(c)
    case Append => t == Append
    case Word(w) => w.q <= w.eq <= |s| && t == Word(s[w.q..w.eq])
  }

  predicate Spells(s: string, us: seq<Tok<Span>>, ts: seq<Tok<string>>)
  {
    |us| == |ts| && forall i :: 0 <= i < |ts| ==> Spelled(s, us[i], ts[i])
  }

  /** A legal token followed by a space is read back. */
  lemma ReadBack(s: string, p: nat, t: Tok<string>)
    requires LegalTok(t) && p + |Text(t)| < |s| && s[p..p + |Text(t)|] == Text(t) && s[p + |Text(t)|] == ' '
    ensures Skip(s, p) == p && !White(s[p]) && TokenAt(s, p).1 == p + |Text(t)| && Spelled(s, TokenAt(s, p).0, t)
  {
    forall i | p <= i < p + |Text(t)|
      ensures s[i] == Text(t)[i - p]
    {
      assert s[i] == s[p..p + |Text(t)|][i - p];
    }
    assert s[p] == Text(t)[0];
  }

  lemma RenderParts(s: string, p: nat, ts: seq<Tok<string>>)
    requires p <= |s| && s[p..] == Render(ts) && ts != []
    ensures var e := p + |Text(ts[0])|;
              e < |s| && s[p..e] == Text(ts[0]) && s[e] == ' ' && s[e + 1..] == Render(ts[1..])
  {
    var t, e := ts[0], p + |Text(ts[0])|;
    assert s[p..] == Text(t) + " " + Render(ts[1..]);
    assert s[p..e] == s[p..][..|Text(t)|] && s[e] == s[p..][|Text(t)|] && s[e + 1..] == s[p..][|Text(t)| + 1..];
  }

  lemma LexStep(s: string, p: nat)
    requires p < |s| && Skip(s, p) == p
    ensures Lex(s, p) == [TokenAt(s, p).0] + Lex(s, TokenAt(s, p).1)
  {
  }

  /** Reading what was written gives the tokens back. */
  lemma {:induction false} LexRender(s: string, p: nat, ts: seq<Tok<string>>)
    requires p <= |s| && s[p..] == Render(ts) && LegalToks(ts)
    ensures Spells(s, Lex(s, p), ts)
    decreases ts
  {
    hide Lex, TokenAt, Spelled, Text, LegalTok, WordEnd, White;
    if ts == [] {
      LexEnd(s, p);
    } else {
      var e := p + |Text(ts[0])|;
      RenderParts(s, p, ts);
      ReadBack(s, p, ts[0]);
      LexStep(s, p);
      LexSpace(s, e);
      LexRender(s, e + 1, ts[1..]);
    }
  }

  lemma LexEnd(s: string, p: nat)
    requires p <= |s| && s[p..] == ""
    ensures Lex(s, p) == []
  {
    assert p == |s|;
  }

  lemma LexSpace(s: string, e: nat)
    requires e < |s| && s[e] == ' '
    ensures Lex(s, e + 1) == Lex(s, e)
  {
    LexSkip(s, e, e + 1);
  }

  // ---------------------------------------------------------------- trees over positions and trees over strings

  function Slice(s: string, w: Span): string { if w.q <= w.eq <= |s| then s[w.q..w.eq] else "" }

  /** The tree with each word's text. */
  function Strings(s: string, c: Cmd<Span>): Cmd<string>
  {
    match c
    case ExecCmd(argv) => ExecCmd(seq(|argv|, i requires 0 <= i < |argv| => Slice(s, argv[i])))
    case RedirCmd(d, f, o) => RedirCmd(Strings(s, d), Slice(s, f), o)
    case PipeCmd(l, r) => PipeCmd(Strings(s, l), Strings(s, r))
    case ListCmd(l, r) => ListCmd(Strings(s, l), Strings(s, r))
    case BackCmd(d) => BackCmd(Strings(s, d))
  }

  lemma SpellsRest(s: string, us: seq<Tok<Span>>, ts: seq<Tok<string>>, k: nat)
    requires Spells(s, us, ts) && k <= |ts|
    ensures Spells(s, us[k..], ts[k..])
  {
  }

  // ---------------------------------------------------------------- the parser looks at no word

  /** The same outcome, with the text in place of the positions. */
  predicate Same(s: string, p: Parsed<Span>, q: Parsed<string>)
  {
    && (p.None? <==> q.None?)
    && (p.Some? ==> Strings(s, p.value.0) == q.value.0 && Spells(s, p.value.1, q.value.1))
  }

  /** What the parser asks about the next token. */
  lemma SameNext(s: string, us: seq<Tok<Span>>, ts: seq<Tok<string>>)
    requires Spells(s, us, ts)
    ensures (us == [] <==> ts == []) && (AtRedir(us) <==> AtRedir(ts)) && (AtEnd(us) <==> AtEnd(ts))
    ensures forall c :: Starts(us, Sym(c)) <==> Starts(ts, Sym(c))
    ensures us != [] ==> Spelled(s, us[0], ts[0])
  {
  }

  lemma {:induction false} SameAddArg(s: string, c: Cmd<Span>, w: Span)
    ensures Strings(s, AddArg(c, w)) == AddArg(Strings(s, c), Slice(s, w))
  {
    if c.RedirCmd? {
      SameAddArg(s, c.cmd, w);
    }
  }

  lemma {:induction false} SameRedirs(s: string, c: Cmd<Span>, us: seq<Tok<Span>>, ts: seq<Tok<string>>)
    requires Spells(s, us, ts)
    ensures Same(s, Redirs(c, us), Redirs(Strings(s, c), ts))
    decreases |us|
  {
    SameNext(s, us, ts);
    if AtRedir(us) && |us| >= 2 {
      assert Spelled(s, us[1], ts[1]);
      if us[1].Word? {
        SpellsRest(s, us, ts, 2);
        SameRedirs(s, RedirCmd(c, us[1].w, us[0] != Sym('<')), us[2..], ts[2..]);
      }
    }
  }

  lemma {:induction false} SameArgs(s: string, c: Cmd<Span>, argc: nat, us: seq<Tok<Span>>, ts: seq<Tok<string>>)
    requires Spells(s, us, ts)
    ensures Same(s, Args(c, argc, us), Args(Strings(s, c), argc, ts))
    decreases |us|
  {
    hide Redirs, Strings, AddArg;
    SameNext(s, us, ts);
    if !AtEnd(us) && us != [] && us[0].Word? && argc + 1 < MAXARGS {
      SpellsRest(s, us, ts, 1);
      SameAddArg(s, c, us[0].w);
      SameRedirs(s, AddArg(c, us[0].w), us[1..], ts[1..]);
      var p := Redirs(AddArg(c, us[0].w), us[1..]);
      if p.Some? {
        SameArgs(s, p.value.0, argc + 1, p.value.1, Redirs(AddArg(Strings(s, c), ts[0].w), ts[1..]).value.1);
      }
    }
  }

  lemma {:induction false} SameSimple(s: string, us: seq<Tok<Span>>, ts: seq<Tok<string>>)
    requires Spells(s, us, ts)
    ensures Same(s, Simple(us), Simple(ts))
    decreases |us|, 0
  {
    hide Redirs, Args, Line;
    SameNext(s, us, ts);
    if Starts(us, Sym('(')) {
      SpellsRest(s, us, ts, 1);
      SameLine(s, us[1..], ts[1..]);
      var p, q := Line(us[1..]), Line(ts[1..]);
      if p.Some? {
        SameNext(s, p.value.1, q.value.1);
        if Starts(p.value.1, Sym(')')) {
          SpellsRest(s, p.value.1, q.value.1, 1);
          SameRedirs(s, p.value.0, p.value.1[1..], q.value.1[1..]);
        }
      }
    } else {
      SameRedirs(s, ExecCmd([]), us, ts);
      assert Strings(s, ExecCmd([])) == ExecCmd([]);
      var p, q := Redirs(ExecCmd([]), us), Redirs(ExecCmd([]), ts);
      if p.Some? {
        SameArgs(s, p.value.0, 0, p.value.1, q.value.1);
      }
    }
  }

  lemma {:induction false} SamePipeline(s: string, us: seq<Tok<Span>>, ts: seq<Tok<string>>)
    requires Spells(s, us, ts)
    ensures Same(s, Pipeline(us), Pipeline(ts))
    decreases |us|, 1
  {
    hide Simple;
    SameSimple(s, us, ts);
    var p, q := Simple(us), Simple(ts);
    if p.Some? {
      SameNext(s, p.value.1, q.value.1);
      if Starts(p.value.1, Sym('|')) {
        SpellsRest(s, p.value.1, q.value.1, 1);
        SamePipeline(s, p.value.1[1..], q.value.1[1..]);
      }
    }
  }

  lemma {:induction false} SameBacks(s: string, c: Cmd<Span>, us: seq<Tok<Span>>, ts: seq<Tok<string>>)
    requires Spells(s, us, ts)
    ensures Strings(s, Backs(c, us).0) == Backs(Strings(s, c), ts).0
    ensures Spells(s, Backs(c, us).1, Backs(Strings(s, c), ts).1)
    decreases |us|
  {
    SameNext(s, us, ts);
    if Starts(us, Sym('&')) {
      SpellsRest(s, us, ts, 1);
      SameBacks(s, BackCmd(c), us[1..], ts[1..]);
    }
  }

  /** Parsing commutes with replacing positions by their text. */
  lemma {:induction false} SameLine(s: string, us: seq<Tok<Span>>, ts: seq<Tok<string>>)
    requires Spells(s, us, ts)
    ensures Same(s, Line(us), Line(ts))
    decreases |us|, 2
  {
    hide Pipeline, Backs;
    SamePipeline(s, us, ts);
    var p, q := Pipeline(us), Pipeline(ts);
    if p.Some? {
      SameBacks(s, p.value.0, p.value.1, q.value.1);
      var b, d := Backs(p.value.0, p.value.1), Backs(q.value.0, q.value.1);
      SameNext(s, b.1, d.1);
      if Starts(b.1, Sym(';')) {
        SpellsRest(s, b.1, d.1, 1);
        SameLine(s, b.1[1..], d.1[1..]);
      }
    }
  }

  // ---------------------------------------------------------------- the round trip

  predicate LegalWords(c: Cmd<string>)
  {
    match c
    case ExecCmd(argv) => forall i :: 0 <= i < |argv| ==> LegalWord(argv[i])
    case RedirCmd(d, f, _) => LegalWords(d) && LegalWord(f)
    case PipeCmd(l, r) => LegalWords(l) && LegalWords(r)
    case ListCmd(l, r) => LegalWords(l) && LegalWords(r)
    case BackCmd(d) => LegalWords(d)
  }

  lemma {:induction false} LegalPrint(c: Cmd<string>, level: nat)
    requires LegalWords(c)
    ensures LegalToks(Toks(c, level))
    decreases c, if Loose(c) > level then 1 else 0
  {
    if Loose(c) > level {
      LegalPrint(c, 3);
    } else {
      match c
      case ExecCmd(argv) =>
      case RedirCmd(d, f, o) => LegalPrint(d, 0);
      case PipeCmd(l, r) => LegalPrint(l, 0); LegalPrint(r, 1);
      case BackCmd(d) => LegalPrint(d, 2);
      case ListCmd(l, r) => LegalPrint(l, 2); LegalPrint(r, 3);
    }
  }

  function Print(c: Cmd<string>): string { Render(Toks(c, 3)) }

  /** parsecmd's result on a line: the tree, or None for a syntax panic. */
  function ParseText(s: string): Option<Cmd<Span>>
  {
    match Line(Lex(s, 0))
    case None => None
    case Some(p) => if p.1 == [] then Some(p.0) else None
  }

  /** Every tree with legal words and few enough of them is parsed back from its printing. */
  lemma RoundTrip(c: Cmd<string>)
    requires FewArgs(c) && LegalWords(c)
    ensures ParseText(Print(c)).Some? && Strings(Print(c), ParseText(Print(c)).value) == c
  {
    hide Line, Lex, Toks, Strings, Render, LegalToks, FewArgs, LegalWords;
    var s := Print(c);
    LegalPrint(c, 3);
    assert s[0..] == s;
    LexRender(s, 0, Toks(c, 3));
    LineOfToks(c, []);
    assert Toks(c, 3) + [] == Toks(c, 3);
    SameLine(s, Lex(s, 0), Toks(c, 3));
  }
}
