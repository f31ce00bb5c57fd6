/** sh.c: the recursive-descent parser over a line of text, and nulterminate on its buffer. */
module Shell {
  import opened Wrappers
  import opened ShellGrammar
  import opened ShellLex

  predicate NoNul(s: string) { forall i :: 0 <= i < |s| ==> s[i] != '\0' }

  /** The character at p; the line ends with a NUL. */
  function CharAt(s: string, p: nat): char { if p < |s| then s[p] else '\0' }

  /** gettoken's return value: 0 at the end, 'a' for a word, '+' for >>, else the symbol. */
  function Code(ts: seq<Tok<Span>>): char
  {
    if ts == [] then '\0' else
    match ts[0]
    case Sym(c) => c
    case Append => '+'
    case Word(_) => 'a'
  }

  /** What peek's character says about the next token. */
  lemma NextToken(s: string, p: nat)
    requires p <= |s|
    ensures var q, ts := Skip(s, p), Lex(s, p);
            && (ts == [] <==> q == |s|)
            && (q < |s| ==> (ts[0].Word? <==> !Symbol(s[q])) && (AtRedir(ts) <==> s[q] in "<>")
                            && (AtEnd(ts) <==> s[q] in "|)&;"))
            && (forall c :: c in "|()&;" ==> (Starts(ts, Sym(c)) <==> q < |s| && s[q] == c))
    ensures Lex(s, Skip(s, p)) == Lex(s, p)
  {
    LexSkip(s, p, Skip(s, p));
  }

  lemma LexAt(s: string, p: nat)
    requires p <= |s|
    ensures var q := Skip(s, p); Lex(s, p) == if q == |s| then [] else [TokenAt(s, q).0] + Lex(s, TokenAt(s, q).1)
  {
  }

  method SkipWhite(s: string, p: nat) returns (r: nat)
    requires p <= |s|
    ensures r == Skip(s, p) && Lex(s, r) == Lex(s, p)
  {
    r := p;
    while r < |s| && White(s[r])
      invariant p <= r <= Skip(s, p)
    {
      r := r + 1;
    }
    LexSkip(s, p, r);
  }

  /** gettoken's switch at a character that is not white. */
  method ReadToken(s: string, q: nat) returns (tok: char, r: nat)
    requires q < |s| && NoNul(s) && !White(s[q])
    ensures r == TokenAt(s, q).1 && tok == Code([TokenAt(s, q).0]) && tok != '\0'
            && (tok == 'a' <==> TokenAt(s, q).0.Word?)
  {
    r, tok := q, CharAt(s, q);
    if tok in "|();&<" {
      r := r + 1;
    } else if tok == '>' {
      r := r + 1;
      if CharAt(s, r) == '>' {
        tok := '+';
        r := r + 1;
      }
    } else {
      tok := 'a';
      while r < |s| && !White(s[r]) && !Symbol(s[r])
        invariant q <= r <= WordEnd(s, q)
      {
        r := r + 1;
      }
    }
  }

  method GetToken(s: string, p: nat) returns (tok: char, q: nat, eq: nat, p': nat)
    requires p <= |s| && NoNul(s)
    ensures p' <= |s| && tok == Code(Lex(s, p)) && (tok == '\0' <==> Lex(s, p) == [])
    ensures tok == 'a' <==> Lex(s, p) != [] && Lex(s, p)[0].Word?
    ensures Lex(s, p') == if Lex(s, p) == [] then [] else Lex(s, p)[1..]
    ensures Lex(s, p) != [] && Lex(s, p)[0].Word? ==> Lex(s, p)[0] == Word(Span(q, eq))
  {
    hide Lex, Skip, White;
    LexAt(s, p);
    q := SkipWhite(s, p);
    if q == |s| {
      tok, eq := '\0', q;
    } else {
      tok, eq := ReadToken(s, q);
    }
    p' := SkipWhite(s, eq);
  }

  method Peek(s: string, p: nat, toks: string) returns (b: bool, p': nat)
    requires p <= |s| && NoNul(s)
    ensures p' == Skip(s, p) && Lex(s, p') == Lex(s, p)
    ensures b <==> p' < |s| && s[p'] in toks
  {
    p' := SkipWhite(s, p);
    b := CharAt(s, p') != '\0' && CharAt(s, p') in toks;
  }

  /** A parser method's result is the grammar's, and it stops where the grammar does. */
  ghost predicate Agrees(r: Option<Cmd<Span>>, s: string, p: nat, g: Parsed<Span>)
  {
    match g
    case None => r.None?
    case Some(x) => r == Some(x.0) && p <= |s| && Lex(s, p) == x.1
  }

  method ParseRedirs(cmd: Cmd<Span>, s: string, p: nat) returns (r: Option<Cmd<Span>>, p': nat)
    requires p <= |s| && NoNul(s)
    ensures Agrees(r, s, p', Redirs(cmd, Lex(s, p)))
  {
    hide Lex, Skip, NoNul;
    var c := cmd;
    p' := p;
    var more;
    NextToken(s, p');
    more, p' := Peek(s, p', "<>");
    while more
      invariant p' <= |s| && Redirs(c, Lex(s, p')) == Redirs(cmd, Lex(s, p)) && (more <==> AtRedir(Lex(s, p')))
      decreases |Lex(s, p')|
    {
      ghost var ts := Lex(s, p');
      var tok, word, q, eq;
      tok, q, eq, p' := GetToken(s, p');
      word, q, eq, p' := GetToken(s, p');
      if word != 'a' {
        return None, p';
      }
      assert ts[1..][1..] == ts[2..];
      c := RedirCmd(c, Span(q, eq), tok != '<');
      NextToken(s, p');
      more, p' := Peek(s, p', "<>");
    }
    r := Some(c);
  }

  method ParseExec(s: string, p: nat) returns (r: Option<Cmd<Span>>, p': nat)
    requires p <= |s| && NoNul(s)
    ensures Agrees(r, s, p', Simple(Lex(s, p)))
    decreases |Lex(s, p)|, 0, 1
  {
    hide Lex, Skip, NoNul;
    NextToken(s, p);
    var block;
    block, p' := Peek(s, p, "(");
    if block {
      r, p' := ParseBlock(s, p');
      return;
    }
    r, p' := ParseRedirs(ExecCmd([]), s, p');
    if r.None? {
      return;
    }
    r, p' := ParseArgs(r.value, s, p');
  }

  /** The loop of parseexec: words into argv, with redirections anywhere between them. */
  method ParseArgs(cmd: Cmd<Span>, s: string, p: nat) returns (r: Option<Cmd<Span>>, p': nat)
    requires p <= |s| && NoNul(s)
    ensures Agrees(r, s, p', Args(cmd, 0, Lex(s, p)))
  {
    hide Lex, Skip, NoNul;
    var c, argc := cmd, 0;
    p' := p;
    var end;
    NextToken(s, p');
    end, p' := Peek(s, p', "|)&;");
    while !end
      invariant p' <= |s| && Args(c, argc, Lex(s, p')) == Args(cmd, 0, Lex(s, p)) && (end <==> AtEnd(Lex(s, p')))
      decreases |Lex(s, p')|, !end
    {
      ghost var ts := Lex(s, p');
      var tok, q, eq;
      tok, q, eq, p' := GetToken(s, p');
      if tok == '\0' {
        break;
      }
      if tok != 'a' || argc + 1 >= MAXARGS {
        return None, p';
      }
      argc := argc + 1;
      r, p' := ParseRedirs(AddArg(c, Span(q, eq)), s, p');
      if r.None? {
        return;
      }
      c := r.value;
      NextToken(s, p');
      end, p' := Peek(s, p', "|)&;");
    }
    r := Some(c);
  }

  method ParseBlock(s: string, p: nat) returns (r: Option<Cmd<Span>>, p': nat)
    requires p <= |s| && NoNul(s) && Starts(Lex(s, p), Sym('('))
    ensures Agrees(r, s, p', Simple(Lex(s, p)))
    decreases |Lex(s, p)|, 0, 0
  {
    hide Lex, Skip, NoNul;
    var tok, q, eq, closed;
    tok, q, eq, p' := GetToken(s, p);
    r, p' := ParseLine(s, p');
    if r.None? {
      return;
    }
    NextToken(s, p');
    closed, p' := Peek(s, p', ")");
    if !closed {
      return None, p';
    }
    tok, q, eq, p' := GetToken(s, p');
    r, p' := ParseRedirs(r.value, s, p');
  }

  method ParsePipe(s: string, p: nat) returns (r: Option<Cmd<Span>>, p': nat)
    requires p <= |s| && NoNul(s)
    ensures Agrees(r, s, p', Pipeline(Lex(s, p)))
    decreases |Lex(s, p)|, 1
  {
    hide Lex, Skip, NoNul;
    r, p' := ParseExec(s, p);
    if r.None? {
      return;
    }
    var left := r.value;
    var piped;
    NextToken(s, p');
    piped, p' := Peek(s, p', "|");
    if piped {
      var tok, q, eq;
      tok, q, eq, p' := GetToken(s, p');
      r, p' := ParsePipe(s, p');
      if r.Some? {
        r := Some(PipeCmd(left, r.value));
      }
    }
  }

  method ParseLine(s: string, p: nat) returns (r: Option<Cmd<Span>>, p': nat)
    requires p <= |s| && NoNul(s)
    ensures Agrees(r, s, p', Line(Lex(s, p)))
    decreases |Lex(s, p)|, 2
  {
    hide Lex, Skip, NoNul;
    r, p' := ParsePipe(s, p);
    if r.None? {
      return;
    }
    var c := r.value;
    var tok, q, eq, more;
    NextToken(s, p');
    more, p' := Peek(s, p', "&");
    ghost var start := Pipeline(Lex(s, p)).value;
    while more
      invariant p' <= |s| && Backs(c, Lex(s, p')) == Backs(start.0, start.1) && |Lex(s, p')| <= |Lex(s, p)|
      invariant more <==> Starts(Lex(s, p'), Sym('&'))
      decreases |Lex(s, p')|
    {
      tok, q, eq, p' := GetToken(s, p');
      c := BackCmd(c);
      NextToken(s, p');
      more, p' := Peek(s, p', "&");
    }
    NextToken(s, p');
    more, p' := Peek(s, p', ";");
    r := Some(c);
    if more {
      tok, q, eq, p' := GetToken(s, p');
      r, p' := ParseLine(s, p');
      if r.Some? {
        r := Some(ListCmd(c, r.value));
      }
    }
  }

  // ---------------------------------------------------------------- nulterminate

  /** Where the words of a tree end. */
  function Ends(c: Cmd<Span>): set<nat>
  {
    match c
    case ExecCmd(argv) => set i | 0 <= i < |argv| :: argv[i].eq
    case RedirCmd(d, f, _) => Ends(d) + {f.eq}
    case PipeCmd(l, r) => Ends(l) + Ends(r)
    case ListCmd(l, r) => Ends(l) + Ends(r)
    case BackCmd(d) => Ends(d)
  }

  method NulTerminate(buf: array<char>, c: Cmd<Span>)
    requires forall e :: e in Ends(c) ==> e < buf.Length
    modifies buf
    ensures forall i :: 0 <= i < buf.Length ==> buf[i] == if i in Ends(c) then '\0' else old(buf[i])
    decreases c
  {
    match c
    case ExecCmd(argv) =>
      var i := 0;
      while i < |argv|
        invariant i <= |argv|
        invariant forall k :: 0 <= k < buf.Length ==>
                    buf[k] == if exists j :: 0 <= j < i && argv[j].eq == k then '\0' else old(buf[k])
      {
        assert argv[i].eq in Ends(c);
        buf[argv[i].eq] := '\0';
        i := i + 1;
      }
    case RedirCmd(d, f, _) =>
      assert f.eq in Ends(c) && Ends(d) <= Ends(c);
      NulTerminate(buf, d);
      buf[f.eq] := '\0';
    case PipeCmd(l, r) =>
      assert Ends(l) <= Ends(c) && Ends(r) <= Ends(c);
      NulTerminate(buf, l);
      NulTerminate(buf, r);
    case ListCmd(l, r) =>
      assert Ends(l) <= Ends(c) && Ends(r) <= Ends(c);
      NulTerminate(buf, l);
      NulTerminate(buf, r);
    case BackCmd(d) =>
      assert Ends(d) <= Ends(c);
      NulTerminate(buf, d);
  }

  /** The C string at q. */
  function CString(b: seq<char>, q: nat): string
    decreases |b| - q
  {
    if q < |b| && b[q] != '\0' then [b[q]] + CString(b, q + 1) else ""
  }

  /** A word of the line: nonempty, and as long as it can be. */
  predicate IsWord(s: string, w: Span)
  {
    w.q < w.eq <= |s| && (forall i :: w.q <= i < w.eq ==> InWord(s[i])) && (w.eq < |s| ==> !InWord(s[w.eq]))
  }

  ghost function LineWords(s: string): set<Span>
  {
    set q: nat, e: nat | q <= |s| && e <= |s| && IsWord(s, Span(q, e)) :: Span(q, e)
  }

  lemma {:induction false} LexWords(s: string, p: nat)
    requires p <= |s|
    ensures WordsIn(Lex(s, p), LineWords(s))
    decreases |s| - p
  {
    var q := Skip(s, p);
    if q < |s| {
      LexWords(s, TokenAt(s, q).1);
      assert !Symbol(s[q]) ==> IsWord(s, Span(q, WordEnd(s, q)));
    }
  }

  /** A word ends at a character no word contains. */
  lemma {:induction false} EndsApart(s: string, c: Cmd<Span>, e: nat)
    requires Made(c, LineWords(s)) && e in Ends(c)
    ensures e <= |s| && (e < |s| ==> !InWord(s[e]))
    decreases c
  {
    match c
    case ExecCmd(argv) =>
      var i :| 0 <= i < |argv| && argv[i].eq == e;
      assert argv[i] in LineWords(s);
    case RedirCmd(d, f, _) => if e != f.eq { EndsApart(s, d, e); }
    case PipeCmd(l, r) => if e in Ends(l) { EndsApart(s, l, e); } else { EndsApart(s, r, e); }
    case ListCmd(l, r) => if e in Ends(l) { EndsApart(s, l, e); } else { EndsApart(s, r, e); }
    case BackCmd(d) => EndsApart(s, d, e);
  }

  ghost predicate AllWords(c: Cmd<Span>, b: seq<char>, s: string)
  {
    match c
    case ExecCmd(argv) => forall i :: 0 <= i < |argv| ==> CString(b, argv[i].q) == Slice(s, argv[i])
    case RedirCmd(d, f, _) => AllWords(d, b, s) && CString(b, f.q) == Slice(s, f)
    case PipeCmd(l, r) => AllWords(l, b, s) && AllWords(r, b, s)
    case ListCmd(l, r) => AllWords(l, b, s) && AllWords(r, b, s)
    case BackCmd(d) => AllWords(d, b, s)
  }

  lemma {:induction false} CStringOf(b: seq<char>, s: string, q: nat, e: nat)
    requires q <= e < |b| && e <= |s| && b[e] == '\0' && forall i :: q <= i < e ==> b[i] == s[i] != '\0'
    ensures CString(b, q) == s[q..e]
    decreases e - q
  {
    if q < e {
      CStringOf(b, s, q + 1, e);
      assert s[q..e] == [s[q]] + s[q + 1..e];
    }
  }

  /** b is the line with NULs at the ends of c's words, and perhaps at other word ends. */
  ghost predicate Cut(b: seq<char>, s: string, c: Cmd<Span>)
  {
    && |s| < |b| && (forall i :: 0 <= i < |s| && InWord(s[i]) ==> b[i] == s[i])
    && (forall e :: e in Ends(c) ==> e < |b| && b[e] == '\0')
  }

  lemma {:induction false} CutWords(b: seq<char>, s: string, c: Cmd<Span>)
    requires NoNul(s) && Cut(b, s, c) && Made(c, LineWords(s))
    ensures AllWords(c, b, s)
    decreases c
  {
    match c
    case ExecCmd(argv) =>
      forall i | 0 <= i < |argv|
        ensures CString(b, argv[i].q) == Slice(s, argv[i])
      {
        assert argv[i] in LineWords(s) && argv[i].eq in Ends(c);
        CStringOf(b, s, argv[i].q, argv[i].eq);
      }
    case RedirCmd(d, f, _) =>
      assert f.eq in Ends(c) && Ends(d) <= Ends(c);
      CutWords(b, s, d);
      CStringOf(b, s, f.q, f.eq);
    case PipeCmd(l, r) =>
      assert Ends(l) <= Ends(c) && Ends(r) <= Ends(c);
      CutWords(b, s, l);
      CutWords(b, s, r);
    case ListCmd(l, r) =>
      assert Ends(l) <= Ends(c) && Ends(r) <= Ends(c);
      CutWords(b, s, l);
      CutWords(b, s, r);
    case BackCmd(d) => CutWords(b, s, d);
  }

  /** parsecmd: the tree of the line in buf, whose words are then C strings in buf.  None: panic. */
  method ParseCmd(buf: array<char>, n: nat) returns (r: Option<Cmd<Span>>)
    requires n < buf.Length && buf[n] == '\0' && NoNul(buf[..n])
    modifies buf
    ensures r == ParseText(old(buf[..n]))
    ensures r.Some? ==> AllWords(r.value, buf[..], old(buf[..n]))
    ensures r.None? ==> buf[..] == old(buf[..])
  {
    var s := buf[..n];
    var p;
    r, p := ParseLine(s, 0);
    if r.None? {
      return;
    }
    var b;
    NextToken(s, p);
    b, p := Peek(s, p, "");
    if p != n {
      return None;
    }
    var c := r.value;
    LexWords(s, 0);
    LineMade(Lex(s, 0), LineWords(s));
    forall e | e in Ends(c)
      ensures e < buf.Length && (e < |s| ==> !InWord(s[e]))
    {
      EndsApart(s, c, e);
    }
    NulTerminate(buf, c);
    CutWords(buf[..], s, c);
  }
}
