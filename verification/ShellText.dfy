/** sh.c: which lines the shell accepts and what it reads in them, however they are spaced. */
module ShellText {
  import opened Wrappers
  import opened ShellGrammar
  import opened ShellLex
  import opened ShellSyntax

  // ---------------------------------------------------------------- lines of text

  predicate Blank(s: string, i: nat, j: nat)
    requires j <= |s|
  {
    forall k :: i <= k < j ==> s[k] in " \t\r\n" || s[k] as int == 11
  }

  predicate WordChar(c: char) { c !in " \t\r\n<|>&;()" && c as int != 11 && c != '\0' }

  /** One token's text. */
  predicate Spelling(text: string, t: Tok<string>)
  {
    match t
    case Sym(c) => text == [c] && c in "<|>&;()"
    case Append => text == ">>"
    case Word(w) => text == w && w != "" && forall k :: 0 <= k < |w| ==> WordChar(w[k])
  }

  /** Tokens that would run together: two words, or > before another > or >>. */
  predicate Clash(t: Tok<string>, u: Tok<string>)
  {
    (t.Word? && u.Word?) || (t == Sym('>') && (u == Sym('>') || u == Append))
  }

  /** The first token fills s[q..e] after blanks, and a blank follows it where it must. */
  predicate Placed(s: string, p: nat, q: nat, e: nat, ts: seq<Tok<string>>)
    requires ts != []
  {
    && p <= q < e <= |s| && Blank(s, p, q) && Spelling(s[q..e], ts[0])
    && (|ts| >= 2 && Clash(ts[0], ts[1]) ==> e < |s| && Blank(s, e, e + 1))
  }

  /** From p on the line holds exactly these tokens, spaced in any way that keeps them apart. */
  ghost predicate Written(s: string, p: nat, ts: seq<Tok<string>>)
    decreases |ts|
  {
    if ts == [] then p <= |s| && Blank(s, p, |s|)
    else exists q: nat, e: nat :: Placed(s, p, q, e, ts) && Written(s, e, ts[1..])
  }

  // ---------------------------------------------------------------- the lexer reads what is written

  /** What can stand right after a token: nothing, a blank, or the next token's first character. */
  lemma Follows(s: string, p: nat, ts: seq<Tok<string>>)
    requires Written(s, p, ts) && p < |s| && !White(s[p])
    ensures ts != [] && match ts[0] {
                          case Sym(c) => s[p] == c && Symbol(c)
                          case Append => s[p] == '>'
                          case Word(_) => InWord(s[p])
                        }
  {
    if ts != [] {
      var q: nat, e: nat :| Placed(s, p, q, e, ts) && Written(s, e, ts[1..]);
      assert q == p && s[p] == s[q..e][0];
    }
  }

  lemma {:induction false} SkipTo(s: string, p: nat, q: nat)
    requires p <= q <= |s| && Blank(s, p, q) && (q < |s| ==> !White(s[q]))
    ensures Skip(s, p) == q
    decreases q - p
  {
    if p < q {
      SkipTo(s, p + 1, q);
    }
  }

  lemma {:induction false} WordEndAt(s: string, p: nat, e: nat)
    requires p <= e <= |s| && (e < |s| ==> !InWord(s[e])) && forall k :: p <= k < e ==> InWord(s[k])
    ensures WordEnd(s, p) == e
    decreases e - p
  {
    if p < e {
      WordEndAt(s, p + 1, e);
    }
  }

  /** The token placed first is the one the lexer takes, and it stops where the token does. */
  lemma Taken(s: string, p: nat, q: nat, e: nat, ts: seq<Tok<string>>)
    requires ts != [] && Placed(s, p, q, e, ts) && Written(s, e, ts[1..])
    ensures Skip(s, p) == q && !White(s[q]) && TokenAt(s, q).1 == e && Spelled(s, TokenAt(s, q).0, ts[0])
  {
    hide Written, Skip, WordEnd;
    var text := s[q..e];
    assert forall k :: q <= k < e ==> s[k] == text[k - q];
    assert text[0] == s[q];
    SkipTo(s, p, q);
    if e < |s| && !White(s[e]) {
      Follows(s, e, ts[1..]);
    }
    if ts[0].Word? {
      WordEndAt(s, q, e);
    }
  }

  lemma {:induction false} WrittenRead(s: string, p: nat, ts: seq<Tok<string>>)
    requires p <= |s| && Written(s, p, ts)
    ensures Spells(s, Lex(s, p), ts)
    decreases |ts|
  {
    hide Placed, Spelled, TokenAt;
    if ts == [] {
      SkipTo(s, p, |s|);
    } else {
      var q: nat, e: nat :| Placed(s, p, q, e, ts) && Written(s, e, ts[1..]);
      InLine(s, p, q, e, ts);
      Taken(s, p, q, e, ts);
      WrittenRead(s, e, ts[1..]);
    }
  }

  lemma InLine(s: string, p: nat, q: nat, e: nat, ts: seq<Tok<string>>)
    requires ts != [] && Placed(s, p, q, e, ts)
    ensures p <= q < e <= |s|
  {
  }

  // ---------------------------------------------------------------- and nothing else

  lemma SpelledBack(s: string, q: nat, t: Tok<string>)
    requires '\0' !in s && q < |s| && !White(s[q]) && Spelled(s, TokenAt(s, q).0, t)
    ensures Spelling(s[q..TokenAt(s, q).1], t)
  {
  }

  /** Tokens that would run together were read with a blank between them. */
  lemma Apart(s: string, q: nat, t: Tok<string>, u: Tok<string>)
    requires q < |s| && !White(s[q]) && Spelled(s, TokenAt(s, q).0, t) && Clash(t, u)
    requires var e := TokenAt(s, q).1; Skip(s, e) < |s| && Spelled(s, TokenAt(s, Skip(s, e)).0, u)
    ensures var e := TokenAt(s, q).1; e < |s| && White(s[e])
  {
  }

  lemma PlacedBack(s: string, p: nat, us: seq<Tok<Span>>, ts: seq<Tok<string>>)
    requires p <= |s| && '\0' !in s && us == Lex(s, p) && us != [] && Spells(s, us, ts)
    ensures Placed(s, p, Skip(s, p), TokenAt(s, Skip(s, p)).1, ts)
  {
    hide TokenAt, Spelled, Spelling, WordEnd, Clash;
    var q := Skip(s, p);
    var e := TokenAt(s, q).1;
    assert us[0] == TokenAt(s, q).0 && us[1..] == Lex(s, e);
    SpelledBack(s, q, ts[0]);
    if |ts| >= 2 && Clash(ts[0], ts[1]) {
      assert us[1] == us[1..][0] == TokenAt(s, Skip(s, e)).0;
      Apart(s, q, ts[0], ts[1]);
    }
  }

  lemma {:induction false} ReadWritten(s: string, p: nat, ts: seq<Tok<string>>)
    requires p <= |s| && '\0' !in s && Spells(s, Lex(s, p), ts)
    ensures Written(s, p, ts)
    decreases |ts|
  {
    hide Placed, Spelled, TokenAt;
    if ts != [] {
      var us := Lex(s, p);
      PlacedBack(s, p, us, ts);
      var e := TokenAt(s, Skip(s, p)).1;
      assert us[1..] == Lex(s, e);
      SpellsRest(s, us, ts, 1);
      ReadWritten(s, e, ts[1..]);
    }
  }

  /** The tokens with their text. */
  function Texts(s: string, us: seq<Tok<Span>>): seq<Tok<string>>
  {
    seq(|us|, i requires 0 <= i < |us| =>
      match us[i] case Sym(c) => Sym(c) case Append => Append case Word(w) => Word(Slice(s, w)))
  }

  lemma {:induction false} TextsSpell(s: string, p: nat)
    requires p <= |s|
    ensures Spells(s, Lex(s, p), Texts(s, Lex(s, p)))
    decreases |s| - p
  {
    var q := Skip(s, p);
    if q < |s| {
      var e := TokenAt(s, q).1;
      TextsSpell(s, e);
      var us := Lex(s, p);
      assert us == [TokenAt(s, q).0] + Lex(s, e);
      forall i | 0 <= i < |us|
        ensures Spelled(s, us[i], Texts(s, us)[i])
      {
        if i > 0 {
          assert us[i] == Lex(s, e)[i - 1];
          assert Spelled(s, Lex(s, e)[i - 1], Texts(s, Lex(s, e))[i - 1]);
        }
      }
    }
  }

  // ---------------------------------------------------------------- the shell's language

  /** The line is this sentence, with legal words and at most nine to a command. */
  ghost predicate Says(s: string, st: Sentence<string>)
  {
    Fits(st) && Written(s, 0, SentenceToks(st))
  }

  lemma SameParse(s: string, ts: seq<Tok<string>>, c: Cmd<string>)
    requires Spells(s, Lex(s, 0), ts)
    ensures ParseText(s).Some? && Strings(s, ParseText(s).value) == c <==> Line(ts) == Some((c, []))
  {
    hide Line, Lex, Strings;
    SameLine(s, Lex(s, 0), ts);
  }

  /** However it is spaced, a sentence is parsed to its meaning. */
  lemma SaidIsParsed(s: string, st: Sentence<string>)
    requires Says(s, st)
    ensures ParseText(s).Some? && Strings(s, ParseText(s).value) == SentenceTree(st)
  {
    hide Line, Lex, Strings, ParseText, SentenceToks, SentenceTree, Written, Fits;
    WrittenRead(s, 0, SentenceToks(st));
    SentenceRead(st, []);
    assert SentenceToks(st) + [] == SentenceToks(st);
    SameParse(s, SentenceToks(st), SentenceTree(st));
  }

  /** A line is accepted exactly when it is a sentence, and then its tree is the sentence's meaning. */
  lemma ParsesExactly(s: string, c: Cmd<string>)
    requires '\0' !in s
    ensures ParseText(s).Some? && Strings(s, ParseText(s).value) == c
            <==> exists st: Sentence<string> :: Says(s, st) && SentenceTree(st) == c
  {
    hide Line, Lex, Strings, ParseText, SentenceToks, SentenceTree, Written, Fits;
    var ts := Texts(s, Lex(s, 0));
    TextsSpell(s, 0);
    SameParse(s, ts, c);
    AcceptsExactly(ts, c);
    if ParseText(s).Some? && Strings(s, ParseText(s).value) == c {
      var st: Sentence<string> :| Fits(st) && SentenceToks(st) == ts && SentenceTree(st) == c;
      ReadWritten(s, 0, ts);
      assert Says(s, st);
    }
    forall st: Sentence<string> | Says(s, st) && SentenceTree(st) == c
      ensures ParseText(s).Some? && Strings(s, ParseText(s).value) == c
    {
      SaidIsParsed(s, st);
    }
  }
}
