/** grep.c: the matcher for ^ . * $ of Kernighan and Pike, against a declarative meaning of patterns. */
module Grep {

  // ---------------------------------------------------------------- what a pattern means

  /** One character, or any number of repeats of one; '.' stands for any character. */
  datatype Item = One(c: char) | Many(c: char)

  /** A pattern without leading '^': its items, and whether a final '$' ties it to the end. */
  datatype Pattern = Pattern(items: seq<Item>, atEnd: bool)

  /** A '*' binds to the character before it, even '^', '$' or '*'; '$' is special only at the end. */
  function Parse(re: string): Pattern
  {
    if re == "" then Pattern([], false)
    else if |re| >= 2 && re[1] == '*' then
      var p := Parse(re[2..]); p.(items := [Many(re[0])] + p.items)
    else if re == "$" then Pattern([], true)
    else
      var p := Parse(re[1..]); p.(items := [One(re[0])] + p.items)
  }

  predicate Accepts(c: char, t: char) { c == '.' || c == t }

  predicate AllAccept(c: char, w: string)
  {
    forall i :: 0 <= i < |w| ==> Accepts(c, w[i])
  }

  predicate Fits(item: Item, w: string)
  {
    match item
    case One(c) => |w| == 1 && Accepts(c, w[0])
    case Many(c) => AllAccept(c, w)
  }

  function Concat(parts: seq<string>): string
  {
    if parts == [] then "" else parts[0] + Concat(parts[1..])
  }

  predicate FitAll(items: seq<Item>, parts: seq<string>)
  {
    |parts| == |items| && forall i :: 0 <= i < |items| ==> Fits(items[i], parts[i])
  }

  /** w splits into one part for each item. */
  ghost predicate Splits(items: seq<Item>, w: string)
  {
    exists parts :: FitAll(items, parts) && Concat(parts) == w
  }

  /** The pattern matches at the beginning of text. */
  ghost predicate Here(re: string, text: string)
  {
    exists j :: 0 <= j <= |text| && Splits(Parse(re).items, text[..j]) && (Parse(re).atEnd ==> j == |text|)
  }

  /** The pattern matches somewhere in text, or, with a leading '^', at its beginning. */
  ghost predicate Somewhere(re: string, text: string)
  {
    if re != "" && re[0] == '^' then Here(re[1..], text)
    else exists i :: 0 <= i <= |text| && Here(re, text[i..])
  }

  // ---------------------------------------------------------------- how meanings unfold

  lemma SplitsCons(item: Item, items: seq<Item>, w: string)
    ensures Splits([item] + items, w) <==>
            exists k :: 0 <= k <= |w| && Fits(item, w[..k]) && Splits(items, w[k..])
  {
    hide Fits, FitAll, Concat;
    if Splits([item] + items, w) {
      var parts :| FitAll([item] + items, parts) && Concat(parts) == w;
      var k := FirstPart(item, items, parts);
      assert Splits(items, w[k..]);
    }
    if exists k :: 0 <= k <= |w| && Fits(item, w[..k]) && Splits(items, w[k..]) {
      var k :| 0 <= k <= |w| && Fits(item, w[..k]) && Splits(items, w[k..]);
      var rest :| FitAll(items, rest) && Concat(rest) == w[k..];
      MorePart(item, items, w[..k], rest);
      assert w[..k] + w[k..] == w;
    }
  }

  lemma FirstPart(item: Item, items: seq<Item>, parts: seq<string>) returns (k: nat)
    requires FitAll([item] + items, parts)
    ensures var w := Concat(parts);
            k <= |w| && Fits(item, w[..k]) && parts != [] && FitAll(items, parts[1..]) && Concat(parts[1..]) == w[k..]
  {
    hide Fits;
    k := |parts[0]|;
    var w := Concat(parts);
    assert w[..k] == parts[0] && w[k..] == Concat(parts[1..]);
    assert ([item] + items)[0] == item && forall i :: 0 <= i < |items| ==> ([item] + items)[i + 1] == items[i];
  }

  lemma MorePart(item: Item, items: seq<Item>, first: string, rest: seq<string>)
    requires Fits(item, first) && FitAll(items, rest)
    ensures FitAll([item] + items, [first] + rest) && Concat([first] + rest) == first + Concat(rest)
  {
    hide Fits;
    assert ([first] + rest)[1..] == rest;
  }

  lemma HereEmpty(text: string)
    ensures Here("", text)
  {
    assert FitAll([], []) && Concat([]) == text[..0];
    assert Splits(Parse("").items, text[..0]);
  }

  lemma HereDollar(text: string)
    ensures Here("$", text) <==> text == ""
  {
    assert Parse("$") == Pattern([], true);
    if text == "" {
      assert FitAll([], []) && Concat([]) == text[..0];
      assert Splits(Parse("$").items, text[..0]);
    }
  }

  lemma HereStep(item: Item, re: string, rest: string, text: string)
    requires Parse(re).items == [item] + Parse(rest).items && Parse(re).atEnd == Parse(rest).atEnd
    ensures Here(re, text) <==> exists k :: 0 <= k <= |text| && Fits(item, text[..k]) && Here(rest, text[k..])
  {
    hide Parse, Fits;
    var items := Parse(rest).items;
    if Here(re, text) {
      var j :| 0 <= j <= |text| && Splits(Parse(re).items, text[..j]) && (Parse(re).atEnd ==> j == |text|);
      SplitsCons(item, items, text[..j]);
      var k :| 0 <= k <= j && Fits(item, text[..j][..k]) && Splits(items, text[..j][k..]);
      assert text[..j][..k] == text[..k] && text[..j][k..] == text[k..][..j - k];
      assert Here(rest, text[k..]);
    }
    if exists k :: 0 <= k <= |text| && Fits(item, text[..k]) && Here(rest, text[k..]) {
      var k :| 0 <= k <= |text| && Fits(item, text[..k]) && Here(rest, text[k..]);
      var j :| 0 <= j <= |text[k..]| && Splits(items, text[k..][..j]) && (Parse(rest).atEnd ==> j == |text[k..]|);
      assert text[..k + j][..k] == text[..k] && text[..k + j][k..] == text[k..][..j];
      SplitsCons(item, items, text[..k + j]);
      assert Splits(Parse(re).items, text[..k + j]);
    }
  }

  lemma HereStar(re: string, text: string)
    requires |re| >= 2 && re[1] == '*'
    ensures Here(re, text) <==> exists k :: 0 <= k <= |text| && AllAccept(re[0], text[..k]) && Here(re[2..], text[k..])
  {
    HereStep(Many(re[0]), re, re[2..], text);
    hide Here, Parse;
  }

  lemma HereOne(re: string, text: string)
    requires re != "" && !(|re| >= 2 && re[1] == '*') && re != "$"
    ensures Here(re, text) <==> text != "" && Accepts(re[0], text[0]) && Here(re[1..], text[1..])
  {
    HereStep(One(re[0]), re, re[1..], text);
    hide Here, Parse;
    if text != "" && Accepts(re[0], text[0]) && Here(re[1..], text[1..]) {
      assert Fits(One(re[0]), text[..1]);
    }
  }

  // ---------------------------------------------------------------- what users may rely on

  /** A pattern with no special character but '.'. */
  predicate Plain(re: string) { forall i :: 0 <= i < |re| ==> re[i] !in "^*$" }

  /** Character by character, text begins as re says. */
  predicate Begins(re: string, text: string)
  {
    |re| <= |text| && forall i :: 0 <= i < |re| ==> re[i] == '.' || re[i] == text[i]
  }

  lemma {:induction false} HerePlain(re: string, text: string)
    requires Plain(re)
    ensures Here(re, text) <==> Begins(re, text)
    decreases |re|
  {
    hide Here, Parse;
    if re == "" {
      HereEmpty(text);
    } else {
      assert re != "$" by { assert re[0] !in "^*$"; }
      HereOne(re, text);
      if text != "" {
        HerePlain(re[1..], text[1..]);
        BeginsStep(re, text);
      }
    }
  }

  lemma BeginsStep(re: string, text: string)
    requires re != "" && text != ""
    ensures Begins(re, text) <==> (re[0] == '.' || re[0] == text[0]) && Begins(re[1..], text[1..])
  {
    if (re[0] == '.' || re[0] == text[0]) && Begins(re[1..], text[1..]) {
      forall i | 0 <= i < |re|
        ensures re[i] == '.' || re[i] == text[i]
      {
        assert i > 0 ==> re[i] == re[1..][i - 1] && text[i] == text[1..][i - 1];
      }
    }
  }

  lemma {:induction false} HerePlainEnd(re: string, text: string)
    requires Plain(re)
    ensures Here(re + "$", text) <==> |re| == |text| && Begins(re, text)
    decreases |re|
  {
    hide Here, Parse;
    if re == "" {
      assert re + "$" == "$";
      HereDollar(text);
    } else {
      var full := re + "$";
      assert full[0] == re[0] && full[1..] == re[1..] + "$";
      assert full[1] != '*' by { assert |re| >= 2 ==> full[1] == re[1]; }
      HereOne(full, text);
      if text != "" {
        HerePlainEnd(re[1..], text[1..]);
        BeginsStep(re, text);
      }
    }
  }

  /** Without special characters other than '.', a pattern matches exactly the texts that contain it, '^' ties it to the
      beginning and '$' to the end. */
  lemma PlainPattern(re: string, text: string)
    requires Plain(re)
    ensures Somewhere(re, text) <==> exists i :: 0 <= i <= |text| && Begins(re, text[i..])
    ensures Somewhere("^" + re, text) <==> Begins(re, text)
    ensures Somewhere(re + "$", text) <==> |re| <= |text| && Begins(re, text[|text| - |re|..])
    ensures Somewhere("^" + re + "$", text) <==> |re| == |text| && Begins(re, text)
  {
    hide Here, Parse, Begins;
    forall i | 0 <= i <= |text|
      ensures Here(re, text[i..]) <==> Begins(re, text[i..])
      ensures Here(re + "$", text[i..]) <==> |re| == |text[i..]| && Begins(re, text[i..])
    {
      HerePlain(re, text[i..]);
      HerePlainEnd(re, text[i..]);
    }
    assert text[0..] == text;
    assert ("^" + re)[1..] == re && ("^" + re + "$")[1..] == re + "$";
    assert re != "" ==> re[0] !in "^*$" && (re + "$")[0] == re[0];
  }

  /** A star takes any number of the character before it, '.' any characters; the rest goes on from there. */
  lemma StarPattern(c: char, re: string, text: string)
    ensures Somewhere("^" + [c] + "*" + re, text) <==>
            exists k :: 0 <= k <= |text| && (c == '.' || forall i :: 0 <= i < k ==> text[i] == c)
                        && Somewhere("^" + re, text[k..])
  {
    hide Here, Parse;
    var full := [c] + "*" + re;
    assert ("^" + [c] + "*" + re)[1..] == full && ("^" + re)[1..] == re;
    assert full[0] == c && full[1] == '*' && full[2..] == re;
    HereStar(full, text);
    forall k | 0 <= k <= |text|
      ensures AllAccept(c, text[..k]) <==> c == '.' || forall i :: 0 <= i < k ==> text[i] == c
    {
      assert forall i :: 0 <= i < k ==> text[..k][i] == text[i];
    }
  }

  // ---------------------------------------------------------------- the matcher

  /** Search for re anywhere in text. */
  method Match(re: string, text: string) returns (found: bool)
    ensures found <==> Somewhere(re, text)
  {
    hide Here, Parse;
    if re != "" && re[0] == '^' {
      found := MatchHere(re[1..], text);
      return;
    }
    var i := 0;
    while true
      invariant 0 <= i <= |text|
      invariant forall k :: 0 <= k < i ==> !Here(re, text[k..])
      decreases |text| - i
    {
      var here := MatchHere(re, text[i..]);
      if here {
        return true;
      }
      if i == |text| {
        break;
      }
      i := i + 1;
    }
    return false;
  }

  /** Search for re at the beginning of text. */
  method MatchHere(re: string, text: string) returns (found: bool)
    ensures found <==> Here(re, text)
    decreases |re|, 0
  {
    hide Here, Parse;
    if re == "" {
      HereEmpty(text);
      return true;
    }
    if |re| >= 2 && re[1] == '*' {
      HereStar(re, text);
      found := MatchStar(re[0], re[2..], text);
      return;
    }
    if re[0] == '$' && |re| == 1 {
      assert re == "$";
      HereDollar(text);
      return text == "";
    }
    HereOne(re, text);
    if text != "" && (re[0] == '.' || re[0] == text[0]) {
      found := MatchHere(re[1..], text[1..]);
      return;
    }
    return false;
  }

  /** Search for c*re at the beginning of text. */
  method MatchStar(c: char, re: string, text: string) returns (found: bool)
    ensures found <==> exists k :: 0 <= k <= |text| && AllAccept(c, text[..k]) && Here(re, text[k..])
    decreases |re|, 1
  {
    hide Here, Parse;
    var k := 0;
    while true
      invariant 0 <= k <= |text| && AllAccept(c, text[..k])
      invariant forall m :: 0 <= m < k ==> !Here(re, text[m..])
      decreases |text| - k
    {
      var here := MatchHere(re, text[k..]);
      if here {
        return true;
      }
      if k < |text| && (text[k] == c || c == '.') {
        k := k + 1;
      } else {
        break;
      }
    }
    forall m | k < m <= |text|
      ensures !AllAccept(c, text[..m])
    {
      assert text[..m][k] == text[k];
    }
    return false;
  }
}
