/** What the collapsing pass does to the white space between words. */
module Gaps {
  import opened Spacing

  /** A word and the white space behind it. */
  datatype Token = Token(word: string, gap: string)

  predicate Solid(w: string) {
    w != "" && forall i :: 0 <= i < |w| ==> !IsSpace(w[i])
  }

  predicate Blank(g: string) {
    forall i :: 0 <= i < |g| ==> IsSpace(g[i])
  }

  predicate Proper(tokens: seq<Token>) {
    && (forall t :: t in tokens ==> Solid(t.word) && Blank(t.gap))
    && (forall i :: 0 <= i < |tokens| - 1 ==> tokens[i].gap != "")
  }

  function Print(tokens: seq<Token>): string {
    if tokens == [] then "" else tokens[0].word + tokens[0].gap + Print(tokens[1..])
  }

  /** `free` tells whether the first character of the first word is still free to start a match. */
  function CollapseTokens(tokens: seq<Token>, free: bool): seq<Token> {
    if |tokens| <= 1 then tokens
    else if free || |tokens[0].word| >= 2 then [Token(tokens[0].word, " ")] + CollapseTokens(tokens[1..], false)
    else [tokens[0]] + CollapseTokens(tokens[1..], true)
  }

  lemma {:induction false} CollapseInFront(c: char, s: string)
    requires IsSpace(c) || s == "" || !IsSpace(s[0])
    ensures Collapse([c] + s) == [c] + Collapse(s)
  {
    assert ([c] + s)[1..] == s;
  }

  lemma {:induction false} BlankRun(g: string, t: string)
    requires Blank(g) && (t != "" ==> !IsSpace(t[0]))
    ensures SpaceRun(g + t) == |g|
  {
    if g == "" {
      assert g + t == t;
    } else {
      assert (g + t)[1..] == g[1..] + t;
      BlankRun(g[1..], t);
    }
  }

  lemma {:induction false} BlankInFront(g: string, t: string)
    requires Blank(g)
    ensures Collapse(g + t) == g + Collapse(t)
  {
    if g == "" {
      assert g + t == t;
    } else {
      BlankInFront(g[1..], t);
      CollapseInFront(g[0], g[1..] + t);
      assert g + t == [g[0]] + (g[1..] + t);
      assert g == [g[0]] + g[1..];
    }
  }

  lemma {:induction false} ConsAppend(c: char, s: string, t: string)
    ensures ([c] + s) + t == [c] + (s + t)
  {
  }

  /** Of a word only the last character can start a match. */
  lemma {:induction false} CollapseWord(front: string, c: char, t: string)
    requires forall i :: 0 <= i < |front| ==> !IsSpace(front[i])
    requires !IsSpace(c)
    ensures Collapse(front + ([c] + t)) == front + Collapse([c] + t)
  {
    var tail := [c] + t;
    if front == "" {
      assert front + tail == tail;
      assert front + Collapse(tail) == Collapse(tail);
    } else {
      var d, rest := front[0], front[1..];
      CollapseWord(rest, c, t);
      assert rest + tail != "" && (rest + tail)[0] == if rest == "" then c else front[1];
      CollapseInFront(d, rest + tail);
      assert front == [d] + rest;
      ConsAppend(d, rest, tail);
      ConsAppend(d, rest, Collapse(tail));
    }
  }

  lemma {:induction false} CollapseGap(c: char, g: string, x: char, t: string)
    requires !IsSpace(c) && !IsSpace(x) && Blank(g) && g != ""
    ensures Collapse([c] + (g + ([x] + t))) == [c, ' ', x] + Collapse(t)
  {
    var s := [c] + (g + ([x] + t));
    assert s[1..] == g + ([x] + t);
    BlankRun(g, [x] + t);
    assert s[|g| + 1] == x && s[|g| + 2..] == t;
  }

  lemma {:induction false} CollapseBlankEnd(c: char, g: string)
    requires !IsSpace(c) && Blank(g)
    ensures Collapse([c] + g) == [c] + g
  {
    BlankInFront(g, "");
    BlankRun(g, "");
    assert g + "" == g;
    assert ([c] + g)[1..] == g;
  }

  lemma {:induction false} CollapseLast(w: string, g: string)
    requires (w == "" || Solid(w)) && Blank(g)
    ensures Collapse(w + g) == w + g
  {
    if w == "" {
      BlankInFront(g, "");
      assert g + "" == g && w + g == g;
    } else {
      var front, c := w[..|w| - 1], w[|w| - 1];
      CollapseWord(front, c, g);
      CollapseBlankEnd(c, g);
      LastOf(w, g);
    }
  }

  lemma {:induction false} LastOf(w: string, t: string)
    requires w != ""
    ensures w + t == w[..|w| - 1] + ([w[|w| - 1]] + t)
  {
  }

  /** A word that can start a match, its gap, and a text that starts with a word. */
  lemma {:induction false} CollapseBetween(w: string, g: string, text: string, done: string)
    requires Solid(w) && Blank(g) && g != "" && text != "" && !IsSpace(text[0])
    requires done == [text[0]] + Collapse(text[1..])
    ensures Collapse(w + (g + text)) == w + (" " + done)
  {
    var front, c, x, t := w[..|w| - 1], w[|w| - 1], text[0], text[1..];
    var tail := g + text;
    CollapseWord(front, c, tail);
    LastOf(w, tail);
    assert tail == g + ([x] + t) by {
      assert text == [x] + t;
    }
    CollapseGap(c, g, x, t);
    assert w == front + [c];
    Reassociate(front, c, x, Collapse(t));
  }

  lemma {:induction false} Reassociate(front: string, c: char, x: char, rest: string)
    ensures front + ([c, ' ', x] + rest) == (front + [c]) + (" " + ([x] + rest))
  {
  }

  /** What is left of a printed list when the first character is taken as it is. */
  function Rest(tokens: seq<Token>): string {
    var p := Print(tokens);
    if p == "" then "" else p[1..]
  }

  lemma {:induction false} PrintCons(token: Token, rest: seq<Token>)
    requires token.word != ""
    ensures Print([token] + rest) == token.word + (token.gap + Print(rest))
    ensures Rest([token] + rest) == token.word[1..] + (token.gap + Print(rest))
  {
    assert ([token] + rest)[1..] == rest;
  }

  lemma {:induction false} PrintFront(tokens: seq<Token>)
    requires Proper(tokens) && tokens != []
    ensures Print(tokens) == [tokens[0].word[0]] + Rest(tokens)
  {
    var token, rest := tokens[0], tokens[1..];
    assert token in tokens;
    assert tokens == [token] + rest;
    PrintCons(token, rest);
    FrontOf(token.word, token.gap + Print(rest));
  }

  lemma {:induction false} FrontOf(w: string, t: string)
    requires w != ""
    ensures w + t == [w[0]] + (w[1..] + t)
  {
  }

  lemma {:induction false} ProperTail(tokens: seq<Token>)
    requires Proper(tokens) && tokens != []
    ensures Proper(tokens[1..])
  {
    var rest := tokens[1..];
    assert forall i :: 0 <= i < |rest| ==> rest[i] == tokens[i + 1];
    assert forall t :: t in rest ==> t in tokens;
  }

  lemma {:induction false} CollapseTokensProper(tokens: seq<Token>, free: bool)
    requires Proper(tokens)
    ensures Proper(CollapseTokens(tokens, free)) && |CollapseTokens(tokens, free)| == |tokens|
    ensures tokens != [] ==> CollapseTokens(tokens, free)[0].word == tokens[0].word
  {
    if |tokens| > 1 {
      ProperTail(tokens);
      var matched := free || |tokens[0].word| >= 2;
      CollapseTokensProper(tokens[1..], !matched);
      assert tokens[0] in tokens;
    }
  }

  /** The pass on a list of tokens does what `CollapseTokens` says, its first character free or used up. */
  ghost predicate Follows(tokens: seq<Token>) {
    && Collapse(Print(tokens)) == Print(CollapseTokens(tokens, true))
    && Collapse(Rest(tokens)) == Rest(CollapseTokens(tokens, false))
  }

  lemma {:induction false} FollowsLast(token: Token)
    requires Proper([token])
    ensures Follows([token])
  {
    assert token in [token];
    PrintCons(token, []);
    assert [token] + [] == [token] && token.gap + "" == token.gap;
    CollapseLast(token.word, token.gap);
    CollapseLast(token.word[1..], token.gap);
  }

  lemma {:induction false} FollowsCons(token: Token, rest: seq<Token>)
    requires Solid(token.word) && Blank(token.gap) && token.gap != ""
    requires Proper(rest) && rest != [] && Follows(rest)
    ensures Follows([token] + rest)
  {
    var w, g, tokens := token.word, token.gap, [token] + rest;
    var text, done := Print(rest), Print(CollapseTokens(rest, false));
    assert tokens[1..] == rest;
    PrintCons(token, rest);
    PrintCons(Token(w, " "), CollapseTokens(rest, false));
    PrintFront(rest);
    assert rest[0] in rest;
    CollapseTokensProper(rest, false);
    PrintFront(CollapseTokens(rest, false));
    CollapseBetween(w, g, text, done);
    if |w| >= 2 {
      CollapseBetween(w[1..], g, text, done);
    } else {
      PrintCons(token, CollapseTokens(rest, true));
      BlankInFront(g, text);
      assert w[1..] == "";
      assert "" + (g + text) == g + text;
      assert "" + (g + Print(CollapseTokens(rest, true))) == g + Print(CollapseTokens(rest, true));
    }
  }

  lemma {:induction false} GapsFrom(tokens: seq<Token>)
    requires Proper(tokens) && tokens != []
    ensures Follows(tokens)
  {
    assert tokens[0] in tokens;
    if |tokens| == 1 {
      assert tokens == [tokens[0]];
      FollowsLast(tokens[0]);
    } else {
      ProperTail(tokens);
      GapsFrom(tokens[1..]);
      FollowsCons(tokens[0], tokens[1..]);
      assert tokens == [tokens[0]] + tokens[1..];
    }
  }

  /** A text behind the white space it starts with. */
  function Unindented(s: string): string {
    s[SpaceRun(s)..]
  }

  /**
   * Which gaps are collapsed, exactly: white space in front stays, and of the gaps behind words all
   * but the last go, unless the word before one is a single character that the match of the previous
   * gap has used up.
   */
  lemma {:induction false} GapsExactly(s: string)
    ensures Collapse(s) == s[..SpaceRun(s)] + Print(CollapseTokens(Tokens(Unindented(s)), true))
  {
    var indent, text := s[..SpaceRun(s)], Unindented(s);
    SkipSpaces(s);
    BlankPrefix(s);
    Halves(s, SpaceRun(s));
    BlankInFront(indent, text);
    TokensPrint(text);
    if text != "" {
      GapsFrom(Tokens(text));
    }
  }

  /**
   * How many one-character words in a row end at word `i`; the first word of a text does not count,
   * since no earlier match can have used it up.
   */
  function Singles(tokens: seq<Token>, free: bool, i: nat): nat
    requires i < |tokens|
  {
    if |tokens[i].word| >= 2 || (i == 0 && free) then 0
    else if i == 0 then 1
    else 1 + Singles(tokens, free, i - 1)
  }

  lemma {:induction false} SinglesTail(tokens: seq<Token>, free: bool, i: nat)
    requires 1 <= i < |tokens|
    ensures var matched := free || |tokens[0].word| >= 2;
            Singles(tokens, free, i) % 2 == Singles(tokens[1..], !matched, i - 1) % 2
  {
    if i > 1 {
      SinglesTail(tokens, free, i - 1);
    }
  }

  lemma {:induction false} SkippedFrom(tokens: seq<Token>, free: bool, i: nat)
    requires i < |tokens| - 1
    ensures |CollapseTokens(tokens, free)| == |tokens|
    ensures CollapseTokens(tokens, free)[i] ==
            Token(tokens[i].word, if Singles(tokens, free, i) % 2 == 1 then tokens[i].gap else " ")
  {
    if i > 0 {
      SinglesTail(tokens, free, i);
      SkippedFrom(tokens[1..], !(free || |tokens[0].word| >= 2), i - 1);
    } else if |tokens| > 2 {
      SkippedFrom(tokens[1..], !(free || |tokens[0].word| >= 2), 0);
    }
  }

  // --- Trimming a list of tokens ---

  /** Made of characters that trimming takes away, which a word may be: `\s` is not all of them. */
  predicate Hollow(w: string) {
    forall i :: 0 <= i < |w| ==> IsTrimmed(w[i])
  }

  function TrimLeftTokens(tokens: seq<Token>): seq<Token> {
    if tokens == [] then []
    else if Hollow(tokens[0].word) then TrimLeftTokens(tokens[1..])
    else [Token(TrimLeft(tokens[0].word), tokens[0].gap)] + tokens[1..]
  }

  function TrimRightTokens(tokens: seq<Token>): seq<Token> {
    if tokens == [] then []
    else
      var before, last := tokens[..|tokens| - 1], tokens[|tokens| - 1];
      if Hollow(last.word) then TrimRightTokens(before) else before + [Token(TrimRight(last.word), "")]
  }

  lemma {:induction false} TrimLeftOver(a: string, b: string)
    ensures TrimLeft(a + b) == if Hollow(a) then TrimLeft(b) else TrimLeft(a) + b
  {
    if a == "" {
      assert a + b == b;
    } else {
      TrimLeftOver(a[1..], b);
      assert (a + b)[1..] == a[1..] + b;
      assert a == [a[0]] + a[1..];
    }
  }

  lemma {:induction false} TrimRightOver(a: string, b: string)
    ensures TrimRight(a + b) == if Hollow(b) then TrimRight(a) else a + TrimRight(b)
  {
    if b == "" {
      assert a + b == a;
    } else {
      var n := |b| - 1;
      TrimRightOver(a, b[..n]);
      assert (a + b)[..|a + b| - 1] == a + b[..n];
      assert b == b[..n] + [b[n]];
    }
  }

  lemma {:induction false} TrimLeftWord(w: string)
    requires Solid(w) && !Hollow(w)
    ensures Solid(TrimLeft(w))
  {
    if IsTrimmed(w[0]) {
      assert w == [w[0]] + w[1..];
      TrimLeftWord(w[1..]);
    }
  }

  lemma {:induction false} TrimRightWord(w: string)
    requires Solid(w) && !Hollow(w)
    ensures Solid(TrimRight(w))
  {
    var n := |w| - 1;
    if IsTrimmed(w[n]) {
      assert w == w[..n] + [w[n]];
      TrimRightWord(w[..n]);
    }
  }

  lemma {:induction false} BlankHollow(g: string)
    requires Blank(g)
    ensures Hollow(g)
  {
  }

  lemma {:induction false} HollowTogether(w: string, g: string)
    requires Blank(g)
    ensures Hollow(w + g) <==> Hollow(w)
  {
    BlankHollow(g);
    if Hollow(w + g) {
      assert forall i :: 0 <= i < |w| ==> w[i] == (w + g)[i];
    }
  }

  lemma {:induction false} AppendAppend(x: string, y: string, z: string)
    ensures x + (y + z) == (x + y) + z
  {
  }

  lemma {:induction false} PrintHead(token: Token, rest: seq<Token>)
    ensures Print([token] + rest) == (token.word + token.gap) + Print(rest)
  {
    assert ([token] + rest)[1..] == rest;
  }

  lemma {:induction false} PrintAppend(a: seq<Token>, b: seq<Token>)
    ensures Print(a + b) == Print(a) + Print(b)
  {
    if a == [] {
      assert a + b == b;
    } else {
      PrintAppend(a[1..], b);
      assert a + b == [a[0]] + (a[1..] + b) && a == [a[0]] + a[1..];
      PrintHead(a[0], a[1..] + b);
      PrintHead(a[0], a[1..]);
      AppendAppend(a[0].word + a[0].gap, Print(a[1..]), Print(b));
    }
  }

  /** Trimming on the left, on tokens. */
  lemma {:induction false} TrimLeftPrint(tokens: seq<Token>)
    requires Proper(tokens)
    ensures TrimLeft(Print(tokens)) == Print(TrimLeftTokens(tokens))
    ensures Proper(TrimLeftTokens(tokens))
  {
    if tokens != [] {
      var token, rest := tokens[0], tokens[1..];
      assert token in tokens;
      assert tokens == [token] + rest;
      PrintCons(token, rest);
      TrimLeftOver(token.word, token.gap + Print(rest));
      if Hollow(token.word) {
        ProperTail(tokens);
        BlankHollow(token.gap);
        TrimLeftOver(token.gap, Print(rest));
        TrimLeftPrint(rest);
      } else {
        TrimLeftWord(token.word);
        var cut := Token(TrimLeft(token.word), token.gap);
        PrintCons(cut, rest);
        ReplaceFirst(tokens, cut);
      }
    }
  }

  /** How many hollow words a list starts with. */
  function Hollows(tokens: seq<Token>): (n: nat)
    ensures n <= |tokens|
    ensures forall k :: 0 <= k < n ==> Hollow(tokens[k].word)
    ensures n < |tokens| ==> !Hollow(tokens[n].word)
  {
    if tokens == [] || !Hollow(tokens[0].word) then 0 else 1 + Hollows(tokens[1..])
  }

  lemma {:induction false} TrimLeftClosed(tokens: seq<Token>)
    ensures var n := Hollows(tokens);
            TrimLeftTokens(tokens) ==
            if n == |tokens| then [] else [Token(TrimLeft(tokens[n].word), tokens[n].gap)] + tokens[n + 1..]
  {
    if tokens != [] && Hollow(tokens[0].word) {
      TrimLeftClosed(tokens[1..]);
    }
  }

  lemma {:induction false} TrimLeftHollow(w: string)
    ensures Hollow(TrimLeft(w)) <==> Hollow(w)
  {
    if w != "" && IsTrimmed(w[0]) {
      TrimLeftHollow(w[1..]);
      assert w == [w[0]] + w[1..];
    }
  }

  lemma {:induction false} TrimLeftShape(tokens: seq<Token>)
    ensures var n, left := Hollows(tokens), TrimLeftTokens(tokens);
            && n + |left| == |tokens|
            && (forall k :: 0 <= k < |left| ==>
                  left[k].gap == tokens[n + k].gap && (Hollow(left[k].word) <==> Hollow(tokens[n + k].word)))
  {
    var n := Hollows(tokens);
    TrimLeftClosed(tokens);
    if n < |tokens| {
      TrimLeftHollow(tokens[n].word);
    }
  }

  lemma {:induction false} ReplaceFirst(tokens: seq<Token>, token: Token)
    requires Proper(tokens) && tokens != [] && Solid(token.word) && token.gap == tokens[0].gap
    ensures Proper([token] + tokens[1..])
  {
    assert tokens[0] in tokens;
  }

  /** Trimming on the right, on tokens. */
  lemma {:induction false} TrimRightPrint(tokens: seq<Token>)
    requires Proper(tokens)
    ensures TrimRight(Print(tokens)) == Print(TrimRightTokens(tokens))
    ensures Proper(TrimRightTokens(tokens))
  {
    if tokens != [] {
      var before, last := tokens[..|tokens| - 1], tokens[|tokens| - 1];
      assert last in tokens;
      assert tokens == before + [last];
      ProperInit(tokens);
      PrintAppend(before, [last]);
      PrintOne(last);
      HollowTogether(last.word, last.gap);
      TrimRightOver(Print(before), last.word + last.gap);
      if Hollow(last.word) {
        TrimRightPrint(before);
      } else {
        TrimRightWord(last.word);
        BlankHollow(last.gap);
        TrimRightOver(last.word, last.gap);
        var cut := Token(TrimRight(last.word), "");
        PrintOne(cut);
        PrintAppend(before, [cut]);
        ReplaceLast(tokens, cut);
      }
    }
  }

  lemma {:induction false} TrimRightShape(tokens: seq<Token>)
    ensures var kept := TrimRightTokens(tokens);
            && |kept| <= |tokens|
            && (forall k :: |kept| <= k < |tokens| ==> Hollow(tokens[k].word))
            && (forall k :: 0 <= k < |kept| - 1 ==> kept[k] == tokens[k])
            && (kept != [] ==> !Hollow(tokens[|kept| - 1].word))
  {
    if tokens != [] {
      TrimRightShape(tokens[..|tokens| - 1]);
    }
  }

  lemma {:induction false} PrintOne(token: Token)
    ensures Print([token]) == token.word + token.gap
  {
    assert [token][1..] == [];
  }

  lemma {:induction false} ProperInit(tokens: seq<Token>)
    requires Proper(tokens) && tokens != []
    ensures Proper(tokens[..|tokens| - 1])
  {
  }

  lemma {:induction false} ReplaceLast(tokens: seq<Token>, token: Token)
    requires Proper(tokens) && tokens != [] && Solid(token.word) && Blank(token.gap)
    ensures Proper(tokens[..|tokens| - 1] + [token])
  {
  }

  /** Reading what was printed. */
  lemma {:induction false} TokensOfPrint(tokens: seq<Token>)
    requires Proper(tokens)
    ensures Tokens(Print(tokens)) == tokens
  {
    if tokens != [] {
      var token, rest := tokens[0], tokens[1..];
      assert token in tokens;
      assert tokens == [token] + rest;
      PrintCons(token, rest);
      ProperTail(tokens);
      TokensOfPrint(rest);
      if rest != [] {
        PrintFront(rest);
        assert rest[0] in rest;
      }
      FirstOf(token.word, token.gap, Print(rest));
    }
  }

  lemma {:induction false} FirstOf(w: string, g: string, t: string)
    requires Solid(w) && Blank(g) && (t != "" ==> g != "" && !IsSpace(t[0]))
    ensures var s := w + (g + t);
            FirstWord(s) == w && FirstGap(s) == g && Remainder(s) == t
  {
    var s := w + (g + t);
    WordRunOver(w, g + t);
    assert s[|w|..] == g + t;
    BlankRun(g, t);
  }

  lemma {:induction false} WordRunOver(w: string, t: string)
    requires forall i :: 0 <= i < |w| ==> !IsSpace(w[i])
    requires t != "" ==> IsSpace(t[0])
    ensures WordRun(w + t) == |w|
  {
    if w == "" {
      assert w + t == t;
    } else {
      assert (w + t)[1..] == w[1..] + t;
      WordRunOver(w[1..], t);
    }
  }

  // --- The whole pipeline ---

  /** The words of a message cut at every seam, with the white space behind them. */
  function Pieced(s: string): seq<Token> {
    Tokens(Unindented(SplitSeams(s)))
  }

  /** The gap behind word `i` lies between words that trimming leaves something of. */
  predicate Inner(tokens: seq<Token>, i: nat) {
    && (exists a :: 0 <= a <= i < |tokens| && !Hollow(tokens[a].word))
    && (exists b :: i < b < |tokens| && !Hollow(tokens[b].word))
  }

  predicate AllSingle(tokens: seq<Token>) {
    forall i :: 0 <= i < |tokens| - 1 ==> tokens[i].gap == " "
  }

  /** Only single spaces are left between the words of the text. */
  predicate SingleSpaced(s: string) {
    AllSingle(Tokens(s))
  }

  /** The pieces collapsed and trimmed. */
  function Output(tokens: seq<Token>): seq<Token> {
    TrimRightTokens(TrimLeftTokens(CollapseTokens(tokens, true)))
  }

  /** The output, as the trimmed list of the collapsed pieces. */
  lemma {:induction false} SpaceTokens(s: string)
    ensures Proper(Pieced(s)) && Proper(CollapseTokens(Pieced(s), true))
    ensures Tokens(Space(s)) == Output(Pieced(s))
  {
    var t := SplitSeams(s);
    var indent, out := t[..SpaceRun(t)], CollapseTokens(Pieced(s), true);
    SeamsAllSplit(s);
    SkipSpaces(t);
    TokensPrint(Unindented(t));
    CollapseTokensProper(Pieced(s), true);
    GapsExactly(t);
    BlankPrefix(t);
    BlankHollow(indent);
    TrimLeftOver(indent, Print(out));
    TrimLeftPrint(out);
    TrimRightPrint(TrimLeftTokens(out));
    TokensOfPrint(TrimRightTokens(TrimLeftTokens(out)));
  }

  predicate HollowOutside(tokens: seq<Token>, from: nat, to: nat)
    requires from <= to <= |tokens|
  {
    && (forall k :: 0 <= k < |tokens| && !(from <= k < to) ==> Hollow(tokens[k].word))
    && (from < to ==> !Hollow(tokens[from].word) && !Hollow(tokens[to - 1].word))
  }

  /** `kept` is a stretch of the list `out` from `n` on, and in `tokens` only hollow words lie around it. */
  predicate Stretch(tokens: seq<Token>, out: seq<Token>, kept: seq<Token>, n: nat) {
    && |out| == |tokens| && n + |kept| <= |tokens|
    && HollowOutside(tokens, n, n + |kept|)
    && (forall k :: 0 <= k < |kept| - 1 ==> kept[k].gap == out[n + k].gap)
  }

  /** What trimming leaves of a list of tokens, and that only hollow words around it go. */
  lemma {:induction false} TrimmedShape(tokens: seq<Token>)
    ensures var n, kept := Hollows(tokens), TrimRightTokens(TrimLeftTokens(tokens));
            Stretch(tokens, tokens, kept, n)
  {
    var n, left := Hollows(tokens), TrimLeftTokens(tokens);
    TrimLeftShape(tokens);
    TrimRightShape(left);
    var m := |TrimRightTokens(left)|;
    forall i | n + m <= i < |tokens|
      ensures Hollow(tokens[i].word)
    {
      assert Hollow(left[i - n].word);
    }
  }

  lemma {:induction false} InnerBetween(tokens: seq<Token>, from: nat, to: nat, i: nat)
    requires from <= to <= |tokens| && HollowOutside(tokens, from, to)
    ensures Inner(tokens, i) <==> from <= i < to - 1
  {
  }

  /** Every gap that lies inside and is skipped was a single space before. */
  predicate SkippedAreSingle(tokens: seq<Token>) {
    forall i :: 0 <= i < |tokens| - 1 && Inner(tokens, i) && Singles(tokens, true, i) % 2 == 1 ==>
      tokens[i].gap == " "
  }

  lemma {:induction false} SameWords(tokens: seq<Token>, free: bool)
    ensures var out := CollapseTokens(tokens, free);
            |out| == |tokens| && forall k :: 0 <= k < |tokens| ==> out[k].word == tokens[k].word
  {
    if |tokens| > 1 {
      SameWords(tokens[1..], !(free || |tokens[0].word| >= 2));
    }
  }

  lemma {:induction false} SameWordsStretch(tokens: seq<Token>, out: seq<Token>, kept: seq<Token>, n: nat)
    requires Stretch(out, out, kept, n)
    requires |tokens| == |out| && forall k :: 0 <= k < |tokens| ==> out[k].word == tokens[k].word
    ensures Stretch(tokens, out, kept, n)
  {
  }

  lemma {:induction false} OutputStretch(tokens: seq<Token>)
    ensures Stretch(tokens, CollapseTokens(tokens, true), Output(tokens), Hollows(CollapseTokens(tokens, true)))
  {
    var out := CollapseTokens(tokens, true);
    SameWords(tokens, true);
    TrimmedShape(out);
    SameWordsStretch(tokens, out, Output(tokens), Hollows(out));
  }

  lemma {:induction false} OutputGap(tokens: seq<Token>, n: nat, k: nat)
    requires Stretch(tokens, CollapseTokens(tokens, true), Output(tokens), n) && k < |Output(tokens)| - 1
    ensures Inner(tokens, n + k)
    ensures Output(tokens)[k].gap == if Singles(tokens, true, n + k) % 2 == 1 then tokens[n + k].gap else " "
  {
    InnerBetween(tokens, n, n + |Output(tokens)|, n + k);
    SkippedFrom(tokens, true, n + k);
  }

  lemma {:induction false} SkippedSingleSuffices(tokens: seq<Token>)
    requires SkippedAreSingle(tokens)
    ensures AllSingle(Output(tokens))
  {
    var n := Hollows(CollapseTokens(tokens, true));
    OutputStretch(tokens);
    forall k | 0 <= k < |Output(tokens)| - 1
      ensures Output(tokens)[k].gap == " "
    {
      OutputGap(tokens, n, k);
    }
  }

  lemma {:induction false} SkippedSingleNeeded(tokens: seq<Token>)
    requires AllSingle(Output(tokens))
    ensures SkippedAreSingle(tokens)
  {
    var n := Hollows(CollapseTokens(tokens, true));
    OutputStretch(tokens);
    forall i | 0 <= i < |tokens| - 1 && Inner(tokens, i) && Singles(tokens, true, i) % 2 == 1
      ensures tokens[i].gap == " "
    {
      InnerBetween(tokens, n, n + |Output(tokens)|, i);
      OutputGap(tokens, n, i - n);
    }
  }

  /**
   * The output has only single spaces exactly when every other white space between visible pieces
   * follows a run of one-character pieces of even length. A piece is a word cut at its seams, and the
   * first piece of the message does not count towards a run.
   */
  lemma {:induction false} SingleSpacedExactly(s: string)
    ensures SingleSpaced(Space(s)) <==> SkippedAreSingle(Pieced(s))
  {
    SpaceTokens(s);
    if SkippedAreSingle(Pieced(s)) {
      SkippedSingleSuffices(Pieced(s));
    }
    if SingleSpaced(Space(s)) {
      SkippedSingleNeeded(Pieced(s));
    }
  }

  lemma {:induction false} LongPiecesSkipped(tokens: seq<Token>)
    requires forall i :: 1 <= i < |tokens| - 1 ==> |tokens[i].word| >= 2
    ensures SkippedAreSingle(tokens)
  {
  }

  /** So messages whose inner pieces have two characters or more come out with single spaces. */
  lemma {:induction false} LongPiecesSingleSpaced(s: string)
    requires forall i :: 1 <= i < |Pieced(s)| - 1 ==> |Pieced(s)[i].word| >= 2
    ensures SingleSpaced(Space(s))
  {
    var tokens := Pieced(s);
    LongPiecesSkipped(tokens);
    SpaceTokens(s);
    SkippedSingleSuffices(tokens);
  }

  lemma {:induction false} NoSeams(s: string)
    requires forall i :: 0 <= i < |s| ==> !IsDigit(s[i])
    ensures AfterLetters(AfterDigits(s)) == s
  {
    SeamsAllSplit(s);
    if |s| > 1 {
      NoSeams(s[1..]);
      SeamsAllSplit(s[1..]);
    }
  }

  lemma {:induction false} LetterKinds(c: char)
    requires IsLetter(c)
    ensures !IsDigit(c) && !IsTrimmed(c) && !IsSpace(c)
  {
  }

  lemma {:induction false} CollapseOnce(x: char, y: char, z: char)
    requires IsLetter(x) && IsLetter(y) && IsLetter(z)
    ensures Collapse([x] + ("  " + ([y] + ("  " + [z])))) == [x, ' ', y] + ("  " + [z])
  {
    CollapseGap(x, "  ", y, "  " + [z]);
    BlankInFront("  ", [z]);
    CollapseLast([z], "");
    assert [z] + "" == [z];
  }

  lemma {:induction false} OnlyCollapsed(s: string, out: string)
    requires forall i :: 0 <= i < |s| ==> !IsDigit(s[i])
    requires Collapse(s) == out && out != "" && !IsTrimmed(out[0]) && !IsTrimmed(out[|out| - 1])
    ensures Space(s) == out
  {
    NoSeams(s);
  }

  lemma {:induction false} SecondMatchMissed(x: char, y: char, z: char, s: string, once: string)
    requires IsLetter(x) && IsLetter(y) && IsLetter(z)
    requires s == [x] + ("  " + ([y] + ("  " + [z]))) && once == [x, ' ', y] + ("  " + [z])
    ensures Space(s) == once
  {
    LetterKinds(x);
    LetterKinds(y);
    LetterKinds(z);
    CollapseOnce(x, y, z);
    OnlyCollapsed(s, once);
  }

  /** Three one-character words: the second gap is skipped. */
  lemma {:induction false} SecondGapSkipped()
    ensures Space("x  y  z") == "x y  z"
  {
    SecondMatchMissed('x', 'y', 'z', "x  y  z", "x y  z");
  }

  function WordRun(s: string): (n: nat)
    ensures n <= |s|
    ensures s != "" && !IsSpace(s[0]) ==> n >= 1
    ensures n < |s| ==> IsSpace(s[n])
  {
    if s != "" && !IsSpace(s[0]) then 1 + WordRun(s[1..]) else 0
  }

  lemma {:induction false} BlankPrefix(s: string)
    ensures Blank(s[..SpaceRun(s)])
  {
    if s != "" && IsSpace(s[0]) {
      BlankPrefix(s[1..]);
      assert s[..SpaceRun(s)] == [s[0]] + s[1..][..SpaceRun(s[1..])];
    }
  }

  lemma {:induction false} SolidPrefix(s: string)
    ensures forall i :: 0 <= i < WordRun(s) ==> !IsSpace(s[i])
  {
    if s != "" && !IsSpace(s[0]) {
      SolidPrefix(s[1..]);
      assert s[..WordRun(s)] == [s[0]] + s[1..][..WordRun(s[1..])];
    }
  }

  /** The first word of a text, the white space behind it, and the remaining text. */
  function FirstWord(s: string): string {
    s[..WordRun(s)]
  }

  function FirstGap(s: string): string {
    var tail := s[WordRun(s)..];
    tail[..SpaceRun(tail)]
  }

  function Remainder(s: string): (t: string)
    ensures |t| == |s| - |FirstWord(s)| - |FirstGap(s)|
  {
    var tail := s[WordRun(s)..];
    tail[SpaceRun(tail)..]
  }

  /** A text that starts with a word, as a list of tokens. */
  function Tokens(s: string): seq<Token>
    decreases |s|
  {
    if FirstWord(s) == "" then [] else [Token(FirstWord(s), FirstGap(s))] + Tokens(Remainder(s))
  }

  lemma {:induction false} FirstParts(s: string)
    ensures s == FirstWord(s) + (FirstGap(s) + Remainder(s))
  {
    var tail := s[WordRun(s)..];
    Halves(s, WordRun(s));
    Halves(tail, SpaceRun(tail));
  }

  lemma {:induction false} FirstKinds(s: string)
    requires s != "" && !IsSpace(s[0])
    ensures Solid(FirstWord(s)) && Blank(FirstGap(s))
  {
    SolidPrefix(s);
    BlankPrefix(s[WordRun(s)..]);
  }

  lemma {:induction false} FirstTaken(s: string)
    requires s != "" && !IsSpace(s[0])
    ensures Solid(FirstWord(s)) && Blank(FirstGap(s))
    ensures s == FirstWord(s) + (FirstGap(s) + Remainder(s))
    ensures Remainder(s) != "" ==> !IsSpace(Remainder(s)[0]) && FirstGap(s) != ""
  {
    FirstParts(s);
    FirstKinds(s);
    SkipSpaces(s[WordRun(s)..]);
  }

  lemma {:induction false} Halves(s: string, n: nat)
    requires n <= |s|
    ensures s == s[..n] + s[n..]
  {
  }

  lemma {:induction false} TokensPrint(s: string)
    requires s != "" ==> !IsSpace(s[0])
    ensures Proper(Tokens(s)) && Print(Tokens(s)) == s && (s != "" ==> Tokens(s) != [])
    decreases |s|
  {
    if s != "" {
      FirstTaken(s);
      TokensPrint(Remainder(s));
      TokenInFront(FirstWord(s), FirstGap(s), Remainder(s));
    }
  }

  lemma {:induction false} TokenInFront(w: string, g: string, t: string)
    requires Solid(w) && Blank(g) && Proper(Tokens(t)) && Print(Tokens(t)) == t && (t != "" ==> g != "")
    ensures Proper([Token(w, g)] + Tokens(t)) && Print([Token(w, g)] + Tokens(t)) == w + (g + t)
  {
    PrintCons(Token(w, g), Tokens(t));
    ProperCons(Token(w, g), Tokens(t));
  }

  lemma {:induction false} ProperCons(token: Token, rest: seq<Token>)
    requires Solid(token.word) && Blank(token.gap) && Proper(rest) && (Print(rest) != "" ==> token.gap != "")
    ensures Proper([token] + rest)
  {
  }
}
