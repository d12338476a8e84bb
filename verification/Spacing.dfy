/**
 * The spacing passes over a formatted message: a space at every seam between digits and letters,
 * runs of white space collapsed by one non-overlapping replacement, and both ends trimmed.
 */
module Spacing {

  predicate IsDigit(c: char) {
    '0' <= c <= '9'
  }

  predicate IsLetter(c: char) {
    '\U{4e00}' <= c <= '\U{9fa5}' || 'a' <= c <= 'z' || 'A' <= c <= 'Z'
  }

  /** `\s` of the regular expressions. */
  predicate IsSpace(c: char) {
    c == ' ' || c == '\t' || c == '\n' || c == '\r' || c == '\U{000c}'
  }

  /** What `strings.TrimSpace` removes: Unicode white space, more than `\s`. */
  predicate IsTrimmed(c: char) {
    || IsSpace(c)
    || c == '\U{000b}' || c == '\U{0085}' || c == '\U{00a0}' || c == '\U{1680}'
    || '\U{2000}' <= c <= '\U{200a}'
    || c == '\U{2028}' || c == '\U{2029}' || c == '\U{202f}' || c == '\U{205f}' || c == '\U{3000}'
  }

  // --- The passes ---

  /** Pass one: `(\d)(letter)` becomes `$1 $2`, scanning on behind each match. */
  function AfterDigits(s: string): string {
    if |s| >= 2 && IsDigit(s[0]) && IsLetter(s[1]) then [s[0], ' ', s[1]] + AfterDigits(s[2..])
    else if s != "" then [s[0]] + AfterDigits(s[1..])
    else ""
  }

  /** Pass two: `(letter)(\d)` becomes `$1 $2`. */
  function AfterLetters(s: string): string {
    if |s| >= 2 && IsLetter(s[0]) && IsDigit(s[1]) then [s[0], ' ', s[1]] + AfterLetters(s[2..])
    else if s != "" then [s[0]] + AfterLetters(s[1..])
    else ""
  }

  function SpaceRun(s: string): (n: nat)
    ensures n <= |s|
  {
    if s != "" && IsSpace(s[0]) then 1 + SpaceRun(s[1..]) else 0
  }

  /** Pass three: `(\S)(\s+)(\S)` becomes `$1 $3`; the second `\S` is used up and cannot start the next match. */
  function Collapse(s: string): string {
    if s == "" then ""
    else if IsSpace(s[0]) then [s[0]] + Collapse(s[1..])
    else
      var k := SpaceRun(s[1..]);
      if k > 0 && k + 1 < |s| then [s[0], ' ', s[k + 1]] + Collapse(s[k + 2..])
      else [s[0]] + Collapse(s[1..])
  }

  function TrimLeft(s: string): string {
    if s != "" && IsTrimmed(s[0]) then TrimLeft(s[1..]) else s
  }

  function TrimRight(s: string): string {
    if s != "" && IsTrimmed(s[|s| - 1]) then TrimRight(s[..|s| - 1]) else s
  }

  function Space(s: string): string {
    TrimRight(TrimLeft(Collapse(AfterLetters(AfterDigits(s)))))
  }

  // --- Seams ---

  predicate Seam(a: char, b: char) {
    (IsDigit(a) && IsLetter(b)) || (IsLetter(a) && IsDigit(b))
  }

  /** A space at every seam, found by looking at each pair of neighbours. */
  function SplitSeams(s: string): string {
    if |s| <= 1 then s
    else [s[0]] + (if Seam(s[0], s[1]) then " " else "") + SplitSeams(s[1..])
  }

  /** A space at the seams from digit to letter only. */
  function SplitDigits(s: string): string {
    if |s| <= 1 then s
    else [s[0]] + (if IsDigit(s[0]) && IsLetter(s[1]) then " " else "") + SplitDigits(s[1..])
  }

  function SplitLetters(s: string): string {
    if |s| <= 1 then s
    else [s[0]] + (if IsLetter(s[0]) && IsDigit(s[1]) then " " else "") + SplitLetters(s[1..])
  }

  lemma {:induction false} SpaceBetween(a: char, b: char, t: string)
    ensures [a, ' ', b] + t == [a] + " " + ([b] + t)
  {
  }

  lemma {:induction false} AfterDigitsSplits(s: string)
    ensures AfterDigits(s) == SplitDigits(s)
  {
    if |s| >= 2 && IsDigit(s[0]) && IsLetter(s[1]) {
      AfterDigitsSplits(s[2..]);
      assert s[1..][1..] == s[2..];
      assert SplitDigits(s[1..]) == [s[1]] + SplitDigits(s[2..]);
      SpaceBetween(s[0], s[1], SplitDigits(s[2..]));
    } else if s != "" {
      AfterDigitsSplits(s[1..]);
    }
  }

  lemma {:induction false} AfterLettersSplits(s: string)
    ensures AfterLetters(s) == SplitLetters(s)
  {
    if |s| >= 2 && IsLetter(s[0]) && IsDigit(s[1]) {
      AfterLettersSplits(s[2..]);
      assert s[1..][1..] == s[2..];
      assert SplitLetters(s[1..]) == [s[1]] + SplitLetters(s[2..]);
      SpaceBetween(s[0], s[1], SplitLetters(s[2..]));
    } else if s != "" {
      AfterLettersSplits(s[1..]);
    }
  }

  lemma {:induction false} SplitLettersInFront(c: char, t: string)
    requires t != ""
    ensures SplitLetters([c] + t) ==
            if IsLetter(c) && IsDigit(t[0]) then [c] + ([' '] + SplitLetters(t)) else [c] + SplitLetters(t)
  {
    assert ([c] + t)[1..] == t;
  }

  lemma {:induction false} SplitDigitsInFront(c: char, t: string)
    requires t != ""
    ensures SplitDigits([c] + t) ==
            if IsDigit(c) && IsLetter(t[0]) then [c] + ([' '] + SplitDigits(t)) else [c] + SplitDigits(t)
    ensures SplitDigits(t) != "" && SplitDigits(t)[0] == t[0]
  {
    assert ([c] + t)[1..] == t;
  }

  lemma {:induction false} SplitSeamsInFront(c: char, t: string)
    requires t != ""
    ensures SplitSeams([c] + t) == if Seam(c, t[0]) then [c] + ([' '] + SplitSeams(t)) else [c] + SplitSeams(t)
  {
    assert ([c] + t)[1..] == t;
  }

  lemma {:induction false} ComposeInFront(c: char, t: string)
    requires t != "" && SplitLetters(SplitDigits(t)) == SplitSeams(t)
    ensures SplitLetters(SplitDigits([c] + t)) == SplitSeams([c] + t)
  {
    var rest, done := SplitDigits(t), SplitSeams(t);
    SplitDigitsInFront(c, t);
    SplitSeamsInFront(c, t);
    SplitLettersInFront(c, rest);
    SplitLettersInFront(' ', rest);
    SplitLettersInFront(c, [' '] + rest);
    if IsDigit(c) && IsLetter(t[0]) {
      assert SplitLetters(SplitDigits([c] + t)) == [c] + ([' '] + done);
    } else if Seam(c, t[0]) {
      assert SplitLetters(SplitDigits([c] + t)) == [c] + ([' '] + done);
    } else {
      assert SplitLetters(SplitDigits([c] + t)) == [c] + done;
    }
  }

  lemma {:induction false} SplitsCompose(s: string)
    ensures SplitLetters(SplitDigits(s)) == SplitSeams(s)
  {
    if |s| >= 2 {
      assert s == [s[0]] + s[1..];
      SplitsCompose(s[1..]);
      ComposeInFront(s[0], s[1..]);
    }
  }

  /** Neither pass misses a seam to an earlier match: together they split every one. */
  lemma {:induction false} SeamsAllSplit(s: string)
    ensures AfterLetters(AfterDigits(s)) == SplitSeams(s)
  {
    AfterDigitsSplits(s);
    AfterLettersSplits(AfterDigits(s));
    SplitsCompose(s);
  }

  // --- Words ---

  /** The word that touches the start of the text, which may be empty, and the words behind it. */
  datatype Scanned = Scanned(open: string, words: seq<string>)

  predicate NoneEmpty(words: seq<string>) {
    forall i :: 0 <= i < |words| ==> words[i] != ""
  }

  function Close(w: Scanned): (words: seq<string>)
    ensures NoneEmpty(w.words) ==> NoneEmpty(words)
  {
    if w.open == "" then w.words else [w.open] + w.words
  }

  function Scan(s: string): (w: Scanned)
    ensures NoneEmpty(w.words)
  {
    if s == "" then Scanned("", [])
    else
      var rest := Scan(s[1..]);
      if IsSpace(s[0]) then Scanned("", Close(rest)) else Scanned([s[0]] + rest.open, rest.words)
  }

  /** The maximal runs without white space, in order. */
  function Words(s: string): (words: seq<string>)
    ensures NoneEmpty(words)
  {
    Close(Scan(s))
  }

  /** A word cut at its seams. */
  function Pieces(w: string): (pieces: seq<string>)
    ensures |pieces| >= 1
  {
    if |w| <= 1 then [w]
    else
      var rest := Pieces(w[1..]);
      if Seam(w[0], w[1]) then [[w[0]]] + rest else [[w[0]] + rest[0]] + rest[1..]
  }

  function AllPieces(words: seq<string>): seq<string> {
    if words == [] then [] else Pieces(words[0]) + AllPieces(words[1..])
  }

  lemma {:induction false} PiecesNonEmpty(w: string)
    requires w != ""
    ensures Pieces(w)[0] != "" && Pieces(w)[0][0] == w[0]
    ensures NoneEmpty(Pieces(w))
    ensures var last := Pieces(w)[|Pieces(w)| - 1];
            last != "" && last[|last| - 1] == w[|w| - 1]
  {
    if |w| > 1 {
      PiecesNonEmpty(w[1..]);
    }
  }

  lemma {:induction false} SpaceInFront(c: char, s: string)
    requires IsSpace(c)
    ensures Scan([c] + s) == Scanned("", Words(s))
  {
    assert ([c] + s)[1..] == s;
  }

  lemma {:induction false} LetterInFront(c: char, s: string)
    requires !IsSpace(c)
    ensures Scan([c] + s) == Scanned([c] + Scan(s).open, Scan(s).words)
  {
    assert ([c] + s)[1..] == s;
  }

  /** The word in front is made of the characters in front. */
  lemma {:induction false} OpenStart(s: string)
    ensures Scan(s).open != "" <==> s != "" && !IsSpace(s[0])
    ensures Scan(s).open != "" ==> Scan(s).open[0] == s[0]
  {
  }

  /** A scanned text whose every word is cut at its seams. */
  function Cut(w: Scanned): Scanned {
    Scanned(Pieces(w.open)[0], Pieces(w.open)[1..] + AllPieces(w.words))
  }

  lemma {:induction false} CutNothing(words: seq<string>)
    ensures Cut(Scanned("", words)) == Scanned("", AllPieces(words))
  {
    assert Pieces("") == [""] && [""][1..] == [];
  }

  lemma {:induction false} CutSeam(c: char, w: Scanned)
    requires w.open != "" && Seam(c, w.open[0])
    ensures Cut(Scanned([c] + w.open, w.words)) == Scanned([c], AllPieces(Close(w)))
  {
    assert ([c] + w.open)[1..] == w.open;
    assert Pieces([c] + w.open) == [[c]] + Pieces(w.open);
    assert Close(w)[0] == w.open && Close(w)[1..] == w.words;
  }

  lemma {:induction false} CutNoSeam(c: char, w: Scanned)
    requires w.open != "" ==> !Seam(c, w.open[0])
    ensures Cut(Scanned([c] + w.open, w.words)) == Scanned([c] + Cut(w).open, Cut(w).words)
  {
    if w.open == "" {
      assert [c] + "" == [c] && Pieces([c]) == [[c]] && Pieces("") == [""];
    } else {
      assert ([c] + w.open)[1..] == w.open && ([c] + w.open)[1] == w.open[0];
      var rest := Pieces(w.open);
      assert Pieces([c] + w.open) == [[c] + rest[0]] + rest[1..];
    }
  }

  /** A character in front of a scanned text. */
  function Prepend(c: char, w: Scanned): Scanned {
    if IsSpace(c) then Scanned("", Close(w)) else Scanned([c] + w.open, w.words)
  }

  lemma {:induction false} ScanInFront(c: char, s: string)
    ensures Scan([c] + s) == Prepend(c, Scan(s))
  {
    assert ([c] + s)[1..] == s;
  }

  lemma {:induction false} SplitOne(c: char)
    ensures Scan(SplitSeams([c])) == Cut(Scan([c]))
  {
    assert [c] == [c] + "";
    ScanInFront(c, "");
    CutNothing([]);
    CutNoSeam(c, Scan(""));
  }

  lemma {:induction false} SplitCons(c: char, t: string)
    requires t != "" && Scan(SplitSeams(t)) == Cut(Scan(t))
    ensures Scan(SplitSeams([c] + t)) == Cut(Scan([c] + t))
  {
    OpenStart(t);
    ScanInFront(c, t);
    SplitSeamsInFront(c, t);
    SplitStep(c, t[0], Scan(t), SplitSeams(t));
  }

  lemma {:induction false} SplitScan(s: string)
    ensures Scan(SplitSeams(s)) == Cut(Scan(s))
  {
    if s == "" {
      CutNothing([]);
    } else if s[1..] == "" {
      assert s == [s[0]];
      SplitOne(s[0]);
    } else {
      assert s == [s[0]] + s[1..];
      SplitScan(s[1..]);
      SplitCons(s[0], s[1..]);
    }
  }

  lemma {:induction false} SplitStep(c: char, d: char, w: Scanned, split: string)
    requires Scan(split) == Cut(w)
    requires w.open != "" <==> !IsSpace(d)
    requires w.open != "" ==> w.open[0] == d
    ensures Scan(if Seam(c, d) then [c] + ([' '] + split) else [c] + split) == Cut(Prepend(c, w))
  {
    if Seam(c, d) {
      ScanInFront(' ', split);
      ScanInFront(c, [' '] + split);
      CloseSplit(w);
      CutSeam(c, w);
    } else {
      ScanInFront(c, split);
      PrependCut(c, w);
    }
  }

  lemma {:induction false} PrependCut(c: char, w: Scanned)
    requires w.open != "" ==> !Seam(c, w.open[0])
    ensures Prepend(c, Cut(w)) == Cut(Prepend(c, w))
  {
    if IsSpace(c) {
      CloseSplit(w);
      CutNothing(Close(w));
    } else {
      CutNoSeam(c, w);
    }
  }

  lemma {:induction false} CloseSplit(w: Scanned)
    ensures Close(Cut(w)) == AllPieces(Close(w))
  {
    var pieces := Pieces(w.open);
    if w.open != "" {
      PiecesNonEmpty(w.open);
      assert [pieces[0]] + (pieces[1..] + AllPieces(w.words)) == pieces + AllPieces(w.words);
      assert Close(w)[0] == w.open && Close(w)[1..] == w.words;
    } else {
      assert pieces[1..] == [];
    }
  }

  lemma {:induction false} SplitWords(s: string)
    ensures Words(SplitSeams(s)) == AllPieces(Words(s))
  {
    SplitScan(s);
    CloseSplit(Scan(s));
  }

  lemma {:induction false} SkipSpaces(s: string)
    ensures Words(s[SpaceRun(s)..]) == Words(s)
    ensures SpaceRun(s) < |s| ==> !IsSpace(s[SpaceRun(s)])
    ensures SpaceRun(s) > 0 ==> Scan(s) == Scanned("", Words(s[SpaceRun(s)..]))
  {
    if s != "" && IsSpace(s[0]) {
      SkipSpaces(s[1..]);
      assert s[1..][SpaceRun(s[1..])..] == s[SpaceRun(s)..];
    }
  }

  /** A match, scanned: its gap may be any white space. */
  lemma {:induction false} MatchScan(c: char, s: string, x: char, t: string, collapsed: string)
    requires !IsSpace(c) && !IsSpace(x) && SpaceRun(s) > 0 && s[SpaceRun(s)..] == [x] + t
    requires Scan(collapsed) == Scan(t)
    ensures Scan([c, ' ', x] + collapsed) == Scan([c] + s)
  {
    SkipSpaces(s);
    ScanInFront(x, t);
    ScanInFront(x, collapsed);
    ScanInFront(' ', [x] + collapsed);
    ScanInFront(c, [' '] + ([x] + collapsed));
    ScanInFront(c, s);
    assert [c, ' ', x] + collapsed == [c] + ([' '] + ([x] + collapsed));
  }

  lemma {:induction false} CollapseScan(s: string)
    ensures Scan(Collapse(s)) == Scan(s)
    decreases |s|
  {
    if s != "" {
      var c := s[0];
      var k := SpaceRun(s[1..]);
      assert s == [c] + s[1..];
      if !IsSpace(c) && k > 0 && k + 1 < |s| {
        var x, t := s[k + 1], s[k + 2..];
        SkipSpaces(s[1..]);
        assert s[1..][k..] == [x] + t;
        CollapseScan(t);
        MatchScan(c, s[1..], x, t, Collapse(t));
      } else {
        CollapseScan(s[1..]);
        ScanInFront(c, s[1..]);
        ScanInFront(c, Collapse(s[1..]));
      }
    }
  }

  // --- Trimming ---

  function Size(words: seq<string>): nat {
    if words == [] then 0 else |words[0]| + Size(words[1..])
  }

  lemma {:induction false} SizeClose(w: Scanned)
    ensures Size(Close(w)) == |w.open| + Size(w.words)
  {
    if w.open != "" {
      assert Close(w)[1..] == w.words;
    }
  }

  lemma {:induction false} SizeInFront(c: char, s: string)
    ensures Size(Words([c] + s)) == Size(Words(s)) + if IsSpace(c) then 0 else 1
  {
    if IsSpace(c) {
      SpaceInFront(c, s);
    } else {
      LetterInFront(c, s);
    }
    SizeClose(Scan([c] + s));
    SizeClose(Scan(s));
  }

  lemma {:induction false} TrimLeftSize(s: string)
    ensures Size(Words(TrimLeft(s))) <= Size(Words(s))
  {
    if s != "" && IsTrimmed(s[0]) {
      TrimLeftSize(s[1..]);
      assert s == [s[0]] + s[1..];
      SizeInFront(s[0], s[1..]);
    }
  }

  lemma {:induction false} TrimLeftExactly(s: string)
    ensures Words(TrimLeft(s)) == Words(s) <==> Words(s) == [] || !IsTrimmed(Words(s)[0][0])
  {
    if s != "" && IsTrimmed(s[0]) {
      assert s == [s[0]] + s[1..];
      if IsSpace(s[0]) {
        SpaceInFront(s[0], s[1..]);
        TrimLeftExactly(s[1..]);
      } else {
        LetterInFront(s[0], s[1..]);
        TrimLeftSize(s[1..]);
        SizeInFront(s[0], s[1..]);
      }
    }
  }

  lemma {:induction false} SpaceAtEnd(s: string, c: char)
    requires IsSpace(c)
    ensures Scan(s + [c]) == Scan(s)
  {
    if s == "" {
      assert s + [c] == [c] + "";
      SpaceInFront(c, "");
    } else {
      SpaceAtEnd(s[1..], c);
      assert (s + [c])[1..] == s[1..] + [c];
    }
  }

  lemma {:induction false} SizeAtEnd(s: string, c: char)
    requires !IsSpace(c)
    ensures Size(Words(s + [c])) == Size(Words(s)) + 1
  {
    if s == "" {
      assert s + [c] == [c] + "";
      SizeInFront(c, "");
    } else {
      SizeAtEnd(s[1..], c);
      assert s + [c] == [s[0]] + (s[1..] + [c]) && s == [s[0]] + s[1..];
      SizeInFront(s[0], s[1..] + [c]);
      SizeInFront(s[0], s[1..]);
    }
  }

  function LastChar(words: seq<string>): char
    requires words != [] && words[|words| - 1] != ""
  {
    var w := words[|words| - 1];
    w[|w| - 1]
  }

  predicate EndsIn(words: seq<string>, c: char) {
    words != [] && words[|words| - 1] != "" && LastChar(words) == c
  }

  /** The same of the scanned text, whose front word is one of its words only if it is not empty. */
  predicate ScanEndsIn(w: Scanned, c: char) {
    if w.words == [] then w.open != "" && w.open[|w.open| - 1] == c else EndsIn(w.words, c)
  }

  lemma {:induction false} CloseEndsIn(w: Scanned, c: char)
    requires ScanEndsIn(w, c)
    ensures EndsIn(Close(w), c)
  {
  }

  lemma {:induction false} ScanAtEnd(s: string, c: char)
    requires !IsSpace(c)
    ensures ScanEndsIn(Scan(s + [c]), c)
  {
    if s == "" {
      assert s + [c] == [c] + "";
      LetterInFront(c, "");
    } else {
      var rest := s[1..] + [c];
      ScanAtEnd(s[1..], c);
      assert s + [c] == [s[0]] + rest;
      if IsSpace(s[0]) {
        SpaceInFront(s[0], rest);
        CloseEndsIn(Scan(rest), c);
      } else {
        LetterInFront(s[0], rest);
      }
    }
  }

  /** A character at the end joins the last word or makes a new one, and is the last character of it. */
  lemma {:induction false} LetterAtEnd(s: string, c: char)
    requires !IsSpace(c)
    ensures Size(Words(s + [c])) == Size(Words(s)) + 1
    ensures EndsIn(Words(s + [c]), c)
  {
    SizeAtEnd(s, c);
    ScanAtEnd(s, c);
    CloseEndsIn(Scan(s + [c]), c);
  }

  lemma {:induction false} TrimRightSize(s: string)
    ensures Size(Words(TrimRight(s))) <= Size(Words(s))
  {
    if s != "" && IsTrimmed(s[|s| - 1]) {
      var n := |s| - 1;
      TrimRightSize(s[..n]);
      assert s == s[..n] + [s[n]];
      if IsSpace(s[n]) {
        SpaceAtEnd(s[..n], s[n]);
      } else {
        LetterAtEnd(s[..n], s[n]);
      }
    }
  }

  lemma {:induction false} TrimRightExactly(s: string)
    ensures Words(TrimRight(s)) == Words(s) <==> Words(s) == [] || !IsTrimmed(LastChar(Words(s)))
  {
    if s != "" {
      var n := |s| - 1;
      assert s == s[..n] + [s[n]];
      if IsSpace(s[n]) {
        SpaceAtEnd(s[..n], s[n]);
        TrimRightExactly(s[..n]);
      } else {
        LetterAtEnd(s[..n], s[n]);
        if IsTrimmed(s[n]) {
          TrimRightSize(s[..n]);
        }
      }
    }
  }

  /** The first and the last visible character are ones that trimming leaves alone. */
  predicate PlainEdges(words: seq<string>)
    requires NoneEmpty(words)
  {
    words == [] || (!IsTrimmed(words[0][0]) && !IsTrimmed(LastChar(words)))
  }

  lemma {:induction false} AppendNoneEmpty(a: seq<string>, b: seq<string>)
    requires a != [] && NoneEmpty(a) && NoneEmpty(b)
    ensures NoneEmpty(a + b) && (a + b)[0] == a[0]
    ensures LastChar(a + b) == if b == [] then LastChar(a) else LastChar(b)
  {
    assert b == [] ==> a + b == a;
  }

  lemma {:induction false} AllPiecesEdges(words: seq<string>)
    requires NoneEmpty(words)
    ensures NoneEmpty(AllPieces(words))
    ensures words == [] <==> AllPieces(words) == []
    ensures words != [] ==> AllPieces(words)[0][0] == words[0][0] && LastChar(AllPieces(words)) == LastChar(words)
  {
    if words != [] {
      PiecesNonEmpty(words[0]);
      AllPiecesEdges(words[1..]);
      AppendNoneEmpty(Pieces(words[0]), AllPieces(words[1..]));
    }
  }

  /**
   * The words of the output are the words of the input cut at every seam, in order: exactly when the
   * text does not start or end, but for `\s`, with some other white space that trimming takes away.
   */
  lemma {:induction false} SpacingKeepsWordsExactly(s: string)
    ensures Words(Space(s)) == AllPieces(Words(s)) <==> PlainEdges(Words(s))
  {
    var collapsed := Collapse(AfterLetters(AfterDigits(s)));
    SeamsAllSplit(s);
    SplitWords(s);
    CollapseScan(SplitSeams(s));
    assert Words(collapsed) == AllPieces(Words(s));
    AllPiecesEdges(Words(s));
    TrimLeftExactly(collapsed);
    TrimRightExactly(TrimLeft(collapsed));
    if Words(TrimLeft(collapsed)) != Words(collapsed) {
      TrimLeftShrinks(collapsed);
      TrimRightSize(TrimLeft(collapsed));
    }
  }

  lemma {:induction false} TrimLeftShrinks(s: string)
    requires Words(TrimLeft(s)) != Words(s)
    ensures Size(Words(TrimLeft(s))) < Size(Words(s))
  {
    if s != "" && IsTrimmed(s[0]) {
      assert s == [s[0]] + s[1..];
      SizeInFront(s[0], s[1..]);
      if IsSpace(s[0]) {
        SpaceInFront(s[0], s[1..]);
        TrimLeftShrinks(s[1..]);
      } else {
        TrimLeftSize(s[1..]);
      }
    }
  }

  lemma {:induction false} TrimRightShrinks(s: string)
    requires Words(TrimRight(s)) != Words(s)
    ensures Size(Words(TrimRight(s))) < Size(Words(s))
  {
    if s != "" && IsTrimmed(s[|s| - 1]) {
      var n := |s| - 1;
      assert s == s[..n] + [s[n]];
      if IsSpace(s[n]) {
        SpaceAtEnd(s[..n], s[n]);
        TrimRightShrinks(s[..n]);
      } else {
        LetterAtEnd(s[..n], s[n]);
        TrimRightSize(s[..n]);
      }
    }
  }

  function Joined(words: seq<string>): string {
    if words == [] then "" else words[0] + Joined(words[1..])
  }

  lemma {:induction false} JoinedAppend(a: seq<string>, b: seq<string>)
    ensures Joined(a + b) == Joined(a) + Joined(b)
  {
    if a == [] {
      assert a + b == b;
    } else {
      assert (a + b)[1..] == a[1..] + b;
      JoinedAppend(a[1..], b);
    }
  }

  lemma {:induction false} JoinedCons(w: string, words: seq<string>)
    ensures Joined([w] + words) == w + Joined(words)
  {
    assert ([w] + words)[1..] == words;
  }

  lemma {:induction false} ConsJoined(c: char, words: seq<string>)
    requires words != []
    ensures ([c] + words[0]) + Joined(words[1..]) == [c] + Joined(words)
  {
  }

  lemma {:induction false} PiecesJoin(w: string)
    ensures Joined(Pieces(w)) == w
  {
    if |w| > 1 {
      PiecesJoin(w[1..]);
      var rest := Pieces(w[1..]);
      assert w == [w[0]] + w[1..];
      if Seam(w[0], w[1]) {
        JoinedCons([w[0]], rest);
      } else {
        JoinedCons([w[0]] + rest[0], rest[1..]);
        ConsJoined(w[0], rest);
      }
    } else {
      assert Pieces(w)[1..] == [] && w + "" == w;
    }
  }

  lemma {:induction false} AllPiecesJoin(words: seq<string>)
    ensures Joined(AllPieces(words)) == Joined(words)
  {
    if words != [] {
      AllPiecesJoin(words[1..]);
      PiecesJoin(words[0]);
      JoinedAppend(Pieces(words[0]), AllPieces(words[1..]));
    }
  }

  lemma {:induction false} JoinedSize(words: seq<string>)
    ensures |Joined(words)| == Size(words)
  {
    if words != [] {
      JoinedSize(words[1..]);
    }
  }

  /** No visible character is lost, added or moved: exactly when none at the edges is trimmed away. */
  lemma {:induction false} SpacingKeepsText(s: string)
    ensures Joined(Words(Space(s))) == Joined(Words(s)) <==> PlainEdges(Words(s))
  {
    var collapsed := Collapse(AfterLetters(AfterDigits(s)));
    SeamsAllSplit(s);
    SplitWords(s);
    CollapseScan(SplitSeams(s));
    SpacingKeepsWordsExactly(s);
    AllPiecesJoin(Words(s));
    JoinedSize(AllPieces(Words(s)));
    JoinedSize(Words(Space(s)));
    TrimLeftSize(collapsed);
    TrimRightSize(TrimLeft(collapsed));
    if Words(TrimLeft(collapsed)) != Words(collapsed) {
      TrimLeftShrinks(collapsed);
    } else if Words(Space(s)) != Words(collapsed) {
      TrimRightShrinks(TrimLeft(collapsed));
    }
  }

  /** A leading non-breaking space is no white space to `\s`, so it opens a word, and trimming takes it. */
  lemma {:induction false} NonBreakingSpaceLost()
    ensures Words("\U{00a0}a") == ["\U{00a0}a"] && Space("\U{00a0}a") == "a"
  {
    var s := "\U{00a0}a";
    assert s == ['\U{00a0}'] + "a" && "a" == ['a'] + "";
    LetterInFront('a', "");
    LetterInFront('\U{00a0}', "a");
    SeamsAllSplit(s);
    assert SplitSeams("a") == "a" && Collapse("a") == "a";
    assert s[1..] == "a" && "a"[1..] == "";
    assert TrimLeft(s) == TrimLeft("a") == "a";
  }

  // --- What every output looks like ---

  predicate SeamFree(s: string) {
    forall i :: 0 <= i < |s| - 1 ==> !Seam(s[i], s[i + 1])
  }

  /** Nothing that trimming takes away stands at either end. */
  predicate TrimmedEnds(s: string) {
    s == "" || (!IsTrimmed(s[0]) && !IsTrimmed(s[|s| - 1]))
  }

  lemma {:induction false} SeamFreeInFront(c: char, s: string)
    requires SeamFree(s) && (s != "" ==> !Seam(c, s[0]))
    ensures SeamFree([c] + s)
  {
  }

  lemma {:induction false} SplitSeamFree(s: string)
    ensures SeamFree(SplitSeams(s))
    ensures s != "" ==> SplitSeams(s) != "" && SplitSeams(s)[0] == s[0]
  {
    if |s| > 1 {
      var c, rest := s[0], s[1..];
      SplitSeamFree(rest);
      assert s == [c] + rest;
      SplitSeamsInFront(c, rest);
      if Seam(c, rest[0]) {
        SeamFreeInFront(' ', SplitSeams(rest));
        SeamFreeInFront(c, [' '] + SplitSeams(rest));
      } else {
        SeamFreeInFront(c, SplitSeams(rest));
      }
    }
  }

  lemma {:induction false} MatchSeamFree(c: char, x: char, t: string)
    requires SeamFree(t) && (t != "" ==> !Seam(x, t[0]))
    ensures SeamFree([c, ' ', x] + t) && ([c, ' ', x] + t)[0] == c
  {
    SeamFreeInFront(x, t);
    SeamFreeInFront(' ', [x] + t);
    SeamFreeInFront(c, [' '] + ([x] + t));
    assert [c, ' ', x] + t == [c] + ([' '] + ([x] + t));
  }

  lemma {:induction false} SeamFreeBehind(s: string, k: nat)
    requires SeamFree(s) && k < |s|
    ensures SeamFree(s[k + 1..]) && (s[k + 1..] != "" ==> !Seam(s[k], s[k + 1..][0]))
  {
  }

  lemma {:induction false} CollapseSeamFree(s: string)
    requires SeamFree(s)
    ensures SeamFree(Collapse(s))
    ensures s != "" ==> Collapse(s) != "" && Collapse(s)[0] == s[0]
    decreases |s|
  {
    if s != "" {
      var c, k := s[0], SpaceRun(s[1..]);
      if !IsSpace(c) && k > 0 && k + 1 < |s| {
        SeamFreeBehind(s, k + 1);
        CollapseSeamFree(s[k + 2..]);
        MatchSeamFree(c, s[k + 1], Collapse(s[k + 2..]));
      } else {
        SeamFreeBehind(s, 0);
        CollapseSeamFree(s[1..]);
        SeamFreeInFront(c, Collapse(s[1..]));
      }
    }
  }

  lemma {:induction false} TrimLeftClean(s: string)
    requires SeamFree(s)
    ensures SeamFree(TrimLeft(s)) && (TrimLeft(s) != "" ==> !IsTrimmed(TrimLeft(s)[0]))
  {
    if s != "" && IsTrimmed(s[0]) {
      TrimLeftClean(s[1..]);
    }
  }

  lemma {:induction false} TrimRightClean(s: string)
    requires SeamFree(s) && (s != "" ==> !IsTrimmed(s[0]))
    ensures SeamFree(TrimRight(s)) && TrimmedEnds(TrimRight(s))
  {
    if s != "" && IsTrimmed(s[|s| - 1]) {
      TrimRightClean(s[..|s| - 1]);
    }
  }

  /** No output has a digit next to a letter, and all are trimmed. */
  lemma {:induction false} SpaceClean(s: string)
    ensures SeamFree(Space(s)) && TrimmedEnds(Space(s))
  {
    SeamsAllSplit(s);
    SplitSeamFree(s);
    CollapseSeamFree(SplitSeams(s));
    TrimLeftClean(Collapse(SplitSeams(s)));
    TrimRightClean(TrimLeft(Collapse(SplitSeams(s))));
  }

  /** The classes by code point: digits, letters, `\s`, and the Unicode property White_Space. */
  lemma {:induction false} CharacterClasses(c: char)
    ensures var v := c as int;
            && (IsDigit(c) <==> 48 <= v <= 57)
            && (IsLetter(c) <==> 65 <= v <= 90 || 97 <= v <= 122 || 19968 <= v <= 40869)
            && (IsSpace(c) <==> v == 9 || v == 10 || v == 12 || v == 13 || v == 32)
            && (IsTrimmed(c) <==> 9 <= v <= 13 || v == 32 || v == 133 || v == 160 || v == 5760 || 8192 <= v <= 8202
                                  || v == 8232 || v == 8233 || v == 8239 || v == 8287 || v == 12288)
  {
  }
}
