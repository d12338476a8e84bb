/**
 * Formatting with positional placeholders: `(k%v)` is rewritten to the plain directive `%v`, and the
 * arguments are put into the order in which the placeholders ask for them.
 */
module Formatting {
  import opened Spacing

  /** How formatting ends: with a text, with an index fault, or in library output this model leaves open. */
  datatype Outcome = Text(text: string) | Panics | Open

  // --- The regular expression `\(\d+(%(\d*(\.)?\d*)?[a-z])\)` ---

  predicate IsVerb(c: char) {
    'a' <= c <= 'z'
  }

  function DigitRun(s: string): (n: nat)
    ensures n <= |s|
  {
    if s != "" && IsDigit(s[0]) then 1 + DigitRun(s[1..]) else 0
  }

  /**
   * The length of the directive at the start: `%`, digits, perhaps a dot and digits, a lower-case letter. Zero
   * if there is none.
   */
  function DirectiveLen(s: string): (n: nat)
    ensures n <= |s|
  {
    if s == "" || s[0] != '%' then 0
    else
      var i := 1 + DigitRun(s[1..]);
      var j := if i < |s| && s[i] == '.' then i + 1 + DigitRun(s[i + 1..]) else i;
      if j < |s| && IsVerb(s[j]) then j + 1 else 0
  }

  function PlaceholderLen(s: string): (n: nat)
    ensures n <= |s|
  {
    if s == "" || s[0] != '(' then 0
    else
      var d := DigitRun(s[1..]);
      var e := DirectiveLen(s[1 + d..]);
      if d == 0 || e == 0 || 1 + d + e >= |s| || s[1 + d + e] != ')' then 0 else d + e + 2
  }

  datatype Placeholder = Placeholder(digits: string, directive: string)

  /** What the match at the start captures. */
  function Captured(s: string): Placeholder
    requires PlaceholderLen(s) > 0
  {
    var d := 1 + DigitRun(s[1..]);
    Placeholder(s[1..d], s[d..PlaceholderLen(s) - 1])
  }

  function Behind(s: string): (t: string)
    requires PlaceholderLen(s) > 0
    ensures |t| < |s|
  {
    s[PlaceholderLen(s)..]
  }

  /** All matches, leftmost first and not overlapping. */
  function FindAll(s: string): seq<Placeholder>
    decreases |s|
  {
    if s == "" then []
    else if PlaceholderLen(s) == 0 then FindAll(s[1..])
    else [Captured(s)] + FindAll(Behind(s))
  }

  /** Each match replaced by its directive. */
  function ReplaceAll(s: string): string
    decreases |s|
  {
    if s == "" then ""
    else if PlaceholderLen(s) == 0 then [s[0]] + ReplaceAll(s[1..])
    else Captured(s).directive + ReplaceAll(Behind(s))
  }

  // --- Formatting ---

  const MAX_INT := 0x7fff_ffff_ffff_ffff

  function Value(digits: string): nat {
    if digits == "" then 0
    else 10 * Value(digits[..|digits| - 1]) + ValueOf(digits[|digits| - 1])
  }

  function ValueOf(c: char): nat {
    if IsDigit(c) then c as int - '0' as int else 0
  }

  datatype Arranged<T> = InOrder(args: seq<T>) | Overflow | OutOfRange

  /** The arguments the placeholders ask for, in their order, or what stops the loop first. */
  function Arrange<T>(placeholders: seq<Placeholder>, args: seq<T>): Arranged<T> {
    if placeholders == [] then InOrder([])
    else
      match Arrange(placeholders[..|placeholders| - 1], args)
      case Overflow => Overflow
      case OutOfRange => OutOfRange
      case InOrder(list) =>
        var index := Value(placeholders[|placeholders| - 1].digits);
        if index > MAX_INT then Overflow
        else if !(1 <= index <= |args|) then OutOfRange
        else InOrder(list + [args[index - 1]])
  }

  const MAX_NUMBER := 1_000_000

  /** The library reads a number digit by digit and stops with what it holds when that is too large to go on. */
  predicate Readable(digits: string) {
    digits == "" || Value(digits[..|digits| - 1]) <= MAX_NUMBER
  }

  /** The width and the precision of a directive are readable; another one ends the library's formatting. */
  predicate Modest(directive: string) {
    directive == "" ||
    (var i := 1 + DigitRun(directive[1..]);
     && Readable(directive[1..i])
     && (i < |directive| ==> Readable(directive[i + 1..][..DigitRun(directive[i + 1..])])))
  }

  /**
   * `fmt.Sprintf` where it is plain: text without `%` is copied, and each directive of the form above
   * with readable numbers renders the next argument. All other formats are left open.
   */
  function Fmt<T>(format: string, args: seq<T>, render: (string, T) -> string): Outcome
    decreases format, 1
  {
    if format == "" then (if args == [] then Text("") else Open)
    else if format[0] != '%' then
      match Fmt(format[1..], args, render)
      case Text(t) => Text([format[0]] + t)
      case _ => Open
    else FmtDirective(format, DirectiveLen(format), args, render)
  }

  /** The directive of length `n` at the start, and what follows it. */
  function FmtDirective<T>(format: string, n: nat, args: seq<T>, render: (string, T) -> string): Outcome
    requires n <= |format|
    decreases format, 0
  {
    if n == 0 || args == [] || !Modest(format[..n]) then Open
    else
      match Fmt(format[n..], args[1..], render)
      case Text(t) => Text(render(format[..n], args[0]) + t)
      case _ => Open
  }

  function Fill<T>(format: string, args: seq<T>, render: (string, T) -> string): Outcome {
    var placeholders := FindAll(format);
    if |placeholders| != |args| then Fmt(format, args, render)
    else
      match Arrange(placeholders, args)
      case InOrder(list) => Fmt(ReplaceAll(format), list, render)
      case OutOfRange => Panics
      case Overflow => Open
  }

  function Formatted<T>(format: string, args: seq<T>, render: (string, T) -> string): Outcome {
    if format == "" then Text("")
    else
      match Fill(format, args, render)
      case Text(t) => Text(Space(t))
      case Panics => Panics
      case Open => Open
  }

  lemma {:induction false} ArrangeLast<T>(placeholders: seq<Placeholder>, last: Placeholder, args: seq<T>)
    ensures Arrange(placeholders + [last], args) ==
            if !Arrange(placeholders, args).InOrder? then Arrange(placeholders, args)
            else if Value(last.digits) > MAX_INT then Overflow
            else if !(1 <= Value(last.digits) <= |args|) then OutOfRange
            else InOrder(Arrange(placeholders, args).args + [args[Value(last.digits) - 1]])
  {
    assert (placeholders + [last])[..|placeholders|] == placeholders;
  }

  lemma {:induction false} ArrangeStops<T>(placeholders: seq<Placeholder>, args: seq<T>, k: nat)
    requires k <= |placeholders| && !Arrange(placeholders[..k], args).InOrder?
    ensures Arrange(placeholders, args) == Arrange(placeholders[..k], args)
  {
    if k == |placeholders| {
      assert placeholders[..k] == placeholders;
    } else {
      var before := placeholders[..|placeholders| - 1];
      assert before[..k] == placeholders[..k];
      ArrangeStops(before, args, k);
    }
  }

  method Sprintf<T>(format: string, args: seq<T>, render: (string, T) -> string) returns (result: Outcome)
    ensures result == Formatted(format, args, render)
  {
    if format == "" {
      return Text("");
    }
    var text: Outcome;
    var placeholderList := FindAll(format);
    if |placeholderList| == |args| {
      var list: seq<T> := [];
      for i := 0 to |placeholderList|
        invariant Arrange(placeholderList[..i], args) == InOrder(list)
      {
        assert placeholderList[..i + 1] == placeholderList[..i] + [placeholderList[i]];
        ArrangeLast(placeholderList[..i], placeholderList[i], args);
        var index := Value(placeholderList[i].digits);
        if index > MAX_INT {
          ArrangeStops(placeholderList, args, i + 1);
          return Open;
        }
        if !(1 <= index <= |args|) {
          ArrangeStops(placeholderList, args, i + 1);
          return Panics;
        }
        list := list + [args[index - 1]];
      }
      assert placeholderList[..|placeholderList|] == placeholderList;
      text := Fmt(ReplaceAll(format), list, render);
    } else {
      text := Fmt(format, args, render);
    }
    if text.Text? {
      return Text(Space(text.text));
    }
    return text;
  }

  // --- Templates ---

  /** A template as its author means it: literal text, and holes that name their argument. */
  datatype Segment = Literal(text: string) | Hole(digits: string, directive: string)

  ghost predicate AllDigits(s: string) {
    s != "" && forall i :: 0 <= i < |s| ==> IsDigit(s[i])
  }

  ghost predicate PercentFree(s: string) {
    forall i :: 0 <= i < |s| ==> s[i] != '%'
  }

  ghost predicate ProperSegment(segment: Segment) {
    match segment
    case Literal(text) => PercentFree(text)
    case Hole(digits, directive) => AllDigits(digits) && directive != "" && DirectiveLen(directive) == |directive|
  }

  ghost predicate Proper(segments: seq<Segment>) {
    forall i :: 0 <= i < |segments| ==> ProperSegment(segments[i])
  }

  ghost predicate AllModest(segments: seq<Segment>) {
    forall i :: 0 <= i < |segments| && segments[i].Hole? ==> Modest(segments[i].directive)
  }

  function SegmentText(segment: Segment): string {
    match segment
    case Literal(text) => text
    case Hole(digits, directive) => "(" + (digits + (directive + ")"))
  }

  function Print(segments: seq<Segment>): string {
    if segments == [] then "" else SegmentText(segments[0]) + Print(segments[1..])
  }

  function SegmentHoles(segment: Segment): seq<Placeholder> {
    match segment
    case Literal(_) => []
    case Hole(digits, directive) => [Placeholder(digits, directive)]
  }

  function Holes(segments: seq<Segment>): seq<Placeholder> {
    if segments == [] then [] else SegmentHoles(segments[0]) + Holes(segments[1..])
  }

  function SegmentStripped(segment: Segment): string {
    match segment
    case Literal(text) => text
    case Hole(_, directive) => directive
  }

  /** The template with each hole reduced to its directive. */
  function Stripped(segments: seq<Segment>): string {
    if segments == [] then "" else SegmentStripped(segments[0]) + Stripped(segments[1..])
  }

  lemma {:induction false} SegmentInFront(segment: Segment, rest: seq<Segment>)
    ensures Print([segment] + rest) == SegmentText(segment) + Print(rest)
    ensures Holes([segment] + rest) == SegmentHoles(segment) + Holes(rest)
    ensures Stripped([segment] + rest) == SegmentStripped(segment) + Stripped(rest)
  {
    assert ([segment] + rest)[1..] == rest;
  }

  predicate InRange(placeholders: seq<Placeholder>, count: nat) {
    forall i :: 0 <= i < |placeholders| ==> 1 <= Value(placeholders[i].digits) <= count
  }

  lemma {:induction false} HolesOfTail(segments: seq<Segment>, count: nat)
    requires segments != [] && InRange(Holes(segments), count)
    ensures InRange(Holes(segments[1..]), count)
    ensures segments[0].Hole? ==> 1 <= Value(segments[0].digits) <= count
  {
    var all, rest := Holes(segments), Holes(segments[1..]);
    var n := |all| - |rest|;
    assert forall i :: 0 <= i < |rest| ==> rest[i] == all[i + n];
    if segments[0].Hole? {
      assert all[0] == Placeholder(segments[0].digits, segments[0].directive);
    }
  }

  /** What a hole shows: the argument it names, if there is one. */
  function Shown<T>(segment: Segment, args: seq<T>, render: (string, T) -> string): string {
    match segment
    case Literal(text) => text
    case Hole(digits, directive) =>
      if 1 <= Value(digits) <= |args| then render(directive, args[Value(digits) - 1]) else ""
  }

  /** The meaning of a template: each hole shows the argument it names. */
  function Substitute<T>(segments: seq<Segment>, args: seq<T>, render: (string, T) -> string): string {
    if segments == [] then "" else Shown(segments[0], args, render) + Substitute(segments[1..], args, render)
  }

  // --- The regular expression as a grammar ---

  predicate Lower(c: char) {
    97 <= c as int <= 122
  }

  predicate Digits(s: string) {
    forall i :: 0 <= i < |s| ==> 48 <= s[i] as int <= 57
  }

  /** The precision of a directive: nothing, or a dot and digits, of which there may be none. */
  predicate Precision(p: string) {
    p == "" || (p[0] == '.' && Digits(p[1..]))
  }

  function DirectiveText(width: string, precision: string, verb: char): string {
    "%" + (width + (precision + [verb]))
  }

  ghost predicate IsDirective(d: string) {
    exists width, precision, verb ::
      Digits(width) && Precision(precision) && Lower(verb) && d == DirectiveText(width, precision, verb)
  }

  ghost predicate IsPlaceholder(s: string) {
    exists digits, directive ::
      digits != "" && Digits(digits) && IsDirective(directive) && s == "(" + (digits + (directive + ")"))
  }

  lemma {:induction false} DigitRunTaken(s: string) returns (digits: string, t: string)
    ensures s == digits + t && Digits(digits) && |digits| == DigitRun(s)
    ensures t != "" ==> !IsDigit(t[0])
  {
    if s != "" && IsDigit(s[0]) {
      var rest;
      rest, t := DigitRunTaken(s[1..]);
      digits := [s[0]] + rest;
      assert s == [s[0]] + s[1..];
    } else {
      digits, t := "", s;
    }
  }

  lemma {:induction false} DigitRunEnds(a: string, b: string)
    requires Digits(a) && (b != "" ==> !IsDigit(b[0]))
    ensures DigitRun(a + b) == |a|
  {
    DigitRunAll(a);
    DigitRunAppend(a, b);
  }

  /** How long the precision at the start of a text is. */
  function PrecisionLen(t: string): nat {
    if t != "" && t[0] == '.' then 1 + DigitRun(t[1..]) else 0
  }

  lemma {:induction false} BehindWidth(width: string, t: string)
    requires Digits(width) && (t != "" ==> !IsDigit(t[0]))
    ensures var j := PrecisionLen(t);
            DirectiveLen("%" + (width + t)) == if j < |t| && IsVerb(t[j]) then 1 + |width| + j + 1 else 0
  {
    var s, i := "%" + (width + t), 1 + |width|;
    assert s[1..] == width + t;
    DigitRunEnds(width, t);
    assert s[i..] == t;
    if t != "" && t[0] == '.' {
      assert s[i + 1..] == t[1..];
    }
  }

  lemma {:induction false} BehindPrecision(precision: string, u: string)
    requires Precision(precision) && (u != "" ==> !IsDigit(u[0]))
    requires precision == "" && u != "" ==> u[0] != '.'
    ensures PrecisionLen(precision + u) == |precision|
  {
    if precision != "" {
      assert (precision + u)[1..] == precision[1..] + u;
      DigitRunEnds(precision[1..], u);
    } else {
      assert precision + u == u;
    }
  }

  lemma {:induction false} VerbDecides(width: string, precision: string, u: string)
    requires Digits(width) && Precision(precision) && (u != "" ==> !IsDigit(u[0]))
    requires precision == "" && u != "" ==> u[0] != '.'
    ensures DirectiveLen("%" + (width + (precision + u))) ==
            if u != "" && IsVerb(u[0]) then 2 + |width| + |precision| else 0
  {
    var t := precision + u;
    BehindPrecision(precision, u);
    BehindWidth(width, t);
  }

  lemma {:induction false} PrecisionTaken(t: string) returns (precision: string, u: string)
    requires t != "" ==> !IsDigit(t[0])
    ensures t == precision + u && Precision(precision) && (u != "" ==> !IsDigit(u[0]))
    ensures precision == "" && u != "" ==> u[0] != '.'
  {
    if t != "" && t[0] == '.' {
      var digits;
      digits, u := DigitRunTaken(t[1..]);
      precision := ['.'] + digits;
      assert t == ['.'] + t[1..];
      assert precision[1..] == digits;
    } else {
      precision, u := "", t;
    }
  }

  lemma {:induction false} FrontOfDirective(width: string, precision: string, u: string)
    requires u != ""
    ensures var s := "%" + (width + (precision + u));
            s[..2 + |width| + |precision|] == DirectiveText(width, precision, u[0])
  {
  }

  lemma {:induction false} DirectiveWritten(s: string)
    requires DirectiveLen(s) > 0
    ensures IsDirective(s[..DirectiveLen(s)])
  {
    var width, t := DigitRunTaken(s[1..]);
    var precision, u := PrecisionTaken(t);
    assert s == "%" + (width + (precision + u));
    VerbDecides(width, precision, u);
    FrontOfDirective(width, precision, u);
  }

  lemma {:induction false} VerbFollowed(width: string, precision: string, verb: char, t: string)
    ensures DirectiveText(width, precision, verb) + t == "%" + (width + (precision + ([verb] + t)))
  {
  }

  lemma {:induction false} DirectiveRead(d: string, t: string)
    requires IsDirective(d)
    ensures d != "" && DirectiveLen(d + t) == |d|
  {
    var width, precision, verb :|
      Digits(width) && Precision(precision) && Lower(verb) && d == DirectiveText(width, precision, verb);
    VerbFollowed(width, precision, verb, t);
    VerbDecides(width, precision, [verb] + t);
  }

  lemma {:induction false} DirectivePrefix(s: string, k: nat)
    requires k <= |s| && IsDirective(s[..k])
    ensures DirectiveLen(s) == k
  {
    DirectiveRead(s[..k], s[k..]);
    assert s == s[..k] + s[k..];
  }

  /** What counts as a directive at the start of a text, exactly. */
  lemma {:induction false} DirectiveExactly(s: string)
    ensures DirectiveLen(s) > 0 ==> IsDirective(s[..DirectiveLen(s)])
    ensures forall k :: 0 <= k <= |s| && IsDirective(s[..k]) ==> DirectiveLen(s) == k
  {
    if DirectiveLen(s) > 0 {
      DirectiveWritten(s);
    }
    forall k | 0 <= k <= |s| && IsDirective(s[..k])
      ensures DirectiveLen(s) == k
    {
      DirectivePrefix(s, k);
    }
  }

  lemma {:induction false} BehindDigits(digits: string, t: string)
    requires Digits(digits) && (t != "" ==> !IsDigit(t[0]))
    ensures var e := DirectiveLen(t);
            PlaceholderLen("(" + (digits + t)) ==
            if digits != "" && e > 0 && e < |t| && t[e] == ')' then 1 + |digits| + e + 1 else 0
  {
    var s := "(" + (digits + t);
    assert s[1..] == digits + t;
    DigitRunEnds(digits, t);
    assert s[1 + |digits|..] == t;
    assert forall k :: 0 <= k < |t| ==> s[1 + |digits| + k] == t[k];
  }

  lemma {:induction false} FrontOfPlaceholder(digits: string, t: string, e: nat)
    requires e < |t| && t[e] == ')'
    ensures ("(" + (digits + t))[..1 + |digits| + e + 1] == "(" + (digits + (t[..e] + ")"))
  {
  }

  lemma {:induction false} PlaceholderWritten(s: string)
    requires PlaceholderLen(s) > 0
    ensures IsPlaceholder(s[..PlaceholderLen(s)])
  {
    var digits, t := DigitRunTaken(s[1..]);
    assert s == "(" + (digits + t);
    BehindDigits(digits, t);
    DirectiveWritten(t);
    FrontOfPlaceholder(digits, t, DirectiveLen(t));
  }

  lemma {:induction false} PlaceholderRead(digits: string, directive: string, t: string)
    requires digits != "" && Digits(digits) && IsDirective(directive)
    ensures PlaceholderLen("(" + (digits + (directive + (")" + t)))) == 2 + |digits| + |directive|
  {
    var tail := directive + (")" + t);
    DirectiveRead(directive, ")" + t);
    assert tail[|directive|] == ')' && tail[0] == '%';
    BehindDigits(digits, tail);
  }

  lemma {:induction false} PlaceholderFollowed(digits: string, directive: string, t: string)
    ensures "(" + (digits + (directive + ")")) + t == "(" + (digits + (directive + (")" + t)))
  {
  }

  lemma {:induction false} PlaceholderPrefix(s: string, k: nat)
    requires k <= |s| && IsPlaceholder(s[..k])
    ensures PlaceholderLen(s) == k
  {
    PlaceholderAt(s[..k], s[k..]);
    assert s == s[..k] + s[k..];
  }

  /** What counts as a placeholder at the start of a text, exactly. */
  lemma {:induction false} PlaceholderExactly(s: string)
    ensures PlaceholderLen(s) > 0 ==> IsPlaceholder(s[..PlaceholderLen(s)])
    ensures forall k :: 0 <= k <= |s| && IsPlaceholder(s[..k]) ==> PlaceholderLen(s) == k
  {
    if PlaceholderLen(s) > 0 {
      PlaceholderWritten(s);
    }
    forall k | 0 <= k <= |s| && IsPlaceholder(s[..k])
      ensures PlaceholderLen(s) == k
    {
      PlaceholderPrefix(s, k);
    }
  }

  lemma {:induction false} PlaceholderAt(p: string, t: string)
    requires IsPlaceholder(p)
    ensures PlaceholderLen(p + t) == |p|
  {
    var digits, directive :|
      digits != "" && Digits(digits) && IsDirective(directive) && p == "(" + (digits + (directive + ")"));
    PlaceholderFollowed(digits, directive, t);
    PlaceholderRead(digits, directive, t);
  }

  // --- Numbers ---

  /** A number in decimal. */
  function Decimal(n: nat): string {
    if n < 10 then [(48 + n) as char] else Decimal(n / 10) + [(48 + n % 10) as char]
  }

  lemma {:induction false} ValueOfDecimal(n: nat)
    ensures Value(Decimal(n)) == n && Digits(Decimal(n))
  {
    if n < 10 {
      assert Decimal(n)[..0] == "";
    } else {
      ValueOfDecimal(n / 10);
      assert Decimal(n)[..|Decimal(n)| - 1] == Decimal(n / 10);
    }
  }

  /** The numbers that `fmt` reads: up to the largest one with a million before its last digit. */
  lemma {:induction false} ReadableExactly(digits: string)
    requires Digits(digits)
    ensures Readable(digits) <==> Value(digits) <= 10_000_009
  {
  }

  // --- Scanning a template gives back its holes ---

  lemma {:induction false} DigitRunAppend(a: string, b: string)
    ensures DigitRun(a) < |a| ==> DigitRun(a + b) == DigitRun(a)
    ensures DigitRun(a) == |a| ==> DigitRun(a + b) == |a| + DigitRun(b)
  {
    if a == "" {
      assert a + b == b;
    } else {
      assert (a + b)[1..] == a[1..] + b;
      DigitRunAppend(a[1..], b);
    }
  }

  lemma {:induction false} DigitRunAll(s: string)
    requires forall i :: 0 <= i < |s| ==> IsDigit(s[i])
    ensures DigitRun(s) == |s|
  {
    if s != "" {
      DigitRunAll(s[1..]);
    }
  }

  lemma {:induction false} DirectiveAppend(d: string, t: string)
    requires d != "" && DirectiveLen(d) == |d|
    ensures DirectiveLen(d + t) == |d|
  {
    var i := 1 + DigitRun(d[1..]);
    assert (d + t)[1..] == d[1..] + t;
    DigitRunAppend(d[1..], t);
    if i < |d| && d[i] == '.' {
      assert (d + t)[i + 1..] == d[i + 1..] + t;
      DigitRunAppend(d[i + 1..], t);
    }
  }

  lemma {:induction false} HoleParts(digits: string, directive: string, t: string)
    ensures var s := "(" + (digits + (directive + ")")) + t;
            var d, e := |digits|, |directive|;
            && |s| == d + e + 2 + |t|
            && s[0] == '(' && s[1 + d + e] == ')'
            && s[1..] == digits + (directive + (")" + t))
            && s[1 + d..] == directive + (")" + t)
            && s[1..1 + d] == digits && s[1 + d..d + e + 1] == directive && s[d + e + 2..] == t
  {
  }

  lemma {:induction false} PlaceholderInFront(digits: string, directive: string, t: string)
    requires AllDigits(digits) && directive != "" && DirectiveLen(directive) == |directive|
    ensures var s := "(" + (digits + (directive + ")")) + t;
            PlaceholderLen(s) == |digits| + |directive| + 2 && DigitRun(s[1..]) == |digits|
  {
    var tail := directive + (")" + t);
    HoleParts(digits, directive, t);
    DigitRunAll(digits);
    assert tail[0] == '%' && DigitRun(tail) == 0;
    DigitRunAppend(digits, tail);
    DirectiveAppend(directive, ")" + t);
  }

  /** In a printed template no run of digits at the front leads to a `%`: every hole opens with a parenthesis first. */
  lemma {:induction false} NoPercentAfterDigits(segments: seq<Segment>)
    requires Proper(segments)
    ensures var s := Print(segments); DigitRun(s) < |s| ==> s[DigitRun(s)] != '%'
  {
    if segments != [] {
      NoPercentAfterDigits(segments[1..]);
      assert ProperSegment(segments[0]);
      match segments[0]
      case Literal(text) => DigitRunAppend(text, Print(segments[1..]));
      case Hole(_, _) => assert Print(segments)[0] == '(';
    }
  }

  lemma {:induction false} LiteralLeads(text: string, rest: seq<Segment>)
    requires Proper([Literal(text)] + rest) && text != ""
    ensures Proper([Literal(text[1..])] + rest)
    ensures Print([Literal(text)] + rest) == [text[0]] + Print([Literal(text[1..])] + rest)
    ensures Stripped([Literal(text)] + rest) == [text[0]] + Stripped([Literal(text[1..])] + rest)
    ensures Holes([Literal(text)] + rest) == Holes([Literal(text[1..])] + rest)
  {
    ShorterIsProper(text, rest);
    SegmentInFront(Literal(text), rest);
    SegmentInFront(Literal(text[1..]), rest);
    Uncons(text, Print(rest));
    Uncons(text, Stripped(rest));
  }

  lemma {:induction false} Uncons(text: string, t: string)
    requires text != ""
    ensures text + t == [text[0]] + (text[1..] + t)
  {
  }

  lemma {:induction false} ShorterIsProper(text: string, rest: seq<Segment>)
    requires Proper([Literal(text)] + rest) && text != ""
    ensures Proper([Literal(text[1..])] + rest)
  {
    var long, short := [Literal(text)] + rest, [Literal(text[1..])] + rest;
    assert ProperSegment(long[0]);
    assert forall i :: 1 <= i < |short| ==> short[i] == long[i];
  }

  lemma {:induction false} NoMatch(c: char, tail: string)
    requires DigitRun(tail) < |tail| ==> tail[DigitRun(tail)] != '%'
    ensures PlaceholderLen([c] + tail) == 0
  {
    var s := [c] + tail;
    assert s[1..] == tail;
    var d := DigitRun(tail);
    assert s[1 + d..] == tail[d..];
  }

  lemma {:induction false} NoPlaceholderInLiteral(text: string, rest: seq<Segment>)
    requires Proper([Literal(text)] + rest) && text != ""
    ensures PlaceholderLen([text[0]] + Print([Literal(text[1..])] + rest)) == 0
  {
    ShorterIsProper(text, rest);
    NoPercentAfterDigits([Literal(text[1..])] + rest);
    NoMatch(text[0], Print([Literal(text[1..])] + rest));
  }

  lemma {:induction false} ScanCharacter(c: char, t: string)
    requires PlaceholderLen([c] + t) == 0
    ensures FindAll([c] + t) == FindAll(t) && ReplaceAll([c] + t) == [c] + ReplaceAll(t)
  {
    assert ([c] + t)[1..] == t;
  }

  lemma {:induction false} MatchAt(s: string, digits: string, directive: string, t: string)
    requires PlaceholderLen(s) == |digits| + |directive| + 2 && DigitRun(s[1..]) == |digits|
    requires s[1..1 + |digits|] == digits && s[1 + |digits|..|digits| + |directive| + 1] == directive
    requires s[|digits| + |directive| + 2..] == t
    ensures Captured(s) == Placeholder(digits, directive) && Behind(s) == t
  {
    assert PlaceholderLen(s) - 1 == |digits| + |directive| + 1;
  }

  lemma {:induction false} MatchInFront(digits: string, directive: string, t: string)
    requires ProperSegment(Hole(digits, directive))
    ensures var s := SegmentText(Hole(digits, directive)) + t;
            PlaceholderLen(s) > 0 && Captured(s) == Placeholder(digits, directive) && Behind(s) == t
  {
    PlaceholderInFront(digits, directive, t);
    HoleParts(digits, directive, t);
    MatchAt("(" + (digits + (directive + ")")) + t, digits, directive, t);
  }

  lemma {:induction false} ScanMatch(s: string)
    requires PlaceholderLen(s) > 0
    ensures FindAll(s) == [Captured(s)] + FindAll(Behind(s))
    ensures ReplaceAll(s) == Captured(s).directive + ReplaceAll(Behind(s))
  {
  }

  lemma {:induction false} ScanHole(digits: string, directive: string, t: string)
    requires ProperSegment(Hole(digits, directive))
    ensures FindAll(SegmentText(Hole(digits, directive)) + t) == [Placeholder(digits, directive)] + FindAll(t)
    ensures ReplaceAll(SegmentText(Hole(digits, directive)) + t) == directive + ReplaceAll(t)
  {
    MatchInFront(digits, directive, t);
    ScanMatch(SegmentText(Hole(digits, directive)) + t);
  }

  function TextOf(segments: seq<Segment>): nat {
    if segments != [] && segments[0].Literal? then |segments[0].text| else 0
  }

  /** Scanning a printed template finds exactly its holes, and rewriting strips exactly them. */
  lemma {:induction false} ScanRecovers(segments: seq<Segment>)
    requires Proper(segments)
    ensures FindAll(Print(segments)) == Holes(segments)
    ensures ReplaceAll(Print(segments)) == Stripped(segments)
    decreases |segments|, TextOf(segments)
  {
    if segments != [] {
      var rest := segments[1..];
      assert ProperSegment(segments[0]) && segments == [segments[0]] + rest;
      match segments[0]
      case Literal(text) =>
        if text == "" {
          ScanRecovers(rest);
          EmptyLiteral(rest);
        } else {
          LiteralLeads(text, rest);
          ScanRecovers([Literal(text[1..])] + rest);
          NoPlaceholderInLiteral(text, rest);
          ScanCharacter(text[0], Print([Literal(text[1..])] + rest));
        }
      case Hole(digits, directive) =>
        ScanRecovers(rest);
        ScanHole(digits, directive, Print(rest));
    }
  }

  lemma {:induction false} EmptyLiteral(rest: seq<Segment>)
    ensures Print([Literal("")] + rest) == Print(rest)
    ensures Holes([Literal("")] + rest) == Holes(rest)
    ensures Stripped([Literal("")] + rest) == Stripped(rest)
  {
    SegmentInFront(Literal(""), rest);
  }

  // --- Rewriting and reordering means substituting ---

  lemma {:induction false} BothEnds<T>(first: T, middle: seq<T>, last: T)
    ensures [first] + (middle + [last]) == ([first] + middle) + [last]
  {
  }

  lemma {:induction false} ArrangeCons<T>(
    first: Placeholder, rest: seq<Placeholder>, args: seq<T>, list: seq<T>)
    requires 1 <= Value(first.digits) <= |args| <= MAX_INT && Arrange(rest, args) == InOrder(list)
    ensures Arrange([first] + rest, args) == InOrder([args[Value(first.digits) - 1]] + list)
    decreases |rest|, 1
  {
    var arg := args[Value(first.digits) - 1];
    if rest == [] {
      ArrangeLast([], first, args);
      assert [] + [first] == [first] + rest && [] + [arg] == [arg] + list;
    } else {
      var before, last := rest[..|rest| - 1], rest[|rest| - 1];
      assert rest == before + [last];
      ArrangeConsStep(first, before, last, args, list);
    }
  }

  lemma {:induction false} ArrangeConsStep<T>(
    first: Placeholder, before: seq<Placeholder>, last: Placeholder, args: seq<T>, list: seq<T>)
    requires 1 <= Value(first.digits) <= |args| <= MAX_INT && Arrange(before + [last], args) == InOrder(list)
    ensures Arrange([first] + (before + [last]), args) == InOrder([args[Value(first.digits) - 1]] + list)
    decreases |before| + 1, 0
  {
    var arg := args[Value(first.digits) - 1];
    ArrangeLast(before, last, args);
    var m := Arrange(before, args).args;
    ArrangeCons(first, before, args, m);
    ArrangeLast([first] + before, last, args);
    BothEnds(first, before, last);
    BothEnds(arg, m, args[Value(last.digits) - 1]);
  }

  lemma {:induction false} CharacterInFront<T>(c: char, format: string, args: seq<T>, render: (string, T) -> string)
    requires c != '%' && Fmt(format, args, render).Text?
    ensures Fmt([c] + format, args, render) == Text([c] + Fmt(format, args, render).text)
  {
    assert ([c] + format)[1..] == format;
  }

  lemma {:induction false} LiteralInFront<T>(text: string, format: string, args: seq<T>, render: (string, T) -> string)
    requires PercentFree(text) && Fmt(format, args, render).Text?
    ensures Fmt(text + format, args, render) == Text(text + Fmt(format, args, render).text)
  {
    if text == "" {
      assert text + format == format;
      assert text + Fmt(format, args, render).text == Fmt(format, args, render).text;
    } else {
      LiteralInFront(text[1..], format, args, render);
      CharacterInFront(text[0], text[1..] + format, args, render);
      Uncons(text, format);
      Uncons(text, Fmt(format, args, render).text);
    }
  }

  predicate ProperDirective(directive: string) {
    directive != "" && DirectiveLen(directive) == |directive| && Modest(directive)
  }

  lemma {:induction false} DirectiveInFront<T>(
    directive: string, format: string, arg: T, args: seq<T>, render: (string, T) -> string, t: string)
    requires ProperDirective(directive) && Fmt(format, args, render) == Text(t)
    ensures Fmt(directive + format, [arg] + args, render) == Text(render(directive, arg) + t)
  {
    DirectiveAppend(directive, format);
    assert (directive + format)[..|directive|] == directive && (directive + format)[|directive|..] == format;
    assert ([arg] + args)[1..] == args;
  }

  /** The arguments that the holes ask for, in the order of the holes. */
  function Asked<T>(segments: seq<Segment>, args: seq<T>): seq<T> {
    if segments == [] then []
    else
      var rest := Asked(segments[1..], args);
      match segments[0]
      case Literal(_) => rest
      case Hole(digits, _) => if 1 <= Value(digits) <= |args| then [args[Value(digits) - 1]] + rest else rest
  }

  /** What rewriting and reordering needs of a segment. */
  ghost predicate Fits(segment: Segment, count: nat) {
    match segment
    case Literal(text) => PercentFree(text)
    case Hole(digits, directive) => ProperDirective(directive) && 1 <= Value(digits) <= count
  }

  ghost predicate AllFit(segments: seq<Segment>, count: nat) {
    segments == [] || (Fits(segments[0], count) && AllFit(segments[1..], count))
  }

  lemma {:induction false} ProperFits(segments: seq<Segment>, count: nat)
    requires Proper(segments) && AllModest(segments) && InRange(Holes(segments), count)
    ensures AllFit(segments, count)
  {
    if segments != [] {
      assert ProperSegment(segments[0]);
      HolesOfTail(segments, count);
      ProperFits(segments[1..], count);
    }
  }

  lemma {:induction false} ArrangeAsked<T>(segments: seq<Segment>, args: seq<T>)
    requires AllFit(segments, |args|) && |args| <= MAX_INT
    ensures Arrange(Holes(segments), args) == InOrder(Asked(segments, args))
  {
    if segments != [] {
      var rest := segments[1..];
      ArrangeAsked(rest, args);
      match segments[0]
      case Literal(_) => assert [] + Holes(rest) == Holes(rest);
      case Hole(digits, directive) =>
        ArrangeCons(Placeholder(digits, directive), Holes(rest), args, Asked(rest, args));
    }
  }

  ghost predicate Faithful<T>(segments: seq<Segment>, args: seq<T>, render: (string, T) -> string) {
    Fmt(Stripped(segments), Asked(segments, args), render) == Text(Substitute(segments, args, render))
  }

  lemma {:induction false} FmtLiteral<T>(segments: seq<Segment>, args: seq<T>, render: (string, T) -> string)
    requires segments != [] && segments[0].Literal? && Fits(segments[0], |args|)
    requires Faithful(segments[1..], args, render)
    ensures Faithful(segments, args, render)
  {
    LiteralInFront(segments[0].text, Stripped(segments[1..]), Asked(segments[1..], args), render);
  }

  lemma {:induction false} FmtHole<T>(segments: seq<Segment>, args: seq<T>, render: (string, T) -> string)
    requires segments != [] && segments[0].Hole? && Fits(segments[0], |args|)
    requires Faithful(segments[1..], args, render)
    ensures Faithful(segments, args, render)
  {
    var rest, arg := segments[1..], args[Value(segments[0].digits) - 1];
    DirectiveInFront(segments[0].directive, Stripped(rest), arg, Asked(rest, args), render,
                     Substitute(rest, args, render));
  }

  lemma {:induction false} FmtAsked<T>(segments: seq<Segment>, args: seq<T>, render: (string, T) -> string)
    requires AllFit(segments, |args|)
    ensures Faithful(segments, args, render)
  {
    if segments != [] {
      FmtAsked(segments[1..], args, render);
      if segments[0].Literal? {
        FmtLiteral(segments, args, render);
      } else {
        FmtHole(segments, args, render);
      }
    }
  }

  /**
   * The meaning is preserved: a template with readable numbers and as many in-range holes as there
   * are arguments formats to the spaced text in which every hole shows the argument it names, whatever
   * their order.
   */
  lemma {:induction false} FormattingPreservesMeaning<T>(
    segments: seq<Segment>, args: seq<T>, render: (string, T) -> string)
    requires Proper(segments) && AllModest(segments) && InRange(Holes(segments), |args|)
    requires |args| == |Holes(segments)| <= MAX_INT
    ensures Formatted(Print(segments), args, render) == Text(Space(Substitute(segments, args, render)))
  {
    ScanRecovers(segments);
    ProperFits(segments, |args|);
    ArrangeAsked(segments, args);
    FmtAsked(segments, args, render);
  }

  // --- Formats without placeholders ---

  /** A format as `fmt` itself means it: literal text, and directives for the arguments in their order. */
  datatype Piece = Words(text: string) | Directive(directive: string)

  ghost predicate ProperPiece(piece: Piece) {
    match piece
    case Words(text) => PercentFree(text)
    case Directive(directive) => ProperDirective(directive)
  }

  ghost predicate ProperPieces(pieces: seq<Piece>) {
    pieces == [] || (ProperPiece(pieces[0]) && ProperPieces(pieces[1..]))
  }

  function PieceText(piece: Piece): string {
    match piece
    case Words(text) => text
    case Directive(directive) => directive
  }

  function PrintPieces(pieces: seq<Piece>): string {
    if pieces == [] then "" else PieceText(pieces[0]) + PrintPieces(pieces[1..])
  }

  function Directives(pieces: seq<Piece>): nat {
    if pieces == [] then 0 else (if pieces[0].Directive? then 1 else 0) + Directives(pieces[1..])
  }

  /** The directives show the arguments from `k` on, one after the other. */
  function InTurn<T>(pieces: seq<Piece>, args: seq<T>, k: nat, render: (string, T) -> string): string {
    if pieces == [] then ""
    else
      match pieces[0]
      case Words(text) => text + InTurn(pieces[1..], args, k, render)
      case Directive(directive) =>
        if k < |args| then render(directive, args[k]) + InTurn(pieces[1..], args, k + 1, render) else ""
  }

  lemma {:induction false} OpenDirective<T>(
    directive: string, format: string, args: seq<T>, render: (string, T) -> string)
    requires ProperDirective(directive)
    requires args != [] ==> !Fmt(format, args[1..], render).Text?
    ensures Fmt(directive + format, args, render) == Open
  {
    DirectiveAppend(directive, format);
    assert (directive + format)[|directive|..] == format;
    assert (directive + format)[0] == directive[0];
  }

  lemma {:induction false} OpenLiteral<T>(text: string, format: string, args: seq<T>, render: (string, T) -> string)
    requires PercentFree(text) && !Fmt(format, args, render).Text?
    ensures !Fmt(text + format, args, render).Text?
  {
    if text == "" {
      assert text + format == format;
    } else {
      OpenLiteral(text[1..], format, args, render);
      assert text + format == [text[0]] + (text[1..] + format);
      assert ([text[0]] + (text[1..] + format))[1..] == text[1..] + format;
    }
  }

  /** With an argument for each directive they are shown in turn; with too few or too many the output is open. */
  lemma {:induction false} FmtPieces<T>(pieces: seq<Piece>, args: seq<T>, k: nat, render: (string, T) -> string)
    requires ProperPieces(pieces) && k <= |args|
    ensures Fmt(PrintPieces(pieces), args[k..], render) ==
            if Directives(pieces) == |args| - k then Text(InTurn(pieces, args, k, render)) else Open
  {
    if pieces != [] {
      var rest := PrintPieces(pieces[1..]);
      match pieces[0]
      case Words(text) =>
        FmtPieces(pieces[1..], args, k, render);
        FmtNeverPanics(text + rest, args[k..], render);
        if Directives(pieces) == |args| - k {
          LiteralInFront(text, rest, args[k..], render);
        } else {
          OpenLiteral(text, rest, args[k..], render);
        }
      case Directive(directive) =>
        if k == |args| {
          OpenDirective(directive, rest, args[k..], render);
        } else {
          FmtPieces(pieces[1..], args, k + 1, render);
          assert args[k..] == [args[k]] + args[k + 1..] && args[k..][1..] == args[k + 1..];
          if Directives(pieces) == |args| - k {
            DirectiveInFront(directive, rest, args[k], args[k + 1..], render, InTurn(pieces[1..], args, k + 1, render));
          } else {
            OpenDirective(directive, rest, args[k..], render);
          }
        }
    }
  }

  lemma {:induction false} NothingToReplace(s: string)
    requires FindAll(s) == []
    ensures ReplaceAll(s) == s
  {
    if s != "" {
      assert PlaceholderLen(s) == 0;
      NothingToReplace(s[1..]);
      assert s == [s[0]] + s[1..];
    }
  }

  /** Some arguments are asked for by position, and as many as there are. */
  predicate Positional(format: string, count: nat) {
    FindAll(format) != [] && |FindAll(format)| == count
  }

  /**
   * Formats that are not positional: without placeholders, or with another number of them than there are
   * arguments, the directives show the arguments in turn, and the result is spaced all the same.
   */
  lemma {:induction false} PlainFormatting<T>(pieces: seq<Piece>, args: seq<T>, render: (string, T) -> string)
    requires ProperPieces(pieces)
    ensures PrintPieces(pieces) != "" && !Positional(PrintPieces(pieces), |args|) ==>
              Formatted(PrintPieces(pieces), args, render) ==
              if Directives(pieces) == |args| then Text(Space(InTurn(pieces, args, 0, render))) else Open
  {
    var format := PrintPieces(pieces);
    FmtPieces(pieces, args, 0, render);
    assert args[0..] == args;
    if FindAll(format) == [] {
      NothingToReplace(format);
      assert Arrange(FindAll(format), args) == InOrder([]);
    }
  }

  /** Whatever the format and the arguments: a text has no digit next to a letter, and its ends are trimmed. */
  lemma {:induction false} EveryTextSpaced<T>(format: string, args: seq<T>, render: (string, T) -> string)
    ensures var outcome := Formatted(format, args, render);
            outcome.Text? ==> SeamFree(outcome.text) && TrimmedEnds(outcome.text)
  {
    if Fill(format, args, render).Text? {
      SpaceClean(Fill(format, args, render).text);
    }
  }

  // --- Faults ---

  /** The first index that names no argument, if it still fits a machine integer. */
  predicate FaultsAt(placeholders: seq<Placeholder>, count: nat, k: nat)
    requires k < |placeholders|
  {
    && InRange(placeholders[..k], count)
    && !(1 <= Value(placeholders[k].digits) <= count)
    && Value(placeholders[k].digits) < 0x8000_0000_0000_0000
  }

  /**
   * When formatting faults, for any text at all: with as many placeholders as arguments, exactly when one of
   * them is such an index.
   */
  lemma {:induction false} PanicsExactly<T>(format: string, args: seq<T>, render: (string, T) -> string)
    requires format != "" && |args| <= MAX_INT
    ensures Formatted(format, args, render).Panics? <==>
            var placeholders := FindAll(format);
            && |placeholders| == |args|
            && exists k :: 0 <= k < |placeholders| && FaultsAt(placeholders, |args|, k)
  {
    var placeholders := FindAll(format);
    FmtNeverPanics(format, args, render);
    if |placeholders| == |args| {
      ArrangeOutcome(placeholders, args);
      if Arrange(placeholders, args).InOrder? {
        FmtNeverPanics(ReplaceAll(format), Arrange(placeholders, args).args, render);
      }
    }
  }

  lemma {:induction false} FmtNeverPanics<T>(format: string, args: seq<T>, render: (string, T) -> string)
    ensures !Fmt(format, args, render).Panics?
  {
  }

  predicate Faults(placeholders: seq<Placeholder>, count: nat) {
    exists k :: 0 <= k < |placeholders| && FaultsAt(placeholders, count, k)
  }

  lemma {:induction false} FaultsAppend(before: seq<Placeholder>, last: Placeholder, count: nat)
    ensures Faults(before + [last], count) <==>
            || Faults(before, count)
            || (InRange(before, count) && !(1 <= Value(last.digits) <= count)
                && Value(last.digits) < 0x8000_0000_0000_0000)
  {
    var all, n := before + [last], |before|;
    assert all[..n] == before && all[n] == last;
    forall k | 0 <= k < n
      ensures FaultsAt(before, count, k) <==> FaultsAt(all, count, k)
    {
      assert before[..k] == all[..k] && before[k] == all[k];
    }
    assert FaultsAt(all, count, n) <==>
           && InRange(before, count) && !(1 <= Value(last.digits) <= count)
           && Value(last.digits) < 0x8000_0000_0000_0000;
  }

  lemma {:induction false} InRangeAppend(before: seq<Placeholder>, last: Placeholder, count: nat)
    ensures InRange(before + [last], count) <==> InRange(before, count) && 1 <= Value(last.digits) <= count
  {
    var all := before + [last];
    assert all[|before|] == last;
    assert forall i :: 0 <= i < |before| ==> all[i] == before[i];
  }

  lemma {:induction false} ArrangeOutcome<T>(placeholders: seq<Placeholder>, args: seq<T>)
    requires |args| <= MAX_INT
    ensures Arrange(placeholders, args).InOrder? <==> InRange(placeholders, |args|)
    ensures Arrange(placeholders, args).OutOfRange? <==> Faults(placeholders, |args|)
  {
    if placeholders != [] {
      var before, last := placeholders[..|placeholders| - 1], placeholders[|placeholders| - 1];
      assert placeholders == before + [last];
      ArrangeOutcome(before, args);
      ArrangeLast(before, last, args);
      InRangeAppend(before, last, |args|);
      FaultsAppend(before, last, |args|);
    }
  }
}
