/** Dial targets: `service.namespace:50051` and the parser that takes them apart again. */
module Targets {

  datatype Parsed = Parsed(service: string, namespace: string) | Malformed

  const PORT := ":50051"

  function Target(service: string, namespace: string): string {
    service + "." + namespace + PORT
  }

  predicate HasSuffix(s: string, suffix: string) {
    |suffix| <= |s| && s[|s| - |suffix|..] == suffix
  }

  function TrimSuffix(s: string, suffix: string): string {
    if HasSuffix(s, suffix) then s[..|s| - |suffix|] else s
  }

  /** Splits at every dot, keeping empty parts, so that a dot-free text is its own only part. */
  function SplitDots(s: string): (parts: seq<string>)
    ensures |parts| >= 1
  {
    if s == "" then [""]
    else
      var rest := SplitDots(s[1..]);
      if s[0] == '.' then [""] + rest
      else [[s[0]] + rest[0]] + rest[1..]
  }

  function ParseTarget(target: string): Parsed {
    var parts := SplitDots(TrimSuffix(target, PORT));
    if |parts| != 2 then Malformed else Parsed(parts[0], parts[1])
  }

  predicate DotFree(s: string) {
    '.' !in s
  }

  /** A dot ends the first part: what follows it is split on its own. */
  lemma {:induction false} SplitAtDot(a: string, b: string)
    requires DotFree(a)
    ensures SplitDots(a + "." + b) == [a] + SplitDots(b)
  {
    if a == "" {
      assert ("." + b)[1..] == b;
    } else {
      assert (a + "." + b)[1..] == a[1..] + "." + b;
      SplitAtDot(a[1..], b);
      assert a == [a[0]] + a[1..];
    }
  }

  /** The first part is dot-free, and the text is that part alone or that part, a dot and the others. */
  lemma {:induction false} FirstPart(s: string)
    ensures var parts := SplitDots(s);
            var first := parts[0];
            && DotFree(first)
            && |first| <= |s| && s[..|first|] == first
            && (|parts| == 1 ==> s == first)
            && (|parts| > 1 ==> |first| < |s| && s[|first|] == '.' && SplitDots(s[|first| + 1..]) == parts[1..])
  {
    if s != "" && s[0] != '.' {
      FirstPart(s[1..]);
      var first := SplitDots(s[1..])[0];
      assert s[..|first| + 1] == [s[0]] + s[1..][..|first|];
      assert |first| + 1 < |s| ==> s[|first| + 2..] == s[1..][|first| + 1..];
    }
  }

  /** A text has exactly the two parts `a` and `b` precisely when it is `a.b` with both dot-free. */
  lemma {:induction false} TwoParts(s: string, a: string, b: string)
    ensures SplitDots(s) == [a, b] <==> s == a + "." + b && DotFree(a) && DotFree(b)
  {
    if SplitDots(s) == [a, b] {
      FirstPart(s);
      FirstPart(s[|a| + 1..]);
      assert s == s[..|a|] + [s[|a|]] + s[|a| + 1..];
    }
    if s == a + "." + b && DotFree(a) && DotFree(b) {
      SplitAtDot(a, b);
      OnePart(b);
    }
  }

  lemma {:induction false} OnePart(s: string)
    requires DotFree(s)
    ensures SplitDots(s) == [s]
  {
    if s != "" {
      OnePart(s[1..]);
      assert s == [s[0]] + s[1..];
    }
  }

  lemma {:induction false} PartCount(s: string, t: string)
    ensures |SplitDots(s + t)| == |SplitDots(s)| + |SplitDots(t)| - 1
  {
    if s == "" {
      assert s + t == t;
    } else {
      assert (s + t)[1..] == s[1..] + t;
      PartCount(s[1..], t);
    }
  }

  lemma {:induction false} TrimPort(s: string)
    ensures TrimSuffix(s + PORT, PORT) == s
  {
    assert (s + PORT)[|s|..] == PORT;
  }

  /**
   * What the parser accepts, exactly: `a.b` with dot-free halves, written either with the port or,
   * when the text does not itself end in the port, without it.
   */
  lemma {:induction false} ParseTargetAccepts(t: string, service: string, namespace: string)
    ensures ParseTarget(t) == Parsed(service, namespace) <==>
            && DotFree(service) && DotFree(namespace)
            && (t == service + "." + namespace + ":50051"
                || (t == service + "." + namespace && !HasSuffix(t, ":50051")))
  {
    TwoParts(TrimSuffix(t, PORT), service, namespace);
    TrimPort(service + "." + namespace);
    if HasSuffix(t, PORT) {
      assert t == t[..|t| - |PORT|] + PORT;
    }
  }

  /** Printing and parsing: a printed target reads back as its own names exactly when both are dot-free. */
  lemma {:induction false} TargetRoundTrip(service: string, namespace: string)
    ensures ParseTarget(Target(service, namespace)) ==
            if DotFree(service) && DotFree(namespace) then Parsed(service, namespace) else Malformed
  {
    var t := Target(service, namespace);
    TrimPort(service + "." + namespace);
    if DotFree(service) && DotFree(namespace) {
      ParseTargetAccepts(t, service, namespace);
    } else {
      PartCount(service + ".", namespace);
      PartCount(service, ".");
      assert SplitDots(".") == ["", ""];
      FirstPart(service);
      FirstPart(namespace);
    }
  }

  lemma {:induction false} TargetInjective(service: string, n1: string, n2: string)
    ensures Target(service, n1) == Target(service, n2) <==> n1 == n2
  {
    var k := |service| + 1;
    if Target(service, n1) == Target(service, n2) {
      assert n1 == Target(service, n1)[k..k + |n1|];
      assert n2 == Target(service, n2)[k..k + |n2|];
    }
  }
}
