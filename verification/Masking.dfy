/** The two masking rules of the log filter. Texts are sequences of code points; Go counts their UTF-8 bytes. */
module Masking {
  import opened Wrappers

  datatype Rule = Stars | Phone

  function RuleOf(field: string): Option<Rule> {
    if field == "password" || field == "Password" then Some(Stars)
    else if field == "phone" || field == "Phone" then Some(Phone)
    else None
  }

  function Utf8Len(c: char): nat {
    var v := c as int;
    if v < 0x80 then 1 else if v < 0x800 then 2 else if v < 0x1_0000 then 3 else 4
  }

  function ByteLen(s: string): nat {
    if s == "" then 0 else Utf8Len(s[0]) + ByteLen(s[1..])
  }

  function Repeat(n: nat): (s: string)
    ensures |s| == n && forall i :: 0 <= i < n ==> s[i] == '*'
  {
    seq(n, i => '*')
  }

  /** Where one byte more is needed. */
  lemma {:induction false} Utf8Bounds()
    ensures Utf8Len('\U{007f}') == 1 && Utf8Len('\U{0080}') == 2 && Utf8Len('\U{07ff}') == 2
    ensures Utf8Len('\U{0800}') == 3 && Utf8Len('\U{ffff}') == 3 && Utf8Len('\U{10000}') == 4
  {
  }

  /** How many characters at the front of a phone number stay readable. */
  function Prefix(phone: string): nat {
    if ByteLen(phone) >= 10 then 3 else 2
  }

  function Masked(phone: string): (masked: string)
    ensures |masked| == |phone|
    ensures forall i :: 0 <= i < |phone| ==>
              masked[i] == if Prefix(phone) <= i < |phone| - 2 then '*' else phone[i]
  {
    seq(|phone|, i requires 0 <= i < |phone| => if Prefix(phone) <= i < |phone| - 2 then '*' else phone[i])
  }

  method MaskPhone(phone: string) returns (masked: string)
    ensures masked == Masked(phone)
  {
    var pre, suf := 0, 0;
    if ByteLen(phone) >= 10 {
      pre, suf := 3, 2;
    } else {
      pre, suf := 2, 2;
    }
    var rs := new char[|phone|](i requires 0 <= i < |phone| => phone[i]);
    var i := pre;
    while i < rs.Length - suf
      invariant pre <= i
      invariant forall k :: 0 <= k < rs.Length ==>
                  rs[k] == if pre <= k < i && k < rs.Length - suf then '*' else phone[k]
    {
      rs[i] := '*';
      i := i + 1;
    }
    masked := rs[..];
  }

  function Transform(rule: Rule, raw: string): string {
    match rule
    case Stars => Repeat(ByteLen(raw))
    case Phone => Masked(raw)
  }

  predicate Ascii(s: string) {
    forall i :: 0 <= i < |s| ==> s[i] as int < 0x80
  }

  lemma {:induction false} AsciiBytes(s: string)
    requires Ascii(s)
    ensures ByteLen(s) == |s|
  {
    if s != "" {
      AsciiBytes(s[1..]);
    }
  }

  lemma {:induction false} ByteLenAppend(a: string, b: string)
    ensures ByteLen(a + b) == ByteLen(a) + ByteLen(b)
  {
    if a == "" {
      assert a + b == b;
    } else {
      assert (a + b)[1..] == a[1..] + b;
      ByteLenAppend(a[1..], b);
    }
  }

  /** The bytes left once the middle is masked: it can fall below ten, and then another masking shows less. */
  function MaskedBytes(phone: string): nat
    requires |phone| >= 5
  {
    ByteLen(phone[..3]) + (|phone| - 5) + ByteLen(phone[|phone| - 2..])
  }

  lemma {:induction false} MaskedBytesAre(phone: string)
    requires |phone| >= 5 && ByteLen(phone) >= 10
    ensures ByteLen(Masked(phone)) == MaskedBytes(phone)
  {
    var n := |phone|;
    var middle := Repeat(n - 5);
    assert Masked(phone) == phone[..3] + (middle + phone[n - 2..]);
    AsciiBytes(middle);
    ByteLenAppend(phone[..3], middle + phone[n - 2..]);
    ByteLenAppend(middle, phone[n - 2..]);
  }

  lemma {:induction false} ByteLenMonotone(a: string, b: string)
    requires |a| == |b| && forall i :: 0 <= i < |a| ==> Utf8Len(a[i]) <= Utf8Len(b[i])
    ensures ByteLen(a) <= ByteLen(b)
  {
    if a != "" {
      assert forall i :: 0 <= i < |a| - 1 ==> a[1..][i] == a[i + 1] && b[1..][i] == b[i + 1];
      ByteLenMonotone(a[1..], b[1..]);
    }
  }

  lemma {:induction false} SamePrefixSameMask(phone: string)
    requires |phone| < 5 || Prefix(Masked(phone)) == Prefix(phone)
    ensures Masked(Masked(phone)) == Masked(phone)
  {
  }

  /**
   * Masking a phone number twice is masking it once, exactly unless its characters beyond ASCII made it
   * count ten bytes, masking them makes it count fewer, and its third character is still readable.
   */
  lemma {:induction false} PhoneIdempotentExactly(phone: string)
    ensures Masked(Masked(phone)) == Masked(phone) <==>
            !(|phone| >= 5 && ByteLen(phone) >= 10 && MaskedBytes(phone) < 10 && phone[2] != '*')
  {
    ByteLenMonotone(Masked(phone), phone);
    if |phone| < 5 || Prefix(Masked(phone)) == Prefix(phone) {
      SamePrefixSameMask(phone);
    }
    if |phone| >= 5 && ByteLen(phone) >= 10 {
      MaskedBytesAre(phone);
      var once := Masked(phone);
      assert once[2] == phone[2];
      if MaskedBytes(phone) < 10 {
        assert Masked(once)[2] == '*';
        assert Masked(once) == once[2 := '*'];
      }
    }
  }

  lemma {:induction false} TwoIdeographsBytes()
    ensures ByteLen("123\U{4e2d}\U{4e2d}45") == 11
  {
    assert "123\U{4e2d}\U{4e2d}45" == "123" + ("\U{4e2d}\U{4e2d}" + "45");
    AsciiBytes("123");
    AsciiBytes("45");
    assert "\U{4e2d}\U{4e2d}" == "\U{4e2d}" + "\U{4e2d}" && ByteLen("\U{4e2d}") == 3;
    ByteLenAppend("\U{4e2d}", "\U{4e2d}");
    ByteLenAppend("123", "\U{4e2d}\U{4e2d}" + "45");
    ByteLenAppend("\U{4e2d}\U{4e2d}", "45");
  }

  /** Eleven bytes become seven on the way: a number that masking twice shows less of. */
  lemma {:induction false} PhoneMaskedTwice()
    ensures Masked("123\U{4e2d}\U{4e2d}45") == "123**45" && Masked("123**45") == "12***45"
  {
    TwoIdeographsBytes();
    AsciiBytes("123**45");
  }

  lemma {:induction false} StarsIdempotent(raw: string)
    ensures Transform(Stars, Transform(Stars, raw)) == Transform(Stars, raw)
  {
    AsciiBytes(Repeat(ByteLen(raw)));
  }

  // --- Several rules on one text ---

  function ApplyAll(rules: seq<Rule>, raw: string): string {
    if rules == [] then raw else Transform(rules[|rules| - 1], ApplyAll(rules[..|rules| - 1], raw))
  }

  /** On ASCII all that counts is which rules applied: stars win over a phone mask, in any order and any number. */
  lemma {:induction false} ApplyAllAscii(rules: seq<Rule>, raw: string)
    requires Ascii(raw)
    ensures ApplyAll(rules, raw) ==
            if rules == [] then raw else if Stars in rules then Repeat(|raw|) else Masked(raw)
  {
    if rules != [] {
      var before, rule := rules[..|rules| - 1], rules[|rules| - 1];
      assert rules == before + [rule];
      ApplyAllAscii(before, raw);
      AsciiBytes(raw);
      AsciiBytes(Repeat(|raw|));
      AsciiBytes(Masked(raw));
      assert Masked(Repeat(|raw|)) == Repeat(|raw|);
      SamePrefixSameMask(raw);
    }
  }

  /** So on ASCII doing it all again changes nothing. */
  lemma {:induction false} ApplyAllIdempotent(rules: seq<Rule>, raw: string)
    requires Ascii(raw)
    ensures ApplyAll(rules, ApplyAll(rules, raw)) == ApplyAll(rules, raw)
  {
    ApplyAllAscii(rules, raw);
    ApplyAllAscii(rules, ApplyAll(rules, raw));
    AsciiBytes(raw);
    AsciiBytes(Masked(raw));
    SamePrefixSameMask(raw);
  }
}
