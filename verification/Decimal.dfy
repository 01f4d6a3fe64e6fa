/**
RemoveZero (src/utils.cpp:224-240): the text of a floating-point number, as printed with "%.8e" or
"%.16e", loses the trailing zeros of its fraction in place.
*/
module Decimal {

  // ---------------------------------------------------------------- the text function

  // The last 'e', looked for no further left than position 2.
  function FindE(s: string, pos: nat): (e: nat)
    requires pos <= |s|
    ensures e <= pos && (pos > 2 ==> 2 <= e < pos)
  {
    if pos <= 2 then pos else if s[pos - 1] == 'e' || pos == 3 then pos - 1 else FindE(s, pos - 1)
  }

  // The last character before pos that is not a zero, looked for no further left than position 1.
  function LastNonZero(s: string, pos: nat): (p: nat)
    requires pos <= |s|
    ensures p <= pos && (pos > 1 ==> 1 <= p < pos)
  {
    if pos <= 1 then pos else if s[pos - 1] != '0' || pos == 2 then pos - 1 else LastNonZero(s, pos - 1)
  }

  // Where the kept front of the text ends.
  function FrontEnd(s: string): (n: nat)
    requires |s| >= 3
    ensures 0 < n <= FindE(s, |s|)
  {
    var p := LastNonZero(s, FindE(s, |s|));
    if s[p] == '.' then p else p + 1
  }

  function Shortened(s: string): string
    requires |s| >= 3
  {
    s[..FrontEnd(s)] + s[FindE(s, |s|)..]
  }

  // memmove to a lower address, which copies upwards.
  method MoveDown(a: array<char>, dst: nat, src: nat, n: nat)
    requires dst <= src && src + n <= a.Length
    modifies a
    ensures a[..dst + n] == old(a[..dst]) + old(a[src..src + n])
  {
    for i := 0 to n
      invariant forall j :: 0 <= j < dst ==> a[j] == old(a[j])
      invariant forall j :: dst <= j < dst + i ==> a[j] == old(a[src + (j - dst)])
      invariant forall j :: src + i <= j < a.Length ==> a[j] == old(a[j])
    {
      a[dst + i] := a[src + i];
    }
  }

  // Every printed number, infinity or nan has at least three characters.
  method RemoveZero(str: array<char>) returns (size: nat)
    requires str.Length >= 3
    modifies str
    ensures size <= str.Length
    ensures str[..size] == Shortened(old(str[..]))
  {
    ghost var s := str[..];
    var pos := str.Length;
    while pos > 2
      invariant pos <= str.Length && (pos == str.Length || 2 <= pos)
      invariant FindE(s, |s|) == FindE(s, pos)
      decreases pos
    {
      pos := pos - 1;
      if str[pos] == 'e' {
        break;
      }
    }
    var start := pos;
    var remain := str.Length - pos;
    while pos > 1
      invariant 1 <= pos <= start
      invariant LastNonZero(s, start) == LastNonZero(s, pos)
      decreases pos
    {
      pos := pos - 1;
      if str[pos] != '0' {
        break;
      }
    }
    if str[pos] == '.' {
      pos := pos - 1;
    }
    assert pos + 1 == FrontEnd(s) && start == FindE(s, |s|);
    assert str[..pos + 1] == s[..pos + 1] && str[start..start + remain] == s[start..];
    MoveDown(str, pos + 1, start, remain);
    size := pos + 1 + remain;
  }

  // ---------------------------------------------------------------- what the text denotes

  predicate Digit(c: char) {
    '0' <= c <= '9'
  }

  predicate Digits(s: string) {
    forall i :: 0 <= i < |s| ==> Digit(s[i])
  }

  // One digit, a fraction, and an exponent kept as text: [-]d.d...de+dd or with e-dd.
  datatype Scientific = Scientific(negative: bool, lead: char, fraction: string, exponent: string) {
    predicate Valid() {
      Digit(lead) && Digits(fraction) && |exponent| >= 2 && exponent[0] == 'e' && 'e' !in exponent[1..]
    }

    function Sign(): string {
      if negative then "-" else ""
    }

    function Text(): string {
      Sign() + [lead] + (if fraction == "" then "" else "." + fraction) + exponent
    }

    function Trimmed(): Scientific {
      this.(fraction := Trim(fraction))
    }

    // The number the digits denote, before the exponent is applied.
    function Mantissa(): real
      requires Valid()
    {
      DigitValue(lead) + Fraction(fraction)
    }
  }

  function Trim(s: string): (t: string)
    ensures t <= s
  {
    if s == "" || s[|s| - 1] != '0' then s else Trim(s[..|s| - 1])
  }

  function DigitValue(c: char): (v: real)
    requires Digit(c)
    ensures 0.0 <= v <= 9.0
  {
    (c as int - '0' as int) as real
  }

  function Fraction(s: string): real
    requires Digits(s)
  {
    if s == "" then 0.0 else (DigitValue(s[0]) + Fraction(s[1..])) / 10.0
  }

  lemma {:induction false} FractionBelowOne(s: string)
    requires Digits(s)
    ensures 0.0 <= Fraction(s) < 1.0
  {
    if s != "" {
      FractionBelowOne(s[1..]);
    }
  }

  lemma {:induction false} AppendZero(s: string)
    requires Digits(s)
    ensures Digits(s + "0") && Fraction(s + "0") == Fraction(s)
  {
    if s == "" {
      assert ("" + "0")[1..] == "";
    } else {
      AppendZero(s[1..]);
      assert (s + "0")[1..] == s[1..] + "0";
    }
  }

  lemma {:induction false} TrimKeepsFraction(s: string)
    requires Digits(s)
    ensures Digits(Trim(s)) && Fraction(Trim(s)) == Fraction(s)
    ensures Trim(s) == "" || Trim(s)[|Trim(s)| - 1] != '0'
  {
    if s != "" && s[|s| - 1] == '0' {
      assert s[..|s| - 1] + "0" == s;
      AppendZero(s[..|s| - 1]);
      TrimKeepsFraction(s[..|s| - 1]);
    }
  }

  lemma {:induction false} TrimmedNotZero(s: string)
    requires Digits(s) && s != "" && s[|s| - 1] != '0'
    ensures Fraction(s) > 0.0
  {
    FractionBelowOne(s[1..]);
    if |s| > 1 {
      TrimmedNotZero(s[1..]);
    }
  }

  // Without trailing zeros, different digits are different fractions.
  lemma {:induction false} FractionInjective(s: string, t: string)
    requires Digits(s) && (s == "" || s[|s| - 1] != '0')
    requires Digits(t) && (t == "" || t[|t| - 1] != '0')
    requires Fraction(s) == Fraction(t)
    ensures s == t
    decreases |s|
  {
    if s != "" {
      TrimmedNotZero(s);
    }
    if t != "" {
      TrimmedNotZero(t);
    }
    if s != "" && t != "" {
      SameLead(s[0], s[1..], t[0], t[1..]);
      FractionInjective(s[1..], t[1..]);
      assert s == [s[0]] + s[1..] && t == [t[0]] + t[1..];
    }
  }

  lemma SameLead(c: char, s: string, d: char, t: string)
    requires Digit(c) && Digits(s) && Digit(d) && Digits(t)
    requires DigitValue(c) + Fraction(s) == DigitValue(d) + Fraction(t)
    ensures c == d && Fraction(s) == Fraction(t)
  {
    FractionBelowOne(s);
    FractionBelowOne(t);
    var m, n := c as int - '0' as int, d as int - '0' as int;
    assert m as real - n as real < 1.0 && n as real - m as real < 1.0;
    assert m == n;
  }

  // ---------------------------------------------------------------- RemoveZero keeps the number

  lemma {:induction false} FindEAt(s: string, pos: nat, e: nat)
    requires 3 <= e < pos <= |s| && s[e] == 'e'
    requires forall i :: e < i < pos ==> s[i] != 'e'
    ensures FindE(s, pos) == e
    decreases pos
  {
    if pos - 1 > e {
      FindEAt(s, pos - 1, e);
    }
  }

  // Walking left over a fraction that follows position k stops at the end of its trimmed form.
  lemma {:induction false} LastNonZeroAt(s: string, k: nat, fraction: string)
    requires k >= 1 && k + 1 + |fraction| <= |s| && s[k] == '.' && s[k + 1..k + 1 + |fraction|] == fraction
    ensures LastNonZero(s, k + 1 + |fraction|) == k + |Trim(fraction)|
    decreases |fraction|
  {
    if fraction != "" && fraction[|fraction| - 1] == '0' {
      var shorter := fraction[..|fraction| - 1];
      assert s[k + |fraction|] == fraction[|fraction| - 1];
      assert s[k + 1..k + 1 + |shorter|] == shorter;
      LastNonZeroAt(s, k, shorter);
    } else if fraction != "" {
      assert s[k + |fraction|] == fraction[|fraction| - 1];
    }
  }

  // A front, a point, a fraction and an exponent, one after the other.
  predicate Laid(s: string, front: string, fraction: string, exponent: string) {
    var k := |front|;
    var e := k + 1 + |fraction|;
    |s| == e + |exponent| && s[..k] == front && s[k] == '.' && s[k + 1..e] == fraction && s[e..] == exponent
  }

  lemma LaidOut(front: string, fraction: string, exponent: string)
    ensures Laid(front + "." + fraction + exponent, front, fraction, exponent)
  {
    var s := front + "." + fraction + exponent;
    var k := |front|;
    var e := k + 1 + |fraction|;
    assert s[..k] == front;
    assert s[k + 1..e] == fraction;
    assert s[e..] == exponent;
  }

  lemma PiecesFound(s: string, front: string, fraction: string, exponent: string)
    requires Laid(s, front, fraction, exponent)
    requires |front| >= 1 && |fraction| >= 1 && Digits(fraction)
    requires |exponent| >= 2 && exponent[0] == 'e' && 'e' !in exponent[1..]
    ensures |s| >= 3 && FindE(s, |s|) == |front| + 1 + |fraction|
    ensures FrontEnd(s) == if Trim(fraction) == "" then |front| else |front| + 1 + |Trim(fraction)|
  {
    var k := |front|;
    var e := k + 1 + |fraction|;
    var t := Trim(fraction);
    assert forall i :: e < i < |s| ==> s[i] == s[e..][i - e] == exponent[1..][i - e - 1];
    FindEAt(s, |s|, e);
    LastNonZeroAt(s, k, fraction);
    if t != "" {
      assert s[k + |t|] == s[k + 1..e][|t| - 1] == fraction[|t| - 1];
      assert Digit(fraction[|t| - 1]);
    }
  }

  lemma FrontKept(s: string, front: string, fraction: string, exponent: string, t: string)
    requires Laid(s, front, fraction, exponent) && t <= fraction
    ensures s[..|front| + 1 + |t|] == front + ("." + t)
  {
    var k := |front|;
    assert s[k + 1..k + 1 + |t|] == s[k + 1..k + 1 + |fraction|][..|t|];
    assert s[..k + 1 + |t|] == s[..k] + ([s[k]] + s[k + 1..k + 1 + |t|]);
  }

  lemma ShortenedPieces(s: string, front: string, fraction: string, exponent: string)
    requires Laid(s, front, fraction, exponent)
    requires |front| >= 1 && |fraction| >= 1 && Digits(fraction)
    requires |exponent| >= 2 && exponent[0] == 'e' && 'e' !in exponent[1..]
    ensures |s| >= 3 && Shortened(s) == front + (if Trim(fraction) == "" then "" else "." + Trim(fraction)) + exponent
  {
    PiecesFound(s, front, fraction, exponent);
    ShortenedFrom(s, front, fraction, exponent, Trim(fraction));
  }

  lemma ShortenedFrom(s: string, front: string, fraction: string, exponent: string, t: string)
    requires Laid(s, front, fraction, exponent) && |s| >= 3 && t <= fraction
    requires FindE(s, |s|) == |front| + 1 + |fraction|
    requires FrontEnd(s) == if t == "" then |front| else |front| + 1 + |t|
    ensures Shortened(s) == front + (if t == "" then "" else "." + t) + exponent
  {
    hide FindE; hide FrontEnd;
    if t == "" {
      assert front + "" == front;
    } else {
      FrontKept(s, front, fraction, exponent, t);
    }
  }

  // RemoveZero on a printed number gives the text with the fraction trimmed, and no bare point.
  lemma ShortenedIsTrimmed(n: Scientific)
    requires n.Valid() && n.fraction != ""
    ensures |n.Text()| >= 3 && Shortened(n.Text()) == n.Trimmed().Text()
  {
    var front := n.Sign() + [n.lead];
    LaidOut(front, n.fraction, n.exponent);
    ShortenedPieces(n.Text(), front, n.fraction, n.exponent);
  }

  // The number is the same, its sign and exponent are kept as text, and no trailing zero is left.
  lemma RemoveZeroKeepsNumber(n: Scientific)
    requires n.Valid() && n.fraction != ""
    ensures var m := n.Trimmed();
            && Shortened(n.Text()) == m.Text()
            && m.Valid() && m.Mantissa() == n.Mantissa() && m.negative == n.negative && m.exponent == n.exponent
            && (m.fraction == "" || m.fraction[|m.fraction| - 1] != '0')
  {
    ShortenedIsTrimmed(n);
    TrimKeepsFraction(n.fraction);
  }

  // With the same sign and exponent, two printed numbers come out as the same text exactly when
  // they are the same number.
  lemma ShortenedIsCanonical(a: Scientific, b: Scientific)
    requires a.Valid() && b.Valid() && a.fraction != "" && b.fraction != ""
    requires a.negative == b.negative && a.exponent == b.exponent
    ensures Shortened(a.Text()) == Shortened(b.Text()) <==> a.Mantissa() == b.Mantissa()
  {
    RemoveZeroKeepsNumber(a);
    RemoveZeroKeepsNumber(b);
    if a.Mantissa() == b.Mantissa() {
      SameLead(a.lead, a.fraction, b.lead, b.fraction);
      FractionInjective(Trim(a.fraction), Trim(b.fraction));
    }
    if a.Trimmed().Text() == b.Trimmed().Text() {
      TextInjective(a.Trimmed(), b.Trimmed());
    }
  }

  lemma TextInjective(a: Scientific, b: Scientific)
    requires a.Valid() && b.Valid() && a.negative == b.negative && a.exponent == b.exponent
    requires a.Text() == b.Text()
    ensures a == b
  {
    var k := |a.Sign()|;
    assert a.Text()[k] == a.lead && b.Text()[k] == b.lead;
    var f := (n: Scientific) => if n.fraction == "" then "" else "." + n.fraction;
    var end := |a.Text()| - |a.exponent|;
    assert a.Text()[k + 1..end] == f(a);
    assert b.Text()[k + 1..end] == f(b);
    if a.fraction != "" {
      assert f(a)[1..] == a.fraction;
    }
    if b.fraction != "" {
      assert f(b)[1..] == b.fraction;
    }
  }

  // Infinities and nan are left alone.
  lemma NotANumberKept(s: string)
    requires s in ["inf", "-inf", "nan", "-nan"]
    ensures Shortened(s) == s
  {
    var e := FindE(s, |s|);
    assert e == 2 by {
      if |s| == 4 { assert FindE(s, 4) == FindE(s, 3); }
    }
    assert s[..2] + s[2..] == s;
  }
}
