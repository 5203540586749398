/** Decimal printing of integers, and reading them back as Python's int does. */
module Decimal {
  import opened Wrappers

  predicate IsDigit(c: char) {
    '0' <= c <= '9'
  }

  predicate AllDigits(s: string) {
    forall i :: 0 <= i < |s| ==> IsDigit(s[i])
  }

  function DigitValue(c: char): (d: nat)
    requires IsDigit(c)
    ensures d < 10
  {
    (c - '0') as int
  }

  function DigitChar(d: nat): (c: char)
    requires d < 10
    ensures IsDigit(c) && DigitValue(c) == d
  {
    '0' + d as char
  }

  /** The decimal digits of n, without leading zeros. */
  function PrintNat(n: nat): (s: string)
    ensures s != [] && AllDigits(s)
  {
    if n < 10 then [DigitChar(n)] else PrintNat(n / 10) + [DigitChar(n % 10)]
  }

  function PrintInt(i: int): (s: string)
    ensures s != []
    ensures forall k :: 0 <= k < |s| ==> s[k] == '-' || IsDigit(s[k])
  {
    if i < 0 then "-" + PrintNat(-i) else PrintNat(i)
  }

  /** The number that a string of digits denotes, the last digit weighing one. */
  function NatValue(s: string): nat
    requires AllDigits(s)
  {
    if s == [] then 0 else 10 * NatValue(s[..|s| - 1]) + DigitValue(s[|s| - 1])
  }

  lemma {:induction false} PrintedNatValue(n: nat)
    ensures NatValue(PrintNat(n)) == n
  {
    if n >= 10 {
      PrintedNatValue(n / 10);
      var s := PrintNat(n);
      assert s[..|s| - 1] == PrintNat(n / 10);
    }
  }

  lemma PrintNatInjective(m: nat, n: nat)
    requires PrintNat(m) == PrintNat(n)
    ensures m == n
  {
    PrintedNatValue(m);
    PrintedNatValue(n);
  }

  lemma PrintIntInjective(i: int, j: int)
    requires PrintInt(i) == PrintInt(j)
    ensures i == j
  {
    assert PrintInt(i)[0] == '-' <==> i < 0;
    assert PrintInt(j)[0] == '-' <==> j < 0;
    if i < 0 {
      assert PrintInt(i)[1..] == PrintNat(-i) && PrintInt(j)[1..] == PrintNat(-j);
      PrintNatInjective(-i, -j);
    } else {
      PrintNatInjective(i, j);
    }
  }

  /** A string split at its last separator has one reading: the part behind it holds none. */
  lemma {:induction false} SplitAtLast(sep: char, a: string, x: string, b: string, y: string)
    requires sep !in x && sep !in y
    requires a + [sep] + x == b + [sep] + y
    ensures a == b && x == y
    decreases |x|
  {
    var s, t := a + [sep] + x, b + [sep] + y;
    assert s[|s| - 1] == if x == [] then sep else x[|x| - 1];
    assert t[|t| - 1] == if y == [] then sep else y[|y| - 1];
    if x != [] && y != [] {
      assert s[..|s| - 1] == a + [sep] + x[..|x| - 1];
      assert t[..|t| - 1] == b + [sep] + y[..|y| - 1];
      SplitAtLast(sep, a, x[..|x| - 1], b, y[..|y| - 1]);
      assert x == x[..|x| - 1] + [x[|x| - 1]] && y == y[..|y| - 1] + [y[|y| - 1]];
    } else if x == [] && y == [] {
      assert s[..|a|] == a && t[..|b|] == b;
    }
  }

  /* ----- int(raw), on ASCII text ----- */

  predicate IsIntSpace(c: char) {
    c == ' ' || '\t' <= c <= '\r'
  }

  function StripLeft(s: string): string {
    if s != [] && IsIntSpace(s[0]) then StripLeft(s[1..]) else s
  }

  function StripRight(s: string): string {
    if s != [] && IsIntSpace(s[|s| - 1]) then StripRight(s[..|s| - 1]) else s
  }

  /** Digits with single underscores between them. */
  function IntDigits(s: string): Option<nat> {
    if s == [] || !IsDigit(s[|s| - 1]) then None
    else
      var last, rest := DigitValue(s[|s| - 1]), s[..|s| - 1];
      if rest == [] then Some(last)
      else
        var front := if rest[|rest| - 1] == '_' then rest[..|rest| - 1] else rest;
        match IntDigits(front)
        case None => None
        case Some(n) => Some(10 * n + last)
  }

  /** int(raw): None is its ValueError. */
  function PyInt(raw: string): Option<int> {
    var s := StripRight(StripLeft(raw));
    var signed := s != [] && s[0] in "+-";
    match IntDigits(if signed then s[1..] else s)
    case None => None
    case Some(n) =>
      var i: int := n;
      Some(if signed && s[0] == '-' then -i else i)
  }

  lemma {:induction false} DigitsRead(s: string)
    requires s != "" && AllDigits(s)
    ensures IntDigits(s) == Some(NatValue(s))
    decreases |s|
  {
    var rest := s[..|s| - 1];
    if rest != "" {
      DigitsRead(rest);
    } else {
      assert NatValue(rest) == 0;
    }
  }

  lemma NothingToStrip(s: string)
    requires s != "" && !IsIntSpace(s[0]) && !IsIntSpace(s[|s| - 1])
    ensures StripRight(StripLeft(s)) == s
  {
  }

  lemma {:induction false} DigitsOnly(s: string)
    requires IntDigits(s).Some?
    ensures forall i :: 0 <= i < |s| ==> IsDigit(s[i]) || s[i] == '_'
    decreases |s|
  {
    var rest := s[..|s| - 1];
    if rest != [] {
      DigitsOnly(if rest[|rest| - 1] == '_' then rest[..|rest| - 1] else rest);
    }
  }

  lemma {:induction false} StripsKeep(s: string, c: char)
    requires c in s && !IsIntSpace(c)
    ensures c in StripLeft(s) && c in StripRight(s)
    decreases |s|
  {
    if IsIntSpace(s[0]) {
      assert s == [s[0]] + s[1..];
      StripsKeep(s[1..], c);
    }
    if IsIntSpace(s[|s| - 1]) {
      assert s == s[..|s| - 1] + [s[|s| - 1]];
      StripsKeep(s[..|s| - 1], c);
    }
  }

  /** Digits, with single underscores between them. */
  predicate IsNumeral(s: string) {
    && s != "" && IsDigit(s[0]) && IsDigit(s[|s| - 1])
    && (forall i :: 0 <= i < |s| ==> IsDigit(s[i]) || s[i] == '_')
    && (forall i :: 0 <= i < |s| - 1 ==> s[i] != '_' || s[i + 1] != '_')
  }

  function WithoutUnderscores(s: string): string {
    if s == "" then ""
    else
      var front, last := WithoutUnderscores(s[..|s| - 1]), s[|s| - 1];
      if last == '_' then front else front + [last]
  }

  /** The numeral in front of the last digit and the underscore before it. */
  function Front(s: string): string
    requires |s| > 1
  {
    if s[|s| - 2] == '_' then s[..|s| - 2] else s[..|s| - 1]
  }

  lemma NumeralFront(s: string)
    requires |s| > 1 && IsDigit(s[|s| - 1])
    ensures IsNumeral(s) <==> IsNumeral(Front(s))
  {
    var front := Front(s);
    if IsNumeral(front) {
      forall i | 0 <= i < |s| ensures IsDigit(s[i]) || s[i] == '_' {
        assert i < |front| ==> s[i] == front[i];
      }
      forall i | 0 <= i < |s| - 1 ensures s[i] != '_' || s[i + 1] != '_' {
        assert i < |front| - 1 ==> s[i] == front[i] && s[i + 1] == front[i + 1];
        assert i == |front| - 1 ==> s[i] == front[i];
      }
    }
  }

  lemma FrontIsOfRest(s: string)
    requires |s| > 1
    ensures var rest := s[..|s| - 1];
            rest != "" && rest[|rest| - 1] == s[|s| - 2] && rest[..|rest| - 1] == s[..|s| - 2]
  {
  }

  lemma IntDigitsStep(s: string)
    requires |s| > 1 && IsDigit(s[|s| - 1])
    ensures IntDigits(s).Some? <==> IntDigits(Front(s)).Some?
    ensures IntDigits(s).Some? ==> IntDigits(s).value == 10 * IntDigits(Front(s)).value + DigitValue(s[|s| - 1])
  {
    FrontIsOfRest(s);
    var rest := s[..|s| - 1];
    assert Front(s) == if rest[|rest| - 1] == '_' then rest[..|rest| - 1] else rest;
  }

  lemma UnderscoreStep(s: string)
    requires |s| > 1 && IsDigit(s[|s| - 1])
    ensures WithoutUnderscores(s) == WithoutUnderscores(Front(s)) + [s[|s| - 1]]
  {
    FrontIsOfRest(s);
  }

  lemma NatValueStep(front: string, c: char)
    requires AllDigits(front) && IsDigit(c)
    ensures AllDigits(front + [c]) && NatValue(front + [c]) == 10 * NatValue(front) + DigitValue(c)
  {
    assert (front + [c])[..|front|] == front;
  }

  lemma OneDigit(s: string)
    requires |s| == 1 && IsDigit(s[0])
    ensures IsNumeral(s) && WithoutUnderscores(s) == s && IntDigits(s) == Some(DigitValue(s[0])) && NatValue(s) == DigitValue(s[0])
  {
    assert s[..0] == "";
    assert WithoutUnderscores(s[..0]) == "" && NatValue(s[..0]) == 0;
  }

  /** Exactly what the digits of int accept, and the number it stands for. */
  lemma {:induction false} DigitsExactly(s: string)
    ensures IntDigits(s).Some? <==> IsNumeral(s)
    ensures IsNumeral(s) ==> AllDigits(WithoutUnderscores(s)) && IntDigits(s) == Some(NatValue(WithoutUnderscores(s)))
    decreases |s|
  {
    if s == "" || !IsDigit(s[|s| - 1]) {
    } else if |s| == 1 {
      OneDigit(s);
    } else {
      hide IntDigits, IsNumeral, WithoutUnderscores, NatValue;
      DigitsExactly(Front(s));
      NumeralFront(s);
      IntDigitsStep(s);
      UnderscoreStep(s);
      if IsNumeral(s) {
        NatValueStep(WithoutUnderscores(Front(s)), s[|s| - 1]);
      }
    }
  }

  lemma {:induction false} StripsSpaces(left: string, s: string, right: string)
    requires s != "" && !IsIntSpace(s[0]) && !IsIntSpace(s[|s| - 1])
    requires (forall i :: 0 <= i < |left| ==> IsIntSpace(left[i])) && forall i :: 0 <= i < |right| ==> IsIntSpace(right[i])
    ensures StripRight(StripLeft(left + s + right)) == s
    decreases |left| + |right|
  {
    if left != "" {
      assert (left + s + right)[1..] == left[1..] + s + right;
      StripsSpaces(left[1..], s, right);
    } else {
      assert left + s + right == s + right;
      assert StripLeft(s + right) == s + right;
      if right != "" {
        assert (s + right)[..|s + right| - 1] == s + right[..|right| - 1];
        assert StripLeft(s + right[..|right| - 1]) == s + right[..|right| - 1];
        assert left + s + right[..|right| - 1] == s + right[..|right| - 1];
        StripsSpaces(left, s, right[..|right| - 1]);
      } else {
        assert s + right == s;
      }
    }
  }

  /** int reads a numeral with an optional sign and white space around it. */
  lemma NumeralReads(left: string, sign: string, s: string, right: string)
    requires IsNumeral(s) && sign in {"", "+", "-"}
    requires (forall i :: 0 <= i < |left| ==> IsIntSpace(left[i])) && forall i :: 0 <= i < |right| ==> IsIntSpace(right[i])
    ensures AllDigits(WithoutUnderscores(s))
    ensures var n: int := NatValue(WithoutUnderscores(s));
            PyInt(left + (sign + s) + right) == Some(if sign == "-" then -n else n)
  {
    hide StripLeft, StripRight, IntDigits, WithoutUnderscores, NatValue;
    DigitsExactly(s);
    StripsSpaces(left, sign + s, right);
    if sign != "" {
      assert (sign + s)[1..] == s;
    } else {
      assert sign + s == s;
    }
  }

  /** Text with a letter in it is no integer. */
  lemma LetterIsNoNumber(s: string, c: char)
    requires c in s && ('a' <= c <= 'z' || 'A' <= c <= 'Z')
    ensures PyInt(s) == None
  {
    StripsKeep(s, c);
    StripsKeep(StripLeft(s), c);
    var t := StripRight(StripLeft(s));
    var u := if t[0] in "+-" then t[1..] else t;
    assert c in u by {
      assert t == [t[0]] + t[1..];
    }
    if IntDigits(u).Some? {
      DigitsOnly(u);
    }
  }

  lemma PrintedIntReads(i: int)
    ensures PyInt(PrintInt(i)) == Some(i)
  {
    var s := PrintInt(i);
    NothingToStrip(s);
    var digits := PrintNat(if i < 0 then -i else i);
    DigitsRead(digits);
    PrintedNatValue(if i < 0 then -i else i);
    if i < 0 {
      assert s[1..] == digits;
    } else {
      assert s[0] != '+' && s[0] != '-';
    }
  }
}
