/** Legal Entity Identifiers: the two checks of the repository and what MOD 97-10 detects (ISO 17442). */
module Lei {
  import opened Wrappers
  import opened Decimal

  datatype CheckError = ValueError

  predicate IsUpper(c: char) {
    'A' <= c <= 'Z'
  }

  predicate IsCodeChar(c: char) {
    IsDigit(c) || IsUpper(c)
  }

  predicate IsCode(s: string) {
    forall i :: 0 <= i < |s| ==> IsCodeChar(s[i])
  }

  /* ----- The checks ----- */

  /** re.match with ^[A-Z0-9]{20}$: the dollar sign also stands in front of a final newline. */
  predicate Matches(lei: string) {
    (|lei| == 20 && IsCode(lei)) || (|lei| == 21 && IsCode(lei[..20]) && lei[20] == '\n')
  }

  /** What a character adds to the number: itself, or the printed value of a letter. */
  function Expansion(c: char): string {
    if IsDigit(c) then [c] else PrintInt(c as int - 'A' as int + 10)
  }

  function Expanded(s: string): string {
    if s == [] then [] else Expanded(s[..|s| - 1]) + Expansion(s[|s| - 1])
  }

  function Check(lei: string): Result<bool, CheckError> {
    if !Matches(lei) then Ok(false)
    else
      match PyInt(Expanded(lei))
      case None => Err(ValueError)
      case Some(n) => Ok(n % 97 == 1)
  }

  method ValidateIso17442Lei(lei: string) returns (r: Result<bool, CheckError>)
    ensures r == Check(lei)
  {
    if !Matches(lei) {
      return Ok(false);
    }
    var numStr := Expand(lei);
    var n := PyInt(numStr);
    if n.None? {
      return Err(ValueError);
    }
    return Ok(n.value % 97 == 1);
  }

  /** The compiler's loop. */
  method Expand(s: string) returns (numStr: string)
    ensures numStr == Expanded(s)
  {
    numStr := "";
    var i := 0;
    while i < |s|
      invariant 0 <= i <= |s| && numStr == Expanded(s[..i])
    {
      assert s[..i + 1][..i] == s[..i];
      if IsDigit(s[i]) {
        numStr := numStr + [s[i]];
      } else {
        numStr := numStr + PrintInt(s[i] as int - 'A' as int + 10);
      }
      i := i + 1;
    }
    assert s[..|s|] == s;
  }

  /* ----- The router's check, on any text ----- */

  /** Python's operations on text; int answers None for a ValueError. */
  datatype TextOps = TextOps(strip: string -> string, upper: string -> string, isAlnum: string -> bool,
                             isDigit: char -> bool, toInt: string -> Option<int>)
  {
    /** On ASCII text they are the operations defined below. */
    ghost predicate AgreesOnAscii() {
      && (forall s :: IsAscii(s) ==> strip(s) == Strip(s))
      && (forall s :: IsAscii(s) ==> upper(s) == Upper(s))
      && (forall s :: IsAscii(s) && s != [] ==> isAlnum(s) == IsAlnum(s))
      && (forall c: char :: c as int < 128 ==> isDigit(c) == IsDigit(c))
      && (forall s :: IsAscii(s) && |s| <= 4300 ==> toInt(s) == PyInt(s))    // Python's limit on digits
    }
  }

  function ExpandedText(ops: TextOps, s: string): string {
    if s == [] then []
    else
      var c := s[|s| - 1];
      ExpandedText(ops, s[..|s| - 1]) + (if ops.isDigit(c) then [c] else PrintInt(c as int - 'A' as int + 10))
  }

  /** The router's check; its exception handler turns a ValueError into False. */
  function RouterCheck(ops: TextOps, lei: string): bool {
    var clean := ops.upper(ops.strip(lei));
    |clean| == 20 && ops.isAlnum(clean)
    && var n := ops.toInt(ExpandedText(ops, clean));
    n.Some? && n.value % 97 == 1
  }

  /** The router's loop. */
  method ExpandWith(ops: TextOps, s: string) returns (numStr: string)
    ensures numStr == ExpandedText(ops, s)
  {
    numStr := "";
    var i := 0;
    while i < |s|
      invariant 0 <= i <= |s| && numStr == ExpandedText(ops, s[..i])
    {
      assert s[..i + 1][..i] == s[..i];
      if ops.isDigit(s[i]) {
        numStr := numStr + [s[i]];
      } else {
        numStr := numStr + PrintInt(s[i] as int - 'A' as int + 10);
      }
      i := i + 1;
    }
    assert s[..|s|] == s;
  }

  method VerifyIso17442Lei(ops: TextOps, lei: string) returns (ok: bool)
    ensures ok == RouterCheck(ops, lei)
  {
    var clean := ops.upper(ops.strip(lei));
    if |clean| != 20 || !ops.isAlnum(clean) {
      return false;
    }
    var numStr := ExpandWith(ops, clean);
    var n := ops.toInt(numStr);
    return n.Some? && n.value % 97 == 1;
  }

  /** Whitespace that str.strip removes from ASCII text. */
  predicate IsStripSpace(c: char) {
    c == ' ' || '\t' <= c <= '\r' || 28 <= c as int <= 31
  }

  function Strip(s: string): string
    decreases |s|
  {
    if s != [] && IsStripSpace(s[0]) then Strip(s[1..])
    else if s != [] && IsStripSpace(s[|s| - 1]) then Strip(s[..|s| - 1])
    else s
  }

  function UpperChar(c: char): char {
    if 'a' <= c <= 'z' then 'A' + (c - 'a') else c
  }

  function Upper(s: string): (r: string)
    ensures |r| == |s| && forall i :: 0 <= i < |s| ==> r[i] == UpperChar(s[i])
  {
    if s == [] then [] else [UpperChar(s[0])] + Upper(s[1..])
  }

  predicate IsAlnum(s: string) {
    forall i :: 0 <= i < |s| ==> IsDigit(s[i]) || IsUpper(s[i]) || 'a' <= s[i] <= 'z'
  }

  predicate IsAscii(s: string) {
    forall i :: 0 <= i < |s| ==> s[i] as int < 128
  }

  predicate AllSpace(s: string) {
    forall i :: 0 <= i < |s| ==> IsStripSpace(s[i])
  }

  lemma StripSpaceMeans(c: char)
    ensures IsStripSpace(c) <==> c in " \t\n\r" || c as int in {11, 12, 28, 29, 30, 31}
  {
  }

  /** Stripping takes white space off both ends and leaves none there. */
  lemma {:induction false} StripMeans(s: string) returns (a: string, b: string)
    ensures s == a + Strip(s) + b && AllSpace(a) && AllSpace(b)
    ensures Strip(s) != "" ==> !IsStripSpace(Strip(s)[0]) && !IsStripSpace(Strip(s)[|Strip(s)| - 1])
    decreases |s|
  {
    hide IsStripSpace;
    a, b := "", "";
    if s != [] && IsStripSpace(s[0]) {
      var a', b' := StripMeans(s[1..]);
      assert s == [s[0]] + s[1..] == [s[0]] + a' + Strip(s) + b';
      a, b := [s[0]] + a', b';
    } else if s != [] && IsStripSpace(s[|s| - 1]) {
      var a', b' := StripMeans(s[..|s| - 1]);
      assert s == s[..|s| - 1] + [s[|s| - 1]] == a' + Strip(s) + (b' + [s[|s| - 1]]);
      a, b := a', b' + [s[|s| - 1]];
    }
  }

  /** Upper case moves the small letters and nothing else. */
  lemma UpperMeans(s: string, i: nat)
    requires i < |s|
    ensures |Upper(s)| == |s|
    ensures Upper(s)[i] as int == if 'a' <= s[i] <= 'z' then s[i] as int - 32 else s[i] as int
  {
  }

  lemma {:induction false} ExpandedAscii(ops: TextOps, s: string)
    requires ops.AgreesOnAscii() && IsAscii(s)
    ensures ExpandedText(ops, s) == Expanded(s)
    decreases |s|
  {
    if s != [] {
      ExpandedAscii(ops, s[..|s| - 1]);
    }
  }

  /** Whatever the text, when its stripped, upper-case form is a code both checks agree on that form. */
  lemma RouterAgreesOnCodes(ops: TextOps, lei: string)
    requires ops.AgreesOnAscii() && IsCode(ops.upper(ops.strip(lei)))
    ensures RouterCheck(ops, lei) <==> Check(ops.upper(ops.strip(lei))) == Ok(true)
  {
    var clean := ops.upper(ops.strip(lei));
    ExpandedAscii(ops, clean);
    if |clean| == 20 {
      ExpandedIsAscii(clean);
    }
  }

  lemma {:induction false} ExpandedIsAscii(s: string)
    requires IsCode(s)
    ensures IsAscii(Expanded(s)) && |Expanded(s)| <= 2 * |s|
    decreases |s|
  {
    if s != [] {
      var c := s[|s| - 1];
      ExpandedIsAscii(s[..|s| - 1]);
      if !IsDigit(c) {
        LetterDigits(c as int - 'A' as int + 10);
      }
    }
  }

  /** On ASCII text the router's check is the compiler's check on the stripped, upper-case text. */
  lemma RouterAgreesOnAscii(ops: TextOps, lei: string)
    requires ops.AgreesOnAscii() && IsAscii(lei)
    ensures RouterCheck(ops, lei) <==> Check(Upper(Strip(lei))) == Ok(true)
  {
    var clean := Upper(Strip(lei));
    StripIsAscii(lei);
    CleanText(lei);
    if IsCode(clean) {
      RouterAgreesOnCodes(ops, lei);
    }
  }

  lemma {:induction false} StripIsAscii(s: string)
    requires IsAscii(s)
    ensures IsAscii(Strip(s)) && IsAscii(Upper(Strip(s)))
    decreases |s|
  {
    if s != [] && IsStripSpace(s[0]) {
      StripIsAscii(s[1..]);
    } else if s != [] && IsStripSpace(s[|s| - 1]) {
      StripIsAscii(s[..|s| - 1]);
    }
  }

  lemma NoLowerCase(s: string)
    ensures IsAlnum(Upper(s)) <==> IsCode(Upper(s))
  {
    assert forall i :: 0 <= i < |s| ==> Upper(s)[i] == UpperChar(s[i]) && !('a' <= Upper(s)[i] <= 'z');
  }

  /** Stripped, upper-case text does not end in a newline and has no lower-case letters. */
  lemma CleanText(lei: string)
    ensures var clean := Upper(Strip(lei));
            && (clean != [] ==> clean[|clean| - 1] != '\n')
            && (IsAlnum(clean) <==> IsCode(clean))
  {
    StripEnds(lei);
    NoLowerCase(Strip(lei));
    var clean := Upper(Strip(lei));
    if clean != [] {
      assert clean[|clean| - 1] == UpperChar(Strip(lei)[|clean| - 1]);
    }
  }

  lemma {:induction false} StripEnds(s: string)
    ensures Strip(s) != [] ==> !IsStripSpace(Strip(s)[|Strip(s)| - 1])
    decreases |s|
  {
    if s != [] && IsStripSpace(s[0]) {
      StripEnds(s[1..]);
    } else if s != [] && IsStripSpace(s[|s| - 1]) {
      StripEnds(s[..|s| - 1]);
    }
  }

  /* ----- The number modulo 97 ----- */

  function CharValue(c: char): (v: nat)
    requires IsCodeChar(c)
    ensures v < 36 && (IsDigit(c) <==> v < 10)
  {
    if IsDigit(c) then DigitValue(c) else (c - 'A') as int + 10
  }

  /** One character behind a number with remainder r: one more digit, or two. */
  function Next(r: nat, c: char): (r': nat)
    requires IsCodeChar(c)
    ensures r' < 97
  {
    if IsDigit(c) then (10 * r + CharValue(c)) % 97 else (100 * r + CharValue(c)) % 97
  }

  function Remainder(r: nat, s: string): (r': nat)
    requires IsCode(s) && r < 97
    ensures r' < 97
    decreases |s|
  {
    if s == [] then r else Remainder(Next(r, s[0]), s[1..])
  }

  lemma {:induction false} RemainderSplit(r: nat, a: string, b: string)
    requires IsCode(a) && IsCode(b) && r < 97
    ensures IsCode(a + b) && Remainder(r, a + b) == Remainder(Remainder(r, a), b)
    decreases |a|
  {
    assert IsCode(a + b);
    if a == [] {
      assert a + b == b;
    } else {
      assert (a + b)[1..] == a[1..] + b;
      RemainderSplit(Next(r, a[0]), a[1..], b);
    }
  }

  lemma LetterDigits(v: nat)
    requires 10 <= v < 100
    ensures PrintNat(v) == [DigitChar(v / 10), DigitChar(v % 10)]
  {
  }

  lemma TwoDigits(x: string, d: char, e: char)
    requires AllDigits(x) && IsDigit(d) && IsDigit(e)
    ensures NatValue(x + [d, e]) == 100 * NatValue(x) + 10 * DigitValue(d) + DigitValue(e)
  {
    var s := x + [d, e];
    assert s[..|s| - 1] == x + [d];
    assert (x + [d])[..|x|] == x;
  }

  lemma NatValueNext(x: string, c: char)
    requires AllDigits(x) && IsCodeChar(c)
    ensures AllDigits(x + Expansion(c))
    ensures NatValue(x + Expansion(c)) == (if IsDigit(c) then 10 else 100) * NatValue(x) + CharValue(c)
  {
    if IsDigit(c) {
      assert (x + [c])[..|x|] == x;
    } else {
      var v := CharValue(c);
      LetterDigits(v);
      TwoDigits(x, DigitChar(v / 10), DigitChar(v % 10));
    }
  }

  /** The number that the checks build has the remainder of the fold. */
  lemma {:induction false} ExpandedValue(s: string)
    requires IsCode(s)
    ensures AllDigits(Expanded(s)) && NatValue(Expanded(s)) % 97 == Remainder(0, s)
    decreases |s|
  {
    if s != [] {
      var front, last := s[..|s| - 1], s[|s| - 1];
      ExpandedValue(front);
      NextValue(Expanded(front), last);
      RemainderLast(s);
    }
  }

  lemma NextValue(x: string, c: char)
    requires AllDigits(x) && IsCodeChar(c)
    ensures AllDigits(x + Expansion(c)) && NatValue(x + Expansion(c)) % 97 == Next(NatValue(x) % 97, c)
  {
    NatValueNext(x, c);
    NextOfRemainder(NatValue(x), c);
  }

  lemma RemainderLast(s: string)
    requires IsCode(s) && s != []
    ensures Remainder(0, s) == Next(Remainder(0, s[..|s| - 1]), s[|s| - 1])
  {
    var front, last := s[..|s| - 1], s[|s| - 1];
    RemainderSplit(0, front, [last]);
    assert s == front + [last];
    assert Remainder(Remainder(0, front), [last]) == Next(Remainder(0, front), last);
  }

  lemma NextOfRemainder(n: nat, c: char)
    requires IsCodeChar(c)
    ensures Next(n % 97, c) == ((if IsDigit(c) then 10 else 100) * n + CharValue(c)) % 97
  {
    var q, r := n / 97, n % 97;
    if IsDigit(c) {
      SameModulo(10 * r + CharValue(c), 10 * n + CharValue(c), 10 * q);
    } else {
      SameModulo(100 * r + CharValue(c), 100 * n + CharValue(c), 100 * q);
    }
  }

  lemma SameModulo(x: int, y: int, k: int)
    requires y == x + 97 * k
    ensures x % 97 == y % 97
  {
  }

  lemma ExpandedNotEmpty(s: string)
    requires s != []
    ensures Expanded(s) != []
  {
  }

  /** On twenty characters of the alphabet the check asks whether the remainder is one. */
  lemma CheckIsRemainder(lei: string)
    requires |lei| == 20 && IsCode(lei)
    ensures Check(lei) == Ok(Remainder(0, lei) == 1)
  {
    var s := Expanded(lei);
    ExpandedValue(lei);
    ExpandedNotEmpty(lei);
    NothingToStrip(s);
    DigitsRead(s);
    assert s[0] != '+' && s[0] != '-';
  }

  lemma {:induction false} DashIsNoNumber(x: string)
    ensures IntDigits(x + "-45") == None
  {
    var s := x + "-45";
    assert s[..|s| - 1] == x + "-4" && (x + "-4")[..|x| + 1] == x + "-";
    assert IntDigits(x + "-") == None;
  }

  lemma DashRaises(x: string)
    requires x != "" && AllDigits(x)
    ensures PyInt(x + "-45") == None
  {
    NothingToStrip(x + "-45");
    assert (x + "-45")[0] == x[0];
    DashIsNoNumber(x);
  }

  lemma ExpandedNewline(lei: string)
    ensures Expanded(lei + "\n") == Expanded(lei) + "-45"
  {
    LetterDigits(45);
    assert (lei + "\n")[..|lei|] == lei;
  }

  lemma NewlineMatches(lei: string)
    requires |lei| == 20 && IsCode(lei)
    ensures Matches(lei + "\n")
  {
    assert (lei + "\n")[..20] == lei;
  }

  /** With a final newline behind a code the compiler's check raises instead of answering. */
  lemma NewlineRaises(lei: string)
    requires |lei| == 20 && IsCode(lei)
    ensures Check(lei + "\n") == Err(ValueError)
  {
    NewlineMatches(lei);
    ExpandedNewline(lei);
    ExpandedValue(lei);
    ExpandedNotEmpty(lei);
    DashRaises(Expanded(lei));
  }

  lemma NewlineSplits(lei: string)
    requires |lei| == 21 && lei[20] == '\n'
    ensures lei == lei[..20] + "\n"
  {
  }

  /** Exactly the codes with a final newline raise; everything else is answered. */
  lemma RaisesExactly(lei: string)
    ensures Check(lei).Err? <==> |lei| == 21 && IsCode(lei[..20]) && lei[20] == '\n'
  {
    if Matches(lei) {
      if |lei| == 20 {
        CheckIsRemainder(lei);
      } else {
        NewlineSplits(lei);
        NewlineRaises(lei[..20]);
      }
    }
  }

  /** Exactly what passes: twenty digits and capital letters with remainder one. */
  lemma PassesExactly(lei: string)
    ensures Check(lei) == Ok(true) <==> |lei| == 20 && IsCode(lei) && Remainder(0, lei) == 1
  {
    if |lei| == 20 && IsCode(lei) {
      CheckIsRemainder(lei);
    } else {
      RaisesExactly(lei);
    }
  }

  /* ----- What the check digits detect ----- */

  lemma MultipleOf9(x: int)
    requires (9 * x) % 97 == 0 && -97 < x < 97
    ensures x == 0
  {
    assert 9 * x == 97 * (9 * x / 97);
  }

  lemma MultipleOf10(x: int)
    requires (10 * x) % 97 == 0 && -97 < x < 97
    ensures x == 0
  {
    assert 10 * x == 97 * (10 * x / 97);
  }

  lemma MultipleOf99(x: int)
    requires (99 * x) % 97 == 0 && -97 < x < 97
    ensures x == 0
  {
    assert 99 * x == 97 * (99 * x / 97);
  }

  lemma MultipleOf100(x: int)
    requires (100 * x) % 97 == 0 && -97 < x < 97
    ensures x == 0
  {
    assert 100 * x == 97 * (100 * x / 97);
  }

  /** Different remainders stay different whatever follows. */
  lemma {:induction false} RemainderInjective(r: nat, r': nat, s: string)
    requires IsCode(s) && r < 97 && r' < 97
    ensures Remainder(r, s) == Remainder(r', s) <==> r == r'
    decreases |s|
  {
    if s != [] {
      RemainderInjective(Next(r, s[0]), Next(r', s[0]), s[1..]);
      NextInjective(r, r', s[0]);
    }
  }

  lemma NextInjective(r: nat, r': nat, c: char)
    requires IsCodeChar(c) && r < 97 && r' < 97
    ensures Next(r, c) == Next(r', c) <==> r == r'
  {
    if Next(r, c) == Next(r', c) {
      if IsDigit(c) {
        ModularDifference(10 * r + CharValue(c), 10 * r' + CharValue(c));
        MultipleOf10(r - r');
      } else {
        ModularDifference(100 * r + CharValue(c), 100 * r' + CharValue(c));
        MultipleOf100(r - r');
      }
    }
  }

  lemma ModularDifference(x: int, y: int)
    ensures x % 97 == y % 97 <==> (x - y) % 97 == 0
  {
  }

  /** Replacing the middle of a code keeps the remainder exactly when it does so up to there. */
  lemma MiddleDecides(a: string, x: string, y: string, b: string)
    requires IsCode(a) && IsCode(x) && IsCode(y) && IsCode(b)
    ensures IsCode(a + x + b) && IsCode(a + y + b)
    ensures Remainder(0, a + x + b) == Remainder(0, a + y + b) <==>
            Remainder(Remainder(0, a), x) == Remainder(Remainder(0, a), y)
  {
    RemainderSplit(0, a + x, b);
    RemainderSplit(0, a, x);
    RemainderSplit(0, a + y, b);
    RemainderSplit(0, a, y);
    RemainderInjective(Remainder(0, a + x), Remainder(0, a + y), b);
  }

  predicate IsValid(lei: string) {
    Check(lei) == Ok(true)
  }

  predicate SameKind(c: char, d: char) {
    IsDigit(c) == IsDigit(d)
  }

  /** The replacement goes unnoticed: a letter for a digit, or the reverse, behind a prefix of this remainder. */
  predicate Unnoticed(r: nat, c: char, d: char)
    requires IsCodeChar(c) && IsCodeChar(d)
  {
    !SameKind(c, d) &&
    var digit, letter := if IsDigit(c) then CharValue(c) else CharValue(d), if IsDigit(c) then CharValue(d) else CharValue(c);
    (90 * r + letter - digit) % 97 == 0
  }

  lemma SmallMultiple(x: int)
    requires -97 < x < 97 && x % 97 == 0
    ensures x == 0
  {
  }

  lemma SameKindDetects(r: nat, c: char, d: char)
    requires r < 97 && IsCodeChar(c) && IsCodeChar(d) && c != d && SameKind(c, d)
    ensures Next(r, c) != Next(r, d)
  {
    var v: int, w: int := CharValue(c), CharValue(d);
    var m := if IsDigit(c) then 10 * r else 100 * r;
    ModularDifference(m + v, m + w);
    if (v - w) % 97 == 0 {
      SmallMultiple(v - w);
    }
  }

  lemma DigitAgainstLetter(r: nat, digit: char, letter: char)
    requires r < 97 && IsDigit(digit) && IsUpper(letter)
    ensures Next(r, digit) == Next(r, letter) <==> (90 * r + CharValue(letter) - CharValue(digit)) % 97 == 0
  {
    ModularDifference(100 * r + CharValue(letter), 10 * r + CharValue(digit));
  }

  lemma OneStepDetects(r: nat, c: char, d: char)
    requires r < 97 && IsCodeChar(c) && IsCodeChar(d) && c != d
    ensures Next(r, c) == Next(r, d) <==> Unnoticed(r, c, d)
  {
    hide Next;
    if SameKind(c, d) {
      SameKindDetects(r, c, d);
    } else if IsDigit(c) {
      DigitAgainstLetter(r, c, d);
    } else {
      DigitAgainstLetter(r, d, c);
    }
  }

  /**
   A valid code with one character replaced is still valid exactly in the cases of Unnoticed;
   in particular replacing a digit by a digit or a letter by a letter is always detected.
   */
  lemma SubstitutionDetected(lei: string, i: nat, d: char)
    requires |lei| == 20 && IsCode(lei) && IsValid(lei) && i < 20 && IsCodeChar(d) && d != lei[i]
    ensures IsCode(lei[..i])
    ensures IsValid(lei[i := d]) <==> Unnoticed(Remainder(0, lei[..i]), lei[i], d)
    ensures SameKind(lei[i], d) ==> !IsValid(lei[i := d])
  {
    var a, b := lei[..i], lei[i + 1..];
    assert lei == a + [lei[i]] + b && lei[i := d] == a + [d] + b;
    MiddleDecides(a, [lei[i]], [d], b);
    var r := Remainder(0, a);
    assert Remainder(r, [lei[i]]) == Next(r, lei[i]) && Remainder(r, [d]) == Next(r, d);
    OneStepDetects(r, lei[i], d);
    CheckIsRemainder(lei);
    CheckIsRemainder(lei[i := d]);
  }

  /** The pairs whose exchange the check does not see. */
  predicate BlindPair(c: char, d: char) {
    (c, d) in {('1', 'B'), ('2', 'M'), ('3', 'X'), ('B', '1'), ('M', '2'), ('X', '3')}
  }

  function Weight(c: char): nat
    requires IsCodeChar(c)
  {
    if IsDigit(c) then 10 else 100
  }

  lemma TwoSteps(r: nat, c: char, d: char)
    requires r < 97 && IsCodeChar(c) && IsCodeChar(d)
    ensures Next(Next(r, c), d) == (Weight(d) * (Weight(c) * r + CharValue(c)) + CharValue(d)) % 97
  {
    NextOfRemainder(Weight(c) * r + CharValue(c), d);
  }

  lemma SwapDifference(r: nat, c: char, d: char)
    requires r < 97 && IsCodeChar(c) && IsCodeChar(d)
    ensures Next(Next(r, c), d) == Next(Next(r, d), c) <==>
            ((Weight(d) - 1) * CharValue(c) - (Weight(c) - 1) * CharValue(d)) % 97 == 0
  {
    TwoSteps(r, c, d);
    TwoSteps(r, d, c);
    var x := Weight(d) * (Weight(c) * r + CharValue(c)) + CharValue(d);
    var y := Weight(c) * (Weight(d) * r + CharValue(d)) + CharValue(c);
    ModularDifference(x, y);
    assert x - y == (Weight(d) - 1) * CharValue(c) - (Weight(c) - 1) * CharValue(d);
  }

  lemma DigitAndLetter(v: int, w: int)
    requires 0 <= v < 10 <= w < 36
    ensures (99 * v - 9 * w) % 97 == 0 <==> w == 11 * v
  {
    assert 99 * v - 9 * w == 9 * (11 * v - w);
    if (9 * (11 * v - w)) % 97 == 0 {
      MultipleOf9(11 * v - w);
    }
  }

  lemma NegatedMultiple(x: int)
    ensures x % 97 == 0 <==> -x % 97 == 0
  {
  }

  lemma BlindPairsByValue(c: char, d: char)
    requires IsCodeChar(c) && IsCodeChar(d) && c != d
    ensures ((Weight(d) - 1) * CharValue(c) - (Weight(c) - 1) * CharValue(d)) % 97 == 0 <==> BlindPair(c, d)
  {
    var v: int, w: int := CharValue(c), CharValue(d);
    assert v != w;
    if IsDigit(c) && IsDigit(d) {
      if (9 * (v - w)) % 97 == 0 { MultipleOf9(v - w); }
    } else if !IsDigit(c) && !IsDigit(d) {
      if (99 * (v - w)) % 97 == 0 { MultipleOf99(v - w); }
    } else if IsDigit(c) {
      DigitAndLetter(v, w);
    } else {
      DigitAndLetter(w, v);
      NegatedMultiple(99 * w - 9 * v);
    }
  }

  lemma SwapSlices(lei: string, i: nat)
    requires i + 1 < |lei|
    ensures lei == lei[..i] + [lei[i], lei[i + 1]] + lei[i + 2..]
    ensures lei[i := lei[i + 1]][i + 1 := lei[i]] == lei[..i] + [lei[i + 1], lei[i]] + lei[i + 2..]
  {
  }

  /** Exchanging two different neighbours of a valid code is detected, except for exactly six pairs. */
  lemma TranspositionDetected(lei: string, i: nat)
    requires |lei| == 20 && IsCode(lei) && IsValid(lei) && i < 19 && lei[i] != lei[i + 1]
    ensures IsValid(lei[i := lei[i + 1]][i + 1 := lei[i]]) <==> BlindPair(lei[i], lei[i + 1])
  {
    var a, b, c, d := lei[..i], lei[i + 2..], lei[i], lei[i + 1];
    var swapped := lei[i := d][i + 1 := c];
    SwapSlices(lei, i);
    MiddleDecides(a, [c, d], [d, c], b);
    var r := Remainder(0, a);
    PairRemainder(r, c, d);
    PairRemainder(r, d, c);
    SwapDifference(r, c, d);
    BlindPairsByValue(c, d);
    CheckIsRemainder(lei);
    CheckIsRemainder(swapped);
  }

  lemma PairRemainder(r: nat, c: char, d: char)
    requires r < 97 && IsCodeChar(c) && IsCodeChar(d)
    ensures IsCode([c, d]) && Remainder(r, [c, d]) == Next(Next(r, c), d)
  {
    assert [c, d][1..] == [d] && [d][1..] == [];
    assert Remainder(Next(r, c), [d]) == Next(Next(r, c), d);
  }

  /** A check pair as two digits. */
  function CheckPair(k: nat): string
    requires k < 100
  {
    [DigitChar(k / 10), DigitChar(k % 10)]
  }

  lemma CheckPairRemainder(r: nat, k: nat)
    requires r < 97 && k < 100
    ensures IsCode(CheckPair(k)) && Remainder(r, CheckPair(k)) == (100 * r + k) % 97
  {
    PairRemainder(r, DigitChar(k / 10), DigitChar(k % 10));
    TwoSteps(r, DigitChar(k / 10), DigitChar(k % 10));
  }

  lemma PrefixDecides(prefix: string, k: nat)
    requires |prefix| == 18 && IsCode(prefix) && k < 100
    ensures IsValid(prefix + CheckPair(k)) <==> (100 * Remainder(0, prefix) + k) % 97 == 1
  {
    CheckPairRemainder(Remainder(0, prefix), k);
    RemainderSplit(0, prefix, CheckPair(k));
    CheckIsRemainder(prefix + CheckPair(k));
  }

  lemma OnePairFits(r: nat, k: nat, j: nat)
    requires k == 98 - (100 * r) % 97 && 2 <= j <= 98
    ensures (100 * r + j) % 97 == 1 <==> j == k
  {
    SameModulo(98, 100 * r + k, (100 * r) / 97);
    ModularDifference(100 * r + j, 100 * r + k);
  }

  /** Every prefix of eighteen characters has exactly one check pair between 02 and 98. */
  lemma OneCheckPair(prefix: string) returns (k: nat)
    requires |prefix| == 18 && IsCode(prefix)
    ensures 2 <= k <= 98 && IsValid(prefix + CheckPair(k))
    ensures forall j :: 2 <= j <= 98 && IsValid(prefix + CheckPair(j)) ==> j == k
  {
    var r := Remainder(0, prefix);
    k := 98 - (100 * r) % 97;
    PrefixDecides(prefix, k);
    OnePairFits(r, k, k);
    forall j | 2 <= j <= 98 && IsValid(prefix + CheckPair(j)) ensures j == k {
      PrefixDecides(prefix, j);
      OnePairFits(r, k, j);
    }
  }
}
