/** `normaliseLei` of authority/lib/normalise.js: the check digits of a Legal Entity Identifier
    (ISO 17442), which use MOD 97-10 of ISO/IEC 7064. */
module Lei {
  import opened Records
  import opened Normalise

  predicate IsLetter(c: char) {
    'A' <= c <= 'Z'
  }

  predicate IsCodeChar(c: char) {
    IsDigit(c) || IsLetter(c)
  }

  predicate IsCode(s: string) {
    forall i :: 0 <= i < |s| ==> IsCodeChar(s[i])
  }

  /** 0 to 9 for a digit, 10 to 35 for a letter. */
  function CharValue(c: char): nat
    requires IsCodeChar(c)
  {
    if IsDigit(c) then c as int - '0' as int else c as int - 55
  }

  function DigitChar(d: nat): char
    requires d < 10
  {
    (d + '0' as int) as char
  }

  /** Letters become two digits. */
  function Expanded(s: string): string
    requires IsCode(s)
  {
    if s == "" then ""
    else
      var c := s[|s| - 1];
      Expanded(s[..|s| - 1]) + if IsDigit(c) then [c] else [DigitChar(CharValue(c) / 10), DigitChar(CharValue(c) % 10)]
  }

  lemma {:induction false} ExpandedIsDigits(s: string)
    requires IsCode(s)
    ensures AllDigits(Expanded(s))
  {
    if s == "" {
    } else {
      ExpandedIsDigits(s[..|s| - 1]);
    }
  }

  /** `normaliseLei`. */
  function NormaliseLei(raw: Option<string>): Option<string> {
    if raw.None? then None
    else
      var s := Squeeze(raw.value);
      if |s| == 20 && IsCode(s) && Checks(s) then Some(s) else None
  }

  predicate Checks(s: string)
    requires IsCode(s)
  {
    ExpandedIsDigits(s);
    NumberIn(Expanded(s)) % 97 == 1
  }

  // ---------- the value of a code ----------

  /** What the number is multiplied by when a character follows. */
  function Shift(c: char): nat {
    if IsDigit(c) then 10 else 100
  }

  function Value(s: string): nat
    requires IsCode(s)
  {
    if s == "" then 0 else Value(s[..|s| - 1]) * Shift(s[|s| - 1]) + CharValue(s[|s| - 1])
  }

  /** The value of a code that starts with a part of value `x` and goes on with `b`. */
  function Continue(x: int, b: string): int
    requires IsCode(b)
  {
    if b == "" then x else Continue(x, b[..|b| - 1]) * Shift(b[|b| - 1]) + CharValue(b[|b| - 1])
  }

  /** The expanded text denotes the value. */
  lemma {:induction false} ExpandedDenotesValue(s: string)
    requires IsCode(s)
    ensures AllDigits(Expanded(s)) && NumberIn(Expanded(s)) == Value(s)
  {
    ExpandedIsDigits(s);
    if s != "" {
      var front, c := s[..|s| - 1], s[|s| - 1];
      ExpandedDenotesValue(front);
      if IsDigit(c) {
        NumberOneMore(Expanded(front), c);
      } else {
        var tens, units := DigitChar(CharValue(c) / 10), DigitChar(CharValue(c) % 10);
        NumberOneMore(Expanded(front), tens);
        NumberOneMore(Expanded(front) + [tens], units);
        assert Expanded(front) + [tens] + [units] == Expanded(s);
      }
    }
  }

  lemma {:induction false} ValueContinues(a: string, b: string)
    requires IsCode(a) && IsCode(b)
    ensures IsCode(a + b) && Value(a + b) == Continue(Value(a), b)
  {
    if b == "" {
      assert a + b == a;
    } else {
      var front, c := b[..|b| - 1], b[|b| - 1];
      ValueContinues(a, front);
      assert (a + b)[..|a + b| - 1] == a + front && (a + b)[|a + b| - 1] == c;
    }
  }

  // ---------- 97 is prime to 10 ----------

  lemma TenCancels(x: int)
    requires (10 * x) % 97 == 0
    ensures x % 97 == 0
  {
    var q := 10 * x / 97;
    assert 10 * x == 97 * q;
    assert x == 97 * (68 * q - 7 * x);
  }

  lemma ShiftCancels(x: int, c: char)
    requires (x * Shift(c)) % 97 == 0
    ensures x % 97 == 0
  {
    if IsDigit(c) {
      TenCancels(x);
    } else {
      assert x * Shift(c) == 10 * (10 * x);
      TenCancels(10 * x);
      TenCancels(x);
    }
  }

  /** What follows a part of a code never hides a difference of that part from the check. */
  lemma {:induction false} ContinueKeepsDifference(x: int, y: int, b: string)
    requires IsCode(b) && (Continue(x, b) - Continue(y, b)) % 97 == 0
    ensures (x - y) % 97 == 0
  {
    if b == "" {
    } else {
      var front, c := b[..|b| - 1], b[|b| - 1];
      ScaledDifference(Continue(x, front), Continue(y, front), Shift(c), CharValue(c));
      ShiftCancels(Continue(x, front) - Continue(y, front), c);
      ContinueKeepsDifference(x, y, front);
    }
  }

  lemma ScaledDifference(x: int, y: int, k: int, r: int)
    ensures (x * k + r) - (y * k + r) == (x - y) * k
  {
  }

  lemma SameRemainder(x: int, y: int)
    requires x % 97 == y % 97
    ensures (x - y) % 97 == 0
  {
  }

  lemma ChecksContinue(a: string, end: string)
    requires IsCode(a) && IsCode(end)
    ensures IsCode(a + end)
    ensures Checks(a + end) <==> Continue(Value(a), end) % 97 == 1
  {
    ValueContinues(a, end);
    ExpandedDenotesValue(a + end);
  }

  lemma BothPass(x: int, y: int, end: string)
    requires IsCode(end) && Continue(x, end) % 97 == 1 && Continue(y, end) % 97 == 1
    ensures (x - y) % 97 == 0
  {
    SameRemainder(Continue(x, end), Continue(y, end));
    ContinueKeepsDifference(x, y, end);
  }

  lemma CodeOfCodes(a: string, b: string)
    requires IsCode(a) && IsCode(b)
    ensures IsCode(a + b)
  {
  }

  /** Two codes with a common end that both pass have starts that differ by a multiple of 97. */
  lemma StartsDiffer(a: string, b: string, end: string)
    requires IsCode(a) && IsCode(b) && IsCode(end) && IsCode(a + end) && IsCode(b + end)
    requires Checks(a + end) && Checks(b + end)
    ensures (Value(a) - Value(b)) % 97 == 0
  {
    ChecksContinue(a, end);
    ChecksContinue(b, end);
    BothPass(Value(a), Value(b), end);
  }

  /** Starts of equal value pass alike. */
  lemma EqualStartsPassAlike(a: string, b: string, end: string)
    requires IsCode(a) && IsCode(b) && IsCode(end) && Value(a) == Value(b)
    ensures IsCode(a + end) && IsCode(b + end)
    ensures Checks(a + end) <==> Checks(b + end)
  {
    ChecksContinue(a, end);
    ChecksContinue(b, end);
  }

  lemma ValueOneMore(a: string, c: char)
    requires IsCode(a) && IsCodeChar(c)
    ensures IsCode(a + [c]) && CharValue(c) < 36 && Value(a + [c]) == Value(a) * Shift(c) + CharValue(c)
  {
    assert (a + [c])[..|a|] == a;
  }

  lemma ValueTwoMore(a: string, c: char, d: char)
    requires IsCode(a) && IsCodeChar(c) && IsCodeChar(d)
    ensures IsCode(a + [c, d]) && CharValue(c) < 36 && CharValue(d) < 36
    ensures Value(a + [c, d]) == (Value(a) * Shift(c) + CharValue(c)) * Shift(d) + CharValue(d)
  {
    ValueOneMore(a, c);
    ValueOneMore(a + [c], d);
    assert a + [c] + [d] == a + [c, d];
  }

  // ---------- the check digits of a stem ----------

  /** Digits count as themselves and letters from 10 for A to 35 for Z. */
  lemma CharValues(c: char)
    ensures IsCodeChar(c) <==> '0' <= c <= '9' || 'A' <= c <= 'Z'
    ensures '0' <= c <= '9' ==> CharValue(c) == c as int - '0' as int
    ensures 'A' <= c <= 'Z' ==> CharValue(c) == c as int - 'A' as int + 10
  {
  }

  /** Of the numbers from 2 to 98 exactly one gives a stem its check digits: 98 less the remainder of a
      hundred times its value. */
  lemma CheckDigitsIff(stem: string, d: nat)
    requires IsCode(stem) && 2 <= d <= 98
    ensures IsCode(stem + [DigitChar(d / 10), DigitChar(d % 10)])
    ensures Checks(stem + [DigitChar(d / 10), DigitChar(d % 10)]) <==> d == 98 - 100 * Value(stem) % 97
  {
    StemWithDigits(stem, d);
    ExpandedDenotesValue(stem + [DigitChar(d / 10), DigitChar(d % 10)]);
    RemainderOfSum(100 * Value(stem), d);
  }

  lemma StemWithDigits(stem: string, d: nat)
    requires IsCode(stem) && d < 100
    ensures IsCode(stem + [DigitChar(d / 10), DigitChar(d % 10)])
    ensures Value(stem + [DigitChar(d / 10), DigitChar(d % 10)]) == 100 * Value(stem) + d
  {
    var tens, units := DigitChar(d / 10), DigitChar(d % 10);
    ValueTwoMore(stem, tens, units);
    assert Shift(tens) == Shift(units) == 10 && CharValue(tens) == d / 10 && CharValue(units) == d % 10;
  }

  lemma RemainderOfSum(x: nat, d: nat)
    requires 2 <= d <= 98
    ensures (x + d) % 97 == 1 <==> d == 98 - x % 97
  {
  }

  // ---------- what the check digits detect ----------

  predicate SameKind(c: char, d: char) {
    (IsDigit(c) && IsDigit(d)) || (IsLetter(c) && IsLetter(d))
  }

  lemma SubstitutionGap(a: string, c: char, d: char)
    requires IsCode(a) && SameKind(c, d) && c != d
    ensures IsCode(a + [c]) && IsCode(a + [d]) && (Value(a + [c]) - Value(a + [d])) % 97 != 0
  {
    ValueOneMore(a, c);
    ValueOneMore(a, d);
  }

  /** Replacing one character by a different one of its kind is always detected. */
  lemma SubstitutionDetected(a: string, c: char, d: char, b: string)
    requires IsCode(a) && IsCode(b) && SameKind(c, d) && c != d
    ensures IsCode(a + [c] + b) && IsCode(a + [d] + b) && !(Checks(a + [c] + b) && Checks(a + [d] + b))
  {
    SubstitutionGap(a, c, d);
    CodeOfCodes(a + [c], b);
    CodeOfCodes(a + [d], b);
    if Checks(a + [c] + b) && Checks(a + [d] + b) { StartsDiffer(a + [c], a + [d], b); }
  }

  lemma NineCancels(z: int)
    requires (9 * z) % 97 == 0
    ensures z % 97 == 0
  {
    var q := 9 * z / 97;
    assert 9 * z == 97 * q;
    assert z == 97 * (54 * q - 5 * z);
  }

  lemma ElevenCancels(z: int)
    requires (11 * z) % 97 == 0
    ensures z % 97 == 0
  {
    var q := 11 * z / 97;
    assert 11 * z == 97 * q;
    assert z == 97 * (53 * q - 6 * z);
  }

  /** What a swap changes, by the kinds of the two characters. */
  lemma SwapWithinKind(x: nat, y: nat)
    requires x != y
    ensures x < 10 && y < 10 ==> (x * 10 + y - (y * 10 + x)) % 97 != 0
    ensures 10 <= x < 36 && 10 <= y < 36 ==> (x * 100 + y - (y * 100 + x)) % 97 != 0
  {
    if x < 10 && y < 10 && (9 * (x - y)) % 97 == 0 { NineCancels(x - y); }
    if 10 <= x < 36 && 10 <= y < 36 && (9 * (11 * (x - y))) % 97 == 0 {
      NineCancels(11 * (x - y));
      ElevenCancels(x - y);
    }
  }

  lemma SwapAcrossKinds(x: nat, y: nat, gap: int)
    requires x < 10 <= y < 36 && (gap == x * 100 + y - (y * 10 + x) || -gap == x * 100 + y - (y * 10 + x))
    requires gap % 97 == 0
    ensures y == 11 * x
  {
    var z := 11 * x - y;
    assert gap == 9 * z || gap == 9 * -z;
    if gap == 9 * z { NineCancels(z); } else { NineCancels(-z); }
    SmallMultiple(z);
  }

  lemma SmallMultiple(z: int)
    requires -97 < z < 97 && (z % 97 == 0 || -z % 97 == 0)
    ensures z == 0
  {
  }

  function Gap(c: char, d: char): int
    requires IsCodeChar(c) && IsCodeChar(d)
  {
    (CharValue(c) * Shift(d) + CharValue(d)) - (CharValue(d) * Shift(c) + CharValue(c))
  }

  /** How much a swap changes the value, wherever it happens. */
  lemma SwapGap(v: int, c: char, d: char)
    requires IsCodeChar(c) && IsCodeChar(d)
    ensures ((v * Shift(c) + CharValue(c)) * Shift(d) + CharValue(d)) - ((v * Shift(d) + CharValue(d)) * Shift(c)
            + CharValue(c))
         == Gap(c, d)
  {
    if IsDigit(c) {
      assert Shift(c) == 10;
    } else {
      assert Shift(c) == 100;
    }
  }

  /** Swapping two different neighbours is detected, unless a digit swaps with the letter whose value is
      eleven times the digit: 1 and B, 2 and M, 3 and X. */
  lemma SwapDetectedIff(a: string, c: char, d: char, b: string)
    requires IsCode(a) && IsCode(b) && IsCodeChar(c) && IsCodeChar(d) && c != d
    ensures IsCode(a + [c, d] + b) && IsCode(a + [d, c] + b)
    ensures Checks(a + [c, d] + b) && Checks(a + [d, c] + b) ==> Elevenfold(c, d)
    ensures Elevenfold(c, d) ==> (Checks(a + [c, d] + b) <==> Checks(a + [d, c] + b))
  {
    ValuesOfSwap(a, c, d);
    CodeOfCodes(a + [c, d], b);
    CodeOfCodes(a + [d, c], b);
    if Checks(a + [c, d] + b) && Checks(a + [d, c] + b) {
      StartsDiffer(a + [c, d], a + [d, c], b);
      NoGapMeansElevenfold(c, d);
    }
    if Elevenfold(c, d) { EqualStartsPassAlike(a + [c, d], a + [d, c], b); }
  }

  lemma ValuesOfSwap(a: string, c: char, d: char)
    requires IsCode(a) && IsCodeChar(c) && IsCodeChar(d)
    ensures IsCode(a + [c, d]) && IsCode(a + [d, c]) && Value(a + [c, d]) - Value(a + [d, c]) == Gap(c, d)
    ensures Elevenfold(c, d) ==> Value(a + [c, d]) == Value(a + [d, c])
  {
    ValueTwoMore(a, c, d);
    ValueTwoMore(a, d, c);
    SwapGap(Value(a), c, d);
    if Elevenfold(c, d) { ElevenfoldHasNoGap(c, d); }
  }

  lemma ElevenfoldHasNoGap(c: char, d: char)
    requires IsCodeChar(c) && IsCodeChar(d) && Elevenfold(c, d)
    ensures Gap(c, d) == 0
  {
  }

  lemma NoGapMeansElevenfold(c: char, d: char)
    requires IsCodeChar(c) && IsCodeChar(d) && c != d && Gap(c, d) % 97 == 0
    ensures Elevenfold(c, d)
  {
    var x, y := CharValue(c), CharValue(d);
    if SameKind(c, d) {
      SwapWithinKind(x, y);
    } else if IsDigit(c) {
      SwapAcrossKinds(x, y, Gap(c, d));
    } else {
      SwapAcrossKinds(y, x, Gap(c, d));
    }
  }

  predicate Elevenfold(c: char, d: char)
    requires IsCodeChar(c) && IsCodeChar(d)
  {
    !SameKind(c, d) && (CharValue(c) == 11 * CharValue(d) || CharValue(d) == 11 * CharValue(c))
  }

  // ---------- at the normaliser ----------

  lemma CodeIsSqueezed(s: string)
    requires IsCode(s)
    ensures Squeeze(s) == s
  {
    SqueezedIsKept(Ascii, s);
  }

  lemma AcceptedIsFixed(raw: Option<string>)
    requires NormaliseLei(raw).Some?
    ensures var s := NormaliseLei(raw).value;
            |s| == 20 && IsCode(s) && Checks(s) && NormaliseLei(Some(s)) == Some(s)
  {
    CodeIsSqueezed(NormaliseLei(raw).value);
  }

  lemma Pieces(s: string, i: nat, d: char)
    requires i < |s|
    ensures s == s[..i] + [s[i]] + s[i + 1..] && s[i := d] == s[..i] + [d] + s[i + 1..]
  {
  }

  /** From an accepted code, replacing one character by another of its kind leads to a rejected one. */
  lemma SubstitutionRejected(raw: Option<string>, i: nat, d: char)
    requires NormaliseLei(raw).Some? && i < |NormaliseLei(raw).value|
    requires SameKind(NormaliseLei(raw).value[i], d) && NormaliseLei(raw).value[i] != d
    ensures NormaliseLei(Some(NormaliseLei(raw).value[i := d])) == None
  {
    var s := NormaliseLei(raw).value;
    AcceptedIsFixed(raw);
    Pieces(s, i, d);
    SubstitutionDetected(s[..i], s[i], d, s[i + 1..]);
    CodeIsSqueezed(s[i := d]);
  }

  function Swapped(s: string, i: nat): string
    requires i + 1 < |s|
  {
    s[i := s[i + 1]][i + 1 := s[i]]
  }

  lemma SwapPieces(s: string, i: nat)
    requires i + 1 < |s|
    ensures s == s[..i] + [s[i], s[i + 1]] + s[i + 2..] && Swapped(s, i) == s[..i] + [s[i + 1], s[i]] + s[i + 2..]
  {
  }

  /** From an accepted code, swapping two different neighbours leads to a rejected one, except for the
      elevenfold pairs, where it leads to an accepted one. */
  lemma SwapRejectedIff(raw: Option<string>, i: nat)
    requires NormaliseLei(raw).Some? && i + 1 < |NormaliseLei(raw).value|
    ensures var s := NormaliseLei(raw).value;
            IsCode(s) && (s[i] != s[i + 1] ==>
                NormaliseLei(Some(Swapped(s, i))) == if Elevenfold(s[i], s[i + 1]) then Some(Swapped(s, i)) else None)
  {
    var s := NormaliseLei(raw).value;
    AcceptedIsFixed(raw);
    if s[i] != s[i + 1] {
      SwapPieces(s, i);
      SwapDetectedIff(s[..i], s[i], s[i + 1], s[i + 2..]);
      CodeIsSqueezed(Swapped(s, i));
    }
  }
}
