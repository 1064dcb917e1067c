/** authority/lib/normalise.js: the identifier normalisers. String.prototype.toUpperCase is any mapping
    of characters to strings that is stable; the modules that use the normalisers fix the ASCII one.
    A null or undefined argument is None. */
module Normalise {
  import opened Records

  function Upper(c: char): char {
    if 'a' <= c <= 'z' then (c as int - 'a' as int + 'A' as int) as char else c
  }

  /** The characters of the regular expression class \s, which String.prototype.trim removes too. */
  predicate IsSpace(c: char) {
    c == ' ' || '\t' <= c <= '\r' || c == '\U{A0}' || c == '\U{1680}' || '\U{2000}' <= c <= '\U{200A}'
    || c == '\U{2028}' || c == '\U{2029}' || c == '\U{202F}' || c == '\U{205F}' || c == '\U{3000}' || c == '\U{FEFF}'
  }

  predicate IsDigit(c: char) {
    '0' <= c <= '9'
  }

  function Ascii(c: char): string {
    [Upper(c)]
  }

  /** Character by character, as a character may have an upper case of several characters. */
  function UpperAll(up: char -> string, s: string): string {
    if s == "" then "" else up(s[0]) + UpperAll(up, s[1..])
  }

  /** An upper-cased character is upper case, and a digit has no other case. */
  ghost predicate Stable(up: char -> string) {
    && (forall c, d :: d in up(c) ==> up(d) == [d])
    && (forall c :: IsDigit(c) ==> up(c) == [c])
  }

  lemma AsciiIsStable()
    ensures Stable(Ascii)
  {
  }

  function Keep(p: char -> bool, s: string): string {
    if s == "" then "" else (if p(s[0]) then [s[0]] else []) + Keep(p, s[1..])
  }

  predicate AllDigits(s: string) {
    forall i :: 0 <= i < |s| ==> IsDigit(s[i])
  }

  function PadStart8(s: string): string
    decreases 8 - |s|
  {
    if |s| < 8 then PadStart8("0" + s) else s
  }

  /** `/^0+(?=\d)/`: leading zeros go while another digit follows. */
  function StripZeros(s: string): string {
    if |s| >= 2 && s[0] == '0' then StripZeros(s[1..]) else s
  }

  /** Uppercase without white space: the common part of the code-like normalisers. */
  function SqueezeBy(up: char -> string, raw: string): string {
    Keep(c => !IsSpace(c), UpperAll(up, raw))
  }

  function CompanyNumberBy(up: char -> string, raw: Option<string>): Option<string> {
    match raw
    case None => None
    case Some(r) =>
      var s := SqueezeBy(up, r);
      if s == "" then None
      else if AllDigits(s) && |s| < 8 then Some(PadStart8(s))
      else Some(s)
  }

  function Squeeze(raw: string): string {
    SqueezeBy(Ascii, raw)
  }

  function CompanyNumber(raw: Option<string>): Option<string> {
    CompanyNumberBy(Ascii, raw)
  }

  function NumericId(raw: Option<string>): Option<string> {
    match raw
    case None => None
    case Some(r) =>
      var s := StripZeros(Keep(IsDigit, r));
      if s == "" then None else Some(s)
  }

  // ---------- idempotence ----------

  ghost predicate All(p: char -> bool, s: string) {
    forall i :: 0 <= i < |s| ==> p(s[i])
  }

  lemma {:induction false} KeepKeeps(p: char -> bool, s: string)
    ensures All(p, Keep(p, s)) && (All(p, s) ==> Keep(p, s) == s)
  {
    if s == "" {
    } else {
      KeepKeeps(p, s[1..]);
      assert s == [s[0]] + s[1..];
      if All(p, s) { assert p(s[0]) && All(p, s[1..]); }
    }
  }

  /** Filtering keeps every property that each character has. */
  lemma {:induction false} KeepPreserves(p: char -> bool, q: char -> bool, s: string)
    requires All(q, s)
    ensures All(q, Keep(p, s))
  {
    if s == "" {
    } else {
      assert q(s[0]) && All(q, s[1..]);
      KeepPreserves(p, q, s[1..]);
    }
  }

  predicate IsUpper(up: char -> string, c: char) {
    up(c) == [c]
  }

  lemma AllOfConcat(p: char -> bool, a: string, b: string)
    requires All(p, a) && All(p, b)
    ensures All(p, a + b)
  {
  }

  lemma {:induction false} UpperAllIsUpper(up: char -> string, s: string)
    requires Stable(up)
    ensures All(c => IsUpper(up, c), UpperAll(up, s))
  {
    if s == "" {
    } else {
      UpperAllIsUpper(up, s[1..]);
      AllOfConcat(c => IsUpper(up, c), up(s[0]), UpperAll(up, s[1..]));
    }
  }

  lemma {:induction false} UpperIsKept(up: char -> string, s: string)
    requires forall i :: 0 <= i < |s| ==> IsUpper(up, s[i])
    ensures UpperAll(up, s) == s
  {
    if s == "" {
    } else {
      UpperIsKept(up, s[1..]);
      assert IsUpper(up, s[0]);
      assert s == [s[0]] + s[1..];
    }
  }

  /** Upper-case text without white space is left as it is. */
  lemma SqueezedIsKept(up: char -> string, s: string)
    requires forall i :: 0 <= i < |s| ==> IsUpper(up, s[i]) && !IsSpace(s[i])
    ensures SqueezeBy(up, s) == s
  {
    UpperIsKept(up, s);
    KeepKeeps(c => !IsSpace(c), s);
  }

  lemma SqueezeIsIdempotent(up: char -> string, raw: string)
    requires Stable(up)
    ensures SqueezeBy(up, SqueezeBy(up, raw)) == SqueezeBy(up, raw)
  {
    var upper, s := UpperAll(up, raw), SqueezeBy(up, raw);
    UpperAllIsUpper(up, raw);
    KeepPreserves(c => !IsSpace(c), c => IsUpper(up, c), upper);
    KeepKeeps(c => !IsSpace(c), upper);
    forall i | 0 <= i < |s| ensures IsUpper(up, s[i]) && !IsSpace(s[i]) {
      assert (c => IsUpper(up, c))(s[i]) && (c => !IsSpace(c))(s[i]);
    }
    SqueezedIsKept(up, s);
  }

  lemma {:induction false} PadStart8Digits(s: string)
    requires AllDigits(s)
    ensures AllDigits(PadStart8(s)) && |PadStart8(s)| >= 8
    decreases 8 - |s|
  {
    if |s| < 8 { PadStart8Digits("0" + s); }
  }

  /** Company numbers are fixed points of their normaliser: "3565404" and "03565404" collapse once. */
  lemma CompanyNumberIsIdempotent(up: char -> string, raw: Option<string>)
    requires Stable(up)
    ensures CompanyNumberBy(up, raw).Some? ==> CompanyNumberBy(up, CompanyNumberBy(up, raw)) == CompanyNumberBy(up, raw)
  {
    if CompanyNumberBy(up, raw).Some? {
      var s := SqueezeBy(up, raw.value);
      SqueezeIsIdempotent(up, raw.value);
      if AllDigits(s) && |s| < 8 {
        PadStart8Digits(s);
        SqueezedIsKept(up, PadStart8(s));
      }
    }
  }

  lemma {:induction false} StripZerosShape(s: string)
    requires AllDigits(s)
    ensures AllDigits(StripZeros(s)) && (s != "" ==> StripZeros(s) != "")
    ensures StripZeros(StripZeros(s)) == StripZeros(s)
  {
    if |s| >= 2 && s[0] == '0' { StripZerosShape(s[1..]); }
  }

  lemma NumericIdIsIdempotent(raw: Option<string>)
    ensures NumericId(raw).Some? ==> NumericId(NumericId(raw)) == NumericId(raw)
  {
    if NumericId(raw).Some? {
      var d := Keep(IsDigit, raw.value);
      KeepKeeps(IsDigit, raw.value);
      assert AllDigits(d);
      StripZerosShape(d);
      var s := StripZeros(d);
      assert All(IsDigit, s);
      KeepKeeps(IsDigit, s);
    }
  }

  /** The normaliser that organisation/resolve.js applies per scheme. */
  function NormaliseFor(s: Scheme, raw: Option<string>): Option<string> {
    if s == Cn then CompanyNumber(raw) else NumericId(raw)
  }

  lemma NormaliseForIsIdempotent(s: Scheme, raw: Option<string>, v: string)
    requires NormaliseFor(s, raw) == Some(v)
    ensures NormaliseFor(s, Some(v)) == Some(v)
  {
    AsciiIsStable();
    CompanyNumberIsIdempotent(Ascii, raw);
    NumericIdIsIdempotent(raw);
  }

  lemma {:induction false} PadStart8Grows(s: string)
    ensures |PadStart8(s)| >= |s|
    decreases 8 - |s|
  {
    if |s| < 8 { PadStart8Grows("0" + s); }
  }

  /** No identifier is normalised to the empty string. */
  lemma NormalFormIsNotEmpty(s: Scheme, raw: Option<string>)
    ensures NormaliseFor(s, raw) != Some("")
  {
    if s == Cn && raw.Some? { PadStart8Grows(Squeeze(raw.value)); }
  }

  lemma NormalFormIsNotOfEmpty(s: Scheme)
    ensures NormaliseFor(s, Some("")).None?
  {
  }

  // ---------- what a normal form says ----------

  /** The number that the digits of a text denote, other characters aside. */
  function NumberIn(s: string): nat {
    if s == "" then 0
    else
      var front, c := NumberIn(s[..|s| - 1]), s[|s| - 1];
      if IsDigit(c) then 10 * front + (c as int - '0' as int) else front
  }

  predicate HasDigit(s: string) {
    exists i :: 0 <= i < |s| && IsDigit(s[i])
  }

  lemma {:induction false} LeadingZero(s: string)
    ensures NumberIn("0" + s) == NumberIn(s)
  {
    if s == "" {
      assert "0" + s == "0" && "0"[..0] == "";
    } else {
      LeadingZero(s[..|s| - 1]);
      assert ("0" + s)[..|s|] == "0" + s[..|s| - 1];
    }
  }

  lemma {:induction false} PadKeepsNumber(s: string)
    ensures NumberIn(PadStart8(s)) == NumberIn(s) && (|s| <= 8 ==> |PadStart8(s)| == 8)
    decreases 8 - |s|
  {
    if |s| < 8 {
      LeadingZero(s);
      PadKeepsNumber("0" + s);
    } else {
    }
  }

  lemma {:induction false} StripKeepsNumber(s: string)
    ensures NumberIn(StripZeros(s)) == NumberIn(s)
  {
    if |s| >= 2 && s[0] == '0' {
      assert s == "0" + s[1..];
      LeadingZero(s[1..]);
      StripKeepsNumber(s[1..]);
    } else {
    }
  }

  lemma Regroup(a: string, b: string, c: string)
    ensures a + (b + c) == a + b + c
  {
  }

  lemma {:induction false} KeepOfConcat(p: char -> bool, a: string, b: string)
    ensures Keep(p, a + b) == Keep(p, a) + Keep(p, b)
  {
    if a == "" {
      assert a + b == b;
    } else {
      assert (a + b)[0] == a[0] && (a + b)[1..] == a[1..] + b;
      KeepOfConcat(p, a[1..], b);
      Regroup(if p(a[0]) then [a[0]] else "", Keep(p, a[1..]), Keep(p, b));
    }
  }

  lemma DigitInFrontOrLast(s: string)
    requires s != ""
    ensures HasDigit(s) <==> HasDigit(s[..|s| - 1]) || IsDigit(s[|s| - 1])
  {
    if i :| 0 <= i < |s| && IsDigit(s[i]) && i < |s| - 1 { assert IsDigit(s[..|s| - 1][i]); }
    if HasDigit(s[..|s| - 1]) {
      var i :| 0 <= i < |s| - 1 && IsDigit(s[..|s| - 1][i]);
      assert IsDigit(s[i]);
    }
  }

  lemma KeepLast(s: string)
    requires s != ""
    ensures var kept := Keep(IsDigit, s[..|s| - 1]);
            Keep(IsDigit, s) == if IsDigit(s[|s| - 1]) then kept + [s[|s| - 1]] else kept
  {
    var front, last := s[..|s| - 1], [s[|s| - 1]];
    KeepOfConcat(IsDigit, front, last);
    assert s == front + last && last[1..] == "";
    assert Keep(IsDigit, last) == if IsDigit(last[0]) then last else "";
  }

  lemma NumberOneMore(s: string, c: char)
    ensures NumberIn(s + [c]) == if IsDigit(c) then 10 * NumberIn(s) + (c as int - '0' as int) else NumberIn(s)
  {
    assert (s + [c])[..|s|] == s;
  }

  lemma {:induction false} KeepKeepsNumber(s: string)
    ensures NumberIn(Keep(IsDigit, s)) == NumberIn(s) && (Keep(IsDigit, s) != "" <==> HasDigit(s))
  {
    if s == "" {
    } else {
      KeepKeepsNumber(s[..|s| - 1]);
      KeepLast(s);
      NumberOneMore(Keep(IsDigit, s[..|s| - 1]), s[|s| - 1]);
      DigitInFrontOrLast(s);
    }
  }

  /** Digit strings of one length that denote one number are equal. */
  lemma {:induction false} SameNumberSameDigits(a: string, b: string)
    requires AllDigits(a) && AllDigits(b) && |a| == |b| && NumberIn(a) == NumberIn(b)
    ensures a == b
  {
    if a == "" {
    } else {
      var n := |a| - 1;
      LastDigit(a);
      LastDigit(b);
      SameNumberSameDigits(a[..n], b[..n]);
      assert a == a[..n] + [a[n]] && b == b[..n] + [b[n]];
    }
  }

  lemma LastDigit(s: string)
    requires AllDigits(s) && s != ""
    ensures NumberIn(s) / 10 == NumberIn(s[..|s| - 1])
    ensures NumberIn(s) % 10 == s[|s| - 1] as int - '0' as int
  {
  }

  /** No zero stands before another digit. */
  predicate Lean(s: string) {
    s != "" && AllDigits(s) && (|s| >= 2 ==> s[0] != '0')
  }

  lemma {:induction false} StrippedIsLean(s: string)
    requires AllDigits(s) && s != ""
    ensures Lean(StripZeros(s))
  {
    if |s| >= 2 && s[0] == '0' {
      StrippedIsLean(s[1..]);
    } else {
    }
  }

  lemma {:induction false} LeanIsPositive(s: string)
    requires Lean(s) && s[0] != '0'
    ensures NumberIn(s) > 0
  {
    if |s| == 1 {
    } else {
      LeanIsPositive(s[..|s| - 1]);
    }
  }

  /** Digit strings without leading zeros that denote one number are equal. */
  lemma {:induction false} LeanIsUnique(a: string, b: string)
    requires Lean(a) && Lean(b) && NumberIn(a) == NumberIn(b)
    ensures a == b
  {
    LastDigit(a);
    LastDigit(b);
    if |a| > 1 { LeanIsPositive(a[..|a| - 1]); }
    if |b| > 1 { LeanIsPositive(b[..|b| - 1]); }
    if |a| == 1 || |b| == 1 {
      assert a[..0] == "" && b[..0] == "";
    } else {
      LeanIsUnique(a[..|a| - 1], b[..|b| - 1]);
      assert a == a[..|a| - 1] + [a[|a| - 1]] && b == b[..|b| - 1] + [b[|b| - 1]];
    }
  }

  /** A company number of digits only, as it may be written without its leading zeros. */
  predicate ShortNumber(s: string) {
    1 <= |s| <= 8 && AllDigits(s)
  }

  lemma NumericCompanyNumber(s: string)
    requires ShortNumber(s)
    ensures CompanyNumber(Some(s)).Some?
    ensures var v := CompanyNumber(Some(s)).value; |v| == 8 && AllDigits(v) && NumberIn(v) == NumberIn(s)
  {
    SqueezedIsKept(Ascii, s);
    PadStart8Digits(s);
    PadKeepsNumber(s);
  }

  /** Numeric company numbers have one normal form, of eight digits, exactly when they denote the same
      number: "3565404" and "03565404" are one company, and no two numbers are confused. */
  lemma CompanyNumbersAgreeIff(a: string, b: string)
    requires ShortNumber(a) && ShortNumber(b)
    ensures CompanyNumber(Some(a)).Some? && |CompanyNumber(Some(a)).value| == 8
            && NumberIn(CompanyNumber(Some(a)).value) == NumberIn(a)
    ensures CompanyNumber(Some(a)) == CompanyNumber(Some(b)) <==> NumberIn(a) == NumberIn(b)
  {
    NumericCompanyNumber(a);
    NumericCompanyNumber(b);
    if NumberIn(a) == NumberIn(b) {
      SameNumberSameDigits(CompanyNumber(Some(a)).value, CompanyNumber(Some(b)).value);
    }
  }

  /** Any other company number without white space and lower-case letters is its own normal form. */
  lemma OtherCompanyNumber(s: string)
    requires s != "" && !(AllDigits(s) && |s| < 8)
    requires forall i :: 0 <= i < |s| ==> !IsSpace(s[i]) && !('a' <= s[i] <= 'z')
    ensures CompanyNumber(Some(s)) == Some(s)
  {
    SqueezedIsKept(Ascii, s);
  }

  lemma {:induction false} UpperAllOfConcat(a: string, b: string)
    ensures UpperAll(Ascii, a + b) == UpperAll(Ascii, a) + UpperAll(Ascii, b)
  {
    if a == "" {
      assert a + b == b;
    } else {
      assert (a + b)[0] == a[0] && (a + b)[1..] == a[1..] + b;
      UpperAllOfConcat(a[1..], b);
    }
  }

  lemma SqueezeOfConcat(a: string, b: string)
    ensures Squeeze(a + b) == Squeeze(a) + Squeeze(b)
  {
    UpperAllOfConcat(a, b);
    KeepOfConcat(c => !IsSpace(c), UpperAll(Ascii, a), UpperAll(Ascii, b));
  }

  lemma SqueezeOfOne(c: char)
    ensures Squeeze([c]) == if IsSpace(c) then "" else [Upper(c)]
  {
    assert UpperAll(Ascii, [c]) == Ascii(c) + UpperAll(Ascii, [c][1..]) == [Upper(c)];
    var p := (d: char) => !IsSpace(d);
    assert Keep(p, [Upper(c)]) == (if p(Upper(c)) then [Upper(c)] else []) + Keep(p, [Upper(c)][1..]);
  }

  lemma SqueezeOfMiddle(x: string, c: char, y: string)
    ensures Squeeze(x + [c] + y) == Squeeze(x) + Squeeze([c]) + Squeeze(y)
  {
    SqueezeOfConcat(x, [c]);
    SqueezeOfConcat(x + [c], y);
  }

  lemma SqueezeDropsSpace(x: string, c: char, y: string)
    requires IsSpace(c)
    ensures Squeeze(x + [c] + y) == Squeeze(x + y)
  {
    SqueezeOfOne(c);
    SqueezeOfMiddle(x, c, y);
    SqueezeOfConcat(x, y);
    assert Squeeze(x) + "" == Squeeze(x);
  }

  lemma SqueezeIgnoresCase(x: string, c: char, y: string)
    requires 'a' <= c <= 'z'
    ensures Squeeze(x + [c] + y) == Squeeze(x + [(c as int - 32) as char] + y)
  {
    var upper := (c as int - 32) as char;
    assert Upper(c) == Upper(upper) == upper;
    SqueezeOfOne(c);
    SqueezeOfOne(upper);
    SqueezeOfMiddle(x, c, y);
    SqueezeOfMiddle(x, upper, y);
  }

  /** White space and letter case never matter in a company number. */
  lemma CompanyNumberIgnoresSpaceAndCase(x: string, c: char, y: string)
    ensures IsSpace(c) || c in {' ', '\t', '\n', '\r'} ==>
            CompanyNumber(Some(x + [c] + y)) == CompanyNumber(Some(x + y))
    ensures 'a' <= c <= 'z' ==>
            CompanyNumber(Some(x + [c] + y)) == CompanyNumber(Some(x + [(c as int - 32) as char] + y))
  {
    if IsSpace(c) { SqueezeDropsSpace(x, c, y); }
    if 'a' <= c <= 'z' { SqueezeIgnoresCase(x, c, y); }
  }

  lemma NumericIdDenotes(raw: string)
    ensures NumericId(Some(raw)).Some? <==> HasDigit(raw)
    ensures HasDigit(raw) ==> Lean(NumericId(Some(raw)).value) && NumberIn(NumericId(Some(raw)).value) == NumberIn(raw)
  {
    var digits := Keep(IsDigit, raw);
    KeepKeeps(IsDigit, raw);
    assert AllDigits(digits);
    KeepKeepsNumber(raw);
    StripKeepsNumber(digits);
    if digits != "" { StrippedIsLean(digits); }
  }

  /** Numeric identifiers have one normal form exactly when their digits denote the same number; the form
      denotes it too, and none is given to a text without digits. */
  lemma NumericIdsAgreeIff(a: string, b: string)
    ensures NumericId(Some(a)).Some? <==> HasDigit(a)
    ensures HasDigit(a) ==> NumberIn(NumericId(Some(a)).value) == NumberIn(a)
    ensures NumericId(Some(a)) == NumericId(Some(b)) <==>
            (HasDigit(a) <==> HasDigit(b)) && (HasDigit(a) ==> NumberIn(a) == NumberIn(b))
  {
    NumericIdDenotes(a);
    NumericIdDenotes(b);
    if HasDigit(a) && HasDigit(b) && NumberIn(a) == NumberIn(b) {
      LeanIsUnique(NumericId(Some(a)).value, NumericId(Some(b)).value);
    }
  }
}
