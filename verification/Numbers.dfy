/**
 Decimal numbers as the HTTP layer prints them (`%zd`) and reads them
 (`std::stoll`), and the fact that reading undoes printing.
 */
module Numbers {
  import opened Text

  const INT64_LIMIT: int := 0x8000_0000_0000_0000

  predicate IsDigit(c: char) {
    '0' <= c <= '9'
  }

  predicate AllDigits(s: string) {
    forall i :: 0 <= i < |s| ==> IsDigit(s[i])
  }

  function DigitChar(d: nat): char
    requires d < 10
  {
    '0' + d as char
  }

  function DigitValue(c: char): nat
    requires IsDigit(c)
  {
    (c - '0') as nat
  }

  /** The digits of a number, most significant first. */
  function Decimal(n: nat): (s: string)
    ensures s != "" && AllDigits(s)
  {
    if n < 10 then [DigitChar(n)] else Decimal(n / 10) + [DigitChar(n % 10)]
  }

  /** The number a digit string denotes. */
  function Value(s: string): nat
    requires AllDigits(s)
  {
    if s == "" then 0 else 10 * Value(s[..|s| - 1]) + DigitValue(s[|s| - 1])
  }

  /** C `isspace` in the default locale. */
  predicate IsSpace(c: char) {
    c == ' ' || c == '\t' || c == '\n' || c == '\r' || c == '\U{000B}' || c == '\U{000C}'
  }

  predicate IsSign(c: char) {
    c == '+' || c == '-'
  }

  function SkipSpaces(s: string): string {
    if s != "" && IsSpace(s[0]) then SkipSpaces(s[1..]) else s
  }

  function LeadingDigits(s: string): (d: string)
    ensures AllDigits(d) && d <= s
    ensures |d| < |s| ==> !IsDigit(s[|d|])
  {
    if s == "" || !IsDigit(s[0]) then "" else [s[0]] + LeadingDigits(s[1..])
  }

  /** The sign a string starts with, if any. */
  function SignOf(t: string): (sign: string)
    ensures sign <= t
  {
    if t != "" && IsSign(t[0]) then t[..1] else ""
  }

  function Signed(sign: string, digits: string): int
    requires AllDigits(digits)
  {
    var v: int := Value(digits);
    if sign == "-" then 0 - v else v
  }

  /** `std::stoll`: blanks, an optional sign, then as many digits as there are.  `None`
      stands for both exceptions, no conversion and out of range. */
  function Stoll(s: string): Option<int> {
    var t := SkipSpaces(s);
    var sign := SignOf(t);
    var digits := LeadingDigits(t[|sign|..]);
    if digits == "" then None
    else
      var v := Signed(sign, digits);
      if -INT64_LIMIT <= v < INT64_LIMIT then Some(v) else None
  }

  /** Reading a printed number gives the number. */
  lemma {:induction false} DecimalRoundTrip(n: nat)
    ensures Value(Decimal(n)) == n
  {
    if n < 10 {
      assert Decimal(n)[..0] == "";
    } else {
      DecimalRoundTrip(n / 10);
      var s := Decimal(n);
      assert s[..|s| - 1] == Decimal(n / 10);
    }
  }

  lemma {:induction false} LeadingDigitsOfDigits(s: string)
    requires AllDigits(s)
    ensures LeadingDigits(s) == s
  {
    if s != "" {
      LeadingDigitsOfDigits(s[1..]);
    }
  }

  /** What the server prints as a length, it would read back as that length. */
  lemma StollOfDecimal(n: nat)
    requires n < INT64_LIMIT
    ensures Stoll(Decimal(n)) == Some(n)
  {
    DecimalRoundTrip(n);
    LeadingDigitsOfDigits(Decimal(n));
    var c := Decimal(n)[0];
    assert IsDigit(c) && !IsSpace(c) && !IsSign(c);
    assert Decimal(n)[0..] == Decimal(n);
  }

  // ---- What std::stoll accepts -----------------------------------------------------------------

  /** Space, tab, line feed, carriage return, vertical tab and form feed. */
  const BLANKS: set<char> := {' ', '\t', '\n', '\r', '\U{000B}', '\U{000C}'}

  ghost predicate AllSpace(s: string) {
    forall i :: 0 <= i < |s| ==> s[i] in BLANKS
  }

  /** What sign and digits stand for. */
  ghost predicate Denotes(sign: string, digits: string, v: int) {
    AllDigits(digits) && (if sign == "-" then v + Value(digits) == 0 else v == Value(digits))
  }

  /** Blanks, an optional sign, at least one digit, and then anything but a digit. */
  ghost predicate IsNumber(s: string, blanks: string, sign: string, digits: string, tail: string) {
    && s == blanks + (sign + (digits + tail))
    && AllSpace(blanks) && (sign == "" || sign == "+" || sign == "-")
    && digits != "" && AllDigits(digits)
    && (tail == "" || !IsDigit(tail[0]))
  }

  lemma {:induction false} SkipSpacesOf(blanks: string, t: string)
    requires AllSpace(blanks) && (t == "" || !IsSpace(t[0]))
    ensures SkipSpaces(blanks + t) == t
  {
    if blanks == "" {
      assert blanks + t == t;
    } else {
      assert (blanks + t)[1..] == blanks[1..] + t;
      SkipSpacesOf(blanks[1..], t);
    }
  }

  lemma {:induction false} SkippedSpaces(s: string) returns (blanks: string)
    ensures AllSpace(blanks) && s == blanks + SkipSpaces(s)
  {
    if s != "" && IsSpace(s[0]) {
      blanks := SkippedSpaces(s[1..]);
      blanks := [s[0]] + blanks;
    } else {
      blanks := "";
    }
  }

  lemma {:induction false} LeadingDigitsOf(digits: string, tail: string)
    requires AllDigits(digits) && (tail == "" || !IsDigit(tail[0]))
    ensures LeadingDigits(digits + tail) == digits
  {
    if digits == "" {
      assert digits + tail == tail;
    } else {
      assert (digits + tail)[1..] == digits[1..] + tail;
      LeadingDigitsOf(digits[1..], tail);
    }
  }

  lemma StollAccepts(s: string, blanks: string, sign: string, digits: string, tail: string)
    requires IsNumber(s, blanks, sign, digits, tail)
    ensures var v := Signed(sign, digits);
            Stoll(s) == if -INT64_LIMIT <= v < INT64_LIMIT then Some(v) else None
  {
    var t := sign + (digits + tail);
    SignOfSigned(sign, digits, tail);
    SkipSpacesOf(blanks, t);
    LeadingDigitsOf(digits, tail);
  }

  lemma SignOfSigned(sign: string, digits: string, tail: string)
    requires (sign == "" || sign == "+" || sign == "-") && digits != "" && AllDigits(digits)
    ensures var t := sign + (digits + tail);
            !IsSpace(t[0]) && SignOf(t) == sign && t[|sign|..] == digits + tail
  {
    assert IsDigit(digits[0]);
    var t := sign + (digits + tail);
    if sign == "" {
      assert t == digits + tail;
    } else {
      assert t[0] == sign[0];
    }
  }

  lemma StollIsSound(s: string) returns (blanks: string, sign: string, digits: string, tail: string)
    requires Stoll(s).Some?
    ensures IsNumber(s, blanks, sign, digits, tail)
  {
    blanks := SkippedSpaces(s);
    var t := SkipSpaces(s);
    sign := SignOf(t);
    digits := LeadingDigits(t[|sign|..]);
    tail := t[|sign|..][|digits|..];
    Reassemble(t);
  }

  lemma Reassemble(t: string)
    ensures var sign := SignOf(t);
            var digits := LeadingDigits(t[|sign|..]);
            var tail := t[|sign|..][|digits|..];
            && t == sign + (digits + tail)
            && (sign == "" || sign == "+" || sign == "-")
            && (tail == "" || !IsDigit(tail[0]))
  {
    var sign := SignOf(t);
    var u := t[|sign|..];
    var digits := LeadingDigits(u);
    assert u == digits + u[|digits|..];
    assert t == sign + u;
  }

  /** `std::stoll` converts exactly the strings that start, after blanks, with an optionally
      signed number within range, and to that number. */
  lemma StollMeetsGrammar(s: string, v: int)
    ensures Stoll(s) == Some(v) <==>
            -INT64_LIMIT <= v < INT64_LIMIT
            && exists blanks, sign, digits, tail ::
                 IsNumber(s, blanks, sign, digits, tail) && Denotes(sign, digits, v)
  {
    if Stoll(s) == Some(v) {
      var blanks, sign, digits, tail := StollIsSound(s);
      StollAccepts(s, blanks, sign, digits, tail);
    }
    forall blanks, sign, digits, tail | IsNumber(s, blanks, sign, digits, tail) && Denotes(sign, digits, v)
      ensures -INT64_LIMIT <= v < INT64_LIMIT ==> Stoll(s) == Some(v)
    {
      StollAccepts(s, blanks, sign, digits, tail);
    }
  }

  function Power10(k: nat): nat {
    if k == 0 then 1 else 10 * Power10(k - 1)
  }

  /** A number has at most `k` digits exactly when it is below the `k`-th power of ten. */
  lemma {:induction false} DecimalLength(n: nat, k: nat)
    requires 1 <= k
    ensures |Decimal(n)| <= k <==> n < Power10(k)
  {
    if k == 1 {
      assert Power10(1) == 10;
    } else if n < 10 {
      DecimalLength(0, k - 1);
      PowerPositive(k - 1);
    } else {
      DecimalLength(n / 10, k - 1);
    }
  }

  lemma {:induction false} PowerPositive(k: nat)
    ensures 1 <= Power10(k)
  {
    if k > 0 {
      PowerPositive(k - 1);
    }
  }
}
