/** `std::to_string`, `std::stoul` and `std::stoi` on decimal text. */
module Decimal {
  import opened Text

  const UINT32_RANGE := 0x1_0000_0000
  const ULONG_RANGE := 0x1_0000_0000_0000_0000
  const INT_LIMIT := 0x8000_0000

  type uint32 = x: nat | x < UINT32_RANGE
  type size_t = x: nat | x < ULONG_RANGE

  predicate IsDigit(c: char) {
    '0' <= c <= '9'
  }

  predicate AllDigits(s: string) {
    forall k | 0 <= k < |s| :: IsDigit(s[k])
  }

  function DigitChar(d: nat): char
    requires d < 10
  {
    '0' + d as char
  }

  function ToString(n: nat): string {
    if n < 10 then [DigitChar(n)] else ToString(n / 10) + [DigitChar(n % 10)]
  }

  /** The number a run of digits denotes. */
  function ValueOf(s: string): nat
    requires AllDigits(s)
  {
    if s == "" then 0 else 10 * ValueOf(s[..|s| - 1]) + (s[|s| - 1] as int - '0' as int)
  }

  lemma {:induction false} ToStringValue(n: nat)
    ensures ToString(n) != "" && AllDigits(ToString(n)) && ValueOf(ToString(n)) == n
  {
    if n < 10 {
      var s := [DigitChar(n)];
      assert s[..|s| - 1] == "";
    } else {
      ToStringValue(n / 10);
      var s := ToString(n);
      assert s[..|s| - 1] == ToString(n / 10);
    }
  }

  /** `BadRead` stands for inputs on which the source reads out of bounds. */
  datatype Error = XmlError | InvalidArgument | OutOfRange | BadRead

  datatype Result<+T> = Ok(value: T) | Err(error: Error)

  predicate NotSpace(c: char) {
    !IsSpace(c)
  }

  predicate NotDigit(c: char) {
    !IsDigit(c)
  }

  /** Sign and magnitude of the number a text begins with, behind white space. */
  datatype Number = NoDigits | Number(negative: bool, magnitude: nat)

  lemma DigitsBetween(s: string, from: nat, to: nat)
    requires from <= to <= |s| && forall k | from <= k < to :: !NotDigit(At(s, k))
    ensures AllDigits(s[from..to])
  {
    forall k | 0 <= k < to - from
      ensures IsDigit(s[from..to][k])
    {
      assert !NotDigit(At(s, from + k));
    }
  }

  function ReadNumber(s: string): Number {
    var start := Find(s, 0, |s|, NotSpace);
    var signed := At(s, start) == '-' || At(s, start) == '+';
    var from := if signed then start + 1 else start;
    var to := Find(s, from, |s|, NotDigit);
    DigitsBetween(s, from, to);
    if from == to then NoDigits else Number(At(s, start) == '-', ValueOf(s[from..to]))
  }

  function Stoul(s: string): Result<size_t> {
    match ReadNumber(s)
    case NoDigits => Err(InvalidArgument)
    case Number(negative, m) =>
      if m >= ULONG_RANGE then Err(OutOfRange)
      else if negative then Ok((ULONG_RANGE - m) % ULONG_RANGE)
      else Ok(m)
  }

  function Stoi(s: string): Result<int> {
    match ReadNumber(s)
    case NoDigits => Err(InvalidArgument)
    case Number(negative, m) =>
      var value: int := if negative then -(m as int) else m;
      if -INT_LIMIT <= value < INT_LIMIT then Ok(value) else Err(OutOfRange)
  }

  lemma ReadOfToString(n: nat)
    ensures ReadNumber(ToString(n)) == Number(false, n)
  {
    var s := ToString(n);
    ToStringValue(n);
    assert IsDigit(s[0]);
    FindIs(s, 0, |s|, NotSpace, 0);
    FindIs(s, 0, |s|, NotDigit, |s|);
    assert s[0..|s|] == s;
  }

  /** `stoul` reads back what `to_string` wrote, exactly below the range of an unsigned long. */
  lemma StoulOfToString(n: nat)
    ensures n < ULONG_RANGE ==> Stoul(ToString(n)) == Ok(n)
    ensures n >= ULONG_RANGE ==> Stoul(ToString(n)) == Err(OutOfRange)
  {
    ReadOfToString(n);
  }

  /** `stoi` does so only below 2^31. */
  lemma StoiOfToString(n: nat)
    ensures n < INT_LIMIT ==> Stoi(ToString(n)) == Ok(n)
    ensures n >= INT_LIMIT ==> Stoi(ToString(n)) == Err(OutOfRange)
  {
    ReadOfToString(n);
  }

  // ----- numbers that others have written -----

  predicate IsSign(sign: string) {
    sign == "" || sign == "+" || sign == "-"
  }

  /** White space and a sign in front are read over, and so is whatever follows the digits. */
  lemma NumberRead(space: string, sign: string, digits: string, rest: string)
    requires AllSpace(space) && IsSign(sign) && AllDigits(digits) && (rest == "" || !IsDigit(rest[0]))
    requires digits == "" && sign == "" ==> rest == "" || (!IsSpace(rest[0]) && rest[0] != '+' && rest[0] != '-')
    ensures ReadNumber(space + sign + digits + rest)
         == if digits == "" then NoDigits else Number(sign == "-", ValueOf(digits))
  {
    hide ValueOf, Find, IsDigit, IsSpace;
    var s := space + sign + digits + rest;
    var start, from := |space|, |space| + |sign|;
    var to := from + |digits|;
    NumberParts(space, sign, digits, rest);
    FindIs(s, 0, |s|, NotSpace, start);
    FindIs(s, from, |s|, NotDigit, to);
    assert s[from..to] == digits;
  }

  lemma NumberParts(space: string, sign: string, digits: string, rest: string)
    requires AllSpace(space) && IsSign(sign) && AllDigits(digits) && (rest == "" || !IsDigit(rest[0]))
    requires digits == "" && sign == "" ==> rest == "" || (!IsSpace(rest[0]) && rest[0] != '+' && rest[0] != '-')
    ensures var s := space + sign + digits + rest;
      var start, from := |space|, |space| + |sign|;
      var to := from + |digits|;
      && (forall k | 0 <= k < start :: IsSpace(At(s, k))) && (start < |s| ==> !IsSpace(At(s, start)))
      && (sign != "" ==> At(s, start) == sign[0])
      && (sign == "" ==> At(s, start) != '-' && At(s, start) != '+')
      && (forall k | from <= k < to :: IsDigit(At(s, k))) && (to < |s| ==> !IsDigit(At(s, to)))
  {
    var s := space + sign + digits + rest;
    assert forall k | 0 <= k < |space| :: s[k] == space[k];
    assert forall k | 0 <= k < |sign| :: s[|space| + k] == sign[k];
    forall k | |space| + |sign| <= k < |space| + |sign| + |digits|
      ensures s[k] == digits[k - |space| - |sign|]
    {
    }
    assert rest != "" ==> s[|space| + |sign| + |digits|] == rest[0];
  }

  /** What `stoul` and `stoi` make of such a text; a minus sign wraps an unsigned number around. */
  lemma NumbersConverted(space: string, sign: string, digits: string, rest: string)
    requires AllSpace(space) && IsSign(sign) && AllDigits(digits) && (rest == "" || !IsDigit(rest[0]))
    requires digits == "" && sign == "" ==> rest == "" || (!IsSpace(rest[0]) && rest[0] != '+' && rest[0] != '-')
    ensures var s, v := space + sign + digits + rest, ValueOf(digits);
      && (digits == "" ==> Stoul(s) == Err(InvalidArgument) && Stoi(s) == Err(InvalidArgument))
      && (digits != "" && v >= ULONG_RANGE ==> Stoul(s) == Err(OutOfRange))
      && (digits != "" && v < ULONG_RANGE && (sign != "-" || v == 0) ==> Stoul(s) == Ok(v))
      && (digits != "" && 0 < v < ULONG_RANGE && sign == "-" ==> Stoul(s) == Ok(ULONG_RANGE - v))
      && (digits != "" && sign != "-" ==> Stoi(s) == if v < INT_LIMIT then Ok(v) else Err(OutOfRange))
      && (digits != "" && sign == "-" ==> Stoi(s) == if v <= INT_LIMIT then Ok(0 - v) else Err(OutOfRange))
  {
    hide ReadNumber, ValueOf;
    NumberRead(space, sign, digits, rest);
  }

  lemma Widths()
    ensures INT_LIMIT == 2_147_483_648 && UINT32_RANGE == 2 * INT_LIMIT && ULONG_RANGE == UINT32_RANGE * UINT32_RANGE
  {
  }
}
