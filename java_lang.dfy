/**
 * The parts of the Java standard library that Annotation.java leans on, with
 * the semantics the Java platform gives them: String.indexOf, String.contains,
 * Integer.parseInt, Integer.toString and 32-bit int subtraction. Also the
 * Option/Result wrappers and the unchecked exceptions that end a run.
 */
module JavaLang {

  datatype Option<+T> = None | Some(value: T)

  datatype Result<+T, +E> = Ok(value: T) | Err(error: E)

  /** The unchecked exceptions the program lets escape from `main`. Any one of
      them ends the whole run: no handler catches them, as the handlers catch
      only FileNotFoundException, UnsupportedEncodingException and
      IOException. */
  datatype Crash =
    | NoSuchElement          // Scanner.nextLine() with no line left
    | NumberFormat(line: string)  // Integer.parseInt on a line that is no int
    | IndexOutOfBounds       // String.substring with out-of-range bounds

  // ---------------------------------------------------------------------------
  // String.indexOf(String, int) and String.contains

  /** `pat` occurs in `s` starting at index `k`. */
  predicate MatchAt(s: string, pat: string, k: int)
  {
    0 <= k && k + |pat| <= |s| && s[k..k + |pat|] == pat
  }

  /** Java treats a negative start index of indexOf as 0. */
  function ClampFrom(from: int): nat
  {
    if from < 0 then 0 else from
  }

  /** Leftmost occurrence of a non-empty `pat` at or after `k`, or -1. */
  function Search(s: string, pat: string, k: nat): (r: int)
    requires pat != []
    ensures r == -1 || (k <= r && MatchAt(s, pat, r))
    ensures forall j :: k <= j && (r == -1 || j < r) ==> !MatchAt(s, pat, j)
    decreases |s| - k
  {
    if k + |pat| > |s| then -1
    else if s[k..k + |pat|] == pat then k
    else Search(s, pat, k + 1)
  }

  /** s.indexOf(pat, from). */
  function IndexOf(s: string, pat: string, from: int): (r: int)
    ensures -1 <= r <= |s|
  {
    var f := ClampFrom(from);
    if f >= |s| then (if pat == [] then |s| else -1)
    else if pat == [] then f
    else Search(s, pat, f)
  }

  /** What the Java library promises of indexOf: -1, or an index where `pat`
      occurs, the leftmost one at or after max(from, 0). As in the Java
      library, an empty pattern is found at min(max(from, 0), |s|), even when
      `from` lies beyond the end. */
  lemma IndexOfSpec(s: string, pat: string, from: int)
    ensures var r := IndexOf(s, pat, from);
      && (r != -1 ==> MatchAt(s, pat, r))
      && (pat == [] ==> r == if ClampFrom(from) < |s| then ClampFrom(from) else |s|)
      && (pat != [] && r != -1 ==> ClampFrom(from) <= r)
      && (pat != [] ==> forall k :: ClampFrom(from) <= k && (r == -1 || k < r) ==> !MatchAt(s, pat, k))
  {
  }

  /** indexOf finds `k` when `pat` occurs there and nowhere between the
      start index and `k`. */
  lemma IndexOfIs(s: string, pat: string, from: int, k: int)
    requires pat != [] && ClampFrom(from) <= k && MatchAt(s, pat, k)
    requires forall j :: ClampFrom(from) <= j < k ==> !MatchAt(s, pat, j)
    ensures IndexOf(s, pat, from) == k
  {
    IndexOfSpec(s, pat, from);
  }

  /** Where `x` sits in `s` at `d`, a match inside it is a match in `x`. */
  lemma MatchInside(s: string, x: string, d: nat, pat: string, k: int)
    requires d + |x| <= |s| && s[d..d + |x|] == x
    requires d <= k && k + |pat| <= d + |x|
    ensures MatchAt(s, pat, k) <==> MatchAt(x, pat, k - d)
  {
    var a, b := s[k..k + |pat|], x[k - d..k - d + |pat|];
    forall t | 0 <= t < |pat| ensures a[t] == b[t] {
      assert s[d..d + |x|][k - d + t] == s[k + t];
    }
    assert a == b;
  }

  /** s.contains(t), which the Java library defines as s.indexOf(t) >= 0. */
  function Contains(s: string, t: string): bool
  {
    IndexOf(s, t, 0) != -1
  }

  /** s.contains(t) holds exactly when `t` occurs somewhere in `s`. */
  lemma ContainsSpec(s: string, t: string)
    ensures Contains(s, t) <==> exists k :: MatchAt(s, t, k)
  {
    IndexOfSpec(s, t, 0);
    if Contains(s, t) {
      assert MatchAt(s, t, IndexOf(s, t, 0));
    }
  }

  // ---------------------------------------------------------------------------
  // 32-bit int arithmetic

  const INT_MIN: int := -0x8000_0000
  const INT_MAX: int := 0x7FFF_FFFF

  predicate IsInt(x: int)
  {
    INT_MIN <= x <= INT_MAX
  }

  const TWO_32: int := 0x1_0000_0000

  /** The Java int with the same low 32 bits as `x` (two's complement wrap). */
  function Wrap(x: int): (r: int)
    ensures IsInt(r)
    ensures IsInt(x) ==> r == x
    decreases if x < INT_MIN then INT_MIN - x else if x > INT_MAX then x - INT_MAX else 0
  {
    if x < INT_MIN then Wrap(x + TWO_32)
    else if x > INT_MAX then Wrap(x - TWO_32)
    else x
  }

  /** Wrapping changes a number by a multiple of 2^32 only. */
  lemma {:induction false} WrapCongruent(x: int)
    ensures (Wrap(x) - x) % TWO_32 == 0
    decreases if x < INT_MIN then INT_MIN - x else if x > INT_MAX then x - INT_MAX else 0
  {
    if x < INT_MIN {
      WrapCongruent(x + TWO_32);
    } else if x > INT_MAX {
      WrapCongruent(x - TWO_32);
    }
  }

  /** An int sum or difference that leaves the int range is off by exactly
      2^32 once wrapped, when its operands were ints. */
  lemma WrapOnce(x: int)
    requires INT_MIN - TWO_32 <= x <= INT_MAX + TWO_32
    ensures x < INT_MIN ==> Wrap(x) == x + TWO_32
    ensures x > INT_MAX ==> Wrap(x) == x - TWO_32
  {
  }

  // ---------------------------------------------------------------------------
  // Integer.toString(int) and Integer.parseInt(String)

  predicate IsDigit(c: char)
  {
    '0' <= c <= '9'
  }

  function DigitChar(d: nat): (c: char)
    requires d < 10
    ensures IsDigit(c) && c as int - '0' as int == d
  {
    ('0' as int + d) as char
  }

  /** Decimal digits of `n`, most significant first, no leading zeros. */
  function NatToString(n: nat): (s: string)
    ensures |s| >= 1 && IsDigit(s[0]) && (|s| > 1 ==> s[0] != '0')
    ensures AllDigits(s)
  {
    if n < 10 then [DigitChar(n)]
    else NatToString(n / 10) + [DigitChar(n % 10)]
  }

  /** Integer.toString(n): a '-' before the digits of a negative number. */
  function IntToString(n: int): string
  {
    if n < 0 then "-" + NatToString(-n) else NatToString(n)
  }

  function DigitValue(c: char): nat
    requires IsDigit(c)
  {
    c as int - '0' as int
  }

  predicate AllDigits(s: string)
  {
    forall i :: 0 <= i < |s| ==> IsDigit(s[i])
  }

  /** Value of a string of decimal digits. */
  function DigitsValue(s: string): nat
    requires AllDigits(s)
  {
    if s == [] then 0
    else DigitsValue(s[..|s| - 1]) * 10 + DigitValue(s[|s| - 1])
  }

  /** Integer.parseInt(s): an optional '+' or '-', at least one decimal digit,
      and a value inside the int range; anything else is a NumberFormatException,
      here None. */
  function ParseInt(s: string): (r: Option<int>)
    ensures r.Some? ==> IsInt(r.value)
  {
    var signed := |s| > 0 && (s[0] == '-' || s[0] == '+');
    var digits := if signed then s[1..] else s;
    if digits == [] || !AllDigits(digits) then None
    else
      var v: int := if signed && s[0] == '-' then -(DigitsValue(digits) as int) else DigitsValue(digits);
      if IsInt(v) then Some(v) else None
  }

  lemma {:induction false} DigitsValueOfNatToString(n: nat)
    ensures DigitsValue(NatToString(n)) == n
  {
    if n >= 10 {
      var s := NatToString(n);
      DigitsValueOfNatToString(n / 10);
      assert s[..|s| - 1] == NatToString(n / 10);
    }
  }

  /** Integer.parseInt reads back what Integer.toString writes. */
  lemma ParseIntToString(n: int)
    requires IsInt(n)
    ensures ParseInt(IntToString(n)) == Some(n)
  {
    var s := IntToString(n);
    if n < 0 {
      DigitsValueOfNatToString(-n);
      assert s[0] == '-' && s[1..] == NatToString(-n);
    } else {
      DigitsValueOfNatToString(n);
      assert !(s[0] == '-' || s[0] == '+');
    }
  }
}
