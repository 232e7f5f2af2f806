/**
 * The few Arduino `String` and C library text operations the firmware relies
 * on, stated abstractly: `isspace`, `isPrintable`, `String::trim`,
 * `String::indexOf`, `String::toLowerCase`, `String::toInt` (C `atol`),
 * the decimal text `Print::println` writes for a number, and the `strcmp`
 * order that `std::map<String, ...>` keeps its keys in.
 */
module ArduinoText {

  /** C `isspace` in the "C" locale. */
  predicate IsSpace(c: char) {
    c == ' ' || c == '\t' || c == '\n' || c == '\U{000B}' || c == '\U{000C}' || c == '\r'
  }

  /** Arduino `isPrintable`: the visible ASCII characters and the space, 0x20 to 0x7E. */
  predicate IsPrintable(c: char) {
    ' ' <= c <= '~'
  }

  predicate IsDigit(c: char) {
    '0' <= c <= '9'
  }

  /** C `tolower`: only the ASCII capitals change. */
  function LowerChar(c: char): (r: char)
    ensures IsSpace(r) <==> IsSpace(c)
    ensures ('A' <= c <= 'Z') ==> r as int == c as int + 32
    ensures !('A' <= c <= 'Z') ==> r == c
  {
    if 'A' <= c <= 'Z' then (c as int + 32) as char else c
  }

  /** `String::toLowerCase`. */
  function ToLower(s: string): (r: string)
    ensures |r| == |s|
  {
    seq(|s|, i requires 0 <= i < |s| => LowerChar(s[i]))
  }

  lemma ToLowerKeepsSpaces(s: string)
    ensures ' ' in ToLower(s) <==> ' ' in s
  {
    var r := ToLower(s);
    if ' ' in r {
      var i :| 0 <= i < |r| && r[i] == ' ';
      assert s[i] == ' ';
    }
    if ' ' in s {
      var i :| 0 <= i < |s| && s[i] == ' ';
      assert r[i] == ' ';
    }
  }

  /** What is left after dropping the leading white space (as `atol` and `String::trim` do). */
  function TrimStart(s: string): (r: string)
    ensures |r| <= |s| && r == s[|s| - |r|..]
    ensures forall i :: 0 <= i < |s| - |r| ==> IsSpace(s[i])
    ensures |r| > 0 ==> !IsSpace(r[0])
    decreases |s|
  {
    if |s| > 0 && IsSpace(s[0]) then TrimStart(s[1..]) else s
  }

  /** What is left after dropping the trailing white space. */
  function TrimEnd(s: string): (r: string)
    ensures |r| <= |s| && r == s[..|r|]
    ensures forall i :: |r| <= i < |s| ==> IsSpace(s[i])
    ensures |r| > 0 ==> !IsSpace(r[|r| - 1])
    decreases |s|
  {
    if |s| > 0 && IsSpace(s[|s| - 1]) then TrimEnd(s[..|s| - 1]) else s
  }

  /** r sits at offset a of s, and everything before and after it is white space. */
  predicate InfixBetweenSpaces(s: string, a: int, r: string) {
    && 0 <= a <= |s| - |r| && r == s[a..a + |r|]
    && (forall i :: 0 <= i < a ==> IsSpace(s[i]))
    && (forall i :: a + |r| <= i < |s| ==> IsSpace(s[i]))
  }

  /**
   * `String::trim`: the text with its leading and trailing white space
   * removed, i.e. the infix of s that neither starts nor ends with white
   * space and outside of which there is only white space; it is empty
   * exactly when the whole text is white space.
   */
  function Trim(s: string): (r: string)
    ensures |r| <= |s|
    ensures exists a :: InfixBetweenSpaces(s, a, r)
    ensures |r| > 0 ==> !IsSpace(r[0]) && !IsSpace(r[|r| - 1])
    ensures |r| == 0 <==> forall i :: 0 <= i < |s| ==> IsSpace(s[i])
  {
    var t := TrimStart(s);
    TrimBothEnds(s, t, TrimEnd(t));
    TrimEnd(t)
  }

  /**
   * When t is s without its leading white space and r is t without its
   * trailing white space, r is the infix of s between the two.
   */
  lemma TrimBothEnds(s: string, t: string, r: string)
    requires |t| <= |s| && t == s[|s| - |t|..]
    requires forall i :: 0 <= i < |s| - |t| ==> IsSpace(s[i])
    requires |t| > 0 ==> !IsSpace(t[0])
    requires |r| <= |t| && r == t[..|r|]
    requires forall i :: |r| <= i < |t| ==> IsSpace(t[i])
    requires |r| > 0 ==> !IsSpace(r[|r| - 1])
    ensures InfixBetweenSpaces(s, |s| - |t|, r)
    ensures |r| > 0 ==> !IsSpace(r[0]) && !IsSpace(r[|r| - 1])
    ensures |r| == 0 <==> forall i :: 0 <= i < |s| ==> IsSpace(s[i])
  {
    var a := |s| - |t|;
    assert r == s[a..a + |r|];
    forall i | a + |r| <= i < |s| ensures IsSpace(s[i]) {
      assert s[i] == t[i - a];
    }
    if |r| == 0 {
      assert |t| == 0;
    } else {
      assert r[0] == t[0];
      assert !IsSpace(s[a]);
    }
  }

  /** Trimming text that has no white space at either end changes nothing. */
  lemma TrimOfTrimmed(s: string)
    requires |s| > 0 ==> !IsSpace(s[0]) && !IsSpace(s[|s| - 1])
    ensures Trim(s) == s
  {
  }

  /** `String::indexOf(c)`: the first position of c, or -1 when there is none. */
  function IndexOf(s: string, c: char): (r: int)
    ensures -1 <= r < |s|
    ensures r == -1 <==> c !in s
    ensures r >= 0 ==> s[r] == c && c !in s[..r]
  {
    if s == [] then -1
    else if s[0] == c then 0
    else
      var k := IndexOf(s[1..], c);
      assert s == [s[0]] + s[1..];
      if k == -1 then -1
      else
        assert s[..k + 1] == [s[0]] + s[1..][..k];
        k + 1
  }

  // ---------------------------------------------------------------------------
  // Numbers as text
  // ---------------------------------------------------------------------------

  function DigitChar(d: nat): (c: char)
    requires d < 10
    ensures IsDigit(c)
  {
    ('0' as int + d) as char
  }

  function DigitValue(c: char): (d: nat)
    requires IsDigit(c)
    ensures d < 10
  {
    c as int - '0' as int
  }

  /** The decimal digits `Print::print` writes for a non-negative number. */
  function Decimal(n: nat): (r: string)
    ensures |r| > 0
    ensures forall i :: 0 <= i < |r| ==> IsDigit(r[i])
    decreases n
  {
    if n < 10 then [DigitChar(n)] else Decimal(n / 10) + [DigitChar(n % 10)]
  }

  /** How many decimal digits s starts with. */
  function LeadingDigits(s: string): (k: nat)
    ensures k <= |s|
    ensures forall i :: 0 <= i < k ==> IsDigit(s[i])
    ensures k < |s| ==> !IsDigit(s[k])
  {
    if s != [] && IsDigit(s[0]) then 1 + LeadingDigits(s[1..]) else 0
  }

  /** The value of a string of decimal digits, most significant first. */
  function DigitsValue(ds: string): nat
    requires forall i :: 0 <= i < |ds| ==> IsDigit(ds[i])
  {
    if ds == [] then 0 else DigitsValue(ds[..|ds| - 1]) * 10 + DigitValue(ds[|ds| - 1])
  }

  /** The range of `long`, which is 32 bits wide on the ESP32. */
  const LongMin: int := -0x8000_0000
  const LongMax: int := 0x7FFF_FFFF

  /**
   * What C `atol` denotes before the range of `long` applies: skip white
   * space, take an optional sign, then as many digits as follow; no digit at
   * all gives 0.
   */
  function AtolValue(s: string): int
  {
    var t := TrimStart(s);
    if |t| > 0 && (t[0] == '-' || t[0] == '+') then
      var ds := t[1..][..LeadingDigits(t[1..])];
      if t[0] == '-' then -(DigitsValue(ds) as int) else DigitsValue(ds)
    else
      DigitsValue(t[..LeadingDigits(t)])
  }

  /**
   * `String::toInt`, which is `atol`. The ESP32's C library computes it with
   * `strtol`, which saturates: a value outside the range of `long` gives the
   * nearest bound.
   */
  function ToInt(s: string): (r: int)
    ensures LongMin <= r <= LongMax
    ensures LongMin <= AtolValue(s) <= LongMax ==> r == AtolValue(s)
    ensures AtolValue(s) > LongMax ==> r == LongMax
    ensures AtolValue(s) < LongMin ==> r == LongMin
  {
    var v := AtolValue(s);
    if v > LongMax then LongMax else if v < LongMin then LongMin else v
  }

  lemma {:induction false} DigitsValueOfDecimal(n: nat)
    ensures DigitsValue(Decimal(n)) == n
    decreases n
  {
    var r := Decimal(n);
    if n >= 10 {
      DigitsValueOfDecimal(n / 10);
      assert r[..|r| - 1] == Decimal(n / 10);
    }
  }

  lemma {:induction false} LeadingDigitsOfDigits(s: string)
    requires forall i :: 0 <= i < |s| ==> IsDigit(s[i])
    ensures LeadingDigits(s) == |s|
  {
    if s != [] {
      LeadingDigitsOfDigits(s[1..]);
    }
  }

  /** `toInt` reads back exactly the number that `print` wrote, up to the largest `long`. */
  lemma ToIntOfDecimal(n: nat)
    ensures ToInt(Decimal(n)) == if n <= LongMax then n else LongMax
  {
    var r := Decimal(n);
    assert !IsSpace(r[0]) && r[0] != '-' && r[0] != '+';
    assert TrimStart(r) == r;
    LeadingDigitsOfDigits(r);
    assert r[..|r|] == r;
    DigitsValueOfDecimal(n);
    assert AtolValue(r) == n;
  }

  /** Text whose first non-blank character is neither a digit nor a sign reads as 0. */
  lemma ToIntOfNonNumber(s: string)
    requires var t := TrimStart(s); |t| == 0 || !(IsDigit(t[0]) || t[0] == '-' || t[0] == '+')
    ensures ToInt(s) == 0
  {
    var t := TrimStart(s);
    assert LeadingDigits(t) == 0;
  }

  /** A positive `toInt` comes from text that, after blanks and an optional '+', starts with a digit. */
  lemma ToIntPositive(s: string)
    requires ToInt(s) > 0
    ensures var t := TrimStart(s);
            |t| > 0 && (IsDigit(t[0]) || (t[0] == '+' && |t| > 1 && IsDigit(t[1])))
  {
    var t := TrimStart(s);
    if |t| == 0 || !(IsDigit(t[0]) || t[0] == '-' || t[0] == '+') {
      ToIntOfNonNumber(s);
    }
  }

  // ---------------------------------------------------------------------------
  // Key order of std::map<String, ...>: String::operator< compares like strcmp
  // ---------------------------------------------------------------------------

  /** Lexicographic order by character code; a proper prefix comes first. */
  predicate LexLess(a: string, b: string)
    decreases |a|
  {
    if |a| == 0 then |b| > 0
    else if |b| == 0 then false
    else if a[0] != b[0] then a[0] < b[0]
    else LexLess(a[1..], b[1..])
  }

  lemma {:induction false} LexLessIrreflexive(a: string)
    ensures !LexLess(a, a)
    decreases |a|
  {
    if |a| > 0 {
      LexLessIrreflexive(a[1..]);
    }
  }

  lemma {:induction false} LexLessTransitive(a: string, b: string, c: string)
    requires LexLess(a, b) && LexLess(b, c)
    ensures LexLess(a, c)
    decreases |a|
  {
    if |a| > 0 && |b| > 0 && |c| > 0 && a[0] == b[0] && b[0] == c[0] {
      LexLessTransitive(a[1..], b[1..], c[1..]);
    }
  }

  lemma {:induction false} LexLessTotal(a: string, b: string)
    requires a != b
    ensures LexLess(a, b) || LexLess(b, a)
    decreases |a|
  {
    if |a| > 0 && |b| > 0 && a[0] == b[0] {
      assert a == [a[0]] + a[1..] && b == [b[0]] + b[1..];
      LexLessTotal(a[1..], b[1..]);
    }
  }

  lemma LexLessAsymmetric(a: string, b: string)
    requires LexLess(a, b)
    ensures !LexLess(b, a)
  {
    if LexLess(b, a) {
      LexLessTransitive(a, b, a);
      LexLessIrreflexive(a);
    }
  }
}
