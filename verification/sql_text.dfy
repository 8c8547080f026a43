/** The pieces of SQL text the update builder writes: decimal placeholder numbers (`$1`, `$2`, ...)
    and comma-separated lists. */
module SqlText {

  import opened Wrappers

  predicate IsDigit(c: char)
  {
    '0' <= c <= '9'
  }

  predicate AllDigits(s: string)
  {
    forall i :: 0 <= i < |s| ==> IsDigit(s[i])
  }

  function DigitChar(d: nat): (c: char)
    requires d < 10
    ensures IsDigit(c)
  {
    ('0' as int + d) as char
  }

  function DigitValue(c: char): (d: nat)
    requires IsDigit(c)
    ensures d < 10
  {
    c as int - '0' as int
  }

  /** The decimal text of `n`, as a template literal prints an integer: at least one digit,
      and no leading zero unless `n` is zero itself. */
  function Decimal(n: nat): (s: string)
    ensures |s| > 0 && AllDigits(s)
    ensures s[0] == '0' <==> n == 0
    decreases n
  {
    if n < 10 then [DigitChar(n)] else Decimal(n / 10) + [DigitChar(n % 10)]
  }

  /** The number a string of decimal digits denotes */
  function ParseDecimal(s: string): nat
    requires AllDigits(s)
  {
    if s == [] then 0 else 10 * ParseDecimal(s[..|s| - 1]) + DigitValue(s[|s| - 1])
  }

  lemma {:induction false} DecimalRoundTrip(n: nat)
    ensures ParseDecimal(Decimal(n)) == n
  {
    var s := Decimal(n);
    if n >= 10 {
      assert s[..|s| - 1] == Decimal(n / 10);
      DecimalRoundTrip(n / 10);
    }
  }

  /** Two placeholders are written alike exactly when they have the same number. */
  lemma DecimalInjective(m: nat, n: nat)
    ensures Decimal(m) == Decimal(n) <==> m == n
  {
    DecimalRoundTrip(m);
    DecimalRoundTrip(n);
  }

  /** `parts.join(', ')`: n parts carry n - 1 separators, and the last part comes at the end */
  function Join(parts: seq<string>): (r: string)
    ensures |parts| == 0 ==> r == ""
    ensures |parts| > 0 ==> |r| >= |parts[|parts| - 1]| + 2 * (|parts| - 1)
  {
    if |parts| == 0 then ""
    else if |parts| == 1 then parts[0]
    else Join(parts[..|parts| - 1]) + ", " + parts[|parts| - 1]
  }

  /** Joining one more part appends the separator and that part. */
  lemma JoinSnoc(parts: seq<string>, p: string)
    requires |parts| > 0
    ensures Join(parts + [p]) == Join(parts) + ", " + p
  {
    assert (parts + [p])[..|parts|] == parts;
  }

  /** A join whose last part ends in `$n` ends in `$n` itself. */
  lemma JoinEndsWithPlaceholder(parts: seq<string>, text: string, n: nat)
    requires |parts| > 0 && parts[|parts| - 1] == text + "$" + Decimal(n)
    ensures TrailingPlaceholder(Join(parts)) == Some(n)
  {
    var k := |parts|;
    var init := if k == 1 then "" else Join(parts[..k - 1]) + ", ";
    assert Join(parts) == init + parts[k - 1];
    assert Join(parts) == (init + text) + "$" + Decimal(n);
    EndsWithPlaceholder(init + text, n);
  }

  /** The number of decimal digits at the end of `s` */
  function TrailingDigits(s: string): (k: nat)
    ensures k <= |s|
    ensures forall i :: |s| - k <= i < |s| ==> IsDigit(s[i])
    ensures k < |s| ==> !IsDigit(s[|s| - k - 1])
  {
    if |s| > 0 && IsDigit(s[|s| - 1]) then TrailingDigits(s[..|s| - 1]) + 1 else 0
  }

  /** The placeholder a piece of SQL text ends with: `Some(k)` when it ends in `$k` */
  function TrailingPlaceholder(s: string): Option<nat>
  {
    var k := TrailingDigits(s);
    if 0 < k < |s| && s[|s| - k - 1] == '$' then Some(ParseDecimal(s[|s| - k..])) else None
  }

  lemma {:induction false} TrailingDigitsAfter(prefix: string, digits: string)
    requires |prefix| > 0 && !IsDigit(prefix[|prefix| - 1])
    requires AllDigits(digits)
    ensures TrailingDigits(prefix + digits) == |digits|
  {
    if digits == [] {
      assert prefix + digits == prefix;
    } else {
      var s := prefix + digits;
      assert s[..|s| - 1] == prefix + digits[..|digits| - 1];
      TrailingDigitsAfter(prefix, digits[..|digits| - 1]);
    }
  }

  /** Text that ends in `$` and the decimal text of `n` names placeholder `n`, whatever comes
      before it. */
  lemma EndsWithPlaceholder(text: string, n: nat)
    ensures TrailingPlaceholder(text + "$" + Decimal(n)) == Some(n)
  {
    var prefix, d := text + "$", Decimal(n);
    var s := prefix + d;
    assert text + "$" + Decimal(n) == s;
    TrailingDigitsAfter(prefix, d);
    assert s[|s| - |d| ..] == d;
    assert s[|s| - |d| - 1] == '$';
    DecimalRoundTrip(n);
  }
}
