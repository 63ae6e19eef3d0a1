/** The pieces of JavaScript text handling the modelled files share: decimal
    numerals, padding, splitting and joining, trimming, and string order. */
module Text {
  import opened Wrappers

  // --- Decimal numerals --------------------------------------------------

  predicate IsDigit(c: char) { '0' <= c <= '9' }

  predicate AllDigits(s: string) { forall i :: 0 <= i < |s| ==> IsDigit(s[i]) }

  function DigitValue(c: char): int { c as int - '0' as int }

  function DigitChar(d: nat): (c: char)
    requires d < 10
    ensures IsDigit(c) && DigitValue(c) == d
  {
    ('0' as int + d) as char
  }

  /** The number a run of digits denotes; the empty run denotes 0, as `Number('')` does. */
  function Value(s: string): (v: int)
    ensures AllDigits(s) ==> v >= 0
  {
    if s == "" then 0 else 10 * Value(s[..|s| - 1]) + DigitValue(s[|s| - 1])
  }

  /** `String(n)` for a natural number. */
  function Digits(n: nat): (s: string)
    ensures s != "" && AllDigits(s)
  {
    if n < 10 then [DigitChar(n)] else Digits(n / 10) + [DigitChar(n % 10)]
  }

  /** `s.padStart(width, '0')`. */
  function PadStart(s: string, width: nat): (r: string)
    ensures |r| == if |s| < width then width else |s|
    ensures AllDigits(s) ==> AllDigits(r)
    decreases width - |s|
  {
    if |s| < width then PadStart("0" + s, width) else s
  }

  lemma {:induction false} DigitsValue(n: nat)
    ensures Value(Digits(n)) == n
  {
    if n >= 10 {
      DigitsValue(n / 10);
      assert Digits(n)[..|Digits(n)| - 1] == Digits(n / 10);
    }
  }

  lemma {:induction false} LeadingZero(s: string)
    ensures Value("0" + s) == Value(s)
  {
    if s != "" {
      LeadingZero(s[..|s| - 1]);
      assert ("0" + s)[..|s|] == "0" + s[..|s| - 1];
    }
  }

  lemma {:induction false} PadStartValue(s: string, width: nat)
    ensures Value(PadStart(s, width)) == Value(s)
    decreases width - |s|
  {
    if |s| < width {
      LeadingZero(s);
      PadStartValue("0" + s, width);
    }
  }

  /** Printing is injective: a padded numeral determines its number. */
  lemma PaddedInjective(m: nat, n: nat, width: nat)
    requires PadStart(Digits(m), width) == PadStart(Digits(n), width)
    ensures m == n
  {
    DigitsValue(m);
    DigitsValue(n);
    PadStartValue(Digits(m), width);
    PadStartValue(Digits(n), width);
  }

  function Pow10(k: nat): (p: nat)
    ensures p >= 1
  {
    if k == 0 then 1 else 10 * Pow10(k - 1)
  }

  /** A numeral fits in `k` characters exactly when the number is below 10^k. */
  lemma {:induction false} DigitsFit(n: nat, k: nat)
    requires k >= 1
    ensures |Digits(n)| <= k <==> n < Pow10(k)
  {
    if k == 1 {
      assert Pow10(1) == 10 * Pow10(0) == 10;
    } else if n < 10 {
      assert Pow10(k) == 10 * Pow10(k - 1);
    } else {
      DigitsFit(n / 10, k - 1);
    }
  }

  // --- String order -------------------------------------------------------

  /** `a < b` on strings. */
  predicate Less(a: string, b: string) {
    if b == "" then false
    else if a == "" then true
    else a[0] < b[0] || (a[0] == b[0] && Less(a[1..], b[1..]))
  }

  lemma {:induction false} LessAppend(a: string, b: string, x: string, y: string)
    requires |a| == |b|
    ensures Less(a + x, b + y) <==> Less(a, b) || (a == b && Less(x, y))
  {
    if a == "" {
      assert a + x == x && b + y == y;
    } else {
      assert (a + x)[1..] == a[1..] + x && (b + y)[1..] == b[1..] + y;
      LessAppend(a[1..], b[1..], x, y);
      assert a == [a[0]] + a[1..] && b == [b[0]] + b[1..];
    }
  }

  /** On digit strings of equal length, string order is numeric order. */
  lemma {:induction false} LessDigits(a: string, b: string)
    requires |a| == |b| && AllDigits(a) && AllDigits(b)
    ensures Less(a, b) <==> Value(a) < Value(b)
    ensures a == b <==> Value(a) == Value(b)
  {
    if a != "" {
      var a', b' := a[..|a| - 1], b[..|b| - 1];
      var x, y := [a[|a| - 1]], [b[|b| - 1]];
      assert a == a' + x && b == b' + y;
      LessDigits(a', b');
      LessAppend(a', b', x, y);
      assert Less(x, y) <==> x[0] < y[0];
    }
  }

  // --- Splitting and joining ----------------------------------------------

  /** `s.split(sep)` for a one-character separator. */
  function Split(s: string, sep: char): (parts: seq<string>)
    ensures parts != []
  {
    if s == "" then [""]
    else
      var rest := Split(s[1..], sep);
      if s[0] == sep then [""] + rest else [[s[0]] + rest[0]] + rest[1..]
  }

  lemma {:induction false} SplitPiece(a: string, sep: char, b: string)
    requires sep !in a
    ensures Split(a + [sep] + b, sep) == [a] + Split(b, sep)
  {
    var s := a + [sep] + b;
    if a == "" {
      assert s == [sep] + b;
      assert s[1..] == b;
    } else {
      SplitPiece(a[1..], sep, b);
      assert s[1..] == a[1..] + [sep] + b && s[0] == a[0];
      assert [a[0]] + a[1..] == a;
    }
  }

  lemma {:induction false} SplitLast(a: string, sep: char)
    requires sep !in a
    ensures Split(a, sep) == [a]
  {
    if a != "" {
      SplitLast(a[1..], sep);
      assert [a[0]] + a[1..] == a;
    }
  }

  /** `parts.join(sep)`. */
  function Join(parts: seq<string>, sep: string): string {
    if parts == [] then ""
    else if |parts| == 1 then parts[0]
    else parts[0] + sep + Join(parts[1..], sep)
  }

  // --- Trimming -----------------------------------------------------------

  const BOM: char := '\U{FEFF}'

  /** White space and line terminators as `trim` strips them (sections 12.2 and 12.3 of ECMA-262). */
  predicate IsSpace(c: char) {
    || '\t' <= c <= '\r'
    || c == ' ' || c == '\U{00A0}' || c == '\U{1680}'
    || '\U{2000}' <= c <= '\U{200A}'
    || c == '\U{2028}' || c == '\U{2029}' || c == '\U{202F}' || c == '\U{205F}'
    || c == '\U{3000}' || c == BOM
  }

  function TrimStart(s: string): (r: string)
    ensures |r| <= |s|
  {
    if s != "" && IsSpace(s[0]) then TrimStart(s[1..]) else s
  }

  function TrimEnd(s: string): (r: string)
    ensures |r| <= |s|
  {
    if s != "" && IsSpace(s[|s| - 1]) then TrimEnd(s[..|s| - 1]) else s
  }

  function Trim(s: string): string { TrimEnd(TrimStart(s)) }

  predicate Blank(s: string) { forall i :: 0 <= i < |s| ==> IsSpace(s[i]) }

  lemma {:induction false} TrimStartBlank(s: string)
    ensures TrimStart(s) == "" <==> Blank(s)
    ensures TrimStart(s) != "" ==> !IsSpace(TrimStart(s)[0])
  {
    if s != "" && IsSpace(s[0]) {
      TrimStartBlank(s[1..]);
      if Blank(s[1..]) {
        forall i | 0 <= i < |s| ensures IsSpace(s[i]) { if i > 0 { assert s[i] == s[1..][i - 1]; } }
      }
    }
  }

  lemma {:induction false} TrimEndKeepsHead(s: string)
    requires s != "" && !IsSpace(s[0])
    ensures TrimEnd(s) != "" && TrimEnd(s)[0] == s[0]
  {
    if IsSpace(s[|s| - 1]) { TrimEndKeepsHead(s[..|s| - 1]); }
  }

  /** Trimming leaves nothing exactly when there was nothing but white space. */
  lemma TrimBlank(s: string)
    ensures Trim(s) == "" <==> Blank(s)
  {
    TrimStartBlank(s);
    if TrimStart(s) != "" { TrimEndKeepsHead(TrimStart(s)); }
  }

  lemma {:induction false} TrimEndNoSpace(s: string)
    ensures TrimEnd(s) != "" ==> !IsSpace(TrimEnd(s)[|TrimEnd(s)| - 1])
  {
    if s != "" && IsSpace(s[|s| - 1]) { TrimEndNoSpace(s[..|s| - 1]); }
  }

  /** `trim` is idempotent. */
  lemma TrimTwice(s: string)
    ensures Trim(Trim(s)) == Trim(s)
  {
    TrimStartBlank(s);
    TrimEndNoSpace(TrimStart(s));
    if TrimStart(s) != "" { TrimEndKeepsHead(TrimStart(s)); }
  }
}
