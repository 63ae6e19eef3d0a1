/** Models `parseMoneyAmount` of src/common/utils/smart-file-parser.util.ts on exact decimal values, and the
    symbols of src/common/utils/currency.util.ts. */
module MoneyParser {
  import opened Wrappers
  import opened Text

  const CURRENCY_SYMBOLS := map[
    "DOP" := "RD$", "USD" := "$", "EUR" := "€", "CAD" := "CA$", "GBP" := "£", "MXN" := "Mex$",
    "COP" := "COL$", "GTQ" := "Q", "PEN" := "S/", "BRL" := "R$", "CLP" := "CLP$"]

  predicate Kept(c: char) { IsDigit(c) || c == ',' || c == '.' || c == '-' }

  /** `raw.replace(/[^\d,.-]/g, '')`. */
  function Clean(raw: string): string {
    if raw == "" then "" else (if Kept(raw[0]) then [raw[0]] else "") + Clean(raw[1..])
  }

  /** `s.replace(/c/g, '')`. */
  function Remove(s: string, c: char): string {
    if s == "" then "" else (if s[0] == c then "" else [s[0]]) + Remove(s[1..], c)
  }

  /** `s.replace(from, to)`: the first occurrence. */
  function ReplaceFirst(s: string, from: char, to: char): string {
    if s == "" then "" else if s[0] == from then [to] + s[1..] else [s[0]] + ReplaceFirst(s[1..], from, to)
  }

  function LastIndexOf(s: string, c: char): int {
    if s == "" then -1 else if s[|s| - 1] == c then |s| - 1 else LastIndexOf(s[..|s| - 1], c)
  }

  function DigitRun(s: string): (n: nat)
    ensures n <= |s| && AllDigits(s[..n])
  {
    if s == "" || !IsDigit(s[0]) then 0 else 1 + DigitRun(s[1..])
  }

  /** The number written as `whole`, a point, and `fraction`. */
  function Decimal(whole: string, fraction: string): real {
    Value(whole) as real + Value(fraction) as real / Pow10(|fraction|) as real
  }

  /** `parseFloat` on what can be left: an optional sign, digits, and a point with digits, up to the first
      character that does not fit; `None` for `NaN`. */
  function ParseFloat(s: string): Option<real> {
    var negative := s != "" && s[0] == '-';
    var body := if negative then s[1..] else s;
    var whole, rest := body[..DigitRun(body)], body[DigitRun(body)..];
    var fraction := if rest != "" && rest[0] == '.' then rest[1..][..DigitRun(rest[1..])] else "";
    if whole == "" && fraction == "" then None
    else Some(if negative then -Decimal(whole, fraction) else Decimal(whole, fraction))
  }

  function Normalized(cleaned: string): string {
    if ',' in cleaned && '.' in cleaned then
      if LastIndexOf(cleaned, ',') > LastIndexOf(cleaned, '.') then ReplaceFirst(Remove(cleaned, '.'), ',', '.')
      else Remove(cleaned, ',')
    else if ',' in cleaned then ReplaceFirst(cleaned, ',', '.')
    else cleaned
  }

  function ParseMoneyAmount(raw: string): (amount: real)
    ensures amount >= 0.0
  {
    var cleaned := Clean(raw);
    if cleaned == "" then 0.0
    else
      match ParseFloat(Normalized(cleaned))
      case None => 0.0
      case Some(value) => if value >= 0.0 then value else 0.0
  }

  // --- How amounts are written --------------------------------------------------------

  datatype Style = Style(thousands: char, decimal: char)

  const US := Style(',', '.')

  const EUROPEAN := Style('.', ',')

  /** Digits in groups of three, counted from the right. */
  function Grouped(digits: string, separator: char): string
    decreases |digits|
  {
    if |digits| <= 3 then digits
    else Grouped(digits[..|digits| - 3], separator) + [separator] + digits[|digits| - 3..]
  }

  /** Text that the clean-up drops, as around an amount. */
  predicate Silent(s: string) {
    forall i :: 0 <= i < |s| ==> !('0' <= s[i] <= '9') && s[i] !in {',', '.', '-'}
  }

  lemma SymbolsAreSilent(code: string)
    requires code in CURRENCY_SYMBOLS
    ensures Silent(CURRENCY_SYMBOLS[code])
  {}

  // --- Text lemmas ------------------------------------------------------------------------

  predicate AllKept(s: string) { forall i :: 0 <= i < |s| ==> Kept(s[i]) }

  lemma {:induction false} CleanAppend(a: string, b: string)
    ensures Clean(a + b) == Clean(a) + Clean(b)
  {
    hide Kept;
    if a == "" {
      assert a + b == b;
    } else {
      CleanAppend(a[1..], b);
      assert (a + b)[1..] == a[1..] + b && (a + b)[0] == a[0];
      var first := if Kept(a[0]) then [a[0]] else "";
      assert first + (Clean(a[1..]) + Clean(b)) == (first + Clean(a[1..])) + Clean(b);
    }
  }

  lemma {:induction false} CleanKept(s: string)
    ensures AllKept(s) ==> Clean(s) == s
    ensures Silent(s) ==> Clean(s) == ""
  {
    if s != "" {
      CleanKept(s[1..]);
      assert s == [s[0]] + s[1..];
    }
  }

  lemma {:induction false} CleanAround(before: string, s: string, after: string)
    requires Silent(before) && AllKept(s) && Silent(after)
    ensures Clean(before + s + after) == s
  {
    CleanAppend(before + s, after);
    CleanAppend(before, s);
    CleanKept(before);
    CleanKept(s);
    CleanKept(after);
  }

  lemma RemoveHead(s: string, c: char)
    requires s != ""
    ensures Remove(s, c) == (if s[0] == c then "" else [s[0]]) + Remove(s[1..], c)
  {}

  lemma {:induction false} RemoveAppend(a: string, b: string, c: char)
    ensures Remove(a + b, c) == Remove(a, c) + Remove(b, c)
  {
    if a == "" {
      assert a + b == b;
    } else {
      RemoveAppend(a[1..], b, c);
      assert (a + b)[1..] == a[1..] + b && (a + b)[0] == a[0];
      RemoveHead(a + b, c);
      RemoveHead(a, c);
      hide Remove;
      var first := if a[0] == c then "" else [a[0]];
      assert first + (Remove(a[1..], c) + Remove(b, c)) == (first + Remove(a[1..], c)) + Remove(b, c);
    }
  }

  lemma {:induction false} RemoveAbsent(s: string, c: char)
    requires c !in s
    ensures Remove(s, c) == s
  {
    if s != "" {
      RemoveAbsent(s[1..], c);
      assert s == [s[0]] + s[1..];
    }
  }

  lemma {:induction false} ReplaceAfter(a: string, from: char, to: char, b: string)
    requires from !in a
    ensures ReplaceFirst(a + [from] + b, from, to) == a + [to] + b
  {
    var s := a + [from] + b;
    if a == "" {
      assert s == [from] + b;
      assert s[1..] == b;
      assert a + [to] + b == [to] + b;
    } else {
      ReplaceAfter(a[1..], from, to, b);
      assert s[0] == a[0] && s[1..] == a[1..] + [from] + b;
      assert a + [to] + b == [a[0]] + (a[1..] + [to] + b);
    }
  }

  lemma {:induction false} LastIndexAfter(a: string, c: char, b: string)
    requires c !in b
    ensures LastIndexOf(a + [c] + b, c) == |a|
  {
    var s := a + [c] + b;
    if b == "" {
      assert s[|s| - 1] == c;
    } else {
      assert s[|s| - 1] == b[|b| - 1] && s[..|s| - 1] == a + [c] + b[..|b| - 1];
      LastIndexAfter(a, c, b[..|b| - 1]);
    }
  }

  lemma {:induction false} LastIndexBelow(a: string, c: char, b: string)
    requires c !in b
    ensures LastIndexOf(a + b, c) < |a|
  {
    if b == "" {
      assert a + b == a;
      LastIndexInside(a, c);
    } else {
      var s := a + b;
      assert s[|s| - 1] == b[|b| - 1] && s[..|s| - 1] == a + b[..|b| - 1];
      LastIndexBelow(a, c, b[..|b| - 1]);
    }
  }

  lemma {:induction false} LastIndexInside(s: string, c: char)
    ensures LastIndexOf(s, c) < |s|
  {
    if s != "" { LastIndexInside(s[..|s| - 1], c); }
  }

  lemma {:induction false} DigitRunStops(digits: string, rest: string)
    requires AllDigits(digits) && (rest == "" || !IsDigit(rest[0]))
    ensures DigitRun(digits + rest) == |digits|
  {
    if digits == "" {
      assert digits + rest == rest;
    } else {
      DigitRunStops(digits[1..], rest);
      assert (digits + rest)[1..] == digits[1..] + rest;
    }
  }

  lemma ParseDecimal(whole: string, fraction: string, tail: string)
    requires whole != "" && AllDigits(whole) && AllDigits(fraction) && (tail == "" || !IsDigit(tail[0]))
    ensures ParseFloat(whole + ("." + (fraction + tail))) == Some(Decimal(whole, fraction))
  {
    hide Decimal;
    var rest := "." + (fraction + tail);
    var s := whole + rest;
    DigitRunStops(whole, rest);
    assert s[..|whole|] == whole && s[|whole|..] == rest;
    DigitRunStops(fraction, tail);
    assert rest[1..] == fraction + tail && (fraction + tail)[..|fraction|] == fraction;
  }

  lemma ParseWhole(whole: string)
    requires whole != "" && AllDigits(whole)
    ensures ParseFloat(whole) == Some(Value(whole) as real)
  {
    hide Value, DigitRun, Decimal;
    DigitRunStops(whole, "");
    assert whole + "" == whole && whole[|whole|..] == "" && whole[..|whole|] == whole;
    NoFraction(whole);
  }

  lemma NoFraction(whole: string)
    ensures Decimal(whole, "") == Value(whole) as real
  {
    assert Value("") == 0;
  }

  // --- Grouping -----------------------------------------------------------------------------

  lemma {:induction false} UngroupGivesDigits(digits: string, separator: char)
    requires AllDigits(digits) && !IsDigit(separator)
    ensures Remove(Grouped(digits, separator), separator) == digits
    decreases |digits|
  {
    hide Remove;
    if |digits| <= 3 {
      RemoveAbsent(digits, separator);
    } else {
      var head, last := digits[..|digits| - 3], digits[|digits| - 3..];
      UngroupGivesDigits(head, separator);
      RemoveAppend(Grouped(head, separator) + [separator], last, separator);
      RemoveAppend(Grouped(head, separator), [separator], separator);
      assert Remove([separator], separator) == "" by { RemoveOnly(separator); }
      RemoveAbsent(last, separator);
      assert head + "" == head && head + last == digits;
    }
  }

  lemma RemoveOnly(c: char)
    ensures Remove([c], c) == ""
  {
    assert [c][1..] == "";
  }

  predicate DigitsAnd(s: string, separator: char) { forall i :: 0 <= i < |s| ==> IsDigit(s[i]) || s[i] == separator }

  lemma {:induction false} GroupedIsDigitsAnd(digits: string, separator: char)
    requires AllDigits(digits)
    ensures DigitsAnd(Grouped(digits, separator), separator)
    ensures separator !in digits ==> (separator in Grouped(digits, separator) <==> |digits| > 3)
    ensures digits != "" ==> Grouped(digits, separator) != ""
    decreases |digits|
  {
    if |digits| > 3 {
      var head := Grouped(digits[..|digits| - 3], separator);
      GroupedIsDigitsAnd(digits[..|digits| - 3], separator);
      assert Grouped(digits, separator)[|head|] == separator;
    }
  }

  lemma GroupedKeepsDigits(digits: string, separator: char)
    requires AllDigits(digits) && !IsDigit(separator)
    ensures Remove(Grouped(digits, separator), separator) == digits
    ensures DigitsAnd(Grouped(digits, separator), separator)
    ensures separator in Grouped(digits, separator) <==> |digits| > 3
  {
    hide Grouped, Remove;
    UngroupGivesDigits(digits, separator);
    GroupedIsDigitsAnd(digits, separator);
  }

  /** A grouped number: a group of one to three digits, then a separator and three more, then nothing or
      another separator. */
  lemma {:induction false} GroupedShape(digits: string, separator: char)
    returns (head: string, next: string, tail: string)
    requires AllDigits(digits) && |digits| > 3
    ensures Grouped(digits, separator) == head + ([separator] + (next + tail))
    ensures 1 <= |head| <= 3 && AllDigits(head) && |next| == 3 && AllDigits(next)
    ensures tail == "" || tail[0] == separator
    decreases |digits|
  {
    var front, last := digits[..|digits| - 3], digits[|digits| - 3..];
    if |front| <= 3 {
      head, next, tail := front, last, "";
      assert last + "" == last;
    } else {
      head, next, tail := GroupedShape(front, separator);
      tail := tail + ([separator] + last);
    }
  }

  // --- The law --------------------------------------------------------------------------------

  lemma NormalizeUs(digits: string, fraction: string)
    requires digits != "" && AllDigits(digits) && AllDigits(fraction)
    ensures Normalized(Grouped(digits, ',') + ("." + fraction)) == digits + ("." + fraction)
  {
    hide Grouped, Remove, ReplaceFirst, LastIndexOf;
    var g, rest := Grouped(digits, ','), "." + fraction;
    var s := g + rest;
    GroupedKeepsDigits(digits, ',');
    RemoveAppend(g, rest, ',');
    RemoveAbsent(rest, ',');
    assert rest[0] == '.' && '.' in s;
    if |digits| > 3 {
      LastIndexBelow(g, ',', rest);
      LastIndexAfter(g, '.', fraction);
      assert s == g + ['.'] + fraction;
    } else {
      assert ',' !in s;
      RemoveAbsent(s, ',');
    }
  }

  lemma NormalizeEuropean(digits: string, fraction: string)
    requires digits != "" && AllDigits(digits) && AllDigits(fraction)
    ensures Normalized(Grouped(digits, '.') + ("," + fraction)) == digits + ("." + fraction)
  {
    hide Grouped, Remove, ReplaceFirst, LastIndexOf;
    var g, rest := Grouped(digits, '.'), "," + fraction;
    var s := g + rest;
    GroupedKeepsDigits(digits, '.');
    RemoveAppend(g, rest, '.');
    RemoveAbsent(rest, '.');
    assert rest[0] == ',' && ',' in s;
    ReplaceAfter(digits, ',', '.', fraction);
    assert digits + rest == digits + [','] + fraction && digits + ['.'] + fraction == digits + ("." + fraction);
    if |digits| > 3 {
      LastIndexBelow(g, '.', rest);
      LastIndexAfter(g, ',', fraction);
      assert s == g + [','] + fraction;
    } else {
      assert '.' !in s;
      RemoveAbsent(s, '.');
    }
  }

  /** An amount written with thousands separators and any decimals, in either style, among any text
      without digits, commas, points and hyphens, is read as the number it denotes. */
  lemma ReadsDecimals(before: string, n: nat, fraction: string, after: string, style: Style)
    requires Silent(before) && Silent(after) && AllDigits(fraction) && style in {US, EUROPEAN}
    ensures ParseMoneyAmount(before + (Grouped(Digits(n), style.thousands) + ([style.decimal] + fraction)) + after)
         == n as real + Value(fraction) as real / Pow10(|fraction|) as real
  {
    hide Grouped, Normalized, ParseFloat, Clean, Digits, Value, Silent, ParseMoneyAmount, AllKept, AllDigits;
    var g := Grouped(Digits(n), style.thousands);
    var s := g + ([style.decimal] + fraction);
    GroupedIsDigitsAnd(Digits(n), style.thousands);
    WrittenIsKept(g, style, fraction);
    CleanAround(before, s, after);
    if style == US { NormalizeUs(Digits(n), fraction); } else { NormalizeEuropean(Digits(n), fraction); }
    assert fraction + "" == fraction;
    ParseDecimal(Digits(n), fraction, "");
    DigitsValue(n);
    ValueBelow(fraction);
    ReadsNormal(before + s + after, Decimal(Digits(n), fraction));
  }

  lemma WrittenIsKept(g: string, style: Style, fraction: string)
    requires style in {US, EUROPEAN} && DigitsAnd(g, style.thousands) && AllDigits(fraction)
    ensures AllKept(g + ([style.decimal] + fraction))
  {}

  lemma ReadsNormal(raw: string, value: real)
    requires Clean(raw) != "" && ParseFloat(Normalized(Clean(raw))) == Some(value) && value >= 0.0
    ensures ParseMoneyAmount(raw) == value
  {}

  /** Every amount in cents, printed with two decimals behind a symbol of the table, is read back. */
  lemma ReadsCents(code: string, cents: nat, style: Style)
    requires code in CURRENCY_SYMBOLS && style in {US, EUROPEAN}
    ensures ParseMoneyAmount(CURRENCY_SYMBOLS[code]
              + (Grouped(Digits(cents / 100), style.thousands) + ([style.decimal] + PadStart(Digits(cents % 100), 2)))
              + "")
         == cents as real / 100.0
  {
    hide ParseMoneyAmount, Grouped, Value, PadStart;
    SymbolsAreSilent(code);
    var fraction := PadStart(Digits(cents % 100), 2);
    DigitsFit(cents % 100, 2);
    PadStartValue(Digits(cents % 100), 2);
    DigitsValue(cents % 100);
    ReadsDecimals(CURRENCY_SYMBOLS[code], cents / 100, fraction, "", style);
    assert Pow10(2) == 100 && cents == 100 * (cents / 100) + cents % 100;
  }

  lemma {:induction false} ValueBelow(s: string)
    requires AllDigits(s)
    ensures 0 <= Value(s) < Pow10(|s|)
  {
    if s != "" { ValueBelow(s[..|s| - 1]); }
  }

  lemma ReadsFirstGroups(digits: string, separator: char) returns (head: string, next: string)
    requires AllDigits(digits) && |digits| > 3 && separator in {',', '.'}
    ensures 1 <= |head| <= 3 && AllDigits(head) && |next| == 3 && AllDigits(next)
    ensures ParseFloat(Normalized(Grouped(digits, separator))) == Some(Decimal(head, next))
  {
    hide Grouped, ParseFloat, Decimal, ReplaceFirst;
    var tail: string;
    var g := Grouped(digits, separator);
    head, next, tail := GroupedShape(digits, separator);
    GroupedKeepsDigits(digits, separator);
    ReplaceAfter(head, ',', '.', next + tail);
    assert g == head + [separator] + (next + tail);
    assert head + ['.'] + (next + tail) == head + ("." + (next + tail));
    ParseDecimal(head, next, tail);
  }

  /** Without decimals, thousands separators are taken for a decimal one: such an amount is read right
      exactly when it is below a thousand and so has none. */
  lemma ReadsWholeExactly(before: string, n: nat, separator: char, after: string)
    requires Silent(before) && Silent(after) && separator in {',', '.'}
    ensures ParseMoneyAmount(before + Grouped(Digits(n), separator) + after) == n as real <==> n < 1000
  {
    hide Normalized, ParseFloat, Clean, Digits, Value, Silent;
    var g := Grouped(Digits(n), separator);
    GroupedKeepsDigits(Digits(n), separator);
    CleanAround(before, g, after);
    DigitsFit(n, 3);
    assert Pow10(3) == 1000;
    DigitsValue(n);
    if n < 1000 {
      NormalizePlain(g);
      ParseWhole(g);
    } else {
      hide Grouped;
      var head, next := ReadsFirstGroups(Digits(n), separator);
      FirstGroupsAreSmall(head, next);
    }
  }

  lemma NormalizePlain(s: string)
    requires AllDigits(s)
    ensures Normalized(s) == s
  {}

  lemma FirstGroupsAreSmall(head: string, next: string)
    requires |head| <= 3 && AllDigits(head) && |next| == 3 && AllDigits(next)
    ensures 0.0 <= Decimal(head, next) < 1000.0
  {
    hide Value;
    ValueBelow(head);
    ValueBelow(next);
    assert Pow10(3) == 1000 && Pow10(2) == 100 && Pow10(1) == 10 && Pow10(0) == 1;
    assert Value(next) as real / 1000.0 < 1.0;
  }

  /** Only digits, commas, points and hyphens matter. */
  lemma OnlyKeptMatter(raw: string)
    ensures ParseMoneyAmount(Clean(raw)) == ParseMoneyAmount(raw)
  {
    CleanedIsKept(raw);
    CleanKept(Clean(raw));
  }

  lemma {:induction false} CleanedIsKept(raw: string)
    ensures AllKept(Clean(raw))
  {
    if raw != "" { CleanedIsKept(raw[1..]); }
  }

  // --- Without thousands separators, and what reads as nothing -----------------------------------

  /** A whole amount written without separators is read as itself. */
  lemma ReadsPlainWhole(before: string, n: nat, after: string)
    requires Silent(before) && Silent(after)
    ensures ParseMoneyAmount(before + Digits(n) + after) == n as real
  {
    hide Normalized, ParseFloat, Clean, Digits, Value, ParseMoneyAmount;
    CleanAround(before, Digits(n), after);
    NormalizePlain(Digits(n));
    ParseWhole(Digits(n));
    DigitsValue(n);
    ReadsNormal(before + Digits(n) + after, n as real);
  }

  /** So is one with decimals, behind a point or a comma. */
  lemma ReadsPlainDecimals(before: string, n: nat, separator: char, fraction: string, after: string)
    requires Silent(before) && Silent(after) && AllDigits(fraction) && separator in {',', '.'}
    ensures ParseMoneyAmount(before + (Digits(n) + ([separator] + fraction)) + after)
         == n as real + Value(fraction) as real / Pow10(|fraction|) as real
  {
    hide ParseFloat, Clean, Digits, Value, ParseMoneyAmount, ReplaceFirst, Silent;
    var s := Digits(n) + ([separator] + fraction);
    PlainIsKept(Digits(n), separator, fraction);
    CleanAround(before, s, after);
    assert s == Digits(n) + [separator] + fraction;
    assert s[|Digits(n)|] == separator;
    if separator == ',' { ReplaceAfter(Digits(n), ',', '.', fraction); }
    assert Digits(n) + ['.'] + fraction == Digits(n) + ("." + fraction) && fraction + "" == fraction;
    PlainNormalized(Digits(n), separator, fraction);
    ParseDecimal(Digits(n), fraction, "");
    DigitsValue(n);
    ValueBelow(fraction);
    ReadsNormal(before + s + after, Decimal(Digits(n), fraction));
  }

  lemma PlainIsKept(digits: string, separator: char, fraction: string)
    requires AllDigits(digits) && AllDigits(fraction) && separator in {',', '.'}
    ensures AllKept(digits + ([separator] + fraction))
  {}

  lemma PlainNormalized(digits: string, separator: char, fraction: string)
    requires AllDigits(digits) && AllDigits(fraction) && separator in {',', '.'}
    ensures Normalized(digits + ([separator] + fraction)) == digits + ("." + fraction)
  {
    hide Remove, LastIndexOf, ReplaceFirst;
    var s := digits + ([separator] + fraction);
    assert s[|digits|] == separator;
    assert s == digits + [separator] + fraction;
    if separator == ',' {
      ReplaceAfter(digits, ',', '.', fraction);
      assert '.' !in s;
      assert digits + ['.'] + fraction == digits + ("." + fraction);
    } else {
      assert ',' !in s;
    }
  }

  predicate NoDigits(s: string) { forall i :: 0 <= i < |s| ==> !IsDigit(s[i]) }

  lemma {:induction false} CleanNoDigits(s: string)
    requires NoDigits(s)
    ensures NoDigits(Clean(s))
  {
    if s != "" { CleanNoDigits(s[1..]); }
  }

  lemma {:induction false} RemoveNoDigits(s: string, c: char)
    requires NoDigits(s)
    ensures NoDigits(Remove(s, c))
  {
    if s != "" { RemoveNoDigits(s[1..], c); }
  }

  lemma {:induction false} ReplaceNoDigits(s: string, c: char)
    requires NoDigits(s)
    ensures NoDigits(ReplaceFirst(s, c, '.'))
  {
    if s != "" { ReplaceNoDigits(s[1..], c); }
  }

  lemma NormalizedNoDigits(s: string)
    requires NoDigits(s)
    ensures NoDigits(Normalized(s))
  {
    hide Remove, ReplaceFirst, LastIndexOf, NoDigits;
    RemoveNoDigits(s, '.');
    RemoveNoDigits(s, ',');
    ReplaceNoDigits(s, ',');
    ReplaceNoDigits(Remove(s, '.'), ',');
  }

  /** A text without digits is read as nothing. */
  lemma UnreadableIsZero(raw: string)
    requires NoDigits(raw)
    ensures ParseMoneyAmount(raw) == 0.0
  {
    hide Clean, Normalized;
    CleanNoDigits(raw);
    NormalizedNoDigits(Clean(raw));
    NothingToParse(Normalized(Clean(raw)));
  }

  lemma NothingToParse(s: string)
    requires NoDigits(s)
    ensures ParseFloat(s).None?
  {
    hide Decimal;
    var body := if s != "" && s[0] == '-' then s[1..] else s;
    assert DigitRun(body) == 0;
    if body != "" { assert DigitRun(body[1..]) == 0; }
    assert body[0..] == body;
  }

  lemma NormalizedKeepsSign(s: string)
    requires s != "" && s[0] == '-'
    ensures Normalized(s) != "" && Normalized(s)[0] == '-'
  {
    RemoveHead(s, '.');
    RemoveHead(s, ',');
  }

  lemma NegativeIsNotPositive(s: string)
    requires s != "" && s[0] == '-'
    ensures ParseFloat(s).None? || ParseFloat(s).value <= 0.0
  {
    hide Value, Pow10, DigitRun;
    var body := s[1..];
    var whole, rest := body[..DigitRun(body)], body[DigitRun(body)..];
    if rest != "" && rest[0] == '.' { DecimalIsNatural(whole, rest[1..][..DigitRun(rest[1..])]); }
    DecimalIsNatural(whole, "");
  }

  lemma DecimalIsNatural(whole: string, fraction: string)
    requires AllDigits(whole) && AllDigits(fraction)
    ensures Decimal(whole, fraction) >= 0.0
  {
    ShareIsNatural(Value(fraction), Pow10(|fraction|));
  }

  lemma ShareIsNatural(n: nat, d: nat)
    requires d > 0
    ensures n as real / d as real >= 0.0
  {}

  /** An amount behind a minus sign is read as nothing, whatever follows it. */
  lemma NegativeIsZero(before: string, rest: string)
    requires Silent(before)
    ensures ParseMoneyAmount(before + "-" + rest) == 0.0
  {
    var raw := before + "-" + rest;
    CleanAppend(before + "-", rest);
    CleanAround(before, "-", "");
    assert before + "-" + "" == before + "-";
    hide Clean, Normalized, ParseFloat;
    NormalizedKeepsSign(Clean(raw));
    NegativeIsNotPositive(Normalized(Clean(raw)));
  }
}
