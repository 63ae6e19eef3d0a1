/** Models how src/modules/genieacs/genieacs-client.ts finds a device by a serial number that may be a MAC
    address. Regular expressions are trees with their usual meaning, compared without regard to case. */
module MacMatching {
  import opened Wrappers

  // --- Characters -------------------------------------------------------------------

  predicate IsHex(c: char) { '0' <= c <= '9' || 'a' <= c <= 'f' || 'A' <= c <= 'F' }

  predicate IsSeparator(c: char) { c == ':' || c == '-' }

  function LowerChar(c: char): char { if 'A' <= c <= 'Z' then (c as int + 32) as char else c }

  function Lower(s: string): (r: string)
    ensures |r| == |s| && forall i :: 0 <= i < |s| ==> r[i] == LowerChar(s[i])
  {
    if s == "" then "" else [LowerChar(s[0])] + Lower(s[1..])
  }

  /** A lower-case hexadecimal digit. */
  function HexChar(v: nat): (c: char)
    requires v < 16
    ensures IsHex(c) && LowerChar(c) == c
  {
    if v < 10 then ('0' as int + v) as char else ('a' as int + v - 10) as char
  }

  function HexValue(c: char): (v: nat)
    requires IsHex(c) && LowerChar(c) == c
    ensures v < 16 && HexChar(v) == c
  {
    if c <= '9' then c as int - '0' as int else c as int - 'a' as int + 10
  }

  /** Two lower-case hexadecimal digits. */
  predicate IsOctet(o: string) {
    |o| == 2 && forall i :: 0 <= i < 2 ==> IsHex(o[i]) && LowerChar(o[i]) == o[i]
  }

  /** `v.toString(16).padStart(2, '0')`. */
  function OctetText(v: nat): (o: string)
    requires v < 256
    ensures IsOctet(o) && OctetValue(o) == v
  {
    HexCharInverse(v / 16);
    HexCharInverse(v % 16);
    [HexChar(v / 16), HexChar(v % 16)]
  }

  /** `parseInt(o, 16)`. */
  function OctetValue(o: string): (v: nat)
    requires IsOctet(o)
    ensures v < 256
  {
    16 * HexValue(o[0]) + HexValue(o[1])
  }

  lemma HexCharInverse(v: nat)
    requires v < 16
    ensures HexValue(HexChar(v)) == v
  {}

  lemma OctetValueInverse(o: string)
    requires IsOctet(o)
    ensures OctetText(OctetValue(o)) == o
  {}

  // --- Addresses -----------------------------------------------------------------------

  /** The hexadecimal digits of a text, in lower case. */
  function HexOf(s: string): string {
    if s == "" then "" else (if IsHex(s[0]) then [LowerChar(s[0])] else "") + HexOf(s[1..])
  }

  function Pairs(s: string): seq<string> {
    if |s| < 2 then [] else [s[..2]] + Pairs(s[2..])
  }

  function ParseMacOctets(value: string): Option<seq<string>> {
    if |HexOf(value)| != 12 then None else Some(Pairs(HexOf(value)))
  }

  function Flat(octets: seq<string>): string {
    if octets == [] then "" else octets[0] + Flat(octets[1..])
  }

  predicate AreOctets(octets: seq<string>) { forall i :: 0 <= i < |octets| ==> IsOctet(octets[i]) }

  /** `n` pairs of hexadecimal digits with at most one separator between neighbours. */
  predicate MacShaped(s: string, n: nat)
    decreases n
  {
    n > 0 && |s| >= 2 && IsHex(s[0]) && IsHex(s[1]) &&
    if n == 1 then |s| == 2
    else MacShaped(s[if |s| > 2 && IsSeparator(s[2]) then 3 else 2..], n - 1)
  }

  // --- Patterns ---------------------------------------------------------------------------

  /** `Optional` is a class that may be absent. */
  datatype Regex =
    | Literal(text: string)
    | Optional(chars: set<char>)
    | Concat(first: Regex, second: Regex)
    | Either(left: Regex, right: Regex)

  /** Does the whole of `s` match? */
  predicate Matches(r: Regex, s: string) {
    match r
    case Literal(text) => Lower(s) == Lower(text)
    case Optional(chars) => s == "" || (|s| == 1 && s[0] in chars)
    case Concat(first, second) => exists i :: 0 <= i <= |s| && Matches(first, s[..i]) && Matches(second, s[i..])
    case Either(left, right) => Matches(left, s) || Matches(right, s)
  }

  /** `[:-]?` */
  const SEPARATOR := Optional({':', '-'})

  /** `terms.join('[:-]?')`. */
  function Joined(terms: seq<Regex>): Regex
    requires terms != []
  {
    if |terms| == 1 then terms[0] else Concat(terms[0], Concat(SEPARATOR, Joined(terms[1..])))
  }

  function Literals(texts: seq<string>): (terms: seq<Regex>)
    ensures |terms| == |texts| && forall i :: 0 <= i < |texts| ==> terms[i] == Literal(texts[i])
  {
    if texts == [] then [] else [Literal(texts[0])] + Literals(texts[1..])
  }

  /** `(?:a|b|…)`. */
  function Alternatives(texts: seq<string>): Regex
    requires texts != []
  {
    if |texts| == 1 then Literal(texts[0]) else Either(Literal(texts[0]), Alternatives(texts[1..]))
  }

  /** `macHexToPattern`, from the octets. */
  function MacPattern(octets: seq<string>): Regex
    requires octets != []
  {
    Joined(Literals(octets))
  }

  /** One pattern for all candidates: the common octets, then the last ones as alternatives. */
  function CompactPattern(prefix: seq<string>, lasts: seq<string>): Regex
    requires lasts != []
  {
    Joined(Literals(prefix) + [Alternatives(lasts)])
  }

  // --- The compact pattern ------------------------------------------------------------------

  lemma {:induction false} AlternativesMatch(texts: seq<string>, s: string)
    requires texts != []
    ensures Matches(Alternatives(texts), s) <==> exists t :: t in texts && Matches(Literal(t), s)
  {
    if |texts| > 1 {
      AlternativesMatch(texts[1..], s);
      assert texts == [texts[0]] + texts[1..];
    }
  }

  /** Matching a term, an optional separator and the rest. */
  predicate MatchesThen(term: Regex, rest: Regex, s: string) {
    exists i, j :: 0 <= i <= j <= |s| && Splits(term, rest, s, i, j)
  }

  predicate Splits(term: Regex, rest: Regex, s: string, i: nat, j: nat)
    requires i <= j <= |s|
  {
    Matches(term, s[..i]) && Matches(SEPARATOR, s[i..j]) && Matches(rest, s[j..])
  }

  lemma ConcatUnfolds(first: Regex, second: Regex, s: string)
    ensures Matches(Concat(first, second), s)
      <==> exists i :: 0 <= i <= |s| && Matches(first, s[..i]) && Matches(second, s[i..])
  {}

  lemma ConcatMatches(term: Regex, rest: Regex, s: string)
    ensures Matches(Concat(term, Concat(SEPARATOR, rest)), s) <==> MatchesThen(term, rest, s)
  {
    hide Matches;
    var tail := Concat(SEPARATOR, rest);
    ConcatUnfolds(term, tail, s);
    if i :| 0 <= i <= |s| && Matches(term, s[..i]) && Matches(tail, s[i..]) {
      ConcatUnfolds(SEPARATOR, rest, s[i..]);
      var k :| 0 <= k <= |s[i..]| && Matches(SEPARATOR, s[i..][..k]) && Matches(rest, s[i..][k..]);
      assert s[i..][..k] == s[i..i + k] && s[i..][k..] == s[i + k..];
      assert Splits(term, rest, s, i, i + k);
    }
    if i, j :| 0 <= i <= j <= |s| && Splits(term, rest, s, i, j) {
      ConcatUnfolds(SEPARATOR, rest, s[i..]);
      assert s[i..][..j - i] == s[i..j] && s[i..][j - i..] == s[j..];
      assert Matches(tail, s[i..]);
    }
  }

  lemma JoinedHead(terms: seq<Regex>)
    requires |terms| > 1
    ensures Joined(terms) == Concat(terms[0], Concat(SEPARATOR, Joined(terms[1..])))
  {}

  /** A pattern that ends in alternatives matches exactly what one of the patterns that end in a single
      alternative does. */
  lemma {:induction false} JoinedAlternatives(terms: seq<Regex>, lasts: seq<string>, s: string)
    requires lasts != []
    ensures Matches(Joined(terms + [Alternatives(lasts)]), s) <==>
      exists t :: t in lasts && Matches(Joined(terms + [Literal(t)]), s)
    decreases |terms|
  {
    hide Matches, Joined;
    if terms == [] {
      AlternativesMatch(lasts, s);
      assert terms + [Alternatives(lasts)] == [Alternatives(lasts)];
      JoinedOne(Alternatives(lasts));
      forall t ensures Joined(terms + [Literal(t)]) == Literal(t) {
        assert terms + [Literal(t)] == [Literal(t)];
        JoinedOne(Literal(t));
      }
    } else {
      var all := terms[1..] + [Alternatives(lasts)];
      JoinedFirst(terms, Alternatives(lasts));
      ConcatMatches(terms[0], Joined(all), s);
      forall t
        ensures Matches(Joined(terms + [Literal(t)]), s)
          <==> MatchesThen(terms[0], Joined(terms[1..] + [Literal(t)]), s)
      {
        JoinedFirst(terms, Literal(t));
        ConcatMatches(terms[0], Joined(terms[1..] + [Literal(t)]), s);
      }
      forall j | 0 <= j <= |s|
        ensures Matches(Joined(all), s[j..])
          <==> exists t :: t in lasts && Matches(Joined(terms[1..] + [Literal(t)]), s[j..])
      {
        JoinedAlternatives(terms[1..], lasts, s[j..]);
      }
      Distribute(terms[0], terms[1..], lasts, s);
    }
  }

  lemma JoinedOne(term: Regex)
    ensures Joined([term]) == term
  {}

  lemma JoinedFirst(terms: seq<Regex>, last: Regex)
    requires terms != []
    ensures Joined(terms + [last]) == Concat(terms[0], Concat(SEPARATOR, Joined(terms[1..] + [last])))
  {
    assert (terms + [last])[1..] == terms[1..] + [last];
  }

  lemma Distribute(term: Regex, terms: seq<Regex>, lasts: seq<string>, s: string)
    requires lasts != []
    requires forall j | 0 <= j <= |s| :: Matches(Joined(terms + [Alternatives(lasts)]), s[j..]) <==>
      exists t :: t in lasts && Matches(Joined(terms + [Literal(t)]), s[j..])
    ensures MatchesThen(term, Joined(terms + [Alternatives(lasts)]), s) <==>
      exists t :: t in lasts && MatchesThen(term, Joined(terms + [Literal(t)]), s)
  {
    hide Matches, Joined;
    var all := Joined(terms + [Alternatives(lasts)]);
    if MatchesThen(term, all, s) {
      var i, j :| 0 <= i <= j <= |s| && Splits(term, all, s, i, j);
      var t :| t in lasts && Matches(Joined(terms + [Literal(t)]), s[j..]);
      assert Splits(term, Joined(terms + [Literal(t)]), s, i, j);
    }
    if t :| t in lasts && MatchesThen(term, Joined(terms + [Literal(t)]), s) {
      var i, j :| 0 <= i <= j <= |s| && Splits(term, Joined(terms + [Literal(t)]), s, i, j);
      assert Splits(term, all, s, i, j);
    }
  }

  lemma {:induction false} LiteralsAppend(prefix: seq<string>, last: string)
    ensures Literals(prefix + [last]) == Literals(prefix) + [Literal(last)]
  {}

  /** The compact pattern matches a text exactly when the pattern of one of the candidates does. */
  lemma CompactIsOneOf(prefix: seq<string>, lasts: seq<string>, s: string)
    requires lasts != []
    ensures Matches(CompactPattern(prefix, lasts), s)
      <==> exists t :: t in lasts && Matches(MacPattern(prefix + [t]), s)
  {
    hide Matches, Joined, Alternatives;
    JoinedAlternatives(Literals(prefix), lasts, s);
    forall t ensures MacPattern(prefix + [t]) == Joined(Literals(prefix) + [Literal(t)]) { LiteralsAppend(prefix, t); }
  }

  // --- What a pattern matches -------------------------------------------------------------------

  /** A text read as octets, one after another. */
  predicate Reads(octets: seq<string>, s: string) {
    octets != [] &&
    if |octets| == 1 then Lower(s) == octets[0]
    else
      |s| >= 2 && Lower(s[..2]) == octets[0]
      && (Reads(octets[1..], s[2..]) || (|s| > 2 && IsSeparator(s[2]) && Reads(octets[1..], s[3..])))
  }

  lemma LowerOctet(o: string)
    requires IsOctet(o)
    ensures Lower(o) == o
  {}

  lemma {:induction false} MatchesReads(octets: seq<string>, s: string)
    requires octets != [] && AreOctets(octets)
    ensures Matches(MacPattern(octets), s) <==> Reads(octets, s)
  {
    hide Matches, Joined, IsOctet;
    var terms := Literals(octets);
    LowerOctet(octets[0]);
    OctetLength(octets[0]);
    if |octets| == 1 {
      JoinedOne(Literal(octets[0]));
      assert terms == [Literal(octets[0])];
      LiteralMatches(octets[0], s);
    } else {
      var rest := octets[1..];
      JoinedHead(terms);
      assert terms[1..] == Literals(rest);
      ConcatMatches(Literal(octets[0]), MacPattern(rest), s);
      ReadsStep(octets[0], MacPattern(rest), s);
      if |s| >= 2 { MatchesReads(rest, s[2..]); }
      if |s| >= 3 { MatchesReads(rest, s[3..]); }
    }
  }

  lemma LiteralMatches(o: string, s: string)
    ensures Matches(Literal(o), s) <==> Lower(s) == Lower(o)
  {}

  lemma ReadsStep(o: string, rest: Regex, s: string)
    requires |o| == 2 && Lower(o) == o
    ensures MatchesThen(Literal(o), rest, s) <==>
      |s| >= 2 && Lower(s[..2]) == o
        && (Matches(rest, s[2..]) || (|s| > 2 && IsSeparator(s[2]) && Matches(rest, s[3..])))
  {
    hide Lower;
    if MatchesThen(Literal(o), rest, s) {
      var i, j :| 0 <= i <= j <= |s| && Splits(Literal(o), rest, s, i, j);
      assert |Lower(s[..i])| == i == 2;
      assert j == 2 || j == 3;
    }
    if |s| >= 2 && Lower(s[..2]) == o {
      if Matches(rest, s[2..]) { assert Splits(Literal(o), rest, s, 2, 2); }
      if |s| > 2 && IsSeparator(s[2]) && Matches(rest, s[3..]) { assert Splits(Literal(o), rest, s, 2, 3); }
    }
  }

  lemma HexOfPair(s: string)
    requires |s| >= 2 && IsHex(s[0]) && IsHex(s[1])
    ensures HexOf(s) == Lower(s[..2]) + HexOf(s[2..])
  {
    hide HexOf, LowerChar;
    assert s[1..][1..] == s[2..];
    HexOfFirst(s);
    HexOfFirst(s[1..]);
    var a, b := [LowerChar(s[0])], [LowerChar(s[1])];
    assert Lower(s[..2]) == a + b;
    assert a + (b + HexOf(s[2..])) == (a + b) + HexOf(s[2..]);
  }

  lemma HexOfFirst(s: string)
    requires s != ""
    ensures HexOf(s) == (if IsHex(s[0]) then [LowerChar(s[0])] else "") + HexOf(s[1..])
  {}

  lemma HexOfSeparator(s: string)
    requires s != "" && IsSeparator(s[0])
    ensures HexOf(s) == HexOf(s[1..])
  {}

  lemma HexAfterLower(s: string, o: string)
    requires IsOctet(o) && |s| >= 2 && Lower(s[..2]) == o
    ensures IsHex(s[0]) && IsHex(s[1])
  {
    assert LowerChar(s[0]) == o[0] && LowerChar(s[1]) == o[1];
  }

  lemma {:induction false} ReadsExactly(octets: seq<string>, s: string)
    requires octets != [] && AreOctets(octets)
    ensures Reads(octets, s) <==> MacShaped(s, |octets|) && HexOf(s) == Flat(octets)
  {
    hide Lower, HexOf, IsOctet;
    OctetLength(octets[0]);
    if |s| == 2 { assert s[..2] == s; }
    if |s| >= 2 && Lower(s[..2]) == octets[0] { HexAfterLower(s, octets[0]); }
    if |s| >= 2 && IsHex(s[0]) && IsHex(s[1]) {
      HexOfPair(s);
      FlatHead(octets);
      if |octets| == 1 {
        if |s| == 2 { LastPair(s); }
      } else {
        var rest := octets[1..];
        ReadsExactly(rest, s[2..]);
        if |s| > 2 && IsSeparator(s[2]) {
          assert s[2..][1..] == s[3..];
          HexOfSeparator(s[2..]);
          ReadsExactly(rest, s[3..]);
          assert !MacShaped(s[2..], |rest|);
        }
        SamePair(Lower(s[..2]), HexOf(s[2..]), octets[0], Flat(rest));
      }
    }
  }

  lemma OctetLength(o: string)
    requires IsOctet(o)
    ensures |o| == 2
  {}

  lemma FlatHead(octets: seq<string>)
    requires octets != []
    ensures Flat(octets) == octets[0] + Flat(octets[1..])
    ensures |octets| == 1 ==> Flat(octets) == octets[0]
  {
    if |octets| == 1 { assert octets[1..] == [] && octets[0] + "" == octets[0]; }
  }

  lemma LastPair(s: string)
    requires |s| == 2
    ensures Lower(s[..2]) + HexOf(s[2..]) == Lower(s)
  {
    assert s[..2] == s && s[2..] == "" && Lower(s) + "" == Lower(s);
  }

  lemma SamePair(a: string, x: string, b: string, y: string)
    requires |a| == |b|
    ensures a + x == b + y <==> a == b && x == y
  {
    if a + x == b + y {
      assert a == (a + x)[..|a|] && b == (b + y)[..|b|];
      assert x == (a + x)[|a|..] && y == (b + y)[|b|..];
    }
  }

  lemma {:induction false} PairsOfFlat(octets: seq<string>)
    requires AreOctets(octets)
    ensures Pairs(Flat(octets)) == octets && |Flat(octets)| == 2 * |octets|
  {
    if octets != [] {
      PairsOfFlat(octets[1..]);
      var f := Flat(octets);
      assert f[..2] == octets[0] && f[2..] == Flat(octets[1..]);
    }
  }

  lemma {:induction false} FlatOfPairs(s: string)
    requires |s| % 2 == 0
    ensures Flat(Pairs(s)) == s
  {
    if |s| >= 2 {
      FlatOfPairs(s[2..]);
      assert Pairs(s)[1..] == Pairs(s[2..]);
      assert s[..2] + s[2..] == s;
    } else {
      assert s == "";
    }
  }

  /** The pattern of a MAC matches exactly the texts in the shape of a MAC that are read as its octets,
      whatever their case and separators. */
  lemma MatchesExactly(octets: seq<string>, s: string)
    requires |octets| == 6 && AreOctets(octets)
    ensures Matches(MacPattern(octets), s) <==> MacShaped(s, 6) && ParseMacOctets(s) == Some(octets)
  {
    hide Matches, MacPattern, MacShaped, Reads, HexOf, Flat, Pairs, IsOctet;
    MatchesReads(octets, s);
    ReadsExactly(octets, s);
    PairsOfFlat(octets);
    if |HexOf(s)| == 12 { FlatOfPairs(HexOf(s)); }
  }

  // --- What is taken for a MAC ---------------------------------------------------------------------

  function HexPositions(s: string): set<nat> { set i: nat | i < |s| && IsHex(s[i]) }

  lemma {:induction false} HexOfAppend(a: string, b: string)
    ensures HexOf(a + b) == HexOf(a) + HexOf(b)
  {
    hide HexOf, LowerChar;
    if a == "" {
      assert a + b == b;
      NoHex();
    } else {
      HexOfAppend(a[1..], b);
      assert (a + b)[1..] == a[1..] + b;
      HexOfFirst(a);
      HexOfFirst(a + b);
      var first := if IsHex(a[0]) then [LowerChar(a[0])] else "";
      assert first + (HexOf(a[1..]) + HexOf(b)) == (first + HexOf(a[1..])) + HexOf(b);
    }
  }

  lemma {:induction false} HexCount(s: string)
    ensures |HexOf(s)| == |HexPositions(s)|
  {
    hide HexOf, IsHex;
    if s == "" {
      NoHex();
      assert HexPositions(s) == {};
    } else {
      var n := |s| - 1;
      HexCount(s[..n]);
      assert s == s[..n] + [s[n]];
      HexOfAppend(s[..n], [s[n]]);
      OneHex(s[n]);
      LastPosition(s);
    }
  }

  lemma LastPosition(s: string)
    requires s != ""
    ensures |HexPositions(s)| == |HexPositions(s[..|s| - 1])| + if IsHex(s[|s| - 1]) then 1 else 0
  {
    hide IsHex;
    var n := |s| - 1;
    assert HexPositions(s) == HexPositions(s[..n]) + if IsHex(s[n]) then {n} else {};
  }

  lemma OneHex(c: char)
    ensures |HexOf([c])| == if IsHex(c) then 1 else 0
  {}

  /** A character that is no digit, and no separator on its own between two octets. */
  predicate Stray(s: string, i: nat)
    requires i < |s|
  {
    !IsHex(s[i])
    && !(IsSeparator(s[i]) && 0 < i < |s| - 1 && IsHex(s[i - 1]) && IsHex(s[i + 1]) && |HexOf(s[..i])| % 2 == 0)
  }

  ghost predicate HasStray(s: string) { exists i: nat :: i < |s| && Stray(s, i) }

  lemma SameStray(s: string, k: nat, i: nat)
    requires k <= |s| && |HexOf(s[..k])| == 2 && 0 < i && k + i < |s|
    ensures Stray(s, k + i) <==> Stray(s[k..], i)
  {
    hide HexOf;
    HexOfAppend(s[..k], s[k..][..i]);
    assert s[..k] + s[k..][..i] == s[..k + i];
  }

  lemma HexOfTwo(s: string)
    requires |s| >= 2 && IsHex(s[0]) && IsHex(s[1])
    ensures |HexOf(s[..2])| == 2
    ensures |s| > 2 && IsSeparator(s[2]) ==> |HexOf(s[..3])| == 2
    ensures |s| > 2 && IsSeparator(s[2]) ==> |HexOf(s)| == 2 + |HexOf(s[3..])|
    ensures |HexOf(s)| == 2 + |HexOf(s[2..])|
  {
    hide HexOf;
    HexOfPair(s);
    HexOfPair(s[..2]);
    assert s[..2][2..] == "";
    NoHex();
    if |s| > 2 && IsSeparator(s[2]) {
      HexOfPair(s[..3]);
      assert s[..3][2..][1..] == "" && s[2..][1..] == s[3..];
      HexOfSeparator(s[..3][2..]);
      HexOfSeparator(s[2..]);
    }
  }

  lemma NoHex()
    ensures HexOf("") == ""
  {}

  /** After an octet and its separator the strays are those of the rest. */
  lemma StrayAfter(s: string)
    requires |s| > 2 && IsHex(s[0]) && IsHex(s[1])
    ensures var k := if IsSeparator(s[2]) then 3 else 2;
      k < |s| ==> (HasStray(s) <==> HasStray(s[k..]))
    ensures !IsHex(s[|s| - 1]) ==> HasStray(s)
  {
    hide HexOf;
    HexOfTwo(s);
    var k := if IsSeparator(s[2]) then 3 else 2;
    if !IsHex(s[|s| - 1]) { assert Stray(s, |s| - 1); }
    if k < |s| {
      forall i: nat | 0 < i && k + i < |s| ensures Stray(s, k + i) <==> Stray(s[k..], i) { SameStray(s, k, i); }
      if i: nat :| i < |s| && Stray(s, i) {
        if i > k { assert Stray(s[k..], i - k); } else { assert Stray(s[k..], 0); }
      }
      if i: nat :| i < |s[k..]| && Stray(s[k..], i) {
        assert Stray(s, if i == 0 then 2 else k + i);
      }
    }
  }

  /** A text with the digits of `n` octets has the shape of a MAC exactly when it holds no stray character. */
  lemma {:induction false} ShapedExactly(s: string, n: nat)
    requires n > 0 && |HexOf(s)| == 2 * n
    ensures MacShaped(s, n) <==> !HasStray(s)
    decreases n
  {
    hide HexOf;
    HexOfShort(s);
    if !IsHex(s[0]) {
      assert Stray(s, 0);
    } else if !IsHex(s[1]) {
      OneHexBefore(s);
      assert Stray(s, 1);
    } else if |s| > 2 {
      HexOfTwo(s);
      StrayAfter(s);
      var k := if IsSeparator(s[2]) then 3 else 2;
      if n > 1 {
        HexOfShort(s[k..]);
        ShapedExactly(s[k..], n - 1);
      } else {
        NoHexAtEnd(s);
      }
    }
  }

  lemma {:induction false} HexOfShort(s: string)
    ensures |HexOf(s)| <= |s|
  {
    if s != "" { HexOfShort(s[1..]); }
  }

  lemma OneHexBefore(s: string)
    requires |s| > 1 && IsHex(s[0])
    ensures |HexOf(s[..1])| == 1
  {
    assert s[..1] == [s[0]];
    OneHex(s[0]);
  }

  lemma NoHexAtEnd(s: string)
    requires |s| > 2 && IsHex(s[0]) && IsHex(s[1]) && |HexOf(s)| == 2
    ensures !IsHex(s[|s| - 1])
  {
    hide HexOf;
    var n := |s| - 1;
    assert s[..n] + [s[n]] == s;
    HexOfAppend(s[..n], [s[n]]);
    HexOfTwo(s[..n]);
    OneHex(s[n]);
  }

  lemma {:induction false} ShapedDigits(s: string, n: nat)
    requires MacShaped(s, n)
    ensures |HexOf(s)| == 2 * n
    decreases n
  {
    hide HexOf;
    HexOfTwo(s);
    if n == 1 {
      assert s[2..] == "";
      NoHex();
    } else {
      ShapedDigits(s[if |s| > 2 && IsSeparator(s[2]) then 3 else 2..], n - 1);
    }
  }

  /** Every text with twelve hexadecimal digits among its characters is taken for a MAC. Those in the shape of one
      are the texts among them without a stray character. */
  lemma AcceptedExactly(s: string)
    ensures ParseMacOctets(s).Some? <==> |HexPositions(s)| == 12
    ensures MacShaped(s, 6) <==> ParseMacOctets(s).Some? && !HasStray(s)
  {
    hide HexOf, MacShaped, HasStray;
    HexCount(s);
    if MacShaped(s, 6) { ShapedDigits(s, 6); }
    if |HexOf(s)| == 12 { ShapedExactly(s, 6); }
  }

  /** A manufacturer's serial number, never in the shape of a MAC, is taken for one exactly when eleven
      hexadecimal digits follow its prefix, whose C is the twelfth. */
  lemma SerialTakenForMac(tail: string)
    ensures !MacShaped("HWTC" + tail, 6)
    ensures ParseMacOctets("HWTC" + tail)
      == if |HexPositions(tail)| == 11 then Some(Pairs("c" + HexOf(tail))) else None
  {
    hide HexOf;
    HexOfAppend("HWTC", tail);
    PrefixHex();
    HexCount(tail);
  }

  lemma PrefixHex()
    ensures HexOf("HWTC") == "c"
  {
    assert "HWTC"[1..] == "WTC" && "WTC"[1..] == "TC" && "TC"[1..] == "C";
  }

  // --- The tolerance -----------------------------------------------------------------------------

  predicate Near(v: int, last: int, tolerance: int) { v != last && -tolerance <= v - last <= tolerance }

  /** The octets within the tolerance of a last octet, without that one, each once. */
  predicate AreNearby(values: seq<string>, last: string, tolerance: nat)
    requires IsOctet(last)
  {
    (forall i :: 0 <= i < |values| ==> IsOctet(values[i]) && Near(OctetValue(values[i]), OctetValue(last), tolerance))
    && (forall v :: 0 <= v < 256 && Near(v, OctetValue(last), tolerance) ==> OctetText(v) in values)
    && forall i, j :: 0 <= i < j < |values| ==> values[i] != values[j]
  }

  method BuildNearbyLastOctetHexValues(lastOctetHex: string, tolerance: nat) returns (values: seq<string>)
    requires IsOctet(lastOctetHex)
    ensures AreNearby(values, lastOctetHex, tolerance)
  {
    hide OctetText, OctetValue, IsOctet;
    var lastOctetValue := OctetValue(lastOctetHex);
    values := [];
    for delta := -(tolerance as int) to tolerance + 1
      invariant forall i :: 0 <= i < |values| ==>
        IsOctet(values[i]) && Near(OctetValue(values[i]), lastOctetValue, tolerance)
          && OctetValue(values[i]) < lastOctetValue + delta
      invariant forall v :: 0 <= v < 256 && v < lastOctetValue + delta && Near(v, lastOctetValue, tolerance) ==>
        OctetText(v) in values
      invariant forall i, j :: 0 <= i < j < |values| ==> values[i] != values[j]
    {
      if delta == 0 { continue; }
      var candidateValue := lastOctetValue + delta;
      if candidateValue < 0 || candidateValue > 255 { continue; }
      values := values + [OctetText(candidateValue)];
    }
  }

  /** Six octets that differ from the given ones in the last only, and there by at most the tolerance. */
  predicate Neighbours(octets: seq<string>, other: seq<string>, tolerance: nat)
    requires |octets| == 6 && AreOctets(octets)
  {
    |other| == 6 && AreOctets(other) && other[..5] == octets[..5]
    && Near(OctetValue(other[5]), OctetValue(octets[5]), tolerance)
  }

  /** The compact query of the nearby octets matches exactly the MACs whose octets are neighbours. */
  lemma NearbyExactly(octets: seq<string>, values: seq<string>, tolerance: nat, s: string)
    requires |octets| == 6 && AreOctets(octets) && values != [] && AreNearby(values, octets[5], tolerance)
    ensures Matches(CompactPattern(octets[..5], values), s) <==>
      MacShaped(s, 6) && ParseMacOctets(s).Some? && Neighbours(octets, ParseMacOctets(s).value, tolerance)
  {
    hide Matches, CompactPattern, MacPattern, MacShaped, ParseMacOctets, OctetText, OctetValue, IsOctet;
    CompactIsOneOf(octets[..5], values, s);
    forall t | t in values
      ensures Matches(MacPattern(octets[..5] + [t]), s)
        <==> MacShaped(s, 6) && ParseMacOctets(s) == Some(octets[..5] + [t])
    {
      MatchesExactly(octets[..5] + [t], s);
    }
    if MacShaped(s, 6) && ParseMacOctets(s).Some? && Neighbours(octets, ParseMacOctets(s).value, tolerance) {
      var other := ParseMacOctets(s).value;
      OctetValueInverse(other[5]);
      assert other == octets[..5] + [other[5]];
      assert other[5] in values;
    }
  }

  // --- Finding a device ---------------------------------------------------------------------------

  /** A device with the values its MAC parameters hold. */
  datatype Device = Device(id: nat, serial: string, macs: seq<string>)

  datatype Query = SerialIs(serial: string) | MacMatches(pattern: Regex)

  predicate Satisfies(d: Device, query: Query) {
    match query
    case SerialIs(serial) => d.serial == serial
    case MacMatches(pattern) => exists i :: 0 <= i < |d.macs| && Matches(pattern, d.macs[i])
  }

  datatype Ambiguous = Ambiguous

  const MAC_LAST_OCTET_TOLERANCE := 4

  class GenieAcsClient {
    const devices: seq<Device>

    constructor (devices: seq<Device>)
      ensures this.devices == devices
    {
      this.devices := devices;
    }

    /** The first result; more than one is refused when it has to be unique. */
    method QueryFirstDevice(query: Query, requireUnique: bool) returns (r: Result<Option<Device>, Ambiguous>)
      ensures var hits := Hits(devices, d => Satisfies(d, query));
        r == if requireUnique && |hits| > 1 then Err(Ambiguous) else if hits == [] then Ok(None) else Ok(Some(hits[0]))
    {
      var results := [];
      for i := 0 to |devices|
        invariant results == Hits(devices[..i], d => Satisfies(d, query))
      {
        assert devices[..i + 1][..i] == devices[..i];
        if Satisfies(devices[i], query) { results := results + [devices[i]]; }
      }
      assert devices[..|devices|] == devices;
      if |results| == 0 { return Ok(None); }
      if requireUnique && |results| != 1 { return Err(Ambiguous); }
      r := Ok(Some(results[0]));
    }

    /** The device whose serial is the given one; or else one with that MAC; or else one with a neighbouring
        MAC, never when the match has to be exact. */
    method FindDeviceBySerial(serialNumber: string, exactOnly: bool) returns (r: Result<Option<Device>, Ambiguous>)
      ensures r == LookUp(devices, serialNumber, exactOnly)
    {
      hide Matches, MacPattern, CompactPattern, ParseMacOctets, OctetValue, IsOctet, MacShaped;
      SameHits(devices, d => Satisfies(d, SerialIs(serialNumber)), (d: Device) => d.serial == serialNumber);
      r := QueryFirstDevice(SerialIs(serialNumber), exactOnly);
      if r.Err? || r.value.Some? { return; }
      var macOctets := ParseMacOctets(serialNumber);
      if macOctets.None? { return Ok(None); }
      ParsedAreOctets(serialNumber);
      var octets := macOctets.value;
      ExactHits(devices, octets);
      r := QueryFirstDevice(MacMatches(MacPattern(octets)), exactOnly);
      if r.Err? || r.value.Some? { return; }
      if exactOnly { return Ok(None); }
      var nearby := BuildNearbyLastOctetHexValues(octets[5], MAC_LAST_OCTET_TOLERANCE);
      NearbyIsNotEmpty(octets[5], nearby);
      NearbyHits(devices, octets, nearby);
      r := QueryFirstDevice(MacMatches(CompactPattern(octets[..5], nearby)), false);
    }
  }

  function Hits(devices: seq<Device>, p: Device -> bool): seq<Device> {
    if devices == [] then []
    else
      var last := devices[|devices| - 1];
      Hits(devices[..|devices| - 1], p) + if p(last) then [last] else []
  }

  /** A device that reports this MAC. */
  predicate HasMac(d: Device, octets: seq<string>) {
    exists i :: 0 <= i < |d.macs| && MacShaped(d.macs[i], 6) && ParseMacOctets(d.macs[i]) == Some(octets)
  }

  /** A device that reports a MAC next to this one. */
  predicate HasNeighbour(d: Device, octets: seq<string>)
    requires |octets| == 6 && AreOctets(octets)
  {
    exists i :: 0 <= i < |d.macs| && IsNeighbour(d.macs[i], octets)
  }

  predicate IsNeighbour(mac: string, octets: seq<string>)
    requires |octets| == 6 && AreOctets(octets)
  {
    MacShaped(mac, 6) && ParseMacOctets(mac).Some?
      && Neighbours(octets, ParseMacOctets(mac).value, MAC_LAST_OCTET_TOLERANCE)
  }

  function LookUp(devices: seq<Device>, serialNumber: string, exactOnly: bool): Result<Option<Device>, Ambiguous> {
    var bySerial := Hits(devices, (d: Device) => d.serial == serialNumber);
    if exactOnly && |bySerial| > 1 then Err(Ambiguous)
    else if bySerial != [] then Ok(Some(bySerial[0]))
    else if ParseMacOctets(serialNumber).None? then Ok(None)
    else
      ParsedAreOctets(serialNumber);
      var octets := ParseMacOctets(serialNumber).value;
      var byMac := Hits(devices, d => HasMac(d, octets));
      if exactOnly && |byMac| > 1 then Err(Ambiguous)
      else if byMac != [] then Ok(Some(byMac[0]))
      else if exactOnly then Ok(None)
      else
        var byNearby := Hits(devices, d => HasNeighbour(d, octets));
        if byNearby == [] then Ok(None) else Ok(Some(byNearby[0]))
  }

  lemma {:induction false} SameHits(devices: seq<Device>, p: Device -> bool, q: Device -> bool)
    requires forall i :: 0 <= i < |devices| ==> p(devices[i]) == q(devices[i])
    ensures Hits(devices, p) == Hits(devices, q)
  {
    if devices != [] { SameHits(devices[..|devices| - 1], p, q); }
  }

  lemma {:induction false} HexOfIsHex(s: string)
    ensures forall i :: 0 <= i < |HexOf(s)| ==> IsHex(HexOf(s)[i]) && LowerChar(HexOf(s)[i]) == HexOf(s)[i]
  {
    if s != "" { HexOfIsHex(s[1..]); }
  }

  lemma {:induction false} PairsAreOctets(s: string)
    requires |s| % 2 == 0 && forall i :: 0 <= i < |s| ==> IsHex(s[i]) && LowerChar(s[i]) == s[i]
    ensures AreOctets(Pairs(s)) && |Pairs(s)| == |s| / 2
  {
    if |s| >= 2 { PairsAreOctets(s[2..]); }
  }

  lemma ParsedAreOctets(value: string)
    requires ParseMacOctets(value).Some?
    ensures |ParseMacOctets(value).value| == 6 && AreOctets(ParseMacOctets(value).value)
  {
    HexOfIsHex(value);
    PairsAreOctets(HexOf(value));
  }

  lemma NearbyIsNotEmpty(last: string, values: seq<string>)
    requires IsOctet(last) && AreNearby(values, last, MAC_LAST_OCTET_TOLERANCE)
    ensures values != []
  {
    hide OctetText, OctetValue, IsOctet;
    var v := OctetValue(last);
    var w := if v == 0 then 1 else v - 1;
    assert OctetText(w) in values;
  }

  lemma ExactHits(devices: seq<Device>, octets: seq<string>)
    requires |octets| == 6 && AreOctets(octets)
    ensures Hits(devices, d => Satisfies(d, MacMatches(MacPattern(octets)))) == Hits(devices, d => HasMac(d, octets))
  {
    hide Matches, MacPattern, MacShaped, ParseMacOctets, AreOctets;
    forall d: Device ensures Satisfies(d, MacMatches(MacPattern(octets))) <==> HasMac(d, octets) {
      forall i | 0 <= i < |d.macs|
        ensures Matches(MacPattern(octets), d.macs[i])
          <==> MacShaped(d.macs[i], 6) && ParseMacOctets(d.macs[i]) == Some(octets)
      {
        MatchesExactly(octets, d.macs[i]);
      }
    }
    SameHits(devices, d => Satisfies(d, MacMatches(MacPattern(octets))), d => HasMac(d, octets));
  }

  lemma NearbyHits(devices: seq<Device>, octets: seq<string>, values: seq<string>)
    requires |octets| == 6 && AreOctets(octets) && values != []
      && AreNearby(values, octets[5], MAC_LAST_OCTET_TOLERANCE)
    ensures Hits(devices, d => Satisfies(d, MacMatches(CompactPattern(octets[..5], values))))
      == Hits(devices, d => HasNeighbour(d, octets))
  {
    hide Matches, CompactPattern, AreOctets, AreNearby, IsNeighbour;
    forall d: Device
      ensures Satisfies(d, MacMatches(CompactPattern(octets[..5], values))) <==> HasNeighbour(d, octets)
    {
      forall i | 0 <= i < |d.macs|
        ensures Matches(CompactPattern(octets[..5], values), d.macs[i]) <==> IsNeighbour(d.macs[i], octets)
      {
        NearbyMac(octets, values, d.macs[i]);
      }
    }
    SameHits(devices, d => Satisfies(d, MacMatches(CompactPattern(octets[..5], values))), d => HasNeighbour(d, octets));
  }

  lemma NearbyMac(octets: seq<string>, values: seq<string>, mac: string)
    requires |octets| == 6 && AreOctets(octets) && values != []
      && AreNearby(values, octets[5], MAC_LAST_OCTET_TOLERANCE)
    ensures Matches(CompactPattern(octets[..5], values), mac) <==> IsNeighbour(mac, octets)
  {
    hide Matches, CompactPattern, MacShaped, ParseMacOctets, Neighbours, AreNearby;
    NearbyExactly(octets, values, MAC_LAST_OCTET_TOLERANCE, mac);
  }

  // --- What a look-up answers ---------------------------------------------------------------------

  predicate IsFirst(devices: seq<Device>, p: Device -> bool, i: nat) {
    i < |devices| && p(devices[i]) && forall k :: 0 <= k < i ==> !p(devices[k])
  }

  predicate IsOnly(devices: seq<Device>, p: Device -> bool, i: nat) {
    i < |devices| && p(devices[i]) && forall k :: 0 <= k < |devices| && k != i ==> !p(devices[k])
  }

  predicate Nowhere(devices: seq<Device>, p: Device -> bool) { forall i :: 0 <= i < |devices| ==> !p(devices[i]) }

  lemma {:induction false} HitsExactly(devices: seq<Device>, p: Device -> bool)
    ensures Hits(devices, p) == [] <==> Nowhere(devices, p)
    ensures Hits(devices, p) != [] ==> exists i: nat :: IsFirst(devices, p, i) && devices[i] == Hits(devices, p)[0]
    ensures |Hits(devices, p)| == 1 <==> exists i: nat :: IsOnly(devices, p, i)
  {
    if devices != [] {
      var front, n := devices[..|devices| - 1], |devices| - 1;
      HitsExactly(front, p);
      assert forall i :: 0 <= i < n ==> front[i] == devices[i];
      if Hits(front, p) != [] {
        var i: nat :| IsFirst(front, p, i) && front[i] == Hits(front, p)[0];
        assert IsFirst(devices, p, i);
      } else if p(devices[n]) {
        assert IsFirst(devices, p, n) && IsOnly(devices, p, n);
      }
      if i: nat :| IsOnly(front, p, i) && !p(devices[n]) { assert IsOnly(devices, p, i); }
      if i: nat :| IsOnly(devices, p, i) && i < n { assert IsOnly(front, p, i); }
    }
  }

  /** The answer names the first device with the property, which has to be the only one when the match has to be
      exact; there is none; or there are several and the match has to be exact. */
  ghost predicate Names(r: Result<Option<Device>, Ambiguous>, devices: seq<Device>, p: Device -> bool,
                        exactOnly: bool)
  {
    match r
    case Err(_) => exactOnly && !Nowhere(devices, p) && forall i: nat :: !IsOnly(devices, p, i)
    case Ok(None) => Nowhere(devices, p)
    case Ok(Some(d)) =>
      exists i: nat :: IsFirst(devices, p, i) && devices[i] == d && (exactOnly ==> IsOnly(devices, p, i))
  }

  lemma HitsName(devices: seq<Device>, p: Device -> bool, exactOnly: bool)
    ensures var hits := Hits(devices, p);
      var r := if exactOnly && |hits| > 1 then Err(Ambiguous) else if hits == [] then Ok(None) else Ok(Some(hits[0]));
      Names(r, devices, p, exactOnly)
  {
    hide Hits;
    HitsExactly(devices, p);
    var hits := Hits(devices, p);
    if hits != [] {
      var i: nat :| IsFirst(devices, p, i) && devices[i] == hits[0];
      if |hits| == 1 {
        var k: nat :| IsOnly(devices, p, k);
        assert k == i;
      }
    }
  }

  /** A device with the serial itself beats every other; else a device with that MAC; else, unless the match has to be
      exact, one with a MAC next to it. An exact match refuses several and never takes a neighbour. */
  lemma LookUpExactly(devices: seq<Device>, serialNumber: string, exactOnly: bool)
    ensures var r := LookUp(devices, serialNumber, exactOnly);
      var bySerial := (d: Device) => d.serial == serialNumber;
      if !Nowhere(devices, bySerial) then Names(r, devices, bySerial, exactOnly)
      else if ParseMacOctets(serialNumber).None? then r == Ok(None)
      else
        var octets := ParseMacOctets(serialNumber).value;
        |octets| == 6 && AreOctets(octets)
        && if !Nowhere(devices, d => HasMac(d, octets)) then Names(r, devices, d => HasMac(d, octets), exactOnly)
           else if exactOnly then r == Ok(None)
           else Names(r, devices, d => HasNeighbour(d, octets), false)
    ensures var r := LookUp(devices, serialNumber, exactOnly);
      exactOnly && r.Ok? && r.value.Some? ==>
        r.value.value.serial == serialNumber
        || (ParseMacOctets(serialNumber).Some? && HasMac(r.value.value, ParseMacOctets(serialNumber).value))
  {
    hide Hits, HasMac, HasNeighbour, ParseMacOctets, AreOctets;
    var bySerial := (d: Device) => d.serial == serialNumber;
    HitsName(devices, bySerial, exactOnly);
    HitsExactly(devices, bySerial);
    if ParseMacOctets(serialNumber).Some? {
      ParsedAreOctets(serialNumber);
      var octets := ParseMacOctets(serialNumber).value;
      var byMac, byNearby := d => HasMac(d, octets), d => HasNeighbour(d, octets);
      HitsName(devices, byMac, exactOnly);
      HitsExactly(devices, byMac);
      HitsName(devices, byNearby, false);
    }
  }

  const HEX_DIGITS := "0123456789abcdef"

  lemma HexDigitAt(i: nat)
    requires i < 16
    ensures HEX_DIGITS[i] == HexChar(i)
  {
    assert HEX_DIGITS[..8] == "01234567" && HEX_DIGITS[8..] == "89abcdef";
    assert HEX_DIGITS[i] == if i < 8 then HEX_DIGITS[..8][i] else HEX_DIGITS[8..][i - 8];
  }

  /** The value of an octet is that of its two digits, the first worth sixteen times as much. */
  lemma OctetValueExactly(i: nat, j: nat)
    requires i < 16 && j < 16
    ensures IsOctet([HEX_DIGITS[i], HEX_DIGITS[j]])
    ensures OctetValue([HEX_DIGITS[i], HEX_DIGITS[j]]) == 16 * i + j
  {
    HexDigitAt(i);
    HexDigitAt(j);
    HexCharInverse(i);
    HexCharInverse(j);
    hide HexChar, HexValue;
  }

  /** Next to a MAC are those with the same first five octets and a last one that differs by 1 to 4. */
  lemma NeighbourExactly(mac: string, octets: seq<string>)
    requires |octets| == 6 && AreOctets(octets)
    ensures IsNeighbour(mac, octets) <==>
      MacShaped(mac, 6) && ParseMacOctets(mac).Some?
      && var other := ParseMacOctets(mac).value;
         |other| == 6 && AreOctets(other) && other[..5] == octets[..5]
         && 1 <= (if OctetValue(other[5]) > OctetValue(octets[5]) then OctetValue(other[5]) - OctetValue(octets[5])
                  else OctetValue(octets[5]) - OctetValue(other[5])) <= 4
  {
    hide MacShaped, ParseMacOctets, OctetValue, IsOctet;
  }
}
