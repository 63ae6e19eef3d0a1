/** Models `slugToCode` and `generateUniqueCode` of src/modules/crm/crm-catalogs.service.ts. Names are
    taken as they are after accents are stripped and letters upper-cased. */
module CrmCatalogs {
  import opened Text

  predicate IsCodeChar(c: char) { 'A' <= c <= 'Z' || '0' <= c <= '9' }

  predicate IsWord(w: string) { w != "" && forall i :: 0 <= i < |w| ==> IsCodeChar(w[i]) }

  /** `s.slice(0, end)`: a negative end counts from the end of the string. */
  function Slice(s: string, end: int): (r: string)
    ensures r <= s
    ensures end >= 0 ==> |r| == if end < |s| then end else |s|
    ensures end < 0 ==> |r| == if |s| + end > 0 then |s| + end else 0
  {
    if end >= |s| then s
    else if end >= 0 then s[..end]
    else if |s| + end >= 0 then s[..|s| + end]
    else ""
  }

  /** `s.replace(/[^A-Z0-9]+/g, '_')`. */
  function Collapse(s: string): string {
    if s == "" then ""
    else if IsCodeChar(s[0]) then [s[0]] + Collapse(s[1..])
    else if |s| > 1 && !IsCodeChar(s[1]) then Collapse(s[1..])
    else "_" + Collapse(s[1..])
  }

  function StripStart(s: string): string {
    if s != "" && s[0] == '_' then StripStart(s[1..]) else s
  }

  function StripEnd(s: string): string {
    if s != "" && s[|s| - 1] == '_' then StripEnd(s[..|s| - 1]) else s
  }

  /** The code of a name before it is cut to length. */
  function FullCode(name: string): string { StripEnd(StripStart(Collapse(name))) }

  function SlugToCode(name: string, maxLength: nat): (code: string)
    ensures code != ""
    ensures |code| <= maxLength || code == "ESTADO"
  {
    var base := Slice(FullCode(name), maxLength);
    if base == "" then "ESTADO" else base
  }

  // --- What a code says about a name ---------------------------------------------

  /** The length of the longest word a string begins with. */
  function RunLength(s: string): (n: nat)
    ensures n <= |s|
    ensures n > 0 ==> IsWord(s[..n])
    ensures n < |s| ==> !IsCodeChar(s[n])
    ensures s != "" && IsCodeChar(s[0]) ==> n > 0
  {
    if s == "" || !IsCodeChar(s[0]) then 0 else 1 + RunLength(s[1..])
  }

  /** The words of a name: its longest stretches of letters and digits. */
  function Words(s: string): (ws: seq<string>)
    ensures forall i :: 0 <= i < |ws| ==> IsWord(ws[i])
    decreases |s|
  {
    if s == "" then []
    else if !IsCodeChar(s[0]) then Words(s[1..])
    else [s[..RunLength(s)]] + Words(s[RunLength(s)..])
  }

  lemma {:induction false} CollapseWord(w: string, rest: string)
    requires w == "" || IsWord(w)
    ensures Collapse(w + rest) == w + Collapse(rest)
  {
    if w == "" {
      assert w + rest == rest;
    } else {
      CollapseWord(w[1..], rest);
      assert (w + rest)[1..] == w[1..] + rest;
      assert [w[0]] + w[1..] == w;
    }
  }

  lemma {:induction false} NoWords(s: string)
    requires Words(s) == [] && s != ""
    ensures !IsCodeChar(s[0]) && !IsCodeChar(s[|s| - 1])
  {
    if |s| > 1 { NoWords(s[1..]); }
  }

  function Before(s: string): string { if s != "" && !IsCodeChar(s[0]) then "_" else "" }

  function After(s: string): string {
    if s != "" && !IsCodeChar(s[|s| - 1]) && Words(s) != [] then "_" else ""
  }

  lemma {:induction false} CollapseIsWords(s: string)
    ensures Collapse(s) == Before(s) + Join(Words(s), "_") + After(s)
    decreases |s|
  {
    hide Collapse, Words, Join;
    if s == "" {
      CollapseSeparator(s);
      NoText();
    } else if IsCodeChar(s[0]) {
      var w, rest := s[..RunLength(s)], s[RunLength(s)..];
      assert s == w + rest;
      CollapseWord(w, rest);
      CollapseIsWords(rest);
      assert Words(s) == [w] + Words(rest) by { WordsStep(s); }
      WordFirst(s, w, rest);
    } else {
      CollapseSeparator(s);
      CollapseIsWords(s[1..]);
      WordsStep(s);
      SeparatorFirst(s);
    }
  }

  lemma NoText()
    ensures Words("") == [] && Join([], "_") == ""
  {}

  lemma WordsStep(s: string)
    requires s != ""
    ensures Words(s) == if IsCodeChar(s[0]) then [s[..RunLength(s)]] + Words(s[RunLength(s)..]) else Words(s[1..])
  {}

  lemma SeparatorFirst(s: string)
    requires s != "" && !IsCodeChar(s[0]) && Words(s) == Words(s[1..])
    ensures After(s) == After(s[1..])
  {
    hide Words;
    if |s| > 1 { assert s[|s| - 1] == s[1..][|s| - 2]; } else { assert s[1..] == ""; NoText(); }
  }

  lemma CollapseSeparator(s: string)
    requires s == "" || !IsCodeChar(s[0])
    ensures Collapse(s) ==
      if s == "" then "" else if Before(s[1..]) == "" then "_" + Collapse(s[1..]) else Collapse(s[1..])
  {}

  lemma WordFirst(s: string, w: string, rest: string)
    requires s == w + rest && IsWord(w) && (rest == "" || !IsCodeChar(rest[0])) && Words(s) == [w] + Words(rest)
    ensures w + (Before(rest) + Join(Words(rest), "_") + After(rest)) == Before(s) + Join(Words(s), "_") + After(s)
  {
    hide Words, Join;
    NoText();
    JoinOne(w);
    LastOfRest(s, w, rest);
    if Words(rest) == [] {
      assert [w] + [] == [w];
      if rest != "" { NoWords(rest); }
      var after := After(s);
      assert w + (after + "" + "") == "" + w + after;
    } else {
      JoinFirst(w, Words(rest));
      Glue(w, Join(Words(rest), "_"), After(rest));
    }
  }

  lemma LastOfRest(s: string, w: string, rest: string)
    requires s == w + rest && IsWord(w) && Words(s) == [w] + Words(rest)
    ensures Before(s) == "" && s[|s| - 1] == if rest == "" then w[|w| - 1] else rest[|rest| - 1]
  {
    hide Words;
  }

  lemma Glue(w: string, j: string, after: string)
    ensures w + ("_" + j + after) == "" + (w + "_" + j) + after
  {}

  lemma JoinOne(w: string)
    ensures Join([w], "_") == w
  {}

  lemma JoinFirst(w: string, ws: seq<string>)
    requires ws != []
    ensures Join([w] + ws, "_") == w + "_" + Join(ws, "_")
  {
    assert ([w] + ws)[1..] == ws;
  }

  lemma {:induction false} JoinEnds(ws: seq<string>)
    requires ws != [] && forall i :: 0 <= i < |ws| ==> IsWord(ws[i])
    ensures var j := Join(ws, "_"); j != "" && IsCodeChar(j[0]) && IsCodeChar(j[|j| - 1])
  {
    if |ws| > 1 { JoinEnds(ws[1..]); }
  }

  lemma StripFront(t: string)
    requires t != "" && t[0] != '_'
    ensures StripStart("_" + t) == t == StripStart(t)
  {
    assert ("_" + t)[1..] == t;
  }

  lemma StripBack(t: string)
    requires t != "" && t[|t| - 1] != '_'
    ensures StripEnd(t + "_") == t == StripEnd(t)
  {
    var u := t + "_";
    assert u[..|u| - 1] == t;
  }

  lemma StripJoined(j: string, before: string, after: string)
    requires before in {"", "_"} && after in {"", "_"}
    requires j != "" && j[0] != '_' && j[|j| - 1] != '_'
    ensures StripEnd(StripStart(before + j + after)) == j
  {
    hide StripStart, StripEnd;
    var tail := j + after;
    StripFront(tail);
    StripBack(j);
    assert before + j + after == before + tail;
    assert "" + tail == tail && j + "" == j;
  }

  /** The full code of a name is its words joined by single underscores. */
  lemma FullCodeIsWords(name: string)
    ensures FullCode(name) == Join(Words(name), "_")
  {
    hide Collapse, Words, Join, StripStart, StripEnd;
    CollapseIsWords(name);
    if Words(name) == [] {
      NoCode(name);
    } else {
      JoinEnds(Words(name));
      StripJoined(Join(Words(name), "_"), Before(name), After(name));
    }
  }

  lemma NoCode(name: string)
    requires Words(name) == []
    requires Collapse(name) == Before(name) + Join(Words(name), "_") + After(name)
    ensures FullCode(name) == "" == Join(Words(name), "_")
  {
    hide Collapse, Words;
    assert Join([], "_") == "" && After(name) == "";
    assert Collapse(name) == Before(name) by { assert Before(name) + "" + "" == Before(name); }
    assert StripStart("_") == "" by { assert "_"[1..] == ""; }
  }

  lemma {:induction false} RunOfWord(w: string, rest: string)
    requires IsWord(w) && (rest == "" || !IsCodeChar(rest[0]))
    ensures RunLength(w + rest) == |w|
  {
    assert (w + rest)[1..] == w[1..] + rest;
    if |w| > 1 {
      RunOfWord(w[1..], rest);
    } else {
      assert w[1..] + rest == rest;
    }
  }

  lemma WordsOfWord(w: string, rest: string)
    requires IsWord(w) && (rest == "" || !IsCodeChar(rest[0]))
    ensures Words(w + rest) == [w] + Words(rest)
  {
    hide RunLength;
    var s := w + rest;
    RunOfWord(w, rest);
    assert s[..|w|] == w && s[|w|..] == rest;
  }

  lemma {:induction false} WordsOfJoin(ws: seq<string>)
    requires forall i :: 0 <= i < |ws| ==> IsWord(ws[i])
    ensures Words(Join(ws, "_")) == ws
  {
    hide Words;
    NoText();
    if ws != [] {
      var w, rest := ws[0], if |ws| == 1 then "" else "_" + Join(ws[1..], "_");
      assert Join(ws, "_") == w + rest;
      WordsOfJoin(ws[1..]);
      assert Words(rest) == ws[1..] by {
        if |ws| > 1 {
          WordsStep(rest);
          assert rest[1..] == Join(ws[1..], "_");
        }
      }
      WordsOfWord(w, rest);
      assert ws == [w] + ws[1..];
    }
  }

  /** Two names get the same full code exactly when they have the same words, and a full code is its own
      code. */
  lemma SameCodeExactly(a: string, b: string)
    ensures FullCode(a) == FullCode(b) <==> Words(a) == Words(b)
    ensures FullCode(FullCode(a)) == FullCode(a)
  {
    FullCodeIsWords(a);
    FullCodeIsWords(b);
    WordsOfJoin(Words(a));
    WordsOfJoin(Words(b));
    FullCodeIsWords(FullCode(a));
  }

  // --- Unique codes ---------------------------------------------------------------------

  function Suffix(n: nat): string { "_" + Digits(n) }

  function Candidate(base: string, maxLength: nat, n: nat): string {
    Slice(base, maxLength - |Suffix(n)|) + Suffix(n)
  }

  /** What is tried after `n` codes were found taken: the base, then suffixes 2, 3, and so on. */
  function Try(base: string, maxLength: nat, n: nat): string {
    if n == 0 then base else Candidate(base, maxLength, n + 1)
  }

  predicate LastUnderscore(c: string, p: int) {
    0 <= p < |c| && c[p] == '_' && forall i :: p < i < |c| ==> c[i] != '_'
  }

  /** Candidates differ however much of the base is cut: what follows the last underscore differs. */
  lemma CandidatesDiffer(base: string, maxLength: nat, m: nat, n: nat)
    requires Candidate(base, maxLength, m) == Candidate(base, maxLength, n)
    ensures m == n
  {
    hide Candidate, Digits;
    var c := Candidate(base, maxLength, m);
    EndsInDigits(base, maxLength, m);
    EndsInDigits(base, maxLength, n);
    SameLast(c, |c| - |Digits(m)| - 1, |c| - |Digits(n)| - 1);
    DigitsValue(m);
    DigitsValue(n);
  }

  lemma SameLast(c: string, p: int, q: int)
    requires LastUnderscore(c, p) && LastUnderscore(c, q)
    ensures p == q
  {}

  lemma EndsInDigits(base: string, maxLength: nat, n: nat)
    ensures var c := Candidate(base, maxLength, n);
      LastUnderscore(c, |c| - |Digits(n)| - 1) && c[|c| - |Digits(n)|..] == Digits(n)
  {
    hide Digits, Slice;
    var head, d := Slice(base, maxLength - |Suffix(n)|), Digits(n);
    var c := head + ("_" + d);
    assert c == Candidate(base, maxLength, n);
    assert c[|head| + 1..] == d;
    assert forall i :: |head| < i < |c| ==> c[i] == d[i - |head| - 1];
  }

  /** The first `k` suffixed candidates. */
  function Suffixed(base: string, maxLength: nat, k: nat): (s: set<string>)
    ensures |s| == k
    ensures forall c :: c in s <==> exists n :: 1 <= n <= k && c == Try(base, maxLength, n)
  {
    if k == 0 then {}
    else
      NewCandidate(base, maxLength, k);
      Suffixed(base, maxLength, k - 1) + {Try(base, maxLength, k)}
  }

  lemma NewCandidate(base: string, maxLength: nat, k: nat)
    requires k > 0
    ensures forall n :: 1 <= n < k ==> Try(base, maxLength, n) != Try(base, maxLength, k)
  {
    forall n | 1 <= n < k ensures Try(base, maxLength, n) != Try(base, maxLength, k) {
      if Try(base, maxLength, n) == Try(base, maxLength, k) { CandidatesDiffer(base, maxLength, n + 1, k + 1); }
    }
  }

  lemma SubsetSize(a: set<string>, b: set<string>)
    requires a <= b
    ensures |a| <= |b|
    ensures |a| == |b| ==> a == b
  {
    assert b == a + (b - a);
    assert |b| == |a| + |b - a|;
  }

  /** Once `k` suffixed candidates are known to be taken there are that many codes, and one more when the
      base is not itself one of them. */
  lemma TakenAtMost(base: string, maxLength: nat, codes: set<string>, k: nat)
    requires forall n :: 0 <= n <= k ==> Try(base, maxLength, n) in codes
    ensures k <= |codes|
    ensures k == |codes| <==> codes == Suffixed(base, maxLength, k)
  {
    SubsetSize(Suffixed(base, maxLength, k), codes);
  }

  predicate LastIsDigit(code: string) { code != "" && IsDigit(code[|code| - 1]) }

  lemma NoSuffixedForm(base: string, maxLength: nat, code: string, k: nat)
    requires !LastIsDigit(code)
    ensures code !in Suffixed(base, maxLength, k)
  {
    hide Candidate, Digits;
    forall n | 1 <= n <= k ensures code != Try(base, maxLength, n) {
      EndsInDigits(base, maxLength, n + 1);
      LastOfCandidate(Candidate(base, maxLength, n + 1), Digits(n + 1));
    }
  }

  lemma LastOfCandidate(c: string, digits: string)
    requires digits != "" && AllDigits(digits) && |c| >= |digits| && c[|c| - |digits|..] == digits
    ensures LastIsDigit(c)
  {
    assert c[|c| - 1] == digits[|digits| - 1];
  }

  /** A code no one has, the first free one in the order of trial. At most as many suffixes are tried as
      there are codes, or one more in exactly one case: the codes are the first suffixed forms of the base,
      and the base itself is one of them. A table with any code that does not end in a digit, as the first
      ones of both tables, is not that case. */
  method GenerateUniqueCode(codes: set<string>, name: string, maxLength: nat) returns (code: string, ghost tried: nat)
    ensures code !in codes
    ensures code == Try(SlugToCode(name, maxLength), maxLength, tried)
    ensures forall n :: 0 <= n < tried ==> Try(SlugToCode(name, maxLength), maxLength, n) in codes
    ensures tried <= |codes| + 1
    ensures var base := SlugToCode(name, maxLength);
      tried == |codes| + 1 <==> base in codes && codes == Suffixed(base, maxLength, |codes|)
    ensures (exists c :: c in codes && !LastIsDigit(c)) ==> tried <= |codes|
    ensures maxLength >= 6 && |codes| + 2 < Pow10(maxLength - 1) ==> |code| <= maxLength
  {
    hide SlugToCode, Candidate;
    var base := SlugToCode(name, maxLength);
    var candidate, suffix := base, 2;
    while candidate in codes
      invariant suffix >= 2
      invariant candidate == Try(base, maxLength, suffix - 2)
      invariant forall n :: 0 <= n < suffix - 2 ==> Try(base, maxLength, n) in codes
      invariant suffix - 2 <= |codes| + 1
      decreases |codes| + 2 - suffix
    {
      TakenAtMost(base, maxLength, codes, suffix - 2);
      var suffixStr := Suffix(suffix);
      candidate := Slice(base, maxLength - |suffixStr|) + suffixStr;
      assert candidate == Candidate(base, maxLength, suffix) by { CandidateIs(base, maxLength, suffix); }
      suffix := suffix + 1;
    }
    tried := suffix - 2;
    if tried > 0 { TakenAtMost(base, maxLength, codes, tried - 1); }
    LastTry(base, maxLength, codes, tried);
    if c :| c in codes && !LastIsDigit(c) { NoSuffixedForm(base, maxLength, c, |codes|); }
    code := candidate;
    if maxLength >= 6 && |codes| + 2 < Pow10(maxLength - 1) { CodeFits(codes, name, maxLength, tried); }
  }

  lemma CandidateIs(base: string, maxLength: nat, n: nat)
    ensures Candidate(base, maxLength, n) == Slice(base, maxLength - |Suffix(n)|) + Suffix(n)
  {}

  lemma LastTry(base: string, maxLength: nat, codes: set<string>, tried: nat)
    requires forall n :: 0 <= n < tried ==> Try(base, maxLength, n) in codes
    requires Try(base, maxLength, tried) !in codes
    requires tried <= |codes| + 1
    ensures tried == |codes| + 1 <==> base in codes && codes == Suffixed(base, maxLength, |codes|)
  {
    hide Candidate;
    if tried == |codes| + 1 {
      TakenAtMost(base, maxLength, codes, tried - 1);
      assert Try(base, maxLength, 0) == base;
    }
    if base in codes && codes == Suffixed(base, maxLength, |codes|) {
      assert forall n :: 0 <= n <= |codes| ==> Try(base, maxLength, n) in codes;
    }
  }

  /** That case does arise, whatever the limit: the only code is that of a name as long as the limit that ends
      in the first suffix. */
  lemma OneSuffixTooMany(word: string, maxLength: nat)
    requires IsWord(word) && |word| + 2 == maxLength
    ensures SlugToCode(word + "_2", maxLength) == word + "_2"
    ensures {word + "_2"} == Suffixed(word + "_2", maxLength, |{word + "_2"}|)
  {
    hide Words, Collapse, StripStart, StripEnd, Suffixed, IsWord;
    var name := word + "_2";
    assert IsWord("2") by { DigitIsWord(); }
    JoinFirst(word, ["2"]);
    JoinOne("2");
    assert [word] + ["2"] == [word, "2"] && word + "_" + "2" == name;
    WordsOfJoin([word, "2"]);
    FullCodeIsWords(name);
    hide FullCode, Join;
    assert Digits(2) == "2" && Suffix(2) == "_2";
    assert Try(name, maxLength, 1) == name;
    OnlySuffixed(name, maxLength);
  }

  lemma DigitIsWord()
    ensures IsWord("2")
  {}

  /** For one, with the limit of 30 of the subscription statuses. */
  lemma OneSuffixTooManyAt30()
    ensures var name := "ABCDEFGHIJKLMNOPQRSTUVWXYZ12_2";
      SlugToCode(name, 30) == name && {name} == Suffixed(name, 30, |{name}|)
  {
    hide Suffixed, SlugToCode;
    assert "ABCDEFGHIJKLMNOPQRSTUVWXYZ12" + "_2" == "ABCDEFGHIJKLMNOPQRSTUVWXYZ12_2";
    OneSuffixTooMany("ABCDEFGHIJKLMNOPQRSTUVWXYZ12", 30);
  }

  lemma OnlySuffixed(base: string, maxLength: nat)
    ensures Suffixed(base, maxLength, 1) == {Try(base, maxLength, 1)}
  {
    hide Candidate;
    assert Suffixed(base, maxLength, 0) == {};
  }

  /** A code is the words of the name joined by underscores, cut at the limit, or ESTADO when nothing is left. */
  lemma CodeExactly(name: string, maxLength: nat)
    ensures var full := Join(Words(name), "_");
      SlugToCode(name, maxLength) ==
        if full == "" || maxLength == 0 then "ESTADO" else if |full| <= maxLength then full else full[..maxLength]
  {
    FullCodeIsWords(name);
    hide FullCode, Words, Join;
  }

  /** A code holds nothing but capital letters, digits and underscores. */
  lemma CodeCharacters(name: string, maxLength: nat)
    ensures forall c :: c in SlugToCode(name, maxLength) ==> 'A' <= c <= 'Z' || '0' <= c <= '9' || c == '_'
  {
    CodeExactly(name, maxLength);
    JoinedCharacters(Words(name));
    hide SlugToCode, Words;
    var full := Join(Words(name), "_");
    if |full| > maxLength { assert forall c :: c in full[..maxLength] ==> c in full; }
  }

  lemma {:induction false} JoinedCharacters(words: seq<string>)
    requires forall i :: 0 <= i < |words| ==> IsWord(words[i])
    ensures forall c :: c in Join(words, "_") ==> 'A' <= c <= 'Z' || '0' <= c <= '9' || c == '_'
  {
    if |words| > 1 { JoinedCharacters(words[1..]); }
  }

  /** A name of capital letters and digits within the limit is its own code. */
  lemma PlainNameIsCode(name: string, maxLength: nat)
    requires 0 < |name| <= maxLength && forall i :: 0 <= i < |name| ==> 'A' <= name[i] <= 'Z' || '0' <= name[i] <= '9'
    ensures SlugToCode(name, maxLength) == name
  {
    assert IsWord(name);
    hide SlugToCode, Words;
    WordsOfJoin([name]);
    JoinOne(name);
    CodeExactly(name, maxLength);
  }

  /** A candidate is as much of the base as leaves room for an underscore and the number, and these. */
  lemma CandidateExactly(base: string, maxLength: nat, n: nat)
    requires |Digits(n)| + 1 <= maxLength
    ensures var room := maxLength - |Digits(n)| - 1;
      Candidate(base, maxLength, n) == (if |base| <= room then base else base[..room]) + "_" + Digits(n)
  {
    hide Digits;
    var room := maxLength - |Digits(n)| - 1;
    var cut := if |base| <= room then base else base[..room];
    assert cut + ("_" + Digits(n)) == cut + "_" + Digits(n);
  }

  /** A code keeps to the limit exactly when its suffix does. */
  lemma CandidateFits(base: string, maxLength: nat, n: nat)
    ensures |Suffix(n)| <= maxLength ==> |Candidate(base, maxLength, n)| <= maxLength
    ensures |Candidate(base, maxLength, n)| <= maxLength ==> |Suffix(n)| <= maxLength
  {}

  /** With room for the largest suffix and for the fallback, the new code is never too long. */
  lemma CodeFits(codes: set<string>, name: string, maxLength: nat, tried: nat)
    requires tried <= |codes| + 1 && maxLength >= 6 && |codes| + 2 < Pow10(maxLength - 1)
    ensures |Try(SlugToCode(name, maxLength), maxLength, tried)| <= maxLength
  {
    DigitsFit(tried + 1, maxLength - 1);
    CandidateFits(SlugToCode(name, maxLength), maxLength, tried + 1);
  }
}
