/** Human durations such as `90s` and `1h30m` (src/ocp/duration.py). */
module Duration {
  import opened Wrappers
  import opened Decimal

  /** A digits-plus-unit match of the tokenizer. */
  datatype Token = Token(digits: string, unitChar: char)

  datatype DurationError = Empty | Unrecognized | NotPositive

  predicate IsUnit(c: char) { c == 's' || c == 'm' || c == 'h' }

  function UnitSeconds(c: char): nat {
    if c == 's' then 1 else if c == 'm' then 60 else 3600
  }

  predicate IsToken(t: Token) {
    t.digits != "" && AllDigits(t.digits) && IsUnit(t.unitChar)
  }

  predicate AreTokens(ts: seq<Token>) {
    forall i :: 0 <= i < |ts| ==> IsToken(ts[i])
  }

  function Text(t: Token): string { t.digits + [t.unitChar] }

  /** The tokens written one after another. */
  function Rebuilt(ts: seq<Token>): string {
    if ts == [] then "" else Text(ts[0]) + Rebuilt(ts[1..])
  }

  function Seconds(t: Token): nat
    requires IsToken(t)
  {
    Value(t.digits) * UnitSeconds(t.unitChar)
  }

  function Total(ts: seq<Token>): nat
    requires AreTokens(ts)
  {
    if ts == [] then 0 else Seconds(ts[0]) + Total(ts[1..])
  }

  // --- the tokenizer --------------------------------------------------------

  /** Length of the run of digits at the front. */
  function DigitRun(s: string): (n: nat)
    ensures n <= |s| && AllDigits(s[..n])
    ensures n < |s| ==> !IsDigit(s[n])
  {
    if s == "" || !IsDigit(s[0]) then 0 else 1 + DigitRun(s[1..])
  }

  /** `findall` of one or more digits and a unit: at each position the match, if there is
      one, takes the whole run of digits; otherwise the search moves on by one. */
  function FindAll(s: string): (ts: seq<Token>)
    ensures AreTokens(ts)
  {
    if s == "" then [] else
      var n := DigitRun(s);
      if 0 < n < |s| && IsUnit(s[n]) then [Token(s[..n], s[n])] + FindAll(s[n + 1..])
      else FindAll(s[1..])
  }

  // --- normalisation --------------------------------------------------------

  predicate IsSpace(c: char) {
    c == ' ' || '\t' <= c <= '\r' || '\U{1c}' <= c <= '\U{1f}'
  }

  function StripLeft(s: string): (r: string)
    ensures r == "" || !IsSpace(r[0])
  {
    if s != "" && IsSpace(s[0]) then StripLeft(s[1..]) else s
  }

  function StripRight(s: string): (r: string)
    ensures r == "" || !IsSpace(r[|r| - 1])
    ensures r <= s
  {
    if s != "" && IsSpace(s[|s| - 1]) then StripRight(s[..|s| - 1]) else s
  }

  function Strip(s: string): string { StripRight(StripLeft(s)) }

  function LowerChar(c: char): char {
    if 'A' <= c <= 'Z' then 'a' + (c as int - 'A' as int) as char else c
  }

  function Lower(s: string): string {
    seq(|s|, i requires 0 <= i < |s| => LowerChar(s[i]))
  }

  function Normalize(s: string): string { Lower(Strip(s)) }

  // --- parse and format -----------------------------------------------------

  function ParseNormalized(s: string): Result<nat, DurationError> {
    if s == "" then Err(Empty) else
      var ts := FindAll(s);
      if Rebuilt(ts) != s then Err(Unrecognized)
      else if Total(ts) <= 0 then Err(NotPositive)
      else Ok(Total(ts))
  }

  function Parse(s: string): Result<nat, DurationError> {
    ParseNormalized(Normalize(s))
  }

  function Part(n: nat, unitChar: char): seq<string> {
    if n == 0 then [] else [Print(n) + [unitChar]]
  }

  /** The parts of a formatted duration: hours, minutes, seconds, zero ones left out. */
  function Parts(seconds: int): seq<string> {
    if seconds <= 0 then ["0s"] else
      Part(seconds / 3600, 'h') + Part(seconds % 3600 / 60, 'm') + Part(seconds % 60, 's')
  }

  function Join(parts: seq<string>, sep: string): string {
    if parts == [] then "" else if |parts| == 1 then parts[0] else parts[0] + sep + Join(parts[1..], sep)
  }

  function Format(seconds: int): string { Join(Parts(seconds), " ") }

  lemma SplitSeconds(seconds: nat)
    ensures seconds == 3600 * (seconds / 3600) + 60 * (seconds % 3600 / 60) + seconds % 60
    ensures seconds % 3600 % 60 == seconds % 60
  {
    var h, m, s := seconds / 3600, seconds % 3600 / 60, seconds % 3600 % 60;
    SixtiesVanish(60 * h + m, s);
  }

  lemma SixtiesVanish(q: nat, r: nat)
    requires r < 60
    ensures (60 * q + r) % 60 == r
  {
  }

  method FormatDuration(seconds: int) returns (text: string)
    ensures text == Format(seconds)
  {
    if seconds <= 0 {
      return "0s";
    }
    var h, rem := seconds / 3600, seconds % 3600;
    var m, s := rem / 60, rem % 60;
    var parts: seq<string> := [];
    SplitSeconds(seconds);
    if h != 0 {
      parts := parts + [Print(h) + "h"];
    }
    assert parts == Part(h, 'h');
    if m != 0 {
      parts := parts + [Print(m) + "m"];
    }
    assert parts == Part(h, 'h') + Part(m, 'm');
    if s != 0 || parts == [] {
      parts := parts + [Print(s) + "s"];
    }
    assert parts == Part(h, 'h') + Part(m, 'm') + Part(s, 's');
    text := Join(parts, " ");
  }

  // --- tokenizer and grammar ------------------------------------------------

  lemma {:induction false} DigitRunOf(d: string, rest: string)
    requires AllDigits(d) && (rest == "" || !IsDigit(rest[0]))
    ensures DigitRun(d + rest) == |d|
  {
    if d == "" {
      assert d + rest == rest;
    } else {
      DigitRunOf(d[1..], rest);
      assert (d + rest)[1..] == d[1..] + rest;
    }
  }

  /** The tokenizer takes the first token off a text that starts with one. */
  lemma FindAllCons(t: Token, rest: string)
    requires IsToken(t)
    ensures FindAll(Text(t) + rest) == [t] + FindAll(rest)
  {
    var s := Text(t) + rest;
    assert s == t.digits + ([t.unitChar] + rest);
    DigitRunOf(t.digits, [t.unitChar] + rest);
    assert s[..|t.digits|] == t.digits && s[|t.digits| + 1..] == rest;
  }

  /** Tokens written one after another are found again, exactly. */
  lemma {:induction false} FindAllOfRebuilt(ts: seq<Token>)
    requires AreTokens(ts)
    ensures FindAll(Rebuilt(ts)) == ts
  {
    if ts != [] {
      FindAllOfRebuilt(ts[1..]);
      FindAllCons(ts[0], Rebuilt(ts[1..]));
    }
  }

  /** The grammar: a non-empty concatenation of tokens. */
  ghost predicate InGrammar(s: string) {
    exists ts :: ts != [] && AreTokens(ts) && Rebuilt(ts) == s
  }

  /** Find-all-then-rebuild accepts a non-empty text exactly if it is in the grammar. */
  lemma TokenizerIsGrammar(s: string)
    requires s != ""
    ensures Rebuilt(FindAll(s)) == s <==> InGrammar(s)
  {
    if InGrammar(s) {
      var ts :| ts != [] && AreTokens(ts) && Rebuilt(ts) == s;
      FindAllOfRebuilt(ts);
    }
    if Rebuilt(FindAll(s)) == s {
      assert FindAll(s) != [];
    }
  }

  /** What parsing answers, in terms of the grammar alone; a text has at most one reading. */
  lemma ParseExact(s: string, ts: seq<Token>)
    requires AreTokens(ts) && ts != [] && Rebuilt(ts) == Normalize(s)
    ensures Parse(s) == if Total(ts) > 0 then Ok(Total(ts)) else Err(NotPositive)
  {
    FindAllOfRebuilt(ts);
  }

  lemma ParseRejectsIff(s: string)
    ensures Parse(s) == Err(Empty) <==> Normalize(s) == ""
    ensures Parse(s) == Err(Unrecognized) <==> Normalize(s) != "" && !InGrammar(Normalize(s))
  {
    if Normalize(s) != "" {
      TokenizerIsGrammar(Normalize(s));
    }
  }

  lemma Unfold(ts: seq<Token>)
    requires AreTokens(ts) && ts != []
    ensures Rebuilt(ts) == Text(ts[0]) + Rebuilt(ts[1..]) && Total(ts) == Seconds(ts[0]) + Total(ts[1..])
  {
  }

  lemma {:induction false} RebuiltAppend(a: seq<Token>, b: seq<Token>)
    requires AreTokens(a) && AreTokens(b)
    ensures AreTokens(a + b)
    ensures Rebuilt(a + b) == Rebuilt(a) + Rebuilt(b) && Total(a + b) == Total(a) + Total(b)
  {
    if a == [] {
      assert a + b == b && Rebuilt(a) == "" && Total(a) == 0;
      return;
    }
    RebuiltAppend(a[1..], b);
    Unfold(a);
    Unfold(a + b);
    hide Rebuilt, Total, Text;
    assert (a + b)[1..] == a[1..] + b && (a + b)[0] == a[0];
    ConcatAssoc(Text(a[0]), Rebuilt(a[1..]), Rebuilt(b));
  }

  lemma NormalizedAdditive(a: string, b: string)
    requires ParseNormalized(a).Ok? && ParseNormalized(b).Ok?
    ensures ParseNormalized(a + b) == Ok(ParseNormalized(a).value + ParseNormalized(b).value)
  {
    hide FindAll, Rebuilt, Total;
    var ta, tb := FindAll(a), FindAll(b);
    RebuiltAppend(ta, tb);
    FindAllOfRebuilt(ta + tb);
  }

  // --- spaces ---------------------------------------------------------------

  predicate AllSpaces(s: string) {
    forall i :: 0 <= i < |s| ==> IsSpace(s[i])
  }

  lemma {:induction false} StripLeftSplits(s: string) returns (l: string)
    ensures AllSpaces(l) && s == l + StripLeft(s)
  {
    l := "";
    if s != "" && IsSpace(s[0]) {
      l := StripLeftSplits(s[1..]);
      l := [s[0]] + l;
    }
  }

  lemma {:induction false} StripRightSplits(s: string) returns (r: string)
    ensures AllSpaces(r) && s == StripRight(s) + r
  {
    r := "";
    if s != "" && IsSpace(s[|s| - 1]) {
      r := StripRightSplits(s[..|s| - 1]);
      r := r + [s[|s| - 1]];
    }
  }

  /** What stripping takes off is spaces; what it leaves starts and ends with none. */
  lemma StripSplits(s: string) returns (l: string, r: string)
    ensures AllSpaces(l) && AllSpaces(r) && s == l + Strip(s) + r
    ensures Strip(s) == "" || (!IsSpace(Strip(s)[0]) && !IsSpace(Strip(s)[|Strip(s)| - 1]))
  {
    l := StripLeftSplits(s);
    r := StripRightSplits(StripLeft(s));
    assert s == l + (Strip(s) + r);
  }

  lemma {:induction false} StripLeftOf(l: string, s: string)
    requires AllSpaces(l) && s != "" && !IsSpace(s[0])
    ensures StripLeft(l + s) == s
  {
    if l == "" {
      assert l + s == s;
    } else {
      StripLeftOf(l[1..], s);
      assert (l + s)[1..] == l[1..] + s;
    }
  }

  lemma {:induction false} StripRightOf(s: string, r: string)
    requires AllSpaces(r) && s != "" && !IsSpace(s[|s| - 1])
    ensures StripRight(s + r) == s
  {
    if r == "" {
      assert s + r == s;
    } else {
      StripRightOf(s, r[..|r| - 1]);
      assert (s + r)[..|s + r| - 1] == s + r[..|r| - 1];
    }
  }

  lemma StripOf(l: string, s: string, r: string)
    requires AllSpaces(l) && AllSpaces(r) && s != "" && !IsSpace(s[0]) && !IsSpace(s[|s| - 1])
    ensures Strip(l + s + r) == s
  {
    assert l + s + r == l + (s + r);
    StripLeftOf(l, s + r);
    StripRightOf(s, r);
  }

  lemma LowerAppend(a: string, b: string)
    ensures Lower(a + b) == Lower(a) + Lower(b)
  {
  }

  lemma LowerSpaces(s: string)
    requires AllSpaces(s)
    ensures Lower(s) == s
  {
  }

  /** Stripping two texts written one after another leaves the spaces between them. */
  lemma StripAppend(a: string, b: string) returns (gap: string)
    requires Strip(a) != "" && Strip(b) != ""
    ensures Strip(a + b) == Strip(a) + gap + Strip(b) && AllSpaces(gap)
    ensures a != "" && b != ""
    ensures gap == "" <==> !IsSpace(a[|a| - 1]) && !IsSpace(b[0])
  {
    var la, ra := StripSplits(a);
    var lb, rb := StripSplits(b);
    var sa, sb := Strip(a), Strip(b);
    gap := ra + lb;
    var inner := sa + gap + sb;
    assert inner[0] == sa[0] && inner[|inner| - 1] == sb[|sb| - 1];
    StripOf(la, inner, rb);
    hide IsSpace, Strip;
    Regroup(la, sa, ra, lb, sb, rb);
    GapAtEnd(la + sa, ra);
    GapAtStart(lb, sb + rb);
    ConcatAssoc(lb, sb, rb);
  }

  lemma Regroup(la: string, sa: string, ra: string, lb: string, sb: string, rb: string)
    ensures (la + sa + ra) + (lb + sb + rb) == la + (sa + (ra + lb) + sb) + rb
  {
  }

  /** The same once they are stripped and lowered. */
  lemma NormalizeAppend(a: string, b: string) returns (gap: string)
    requires Strip(a) != "" && Strip(b) != ""
    ensures Normalize(a + b) == Normalize(a) + gap + Normalize(b) && AllSpaces(gap)
    ensures a != "" && b != ""
    ensures gap == "" <==> !IsSpace(a[|a| - 1]) && !IsSpace(b[0])
  {
    gap := StripAppend(a, b);
    LowerAppend(Strip(a) + gap, Strip(b));
    LowerAppend(Strip(a), gap);
    LowerSpaces(gap);
    hide Strip, Lower, IsSpace;
  }

  lemma GapAtEnd(s: string, r: string)
    requires AllSpaces(r) && s != "" && !IsSpace(s[|s| - 1])
    ensures r == "" <==> !IsSpace((s + r)[|s + r| - 1])
  {
  }

  lemma GapAtStart(l: string, s: string)
    requires AllSpaces(l) && s != "" && !IsSpace(s[0])
    ensures l == "" <==> !IsSpace((l + s)[0])
  {
  }

  /** Totals of accepted texts add up when the texts are written one after another, exactly
      if that leaves no space between them; otherwise the whole is not recognized. */
  lemma ParseAdditive(a: string, b: string)
    requires Parse(a).Ok? && Parse(b).Ok?
    ensures a != "" && b != ""
    ensures Parse(a + b) ==
            if !IsSpace(a[|a| - 1]) && !IsSpace(b[0]) then Ok(Parse(a).value + Parse(b).value) else Err(Unrecognized)
  {
    hide Strip, ParseNormalized;
    ParseRejectsIff(a);
    ParseRejectsIff(b);
    assert Strip(a) != "" && Strip(b) != "";
    var gap := NormalizeAppend(a, b);
    var na, nb := Normalize(a), Normalize(b);
    if gap == "" {
      assert na + gap + nb == na + nb;
      NormalizedAdditive(na, nb);
    } else {
      assert (na + gap + nb)[|na|] == gap[0];
      SpaceBreaksGrammar(na + gap + nb, |na|);
      GapUnrecognized(na + gap + nb);
    }
  }

  lemma GapUnrecognized(s: string)
    requires s != "" && Rebuilt(FindAll(s)) != s
    ensures ParseNormalized(s) == Err(Unrecognized)
  {
  }

  // --- case and surrounding space -------------------------------------------

  /** Space, tab, line ends, and the four ASCII separators. */
  predicate Blank(s: string) {
    forall i :: 0 <= i < |s| ==> s[i] == ' ' || 9 <= s[i] as int <= 13 || 28 <= s[i] as int <= 31
  }

  function Capital(c: char): char {
    if 'a' <= c <= 'z' then (c as int - 32) as char else c
  }

  function Capitals(s: string): string {
    seq(|s|, i requires 0 <= i < |s| => Capital(s[i]))
  }

  lemma {:induction false} StripLeftAfter(l: string, s: string)
    requires AllSpaces(l)
    ensures StripLeft(l + s) == StripLeft(s)
  {
    if l == "" {
      assert l + s == s;
    } else {
      StripLeftAfter(l[1..], s);
      assert (l + s)[1..] == l[1..] + s;
    }
  }

  lemma {:induction false} StripRightBefore(s: string, r: string)
    requires AllSpaces(r)
    ensures StripRight(s + r) == StripRight(s)
  {
    if r == "" {
      assert s + r == s;
    } else {
      StripRightBefore(s, r[..|r| - 1]);
      assert (s + r)[..|s + r| - 1] == s + r[..|r| - 1];
    }
  }

  lemma {:induction false} StripAllSpaces(s: string)
    requires AllSpaces(s)
    ensures Strip(s) == ""
  {
    StripLeftAfter(s, "");
    assert s + "" == s;
  }

  /** White space around a text makes no difference to what stripping leaves. */
  lemma StripIgnoresBlank(l: string, s: string, r: string)
    requires Blank(l) && Blank(r)
    ensures Strip(l + s + r) == Strip(s)
  {
    assert AllSpaces(l) && AllSpaces(r);
    var left := StripLeftSplits(s);
    if StripLeft(s) == "" {
      StripAllSpaces(s);
      StripAllSpaces(l + s + r);
    } else {
      assert l + s + r == (l + left) + (StripLeft(s) + r);
      StripLeftOf(l + left, StripLeft(s) + r);
      StripRightBefore(StripLeft(s), r);
    }
  }

  lemma LowerOfCapitals(s: string)
    ensures Lower(Capitals(s)) == Lower(s)
  {
  }

  lemma {:induction false} StripLeftOfCapitals(s: string)
    ensures StripLeft(Capitals(s)) == Capitals(StripLeft(s))
  {
    if s != "" && IsSpace(s[0]) {
      StripLeftOfCapitals(s[1..]);
      assert Capitals(s)[1..] == Capitals(s[1..]);
    }
  }

  lemma {:induction false} StripRightOfCapitals(s: string)
    ensures StripRight(Capitals(s)) == Capitals(StripRight(s))
  {
    if s != "" && IsSpace(s[|s| - 1]) {
      StripRightOfCapitals(s[..|s| - 1]);
      assert Capitals(s)[..|s| - 1] == Capitals(s[..|s| - 1]);
    }
  }

  /** What a text parses to does not depend on its case or on white space around it. */
  lemma CaseAndBlankIgnored(l: string, s: string, r: string)
    requires Blank(l) && Blank(r)
    ensures Parse(l + s + r) == Parse(s) && Parse(Capitals(s)) == Parse(s)
  {
    StripIgnoresBlank(l, s, r);
    StripLeftOfCapitals(s);
    StripRightOfCapitals(StripLeft(s));
    LowerOfCapitals(Strip(s));
    hide Strip, Lower, ParseNormalized;
  }

  /** A number with a unit is that many seconds, minutes or hours. */
  lemma OneUnitParses(n: nat)
    requires n > 0
    ensures Parse(Print(n) + "s") == Ok(n) && Parse(Print(n) + "m") == Ok(60 * n) && Parse(Print(n) + "h") == Ok(3600 * n)
  {
    hide Print, Parse;
    OneTokenParses(n, 's');
    OneTokenParses(n, 'm');
    OneTokenParses(n, 'h');
    assert UnitSeconds('s') == 1 && UnitSeconds('m') == 60 && UnitSeconds('h') == 3600;
  }

  lemma OneTokenParses(n: nat, unitChar: char)
    requires n > 0 && IsUnit(unitChar)
    ensures Parse(Print(n) + [unitChar]) == Ok(n * UnitSeconds(unitChar))
  {
    var t := Token(Print(n), unitChar);
    ValueOfPrint(n);
    OneToken(t);
    hide Print, Rebuilt, Total, Normalize, Parse;
    CleanIsNormal([t]);
    ParseExact(Text(t), [t]);
  }

  lemma OneToken(t: Token)
    requires IsToken(t)
    ensures AreTokens([t]) && Rebuilt([t]) == Text(t) && Total([t]) == Seconds(t)
  {
    assert [t][1..] == [];
  }

  // --- printing and parsing back --------------------------------------------

  predicate IsClean(s: string) {
    forall i :: 0 <= i < |s| ==> IsDigit(s[i]) || IsUnit(s[i])
  }

  lemma {:induction false} RebuiltClean(ts: seq<Token>)
    requires AreTokens(ts)
    ensures IsClean(Rebuilt(ts))
  {
    if ts != [] {
      RebuiltClean(ts[1..]);
    }
  }

  /** Texts without capitals that neither start nor end with a space are normal. */
  lemma NormalizeFixes(s: string)
    requires s != "" && !IsSpace(s[0]) && !IsSpace(s[|s| - 1])
    requires forall i :: 0 <= i < |s| ==> !('A' <= s[i] <= 'Z')
    ensures Normalize(s) == s
  {
  }

  function DeleteSpaces(s: string): string {
    if s == "" then "" else (if s[0] == ' ' then "" else [s[0]]) + DeleteSpaces(s[1..])
  }

  lemma DeleteSpacesUnfold(s: string)
    requires s != ""
    ensures DeleteSpaces(s) == (if s[0] == ' ' then "" else [s[0]]) + DeleteSpaces(s[1..])
  {
  }

  lemma {:induction false} DeleteSpacesAppend(a: string, b: string)
    ensures DeleteSpaces(a + b) == DeleteSpaces(a) + DeleteSpaces(b)
  {
    if a == "" {
      assert a + b == b && DeleteSpaces(a) == "";
      return;
    }
    DeleteSpacesAppend(a[1..], b);
    DeleteSpacesUnfold(a);
    DeleteSpacesUnfold(a + b);
    hide DeleteSpaces;
    assert (a + b)[1..] == a[1..] + b && (a + b)[0] == a[0];
    ConcatAssoc(if a[0] == ' ' then "" else [a[0]], DeleteSpaces(a[1..]), DeleteSpaces(b));
  }

  lemma {:induction false} DeleteSpacesClean(s: string)
    requires IsClean(s)
    ensures DeleteSpaces(s) == s
  {
    if s != "" {
      assert s[0] != ' ';
      DeleteSpacesClean(s[1..]);
    }
  }

  function Texts(ts: seq<Token>): seq<string> {
    if ts == [] then [] else [Text(ts[0])] + Texts(ts[1..])
  }

  lemma {:induction false} DeleteSpacesOfJoin(ts: seq<Token>)
    requires AreTokens(ts)
    ensures DeleteSpaces(Join(Texts(ts), " ")) == Rebuilt(ts)
  {
    if ts != [] {
      DeleteSpacesOfJoin(ts[1..]);
      RebuiltClean([ts[0]]);
      assert Rebuilt([ts[0]]) == Text(ts[0]);
      DeleteSpacesClean(Text(ts[0]));
      if |ts| > 1 {
        DeleteSpacesAppend(Text(ts[0]) + " ", Join(Texts(ts[1..]), " "));
        DeleteSpacesAppend(Text(ts[0]), " ");
      }
    }
  }

  function PartTokens(n: nat, unitChar: char): seq<Token> {
    if n == 0 then [] else [Token(Print(n), unitChar)]
  }

  function TokensOf(seconds: nat): seq<Token> {
    PartTokens(seconds / 3600, 'h') + PartTokens(seconds % 3600 / 60, 'm') + PartTokens(seconds % 60, 's')
  }

  lemma PartTotal(n: nat, unitChar: char)
    requires IsUnit(unitChar)
    ensures AreTokens(PartTokens(n, unitChar)) && Total(PartTokens(n, unitChar)) == n * UnitSeconds(unitChar)
  {
    ValueOfPrint(n);
    if n != 0 {
      assert PartTokens(n, unitChar)[1..] == [];
    }
  }

  lemma TotalOfThree(a: seq<Token>, b: seq<Token>, c: seq<Token>)
    requires AreTokens(a) && AreTokens(b) && AreTokens(c)
    ensures AreTokens(a + b + c) && Total(a + b + c) == Total(a) + Total(b) + Total(c)
  {
    RebuiltAppend(a, b);
    RebuiltAppend(a + b, c);
  }

  lemma ThreePartTotal(h: nat, m: nat, s: nat)
    ensures var ts := PartTokens(h, 'h') + PartTokens(m, 'm') + PartTokens(s, 's');
            AreTokens(ts) && Total(ts) == 3600 * h + 60 * m + s
  {
    hide PartTokens, Total, AreTokens;
    PartTotal(h, 'h');
    PartTotal(m, 'm');
    PartTotal(s, 's');
    assert UnitSeconds('h') == 3600 && UnitSeconds('m') == 60 && UnitSeconds('s') == 1;
    TotalOfThree(PartTokens(h, 'h'), PartTokens(m, 'm'), PartTokens(s, 's'));
  }

  lemma TokensOfTotal(seconds: nat)
    ensures AreTokens(TokensOf(seconds)) && Total(TokensOf(seconds)) == seconds
  {
    ThreePartTotal(seconds / 3600, seconds % 3600 / 60, seconds % 60);
    SplitSeconds(seconds);
  }

  lemma TextsUnfold(ts: seq<Token>)
    requires ts != []
    ensures Texts(ts) == [Text(ts[0])] + Texts(ts[1..])
  {
  }

  lemma {:induction false} TextsAppend(a: seq<Token>, b: seq<Token>)
    ensures Texts(a + b) == Texts(a) + Texts(b)
  {
    if a == [] {
      assert a + b == b && Texts(a) == [];
      return;
    }
    TextsAppend(a[1..], b);
    TextsUnfold(a);
    TextsUnfold(a + b);
    hide Texts, Text;
    assert (a + b)[1..] == a[1..] + b && (a + b)[0] == a[0];
    ConcatAssoc([Text(a[0])], Texts(a[1..]), Texts(b));
  }

  lemma PartTexts(n: nat, unitChar: char)
    ensures Texts(PartTokens(n, unitChar)) == Part(n, unitChar)
  {
    if n != 0 {
      assert PartTokens(n, unitChar)[1..] == [];
    }
  }

  lemma PartsAreTexts(seconds: nat)
    requires seconds > 0
    ensures Parts(seconds) == Texts(TokensOf(seconds)) && TokensOf(seconds) != []
  {
    var h, m, s := seconds / 3600, seconds % 3600 / 60, seconds % 60;
    TextsAppend(PartTokens(h, 'h') + PartTokens(m, 'm'), PartTokens(s, 's'));
    TextsAppend(PartTokens(h, 'h'), PartTokens(m, 'm'));
    PartTexts(h, 'h');
    PartTexts(m, 'm');
    PartTexts(s, 's');
    SplitSeconds(seconds);
  }

  /** Formatted durations, written out: hours, minutes and seconds in this order, zero parts
      left out, single spaces between the others; "0s" if there is nothing. */
  lemma FormatTells(h: nat, m: nat, s: nat)
    requires m < 60 && s < 60
    ensures var seconds := 3600 * h + 60 * m + s;
            Format(seconds) ==
            if seconds == 0 then "0s" else
              (if h > 0 then Print(h) + "h" else "")
              + (if h > 0 && m > 0 then " " else "")
              + (if m > 0 then Print(m) + "m" else "")
              + (if (h > 0 || m > 0) && s > 0 then " " else "")
              + (if s > 0 then Print(s) + "s" else "")
    ensures forall n: int :: n <= 0 ==> Format(n) == "0s"
  {
    var seconds := 3600 * h + 60 * m + s;
    DivideSeconds(h, m, s);
    JoinParts(Part(h, 'h'), Part(m, 'm'), Part(s, 's'));
  }

  lemma DivideSeconds(h: nat, m: nat, s: nat)
    requires m < 60 && s < 60
    ensures var seconds := 3600 * h + 60 * m + s;
            seconds / 3600 == h && seconds % 3600 / 60 == m && seconds % 60 == s
  {
    var seconds := 3600 * h + 60 * m + s;
    assert seconds / 3600 == h;
    assert seconds % 3600 == 60 * m + s;
    SixtiesVanish(60 * h + m, s);
  }

  lemma JoinParts(a: seq<string>, b: seq<string>, c: seq<string>)
    requires |a| <= 1 && |b| <= 1 && |c| <= 1
    ensures Join(a + b + c, " ") ==
            (if a != [] then a[0] else "") + (if a != [] && b != [] then " " else "")
            + (if b != [] then b[0] else "") + (if (a != [] || b != []) && c != [] then " " else "")
            + (if c != [] then c[0] else "")
  {
    if a != [] && b != [] && c != [] {
      assert a + b + c == [a[0], b[0], c[0]];
      JoinThree(a[0], b[0], c[0]);
    } else if a != [] && b != [] {
      assert a + b + c == [a[0], b[0]];
    } else if a != [] && c != [] {
      assert a + b + c == [a[0], c[0]];
    } else if b != [] && c != [] {
      assert a + b + c == [b[0], c[0]];
    }
  }

  lemma JoinThree(x: string, y: string, z: string)
    ensures Join([x, y, z], " ") == x + " " + y + " " + z
  {
    assert [x, y, z][1..] == [y, z] && [y, z][1..] == [z];
    assert Join([y, z], " ") == y + " " + z;
    ConcatAssoc(x + " ", y + " ", z);
    assert x + " " + (y + " ") == x + " " + y + " ";
  }

  /** Deleting the spaces of a formatted duration and parsing gives the duration back. */
  lemma FormatThenParse(seconds: nat)
    requires seconds > 0
    ensures Parse(DeleteSpaces(Format(seconds))) == Ok(seconds)
  {
    var ts := TokensOf(seconds);
    TokensOfTotal(seconds);
    PartsAreTexts(seconds);
    DeleteSpacesOfJoin(ts);
    CleanIsNormal(ts);
    ParseExact(Rebuilt(ts), ts);
  }

  lemma CleanIsNormal(ts: seq<Token>)
    requires AreTokens(ts) && ts != []
    ensures Normalize(Rebuilt(ts)) == Rebuilt(ts)
  {
    RebuiltClean(ts);
    var s := Rebuilt(ts);
    assert !IsSpace(s[0]) && !IsSpace(s[|s| - 1]);
    NormalizeFixes(s);
  }

  /** A formatted duration parses as it stands exactly if it has a single part, that is,
      whole hours, whole minutes under an hour, or seconds under a minute; the spaces
      between several parts are rejected. */
  lemma FormattedParsesIff(seconds: nat)
    requires seconds > 0
    ensures Parse(Format(seconds)) == Ok(seconds) <==>
            seconds % 3600 == 0 || (seconds < 3600 && seconds % 60 == 0) || seconds < 60
    ensures Parse(Format(seconds)) != Ok(seconds) ==> Parse(Format(seconds)) == Err(Unrecognized)
  {
    var ts := TokensOf(seconds);
    TokensOfTotal(seconds);
    PartsAreTexts(seconds);
    SinglePartIff(seconds);
    if |ts| == 1 {
      assert Texts(ts) == [Text(ts[0])] && Rebuilt(ts) == Text(ts[0]);
      CleanIsNormal(ts);
      ParseExact(Format(seconds), ts);
    } else {
      SpacedIsUnrecognized(ts);
    }
  }

  lemma SinglePartIff(seconds: nat)
    requires seconds > 0
    ensures |TokensOf(seconds)| == 1 <==>
            seconds % 3600 == 0 || (seconds < 3600 && seconds % 60 == 0) || seconds < 60
  {
    var h, m, s := seconds / 3600, seconds % 3600 / 60, seconds % 60;
    SplitSeconds(seconds);
    assert seconds % 3600 == 60 * m + s;
  }

  lemma {:induction false} JoinShape(ts: seq<Token>)
    requires AreTokens(ts) && ts != []
    ensures var s := Join(Texts(ts), " ");
            && s != "" && !IsSpace(s[0]) && !IsSpace(s[|s| - 1])
            && (forall i :: 0 <= i < |s| ==> !('A' <= s[i] <= 'Z'))
  {
    var first := Text(ts[0]);
    assert IsDigit(first[0]) && IsUnit(first[|first| - 1]);
    if |ts| > 1 {
      JoinShape(ts[1..]);
    }
  }

  /** A text with a space in it is not a concatenation of tokens. */
  lemma SpaceBreaksGrammar(s: string, i: nat)
    requires i < |s| && IsSpace(s[i])
    ensures Rebuilt(FindAll(s)) != s
  {
    RebuiltClean(FindAll(s));
  }

  lemma SpacedIsUnrecognized(ts: seq<Token>)
    requires AreTokens(ts) && |ts| > 1
    ensures Parse(Join(Texts(ts), " ")) == Err(Unrecognized)
  {
    var s := Join(Texts(ts), " ");
    JoinShape(ts);
    NormalizeFixes(s);
    SpaceAfterFirst(ts);
    SpaceBreaksGrammar(s, |Text(ts[0])|);
  }

  lemma SpaceAfterFirst(ts: seq<Token>)
    requires |ts| > 1
    ensures var s := Join(Texts(ts), " ");
            |Text(ts[0])| < |s| && s[|Text(ts[0])|] == ' '
  {
    assert Join(Texts(ts), " ") == Text(ts[0]) + " " + Join(Texts(ts[1..]), " ");
  }
}
