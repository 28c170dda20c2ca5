/** GPU specs such as `7` or `0,2,3` (src/ocp/gpuspec.py). Numerals are ASCII digits with
    an optional sign. */
module GpuSpec {
  import opened Wrappers
  import opened Decimal
  import D = Duration

  datatype SpecError =
    | EmptySpec
    | EmptyIndex
    | NotAnIndex(part: string)
    | Negative(idx: int)
    | Duplicate(idx: int)

  /** `s.split(sep)`: the pieces between the separators, at least one. */
  function Split(s: string, sep: char): (parts: seq<string>)
    ensures parts != []
    ensures forall p :: p in parts ==> sep !in p
  {
    if s == "" then [""] else
      var rest := Split(s[1..], sep);
      if s[0] == sep then [""] + rest else [[s[0]] + rest[0]] + rest[1..]
  }

  function StripAll(raw: seq<string>): (parts: seq<string>)
    ensures |parts| == |raw| && forall i :: 0 <= i < |raw| ==> parts[i] == D.Strip(raw[i])
  {
    seq(|raw|, i requires 0 <= i < |raw| => D.Strip(raw[i]))
  }

  /** `int(p)` of a stripped part. */
  function ReadInt(p: string): Option<int> {
    var body := if p != "" && (p[0] == '-' || p[0] == '+') then p[1..] else p;
    if body == "" || !AllDigits(body) then None
    else if p[0] == '-' then Some(-(Value(body) as int))
    else Some(Value(body))
  }

  function ReadAll(parts: seq<string>): (vals: seq<Option<int>>)
    ensures |vals| == |parts| && forall i :: 0 <= i < |parts| ==> vals[i] == ReadInt(parts[i])
  {
    seq(|parts|, i requires 0 <= i < |parts| => ReadInt(parts[i]))
  }

  /** What the loop says about a part that reads as `idx` when `seen` came before it. */
  function Complaint(p: string, idx: Option<int>, seen: seq<int>): Option<SpecError> {
    if idx.None? then Some(NotAnIndex(p))
    else if idx.value < 0 then Some(Negative(idx.value))
    else if idx.value in seen then Some(Duplicate(idx.value))
    else None
  }

  /** The indices of the first `k` parts, or the complaint about the first bad one. */
  function ReadParts(parts: seq<string>, vals: seq<Option<int>>, k: nat): Result<seq<int>, SpecError>
    requires k <= |parts| == |vals|
  {
    if k == 0 then Ok([]) else
      match ReadParts(parts, vals, k - 1)
      case Err(e) => Err(e)
      case Ok(out) =>
        var c := Complaint(parts[k - 1], vals[k - 1], out);
        if c.Some? then Err(c.value) else Ok(out + [vals[k - 1].value])
  }

  /** The stripped comma-separated parts. */
  function PartsOf(s: string): seq<string> { StripAll(Split(s, ',')) }

  function ParseSpec(s: string): Result<seq<int>, SpecError> {
    var parts := PartsOf(s);
    if forall p :: p in parts ==> p == "" then Err(EmptySpec)
    else if "" in parts then Err(EmptyIndex)
    else ReadParts(parts, ReadAll(parts), |parts|)
  }

  method ParseGpuSpec(s: string) returns (r: Result<seq<int>, SpecError>)
    ensures r == ParseSpec(s)
  {
    var parts := PartsOf(s);
    if "" in parts {
      if forall p :: p in parts ==> p == "" {
        return Err(EmptySpec);
      }
      return Err(EmptyIndex);
    }
    ghost var p0 := parts[0];
    assert p0 in parts;
    r := ReadIndices(parts);
  }

  /** The loop of `ParseGpuSpec`. */
  method ReadIndices(parts: seq<string>) returns (r: Result<seq<int>, SpecError>)
    ensures r == ReadParts(parts, ReadAll(parts), |parts|)
  {
    hide ReadInt;
    ghost var vals := ReadAll(parts);
    var out: seq<int> := [];
    var seen: set<int> := {};
    for k := 0 to |parts|
      invariant ReadParts(parts, vals, k) == Ok(out)
      invariant forall i :: i in seen <==> i in out
    {
      var p := parts[k];
      var idx := ReadInt(p);
      assert vals[k] == idx;
      if idx.None? || idx.value < 0 || idx.value in seen {
        BadPartStays(parts, vals, k + 1, |parts|);
        return Err(if idx.None? then NotAnIndex(p)
                   else if idx.value < 0 then Negative(idx.value) else Duplicate(idx.value));
      }
      seen := seen + {idx.value};
      out := out + [idx.value];
    }
    r := Ok(out);
  }

  /** Nothing after a bad part matters. */
  lemma {:induction false} BadPartStays(parts: seq<string>, vals: seq<Option<int>>, k: nat, n: nat)
    requires k <= n <= |parts| == |vals| && ReadParts(parts, vals, k).Err?
    ensures ReadParts(parts, vals, n) == ReadParts(parts, vals, k)
  {
    if k < n {
      BadPartStays(parts, vals, k, n - 1);
    }
  }

  // --- what is accepted -----------------------------------------------------

  /** The first `k` values are pairwise different non-negative indices. */
  ghost predicate DifferentIndices(vals: seq<Option<int>>, k: nat)
    requires k <= |vals|
  {
    && (forall i :: 0 <= i < k ==> vals[i].Some? && vals[i].value >= 0)
    && (forall i, j :: 0 <= i < j < k ==> vals[i] != vals[j])
  }

  lemma {:induction false} ReadPartsExact(parts: seq<string>, vals: seq<Option<int>>, k: nat)
    requires k <= |parts| == |vals|
    ensures ReadParts(parts, vals, k).Ok? <==> DifferentIndices(vals, k)
    ensures ReadParts(parts, vals, k).Ok? ==>
              var out := ReadParts(parts, vals, k).value;
              |out| == k && forall i :: 0 <= i < k ==> vals[i] == Some(out[i])
  {
    if k > 0 {
      ReadPartsExact(parts, vals, k - 1);
      var before := ReadParts(parts, vals, k - 1);
      if before.Ok? && vals[k - 1].Some? && vals[k - 1].value in before.value {
        var i :| 0 <= i < k - 1 && before.value[i] == vals[k - 1].value;
        assert vals[i] == vals[k - 1];
      }
    }
  }

  lemma AcceptedMeansRead(s: string)
    ensures var parts := PartsOf(s);
            ParseSpec(s).Ok? <==> ReadParts(parts, ReadAll(parts), |parts|).Ok?
    ensures var parts := PartsOf(s);
            ParseSpec(s).Ok? ==> ParseSpec(s) == ReadParts(parts, ReadAll(parts), |parts|)
  {
    var parts := PartsOf(s);
    var p0 := parts[0];
    assert p0 in parts;
    if "" in parts {
      var i :| 0 <= i < |parts| && parts[i] == "";
      assert ReadAll(parts)[i].None?;
      ReadPartsExact(parts, ReadAll(parts), |parts|);
    }
  }

  /** A spec is accepted exactly if its comma-separated parts, stripped, read as pairwise
      different non-negative indices; the result is those indices in textual order. */
  lemma AcceptedIff(s: string)
    ensures var vals := ReadAll(PartsOf(s));
            && (ParseSpec(s).Ok? <==> DifferentIndices(vals, |vals|))
            && (ParseSpec(s).Ok? ==>
                  var out := ParseSpec(s).value;
                  |out| == |vals| > 0 && forall i :: 0 <= i < |out| ==> vals[i] == Some(out[i]))
  {
    AcceptedMeansRead(s);
    ReadPartsExact(PartsOf(s), ReadAll(PartsOf(s)), |PartsOf(s)|);
  }

  /** Every accepted list is non-empty, free of repeats and non-negative. */
  lemma AcceptedIsClean(s: string)
    requires ParseSpec(s).Ok?
    ensures var out := ParseSpec(s).value;
            && out != []
            && (forall i :: 0 <= i < |out| ==> out[i] >= 0)
            && (forall i, j :: 0 <= i < j < |out| ==> out[i] != out[j])
  {
    AcceptedIff(s);
  }

  // --- round trip -----------------------------------------------------------

  /** Naturals printed with commas between them. */
  function PrintSpec(ns: seq<nat>): string
    requires ns != []
  {
    if |ns| == 1 then Print(ns[0]) else Print(ns[0]) + "," + PrintSpec(ns[1..])
  }

  function Numerals(ns: seq<nat>): seq<string> {
    seq(|ns|, i requires 0 <= i < |ns| => Print(ns[i]))
  }

  lemma {:induction false} SplitNone(d: string, sep: char)
    requires sep !in d
    ensures Split(d, sep) == [d]
  {
    if d != "" {
      assert d[0] in d;
      SplitNone(d[1..], sep);
      assert [d[0]] + d[1..] == d;
    }
  }

  lemma {:induction false} SplitFirst(d: string, rest: string, sep: char)
    requires sep !in d
    ensures Split(d + [sep] + rest, sep) == [d] + Split(rest, sep)
  {
    if d == "" {
      assert d + [sep] + rest == [sep] + rest;
      assert ([sep] + rest)[1..] == rest;
    } else {
      assert d[0] in d;
      SplitFirst(d[1..], rest, sep);
      var s := d + [sep] + rest;
      assert s[0] == d[0] && s[1..] == d[1..] + [sep] + rest;
      assert [d[0]] + d[1..] == d;
    }
  }

  lemma {:induction false} SplitPrinted(ns: seq<nat>)
    requires ns != []
    ensures Split(PrintSpec(ns), ',') == Numerals(ns)
  {
    NoComma(ns[0]);
    if |ns| == 1 {
      SplitNone(Print(ns[0]), ',');
    } else {
      SplitPrinted(ns[1..]);
      SplitFirst(Print(ns[0]), PrintSpec(ns[1..]), ',');
      assert PrintSpec(ns) == Print(ns[0]) + [','] + PrintSpec(ns[1..]);
      assert [Print(ns[0])] + Numerals(ns[1..]) == Numerals(ns);
    }
  }

  lemma NoComma(n: nat)
    ensures ',' !in Print(n)
  {
  }

  lemma NumeralReads(n: nat)
    ensures D.Strip(Print(n)) == Print(n) && ReadInt(Print(n)) == Some(n)
  {
    ValueOfPrint(n);
    var s := Print(n);
    assert IsDigit(s[0]) && IsDigit(s[|s| - 1]);
  }

  /** What a part reads as: a numeral with or without sign, and nothing else. */
  lemma ReadIntTells(p: string, n: nat)
    ensures ReadInt(Print(n)) == Some(n) && ReadInt("+" + Print(n)) == Some(n) && ReadInt("-" + Print(n)) == Some(0 - n)
    ensures ReadInt(p).Some? <==>
      p != "" && AllDigits(p[1..]) && (IsDigit(p[0]) || ((p[0] == '-' || p[0] == '+') && |p| > 1))
  {
    ValueOfPrint(n);
    assert ("+" + Print(n))[1..] == Print(n) && ("-" + Print(n))[1..] == Print(n);
  }

  /** Why a spec is refused: it is blank throughout, it has a blank part, or its first bad
      part is no numeral, is negative, or repeats an earlier one. */
  lemma RefusalTells(s: string) returns (k: nat)
    requires ParseSpec(s).Err?
    ensures var parts, e := PartsOf(s), ParseSpec(s).error;
            if forall p :: p in parts ==> p == "" then e == EmptySpec
            else if exists p :: p in parts && p == "" then e == EmptyIndex
            else
              && k < |parts| && DifferentIndices(ReadAll(parts), k)
              && (match ReadInt(parts[k])
                  case None => e == NotAnIndex(parts[k])
                  case Some(idx) =>
                    if idx < 0 then e == Negative(idx)
                    else e == Duplicate(idx) && exists i :: 0 <= i < k && ReadInt(parts[i]) == Some(idx))
  {
    var parts := PartsOf(s);
    AcceptedMeansRead(s);
    k := 0;
    if "" !in parts {
      var p0 := parts[0];
      assert p0 in parts;
      k := FirstBad(parts, ReadAll(parts), |parts|);
    }
  }

  lemma {:induction false} FirstBad(parts: seq<string>, vals: seq<Option<int>>, n: nat) returns (k: nat)
    requires n <= |parts| == |vals| && ReadParts(parts, vals, n).Err?
    ensures k < n && DifferentIndices(vals, k)
    ensures var e := ReadParts(parts, vals, n).error;
            match vals[k]
            case None => e == NotAnIndex(parts[k])
            case Some(idx) =>
              if idx < 0 then e == Negative(idx)
              else e == Duplicate(idx) && exists i :: 0 <= i < k && vals[i] == Some(idx)
  {
    k := n - 1;
    ReadPartsExact(parts, vals, k);
    if ReadParts(parts, vals, k).Err? {
      k := FirstBad(parts, vals, k);
    } else if vals[k].Some? && vals[k].value >= 0 {
      var out := ReadParts(parts, vals, k).value;
      var i :| 0 <= i < |out| && out[i] == vals[k].value;
      assert vals[i] == vals[k];
    }
  }

  /** Naturals with white space around them, separated by commas. */
  function PadSpec(ns: seq<nat>, pads: seq<(string, string)>): string
    requires 0 < |ns| == |pads|
  {
    var first := pads[0].0 + Print(ns[0]) + pads[0].1;
    if |ns| == 1 then first else first + "," + PadSpec(ns[1..], pads[1..])
  }

  lemma OnePadded(l: string, n: nat, r: string)
    requires D.Blank(l) && D.Blank(r)
    ensures ',' !in l + Print(n) + r && D.Strip(l + Print(n) + r) == Print(n)
  {
    NoComma(n);
    D.StripIgnoresBlank(l, Print(n), r);
    NumeralReads(n);
  }

  lemma {:induction false} PaddedParts(ns: seq<nat>, pads: seq<(string, string)>)
    requires 0 < |ns| == |pads| && forall p :: p in pads ==> D.Blank(p.0) && D.Blank(p.1)
    ensures PartsOf(PadSpec(ns, pads)) == Numerals(ns)
  {
    hide Print, D.Strip, D.Blank, ReadInt;
    var first := pads[0].0 + Print(ns[0]) + pads[0].1;
    var p0 := pads[0];
    assert p0 in pads;
    OnePadded(p0.0, ns[0], p0.1);
    if |ns| == 1 {
      SplitNone(first, ',');
    } else {
      PaddedParts(ns[1..], pads[1..]);
      var rest := PadSpec(ns[1..], pads[1..]);
      SplitFirst(first, rest, ',');
      assert PadSpec(ns, pads) == first + [','] + rest;
      assert StripAll([first] + Split(rest, ',')) == [D.Strip(first)] + StripAll(Split(rest, ','));
      assert [Print(ns[0])] + Numerals(ns[1..]) == Numerals(ns);
    }
  }

  /** White space around the indices makes no difference. */
  lemma PaddedParses(ns: seq<nat>, pads: seq<(string, string)>)
    requires 0 < |ns| == |pads| && forall p :: p in pads ==> D.Blank(p.0) && D.Blank(p.1)
    requires forall i, j :: 0 <= i < j < |ns| ==> ns[i] != ns[j]
    ensures ParseSpec(PadSpec(ns, pads)) == Ok(ns)
  {
    PaddedParts(ns, pads);
    var vals := ReadAll(PartsOf(PadSpec(ns, pads)));
    forall i | 0 <= i < |ns| ensures vals[i] == Some(ns[i]) {
      NumeralReads(ns[i]);
    }
    assert DifferentIndices(vals, |vals|);
    AcceptedIff(PadSpec(ns, pads));
    SameValues(vals, ns, ParseSpec(PadSpec(ns, pads)).value);
  }

  /** Round trip: distinct naturals, printed and parsed, come back in order. */
  lemma PrintThenParse(ns: seq<nat>)
    requires ns != []
    requires forall i, j :: 0 <= i < j < |ns| ==> ns[i] != ns[j]
    ensures ParseSpec(PrintSpec(ns)) == Ok(ns)
  {
    NumeralsRead(ns);
    var vals := ReadAll(PartsOf(PrintSpec(ns)));
    assert DifferentIndices(vals, |vals|);
    AcceptedIff(PrintSpec(ns));
    SameValues(vals, ns, ParseSpec(PrintSpec(ns)).value);
  }

  lemma SameValues(vals: seq<Option<int>>, ns: seq<int>, out: seq<int>)
    requires |vals| == |ns| == |out|
    requires forall i :: 0 <= i < |ns| ==> vals[i] == Some(ns[i])
    requires forall i :: 0 <= i < |out| ==> vals[i] == Some(out[i])
    ensures out == ns
  {
  }

  lemma NumeralsRead(ns: seq<nat>)
    requires ns != []
    ensures var vals := ReadAll(PartsOf(PrintSpec(ns)));
            |vals| == |ns| && forall i :: 0 <= i < |ns| ==> vals[i] == Some(ns[i])
  {
    SplitPrinted(ns);
    forall i | 0 <= i < |ns| ensures ReadInt(StripAll(Numerals(ns))[i]) == Some(ns[i]) {
      NumeralReads(ns[i]);
    }
  }
}
