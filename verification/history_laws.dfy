/** What the history keeps: ring and file end with the latest entries of the log, the file
    is bounded, writing costs a constant amount per entry, and nothing recorded is lost. */
module HistoryLaws {
  import opened Wrappers
  import opened History

  /** The entries in a queue, in order. */
  function Entries(queue: seq<Item>): seq<HistoryEntry> {
    if queue == [] then [] else
      (if queue[0].Entry? then [queue[0].entry] else []) + Entries(queue[1..])
  }

  lemma EntriesUnfold(queue: seq<Item>)
    requires queue != []
    ensures Entries(queue) == (if queue[0].Entry? then [queue[0].entry] else []) + Entries(queue[1..])
  {
  }

  lemma {:induction false} EntriesAppend(a: seq<Item>, b: seq<Item>)
    ensures Entries(a + b) == Entries(a) + Entries(b)
  {
    if a == [] {
      assert a + b == b && Entries(a) == [];
      return;
    }
    EntriesAppend(a[1..], b);
    EntriesUnfold(a);
    assert Entries(a + b) == (if a[0].Entry? then [a[0].entry] else []) + Entries(a[1..] + b) by {
      EntriesUnfold(a + b);
      assert (a + b)[1..] == a[1..] + b;
    }
    hide Entries;
    ConcatAssoc(if a[0].Entry? then [a[0].entry] else [], Entries(a[1..]), Entries(b));
  }

  lemma SuffixTrans<T>(a: seq<T>, b: seq<T>, c: seq<T>)
    requires Suffix(a, b) && Suffix(b, c)
    ensures Suffix(a, c)
  {
  }

  lemma SuffixAppend<T>(a: seq<T>, b: seq<T>, e: T)
    requires Suffix(a, b)
    ensures Suffix(a + [e], b + [e])
  {
  }

  /** The last `n` entries, or all if there are fewer. */
  lemma LastNSuffix<T>(s: seq<T>, n: nat)
    ensures Suffix(LastN(s, n), s) && |LastN(s, n)| == if |s| < n then |s| else n
  {
  }

  /** Of two suffixes the shorter is a suffix of the longer. */
  lemma SuffixesNest<T>(a: seq<T>, b: seq<T>, s: seq<T>)
    requires Suffix(a, s) && Suffix(b, s) && |a| <= |b|
    ensures Suffix(a, b)
  {
  }

  // --- refinement -----------------------------------------------------------

  /** The counter is right, the ring is a suffix of the file, and the file of the log. */
  ghost predicate Refines(h: Hist) {
    && h.linesOnDisk == |FileLines(h)|
    && |h.ring| <= h.max
    && Suffix(FileLines(h), h.log)
    && Suffix(h.ring, FileLines(h))
  }

  /** The last `n` entries of the log, or all if there are fewer, are in the ring. */
  ghost predicate KeepsLast(h: Hist, n: nat) {
    n <= h.max && Suffix(LastN(h.log, n), h.ring)
  }

  /** The ring is exactly the last `max` entries of the file. */
  predicate InStep(h: Hist) {
    h.ring == LastN(FileLines(h), h.max)
  }

  lemma RingAppend<T>(ring: seq<T>, file: seq<T>, e: T, max: nat)
    requires Suffix(ring, file)
    ensures Suffix(LastN(ring + [e], max), file + [e])
    ensures ring == LastN(file, max) ==> LastN(ring + [e], max) == LastN(file + [e], max)
  {
  }

  lemma LastAppend<T>(log: seq<T>, ring: seq<T>, e: T, n: nat, max: nat)
    requires Suffix(ring, log) && Suffix(LastN(log, n), ring) && n <= max
    ensures Suffix(LastN(log + [e], n), LastN(ring + [e], max))
  {
    LastNSuffix(log + [e], n);
    RingAppend(ring, log, e, max);
    SuffixesNest(LastN(log + [e], n), LastN(ring + [e], max), log + [e]);
  }

  lemma AppendRefines(h: Hist, e: HistoryEntry)
    requires Refines(h)
    ensures Refines(Append(h, e))
    ensures InStep(h) ==> InStep(Append(h, e))
  {
    SuffixAppend(FileLines(h), h.log, e);
    RingAppend(h.ring, FileLines(h), e, h.max);
    LastNSuffix(h.ring + [e], h.max);
    hide Suffix, LastN;
  }

  lemma AppendKeepsLast(h: Hist, e: HistoryEntry, n: nat)
    requires Refines(h) && KeepsLast(h, n)
    ensures KeepsLast(Append(h, e), n)
  {
    SuffixTrans(h.ring, FileLines(h), h.log);
    LastAppend(h.log, h.ring, e, n, h.max);
  }

  lemma CompactsIff(h: Hist, e: HistoryEntry)
    requires h.linesOnDisk == |FileLines(h)|
    ensures MustCompact(Append(h, e)) <==> 5 * (|FileLines(h)| + 1) > 6 * h.max
  {
  }

  lemma CompactRefines(h: Hist, n: nat)
    requires Refines(h)
    ensures Refines(Compact(h)) && InStep(Compact(h)) && (KeepsLast(h, n) ==> KeepsLast(Compact(h), n))
  {
    SuffixTrans(h.ring, FileLines(h), h.log);
  }

  /** One entry through the main loop: it is appended to the log, and to the file behind
      everything already there; only if that takes the file past six fifths of the cap are
      the oldest lines dropped, all but the latest `max` in the ring. */
  lemma HandleRefines(h: Hist, e: HistoryEntry, n: nat)
    requires Refines(h)
    ensures Refines(Handle(h, e)) && Handle(h, e).log == h.log + [e]
    ensures KeepsLast(h, n) ==> KeepsLast(Handle(h, e), n)
    ensures 5 * (|FileLines(h)| + 1) <= 6 * h.max ==> FileLines(Handle(h, e)) == FileLines(h) + [e]
    ensures 5 * (|FileLines(h)| + 1) > 6 * h.max ==> FileLines(Handle(h, e)) == LastN(h.ring + [e], h.max)
    ensures InStep(h) || 5 * (|FileLines(h)| + 1) > 6 * h.max ==> InStep(Handle(h, e))
  {
    var a := Append(h, e);
    CompactsIff(h, e);
    AppendRefines(h, e);
    CompactRefines(a, n);
    if KeepsLast(h, n) {
      AppendKeepsLast(h, e, n);
    }
    hide Refines, KeepsLast, InStep, MustCompact, LastN;
  }

  /** After an entry goes through the main loop the file is within six fifths of the cap,
      whatever it held before. */
  lemma HandledFileBounded(h: Hist, e: HistoryEntry)
    requires Refines(h)
    ensures 5 * |FileLines(Handle(h, e))| <= 6 * h.max
  {
    HandleRefines(h, e, 0);
  }

  /** The drain appends every queued entry once, in order, and cuts nothing. */
  lemma {:induction false} DrainAppendsAll(h: Hist)
    ensures FileLines(Drain(h)) == FileLines(h) + Entries(h.queue)
    ensures Drain(h).log == h.log + Entries(h.queue)
    ensures Drain(h).written == h.written + |Entries(h.queue)|
    ensures Drain(h).linesOnDisk == h.linesOnDisk + |Entries(h.queue)|
    ensures Drain(h).queue == [] && Drain(h).max == h.max && Drain(h).finished == h.finished
    decreases |h.queue|
  {
    if h.queue != [] {
      var rest := h.(queue := h.queue[1..]);
      if h.queue[0].Entry? {
        var e := h.queue[0].entry;
        DrainAppendsAll(Append(rest, e));
        ConcatAssoc(FileLines(h), [e], Entries(rest.queue));
        ConcatAssoc(h.log, [e], Entries(rest.queue));
      } else {
        DrainAppendsAll(rest);
      }
    }
  }

  lemma {:induction false} DrainRefines(h: Hist, n: nat)
    requires Refines(h)
    ensures Refines(Drain(h))
    ensures KeepsLast(h, n) ==> KeepsLast(Drain(h), n)
    ensures InStep(h) ==> InStep(Drain(h))
    decreases |h.queue|
  {
    if h.queue != [] {
      var rest := h.(queue := h.queue[1..]);
      SameFields(h, rest, n);
      hide Refines, KeepsLast, InStep;
      if h.queue[0].Entry? {
        var e := h.queue[0].entry;
        AppendRefines(rest, e);
        if KeepsLast(rest, n) {
          AppendKeepsLast(rest, e, n);
        }
        DrainRefines(Append(rest, e), n);
      } else {
        DrainRefines(rest, n);
      }
    }
  }

  /** The three invariants do not look at the queue. */
  lemma SameFields(h: Hist, k: Hist, n: nat)
    requires k == h.(queue := k.queue, finished := k.finished)
    ensures Refines(k) == Refines(h) && KeepsLast(k, n) == KeepsLast(h, n) && InStep(k) == InStep(h)
  {
  }

  lemma WriteRefines(h: Hist, n: nat)
    requires Refines(h) && h.queue != [] && !h.finished
    ensures Refines(Write(h))
    ensures KeepsLast(h, n) ==> KeepsLast(Write(h), n)
    ensures InStep(h) ==> InStep(Write(h))
  {
    var rest := h.(queue := h.queue[1..]);
    SameFields(h, rest, n);
    hide Refines, KeepsLast, InStep, Handle;
    if h.queue[0].Entry? {
      HandleRefines(rest, h.queue[0].entry, n);
    } else {
      DrainRefines(rest, n);
      SameFields(Drain(rest), Write(h), n);
    }
  }

  /** A turn of the writer moves the entries it handles from the front of the queue to the
      end of the log; the last turn leaves nothing queued and drops nothing from the file. */
  lemma WriteConsumes(h: Hist)
    requires h.queue != [] && !h.finished
    ensures Write(h).log + Entries(Write(h).queue) == h.log + Entries(h.queue)
    ensures Write(h).finished <==> h.queue[0].Sentinel?
    ensures h.queue[0].Entry? ==> Write(h).queue == h.queue[1..] && Write(h).log == h.log + [h.queue[0].entry]
    ensures Write(h).finished ==> Write(h).queue == [] && FileLines(Write(h)) == FileLines(h) + Entries(h.queue)
    ensures Write(h).max == h.max
  {
    DrainAppendsAll(h.(queue := h.queue[1..]));
    if h.queue[0].Entry? {
      assert h.log + Entries(h.queue) == h.log + [h.queue[0].entry] + Entries(h.queue[1..]);
    }
  }

  /** Lowering the cap, or changing it while the whole file fits the old cap, keeps ring
      and file in step; any other raise breaks the agreement. */
  lemma SetMaxInStepIff(h: Hist, n: nat)
    requires InStep(h)
    ensures InStep(SetMax(h, n)) <==> n <= h.max || |FileLines(h)| <= h.max
  {
  }

  /** A cap raised from 10 to 12 on a file of 11 lines: the ring stays at 10 entries, and
      a restart would find 11. */
  lemma RaisedCapDisagrees(e: HistoryEntry)
    ensures var s := Start(Some(seq(11, _ => e)), 10);
            var raised := HistApply(s, DoSetMax(12)).h;
            && InStep(s.h) && !InStep(raised)
            && |raised.ring| == 10 && |Reopened(raised).ring| == 11
  {
  }

  lemma SetMaxRefines(h: Hist, n: nat)
    requires Refines(h)
    ensures Refines(SetMax(h, n))
  {
    LastNSuffix(h.ring, n);
    SuffixTrans(LastN(h.ring, n), h.ring, FileLines(h));
  }

  lemma SetMaxKeepsLast(h: Hist, max: nat, n: nat)
    requires Refines(h) && KeepsLast(h, n)
    ensures KeepsLast(SetMax(h, max), if max < n then max else n)
  {
    SuffixTrans(h.ring, FileLines(h), h.log);
    CutKeepsLast(h.log, h.ring, max, n);
  }

  lemma CutKeepsLast<T>(log: seq<T>, ring: seq<T>, max: nat, n: nat)
    requires Suffix(ring, log) && Suffix(LastN(log, n), ring)
    ensures Suffix(LastN(log, if max < n then max else n), LastN(ring, max))
  {
    hide LastN;
    var m := if max < n then max else n;
    LastNSuffix(log, n);
    LastNSuffix(log, m);
    LastNSuffix(ring, max);
    SuffixTrans(LastN(ring, max), ring, log);
    SuffixesNest(LastN(log, m), LastN(ring, max), log);
  }

  /** The store after a restart with the same cap. */
  function Reopened(h: Hist): Hist {
    LoadFile(Created(h.file, h.max))
  }

  /** A restart rebuilds the identical ring from a file in step. */
  lemma RestartRebuildsRing(h: Hist)
    requires Refines(h) && InStep(h)
    ensures Reopened(h).ring == h.ring && Reopened(h).linesOnDisk == h.linesOnDisk
    ensures InStep(Reopened(h)) && Refines(Reopened(h))
  {
    LastNSuffix(FileLines(h), h.max);
  }

  /** A ring that holds the last `max` entries of the log is in step with the file. */
  lemma FullIsInStep(h: Hist)
    requires Refines(h) && KeepsLast(h, h.max)
    ensures h.ring == LastN(h.log, h.max) && InStep(h)
  {
    SuffixTrans(h.ring, FileLines(h), h.log);
  }

  // --- runs -----------------------------------------------------------------

  datatype HistStep = DoRecord(e: HistoryEntry) | DoStop | DoWrite | DoSetMax(n: nat)

  /** The store and everything recorded. */
  datatype HistSys = HistSys(h: Hist, recorded: seq<HistoryEntry>)

  predicate HistEnabled(s: HistSys, step: HistStep) {
    match step
    case DoWrite => s.h.queue != [] && !s.h.finished
    case DoSetMax(n) => n >= MIN_ENTRIES
    case _ => true
  }

  function HistApply(s: HistSys, step: HistStep): HistSys
    requires HistEnabled(s, step)
  {
    match step
    case DoRecord(e) => HistSys(s.h.(queue := s.h.queue + [Entry(e)]), s.recorded + [e])
    case DoStop => s.(h := s.h.(queue := s.h.queue + [Sentinel]))
    case DoWrite => s.(h := Write(s.h))
    case DoSetMax(n) => s.(h := SetMax(s.h, n))
  }

  ghost predicate IsHistRun(ss: seq<HistSys>, steps: seq<HistStep>) {
    && |ss| == |steps| + 1
    && forall i :: 0 <= i < |steps| ==> HistEnabled(ss[i], steps[i]) && ss[i + 1] == HistApply(ss[i], steps[i])
  }

  /** A store that has just loaded `file`. */
  function Start(file: Option<seq<HistoryEntry>>, max: nat): HistSys {
    HistSys(LoadFile(Created(file, max)), [])
  }

  /** The least cap in force up to state `i`. */
  function LeastCap(ss: seq<HistSys>, i: nat): nat
    requires i < |ss|
  {
    if i == 0 then ss[0].h.max else
      var before := LeastCap(ss, i - 1);
      if ss[i].h.max < before then ss[i].h.max else before
  }

  lemma StepKeepsKnown(s: HistSys, step: HistStep, base: seq<HistoryEntry>)
    requires HistEnabled(s, step) && s.h.log + Entries(s.h.queue) == base + s.recorded
    ensures var s' := HistApply(s, step);
            s'.h.log + Entries(s'.h.queue) == base + s'.recorded
  {
    var s' := HistApply(s, step);
    match step
    case DoRecord(e) =>
      EntriesAppend(s.h.queue, [Entry(e)]);
      assert Entries([Entry(e)]) == [e];
      assert s'.h.log + Entries(s'.h.queue) == s.h.log + Entries(s.h.queue) + [e];
    case DoStop =>
      EntriesAppend(s.h.queue, [Sentinel]);
      assert Entries([Sentinel]) == [];
      assert Entries(s'.h.queue) == Entries(s.h.queue);
    case DoWrite =>
      WriteConsumes(s.h);
    case DoSetMax(n) =>
  }

  lemma StepRefines(s: HistSys, step: HistStep, n: nat)
    requires HistEnabled(s, step) && Refines(s.h) && KeepsLast(s.h, n)
    ensures var s' := HistApply(s, step);
            Refines(s'.h) && KeepsLast(s'.h, if s'.h.max < n then s'.h.max else n)
  {
    var s' := HistApply(s, step);
    match step
    case DoRecord(_) => SameFields(s.h, s'.h, n);
    case DoStop => SameFields(s.h, s'.h, n);
    case DoWrite =>
      WriteConsumes(s.h);
      WriteRefines(s.h, n);
    case DoSetMax(max) =>
      SetMaxRefines(s.h, max);
      SetMaxKeepsLast(s.h, max, n);
  }

  lemma StartRefines(file: Option<seq<HistoryEntry>>, max: nat)
    ensures var s := Start(file, max);
            Refines(s.h) && KeepsLast(s.h, max) && s.h.log == FileLines(s.h) && s.h.queue == []
  {
    LastNSuffix(FileLines(Start(file, max).h), max);
  }

  /** Refinement and no loss over whole runs, with recordings and cap changes anywhere:
      the log followed by what is still queued is the initial file followed by everything
      recorded, in recording order; the file is a suffix of the log and the ring of the
      file, and both keep as many of the latest entries as the least cap so far allows. */
  lemma {:induction false} RunRefines(ss: seq<HistSys>, steps: seq<HistStep>, file: Option<seq<HistoryEntry>>, max: nat, i: nat)
    requires IsHistRun(ss, steps) && i <= |steps| && ss[0] == Start(file, max)
    ensures ss[i].h.log + Entries(ss[i].h.queue) == FileLines(ss[0].h) + ss[i].recorded
    ensures Refines(ss[i].h) && KeepsLast(ss[i].h, LeastCap(ss, i))
  {
    hide Refines, KeepsLast, HistApply, HistEnabled;
    if i == 0 {
      StartRefines(file, max);
    } else {
      RunRefines(ss, steps, file, max, i - 1);
      StepRefines(ss[i - 1], steps[i - 1], LeastCap(ss, i - 1));
      StepKeepsKnown(ss[i - 1], steps[i - 1], FileLines(ss[0].h));
    }
  }

  /** No loss: when the writer finishes, everything recorded by then, also behind the
      sentinel, has been appended to the file exactly once, in recording order. What stood
      behind the sentinel is on file in full, and ring and file end with the latest of all
      entries, as many as the least cap so far allows. */
  lemma FinishedWriterLostNothing(ss: seq<HistSys>, steps: seq<HistStep>, file: Option<seq<HistoryEntry>>, max: nat, i: nat)
    requires IsHistRun(ss, steps) && i < |steps| && ss[0] == Start(file, max)
    requires steps[i].DoWrite? && ss[i + 1].h.finished
    ensures var all, h := FileLines(ss[0].h) + ss[i + 1].recorded, ss[i + 1].h;
            && h.log == all && h.queue == []
            && FileLines(h) == FileLines(ss[i].h) + Entries(ss[i].h.queue)
            && Suffix(LastN(all, LeastCap(ss, i + 1)), h.ring) && Suffix(h.ring, FileLines(h)) && Suffix(FileLines(h), all)
  {
    RunRefines(ss, steps, file, max, i + 1);
    WriteConsumes(ss[i].h);
    assert Entries(ss[i + 1].h.queue) == [];
  }

  /** In every run the file is within six fifths of the cap after each entry that the main
      loop handles. */
  lemma RunFileBounded(ss: seq<HistSys>, steps: seq<HistStep>, file: Option<seq<HistoryEntry>>, max: nat, i: nat)
    requires IsHistRun(ss, steps) && i < |steps| && ss[0] == Start(file, max)
    requires steps[i].DoWrite? && ss[i].h.queue[0].Entry?
    ensures 5 * |FileLines(ss[i + 1].h)| <= 6 * ss[i + 1].h.max
  {
    RunRefines(ss, steps, file, max, i);
    WriteConsumes(ss[i].h);
    var rest := ss[i].h.(queue := ss[i].h.queue[1..]);
    SameFields(ss[i].h, rest, 0);
    HandledFileBounded(rest, ss[i].h.queue[0].entry);
    hide Refines, KeepsLast, Handle;
  }

  /** The cap is not raised up to state `i`. */
  ghost predicate NeverRaised(ss: seq<HistSys>, i: nat)
    requires i < |ss|
  {
    forall k :: 0 <= k < i ==> ss[k + 1].h.max <= ss[k].h.max
  }

  lemma {:induction false} LeastCapIsLast(ss: seq<HistSys>, i: nat)
    requires i < |ss| && NeverRaised(ss, i)
    ensures LeastCap(ss, i) == ss[i].h.max
  {
    if i > 0 {
      LeastCapIsLast(ss, i - 1);
      assert ss[(i - 1) + 1].h.max <= ss[i - 1].h.max;
    }
  }

  /** While the cap is never raised, the ring is exactly the last `max` entries of the log
      and of the file, so a restart at any point rebuilds the identical ring. */
  lemma RunInStep(ss: seq<HistSys>, steps: seq<HistStep>, file: Option<seq<HistoryEntry>>, max: nat, i: nat)
    requires IsHistRun(ss, steps) && i <= |steps| && ss[0] == Start(file, max) && NeverRaised(ss, i)
    ensures ss[i].h.ring == LastN(ss[i].h.log, ss[i].h.max) && InStep(ss[i].h)
    ensures Reopened(ss[i].h).ring == ss[i].h.ring
  {
    RunRefines(ss, steps, file, max, i);
    LeastCapIsLast(ss, i);
    FullIsInStep(ss[i].h);
    RestartRebuildsRing(ss[i].h);
  }

  /** The writer task from one suspension to the next handles the whole queue in order,
      also what stands behind a sentinel, and returns exactly if there was a sentinel. */
  lemma {:induction false} WriteAllHandlesAll(h: Hist, n: nat)
    requires Refines(h) && KeepsLast(h, n) && !h.finished
    ensures var w := WriteAll(h);
            && w.log == h.log + Entries(h.queue) && w.queue == []
            && (w.finished <==> Sentinel in h.queue)
            && Refines(w) && KeepsLast(w, n)
            && (InStep(h) ==> InStep(w))
    decreases |h.queue|
  {
    hide Refines, KeepsLast, InStep, Write;
    if h.queue == [] {
      assert h.log + Entries(h.queue) == h.log;
    } else {
      WriteRefines(h, n);
      WriteConsumes(h);
      if h.queue[0].Sentinel? {
        assert Write(h).log + Entries(Write(h).queue) == Write(h).log;
      } else {
        WriteAllHandlesAll(Write(h), n);
        assert Sentinel in h.queue <==> Sentinel in h.queue[1..];
      }
    }
  }

  // --- cost -----------------------------------------------------------------

  /** Overshoot of the file beyond the cap, weighted. */
  function Potential(h: Hist): nat {
    if h.linesOnDisk <= h.max then 0 else 5 * (h.linesOnDisk - h.max)
  }

  lemma HandleCost(h: Hist, e: HistoryEntry)
    ensures Handle(h, e).written + Potential(Handle(h, e)) <= h.written + Potential(h) + 6
  {
    LastNSuffix(h.ring + [e], h.max);
  }

  lemma WriteCost(h: Hist)
    requires h.queue != [] && !h.finished
    ensures Write(h).max == h.max && |h.log| <= |Write(h).log|
    ensures Write(h).written + Potential(Write(h)) <= h.written + Potential(h) + 6 * (|Write(h).log| - |h.log|)
  {
    var rest := h.(queue := h.queue[1..]);
    if h.queue[0].Entry? {
      HandleCost(rest, h.queue[0].entry);
    } else {
      DrainAppendsAll(rest);
    }
  }

  /** Amortised cost: while the cap stays the same, the lines written to the file, those
      of compactions included, are at most six for each entry appended and five for each
      line by which the file exceeded the cap at the start. */
  lemma {:induction false} AmortisedWriteCost(ss: seq<HistSys>, steps: seq<HistStep>, i: nat)
    requires IsHistRun(ss, steps) && i <= |steps|
    requires forall k :: 0 <= k < i ==> !steps[k].DoSetMax?
    ensures ss[i].h.max == ss[0].h.max && |ss[0].h.log| <= |ss[i].h.log|
    ensures ss[i].h.written + Potential(ss[i].h) <= ss[0].h.written + Potential(ss[0].h) + 6 * (|ss[i].h.log| - |ss[0].h.log|)
    ensures ss[i].h.written - ss[0].h.written <=
            6 * (|ss[i].h.log| - |ss[0].h.log|)
            + 5 * (if ss[0].h.linesOnDisk > ss[0].h.max then ss[0].h.linesOnDisk - ss[0].h.max else 0)
  {
    hide Write;
    if i > 0 {
      AmortisedWriteCost(ss, steps, i - 1);
      if steps[i - 1].DoWrite? {
        WriteCost(ss[i - 1].h);
      }
    }
  }

  /** The same for the writer task from one suspension to the next. */
  lemma {:induction false} WriteAllCost(h: Hist)
    requires !h.finished
    ensures WriteAll(h).written + Potential(WriteAll(h)) <= h.written + Potential(h) + 6 * |Entries(h.queue)|
    decreases |h.queue|
  {
    hide Write;
    if h.queue != [] {
      WriteCost(h);
      WriteConsumes(h);
      assert |Write(h).log| + |Entries(Write(h).queue)| == |h.log| + |Entries(h.queue)|;
      if h.queue[0].Entry? {
        WriteAllCost(Write(h));
      }
    }
  }

  // --- queries --------------------------------------------------------------

  lemma {:induction false} FilterExact(s: seq<HistoryEntry>, q: Query) returns (at: seq<nat>)
    ensures PicksAt(Filter(s, q), s, at)
    ensures forall k :: k in at ==> k < |s| && Matches(s[k], q)
    ensures forall k: nat :: k < |s| && Matches(s[k], q) ==> k in at
  {
    at := [];
    if s != [] {
      var k := |s| - 1;
      at := FilterExact(s[..k], q);
      if Matches(s[k], q) {
        at := at + [k];
      }
    }
  }

  /** Picks out the entries of `s` at increasing positions `at`. */
  ghost predicate PicksAt(items: seq<HistoryEntry>, s: seq<HistoryEntry>, at: seq<nat>) {
    && |at| == |items|
    && (forall i, j :: 0 <= i < j < |at| ==> at[i] < at[j])
    && (forall i :: 0 <= i < |at| ==> at[i] < |s| && items[i] == s[at[i]])
  }

  lemma PicksDrop(items: seq<HistoryEntry>, s: seq<HistoryEntry>, all: seq<nat>, cut: nat)
    requires PicksAt(items, s, all) && cut <= |all|
    ensures PicksAt(items[cut..], s, all[cut..])
  {
  }

  lemma DroppedComeFirst(all: seq<nat>, cut: nat, k: nat, i: nat)
    requires forall i, j :: 0 <= i < j < |all| ==> all[i] < all[j]
    requires cut <= |all| && i < |all| - cut && k in all && k !in all[cut..]
    ensures k < all[cut..][i]
  {
    var j :| 0 <= j < |all| && all[j] == k;
    forall m | cut <= m < |all| ensures all[m] in all[cut..] {
      assert all[cut..][m - cut] == all[m];
    }
  }

  lemma TailPicks(items: seq<HistoryEntry>, s: seq<HistoryEntry>, all: seq<nat>, n: nat)
    requires PicksAt(items, s, all)
    ensures PicksAt(LastN(items, n), s, LastN(all, n))
    ensures forall k :: k in all && k !in LastN(all, n) ==>
              |LastN(all, n)| == n && forall i :: 0 <= i < n ==> k < LastN(all, n)[i]
  {
    if n < |all| {
      var cut := |all| - n;
      PicksDrop(items, s, all, cut);
      forall k, i: nat | k in all && k !in all[cut..] && i < n ensures k < all[cut..][i] {
        DroppedComeFirst(all, cut, k, i);
      }
    }
  }

  /** Not before the cutoff, and of this user and uid, as far as they are given. */
  predicate Wanted(e: HistoryEntry, q: Query) {
    && (q.cutoff.Some? ==> q.cutoff.value <= e.ts)
    && (q.user.Some? ==> q.user.value == e.user)
    && (q.uid.Some? ==> q.uid.value == e.uid)
  }

  /** A query returns ring entries in ring order, all of them wanted, and misses a wanted
      one only if it returns `n` later ones. */
  lemma SelectExact(s: seq<HistoryEntry>, q: Query) returns (at: seq<nat>)
    ensures PicksAt(Select(s, q), s, at)
    ensures forall k :: k in at ==> k < |s| && Wanted(s[k], q)
    ensures forall k: nat :: k < |s| && Wanted(s[k], q) && k !in at ==>
              q.n.Some? && 0 < q.n.value == |at| && forall i :: 0 <= i < |at| ==> k < at[i]
  {
    var all := FilterExact(s, q);
    at := all;
    if q.n.Some? && q.n.value > 0 {
      TailPicks(Filter(s, q), s, all, q.n.value);
      at := LastN(all, q.n.value);
    }
  }
}
