/** The event history: a bounded ring in memory, an append-only file that is compacted
    when it overshoots, and a queue between the recorders and the single writer
    (src/ocp/history.py). */
module History {
  import opened Wrappers

  /** Free-text notes and error details are not part of the model. */
  datatype HistoryEntry = HistoryEntry(ts: real, uid: int, user: string, cmd: string, gpus: seq<int>, ok: bool)

  /** Queue items; `Sentinel` is the `None` that `stop_writer` puts. */
  datatype Item = Entry(entry: HistoryEntry) | Sentinel

  const MIN_ENTRIES := 10

  function LastN<T>(s: seq<T>, n: nat): seq<T> {
    if |s| <= n then s else s[|s| - n..]
  }

  ghost predicate Suffix<T>(a: seq<T>, b: seq<T>) {
    |a| <= |b| && a == b[|b| - |a|..]
  }

  /** `int(max * 1.2)`. */
  function Threshold(max: nat): nat { 6 * max / 5 }

  /** The store: the cap, the ring, the line counter, the file and the queue; `finished`
      once the writer has returned. For the record, `log` is what the file held when it
      was loaded followed by every entry appended to it since, and `written` counts the
      lines written to it. */
  datatype Hist = Hist(
    max: nat,
    ring: seq<HistoryEntry>,
    linesOnDisk: nat,
    file: Option<seq<HistoryEntry>>,
    queue: seq<Item>,
    finished: bool,
    log: seq<HistoryEntry>,
    written: nat)

  function FileLines(h: Hist): seq<HistoryEntry> {
    if h.file.Some? then h.file.value else []
  }

  // --- the steps ------------------------------------------------------------

  /** `_append_to_disk` after the ring append. */
  function Append(h: Hist, e: HistoryEntry): Hist {
    h.(ring := LastN(h.ring + [e], h.max), file := Some(FileLines(h) + [e]), linesOnDisk := h.linesOnDisk + 1,
       log := h.log + [e], written := h.written + 1)
  }

  predicate MustCompact(h: Hist) { h.linesOnDisk > Threshold(h.max) }

  function Compact(h: Hist): Hist {
    h.(file := Some(h.ring), linesOnDisk := |h.ring|, written := h.written + |h.ring|)
  }

  /** One entry through the writer's main loop. */
  function Handle(h: Hist, e: HistoryEntry): Hist {
    var appended := Append(h, e);
    if MustCompact(appended) then Compact(appended) else appended
  }

  /** The final drain: appends without compaction, sentinels skipped. */
  function Drain(h: Hist): Hist
    decreases |h.queue|
  {
    if h.queue == [] then h else
      var rest := h.(queue := h.queue[1..]);
      match h.queue[0]
      case Sentinel => Drain(rest)
      case Entry(e) => Drain(Append(rest, e))
  }

  /** One turn of the writer: an entry through the main loop, or a sentinel and with it
      the drain, which does not suspend. */
  function Write(h: Hist): Hist
    requires h.queue != [] && !h.finished
  {
    var rest := h.(queue := h.queue[1..]);
    match h.queue[0]
    case Entry(e) => Handle(rest, e)
    case Sentinel => Drain(rest).(finished := true)
  }

  /** The writer from one suspension to the next: it waits only on an empty queue, so
      nobody records meanwhile. */
  function WriteAll(h: Hist): Hist
    requires !h.finished
    decreases |h.queue|
  {
    if h.queue == [] then h
    else if h.queue[0].Sentinel? then Write(h)
    else WriteAll(Write(h))
  }

  function SetMax(h: Hist, n: nat): Hist {
    h.(max := n, ring := LastN(h.ring, n))
  }

  function LoadFile(h: Hist): Hist {
    if h.file.None? then h.(file := Some([]), linesOnDisk := 0, log := [])
    else h.(linesOnDisk := |h.file.value|, ring := LastN(h.file.value, h.max), log := h.file.value)
  }

  /** A store just created on `file`. */
  function Created(file: Option<seq<HistoryEntry>>, max: nat): Hist {
    Hist(max, [], 0, file, [], false, [], 0)
  }

  // --- queries --------------------------------------------------------------

  datatype Query = Query(n: Option<int>, cutoff: Option<real>, user: Option<string>, uid: Option<int>)

  const ANY := Query(None, None, None, None)

  predicate Matches(e: HistoryEntry, q: Query) {
    && (q.cutoff.Some? ==> e.ts >= q.cutoff.value)
    && (q.user.Some? ==> e.user == q.user.value)
    && (q.uid.Some? ==> e.uid == q.uid.value)
  }

  function Filter(s: seq<HistoryEntry>, q: Query): seq<HistoryEntry> {
    if s == [] then [] else
      var k := |s| - 1;
      Filter(s[..k], q) + if Matches(s[k], q) then [s[k]] else []
  }

  /** The latest `n` matching entries, or all of them. */
  function Select(s: seq<HistoryEntry>, q: Query): seq<HistoryEntry> {
    var items := Filter(s, q);
    if q.n.Some? && q.n.value > 0 then LastN(items, q.n.value) else items
  }

  lemma {:induction false} FilterTwice(s: seq<HistoryEntry>, p: Query, q: Query, both: Query)
    requires forall e :: Matches(e, both) <==> Matches(e, p) && Matches(e, q)
    ensures Filter(Filter(s, p), q) == Filter(s, both)
  {
    if s != [] {
      var k := |s| - 1;
      FilterTwice(s[..k], p, q, both);
      var kept := Filter(s[..k], p);
      if Matches(s[k], p) {
        assert (kept + [s[k]])[..|kept|] == kept;
        assert Filter(kept + [s[k]], q) == Filter(kept, q) + (if Matches(s[k], q) then [s[k]] else []);
      } else {
        assert Filter(s, p) == kept;
      }
    }
  }

  lemma {:induction false} SameFilter(s: seq<HistoryEntry>, p: Query, q: Query)
    requires forall e :: Matches(e, p) <==> Matches(e, q)
    ensures Filter(s, p) == Filter(s, q)
  {
    if s != [] {
      SameFilter(s[..|s| - 1], p, q);
    }
  }

  lemma {:induction false} FilterNothing(s: seq<HistoryEntry>)
    ensures Filter(s, ANY) == s
  {
    if s != [] {
      FilterNothing(s[..|s| - 1]);
    }
  }

  class HistoryStore {
    var max: nat
    var ring: seq<HistoryEntry>
    var linesOnDisk: nat
    var file: Option<seq<HistoryEntry>>
    var queue: seq<Item>
    var finished: bool
    ghost var log: seq<HistoryEntry>
    ghost var written: nat

    ghost function View(): Hist reads this {
      Hist(max, ring, linesOnDisk, file, queue, finished, log, written)
    }

    constructor (file: Option<seq<HistoryEntry>>, maxEntries: nat)
      ensures View() == Created(file, maxEntries)
    {
      max, ring, linesOnDisk := maxEntries, [], 0;
      this.file, queue, finished := file, [], false;
      log, written := [], 0;
    }

    method SetMaxEntries(n: int) returns (ok: bool)
      modifies this
      ensures ok <==> n >= 10
      ensures View() == if ok then SetMax(old(View()), n) else old(View())
    {
      if n < MIN_ENTRIES {
        return false;
      }
      ring := LastN(ring, n);
      max := n;
      ok := true;
    }

    method Load()
      modifies this
      ensures View() == LoadFile(old(View()))
    {
      if file.None? {
        file := Some([]);
        linesOnDisk := 0;
        log := [];
        return;
      }
      var loaded := file.value;
      linesOnDisk := |loaded|;
      if |loaded| > max {
        loaded := loaded[|loaded| - max..];
      }
      ring := loaded;
      log := file.value;
    }

    method Record(ts: real, uid: int, user: string, cmd: string, gpus: seq<int>, ok: bool)
      modifies this`queue
      ensures queue == old(queue) + [Entry(HistoryEntry(ts, uid, user, cmd, gpus, ok))]
    {
      queue := queue + [Entry(HistoryEntry(ts, uid, user, cmd, gpus, ok))];
    }

    /** First segment of `stop_writer`; the other waits for the writer to return. */
    method StopWriter()
      modifies this`queue
      ensures queue == if finished then old(queue) else old(queue) + [Sentinel]
    {
      if finished {
        return;
      }
      queue := queue + [Sentinel];
    }

    method AppendToDisk(e: HistoryEntry)
      modifies this`file, this`linesOnDisk, this`log, this`written
      ensures file == Some((if old(file).Some? then old(file).value else []) + [e])
      ensures linesOnDisk == old(linesOnDisk) + 1
      ensures log == old(log) + [e] && written == old(written) + 1
    {
      file := Some((if file.Some? then file.value else []) + [e]);
      linesOnDisk := linesOnDisk + 1;
      log, written := log + [e], written + 1;
    }

    method CompactFile()
      modifies this`file, this`linesOnDisk, this`written
      ensures View() == Compact(old(View()))
    {
      var data: seq<HistoryEntry> := [];
      for i := 0 to |ring|
        invariant data == ring[..i] && written == old(written) + i
      {
        data := data + [ring[i]];
        written := written + 1;
      }
      assert ring[..|ring|] == ring;
      file := Some(data);
      linesOnDisk := |ring|;
    }

    /** The writer task until it waits on an empty queue or returns. */
    method RunWriter()
      requires !finished
      modifies this
      ensures View() == WriteAll(old(View()))
    {
      while queue != []
        invariant !finished && WriteAll(View()) == WriteAll(old(View()))
        decreases |queue|
      {
        ghost var before := View();
        var item := queue[0];
        queue := queue[1..];
        if item.Sentinel? {
          DrainQueue();
          assert View() == Write(before);
          return;
        }
        HandleEntry(item.entry);
        assert View() == Write(before);
      }
    }

    /** One entry in the main loop of the writer. */
    method HandleEntry(e: HistoryEntry)
      modifies this
      ensures View() == Handle(old(View()), e)
    {
      ring := LastN(ring + [e], max);
      AppendToDisk(e);
      if linesOnDisk > Threshold(max) {
        CompactFile();
      }
    }

    /** The drain with which the writer ends. */
    method DrainQueue()
      modifies this
      ensures View() == Drain(old(View())).(finished := true)
    {
      while queue != []
        invariant Drain(View()) == Drain(old(View())) && finished == old(finished)
        decreases |queue|
      {
        var item := queue[0];
        queue := queue[1..];
        if item.Entry? {
          ring := LastN(ring + [item.entry], max);
          AppendToDisk(item.entry);
        }
      }
      finished := true;
    }

    method RunQuery(n: Option<int>, cutoff: Option<real>, user: Option<string>, uid: Option<int>)
      returns (items: seq<HistoryEntry>)
      ensures items == Select(ring, Query(n, cutoff, user, uid))
    {
      items := ring;
      ghost var q := ANY;
      FilterNothing(ring);
      if cutoff.Some? {
        FilterTwice(ring, q, ANY.(cutoff := cutoff), q.(cutoff := cutoff));
        items, q := Filter(items, ANY.(cutoff := cutoff)), q.(cutoff := cutoff);
      }
      if user.Some? {
        FilterTwice(ring, q, ANY.(user := user), q.(user := user));
        items, q := Filter(items, ANY.(user := user)), q.(user := user);
      }
      if uid.Some? {
        FilterTwice(ring, q, ANY.(uid := uid), q.(uid := uid));
        items, q := Filter(items, ANY.(uid := uid)), q.(uid := uid);
      }
      SameFilter(ring, q, Query(n, cutoff, user, uid));
      if n.Some? && n.value > 0 {
        items := LastN(items, n.value);
      }
    }
  }
}
