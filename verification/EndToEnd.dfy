/** The two halves together: a stream client that applies what it receives, and a reader that replays a history. */
module EndToEnd {
  import opened Amount
  import L = Ledger
  import opened Integrity
  import opened Replay
  import Wire
  import History
  import opened EventLog
  import Stream
  import LiveTail
  import Recovery
  import Timeline

  /** The log after the first operations is a prefix of the log after all of them. */
  lemma PrefixRun(env: L.Env, ops: seq<L.Op>, k: nat)
    requires L.AdmissibleRun(L.Empty(env), ops) && k <= |ops|
    ensures L.AdmissibleRun(L.Empty(env), ops[..k])
    ensures L.Run(L.Empty(env), ops[..k]).log <= L.Run(L.Empty(env), ops).log
  {
    hide L.Run, L.AdmissibleRun, Fold, ViewOf, Sound;
    var s0 := L.Empty(env);
    assert ops == ops[..k] + ops[k..];
    L.RunSplits(s0, ops[..k], ops[k..]);
    assert Sound(s0) by { EmptySound(env); }
    RunSound(s0, ops[..k]);
    RunTracks(L.Run(s0, ops[..k]), ops[k..]);
  }

  lemma EmptySound(env: L.Env)
    ensures Sound(L.Empty(env))
  {
  }

  lemma FromTheStart(t: Stream.State)
    requires Stream.Safe(t) && Stream.Complete(t) && t.origin == Stream.FromCursor(0)
    ensures |t.frames| <= |t.committed| && t.frames == t.committed[..|t.frames|]
  {
    hide Stream.Safe, Stream.Contiguous;
    if t.committed != [] { assert t.committed[0] in t.committed; }
    assert Stream.Base(t) == 0;
  }

  /** Take any admissible run of requests and any interleaving of its commits, publications and the steps of a client
      that streams from the beginning, with publication in order. Whenever the client has received as many events as
      the first k requests logged, applying their payloads as logged has made it an exact mirror of the tables after
      those k requests; and so has applying them as received, if the extension values of those requests survive the
      decoding on the way. Live with nothing left in flight, it mirrors the tables as they are. */
  lemma StreamMirrorsLedger(env: L.Env, ops: seq<L.Op>, run: seq<Stream.Action>, k: nat)
    requires L.AdmissibleRun(L.Empty(env), ops) && k <= |ops|
    requires Stream.Possible(Stream.Idle, run) && forall a :: a in run ==> Stream.InOrder(a)
    requires var t := Stream.After(Stream.Idle, run);
             t.origin == Stream.FromCursor(0) && DataOf(t.committed) == L.Run(L.Empty(env), ops).log
    ensures var t := Stream.After(Stream.Idle, run);
            && (|t.frames| == |L.Run(L.Empty(env), ops[..k]).log| ==> Mirrors(env, DataOf(t.frames), ops[..k]))
            && (t.phase.Live? && t.open && t.queue == [] && t.pending == [] ==> Mirrors(env, DataOf(t.frames), ops))
  {
    hide Stream.After, Stream.Safe, Stream.Complete, Stream.Possible, Stream.InOrder, L.Run, L.AdmissibleRun,
        Mirrors, DataOf;
    var t := Stream.After(Stream.Idle, run);
    Stream.IdleInvariant();
    Stream.StreamComplete(Stream.Idle, run);
    FromTheStart(t);
    PrefixRun(env, ops, k);
    LogMirrors(env, ops[..k]);
    LogMirrors(env, ops);
    DataOfPrefix(t.committed, |t.frames|);
    DataLength(t.committed);
    var log, part := L.Run(L.Empty(env), ops).log, L.Run(L.Empty(env), ops[..k]).log;
    assert part == log[..|part|];
    assert |t.frames| == |part| ==> DataOf(t.frames) == part;
    assert t.frames == t.committed[..|t.frames|];
    if t.phase.Live? && t.open && t.queue == [] && t.pending == [] { Drained(t); }
  }

  /** The payloads rebuild the tables that a run of requests leaves: as logged, and, when the requests' extension values
      survive decoding, as received. */
  ghost predicate Mirrors(env: L.Env, payloads: seq<L.Data>, ops: seq<L.Op>) {
    var nothing, tables := View(map[], map[]), ViewOf(L.Run(L.Empty(env), ops));
    && Fold(nothing, payloads) == tables
    && ((forall op :: op in ops ==> Wire.LosslessOp(env.codec, op)) ==>
          Fold(nothing, Wire.Delivered(env.codec, payloads)) == tables)
  }

  lemma LogMirrors(env: L.Env, ops: seq<L.Op>)
    requires L.AdmissibleRun(L.Empty(env), ops)
    ensures Mirrors(env, L.Run(L.Empty(env), ops).log, ops)
  {
    hide L.Run, L.AdmissibleRun, Fold, ViewOf, Wire.LosslessOp, Wire.Delivered;
    EventSourcing(env, ops);
    if forall op :: op in ops ==> Wire.LosslessOp(env.codec, op) { Wire.EventSourcingOverWire(env, ops); }
  }

  /** Without any order of publication: once live with nothing in flight, on a connection that picked up where what
      the client had left off, the client has every event, and so a mirror of the tables, if and (for the events)
      only if what arrived after the replay arrived in ascending order. */
  lemma AscendingArrivalsMirror(env: L.Env, ops: seq<L.Op>, run: seq<Stream.Action>)
    requires L.AdmissibleRun(L.Empty(env), ops)
    requires Stream.Possible(Stream.Idle, run) && forall a :: a in run ==> !a.Prune?
    requires var t := Stream.After(Stream.Idle, run);
             && DataOf(t.committed) == L.Run(L.Empty(env), ops).log
             && t.phase.Live? && t.open && !t.past.tail && t.queue == [] && t.pending == []
             && t.past.carried + Select(t.committed, t.past.resumedAt, EVERYTHING) == t.committed
    ensures var t := Stream.After(Stream.Idle, run);
            var inOrder := Ascending(Select(t.past.arrived, t.past.joined, EVERYTHING));
            && (t.frames == t.committed <==> inOrder)
            && (inOrder ==> Mirrors(env, DataOf(t.frames), ops))
  {
    hide Stream.After, Stream.Safe, Stream.Possible, L.Run, L.AdmissibleRun, Mirrors, DataOf, Select, Ascending;
    Stream.IdleInvariant();
    LiveTail.IdleFed();
    LiveTail.TailExact(Stream.Idle, run);
    LogMirrors(env, ops);
  }

  lemma DataOfPrefix(events: seq<Event>, n: nat)
    requires n <= |events|
    ensures DataOf(events[..n]) == DataOf(events)[..n]
  {
  }

  lemma Drained(t: Stream.State)
    requires t.origin == Stream.FromCursor(0) && t.frames == t.committed[Stream.Base(t)..]
    requires |t.frames| <= |t.committed| && t.frames == t.committed[..|t.frames|]
    requires Stream.Safe(t) && Stream.Complete(t)
    ensures t.frames == t.committed
  {
    hide Stream.Safe, Stream.Contiguous;
    if t.committed != [] { assert t.committed[0] in t.committed; }
    assert Stream.Base(t) == 0;
  }

  /** Such runs there are: whatever was requested, a client that streams from the beginning can end up live, with
      nothing in flight, and a mirror of the tables. */
  lemma MirrorIsReached(env: L.Env, ops: seq<L.Op>) returns (run: seq<Stream.Action>)
    requires L.AdmissibleRun(L.Empty(env), ops)
    ensures Stream.Possible(Stream.Idle, run) && forall a :: a in run ==> Stream.InOrder(a)
    ensures var t := Stream.After(Stream.Idle, run);
            && t.origin == Stream.FromCursor(0) && DataOf(t.committed) == L.Run(L.Empty(env), ops).log
            && t.phase.Live? && t.open && t.queue == [] && t.pending == []
            && t.frames == t.committed && Mirrors(env, DataOf(t.frames), ops)
  {
    hide L.Run, L.AdmissibleRun, Mirrors, Recovery.Goes, Stream.Safe, Stream.Step, Select, DataOf;
    var log := L.Run(L.Empty(env), ops).log;
    var events := Numbered(log);
    var s := Committed(events);
    var t := Recovery.CatchesUp(s);
    AllSelected(events);
    run := Recovery.FromCommit(events, s, t, events);
    NumberedData(log);
    LogMirrors(env, ops);
  }

  /** The events of a log, numbered from 1. */
  function Numbered(log: seq<L.Data>): (events: seq<Event>)
    ensures |events| == |log|
    ensures Ascending(events) && forall e :: e in events ==> e.sequence > 0
  {
    seq(|log|, i requires 0 <= i < |log| => Event(i + 1, 0, log[i]))
  }

  lemma NumberedData(log: seq<L.Data>)
    ensures DataOf(Numbered(log)) == log
  {
  }

  lemma Committed(events: seq<Event>) returns (s: Stream.State)
    requires Ascending(events) && forall e :: e in events ==> e.sequence > 0
    ensures Stream.Enabled(Stream.Idle, Stream.Commit(events))
    ensures s == Stream.Step(Stream.Idle, Stream.Commit(events)) && Stream.Safe(s)
    ensures s.stored == s.committed == events && s.origin == Stream.FromCursor(0) && s.frames == [] && s.lastSent == 0
  {
    assert [] + events == events;
    Stream.IdleInvariant();
    s := Stream.Step(Stream.Idle, Stream.Commit(events));
    Stream.StepSafe(Stream.Idle, Stream.Commit(events));
  }

  lemma AllSelected(events: seq<Event>)
    requires forall e :: e in events ==> e.sequence > 0
    ensures Select(events, 0, EVERYTHING) == events
  {
    LiveTail.NewestSelected(events, 0);
  }

  // --- history ---

  /** The rows of a transaction's history as they are read back: `show` is the decoding of a stored snapshot. */
  ghost predicate Stores(rows: seq<Timeline.VersionRow>, versions: seq<L.Version>, show: L.Snapshot -> Timeline.Shot) {
    |rows| == |versions| && forall i :: 0 <= i < |rows| ==> rows[i].data == Some(show(versions[i].snapshot))
  }

  /** While history agrees with the rows, replaying the diffs of a transaction's history ends at its current row. */
  lemma HistoryEndsAtRow(s: L.Ledger, id: string, rows: seq<Timeline.VersionRow>, history: seq<Timeline.Entry>,
                         show: L.Snapshot -> Timeline.Shot)
    requires History.Agrees(s) && id in s.txns && id in s.versions && s.versions[id] != []
    requires Stores(rows, s.versions[id], show) && Timeline.IsHistory(history, rows)
    ensures Timeline.Replayed(history, |history|) == Timeline.PlainOf(show(L.Snap(s.env.codec, s.txns[id])))
  {
    hide Timeline.Replayed, Timeline.PlainOf, Timeline.DiffShots;
    Timeline.HistoryReplays(history, rows, |rows|);
    var last := |rows| - 1;
    assert history[last] == Timeline.EntryAt(rows, last);
    assert History.Latest(s, id) == L.Snap(s.env.codec, s.txns[id]);
  }
}
