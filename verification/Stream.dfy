/** The live event stream as a protocol: commit, publish, subscribe, replay, follow, drop, reconnect.
    Every interleaving of these steps is a run. */
module Stream {
  import opened EventLog

  const SUBSCRIBER_BUFFER := 64
  const REPLAY_PAGE := 500

  /** Where the handler is: not connected, about to read a page, writing the rest of a page (`full` if the page
      was), or following the bus. */
  datatype Phase = Offline | Paging | Writing(rows: seq<Event>, full: bool) | Live

  /** What the client asked for first: everything after a cursor, or only what is published from now on. */
  datatype Origin = FromCursor(cursor: nat) | FromNow(position: nat)

  /** What is remembered of the current connection: how long the log was when it subscribed, what its client had,
      the cursor it presented (`tail` if none), what arrived on its channel, and where replay left off. */
  datatype Past = Past(
    subscribedAt: nat, carried: seq<Event>, resumedAt: nat, tail: bool, arrived: seq<Event>, joined: nat,
    replayed: seq<Event>)

  /** One client of the stream. `committed` is every event ever committed, `stored` what pruning left of it,
      `pending` the committed events no publisher has handed to the bus yet. `queue` and `open` are the
      subscriber's channel. `frames` is what the client has received since it started, across reconnects.
      `origin`, `head` (how many events the channel was fed or skipped before its head) and `past` only record
      what happened; no step depends on them but `Resume`, which needs a cursor. */
  datatype State = State(
    committed: seq<Event>, stored: seq<Event>, pending: seq<Event>,
    queue: seq<Event>, open: bool, phase: Phase, lastSent: nat, frames: seq<Event>,
    origin: Origin, head: nat, past: Past)

  datatype Action =
    | Commit(events: seq<Event>)
    | Publish(index: nat)
    | Prune(cutoff: int)
    | Start(after: nat)
    | StartNow
    | Resume
    | ReadStored
    | WriteRow
    | EndPage
    | Receive
    | Closed
    | Disconnect
    | CloseBus

  ghost predicate Enabled(s: State, a: Action) {
    match a
    case Commit(events) => Ascending(s.committed + events) && forall e :: e in events ==> e.sequence > 0
    case Publish(i) => i < |s.pending|
    case Start(_) => s.phase.Offline?
    case StartNow => s.phase.Offline?
    case Resume => s.phase.Offline? && (s.frames != [] || s.origin.FromCursor?)
    case ReadStored => s.phase.Paging?
    case WriteRow => s.phase.Writing? && s.phase.rows != []
    case EndPage => s.phase.Writing? && s.phase.rows == []
    case Receive => s.phase.Live? && s.queue != []
    case Closed => s.phase.Live? && s.queue == [] && !s.open
    case Disconnect => !s.phase.Offline?
    case _ => true
  }

  function Remove(xs: seq<Event>, i: nat): seq<Event>
    requires i < |xs|
  {
    xs[..i] + xs[i + 1..]
  }

  function KeepFrom(rows: seq<Event>, cutoff: int): seq<Event> {
    if rows == [] then [] else (if rows[0].at < cutoff then [] else [rows[0]]) + KeepFrom(rows[1..], cutoff)
  }

  function Position(s: State): nat { if |s.pending| <= |s.committed| then |s.committed| - |s.pending| else 0 }

  function Connect(s: State, phase: Phase): State {
    s.(queue := [], open := true, phase := phase, head := Position(s),
       past := Past(|s.committed|, s.frames, s.lastSent, phase.Live?, [], s.lastSent, s.frames))
  }

  function Joined(s: State): State { s.(phase := Live, past := s.past.(joined := s.lastSent, replayed := s.frames)) }

  function Step(s: State, a: Action): State
    requires Enabled(s, a)
  {
    match a
    case Commit(events) =>
      s.(committed := s.committed + events, stored := s.stored + events, pending := s.pending + events)
    case Publish(i) =>
      var e := s.pending[i];
      var s' := s.(pending := Remove(s.pending, i));
      if !s.open then s'
      else if |s.queue| < SUBSCRIBER_BUFFER
          then s'.(queue := s.queue + [e], past := s.past.(arrived := s.past.arrived + [e]))
      else s'.(open := false)
    case Prune(cutoff) => s.(stored := KeepFrom(s.stored, cutoff))
    case Start(after) => Connect(s.(lastSent := after, frames := [], origin := FromCursor(after)), Paging)
    case StartNow => Connect(s.(lastSent := 0, frames := [], origin := FromNow(Position(s))), Live)
    case Resume => Connect(s, Paging)
    case ReadStored =>
      var rows := Take(Select(s.stored, s.lastSent, EVERYTHING), REPLAY_PAGE);
      s.(phase := Writing(rows, |rows| >= REPLAY_PAGE))
    case WriteRow =>
      var row := s.phase.rows[0];
      s.(frames := s.frames + [row], lastSent := row.sequence, phase := s.phase.(rows := s.phase.rows[1..]))
    case EndPage =>
      if s.phase.full then s.(phase := Paging) else Joined(s)
    case Receive =>
      var e := s.queue[0];
      var s' := s.(queue := s.queue[1..], head := s.head + 1);
      if e.sequence <= s.lastSent then s' else s'.(frames := s.frames + [e], lastSent := e.sequence)
    case Closed => s.(phase := Offline)
    case Disconnect => s.(phase := Offline, queue := [], open := false)
    case CloseBus => s.(open := false)
  }

  const Idle := State([], [], [], [], false, Offline, 0, [], FromCursor(0), 0, Past(0, [], 0, false, [], 0, []))

  ghost predicate Possible(s: State, run: seq<Action>)
    decreases |run|
  {
    run == [] || (Enabled(s, run[0]) && Possible(Step(s, run[0]), run[1..]))
  }

  ghost function After(s: State, run: seq<Action>): State
    requires Possible(s, run)
    decreases |run|
  {
    if run == [] then s else After(Step(s, run[0]), run[1..])
  }

  // --- safety, with no assumption on the bus or on pruning ---

  ghost predicate From(events: seq<Event>, committed: seq<Event>) { forall e :: e in events ==> e in committed }

  function FirstCursor(s: State): nat { if s.origin.FromCursor? then s.origin.cursor else 0 }

  ghost predicate Safe(s: State) {
    && Ascending(s.committed) && Ascending(s.stored) && Ascending(s.frames)
    && From(s.stored, s.committed) && From(s.pending, s.committed) && From(s.queue, s.committed)
    && From(s.frames, s.committed)
    && (forall e :: e in s.frames ==> e.sequence > FirstCursor(s))
    && s.lastSent == NextCursor(s.frames, FirstCursor(s))
    && (s.phase.Writing? ==> Ascending(s.phase.rows) && From(s.phase.rows, s.committed)
                             && forall e :: e in s.phase.rows ==> e.sequence > s.lastSent)
  }

  lemma {:induction false} KeepFromSorted(rows: seq<Event>, cutoff: int)
    requires Ascending(rows)
    ensures Ascending(KeepFrom(rows, cutoff)) && From(KeepFrom(rows, cutoff), rows)
  {
    if rows != [] {
      KeepFromSorted(rows[1..], cutoff);
      var rest := KeepFrom(rows[1..], cutoff);
      forall e | e in rest ensures rows[0].sequence < e.sequence {
        var i :| 0 <= i < |rows[1..]| && rows[1..][i] == e;
        assert rows[i + 1] == e;
      }
      AscendingHead(rows[0], rest);
      assert [] + rest == rest;
    }
  }

  /** Sending an event above the last one sent keeps the frames ordered and the cursor at the end. */
  lemma SendKeepsOrder(frames: seq<Event>, first: nat, e: Event)
    requires Ascending(frames) && (forall x :: x in frames ==> x.sequence > first)
    requires e.sequence > NextCursor(frames, first)
    ensures Ascending(frames + [e]) && (forall x :: x in frames + [e] ==> x.sequence > first)
    ensures NextCursor(frames + [e], first) == e.sequence
  {
    if frames != [] { assert frames[|frames| - 1] in frames; }
  }

  lemma TakeAscends(rows: seq<Event>, n: nat)
    requires Ascending(rows)
    ensures Ascending(Take(rows, n)) && From(Take(rows, n), rows)
  {
  }

  lemma ReceiveSafe(s: State)
    requires Safe(s) && Enabled(s, Receive)
    ensures Safe(Step(s, Receive))
  {
    if s.queue[0].sequence > s.lastSent { SendKeepsOrder(s.frames, FirstCursor(s), s.queue[0]); }
  }

  lemma ReadSafe(s: State)
    requires Safe(s) && Enabled(s, ReadStored)
    ensures Safe(Step(s, ReadStored))
  {
    hide Select, Take, Ascending;
    SelectAscends(s.stored, s.lastSent, EVERYTHING);
    TakeAscends(Select(s.stored, s.lastSent, EVERYTHING), REPLAY_PAGE);
  }

  lemma SendSafe(s: State)
    requires Safe(s) && Enabled(s, WriteRow)
    ensures Safe(Step(s, WriteRow))
  {
    hide Ascending;
    SendKeepsOrder(s.frames, FirstCursor(s), s.phase.rows[0]);
    WriteRowSafe(s);
  }

  lemma PublishSafe(s: State, i: nat)
    requires Safe(s) && Enabled(s, Publish(i))
    ensures Safe(Step(s, Publish(i)))
  {
    hide Ascending;
  }

  lemma StepSafe(s: State, a: Action)
    requires Safe(s) && Enabled(s, a)
    ensures Safe(Step(s, a))
  {
    hide Select, KeepFrom, Take, Ascending;
    match a {
      case Prune(cutoff) => KeepFromSorted(s.stored, cutoff);
      case ReadStored => ReadSafe(s);
      case WriteRow => SendSafe(s);
      case Receive => ReceiveSafe(s);
      case Commit(events) => CommitSafe(s, events);
      case Publish(i) => PublishSafe(s, i);
      case Start(_) => assert Ascending([]) by { NothingAscends(); }
      case StartNow => assert Ascending([]) by { NothingAscends(); }
      case _ =>
    }
  }

  lemma NothingAscends()
    ensures Ascending([])
  {
  }

  lemma CommitSafe(s: State, events: seq<Event>)
    requires Safe(s) && Enabled(s, Commit(events))
    ensures Safe(Step(s, Commit(events)))
  {
    var all, stored := s.committed + events, s.stored + events;
    forall i, j | 0 <= i < j < |stored| ensures stored[i].sequence < stored[j].sequence {
      if i < |s.stored| <= j {
        assert s.stored[i] in s.stored;
        var k :| 0 <= k < |s.committed| && s.committed[k] == s.stored[i];
        assert all[k] == s.stored[i] && all[|s.committed| + j - |s.stored|] == stored[j];
      } else if i >= |s.stored| {
        assert all[|s.committed| + i - |s.stored|] == stored[i] && all[|s.committed| + j - |s.stored|] == stored[j];
      }
    }
  }

  lemma WriteRowSafe(s: State)
    requires Safe(s) && Enabled(s, WriteRow)
    ensures var rows := s.phase.rows[1..];
            Ascending(rows) && From(rows, s.committed)
                && forall e :: e in rows ==> e.sequence > s.phase.rows[0].sequence
  {
    var rows := s.phase.rows;
    forall e | e in rows[1..] ensures e in rows && e.sequence > rows[0].sequence {
      var i :| 0 <= i < |rows[1..]| && rows[1..][i] == e;
      assert rows[i + 1] == e;
    }
  }

  /** Whatever the order of publication, and through drops, failed writes, reconnects and pruning: the frames a
      client has received strictly increase, so none repeats, and each is a committed event after its cursor. */
  lemma {:induction false} StreamSafe(s: State, run: seq<Action>)
    requires Safe(s) && Possible(s, run)
    ensures Safe(After(s, run))
    decreases |run|
  {
    hide Safe, Step;
    if run != [] {
      StepSafe(s, run[0]);
      StreamSafe(Step(s, run[0]), run[1..]);
    }
  }

  // --- completeness, when the bus is fed in sequence order and nothing is pruned ---

  predicate InOrder(a: Action) { !a.Prune? && (a.Publish? ==> a.index == 0) }

  /** How far into `committed` the client has been brought, and where it began. */
  function Base(s: State): nat {
    match s.origin
    case FromCursor(c) => Cut(s.committed, c)
    case FromNow(p) => p
  }

  function Reached(s: State): nat { if s.frames == [] then Base(s) else Cut(s.committed, s.lastSent) }

  /** The channel holds a contiguous stretch of the log, up to the published position while it is open. */
  ghost predicate Contiguous(s: State) {
    && |s.pending| <= |s.committed| && s.pending == s.committed[Position(s)..]
    && (!s.phase.Offline? ==>
          && s.head + |s.queue| <= Position(s)
          && s.queue == s.committed[s.head..s.head + |s.queue|]
          && (s.open ==> s.head + |s.queue| == Position(s)))
    && (s.phase.Offline? ==> s.queue == [] && !s.open)
  }

  ghost predicate Complete(s: State) {
    && s.stored == s.committed && (forall e :: e in s.committed ==> e.sequence > 0)
    && Contiguous(s)
    && Base(s) <= Reached(s) <= |s.committed|
    && s.frames == s.committed[Base(s)..Reached(s)]
    && (s.phase.Live? ==> s.head <= Reached(s) && (s.origin.FromNow? && s.frames == [] ==> s.head == Base(s)))
    && (s.phase.Paging? || s.phase.Writing? ==> s.frames != [] || s.origin.FromCursor?)
    && (s.phase.Writing? ==>
          && Reached(s) + |s.phase.rows| <= |s.committed|
          && s.phase.rows == s.committed[Reached(s)..Reached(s) + |s.phase.rows|]
          && (!s.phase.full ==> s.head <= Reached(s) + |s.phase.rows|))
  }

  lemma CutOfLonger(log: seq<Event>, more: seq<Event>, cursor: int)
    requires Ascending(log + more)
    ensures Cut(log, cursor) <= Cut(log + more, cursor)
    ensures Cut(log, cursor) < |log| ==> Cut(log + more, cursor) == Cut(log, cursor)
    ensures (exists e :: e in log && e.sequence == cursor) ==> Cut(log + more, cursor) == Cut(log, cursor)
  {
    hide Cut;
    var all := log + more;
    assert Ascending(log) by { assert forall i :: 0 <= i < |log| ==> all[i] == log[i]; }
    CutSplits(log, cursor);
    CutSplits(all, cursor);
    var n := Cut(log, cursor);
    assert forall i :: 0 <= i < |log| ==> all[i] == log[i];
    if n > 0 { assert all[n - 1].sequence <= cursor; }
    if n < |log| { CutUnique(all, cursor, n); }
    if e :| e in log && e.sequence == cursor {
      var i :| 0 <= i < |log| && log[i] == e;
      if n == |log| < |all| {
        assert all[i].sequence < all[|log|].sequence;
        CutUnique(all, cursor, n);
      }
    }
  }

  lemma CutAtElement(log: seq<Event>, i: nat)
    requires Ascending(log) && i < |log|
    ensures Cut(log, log[i].sequence) == i + 1
  {
    CutUnique(log, log[i].sequence, i + 1);
  }

  /** Where the client stands, read off its cursor: unless it started from now and has received nothing, its cursor
      cuts the log at the position it has reached. */
  lemma CursorIsReached(s: State)
    requires Safe(s) && (s.frames != [] || s.origin.FromCursor?)
    ensures Reached(s) == Cut(s.committed, s.lastSent)
  {
  }

  lemma ReachedAfterSend(s: State, e: Event)
    requires Safe(s) && Complete(s) && Reached(s) < |s.committed| && e == s.committed[Reached(s)]
    ensures var s' := s.(frames := s.frames + [e], lastSent := e.sequence);
            Base(s') == Base(s) && Reached(s') == Reached(s) + 1 && s'.frames == s.committed[Base(s)..Reached(s')]
  {
    hide Cut, Contiguous;
    CutAtElement(s.committed, Reached(s));
    var b, r := Base(s), Reached(s);
    assert s.committed[b..r + 1] == s.committed[b..r] + [e];
  }

  lemma IdleInvariant()
    ensures Safe(Idle) && Complete(Idle)
  {
  }

  lemma CompleteCommit(s: State, events: seq<Event>)
    requires Safe(s) && Complete(s) && Enabled(s, Commit(events))
    ensures Complete(Step(s, Commit(events)))
  {
    hide Safe, Cut, Ascending;
    var s' := Step(s, Commit(events));
    assert Safe(s);
    PositionsStay(s, events);
    var n := |s.committed|;
    assert forall i :: 0 <= i < n ==> s'.committed[i] == s.committed[i];
    assert s'.pending == s'.committed[Position(s)..];
    assert Position(s') == Position(s);
    forall e | e in s'.committed ensures e.sequence > 0 { assert e in s.committed || e in events; }
    assert s'.queue == s.queue && !s.phase.Offline? ==>
      s'.committed[s.head..s.head + |s.queue|] == s.committed[s.head..s.head + |s.queue|];
    if s.frames == [] { assert s'.frames == s'.committed[Base(s')..Reached(s')]; }
    else { assert s'.committed[Base(s)..Reached(s)] == s.committed[Base(s)..Reached(s)]; }
    if s.phase.Writing? && s.phase.rows != [] {
      assert s'.committed[Reached(s)..Reached(s) + |s.phase.rows|]
          == s.committed[Reached(s)..Reached(s) + |s.phase.rows|];
    }
  }

  /** Appending to the log moves neither end of what the client has, except while its first cursor lies beyond the
      log. */
  lemma PositionsStay(s: State, events: seq<Event>)
    requires Safe(s) && Complete(s) && Enabled(s, Commit(events))
    ensures var s' := Step(s, Commit(events));
            && Base(s) <= Base(s') && Reached(s) <= Reached(s') <= |s'.committed| && Base(s') <= Reached(s')
            && (s.frames != [] ==> Base(s') == Base(s) && Reached(s') == Reached(s))
            && (Reached(s) < |s.committed| ==> Base(s') == Base(s) && Reached(s') == Reached(s))
            && (s.frames == [] ==> Reached(s') == Base(s'))
  {
    hide Cut, Contiguous, Select;
    var s' := Step(s, Commit(events));
    if s.origin.FromCursor? { CutOfLonger(s.committed, events, s.origin.cursor); }
    CutOfLonger(s.committed, events, s.lastSent);
    if s.frames != [] {
      var e := s.frames[|s.frames| - 1];
      assert e in s.frames && e in s.committed && e.sequence == s.lastSent;
      if s.origin.FromCursor? { NotAllBelow(s.committed, s.origin.cursor, e); }
    }
  }

  lemma NotAllBelow(log: seq<Event>, cursor: int, e: Event)
    requires Ascending(log) && e in log && e.sequence > cursor
    ensures Cut(log, cursor) < |log|
  {
    hide Cut;
    CutSplits(log, cursor);
  }

  lemma PublishContiguous(s: State)
    requires Contiguous(s) && s.pending != []
    ensures Contiguous(Step(s, Publish(0)))
  {
    hide Reached, Base, Cut;
    var s' := Step(s, Publish(0));
    var p := Position(s);
    assert s'.pending == s.committed[p + 1..];
    if !s.phase.Offline? && s.open && |s.queue| < SUBSCRIBER_BUFFER {
      assert s'.queue == s.queue + [s.committed[p]];
      assert s.committed[s.head..p + 1] == s.committed[s.head..p] + [s.committed[p]];
    }
  }

  lemma CompletePublish(s: State)
    requires Safe(s) && Complete(s) && Enabled(s, Publish(0))
    ensures Complete(Step(s, Publish(0)))
  {
    hide Safe, Cut, Ascending, Contiguous;
    PublishContiguous(s);
  }

  lemma CompleteRead(s: State)
    requires Safe(s) && Complete(s) && Enabled(s, ReadStored)
    ensures Complete(Step(s, ReadStored))
  {
    hide Cut, Ascending, Select;
    var s' := Step(s, ReadStored);
    SelectIsSuffix(s.stored, s.lastSent);
    CursorIsReached(s);
    var r := Reached(s);
    assert s'.phase.rows == s.committed[r..r + |s'.phase.rows|];
  }

  lemma CompleteWrite(s: State)
    requires Safe(s) && Complete(s) && Enabled(s, WriteRow)
    ensures Complete(Step(s, WriteRow))
  {
    hide Cut, Ascending, Select, Safe;
    var s' := Step(s, WriteRow);
    var rows := s.phase.rows;
    assert rows[0] == s.committed[Reached(s)];
    ReachedAfterSend(s, rows[0]);
    assert rows[1..] == s.committed[Reached(s) + 1..Reached(s) + |rows|];
  }

  lemma QueueTail(s: State)
    requires Contiguous(s) && !s.phase.Offline? && s.queue != []
    ensures s.head < |s.committed| && s.queue[0] == s.committed[s.head]
    ensures s.queue[1..] == s.committed[s.head + 1..s.head + |s.queue|]
  {
    assert s.queue[0] == s.committed[s.head..s.head + |s.queue|][0];
  }

  /** What the head of the queue is: at or before the reached position it is a repeat, and the next event otherwise. */
  lemma QueueHead(s: State)
    requires Safe(s) && Complete(s) && Enabled(s, Receive) && s.head < |s.committed|
        && s.queue[0] == s.committed[s.head]
    ensures s.queue[0].sequence <= s.lastSent ==> s.head < Reached(s)
    ensures s.queue[0].sequence > s.lastSent ==> s.head == Reached(s)
  {
    hide Cut, Select, Contiguous;
    assert s.committed[s.head] in s.committed;
    CutSplits(s.committed, s.lastSent);
  }

  lemma CompleteReceive(s: State)
    requires Safe(s) && Complete(s) && Enabled(s, Receive)
    ensures Complete(Step(s, Receive))
  {
    hide Cut, Select, Safe, Ascending;
    QueueTail(s);
    QueueHead(s);
    if s.queue[0].sequence > s.lastSent {
      ReachedAfterSend(s, s.queue[0]);
      CompleteForwards(s);
    }
  }

  lemma CompleteForwards(s: State)
    requires Complete(s) && Enabled(s, Receive) && s.queue[0].sequence > s.lastSent && s.head == Reached(s)
    requires var s' := s.(frames := s.frames + [s.queue[0]], lastSent := s.queue[0].sequence);
             Base(s') == Base(s) && Reached(s') == Reached(s) + 1 && s'.frames == s.committed[Base(s)..Reached(s')]
    requires s.queue[1..] == s.committed[s.head + 1..s.head + |s.queue|]
    ensures Complete(Step(s, Receive))
  {
    hide Cut;
  }

  lemma CompleteConnect(s: State, a: Action)
    requires Safe(s) && Complete(s) && Enabled(s, a) && (a.Start? || a.StartNow? || a.Resume?)
    ensures Complete(Step(s, a))
  {
    hide Cut, Select, Ascending;
    if a.Resume? { CursorIsReached(s); }
  }

  lemma CompleteEndPage(s: State)
    requires Complete(s) && Enabled(s, EndPage)
    ensures Complete(Step(s, EndPage))
  {
    hide Cut;
  }

  lemma CompleteLeave(s: State, a: Action)
    requires Complete(s) && Enabled(s, a) && (a.Closed? || a.Disconnect? || a.CloseBus?)
    ensures Complete(Step(s, a))
  {
    hide Cut;
  }

  lemma StepComplete(s: State, a: Action)
    requires Safe(s) && Complete(s) && Enabled(s, a) && InOrder(a)
    ensures Complete(Step(s, a))
  {
    hide Cut, Select, Safe, Complete, Step;
    match a {
      case Commit(events) => CompleteCommit(s, events);
      case Publish(i) => CompletePublish(s);
      case ReadStored => CompleteRead(s);
      case WriteRow => CompleteWrite(s);
      case Receive => CompleteReceive(s);
      case EndPage => CompleteEndPage(s);
      case Closed => CompleteLeave(s, a);
      case Disconnect => CompleteLeave(s, a);
      case CloseBus => CompleteLeave(s, a);
      case _ => CompleteConnect(s, a);
    }
  }

  /** With the bus fed in sequence order and nothing pruned, at every moment of every interleaving (overflow drops,
      failed writes and reconnects included) the frames are exactly the committed events from where the client
      began up to where it has got to: no gap, no repeat, nothing out of order. */
  lemma {:induction false} StreamComplete(s: State, run: seq<Action>)
    requires Safe(s) && Complete(s) && Possible(s, run) && forall a :: a in run ==> InOrder(a)
    ensures var t := After(s, run);
            && Safe(t) && Complete(t)
            && t.frames == t.committed[Base(t)..Reached(t)]
            && (t.origin.FromCursor? ==> t.frames <= Select(t.committed, t.origin.cursor, EVERYTHING))
            && (t.phase.Live? && t.open && t.queue == [] && t.pending == [] ==> t.frames == t.committed[Base(t)..])
    decreases |run|
  {
    hide Safe, Step, Complete, Enabled, InOrder, Select;
    if run == [] {
      CompleteMeans(s);
    } else {
      StepSafe(s, run[0]);
      StepComplete(s, run[0]);
      StreamComplete(Step(s, run[0]), run[1..]);
    }
  }

  lemma CompleteMeans(t: State)
    requires Safe(t) && Complete(t)
    ensures && t.frames == t.committed[Base(t)..Reached(t)]
            && (t.origin.FromCursor? ==> t.frames <= Select(t.committed, t.origin.cursor, EVERYTHING))
            && (t.phase.Live? && t.open && t.queue == [] && t.pending == [] ==> t.frames == t.committed[Base(t)..])
  {
    hide Cut, Select;
    if t.origin.FromCursor? {
      SelectIsSuffix(t.committed, t.origin.cursor);
      assert t.committed[Base(t)..Reached(t)] == t.committed[Base(t)..][..Reached(t) - Base(t)];
    }
  }
}
