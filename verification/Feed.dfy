/** The dashboard's event feed: load the newest events, poll forward from the head, keep a bounded buffer. */
module Feed {
  import opened EventLog

  const INITIAL_LIMIT := 150
  const POLL_LIMIT := 200
  const MAX_STORED := 1000

  datatype Phase = Mounted | Fetched(page: Page) | Polling | Broken

  /** The page on screen. `shown` and `lastSeq` are the view's fields, `cursor` the poll loop's local, `inbox` the
      batches dispatched to the UI thread and not yet run there. `start` records where the first load began. */
  datatype State = State(
    log: seq<Event>, phase: Phase, shown: seq<Event>, lastSeq: nat, cursor: nat, inbox: seq<Page>, start: nat)

  datatype Action = Append(events: seq<Event>) | Fetch | FetchFails | Show | Poll | PollFails | Deliver

  ghost predicate Enabled(s: State, a: Action) {
    match a
    case Append(events) => Ascending(s.log + events) && forall e :: e in events ==> e.sequence > 0
    case Fetch => s.phase.Mounted?
    case FetchFails => s.phase.Mounted?
    case Show => s.phase.Fetched?
    case Deliver => s.phase.Polling? && s.inbox != []
    case _ => s.phase.Polling?
  }

  function Trimmed(rows: seq<Event>): seq<Event> {
    if |rows| > MAX_STORED then rows[|rows| - MAX_STORED..] else rows
  }

  /** appendEvents, on values: the rows kept and the new cursor. */
  function Appended(shown: seq<Event>, lastSeq: nat, batch: Page): (seq<Event>, nat) {
    (Trimmed(shown + batch.rows), if batch.next > lastSeq then batch.next else lastSeq)
  }

  function Step(s: State, a: Action): State
    requires Enabled(s, a)
  {
    match a
    case Append(events) => s.(log := s.log + events)
    case Fetch =>
      var page := Newest(s.log, INITIAL_LIMIT);
      s.(phase := Fetched(page), start := |s.log| - |page.rows|)
    case FetchFails => s.(phase := Broken)
    case Show =>
      var page := s.phase.page;
      s.(phase := Polling, shown := page.rows, lastSeq := page.next, cursor := page.next)
    case Poll =>
      var page := ReadPage(s.log, s.cursor, POLL_LIMIT, EVERYTHING);
      if page.rows == [] then s else s.(inbox := s.inbox + [page], cursor := page.next)
    case PollFails => s
    case Deliver =>
      var after := Appended(s.shown, s.lastSeq, s.inbox[0]);
      s.(shown := after.0, lastSeq := after.1, inbox := s.inbox[1..])
  }

  ghost predicate Possible(s: State, run: seq<Action>)
    decreases |run|
  {
    run == [] || (Enabled(s, run[0]) && Possible(Step(s, run[0]), run[1..]))
  }

  ghost function After(s: State, run: seq<Action>): State
    requires Possible(s, run)
    decreases |run|
  {
    if run == [] then s else After(Step(s, run[0]), run[1..])
  }

  function Fresh(log: seq<Event>): State { State(log, Mounted, [], 0, 0, [], 0) }

  // --- the window ---

  /** A cursor some read returned: the position it stands for does not move as the log grows. */
  ghost predicate Anchored(log: seq<Event>, cursor: nat) {
    cursor == 0 || exists i :: 0 <= i < |log| && log[i].sequence == cursor
  }

  /** The newest stretch of the log that reaches from `start` to a position and fits the buffer. */
  function Oldest(start: nat, end: nat): nat {
    if end > 1000 && end - 1000 > start then end - 1000 else start
  }

  ghost predicate IsWindow(rows: seq<Event>, log: seq<Event>, start: nat, next: nat) {
    && Anchored(log, next) && start <= Cut(log, next)
    && rows == log[Oldest(start, Cut(log, next))..Cut(log, next)]
  }

  /** The batches in flight continue the log from one cursor to another. */
  ghost predicate Chain(log: seq<Event>, from: nat, inbox: seq<Page>, to: nat)
    decreases |inbox|
  {
    if inbox == [] then from == to
    else
      && from <= inbox[0].next && Anchored(log, inbox[0].next) && Cut(log, from) <= Cut(log, inbox[0].next)
      && inbox[0].rows == log[Cut(log, from)..Cut(log, inbox[0].next)]
      && Chain(log, inbox[0].next, inbox[1..], to)
  }

  ghost predicate Numbered(log: seq<Event>) { Ascending(log) && forall e :: e in log ==> e.sequence > 0 }

  /** What every run keeps. */
  ghost predicate Contiguous(s: State) {
    && Numbered(s.log)
    && match s.phase
       case Mounted => s.shown == [] && s.inbox == []
       case Broken => s.shown == []
       case Fetched(page) => s.shown == [] && s.inbox == [] && IsWindow(page.rows, s.log, s.start, page.next)
       case Polling =>
         && IsWindow(s.shown, s.log, s.start, s.lastSeq) && Anchored(s.log, s.cursor)
         && Chain(s.log, s.lastSeq, s.inbox, s.cursor)
  }

  lemma CutAt(log: seq<Event>, cursor: nat, i: nat)
    requires Numbered(log) && i < |log| && log[i].sequence == cursor
    ensures Cut(log, cursor) == i + 1
  {
    hide Cut;
    CutUnique(log, cursor, i + 1);
  }

  lemma CutAtZero(log: seq<Event>)
    requires Numbered(log)
    ensures Cut(log, 0) == 0
  {
    if log != [] { assert log[0] in log; }
  }

  lemma AnchoredStays(log: seq<Event>, more: seq<Event>, cursor: nat)
    requires Numbered(log) && Numbered(log + more) && Anchored(log, cursor)
    ensures Anchored(log + more, cursor) && Cut(log + more, cursor) == Cut(log, cursor)
  {
    hide Cut;
    if cursor == 0 {
      CutAtZero(log);
      CutAtZero(log + more);
    } else {
      var i :| 0 <= i < |log| && log[i].sequence == cursor;
      assert (log + more)[i] == log[i];
      CutAt(log, cursor, i);
      CutAt(log + more, cursor, i);
    }
  }

  lemma WindowStays(rows: seq<Event>, log: seq<Event>, more: seq<Event>, start: nat, next: nat)
    requires Numbered(log) && Numbered(log + more) && IsWindow(rows, log, start, next)
    ensures IsWindow(rows, log + more, start, next)
  {
    hide Numbered, Anchored, Cut;
    AnchoredStays(log, more, next);
    var n := Cut(log, next);
    assert (log + more)[Oldest(start, n)..n] == log[Oldest(start, n)..n];
  }

  lemma {:induction false} ChainStays(log: seq<Event>, more: seq<Event>, from: nat, inbox: seq<Page>, to: nat)
    requires Numbered(log) && Numbered(log + more) && Anchored(log, from) && Chain(log, from, inbox, to)
    ensures Chain(log + more, from, inbox, to)
    decreases |inbox|
  {
    hide Numbered, Anchored, Cut;
    if inbox != [] {
      AnchoredStays(log, more, from);
      AnchoredStays(log, more, inbox[0].next);
      assert (log + more)[Cut(log, from)..Cut(log, inbox[0].next)] == log[Cut(log, from)..Cut(log, inbox[0].next)];
      ChainStays(log, more, inbox[0].next, inbox[1..], to);
    }
  }

  lemma {:induction false} ChainGrows(log: seq<Event>, from: nat, inbox: seq<Page>, to: nat, page: Page)
    requires Chain(log, from, inbox, to) && to <= page.next && Anchored(log, page.next)
    requires Cut(log, to) <= Cut(log, page.next) && page.rows == log[Cut(log, to)..Cut(log, page.next)]
    ensures Chain(log, from, inbox + [page], page.next)
    decreases |inbox|
  {
    hide Anchored, Cut;
    if inbox == [] {
      assert inbox + [page] == [page];
    } else {
      assert (inbox + [page])[0] == inbox[0] && (inbox + [page])[1..] == inbox[1..] + [page];
      ChainGrows(log, inbox[0].next, inbox[1..], to, page);
    }
  }

  /** A poll reads on from its cursor's position. */
  lemma PollContinues(log: seq<Event>, cursor: nat)
    requires Numbered(log)
    ensures var page := ReadPage(log, cursor, POLL_LIMIT, EVERYTHING);
            page.rows != [] ==>
              && cursor <= page.next && Anchored(log, page.next) && Cut(log, cursor) <= Cut(log, page.next)
              && page.rows == log[Cut(log, cursor)..Cut(log, page.next)]
    ensures var left := |log| - Cut(log, cursor);
            |ReadPage(log, cursor, POLL_LIMIT, EVERYTHING).rows| == if left < 200 then left else 200
  {
    hide Cut, Select;
    var page := ReadPage(log, cursor, POLL_LIMIT, EVERYTHING);
    SelectIsSuffix(log, cursor);
    CutSplits(log, cursor);
    var c, n := Cut(log, cursor), |page.rows|;
    if n > 0 {
      assert page.rows == log[c..c + n];
      assert page.next == log[c + n - 1].sequence;
      CutAt(log, page.next, c + n - 1);
    }
  }

  /** The first load: its head cursor is exactly where forward polling must go on. */
  lemma NewestIsWindow(log: seq<Event>)
    requires Numbered(log)
    ensures var page := Newest(log, INITIAL_LIMIT); IsWindow(page.rows, log, |log| - |page.rows|, page.next)
    ensures var n := if |log| < 150 then |log| else 150; Newest(log, INITIAL_LIMIT).rows == log[|log| - n..]
  {
    hide Cut;
    var page := Newest(log, INITIAL_LIMIT);
    if log == [] {
      CutAtZero(log);
    } else {
      CutAt(log, page.next, |log| - 1);
    }
  }

  lemma WindowMoves(log: seq<Event>, start: nat, b: nat, c: nat)
    requires start <= b <= c <= |log|
    ensures Trimmed(log[Oldest(start, b)..b] + log[b..c]) == log[Oldest(start, c)..c]
  {
    var a := Oldest(start, b);
    assert log[a..b] + log[b..c] == log[a..c];
  }

  lemma DeliverKeepsWindow(s: State)
    requires Contiguous(s) && Enabled(s, Deliver)
    ensures Contiguous(Step(s, Deliver))
  {
    hide Cut, Numbered, Anchored, Trimmed;
    WindowMoves(s.log, s.start, Cut(s.log, s.lastSeq), Cut(s.log, s.inbox[0].next));
  }

  lemma StepContiguous(s: State, a: Action)
    requires Contiguous(s) && Enabled(s, a)
    ensures Contiguous(Step(s, a))
  {
    hide Cut, Select, Ascending, IsWindow, Anchored, ReadPage, Newest;
    match a {
      case Append(events) =>
        assert Numbered(s.log + events);
        AppendKeeps(s, events);
      case Fetch => NewestIsWindow(s.log);
      case Show => ShowKeeps(s);
      case Poll =>
        var page := ReadPage(s.log, s.cursor, POLL_LIMIT, EVERYTHING);
        PollContinues(s.log, s.cursor);
        if page.rows != [] { ChainGrows(s.log, s.lastSeq, s.inbox, s.cursor, page); }
      case Deliver => DeliverKeepsWindow(s);
      case _ =>
    }
  }

  lemma ShowKeeps(s: State)
    requires Contiguous(s) && Enabled(s, Show)
    ensures Contiguous(Step(s, Show))
  {
    hide Cut, Numbered;
  }

  lemma AppendKeeps(s: State, events: seq<Event>)
    requires Contiguous(s) && Numbered(s.log + events)
    ensures Contiguous(s.(log := s.log + events))
  {
    hide Cut, Numbered;
    if s.phase.Fetched? { WindowStays(s.phase.page.rows, s.log, events, s.start, s.phase.page.next); }
    if s.phase.Polling? {
      WindowStays(s.shown, s.log, events, s.start, s.lastSeq);
      AnchoredStays(s.log, events, s.cursor);
      ChainStays(s.log, events, s.lastSeq, s.inbox, s.cursor);
    }
  }

  /** In every run the feed shows, in order and without a gap or a repeat, the stretch of the log that ends at
      `lastSeq` and reaches back to where the first load began, or a thousand events if that is nearer. */
  lemma {:induction false} FeedIsWindow(s: State, run: seq<Action>)
    requires Contiguous(s) && Possible(s, run)
    ensures var t := After(s, run);
            && Contiguous(t) && |t.shown| <= 1000
            && (t.phase.Polling? ==>
                  t.shown == t.log[Oldest(t.start, Cut(t.log, t.lastSeq))..Cut(t.log, t.lastSeq)])
            && (t.phase.Polling? && t.inbox == [] && Select(t.log, t.cursor, EVERYTHING) == [] ==>
                  t.shown == t.log[Oldest(t.start, |t.log|)..])
    decreases |run|
  {
    hide Contiguous, Step, Enabled, Cut, Select;
    if run == [] {
      WindowMeans(s);
    } else {
      StepContiguous(s, run[0]);
      FeedIsWindow(Step(s, run[0]), run[1..]);
    }
  }

  lemma WindowMeans(t: State)
    requires Contiguous(t)
    ensures |t.shown| <= 1000
    ensures t.phase.Polling? ==>
              t.shown == t.log[Oldest(t.start, Cut(t.log, t.lastSeq))..Cut(t.log, t.lastSeq)]
    ensures t.phase.Polling? && t.inbox == [] && Select(t.log, t.cursor, EVERYTHING) == [] ==>
              t.shown == t.log[Oldest(t.start, |t.log|)..]
  {
    hide Cut, Select;
    if t.phase.Polling? { SelectIsSuffix(t.log, t.cursor); }
  }

  lemma FreshIsContiguous(log: seq<Event>)
    requires Numbered(log)
    ensures Contiguous(Fresh(log))
  {
  }

  /** The same from the moment the page is opened, on any log. */
  lemma OpenedFeedIsWindow(log: seq<Event>, run: seq<Action>)
    requires Numbered(log) && Possible(Fresh(log), run)
    ensures var t := After(Fresh(log), run);
            && Contiguous(t) && |t.shown| <= 1000
            && (t.phase.Polling? ==>
                  t.shown == t.log[Oldest(t.start, Cut(t.log, t.lastSeq))..Cut(t.log, t.lastSeq)])
            && (t.phase.Polling? && t.inbox == [] && Select(t.log, t.cursor, EVERYTHING) == [] ==>
                  t.shown == t.log[Oldest(t.start, |t.log|)..])
  {
    hide Possible, After, Cut, Select, Numbered, Contiguous;
    FreshIsContiguous(log);
    FeedIsWindow(Fresh(log), run);
  }

  // --- catching up ---

  /** A run of polls and deliveries from `s` to `t`. */
  ghost predicate Goes(s: State, t: State) {
    exists run: seq<Action> ::
      Possible(s, run) && After(s, run) == t && forall a: Action :: a in run ==> a.Poll? || a.Deliver?
  }

  lemma Stays(s: State)
    ensures Goes(s, s)
  {
    assert Possible(s, []) && After(s, []) == s;
  }

  lemma GoesOn(s: State, a: Action, t: State)
    requires Enabled(s, a) && (a.Poll? || a.Deliver?) && Goes(Step(s, a), t)
    ensures Goes(s, t)
  {
    hide Enabled, Step;
    var rest :| Possible(Step(s, a), rest) && After(Step(s, a), rest) == t
                && forall b: Action :: b in rest ==> b.Poll? || b.Deliver?;
    var run := [a] + rest;
    assert run[0] == a && run[1..] == rest;
    assert Possible(s, run) && After(s, run) == t;
  }

  /** From any moment of a feed, polling and delivering can bring it to the end of the log: it then shows the newest
      stretch, back to where it began or a thousand events. */
  lemma {:induction false} CatchesUp(s: State) returns (t: State)
    requires Contiguous(s) && s.phase.Polling?
    ensures Goes(s, t) && t.log == s.log && t.start == s.start
    ensures t.phase.Polling? && t.inbox == [] && t.shown == t.log[Oldest(t.start, |t.log|)..]
    decreases |Select(s.log, s.cursor, EVERYTHING)|, |s.inbox|
  {
    hide Goes, Cut, Select, Contiguous, Oldest;
    if s.inbox != [] {
      StepContiguous(s, Deliver);
      t := CatchesUp(Step(s, Deliver));
      GoesOn(s, Deliver, t);
    } else if Select(s.log, s.cursor, EVERYTHING) == [] {
      t := s;
      Stays(s);
      WindowMeans(s);
    } else {
      PollAdvances(s);
      StepContiguous(s, Poll);
      t := CatchesUp(Step(s, Poll));
      GoesOn(s, Poll, t);
    }
  }

  lemma PollAdvances(s: State)
    requires Contiguous(s) && s.phase.Polling? && Select(s.log, s.cursor, EVERYTHING) != []
    ensures var t := Step(s, Poll);
            t.phase.Polling? && t.log == s.log && t.start == s.start
            && |Select(t.log, t.cursor, EVERYTHING)| < |Select(s.log, s.cursor, EVERYTHING)|
  {
    hide Cut, Select, Ascending;
    var page := ReadPage(s.log, s.cursor, POLL_LIMIT, EVERYTHING);
    var all := Select(s.log, s.cursor, EVERYTHING);
    assert page.rows == all[..|page.rows|] && page.rows != [];
    ResumeAtCut(s.log, s.cursor, EVERYTHING, |page.rows|);
    assert page.next == NextCursor(all[..|page.rows|], s.cursor);
  }
}
