/** What a stream client can always still do: reconnect, replay what is stored, and drain the bus. */
module Recovery {
  import opened EventLog
  import opened Stream
  import opened LiveTail

  /** Steps of the client and its handler, and publications in order: no commit, no pruning, no failure. */
  predicate Quiet(a: Action) {
    a.Disconnect? || a.Resume? || a.ReadStored? || a.WriteRow? || a.EndPage? || a.Receive? || a == Publish(0)
  }

  ghost predicate QuietRun(run: seq<Action>) { forall a :: a in run ==> Quiet(a) }

  /** From `s` to `t` the client received exactly `events`; the log is the same. */
  ghost predicate Gets(s: State, t: State, events: seq<Event>) {
    && t.committed == s.committed && t.stored == s.stored && t.origin == s.origin
    && t.frames == s.frames + events && t.lastSent == NextCursor(events, s.lastSent)
  }

  /** A run of such steps from `s` to `t`. */
  ghost predicate Goes(s: State, t: State, events: seq<Event>) {
    Gets(s, t, events) && exists run :: Leads(s, run, t) && QuietRun(run)
  }

  lemma Stays(s: State)
    ensures Goes(s, s, [])
  {
    assert Leads(s, [], s) && QuietRun([]);
  }

  lemma GoesOn(s: State, a: Action, m: State, t: State, first: seq<Event>, rest: seq<Event>)
    requires Enabled(s, a) && Quiet(a) && m == Step(s, a) && Gets(s, m, first) && Goes(m, t, rest)
    ensures Goes(s, t, first + rest)
  {
    hide Step, Enabled, Gets, Quiet;
    GetsMore(s, m, t, first, rest);
    var run :| Leads(m, run, t) && QuietRun(run);
    Prepend(s, a, run, t);
    QuietMore(a, run);
  }

  lemma QuietMore(a: Action, run: seq<Action>)
    requires Quiet(a) && QuietRun(run)
    ensures QuietRun([a] + run)
  {
  }

  lemma GetsMore(s: State, m: State, t: State, first: seq<Event>, rest: seq<Event>)
    requires Gets(s, m, first) && Gets(m, t, rest)
    ensures Gets(s, t, first + rest)
  {
    assert s.frames + first + rest == s.frames + (first + rest);
  }

  /** The steps before a page is read and after it is written: connected, with an empty channel. */
  ghost predicate Idles(s: State, t: State) {
    t.open && t.queue == [] && t.pending == s.pending
  }

  lemma {:induction false} WritesPage(s: State) returns (t: State)
    requires s.phase.Writing? && s.open && s.queue == []
    ensures Goes(s, t, s.phase.rows) && Idles(s, t) && t.phase == Writing([], s.phase.full)
    decreases |s.phase.rows|
  {
    hide Goes, Gets;
    var rows := s.phase.rows;
    if rows == [] {
      t := s;
      Stays(s);
    } else {
      var m := Step(s, WriteRow);
      t := WritesPage(m);
      assert Gets(s, m, [rows[0]]) by { WroteRow(s); }
      GoesOn(s, WriteRow, m, t, [rows[0]], rows[1..]);
      assert [rows[0]] + rows[1..] == rows;
    }
  }

  lemma WroteRow(s: State)
    requires Enabled(s, WriteRow)
    ensures Gets(s, Step(s, WriteRow), [s.phase.rows[0]])
  {
  }

  lemma GotNothing(s: State, a: Action)
    requires Enabled(s, a) && (a.Disconnect? || a.Resume? || a.ReadStored? || a.EndPage? || a.Publish?)
    ensures Gets(s, Step(s, a), [])
  {
  }

  lemma Then(s: State, m: State, t: State, first: seq<Event>, rest: seq<Event>)
    requires Goes(s, m, first) && Goes(m, t, rest)
    ensures Goes(s, t, first + rest)
  {
    hide Gets, QuietRun;
    GetsMore(s, m, t, first, rest);
    var a :| Leads(s, a, m) && QuietRun(a);
    var b :| Leads(m, b, t) && QuietRun(b);
    Joins(s, a, m, b, t);
    BothQuiet(a, b);
  }

  lemma BothQuiet(a: seq<Action>, b: seq<Action>)
    requires QuietRun(a) && QuietRun(b)
    ensures QuietRun(a + b)
  {
  }

  lemma {:induction false} Joins(s: State, a: seq<Action>, m: State, b: seq<Action>, t: State)
    requires Leads(s, a, m) && Leads(m, b, t)
    ensures Leads(s, a + b, t)
    decreases |a|
  {
    hide Step, Enabled;
    if a == [] {
      assert a + b == b;
    } else {
      assert (a + b)[0] == a[0] && (a + b)[1..] == a[1..] + b;
      Joins(Step(s, a[0]), a[1..], m, b, t);
    }
  }

  /** Page after page, until one comes back short. */
  lemma {:induction false} ReadsPages(s: State) returns (t: State)
    requires s.phase.Paging? && s.open && s.queue == [] && Ascending(s.stored)
    ensures Goes(s, t, Select(s.stored, s.lastSent, EVERYTHING)) && Idles(s, t) && t.phase.Live?
    decreases |Select(s.stored, s.lastSent, EVERYTHING)|
  {
    hide Goes, Gets, Select, Ascending;
    var owed := Select(s.stored, s.lastSent, EVERYTHING);
    var read := Step(s, ReadStored);
    var rows := read.phase.rows;
    assert rows == owed[..|rows|];
    GotNothing(s, ReadStored);
    var written := WritesPage(read);
    Arrived(read, written, rows);
    GoesOn(s, ReadStored, read, written, [], rows);
    assert [] + rows == rows;
    ResumeAtCut(s.stored, s.lastSent, EVERYTHING, |rows|);
    GotNothing(written, EndPage);
    var next := Step(written, EndPage);
    if read.phase.full {
      t := ReadsPages(next);
      GoesOn(written, EndPage, next, t, [], Select(s.stored, next.lastSent, EVERYTHING));
      assert [] + Select(s.stored, next.lastSent, EVERYTHING) == Select(s.stored, next.lastSent, EVERYTHING);
      Then(s, written, t, rows, Select(s.stored, next.lastSent, EVERYTHING));
    } else {
      t := next;
      Stays(t);
      GoesOn(written, EndPage, t, t, [], []);
      var none: seq<Event> := [];
      assert none + none == none;
      assert rows + [] == rows && rows == owed;
      Then(s, written, t, rows, []);
    }
  }

  lemma Arrived(s: State, t: State, events: seq<Event>)
    requires Goes(s, t, events)
    ensures t.stored == s.stored && t.committed == s.committed && t.lastSent == NextCursor(events, s.lastSent)
  {
    hide Leads, QuietRun;
  }

  /** Whatever happened before, on the bus or to the connection: a client with a cursor can reconnect, and the replay
      alone brings it exactly the stored events after that cursor. */
  lemma Recovers(s: State) returns (t: State)
    requires Safe(s) && (s.frames != [] || s.origin.FromCursor?)
    ensures Goes(s, t, Select(s.stored, s.lastSent, EVERYTHING)) && Idles(s, t) && t.phase.Live?
  {
    hide Goes, Gets, Select, Safe;
    assert Ascending(s.stored) by { StoredAscends(s); }
    var off := if s.phase.Offline? then s else Step(s, Disconnect);
    var on := Step(off, Resume);
    t := ReadsPages(on);
    var owed := Select(s.stored, s.lastSent, EVERYTHING);
    assert [] + owed == owed;
    GotNothing(off, Resume);
    GoesOn(off, Resume, on, t, [], owed);
    if !s.phase.Offline? {
      GotNothing(s, Disconnect);
      GoesOn(s, Disconnect, off, t, [], owed);
    }
  }

  lemma StoredAscends(s: State)
    requires Safe(s)
    ensures Ascending(s.stored)
  {
  }

  /** Following: what is still to be published is published in order and received. */
  lemma {:induction false} Drains(s: State) returns (t: State)
    requires s.phase.Live? && s.open && s.queue == []
    ensures Goes(s, t, Follow(s.lastSent, s.pending))
    ensures t.phase.Live? && t.open && t.queue == [] && t.pending == []
    decreases |s.pending|
  {
    hide Goes, Gets;
    if s.pending == [] {
      t := s;
      Stays(s);
    } else {
      var e := s.pending[0];
      var sent := Step(s, Publish(0));
      assert sent.pending == s.pending[1..] && sent.queue == [e];
      var got := Step(sent, Receive);
      t := Drains(got);
      var first := if e.sequence <= s.lastSent then [] else [e];
      var rest := Follow(got.lastSent, s.pending[1..]);
      assert Gets(sent, got, first) by { Received(sent); }
      GotNothing(s, Publish(0));
      GoesOn(sent, Receive, got, t, first, rest);
      GoesOn(s, Publish(0), sent, t, [], first + rest);
      assert [] + (first + rest) == first + rest && [] + rest == rest;
    }
  }

  lemma Received(s: State)
    requires Enabled(s, Receive)
    ensures Gets(s, Step(s, Receive), if s.queue[0].sequence <= s.lastSent then [] else [s.queue[0]])
  {
  }

  /** So with nothing pruned a client that reconnects ends up live, with nothing in flight, having received every
      committed event after its cursor, whatever the order of publication was before. */
  lemma CatchesUp(s: State) returns (t: State)
    requires Safe(s) && s.stored == s.committed && (s.frames != [] || s.origin.FromCursor?)
    ensures Goes(s, t, Select(s.committed, s.lastSent, EVERYTHING))
    ensures t.phase.Live? && t.open && t.queue == [] && t.pending == []
  {
    hide Goes, Gets, Select, Safe;
    var live := Recovers(s);
    var owed := Select(s.committed, s.lastSent, EVERYTHING);
    Arrived(s, live, owed);
    t := Drains(live);
    NothingNew(s, live.lastSent);
    Then(s, live, t, owed, []);
    assert owed + [] == owed;
  }

  lemma NothingNew(s: State, cursor: nat)
    requires Safe(s) && s.stored == s.committed
    requires cursor == NextCursor(Select(s.committed, s.lastSent, EVERYTHING), s.lastSent)
    ensures Follow(cursor, s.pending) == []
  {
    hide Select, Ascending, Follow;
    var owed := Select(s.committed, s.lastSent, EVERYTHING);
    forall e | e in s.pending ensures e.sequence <= cursor { NotAbove(s.committed, s.lastSent, cursor, e); }
    FollowsNone(cursor, s.pending);
  }

  lemma NotAbove(log: seq<Event>, after: nat, cursor: nat, e: Event)
    requires Ascending(log) && e in log && cursor == NextCursor(Select(log, after, EVERYTHING), after)
    ensures e.sequence <= cursor
  {
    hide Select, Passes;
    SelectAscends(log, after, EVERYTHING);
    EverythingPasses(e);
    var owed := Select(log, after, EVERYTHING);
    if e.sequence > after {
      var i :| 0 <= i < |owed| && owed[i] == e;
    }
  }

  lemma {:induction false} FollowsNone(cursor: nat, xs: seq<Event>)
    requires forall e :: e in xs ==> e.sequence <= cursor
    ensures Follow(cursor, xs) == []
  {
    if xs != [] { FollowsNone(cursor, xs[1..]); }
  }

  /** Such a run after a first commit, as a run from the start. */
  lemma FromCommit(events: seq<Event>, s: State, t: State, received: seq<Event>) returns (run: seq<Action>)
    requires Enabled(Idle, Commit(events)) && s == Step(Idle, Commit(events)) && Goes(s, t, received)
    ensures Leads(Idle, run, t) && t.committed == s.committed && t.origin == s.origin && t.frames == s.frames + received
    ensures forall a :: a in run ==> InOrder(a)
  {
    hide Step, Enabled;
    var rest :| Leads(s, rest, t) && QuietRun(rest);
    run := [Commit(events)] + rest;
    Prepend(Idle, Commit(events), rest, t);
  }
}
