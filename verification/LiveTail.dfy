/** What the live tail delivers when nothing is assumed of the order in which writers publish. */
module LiveTail {
  import opened Sorting
  import opened EventLog
  import opened Stream

  /** What `handleEventStream` forwards of the events it receives: those above everything forwarded before. */
  function Follow(cursor: nat, received: seq<Event>): seq<Event>
    decreases |received|
  {
    if received == [] then []
    else if received[0].sequence <= cursor then Follow(cursor, received[1..])
    else [received[0]] + Follow(received[0].sequence, received[1..])
  }

  lemma {:induction false} FollowSnoc(cursor: nat, xs: seq<Event>, e: Event)
    ensures Follow(cursor, xs + [e])
            == Follow(cursor, xs) + (if e.sequence > NextCursor(Follow(cursor, xs), cursor) then [e] else [])
    decreases |xs|
  {
    if xs == [] {
      assert xs + [e] == [e];
    } else {
      assert (xs + [e])[0] == xs[0] && (xs + [e])[1..] == xs[1..] + [e];
      FollowSnoc(if xs[0].sequence <= cursor then cursor else xs[0].sequence, xs[1..], e);
    }
  }

  lemma {:induction false} FollowAscends(cursor: nat, xs: seq<Event>)
    ensures Ascending(Follow(cursor, xs)) && forall e :: e in Follow(cursor, xs) ==> e.sequence > cursor
    decreases |xs|
  {
    if xs != [] {
      if xs[0].sequence <= cursor {
        FollowAscends(cursor, xs[1..]);
      } else {
        FollowAscends(xs[0].sequence, xs[1..]);
        AscendingHead(xs[0], Follow(xs[0].sequence, xs[1..]));
      }
    }
  }

  /** Among ascending arrivals nothing new is ever dropped. */
  lemma {:induction false} FollowKeepsAll(cursor: nat, xs: seq<Event>)
    requires Ascending(Select(xs, cursor, EVERYTHING))
    ensures Follow(cursor, xs) == Select(xs, cursor, EVERYTHING)
    decreases |xs|
  {
    hide Passes, Ascending;
    if xs != [] {
      var rest := Select(xs[1..], cursor, EVERYTHING);
      EverythingPasses(xs[0]);
      if xs[0].sequence <= cursor {
        assert [] + rest == rest;
        FollowKeepsAll(cursor, xs[1..]);
      } else {
        AscendingRest([xs[0]] + rest);
        assert ([xs[0]] + rest)[1..] == rest;
        SelectNarrows(xs[1..], cursor, xs[0].sequence, EVERYTHING);
        NewestSelected(rest, xs[0].sequence);
        FollowKeepsAll(xs[0].sequence, xs[1..]);
      }
    }
  }

  lemma EverythingPasses(e: Event)
    ensures Passes(EVERYTHING, e)
  {
  }

  /** When every arrival is a different event, forwarding each of those after the cursor means forwarding them
      in the order they arrived. */
  lemma {:induction false} FollowMisses(cursor: nat, xs: seq<Event>)
    requires Distinct(xs)
    requires forall e :: e in xs && e.sequence > cursor ==> e in Follow(cursor, xs)
    ensures Follow(cursor, xs) == Select(xs, cursor, EVERYTHING)
    decreases |xs|
  {
    hide Passes;
    if xs != [] {
      var rest := xs[1..];
      var next := if xs[0].sequence <= cursor then cursor else xs[0].sequence;
      EverythingPasses(xs[0]);
      forall e | e in rest && e.sequence > cursor ensures e in Follow(next, rest) {
        assert e in xs && e != xs[0];
      }
      FollowMisses(next, rest);
      if xs[0].sequence <= cursor {
        assert [] + Select(rest, cursor, EVERYTHING) == Select(rest, cursor, EVERYTHING);
      } else {
        FollowAscends(next, rest);
        SelectAgrees(rest, cursor, next);
      }
    }
  }

  lemma {:induction false} SelectAgrees(xs: seq<Event>, a: nat, b: nat)
    requires a <= b && forall e :: e in xs && e.sequence > a ==> e.sequence > b
    ensures Select(xs, a, EVERYTHING) == Select(xs, b, EVERYTHING)
  {
    hide Passes;
    if xs != [] {
      assert xs[0] in xs;
      SelectAgrees(xs[1..], a, b);
    }
  }

  lemma {:induction false} AscendingUnique(a: seq<Event>, b: seq<Event>)
    requires Ascending(a) && Ascending(b) && forall e :: e in a <==> e in b
    ensures a == b
  {
    assert b != [] ==> b[0] in b;
    if a != [] {
      assert a[0] in b && b != [] && b[0] in a;
      assert a[0] == b[0];
      AscendingRest(a);
      AscendingRest(b);
      AscendingUnique(a[1..], b[1..]);
      assert a == [a[0]] + a[1..] && b == [b[0]] + b[1..];
    }
  }

  // --- what every run keeps ---

  /** The events taken off the channel so far. */
  function Heard(s: State): seq<Event> {
    if |s.queue| <= |s.past.arrived| then s.past.arrived[..|s.past.arrived| - |s.queue|] else []
  }

  /** Every event committed since the subscription is on its way: arrived, or still to be published; none arrives
      twice. */
  ghost predicate Feeding(s: State) {
    && Distinct(s.past.arrived + s.pending) && From(s.past.arrived, s.committed)
    && s.past.subscribedAt <= |s.committed|
    && |s.queue| <= |s.past.arrived| && s.queue == s.past.arrived[|s.past.arrived| - |s.queue|..]
    && (s.open && !s.past.tail ==>
          forall i :: s.past.subscribedAt <= i < |s.committed| ==> s.committed[i] in s.past.arrived + s.pending)
  }

  /** `have`, and then everything after `cursor`, is what this connection owes its client. */
  ghost predicate Owes(s: State, have: seq<Event>, cursor: nat) {
    && have + Select(s.committed, cursor, EVERYTHING)
        == s.past.carried + Select(s.committed, s.past.resumedAt, EVERYTHING)
    && s.past.carried <= have && From(have, s.committed)
    && cursor == NextCursor(have, FirstCursor(s))
        && s.past.resumedAt == NextCursor(s.past.carried, FirstCursor(s)) <= cursor
  }

  /** Nothing committed before the subscription is left after the cursor. */
  ghost predicate Covers(s: State, cursor: nat) {
    forall i :: 0 <= i < s.past.subscribedAt && i < |s.committed| ==> s.committed[i].sequence <= cursor
  }

  ghost predicate Replaying(s: State) {
    match s.phase
    case Offline => true
    case Paging => !s.past.tail && s.queue == s.past.arrived && Owes(s, s.frames, s.lastSent)
    case Writing(rows, full) =>
      && !s.past.tail && s.queue == s.past.arrived && Owes(s, s.frames + rows, NextCursor(rows, s.lastSent))
      && (!full ==> Covers(s, NextCursor(rows, s.lastSent)))
    case Live =>
      && s.frames == s.past.replayed + Follow(s.past.joined, Heard(s))
      && s.lastSent == NextCursor(Follow(s.past.joined, Heard(s)), s.past.joined)
      && (!s.past.tail ==> Owes(s, s.past.replayed, s.past.joined) && Covers(s, s.past.joined))
  }

  ghost predicate Fed(s: State) {
    && s.stored == s.committed && Distinct(s.pending)
    && (!s.phase.Offline? ==> Feeding(s) && Replaying(s))
  }

  lemma IdleFed()
    ensures Fed(Idle)
  {
  }

  lemma OwesAfterCommit(s: State, events: seq<Event>, have: seq<Event>, cursor: nat)
    requires Safe(s) && Enabled(s, Commit(events)) && Owes(s, have, cursor)
    ensures Owes(Step(s, Commit(events)), have, cursor)
  {
    hide Select, Safe;
    SelectConcat(s.committed, events, cursor, EVERYTHING);
    SelectConcat(s.committed, events, s.past.resumedAt, EVERYTHING);
    if have != [] {
      var last := have[|have| - 1];
      assert last in have && last in s.committed;
      AllAfter(s.committed, events, last);
      NewestSelected(events, cursor);
      NewestSelected(events, s.past.resumedAt);
    }
    var a, b, c := Select(s.committed, cursor, EVERYTHING), Select(events, cursor, EVERYTHING),
        Select(s.committed, s.past.resumedAt, EVERYTHING);
    assert have + (a + b) == (have + a) + b && s.past.carried + (c + b) == (s.past.carried + c) + b;
  }

  lemma AllAfter(log: seq<Event>, more: seq<Event>, e: Event)
    requires Ascending(log + more) && e in log
    ensures forall x :: x in more ==> x.sequence > e.sequence
  {
    var i :| 0 <= i < |log| && log[i] == e;
    forall x | x in more ensures x.sequence > e.sequence {
      var j :| 0 <= j < |more| && more[j] == x;
      assert (log + more)[i] == e && (log + more)[|log| + j] == x;
    }
  }

  lemma NewestSelected(events: seq<Event>, cursor: nat)
    requires forall e :: e in events ==> e.sequence > cursor
    ensures Select(events, cursor, EVERYTHING) == events
  {
    hide Select, Passes;
    forall e ensures Passes(EVERYTHING, e) { EverythingPasses(e); }
    SelectAbove(events, 0, cursor, EVERYTHING);
  }

  lemma NewEvents(log: seq<Event>, more: seq<Event>)
    requires Ascending(log + more)
    ensures Distinct(more) && forall e :: e in more ==> e !in log
  {
    forall i, j | 0 <= i < j < |more| ensures more[i] != more[j] {
      assert (log + more)[|log| + i] == more[i] && (log + more)[|log| + j] == more[j];
    }
    forall e | e in log ensures e !in more { AllAfter(log, more, e); }
  }

  lemma DistinctAppend(a: seq<Event>, b: seq<Event>)
    requires Distinct(a) && Distinct(b) && forall e :: e in b ==> e !in a
    ensures Distinct(a + b)
  {
    forall i, j | 0 <= i < j < |a + b| ensures (a + b)[i] != (a + b)[j] {
      if i < |a| <= j { assert b[j - |a|] in b; }
    }
  }

  lemma FeedingCommit(s: State, events: seq<Event>)
    requires Safe(s) && Feeding(s) && Enabled(s, Commit(events))
    ensures Feeding(Step(s, Commit(events)))
  {
    hide Ascending, Distinct;
    var s' := Step(s, Commit(events));
    NewEvents(s.committed, events);
    var on := s.past.arrived + s.pending;
    assert s.past.arrived + s'.pending == on + events;
    DistinctAppend(on, events);
    forall i | s.past.subscribedAt <= i < |s'.committed| && s.open && !s.past.tail
        ensures s'.committed[i] in on + events {
      if i < |s.committed| { assert s'.committed[i] == s.committed[i]; }
      else { assert s'.committed[i] == events[i - |s.committed|]; }
    }
  }

  lemma FedCommit(s: State, events: seq<Event>)
    requires Safe(s) && Fed(s) && Enabled(s, Commit(events))
    ensures Fed(Step(s, Commit(events)))
  {
    hide Safe, Feeding, Owes, Ascending, Select, Follow;
    var s' := Step(s, Commit(events));
    PendingCommit(s, events);
    assert forall i :: 0 <= i < |s.committed| ==> s'.committed[i] == s.committed[i];
    if !s.phase.Offline? {
      FeedingCommit(s, events);
      assert s.past.subscribedAt <= |s.committed| by { FeedingMeans(s); }
      match s.phase {
        case Paging => OwesAfterCommit(s, events, s.frames, s.lastSent);
        case Writing(rows, full) => OwesAfterCommit(s, events, s.frames + rows, NextCursor(rows, s.lastSent));
        case Live => if !s.past.tail { OwesAfterCommit(s, events, s.past.replayed, s.past.joined); }
        case _ =>
      }
    }
  }

  lemma FeedingMeans(s: State)
    requires Feeding(s)
    ensures s.past.subscribedAt <= |s.committed|
  {
  }

  lemma PendingCommit(s: State, events: seq<Event>)
    requires Safe(s) && Distinct(s.pending) && Enabled(s, Commit(events))
    ensures Distinct(s.pending + events)
  {
    hide Ascending, Distinct;
    NewEvents(s.committed, events);
    DistinctAppend(s.pending, events);
  }

  lemma DistinctRemove(a: seq<Event>, b: seq<Event>, i: nat)
    requires Distinct(a + b) && i < |b|
    ensures Distinct(b) && Distinct(Remove(b, i)) && Distinct(a + Remove(b, i)) && Distinct(a + [b[i]] + Remove(b, i))
    ensures forall e :: e in a + b ==> e in a + [b[i]] + Remove(b, i)
  {
    var all, r := a + b, Remove(b, i);
    DistinctParts(a, b);
    DistinctParts(b[..i], b[i..]) by { assert b[..i] + b[i..] == b; }
    DistinctParts([b[i]], b[i + 1..]) by { assert [b[i]] + b[i + 1..] == b[i..]; }
    assert forall e :: e in b <==> e in b[..i] || e in b[i..] by { assert b == b[..i] + b[i..]; }
    assert forall e :: e in b[i..] <==> e == b[i] || e in b[i + 1..] by { assert b[i..] == [b[i]] + b[i + 1..]; }
    assert b[i] in b[i..] && b[i] in [b[i]];
    hide Distinct;
    DistinctAppend(b[..i], b[i + 1..]);
    DistinctAppend(a, r);
    DistinctAppend(a, [b[i]]) by { assert Distinct([b[i]]) by { DistinctOne(b[i]); } }
    DistinctAppend(a + [b[i]], r);
  }

  lemma DistinctOne(e: Event)
    ensures Distinct([e])
  {
  }

  lemma DistinctParts(a: seq<Event>, b: seq<Event>)
    requires Distinct(a + b)
    ensures Distinct(a) && Distinct(b) && forall e :: e in b ==> e !in a
  {
    var all := a + b;
    assert forall j :: 0 <= j < |b| ==> all[|a| + j] == b[j];
    assert forall j :: 0 <= j < |a| ==> all[j] == a[j];
    forall e | e in b ensures e !in a {
      var k :| 0 <= k < |b| && b[k] == e;
      assert all[|a| + k] == e;
    }
  }

  lemma FedPublish(s: State, i: nat)
    requires Safe(s) && Fed(s) && Enabled(s, Publish(i))
    ensures Fed(Step(s, Publish(i)))
  {
    hide Safe, Ascending, Distinct, Owes, Select, Follow, Covers;
    var s' := Step(s, Publish(i));
    assert Distinct([] + s.pending) by { assert [] + s.pending == s.pending; }
    DistinctRemove([], s.pending, i);
    if !s.phase.Offline? {
      FeedingPublish(s, i);
      assert Heard(s') == Heard(s);
      StillOwes(s, s');
    }
  }

  lemma StillOwes(s: State, s': State)
    requires s'.committed == s.committed && s'.past.carried == s.past.carried && s'.past.resumedAt == s.past.resumedAt
        && s'.origin == s.origin
    requires s'.past.subscribedAt == s.past.subscribedAt
    ensures forall have, c :: Owes(s, have, c) ==> Owes(s', have, c)
    ensures forall c :: Covers(s, c) ==> Covers(s', c)
  {
    hide Select;
  }

  lemma FeedingPublish(s: State, i: nat)
    requires Safe(s) && Feeding(s) && Enabled(s, Publish(i))
    ensures Feeding(Step(s, Publish(i)))
  {
    hide Ascending, Distinct;
    DistinctRemove(s.past.arrived, s.pending, i);
    assert s.pending[i] in s.pending;
  }

  lemma FedRead(s: State)
    requires Safe(s) && Fed(s) && Enabled(s, ReadStored)
    ensures Fed(Step(s, ReadStored))
  {
    hide Select, Feeding, Safe, Passes, Ascending;
    var s' := Step(s, ReadStored);
    var all := Select(s.committed, s.lastSent, EVERYTHING);
    var rows := s'.phase.rows;
    assert Ascending(s.committed) by { SafeMeans(s); }
    ResumeAtCut(s.committed, s.lastSent, EVERYTHING, |rows|);
    assert rows == all[..|rows|];
    SelectAscends(s.committed, s.lastSent, EVERYTHING);
    assert From(rows, s.committed);
    ReadOwes(s, rows);
    StillOwes(s, s');
    if !s'.phase.full {
      assert rows == all && |rows + Select(s.committed, NextCursor(rows, s.lastSent), EVERYTHING)| == |all|;
      CaughtUp(s, NextCursor(rows, s.lastSent));
    }
    FeedingKept(s, s');
  }

  lemma FeedingKept(s: State, s': State)
    requires s' == s.(phase := s'.phase)
    ensures Feeding(s) ==> Feeding(s')
  {
    hide Distinct;
  }

  lemma SafeMeans(s: State)
    requires Safe(s)
    ensures Ascending(s.committed) && s.lastSent == NextCursor(s.frames, FirstCursor(s)) && From(s.frames, s.committed)
  {
  }

  lemma ReadOwes(s: State, rows: seq<Event>)
    requires Owes(s, s.frames, s.lastSent) && From(rows, s.committed) && NextCursor(rows, s.lastSent) >= s.lastSent
    requires var c := NextCursor(rows, s.lastSent);
             Select(s.committed, s.lastSent, EVERYTHING) == rows + Select(s.committed, c, EVERYTHING)
    ensures var s' := s.(phase := Writing(rows, |rows| >= REPLAY_PAGE));
            Owes(s', s.frames + rows, NextCursor(rows, s.lastSent))
  {
    hide Select;
    var rest := Select(s.committed, NextCursor(rows, s.lastSent), EVERYTHING);
    assert (s.frames + rows) + rest == s.frames + (rows + rest);
  }

  lemma CaughtUp(s: State, cursor: nat)
    requires Ascending(s.committed) && Select(s.committed, cursor, EVERYTHING) == []
    ensures Covers(s, cursor)
  {
    hide Select, Passes;
    SelectAscends(s.committed, cursor, EVERYTHING);
    forall i | 0 <= i < |s.committed| ensures s.committed[i].sequence <= cursor {
      EverythingPasses(s.committed[i]);
      assert s.committed[i] in s.committed;
    }
  }

  lemma FedWrite(s: State)
    requires Safe(s) && Fed(s) && Enabled(s, WriteRow)
    ensures Fed(Step(s, WriteRow))
  {
    hide Safe, Select, Owes, Covers, Follow, Distinct;
    var s' := Step(s, WriteRow);
    var rows := s.phase.rows;
    assert s'.frames + s'.phase.rows == s.frames + rows;
    assert NextCursor(s'.phase.rows, s'.lastSent) == NextCursor(rows, s.lastSent);
    StillOwes(s, s');
  }

  lemma FedEndPage(s: State)
    requires Safe(s) && Fed(s) && Enabled(s, EndPage)
    ensures Fed(Step(s, EndPage))
  {
    hide Safe, Select, Owes, Covers, Distinct;
    var s' := Step(s, EndPage);
    assert s.frames + s.phase.rows == s.frames;
    assert Heard(s') == [];
    StillOwes(s, s');
  }

  lemma FedReceive(s: State)
    requires Safe(s) && Fed(s) && Enabled(s, Receive)
    ensures Fed(Step(s, Receive))
  {
    hide Safe, Select, Owes, Covers, Distinct, Follow;
    var s' := Step(s, Receive);
    var e := s.queue[0];
    assert Heard(s') == Heard(s) + [e];
    FollowSnoc(s.past.joined, Heard(s), e);
    StillOwes(s, s');
  }

  lemma FeedingStarts(s: State, s': State)
    requires Safe(s) && Distinct(s.pending) && s'.pending == s.pending && s'.committed == s.committed
    requires s'.queue == [] && s'.past.arrived == [] && s'.past.subscribedAt == |s.committed|
    ensures Feeding(s')
  {
    hide Ascending, Distinct;
    assert [] + s.pending == s.pending;
  }

  lemma ReplayingStarts(s: State)
    requires s.past.carried == s.frames && s.past.resumedAt == s.lastSent && s.queue == [] && s.past.arrived == []
    requires s.past.joined == s.lastSent && s.past.replayed == s.frames && s.past.tail == s.phase.Live?
    requires From(s.frames, s.committed) && s.lastSent == NextCursor(s.frames, FirstCursor(s))
    requires s.phase.Live? || s.phase.Paging?
    ensures Replaying(s)
  {
    hide Select;
    assert Heard(s) == [];
  }

  lemma FedConnect(s: State, a: Action)
    requires Safe(s) && Fed(s) && Enabled(s, a) && (a.Start? || a.StartNow? || a.Resume?)
    ensures Fed(Step(s, a))
  {
    hide Select, Ascending, Distinct, Feeding, Replaying;
    var s' := Step(s, a);
    FeedingStarts(s, s');
    ReplayingStarts(s');
  }

  lemma StepFed(s: State, a: Action)
    requires Safe(s) && Fed(s) && Enabled(s, a) && !a.Prune?
    ensures Fed(Step(s, a))
  {
    hide Select, Ascending, Follow, Safe, Distinct, Owes, Covers;
    match a {
      case Commit(events) => FedCommit(s, events);
      case Publish(i) => FedPublish(s, i);
      case ReadStored => FedRead(s);
      case WriteRow => FedWrite(s);
      case EndPage => FedEndPage(s);
      case Receive => FedReceive(s);
      case CloseBus => StillOwes(s, Step(s, a));
      case Closed =>
      case Disconnect =>
      case _ => FedConnect(s, a);
    }
  }

  // --- when the tail is complete ---

  /** A connection that has drained its channel has delivered everything after the cursor it presented, if and
      only if what arrived after replay left off arrived in sequence order. */
  lemma DrainedExactly(s: State)
    requires Safe(s) && Fed(s) && s.phase.Live? && s.open && !s.past.tail && s.queue == [] && s.pending == []
    ensures s.frames == s.past.carried + Select(s.committed, s.past.resumedAt, EVERYTHING)
            <==> Ascending(Select(s.past.arrived, s.past.joined, EVERYTHING))
  {
    hide Select, Follow, Ascending, Distinct, Safe;
    var owed := Select(s.committed, s.past.joined, EVERYTHING);
    var sent := Follow(s.past.joined, s.past.arrived);
    assert s.past.arrived + s.pending == s.past.arrived && Heard(s) == s.past.arrived;
    assert Ascending(s.committed) by { SafeMeans(s); }
    ArrivedIsOwed(s);
    FollowAscends(s.past.joined, s.past.arrived);
    SelectAscends(s.committed, s.past.joined, EVERYTHING);
    assert s.frames == s.past.replayed + sent;
    assert s.past.replayed + owed == s.past.carried + Select(s.committed, s.past.resumedAt, EVERYTHING);
    if s.past.replayed + sent == s.past.replayed + owed {
      assert sent == (s.past.replayed + sent)[|s.past.replayed|..] == owed;
      FollowMisses(s.past.joined, s.past.arrived);
    }
    if Ascending(Select(s.past.arrived, s.past.joined, EVERYTHING)) {
      FollowKeepsAll(s.past.joined, s.past.arrived);
      SelectMembers(s.past.arrived, s.past.joined);
      AscendingUnique(sent, owed);
    }
  }

  lemma {:induction false} SelectMembers(xs: seq<Event>, cursor: nat)
    ensures forall e :: e in Select(xs, cursor, EVERYTHING) <==> e in xs && e.sequence > cursor
  {
    hide Passes;
    if xs != [] {
      EverythingPasses(xs[0]);
      SelectMembers(xs[1..], cursor);
      assert xs == [xs[0]] + xs[1..];
    }
  }

  lemma ArrivedIsOwed(s: State)
    requires Feeding(s) && Covers(s, s.past.joined) && s.open && !s.past.tail && s.pending == []
        && Ascending(s.committed)
    ensures forall e :: e in Select(s.committed, s.past.joined, EVERYTHING)
                        <==> e in s.past.arrived && e.sequence > s.past.joined
  {
    hide Select, Ascending, Distinct;
    SelectMembers(s.committed, s.past.joined);
    forall e | e in s.committed && e.sequence > s.past.joined ensures e in s.past.arrived {
      var i :| 0 <= i < |s.committed| && s.committed[i] == e;
      assert i >= s.past.subscribedAt;
      assert s.committed[i] in s.past.arrived + s.pending;
    }
  }

  /** Over every run without pruning, whatever the order of publication. */
  lemma {:induction false} TailExact(s: State, run: seq<Action>)
    requires Safe(s) && Fed(s) && Possible(s, run) && forall a :: a in run ==> !a.Prune?
    ensures var t := After(s, run);
            t.phase.Live? && t.open && !t.past.tail && t.queue == [] && t.pending == [] ==>
              (t.frames == t.past.carried + Select(t.committed, t.past.resumedAt, EVERYTHING)
               <==> Ascending(Select(t.past.arrived, t.past.joined, EVERYTHING)))
    decreases |run|
  {
    hide Safe, Fed, Step, Enabled, Select, Ascending;
    if run == [] {
      if s.phase.Live? && s.open && !s.past.tail && s.queue == [] && s.pending == [] { DrainedExactly(s); }
    } else {
      StepSafe(s, run[0]);
      StepFed(s, run[0]);
      TailExact(Step(s, run[0]), run[1..]);
    }
  }

  // --- what publication out of order costs ---

  /** Nothing but starting over takes frames back. */
  lemma {:induction false} FramesOnlyGrow(s: State, run: seq<Action>)
    requires Possible(s, run) && forall a :: a in run ==> !a.Start? && !a.StartNow?
    ensures s.frames <= After(s, run).frames && s.origin == After(s, run).origin
    decreases |run|
  {
    hide Select;
    if run != [] { FramesOnlyGrow(Step(s, run[0]), run[1..]); }
  }

  /** An event the client's cursor has passed over is lost to it for good, reconnecting included. */
  lemma PassedOverIsLost(s: State, run: seq<Action>, e: Event)
    requires Safe(s) && s.frames != [] && e !in s.frames && e.sequence <= s.lastSent
    requires Possible(s, run) && forall a :: a in run ==> !a.Start? && !a.StartNow?
    ensures e !in After(s, run).frames
  {
    hide Safe;
    var t := After(s, run);
    FramesOnlyGrow(s, run);
    StreamSafe(s, run);
    FramesAscend(s);
    FramesAscend(t);
    forall i | 0 <= i < |t.frames| ensures t.frames[i] != e {
      assert t.frames[|s.frames| - 1] == s.frames[|s.frames| - 1];
      if i < |s.frames| { assert t.frames[i] == s.frames[i]; }
    }
  }

  lemma FramesAscend(s: State)
    requires Safe(s)
    ensures Ascending(s.frames) && (s.frames != [] ==> s.frames[|s.frames| - 1].sequence == s.lastSent)
  {
  }

  ghost predicate Leads(s: State, run: seq<Action>, t: State) { Possible(s, run) && After(s, run) == t }

  lemma Prepend(s: State, a: Action, rest: seq<Action>, t: State)
    requires Enabled(s, a) && Leads(Step(s, a), rest, t)
    ensures Leads(s, [a] + rest, t)
  {
    hide Step, Enabled;
    assert ([a] + rest)[1..] == rest;
  }

  /** Take any client that follows the bus and has drained its channel. Two writers commit one event each and
      publish the other way round: the client gets the second and, its cursor having passed over it, never
      the first. */
  lemma OutOfOrderLoses(s: State, first: Event, second: Event)
    requires Enabled(s, Commit([first, second])) && s.lastSent < first.sequence < second.sequence
    requires s.phase.Live? && s.open && s.queue == [] && s.pending == []
    ensures var run := [Commit([first, second])] + ([Publish(1)] + ([Publish(0)] + ([Receive] + ([Receive] + []))));
            exists t :: Leads(s, run, t) && t.pending == [] && t.queue == [] && t.phase.Live? && t.open
              && t.committed == s.committed + [first, second] && t.frames == s.frames + [second]
              && t.lastSent == second.sequence
  {
    var s1 := Step(s, Commit([first, second]));
    assert s1.pending == [first, second];
    var s2 := Step(s1, Publish(1));
    assert s2.queue == [second] && s2.pending == [first];
    var s3 := Step(s2, Publish(0));
    assert s3.queue == [second, first] && s3.pending == [];
    var s4 := Step(s3, Receive);
    assert s4.frames == s.frames + [second] && s4.queue == [first];
    var t := Step(s4, Receive);
    hide Step, Enabled;
    assert Leads(t, [], t);
    Prepend(s4, Receive, [], t);
    Prepend(s3, Receive, [Receive] + [], t);
    Prepend(s2, Publish(0), [Receive] + ([Receive] + []), t);
    Prepend(s1, Publish(1), [Publish(0)] + ([Receive] + ([Receive] + [])), t);
    Prepend(s, Commit([first, second]), [Publish(1)] + ([Publish(0)] + ([Receive] + ([Receive] + []))), t);
  }

  /** Such a client exists: from the start, connect, replay nothing, and let two commits cross. */
  lemma OutOfOrderLosesFromIdle(first: Event, second: Event)
    requires 0 < first.sequence < second.sequence
    ensures var run := [Start(0)] + ([ReadStored] + ([EndPage] + ([Commit([first, second])]
                       + ([Publish(1)] + ([Publish(0)] + ([Receive] + ([Receive] + [])))))));
            exists t :: Leads(Idle, run, t) && t.pending == [] && t.queue == [] && t.phase.Live? && t.open
              && t.committed == [first, second] && t.frames == [second] && first !in t.frames
  {
    var s1 := Step(Idle, Start(0));
    var s2 := Step(s1, ReadStored);
    var s := Step(s2, EndPage);
    assert s.phase == Live && s.lastSent == 0 && s.frames == [] && s.queue == [] && s.open && s.pending == [];
    assert s.committed == [] && Enabled(s, Commit([first, second]));
    OutOfOrderLoses(s, first, second);
    hide Step, Enabled;
    var rest := [Commit([first, second])] + ([Publish(1)] + ([Publish(0)] + ([Receive] + ([Receive] + []))));
    var t :| Leads(s, rest, t) && t.pending == [] && t.queue == [] && t.phase.Live? && t.open
             && t.committed == s.committed + [first, second] && t.frames == s.frames + [second]
             && t.lastSent == second.sequence;
    Prepend(s2, EndPage, rest, t);
    Prepend(s1, ReadStored, [EndPage] + rest, t);
    Prepend(Idle, Start(0), [ReadStored] + ([EndPage] + rest), t);
  }
}
