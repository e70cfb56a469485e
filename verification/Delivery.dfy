/** The event readers as they run: the cursor and newest reads, the stream handler's loops, and the dashboard's view. */
module Delivery {
  import opened EventLog
  import opened LiveTail
  import Stream
  import Feed

  // --- cursors as text ---

  const MAX_INT64 := 0x7fff_ffff_ffff_ffff

  predicate IsDigits(s: string) { s != [] && forall c :: c in s ==> '0' <= c <= '9' }

  function DigitsValue(s: string): nat {
    if s == [] then 0
    else 10 * DigitsValue(s[..|s| - 1]) + if '0' <= s[|s| - 1] <= '9' then (s[|s| - 1] - '0') as int else 0
  }

  /** parseAfter: a base-10 int64 with an optional sign; anything malformed, negative or out of range is the
      beginning. */
  function ParseAfter(v: string): nat {
    var digits := if v != [] && (v[0] == '+' || v[0] == '-') then v[1..] else v;
    if !IsDigits(digits) || v[0] == '-' || DigitsValue(digits) > MAX_INT64 then 0 else DigitsValue(digits)
  }

  lemma {:induction false} FormatDigits(n: nat)
    ensures IsDigits(FormatNat(n)) && DigitsValue(FormatNat(n)) == n
  {
    var digit := "0123456789"[n % 10];
    DigitOf(n % 10);
    if n < 10 {
      assert FormatNat(n) == [digit];
      assert [digit][..0] == [];
    } else {
      FormatDigits(n / 10);
      var init := FormatNat(n / 10);
      assert FormatNat(n) == init + [digit] && (init + [digit])[..|init|] == init;
    }
  }

  lemma DigitOf(d: nat)
    requires d < 10
    ensures '0' <= "0123456789"[d] <= '9' && ("0123456789"[d] - '0') as int == d
  {
  }

  /** The id a frame carries comes back as the cursor it stands for. */
  lemma CursorRoundTrip(n: nat)
    ensures ParseAfter(FormatNat(n)) == if n <= MAX_INT64 then n else 0
  {
    FormatDigits(n);
    assert FormatNat(n)[0] in FormatNat(n);
  }

  /** Which texts are cursors: digits, with a plus or not, up to the greatest int64. A negative one or any other text is
      the beginning. */
  lemma CursorsRead(digits: string, other: string)
    requires IsDigits(digits)
    ensures var n := DigitsValue(digits);
            && ParseAfter(digits) == ParseAfter("+" + digits) == (if n <= 9223372036854775807 then n else 0)
            && ParseAfter("-" + digits) == 0
    ensures ParseAfter(other) != 0 ==> IsDigits(other) || (other[0] == '+' && IsDigits(other[1..]))
  {
    assert digits[0] in digits;
    assert ("+" + digits)[1..] == digits && ("-" + digits)[1..] == digits;
  }

  // --- reads ---

  /** listEvents, over the rows the query sees. */
  method ListEvents(log: seq<Event>, after: int, limit: int, f: Filter) returns (rows: seq<Event>, next: nat)
    ensures Page(rows, next) == ReadPage(log, after, limit, f)
  {
    var n := ClampLimit(limit);
    var cursor := ClampAfter(after);
    rows := ListEventsAfter(log, cursor, f, n);
    next := cursor;
    if |rows| > 0 { next := rows[|rows| - 1].sequence; }
  }

  /** The query: a scan in sequence order that stops at the limit. */
  method ListEventsAfter(log: seq<Event>, after: int, f: Filter, n: nat) returns (rows: seq<Event>)
    ensures rows == Take(Select(log, after, f), n)
  {
    hide Passes, Select;
    rows := [];
    assert log[0..] == log;
    for i := 0 to |log|
      invariant |rows| <= n && rows + Select(log[i..], after, f) == Select(log, after, f)
    {
      SelectStep(log, i, after, f);
      if log[i].sequence > after && Passes(f, log[i]) {
        if |rows| == n { return; }
        rows := rows + [log[i]];
      }
    }
    assert Select(log[|log|..], after, f) == [] by { SelectNothing(log, after, f); }
  }

  lemma SelectStep(log: seq<Event>, i: nat, after: int, f: Filter)
    requires i < |log|
    ensures Select(log[i..], after, f)
            == (if log[i].sequence > after && Passes(f, log[i]) then [log[i]] else []) + Select(log[i + 1..], after, f)
  {
    hide Passes;
    assert log[i..][0] == log[i] && log[i..][1..] == log[i + 1..];
  }

  lemma SelectNothing(log: seq<Event>, after: int, f: Filter)
    ensures Select(log[|log|..], after, f) == []
  {
  }

  /** The loop of recentEvents: a slice reversed in place. */
  method ReverseInPlace(rows: array<Event>)
    modifies rows
    ensures forall x :: 0 <= x < rows.Length ==> rows[x] == old(rows[rows.Length - 1 - x])
  {
    var i, j := 0, rows.Length - 1;
    while i < j
      invariant 0 <= i <= rows.Length && -1 <= j < rows.Length && i + j == rows.Length - 1
      invariant forall x :: 0 <= x < i || j < x < rows.Length ==> rows[x] == old(rows[rows.Length - 1 - x])
      invariant forall x :: i <= x <= j ==> rows[x] == old(rows[x])
    {
      rows[i], rows[j] := rows[j], rows[i];
      i, j := i + 1, j - 1;
    }
  }

  /** recentEvents: the newest rows arrive newest first, the head is read off, and the slice is reversed. */
  method RecentEvents(log: seq<Event>, limit: int) returns (rows: array<Event>, next: nat)
    ensures fresh(rows) && Page(rows[..], next) == Newest(log, limit)
  {
    var n := ClampLimit(limit);
    var k := if |log| <= n then |log| else n;
    rows := new Event[k](i requires 0 <= i < k => log[|log| - 1 - i]);
    next := 0;
    if rows.Length > 0 { next := rows[0].sequence; }
    ReverseInPlace(rows);
    assert rows[..] == log[|log| - k..];
  }

  // --- the stream handler ---

  /** One client connection. `broken` says which frame's write fails; nothing after a failed write is sent. */
  class Connection {
    var frames: seq<Event>
    const broken: nat -> bool

    constructor (broken: nat -> bool)
      ensures frames == [] && this.broken == broken
    {
      frames := [];
      this.broken := broken;
    }

    method WriteFrame(e: Event) returns (ok: bool)
      modifies this
      ensures ok <==> !broken(|old(frames)|)
      ensures frames == if ok then old(frames) + [e] else old(frames)
    {
      ok := !broken(|frames|);
      if ok { frames := frames + [e]; }
    }

    /** Writing a page stops at the first failure, with the cursor at the last row written. */
    method WritePage(rows: seq<Event>, after: nat) returns (last: nat, ok: bool)
      modifies this
      ensures ok ==> frames == old(frames) + rows
      ensures !ok ==> old(frames) <= frames < old(frames) + rows && broken(|frames|)
      ensures last == NextCursor(frames[|old(frames)|..], after)
    {
      last, ok := after, true;
      for i := 0 to |rows|
        invariant frames == old(frames) + rows[..i] && last == NextCursor(rows[..i], after)
      {
        ok := WriteFrame(rows[i]);
        if !ok { return; }
        last := rows[i].sequence;
      }
    }

    /** One page of the replay, read when the log had grown to `seen`, a prefix of what it will be (`log`). */
    method ReplayPage(seen: seq<Event>, after: nat, ghost log: seq<Event>) returns (last: nat, ok: bool, short: bool)
      requires Ascending(log) && seen <= log
      modifies this
      ensures old(frames) <= frames
      ensures Select(log, after, EVERYTHING) == frames[|old(frames)|..] + Select(log, last, EVERYTHING)
      ensures !ok ==> Select(log, last, EVERYTHING) != [] && broken(|frames|)
      ensures ok && short ==> Select(seen, last, EVERYTHING) == []
      ensures ok && !short ==> |Select(log, last, EVERYTHING)| < |Select(log, after, EVERYTHING)|
    {
      hide Select, Ascending;
      var rows := ListEventsAfter(seen, after, EVERYTHING, Stream.REPLAY_PAGE);
      last, ok := WritePage(rows, after);
      ghost var owed, sent := Select(log, after, EVERYTHING), frames[|old(frames)|..];
      assert log == seen + log[|seen|..];
      SelectConcat(seen, log[|seen|..], after, EVERYTHING);
      assert sent == owed[..|sent|];
      ResumeAtCut(log, after, EVERYTHING, |sent|);
      short := |rows| < Stream.REPLAY_PAGE;
      if ok && short { NothingLeft(seen, log, after, sent); }
    }

    /** replayEvents: page after page until one comes back short. `arriving` is what is committed just before each
        page is read. Whether or not a write fails, what was written is a prefix of the events after the cursor, the
        returned cursor resumes right behind it, and success means that nothing was left when the last page was read.
        */
    method ReplayEvents(stored: seq<Event>, after: nat, arriving: seq<seq<Event>>)
      returns (last: nat, ok: bool, pages: nat)
      requires Ascending(Grown(stored, arriving, |arriving|))
      modifies this
      ensures old(frames) <= frames
      ensures var log := Grown(stored, arriving, |arriving|);
              Select(log, after, EVERYTHING) == frames[|old(frames)|..] + Select(log, last, EVERYTHING)
      ensures ok ==> pages > 0 && Select(Grown(stored, arriving, pages), last, EVERYTHING) == []
      ensures !ok ==> broken(|frames|)
    {
      hide Select, Ascending, Grown;
      ghost var log := Grown(stored, arriving, |arriving|);
      var seen := stored;
      last, ok, pages := after, true, 0;
      assert [] + Select(log, after, EVERYTHING) == Select(log, after, EVERYTHING);
      assert seen == Grown(stored, arriving, 0) by { GrownByNone(stored, arriving); }
      while true
        invariant old(frames) <= frames && seen == Grown(stored, arriving, pages)
        invariant Select(log, after, EVERYTHING) == frames[|old(frames)|..] + Select(log, last, EVERYTHING)
        decreases |Select(log, last, EVERYTHING)|
      {
        ghost var before := frames;
        var short;
        GrownStep(stored, arriving, pages);
        if pages < |arriving| { seen := seen + arriving[pages]; }
        pages := pages + 1;
        last, ok, short := ReplayPage(seen, last, log);
        assert frames[|old(frames)|..] == before[|old(frames)|..] + frames[|before|..];
        if !ok || short { return; }
      }
    }

    /** The receive loop, over what the channel delivers until it closes. */
    method FollowBus(received: seq<Event>, after: nat) returns (ok: bool)
      modifies this
      ensures ok ==> frames == old(frames) + Follow(after, received)
      ensures !ok ==> old(frames) <= frames < old(frames) + Follow(after, received) && broken(|frames|)
    {
      var last := after;
      ok := true;
      for i := 0 to |received|
        invariant old(frames) <= frames && frames + Follow(last, received[i..]) == old(frames) + Follow(after, received)
      {
        assert received[i..][0] == received[i] && received[i..][1..] == received[i + 1..];
        if received[i].sequence <= last { continue; }
        ok := WriteFrame(received[i]);
        if !ok { return; }
        last := received[i].sequence;
      }
    }
  }

  /** The log after its first n growths. */
  function Grown(stored: seq<Event>, arriving: seq<seq<Event>>, n: nat): seq<Event> {
    if n == 0 then stored
    else Grown(stored, arriving, n - 1) + (if n <= |arriving| then arriving[n - 1] else [])
  }

  lemma GrownByNone(stored: seq<Event>, arriving: seq<seq<Event>>)
    ensures Grown(stored, arriving, 0) == stored
  {
  }

  lemma GrownStep(stored: seq<Event>, arriving: seq<seq<Event>>, n: nat)
    ensures Grown(stored, arriving, n + 1)
            == if n < |arriving| then Grown(stored, arriving, n) + arriving[n] else Grown(stored, arriving, n)
    ensures Grown(stored, arriving, n + 1) <= Grown(stored, arriving, |arriving|)
  {
    GrownMonotone(stored, arriving, n + 1);
  }

  lemma {:induction false} GrownMonotone(stored: seq<Event>, arriving: seq<seq<Event>>, n: nat)
    ensures Grown(stored, arriving, n) <= Grown(stored, arriving, |arriving|)
    ensures n >= |arriving| ==> Grown(stored, arriving, n) == Grown(stored, arriving, |arriving|)
    decreases if n <= |arriving| then |arriving| - n else n
  {
    if n < |arriving| { GrownMonotone(stored, arriving, n + 1); }
    else if n > |arriving| { GrownMonotone(stored, arriving, n - 1); }
  }

  /** After a short page that was written whole, what the reader saw of the log holds nothing more. */
  lemma NothingLeft(seen: seq<Event>, log: seq<Event>, after: nat, sent: seq<Event>)
    requires Ascending(log) && seen <= log && sent == Select(seen, after, EVERYTHING)
    ensures Select(seen, NextCursor(sent, after), EVERYTHING) == []
  {
    hide Select;
    assert Ascending(seen) by { assert forall i :: 0 <= i < |seen| ==> seen[i] == log[i]; }
    ResumeAtCut(seen, after, EVERYTHING, |sent|);
    assert sent[..|sent|] == sent;
    assert |sent + Select(seen, NextCursor(sent, after), EVERYTHING)| == |sent|;
  }

  // --- the dashboard ---

  class EventsView {
    /** Chronological, oldest first. */
    var shown: seq<Event>
    /** The highest sequence seen. */
    var lastSeq: nat

    constructor ()
      ensures shown == [] && lastSeq == 0
    {
      shown, lastSeq := [], 0;
    }

    method LoadRecent(log: seq<Event>) returns (cursor: nat)
      modifies this
      ensures Page(shown, lastSeq) == Newest(log, Feed.INITIAL_LIMIT) && cursor == lastSeq
    {
      var rows, next := RecentEvents(log, Feed.INITIAL_LIMIT);
      shown, lastSeq := rows[..], next;
      cursor := next;
    }

    method AppendEvents(batch: seq<Event>, next: nat)
      modifies this
      ensures (shown, lastSeq) == Feed.Appended(old(shown), old(lastSeq), Page(batch, next))
    {
      shown := shown + batch;
      if next > lastSeq { lastSeq := next; }
      if |shown| > Feed.MAX_STORED { shown := shown[|shown| - Feed.MAX_STORED..]; }
    }

    /** One round of the poll loop with its dispatch: the view moves to the window that ends at the new cursor. */
    method Poll(log: seq<Event>, cursor: nat, ghost start: nat) returns (next: nat)
      requires Feed.Numbered(log) && cursor == lastSeq && Feed.IsWindow(shown, log, start, lastSeq)
      modifies this
      ensures next == lastSeq && Feed.IsWindow(shown, log, start, lastSeq) && |shown| <= Feed.MAX_STORED
      ensures Cut(log, lastSeq) == Cut(log, old(lastSeq)) + |ReadPage(log, cursor, Feed.POLL_LIMIT, EVERYTHING).rows|
    {
      hide Cut, Select;
      var batch;
      batch, next := ListEvents(log, cursor, Feed.POLL_LIMIT, EVERYTHING);
      if |batch| == 0 { return; }
      Feed.PollContinues(log, cursor);
      ghost var s := Feed.State(log, Feed.Polling, shown, lastSeq, next, [Page(batch, next)], start);
      assert Feed.Chain(log, next, [], next);
      assert [Page(batch, next)][1..] == [];
      assert Feed.Contiguous(s);
      Feed.DeliverKeepsWindow(s);
      AppendEvents(batch, next);
    }
  }
}
