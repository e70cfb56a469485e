/** The committed event log and its two cursor reads. */
module EventLog {
  import opened Ledger

  /** One row of the events table: `sequence` is the cursor, strictly increasing with gaps allowed. */
  datatype Event = Event(sequence: nat, at: int, data: Data)

  ghost predicate Ascending(log: seq<Event>) {
    forall i, j :: 0 <= i < j < |log| ==> log[i].sequence < log[j].sequence
  }

  /** The payloads, without their sequence numbers and times: the log as the ledger writes it. */
  function DataOf(events: seq<Event>): seq<Data> { seq(|events|, i requires 0 <= i < |events| => events[i].data) }

  lemma DataSnoc(events: seq<Event>, e: Event)
    ensures DataOf(events + [e]) == DataOf(events) + [e.data]
  {
  }

  lemma DataOfSuffix(events: seq<Event>, n: nat)
    requires n <= |events|
    ensures DataOf(events[n..]) == DataOf(events)[n..]
  {
  }

  lemma DataLength(events: seq<Event>)
    ensures |DataOf(events)| == |events|
  {
  }

  // --- what the filters see of an event ---

  function TypeOf(d: Data): string {
    match d
    case AccountCreated(_, _) => "account.created"
    case AccountUpdated(_, _) => "account.updated"
    case AccountDeleted(_, _) => "account.deleted"
    case TxnCreated(_, _) => "transaction.created"
    case TxnUpdated(_, _) => "transaction.updated"
    case TxnDeleted(_, _) => "transaction.deleted"
    case PairSet(_, seam, _, _) => if seam.LabelSeam? then "label.applied" else "extension.set"
    case PairRemoved(_, seam, _, _) => if seam.LabelSeam? then "label.removed" else "extension.removed"
    case EdgeCreated(_, _) => "relationship.created"
    case EdgeRemoved(_, _) => "relationship.removed"
    case LabelDeleted(_, _, _) => "label.removed"
    case RuleExecuted(_, _, _) => "rule.executed"
    case RuleReverted(_, _, _) => "rule.reverted"
  }

  function EntityTypeOf(d: Data): string {
    match d
    case AccountCreated(_, _) => "account"
    case AccountUpdated(_, _) => "account"
    case AccountDeleted(_, _) => "account"
    case LabelDeleted(_, _, _) => "label"
    case RuleExecuted(_, _, _) => "rule"
    case RuleReverted(_, _, _) => "rule"
    case _ => "transaction"
  }

  function FormatNat(n: nat): string {
    if n < 10 then ["0123456789"[n]] else FormatNat(n / 10) + ["0123456789"[n % 10]]
  }

  function EntityIdOf(d: Data): string {
    if d.RuleExecuted? || d.RuleReverted? then (if d.ruleId > 0 then FormatNat(d.ruleId) else "") else d.id
  }

  /** Exact-match filters; "" disables one. */
  datatype Filter = Filter(eventType: string, entityType: string, entityId: string)

  const EVERYTHING := Filter("", "", "")

  predicate Passes(f: Filter, e: Event) {
    && (f.eventType == "" || f.eventType == TypeOf(e.data))
    && (f.entityType == "" || f.entityType == EntityTypeOf(e.data))
    && (f.entityId == "" || f.entityId == EntityIdOf(e.data))
  }

  // --- reads ---

  /** Every stored event after a cursor that passes the filters, in stream order. */
  function Select(log: seq<Event>, after: int, f: Filter): seq<Event> {
    if log == [] then []
    else (if log[0].sequence > after && Passes(f, log[0]) then [log[0]] else []) + Select(log[1..], after, f)
  }

  function Take(rows: seq<Event>, n: nat): seq<Event> { if |rows| <= n then rows else rows[..n] }

  const DEFAULT_LIMIT := 100
  const MAX_LIMIT := 1000

  function ClampLimit(limit: int): (n: nat)
    ensures 1 <= n <= 1000 && (1 <= limit <= 1000 ==> n == limit)
    ensures (limit <= 0 ==> n == 100) && (limit > 1000 ==> n == 1000)
  {
    if limit <= 0 then DEFAULT_LIMIT else if limit > MAX_LIMIT then MAX_LIMIT else limit
  }

  function ClampAfter(after: int): nat { if after < 0 then 0 else after }

  /** The next cursor: the last sequence returned, or the input when the page is empty. */
  function NextCursor(rows: seq<Event>, after: nat): nat {
    if rows == [] then after else rows[|rows| - 1].sequence
  }

  datatype Page = Page(rows: seq<Event>, next: nat)

  function ReadPage(log: seq<Event>, after: int, limit: int, f: Filter): Page {
    var rows := Take(Select(log, ClampAfter(after), f), ClampLimit(limit));
    Page(rows, NextCursor(rows, ClampAfter(after)))
  }

  /** The newest events in chronological order, with the head sequence. */
  function Newest(log: seq<Event>, limit: int): Page {
    var n := ClampLimit(limit);
    var rows := if |log| <= n then log else log[|log| - n..];
    Page(rows, NextCursor(rows, 0))
  }

  lemma {:induction false} SelectConcat(a: seq<Event>, b: seq<Event>, after: int, f: Filter)
    ensures Select(a + b, after, f) == Select(a, after, f) + Select(b, after, f)
  {
    hide Passes;
    if a == [] {
      assert a + b == b;
    } else {
      assert (a + b)[0] == a[0] && (a + b)[1..] == a[1..] + b;
      SelectConcat(a[1..], b, after, f);
    }
  }

  lemma AscendingHead(e: Event, rest: seq<Event>)
    requires Ascending(rest) && forall x :: x in rest ==> e.sequence < x.sequence
    ensures Ascending([e] + rest)
  {
    var all := [e] + rest;
    forall i, j | 0 <= i < j < |all| ensures all[i].sequence < all[j].sequence {
      assert all[j] == rest[j - 1] && rest[j - 1] in rest;
      if i > 0 { assert all[i] == rest[i - 1]; }
    }
  }

  lemma AscendingRest(a: seq<Event>)
    requires Ascending(a) && a != []
    ensures Ascending(a[1..]) && forall e :: e in a[1..] <==> e in a && e != a[0]
    ensures forall e :: e in a[1..] ==> e.sequence > a[0].sequence
  {
    assert a == [a[0]] + a[1..];
    forall e | e in a[1..] ensures e.sequence > a[0].sequence {
      var i :| 0 <= i < |a[1..]| && a[1..][i] == e;
      assert a[i + 1] == e;
    }
  }

  lemma {:induction false} SelectAscends(log: seq<Event>, after: int, f: Filter)
    requires Ascending(log)
    ensures Ascending(Select(log, after, f))
    ensures forall e :: e in Select(log, after, f) <==> e in log && e.sequence > after && Passes(f, e)
  {
    hide Passes, Ascending;
    if log == [] {
      assert Ascending(Select(log, after, f));
    } else {
      AscendingRest(log);
      SelectAscends(log[1..], after, f);
      var rest := Select(log[1..], after, f);
      AscendingHead(log[0], rest);
      assert [] + rest == rest;
    }
  }

  /** Selecting from a later cursor selects from what the earlier cursor selected. */
  lemma {:induction false} SelectNarrows(log: seq<Event>, after: int, later: int, f: Filter)
    requires after <= later
    ensures Select(log, later, f) == Select(Select(log, after, f), later, f)
  {
    hide Passes;
    if log != [] {
      SelectNarrows(log[1..], after, later, f);
      var rest := Select(log[1..], after, f);
      if log[0].sequence > after && Passes(f, log[0]) {
        assert ([log[0]] + rest)[1..] == rest;
      } else {
        assert [] + rest == rest;
      }
    }
  }

  lemma {:induction false} SelectAbove(rows: seq<Event>, n: nat, b: int, f: Filter)
    requires n <= |rows| && forall e :: e in rows ==> Passes(f, e)
    requires (forall i :: 0 <= i < n ==> rows[i].sequence <= b)
        && (forall i :: n <= i < |rows| ==> rows[i].sequence > b)
    ensures Select(rows, b, f) == rows[n..]
  {
    hide Passes;
    if rows != [] {
      if n > 0 {
        SelectAbove(rows[1..], n - 1, b, f);
        assert rows[1..][n - 1..] == rows[n..];
      } else {
        SelectAbove(rows[1..], 0, b, f);
        assert rows[0..] == [rows[0]] + rows[1..];
      }
    }
  }

  /** Cutting a selection anywhere, and resuming from the cursor at the cut, neither loses nor repeats an event. */
  lemma ResumeAtCut(log: seq<Event>, after: nat, f: Filter, n: nat)
    requires Ascending(log) && n <= |Select(log, after, f)|
    ensures var all := Select(log, after, f);
            all == all[..n] + Select(log, NextCursor(all[..n], after), f)
            && NextCursor(all[..n], after) >= after
            && (NextCursor(all[..n], after) == after <==> n == 0)
  {
    hide Passes, Select;
    var all := Select(log, after, f);
    var next := NextCursor(all[..n], after);
    SelectAscends(log, after, f);
    if n > 0 { assert all[n - 1] in all; }
    SelectNarrows(log, after, next, f);
    assert forall i :: 0 <= i < |all| ==> all[i] in all;
    SelectAbove(all, n, next, f);
    assert all == all[..n] + all[n..];
  }

  // --- what a filter means ---

  /** The event type a filter names, by what the payload is. */
  predicate OfType(eventType: string, d: Data) {
    || (eventType == "account.created" && d.AccountCreated?)
    || (eventType == "account.updated" && d.AccountUpdated?)
    || (eventType == "account.deleted" && d.AccountDeleted?)
    || (eventType == "transaction.created" && d.TxnCreated?)
    || (eventType == "transaction.updated" && d.TxnUpdated?)
    || (eventType == "transaction.deleted" && d.TxnDeleted?)
    || (eventType == "label.applied" && d.PairSet? && d.seam.LabelSeam?)
    || (eventType == "extension.set" && d.PairSet? && d.seam.ExtensionSeam?)
    || (eventType == "label.removed" && (d.LabelDeleted? || (d.PairRemoved? && d.seam.LabelSeam?)))
    || (eventType == "extension.removed" && d.PairRemoved? && d.seam.ExtensionSeam?)
    || (eventType == "relationship.created" && d.EdgeCreated?)
    || (eventType == "relationship.removed" && d.EdgeRemoved?)
    || (eventType == "rule.executed" && d.RuleExecuted?)
    || (eventType == "rule.reverted" && d.RuleReverted?)
  }

  /** The entity a filter names: the kind of thing the event is about, and which. */
  predicate About(entityType: string, d: Data) {
    || (entityType == "account" && (d.AccountCreated? || d.AccountUpdated? || d.AccountDeleted?))
    || (entityType == "rule" && (d.RuleExecuted? || d.RuleReverted?))
    || (entityType == "label" && d.LabelDeleted?)
    || (entityType == "transaction"
        && (d.TxnCreated? || d.TxnUpdated? || d.TxnDeleted? || d.PairSet? || d.PairRemoved? || d.EdgeCreated?
            || d.EdgeRemoved?))
  }

  predicate Concerns(entityId: string, d: Data) {
    if d.RuleExecuted? || d.RuleReverted? then d.ruleId > 0 && entityId == FormatNat(d.ruleId) else d.id == entityId
  }

  /** An event a read with these filters is for. */
  predicate Wanted(f: Filter, after: int, e: Event) {
    && e.sequence > after
    && (f.eventType != "" ==> OfType(f.eventType, e.data))
    && (f.entityType != "" ==> About(f.entityType, e.data))
    && (f.entityId != "" ==> Concerns(f.entityId, e.data))
  }

  lemma PassesMeans(f: Filter, after: int, e: Event)
    ensures Wanted(f, after, e) <==> e.sequence > after && Passes(f, e)
  {
    hide FormatNat;
    TypeMeans(f.eventType, e.data);
    EntityMeans(f.entityType, e.data);
  }

  lemma TypeMeans(eventType: string, d: Data)
    ensures OfType(eventType, d) <==> eventType == TypeOf(d)
  {
  }

  lemma EntityMeans(entityType: string, d: Data)
    ensures About(entityType, d) <==> entityType == EntityTypeOf(d)
  {
  }

  /** A page holds stored events with exactly the type, entity type and entity id its filters name, and leaves out no
      later one that has them, unless it is full; then only events behind its `next` are left out. */
  lemma FilteredPage(log: seq<Event>, after: int, limit: int, f: Filter)
    requires Ascending(log)
    ensures var page := ReadPage(log, after, limit, f);
            var from := if after < 0 then 0 else after;
            && (forall e :: e in page.rows ==> e in log && Wanted(f, from, e))
            && (forall e :: e in log && Wanted(f, from, e) && e !in page.rows ==>
                  |page.rows| == ClampLimit(limit) && e.sequence > page.next)
  {
    hide Passes, Select, Wanted;
    var page, from := ReadPage(log, after, limit, f), ClampAfter(after);
    var all := Select(log, from, f);
    SelectAscends(log, from, f);
    forall e ensures Wanted(f, from, e) <==> e.sequence > from && Passes(f, e) { PassesMeans(f, from, e); }
    assert page.rows == all[..|page.rows|];
    forall e | e in log && Wanted(f, from, e) && e !in page.rows
      ensures |page.rows| == ClampLimit(limit) && e.sequence > page.next
    {
      assert e in all;
      var i :| 0 <= i < |all| && all[i] == e;
      assert i >= |page.rows| by { assert forall j :: 0 <= j < |page.rows| ==> all[j] in page.rows; }
    }
  }

  // --- paging ---

  /** One cursor read in a run of reads: what was appended to the log before it, and the limit it asked for. */
  datatype Call = Call(appended: seq<Event>, limit: int)

  /** A client passing each `next` back as `after`. Returns every row read, the last cursor, and the final log. */
  function ReadAll(log: seq<Event>, after: nat, f: Filter, calls: seq<Call>): (seq<Event>, nat, seq<Event>)
    decreases |calls|
  {
    if calls == [] then ([], after, log)
    else
      var log' := log + calls[0].appended;
      var page := ReadPage(log', after, calls[0].limit, f);
      var rest := ReadAll(log', page.next, f, calls[1..]);
      (page.rows + rest.0, rest.1, rest.2)
  }

  lemma {:induction false} ReadAllExtends(log: seq<Event>, after: nat, f: Filter, calls: seq<Call>)
    ensures log <= ReadAll(log, after, f, calls).2
    decreases |calls|
  {
    hide ReadPage;
    if calls != [] {
      var log' := log + calls[0].appended;
      ReadAllExtends(log', ReadPage(log', after, calls[0].limit, f).next, f, calls[1..]);
    }
  }

  /** A page read from any earlier state of the log is a prefix of what the final log would select, and `next`
      resumes right behind it. */
  lemma PageIsPrefix(log: seq<Event>, final: seq<Event>, after: nat, limit: int, f: Filter)
    requires Ascending(final) && log <= final
    ensures var page := ReadPage(log, after, limit, f);
            Select(final, after, f) == page.rows + Select(final, page.next, f)
  {
    hide Passes, Select, Ascending;
    var page := ReadPage(log, after, limit, f);
    assert final == log + final[|log|..];
    SelectConcat(log, final[|log|..], after, f);
    ResumeAtCut(final, after, f, |page.rows|);
  }

  /** Cursor reads tile the log: for any limits, any filter and any appends in between, what has been read followed
      by what a read from the last cursor would still return is exactly the matching events after the first
      cursor, each once and in order. */
  lemma {:induction false} ReadsTile(log: seq<Event>, after: nat, f: Filter, calls: seq<Call>)
    requires Ascending(ReadAll(log, after, f, calls).2)
    ensures var (rows, next, final) := ReadAll(log, after, f, calls);
            Select(final, after, f) == rows + Select(final, next, f)
    decreases |calls|
  {
    hide Passes, Select, Ascending, ReadPage;
    var (rows, next, final) := ReadAll(log, after, f, calls);
    if calls == [] {
      assert [] + Select(final, next, f) == Select(final, next, f);
    } else {
      var log' := log + calls[0].appended;
      var page := ReadPage(log', after, calls[0].limit, f);
      ReadAllExtends(log', page.next, f, calls[1..]);
      ReadsTile(log', page.next, f, calls[1..]);
      PageIsPrefix(log', final, after, calls[0].limit, f);
      var rest := ReadAll(log', page.next, f, calls[1..]);
      assert rows == page.rows + rest.0;
      assert page.rows + (rest.0 + Select(final, next, f)) == rows + Select(final, next, f);
    }
  }

  /** `next` equals the clamped cursor exactly when the page is empty, and that is exactly when the caller is
      caught up; any other page leaves strictly less to read. */
  lemma CaughtUpExactly(log: seq<Event>, after: int, limit: int, f: Filter)
    requires Ascending(log)
    ensures var page := ReadPage(log, after, limit, f);
            && (page.next == ClampAfter(after) <==> page.rows == [])
            && (page.rows == [] <==> Select(log, ClampAfter(after), f) == [])
            && (page.rows != [] ==> |Select(log, page.next, f)| < |Select(log, ClampAfter(after), f)|)
  {
    hide Passes, Select;
    var page := ReadPage(log, after, limit, f);
    var all := Select(log, ClampAfter(after), f);
    assert page.rows == all[..|page.rows|];
    ResumeAtCut(log, ClampAfter(after), f, |page.rows|);
  }

  // --- positions ---

  /** How many events are at or below a cursor. */
  function Cut(log: seq<Event>, cursor: int): (n: nat)
    ensures n <= |log|
  {
    if log == [] || log[0].sequence > cursor then 0 else 1 + Cut(log[1..], cursor)
  }

  lemma {:induction false} CutSplits(log: seq<Event>, cursor: int)
    requires Ascending(log)
    ensures forall i :: 0 <= i < |log| ==> (i < Cut(log, cursor) <==> log[i].sequence <= cursor)
  {
    if log != [] && log[0].sequence <= cursor {
      CutSplits(log[1..], cursor);
      forall i | 0 <= i < |log| ensures i < Cut(log, cursor) <==> log[i].sequence <= cursor {
        if i > 0 { assert log[i] == log[1..][i - 1]; }
      }
    }
  }

  /** An unfiltered read from a cursor is the log from that cursor's position. */
  lemma SelectIsSuffix(log: seq<Event>, cursor: int)
    requires Ascending(log)
    ensures Select(log, cursor, EVERYTHING) == log[Cut(log, cursor)..]
  {
    hide Select, Cut;
    CutSplits(log, cursor);
    SelectAbove(log, Cut(log, cursor), cursor, EVERYTHING);
  }

  lemma CutUnique(log: seq<Event>, cursor: int, n: nat)
    requires Ascending(log) && n <= |log|
    requires (n > 0 ==> log[n - 1].sequence <= cursor) && (n < |log| ==> log[n].sequence > cursor)
    ensures Cut(log, cursor) == n
  {
    hide Cut;
    CutSplits(log, cursor);
  }
}
