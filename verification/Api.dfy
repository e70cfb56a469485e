/** The server's write paths as they run: statements against mutable tables, inside a database transaction that is
    rolled back on any error and whose events are published only after it commits. Every operation is proved to
    perform exactly the corresponding step of the ledger, or none of it. */
module Api {
  import opened Text
  import opened Sorting
  import opened Meta
  import opened Edges
  import opened Amount
  import opened Ledger
  import opened Integrity
  import opened Replay
  import opened EventLog
  import opened Search
  import opened Vocabulary
  import opened Engine
  import opened Counting

  /** What a single-row read returns: a row, sql.ErrNoRows, or another error. */
  datatype Read<T> = Found(value: T) | NoRows | Broken

  /** What an open transaction can go back to. */
  datatype Backup = Backup(
    accounts: map<string, Account>, txns: map<string, Txn>, versions: map<string, seq<Version>>, events: seq<Event>)

  lemma NumberedSnoc(events: seq<Event>, e: Event)
    requires Ascending(events) && forall x :: x in events ==> x.sequence < e.sequence
    ensures Ascending(events + [e])
  {
    forall i, j | 0 <= i < j < |events + [e]| ensures (events + [e])[i].sequence < (events + [e])[j].sequence {
      assert events[i] in events;
    }
  }

  /** What can fail with every statement succeeding: a transaction id that is taken, and a date whose event cannot be
      encoded. */
  ghost predicate CanFail(s: Ledger, op: Op) {
    match op
    case OpCreateAccount(id, input, now) =>
      var read := ReadAccount(input, Account(MANUAL_ORG, "", "", "0", now, now, MANUAL), now);
      read.Some? && !Encodable(read.value.balanceDate)
    case OpUpdateAccount(id, input, now) =>
      id in s.accounts
      && var read := ReadAccount(input, s.accounts[id], now); read.Some? && !Encodable(read.value.balanceDate)
    case OpCreateTxn(id, input, _) =>
      ReadTxn(input).Some? && (id in s.txns || !Encodable(ReadTxn(input).value.date))
    case OpUpdateTxn(_, input, _) => ReadTxn(input).Some? && !Encodable(ReadTxn(input).value.date)
    case _ => false
  }

  lemma OnlyTheseFail(s: Ledger, op: Op)
    ensures match op
            case OpCreateAccount(id, input, now) => CreateAccount(s, id, input, now).1.Failed? ==> CanFail(s, op)
            case OpUpdateAccount(id, input, now) => UpdateAccount(s, id, input, now).1.Failed? ==> CanFail(s, op)
            case OpDeleteAccount(id) => !DeleteAccount(s, id).1.Failed?
            case OpCreateTxn(id, input, now) => CreateTxn(s, id, input, now).1.Failed? ==> CanFail(s, op)
            case OpUpdateTxn(id, input, now) => UpdateTxn(s, id, input, now).1.Failed? ==> CanFail(s, op)
            case OpDeleteTxn(id) => !DeleteTxn(s, id).1.Failed?
            case OpSetPairs(id, seam, pairs) => !SetPairs(s, id, seam, pairs).1.Failed?
            case OpDeleteLabel(key, value) => !DeleteLabel(s, key, value).1.Failed?
            case OpAddEdge(id, kind, target) => !Changed(s, id, Assert(kind, target)).1.Failed?
            case OpRemoveEdge(id, kind, target) => !Changed(s, id, Retract(kind, target)).1.Failed?
            case OpRunRules(_, _, _) => true
  {
    hide ReadTxn, DropAllChildren, DropTxn, WritePairs, Normalize, NormalizeEdges, CleanKeyOf,
        CleanValueOf, EdgeAllowed, Trim, ValidateAmount;
  }

  ghost function LabeledIds(txns: map<string, Txn>): seq<string> {
    OrderedKeys(set id | id in txns && txns[id].labels != map[])
  }

  lemma LabeledIdsList(txns: map<string, Txn>)
    ensures Lists(txns, LabeledIds(txns))
  {
    hide Below, Ordered;
    BelowIsStrictTotal();
    OrderedEnumerates((set id | id in txns && txns[id].labels != map[]), Below);
  }

  /** The two transforms given to mutateRelationships. */
  datatype EdgeChange = Assert(kind: string, target: string) | Retract(kind: string, target: string)

  function Changed(s: Ledger, id: string, change: EdgeChange): (Ledger, Outcome) {
    if change.Assert? then AddEdge(s, id, change.kind, change.target) else RemoveEdge(s, id, change.kind, change.target)
  }

  function NameIn(names: map<string, string>, id: string): string { if id in names then names[id] else "" }

  predicate RowMatches(row: Row, arrows: seq<Arrow>, accounts: map<string, Account>,
                       query: (Record, seq<Entry>) -> bool) {
    query(RecordOf(row.id, row.txn, AccountName(accounts, row.txn.core.accountId)), IndexAt(arrows, row.id))
  }

  function MatchedRows(rows: seq<Row>, arrows: seq<Arrow>, accounts: map<string, Account>,
      query: (Record, seq<Entry>) -> bool): seq<Row> {
    if rows == [] then []
    else (if RowMatches(rows[0], arrows, accounts, query)
          then [rows[0]] else [])
         + MatchedRows(rows[1..], arrows, accounts, query)
  }

  lemma MatchedNone(rows: seq<Row>, arrows: seq<Arrow>, accounts: map<string, Account>,
      query: (Record, seq<Entry>) -> bool)
    ensures MatchedRows(rows[..0], arrows, accounts, query) == []
  {
  }

  lemma {:induction false} MatchedConcat(a: seq<Row>, b: seq<Row>, arrows: seq<Arrow>, accounts: map<string, Account>,
                                         query: (Record, seq<Entry>) -> bool)
    ensures MatchedRows(a + b, arrows, accounts, query)
            == MatchedRows(a, arrows, accounts, query) + MatchedRows(b, arrows, accounts, query)
  {
    hide RowMatches;
    if a == [] {
      assert a + b == b;
    } else {
      assert (a + b)[0] == a[0] && (a + b)[1..] == a[1..] + b;
      MatchedConcat(a[1..], b, arrows, accounts, query);
    }
  }

  lemma MatchedSnoc(rows: seq<Row>, i: nat, arrows: seq<Arrow>, accounts: map<string, Account>,
      query: (Record, seq<Entry>) -> bool)
    requires i < |rows|
    ensures MatchedRows(rows[..i + 1], arrows, accounts, query)
            == MatchedRows(rows[..i], arrows, accounts, query)
               + (if RowMatches(rows[i], arrows, accounts, query)
                  then [rows[i]] else [])
  {
    hide RowMatches;
    assert rows[..i + 1] == rows[..i] + [rows[i]];
    MatchedConcat(rows[..i], [rows[i]], arrows, accounts, query);
    assert [rows[i]][1..] == [];
  }

  method FilterRows(rows: seq<Row>, names: map<string, string>, index: map<string, seq<Entry>>,
                    query: (Record, seq<Entry>) -> bool, ghost arrows: seq<Arrow>, ghost accounts: map<string, Account>)
    returns (matched: seq<Row>)
    requires forall id :: Listed(index, id) == IndexAt(arrows, id)
    requires forall id :: NameIn(names, id) == AccountName(accounts, id)
    ensures matched == MatchedRows(rows, arrows, accounts, query)
  {
    hide IndexAt, Listed, NameIn, AccountName, MatchedRows, RecordOf;
    matched := [];
    MatchedNone(rows, arrows, accounts, query);
    for i := 0 to |rows|
      invariant matched == MatchedRows(rows[..i], arrows, accounts, query)
    {
      MatchedSnoc(rows, i, arrows, accounts, query);
      var rec := RecordOf(rows[i].id, rows[i].txn, NameIn(names, rows[i].txn.core.accountId));
      if query(rec, Listed(index, rows[i].id)) { matched := matched + [rows[i]]; }
    }
    assert rows[..|rows|] == rows;
  }

  lemma AllRowsAre(txns: map<string, Txn>)
    ensures var ids := AllIds(txns);
            && Distinct(ids) && (forall id :: id in ids ==> id in txns) && |AllRows(txns)| == |ids|
            && forall i :: 0 <= i < |ids| ==> ids[i] in txns && AllRows(txns)[i] == Row(ids[i], txns[ids[i]])
  {
    hide AllIds;
    AllIdsExist(txns);
    assert forall i :: 0 <= i < |AllIds(txns)| ==> AllIds(txns)[i] in AllIds(txns);
  }

  lemma DistinctAt(ids: seq<string>, i: nat)
    requires Distinct(ids) && i < |ids|
    ensures forall j :: i < j < |ids| ==> ids[j] != ids[i]
  {
  }

  lemma RunRowsStep(r: RunResult, dir: Direction, rules: seq<Rule>, ids: seq<string>, i: nat)
    requires i < |ids| && forall id :: id in ids ==> id in r.ledger.txns
    ensures RunRows(r, dir, rules, ids[i..]) == RunRows(CountRow(r, dir, rules, ids[i]), dir, rules, ids[i + 1..])
  {
    hide CountRow;
    assert ids[i..][0] == ids[i] && ids[i..][1..] == ids[i + 1..];
  }

  lemma RunRowsEnd(r: RunResult, dir: Direction, rules: seq<Rule>, ids: seq<string>)
    ensures RunRows(r, dir, rules, ids[|ids|..]) == r
  {
  }

  lemma WritePairsRow(s: Ledger, id: string, seam: Seam, m: Pairs)
    requires id in s.txns
    ensures var s' := WritePairs(s, id, seam, m);
            s'.accounts == s.accounts && s'.txns == s.txns[id := WithPairs(s.txns[id], seam, m)]
  {
    hide PairDiff;
  }

  lemma RunRowElsewhere(s: Ledger, dir: Direction, rules: seq<Rule>, id: string)
    requires id in s.txns
    ensures var s' := RunRow(s, dir, rules, id);
            s'.accounts == s.accounts && s'.txns.Keys == s.txns.Keys
            && forall x :: x in s.txns && x != id ==> s'.txns[x] == s.txns[x]
  {
    hide RunRow, Rewrite;
    RunRowFrame(s, dir, rules, id);
  }

  lemma NothingCarried(txns: map<string, Txn>, key: string, value: Option<string>)
    ensures |Carriers(txns, key, value)| == 0 ==> (map id | id in txns :: DropLabel(txns[id], key, value)) == txns
  {
    if |Carriers(txns, key, value)| == 0 {
      forall id | id in txns ensures !Carries(txns[id], key, value) { assert id !in Carriers(txns, key, value); }
    }
  }

  lemma StripRowFrame(s: Ledger, id: string, target: string)
    requires id in s.txns
    ensures var s' := StripRow(s, id, target);
            s'.accounts == s.accounts && s'.txns.Keys == s.txns.Keys
            && forall x :: x in s.txns && x != id ==> s'.txns[x] == s.txns[x]
  {
    hide EdgeDiff, NormalizeEdges, WithoutTarget;
  }

  class Server {
    var accounts: map<string, Account>
    var txns: map<string, Txn>
    var versions: map<string, seq<Version>>
    var events: seq<Event>
    /** The sequence the next event gets. It is not taken back by a rollback, so numbers may be skipped. */
    var nextSequence: nat
    /** Where a rollback returns to. */
    var backup: Backup
    /** Everything handed to the bus. */
    var published: seq<Event>
    /** How many statements have run, which of them fail, and how many have. */
    var statements: nat
    const fails: nat -> bool
    ghost var faults: nat
    const clock: nat -> int
    const env: Env

    ghost predicate Valid()
      reads this
    {
      Ascending(events) && nextSequence > 0 && forall e :: e in events ==> 0 < e.sequence < nextSequence
    }

    /** The ledger the tables hold. */
    ghost function State(): Ledger
      reads this
    {
      Ledger(accounts, txns, versions, DataOf(events), env)
    }

    constructor (env: Env, fails: nat -> bool, clock: nat -> int)
      ensures Valid() && State() == Empty(env) && published == [] && this.fails == fails
    {
      accounts, txns, versions, events, nextSequence := map[], map[], map[], [], 1;
      backup, published, statements, faults := Backup(map[], map[], map[], []), [], 0, 0;
      this.fails, this.clock, this.env := fails, clock, env;
    }

    /** The log only grows, and only faults end a statement early. */
    twostate predicate Grew()
      reads this
    {
      Valid() && old(events) <= events && faults >= old(faults)
    }

    // --- statements ---

    method Execute() returns (ok: bool)
      modifies this`statements, this`faults
      ensures faults >= old(faults) && (ok <==> faults == old(faults))
    {
      ok := !fails(statements);
      statements := statements + 1;
      if !ok { faults := faults + 1; }
    }

    method GetAccount(id: string) returns (r: Read<Account>)
      modifies this`statements, this`faults
      ensures faults >= old(faults) && (r.Broken? <==> faults > old(faults))
      ensures !r.Broken? ==> r == if id in accounts then Found(accounts[id]) else NoRows
    {
      var ok := Execute();
      if !ok { return Broken; }
      r := if id in accounts then Found(accounts[id]) else NoRows;
    }

    method GetTransaction(id: string) returns (r: Read<Txn>)
      modifies this`statements, this`faults
      ensures faults >= old(faults) && (r.Broken? <==> faults > old(faults))
      ensures !r.Broken? ==> r == if id in txns then Found(txns[id]) else NoRows
    {
      var ok := Execute();
      if !ok { return Broken; }
      r := if id in txns then Found(txns[id]) else NoRows;
    }

    method InsertEvent(d: Data) returns (ok: bool)
      requires Valid()
      modifies this`events, this`nextSequence, this`statements, this`faults
      ensures Grew() && (ok <==> faults == old(faults))
      ensures State() == if ok then Emit(old(State()), d) else old(State())
    {
      var at := clock(statements);
      ok := Execute();
      if !ok { return; }
      DataSnoc(events, Event(nextSequence, at, d));
      NumberedSnoc(events, Event(nextSequence, at, d));
      events, nextSequence := events + [Event(nextSequence, at, d)], nextSequence + 1;
    }

    method InsertVersion(id: string, snapshot: Snapshot, kind: ChangeKind) returns (ok: bool)
      modifies this`versions, this`statements, this`faults
      ensures faults >= old(faults) && (ok <==> faults == old(faults))
      ensures State() == if ok then AddVersion(old(State()), id, snapshot, kind) else old(State())
    {
      ok := Execute();
      if !ok { return; }
      versions := versions[id := (if id in versions then versions[id] else []) + [Version(kind, snapshot)]];
    }

    method CountVersions(id: string) returns (n: nat, ok: bool)
      modifies this`statements, this`faults
      ensures faults >= old(faults) && (ok <==> faults == old(faults))
      ensures ok ==> n == |VersionsOf(State(), id)|
    {
      ok := Execute();
      n := if id in versions then |versions[id]| else 0;
    }

    method UpdatePairs(id: string, seam: Seam, m: Pairs) returns (ok: bool)
      modifies this`txns, this`statements, this`faults
      ensures faults >= old(faults) && (ok <==> faults == old(faults))
      ensures txns == if ok && id in old(txns) then old(txns)[id := WithPairs(old(txns)[id], seam, m)] else old(txns)
    {
      ok := Execute();
      if ok && id in txns { txns := txns[id := WithPairs(txns[id], seam, m)]; }
    }

    method UpdateRelationships(id: string, es: seq<Edge>) returns (ok: bool)
      modifies this`txns, this`statements, this`faults
      ensures faults >= old(faults) && (ok <==> faults == old(faults))
      ensures txns == if ok && id in old(txns) then old(txns)[id := old(txns)[id].(edges := es)] else old(txns)
    {
      ok := Execute();
      if ok && id in txns { txns := txns[id := txns[id].(edges := es)]; }
    }

    method ListRelatedTransactions() returns (rows: seq<Row>, ok: bool)
      modifies this`statements, this`faults
      ensures faults >= old(faults) && (ok <==> faults == old(faults))
      ensures ok ==> rows == RelatedRows(txns)
    {
      ok := Execute();
      if !ok { return [], false; }
      RelatedIdsExist(txns);
      BelowIsStrictTotal();
      var ids := OrderBy((set id | id in txns && txns[id].edges != []), Below);
      rows := RowsOf(txns, ids);
    }

    method ListTransactionsByAccount(account: string) returns (rows: seq<Row>, ok: bool)
      modifies this`statements, this`faults
      ensures faults >= old(faults) && (ok <==> faults == old(faults))
      ensures ok ==> (forall id :: id in Children(txns, account) ==> id in txns)
                     && rows == RowsOf(txns, Children(txns, account))
    {
      ok := Execute();
      if !ok { return [], false; }
      ChildrenExist(txns, account);
      ByDateIsStrictTotal(txns);
      var table := txns;
      var ids := OrderBy(InAccount(txns, account), (a, b) => ByDate(table, a, b));
      if |ids| > MAX_INT32 { ids := ids[..MAX_INT32]; }
      rows := RowsOf(txns, ids);
    }

    /** ListTransactions ... ORDER BY date DESC, id LIMIT n OFFSET offset. */
    method ListTransactions(n: nat, offset: nat) returns (rows: seq<Row>, ok: bool)
      modifies this`statements, this`faults
      ensures faults >= old(faults) && (ok <==> faults == old(faults))
      ensures ok ==> rows == Slice(AllRows(txns), offset, n)
    {
      ok := Execute();
      if !ok { return [], false; }
      AllIdsExist(txns);
      ByDateIsStrictTotal(txns);
      var table := txns;
      var ids := OrderBy(txns.Keys, (a, b) => ByDate(table, a, b));
      rows := Slice(RowsOf(txns, ids), offset, n);
    }

    // --- the recorder ---

    /** Recorder.VersionChange. */
    method RecordChange(id: string, prior: Snapshot, next: Snapshot, kind: ChangeKind) returns (ok: bool)
      modifies this`versions, this`statements, this`faults
      ensures faults >= old(faults) && (ok <==> faults == old(faults))
      ensures ok ==> State() == VersionChange(old(State()), id, prior, next, kind)
    {
      var n;
      n, ok := CountVersions(id);
      if !ok { return; }
      if n == 0 {
        ok := InsertVersion(id, prior, Imported);
        if !ok { return; }
      }
      ok := InsertVersion(id, next, kind);
    }

    method EmitSet(id: string, seam: Seam, prev: Pairs, next: Pairs, keys: seq<string>) returns (ok: bool)
      requires Valid() && forall k :: k in keys ==> k in next
      modifies this`events, this`nextSequence, this`statements, this`faults
      ensures Grew() && (ok <==> faults == old(faults))
      ensures ok ==> DataOf(events) == old(DataOf(events)) + SetEvents(id, seam, prev, next, keys)
    {
      hide DataOf, Differs;
      ghost var log := DataOf(events);
      for i := 0 to |keys|
        invariant Grew() && faults == old(faults)
        invariant DataOf(events) + SetEvents(id, seam, prev, next, keys[i..])
            == log + SetEvents(id, seam, prev, next, keys)
      {
        assert keys[i..][0] == keys[i] && keys[i..][1..] == keys[i + 1..];
        if Differs(seam, prev, keys[i], next[keys[i]]) {
          ok := InsertEvent(PairSet(id, seam, keys[i], next[keys[i]]));
          if !ok { return; }
        }
      }
      ok := true;
    }

    method EmitRemoved(id: string, seam: Seam, prev: Pairs, next: Pairs, keys: seq<string>) returns (ok: bool)
      requires Valid() && forall k :: k in keys ==> k in prev
      modifies this`events, this`nextSequence, this`statements, this`faults
      ensures Grew() && (ok <==> faults == old(faults))
      ensures ok ==> DataOf(events) == old(DataOf(events)) + RemovedEvents(id, seam, prev, next, keys)
    {
      hide DataOf;
      ghost var log := DataOf(events);
      for i := 0 to |keys|
        invariant Grew() && faults == old(faults)
        invariant DataOf(events) + RemovedEvents(id, seam, prev, next, keys[i..])
            == log + RemovedEvents(id, seam, prev, next, keys)
      {
        assert keys[i..][0] == keys[i] && keys[i..][1..] == keys[i + 1..];
        if keys[i] !in next {
          ok := InsertEvent(PairRemoved(id, seam, keys[i], prev[keys[i]]));
          if !ok { return; }
        }
      }
      ok := true;
    }

    /** Recorder.EmitLabelDiff and Recorder.EmitExtensionDiff. */
    method EmitPairDiff(id: string, seam: Seam, prev: Pairs, next: Pairs) returns (ok: bool)
      requires Valid()
      modifies this`events, this`nextSequence, this`statements, this`faults
      ensures Grew() && (ok <==> faults == old(faults))
      ensures ok ==> DataOf(events) == old(DataOf(events)) + PairDiff(env.order, |old(events)|, id, seam, prev, next)
    {
      hide DataOf, SetEvents, RemovedEvents;
      DataLength(events);
      var keys := env.order(|events|, next.Keys);
      assert Enumerates(keys, next.Keys);
      ok := EmitSet(id, seam, prev, next, keys);
      if !ok { return; }
      DataLength(events);
      keys := env.order(|events|, prev.Keys);
      assert Enumerates(keys, prev.Keys);
      ok := EmitRemoved(id, seam, prev, next, keys);
    }

    method EmitCreated(id: string, prev: seq<Edge>, next: seq<Edge>) returns (ok: bool)
      requires Valid()
      modifies this`events, this`nextSequence, this`statements, this`faults
      ensures Grew() && (ok <==> faults == old(faults))
      ensures ok ==> DataOf(events) == old(DataOf(events)) + CreatedEdges(id, prev, next)
    {
      hide DataOf;
      ghost var log := DataOf(events);
      for i := 0 to |next|
        invariant Grew() && faults == old(faults)
        invariant DataOf(events) + CreatedEdges(id, prev, next[i..]) == log + CreatedEdges(id, prev, next)
      {
        assert next[i..][0] == next[i] && next[i..][1..] == next[i + 1..];
        if next[i] !in prev {
          ok := InsertEvent(EdgeCreated(id, next[i]));
          if !ok { return; }
        }
      }
      ok := true;
    }

    method EmitDropped(id: string, prev: seq<Edge>, next: seq<Edge>) returns (ok: bool)
      requires Valid()
      modifies this`events, this`nextSequence, this`statements, this`faults
      ensures Grew() && (ok <==> faults == old(faults))
      ensures ok ==> DataOf(events) == old(DataOf(events)) + RemovedEdges(id, prev, next)
    {
      hide DataOf;
      ghost var log := DataOf(events);
      for i := 0 to |prev|
        invariant Grew() && faults == old(faults)
        invariant DataOf(events) + RemovedEdges(id, prev[i..], next) == log + RemovedEdges(id, prev, next)
      {
        assert prev[i..][0] == prev[i] && prev[i..][1..] == prev[i + 1..];
        if prev[i] !in next {
          ok := InsertEvent(EdgeRemoved(id, prev[i]));
          if !ok { return; }
        }
      }
      ok := true;
    }

    /** Recorder.EmitRelationshipDiff. */
    method EmitEdgeDiff(id: string, prev: seq<Edge>, next: seq<Edge>) returns (ok: bool)
      requires Valid()
      modifies this`events, this`nextSequence, this`statements, this`faults
      ensures Grew() && (ok <==> faults == old(faults))
      ensures ok ==> DataOf(events) == old(DataOf(events)) + EdgeDiff(id, prev, next)
    {
      hide DataOf, CreatedEdges, RemovedEdges;
      ok := EmitCreated(id, prev, next);
      if !ok { return; }
      ok := EmitDropped(id, prev, next);
    }

    // --- one row's seams ---

    /** Writes one seam of a row as read (`t`), with its per-key diff and its version. */
    method WriteSeam(id: string, t: Txn, seam: Seam, next: Pairs) returns (ok: bool)
      requires Valid() && id in txns && txns[id] == t
      modifies this`txns, this`versions, this`events, this`nextSequence, this`statements, this`faults
      ensures Grew() && (ok <==> faults == old(faults))
      ensures ok ==> State() == WritePairs(old(State()), id, seam, next)
    {
      hide DataOf, PairDiff;
      DataLength(events);
      ok := UpdatePairs(id, seam, next);
      if !ok { return; }
      ok := EmitPairDiff(id, seam, PairsOf(t, seam), next);
      if !ok { return; }
      var kind := if seam.LabelSeam? then Labeled else Extended;
      ok := RecordChange(id, Snap(env.codec, t), Snap(env.codec, WithPairs(t, seam, next)), kind);
    }

    method WriteRelationships(id: string, prev: seq<Edge>, next: seq<Edge>) returns (ok: bool)
      requires Valid() && id in txns && txns[id].edges == prev
      modifies this`txns, this`events, this`nextSequence, this`statements, this`faults
      ensures Grew() && (ok <==> faults == old(faults))
      ensures ok ==> State() == WriteEdges(old(State()), id, next)
    {
      hide DataOf, EdgeDiff;
      ok := UpdateRelationships(id, next);
      if !ok { return; }
      ok := EmitEdgeDiff(id, prev, next);
    }

    // --- deletes ---

    method StripRowOf(row: Row, target: string) returns (ok: bool)
      requires Valid() && row.id in txns && txns[row.id] == row.txn
      modifies this`txns, this`events, this`nextSequence, this`statements, this`faults
      ensures Grew() && (ok <==> faults == old(faults))
      ensures ok ==> State() == StripRow(old(State()), row.id, target)
    {
      if row.id == target { return true; }
      var kept := DropTarget(row.txn.edges, target);
      if |kept| == |row.txn.edges| { return true; }
      ok := WriteRelationships(row.id, row.txn.edges, NormalizeEdges(kept));
    }

    /** stripInboundRelationships: the rows are read once; each is rewritten before any other changes it. */
    method StripInboundRelationships(target: string) returns (ok: bool)
      requires Valid()
      modifies this`txns, this`events, this`nextSequence, this`statements, this`faults
      ensures Grew() && (ok <==> faults == old(faults))
      ensures ok ==> (forall id :: id in RelatedIds(old(State()).txns) ==> id in old(State()).txns)
      ensures ok ==> State() == StripInbound(old(State()), RelatedIds(old(State()).txns), target)
    {
      hide StripRow, RelatedIds, DataOf;
      var rows;
      rows, ok := ListRelatedTransactions();
      if !ok { return; }
      ghost var s := State();
      ghost var ids := RelatedIds(s.txns);
      RelatedIdsExist(s.txns);
      for i := 0 to |rows|
        invariant Grew() && faults == old(faults) && txns.Keys == s.txns.Keys && accounts == s.accounts
        invariant forall j :: i <= j < |rows| ==> txns[ids[j]] == rows[j].txn
        invariant StripInbound(State(), ids[i..], target) == StripInbound(s, ids, target)
      {
        ghost var before := State();
        assert ids[i..][0] == ids[i] && ids[i..][1..] == ids[i + 1..];
        ok := StripRowOf(rows[i], target);
        if !ok { return; }
        StripRowFrame(before, ids[i], target);
      }
      ok := true;
    }

    method DeleteVersionsOf(id: string) returns (ok: bool)
      modifies this`versions, this`statements, this`faults
      ensures faults >= old(faults) && (ok <==> faults == old(faults))
      ensures versions == if ok then old(versions) - {id} else old(versions)
    {
      ok := Execute();
      if ok { versions := versions - {id}; }
    }

    method DeleteTransactionRow(id: string) returns (ok: bool)
      modifies this`txns, this`statements, this`faults
      ensures faults >= old(faults) && (ok <==> faults == old(faults))
      ensures txns == if ok then old(txns) - {id} else old(txns)
    {
      ok := Execute();
      if ok { txns := txns - {id}; }
    }

    /** ledger.DeleteTransactionTx. */
    method DeleteTransactionTx(row: Row) returns (ok: bool)
      requires Valid()
      modifies this`txns, this`versions, this`events, this`nextSequence, this`statements, this`faults
      ensures Grew() && (ok <==> faults == old(faults))
      ensures ok ==> State() == DropTxn(old(State()), row.id, row.txn)
    {
      hide StripInbound, RelatedIds, DataOf;
      ok := StripInboundRelationships(row.id);
      if !ok { return; }
      ok := DeleteVersionsOf(row.id);
      if !ok { return; }
      ok := DeleteTransactionRow(row.id);
      if !ok { return; }
      ok := InsertEvent(TxnDeleted(row.id, Snap(env.codec, row.txn)));
    }

    /** DELETE FROM accounts: the foreign key cascades to the account's transactions. */
    method DeleteAccountRow(id: string) returns (ok: bool)
      modifies this`accounts, this`txns, this`statements, this`faults
      ensures faults >= old(faults) && (ok <==> faults == old(faults))
      ensures accounts == if ok then old(accounts) - {id} else old(accounts)
      ensures txns == if ok then old(txns) - InAccount(old(txns), id) else old(txns)
    {
      ok := Execute();
      if ok { accounts, txns := accounts - {id}, txns - InAccount(txns, id); }
    }

    method DeleteChildren(account: string) returns (ok: bool)
      requires Valid()
      modifies this`txns, this`versions, this`events, this`nextSequence, this`statements, this`faults
      ensures Grew() && (ok <==> faults == old(faults))
      ensures ok ==> State() == DropAllChildren(old(State()), account)
    {
      hide DropTxn, Children, DataOf;
      var rows;
      rows, ok := ListTransactionsByAccount(account);
      if !ok { return; }
      ghost var s := State();
      ghost var ids := Children(s.txns, account);
      for i := 0 to |rows|
        invariant Grew() && faults == old(faults) && accounts == s.accounts
        invariant DropChildren(State(), s.txns, ids[i..]) == DropChildren(s, s.txns, ids)
      {
        assert ids[i..][0] == ids[i] && ids[i..][1..] == ids[i + 1..];
        ok := DeleteTransactionTx(rows[i]);
        if !ok { return; }
      }
      ok := true;
    }

    // --- Emitter.Record ---

    method Begin()
      modifies this`backup
      ensures backup == Backup(accounts, txns, versions, events)
    {
      backup := Backup(accounts, txns, versions, events);
    }

    /** The end of a transaction whose closure returned `outcome`: an error rolls back, anything else commits, and a
        commit that fails rolls back too. Only what was committed is published, and only then. */
    method End(outcome: Outcome) returns (r: Outcome)
      requires Valid() && backup.events <= events
      modifies this
      ensures Valid() && faults >= old(faults)
      ensures r == outcome || (r.Failed? && (outcome.Done? || outcome.NotFound?) && faults > old(faults))
      ensures var committed := r.Done? || r.NotFound?;
              && State() == (if committed then old(State())
                             else Ledger(old(backup).accounts, old(backup).txns, old(backup).versions,
                                         DataOf(old(backup).events), env))
              && events == (if committed then old(events) else old(backup).events)
              && published == old(published) + (if committed then old(events)[|old(backup).events|..] else [])
    {
      var ok := outcome.Done? || outcome.NotFound?;
      r := outcome;
      if ok {
        ok := Execute();
        if ok {
          published := published + events[|backup.events|..];
          return;
        }
        r := Failed;
      }
      assert forall i :: 0 <= i < |backup.events| ==> backup.events[i] == events[i];
      accounts, txns, versions, events := backup.accounts, backup.txns, backup.versions, backup.events;
    }

    /** What a closure owes: the ledger's step, or a refusal the step would also give, or a fault. */
    twostate predicate Follows(spec: (Ledger, Outcome), outcome: Outcome)
      reads this
    {
      && Grew()
      && (outcome.Failed? ==> faults > old(faults) || spec.1.Failed?)
      && (!outcome.Failed? ==> outcome == spec.1)
      && (outcome.Done? || outcome.NotFound? ==> State() == spec.0)
      && (outcome.Invalid? || outcome.ReadOnly? ==> spec.0 == old(State()))
    }

    /** What an operation owes: exactly the ledger's step or nothing at all, nothing only if something failed, and in
        either case exactly the new events published. */
    twostate predicate Recorded(spec: (Ledger, Outcome), outcome: Outcome)
      reads this
    {
      && Grew()
      && (if outcome.Failed? then State() == old(State()) && (faults > old(faults) || spec.1.Failed?)
          else (State(), outcome) == spec)
      && published == old(published) + events[|old(events)|..]
    }

    // --- accounts ---

    method UpsertAccountRow(id: string, a: Account) returns (ok: bool)
      modifies this`accounts, this`statements, this`faults
      ensures faults >= old(faults) && (ok <==> faults == old(faults))
      ensures accounts == if ok then UpsertAccount(old(accounts), id, a) else old(accounts)
    {
      ok := Execute();
      if ok { accounts := accounts[id := if id in accounts then a.(source := accounts[id].source) else a]; }
    }

    /** Every column but the organization and the source. */
    method UpdateAccountRow(id: string, name: string, currency: string, balance: string, balanceDate: int, now: int)
      returns (n: nat, ok: bool)
      modifies this`accounts, this`statements, this`faults
      ensures faults >= old(faults) && (ok <==> faults == old(faults))
      ensures ok ==> n == if id in accounts then 1 else 0
      ensures accounts
              == if ok && id in old(accounts)
                 then var a := old(accounts)[id];
                      old(accounts)[id := Account(a.orgId, name, currency, balance, balanceDate, now, a.source)]
                 else old(accounts)
    {
      n := 0;
      ok := Execute();
      if ok && id in accounts {
        var a := accounts[id];
        a := a.(name := name, currency := currency, balance := balance, balanceDate := balanceDate, syncedAt := now);
        accounts, n := accounts[id := a], 1;
      }
    }

    method CreateAccountTx(id: string, a: Account) returns (outcome: Outcome)
      requires Valid()
      modifies this`accounts, this`events, this`nextSequence, this`statements, this`faults
      ensures var next := UpsertAccount(old(State()).accounts, id, a);
              Follows(if !Encodable(a.balanceDate) then (old(State()), Failed) else
                      (Emit(old(State()).(accounts := next), AccountCreated(id, AccountSnap(next[id]))), Done), outcome)
    {
      hide DataOf;
      var ok := Execute(); // UpsertOrganization
      if !ok { return Failed; }
      ok := UpsertAccountRow(id, a);
      if !ok { return Failed; }
      var created := GetAccount(id);
      if !created.Found? { return Failed; }
      if !Encodable(created.value.balanceDate) { return Failed; }
      ok := InsertEvent(AccountCreated(id, AccountSnap(created.value)));
      outcome := if ok then Done else Failed;
    }

    method CreateManualAccount(id: string, input: AccountInput, now: int) returns (outcome: Outcome)
      requires Valid()
      modifies this
      ensures Recorded(CreateAccount(old(State()), id, input, now), outcome)
    {
      hide DataOf, ReadAccount;
      var read := ReadAccount(input, Account(MANUAL_ORG, "", "", "0", now, now, MANUAL), now);
      if read.None? { return Invalid; }
      Begin();
      outcome := CreateAccountTx(id, read.value);
      outcome := End(outcome);
    }

    method UpdateAccountTx(id: string, input: AccountInput, now: int) returns (outcome: Outcome)
      requires Valid() && ReadAccount(input, Account("", "", "", "", 0, 0, ""), now).Some?
      modifies this`accounts, this`events, this`nextSequence, this`statements, this`faults
      ensures Follows(UpdateAccount(old(State()), id, input, now), outcome)
    {
      hide DataOf, ValidateAmount, Trim;
      var prev := GetAccount(id);
      if prev.NoRows? { return NotFound; }
      if prev.Broken? { return Failed; }
      if prev.value.source != MANUAL { return ReadOnly; }
      var balance := prev.value.balance;
      if Trim(input.balance) != "" { balance := ValidateAmount(input.balance).value; }
      var balanceDate := prev.value.balanceDate;
      if input.balanceDate.At? { balanceDate := input.balanceDate.time; }
      var n, ok := UpdateAccountRow(id, Trim(input.name), Trim(input.currency), balance, balanceDate, now);
      if !ok { return Failed; }
      if n == 0 { return NotFound; }
      var updated := GetAccount(id);
      if !updated.Found? { return Failed; }
      if !Encodable(updated.value.balanceDate) { return Failed; }
      ok := InsertEvent(AccountUpdated(id, AccountSnap(updated.value)));
      outcome := if ok then Done else Failed;
    }

    method UpdateManualAccount(id: string, input: AccountInput, now: int) returns (outcome: Outcome)
      requires Valid()
      modifies this
      ensures Recorded(UpdateAccount(old(State()), id, input, now), outcome)
    {
      hide DataOf, ReadAccount;
      if ReadAccount(input, Account("", "", "", "", 0, 0, ""), now).None? { return Invalid; }
      Begin();
      outcome := UpdateAccountTx(id, input, now);
      outcome := End(outcome);
    }

    method DeleteAccountTx(id: string) returns (outcome: Outcome)
      requires Valid()
      modifies this`accounts, this`txns, this`versions, this`events, this`nextSequence, this`statements, this`faults
      ensures Follows(DeleteAccount(old(State()), id), outcome)
    {
      hide DataOf, DropAllChildren;
      var account := GetAccount(id);
      if account.NoRows? { return NotFound; }
      if account.Broken? { return Failed; }
      if account.value.source != MANUAL { return ReadOnly; }
      var ok := DeleteChildren(id);
      if !ok { return Failed; }
      ok := DeleteAccountRow(id);
      if !ok { return Failed; }
      ok := InsertEvent(AccountDeleted(id, AccountSnap(account.value)));
      outcome := if ok then Done else Failed;
    }

    method DeleteManualAccount(id: string) returns (outcome: Outcome)
      requires Valid()
      modifies this
      ensures Recorded(DeleteAccount(old(State()), id), outcome)
    {
      hide DataOf, DeleteAccount;
      Begin();
      outcome := DeleteAccountTx(id);
      outcome := End(outcome);
    }

    // --- transactions ---

    /** INSERT ... ON CONFLICT (id) DO NOTHING. */
    method InsertTransaction(id: string, t: Txn) returns (n: nat, ok: bool)
      modifies this`txns, this`statements, this`faults
      ensures faults >= old(faults) && (ok <==> faults == old(faults))
      ensures ok ==> n == if id in old(txns) then 0 else 1
      ensures txns == if ok && id !in old(txns) then old(txns)[id := t] else old(txns)
    {
      n := 0;
      ok := Execute();
      if ok && id !in txns { txns, n := txns[id := t], 1; }
    }

    /** Every core column; source, labels, extensions and relationships stay. */
    method UpdateCore(id: string, core: Core, now: int) returns (n: nat, ok: bool)
      modifies this`txns, this`statements, this`faults
      ensures faults >= old(faults) && (ok <==> faults == old(faults))
      ensures ok ==> n == if id in txns then 1 else 0
      ensures txns == if ok && id in old(txns) then old(txns)[id := old(txns)[id].(core := core, syncedAt := now)]
                      else old(txns)
    {
      n := 0;
      ok := Execute();
      if ok && id in txns { txns, n := txns[id := txns[id].(core := core, syncedAt := now)], 1; }
    }

    method CreateTransactionTx(id: string, input: TxnInput, now: int) returns (outcome: Outcome)
      requires Valid() && ReadTxn(input).Some?
      modifies this`txns, this`versions, this`events, this`nextSequence, this`statements, this`faults
      ensures Follows(CreateTxn(old(State()), id, input, now), outcome)
    {
      hide DataOf, ReadTxn, Snap;
      var core := ReadTxn(input).value;
      var account := GetAccount(core.accountId);
      if account.NoRows? { return Invalid; }
      if account.Broken? { return Failed; }
      var n, ok := InsertTransaction(id, Txn(core, now, MANUAL, map[], map[], []));
      if !ok || n == 0 { return Failed; }
      var created := GetTransaction(id);
      if !created.Found? { return Failed; }
      if !Encodable(created.value.core.date) { return Failed; }
      ok := InsertEvent(TxnCreated(id, Snap(env.codec, created.value)));
      if !ok { return Failed; }
      ok := InsertVersion(id, Snap(env.codec, created.value), Imported);
      outcome := if ok then Done else Failed;
    }

    method CreateManualTransaction(id: string, input: TxnInput, now: int) returns (outcome: Outcome)
      requires Valid()
      modifies this
      ensures Recorded(CreateTxn(old(State()), id, input, now), outcome)
    {
      hide DataOf, ReadTxn;
      if ReadTxn(input).None? { return Invalid; }
      Begin();
      outcome := CreateTransactionTx(id, input, now);
      outcome := End(outcome);
    }

    method UpdateTransactionTx(id: string, input: TxnInput, now: int) returns (outcome: Outcome)
      requires Valid() && ReadTxn(input).Some?
      modifies this`txns, this`versions, this`events, this`nextSequence, this`statements, this`faults
      ensures Follows(UpdateTxn(old(State()), id, input, now), outcome)
    {
      hide DataOf, ReadTxn, VersionChange, Snap;
      var core := ReadTxn(input).value;
      var prev := GetTransaction(id);
      if prev.NoRows? { return NotFound; }
      if prev.Broken? { return Failed; }
      if prev.value.source != MANUAL { return ReadOnly; }
      var account := GetAccount(core.accountId);
      if account.NoRows? { return Invalid; }
      if account.Broken? { return Failed; }
      var n, ok := UpdateCore(id, core, now);
      if !ok { return Failed; }
      if n == 0 { return NotFound; }
      var updated := GetTransaction(id);
      if !updated.Found? { return Failed; }
      if !Encodable(updated.value.core.date) { return Failed; }
      ok := InsertEvent(TxnUpdated(id, Snap(env.codec, updated.value)));
      if !ok { return Failed; }
      ok := RecordChange(id, Snap(env.codec, prev.value), Snap(env.codec, updated.value), Edited);
      outcome := if ok then Done else Failed;
    }

    method UpdateTransactionCore(id: string, input: TxnInput, now: int) returns (outcome: Outcome)
      requires Valid()
      modifies this
      ensures Recorded(UpdateTxn(old(State()), id, input, now), outcome)
    {
      hide DataOf, ReadTxn;
      if ReadTxn(input).None? { return Invalid; }
      Begin();
      outcome := UpdateTransactionTx(id, input, now);
      outcome := End(outcome);
    }

    method DeleteManualTransactionTx(id: string) returns (outcome: Outcome)
      requires Valid()
      modifies this`txns, this`versions, this`events, this`nextSequence, this`statements, this`faults
      ensures Follows(DeleteTxn(old(State()), id), outcome)
    {
      hide DataOf, DropTxn;
      var t := GetTransaction(id);
      if t.NoRows? { return NotFound; }
      if t.Broken? { return Failed; }
      if t.value.source != MANUAL { return ReadOnly; }
      var ok := DeleteTransactionTx(Row(id, t.value));
      outcome := if ok then Done else Failed;
    }

    method DeleteTransaction(id: string) returns (outcome: Outcome)
      requires Valid()
      modifies this
      ensures Recorded(DeleteTxn(old(State()), id), outcome)
    {
      hide DataOf, DeleteTxn;
      Begin();
      outcome := DeleteManualTransactionTx(id);
      outcome := End(outcome);
    }

    // --- labels and extensions ---

    method SetPairsTx(id: string, seam: Seam, next: Pairs) returns (outcome: Outcome)
      requires Valid()
      modifies this`txns, this`versions, this`events, this`nextSequence, this`statements, this`faults
      ensures Follows(if id !in old(State()).txns then (old(State()), NotFound)
          else (WritePairs(old(State()), id, seam, next), Done), outcome)
    {
      hide DataOf, WritePairs;
      var prev := GetTransaction(id);
      if prev.NoRows? { return NotFound; }
      if prev.Broken? { return Failed; }
      var ok := WriteSeam(id, prev.value, seam, next);
      outcome := if ok then Done else Failed;
    }

    /** PUT labels (handleUpdateTransactionLabels) and PUT extensions (setExtensions). */
    method ReplacePairs(id: string, seam: Seam, input: Pairs) returns (outcome: Outcome)
      requires Valid()
      modifies this
      ensures Recorded(SetPairs(old(State()), id, seam, input), outcome)
    {
      hide DataOf, WritePairs, Normalize;
      var next := NormalizePairs(seam, input);
      Begin();
      outcome := SetPairsTx(id, seam, next);
      outcome := End(outcome);
    }

    /** DeleteLabelByKey and DeleteLabelByValue: one UPDATE, reporting the rows it touched. */
    method DeleteLabelRows(key: string, value: Option<string>) returns (removed: nat, ok: bool)
      modifies this`txns, this`statements, this`faults
      ensures faults >= old(faults) && (ok <==> faults == old(faults))
      ensures ok ==> removed == |Carriers(old(txns), key, value)|
      ensures txns == if ok then map id | id in old(txns) :: DropLabel(old(txns)[id], key, value) else old(txns)
    {
      removed := 0;
      ok := Execute();
      if ok { removed, txns := |Carriers(txns, key, value)|, map id | id in txns :: DropLabel(txns[id], key, value); }
    }

    method DeleteLabelTx(key: string, value: Option<string>) returns (outcome: Outcome)
      requires Valid()
      modifies this`txns, this`events, this`nextSequence, this`statements, this`faults
      ensures var s, n := old(State()), |Carriers(old(State()).txns, key, value)|;
              Follows(if n == 0 then (s, Done) else
                      (Emit(s.(txns := map id | id in s.txns :: DropLabel(s.txns[id], key, value)),
                            LabelDeleted(key, if value.None? then "" else value.value, n)), Done), outcome)
    {
      hide DataOf;
      NothingCarried(txns, key, value);
      var removed, ok := DeleteLabelRows(key, value);
      if !ok { return Failed; }
      if removed == 0 { return Done; }
      ok := InsertEvent(LabelDeleted(key, if value.None? then "" else value.value, removed));
      outcome := if ok then Done else Failed;
    }

    method DeleteLabelEverywhere(rawKey: string, rawValue: Option<string>) returns (outcome: Outcome)
      requires Valid()
      modifies this
      ensures Recorded(DeleteLabel(old(State()), rawKey, rawValue), outcome)
    {
      hide DataOf, CleanKeyOf, CleanValueOf, DropLabel, Carriers;
      var key := CleanKeyOf(LabelSeam, rawKey);
      if key == "" { return Invalid; }
      var value := if rawValue.None? then None else Some(CleanValueOf(LabelSeam, rawValue.value));
      Begin();
      outcome := DeleteLabelTx(key, value);
      outcome := End(outcome);
    }

    // --- relationships ---

    /** mutateRelationships' check of the edges that are new in this call. */
    method ValidateNewEdges(id: string, prev: seq<Edge>, next: seq<Edge>) returns (outcome: Outcome)
      modifies this`statements, this`faults
      ensures faults >= old(faults) && (outcome.Failed? <==> faults > old(faults))
      ensures outcome.Failed? || outcome.Done? || outcome.Invalid?
      ensures outcome.Done? ==> forall e :: e in next ==> EdgeAllowed(State(), id, prev, e)
      ensures outcome.Invalid? ==> exists i :: 0 <= i < |next| && !EdgeAllowed(State(), id, prev, next[i])
    {
      for i := 0 to |next|
        invariant faults == old(faults) && forall j :: 0 <= j < i ==> EdgeAllowed(State(), id, prev, next[j])
      {
        if next[i] in prev { continue; }
        if next[i].target == id { return Invalid; }
        var target := GetTransaction(next[i].target);
        if target.NoRows? { return Invalid; }
        if target.Broken? { return Failed; }
      }
      outcome := Done;
    }

    method MutateRelationshipsTx(id: string, change: EdgeChange) returns (outcome: Outcome)
      requires Valid()
      modifies this`txns, this`events, this`nextSequence, this`statements, this`faults
      ensures Follows(Changed(old(State()), id, change), outcome)
    {
      hide DataOf, NormalizeEdges, NormalizeKind, Trim, WriteEdges, EdgeAllowed;
      var prev := GetTransaction(id);
      if prev.NoRows? { return NotFound; }
      if prev.Broken? { return Failed; }
      var es := prev.value.edges;
      var transformed := es + [Edge(change.kind, change.target)];
      if change.Retract? { transformed := DropEdge(es, Edge(NormalizeKind(change.kind), Trim(change.target))); }
      var next := NormalizeEdges(transformed);
      outcome := ValidateNewEdges(id, es, next);
      if !outcome.Done? { return; }
      var ok := WriteRelationships(id, es, next);
      outcome := if ok then Done else Failed;
    }

    /** addRelationship and removeRelationship. */
    method MutateRelationships(id: string, change: EdgeChange) returns (outcome: Outcome)
      requires Valid()
      modifies this
      ensures Recorded(Changed(old(State()), id, change), outcome)
    {
      hide DataOf, Changed;
      Begin();
      outcome := MutateRelationshipsTx(id, change);
      outcome := End(outcome);
    }

    // --- whole-table reads ---

    /** allTransactions: the largest batches the store allows, until a short one. */
    method AllTransactions() returns (all: seq<Row>, ok: bool)
      modifies this`statements, this`faults
      ensures faults >= old(faults) && (ok <==> faults == old(faults))
      ensures ok ==> all == AllRows(txns)
    {
      hide AllRows;
      ghost var table := AllRows(txns);
      var offset := 0;
      all := [];
      while true
        invariant faults == old(faults) && offset <= |table| && all == table[..offset]
        decreases |table| - offset
      {
        var rows;
        rows, ok := ListTransactions(MAX_LIMIT, offset);
        if !ok { return; }
        all := all + rows;
        if |rows| < MAX_LIMIT { break; }
        offset := offset + MAX_LIMIT;
      }
    }

    /** ListAccounts, as the id-to-name map both search and rule runs build from it. */
    method AccountNames() returns (names: map<string, string>, ok: bool)
      modifies this`statements, this`faults
      ensures faults >= old(faults) && (ok <==> faults == old(faults))
      ensures ok ==> forall id :: NameIn(names, id) == AccountName(accounts, id)
    {
      ok := Execute();
      names := map id | id in accounts :: accounts[id].name;
    }

    /** searchTransactions, for any query on a record and its relationships. */
    method SearchTransactions(query: (Record, seq<Entry>) -> bool, limit: int, offset: int)
      returns (page: seq<Row>, total: nat, ok: bool)
      modifies this`statements, this`faults
      ensures faults >= old(faults) && (ok <==> faults == old(faults))
      ensures ok ==> var matched := MatchedRows(AllRows(txns), Arrows(AllRows(txns)), accounts, query);
                     page == SearchPage(matched, limit, offset) && total == |matched|
    {
      hide AllRows, IndexAt, Listed, Arrows, MatchedRows;
      page, total := [], 0;
      var names;
      names, ok := AccountNames();
      if !ok { return; }
      var rows;
      rows, ok := AllTransactions();
      if !ok { return; }
      var index := BuildRelationshipIndex(rows);
      var matched := FilterRows(rows, names, index, query, Arrows(rows), accounts);
      total := |matched|;
      page := SearchPage(matched, limit, offset);
    }

    /** listTransactionRelationships. */
    method ListTransactionRelationships(id: string) returns (r: Read<seq<Entry>>)
      modifies this`statements, this`faults
      ensures faults >= old(faults) && (r.Broken? <==> faults > old(faults))
      ensures !r.Broken? ==> r == if id in txns then Found(Neighborhood(txns, id)) else NoRows
    {
      hide InboundFrom, OutboundOf, Arrows, EntryBelow, RelatedRows;
      var t := GetTransaction(id);
      if t.NoRows? { return NoRows; }
      if t.Broken? { return Broken; }
      var outbound := CollectOutbound(t.value.edges);
      var rows, ok := ListRelatedTransactions();
      if !ok { return Broken; }
      var inbound := CollectInbound(rows, id);
      r := Found(Sort(outbound + inbound, EntryBelow));
    }

    // --- the vocabulary ---

    /** handleListLabels: the labels of every row that has any, counted. */
    method ListLabels() returns (out: seq<Count<Label>>, ok: bool)
      modifies this`statements, this`faults
      ensures faults >= old(faults) && (ok <==> faults == old(faults))
      ensures ok ==> Lists(txns, LabeledIds(txns))
                     && IsVocabulary(out, LabelTokens(LabelSets(txns, LabeledIds(txns))), LabelBelow)
    {
      hide LabelTokens, LabelBelow, Below;
      out := [];
      ok := Execute();
      if !ok { return; }
      LabeledIdsList(txns);
      BelowIsStrictTotal();
      var ids := OrderBy((set id | id in txns && txns[id].labels != map[]), Below);
      out := LabelCounts(LabelSets(txns, ids));
    }

    // --- rule runs ---

    method RunRowTx(row: Row, name: string, dir: Direction, rules: seq<Rule>)
        returns (hit: bool, changed: bool, ok: bool)
      requires Valid() && row.id in txns && txns[row.id] == row.txn
          && name == AccountName(accounts, row.txn.core.accountId)
      modifies this`txns, this`versions, this`events, this`nextSequence, this`statements, this`faults
      ensures Grew() && (ok <==> faults == old(faults))
      ensures ok ==> var s := old(State());
                     && State() == RunRow(s, dir, rules, row.id)
                     && hit == AnyMatch(rules, ToRecord(s, row.id)) && changed == RowChanges(s, dir, rules, row.id)
    {
      hide DataOf, WritePairs, Rewrite, AnyMatch;
      var rec := RecordOf(row.id, row.txn, name);
      hit := AnyRuleMatches(rules, rec);
      var labels, labelsChanged := RewriteTo(dir, rules, rec, LabelSeam, row.txn.labels);
      var extensions, extensionsChanged := RewriteTo(dir, rules, rec, ExtensionSeam, row.txn.extensions);
      changed, ok := labelsChanged || extensionsChanged, true;
      if !changed { return; }
      var next := row.txn;
      if labelsChanged {
        ok := WriteSeam(row.id, next, LabelSeam, labels);
        if !ok { return; }
        next := WithPairs(next, LabelSeam, labels);
        WritePairsRow(old(State()), row.id, LabelSeam, labels);
      }
      if extensionsChanged { ok := WriteSeam(row.id, next, ExtensionSeam, extensions); }
    }

    /** One row's seams, and its part in the counters. */
    method CountRowTx(row: Row, name: string, dir: Direction, rules: seq<Rule>, matched: nat, changed: nat)
      returns (nowMatched: nat, nowChanged: nat, ok: bool)
      requires Valid() && row.id in txns && txns[row.id] == row.txn
          && name == AccountName(accounts, row.txn.core.accountId)
      modifies this`txns, this`versions, this`events, this`nextSequence, this`statements, this`faults
      ensures Grew() && (ok <==> faults == old(faults))
      ensures ok ==> var s := old(State());
                     RunResult(State(), nowMatched, nowChanged)
                         == CountRow(RunResult(s, matched, changed), dir, rules, row.id)
      ensures ok ==> txns.Keys == old(txns).Keys && forall x :: x in txns && x != row.id ==> txns[x] == old(txns)[x]
    {
      hide DataOf, RunRow, RowChanges, AnyMatch, ToRecord, AccountName;
      nowMatched, nowChanged := matched, changed;
      var hit, rewritten;
      hit, rewritten, ok := RunRowTx(row, name, dir, rules);
      if !ok { return; }
      if hit { nowMatched := nowMatched + 1; }
      if rewritten { nowChanged := nowChanged + 1; }
      RunRowElsewhere(old(State()), dir, rules, row.id);
    }

    method RunAllRows(rows: seq<Row>, names: map<string, string>, dir: Direction, rules: seq<Rule>)
      returns (matched: nat, changed: nat, ok: bool)
      requires Valid() && rows == AllRows(txns)
      requires forall id :: NameIn(names, id) == AccountName(accounts, id)
      modifies this`txns, this`versions, this`events, this`nextSequence, this`statements, this`faults
      ensures Grew() && (ok <==> faults == old(faults))
      ensures ok ==> (forall id :: id in AllIds(old(State()).txns) ==> id in old(State()).txns)
                     && RunResult(State(), matched, changed)
                        == RunRows(RunResult(old(State()), 0, 0), dir, rules, AllIds(old(State()).txns))
    {
      hide DataOf, AllIds, AllRows, CountRow, RunRows, AccountName, NameIn, Distinct, Ascending;
      ghost var s := State();
      ghost var ids := AllIds(s.txns);
      AllRowsAre(s.txns);
      matched, changed := 0, 0;
      assert ids[0..] == ids;
      for i := 0 to |rows|
        invariant Grew() && faults == old(faults) && txns.Keys == s.txns.Keys
        invariant forall j :: i <= j < |rows| ==> txns[ids[j]] == rows[j].txn
        invariant RunRows(RunResult(State(), matched, changed), dir, rules, ids[i..])
            == RunRows(RunResult(s, 0, 0), dir, rules, ids)
      {
        RunRowsStep(RunResult(State(), matched, changed), dir, rules, ids, i);
        var name := NameIn(names, rows[i].txn.core.accountId);
        matched, changed, ok := CountRowTx(rows[i], name, dir, rules, matched, changed);
        if !ok { return; }
        DistinctAt(ids, i);
      }
      RunRowsEnd(RunResult(State(), matched, changed), dir, rules, ids);
      ok := true;
    }

    method RunRulesTx(rows: seq<Row>, names: map<string, string>, dir: Direction, rules: seq<Rule>, ruleId: int)
      returns (matched: nat, changed: nat, outcome: Outcome)
      requires Valid() && rules != [] && rows == AllRows(txns)
      requires forall id :: NameIn(names, id) == AccountName(accounts, id)
      modifies this`txns, this`versions, this`events, this`nextSequence, this`statements, this`faults
      ensures Follows((RunRules(old(State()), dir, rules, ruleId).ledger, Done), outcome)
      ensures outcome.Done? ==>
                var r := RunRules(old(State()), dir, rules, ruleId); matched == r.matched && changed == r.changed
    {
      hide DataOf, AllIds, AllRows, RunRows;
      var ok;
      matched, changed, ok := RunAllRows(rows, names, dir, rules);
      if !ok { return matched, changed, Failed; }
      ok := InsertEvent(if dir.Applying? then RuleExecuted(ruleId, matched, changed)
          else RuleReverted(ruleId, matched, changed));
      outcome := if ok then Done else Failed;
    }

    method RecordRun(rows: seq<Row>, names: map<string, string>, dir: Direction, rules: seq<Rule>, ruleId: int)
      returns (matched: nat, changed: nat, outcome: Outcome)
      requires Valid() && rules != [] && rows == AllRows(txns)
      requires forall id :: NameIn(names, id) == AccountName(accounts, id)
      modifies this
      ensures Recorded((RunRules(old(State()), dir, rules, ruleId).ledger, Done), outcome)
      ensures outcome.Done? ==>
                var r := RunRules(old(State()), dir, rules, ruleId); matched == r.matched && changed == r.changed
    {
      hide DataOf, AllRows, RunRules, AccountName, NameIn;
      Begin();
      matched, changed, outcome := RunRulesTx(rows, names, dir, rules, ruleId);
      outcome := End(outcome);
    }

    method ReadAndRun(dir: Direction, rules: seq<Rule>, ruleId: int)
        returns (matched: nat, changed: nat, outcome: Outcome)
      requires Valid() && rules != []
      modifies this
      ensures Recorded((RunRules(old(State()), dir, rules, ruleId).ledger, Done), outcome)
      ensures outcome.Done? ==>
                var r := RunRules(old(State()), dir, rules, ruleId); matched == r.matched && changed == r.changed
    {
      hide DataOf, AllRows, RunRules, AccountName, NameIn, Ascending;
      var names, ok := AccountNames();
      if !ok { return 0, 0, Failed; }
      var rows;
      rows, ok := AllTransactions();
      if !ok { return 0, 0, Failed; }
      assert State() == old(State()) && Valid();
      matched, changed, outcome := RecordRun(rows, names, dir, rules, ruleId);
    }

    /** applyRules and unapplyRule. */
    method RunCompiledRules(dir: Direction, rules: seq<Rule>, ruleId: int)
        returns (matched: nat, changed: nat, outcome: Outcome)
      requires Valid()
      modifies this
      ensures Recorded((RunRules(old(State()), dir, rules, ruleId).ledger, Done), outcome)
      ensures var r := RunRules(old(State()), dir, rules, ruleId);
              (matched, changed) == if outcome.Done? then (r.matched, r.changed) else (0, 0)
    {
      hide DataOf, RunRows, AllIds;
      if rules == [] { return 0, 0, Done; }
      matched, changed, outcome := ReadAndRun(dir, rules, ruleId);
      if !outcome.Done? { matched, changed := 0, 0; }
    }

    // --- requests ---

    /** One request, routed to its operation. */
    method Dispatch(op: Op) returns (outcome: Outcome)
      requires Valid()
      modifies this
      ensures Grew() && published == old(published) + events[|old(events)|..]
      ensures State() == Step(old(State()), op) || (State() == old(State()) && outcome.Failed?)
      ensures outcome.Failed? && faults == old(faults) ==> CanFail(old(State()), op)
    {
      hide DataOf, CreateAccount, UpdateAccount, DeleteAccount, UpdateTxn, DeleteTxn, SetPairs, DeleteLabel, RunRules;
      OnlyTheseFail(State(), op);
      match op {
        case OpCreateAccount(id, input, now) => outcome := CreateManualAccount(id, input, now);
        case OpUpdateAccount(id, input, now) => outcome := UpdateManualAccount(id, input, now);
        case OpDeleteAccount(id) => outcome := DeleteManualAccount(id);
        case OpCreateTxn(id, input, now) => outcome := CreateManualTransaction(id, input, now);
        case OpUpdateTxn(id, input, now) => outcome := UpdateTransactionCore(id, input, now);
        case OpDeleteTxn(id) => outcome := DeleteTransaction(id);
        case OpSetPairs(id, seam, pairs) => outcome := ReplacePairs(id, seam, pairs);
        case OpDeleteLabel(key, value) => outcome := DeleteLabelEverywhere(key, value);
        case OpAddEdge(id, kind, target) => outcome := MutateRelationships(id, Assert(kind, target));
        case OpRemoveEdge(id, kind, target) => outcome := MutateRelationships(id, Retract(kind, target));
        case OpRunRules(dir, rules, ruleId) =>
          var matched, changed;
          matched, changed, outcome := RunCompiledRules(dir, rules, ruleId);
      }
    }

    /** Whatever fails along the way, a request keeps the tables sound, and what it publishes carries a consumer that
        mirrored the tables before it to a mirror of the tables after it. */
    method Handle(op: Op) returns (outcome: Outcome)
      requires Valid() && Sound(State()) && Admissible(State(), op)
      modifies this
      ensures Valid() && Sound(State())
      ensures old(published) <= published
      ensures Fold(ViewOf(old(State())), DataOf(published[|old(published)|..])) == ViewOf(State())
    {
      hide DataOf, Sound, Admissible, Fold, ViewOf, Step;
      ghost var s := State();
      StepSound(s, op);
      StepTracks(s, op);
      TracksSelf(s);
      outcome := Dispatch(op);
      DataOfSuffix(events, |old(events)|);
      DataLength(old(events));
      assert published[|old(published)|..] == events[|old(events)|..];
    }
  }
}
