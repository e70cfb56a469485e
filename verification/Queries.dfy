/** What a query on one field of a transaction finds: in a search and in a rule run, the rows whose own field it is. */
module Queries {
  import opened Text
  import opened Sorting
  import opened Meta
  import opened Edges
  import opened Ledger
  import opened Integrity
  import opened RuleRuns
  import opened Search
  import opened Api

  /** A question about one field. */
  datatype Test =
    | IdIs(text: string)
    | AccountIs(text: string)
    | AccountNamed(text: string)
    | AmountIs(text: string)
    | PendingIs(flag: bool)
    | DatedFrom(from: int, to: int)
    | DescriptionIs(text: string)
    | PayeeIs(text: string)
    | MemoIs(text: string)
    | Labelled(key: string, value: string)
    | Extending(key: string, value: string)
    | SyncedSince(time: int)

  /** As asked of the record a query is given. */
  predicate Asks(test: Test, r: Record) {
    match test
    case IdIs(x) => r.id == x
    case AccountIs(x) => r.accountId == x
    case AccountNamed(x) => r.accountName == x
    case AmountIs(x) => r.amount == x
    case PendingIs(b) => r.pending == b
    case DatedFrom(a, b) => a <= r.date <= b
    case DescriptionIs(x) => r.description == x
    case PayeeIs(x) => r.payee == x
    case MemoIs(x) => r.memo == x
    case Labelled(k, v) => k in r.labels && r.labels[k] == v
    case Extending(k, v) => k in r.extensions && r.extensions[k] == v
    case SyncedSince(time) => r.syncedAt >= time
  }

  /** As it is meant of the stored row; its account's name is "" when there is no such account. */
  predicate RowHas(accounts: map<string, Account>, id: string, t: Txn, test: Test) {
    match test
    case IdIs(x) => id == x
    case AccountIs(x) => t.core.accountId == x
    case AccountNamed(x) => if t.core.accountId in accounts then accounts[t.core.accountId].name == x else x == ""
    case AmountIs(x) => t.core.amount == x
    case PendingIs(b) => t.core.pending == b
    case DatedFrom(a, b) => a <= t.core.date <= b
    case DescriptionIs(x) => t.core.description == x
    case PayeeIs(x) => t.core.payee == x
    case MemoIs(x) => t.core.memo == x
    case Labelled(k, v) => k in t.labels && t.labels[k] == v
    case Extending(k, v) => k in t.extensions && t.extensions[k] == v
    case SyncedSince(time) => t.syncedAt >= time
  }

  lemma AsksTheRow(accounts: map<string, Account>, id: string, t: Txn, test: Test)
    ensures Asks(test, RecordOf(id, t, AccountName(accounts, t.core.accountId))) <==> RowHas(accounts, id, t, test)
  {
  }

  // --- rule runs ---

  ghost predicate RuleAsks(rule: Rule, test: Test) { forall r :: rule.query(r) <==> Asks(test, r) }

  ghost function Found(s: Ledger, test: Test): set<string> {
    set id | id in s.txns && RowHas(s.accounts, id, s.txns[id], test)
  }

  /** The pairs a run of one rule leaves on a matching row, when they fit under the cap of fifty. */
  function After(dir: Direction, current: Pairs, action: Pairs): Pairs {
    if dir.Applying? then current + action
    else map k | k in current && !(k in action && action[k] == current[k]) :: current[k]
  }

  predicate Fits(dir: Direction, current: Pairs, action: Pairs) { dir.Applying? ==> |current.Keys + action.Keys| <= 50 }

  /** A run matched exactly the rows of `found`: they get the rule's pairs (or lose those of them they have), no other
      row changes, and the counters say how many rows matched and how many came out different. */
  ghost predicate RanOver(s: Ledger, r: RunResult, dir: Direction, rule: Rule, found: set<string>) {
    && r.ledger.accounts == s.accounts && r.ledger.txns.Keys == s.txns.Keys
    && (forall id :: id in s.txns ==>
          if id in found then RowAfter(s.txns[id], r.ledger.txns[id], dir, rule) else r.ledger.txns[id] == s.txns[id])
    && r.matched == |found|
    && r.changed == |set id | id in s.txns && r.ledger.txns[id] != s.txns[id]|
  }

  /** A run of a rule on one field matches exactly the rows whose own field it is, and its event carries the
      counters. */
  lemma RuleFindsRows(s: Ledger, dir: Direction, rule: Rule, test: Test, ruleId: int)
    requires Sound(s) && WellFormedRules([rule]) && RuleAsks(rule, test)
    ensures RanOver(s, RunRules(s, dir, [rule], ruleId), dir, rule, Found(s, test))
    ensures var r := RunRules(s, dir, [rule], ruleId);
            && r.ledger.log != []
            && var d := r.ledger.log[|r.ledger.log| - 1];
               && (if dir.Applying? then d.RuleExecuted? else d.RuleReverted?)
               && d.ruleId == ruleId && d.matched == r.matched && d.changed == r.changed
  {
    hide Sound, RunRules, RunTxn, RowHas, ToRecord, WellFormedRules, RuleAsks, RowAfter, AnyMatch, Found;
    RunRulesExact(s, dir, [rule], ruleId);
    forall id | id in s.txns
      ensures id in Found(s, test) <==> AnyMatch([rule], ToRecord(s, id))
      ensures if id in Found(s, test) then RowAfter(s.txns[id], RunTxn(s, dir, [rule], id), dir, rule)
              else RunTxn(s, dir, [rule], id) == s.txns[id]
    {
      RuleFindsRow(s, dir, rule, test, id);
    }
    FoundIsStored(s, test);
    assert Matching(s, [rule], s.txns.Keys) == Found(s, test);
    LastIsCounters(s, dir, [rule], ruleId);
  }

  lemma FoundIsStored(s: Ledger, test: Test)
    ensures Found(s, test) <= s.txns.Keys
  {
  }

  lemma LastIsCounters(s: Ledger, dir: Direction, rules: seq<Rule>, ruleId: int)
    requires rules != []
    ensures var r := RunRules(s, dir, rules, ruleId);
            && r.ledger.log != []
            && var d := r.ledger.log[|r.ledger.log| - 1];
               && (if dir.Applying? then d.RuleExecuted? else d.RuleReverted?)
               && d.ruleId == ruleId && d.matched == r.matched && d.changed == r.changed
  {
    hide RunRows, AllIds;
    AllIdsExist(s.txns);
    var r := RunRows(RunResult(s, 0, 0), dir, rules, AllIds(s.txns));
    var n := RunRules(s, dir, rules, ruleId);
    assert n.matched == r.matched && n.changed == r.changed;
  }

  predicate RowAfter(t: Txn, next: Txn, dir: Direction, rule: Rule) {
    && (Fits(dir, t.labels, rule.labels) ==> next.labels == After(dir, t.labels, rule.labels))
    && (Fits(dir, t.extensions, rule.extensions) ==> next.extensions == After(dir, t.extensions, rule.extensions))
  }

  lemma RuleFindsRow(s: Ledger, dir: Direction, rule: Rule, test: Test, id: string)
    requires Sound(s) && WellFormedRules([rule]) && RuleAsks(rule, test) && id in s.txns
    ensures id in Found(s, test) <==> AnyMatch([rule], ToRecord(s, id))
    ensures id !in Found(s, test) ==> RunTxn(s, dir, [rule], id) == s.txns[id]
    ensures id in Found(s, test) ==> RowAfter(s.txns[id], RunTxn(s, dir, [rule], id), dir, rule)
  {
    hide Sound, Asks, RowHas, RecordOf, WellFormedRules, Rewrite, Fits, After;
    AsksTheRow(s.accounts, id, s.txns[id], test);
    var rec, t := ToRecord(s, id), s.txns[id];
    SoundRowPairs(s, id);
    assert [rule][0] == rule;
    assert rule.query(rec) <==> Asks(test, rec);
    OneRule(dir, rule, rec, LabelSeam, t.labels);
    OneRule(dir, rule, rec, ExtensionSeam, t.extensions);
  }

  lemma SoundRowPairs(s: Ledger, id: string)
    requires Sound(s) && id in s.txns
    ensures Normal(LabelSeam, s.txns[id].labels) && Normal(ExtensionSeam, s.txns[id].extensions)
  {
    hide Normal;
    assert RowSound(s, id);
  }

  lemma OneRule(dir: Direction, rule: Rule, rec: Record, seam: Seam, current: Pairs)
    requires WellFormedRules([rule]) && Normal(seam, current)
    ensures var next, action := Rewrite(dir, [rule], rec, seam, current).0,
                                if seam.LabelSeam? then rule.labels else rule.extensions;
            if !rule.query(rec) then next == current
            else Fits(dir, current, action) ==> next == After(dir, current, action)
  {
    hide Normal, Apply, Unapply, WellFormedRules, Fits, After;
    if dir.Applying? { OneApplied(rule, rec, seam, current); } else { OneUnapplied(rule, rec, seam, current); }
  }

  lemma OneApplied(rule: Rule, rec: Record, seam: Seam, current: Pairs)
    requires WellFormedRules([rule]) && Normal(seam, current)
    ensures var next, action := Apply([rule], rec, seam, current).0, Actions(rule, seam);
            if !rule.query(rec) then next == current
            else Fits(Applying, current, action) ==> next == After(Applying, current, action)
  {
    hide Normal, Apply, Kept, Effect, WellFormedRules, SetsPair, Restrict;
    OneRuleSets(rule, rec, seam);
    ApplyIs([rule], rec, seam, current);
    var effect := Effect([rule], rec, seam);
    assert (current + effect).Keys == current.Keys + effect.Keys;
    NothingEvicted(current + effect);
    NormalFits(seam, current);
    if !rule.query(rec) { assert current + effect == current; }
  }

  lemma OneUnapplied(rule: Rule, rec: Record, seam: Seam, current: Pairs)
    requires WellFormedRules([rule]) && Normal(seam, current)
    ensures var next, action := Unapply([rule], rec, seam, current).0, Actions(rule, seam);
            next == if rule.query(rec) then After(Unapplying, current, action) else current
  {
    hide Normal, Unapply, Effect, WellFormedRules, SetsPair;
    OneRuleSets(rule, rec, seam);
    UnapplyIs([rule], rec, seam, current);
  }

  lemma NormalFits(seam: Seam, current: Pairs)
    requires Normal(seam, current)
    ensures |current| <= 50
  {
  }

  lemma OneRuleSets(rule: Rule, rec: Record, seam: Seam)
    ensures var action := if seam.LabelSeam? then rule.labels else rule.extensions;
            && Effect([rule], rec, seam) == (if rule.query(rec) then action else map[])
            && forall k, v :: SetsPair([rule], rec, seam, k, v) <==> rule.query(rec) && k in action && action[k] == v
  {
    var action := if seam.LabelSeam? then rule.labels else rule.extensions;
    assert [rule][0] == rule && [rule][1..] == [];
    assert map[] + action == action;
    EffectOfOne(rule, rec, seam);
    forall k, v
      ensures SetsPair([rule], rec, seam, k, v) <==> rule.query(rec) && k in action && action[k] == v
    {
      if rule.query(rec) && k in action && action[k] == v { assert [rule][0].query(rec); }
    }
  }

  lemma EffectOfOne(rule: Rule, rec: Record, seam: Seam)
    ensures Effect([rule], rec, seam) == if rule.query(rec) then Actions(rule, seam) else map[]
  {
    assert [rule][1..] == [];
    var merged := if rule.query(rec) then map[] + Actions(rule, seam) else map[];
    assert Merge([rule], rec, seam, map[]) == Merge([rule][1..], rec, seam, merged) == merged;
    assert map[] + Actions(rule, seam) == Actions(rule, seam);
  }

  lemma NothingEvicted(all: Pairs)
    ensures |all.Keys| <= 50 ==> Restrict(all, Kept(all.Keys)) == all
  {
    hide Kept;
    KeptIsPrefix(all.Keys);
    if |all.Keys| <= 50 {
      SubsetEqual(Kept(all.Keys), all.Keys);
      assert Restrict(all, all.Keys) == all;
    }
  }

  // --- searches ---

  ghost predicate SearchAsks(query: (Record, seq<Entry>) -> bool, test: Test) {
    forall r, es :: query(r, es) <==> Asks(test, r)
  }

  /** The latest date first, and by id within a date; so no row twice. */
  ghost predicate Newest(rows: seq<Row>) {
    forall i, j :: 0 <= i < j < |rows| ==>
      || rows[i].txn.core.date > rows[j].txn.core.date
      || (rows[i].txn.core.date == rows[j].txn.core.date && Below(rows[i].id, rows[j].id))
  }

  /** The whole table as a search reads it. */
  lemma TableRead(txns: map<string, Txn>)
    ensures var rows := AllRows(txns);
            && (forall row :: row in rows <==> row.id in txns && row.txn == txns[row.id])
            && Newest(rows)
  {
    hide Below, AllIds, Ordered;
    AllRowsAre(txns);
    AllIdsExist(txns);
    var rows, ids := AllRows(txns), AllIds(txns);
    IdsInOrder(txns);
    forall row ensures row in rows <==> row.id in txns && row.txn == txns[row.id] {
      if row.id in txns && row.txn == txns[row.id] {
        var i :| 0 <= i < |ids| && ids[i] == row.id;
        assert rows[i] == row;
      }
    }
  }

  lemma IdsInOrder(txns: map<string, Txn>)
    ensures var ids := AllIds(txns);
            forall i, j :: 0 <= i < j < |ids| ==>
              && ids[i] in txns && ids[j] in txns
              && (|| txns[ids[i]].core.date > txns[ids[j]].core.date
                  || (txns[ids[i]].core.date == txns[ids[j]].core.date && Below(ids[i], ids[j])))
  {
    hide Below, Ordered;
    var lt := (a, b) => ByDate(txns, a, b);
    ByDateIsStrictTotal(txns);
    OrderedEnumerates(txns.Keys, lt);
    var ids := AllIds(txns);
    forall i, j | 0 <= i < j < |ids|
      ensures ids[i] in txns && ids[j] in txns && ByDate(txns, ids[i], ids[j])
    {
      var a, b := ids[i], ids[j];
      assert a in ids && b in ids && a != b && !lt(b, a);
      assert lt(a, b);
    }
  }

  /** A search on one field finds exactly the rows whose own field it is, in the order of the table. */
  lemma SearchFindsRows(txns: map<string, Txn>, arrows: seq<Arrow>, accounts: map<string, Account>,
                        query: (Record, seq<Entry>) -> bool, test: Test)
    requires SearchAsks(query, test)
    ensures var rows := MatchedRows(AllRows(txns), arrows, accounts, query);
            && (forall row :: row in rows <==>
                  row.id in txns && row.txn == txns[row.id] && RowHas(accounts, row.id, row.txn, test))
            && Newest(rows)
  {
    hide AllRows, Newest, RowHas, RowMatches;
    TableRead(txns);
    MatchedInOrder(AllRows(txns), arrows, accounts, query);
    MatchedAre(AllRows(txns), arrows, accounts, query);
    forall row: Row
      ensures RowMatches(row, arrows, accounts, query) <==> RowHas(accounts, row.id, row.txn, test)
    {
      MatchesField(row, arrows, accounts, query, test);
    }
  }

  lemma MatchesField(row: Row, arrows: seq<Arrow>, accounts: map<string, Account>,
                     query: (Record, seq<Entry>) -> bool, test: Test)
    requires SearchAsks(query, test)
    ensures RowMatches(row, arrows, accounts, query) <==> RowHas(accounts, row.id, row.txn, test)
  {
    hide RowHas, Asks, RecordOf, IndexAt;
    AsksTheRow(accounts, row.id, row.txn, test);
  }

  ghost predicate SearchAsksFor(query: (Record, seq<Entry>) -> bool, entry: Entry) {
    forall r, es :: query(r, es) <==> entry in es
  }

  /** The row stores the edge (outbound), or a stored row has it into this one (inbound). */
  predicate RowRelates(txns: map<string, Txn>, id: string, entry: Entry) {
    if entry.side.Outbound? then id in txns && Edge(entry.kind, entry.other) in txns[id].edges
    else entry.other in txns && Edge(entry.kind, id) in txns[entry.other].edges
  }

  /** A search for a relationship finds exactly the rows that have it, whichever row it is stored on. */
  lemma SearchFindsRelated(txns: map<string, Txn>, accounts: map<string, Account>,
                           query: (Record, seq<Entry>) -> bool, entry: Entry)
    requires SearchAsksFor(query, entry)
    ensures forall row :: row in MatchedRows(AllRows(txns), Arrows(AllRows(txns)), accounts, query) <==>
                          row.id in txns && row.txn == txns[row.id] && RowRelates(txns, row.id, entry)
  {
    hide AllRows, Newest, RowMatches, Arrows, RowRelates;
    TableRead(txns);
    MatchedAre(AllRows(txns), Arrows(AllRows(txns)), accounts, query);
    forall row: Row
      ensures RowMatches(row, Arrows(AllRows(txns)), accounts, query) <==> RowRelates(txns, row.id, entry)
    {
      MatchesRelated(txns, row, accounts, query, entry);
    }
  }

  lemma MatchesRelated(txns: map<string, Txn>, row: Row, accounts: map<string, Account>,
                       query: (Record, seq<Entry>) -> bool, entry: Entry)
    requires SearchAsksFor(query, entry)
    ensures RowMatches(row, Arrows(AllRows(txns)), accounts, query) <==> RowRelates(txns, row.id, entry)
  {
    hide AllRows, Arrows, IndexAt, RecordOf;
    IndexCountsInTable(txns, row.id, entry);
    var es := IndexAt(Arrows(AllRows(txns)), row.id);
    assert entry in es <==> multiset(es)[entry] > 0;
  }

  lemma {:induction false} MatchedAre(rows: seq<Row>, arrows: seq<Arrow>, accounts: map<string, Account>,
                                      query: (Record, seq<Entry>) -> bool)
    ensures forall row :: row in MatchedRows(rows, arrows, accounts, query) <==>
                          row in rows && RowMatches(row, arrows, accounts, query)
  {
    hide RowMatches;
    if rows != [] {
      var rest := MatchedRows(rows[1..], arrows, accounts, query);
      MatchedAre(rows[1..], arrows, accounts, query);
      assert forall row :: row in rows <==> row == rows[0] || row in rows[1..];
      assert [] + rest == rest;
    }
  }

  lemma {:induction false} MatchedInOrder(rows: seq<Row>, arrows: seq<Arrow>, accounts: map<string, Account>,
                                          query: (Record, seq<Entry>) -> bool)
    requires Newest(rows)
    ensures Newest(MatchedRows(rows, arrows, accounts, query))
    ensures forall row :: row in MatchedRows(rows, arrows, accounts, query) ==> row in rows
  {
    hide Newest, RowMatches;
    if rows == [] {
      assert Newest([]) by { NewestNone(); }
    } else {
      var rest := MatchedRows(rows[1..], arrows, accounts, query);
      NewestTail(rows);
      MatchedInOrder(rows[1..], arrows, accounts, query);
      assert [] + rest == rest;
      forall j | 0 <= j < |rest| ensures Newest([rows[0], rest[j]]) {
        assert rest[j] in rest;
        NewestPair(rows, rest[j]);
      }
      NewestHead(rows[0], rest);
    }
  }

  lemma NewestNone()
    ensures Newest([])
  {
  }

  lemma NewestTail(rows: seq<Row>)
    requires Newest(rows) && rows != []
    ensures Newest(rows[1..])
  {
    hide Below;
  }

  lemma NewestPair(rows: seq<Row>, row: Row)
    requires Newest(rows) && rows != [] && row in rows[1..]
    ensures Newest([rows[0], row])
  {
    hide Below;
    var i :| 0 <= i < |rows[1..]| && rows[1..][i] == row;
    assert rows[i + 1] == row;
  }

  lemma NewestHead(row: Row, rest: seq<Row>)
    requires Newest(rest) && forall j :: 0 <= j < |rest| ==> Newest([row, rest[j]])
    ensures Newest([row] + rest)
  {
    hide Below;
    forall j | 0 <= j < |rest|
      ensures row.txn.core.date > rest[j].txn.core.date
              || (row.txn.core.date == rest[j].txn.core.date && Below(row.id, rest[j].id))
    {
      assert [row, rest[j]][0] == row && [row, rest[j]][1] == rest[j];
    }
  }
}
