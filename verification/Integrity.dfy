/** What every reachable ledger satisfies, and what no run can touch. */
module Integrity {
  import opened Text
  import opened Sorting
  import opened Meta
  import opened Edges
  import opened Amount
  import opened Ledger

  /** No self-edge, no duplicate edge, no dangling target, canonical metadata, a live account. */
  ghost predicate RowSound(s: Ledger, id: string)
    requires id in s.txns
  {
    var t := s.txns[id];
    && t.core.accountId in s.accounts
    && Normal(LabelSeam, t.labels) && Normal(ExtensionSeam, t.extensions)
    && NormalEdges(t.edges)
    && forall e :: e in t.edges ==> e.target != id && e.target in s.txns
  }

  ghost predicate Sound(s: Ledger) {
    && (forall id :: id in s.txns ==> RowSound(s, id))
    && (forall id :: id in s.versions ==> id in s.txns && s.versions[id] != [])
  }

  /** `s` may differ from `r` in row `id`'s edges only. */
  ghost predicate SameButEdges(a: Txn, b: Txn) { a == b.(edges := a.edges) }

  // --- row writes ---

  lemma WritePairsSound(s: Ledger, id: string, seam: Seam, m: Pairs)
    requires Sound(s) && id in s.txns && Normal(seam, m)
    ensures Sound(WritePairs(s, id, seam, m))
  {
    hide Normal, NormalEdges, WritePairs;
    var r := WritePairs(s, id, seam, m);
    WritePairsIs(s, id, seam, m);
    WritePairsGrows(s, id, seam, m);
    forall x | x in r.txns ensures RowSound(r, x) { assert RowSound(s, x); }
  }

  lemma WriteEdgesSound(s: Ledger, id: string, es: seq<Edge>)
    requires Sound(s) && id in s.txns && NormalEdges(es)
    requires forall e :: e in es ==> e.target != id && e.target in s.txns
    ensures Sound(WriteEdges(s, id, es))
  {
    hide Normal, NormalEdges, EdgeDiff;
    var r := WriteEdges(s, id, es);
    forall x | x in r.txns ensures RowSound(r, x) { assert RowSound(s, x); }
  }

  // --- stripping and deleting ---

  /** One row of the strip: exactly the edges into `target` go, on every row but the target's own. */
  lemma StripRowIs(s: Ledger, id: string, target: string)
    requires Sound(s) && id in s.txns
    ensures var r := StripRow(s, id, target);
            && Sound(r) && r == s.(txns := r.txns, log := r.log)
            && (forall x :: x in s.txns && x != id ==> r.txns[x] == s.txns[x])
            && SameButEdges(s.txns[id], r.txns[id])
            && r.txns[id].edges == (if id == target then s.txns[id].edges else WithoutTarget(s.txns[id].edges, target))
  {
    hide Normal, EdgeDiff, WithoutTarget, NormalizeEdges, IsCleanEdge;
    var es := s.txns[id].edges;
    assert RowSound(s, id);
    WithoutTargetIs(es, target);
    WithoutTargetShrinks(es, target);
    var kept := WithoutTarget(es, target);
    NormalizeEdgesCanonical(kept);
    forall e | e in kept ensures e in es { assert e in Elems(kept); }
    WriteEdgesSound(s, id, kept);
  }

  ghost predicate Stripped(s: Ledger, r: Ledger, ids: seq<string>, target: string)
    requires forall id :: id in ids ==> id in s.txns
  {
    && r.txns.Keys == s.txns.Keys && r == s.(txns := r.txns, log := r.log)
    && (forall x :: x in s.txns ==> SameButEdges(s.txns[x], r.txns[x]))
    && (forall x :: x in s.txns && (x !in ids || x == target) ==> r.txns[x] == s.txns[x])
    && (forall x :: x in ids && x != target ==> r.txns[x].edges == WithoutTarget(s.txns[x].edges, target))
  }

  lemma {:induction false} StripInboundIs(s: Ledger, ids: seq<string>, target: string)
    requires Sound(s) && Distinct(ids) && forall id :: id in ids ==> id in s.txns
    ensures Sound(StripInbound(s, ids, target)) && Stripped(s, StripInbound(s, ids, target), ids, target)
    decreases |ids|
  {
    hide Sound, StripRow, WithoutTarget, Stripped;
    if ids == [] {
      StrippedNothing(s, target);
    } else {
      StripRowIs(s, ids[0], target);
      var s' := StripRow(s, ids[0], target);
      assert ids[0] !in ids[1..];
      StripInboundIs(s', ids[1..], target);
      StrippedTwice(s, s', StripInbound(s, ids, target), ids, target);
    }
  }

  lemma StrippedNothing(s: Ledger, target: string)
    ensures Stripped(s, s, [], target)
  {
  }

  lemma StrippedTwice(s: Ledger, m: Ledger, r: Ledger, ids: seq<string>, target: string)
    requires ids != [] && ids[0] !in ids[1..] && (forall id :: id in ids ==> id in s.txns)
    requires m == s.(txns := m.txns, log := m.log) && m.txns.Keys == s.txns.Keys
    requires forall x :: x in s.txns && x != ids[0] ==> m.txns[x] == s.txns[x]
    requires SameButEdges(s.txns[ids[0]], m.txns[ids[0]])
    requires m.txns[ids[0]].edges ==
             (if ids[0] == target then s.txns[ids[0]].edges else WithoutTarget(s.txns[ids[0]].edges, target))
    requires Stripped(m, r, ids[1..], target)
    ensures Stripped(s, r, ids, target)
  {
    hide WithoutTarget;
    assert forall x :: x in ids <==> x == ids[0] || x in ids[1..];
  }

  /** The net effect of deleting one transaction: its row and its history go, edges into it go, nothing else. */
  ghost predicate Dropped(s: Ledger, r: Ledger, ids: set<string>) {
    && r.accounts == s.accounts && r.env == s.env
    && r.txns.Keys == s.txns.Keys - ids
    && r.versions == s.versions - ids
    && (forall x :: x in r.txns ==> SameButEdges(s.txns[x], r.txns[x]))
    && (forall x :: x in r.txns ==> Elems(r.txns[x].edges) == set e | e in s.txns[x].edges && e.target !in ids)
  }

  lemma DropTxnIs(s: Ledger, id: string, t: Txn)
    requires Sound(s) && id in s.txns
    ensures Sound(DropTxn(s, id, t)) && Dropped(s, DropTxn(s, id, t), {id})
  {
    hide Sound, StripInbound, RelatedIds, Dropped, Stripped;
    RelatedIdsExist(s.txns);
    var ids := RelatedIds(s.txns);
    StripInboundIs(s, ids, id);
    var m := StripInbound(s, ids, id);
    var r := DropTxn(s, id, t);
    StrippedDrops(s, m, r, ids, id);
    DroppedSound(s, m, r, id);
  }

  lemma StrippedDrops(s: Ledger, m: Ledger, r: Ledger, ids: seq<string>, id: string)
    requires Sound(s) && id in s.txns && Enumerates(ids, set x | x in s.txns && s.txns[x].edges != [])
    requires Stripped(s, m, ids, id)
    requires r == m.(versions := m.versions - {id}, txns := m.txns - {id}, log := r.log)
    ensures Dropped(s, r, {id})
  {
    hide Sound, WithoutTarget, Enumerates, Distinct;
    forall x | x in r.txns
      ensures Elems(r.txns[x].edges) == set e | e in s.txns[x].edges && e.target !in {id}
    {
      EdgesLeft(s, x, id);
      assert x in ids <==> s.txns[x].edges != [] by { Member(ids, (set y | y in s.txns && s.txns[y].edges != []), x); }
      if x !in ids { assert WithoutTarget([], id) == [] by { WithoutTargetShrinks([], id); } }
      assert r.txns[x].edges == WithoutTarget(s.txns[x].edges, id);
    }
  }

  lemma Member(ids: seq<string>, all: set<string>, x: string)
    requires Enumerates(ids, all)
    ensures x in ids <==> x in all
  {
  }

  lemma EdgesLeft(s: Ledger, x: string, target: string)
    requires Sound(s) && x in s.txns
    ensures Elems(WithoutTarget(s.txns[x].edges, target)) == set e | e in s.txns[x].edges && e.target !in {target}
  {
    hide Sound, WithoutTarget, NormalEdges;
    SoundRow(s, x);
    WithoutTargetIs(s.txns[x].edges, target);
  }

  lemma DroppedSound(s: Ledger, m: Ledger, r: Ledger, id: string)
    requires Sound(m) && Dropped(s, r, {id})
    requires r == m.(versions := m.versions - {id}, txns := m.txns - {id}, log := r.log)
    ensures Sound(r)
  {
    hide Normal, NormalEdges;
    forall x | x in r.txns ensures RowSound(r, x) {
      assert RowSound(m, x);
      forall e | e in r.txns[x].edges ensures e.target != id { assert e in Elems(r.txns[x].edges); }
    }
  }

  /** Deleting a list of transactions one by one, each strip seeing the rows the earlier strips rewrote. */
  lemma {:induction false} DropChildrenIs(s: Ledger, rows: map<string, Txn>, ids: seq<string>)
    requires Sound(s) && Distinct(ids) && (forall id :: id in ids ==> id in rows && id in s.txns)
    ensures Sound(DropChildren(s, rows, ids)) && Dropped(s, DropChildren(s, rows, ids), Elems(ids))
    decreases |ids|
  {
    hide Sound, DropTxn;
    if ids == [] {
      DroppedNothing(s);
    } else {
      DropTxnIs(s, ids[0], rows[ids[0]]);
      var s' := DropTxn(s, ids[0], rows[ids[0]]);
      assert ids[0] !in ids[1..];
      forall id | id in ids[1..] ensures id in s'.txns { assert id in ids; }
      DropChildrenIs(s', rows, ids[1..]);
      DroppedTwice(s, s', DropChildren(s, rows, ids), ids[0], Elems(ids[1..]));
      assert Elems(ids) == {ids[0]} + Elems(ids[1..]);
    }
  }

  lemma DroppedNothing(s: Ledger)
    ensures Dropped(s, s, Elems([]))
  {
  }

  lemma DroppedTwice(s: Ledger, m: Ledger, r: Ledger, id: string, ids: set<string>)
    requires Dropped(s, m, {id}) && Dropped(m, r, ids)
    ensures Dropped(s, r, {id} + ids)
  {
    forall x | x in r.txns
      ensures Elems(r.txns[x].edges) == set e | e in s.txns[x].edges && e.target !in {id} + ids
    {
      assert forall e :: e in m.txns[x].edges <==> e in Elems(m.txns[x].edges);
    }
  }

  // --- operations ---

  lemma DropAllChildrenIs(s: Ledger, account: string)
    requires Sound(s)
    ensures Sound(DropAllChildren(s, account))
    ensures Dropped(s, DropAllChildren(s, account), Elems(Children(s.txns, account)))
    ensures |InAccount(s.txns, account)| <= MAX_INT32 ==> InAccount(DropAllChildren(s, account).txns, account) == {}
  {
    hide Sound, DropChildren, Children;
    ChildrenExist(s.txns, account);
    DropChildrenIs(s, s.txns, Children(s.txns, account));
    var m := DropAllChildren(s, account);
    forall x | x in m.txns && x in InAccount(m.txns, account) ensures x in InAccount(s.txns, account) { }
  }

  lemma DeleteAccountSound(s: Ledger, id: string)
    requires Sound(s) && |InAccount(s.txns, id)| <= MAX_INT32
    ensures Sound(DeleteAccount(s, id).0)
  {
    hide Normal, NormalEdges, DropAllChildren, Children, Dropped;
    if DeleteAccount(s, id).1.Done? {
      DropAllChildrenIs(s, id);
      var m := DropAllChildren(s, id);
      var r := DeleteAccount(s, id).0;
      assert r.txns == m.txns;
      forall x | x in r.txns ensures RowSound(r, x) { assert RowSound(m, x); }
    }
  }

  lemma MutateEdgesSound(s: Ledger, id: string, transformed: seq<Edge>)
    requires Sound(s) && id in s.txns
    ensures Sound(MutateEdges(s, id, transformed).0)
  {
    hide Normal, NormalEdges, NormalizeEdges, EdgeDiff;
    var es := NormalizeEdges(transformed);
    NormalizeEdgesCanonical(transformed);
    assert RowSound(s, id);
    if MutateEdges(s, id, transformed).1.Done? {
      forall e | e in es ensures e.target != id && e.target in s.txns {
        var i :| 0 <= i < |es| && es[i] == e;
        assert EdgeAllowed(s, id, s.txns[id].edges, es[i]);
      }
      WriteEdgesSound(s, id, es);
    }
  }

  lemma RewriteNormal(dir: Direction, rules: seq<Rule>, rec: Record, seam: Seam, current: Pairs)
    requires Normal(seam, current)
    ensures Normal(seam, Rewrite(dir, rules, rec, seam, current).0)
  {
    hide Normal, Apply, Unapply;
    ApplyKeepsNormal(rules, rec, seam, current);
  }

  /** A rule run touches labels and extensions of the rows it visits and nothing else. */
  ghost predicate OnlyPairs(s: Ledger, r: Ledger) {
    && r.accounts == s.accounts && r.env == s.env && r.txns.Keys == s.txns.Keys
    && forall x :: x in s.txns ==>
         r.txns[x] == s.txns[x].(labels := r.txns[x].labels, extensions := r.txns[x].extensions)
  }

  lemma WritePairsIs(s: Ledger, id: string, seam: Seam, m: Pairs)
    requires id in s.txns
    ensures var r := WritePairs(s, id, seam, m);
            r.accounts == s.accounts && r.env == s.env && r.txns == s.txns[id := WithPairs(s.txns[id], seam, m)]
  {
    hide PairDiff, Snap;
  }

  lemma WritePairsGrows(s: Ledger, id: string, seam: Seam, m: Pairs)
    requires id in s.txns
    ensures var r := WritePairs(s, id, seam, m);
            id in r.versions && r.versions[id] != [] && r.versions == s.versions[id := r.versions[id]]
  {
    hide PairDiff, Snap;
  }

  lemma RunRowFrame(s: Ledger, dir: Direction, rules: seq<Rule>, id: string)
    requires id in s.txns
    ensures OnlyPairs(s, RunRow(s, dir, rules, id))
    ensures var rec, t := ToRecord(s, id), s.txns[id];
            RunRow(s, dir, rules, id).txns == s.txns[id := t.(
              labels := Rewrite(dir, rules, rec, LabelSeam, t.labels).0,
              extensions := Rewrite(dir, rules, rec, ExtensionSeam, t.extensions).0)]
  {
    hide Rewrite, WritePairs, ToRecord, OnlyPairs;
    var rec, t := ToRecord(s, id), s.txns[id];
    var labels := Rewrite(dir, rules, rec, LabelSeam, t.labels);
    RewriteUnchanged(dir, rules, rec, LabelSeam, t.labels);
    RewriteUnchanged(dir, rules, rec, ExtensionSeam, t.extensions);
    WritePairsIs(s, id, LabelSeam, labels.0);
    var s' := if labels.1 then WritePairs(s, id, LabelSeam, labels.0) else s;
    var extensions := Rewrite(dir, rules, rec, ExtensionSeam, t.extensions);
    WritePairsIs(s', id, ExtensionSeam, extensions.0);
    PairsOnly(s, RunRow(s, dir, rules, id), id, labels.0, extensions.0);
  }

  lemma PairsOnly(s: Ledger, r: Ledger, id: string, labels: Pairs, extensions: Pairs)
    requires id in s.txns && r.accounts == s.accounts && r.env == s.env
    requires r.txns == s.txns[id := s.txns[id].(labels := labels, extensions := extensions)]
    ensures OnlyPairs(s, r)
  {
  }

  lemma RewriteUnchanged(dir: Direction, rules: seq<Rule>, rec: Record, seam: Seam, current: Pairs)
    ensures Rewrite(dir, rules, rec, seam, current).1 <==> Rewrite(dir, rules, rec, seam, current).0 != current
  {
  }

  lemma RunRowSound(s: Ledger, dir: Direction, rules: seq<Rule>, id: string)
    requires Sound(s) && id in s.txns
    ensures Sound(RunRow(s, dir, rules, id))
  {
    hide Normal, NormalEdges, PairDiff, Rewrite, WritePairs, Sound;
    var rec, t := ToRecord(s, id), s.txns[id];
    SoundRow(s, id);
    RewriteNormal(dir, rules, rec, LabelSeam, t.labels);
    RewriteNormal(dir, rules, rec, ExtensionSeam, t.extensions);
    var labels := Rewrite(dir, rules, rec, LabelSeam, t.labels);
    WritePairsSound(s, id, LabelSeam, labels.0);
    WritePairsIs(s, id, LabelSeam, labels.0);
    var s' := if labels.1 then WritePairs(s, id, LabelSeam, labels.0) else s;
    WritePairsSound(s', id, ExtensionSeam, Rewrite(dir, rules, rec, ExtensionSeam, t.extensions).0);
  }

  lemma SoundRow(s: Ledger, id: string)
    requires Sound(s) && id in s.txns
    ensures RowSound(s, id)
  {
  }

  lemma {:induction false} RunRowsSound(r: RunResult, dir: Direction, rules: seq<Rule>, ids: seq<string>)
    requires Sound(r.ledger) && forall id :: id in ids ==> id in r.ledger.txns
    ensures Sound(RunRows(r, dir, rules, ids).ledger) && OnlyPairs(r.ledger, RunRows(r, dir, rules, ids).ledger)
    decreases |ids|
  {
    hide Sound, RunRow, AnyMatch, RowChanges;
    if ids != [] {
      RunRowSound(r.ledger, dir, rules, ids[0]);
      RunRowFrame(r.ledger, dir, rules, ids[0]);
      RunRowsSound(CountRow(r, dir, rules, ids[0]), dir, rules, ids[1..]);
    }
  }

  lemma DropLabelNormal(t: Txn, key: string, value: Option<string>)
    requires Normal(LabelSeam, t.labels)
    ensures Normal(LabelSeam, DropLabel(t, key, value).labels)
    ensures DropLabel(t, key, value) == t.(labels := DropLabel(t, key, value).labels)
  {
    hide CleanPair;
    SubmapSize(DropLabel(t, key, value).labels, t.labels);
  }

  lemma DeleteLabelSound(s: Ledger, key: string, value: Option<string>)
    requires Sound(s)
    ensures Sound(DeleteLabel(s, key, value).0)
  {
    hide Normal, NormalEdges, CleanKeyOf, CleanValueOf, DropLabel, Carriers;
    var r := DeleteLabel(s, key, value).0;
    var k, v := CleanKeyOf(LabelSeam, key), if value.None? then None else Some(CleanValueOf(LabelSeam, value.value));
    forall x | x in r.txns ensures RowSound(r, x) {
      SoundRow(s, x);
      DropLabelNormal(s.txns[x], k, v);
    }
  }

  lemma EmptyIsNormal(seam: Seam)
    ensures Normal(seam, map[]) && NormalEdges([])
  {
  }

  lemma CreateTxnSound(s: Ledger, id: string, input: TxnInput, now: int)
    requires Sound(s)
    ensures Sound(CreateTxn(s, id, input, now).0)
  {
    hide Normal, NormalEdges, ReadTxn;
    EmptyIsNormal(LabelSeam);
    EmptyIsNormal(ExtensionSeam);
    var r := CreateTxn(s, id, input, now).0;
    forall x | x in r.txns ensures RowSound(r, x) { if x != id { assert RowSound(s, x); } }
  }

  lemma UpdateTxnSound(s: Ledger, id: string, input: TxnInput, now: int)
    requires Sound(s)
    ensures Sound(UpdateTxn(s, id, input, now).0)
  {
    hide Normal, NormalEdges, ReadTxn;
    var r := UpdateTxn(s, id, input, now).0;
    forall x | x in r.txns ensures RowSound(r, x) { assert RowSound(s, x); }
  }

  lemma AccountWriteSound(s: Ledger, r: Ledger)
    requires Sound(s) && r.txns == s.txns && r.versions == s.versions && s.accounts.Keys <= r.accounts.Keys
    ensures Sound(r)
  {
    hide Normal, NormalEdges;
    forall x | x in r.txns ensures RowSound(r, x) { assert RowSound(s, x); }
  }

  lemma RunRulesSound(s: Ledger, dir: Direction, rules: seq<Rule>, ruleId: int)
    requires Sound(s)
    ensures Sound(RunRules(s, dir, rules, ruleId).ledger) && OnlyPairs(s, RunRules(s, dir, rules, ruleId).ledger)
  {
    hide Sound, RunRows, AllIds;
    AllIdsExist(s.txns);
    RunRowsSound(RunResult(s, 0, 0), dir, rules, AllIds(s.txns));
    if rules != [] {
      AccountWriteSound(RunRows(RunResult(s, 0, 0), dir, rules, AllIds(s.txns)).ledger,
                        RunRules(s, dir, rules, ruleId).ledger);
    }
  }

  lemma StepSound(s: Ledger, op: Op)
    requires Sound(s) && Admissible(s, op)
    ensures Sound(Step(s, op))
  {
    hide Sound, ReadTxn, ReadAccount, DeleteAccount, DropTxn, RunRules, DeleteLabel, MutateEdges, WritePairs,
        CreateTxn, UpdateTxn, Normalize, Without, NormalizeKind, Trim;
    match op {
      case OpCreateAccount(id, input, now) => AccountWriteSound(s, Step(s, op));
      case OpUpdateAccount(id, input, now) => AccountWriteSound(s, Step(s, op));
      case OpDeleteAccount(id) => DeleteAccountSound(s, id);
      case OpCreateTxn(id, input, now) => CreateTxnSound(s, id, input, now);
      case OpUpdateTxn(id, input, now) => UpdateTxnSound(s, id, input, now);
      case OpDeleteTxn(id) => if id in s.txns { DropTxnIs(s, id, s.txns[id]); }
      case OpSetPairs(id, seam, pairs) =>
        NormalizeIsNormal(seam, pairs);
        if id in s.txns { WritePairsSound(s, id, seam, Normalize(seam, pairs)); }
      case OpDeleteLabel(key, value) => DeleteLabelSound(s, key, value);
      case OpAddEdge(id, kind, target) =>
        if id in s.txns { MutateEdgesSound(s, id, s.txns[id].edges + [Edge(kind, target)]); }
      case OpRemoveEdge(id, kind, target) =>
        if id in s.txns { MutateEdgesSound(s, id, Without(s.txns[id].edges, Edge(NormalizeKind(kind), Trim(target)))); }
      case OpRunRules(dir, rules, ruleId) => RunRulesSound(s, dir, rules, ruleId);
    }
  }

  /** Relationship integrity, live accounts and canonical metadata hold in every reachable ledger. */
  lemma {:induction false} RunSound(s: Ledger, ops: seq<Op>)
    requires Sound(s) && AdmissibleRun(s, ops)
    ensures Sound(Run(s, ops))
    decreases |ops|
  {
    hide Sound, Step, Admissible;
    if ops != [] {
      StepSound(s, ops[0]);
      RunSound(Step(s, ops[0]), ops[1..]);
    }
  }

  // --- source-owned rows ---

  /** No row of another source sits in a manual account. */
  ghost predicate Segregated(s: Ledger) {
    forall id :: id in s.txns && s.txns[id].source != MANUAL && s.txns[id].core.accountId in s.accounts ==>
      s.accounts[s.txns[id].core.accountId].source != MANUAL
  }

  /** Every account and transaction a source owns is still there, with the same account record and the same
      core fields and provenance. Labels, extensions and edges are the user's to change. */
  ghost predicate Untouched(s: Ledger, r: Ledger) {
    && (forall a :: a in s.accounts && s.accounts[a].source != MANUAL ==>
          a in r.accounts && r.accounts[a] == s.accounts[a])
    && (forall x :: x in s.txns && s.txns[x].source != MANUAL ==>
          x in r.txns && r.txns[x].core == s.txns[x].core && r.txns[x].syncedAt == s.txns[x].syncedAt
          && r.txns[x].source == s.txns[x].source)
  }

  /** Writes to one row that leave its core, sync time and source alone. */
  lemma MetadataUntouched(s: Ledger, r: Ledger)
    requires Segregated(s) && r.accounts == s.accounts && r.txns.Keys == s.txns.Keys
    requires forall x :: x in s.txns ==> r.txns[x].core == s.txns[x].core && r.txns[x].syncedAt == s.txns[x].syncedAt
                                         && r.txns[x].source == s.txns[x].source
    ensures Untouched(s, r) && Segregated(r)
  {
  }

  /** Writing one account that is manual, or new where none of the rows point. */
  lemma AccountUntouched(s: Ledger, r: Ledger, id: string)
    requires Segregated(s) && r.txns == s.txns && id in r.accounts && r.accounts == s.accounts[id := r.accounts[id]]
    requires if id in s.accounts then s.accounts[id].source == MANUAL && r.accounts[id].source == MANUAL
             else forall x :: x in s.txns ==> s.txns[x].core.accountId != id
    ensures Untouched(s, r) && Segregated(r)
  {
  }

  lemma AccountOpsUntouched(s: Ledger, op: Op)
    requires Sound(s) && Segregated(s) && Admissible(s, op) && (op.OpCreateAccount? || op.OpUpdateAccount?)
    ensures Untouched(s, Step(s, op)) && Segregated(Step(s, op))
  {
    hide ValidateAmount, Trim, Sound, RowSound, Segregated, Untouched;
    var r := Step(s, op);
    if r == s {
      MetadataUntouched(s, s);
    } else {
      forall x | x in s.txns ensures s.txns[x].core.accountId in s.accounts { LiveAccount(s, x); }
      AccountUntouched(s, r, op.id);
    }
  }

  lemma LiveAccount(s: Ledger, x: string)
    requires Sound(s) && x in s.txns
    ensures s.txns[x].core.accountId in s.accounts
  {
    hide Normal, NormalEdges;
    SoundRow(s, x);
  }

  /** Writing one row as manual, where no source's row stood. */
  lemma ManualWriteUntouched(s: Ledger, r: Ledger, id: string)
    requires Segregated(s) && r.accounts == s.accounts
    requires id in r.txns && r.txns == s.txns[id := r.txns[id]] && r.txns[id].source == MANUAL
    requires id in s.txns ==> s.txns[id].source == MANUAL
    ensures Untouched(s, r) && Segregated(r)
  {
  }

  lemma CreateTxnUntouched(s: Ledger, id: string, input: TxnInput, now: int)
    requires Segregated(s)
    ensures var r := CreateTxn(s, id, input, now).0; Untouched(s, r) && Segregated(r)
  {
    hide ReadTxn, Segregated, Untouched;
    var r := CreateTxn(s, id, input, now).0;
    if CreateTxn(s, id, input, now).1.Done? { ManualWriteUntouched(s, r, id); } else { MetadataUntouched(s, s); }
  }

  lemma UpdateTxnUntouched(s: Ledger, id: string, input: TxnInput, now: int)
    requires Segregated(s)
    ensures var r := UpdateTxn(s, id, input, now).0; Untouched(s, r) && Segregated(r)
  {
    hide ReadTxn, Segregated, Untouched;
    var r := UpdateTxn(s, id, input, now).0;
    if UpdateTxn(s, id, input, now).1.Done? { ManualWriteUntouched(s, r, id); } else { MetadataUntouched(s, s); }
  }

  lemma DropTxnUntouched(s: Ledger, id: string)
    requires Sound(s) && Segregated(s)
    ensures Untouched(s, DeleteTxn(s, id).0) && Segregated(DeleteTxn(s, id).0)
  {
    hide Sound, DropTxn;
    if id in s.txns { DropTxnIs(s, id, s.txns[id]); }
  }

  lemma MutateEdgesIs(s: Ledger, id: string, transformed: seq<Edge>)
    requires id in s.txns
    ensures var r := MutateEdges(s, id, transformed).0;
            && r == s.(txns := r.txns, log := r.log) && r.txns.Keys == s.txns.Keys
            && forall x :: x in s.txns ==> SameButEdges(s.txns[x], r.txns[x])
  {
    hide NormalizeEdges, EdgeDiff;
  }

  lemma DeleteLabelIs(s: Ledger, key: string, value: Option<string>)
    ensures var r := DeleteLabel(s, key, value).0;
            && r == s.(txns := r.txns, log := r.log) && r.txns.Keys == s.txns.Keys
            && forall x :: x in s.txns ==> r.txns[x] == s.txns[x].(labels := r.txns[x].labels)
  {
    hide CleanKeyOf, CleanValueOf, Carriers;
  }

  lemma MetadataOpsUntouched(s: Ledger, op: Op)
    requires Segregated(s) && (op.OpSetPairs? || op.OpDeleteLabel? || op.OpAddEdge? || op.OpRemoveEdge?)
    ensures Untouched(s, Step(s, op)) && Segregated(Step(s, op))
  {
    hide Untouched, Segregated, Normalize, NormalizeKind, Trim, Without, WritePairs, MutateEdges, DeleteLabel;
    match op {
      case OpSetPairs(id, seam, pairs) => if id in s.txns { WritePairsIs(s, id, seam, Normalize(seam, pairs)); }
      case OpDeleteLabel(key, value) => DeleteLabelIs(s, key, value);
      case OpAddEdge(id, kind, target) =>
        if id in s.txns { MutateEdgesIs(s, id, s.txns[id].edges + [Edge(kind, target)]); }
      case OpRemoveEdge(id, kind, target) =>
        if id in s.txns { MutateEdgesIs(s, id, Without(s.txns[id].edges, Edge(NormalizeKind(kind), Trim(target)))); }
    }
    MetadataUntouched(s, Step(s, op));
  }

  lemma StepUntouched(s: Ledger, op: Op)
    requires Sound(s) && Segregated(s) && Admissible(s, op)
    ensures Untouched(s, Step(s, op)) && Segregated(Step(s, op))
  {
    hide Sound, Untouched, Segregated, CreateTxn, UpdateTxn, DeleteAccount, DeleteTxn, RunRules;
    match op {
      case OpCreateAccount(_, _, _) => AccountOpsUntouched(s, op);
      case OpUpdateAccount(_, _, _) => AccountOpsUntouched(s, op);
      case OpCreateTxn(id, input, now) => CreateTxnUntouched(s, id, input, now);
      case OpUpdateTxn(id, input, now) => UpdateTxnUntouched(s, id, input, now);
      case OpDeleteAccount(id) => DeleteAccountUntouched(s, id);
      case OpDeleteTxn(id) => DropTxnUntouched(s, id);
      case OpRunRules(dir, rules, ruleId) => RunRulesUntouched(s, dir, rules, ruleId);
      case _ => MetadataOpsUntouched(s, op);
    }
  }

  lemma RunRulesUntouched(s: Ledger, dir: Direction, rules: seq<Rule>, ruleId: int)
    requires Sound(s) && Segregated(s)
    ensures Untouched(s, RunRules(s, dir, rules, ruleId).ledger) && Segregated(RunRules(s, dir, rules, ruleId).ledger)
  {
    hide Sound, Untouched, Segregated, RunRules;
    RunRulesSound(s, dir, rules, ruleId);
    MetadataUntouched(s, RunRules(s, dir, rules, ruleId).ledger);
  }

  /** deleteAccount removes children of any source; that none is source-owned is Segregated. */
  lemma DeleteAccountUntouched(s: Ledger, id: string)
    requires Sound(s) && Segregated(s) && |InAccount(s.txns, id)| <= MAX_INT32
    ensures Untouched(s, DeleteAccount(s, id).0) && Segregated(DeleteAccount(s, id).0)
  {
    hide Sound, DropAllChildren, Children;
    if DeleteAccount(s, id).1.Done? {
      DropAllChildrenIs(s, id);
      ChildrenExist(s.txns, id);
      forall x | x in s.txns && s.txns[x].source != MANUAL ensures x !in Elems(Children(s.txns, id)) { SoundRow(s, x); }
    }
  }

  /** Over every run, nothing a source owns is deleted or edited. */
  lemma {:induction false} RunUntouched(s: Ledger, ops: seq<Op>)
    requires Sound(s) && Segregated(s) && AdmissibleRun(s, ops)
    ensures Untouched(s, Run(s, ops)) && Segregated(Run(s, ops))
    decreases |ops|
  {
    hide Sound, Step, Admissible;
    if ops != [] {
      StepSound(s, ops[0]);
      StepUntouched(s, ops[0]);
      RunUntouched(Step(s, ops[0]), ops[1..]);
    }
  }

  /** The starting condition is needed: a source-owned row under a manual account goes with the account. */
  lemma SegregationIsNeeded(s: Ledger, id: string)
    requires Sound(s) && id in s.txns && s.txns[id].source != MANUAL
    requires s.txns[id].core.accountId in s.accounts && s.accounts[s.txns[id].core.accountId].source == MANUAL
    requires |InAccount(s.txns, s.txns[id].core.accountId)| <= MAX_INT32
    ensures !Untouched(s, Step(s, OpDeleteAccount(s.txns[id].core.accountId)))
  {
    hide Sound, DropAllChildren, Children;
    var account := s.txns[id].core.accountId;
    DropAllChildrenIs(s, account);
    ChildrenExist(s.txns, account);
    assert id in InAccount(s.txns, account);
  }

  // --- dates ---

  /** Every stored date can be encoded, so no event or version of a row can fail to be. */
  ghost predicate Dated(s: Ledger) {
    && (forall a :: a in s.accounts ==> Encodable(s.accounts[a].balanceDate))
    && (forall x :: x in s.txns ==> Encodable(s.txns[x].core.date))
  }

  /** Rows of `r` are rows of `s` with the same core, under accounts of `s`. */
  ghost predicate SameCores(s: Ledger, r: Ledger) {
    && (forall a :: a in r.accounts ==> a in s.accounts && r.accounts[a] == s.accounts[a])
    && (forall x :: x in r.txns ==> x in s.txns && r.txns[x].core == s.txns[x].core)
  }

  lemma DroppedKeepsCores(s: Ledger, r: Ledger, ids: set<string>)
    requires Dropped(s, r, ids)
    ensures SameCores(s, r)
  {
  }

  lemma DeleteAccountKeepsCores(s: Ledger, id: string)
    requires Sound(s) && |InAccount(s.txns, id)| <= MAX_INT32
    ensures SameCores(s, DeleteAccount(s, id).0)
  {
    hide Sound, DropAllChildren, Dropped, Children;
    var m := DropAllChildren(s, id);
    DropAllChildrenIs(s, id);
    DroppedKeepsCores(s, m, Elems(Children(s.txns, id)));
  }

  lemma DeletesKeepCores(s: Ledger, op: Op)
    requires Sound(s) && (op.OpDeleteTxn? || op.OpDeleteAccount?) && Admissible(s, op)
    ensures SameCores(s, Step(s, op))
  {
    hide Sound, DropTxn, DeleteAccount, Dropped;
    if op.OpDeleteAccount? {
      DeleteAccountKeepsCores(s, op.id);
    } else if op.id in s.txns {
      DropTxnIs(s, op.id, s.txns[op.id]);
      DroppedKeepsCores(s, DropTxn(s, op.id, s.txns[op.id]), {op.id});
    }
  }

  lemma MetadataKeepsCores(s: Ledger, op: Op)
    requires Sound(s) && Admissible(s, op)
    requires op.OpSetPairs? || op.OpDeleteLabel? || op.OpAddEdge? || op.OpRemoveEdge? || op.OpRunRules?
    ensures SameCores(s, Step(s, op))
  {
    hide Sound, Normalize, NormalizeKind, Trim, Without, WritePairs, MutateEdges, DeleteLabel, RunRules;
    match op {
      case OpSetPairs(id, seam, pairs) => if id in s.txns { WritePairsIs(s, id, seam, Normalize(seam, pairs)); }
      case OpDeleteLabel(key, value) => DeleteLabelIs(s, key, value);
      case OpAddEdge(id, kind, target) =>
        if id in s.txns { MutateEdgesIs(s, id, s.txns[id].edges + [Edge(kind, target)]); }
      case OpRemoveEdge(id, kind, target) =>
        var edge := Edge(NormalizeKind(kind), Trim(target));
        if id in s.txns { MutateEdgesIs(s, id, Without(s.txns[id].edges, edge)); }
      case OpRunRules(dir, rules, ruleId) => RunRulesSound(s, dir, rules, ruleId);
    }
  }

  lemma AccountOpsDated(s: Ledger, op: Op)
    requires Dated(s) && (op.OpCreateAccount? || op.OpUpdateAccount?)
    ensures Dated(Step(s, op))
  {
    hide ReadAccount, Encodable;
  }

  lemma TxnOpsDated(s: Ledger, op: Op)
    requires Dated(s) && (op.OpCreateTxn? || op.OpUpdateTxn?)
    ensures Dated(Step(s, op))
  {
    hide ReadTxn, Encodable, Snap;
  }

  lemma StepDated(s: Ledger, op: Op)
    requires Sound(s) && Admissible(s, op) && Dated(s)
    ensures Dated(Step(s, op))
  {
    hide Sound, Step, Admissible, Encodable;
    match op {
      case OpCreateAccount(_, _, _) => AccountOpsDated(s, op);
      case OpUpdateAccount(_, _, _) => AccountOpsDated(s, op);
      case OpCreateTxn(_, _, _) => TxnOpsDated(s, op);
      case OpUpdateTxn(_, _, _) => TxnOpsDated(s, op);
      case OpDeleteTxn(_) => DeletesKeepCores(s, op);
      case OpDeleteAccount(_) => DeletesKeepCores(s, op);
      case _ => MetadataKeepsCores(s, op);
    }
  }

  /** Whoever starts with such dates keeps them, so only a request's own date can fail to be encoded. */
  lemma {:induction false} RunDated(s: Ledger, ops: seq<Op>)
    requires Sound(s) && Dated(s) && AdmissibleRun(s, ops)
    ensures Dated(Run(s, ops))
    decreases |ops|
  {
    hide Sound, Dated, Step, Admissible;
    if ops != [] {
      StepSound(s, ops[0]);
      StepDated(s, ops[0]);
      RunDated(Step(s, ops[0]), ops[1..]);
    }
  }
}
