/** Version history against the rows it describes. */
module History {
  import opened Text
  import opened Sorting
  import opened Meta
  import opened Edges
  import opened Amount
  import opened Ledger
  import opened Integrity
  import Timeline

  /** The latest version of every versioned transaction is its current state. So whatever is recorded next, the
      "before" it is diffed against on read is the row as it was. */
  ghost predicate Agrees(s: Ledger) {
    forall id :: id in s.versions && id in s.txns && s.versions[id] != [] ==> Latest(s, id) == Shown(s, id)
  }

  /** A row as a version taken now would show it. */
  ghost function Shown(s: Ledger, id: string): Snapshot
    requires id in s.txns
  {
    Snap(s.env.codec, s.txns[id])
  }

  ghost function Latest(s: Ledger, id: string): Snapshot
    requires id in s.versions && s.versions[id] != []
  {
    s.versions[id][|s.versions[id]| - 1].snapshot
  }

  /** One history growing into another: nothing recorded is rewritten, the first version is the imported baseline, and
      no later one is. */
  ghost predicate Grown(before: seq<Version>, after: seq<Version>) {
    && before <= after
    && (before == [] && after != [] ==> after[0].kind.Imported?)
    && forall i :: |before| <= i < |after| && i > 0 ==> !after[i].kind.Imported?
  }

  /** The history of every transaction that is still there has only grown. */
  ghost predicate Immutable(s: Ledger, r: Ledger) {
    forall id :: id in r.txns ==>
      (id in s.versions ==> id in r.versions) && (id in r.versions ==> Grown(VersionsOf(s, id), r.versions[id]))
  }

  /** The history a change to `id` is appended to: the stored one, or a baseline of the prior state. */
  ghost function Baseline(s: Ledger, id: string, prior: Snapshot): seq<Version> {
    if VersionsOf(s, id) == [] then [Version(Imported, prior)] else VersionsOf(s, id)
  }

  lemma VersionChangeIs(s: Ledger, id: string, prior: Snapshot, next: Snapshot, kind: ChangeKind)
    ensures VersionChange(s, id, prior, next, kind)
            == s.(versions := s.versions[id := Baseline(s, id, prior) + [Version(kind, next)]])
  {
    var base := Baseline(s, id, prior);
    if VersionsOf(s, id) == [] {
      assert [] + [Version(Imported, prior)] == base;
      assert s.versions[id := base][id := base + [Version(kind, next)]]
          == s.versions[id := base + [Version(kind, next)]];
    }
  }

  lemma WritePairsVersions(s: Ledger, id: string, seam: Seam, m: Pairs)
    requires id in s.txns
    ensures var r, t := WritePairs(s, id, seam, m), s.txns[id];
            r.versions == s.versions[id := Baseline(s, id, Snap(s.env.codec, t)) +
              [Version(if seam.LabelSeam? then Labeled else Extended, Snap(s.env.codec, WithPairs(t, seam, m)))]]
  {
    hide PairDiff, Baseline, VersionChange;
    var t := s.txns[id];
    var next := WithPairs(t, seam, m);
    VersionChangeIs(
      s.(txns := s.txns[id := next], log := s.log + PairDiff(s.env.order, |s.log|, id, seam, PairsOf(t, seam), m)),
      id, Snap(s.env.codec, t), Snap(s.env.codec, next), if seam.LabelSeam? then Labeled else Extended);
    var log := s.log + PairDiff(s.env.order, |s.log|, id, seam, PairsOf(t, seam), m);
    BaselineSame(s, s.(txns := s.txns[id := next], log := log), id, Snap(s.env.codec, t));
  }

  lemma BaselineSame(s: Ledger, r: Ledger, id: string, prior: Snapshot)
    requires s.versions == r.versions
    ensures Baseline(s, id, prior) == Baseline(r, id, prior)
  {
  }

  /** The row's history ends in its current snapshot. */
  ghost predicate EndsAt(s: Ledger, id: string)
    requires id in s.txns
  {
    var vs := VersionsOf(s, id);
    vs != [] && vs[|vs| - 1].snapshot == Shown(s, id)
  }

  /** Agreement in terms of the rows' own fields. */
  lemma AgreesMeans(s: Ledger)
    ensures Agrees(s) <==>
            forall id :: id in s.versions && id in s.txns && s.versions[id] != [] ==>
              Shows(s.env.codec, Latest(s, id), s.txns[id])
  {
    hide Shows, Snap;
    forall id | id in s.txns ensures forall p :: Shows(s.env.codec, p, s.txns[id]) <==> p == Shown(s, id) {
      SnapshotShows(s.env.codec, s.txns[id]);
    }
  }

  /** Every row of `r` either has the history and the snapshot it had in `s`, or a history that ends in its snapshot. */
  ghost predicate Level(s: Ledger, r: Ledger) {
    r.env == s.env &&
    forall id :: id in r.txns ==>
      EndsAt(r, id) || (id in s.txns && VersionsOf(r, id) == VersionsOf(s, id) && Shown(r, id) == Shown(s, id))
  }

  lemma LevelAgrees(s: Ledger, r: Ledger)
    requires Level(s, r)
    ensures Agrees(s) ==> Agrees(r)
  {
    hide Shown;
  }

  lemma GrownBaseline(s: Ledger, id: string, prior: Snapshot, next: Version)
    requires !next.kind.Imported?
    ensures Grown(VersionsOf(s, id), Baseline(s, id, prior) + [next])
  {
  }

  /** A write to one row whose history grows by a version that shows the row. */
  lemma OneVersionMore(s: Ledger, r: Ledger, id: string, vs: seq<Version>)
    requires r.env == s.env && id in r.txns && r.txns == s.txns[id := r.txns[id]]
    requires r.versions == s.versions[id := vs] && Grown(VersionsOf(s, id), vs)
    requires vs != [] && vs[|vs| - 1].snapshot == Shown(r, id)
    ensures Level(s, r) && Immutable(s, r)
  {
    hide Shown, Grown;
    forall x ensures Grown(VersionsOf(s, x), VersionsOf(s, x)) { GrownSelf(VersionsOf(s, x)); }
    forall x | x in r.txns && x != id ensures Shown(r, x) == Shown(s, x) { SameShown(s, r, x); }
  }

  lemma SameShown(s: Ledger, r: Ledger, x: string)
    requires x in s.txns && x in r.txns && r.env == s.env && r.txns[x] == s.txns[x]
    ensures Shown(r, x) == Shown(s, x)
  {
  }

  lemma GrownSelf(vs: seq<Version>)
    ensures Grown(vs, vs)
  {
  }

  lemma WritePairsAgrees(s: Ledger, id: string, seam: Seam, m: Pairs)
    requires id in s.txns
    ensures Level(s, WritePairs(s, id, seam, m))
    ensures Immutable(s, WritePairs(s, id, seam, m))
  {
    hide WritePairs, Grown, Level, Immutable, Baseline, Snap;
    var r, prior := WritePairs(s, id, seam, m), Snap(s.env.codec, s.txns[id]);
    WritePairsIs(s, id, seam, m);
    WritePairsVersions(s, id, seam, m);
    var next := Version(if seam.LabelSeam? then Labeled else Extended, Snap(s.env.codec, r.txns[id]));
    GrownBaseline(s, id, prior, next);
    OneVersionMore(s, r, id, Baseline(s, id, prior) + [next]);
  }

  /** Steps that leave histories and snapshots of the surviving rows alone. */
  ghost predicate Silent(s: Ledger, r: Ledger) {
    && r.env == s.env
    && (forall id :: id in r.txns ==> id in s.txns && Shown(r, id) == Shown(s, id))
    && (forall id :: id in r.versions ==> id in s.versions && r.versions[id] == s.versions[id])
    && (forall id :: id in s.versions && id in r.txns ==> id in r.versions)
  }

  lemma SilentAgrees(s: Ledger, r: Ledger)
    requires Silent(s, r)
    ensures Level(s, r)
    ensures Immutable(s, r)
  {
    hide Shown;
  }

  lemma DroppedSilent(s: Ledger, r: Ledger, ids: set<string>)
    requires Dropped(s, r, ids)
    ensures Silent(s, r)
  {
  }

  lemma ImmutableTransitive(s: Ledger, m: Ledger, r: Ledger)
    requires Immutable(s, m) && Immutable(m, r) && r.txns.Keys <= m.txns.Keys
    ensures Immutable(s, r)
    ensures Level(s, m) && Level(m, r) ==> Level(s, r)
  {
    hide Shown;
    forall id | id in s.versions && id in r.txns ensures id in r.versions && s.versions[id] <= r.versions[id] {
      assert s.versions[id] <= m.versions[id] <= r.versions[id];
    }
  }

  lemma RunRowAgrees(s: Ledger, dir: Direction, rules: seq<Rule>, id: string)
    requires id in s.txns
    ensures Level(s, RunRow(s, dir, rules, id))
    ensures Immutable(s, RunRow(s, dir, rules, id))
  {
    hide Level, Immutable, WritePairs, Rewrite;
    var rec, t := ToRecord(s, id), s.txns[id];
    var labels := Rewrite(dir, rules, rec, LabelSeam, t.labels);
    var extensions := Rewrite(dir, rules, rec, ExtensionSeam, t.extensions);
    SilentAgrees(s, s);
    WritePairsAgrees(s, id, LabelSeam, labels.0);
    var s' := if labels.1 then WritePairs(s, id, LabelSeam, labels.0) else s;
    SilentAgrees(s', s');
    WritePairsAgrees(s', id, ExtensionSeam, extensions.0);
    ImmutableTransitive(s, s', RunRow(s, dir, rules, id));
  }

  /** A row changed on both seams gains a labels-only version, then an extensions-only one, and each is diffed
      on read against exactly the state before it. */
  lemma BothSeamsTwoVersions(s: Ledger, dir: Direction, rules: seq<Rule>, id: string)
    requires id in s.txns
    ensures var rec, t := ToRecord(s, id), s.txns[id];
            var labels := Rewrite(dir, rules, rec, LabelSeam, t.labels);
            var extensions := Rewrite(dir, rules, rec, ExtensionSeam, t.extensions);
            labels.1 && extensions.1 ==>
              VersionsOf(RunRow(s, dir, rules, id), id) ==
              Baseline(s, id, Snap(s.env.codec, t))
              + [Version(Labeled, Snap(s.env.codec, t).(labels := labels.0))]
              + [Version(Extended, Snap(s.env.codec, t).(labels := labels.0,
                                                         extensions := Values(s.env.codec, extensions.0)))]
  {
    hide WritePairs, Rewrite, Baseline;
    var rec, t := ToRecord(s, id), s.txns[id];
    var labels := Rewrite(dir, rules, rec, LabelSeam, t.labels);
    var extensions := Rewrite(dir, rules, rec, ExtensionSeam, t.extensions);
    if labels.1 && extensions.1 {
      WritePairsIs(s, id, LabelSeam, labels.0);
      WritePairsVersions(s, id, LabelSeam, labels.0);
      var s' := WritePairs(s, id, LabelSeam, labels.0);
      WritePairsVersions(s', id, ExtensionSeam, extensions.0);
      BaselineOfVersioned(s', id, Snap(s.env.codec, s'.txns[id]));
    }
  }

  lemma BaselineOfVersioned(s: Ledger, id: string, prior: Snapshot)
    ensures id in s.versions && s.versions[id] != [] ==> Baseline(s, id, prior) == s.versions[id]
  {
  }

  lemma {:induction false} RunRowsAgrees(r: RunResult, dir: Direction, rules: seq<Rule>, ids: seq<string>)
    requires forall id :: id in ids ==> id in r.ledger.txns
    ensures Level(r.ledger, RunRows(r, dir, rules, ids).ledger)
    ensures Immutable(r.ledger, RunRows(r, dir, rules, ids).ledger)
    ensures RunRows(r, dir, rules, ids).ledger.txns.Keys == r.ledger.txns.Keys
    decreases |ids|
  {
    hide Level, Immutable, RunRow, AnyMatch, RowChanges;
    if ids == [] {
      SilentAgrees(r.ledger, r.ledger);
    } else {
      var r' := CountRow(r, dir, rules, ids[0]);
      RunRowAgrees(r.ledger, dir, rules, ids[0]);
      RunRowsAgrees(r', dir, rules, ids[1..]);
      ImmutableTransitive(r.ledger, r'.ledger, RunRows(r', dir, rules, ids[1..]).ledger);
    }
  }

  lemma RunRulesAgrees(s: Ledger, dir: Direction, rules: seq<Rule>, ruleId: int)
    ensures Level(s, RunRules(s, dir, rules, ruleId).ledger)
    ensures Immutable(s, RunRules(s, dir, rules, ruleId).ledger)
  {
    hide Level, Immutable, RunRows, AllIds;
    AllIdsExist(s.txns);
    SilentAgrees(s, s);
    if rules != [] {
      RunRowsAgrees(RunResult(s, 0, 0), dir, rules, AllIds(s.txns));
      var m := RunRows(RunResult(s, 0, 0), dir, rules, AllIds(s.txns)).ledger;
      var r := RunRules(s, dir, rules, ruleId).ledger;
      SilentAgrees(m, r);
      ImmutableTransitive(s, m, r);
    }
  }

  lemma DeletesAgree(s: Ledger, op: Op)
    requires Sound(s) && (op.OpDeleteAccount? || op.OpDeleteTxn?) && Admissible(s, op)
    ensures Level(s, Step(s, op))
    ensures Immutable(s, Step(s, op))
  {
    hide Level, Immutable, Sound, DropTxn, DropAllChildren, Children, Dropped;
    SilentAgrees(s, s);
    if op.OpDeleteTxn? {
      if op.id in s.txns {
        DropTxnIs(s, op.id, s.txns[op.id]);
        DroppedSilent(s, DropTxn(s, op.id, s.txns[op.id]), {op.id});
        SilentAgrees(s, DropTxn(s, op.id, s.txns[op.id]));
      }
    } else {
      var m := DropAllChildren(s, op.id);
      DropAllChildrenIs(s, op.id);
      DroppedSilent(s, m, Elems(Children(s.txns, op.id)));
      SilentAgrees(s, m);
      if op.id in s.accounts {
        var r := DropAccount(m, op.id, s.accounts[op.id]);
        SilentAgrees(m, r);
        ImmutableTransitive(s, m, r);
      }
    }
  }

  lemma CreateTxnAgrees(s: Ledger, id: string, input: TxnInput, now: int)
    requires Sound(s)
    ensures Level(s, CreateTxn(s, id, input, now).0)
    ensures Immutable(s, CreateTxn(s, id, input, now).0)
  {
    hide ReadTxn, Normal, NormalEdges, Grown, Level, Immutable, Snap;
    var r := CreateTxn(s, id, input, now).0;
    if CreateTxn(s, id, input, now).1.Done? {
      var first := Version(Imported, Snap(s.env.codec, r.txns[id]));
      assert VersionsOf(s, id) == [] && [] + [first] == [first];
      assert Grown([], [first]) by { GrownFirst(first); }
      OneVersionMore(s, r, id, [first]);
    } else {
      SilentAgrees(s, s);
    }
  }

  lemma GrownFirst(first: Version)
    requires first.kind.Imported?
    ensures Grown([], [first])
  {
  }

  lemma UpdateTxnAgrees(s: Ledger, op: Op)
    requires op.OpUpdateTxn?
    ensures Level(s, Step(s, op))
    ensures Immutable(s, Step(s, op))
  {
    hide ReadTxn, VersionChange, UpdateTxn, Grown, Level, Immutable, Baseline, Snap;
    if UpdateTxn(s, op.id, op.txn, op.now).1.Done? {
      UpdateTxnVersions(s, op);
      var r, prior := Step(s, op), Snap(s.env.codec, s.txns[op.id]);
      var next := Version(Edited, Snap(s.env.codec, r.txns[op.id]));
      GrownBaseline(s, op.id, prior, next);
      OneVersionMore(s, r, op.id, Baseline(s, op.id, prior) + [next]);
    } else {
      UpdateTxnRefused(s, op);
      SilentAgrees(s, s);
    }
  }

  lemma UpdateTxnRefused(s: Ledger, op: Op)
    requires op.OpUpdateTxn? && !UpdateTxn(s, op.id, op.txn, op.now).1.Done?
    ensures Step(s, op) == s
  {
    hide ReadTxn, VersionChange;
  }

  lemma UpdateTxnIs(s: Ledger, id: string, input: TxnInput, now: int)
    requires UpdateTxn(s, id, input, now).1.Done?
    ensures id in s.txns && ReadTxn(input).Some?
    ensures var next := s.txns[id].(core := ReadTxn(input).value, syncedAt := now);
            var shown := Snap(s.env.codec, next);
            UpdateTxn(s, id, input, now).0
            == VersionChange(Emit(s.(txns := s.txns[id := next]), TxnUpdated(id, shown)), id,
                             Snap(s.env.codec, s.txns[id]), shown, Edited)
  {
    hide ReadTxn, VersionChange, Snap, Emit;
  }

  lemma UpdateTxnVersions(s: Ledger, op: Op)
    requires op.OpUpdateTxn? && UpdateTxn(s, op.id, op.txn, op.now).1.Done?
    ensures op.id in s.txns && op.id in Step(s, op).txns
    ensures var r := Step(s, op);
            && r.env == s.env && r.txns == s.txns[op.id := r.txns[op.id]]
            && r.versions == s.versions[op.id :=
                 Baseline(s, op.id, Snap(s.env.codec, s.txns[op.id]))
                 + [Version(Edited, Snap(s.env.codec, r.txns[op.id]))]]
  {
    hide ReadTxn, VersionChange, UpdateTxn, Snap, Baseline;
    UpdateTxnIs(s, op.id, op.txn, op.now);
    var t := s.txns[op.id];
    var next := t.(core := ReadTxn(op.txn).value, syncedAt := op.now);
    var m := Emit(s.(txns := s.txns[op.id := next]), TxnUpdated(op.id, Snap(s.env.codec, next)));
    VersionChangeIs(m, op.id, Snap(s.env.codec, t), Snap(s.env.codec, next), Edited);
    BaselineSame(s, m, op.id, Snap(s.env.codec, t));
  }

  lemma AccountWritesSilent(s: Ledger, op: Op)
    requires op.OpCreateAccount? || op.OpUpdateAccount?
    ensures Silent(s, Step(s, op))
  {
    hide ReadAccount;
  }

  lemma EdgeWritesSilent(s: Ledger, r: Ledger)
    requires r == s.(txns := r.txns, log := r.log) && r.txns.Keys == s.txns.Keys
    requires forall x :: x in s.txns ==> SameButEdges(s.txns[x], r.txns[x])
    ensures Silent(s, r)
  {
  }

  lemma OtherWritesSilent(s: Ledger, op: Op)
    requires op.OpCreateAccount? || op.OpUpdateAccount? || op.OpAddEdge? || op.OpRemoveEdge?
    ensures Silent(s, Step(s, op))
  {
    hide Silent, CreateAccount, UpdateAccount, MutateEdges, NormalizeKind, Trim, Without, SameButEdges;
    match op {
      case OpAddEdge(id, kind, target) =>
        if id in s.txns { MutateEdgesIs(s, id, s.txns[id].edges + [Edge(kind, target)]); }
        UnchangedIsSame(s);
        EdgeWritesSilent(s, Step(s, op));
      case OpRemoveEdge(id, kind, target) =>
        var edge := Edge(NormalizeKind(kind), Trim(target));
        if id in s.txns { MutateEdgesIs(s, id, Without(s.txns[id].edges, edge)); }
        UnchangedIsSame(s);
        EdgeWritesSilent(s, Step(s, op));
      case _ => AccountWritesSilent(s, op);
    }
  }

  lemma UnchangedIsSame(s: Ledger)
    ensures forall x :: x in s.txns ==> SameButEdges(s.txns[x], s.txns[x])
  {
  }

  /** Every operation but the bulk label delete leaves each row either with the history and the snapshot it had, or with
      a history that ends in its current snapshot. */
  lemma StepLevel(s: Ledger, op: Op)
    requires Sound(s) && Admissible(s, op)
    ensures !op.OpDeleteLabel? ==> Level(s, Step(s, op))
    ensures Immutable(s, Step(s, op))
  {
    hide Sound, Level, Normalize, RunRules, WritePairs, DeleteLabel, CreateTxn, UpdateTxn, DeleteTxn, DeleteAccount,
        CreateAccount, UpdateAccount, AddEdge, RemoveEdge;
    SilentAgrees(s, s);
    match op {
      case OpDeleteAccount(_) => DeletesAgree(s, op);
      case OpDeleteTxn(_) => DeletesAgree(s, op);
      case OpCreateTxn(id, input, now) => CreateTxnAgrees(s, id, input, now);
      case OpUpdateTxn(_, _, _) => UpdateTxnAgrees(s, op);
      case OpSetPairs(id, seam, pairs) => if id in s.txns { WritePairsAgrees(s, id, seam, Normalize(seam, pairs)); }
      case OpDeleteLabel(key, value) => DeleteLabelIs(s, key, value);
      case OpRunRules(dir, rules, ruleId) => RunRulesAgrees(s, dir, rules, ruleId);
      case _ =>
        OtherWritesSilent(s, op);
        SilentAgrees(s, Step(s, op));
    }
  }

  /** Every operation keeps recorded versions as they are, and every one but the bulk label delete keeps the
      history in agreement with the rows. */
  lemma StepAgrees(s: Ledger, op: Op)
    requires Sound(s) && Admissible(s, op)
    ensures Agrees(s) && !op.OpDeleteLabel? ==> Agrees(Step(s, op))
    ensures Immutable(s, Step(s, op))
  {
    hide Agrees, Level, Immutable, Step, Sound;
    StepLevel(s, op);
    if !op.OpDeleteLabel? { LevelAgrees(s, Step(s, op)); }
  }

  /** History agrees with the rows in every run without a bulk label delete. */
  lemma {:induction false} RunAgrees(s: Ledger, ops: seq<Op>)
    requires Sound(s) && Agrees(s) && AdmissibleRun(s, ops)
    requires forall op :: op in ops ==> !op.OpDeleteLabel?
    ensures Agrees(Run(s, ops))
    decreases |ops|
  {
    hide Sound, Agrees, Step, Admissible;
    if ops != [] {
      StepSound(s, ops[0]);
      StepAgrees(s, ops[0]);
      RunAgrees(Step(s, ops[0]), ops[1..]);
    }
  }

  /** Every history starts with the imported baseline and has no other. */
  ghost predicate Founded(s: Ledger) {
    forall id :: id in s.txns && id in s.versions ==> Grown([], s.versions[id])
  }

  lemma GrownTransitive(a: seq<Version>, b: seq<Version>, c: seq<Version>)
    requires Grown(a, b) && Grown(b, c)
    ensures Grown(a, c)
  {
  }

  lemma StepFounded(s: Ledger, op: Op)
    requires Sound(s) && Admissible(s, op) && Founded(s)
    ensures Founded(Step(s, op))
  {
    hide Step, Admissible, Normal, NormalEdges, Grown;
    var r := Step(s, op);
    StepAgrees(s, op);
    forall id | id in r.txns && id in r.versions ensures Grown([], r.versions[id]) {
      if id in s.versions { GrownTransitive([], s.versions[id], r.versions[id]); }
    }
  }

  /** In every run, bulk label deletes included. */
  lemma {:induction false} RunFounded(s: Ledger, ops: seq<Op>)
    requires Sound(s) && Founded(s) && AdmissibleRun(s, ops)
    ensures Founded(Run(s, ops))
    decreases |ops|
  {
    hide Sound, Founded, Step, Admissible;
    if ops != [] {
      StepSound(s, ops[0]);
      StepFounded(s, ops[0]);
      RunFounded(Step(s, ops[0]), ops[1..]);
    }
  }

  /** The bulk label delete records no version: it keeps the agreement exactly when no versioned transaction
      carries the label. */
  lemma DeleteLabelAgreesExactly(s: Ledger, rawKey: string, rawValue: Option<string>)
    requires Sound(s) && Agrees(s) && CleanKeyOf(LabelSeam, rawKey) != ""
    ensures var key := CleanKeyOf(LabelSeam, rawKey);
            var value := if rawValue.None? then None else Some(CleanValueOf(LabelSeam, rawValue.value));
            Agrees(DeleteLabel(s, rawKey, rawValue).0) <==>
            forall id :: id in s.versions ==> !Carries(s.txns[id], key, value)
  {
    hide CleanKeyOf, CleanValueOf, Normal, NormalEdges;
    var key := CleanKeyOf(LabelSeam, rawKey);
    var value := if rawValue.None? then None else Some(CleanValueOf(LabelSeam, rawValue.value));
    var r := DeleteLabel(s, rawKey, rawValue).0;
    if id :| id in s.versions && Carries(s.txns[id], key, value) {
      assert id in Carriers(s.txns, key, value);
      assert key !in r.txns[id].labels;
      assert Latest(r, id) == Latest(s, id) == Shown(s, id);
    }
  }

  /** And whatever operation next adds to the history of such a row brings the two back into agreement. */
  lemma NextChangeHeals(s: Ledger, op: Op, id: string)
    requires Sound(s) && Admissible(s, op) && id in Step(s, op).txns
    requires VersionsOf(Step(s, op), id) != VersionsOf(s, id)
    ensures id in Step(s, op).versions && EndsAt(Step(s, op), id)
  {
    hide Step, Sound, Immutable, Admissible, Snap;
    StepLevel(s, op);
    if op.OpDeleteLabel? { DeleteLabelKeepsVersions(s, op); }
  }

  lemma DeleteLabelKeepsVersions(s: Ledger, op: Op)
    requires op.OpDeleteLabel?
    ensures Step(s, op).versions == s.versions
  {
    hide DeleteLabel;
    DeleteLabelIs(s, op.key, op.value);
  }

  // --- retention ---

  /** What pruning by age leaves: of each history a suffix, or nothing. */
  ghost predicate Retained(s: Ledger, r: Ledger) {
    && r == s.(versions := r.versions) && r.versions.Keys <= s.versions.Keys
    && forall id :: id in r.versions ==> IsSuffix(r.versions[id], s.versions[id])
  }

  ghost predicate IsSuffix(part: seq<Version>, whole: seq<Version>) {
    part != [] && |part| <= |whole| && part == whole[|whole| - |part|..]
  }

  /** Pruning keeps the ledger sound and its history in agreement. It can take imported baselines: histories still all
      start with one exactly when each was kept whole or dropped whole. */
  lemma PruningKeepsAgreement(s: Ledger, r: Ledger)
    requires Sound(s) && Retained(s, r)
    ensures Sound(r) && (Agrees(s) ==> Agrees(r))
    ensures Founded(s) ==> (Founded(r) <==> forall id :: id in r.versions ==> r.versions[id] == s.versions[id])
  {
    hide Normal, NormalEdges, Grown;
    forall id | id in r.txns ensures RowSound(r, id) { assert RowSound(s, id); }
    forall id | id in r.versions
      ensures id in s.txns && Latest(r, id) == Latest(s, id)
      ensures Grown([], s.versions[id]) ==> (Grown([], r.versions[id]) <==> r.versions[id] == s.versions[id])
    {
      assert IsSuffix(r.versions[id], s.versions[id]);
      if Grown([], s.versions[id]) { SuffixFounded(s.versions[id], r.versions[id]); }
    }
  }

  lemma SuffixFounded(whole: seq<Version>, part: seq<Version>)
    requires IsSuffix(part, whole) && Grown([], whole)
    ensures Grown([], part) <==> part == whole
  {
    assert part[0] == whole[|whole| - |part|];
    assert forall i :: 0 <= i < |part| ==> part[i] == whole[|whole| - |part| + i];
  }

  /** The stored rows of a history, with the times they were recorded at. */
  ghost predicate StoredAs(rows: seq<Timeline.VersionRow>, versions: seq<Version>) {
    |rows| == |versions| && forall i, j :: 0 <= i < j < |rows| ==> rows[i].at <= rows[j].at
  }

  /** DELETE FROM transaction_versions WHERE occurred_at < cutoff, on one history. */
  function Since(versions: seq<Version>, rows: seq<Timeline.VersionRow>, cutoff: int): seq<Version> {
    if rows == [] || versions == [] then []
    else (if rows[0].at < cutoff then [] else [versions[0]]) + Since(versions[1..], rows[1..], cutoff)
  }

  /** The statement on all histories; one that loses every version is no longer there. */
  ghost function PruneBefore(s: Ledger, rows: map<string, seq<Timeline.VersionRow>>, cutoff: int): Ledger
    requires forall id :: id in s.versions ==> id in rows && StoredAs(rows[id], s.versions[id])
  {
    s.(versions := map id | id in s.versions && Since(s.versions[id], rows[id], cutoff) != [] ::
                     Since(s.versions[id], rows[id], cutoff))
  }

  lemma {:induction false} SinceAll(versions: seq<Version>, rows: seq<Timeline.VersionRow>, cutoff: int)
    requires |rows| == |versions| && forall i :: 0 <= i < |rows| ==> rows[i].at >= cutoff
    ensures Since(versions, rows, cutoff) == versions
  {
    if rows != [] { SinceAll(versions[1..], rows[1..], cutoff); }
  }

  /** Recorded in time order, the versions that stay are those of the rows that stay: a suffix. */
  lemma {:induction false} SinceIsSuffix(versions: seq<Version>, rows: seq<Timeline.VersionRow>, cutoff: int)
    requires StoredAs(rows, versions)
    ensures Since(versions, rows, cutoff) == versions[Timeline.Expired(rows, cutoff)..]
    ensures |Since(versions, rows, cutoff)| == |Timeline.KeepSince(rows, cutoff)|
    ensures Since(versions, rows, cutoff) != [] ==> IsSuffix(Since(versions, rows, cutoff), versions)
  {
    Timeline.PruneKeepsSuffix(rows, cutoff);
    if rows != [] && rows[0].at < cutoff {
      SinceIsSuffix(versions[1..], rows[1..], cutoff);
      var rest := Since(versions[1..], rows[1..], cutoff);
      assert [] + rest == rest;
      assert versions[1..][Timeline.Expired(rows[1..], cutoff)..] == versions[Timeline.Expired(rows, cutoff)..];
    } else {
      assert forall i :: 0 < i < |rows| ==> rows[0].at <= rows[i].at;
      SinceAll(versions, rows, cutoff);
    }
  }

  lemma PruneIsRetained(s: Ledger, rows: map<string, seq<Timeline.VersionRow>>, cutoff: int)
    requires forall id :: id in s.versions ==> id in rows && StoredAs(rows[id], s.versions[id])
    ensures Retained(s, PruneBefore(s, rows, cutoff))
  {
    hide StoredAs, Since, IsSuffix;
    var r := PruneBefore(s, rows, cutoff);
    forall id | id in r.versions ensures IsSuffix(r.versions[id], s.versions[id]) {
      SinceIsSuffix(s.versions[id], rows[id], cutoff);
    }
  }

  /** A run of requests with retention pruning between them; `rows` is how the histories are stored by then. */
  datatype Move = Request(op: Op) | Prune(rows: map<string, seq<Timeline.VersionRow>>, cutoff: int)

  ghost predicate CanMove(s: Ledger, m: Move) {
    match m
    case Request(op) => Admissible(s, op)
    case Prune(rows, _) => forall id :: id in s.versions ==> id in rows && StoredAs(rows[id], s.versions[id])
  }

  ghost function Moved(s: Ledger, m: Move): Ledger
    requires CanMove(s, m)
  {
    match m
    case Request(op) => Step(s, op)
    case Prune(rows, cutoff) => PruneBefore(s, rows, cutoff)
  }

  ghost predicate CanFollow(s: Ledger, moves: seq<Move>)
    decreases |moves|
  {
    moves == [] || (CanMove(s, moves[0]) && CanFollow(Moved(s, moves[0]), moves[1..]))
  }

  ghost function Followed(s: Ledger, moves: seq<Move>): Ledger
    requires CanFollow(s, moves)
    decreases |moves|
  {
    if moves == [] then s else Followed(Moved(s, moves[0]), moves[1..])
  }

  lemma MoveAgrees(s: Ledger, m: Move)
    requires Sound(s) && Agrees(s) && CanMove(s, m) && (m.Request? ==> !m.op.OpDeleteLabel?)
    ensures Sound(Moved(s, m)) && Agrees(Moved(s, m))
  {
    hide Sound, Agrees, Step, Admissible, Retained, PruneBefore, StoredAs, Founded;
    match m {
      case Request(op) =>
        StepSound(s, op);
        StepAgrees(s, op);
      case Prune(rows, cutoff) =>
        PruneIsRetained(s, rows, cutoff);
        PruningKeepsAgreement(s, PruneBefore(s, rows, cutoff));
    }
  }

  /** Retention does not disturb the agreement of history and rows. */
  lemma {:induction false} AgreesThroughRetention(s: Ledger, moves: seq<Move>)
    requires Sound(s) && Agrees(s) && CanFollow(s, moves)
    requires forall m :: m in moves && m.Request? ==> !m.op.OpDeleteLabel?
    ensures Sound(Followed(s, moves)) && Agrees(Followed(s, moves))
    decreases |moves|
  {
    hide Sound, Agrees, CanMove, Moved;
    if moves != [] {
      assert moves[0] in moves && forall m :: m in moves[1..] ==> m in moves;
      MoveAgrees(s, moves[0]);
      AgreesThroughRetention(Moved(s, moves[0]), moves[1..]);
    }
  }
}
