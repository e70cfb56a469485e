/** The ledger: account and transaction tables, version history and event log, and every mutation
    as one atomic step. Each function below is what one `emitter.Record` closure commits. */
module Ledger {
  import opened Text
  import opened Sorting
  import opened Meta
  import opened Edges
  import opened Amount

  const MANUAL := "manual"
  const MANUAL_ORG := "manual"
  const MAX_INT32 := 0x7fff_ffff

  // --- tables ---

  datatype Account = Account(
    orgId: string, name: string, currency: string, balance: string, balanceDate: int, syncedAt: int, source: string)

  datatype Core = Core(
    accountId: string, amount: string, pending: bool, date: int, description: string, payee: string, memo: string)

  datatype Txn = Txn(core: Core, syncedAt: int, source: string, labels: Pairs, extensions: Pairs, edges: seq<Edge>)

  datatype ChangeKind = Imported | Labeled | Extended | Edited

  /** events.TransactionPayload without the id: what an event or a version says of a transaction. */
  datatype Snapshot = Snapshot(core: Core, labels: Pairs, extensions: Pairs)

  /** events.AccountPayload. */
  datatype AccountSnapshot = AccountSnapshot(
    orgId: string, name: string, currency: string, balance: string, balanceDate: int, source: string)

  datatype Version = Version(kind: ChangeKind, snapshot: Snapshot)

  /** Event payloads, tagged by event type. */
  datatype Data =
    | AccountCreated(id: string, account: AccountSnapshot)
    | AccountUpdated(id: string, account: AccountSnapshot)
    | AccountDeleted(id: string, account: AccountSnapshot)
    | TxnCreated(id: string, txn: Snapshot)
    | TxnUpdated(id: string, txn: Snapshot)
    | TxnDeleted(id: string, txn: Snapshot)
    | PairSet(id: string, seam: Seam, key: string, value: string)
    | PairRemoved(id: string, seam: Seam, key: string, value: string)
    | EdgeCreated(id: string, edge: Edge)
    | EdgeRemoved(id: string, edge: Edge)
    | LabelDeleted(id: string, value: string, removedFrom: nat)
    | RuleExecuted(ruleId: int, matched: nat, changed: nat)
    | RuleReverted(ruleId: int, matched: nat, changed: nat)

  /** The order in which Go ranges over a map's keys: anything at all, and it may differ from one
      moment (the log length) to the next. */
  ghost predicate Ranges(f: (nat, set<string>) -> seq<string>) {
    forall n, s :: Enumerates(f(n, s), s)
  }

  type RangeOrder = f: (nat, set<string>) -> seq<string> | Ranges(f)
    ghost witness (n: nat, s: set<string>) => Rows(s)

  /** A JSON value decoded to Go values and encoded again, as text; None if it does not decode (a number beyond
      float64, say). Doing it twice is doing it once. */
  ghost predicate Stable(f: string -> Option<string>) {
    forall v :: f(v).Some? ==> f(f(v).value) == f(v)
  }

  type Codec = f: string -> Option<string> | Stable(f)
    ghost witness v => Some(v)

  /** What the model leaves open about Go itself. */
  datatype Env = Env(order: RangeOrder, codec: Codec)

  datatype Ledger = Ledger(
    accounts: map<string, Account>, txns: map<string, Txn>, versions: map<string, seq<Version>>,
    log: seq<Data>, env: Env)

  function AccountSnap(a: Account): AccountSnapshot {
    AccountSnapshot(a.orgId, a.name, a.currency, a.balance, a.balanceDate, a.source)
  }

  /** A payload that tells of an account what its row holds. */
  predicate Describes(p: AccountSnapshot, a: Account) {
    && p.orgId == a.orgId && p.name == a.name && p.currency == a.currency && p.balance == a.balance
    && p.balanceDate == a.balanceDate && p.source == a.source
  }

  /** A payload or version that tells of a transaction what its row holds: the extensions as they decode, or none if one
      of them does not. */
  predicate Shows(c: Codec, p: Snapshot, t: Txn) {
    && p.core == t.core && p.labels == t.labels
    && (if exists k :: k in t.extensions && c(t.extensions[k]).None? then p.extensions == map[]
        else p.extensions.Keys == t.extensions.Keys
             && forall k :: k in t.extensions ==> c(t.extensions[k]) == Some(p.extensions[k]))
  }

  /** extensions.Values: all of them decoded, or none if one does not decode. */
  function Values(c: Codec, m: Pairs): Pairs {
    if forall k :: k in m ==> c(m[k]).Some? then map k | k in m :: c(m[k]).value else map[]
  }

  /** events.TransactionSnapshot: extensions as decoded, not as stored. */
  function Snap(c: Codec, t: Txn): Snapshot { Snapshot(t.core, t.labels, Values(c, t.extensions)) }

  /** The snapshot of a row is the one payload that shows it. */
  lemma SnapshotShows(c: Codec, t: Txn)
    ensures forall p :: Shows(c, p, t) <==> p == Snap(c, t)
  {
    forall p | Shows(c, p, t) ensures p == Snap(c, t) { assert p.extensions == Values(c, t.extensions); }
  }

  lemma SnapshotDescribes(a: Account)
    ensures forall p :: Describes(p, a) <==> p == AccountSnap(a)
  {
  }

  function PairsOf(t: Txn, seam: Seam): Pairs { if seam.LabelSeam? then t.labels else t.extensions }

  function WithPairs(t: Txn, seam: Seam, m: Pairs): Txn {
    if seam.LabelSeam? then t.(labels := m) else t.(extensions := m)
  }

  function VersionsOf(s: Ledger, id: string): seq<Version> { if id in s.versions then s.versions[id] else [] }

  // --- the recorder ---

  function Emit(s: Ledger, d: Data): Ledger { s.(log := s.log + [d]) }

  function AddVersion(s: Ledger, id: string, snapshot: Snapshot, kind: ChangeKind): Ledger {
    s.(versions := s.versions[id := VersionsOf(s, id) + [Version(kind, snapshot)]])
  }

  /** Records a change, after a synthesized baseline when the transaction has no history yet. */
  function VersionChange(s: Ledger, id: string, prior: Snapshot, next: Snapshot, kind: ChangeKind): Ledger {
    AddVersion(if VersionsOf(s, id) == [] then AddVersion(s, id, prior, Imported) else s, id, next, kind)
  }

  /** Label diffs read a missing old key as ""; extension diffs test for presence. */
  predicate Differs(seam: Seam, prev: Pairs, k: string, v: string) {
    if seam.LabelSeam? then (if k in prev then prev[k] else "") != v else k !in prev || prev[k] != v
  }

  function SetEvents(id: string, seam: Seam, prev: Pairs, next: Pairs, keys: seq<string>): seq<Data>
    requires forall k :: k in keys ==> k in next
  {
    if keys == [] then []
    else (if Differs(seam, prev, keys[0], next[keys[0]]) then [PairSet(id, seam, keys[0], next[keys[0]])] else [])
         + SetEvents(id, seam, prev, next, keys[1..])
  }

  function RemovedEvents(id: string, seam: Seam, prev: Pairs, next: Pairs, keys: seq<string>): seq<Data>
    requires forall k :: k in keys ==> k in prev
  {
    if keys == [] then []
    else (if keys[0] !in next then [PairRemoved(id, seam, keys[0], prev[keys[0]])] else [])
         + RemovedEvents(id, seam, prev, next, keys[1..])
  }

  /** EmitLabelDiff and EmitExtensionDiff. */
  function PairDiff(order: RangeOrder, n: nat, id: string, seam: Seam, prev: Pairs, next: Pairs): seq<Data> {
    assert Enumerates(order(n, next.Keys), next.Keys);
    var applied := SetEvents(id, seam, prev, next, order(n, next.Keys));
    assert Enumerates(order(n + |applied|, prev.Keys), prev.Keys);
    applied + RemovedEvents(id, seam, prev, next, order(n + |applied|, prev.Keys))
  }

  function CreatedEdges(id: string, prev: seq<Edge>, next: seq<Edge>): seq<Data> {
    if next == [] then []
    else (if next[0] in prev then [] else [EdgeCreated(id, next[0])]) + CreatedEdges(id, prev, next[1..])
  }

  function RemovedEdges(id: string, prev: seq<Edge>, next: seq<Edge>): seq<Data> {
    if prev == [] then []
    else (if prev[0] in next then [] else [EdgeRemoved(id, prev[0])]) + RemovedEdges(id, prev[1..], next)
  }

  /** EmitRelationshipDiff. */
  function EdgeDiff(id: string, prev: seq<Edge>, next: seq<Edge>): seq<Data> {
    CreatedEdges(id, prev, next) + RemovedEdges(id, prev, next)
  }

  // --- row writes with their events ---

  /** One label or extension mutation seam: the row, the per-key diff, the version. */
  function WritePairs(s: Ledger, id: string, seam: Seam, m: Pairs): (r: Ledger)
    requires id in s.txns
    ensures r.txns.Keys == s.txns.Keys
  {
    var t := s.txns[id];
    var next := WithPairs(t, seam, m);
    VersionChange(
      s.(txns := s.txns[id := next], log := s.log + PairDiff(s.env.order, |s.log|, id, seam, PairsOf(t, seam), m)),
      id, Snap(s.env.codec, t), Snap(s.env.codec, next), if seam.LabelSeam? then Labeled else Extended)
  }

  /** Edges are not part of a snapshot, so rewriting them records no version. */
  function WriteEdges(s: Ledger, id: string, es: seq<Edge>): (r: Ledger)
    requires id in s.txns
    ensures r.txns.Keys == s.txns.Keys
  {
    s.(txns := s.txns[id := s.txns[id].(edges := es)], log := s.log + EdgeDiff(id, s.txns[id].edges, es))
  }

  // --- ORDER BY ---

  predicate ByDate(txns: map<string, Txn>, a: string, b: string) {
    var da := if a in txns then txns[a].core.date else 0;
    var db := if b in txns then txns[b].core.date else 0;
    da > db || (da == db && Below(a, b))
  }

  /** ORDER BY date DESC, id. */
  ghost function NewestFirst(txns: map<string, Txn>, ids: set<string>): seq<string> {
    Ordered(ids, (a, b) => ByDate(txns, a, b))
  }

  ghost function AllIds(txns: map<string, Txn>): seq<string> { NewestFirst(txns, txns.Keys) }

  function InAccount(txns: map<string, Txn>, account: string): set<string> {
    set id | id in txns && txns[id].core.accountId == account
  }

  /** ListTransactionsByAccount as deleteAccount calls it: the limit is math.MaxInt32. */
  ghost function Children(txns: map<string, Txn>, account: string): seq<string> {
    var all := NewestFirst(txns, InAccount(txns, account));
    if |all| <= MAX_INT32 then all else all[..MAX_INT32]
  }

  /** ListRelatedTransactions. */
  ghost function RelatedIds(txns: map<string, Txn>): seq<string> {
    OrderedKeys(set id | id in txns && txns[id].edges != [])
  }

  // --- deletes ---

  function StripRow(s: Ledger, id: string, target: string): (r: Ledger)
    requires id in s.txns
    ensures r.txns.Keys == s.txns.Keys
  {
    var es := s.txns[id].edges;
    var kept := WithoutTarget(es, target);
    if id == target || |kept| == |es| then s else WriteEdges(s, id, NormalizeEdges(kept))
  }

  function StripInbound(s: Ledger, ids: seq<string>, target: string): Ledger
    requires forall id :: id in ids ==> id in s.txns
    decreases |ids|
  {
    if ids == [] then s else StripInbound(StripRow(s, ids[0], target), ids[1..], target)
  }

  lemma RelatedIdsExist(txns: map<string, Txn>)
    ensures Enumerates(RelatedIds(txns), set id | id in txns && txns[id].edges != [])
    ensures forall id :: id in RelatedIds(txns) ==> id in txns
  {
    hide Below, Ordered;
    BelowIsStrictTotal();
    OrderedEnumerates((set id | id in txns && txns[id].edges != []), Below);
  }

  /** ledger.DeleteTransactionTx on an already-read row `t`. */
  ghost function DropTxn(s: Ledger, id: string, t: Txn): Ledger {
    RelatedIdsExist(s.txns);
    var s' := StripInbound(s, RelatedIds(s.txns), id);
    Emit(s'.(versions := s'.versions - {id}, txns := s'.txns - {id}), TxnDeleted(id, Snap(s.env.codec, t)))
  }

  /** deleteAccount's loop over the child rows it read up front. */
  ghost function DropChildren(s: Ledger, rows: map<string, Txn>, ids: seq<string>): Ledger
    requires forall id :: id in ids ==> id in rows
    decreases |ids|
  {
    if ids == [] then s else DropChildren(DropTxn(s, ids[0], rows[ids[0]]), rows, ids[1..])
  }

  /** DELETE FROM accounts, with the foreign key's ON DELETE CASCADE on transactions. */
  function DropAccount(s: Ledger, id: string, a: Account): Ledger {
    Emit(s.(accounts := s.accounts - {id}, txns := s.txns - InAccount(s.txns, id)), AccountDeleted(id, AccountSnap(a)))
  }

  // --- operations ---

  datatype Outcome = Done | NotFound | ReadOnly | Invalid | Failed

  /** A date field as parseDateInput sees it. */
  datatype DateInput = Omitted | Malformed | At(time: int)

  datatype AccountInput = AccountInput(name: string, currency: string, balance: string, balanceDate: DateInput)

  datatype TxnInput = TxnInput(
    accountId: string, amount: string, date: DateInput, description: string, payee: string, memo: string, pending: bool)

  const YEAR_0 := -62_167_219_200
  const YEAR_10000 := 253_402_300_800

  /** encoding/json writes a time only in the years 0 to 9999; an event with any other is not recorded. */
  predicate Encodable(time: int) { YEAR_0 <= time < YEAR_10000 }

  /** The checks shared by account create and update; blank balance and omitted date fall back to `old`. */
  function ReadAccount(input: AccountInput, prev: Account, now: int): Option<Account> {
    var name, currency := Trim(input.name), Trim(input.currency);
    var balance := if Trim(input.balance) == "" then Some(prev.balance) else ValidateAmount(input.balance);
    if name == "" || currency == "" || balance.None? || input.balanceDate.Malformed? then None
    else
      var date := if input.balanceDate.At? then input.balanceDate.time else prev.balanceDate;
      Some(Account(prev.orgId, name, currency, balance.value, date, now, prev.source))
  }

  /** INSERT ... ON CONFLICT (id) DO UPDATE: every column but the source, which is immutable provenance. */
  function UpsertAccount(accounts: map<string, Account>, id: string, a: Account): map<string, Account> {
    accounts[id := if id in accounts then a.(source := accounts[id].source) else a]
  }

  function CreateAccount(s: Ledger, id: string, input: AccountInput, now: int): (Ledger, Outcome) {
    var read := ReadAccount(input, Account(MANUAL_ORG, "", "", "0", now, now, MANUAL), now);
    if read.None? then (s, Invalid)
    else if !Encodable(read.value.balanceDate) then (s, Failed)
    else
      var accounts := UpsertAccount(s.accounts, id, read.value);
      (Emit(s.(accounts := accounts), AccountCreated(id, AccountSnap(accounts[id]))), Done)
  }

  function UpdateAccount(s: Ledger, id: string, input: AccountInput, now: int): (Ledger, Outcome) {
    if ReadAccount(input, Account("", "", "", "", 0, 0, ""), now).None? then (s, Invalid)
    else if id !in s.accounts then (s, NotFound)
    else if s.accounts[id].source != MANUAL then (s, ReadOnly)
    else
      var read := ReadAccount(input, s.accounts[id], now);
      if !Encodable(read.value.balanceDate) then (s, Failed)
      else
        var accounts := s.accounts[id := read.value];
        (Emit(s.(accounts := accounts), AccountUpdated(id, AccountSnap(read.value))), Done)
  }

  lemma ChildrenExist(txns: map<string, Txn>, account: string)
    ensures Distinct(Children(txns, account))
    ensures forall id :: id in Children(txns, account) ==> id in InAccount(txns, account)
    ensures |InAccount(txns, account)| <= MAX_INT32 ==> Elems(Children(txns, account)) == InAccount(txns, account)
  {
    hide Below, Ordered, ByDate;
    ByDateIsStrictTotal(txns);
    OrderedEnumerates(InAccount(txns, account), (a, b) => ByDate(txns, a, b));
  }

  lemma ByDateIsStrictTotal(txns: map<string, Txn>)
    ensures StrictTotal((a, b) => ByDate(txns, a, b))
  {
    hide Below;
    forall a, b, c
      ensures !ByDate(txns, a, a) && (a == b || ByDate(txns, a, b) || ByDate(txns, b, a))
      ensures ByDate(txns, a, b) && ByDate(txns, b, c) ==> ByDate(txns, a, c)
    {
      BelowIrreflexive(a);
      BelowTotal(a, b);
      if Below(a, b) && Below(b, c) { BelowTransitive(a, b, c); }
    }
  }

  lemma AllIdsExist(txns: map<string, Txn>)
    ensures Enumerates(AllIds(txns), txns.Keys) && |AllIds(txns)| == |txns|
  {
    hide Below, Ordered, ByDate;
    ByDateIsStrictTotal(txns);
    OrderedEnumerates(txns.Keys, (a, b) => ByDate(txns, a, b));
  }

  ghost function DropAllChildren(s: Ledger, account: string): Ledger {
    ChildrenExist(s.txns, account);
    DropChildren(s, s.txns, Children(s.txns, account))
  }

  ghost function DeleteAccount(s: Ledger, id: string): (Ledger, Outcome) {
    if id !in s.accounts then (s, NotFound)
    else if s.accounts[id].source != MANUAL then (s, ReadOnly)
    else (DropAccount(DropAllChildren(s, id), id, s.accounts[id]), Done)
  }

  function ReadTxn(input: TxnInput): Option<Core> {
    var accountId, amount := Trim(input.accountId), ValidateAmount(input.amount);
    if accountId == "" || amount.None? || !input.date.At? then None
    else Some(Core(accountId, amount.value, input.pending, input.date.time,
                   Trim(input.description), Trim(input.payee), Trim(input.memo)))
  }

  function CreateTxn(s: Ledger, id: string, input: TxnInput, now: int): (Ledger, Outcome) {
    var read := ReadTxn(input);
    if read.None? || read.value.accountId !in s.accounts then (s, Invalid)
    else if id in s.txns || !Encodable(read.value.date) then (s, Failed)
    else
      var t := Txn(read.value, now, MANUAL, map[], map[], []);
      var snap := Snap(s.env.codec, t);
      (AddVersion(Emit(s.(txns := s.txns[id := t]), TxnCreated(id, snap)), id, snap, Imported), Done)
  }

  function UpdateTxn(s: Ledger, id: string, input: TxnInput, now: int): (Ledger, Outcome) {
    var read := ReadTxn(input);
    if read.None? then (s, Invalid)
    else if id !in s.txns then (s, NotFound)
    else if s.txns[id].source != MANUAL then (s, ReadOnly)
    else if read.value.accountId !in s.accounts then (s, Invalid)
    else if !Encodable(read.value.date) then (s, Failed)
    else
      var t := s.txns[id];
      var next := t.(core := read.value, syncedAt := now);
      var before, after := Snap(s.env.codec, t), Snap(s.env.codec, next);
      (VersionChange(Emit(s.(txns := s.txns[id := next]), TxnUpdated(id, after)), id, before, after, Edited), Done)
  }

  ghost function DeleteTxn(s: Ledger, id: string): (Ledger, Outcome) {
    if id !in s.txns then (s, NotFound)
    else if s.txns[id].source != MANUAL then (s, ReadOnly)
    else (DropTxn(s, id, s.txns[id]), Done)
  }

  /** PUT labels / PUT extensions: the whole set is replaced by the normalized input. */
  ghost function SetPairs(s: Ledger, id: string, seam: Seam, input: Pairs): (Ledger, Outcome) {
    if id !in s.txns then (s, NotFound) else (WritePairs(s, id, seam, Normalize(seam, input)), Done)
  }

  predicate Carries(t: Txn, key: string, value: Option<string>) {
    key in t.labels && (value.None? || t.labels[key] == value.value)
  }

  function DropLabel(t: Txn, key: string, value: Option<string>): Txn {
    if Carries(t, key, value) then t.(labels := t.labels - {key}) else t
  }

  function Carriers(txns: map<string, Txn>, key: string, value: Option<string>): set<string> {
    set id | id in txns && Carries(txns[id], key, value)
  }

  /** DELETE /labels/{key}[?value=]: one coarse event for however many rows, and no version. */
  function DeleteLabel(s: Ledger, rawKey: string, rawValue: Option<string>): (Ledger, Outcome) {
    var key := CleanKeyOf(LabelSeam, rawKey);
    if key == "" then (s, Invalid)
    else
      var value := if rawValue.None? then None else Some(CleanValueOf(LabelSeam, rawValue.value));
      var removed := |Carriers(s.txns, key, value)|;
      if removed == 0 then (s, Done)
      else (Emit(s.(txns := map id | id in s.txns :: DropLabel(s.txns[id], key, value)),
                 LabelDeleted(key, if value.None? then "" else value.value, removed)), Done)
  }

  predicate EdgeAllowed(s: Ledger, id: string, prev: seq<Edge>, e: Edge) {
    e in prev || (e.target != id && e.target in s.txns)
  }

  /** mutateRelationships after `transform`: normalize, validate only the new edges, write, emit. */
  function MutateEdges(s: Ledger, id: string, transformed: seq<Edge>): (Ledger, Outcome)
    requires id in s.txns
  {
    var es := NormalizeEdges(transformed);
    if exists i :: 0 <= i < |es| && !EdgeAllowed(s, id, s.txns[id].edges, es[i]) then (s, Invalid)
    else (WriteEdges(s, id, es), Done)
  }

  function AddEdge(s: Ledger, id: string, kind: string, target: string): (Ledger, Outcome) {
    if id !in s.txns then (s, NotFound) else MutateEdges(s, id, s.txns[id].edges + [Edge(kind, target)])
  }

  function RemoveEdge(s: Ledger, id: string, kind: string, target: string): (Ledger, Outcome) {
    if id !in s.txns then (s, NotFound)
    else MutateEdges(s, id, Without(s.txns[id].edges, Edge(NormalizeKind(kind), Trim(target))))
  }

  // --- rule runs ---

  datatype Direction = Applying | Unapplying

  /** toSearchRecord. */
  function RecordOf(id: string, t: Txn, accountName: string): Record {
    Record(id, t.core.accountId, accountName, t.core.amount, t.core.pending, t.core.date, t.core.description,
           t.core.payee, t.core.memo, t.labels, t.extensions, t.syncedAt)
  }

  function AccountName(accounts: map<string, Account>, id: string): string {
    if id in accounts then accounts[id].name else ""
  }

  function ToRecord(s: Ledger, id: string): Record
    requires id in s.txns
  {
    RecordOf(id, s.txns[id], AccountName(s.accounts, s.txns[id].core.accountId))
  }

  ghost function Rewrite(dir: Direction, rules: seq<Rule>, rec: Record, seam: Seam, current: Pairs): (Pairs, bool) {
    if dir.Applying? then Apply(rules, rec, seam, current) else Unapply(rules, rec, seam, current)
  }

  /** Both seams of one row: labels first, then extensions, each with its own version. The record both seams
      are matched against is read once, before either write. */
  ghost function RunRow(s: Ledger, dir: Direction, rules: seq<Rule>, id: string): (r: Ledger)
    requires id in s.txns
    ensures r.txns.Keys == s.txns.Keys
  {
    var rec, t := ToRecord(s, id), s.txns[id];
    var labels := Rewrite(dir, rules, rec, LabelSeam, t.labels);
    var extensions := Rewrite(dir, rules, rec, ExtensionSeam, t.extensions);
    var s' := if labels.1 then WritePairs(s, id, LabelSeam, labels.0) else s;
    if extensions.1 then WritePairs(s', id, ExtensionSeam, extensions.0) else s'
  }

  ghost predicate RowChanges(s: Ledger, dir: Direction, rules: seq<Rule>, id: string)
    requires id in s.txns
  {
    var rec, t := ToRecord(s, id), s.txns[id];
    Rewrite(dir, rules, rec, LabelSeam, t.labels).1 || Rewrite(dir, rules, rec, ExtensionSeam, t.extensions).1
  }

  datatype RunResult = RunResult(ledger: Ledger, matched: nat, changed: nat)

  ghost function CountRow(r: RunResult, dir: Direction, rules: seq<Rule>, id: string): (n: RunResult)
    requires id in r.ledger.txns
    ensures n.ledger.txns.Keys == r.ledger.txns.Keys
  {
    RunResult(RunRow(r.ledger, dir, rules, id),
              r.matched + (if AnyMatch(rules, ToRecord(r.ledger, id)) then 1 else 0),
              r.changed + (if RowChanges(r.ledger, dir, rules, id) then 1 else 0))
  }

  ghost function RunRows(r: RunResult, dir: Direction, rules: seq<Rule>, ids: seq<string>): (n: RunResult)
    requires forall id :: id in ids ==> id in r.ledger.txns
    ensures n.ledger.txns.Keys == r.ledger.txns.Keys
    decreases |ids|
  {
    if ids == [] then r else RunRows(CountRow(r, dir, rules, ids[0]), dir, rules, ids[1..])
  }

  /** applyRules / unapplyRule. The rows are read before the transaction opens; read and write are one step here. */
  ghost function RunRules(s: Ledger, dir: Direction, rules: seq<Rule>, ruleId: int): (n: RunResult)
    ensures n.ledger.txns.Keys == s.txns.Keys
  {
    if rules == [] then RunResult(s, 0, 0)
    else
      AllIdsExist(s.txns);
      var r := RunRows(RunResult(s, 0, 0), dir, rules, AllIds(s.txns));
      r.(ledger := Emit(r.ledger, if dir.Applying? then RuleExecuted(ruleId, r.matched, r.changed)
                                  else RuleReverted(ruleId, r.matched, r.changed)))
  }

  // --- the state machine ---

  datatype Op =
    | OpCreateAccount(id: string, account: AccountInput, now: int)
    | OpUpdateAccount(id: string, account: AccountInput, now: int)
    | OpDeleteAccount(id: string)
    | OpCreateTxn(id: string, txn: TxnInput, now: int)
    | OpUpdateTxn(id: string, txn: TxnInput, now: int)
    | OpDeleteTxn(id: string)
    | OpSetPairs(id: string, seam: Seam, pairs: Pairs)
    | OpDeleteLabel(key: string, value: Option<string>)
    | OpAddEdge(id: string, kind: string, target: string)
    | OpRemoveEdge(id: string, kind: string, target: string)
    | OpRunRules(dir: Direction, rules: seq<Rule>, ruleId: int)

  ghost function Step(s: Ledger, op: Op): Ledger {
    match op
    case OpCreateAccount(id, input, now) => CreateAccount(s, id, input, now).0
    case OpUpdateAccount(id, input, now) => UpdateAccount(s, id, input, now).0
    case OpDeleteAccount(id) => DeleteAccount(s, id).0
    case OpCreateTxn(id, input, now) => CreateTxn(s, id, input, now).0
    case OpUpdateTxn(id, input, now) => UpdateTxn(s, id, input, now).0
    case OpDeleteTxn(id) => DeleteTxn(s, id).0
    case OpSetPairs(id, seam, pairs) => SetPairs(s, id, seam, pairs).0
    case OpDeleteLabel(key, value) => DeleteLabel(s, key, value).0
    case OpAddEdge(id, kind, target) => AddEdge(s, id, kind, target).0
    case OpRemoveEdge(id, kind, target) => RemoveEdge(s, id, kind, target).0
    case OpRunRules(dir, rules, ruleId) => RunRules(s, dir, rules, ruleId).ledger
  }

  /** What the surroundings guarantee: fresh account ids (uuids), rules that were normalized when they were
      written, and no account with more than math.MaxInt32 transactions being deleted. */
  ghost predicate Admissible(s: Ledger, op: Op) {
    match op
    case OpCreateAccount(id, _, _) => id !in s.accounts
    case OpDeleteAccount(id) => |InAccount(s.txns, id)| <= MAX_INT32
    case OpRunRules(_, rules, _) => WellFormedRules(rules)
    case _ => true
  }

  ghost function Run(s: Ledger, ops: seq<Op>): Ledger
    decreases |ops|
  {
    if ops == [] then s else Run(Step(s, ops[0]), ops[1..])
  }

  ghost predicate AdmissibleRun(s: Ledger, ops: seq<Op>)
    decreases |ops|
  {
    ops == [] || (Admissible(s, ops[0]) && AdmissibleRun(Step(s, ops[0]), ops[1..]))
  }

  function Empty(env: Env): Ledger { Ledger(map[], map[], map[], [], env) }

  /** A run can be cut anywhere. */
  lemma {:induction false} RunSplits(s: Ledger, a: seq<Op>, b: seq<Op>)
    ensures Run(s, a + b) == Run(Run(s, a), b)
    ensures AdmissibleRun(s, a + b) <==> AdmissibleRun(s, a) && AdmissibleRun(Run(s, a), b)
    decreases |a|
  {
    hide Step, Admissible;
    if a == [] {
      assert a + b == b;
    } else {
      assert (a + b)[0] == a[0] && (a + b)[1..] == a[1..] + b;
      RunSplits(Step(s, a[0]), a[1..], b);
    }
  }
}
