# kasas: verified model of the ledger and its event delivery

kasas is a personal-finance server. It keeps accounts and transactions, lets the user label, extend, relate and
edit them, and records every change three times over: in the rows, in an append-only event log, and in a version
history. The log is then delivered to clients in three ways. This project models both halves in Dafny and proves
what they promise each other.

**The ledger.** `Ledger` gives every mutation as one atomic step over accounts, transactions, versions and log:
manual account and transaction create, update and delete, label and extension replacement, the bulk label delete,
edge add and remove, and rule apply and unapply. A `Ledger` value holds the tables; `Step` is one request, `Run`
any sequence of them. Iteration over a Go map is an arbitrary order (`RangeOrder`), so every theorem holds for every
order the diff events may take. Decoding a JSON value to Go values and encoding it again is an arbitrary function that may
change a value or fail, and that done twice is done once (`Codec`); snapshots in events and versions carry extensions so
decoded (`Snap`), the per-key extension events carry them raw, as in the source. `Meta`, `Edges`, `Text`, `Amount` and `Sorting` are the normal forms and orders the
steps rely on. `PairInput`, `Requests` and `Relations` say what each request does in terms of its input and the rows it
finds, field by field: when it is refused, what it stores where, what it logs. `Queries` says which rows a query finds.
`Integrity`, `Replay`, `History`, `AccountDelete` and `RuleRuns` prove the invariants over runs. `RuleLimits`
shows how tight a guard is, and `Witnesses` runs the server from empty to ledgers where a documented promise fails.

**The code that performs it.** `Api` is the server in imperative form: a class with mutable tables, statements that can
each fail (an arbitrary fault oracle), a transaction that rolls back, and a bus that is fed only after commit. Every
operation is proved to perform exactly the ledger's step or nothing at all, and to publish exactly what it
committed. `Engine` and `Counting` hold its loops.

**Delivery.** `EventLog` is the committed log with its cursor and newest reads; `Stream` is the live stream as a
protocol of commit, publish, prune, subscribe, page-read, write, receive, drop and reconnect steps in any interleaving;
`LiveTail` treats the bus with no ordering assumption; `Recovery` is what a reconnecting client can always reach; `Wire` is what decoding does to the payloads on their way out; `Feed` is the dashboard's tail-then-poll view; `Delivery` is the
handler and view code as loops over mutable state.

**Readings of the tables.** `Search` (relationship index against scan, search pages), `Vocabulary` (label counts against
bulk delete), `Timeline` (history as diffs), `Throttle` (API-key last-used writes).

`EndToEnd` joins the halves: what a stream client rebuilds from its frames, and what a reader rebuilds from a history.

## What the theorems assume

- `Integrity`, `Replay` and `History` need `Admissible` steps: a new account's id is not in use (ids are random uuids),
  rule actions are in normal form (the server normalizes them when a rule is written), and a deleted account has at most
  2147483647 transactions. The last is exact: `Replay.DeleteAccountReplays`.
- `Integrity.RunUntouched` needs `Segregated`: no source-owned row sits under a manual account. It is needed
  (`Integrity.SegregationIsNeeded`) and preserved.
- `Stream.StreamSafe` assumes nothing about the bus or about pruning. `Stream.StreamComplete` assumes that events are
  published in sequence order and that nothing is pruned. `LiveTail.TailExact` drops the order and says exactly
  when the stream is still complete.
- `EventLog` and `Stream` take commits to become visible in sequence order, as with SQLite's single writer.
- `Replay` is about the payloads as logged, and a consumer that takes from a core edit's snapshot the core fields only.
  `Wire.StepOverWire` says exactly when a client of the API, whose payloads are decoded once more, stays in step, and
  `Wire.AdoptsExactly` when a consumer may take whole snapshots.
- A rule run reads the rows before its transaction opens (`internal/api/rules.go:392-404`); here reading and writing are
  one step.

## Where the code and its documentation disagree

- `internal/api/events.go:214-215` says that subscribing before replaying means no event is missed, and a repeat is dropped
  by `lastSent`. `Record` publishes after its commit without ordering writers (`internal/events/emitter.go:63-74`), so two writers may
  publish in the opposite order of their sequences; `lastSent` then drops the earlier event and no reconnect
  brings it back: `LiveTail.OutOfOrderLoses`, `LiveTail.PassedOverIsLost`. `LiveTail.DrainedExactly` is the condition.
- `internal/events/payload.go:14-18` calls the payloads self-contained snapshots to act on without a query. A snapshot's
  extensions are decoded to Go values (`internal/events/payload.go:48`): a number float64 cannot hold is rounded, and one
  out of its range leaves no extension at all (`internal/extensions/extensions.go:57-72`). A consumer that adopts the snapshot of
  a core edit loses what the row still has: `Witnesses.EditLosesAValue`, exactly when `Wire.AdoptsExactly` says.
- `internal/events/payload.go:96-106` calls the value of an extension event lossless. It is as logged; both reads decode it
  again (`internal/api/events.go:73-82`), so a client gets it rounded, or an empty object without even the key:
  `Witnesses.WireLosesAValue`, exactly when `Wire.StepOverWire` says.
- `internal/api/rules.go:479-489` calls unapply the inverse of apply. For rules whose queries do not look at the keys the
  rules write, it is exactly when every row carried none of the keys its matching rules set and loses none to the 50-key
  cap: `RuleRuns.UnapplyRestoresExactly`. Fifty labels and a rule that adds one fail it (`Witnesses.UnapplyLosesALabel`).
  Without that condition on the queries it can fail on rows that pass: a rule for rows without a label that sets the
  label no longer matches them (`Witnesses.UnapplyMissesItsOwnLabel`).
- `internal/api/rules.go:380-386` describes a match whose labels are all present as not updated, so a run repeated at once
  should update nothing. It does when no query looks at a written key and the cap cuts no key the rules do not write:
  `RuleRuns.SecondApplyIsIdle`. When the cap cuts a key another rule's query looks for, the second run rewrites rows
  (`Witnesses.SecondRunRewrites`). The guard cannot be weaker: `RuleLimits.SecondRunIdleExactly`.
- The bulk label delete records no version (`internal/api/handlers.go:210-230`), so afterwards a history can end in a
  snapshot the row no longer matches: `Witnesses.BulkDeleteBreaksHistory`, exactly when `History.DeleteLabelAgreesExactly` says.
- `internal/api/accounts_write.go:213-217` lists children with a limit "so none is missed"; past 2147483647 children the
  cascade deletes rows no event mentions: `Witnesses.CascadeIsSilent`, exactly when `Replay.DeleteAccountReplays` says.
- `EmitLabelDiff` compares with the zero value of a missing key (`internal/events/emitter.go:176`), so a new label
  with an empty value would go unreported. Normalized labels are never empty: `Replay.PairDiffFolds`.
- History diffs compare extension values as text (`internal/events/diff.go:74-84`), so a change of JSON type alone
  shows as no change: `Timeline.TypeChangeIsSilent`, `Timeline.SilentExactly`.

## Model

| member | source | states |
|---|---|---|
| Text.CleanKeyCanonical | internal/labels/labels.go:57-70 | Label and extension keys: cleaning always lands on a trimmed, safe, capped key, and leaves such a key alone, so a stored key is found by any spelling that cleans to it. |
| Text.TrimOnlyTrims | internal/labels/labels.go:57-70 | Trimming gives the middle of the text: what it takes away is white space at either end. |
| Text.StripKeepsSafe | internal/labels/labels.go:57-70 | Stripping takes out the unsafe characters one by one and keeps every other in its place. |
| Text.SpellingsClean | internal/labels/labels.go:52-70 | Any spelling of a clean key cleans to it: white space around, upper case where case is folded, unsafe characters anywhere between. |
| Text.LongKeysAreCut | internal/labels/labels.go:66-68 | A key over the cap keeps its first characters, less the white space the cut exposes. |
| Text.NormalizeKindCanonical | internal/relationships/relationships.go:90-113 | Every normalized relationship kind is a capped snake_case identifier, and every such identifier is a fixed point. |
| Text.KindsOfWords | internal/relationships/relationships.go:90-113 | A kind is its words joined by single underscores: whatever separators stand between two words, and of each word its letters and digits, lower-cased. |
| Text.NormalizeKindIs | internal/relationships/relationships.go:90-113 | White space around a kind does not count, and the cap of 64 only cuts its end, by one more character when an underscore would trail. |
| Meta.NormalizeIsNormal | internal/labels/labels.go:86-105 | Whatever the input, a stored label or extension set has only clean non-empty pairs and at most 50 keys. |
| Meta.NormalizeClean | internal/extensions/extensions.go:109-131 | On clean input, normalization keeps exactly the 50 least keys with their values. |
| PairInput.NormalizeStores | internal/labels/labels.go:86-105 | On any input: each pair with a non-empty cleaned key and value is stored under the cleaned key, with the value of the greatest raw key that cleans to it, unless fifty keys whose raw keys come first filled the set; and nothing else is stored. |
| PairInput.SpellingsName | internal/labels/labels.go:52-70 | Which raw keys stand for a label or extension key of at most 50 or 100 characters. |
| PairInput.KeysAreCut | internal/extensions/extensions.go:89-104 | A label key over 50 characters and an extension key over 100 are cut to that many. |
| PairInput.ValuesKept | internal/labels/labels.go:72-80 | A label value keeps its first 50 characters, an extension value is dropped over 8192; white space around counts for neither. |
| Meta.ApplyIs | internal/rules/rules.go:87-105 | Applying rules to a stored set yields the 50 least keys of the set overridden by what the matching rules set, and reports a change exactly when the result differs. |
| Meta.LastRuleWins | internal/rules/rules.go:87-105 | When several matching rules set a key, the value is the last one's. |
| Meta.UnapplyIs | internal/rules/rules.go:150-170 | Unapplying removes exactly the pairs some matching rule sets, by key and value, and nothing else. |
| Meta.ApplyTwice | internal/rules/rules.go:118-136 | A second application of the same rules changes nothing, even when the cap cut the first one short. |
| Meta.UnapplyInvertsApply | internal/rules/rules.go:140-170 | Unapply after apply gives a row's set back if and only if it carried no key of the matching rules and the cap keeps all its keys. |
| Meta.UndoFailsAtTheCap | internal/rules/rules.go:140-170 | Any fifty labels and a rule key that sorts before them: apply then unapply loses a label. |
| Witnesses.UnapplyLosesALabel | internal/api/rules.go:479-580 | A run from empty to a ledger with fifty labels on a row, where apply then unapply of an always-matching rule does not restore it. |
| Witnesses.UnapplyMissesItsOwnLabel | internal/api/rules.go:479-580 | A run from empty, and a rule for rows without the label it sets: every row is undoable, and unapply leaves the label. |
| Edges.KeyInjective | internal/relationships/relationships.go:53-57 | The NUL-joined edge key identifies an edge: equal keys, equal kind and target. |
| Edges.NormalizeEdgesCanonical | internal/relationships/relationships.go:120-144 | Normalized edge lists are clean, duplicate-free, sorted and capped, invent no edge, and are fixed points. |
| Edges.EdgesInOrder | internal/relationships/relationships.go:136-143 | A stored edge list is ordered by kind, then by target. |
| Edges.NormalizeAppend | internal/api/relationships.go:118-122 | Asserting an edge keeps every edge there was and adds the cleaned one, unless it is malformed or there are 100 already. |
| Edges.WithoutIs | internal/api/relationships.go:127-138 | Retracting an edge removes that one and keeps the normal form. |
| Edges.WithoutTargetIs | internal/ledger/ledger.go:51-62 | Stripping a target removes exactly the edges into it and keeps the normal form. |
| Amount.ScannerDecidesPattern | internal/api/amount.go:15 | The scanner accepts exactly the strings of the amount pattern. |
| Amount.AcceptsExactly | internal/api/amount.go:22-34 | An amount is accepted exactly when its trimmed form has at most 40 characters and is in the pattern. |
| Amount.CanonicalKeepsValue | internal/api/amount.go:22-34 | The canonical form is a fixed point without a plus, keeps every digit, and denotes the same exact decimal. |
| Requests.AmountRead | internal/api/amount.go:22-34 | An amount is refused exactly when it is too long or outside the pattern; otherwise what is stored has the given digits and exact value, without a plus. |
| Requests.CreateAccountDoes | internal/api/accounts_write.go:52-107 | A create is refused exactly when name or currency is blank, a given balance is no amount, or the date malformed or not encodable; otherwise the row has each trimmed field in its place, the given balance and date or "0" and now, and the log one `account.created` that describes it. |
| Requests.UpdateAccountDoes | internal/api/accounts_write.go:109-189 | The same for an edit, with unknown and read-only accounts refused in that order; a blank balance and an omitted date stay as they were, and no other account changes. |
| Requests.DeleteAccountRefuses | internal/api/accounts_write.go:191-212 | A delete is done exactly on a manual account, and a refusal changes nothing. |
| Requests.CreateTxnDoes | internal/api/transactions_write.go:89-142 | A create is refused exactly when the account is blank or unknown, the amount bad or the date missing or malformed, and fails on a taken id or a date no event can carry; otherwise the row has account id, amount, flag, date, description, payee and memo each in its own field, no labels, extensions or edges, and log and history tell of it. |
| Requests.UpdateTxnDoes | internal/api/transactions_write.go:144-208 | The same for an edit, with the exact order of refusals; source, labels, extensions and edges stay, and the history gains an edited version after a baseline of the row as it was if it had none. |
| Requests.DeleteTxnDoes | internal/api/transactions_write.go:210-230 | A delete is done exactly on a manual row: row, history and edges into it go, and the last event shows the row as it was. |
| Requests.DiffTells | internal/events/emitter.go:167-214 | A per-key diff has one event for each key that is new or changed, with the new value, one for each key that is gone, with the old one, and no other, in any order of the keys. |
| Requests.SetPairsDoes | internal/api/extensions.go:79-120 | A replacement stores what the input normalizes to in that set, leaves the other set and the rest of the row, tells of every changed key once, and adds a version that shows the row. |
| Requests.DeleteLabelDoes | internal/api/handlers.go:195-237 | The label goes from exactly the rows that carry it (with the value, if one is given), and one event counts them, or none if there are none. |
| Relations.EdgeDiffTells | internal/events/emitter.go:216-247 | A relationship diff has one event for each edge that is new or gone, and no other. |
| Relations.AddEdgeDoes | internal/api/relationships.go:62-122 | In a sound ledger an add is done exactly when the cleaned edge is there already, is left out (empty kind or target, or 100 edges), or points at another stored transaction; then the row has its old edges and that one, nothing else changes, and the log has one `relationship.created` if it is new. |
| Relations.RemoveEdgeDoes | internal/api/relationships.go:124-138 | A remove, under any spelling that cleans to the edge, is done on every stored row and leaves exactly the others, with one event if the edge was there. |
| Witnesses.EdgeIsReached | internal/api/relationships.go:116-122 | A run from empty to a ledger with a stored relationship, which deleting its target takes away. |
| Integrity.StepSound | internal/api/relationships.go:62-114 | Every operation keeps: no self-edge, duplicate or dangling edge, normalized pairs, live accounts, no orphaned history. |
| Integrity.RunSound | internal/api/relationships.go:20-26 | The same over every run of operations. |
| Integrity.DropTxnIs | internal/ledger/ledger.go:25-36 | Deleting a transaction removes its row, its history and the edges into it, and nothing else. |
| Integrity.DropAllChildrenIs | internal/api/accounts_write.go:213-225 | Deleting an account's children one by one, from rows read before the first delete rewrote others, removes exactly them and the edges into them. |
| Integrity.StepUntouched | internal/api/accounts_write.go:144-174 | No operation deletes a source-owned account or transaction or changes its record, core fields, sync time or source, and none puts such a row under a manual account. |
| Integrity.RunUntouched | internal/api/transactions_write.go:169-187 | The same over every run. |
| Integrity.SegregationIsNeeded | internal/api/accounts_write.go:210-225 | A source-owned row under a manual account goes with it, so the starting condition cannot be dropped. |
| Integrity.RunDated | internal/events/emitter.go:87-94 | Over every run from dates in the years 0 to 9999 all stored dates stay in them, so only a request's own date can make an event fail to encode. |
| Replay.PairDiffFolds | internal/events/emitter.go:174-214 | The per-key diff events as logged turn the old set into the new one in any emission order, if and only if no key with an empty value is newly added to labels. |
| Replay.EdgeDiffFolds | internal/events/emitter.go:223-247 | The per-edge diff events turn the old edge set into the new one. |
| Replay.DeleteAccountReplays | internal/api/accounts_write.go:210-230 | The events of an account delete account for the tables it leaves if and only if the account had at most 2147483647 transactions. |
| Witnesses.CascadeIsSilent | internal/api/accounts_write.go:210-230 | A run from empty to an account with 2147483648 transactions, whose deletion the log does not account for. |
| Replay.StepTracks | internal/events/emitter.go:51-74 | Folding the events an operation appends, as logged and with decoded snapshots in them, turns a mirror of the tables before into a mirror of the tables after. |
| Replay.RunTracks | internal/events/emitter.go:51-74 | The same from any sound state over every run. |
| Replay.EventSourcing | internal/api/rules.go:406-472 | From the empty ledger, folding the whole log as stored gives exactly the current accounts and transactions: core fields, labels, extensions as stored, and edges; of a core edit's snapshot the fold takes the core fields. |
| Ledger.SnapshotShows | internal/events/payload.go:37-50 | A transaction payload is a snapshot of a row exactly when it has the row's core fields and labels and its extensions as they decode, or none if one does not. |
| Ledger.SnapshotDescribes | internal/events/payload.go:66-76 | An account payload is the snapshot of a row exactly when each of its fields is the row's. |
| Wire.SnapshotsAreClear | internal/events/payload.go:37-50 | A snapshot is decoded before it is logged, so decoding its event again on the way out changes nothing. |
| Wire.ExtensionDiffHeard | internal/api/events.go:73-82 | What a client makes of an extension diff, in any order of its events: each changed value as it decodes, nothing of one that does not decode, and dropped keys gone unless their event could not be decoded. |
| Wire.StepOverWire | internal/api/events.go:38-82 | A client in step before a request, applying what it receives, is in step after it if and only if every extension value the request sets survives decoding and every one it removes can be decoded; for every kind of request. |
| Wire.RunOverWire | internal/api/events.go:38-82 | Over every run of requests whose extension values survive decoding, such a client mirrors the tables. |
| Wire.EventSourcingOverWire | internal/api/events.go:38-82 | The same from the empty ledger: folding all that reaches the client gives the tables. |
| Wire.AdoptsExactly | internal/api/transactions_write.go:199-202 | A consumer that adopts whole snapshots stays in step with a request, if and only if the request is no effective core edit of a row with an extension value that does not survive decoding. |
| Wire.RunAdopts | internal/events/payload.go:14-18 | Such a consumer mirrors the tables over every run of requests whose extension values survive, and over every run without a core edit. |
| Witnesses.WireLosesAValue | internal/api/events.go:73-82 | A run from empty (account, transaction, PUT of one extension that does not survive) after which a client that heard every event does not hold the tables. |
| Witnesses.EditLosesAValue | internal/events/payload.go:37-50 | The same run and a core edit: a consumer that adopts snapshots, reading the log as stored, does not hold the tables. |
| Witnesses.SomeNumbersDoNot | internal/extensions/extensions.go:57-72 | Two stored numbers that do not survive under a decoding that rounds one and refuses the other. |
| Replay.EdgesFromView | internal/relationships/relationships.go:120-144 | A stored edge list is determined by its set of edges, so the mirror loses nothing. |
| History.VersionChangeIs | internal/events/emitter.go:145-165 | Recording a change appends one version, after a baseline of the prior state if there was no history. |
| History.StepAgrees | internal/api/transactions_write.go:199-202 | No operation rewrites a recorded version or adds a second imported baseline; every operation but the bulk label delete keeps each latest version equal to the row's snapshot (extensions decoded), if it was. |
| History.StepLevel | internal/events/emitter.go:145-165 | Every operation but the bulk label delete leaves each row either with the history and snapshot it had or with a history that ends in its current snapshot, whatever state it started from. |
| History.RunAgrees | internal/api/extensions.go:106-114 | In every run without a bulk label delete, each transaction with history has its latest version equal to the snapshot of its row, in which extensions are decoded. |
| History.AgreesMeans | internal/events/emitter.go:145-165 | Agreement by the rows' own fields: each latest version has the row's core fields and labels and its extensions as they decode. |
| History.RunFounded | internal/events/emitter.go:145-165 | In every run of requests, bulk label deletes included and retention pruning aside, each history starts with the imported baseline and has no other. |
| History.PruningKeepsAgreement | internal/db/transaction_versions.sql.go:29-42 | Pruning that leaves a suffix of each history, or nothing, keeps the ledger sound and in agreement; imported baselines all survive exactly when each history was kept whole or dropped whole. |
| History.PruneIsRetained | internal/db/transaction_versions.sql.go:29-42 | Pruning versions by age leaves exactly that, provided versions were recorded in time order. |
| History.AgreesThroughRetention | cmd/kasas/main.go:475-492 | Agreement of history and rows over every run of requests without a bulk label delete, with pruning by age of histories recorded in time order anywhere between them. |
| History.BothSeamsTwoVersions | internal/api/rules.go:426-459 | A rule run that changes both seams adds a labels-only version, then an extensions-only one (decoded). |
| History.DeleteLabelAgreesExactly | internal/api/handlers.go:210-230 | A bulk label delete keeps history and rows in agreement if and only if no versioned transaction carries the label. |
| Witnesses.BulkDeleteBreaksHistory | internal/api/handlers.go:210-230 | A run from empty (account, transaction, label, bulk delete of the label) after which history and row disagree. |
| History.NextChangeHeals | internal/events/emitter.go:145-165 | Whatever operation next adds to such a row's history (pair, core or rule write) brings the two back into agreement. |
| AccountDelete.DropTxnLog | internal/ledger/ledger.go:25-74 | Deleting a transaction logs only removals of edges into it, then one deletion with its last snapshot. |
| AccountDelete.DropChildrenLog | internal/api/accounts_write.go:220-225 | Deleting the children logs exactly one deletion per child, in listing order, with only edge removals into them between. |
| AccountDelete.DeleteAccountTransition | internal/api/accounts_write.go:191-232 | On success the account, its transactions, their versions and the edges into them are gone, all else stands, and the log gained one deletion per child, all before the single account deletion at its end. |
| RuleRuns.RunRulesExact | internal/api/rules.go:387-477 | A run rewrites each row as the rules alone would; matched counts the matching rows, changed the rows that came out different, and changed <= matched <= rows. |
| RuleRuns.RunRowsPointwise | internal/api/rules.go:406-463 | Midway through a run, visited rows are rewritten, unvisited ones untouched, and the counters count the visited. |
| Queries.RuleFindsRows | internal/api/search.go:111-127 | A run of a rule on one field (id, account, account name, amount, pending, date, description, payee, memo, a label, an extension, sync time) matches exactly the rows whose own field it is: they get the rule's pairs, or lose those they have, no other row changes, and the event carries rule id and both counters. |
| RuleRuns.IndependentAnswers | internal/api/rules.go:602-609 | If no query looks at a key the rules write and the cap cuts no key they do not write, a run leaves every match as it was. |
| RuleRuns.SecondApplyIsIdle | internal/api/rules.go:380-386 | Under the same two conditions on rules and rows before the run, a second run updates no row. |
| RuleRuns.SameAnswersIdle | internal/rules/rules.go:118-136 | For any rules at all: if they match after a run what they matched before, a second run updates no row, cap or not. |
| RuleLimits.SecondRunIdleExactly | internal/api/rules.go:387-477 | For rules whose queries look at no written key: the cap cuts no unwritten key if and only if a second run is idle whatever dormant rule (one that writes no new key, looks at none, and matches no row yet) is added to the list. |
| RuleLimits.MisfitWakesSomeRule | internal/api/rules.go:387-477 | Where the cap does cut such a key, a dormant rule that makes the second run change that row. |
| Witnesses.SecondRunRewrites | internal/api/rules.go:387-477 | A run from empty to a ledger, and two independent rules, whose second run updates a row. |
| RuleRuns.UnapplyRestoresExactly | internal/api/rules.go:479-580 | For rules whose queries look at no written key, unapply after apply restores every transaction if and only if each row carried none of its matching rules' keys and the cap keeps all its own, on both seams. |
| RuleRuns.UnapplyRestoresWhereAgreed | internal/api/rules.go:479-580 | The same equivalence for any rules at all that match the undoable and the restored rows after the apply as before. |
| RuleRuns.UnapplyIsExact | internal/api/rules.go:479-489 | An unapply removes a pair exactly when a matching rule sets that very pair; a value that differs stays. |
| EventLog.ClampLimit | internal/api/events.go:149-154 | Whatever the request, a read asks for between 1 and 1000 rows. |
| EventLog.SelectAscends | internal/db/events.sql.go:89-97 | A cursor read returns exactly the matching events after the cursor, in strictly increasing sequence. |
| EventLog.FilteredPage | internal/db/events.sql.go:89-97 | A page holds exactly stored events after the cursor whose payload is of the type, about the kind of entity and about the entity its filters name, and leaves out a later one only when it is full and the event lies behind its `next`. |
| EventLog.ResumeAtCut | internal/api/events.go:142-173 | A selection cut anywhere and resumed from the cursor at the cut loses and repeats nothing, and the cursor moved unless nothing was taken. |
| EventLog.ReadsTile | internal/api/events.go:142-173 | Passing `next` back as `after`, with any limits, any filter and any appends in between: what was read followed by what is still to read is every matching event once, in order. |
| EventLog.CaughtUpExactly | internal/api/events.go:82-88 | `next` equals the clamped cursor exactly when the page is empty, which is exactly when nothing is left; any other page leaves strictly less. |
| Stream.StepSafe | internal/api/events.go:225-287 | Every protocol step keeps the stream's safety invariant, with any order of publication and with pruning. |
| Stream.StreamSafe | internal/api/events.go:202-287 | In every run, through drops, failed writes and reconnects, the frames strictly increase and each is a committed event after the starting cursor. |
| Stream.StepComplete | internal/api/events.go:219-287 | Every step with in-order publication and no pruning keeps the frames, the page being written and the channel contiguous pieces of the log. |
| Stream.StreamComplete | internal/api/events.go:202-287 | In every such run the frames are at every moment a prefix of the events after the cursor, across reconnects; a drained open connection has them all. |
| LiveTail.FollowKeepsAll | internal/api/events.go:240-252 | The receive loop drops nothing new from ascending arrivals. |
| LiveTail.FollowMisses | internal/api/events.go:240-252 | If the receive loop forwarded every distinct arrival above the cursor, it forwarded them as a selection in arrival order. |
| LiveTail.DrainedExactly | internal/api/events.go:219-252 | A drained open connection has delivered everything after the cursor it presented if and only if what arrived above the replay's end arrived in ascending order. |
| LiveTail.TailExact | internal/api/events.go:202-287 | The same in every run without pruning, whatever the order of publication. |
| LiveTail.PassedOverIsLost | internal/api/events.go:245-247 | An event the cursor has passed over never reaches the client, however often it reconnects. |
| LiveTail.OutOfOrderLoses | internal/events/emitter.go:63-74 | Two commits published the other way round: a connected, drained client gets the second and not the first. |
| LiveTail.OutOfOrderLosesFromIdle | internal/events/emitter.go:63-74 | A run from the start that ends so: connected, drained, and the first event missing. |
| Recovery.Recovers | internal/api/events.go:262-287 | Whatever happened on the bus or to the connection, a client with a cursor can reconnect, and replay alone brings it exactly the stored events after that cursor. |
| Recovery.CatchesUp | internal/api/events.go:202-260 | With nothing pruned it ends up live with nothing in flight, having received every committed event after its cursor. |
| Feed.NewestIsWindow | internal/api/events.go:123-142 | The first load is the log's newest stretch and its head cursor is where forward polling must go on. |
| Feed.PollContinues | internal/dashboard/events_view.go:80-101 | A poll returns the stretch of the log right behind its cursor, all of it up to 200 events. |
| Feed.StepContiguous | internal/dashboard/events_view.go:58-113 | Every append, fetch, poll and dispatched batch keeps the buffer and the batches in flight contiguous pieces of the log. |
| Feed.FeedIsWindow | internal/dashboard/events_view.go:58-113 | In every run without pruning from a contiguous state the feed shows, with no gap or repeat, the log's stretch that ends at `lastSeq` and reaches back to the first load's start or a thousand events. |
| Feed.OpenedFeedIsWindow | internal/dashboard/events_view.go:14-113 | The same from the moment the page is opened, on any log. |
| Feed.CatchesUp | internal/dashboard/events_view.go:77-113 | From any moment polls and deliveries can bring the feed to the end of the log, where it shows the newest stretch back to its start or a thousand events. |
| Search.IndexCounts | internal/api/search.go:134-143 | An index entry occurs as often as its edge is stored. |
| Search.IndexDuality | internal/api/search.go:128-143 | Outbound and inbound entries are exact duals. |
| Search.IndexTotal | internal/api/search.go:128-143 | Over any list of ids that covers the edges' ends, the index holds two entries per edge. |
| Search.IndexTotalInTable | internal/api/search.go:128-143 | In every sound state the index lists over the stored ids total twice the stored edges. |
| Search.IndexMatchesScan | internal/api/relationships.go:145-181 | Index and scan agree on a transaction, as multisets, if and only if it has no edge to itself. |
| Search.IndexRefinesScan | internal/api/search.go:128-143 | In every sound state they agree for every stored id, and the index has nothing for any other. |
| Search.NeighborhoodIgnoresOrder | internal/api/relationships.go:139-181 | The sorted neighborhood does not depend on the order the rows are scanned in. |
| Search.NeighborhoodInOrder | internal/api/relationships.go:170-180 | A listed neighborhood has outbound entries first, each side by kind, then by the other end. |
| Queries.TableRead | internal/db/transactions.sql.go:239 | A search reads every row once, the latest date first and by id within a date. |
| Queries.SearchFindsRows | internal/api/search.go:111-127 | A search on one field finds exactly the rows whose own field it is, in that order; the account name is that of the row's account. |
| Queries.SearchFindsRelated | internal/api/search.go:128-143 | A search for a relationship finds exactly the rows that store it, or into which another row stores it. |
| Search.PagesTile | internal/api/search.go:71-84 | For any positive limit the pages at offsets 0, L, 2L, ... concatenate to the match list. |
| Vocabulary.VocabularyTotal | internal/api/labels.go:31-50 | A vocabulary's counts sum to all occurrences. |
| Vocabulary.KeyTotal | internal/api/labels.go:31-50 | The counts listed for a key sum to the number of sets that hold it. |
| Vocabulary.TokensAreCarriers | internal/db/labels.sql.go:12-31 | A listed count is the number of rows the bulk delete of that pair, or key, touches. |
| Vocabulary.ListedInOrder | internal/api/labels.go:43-48 | A label listing is strictly ordered by key, then by value. |
| Counting.CountsMean | internal/api/extensions.go:58-71 | What the vocabularies count: the sets with the pair, the sets with the key, the edges of the kind. |
| Vocabulary.DeleteMatchesListing | internal/api/handlers.go:195-237 | Deleting a listed pair or key reports exactly its listed count or sum, removes exactly those pairs, and leaves every other count. |
| Timeline.BuildHistory | internal/api/transaction_history.go:63-78 | Ordinals run 1..n, each version keeps its kind, time and snapshot (missing data is the zero snapshot), and each version is diffed against the one before it, the first against the zero snapshot. |
| Timeline.DiffRoundTrip | internal/events/diff.go:38-93 | A diff carries a reader from the earlier snapshot to the later one, and back. |
| Timeline.DiffListsFields | internal/events/diff.go:49-59 | The scalar part of a diff has, under its own name and with its own two values, each field that changed, and no other. |
| Timeline.SilentExactly | internal/events/diff.go:38-93 | A diff is empty if and only if the snapshots read the same, extensions compared as text. |
| Timeline.PlainDetermines | internal/events/diff.go:105-114 | Snapshots that read the same differ at most in extension values that stringify alike. |
| Timeline.TypeChangeIsSilent | internal/events/diff.go:74-84 | Changing an extension from a JSON string to the bare value of the same text leaves no trace in the diff. |
| Timeline.HistoryReplays | internal/api/transaction_history.go:55-78 | Replaying the diffs of any history from the zero snapshot reproduces every snapshot in turn. |
| Timeline.PruneKeepsSuffix | internal/db/transaction_versions.sql.go:29-42 | Pruning by age keeps a suffix of a history recorded in time order: the versions not before the cutoff. |
| Timeline.PrunedHistory | cmd/kasas/main.go:475-492 | A pruned history is renumbered from 1; every surviving diff but the first is the one it was, and the first reads against the zero snapshot. |
| Throttle.KeyStore.VerifyApiKey | internal/api/security.go:135-149 | Verification answers from the stored keys; it writes the key's time exactly when a minute has passed and the write succeeds, and touches no other key. |
| Throttle.WritesAreSpaced | internal/api/security.go:19 | Writes of one key's time are at least a minute apart, whatever was stored before and whichever writes fail. |
| Throttle.TouchBound | internal/api/security.go:131-149 | A run of verifications writes at most (tn - t1)/60 + 1 times, and after each the stored time is under a minute old unless a due write failed then. |
| Engine.NormalizePairs | internal/labels/labels.go:86-105 | The normalization loop computes the specified normal form. |
| Engine.ApplyTo | internal/rules/rules.go:87-136 | The merge loop computes the specified application and its changed flag. |
| Engine.UnapplyTo | internal/rules/rules.go:150-200 | The removal loop computes the specified unapplication and its changed flag. |
| Engine.AnyRuleMatches | internal/api/rules.go:602-609 | True exactly when some rule matches. |
| Engine.DropEdge | internal/api/relationships.go:127-138 | The filter loop drops every occurrence of one edge. |
| Engine.BuildRelationshipIndex | internal/api/search.go:134-143 | The nested loops give every id exactly its entries, in row order. |
| Engine.CollectInbound | internal/api/relationships.go:158-169 | The scan collects the edges of the other rows that target the id. |
| Counting.LabelCounts | internal/api/labels.go:31-50 | Strictly sorted by key and value; lists every pair that occurs with its number of occurrences, and nothing else. |
| Counting.ExtensionCounts | internal/api/extensions.go:58-71 | Strictly sorted by key; every extension key that occurs, with its namespace and its number of transactions, and nothing else. |
| Counting.RelationshipKindCounts | internal/api/relationships.go:38-51 | The same for relationship kinds, per edge. |
| Api.Server.InsertEvent | internal/db/events.sql.go:45-84 | Appends one event above every stored sequence, or fails and changes nothing. |
| Api.Server.RecordChange | internal/events/emitter.go:145-165 | Records a version, and a baseline first exactly when the transaction had none. |
| Api.Server.EmitPairDiff | internal/events/emitter.go:167-214 | Appends exactly the specified per-key diff, in the order the maps are ranged over. |
| Api.Server.EmitEdgeDiff | internal/events/emitter.go:216-247 | Appends exactly the created, then the removed edges. |
| Api.Server.StripInboundRelationships | internal/ledger/ledger.go:38-74 | Rewriting rows read once up front has the effect of stripping each row as it stands. |
| Api.Server.DeleteTransactionTx | internal/ledger/ledger.go:18-36 | Strips inbound edges, deletes versions and row, and logs the last snapshot. |
| Api.Server.End | internal/events/emitter.go:58-74 | A closure's error or a failed commit restores every table and publishes nothing; a commit publishes exactly the new events. |
| Api.Server.CreateManualAccount | internal/api/accounts_write.go:52-107 | Performs exactly the ledger's step with its outcome, or nothing, and nothing only after a fault; publishes exactly what it committed. |
| Api.Server.UpdateManualAccount | internal/api/accounts_write.go:109-189 | The same for an account edit: unknown, read-only and invalid are refused without effect; omitted balance and date stay. |
| Api.Server.DeleteManualAccount | internal/api/accounts_write.go:191-232 | The same for the cascading delete: any failure midway leaves state and log untouched. |
| Api.Server.CreateManualTransaction | internal/api/transactions_write.go:89-142 | The same for a transaction's birth; a taken id or a date no event can carry fails without effect. |
| Api.Server.UpdateTransactionCore | internal/api/transactions_write.go:144-208 | The same for a core edit. |
| Api.Server.DeleteTransaction | internal/api/transactions_write.go:210-230 | The same for a single delete. |
| Api.Server.ReplacePairs | internal/api/extensions.go:79-120 | The same for replacing labels or extensions. |
| Api.Server.DeleteLabelEverywhere | internal/api/handlers.go:195-237 | The same for the bulk label delete. |
| Api.Server.MutateRelationships | internal/api/relationships.go:53-138 | The same for adding or removing an edge; one bad new edge refuses the call, old edges are not checked again. |
| Api.Server.AllTransactions | internal/api/search.go:86-106 | Batch reading ends and returns the whole table once, newest first. |
| Api.Server.SearchTransactions | internal/api/search.go:43-84 | Returns the requested page of the matches, each row matched with its own index entries, and their total number. |
| Api.Server.ListTransactionRelationships | internal/api/relationships.go:139-181 | Returns the neighborhood of a stored id, and not-found for any other. |
| Api.Server.ListLabels | internal/api/handlers.go:176-187 | Returns the vocabulary of all stored labels. |
| Api.Server.RunCompiledRules | internal/api/rules.go:380-580 | An apply or unapply performs exactly the ledger's run with its counters, or nothing with zero counters. |
| Api.Server.Dispatch | internal/api/api.go:322-343 | Every request takes the ledger's step or leaves the ledger; without a fault only a taken transaction id or a date outside the years 0 to 9999 fails. |
| Api.Server.Handle | internal/events/emitter.go:51-74 | Whatever fails, a request keeps the tables sound, and what it publishes, as logged, carries a consumer's mirror from the tables before to the tables after. |
| EndToEnd.StreamMirrorsLedger | internal/api/events.go:190-287 | With publication in order, a client that streams from the beginning has an exact mirror of the tables after the first k requests whenever it has received their events, and of the current tables once nothing is in flight: applying the payloads as logged, and as received too if the extension values of those requests survive decoding. |
| EndToEnd.AscendingArrivalsMirror | internal/api/events.go:202-287 | With any order of publication: a drained client that resumed where it had left off has every event if and only if what arrived after its replay ascended, and then mirrors the tables, as logged and under the same guard as received. |
| EndToEnd.MirrorIsReached | internal/api/events.go:190-287 | Such runs exist: whatever was requested, a client that streams from the beginning can end up live, with nothing in flight and a mirror of the tables. |
| EndToEnd.HistoryEndsAtRow | internal/api/transaction_history.go:55-78 | While history agrees with the rows, replaying the diffs of a transaction's history ends at its current row. |
| Delivery.CursorRoundTrip | internal/api/events.go:289-309 | A frame's id, sent back as `after`, is the cursor it stands for. |
| Delivery.CursorsRead | internal/api/events.go:301-309 | The cursors are the digit strings, signed plus or not, up to 9223372036854775807; a negative one and any other text is the beginning. |
| Delivery.ListEvents | internal/api/events.go:144-173 | Returns the specified page and next cursor. |
| Delivery.ListEventsAfter | internal/db/events.sql.go:89-97 | The scan returns the first matching rows after the cursor up to the limit. |
| Delivery.ReverseInPlace | internal/api/events.go:138-140 | The swap loop reverses the slice in place. |
| Delivery.RecentEvents | internal/api/events.go:119-142 | Returns the newest events in chronological order with the head sequence. |
| Delivery.Connection.ReplayEvents | internal/api/events.go:262-287 | With appends before any page: what was written followed by what lies after the returned cursor is everything after the given one, and replay succeeds only when nothing was left as the last page was read. |
| Delivery.Connection.FollowBus | internal/api/events.go:235-252 | The receive loop forwards exactly the specified tail, or a proper prefix of it when a write fails. |
| Delivery.EventsView.LoadRecent | internal/dashboard/events_view.go:56-75 | The first load shows the newest events and hands the poll loop their head. |
| Delivery.EventsView.AppendEvents | internal/dashboard/events_view.go:103-113 | Appends a batch, advances the cursor, keeps the newest thousand. |
| Delivery.EventsView.Poll | internal/dashboard/events_view.go:77-113 | One poll moves the view to the window that ends at the new cursor. |

## Left out

- HTTP routing, status codes, JSON and SSE bytes, heartbeats, the MCP wrappers and the rest of the dashboard.
- The query parser: a rule's query is an arbitrary predicate on a record, a search query one on a record and its relationships.
- Api.Server.SearchTransactions: records carry extensions and amounts as stored, without the lower-cased keys and float amounts of the search record.
- Meta.NormalizeClean: extension values are trimmed text within the size limit; JSON validity, compaction and the escaping of `<`, `>` and `&` on encoding are not modelled.
- Text.CleanKeyCanonical: strings are ASCII; Unicode trimming and lower-casing and caps in runes are not modelled.
- Text.NormalizeKindCanonical: strings are ASCII; Unicode lower-casing is not modelled.
- Amount.AcceptsExactly: trims ASCII white space only.
- Date parsing and formatting: an input date is omitted, malformed or a time; a snapshot's date is its text.
- Random ids: an id is a parameter; that a new account's id is unused is an assumption, a taken transaction id is an outcome.
- The clock: times are parameters, or an arbitrary function of the statements run.
- Label filter queries and `queryTransactions`: they select and page rows without a property beyond their query.
- The organizations table: its upsert is one statement that can fail.
- Api.Server.Dispatch: rule create, update and delete with their events, the enabled flag and query compilation are not operations.
- Sync: pollers, plugins, `UpdateTransactionFromSync` and `PurgeSource`; synced rows are part of an arbitrary initial state.
- Sync time and an account's sync time are in no event, so the mirror that `Replay` rebuilds does not hold them, nor a transaction's source.
- Event retention: `Stream.StreamSafe` covers it; the completeness theorems and the feed are stated without it.
- Postgres, where a later sequence can become visible before an earlier one.
- The events-disabled mode, where nothing is recorded.
- Api.Server.RunCompiledRules: the rows are read before the transaction opens, and a writer in between is not modelled; rules are matched against extensions as stored, without the search record's lower-cased keys and stringified values.
- RuleRuns.UnapplyRestoresExactly: queries see extensions as stored, without the search record's lower-cased keys and stringified values; so does every other result of `RuleRuns` and `RuleLimits`.
- Rows with a date outside the years 0 to 9999: only a sync could store one, and events and versions of it would fail to encode; `Integrity.RunDated` rules them out of every run that starts without.
- History.RunFounded: retention pruning of versions is no operation of a run; `History.PruningKeepsAgreement` says what it does.
- Concurrent verifications of one API key, and concurrent writers inside one closure.
- Delivery.ListEvents: filters compare event type, entity type and id of this model's events only.
- Engine.ApplyTo: the inner range over a rule's pairs is one map update.
- Engine.UnapplyTo: the inner range over a rule's pairs is one map update.
