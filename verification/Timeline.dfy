/** Transaction history as it is read: version rows, and the diffs computed between neighbours. */
module Timeline {
  import opened Amount
  import opened Meta
  import opened Sorting

  /** A decoded extension value: a JSON string, or any other JSON value by its compact encoding. */
  datatype Value = Text(text: string) | Raw(compact: string)

  function Stringify(v: Value): string { if v.Text? then v.text else v.compact }

  /** A stored snapshot. Dates are RFC 3339 text, "" when unset. */
  datatype Shot = Shot(
    accountId: string, amount: string, pending: bool, date: string, description: string, payee: string, memo: string,
    labels: Pairs, extensions: map<string, Value>)

  const ZERO := Shot("", "", false, "", "", "", "", map[], map[])

  datatype FieldChange = FieldChange(field: string, from: string, to: string)
  datatype Change = Change(from: string, to: string)

  datatype PairsDiff = PairsDiff(added: Pairs, removed: Pairs, changed: map<string, Change>)

  datatype Diff = Diff(fields: seq<FieldChange>, labels: PairsDiff, extensions: PairsDiff)

  /** The order in which scalar changes are listed. */
  const FIELDS := ["account_id", "amount", "pending", "date", "description", "payee", "memo"]

  function FieldText(s: Shot, field: string): string {
    if field == "account_id" then s.accountId
    else if field == "amount" then s.amount
    else if field == "pending" then (if s.pending then "true" else "false")
    else if field == "date" then s.date
    else if field == "description" then s.description
    else if field == "payee" then s.payee
    else s.memo
  }

  function FieldChanges(prev: Shot, next: Shot, fields: seq<string>): seq<FieldChange> {
    if fields == [] then []
    else
      var from, to := FieldText(prev, fields[0]), FieldText(next, fields[0]);
      (if from != to then [FieldChange(fields[0], from, to)] else []) + FieldChanges(prev, next, fields[1..])
  }

  function DiffPairs(prev: Pairs, next: Pairs): PairsDiff {
    PairsDiff(
      map k | k in next && k !in prev :: next[k],
      map k | k in prev && k !in next :: prev[k],
      map k | k in next && k in prev && prev[k] != next[k] :: Change(prev[k], next[k]))
  }

  function Stringified(m: map<string, Value>): Pairs { map k | k in m :: Stringify(m[k]) }

  /** events.DiffSnapshots. */
  function DiffShots(prev: Shot, next: Shot): Diff {
    Diff(FieldChanges(prev, next, FIELDS), DiffPairs(prev.labels, next.labels),
         DiffPairs(Stringified(prev.extensions), Stringified(next.extensions)))
  }

  datatype VersionRow = VersionRow(kind: string, at: int, data: Option<Shot>)

  datatype Entry = Entry(version: nat, kind: string, at: int, shot: Shot, diff: Diff)

  /** Missing or malformed data reads as the zero snapshot. */
  function Decode(row: VersionRow): Shot { if row.data.Some? then row.data.value else ZERO }

  /** What the history must be: ordinals 1..n, and each row against the one before it. */
  function EntryAt(rows: seq<VersionRow>, i: nat): Entry
    requires i < |rows|
  {
    var prev := if i == 0 then ZERO else Decode(rows[i - 1]);
    Entry(i + 1, rows[i].kind, rows[i].at, Decode(rows[i]), DiffShots(prev, Decode(rows[i])))
  }

  method BuildHistory(rows: seq<VersionRow>) returns (versions: seq<Entry>)
    ensures IsHistory(versions, rows)
    ensures forall i :: 0 <= i < |rows| ==>
              && versions[i].version == i + 1 && versions[i].kind == rows[i].kind && versions[i].at == rows[i].at
              && (if rows[i].data.Some? then versions[i].shot == rows[i].data.value
                  else versions[i].shot == Shot("", "", false, "", "", "", "", map[], map[]))
  {
    hide DiffShots;
    versions := [];
    var prev := ZERO;
    for i := 0 to |rows|
      invariant |versions| == i && prev == if i == 0 then ZERO else Decode(rows[i - 1])
      invariant forall j :: 0 <= j < i ==> versions[j] == EntryAt(rows, j)
    {
      var snap := Decode(rows[i]);
      versions := versions + [Entry(i + 1, rows[i].kind, rows[i].at, snap, DiffShots(prev, snap))];
      prev := snap;
    }
  }

  // --- replaying diffs ---

  /** A snapshot as a reader of diffs sees it. */
  datatype Plain = Plain(texts: Pairs, labels: Pairs, extensions: Pairs)

  function TextsOf(s: Shot): Pairs { map f | f in FIELDS :: FieldText(s, f) }

  function PlainOf(s: Shot): Plain { Plain(TextsOf(s), s.labels, Stringified(s.extensions)) }

  function ApplyFields(m: Pairs, changes: seq<FieldChange>): Pairs
    decreases |changes|
  {
    if changes == [] then m else ApplyFields(m[changes[0].field := changes[0].to], changes[1..])
  }

  function UndoFields(m: Pairs, changes: seq<FieldChange>): Pairs
    decreases |changes|
  {
    if changes == [] then m else UndoFields(m[changes[0].field := changes[0].from], changes[1..])
  }

  function ApplyPairs(m: Pairs, d: PairsDiff): Pairs {
    (m - d.removed.Keys) + d.added + (map k | k in d.changed :: d.changed[k].to)
  }

  function UndoPairs(m: Pairs, d: PairsDiff): Pairs {
    (m - d.added.Keys) + d.removed + (map k | k in d.changed :: d.changed[k].from)
  }

  function ApplyDiff(p: Plain, d: Diff): Plain {
    Plain(ApplyFields(p.texts, d.fields), ApplyPairs(p.labels, d.labels), ApplyPairs(p.extensions, d.extensions))
  }

  function UndoDiff(p: Plain, d: Diff): Plain {
    Plain(UndoFields(p.texts, d.fields), UndoPairs(p.labels, d.labels), UndoPairs(p.extensions, d.extensions))
  }

  lemma PairsReplay(prev: Pairs, next: Pairs)
    ensures ApplyPairs(prev, DiffPairs(prev, next)) == next
  {
    var there := ApplyPairs(prev, DiffPairs(prev, next));
    assert there.Keys == next.Keys;
    assert forall k :: k in next ==> there[k] == next[k];
  }

  lemma PairsUndo(prev: Pairs, next: Pairs)
    ensures UndoPairs(next, DiffPairs(prev, next)) == prev
  {
    var back := UndoPairs(next, DiffPairs(prev, next));
    assert back.Keys == prev.Keys;
    assert forall k :: k in prev ==> back[k] == prev[k];
  }

  /** Walking the field list, with the fields already walked holding the later text. */
  lemma {:induction false} FieldsReplay(prev: Shot, next: Shot, fields: seq<string>, m: Pairs)
    requires Distinct(fields) && forall f :: f in fields ==> f in m
    requires forall f :: f in m ==> m[f] == FieldText(if f in fields then prev else next, f)
    ensures ApplyFields(m, FieldChanges(prev, next, fields)) == map f | f in m :: FieldText(next, f)
    decreases |fields|
  {
    hide FieldText;
    if fields != [] {
      var f := fields[0];
      assert f in fields;
      var from, to := FieldText(prev, f), FieldText(next, f);
      var m' := m[f := to];
      assert fields == [f] + fields[1..];
      assert f !in fields[1..];
      var rest := FieldChanges(prev, next, fields[1..]);
      assert [] + rest == rest;
      assert from == to ==> m' == m;
      FieldsReplay(prev, next, fields[1..], m');
    }
  }

  /** Undoing a field list is applying the list of the opposite comparison. */
  lemma {:induction false} UndoIsReplay(prev: Shot, next: Shot, fields: seq<string>, m: Pairs)
    ensures UndoFields(m, FieldChanges(prev, next, fields)) == ApplyFields(m, FieldChanges(next, prev, fields))
    decreases |fields|
  {
    hide FieldText;
    if fields != [] {
      var f := fields[0];
      var a, b := FieldChanges(prev, next, fields[1..]), FieldChanges(next, prev, fields[1..]);
      assert [] + a == a && [] + b == b;
      var m' := if FieldText(prev, f) == FieldText(next, f) then m else m[f := FieldText(prev, f)];
      UndoIsReplay(prev, next, fields[1..], m');
    }
  }

  lemma {:induction false} NoChanges(prev: Shot, next: Shot, fields: seq<string>)
    ensures FieldChanges(prev, next, fields) == []
        <==> forall f :: f in fields ==> FieldText(prev, f) == FieldText(next, f)
  {
    hide FieldText;
    if fields != [] {
      NoChanges(prev, next, fields[1..]);
      assert fields == [fields[0]] + fields[1..];
      assert fields[0] in fields;
    }
  }

  lemma FieldsAreDistinct()
    ensures Distinct(FIELDS)
  {
    var lengths := [10, 6, 7, 4, 11, 5, 4];
    assert forall i :: 0 <= i < 7 ==> |FIELDS[i]| == lengths[i];
    assert FIELDS[3][0] == 'd' && FIELDS[6][0] == 'm';
  }

  /** A diff carries a reader from one snapshot to the next, and back. */
  lemma DiffRoundTrip(prev: Shot, next: Shot)
    ensures ApplyDiff(PlainOf(prev), DiffShots(prev, next)) == PlainOf(next)
    ensures UndoDiff(PlainOf(next), DiffShots(prev, next)) == PlainOf(prev)
  {
    hide FieldText, ApplyPairs, UndoPairs, DiffPairs, ApplyFields, UndoFields, FieldChanges;
    FieldsAreDistinct();
    FieldsReplay(prev, next, FIELDS, TextsOf(prev));
    FieldsReplay(next, prev, FIELDS, TextsOf(next));
    UndoIsReplay(prev, next, FIELDS, TextsOf(next));
    assert (map f | f in TextsOf(prev) :: FieldText(next, f)) == TextsOf(next);
    assert (map f | f in TextsOf(next) :: FieldText(prev, f)) == TextsOf(prev);
    PairsReplay(prev.labels, next.labels);
    PairsReplay(Stringified(prev.extensions), Stringified(next.extensions));
    PairsUndo(prev.labels, next.labels);
    PairsUndo(Stringified(prev.extensions), Stringified(next.extensions));
  }

  const NO_PAIRS := PairsDiff(map[], map[], map[])

  lemma NoPairs(prev: Pairs, next: Pairs)
    ensures DiffPairs(prev, next) == NO_PAIRS <==> prev == next
  {
    if DiffPairs(prev, next) == NO_PAIRS {
      PairsReplay(prev, next);
      assert ApplyPairs(prev, NO_PAIRS) == prev;
    }
  }

  /** A diff shows nothing exactly when the two snapshots read the same, extensions compared as text. */
  lemma SilentExactly(prev: Shot, next: Shot)
    ensures DiffShots(prev, next) == Diff([], NO_PAIRS, NO_PAIRS) <==> PlainOf(prev) == PlainOf(next)
  {
    hide FieldText, DiffPairs, FieldChanges;
    NoChanges(prev, next, FIELDS);
    NoPairs(prev.labels, next.labels);
    NoPairs(Stringified(prev.extensions), Stringified(next.extensions));
    if TextsOf(prev) == TextsOf(next) {
      forall f | f in FIELDS ensures FieldText(prev, f) == FieldText(next, f) { assert f in TextsOf(prev); }
    }
    if forall f :: f in FIELDS ==> FieldText(prev, f) == FieldText(next, f) { assert TextsOf(prev) == TextsOf(next); }
  }

  /** Reading the same is being the same but for the extension values that stringify alike. */
  lemma PlainDetermines(a: Shot, b: Shot)
    requires PlainOf(a) == PlainOf(b)
    ensures a.(extensions := b.extensions) == b && a.extensions.Keys == b.extensions.Keys
    ensures forall k :: k in a.extensions ==> Stringify(a.extensions[k]) == Stringify(b.extensions[k])
  {
    hide TextsOf, FieldText;
    var t, u := TextsOf(a), TextsOf(b);
    FieldTexts(a);
    FieldTexts(b);
    var x, y := Stringified(a.extensions), Stringified(b.extensions);
    assert x.Keys == a.extensions.Keys && y.Keys == b.extensions.Keys;
    assert forall k :: k in x ==> x[k] == y[k];
  }

  /** The scalar part of a diff: each field that changed, under its own name, and no other. */
  lemma DiffListsFields(prev: Shot, next: Shot, c: FieldChange)
    ensures c in DiffShots(prev, next).fields <==>
      || (c == FieldChange("account_id", prev.accountId, next.accountId) && prev.accountId != next.accountId)
      || (c == FieldChange("amount", prev.amount, next.amount) && prev.amount != next.amount)
      || (c == (if next.pending then FieldChange("pending", "false", "true")
                else FieldChange("pending", "true", "false")) && prev.pending != next.pending)
      || (c == FieldChange("date", prev.date, next.date) && prev.date != next.date)
      || (c == FieldChange("description", prev.description, next.description) && prev.description != next.description)
      || (c == FieldChange("payee", prev.payee, next.payee) && prev.payee != next.payee)
      || (c == FieldChange("memo", prev.memo, next.memo) && prev.memo != next.memo)
  {
    hide FieldChanges, FieldText;
    ChangesListed(prev, next, FIELDS, c);
    TextsByName(prev);
    TextsByName(next);
  }

  lemma {:induction false} ChangesListed(prev: Shot, next: Shot, fields: seq<string>, c: FieldChange)
    ensures c in FieldChanges(prev, next, fields) <==>
            c.field in fields && c == FieldChange(c.field, FieldText(prev, c.field), FieldText(next, c.field))
            && c.from != c.to
  {
    hide FieldText;
    if fields != [] { ChangesListed(prev, next, fields[1..], c); }
  }

  lemma TextsByName(s: Shot)
    ensures FieldText(s, "account_id") == s.accountId && FieldText(s, "amount") == s.amount
    ensures FieldText(s, "pending") == (if s.pending then "true" else "false") && FieldText(s, "date") == s.date
    ensures FieldText(s, "description") == s.description && FieldText(s, "payee") == s.payee
    ensures FieldText(s, "memo") == s.memo
  {
    FieldsAreDistinct();
    FieldNames();
  }

  lemma FieldNames()
    ensures FIELDS == ["account_id", "amount", "pending", "date", "description", "payee", "memo"]
  {
  }

  lemma FieldTexts(s: Shot)
    ensures forall i :: 0 <= i < 7 ==> FIELDS[i] in TextsOf(s)
    ensures var t := TextsOf(s);
            && t[FIELDS[0]] == s.accountId && t[FIELDS[1]] == s.amount
            && t[FIELDS[2]] == (if s.pending then "true" else "false")
            && t[FIELDS[3]] == s.date && t[FIELDS[4]] == s.description && t[FIELDS[5]] == s.payee
                && t[FIELDS[6]] == s.memo
  {
    FieldsAreDistinct();
  }

  /** A change of an extension's JSON type alone leaves no trace in the diff. */
  lemma TypeChangeIsSilent(s: Shot, key: string, text: string)
    ensures var a, b := s.(extensions := s.extensions[key := Text(text)]),
        s.(extensions := s.extensions[key := Raw(text)]);
            a != b && DiffShots(a, b) == Diff([], NO_PAIRS, NO_PAIRS)
  {
    hide DiffShots;
    var a, b := s.(extensions := s.extensions[key := Text(text)]), s.(extensions := s.extensions[key := Raw(text)]);
    assert a.extensions[key] != b.extensions[key];
    assert Stringified(a.extensions) == Stringified(b.extensions);
    assert TextsOf(a) == TextsOf(b) by { assert forall f :: FieldText(a, f) == FieldText(b, f); }
    SilentExactly(a, b);
  }

  // --- whole histories ---

  ghost predicate IsHistory(versions: seq<Entry>, rows: seq<VersionRow>) {
    |versions| == |rows| && forall i :: 0 <= i < |rows| ==> versions[i] == EntryAt(rows, i)
  }

  /** A reader that starts from the zero snapshot and applies the first n diffs. */
  function Replayed(versions: seq<Entry>, n: nat): Plain
    requires n <= |versions|
  {
    if n == 0 then PlainOf(ZERO) else ApplyDiff(Replayed(versions, n - 1), versions[n - 1].diff)
  }

  /** Replaying the diffs of any history reproduces every snapshot in turn. */
  lemma {:induction false} HistoryReplays(versions: seq<Entry>, rows: seq<VersionRow>, n: nat)
    requires IsHistory(versions, rows) && n <= |rows|
    ensures Replayed(versions, n) == PlainOf(if n == 0 then ZERO else versions[n - 1].shot)
  {
    hide DiffShots, ApplyDiff, PlainOf;
    if n > 0 {
      HistoryReplays(versions, rows, n - 1);
      assert versions[n - 1] == EntryAt(rows, n - 1);
      if n > 1 { assert versions[n - 2] == EntryAt(rows, n - 2); }
      DiffRoundTrip(if n == 1 then ZERO else Decode(rows[n - 2]), Decode(rows[n - 1]));
    }
  }

  function KeepSince(rows: seq<VersionRow>, cutoff: int): seq<VersionRow> {
    if rows == [] then [] else (if rows[0].at < cutoff then [] else [rows[0]]) + KeepSince(rows[1..], cutoff)
  }

  function Expired(rows: seq<VersionRow>, cutoff: int): (n: nat)
    ensures n <= |rows|
  {
    if rows == [] || rows[0].at >= cutoff then 0 else 1 + Expired(rows[1..], cutoff)
  }

  lemma {:induction false} KeepAll(rows: seq<VersionRow>, cutoff: int)
    requires forall i :: 0 <= i < |rows| ==> rows[i].at >= cutoff
    ensures KeepSince(rows, cutoff) == rows
  {
    if rows != [] { KeepAll(rows[1..], cutoff); }
  }

  /** Pruning by age keeps a suffix when versions were recorded in time order. */
  lemma {:induction false} PruneKeepsSuffix(rows: seq<VersionRow>, cutoff: int)
    requires forall i, j :: 0 <= i < j < |rows| ==> rows[i].at <= rows[j].at
    ensures KeepSince(rows, cutoff) == rows[Expired(rows, cutoff)..]
    ensures forall i :: 0 <= i < |rows| ==> (i >= Expired(rows, cutoff) <==> rows[i].at >= cutoff)
  {
    if rows != [] && rows[0].at < cutoff {
      PruneKeepsSuffix(rows[1..], cutoff);
      var rest := KeepSince(rows[1..], cutoff);
      assert [] + rest == rest;
      assert rows[1..][Expired(rows[1..], cutoff)..] == rows[Expired(rows, cutoff)..];
    } else {
      assert forall i :: 0 < i < |rows| ==> rows[0].at <= rows[i].at;
      KeepAll(rows, cutoff);
    }
  }

  lemma EntryOfSuffix(rows: seq<VersionRow>, k: nat, i: nat)
    requires k + i < |rows|
    ensures var e := EntryAt(rows[k..], i);
            && e == EntryAt(rows, k + i).(version := i + 1, diff := e.diff)
            && e.diff == if i == 0 then DiffShots(ZERO, EntryAt(rows, k).shot) else EntryAt(rows, k + i).diff
  {
    hide DiffShots;
  }

  /** The history of what pruning leaves: renumbered from 1, each entry but the first with the diff it had before, and
      the first now read against the zero snapshot. */
  lemma PrunedHistory(versions: seq<Entry>, pruned: seq<Entry>, rows: seq<VersionRow>, cutoff: int)
    requires forall i, j :: 0 <= i < j < |rows| ==> rows[i].at <= rows[j].at
    requires IsHistory(versions, rows) && IsHistory(pruned, KeepSince(rows, cutoff))
    ensures var k := Expired(rows, cutoff);
            && |pruned| == |versions| - k
            && forall i :: 0 <= i < |pruned| ==>
                 && pruned[i] == versions[k + i].(version := i + 1, diff := pruned[i].diff)
                 && pruned[i].diff == if i == 0 then DiffShots(ZERO, versions[k].shot) else versions[k + i].diff
  {
    hide DiffShots, KeepSince, EntryAt, Expired;
    PruneKeepsSuffix(rows, cutoff);
    var k := Expired(rows, cutoff);
    forall i | 0 <= i < |pruned|
      ensures pruned[i] == versions[k + i].(version := i + 1, diff := pruned[i].diff)
      ensures pruned[i].diff == if i == 0 then DiffShots(ZERO, versions[k].shot) else versions[k + i].diff
    {
      EntryOfSuffix(rows, k, i);
      assert versions[k + i] == EntryAt(rows, k + i) && versions[k] == EntryAt(rows, k);
    }
  }
}
