/** What each request does, in terms of what it was given and of the rows it finds: when it is refused, what it stores
    in which field, and what it logs. */
module Requests {
  import opened Text
  import opened Sorting
  import opened Meta
  import opened Amount
  import opened Ledger
  import opened Integrity

  // --- the parts of an input ---

  ghost predicate GoodAmount(given: string) { |Trim(given)| <= 40 && exists body, dot :: Cuts(Trim(given), body, dot) }

  /** The stored text of an amount: the digits and the exact value of the given one, without a plus. */
  predicate StoresAmount(stored: string, given: string) {
    && Matches(stored) && Matches(Trim(given)) && '+' !in stored
    && DigitsOf(stored) == DigitsOf(Trim(given)) && Denote(stored) == Denote(Trim(given))
  }

  lemma AmountRead(given: string)
    ensures ValidateAmount(given).Some? <==> GoodAmount(given)
    ensures ValidateAmount(given).Some? ==> StoresAmount(ValidateAmount(given).value, given) && Trim(given) != ""
  {
    hide Trim, Cuts, Matches, Denote, DigitsOf;
    AcceptsExactly(given);
    if ValidateAmount(given).Some? { CanonicalKeepsValue(given); }
  }

  predicate InYears(time: int) { -62167219200 <= time <= 253402300799 }

  function DateOr(given: DateInput, otherwise: int): int { if given.At? then given.time else otherwise }

  // --- what a request adds to the log and to a history ---

  /** One event more, and which. */
  predicate LogsOne(s: Ledger, r: Ledger, d: Data) { r.log == s.log + [d] }

  ghost predicate LogsAccount(s: Ledger, r: Ledger, id: string, created: bool) {
    exists d :: LogsOne(s, r, d) && (if created then d.AccountCreated? else d.AccountUpdated?)
        && d.id == id && id in r.accounts && Describes(d.account, r.accounts[id])
  }

  ghost predicate LogsTxn(s: Ledger, r: Ledger, id: string, created: bool) {
    exists d :: LogsOne(s, r, d) && (if created then d.TxnCreated? else d.TxnUpdated?)
        && d.id == id && id in r.txns && Shows(s.env.codec, d.txn, r.txns[id])
  }

  /** The history of `id` gains a version that shows the row as it is, after a baseline that shows the row as it was if
      it had no history; no other history changes. */
  ghost predicate Versioned(s: Ledger, r: Ledger, id: string, kind: ChangeKind) {
    && id in s.txns && id in r.txns
    && r.versions.Keys == s.versions.Keys + {id}
    && (forall x :: x in s.versions && x != id ==> r.versions[x] == s.versions[x])
    && exists first: Snapshot, next: Snapshot ::
         && Shows(s.env.codec, first, s.txns[id]) && Shows(s.env.codec, next, r.txns[id])
         && r.versions[id] == (if VersionsOf(s, id) == [] then [Version(Imported, first)] else s.versions[id])
                              + [Version(kind, next)]
  }

  lemma ChangeVersions(s: Ledger, m: Ledger, id: string, t: Txn, next: Txn, kind: ChangeKind)
    requires id in s.txns && m.versions == s.versions && m.txns == s.txns[id := next] && t == s.txns[id]
    ensures Versioned(s, VersionChange(m, id, Snap(s.env.codec, t), Snap(s.env.codec, next), kind), id, kind)
  {
    hide Shows, Snap;
    SnapshotShows(s.env.codec, t);
    SnapshotShows(s.env.codec, next);
    var first, last := Snap(s.env.codec, t), Snap(s.env.codec, next);
    var r := VersionChange(m, id, first, last, kind);
    assert r.versions[id] == (if VersionsOf(s, id) == [] then [Version(Imported, first)] else s.versions[id])
                             + [Version(kind, last)];
  }

  // --- accounts ---

  ghost predicate BadAccount(input: AccountInput) {
    || Trim(input.name) == "" || Trim(input.currency) == ""
    || (Trim(input.balance) != "" && !GoodAmount(input.balance))
    || input.balanceDate.Malformed?
  }

  /** The row an input makes, with what stands for a blank balance and an omitted date. */
  ghost predicate AccountRow(a: Account, input: AccountInput, balance: string, date: int, now: int) {
    && a.name == Trim(input.name) && a.currency == Trim(input.currency)
    && (if Trim(input.balance) == "" then a.balance == balance else StoresAmount(a.balance, input.balance))
    && a.balanceDate == DateOr(input.balanceDate, date) && a.syncedAt == now
  }

  lemma AccountRead(input: AccountInput, prev: Account, now: int)
    ensures var a := ReadAccount(input, prev, now);
            && (a.None? <==> BadAccount(input))
            && (a.Some? ==> AccountRow(a.value, input, prev.balance, prev.balanceDate, now)
                            && a.value.orgId == prev.orgId && a.value.source == prev.source)
  {
    hide Trim, ValidateAmount, GoodAmount, StoresAmount;
    AmountRead(input.balance);
  }

  /** No account but `id` changes, and nothing but accounts and the log. */
  ghost predicate AccountOnly(s: Ledger, r: Ledger, id: string) {
    && r == s.(accounts := r.accounts, log := r.log) && r.accounts.Keys == s.accounts.Keys + {id}
    && forall x :: x in s.accounts && x != id ==> r.accounts[x] == s.accounts[x]
  }

  lemma CreateAccountDoes(s: Ledger, id: string, input: AccountInput, now: int)
    ensures var (r, out) := CreateAccount(s, id, input, now);
            && (out == Invalid <==> BadAccount(input))
            && (out == Failed <==> !BadAccount(input) && !InYears(DateOr(input.balanceDate, now)))
            && (out == Done <==> !BadAccount(input) && InYears(DateOr(input.balanceDate, now)))
            && (if out == Done then
                  && AccountOnly(s, r, id) && LogsAccount(s, r, id, true)
                  && AccountRow(r.accounts[id], input, "0", now, now)
                  && r.accounts[id].orgId == "manual"
                  && r.accounts[id].source == (if id in s.accounts then s.accounts[id].source else "manual")
                else r == s)
  {
    hide ReadAccount, BadAccount, Trim, GoodAmount, StoresAmount;
    AccountRead(input, Account(MANUAL_ORG, "", "", "0", now, now, MANUAL), now);
    var (r, out) := CreateAccount(s, id, input, now);
    if out == Done { assert LogsOne(s, r, AccountCreated(id, AccountSnap(r.accounts[id]))); }
  }

  lemma UpdateAccountDoes(s: Ledger, id: string, input: AccountInput, now: int)
    ensures var (r, out) := UpdateAccount(s, id, input, now);
            && (out == Invalid <==> BadAccount(input))
            && (out == NotFound <==> !BadAccount(input) && id !in s.accounts)
            && (out == ReadOnly <==> !BadAccount(input) && id in s.accounts && s.accounts[id].source != "manual")
            && (out == Failed <==> !BadAccount(input) && id in s.accounts && s.accounts[id].source == "manual"
                                   && !InYears(DateOr(input.balanceDate, s.accounts[id].balanceDate)))
            && (out == Done <==> !BadAccount(input) && id in s.accounts && s.accounts[id].source == "manual"
                                 && InYears(DateOr(input.balanceDate, s.accounts[id].balanceDate)))
            && (if out == Done then
                  && AccountOnly(s, r, id) && LogsAccount(s, r, id, false)
                  && AccountRow(r.accounts[id], input, s.accounts[id].balance, s.accounts[id].balanceDate, now)
                  && r.accounts[id].orgId == s.accounts[id].orgId && r.accounts[id].source == "manual"
                else r == s)
  {
    hide ReadAccount, BadAccount, Trim, GoodAmount, StoresAmount;
    AccountRead(input, Account("", "", "", "", 0, 0, ""), now);
    if id in s.accounts {
      AccountRead(input, s.accounts[id], now);
      var (r, out) := UpdateAccount(s, id, input, now);
      if out == Done { assert LogsOne(s, r, AccountUpdated(id, AccountSnap(r.accounts[id]))); }
    }
  }

  /** Only a manual account is deleted; a refusal changes nothing. */
  lemma DeleteAccountRefuses(s: Ledger, id: string)
    ensures var (r, out) := DeleteAccount(s, id);
            && (out == NotFound <==> id !in s.accounts)
            && (out == ReadOnly <==> id in s.accounts && s.accounts[id].source != "manual")
            && (out == Done <==> id in s.accounts && s.accounts[id].source == "manual")
            && (out != Done ==> r == s)
  {
    hide DropAllChildren;
  }

  // --- transactions ---

  ghost predicate BadTxn(input: TxnInput) {
    Trim(input.accountId) == "" || !GoodAmount(input.amount) || !input.date.At?
  }

  ghost predicate CoreRow(c: Core, input: TxnInput) {
    && c.accountId == Trim(input.accountId) && StoresAmount(c.amount, input.amount)
    && c.pending == input.pending && At(c.date) == input.date
    && c.description == Trim(input.description) && c.payee == Trim(input.payee) && c.memo == Trim(input.memo)
  }

  lemma TxnRead(input: TxnInput)
    ensures ReadTxn(input).None? <==> BadTxn(input)
    ensures ReadTxn(input).Some? ==> CoreRow(ReadTxn(input).value, input)
  {
    hide Trim, ValidateAmount, GoodAmount, StoresAmount;
    AmountRead(input.amount);
  }

  /** No row but `id` changes, and no account. */
  ghost predicate TxnOnly(s: Ledger, r: Ledger, id: string) {
    && r == s.(txns := r.txns, versions := r.versions, log := r.log) && r.txns.Keys == s.txns.Keys + {id}
    && forall x :: x in s.txns && x != id ==> r.txns[x] == s.txns[x]
  }

  /** A create stores the input field by field, with no labels, extensions or edges, as the first version of its
      history. */
  lemma CreateTxnDoes(s: Ledger, id: string, input: TxnInput, now: int)
    ensures var (r, out) := CreateTxn(s, id, input, now);
            var bad := BadTxn(input) || Trim(input.accountId) !in s.accounts;
            && (out == Invalid <==> bad)
            && (out == Failed <==> !bad && (id in s.txns || !InYears(input.date.time)))
            && (out == Done <==> !bad && id !in s.txns && InYears(input.date.time))
            && (if out == Done then
                  && TxnOnly(s, r, id) && LogsTxn(s, r, id, true)
                  && CoreRow(r.txns[id].core, input) && r.txns[id].syncedAt == now && r.txns[id].source == "manual"
                  && r.txns[id].labels == map[] && r.txns[id].extensions == map[] && r.txns[id].edges == []
                  && r.versions.Keys == s.versions.Keys + {id}
                  && (forall x :: x in s.versions && x != id ==> r.versions[x] == s.versions[x])
                  && (exists p :: Shows(s.env.codec, p, r.txns[id])
                                  && r.versions[id] == VersionsOf(s, id) + [Version(Imported, p)])
                else r == s)
  {
    hide ReadTxn, BadTxn, Trim, GoodAmount, StoresAmount, Shows, Snap;
    TxnRead(input);
    BadTxnDates(input);
    var (r, out) := CreateTxn(s, id, input, now);
    if out == Done {
      SnapshotShows(s.env.codec, r.txns[id]);
      assert LogsOne(s, r, TxnCreated(id, Snap(s.env.codec, r.txns[id])));
    }
  }

  lemma BadTxnDates(input: TxnInput)
    ensures !BadTxn(input) ==> input.date.At?
  {
  }

  /** An edit stores the input field by field over the core, and leaves the rest of the row alone. */
  lemma UpdateTxnDoes(s: Ledger, id: string, input: TxnInput, now: int)
    ensures var (r, out) := UpdateTxn(s, id, input, now);
            var bad := BadTxn(input);
            var lost := Trim(input.accountId) !in s.accounts;
            var mine := id in s.txns && s.txns[id].source == "manual";
            && (out == Invalid <==> bad || (mine && lost))
            && (out == NotFound <==> !bad && id !in s.txns)
            && (out == ReadOnly <==> !bad && id in s.txns && !mine)
            && (out == Failed <==> !bad && mine && !lost && !InYears(input.date.time))
            && (out == Done <==> !bad && mine && !lost && InYears(input.date.time))
            && (if out == Done then
                  && TxnOnly(s, r, id) && LogsTxn(s, r, id, false) && Versioned(s, r, id, Edited)
                  && CoreRow(r.txns[id].core, input) && r.txns[id].syncedAt == now && r.txns[id].source == "manual"
                  && r.txns[id].labels == s.txns[id].labels && r.txns[id].extensions == s.txns[id].extensions
                  && r.txns[id].edges == s.txns[id].edges
                else r == s)
  {
    hide ReadTxn, BadTxn, Trim, GoodAmount, StoresAmount, Shows, Snap, Versioned;
    TxnRead(input);
    BadTxnDates(input);
    var (r, out) := UpdateTxn(s, id, input, now);
    if out == Done {
      var c := s.env.codec;
      SnapshotShows(c, r.txns[id]);
      var m := Emit(s.(txns := r.txns), TxnUpdated(id, Snap(c, r.txns[id])));
      assert r == VersionChange(m, id, Snap(c, s.txns[id]), Snap(c, r.txns[id]), Edited);
      ChangeVersions(s, m, id, s.txns[id], r.txns[id], Edited);
      assert LogsOne(s, r, TxnUpdated(id, Snap(c, r.txns[id])));
    }
  }

  /** A delete takes the row, its history and the edges into it, and tells of the row as it last was. */
  lemma DeleteTxnDoes(s: Ledger, id: string)
    requires Sound(s)
    ensures var (r, out) := DeleteTxn(s, id);
            && (out == NotFound <==> id !in s.txns)
            && (out == ReadOnly <==> id in s.txns && s.txns[id].source != "manual")
            && (out == Done <==> id in s.txns && s.txns[id].source == "manual")
            && (if out == Done then
                  && r.txns.Keys == s.txns.Keys - {id} && r.versions == s.versions - {id} && r.accounts == s.accounts
                  && (forall x :: x in r.txns ==> Unlinked(s.txns[x], r.txns[x], id))
                  && r.log != [] && r.log[|r.log| - 1].TxnDeleted? && r.log[|r.log| - 1].id == id
                  && Shows(s.env.codec, r.log[|r.log| - 1].txn, s.txns[id])
                else r == s)
  {
    hide Sound, StripInbound, RelatedIds, Shows, Unlinked;
    if id in s.txns {
      DropTxnIs(s, id, s.txns[id]);
      SnapshotShows(s.env.codec, s.txns[id]);
      forall x | x in s.txns && x != id ensures Unlinked(s.txns[x], DropTxn(s, id, s.txns[id]).txns[x], id) {
        DroppedUnlinks(s, DropTxn(s, id, s.txns[id]), id, x);
      }
    }
  }

  /** The same row without its edges into `target`. */
  ghost predicate Unlinked(a: Txn, b: Txn, target: string) {
    && b == a.(edges := b.edges)
    && forall e :: e in b.edges <==> e in a.edges && e.target != target
  }

  lemma DroppedUnlinks(s: Ledger, r: Ledger, id: string, x: string)
    requires Dropped(s, r, {id}) && x in s.txns && x != id
    ensures Unlinked(s.txns[x], r.txns[x], id)
  {
    assert x in r.txns;
    forall e ensures e in r.txns[x].edges <==> e in s.txns[x].edges && e.target != id {
      assert e in r.txns[x].edges <==> e in Elems(r.txns[x].edges);
    }
  }

  // --- labels and extensions ---

  /** What a per-key diff must say: one event for each key that is new or has a new value, with the new value, and one
      for each key that is gone, with the value it had. */
  predicate TellsOf(d: Data, id: string, seam: Seam, prev: Pairs, next: Pairs) {
    match d
    case PairSet(x, side, k, v) =>
      x == id && side == seam && k in next && next[k] == v && !(k in prev && prev[k] == v)
    case PairRemoved(x, side, k, v) => x == id && side == seam && k in prev && prev[k] == v && k !in next
    case _ => false
  }

  predicate NoEmptyValue(m: Pairs) { forall k :: k in m ==> m[k] != "" }

  /** One event for each key that differs, and no other, in whatever order the keys are ranged. */
  lemma DiffTells(order: RangeOrder, n: nat, id: string, seam: Seam, prev: Pairs, next: Pairs)
    requires NoEmptyValue(next)
    ensures var ds := PairDiff(order, n, id, seam, prev, next);
            Distinct(ds) && forall d :: d in ds <==> TellsOf(d, id, seam, prev, next)
  {
    hide Enumerates, TellsOf, TellsSet, TellsRemoved, NoEmptyValue, Distinct;
    RangedKeys(order, n, next.Keys);
    var keys := order(n, next.Keys);
    var put := SetEvents(id, seam, prev, next, keys);
    RangedKeys(order, n + |put|, prev.Keys);
    var gone := order(n + |put|, prev.Keys);
    var drop := RemovedEvents(id, seam, prev, next, gone);
    SetEventsTell(id, seam, prev, next, keys);
    RemovedEventsTell(id, seam, prev, next, gone);
    forall d ensures TellsOf(d, id, seam, prev, next) <==>
                     TellsSet(d, id, seam, prev, next, keys) || TellsRemoved(d, id, seam, prev, next, gone)
             ensures !(TellsSet(d, id, seam, prev, next, keys) && TellsRemoved(d, id, seam, prev, next, gone))
    {
      TellsSplit(d, id, seam, prev, next, keys, gone);
    }
    DistinctJoin(put, drop);
    assert PairDiff(order, n, id, seam, prev, next) == put + drop;
  }

  lemma TellsSplit(d: Data, id: string, seam: Seam, prev: Pairs, next: Pairs, keys: seq<string>, gone: seq<string>)
    requires NoEmptyValue(next) && (forall k :: k in keys <==> k in next) && forall k :: k in gone <==> k in prev
    ensures TellsOf(d, id, seam, prev, next) <==>
            TellsSet(d, id, seam, prev, next, keys) || TellsRemoved(d, id, seam, prev, next, gone)
    ensures !(TellsSet(d, id, seam, prev, next, keys) && TellsRemoved(d, id, seam, prev, next, gone))
  {
  }

  lemma RangedKeys(order: RangeOrder, n: nat, s: set<string>)
    ensures Distinct(order(n, s)) && forall k :: k in order(n, s) <==> k in s
  {
    assert Enumerates(order(n, s), s);
  }

  lemma DistinctJoin<T>(a: seq<T>, b: seq<T>)
    requires Distinct(a) && Distinct(b) && forall d :: d in a ==> d !in b
    ensures Distinct(a + b)
  {
    var c := a + b;
    forall i, j | 0 <= i < j < |c| ensures c[i] != c[j] {
      if i < |a| { assert c[i] in a; }
      if j >= |a| { assert c[j] in b; }
    }
  }

  predicate TellsSet(d: Data, id: string, seam: Seam, prev: Pairs, next: Pairs, keys: seq<string>) {
    && d.PairSet? && d.id == id && d.seam == seam && d.key in keys
    && d.key in next && d.value == next[d.key] && Differs(seam, prev, d.key, next[d.key])
  }

  predicate TellsRemoved(d: Data, id: string, seam: Seam, prev: Pairs, next: Pairs, keys: seq<string>) {
    && d.PairRemoved? && d.id == id && d.seam == seam && d.key in keys
    && d.key in prev && d.value == prev[d.key] && d.key !in next
  }

  lemma {:induction false} SetEventsTell(id: string, seam: Seam, prev: Pairs, next: Pairs, keys: seq<string>)
    requires (forall k :: k in keys ==> k in next) && Distinct(keys)
    ensures var ds := SetEvents(id, seam, prev, next, keys);
            Distinct(ds) && forall d :: d in ds <==> TellsSet(d, id, seam, prev, next, keys)
  {
    hide Differs, Distinct;
    if keys == [] {
      NoneTwice<Data>();
    } else {
      var k, rest := keys[0], SetEvents(id, seam, prev, next, keys[1..]);
      HeadIsNew(keys);
      SetEventsTell(id, seam, prev, next, keys[1..]);
      DistinctHead(PairSet(id, seam, k, next[k]), rest);
      assert [] + rest == rest;
      assert forall d :: TellsSet(d, id, seam, prev, next, keys) <==>
        (d == PairSet(id, seam, k, next[k]) && Differs(seam, prev, k, next[k]))
        || TellsSet(d, id, seam, prev, next, keys[1..]);
    }
  }

  lemma {:induction false} RemovedEventsTell(id: string, seam: Seam, prev: Pairs, next: Pairs, keys: seq<string>)
    requires (forall k :: k in keys ==> k in prev) && Distinct(keys)
    ensures var ds := RemovedEvents(id, seam, prev, next, keys);
            Distinct(ds) && forall d :: d in ds <==> TellsRemoved(d, id, seam, prev, next, keys)
  {
    hide Distinct;
    if keys == [] {
      NoneTwice<Data>();
    } else {
      var k, rest := keys[0], RemovedEvents(id, seam, prev, next, keys[1..]);
      HeadIsNew(keys);
      RemovedEventsTell(id, seam, prev, next, keys[1..]);
      DistinctHead(PairRemoved(id, seam, k, prev[k]), rest);
      assert [] + rest == rest;
      assert forall d :: TellsRemoved(d, id, seam, prev, next, keys) <==>
        (d == PairRemoved(id, seam, k, prev[k]) && k !in next) || TellsRemoved(d, id, seam, prev, next, keys[1..]);
    }
  }

  lemma NoneTwice<T>()
    ensures Distinct<T>([])
  {
  }

  lemma HeadIsNew<T>(xs: seq<T>)
    requires Distinct(xs) && xs != []
    ensures Distinct(xs[1..]) && xs[0] !in xs[1..] && forall x :: x in xs <==> x == xs[0] || x in xs[1..]
  {
  }

  lemma DistinctHead<T>(x: T, xs: seq<T>)
    requires Distinct(xs)
    ensures x !in xs ==> Distinct([x] + xs)
  {
  }

  /** A replaced set is what the input normalizes to; the other set and the rest of the row stay; every changed key is
      told of once, and the history gains the row as it is. */
  lemma SetPairsDoes(s: Ledger, id: string, seam: Seam, input: Pairs)
    ensures var (r, out) := SetPairs(s, id, seam, input);
            && (out == NotFound <==> id !in s.txns) && (out == Done <==> id in s.txns)
            && (out == NotFound ==> r == s)
            && (out == Done ==>
                  && TxnOnly(s, r, id) && Versioned(s, r, id, if seam.LabelSeam? then Labeled else Extended)
                  && var n, t := Normalize(seam, input), s.txns[id];
                     && r.txns[id] == (if seam.LabelSeam? then t.(labels := n) else t.(extensions := n))
                     && s.log <= r.log && Distinct(r.log[|s.log|..])
                     && forall d :: d in r.log[|s.log|..] <==>
                          TellsOf(d, id, seam, if seam.LabelSeam? then t.labels else t.extensions, n))
  {
    hide Normalize, PairDiff, TellsOf, Shows, Snap, Versioned, Distinct;
    if id in s.txns {
      var t, n := s.txns[id], Normalize(seam, input);
      NormalHasNoEmpty(seam, input);
      DiffTells(s.env.order, |s.log|, id, seam, PairsOf(t, seam), n);
      var ds := PairDiff(s.env.order, |s.log|, id, seam, PairsOf(t, seam), n);
      var m := s.(txns := s.txns[id := WithPairs(t, seam, n)], log := s.log + ds);
      ChangeVersions(s, m, id, t, WithPairs(t, seam, n), if seam.LabelSeam? then Labeled else Extended);
      assert m.log[|s.log|..] == ds;
    }
  }

  lemma NormalHasNoEmpty(seam: Seam, input: Pairs)
    ensures NoEmptyValue(Normalize(seam, input))
  {
    hide CleanKeyOf, CleanValueOf, Normalize;
    NormalizeIsNormal(seam, input);
  }

  // --- a label everywhere ---

  /** The label goes from every row that carries it (with that value, when one is given), and from no other; one event
      counts them. */
  lemma DeleteLabelDoes(s: Ledger, rawKey: string, rawValue: Option<string>)
    ensures var (r, out) := DeleteLabel(s, rawKey, rawValue);
            var key := CleanKeyOf(LabelSeam, rawKey);
            var value := if rawValue.None? then "" else CleanValueOf(LabelSeam, rawValue.value);
            && (out == Invalid <==> key == "") && (out == Done <==> key != "") && (out == Invalid ==> r == s)
            && (out == Done ==>
                  && r == s.(txns := r.txns, log := r.log) && r.txns.Keys == s.txns.Keys
                  && (forall x :: x in s.txns ==>
                        r.txns[x] == if Has(s.txns[x], key, value, rawValue.None?)
                                     then s.txns[x].(labels := s.txns[x].labels - {key}) else s.txns[x])
                  && var n := |set x | x in s.txns && Has(s.txns[x], key, value, rawValue.None?)|;
                     r.log == s.log + (if n == 0 then [] else [LabelDeleted(key, value, n)]))
  {
    hide CleanKeyOf, CleanValueOf;
    var key := CleanKeyOf(LabelSeam, rawKey);
    var want := if rawValue.None? then None else Some(CleanValueOf(LabelSeam, rawValue.value));
    var value := if rawValue.None? then "" else CleanValueOf(LabelSeam, rawValue.value);
    var all := set x | x in s.txns && Has(s.txns[x], key, value, rawValue.None?);
    assert Carriers(s.txns, key, want) == all;
    if all == {} { assert forall x :: x in s.txns ==> x !in all; }
  }

  predicate Has(t: Txn, key: string, value: string, anyValue: bool) {
    key in t.labels && (anyValue || t.labels[key] == value)
  }
}
