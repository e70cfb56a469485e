/** Event sourcing: a consumer that folds the log holds the tables. */
module Replay {
  import opened Text
  import opened Sorting
  import opened Meta
  import opened Edges
  import opened Amount
  import opened Ledger
  import opened Integrity

  /** What the events carry of a transaction: no sync time, no source; edges by identity. */
  datatype TxnView = TxnView(core: Core, labels: Pairs, extensions: Pairs, edges: set<Edge>)
  datatype AccountView = AccountView(
    name: string, currency: string, balance: string, balanceDate: int, orgId: string, source: string)
  datatype View = View(accounts: map<string, AccountView>, txns: map<string, TxnView>)

  /** An account as an event's payload describes it, and as the row holds it. */
  function Reported(a: AccountSnapshot): AccountView {
    AccountView(
      name := a.name, currency := a.currency, balance := a.balance, balanceDate := a.balanceDate, orgId := a.orgId,
      source := a.source)
  }

  function Held(a: Account): AccountView {
    AccountView(
      name := a.name, currency := a.currency, balance := a.balance, balanceDate := a.balanceDate, orgId := a.orgId,
      source := a.source)
  }

  function ViewPairs(t: TxnView, seam: Seam): Pairs { if seam.LabelSeam? then t.labels else t.extensions }

  function PutPairs(v: View, id: string, seam: Seam, m: Pairs): View
    requires id in v.txns
  {
    var t := v.txns[id];
    v.(txns := v.txns[id := if seam.LabelSeam? then t.(labels := m) else t.(extensions := m)])
  }

  function PutEdges(v: View, id: string, es: set<Edge>): View
    requires id in v.txns
  {
    v.(txns := v.txns[id := v.txns[id].(edges := es)])
  }

  function DropViewLabel(t: TxnView, key: string, value: string): TxnView {
    if key in t.labels && (value == "" || t.labels[key] == value) then t.(labels := t.labels - {key}) else t
  }

  /** A consumer's handling of one event. A core edit touches neither labels nor extensions, so of its snapshot a
      consumer takes the core fields: the extensions in it are decoded values, not the stored ones. */
  function Consume(v: View, d: Data): View {
    match d
    case AccountCreated(id, a) => v.(accounts := v.accounts[id := Reported(a)])
    case AccountUpdated(id, a) => v.(accounts := v.accounts[id := Reported(a)])
    case AccountDeleted(id, _) => v.(accounts := v.accounts - {id})
    case TxnCreated(id, t) => v.(txns := v.txns[id := TxnView(t.core, t.labels, t.extensions, {})])
    case TxnUpdated(id, t) =>
      if id in v.txns then v.(txns := v.txns[id := v.txns[id].(core := t.core)])
      else v.(txns := v.txns[id := TxnView(t.core, t.labels, t.extensions, {})])
    case TxnDeleted(id, _) => v.(txns := v.txns - {id})
    case PairSet(id, seam, k, value) =>
      if id in v.txns then PutPairs(v, id, seam, ViewPairs(v.txns[id], seam)[k := value]) else v
    case PairRemoved(id, seam, k, _) =>
      if id in v.txns then PutPairs(v, id, seam, ViewPairs(v.txns[id], seam) - {k}) else v
    case EdgeCreated(id, e) => if id in v.txns then PutEdges(v, id, v.txns[id].edges + {e}) else v
    case EdgeRemoved(id, e) => if id in v.txns then PutEdges(v, id, v.txns[id].edges - {e}) else v
    case LabelDeleted(key, value, _) => v.(txns := map id | id in v.txns :: DropViewLabel(v.txns[id], key, value))
    case RuleExecuted(_, _, _) => v
    case RuleReverted(_, _, _) => v
  }

  function Fold(v: View, ds: seq<Data>): View
    decreases |ds|
  {
    if ds == [] then v else Fold(Consume(v, ds[0]), ds[1..])
  }

  ghost function TxnViewOf(t: Txn): TxnView { TxnView(t.core, t.labels, t.extensions, Elems(t.edges)) }

  /** What a consumer should hold. */
  ghost function ViewOf(s: Ledger): View {
    View(map a | a in s.accounts :: Held(s.accounts[a]), map x | x in s.txns :: TxnViewOf(s.txns[x]))
  }

  /** `r` only appends to the log of `s`, and a consumer in step with `s` is brought into step with `r`. */
  ghost predicate Tracks(s: Ledger, r: Ledger) {
    s.log <= r.log && Fold(ViewOf(s), r.log[|s.log|..]) == ViewOf(r)
  }

  lemma {:induction false} FoldConcat(v: View, a: seq<Data>, b: seq<Data>)
    ensures Fold(v, a + b) == Fold(Fold(v, a), b)
    decreases |a|
  {
    hide Consume;
    if a == [] {
      assert a + b == b;
    } else {
      assert (a + b)[0] == a[0] && (a + b)[1..] == a[1..] + b;
      FoldConcat(Consume(v, a[0]), a[1..], b);
    }
  }

  lemma FoldCons(v: View, d: Data, ds: seq<Data>)
    ensures Fold(v, [d] + ds) == Fold(Consume(v, d), ds)
  {
    hide Consume;
    assert ([d] + ds)[1..] == ds;
  }

  lemma FoldOne(v: View, d: Data)
    ensures Fold(v, [d]) == Consume(v, d)
  {
    hide Consume;
    assert Fold(v, [d]) == Fold(Consume(v, d), [d][1..]);
  }

  lemma TracksAppend(s: Ledger, r: Ledger, ds: seq<Data>)
    requires r.log == s.log + ds && Fold(ViewOf(s), ds) == ViewOf(r)
    ensures Tracks(s, r)
  {
    hide Fold, ViewOf;
    assert r.log[|s.log|..] == ds;
  }

  lemma TracksTransitive(s: Ledger, m: Ledger, r: Ledger)
    requires Tracks(s, m) && Tracks(m, r)
    ensures Tracks(s, r)
  {
    hide Fold, ViewOf;
    FoldConcat(ViewOf(s), m.log[|s.log|..], r.log[|m.log|..]);
    assert r.log[|s.log|..] == m.log[|s.log|..] + r.log[|m.log|..];
  }

  lemma TracksSelf(s: Ledger)
    ensures Tracks(s, s)
  {
    hide ViewOf;
  }

  // --- per-key diffs, in whatever order the keys come ---

  function Changes(seam: Seam, prev: Pairs, next: Pairs, keys: seq<string>): Pairs
    requires forall k :: k in keys ==> k in next
  {
    map k | k in keys && Differs(seam, prev, k, next[k]) :: next[k]
  }

  lemma {:induction false} SetEventsFold(v: View, id: string, seam: Seam, prev: Pairs, next: Pairs, keys: seq<string>,
      m: Pairs)
    requires id in v.txns && ViewPairs(v.txns[id], seam) == m && forall k :: k in keys ==> k in next
    ensures Fold(v, SetEvents(id, seam, prev, next, keys))
            == PutPairs(v, id, seam, m + Changes(seam, prev, next, keys))
    decreases |keys|
  {
    hide Differs, Fold, PutPairs, ViewPairs, Changes;
    PutPairsLaws(v, id, seam, m, m + Changes(seam, prev, next, keys));
    ChangesStep(seam, prev, next, keys, m);
    if keys == [] {
      FoldNothing(v);
    } else {
      var k0, tail := keys[0], SetEvents(id, seam, prev, next, keys[1..]);
      var m' := if Differs(seam, prev, k0, next[k0]) then m[k0 := next[k0]] else m;
      PutPairsLaws(v, id, seam, m', m' + Changes(seam, prev, next, keys[1..]));
      SetEventsFold(PutPairs(v, id, seam, m'), id, seam, prev, next, keys[1..], m');
      FoldCons(v, PairSet(id, seam, k0, next[k0]), tail);
      assert [] + tail == tail;
    }
  }

  lemma ChangesStep(seam: Seam, prev: Pairs, next: Pairs, keys: seq<string>, m: Pairs)
    requires forall k :: k in keys ==> k in next
    ensures keys == [] ==> m + Changes(seam, prev, next, keys) == m
    ensures keys != [] ==>
              m + Changes(seam, prev, next, keys) ==
              (if Differs(seam, prev, keys[0], next[keys[0]]) then m[keys[0] := next[keys[0]]] else m)
              + Changes(seam, prev, next, keys[1..])
  {
    hide Differs;
    if keys != [] {
      assert forall k :: k in keys <==> k == keys[0] || k in keys[1..];
      var rest, whole := Changes(seam, prev, next, keys[1..]), Changes(seam, prev, next, keys);
      if Differs(seam, prev, keys[0], next[keys[0]]) {
        assert whole.Keys == rest.Keys + {keys[0]};
      } else {
        assert whole == rest;
      }
    }
  }

  lemma PutPairsLaws(v: View, id: string, seam: Seam, a: Pairs, b: Pairs)
    requires id in v.txns
    ensures PutPairs(v, id, seam, a).txns.Keys == v.txns.Keys
    ensures ViewPairs(PutPairs(v, id, seam, a).txns[id], seam) == a
    ensures PutPairs(PutPairs(v, id, seam, a), id, seam, b) == PutPairs(v, id, seam, b)
    ensures PutPairs(v, id, seam, ViewPairs(v.txns[id], seam)) == v
  {
  }

  lemma FoldNothing(v: View)
    ensures Fold(v, []) == v
  {
  }

  lemma {:induction false} RemovedEventsFold(v: View, id: string, seam: Seam, prev: Pairs, next: Pairs,
      keys: seq<string>, m: Pairs)
    requires id in v.txns && ViewPairs(v.txns[id], seam) == m && forall k :: k in keys ==> k in prev
    ensures Fold(v, RemovedEvents(id, seam, prev, next, keys)) == PutPairs(v, id, seam, m - (Elems(keys) - next.Keys))
    decreases |keys|
  {
    hide Fold;
    if keys == [] {
      assert m - (Elems(keys) - next.Keys) == m;
      FoldNothing(v);
    } else {
      var k0 := keys[0];
      var tail := RemovedEvents(id, seam, prev, next, keys[1..]);
      assert Elems(keys) == {k0} + Elems(keys[1..]);
      if k0 !in next {
        RemovedEventsFold(PutPairs(v, id, seam, m - {k0}), id, seam, prev, next, keys[1..], m - {k0});
        FoldCons(v, PairRemoved(id, seam, k0, prev[k0]), tail);
        assert (m - {k0}) - (Elems(keys[1..]) - next.Keys) == m - (Elems(keys) - next.Keys);
      } else {
        RemovedEventsFold(v, id, seam, prev, next, keys[1..], m);
        assert [] + tail == tail;
        assert Elems(keys[1..]) - next.Keys == Elems(keys) - next.Keys;
      }
    }
  }

  /** Folding a per-key diff turns the old pairs into the new ones, whatever order the keys are ranged in,
      exactly when no added label is empty: a label diff reads a missing key as "" and says nothing of it. */
  lemma PairDiffFolds(v: View, order: RangeOrder, n: nat, id: string, seam: Seam, prev: Pairs, next: Pairs)
    requires id in v.txns && ViewPairs(v.txns[id], seam) == prev
    ensures Fold(v, PairDiff(order, n, id, seam, prev, next)) == PutPairs(v, id, seam, next)
            <==> !(seam.LabelSeam? && exists k :: k in next && k !in prev && next[k] == "")
  {
    hide Fold, Enumerates, Differs, PutPairs;
    RangedEnumerates(order, n, next.Keys);
    var keys := order(n, next.Keys);
    var gone := order(n + |SetEvents(id, seam, prev, next, keys)|, prev.Keys);
    RangedEnumerates(order, n + |SetEvents(id, seam, prev, next, keys)|, prev.Keys);
    PairDiffFoldsTo(v, id, seam, prev, next, keys, gone);
    DiffResult(seam, prev, next, keys, gone);
    PutPairsInjective(v, id, seam, (prev + Changes(seam, prev, next, keys)) - (Elems(gone) - next.Keys), next);
  }

  lemma RangedEnumerates(order: RangeOrder, n: nat, s: set<string>)
    ensures Enumerates(order(n, s), s)
    ensures forall k :: k in order(n, s) ==> k in s
  {
  }

  lemma PutPairsInjective(v: View, id: string, seam: Seam, a: Pairs, b: Pairs)
    requires id in v.txns
    ensures PutPairs(v, id, seam, a) == PutPairs(v, id, seam, b) <==> a == b
  {
    assert ViewPairs(PutPairs(v, id, seam, a).txns[id], seam) == a;
    assert ViewPairs(PutPairs(v, id, seam, b).txns[id], seam) == b;
  }

  lemma PairDiffFoldsTo(v: View, id: string, seam: Seam, prev: Pairs, next: Pairs, keys: seq<string>, gone: seq<string>)
    requires id in v.txns && ViewPairs(v.txns[id], seam) == prev
    requires (forall k :: k in keys ==> k in next) && (forall k :: k in gone ==> k in prev)
    ensures Fold(v, SetEvents(id, seam, prev, next, keys) + RemovedEvents(id, seam, prev, next, gone))
            == PutPairs(v, id, seam, (prev + Changes(seam, prev, next, keys)) - (Elems(gone) - next.Keys))
  {
    hide Fold, SetEvents, RemovedEvents, Changes;
    var m := prev + Changes(seam, prev, next, keys);
    FoldConcat(v, SetEvents(id, seam, prev, next, keys), RemovedEvents(id, seam, prev, next, gone));
    SetEventsFold(v, id, seam, prev, next, keys, prev);
    RemovedEventsFold(PutPairs(v, id, seam, m), id, seam, prev, next, gone, m);
  }

  lemma DiffResult(seam: Seam, prev: Pairs, next: Pairs, keys: seq<string>, gone: seq<string>)
    requires Enumerates(keys, next.Keys) && Enumerates(gone, prev.Keys)
    ensures (prev + Changes(seam, prev, next, keys)) - (Elems(gone) - next.Keys) == next
            <==> !(seam.LabelSeam? && exists k :: k in next && k !in prev && next[k] == "")
  {
    var result := (prev + Changes(seam, prev, next, keys)) - (Elems(gone) - next.Keys);
    if k :| k in next && k !in prev && seam.LabelSeam? && next[k] == "" {
      assert k !in result;
    } else {
      assert result.Keys == next.Keys;
      assert result == next;
    }
  }

  lemma {:induction false} CreatedEdgesFold(v: View, id: string, prev: seq<Edge>, next: seq<Edge>)
    requires id in v.txns
    ensures Fold(v, CreatedEdges(id, prev, next)) == PutEdges(v, id, v.txns[id].edges + (Elems(next) - Elems(prev)))
    decreases |next|
  {
    hide Fold;
    if next == [] {
      assert v.txns[id].edges + (Elems(next) - Elems(prev)) == v.txns[id].edges;
      FoldNothing(v);
    } else {
      var e, tail := next[0], CreatedEdges(id, prev, next[1..]);
      assert Elems(next) == {e} + Elems(next[1..]);
      var v' := if e in prev then v else PutEdges(v, id, v.txns[id].edges + {e});
      CreatedEdgesFold(v', id, prev, next[1..]);
      FoldCons(v, EdgeCreated(id, e), tail);
      assert [] + tail == tail;
      assert v'.txns[id].edges + (Elems(next[1..]) - Elems(prev)) == v.txns[id].edges + (Elems(next) - Elems(prev));
    }
  }

  lemma {:induction false} RemovedEdgesFold(v: View, id: string, prev: seq<Edge>, next: seq<Edge>)
    requires id in v.txns
    ensures Fold(v, RemovedEdges(id, prev, next)) == PutEdges(v, id, v.txns[id].edges - (Elems(prev) - Elems(next)))
    decreases |prev|
  {
    hide Fold;
    if prev == [] {
      assert v.txns[id].edges - (Elems(prev) - Elems(next)) == v.txns[id].edges;
      FoldNothing(v);
    } else {
      var e, tail := prev[0], RemovedEdges(id, prev[1..], next);
      assert Elems(prev) == {e} + Elems(prev[1..]);
      var v' := if e in next then v else PutEdges(v, id, v.txns[id].edges - {e});
      RemovedEdgesFold(v', id, prev[1..], next);
      FoldCons(v, EdgeRemoved(id, e), tail);
      assert [] + tail == tail;
      assert v'.txns[id].edges - (Elems(prev[1..]) - Elems(next)) == v.txns[id].edges - (Elems(prev) - Elems(next));
    }
  }

  lemma EdgeDiffFolds(v: View, id: string, prev: seq<Edge>, next: seq<Edge>)
    requires id in v.txns && v.txns[id].edges == Elems(prev)
    ensures Fold(v, EdgeDiff(id, prev, next)) == PutEdges(v, id, Elems(next))
  {
    hide Fold;
    CreatedEdgesFold(v, id, prev, next);
    var v' := PutEdges(v, id, v.txns[id].edges + (Elems(next) - Elems(prev)));
    RemovedEdgesFold(v', id, prev, next);
    FoldConcat(v, CreatedEdges(id, prev, next), RemovedEdges(id, prev, next));
    assert v'.txns[id].edges - (Elems(prev) - Elems(next)) == Elems(next);
  }

  // --- writes ---

  lemma WritePairsTracks(s: Ledger, id: string, seam: Seam, m: Pairs)
    requires id in s.txns && Normal(seam, m)
    ensures Tracks(s, WritePairs(s, id, seam, m))
  {
    hide Fold, PairDiff, CleanKeyOf, CleanValueOf, Tracks;
    var t := s.txns[id];
    var r := WritePairs(s, id, seam, m);
    PairDiffFolds(ViewOf(s), s.env.order, |s.log|, id, seam, PairsOf(t, seam), m);
    ViewOfWrite(s, r, id);
    assert ViewOf(r) == PutPairs(ViewOf(s), id, seam, m);
    TracksAppend(s, r, PairDiff(s.env.order, |s.log|, id, seam, PairsOf(t, seam), m));
  }

  lemma WriteEdgesTracks(s: Ledger, id: string, es: seq<Edge>)
    requires id in s.txns
    ensures Tracks(s, WriteEdges(s, id, es))
  {
    hide Fold, EdgeDiff;
    var t := s.txns[id];
    var r := WriteEdges(s, id, es);
    EdgeDiffFolds(ViewOf(s), id, t.edges, es);
    assert ViewOf(r) == PutEdges(ViewOf(s), id, Elems(es));
    TracksAppend(s, r, EdgeDiff(id, t.edges, es));
  }

  lemma {:induction false} StripInboundTracks(s: Ledger, ids: seq<string>, target: string)
    requires forall id :: id in ids ==> id in s.txns
    ensures Tracks(s, StripInbound(s, ids, target))
    decreases |ids|
  {
    hide Tracks, WriteEdges, WithoutTarget, NormalizeEdges;
    if ids == [] {
      TracksSelf(s);
    } else {
      var s' := StripRow(s, ids[0], target);
      TracksSelf(s);
      WriteEdgesTracks(s, ids[0], NormalizeEdges(WithoutTarget(s.txns[ids[0]].edges, target)));
      StripInboundTracks(s', ids[1..], target);
      TracksTransitive(s, s', StripInbound(s', ids[1..], target));
    }
  }

  lemma {:induction false} StripInboundKeeps(s: Ledger, ids: seq<string>, target: string)
    requires forall id :: id in ids ==> id in s.txns
    ensures StripInbound(s, ids, target).txns.Keys == s.txns.Keys
    decreases |ids|
  {
    hide StripRow;
    if ids != [] { StripInboundKeeps(StripRow(s, ids[0], target), ids[1..], target); }
  }

  lemma DropTxnTracks(s: Ledger, id: string, t: Txn)
    requires id in s.txns
    ensures Tracks(s, DropTxn(s, id, t))
  {
    hide Fold, StripInbound, RelatedIds, Tracks;
    RelatedIdsExist(s.txns);
    var m := StripInbound(s, RelatedIds(s.txns), id);
    StripInboundTracks(s, RelatedIds(s.txns), id);
    StripInboundKeeps(s, RelatedIds(s.txns), id);
    var r := DropTxn(s, id, t);
    FoldOne(ViewOf(m), TxnDeleted(id, Snap(s.env.codec, t)));
    assert ViewOf(r).txns == ViewOf(m).txns - {id};
    TracksAppend(m, r, [TxnDeleted(id, Snap(s.env.codec, t))]);
    TracksTransitive(s, m, r);
  }

  lemma {:induction false} DropChildrenTracks(s: Ledger, rows: map<string, Txn>, ids: seq<string>)
    requires Sound(s) && Distinct(ids) && forall id :: id in ids ==> id in rows && id in s.txns
    ensures Tracks(s, DropChildren(s, rows, ids))
    decreases |ids|
  {
    hide Tracks, DropTxn, Sound;
    if ids == [] {
      TracksSelf(s);
    } else {
      var s' := DropTxn(s, ids[0], rows[ids[0]]);
      DropTxnTracks(s, ids[0], rows[ids[0]]);
      DropTxnIs(s, ids[0], rows[ids[0]]);
      assert ids[0] !in ids[1..];
      forall id | id in ids[1..] ensures id in s'.txns { assert id in ids; }
      DropChildrenTracks(s', rows, ids[1..]);
      TracksTransitive(s, s', DropChildren(s', rows, ids[1..]));
    }
  }

  /** Deleting an account replays exactly when the child read was not truncated: rows beyond the limit are
      taken by the database cascade, of which the log says nothing. */
  lemma DeleteAccountReplays(s: Ledger, id: string)
    requires Sound(s) && id in s.accounts && s.accounts[id].source == MANUAL
    ensures Tracks(s, DeleteAccount(s, id).0) <==> |InAccount(s.txns, id)| <= MAX_INT32
  {
    hide Fold, DropAllChildren, Sound, Tracks, Children;
    var m := DropAllChildren(s, id);
    var r := DeleteAccount(s, id).0;
    var d := AccountDeleted(id, AccountSnap(s.accounts[id]));
    DropAllChildrenTracks(s, id);
    DropAllChildrenIs(s, id);
    FoldOne(ViewOf(m), d);
    assert ViewOf(r).accounts == ViewOf(m).accounts - {id};
    if |InAccount(s.txns, id)| <= MAX_INT32 {
      assert r.txns == m.txns;
      TracksAppend(m, r, [d]);
      TracksTransitive(s, m, r);
    } else {
      LeftBehind(s, id);
      var x :| x in InAccount(m.txns, id);
      assert x in ViewOf(m).txns && x !in ViewOf(r).txns;
      NotTracked(s, m, r, d);
    }
  }

  lemma NotTracked(s: Ledger, m: Ledger, r: Ledger, d: Data)
    requires Tracks(s, m) && r.log == m.log + [d] && Consume(ViewOf(m), d) != ViewOf(r)
    ensures !Tracks(s, r)
  {
    hide ViewOf, Fold;
    FoldConcat(ViewOf(s), m.log[|s.log|..], [d]);
    FoldOne(ViewOf(m), d);
    assert r.log[|s.log|..] == m.log[|s.log|..] + [d];
  }

  lemma DropAllChildrenTracks(s: Ledger, id: string)
    requires Sound(s)
    ensures Tracks(s, DropAllChildren(s, id))
  {
    hide Tracks, Sound, DropChildren, Children;
    ChildrenExist(s.txns, id);
    DropChildrenTracks(s, s.txns, Children(s.txns, id));
  }

  lemma LeftBehind(s: Ledger, id: string)
    requires Sound(s) && |InAccount(s.txns, id)| > MAX_INT32
    ensures InAccount(DropAllChildren(s, id).txns, id) != {}
  {
    hide Sound, DropAllChildren, Ordered, ByDate;
    var all := InAccount(s.txns, id);
    var ids := Children(s.txns, id);
    ByDateIsStrictTotal(s.txns);
    OrderedEnumerates(all, (a, b) => ByDate(s.txns, a, b));
    ChildrenExist(s.txns, id);
    DropAllChildrenIs(s, id);
    PrefixSize(ids, |ids|);
    assert ids[..|ids|] == ids;
    if all <= Elems(ids) { SubsetSize(all, Elems(ids)); }
    var x :| x in all && x !in Elems(ids);
    assert x in InAccount(DropAllChildren(s, id).txns, id);
  }

  // --- operations ---

  lemma AccountWriteTracks(s: Ledger, op: Op)
    requires op.OpCreateAccount? || op.OpUpdateAccount?
    ensures Tracks(s, Step(s, op))
  {
    hide Fold, ReadAccount, Tracks;
    var r := Step(s, op);
    if r == s {
      TracksSelf(s);
    } else {
      var d := r.log[|s.log|];
      FoldOne(ViewOf(s), d);
      assert r.log == s.log + [d] && r.txns == s.txns;
      assert (d.AccountCreated? || d.AccountUpdated?) && d.id == op.id && d.account == AccountSnap(r.accounts[op.id]);
      assert ViewOf(r).txns == ViewOf(s).txns;
      assert ViewOf(r).accounts == ViewOf(s).accounts[op.id := Held(r.accounts[op.id])];
      TracksAppend(s, r, [d]);
    }
  }

  lemma TxnWriteTracks(s: Ledger, op: Op)
    requires op.OpCreateTxn? || op.OpUpdateTxn?
    ensures Tracks(s, Step(s, op))
  {
    hide Fold, ReadTxn, Tracks;
    var r := Step(s, op);
    if r == s {
      TracksSelf(s);
    } else {
      var d := r.log[|s.log|];
      FoldOne(ViewOf(s), d);
      assert r.log == s.log + [d] && r.accounts == s.accounts;
      assert (d.TxnCreated? || d.TxnUpdated?) && d.id == op.id && d.txn == Snap(s.env.codec, r.txns[op.id]);
      assert d.TxnCreated? ==> Elems(r.txns[op.id].edges) == {};
      ViewOfWrite(s, r, op.id);
      TracksAppend(s, r, [d]);
    }
  }

  lemma ViewOfWrite(s: Ledger, r: Ledger, id: string)
    requires r.accounts == s.accounts && id in r.txns && r.txns == s.txns[id := r.txns[id]]
    ensures ViewOf(r) == ViewOf(s).(txns := ViewOf(s).txns[id := TxnViewOf(r.txns[id])])
  {
    hide TxnViewOf;
  }

  lemma MutateEdgesTracks(s: Ledger, id: string, transformed: seq<Edge>)
    requires id in s.txns
    ensures Tracks(s, MutateEdges(s, id, transformed).0)
  {
    hide Tracks, WriteEdges, NormalizeEdges;
    TracksSelf(s);
    WriteEdgesTracks(s, id, NormalizeEdges(transformed));
  }

  lemma RewriteIsNormal(dir: Direction, rules: seq<Rule>, rec: Record, seam: Seam, current: Pairs)
    ensures Rewrite(dir, rules, rec, seam, current).1 ==> Normal(seam, Rewrite(dir, rules, rec, seam, current).0)
  {
    hide Normal, Normalize, Merge, Reduce;
    NormalizeIsNormal(seam, Merge(rules, rec, seam, current));
    NormalizeIsNormal(seam, Reduce(rules, rec, seam, current));
  }

  lemma RunRowTracks(s: Ledger, dir: Direction, rules: seq<Rule>, id: string)
    requires id in s.txns
    ensures Tracks(s, RunRow(s, dir, rules, id))
  {
    hide Tracks, WritePairs, Rewrite, Normal;
    var rec, t := ToRecord(s, id), s.txns[id];
    var labels := Rewrite(dir, rules, rec, LabelSeam, t.labels);
    var extensions := Rewrite(dir, rules, rec, ExtensionSeam, t.extensions);
    RewriteIsNormal(dir, rules, rec, LabelSeam, t.labels);
    RewriteIsNormal(dir, rules, rec, ExtensionSeam, t.extensions);
    var s' := if labels.1 then WritePairs(s, id, LabelSeam, labels.0) else s;
    TracksSelf(s);
    if labels.1 { WritePairsTracks(s, id, LabelSeam, labels.0); }
    TracksSelf(s');
    if extensions.1 { WritePairsTracks(s', id, ExtensionSeam, extensions.0); }
    TracksTransitive(s, s', RunRow(s, dir, rules, id));
  }

  lemma {:induction false} RunRowsTracks(r: RunResult, dir: Direction, rules: seq<Rule>, ids: seq<string>)
    requires forall id :: id in ids ==> id in r.ledger.txns
    ensures Tracks(r.ledger, RunRows(r, dir, rules, ids).ledger)
    decreases |ids|
  {
    hide Tracks, RunRow, AnyMatch, RowChanges;
    if ids == [] {
      TracksSelf(r.ledger);
    } else {
      var r' := CountRow(r, dir, rules, ids[0]);
      RunRowTracks(r.ledger, dir, rules, ids[0]);
      RunRowsTracks(r', dir, rules, ids[1..]);
      TracksTransitive(r.ledger, r'.ledger, RunRows(r', dir, rules, ids[1..]).ledger);
    }
  }

  lemma RunRulesTracks(s: Ledger, dir: Direction, rules: seq<Rule>, ruleId: int)
    ensures Tracks(s, RunRules(s, dir, rules, ruleId).ledger)
  {
    hide Tracks, RunRows, AllIds, Fold;
    AllIdsExist(s.txns);
    TracksSelf(s);
    if rules != [] {
      var m := RunRows(RunResult(s, 0, 0), dir, rules, AllIds(s.txns)).ledger;
      RunRowsTracks(RunResult(s, 0, 0), dir, rules, AllIds(s.txns));
      var r := RunRules(s, dir, rules, ruleId).ledger;
      var d := r.log[|m.log|];
      FoldOne(ViewOf(m), d);
      assert r.log == m.log + [d];
      TracksAppend(m, r, [d]);
      TracksTransitive(s, m, r);
    }
  }

  lemma DeleteLabelTracks(s: Ledger, key: string, value: Option<string>)
    requires Sound(s)
    ensures Tracks(s, DeleteLabel(s, key, value).0)
  {
    hide Sound, Fold, Tracks, CleanKeyOf, CleanValueOf, Carriers;
    var k, v := CleanKeyOf(LabelSeam, key), if value.None? then None else Some(CleanValueOf(LabelSeam, value.value));
    var r := DeleteLabel(s, key, value).0;
    TracksSelf(s);
    if r != s {
      var d := LabelDeleted(k, if v.None? then "" else v.value, |Carriers(s.txns, k, v)|);
      FoldOne(ViewOf(s), d);
      EmptyValueCarriesNothing(s, k, v);
      DroppedLabelView(s, r, k, v);
      TracksAppend(s, r, [d]);
    }
  }

  lemma DroppedLabelView(s: Ledger, r: Ledger, key: string, value: Option<string>)
    requires value != Some("") && r.accounts == s.accounts
    requires r.txns == map id | id in s.txns :: DropLabel(s.txns[id], key, value)
    ensures ViewOf(r) == Consume(ViewOf(s), LabelDeleted(key, if value.None? then "" else value.value, 0))
  {
    hide Elems;
    var d := if value.None? then "" else value.value;
    forall x | x in s.txns ensures TxnViewOf(r.txns[x]) == DropViewLabel(TxnViewOf(s.txns[x]), key, d) { }
    assert ViewOf(r).txns == map x | x in ViewOf(s).txns :: DropViewLabel(ViewOf(s).txns[x], key, d);
  }

  /** The coarse event drops an empty value, which would read as "any value"; no stored label has one. */
  lemma EmptyValueCarriesNothing(s: Ledger, key: string, value: Option<string>)
    requires Sound(s)
    ensures value == Some("") ==> Carriers(s.txns, key, value) == {}
  {
    hide CleanKeyOf, CleanValueOf, NormalEdges;
    forall x | x in s.txns ensures !Carries(s.txns[x], key, Some("")) { SoundRow(s, x); }
  }

  lemma StepTracks(s: Ledger, op: Op)
    requires Sound(s) && Admissible(s, op)
    ensures Tracks(s, Step(s, op))
  {
    hide Sound, Tracks, ReadTxn, ReadAccount, DeleteAccount, DropTxn, RunRules, DeleteLabel, MutateEdges, WritePairs,
        Normalize, Without, NormalizeKind, Trim;
    TracksSelf(s);
    match op {
      case OpCreateAccount(_, _, _) => AccountWriteTracks(s, op);
      case OpUpdateAccount(_, _, _) => AccountWriteTracks(s, op);
      case OpDeleteAccount(id) => DeleteAccountTracks(s, id);
      case OpCreateTxn(_, _, _) => TxnWriteTracks(s, op);
      case OpUpdateTxn(_, _, _) => TxnWriteTracks(s, op);
      case OpDeleteTxn(id) => if id in s.txns { DropTxnTracks(s, id, s.txns[id]); }
      case OpSetPairs(id, seam, pairs) =>
        NormalizeIsNormal(seam, pairs);
        if id in s.txns { WritePairsTracks(s, id, seam, Normalize(seam, pairs)); }
      case OpDeleteLabel(key, value) => DeleteLabelTracks(s, key, value);
      case OpAddEdge(id, kind, target) =>
        if id in s.txns { MutateEdgesTracks(s, id, s.txns[id].edges + [Edge(kind, target)]); }
      case OpRemoveEdge(id, kind, target) =>
        var edge := Edge(NormalizeKind(kind), Trim(target));
        if id in s.txns { MutateEdgesTracks(s, id, Without(s.txns[id].edges, edge)); }
      case OpRunRules(dir, rules, ruleId) => RunRulesTracks(s, dir, rules, ruleId);
    }
  }

  lemma DeleteAccountTracks(s: Ledger, id: string)
    requires Sound(s) && |InAccount(s.txns, id)| <= MAX_INT32
    ensures Tracks(s, DeleteAccount(s, id).0)
  {
    hide Sound, Tracks, DropAllChildren;
    TracksSelf(s);
    if DeleteAccount(s, id).1.Done? { DeleteAccountReplays(s, id); }
  }

  /** A consumer in step at any point stays in step through any run. */
  lemma {:induction false} RunTracks(s: Ledger, ops: seq<Op>)
    requires Sound(s) && AdmissibleRun(s, ops)
    ensures Tracks(s, Run(s, ops))
    decreases |ops|
  {
    hide Sound, Tracks, Step, Admissible;
    if ops == [] {
      TracksSelf(s);
    } else {
      StepSound(s, ops[0]);
      StepTracks(s, ops[0]);
      RunTracks(Step(s, ops[0]), ops[1..]);
      TracksTransitive(s, Step(s, ops[0]), Run(Step(s, ops[0]), ops[1..]));
    }
  }

  /** Folding the whole log from nothing gives exactly the current accounts and transactions. */
  lemma EventSourcing(env: Env, ops: seq<Op>)
    requires AdmissibleRun(Empty(env), ops)
    ensures var s := Run(Empty(env), ops);
            Fold(View(map[], map[]), s.log) == ViewOf(s)
  {
    hide Fold, Run;
    var s0 := Empty(env);
    RunTracks(s0, ops);
    assert ViewOf(s0) == View(map[], map[]);
    var s := Run(s0, ops);
    assert s.log[0..] == s.log;
  }

  /** Nothing is lost in the view's edge sets: a stored edge list is determined by its elements. */
  lemma EdgesFromView(a: seq<Edge>, b: seq<Edge>)
    requires NormalEdges(a) && NormalEdges(b) && Elems(a) == Elems(b)
    ensures a == b
  {
    hide EdgeBelow, IsCleanEdge;
    EdgeBelowIsStrictTotal();
    forall x ensures x in a <==> x in b { assert x in a <==> x in Elems(a); assert x in b <==> x in Elems(b); }
    EnumerationsAgree(a, b, Elems(a));
    SortedUnique(a, b, EdgeBelow);
  }
}
