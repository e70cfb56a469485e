/** deleteAccount as one transition: what goes, what stays, and what the log says in which order. */
module AccountDelete {
  import opened Sorting
  import opened Meta
  import opened Edges
  import opened Ledger
  import opened Integrity

  /** The transactions a stretch of log reports as deleted, in order. */
  function Deletions(ds: seq<Data>): seq<string>
    decreases |ds|
  {
    if ds == [] then [] else (if ds[0].TxnDeleted? then [ds[0].id] else []) + Deletions(ds[1..])
  }

  lemma {:induction false} DeletionsConcat(a: seq<Data>, b: seq<Data>)
    ensures Deletions(a + b) == Deletions(a) + Deletions(b)
    decreases |a|
  {
    if a == [] {
      assert a + b == b;
    } else {
      assert (a + b)[0] == a[0] && (a + b)[1..] == a[1..] + b;
      DeletionsConcat(a[1..], b);
    }
  }

  /** Teardown events: an edge into one of `ids` removed, or one of `ids` deleted with its last snapshot. */
  ghost predicate Teardown(c: Codec, ds: seq<Data>, rows: map<string, Txn>, ids: set<string>) {
    forall i :: 0 <= i < |ds| ==>
      (ds[i].EdgeRemoved? && ds[i].edge.target in ids) ||
      (ds[i].TxnDeleted? && ds[i].id in ids && ds[i].id in rows && Shows(c, ds[i].txn, rows[ds[i].id]))
  }

  ghost predicate OnlyEdgesInto(ds: seq<Data>, target: string) {
    forall i :: 0 <= i < |ds| ==> ds[i].EdgeRemoved? && ds[i].edge.target == target
  }

  lemma {:induction false} NoneCreated(id: string, prev: seq<Edge>, next: seq<Edge>)
    requires forall e :: e in next ==> e in prev
    ensures CreatedEdges(id, prev, next) == []
  {
    if next != [] { NoneCreated(id, prev, next[1..]); }
  }

  lemma {:induction false} RemovedInto(id: string, prev: seq<Edge>, next: seq<Edge>, target: string)
    requires forall e :: e in prev && e !in next ==> e.target == target
    ensures OnlyEdgesInto(RemovedEdges(id, prev, next), target)
  {
    if prev != [] { RemovedInto(id, prev[1..], next, target); }
  }

  lemma KeptLog(id: string, es: seq<Edge>, target: string)
    requires NormalEdges(es)
    ensures OnlyEdgesInto(EdgeDiff(id, es, WithoutTarget(es, target)), target)
  {
    hide NormalEdges, WithoutTarget, OnlyEdgesInto, CreatedEdges, RemovedEdges;
    var kept := WithoutTarget(es, target);
    WithoutTargetIs(es, target);
    forall e | e in kept ensures e in es { assert e in Elems(kept); }
    forall e | e in es && e !in kept ensures e.target == target { assert e !in Elems(kept); }
    NoneCreated(id, es, kept);
    RemovedInto(id, es, kept, target);
    assert [] + RemovedEdges(id, es, kept) == RemovedEdges(id, es, kept);
  }

  lemma StripRowLog(s: Ledger, id: string, target: string)
    requires Sound(s) && id in s.txns
    ensures var r := StripRow(s, id, target);
            s.log <= r.log && OnlyEdgesInto(r.log[|s.log|..], target)
  {
    hide Sound, WithoutTarget, NormalizeEdges, NormalEdges, EdgeDiff, OnlyEdgesInto;
    var es := s.txns[id].edges;
    SoundRowEdges(s, id);
    WithoutTargetIs(es, target);
    NormalizeEdgesCanonical(WithoutTarget(es, target));
    KeptLog(id, es, target);
    var r := StripRow(s, id, target);
    var ds := if r == s then [] else EdgeDiff(id, es, WithoutTarget(es, target));
    NoEdges(target);
    assert r.log == s.log + ds;
    Suffix(s.log, ds);
  }

  lemma NoEdges(target: string)
    ensures OnlyEdgesInto([], target)
  {
  }

  lemma Suffix(log: seq<Data>, ds: seq<Data>)
    ensures log <= log + ds && (log + ds)[|log|..] == ds
  {
  }

  lemma SoundRowEdges(s: Ledger, id: string)
    requires Sound(s) && id in s.txns
    ensures NormalEdges(s.txns[id].edges)
  {
    hide NormalEdges, Normal;
    assert RowSound(s, id);
  }

  lemma {:induction false} StripInboundLog(s: Ledger, ids: seq<string>, target: string)
    requires Sound(s) && forall id :: id in ids ==> id in s.txns
    ensures var r := StripInbound(s, ids, target);
            s.log <= r.log && OnlyEdgesInto(r.log[|s.log|..], target)
    decreases |ids|
  {
    hide Sound, StripRow;
    if ids != [] {
      StripRowLog(s, ids[0], target);
      StripRowIs(s, ids[0], target);
      var s' := StripRow(s, ids[0], target);
      StripInboundLog(s', ids[1..], target);
      var r := StripInbound(s, ids, target);
      assert r.log[|s.log|..] == s'.log[|s.log|..] + r.log[|s'.log|..];
    }
  }

  lemma {:induction false} NoDeletionsInEdges(ds: seq<Data>, target: string)
    requires OnlyEdgesInto(ds, target)
    ensures Deletions(ds) == []
    decreases |ds|
  {
    if ds != [] { NoDeletionsInEdges(ds[1..], target); }
  }

  lemma DropTxnLog(s: Ledger, id: string, t: Txn)
    requires Sound(s) && id in s.txns
    ensures var r := DropTxn(s, id, t);
            && s.log <= r.log
            && Teardown(s.env.codec, r.log[|s.log|..], map[id := t], {id})
            && Deletions(r.log[|s.log|..]) == [id]
  {
    hide Sound, StripInbound, RelatedIds, Shows, Snap;
    RelatedIdsExist(s.txns);
    SnapshotShows(s.env.codec, t);
    var m := StripInbound(s, RelatedIds(s.txns), id);
    StripInboundLog(s, RelatedIds(s.txns), id);
    var r := DropTxn(s, id, t);
    var edges, d := m.log[|s.log|..], TxnDeleted(id, Snap(s.env.codec, t));
    assert r.log[|s.log|..] == edges + [d];
    NoDeletionsInEdges(edges, id);
    DeletionsConcat(edges, [d]);
    assert Deletions([d]) == [id] by { assert [d][1..] == []; }
  }

  lemma {:induction false} DropChildrenLog(s: Ledger, rows: map<string, Txn>, ids: seq<string>)
    requires Sound(s) && Distinct(ids) && forall id :: id in ids ==> id in rows && id in s.txns
    ensures var r := DropChildren(s, rows, ids);
            && s.log <= r.log
            && Teardown(s.env.codec, r.log[|s.log|..], rows, Elems(ids))
            && Deletions(r.log[|s.log|..]) == ids
    decreases |ids|
  {
    hide Sound, DropTxn, Teardown;
    if ids == [] {
      assert Elems(ids) == Elems([]) && s.log[|s.log|..] == [];
      NoTeardown(s.env.codec, rows);
    } else {
      var id := ids[0];
      DropTxnLog(s, id, rows[id]);
      DropTxnIs(s, id, rows[id]);
      var s' := DropTxn(s, id, rows[id]);
      assert id !in ids[1..];
      forall x | x in ids[1..] ensures x in s'.txns { assert x in ids; }
      DropChildrenLog(s', rows, ids[1..]);
      var r := DropChildren(s', rows, ids[1..]);
      JoinTeardown(s.env.codec, s.log, s'.log, r.log, rows, ids);
    }
  }

  lemma NoTeardown(c: Codec, rows: map<string, Txn>)
    ensures Teardown(c, [], rows, Elems([]))
  {
  }

  lemma JoinTeardown(codec: Codec, a: seq<Data>, b: seq<Data>, c: seq<Data>, rows: map<string, Txn>, ids: seq<string>)
    requires a <= b <= c && ids != [] && ids[0] in rows
    requires Teardown(codec, b[|a|..], map[ids[0] := rows[ids[0]]], {ids[0]})
    requires Teardown(codec, c[|b|..], rows, Elems(ids[1..]))
    requires Deletions(b[|a|..]) == [ids[0]] && Deletions(c[|b|..]) == ids[1..]
    ensures Teardown(codec, c[|a|..], rows, Elems(ids)) && Deletions(c[|a|..]) == ids
  {
    hide Deletions, Shows;
    var first, rest := b[|a|..], c[|b|..];
    assert c[|a|..] == first + rest;
    DeletionsConcat(first, rest);
    assert Elems(ids) == {ids[0]} + Elems(ids[1..]);
  }

  /** On success the account, every transaction in it, their histories and the edges into them are gone, and
      nothing else changed; the log gained exactly one deletion per child carrying its last snapshot, interleaved
      only with removals of edges into the children, and then the one account deletion, last. */
  lemma DeleteAccountTransition(s: Ledger, id: string)
    requires Sound(s) && |InAccount(s.txns, id)| <= MAX_INT32
    requires id in s.accounts && s.accounts[id].source == MANUAL
    ensures var r := DeleteAccount(s, id).0;
            var gone := InAccount(s.txns, id);
            && DeleteAccount(s, id).1.Done?
            && r.accounts == s.accounts - {id}
            && r.txns.Keys == s.txns.Keys - gone && r.versions == s.versions - gone
            && (forall x :: x in r.txns ==> SameButEdges(s.txns[x], r.txns[x]))
            && (forall x :: x in r.txns ==> Elems(r.txns[x].edges) == set e | e in s.txns[x].edges && e.target !in gone)
            && s.log <= r.log && |r.log| > |s.log|
            && (var d := r.log[|r.log| - 1]; d.AccountDeleted? && d.id == id && Describes(d.account, s.accounts[id]))
            && Teardown(s.env.codec, r.log[|s.log|..|r.log| - 1], s.txns, gone)
            && Deletions(r.log[|s.log|..|r.log| - 1]) == NewestFirst(s.txns, gone)
  {
    hide Sound, Normal, NormalEdges, DropChildren, Ordered, ByDate, Teardown, Deletions, Snap;
    var gone, ids := InAccount(s.txns, id), Children(s.txns, id);
    ChildrenExist(s.txns, id);
    ByDateIsStrictTotal(s.txns);
    OrderedEnumerates(gone, (a, b) => ByDate(s.txns, a, b));
    assert ids == NewestFirst(s.txns, gone);
    DropAllChildrenIs(s, id);
    DropChildrenLog(s, s.txns, ids);
    var m, r := DropAllChildren(s, id), DeleteAccount(s, id).0;
    assert r.txns == m.txns;
    assert r.log[|s.log|..|r.log| - 1] == m.log[|s.log|..];
  }
}
