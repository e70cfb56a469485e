/** Event payloads as a client receives them: decoded to Go values and encoded again, which not every extension value
    survives. When is a mirror kept over the wire still the tables? */
module Wire {
  import opened Text
  import opened Sorting
  import opened Meta
  import opened Edges
  import opened Amount
  import opened Ledger
  import opened Integrity
  import opened Replay
  import opened AccountDelete
  import opened RuleRuns

  function Decoded(c: Codec, t: Snapshot): Option<Snapshot> {
    if forall k :: k in t.extensions ==> c(t.extensions[k]).Some? then Some(t.(extensions := Values(c, t.extensions)))
    else None
  }

  /** decodeData and the encoding that follows. None stands for the empty object an undecodable payload becomes: it
      names neither key nor value. */
  function Received(c: Codec, d: Data): Option<Data> {
    match d
    case TxnCreated(id, t) => var r := Decoded(c, t); if r.None? then None else Some(TxnCreated(id, r.value))
    case TxnUpdated(id, t) => var r := Decoded(c, t); if r.None? then None else Some(TxnUpdated(id, r.value))
    case TxnDeleted(id, t) => var r := Decoded(c, t); if r.None? then None else Some(TxnDeleted(id, r.value))
    case PairSet(id, seam, k, v) =>
      if seam.LabelSeam? then Some(d) else if c(v).None? then None else Some(PairSet(id, seam, k, c(v).value))
    case PairRemoved(id, seam, k, v) =>
      if seam.LabelSeam? then Some(d) else if c(v).None? then None else Some(PairRemoved(id, seam, k, c(v).value))
    case _ => Some(d)
  }

  function Delivered(c: Codec, ds: seq<Data>): seq<Data> {
    if ds == [] then []
    else (var r := Received(c, ds[0]); if r.None? then [] else [r.value]) + Delivered(c, ds[1..])
  }

  lemma {:induction false} DeliveredConcat(c: Codec, a: seq<Data>, b: seq<Data>)
    ensures Delivered(c, a + b) == Delivered(c, a) + Delivered(c, b)
    decreases |a|
  {
    hide Received;
    if a == [] {
      assert a + b == b;
    } else {
      assert (a + b)[0] == a[0] && (a + b)[1..] == a[1..] + b;
      DeliveredConcat(c, a[1..], b);
      var first := if Received(c, a[0]).Some? then [Received(c, a[0]).value] else [];
      assert first + (Delivered(c, a[1..]) + Delivered(c, b)) == first + Delivered(c, a[1..]) + Delivered(c, b);
    }
  }

  /** An event that arrives as it was logged. */
  ghost predicate Clear(c: Codec, ds: seq<Data>) { forall d :: d in ds ==> Received(c, d) == Some(d) }

  lemma {:induction false} ClearIsDelivered(c: Codec, ds: seq<Data>)
    requires Clear(c, ds)
    ensures Delivered(c, ds) == ds
  {
    hide Received;
    if ds != [] {
      assert ds[0] in ds;
      assert forall d :: d in ds[1..] ==> d in ds;
      ClearIsDelivered(c, ds[1..]);
    }
  }

  /** Snapshots are decoded before they are logged, so decoding them again changes nothing. */
  lemma SnapshotsAreClear(c: Codec, id: string, t: Txn)
    ensures Received(c, TxnCreated(id, Snap(c, t))) == Some(TxnCreated(id, Snap(c, t)))
    ensures Received(c, TxnUpdated(id, Snap(c, t))) == Some(TxnUpdated(id, Snap(c, t)))
    ensures Received(c, TxnDeleted(id, Snap(c, t))) == Some(TxnDeleted(id, Snap(c, t)))
  {
    var m := Values(c, t.extensions);
    assert forall k :: k in m ==> c(m[k]) == Some(m[k]);
    assert Values(c, m) == m;
  }

  // --- what a client makes of one row's new extensions ---

  /** The value survives the wire. */
  predicate Survives(c: Codec, v: string) { c(v) == Some(v) }

  predicate Lossless(c: Codec, m: Pairs) { forall k :: k in m ==> Survives(c, m[k]) }

  /** What a client holds that held `prev` and hears of the change to `next`. */
  function Heard(c: Codec, prev: Pairs, next: Pairs): Pairs {
    (prev + HeardSet(c, prev, next, next.Keys)) - HeardGone(c, prev, next, prev.Keys)
  }

  function HeardSet(c: Codec, prev: Pairs, next: Pairs, keys: set<string>): Pairs {
    map k | k in keys && k in next && (k !in prev || prev[k] != next[k]) && c(next[k]).Some? :: c(next[k]).value
  }

  function HeardGone(c: Codec, prev: Pairs, next: Pairs, keys: set<string>): set<string> {
    set k | k in keys && k in prev && k !in next && c(prev[k]).Some?
  }

  /** Every value that is new survives the wire, and every value that goes can be decoded. */
  predicate Carried(c: Codec, prev: Pairs, next: Pairs) {
    && (forall k :: k in next && (k !in prev || prev[k] != next[k]) ==> Survives(c, next[k]))
    && (forall k :: k in prev && k !in next ==> c(prev[k]).Some?)
  }

  lemma HeardExactly(c: Codec, prev: Pairs, next: Pairs)
    ensures Heard(c, prev, next) == next <==> Carried(c, prev, next)
  {
    var h := Heard(c, prev, next);
    if h == next {
      forall k | k in next && (k !in prev || prev[k] != next[k]) ensures Survives(c, next[k]) {
        assert h[k] == next[k];
      }
      forall k | k in prev && k !in next ensures c(prev[k]).Some? { assert k !in h; }
    }
    if Carried(c, prev, next) {
      assert h.Keys == next.Keys;
      forall k | k in next ensures h[k] == next[k] { }
    }
  }

  lemma UnchangedIsHeard(c: Codec, m: Pairs)
    ensures Heard(c, m, m) == m && Carried(c, m, m)
  {
  }

  lemma {:induction false} SetEventsHeard(c: Codec, v: View, id: string, prev: Pairs, next: Pairs, keys: seq<string>,
                                          m: Pairs)
    requires id in v.txns && v.txns[id].extensions == m && forall k :: k in keys ==> k in next
    ensures Fold(v, Delivered(c, SetEvents(id, ExtensionSeam, prev, next, keys)))
            == PutPairs(v, id, ExtensionSeam, m + HeardSet(c, prev, next, Elems(keys)))
    decreases |keys|
  {
    hide Fold, PutPairs, HeardSet, Received;
    PutPairsLaws(v, id, ExtensionSeam, m, m + HeardSet(c, prev, next, Elems(keys)));
    HeardSetStep(c, prev, next, keys, m);
    if keys == [] {
      FoldNothing(v);
    } else {
      var k, tail := keys[0], SetEvents(id, ExtensionSeam, prev, next, keys[1..]);
      var m' := HeardOne(c, prev, next, k, m);
      PutPairsLaws(v, id, ExtensionSeam, m', m' + HeardSet(c, prev, next, Elems(keys[1..])));
      SetEventsHeard(c, PutPairs(v, id, ExtensionSeam, m'), id, prev, next, keys[1..], m');
      if Differs(ExtensionSeam, prev, k, next[k]) {
        OneSetHeard(c, v, id, k, next[k], tail);
      } else {
        assert [] + tail == tail;
      }
    }
  }

  function HeardOne(c: Codec, prev: Pairs, next: Pairs, k: string, m: Pairs): Pairs
    requires k in next
  {
    if (k !in prev || prev[k] != next[k]) && c(next[k]).Some? then m[k := c(next[k]).value] else m
  }

  lemma HeardSetStep(c: Codec, prev: Pairs, next: Pairs, keys: seq<string>, m: Pairs)
    requires forall k :: k in keys ==> k in next
    ensures keys == [] ==> m + HeardSet(c, prev, next, Elems(keys)) == m
    ensures keys != [] ==> m + HeardSet(c, prev, next, Elems(keys))
                           == HeardOne(c, prev, next, keys[0], m) + HeardSet(c, prev, next, Elems(keys[1..]))
  {
    if keys != [] {
      assert Elems(keys) == {keys[0]} + Elems(keys[1..]);
      var k, whole, rest := keys[0], HeardSet(c, prev, next, Elems(keys)), HeardSet(c, prev, next, Elems(keys[1..]));
      if (k !in prev || prev[k] != next[k]) && c(next[k]).Some? {
        assert whole.Keys == rest.Keys + {k};
      } else {
        assert whole == rest;
      }
    }
  }

  /** One extension.set, and then the rest. */
  lemma OneSetHeard(c: Codec, v: View, id: string, k: string, value: string, tail: seq<Data>)
    requires id in v.txns
    ensures var m := v.txns[id].extensions;
            Fold(v, Delivered(c, [PairSet(id, ExtensionSeam, k, value)] + tail))
            == Fold(PutPairs(v, id, ExtensionSeam, if c(value).Some? then m[k := c(value).value] else m),
                    Delivered(c, tail))
  {
    hide Fold;
    var d := PairSet(id, ExtensionSeam, k, value);
    assert ([d] + tail)[1..] == tail;
    if c(value).Some? {
      FoldCons(v, Received(c, d).value, Delivered(c, tail));
    } else {
      assert [] + Delivered(c, tail) == Delivered(c, tail);
      PutPairsLaws(v, id, ExtensionSeam, v.txns[id].extensions, v.txns[id].extensions);
    }
  }

  lemma OneGoneHeard(c: Codec, v: View, id: string, k: string, value: string, tail: seq<Data>)
    requires id in v.txns
    ensures var m := v.txns[id].extensions;
            Fold(v, Delivered(c, [PairRemoved(id, ExtensionSeam, k, value)] + tail))
            == Fold(PutPairs(v, id, ExtensionSeam, if c(value).Some? then m - {k} else m), Delivered(c, tail))
  {
    hide Fold;
    var d := PairRemoved(id, ExtensionSeam, k, value);
    assert ([d] + tail)[1..] == tail;
    if c(value).Some? {
      FoldCons(v, Received(c, d).value, Delivered(c, tail));
    } else {
      assert [] + Delivered(c, tail) == Delivered(c, tail);
      PutPairsLaws(v, id, ExtensionSeam, v.txns[id].extensions, v.txns[id].extensions);
    }
  }

  lemma {:induction false} RemovedEventsHeard(c: Codec, v: View, id: string, prev: Pairs, next: Pairs,
                                              keys: seq<string>, m: Pairs)
    requires id in v.txns && v.txns[id].extensions == m && forall k :: k in keys ==> k in prev
    ensures Fold(v, Delivered(c, RemovedEvents(id, ExtensionSeam, prev, next, keys)))
            == PutPairs(v, id, ExtensionSeam, m - HeardGone(c, prev, next, Elems(keys)))
    decreases |keys|
  {
    hide Fold, PutPairs, Received;
    PutPairsLaws(v, id, ExtensionSeam, m, m - HeardGone(c, prev, next, Elems(keys)));
    if keys == [] {
      assert m - HeardGone(c, prev, next, Elems(keys)) == m;
      FoldNothing(v);
    } else {
      var k, tail := keys[0], RemovedEvents(id, ExtensionSeam, prev, next, keys[1..]);
      var m' := if k !in next && c(prev[k]).Some? then m - {k} else m;
      assert Elems(keys) == {k} + Elems(keys[1..]);
      assert m' - HeardGone(c, prev, next, Elems(keys[1..])) == m - HeardGone(c, prev, next, Elems(keys));
      PutPairsLaws(v, id, ExtensionSeam, m', m' - HeardGone(c, prev, next, Elems(keys[1..])));
      RemovedEventsHeard(c, PutPairs(v, id, ExtensionSeam, m'), id, prev, next, keys[1..], m');
      if k !in next {
        OneGoneHeard(c, v, id, k, prev[k], tail);
      } else {
        assert [] + tail == tail;
      }
    }
  }

  /** A client that held a row's extensions holds `Heard` of them after the diff, in any order of its events. */
  lemma ExtensionDiffHeard(c: Codec, v: View, order: RangeOrder, n: nat, id: string, prev: Pairs, next: Pairs)
    requires id in v.txns && v.txns[id].extensions == prev
    ensures Fold(v, Delivered(c, PairDiff(order, n, id, ExtensionSeam, prev, next)))
            == PutPairs(v, id, ExtensionSeam, Heard(c, prev, next))
  {
    hide Fold, Delivered, SetEvents, RemovedEvents, HeardSet, HeardGone, PutPairs, Differs;
    RangedEnumerates(order, n, next.Keys);
    var keys := order(n, next.Keys);
    var applied := SetEvents(id, ExtensionSeam, prev, next, keys);
    RangedEnumerates(order, n + |applied|, prev.Keys);
    var gone := order(n + |applied|, prev.Keys);
    var removed := RemovedEvents(id, ExtensionSeam, prev, next, gone);
    assert Elems(keys) == next.Keys && Elems(gone) == prev.Keys;
    var m := prev + HeardSet(c, prev, next, next.Keys);
    DeliveredConcat(c, applied, removed);
    FoldConcat(v, Delivered(c, applied), Delivered(c, removed));
    SetEventsHeard(c, v, id, prev, next, keys, prev);
    PutPairsLaws(v, id, ExtensionSeam, m, Heard(c, prev, next));
    RemovedEventsHeard(c, PutPairs(v, id, ExtensionSeam, m), id, prev, next, gone, m);
  }

  // --- the segments operations log ---

  lemma ClearConcat(c: Codec, a: seq<Data>, b: seq<Data>)
    requires Clear(c, a) && Clear(c, b)
    ensures Clear(c, a + b)
  {
    hide Received;
  }

  lemma {:induction false} LabelEventsClear(c: Codec, id: string, prev: Pairs, next: Pairs, keys: seq<string>)
    ensures (forall k :: k in keys ==> k in next) ==> Clear(c, SetEvents(id, LabelSeam, prev, next, keys))
    ensures (forall k :: k in keys ==> k in prev) ==> Clear(c, RemovedEvents(id, LabelSeam, prev, next, keys))
  {
    if keys != [] {
      LabelEventsClear(c, id, prev, next, keys[1..]);
      assert forall k :: k in keys[1..] ==> k in keys;
    }
  }

  lemma LabelDiffClear(c: Codec, order: RangeOrder, n: nat, id: string, prev: Pairs, next: Pairs)
    ensures Clear(c, PairDiff(order, n, id, LabelSeam, prev, next))
  {
    hide SetEvents, RemovedEvents, Received;
    RangedEnumerates(order, n, next.Keys);
    var keys := order(n, next.Keys);
    var applied := SetEvents(id, LabelSeam, prev, next, keys);
    RangedEnumerates(order, n + |applied|, prev.Keys);
    LabelEventsClear(c, id, prev, next, keys);
    LabelEventsClear(c, id, prev, next, order(n + |applied|, prev.Keys));
  }

  lemma {:induction false} EdgeEventsClear(c: Codec, id: string, prev: seq<Edge>, next: seq<Edge>)
    ensures Clear(c, CreatedEdges(id, prev, next)) && Clear(c, RemovedEdges(id, prev, next))
    decreases |prev| + |next|
  {
    if next != [] { EdgeEventsClear(c, id, prev, next[1..]); }
    if prev != [] { EdgeEventsClear(c, id, prev[1..], next); }
  }

  /** A client in step with `s` that applies what reaches it of the events between is in step with `r`. */
  ghost predicate WireTracks(s: Ledger, r: Ledger) {
    s.log <= r.log && Fold(ViewOf(s), Delivered(s.env.codec, r.log[|s.log|..])) == ViewOf(r)
  }

  lemma ClearTracks(s: Ledger, r: Ledger)
    requires Tracks(s, r) && Clear(s.env.codec, r.log[|s.log|..])
    ensures WireTracks(s, r)
  {
    hide Fold, Delivered, ViewOf, Received;
    ClearIsDelivered(s.env.codec, r.log[|s.log|..]);
  }

  lemma WireTracksTransitive(s: Ledger, m: Ledger, r: Ledger)
    requires WireTracks(s, m) && WireTracks(m, r) && m.env == s.env
    ensures WireTracks(s, r)
  {
    hide Fold, ViewOf, Delivered;
    var c, a, b := s.env.codec, m.log[|s.log|..], r.log[|m.log|..];
    DeliveredConcat(c, a, b);
    FoldConcat(ViewOf(s), Delivered(c, a), Delivered(c, b));
    assert r.log[|s.log|..] == a + b;
  }

  // --- operations that change no extension ---

  ghost predicate NoEdits(ds: seq<Data>) { forall d :: d in ds ==> !d.TxnUpdated? }

  predicate Quiet(op: Op) { !op.OpRunRules? && !(op.OpSetPairs? && op.seam.ExtensionSeam?) }

  lemma TeardownClear(c: Codec, ds: seq<Data>, rows: map<string, Txn>, ids: set<string>)
    requires Teardown(c, ds, rows, ids)
    ensures Clear(c, ds) && NoEdits(ds)
  {
    hide Snap, Shows, Received;
    forall d | d in ds ensures Received(c, d) == Some(d) && !d.TxnUpdated? {
      if d.TxnDeleted? {
        SnapshotShows(c, rows[d.id]);
        SnapshotsAreClear(c, d.id, rows[d.id]);
      } else {
        EdgeIsClear(c, d);
      }
    }
  }

  lemma EdgeIsClear(c: Codec, d: Data)
    requires d.EdgeCreated? || d.EdgeRemoved?
    ensures Received(c, d) == Some(d)
  {
  }

  /** What a quiet operation logs arrives as it was logged, and extensions stay as they were; new rows
      have none. */
  ghost predicate IsQuiet(s: Ledger, r: Ledger) {
    && r.env == s.env && s.log <= r.log && Clear(s.env.codec, r.log[|s.log|..])
    && forall id :: id in r.txns ==> r.txns[id].extensions == if id in s.txns then s.txns[id].extensions else map[]
  }

  lemma NothingIsQuiet(s: Ledger)
    ensures IsQuiet(s, s) && NoEdits(s.log[|s.log|..])
  {
  }

  lemma AccountWriteQuiet(s: Ledger, op: Op)
    requires op.OpCreateAccount? || op.OpUpdateAccount? || (op.OpDeleteLabel?)
    ensures IsQuiet(s, Step(s, op)) && NoEdits(Step(s, op).log[|s.log|..])
  {
    hide ReadAccount, CleanKeyOf, CleanValueOf;
    if Step(s, op) == s { NothingIsQuiet(s); }
  }

  lemma TxnWriteQuiet(s: Ledger, op: Op)
    requires op.OpCreateTxn? || op.OpUpdateTxn?
    ensures IsQuiet(s, Step(s, op)) && (op.OpCreateTxn? ==> NoEdits(Step(s, op).log[|s.log|..]))
  {
    hide ReadTxn, Received, Snap;
    var r := Step(s, op);
    if r == s {
      NothingIsQuiet(s);
    } else {
      SnapshotsAreClear(s.env.codec, op.id, r.txns[op.id]);
      assert r.log[|s.log|..] == [r.log[|s.log|]];
    }
  }

  lemma DropTxnQuiet(s: Ledger, id: string)
    requires Sound(s)
    ensures var r := DeleteTxn(s, id).0; IsQuiet(s, r) && NoEdits(r.log[|s.log|..])
  {
    hide Sound, DropTxn, Received, Teardown;
    NothingIsQuiet(s);
    if id in s.txns {
      DropTxnIs(s, id, s.txns[id]);
      DropTxnLog(s, id, s.txns[id]);
      TeardownClear(s.env.codec, DropTxn(s, id, s.txns[id]).log[|s.log|..], map[id := s.txns[id]], {id});
    }
  }

  lemma DeleteAccountEnv(s: Ledger, id: string)
    requires Sound(s)
    ensures DeleteAccount(s, id).0.env == s.env
  {
    hide Sound, DropAllChildren;
    DropAllChildrenIs(s, id);
  }

  lemma DeleteAccountQuiet(s: Ledger, id: string)
    requires Sound(s) && |InAccount(s.txns, id)| <= MAX_INT32
    ensures var r := DeleteAccount(s, id).0; IsQuiet(s, r) && NoEdits(r.log[|s.log|..])
  {
    hide Sound, DropAllChildren, DropAccount, Teardown, Deletions, NewestFirst;
    NothingIsQuiet(s);
    if id in s.accounts && s.accounts[id].source == MANUAL {
      DeleteAccountTransition(s, id);
      DeleteAccountEnv(s, id);
      var r := DeleteAccount(s, id).0;
      var rows, last := r.log[|s.log|..|r.log| - 1], r.log[|r.log| - 1];
      TeardownClear(s.env.codec, rows, s.txns, InAccount(s.txns, id));
      assert r.log[|s.log|..] == rows + [last];
    }
  }

  lemma EdgeWriteQuiet(s: Ledger, id: string, transformed: seq<Edge>)
    requires id in s.txns
    ensures var r := MutateEdges(s, id, transformed).0; IsQuiet(s, r) && NoEdits(r.log[|s.log|..])
  {
    hide NormalizeEdges, CreatedEdges, RemovedEdges, Received, EdgeAllowed;
    NothingIsQuiet(s);
    var prev, next := s.txns[id].edges, NormalizeEdges(transformed);
    EdgeEventsClear(s.env.codec, id, prev, next);
    ClearConcat(s.env.codec, CreatedEdges(id, prev, next), RemovedEdges(id, prev, next));
    EdgeEventsAreNoEdits(id, prev, next);
    assert (s.log + EdgeDiff(id, prev, next))[|s.log|..] == EdgeDiff(id, prev, next);
  }

  lemma {:induction false} EdgeEventsAreNoEdits(id: string, prev: seq<Edge>, next: seq<Edge>)
    ensures NoEdits(CreatedEdges(id, prev, next)) && NoEdits(RemovedEdges(id, prev, next))
    decreases |prev| + |next|
  {
    if next != [] { EdgeEventsAreNoEdits(id, prev, next[1..]); }
    if prev != [] { EdgeEventsAreNoEdits(id, prev[1..], next); }
  }

  lemma {:induction false} PairEventsAreNoEdits(id: string, seam: Seam, prev: Pairs, next: Pairs, keys: seq<string>)
    ensures (forall k :: k in keys ==> k in next) ==> NoEdits(SetEvents(id, seam, prev, next, keys))
    ensures (forall k :: k in keys ==> k in prev) ==> NoEdits(RemovedEvents(id, seam, prev, next, keys))
  {
    hide Differs;
    if keys != [] {
      PairEventsAreNoEdits(id, seam, prev, next, keys[1..]);
      assert forall k :: k in keys[1..] ==> k in keys;
    }
  }

  lemma PairDiffNoEdits(order: RangeOrder, n: nat, id: string, seam: Seam, prev: Pairs, next: Pairs)
    ensures NoEdits(PairDiff(order, n, id, seam, prev, next))
  {
    hide SetEvents, RemovedEvents;
    RangedEnumerates(order, n, next.Keys);
    var keys := order(n, next.Keys);
    var applied := SetEvents(id, seam, prev, next, keys);
    RangedEnumerates(order, n + |applied|, prev.Keys);
    PairEventsAreNoEdits(id, seam, prev, next, keys);
    PairEventsAreNoEdits(id, seam, prev, next, order(n + |applied|, prev.Keys));
  }

  lemma WritePairsLog(s: Ledger, id: string, seam: Seam, m: Pairs)
    requires id in s.txns
    ensures var r := WritePairs(s, id, seam, m);
            && s.log <= r.log
            && r.log[|s.log|..] == PairDiff(s.env.order, |s.log|, id, seam, PairsOf(s.txns[id], seam), m)
            && NoEdits(r.log[|s.log|..])
  {
    hide PairDiff, Snap;
    PairDiffNoEdits(s.env.order, |s.log|, id, seam, PairsOf(s.txns[id], seam), m);
  }

  lemma LabelWriteQuiet(s: Ledger, id: string, m: Pairs)
    requires id in s.txns
    ensures IsQuiet(s, WritePairs(s, id, LabelSeam, m))
  {
    hide WritePairs, PairDiff, Received;
    WritePairsIs(s, id, LabelSeam, m);
    WritePairsLog(s, id, LabelSeam, m);
    LabelDiffClear(s.env.codec, s.env.order, |s.log|, id, s.txns[id].labels, m);
  }

  lemma QuietStep(s: Ledger, op: Op)
    requires Sound(s) && Admissible(s, op) && Quiet(op)
    ensures IsQuiet(s, Step(s, op)) && (!op.OpUpdateTxn? ==> NoEdits(Step(s, op).log[|s.log|..]))
  {
    hide Sound, IsQuiet, NoEdits, CreateAccount, UpdateAccount, CreateTxn, UpdateTxn, DeleteTxn, DeleteAccount,
        DeleteLabel, WritePairs, MutateEdges, Normalize, NormalizeKind, Trim, Without;
    NothingIsQuiet(s);
    match op {
      case OpDeleteTxn(id) => DropTxnQuiet(s, id);
      case OpDeleteAccount(id) => DeleteAccountQuiet(s, id);
      case OpCreateTxn(_, _, _) => TxnWriteQuiet(s, op);
      case OpUpdateTxn(_, _, _) => TxnWriteQuiet(s, op);
      case OpSetPairs(id, seam, pairs) =>
        if id in s.txns {
          LabelWriteQuiet(s, id, Normalize(seam, pairs));
          WritePairsLog(s, id, seam, Normalize(seam, pairs));
        }
      case OpAddEdge(id, kind, target) =>
        if id in s.txns { EdgeWriteQuiet(s, id, s.txns[id].edges + [Edge(kind, target)]); }
      case OpRemoveEdge(id, kind, target) =>
        var edge := Edge(NormalizeKind(kind), Trim(target));
        if id in s.txns { EdgeWriteQuiet(s, id, Without(s.txns[id].edges, edge)); }
      case _ => AccountWriteQuiet(s, op);
    }
  }

  // --- rows whose extensions change ---

  /** The row a client holds that held `t` and heard of its change to `next`. */
  ghost function HeardTxn(c: Codec, t: Txn, next: Txn): TxnView {
    TxnViewOf(next).(extensions := Heard(c, t.extensions, next.extensions))
  }

  lemma ExtensionWriteHeard(v: View, s: Ledger, id: string, m: Pairs)
    requires id in s.txns && id in v.txns && v.txns[id].extensions == s.txns[id].extensions
    ensures var r := WritePairs(s, id, ExtensionSeam, m);
            && s.log <= r.log && NoEdits(r.log[|s.log|..])
            && Fold(v, Delivered(s.env.codec, r.log[|s.log|..]))
               == PutPairs(v, id, ExtensionSeam, Heard(s.env.codec, s.txns[id].extensions, m))
  {
    hide Fold, Delivered, PairDiff, WritePairs, PutPairs, Heard;
    WritePairsLog(s, id, ExtensionSeam, m);
    ExtensionDiffHeard(s.env.codec, v, s.env.order, |s.log|, id, s.txns[id].extensions, m);
  }

  lemma LabelWriteHeard(v: View, s: Ledger, id: string, m: Pairs)
    requires id in s.txns && id in v.txns && v.txns[id].labels == s.txns[id].labels && Normal(LabelSeam, m)
    ensures var r := WritePairs(s, id, LabelSeam, m);
            && s.log <= r.log && NoEdits(r.log[|s.log|..])
            && Fold(v, Delivered(s.env.codec, r.log[|s.log|..])) == PutPairs(v, id, LabelSeam, m)
  {
    hide Fold, Delivered, PairDiff, WritePairs, PutPairs, CleanKeyOf, CleanValueOf, Received;
    WritePairsLog(s, id, LabelSeam, m);
    LabelDiffClear(s.env.codec, s.env.order, |s.log|, id, s.txns[id].labels, m);
    ClearIsDelivered(s.env.codec, PairDiff(s.env.order, |s.log|, id, LabelSeam, s.txns[id].labels, m));
    PairDiffFolds(v, s.env.order, |s.log|, id, LabelSeam, s.txns[id].labels, m);
  }

  lemma DeliveredNothing(c: Codec, v: View)
    ensures Fold(v, Delivered(c, [])) == v
  {
  }

  /** Folding what two writes log, one after the other. */
  lemma HeardInTurn(c: Codec, v: View, s: Ledger, m: Ledger, r: Ledger)
    requires s.log <= m.log && m.log <= r.log
    requires NoEdits(m.log[|s.log|..]) && NoEdits(r.log[|m.log|..])
    ensures s.log <= r.log && NoEdits(r.log[|s.log|..])
    ensures Fold(v, Delivered(c, r.log[|s.log|..]))
            == Fold(Fold(v, Delivered(c, m.log[|s.log|..])), Delivered(c, r.log[|m.log|..]))
  {
    hide Fold, Delivered;
    var a, b := m.log[|s.log|..], r.log[|m.log|..];
    assert r.log[|s.log|..] == a + b;
    DeliveredConcat(c, a, b);
    FoldConcat(v, Delivered(c, a), Delivered(c, b));
  }

  lemma MaybeLabels(v: View, s: Ledger, id: string, m: Pairs, write: bool)
    returns (r: Ledger, v': View)
    requires id in s.txns && id in v.txns && v.txns[id] == TxnViewOf(s.txns[id])
    requires if write then Normal(LabelSeam, m) else m == s.txns[id].labels
    ensures r == (if write then WritePairs(s, id, LabelSeam, m) else s)
    ensures s.log <= r.log && NoEdits(r.log[|s.log|..]) && Fold(v, Delivered(s.env.codec, r.log[|s.log|..])) == v'
    ensures v' == v.(txns := v.txns[id := v.txns[id].(labels := m)]) && r.env == s.env
    ensures r.txns == s.txns[id := s.txns[id].(labels := m)]
  {
    hide Fold, Delivered, WritePairs, Normal;
    v' := v.(txns := v.txns[id := v.txns[id].(labels := m)]);
    if write {
      r := WritePairs(s, id, LabelSeam, m);
      WritePairsIs(s, id, LabelSeam, m);
      LabelWriteHeard(v, s, id, m);
    } else {
      r := s;
      DeliveredNothing(s.env.codec, v);
      assert v' == v && s.log[|s.log|..] == [];
    }
  }

  lemma MaybeExtensions(v: View, s: Ledger, id: string, m: Pairs, write: bool)
    returns (r: Ledger)
    requires id in s.txns && id in v.txns && v.txns[id] == TxnViewOf(s.txns[id])
    requires write || m == s.txns[id].extensions
    ensures r == (if write then WritePairs(s, id, ExtensionSeam, m) else s)
    ensures s.log <= r.log && NoEdits(r.log[|s.log|..])
    ensures r.txns == s.txns[id := s.txns[id].(extensions := m)]
    ensures Fold(v, Delivered(s.env.codec, r.log[|s.log|..]))
            == v.(txns := v.txns[id := HeardTxn(s.env.codec, s.txns[id], r.txns[id])])
  {
    hide Fold, Delivered, WritePairs, Heard;
    if write {
      r := WritePairs(s, id, ExtensionSeam, m);
      WritePairsIs(s, id, ExtensionSeam, m);
      ExtensionWriteHeard(v, s, id, m);
    } else {
      r := s;
      DeliveredNothing(s.env.codec, v);
      UnchangedIsHeard(s.env.codec, m);
      assert s.log[|s.log|..] == [];
    }
  }

  lemma BothSeams(v: View, s: Ledger, id: string, labels: (Pairs, bool), extensions: (Pairs, bool))
    returns (r: Ledger)
    requires id in s.txns && id in v.txns && v.txns[id] == TxnViewOf(s.txns[id])
    requires if labels.1 then Normal(LabelSeam, labels.0) else labels.0 == s.txns[id].labels
    requires extensions.1 || extensions.0 == s.txns[id].extensions
    ensures var m := if labels.1 then WritePairs(s, id, LabelSeam, labels.0) else s;
            id in m.txns && r == if extensions.1 then WritePairs(m, id, ExtensionSeam, extensions.0) else m
    ensures s.log <= r.log && NoEdits(r.log[|s.log|..]) && id in r.txns
    ensures Fold(v, Delivered(s.env.codec, r.log[|s.log|..]))
            == v.(txns := v.txns[id := HeardTxn(s.env.codec, s.txns[id], r.txns[id])])
  {
    hide Fold, Delivered, WritePairs, Heard, Normal, NoEdits;
    var m, v' := MaybeLabels(v, s, id, labels.0, labels.1);
    r := MaybeExtensions(v', m, id, extensions.0, extensions.1);
    HeardInTurn(s.env.codec, v, s, m, r);
  }

  /** One row of a rule run, for a client in step with that row. */
  lemma RunRowHeard(v: View, s: Ledger, dir: Direction, rules: seq<Rule>, id: string)
    requires id in s.txns && id in v.txns && v.txns[id] == TxnViewOf(s.txns[id])
    ensures var r := RunRow(s, dir, rules, id);
            && s.log <= r.log && NoEdits(r.log[|s.log|..])
            && Fold(v, Delivered(s.env.codec, r.log[|s.log|..]))
               == v.(txns := v.txns[id := HeardTxn(s.env.codec, s.txns[id], r.txns[id])])
  {
    hide Fold, Delivered, WritePairs, Heard, Rewrite, Normal, NoEdits, HeardTxn, TxnViewOf;
    var rec, t := ToRecord(s, id), s.txns[id];
    var labels := Rewrite(dir, rules, rec, LabelSeam, t.labels);
    var extensions := Rewrite(dir, rules, rec, ExtensionSeam, t.extensions);
    RewriteIsNormal(dir, rules, rec, LabelSeam, t.labels);
    RewriteUnchanged(dir, rules, rec, LabelSeam, t.labels);
    RewriteUnchanged(dir, rules, rec, ExtensionSeam, t.extensions);
    var r := BothSeams(v, s, id, labels, extensions);
    assert r == RunRow(s, dir, rules, id);
  }

  /** What a client holds that was in step with the rows `ids` of `s` and heard of their change to those of `r`. */
  ghost function HeardRows(c: Codec, v: View, s: Ledger, r: Ledger, ids: set<string>): View {
    v.(txns := map x | x in v.txns ::
      if x in ids && x in s.txns && x in r.txns then HeardTxn(c, s.txns[x], r.txns[x]) else v.txns[x])
  }

  ghost predicate InStep(v: View, s: Ledger, ids: seq<string>) {
    forall id :: id in ids ==> id in s.txns && id in v.txns && v.txns[id] == TxnViewOf(s.txns[id])
  }

  lemma CountRowHeard(v: View, r: RunResult, dir: Direction, rules: seq<Rule>, ids: seq<string>)
    returns (r': RunResult, v': View)
    requires Distinct(ids) && ids != [] && InStep(v, r.ledger, ids)
    ensures r' == CountRow(r, dir, rules, ids[0]) && r'.ledger.env == r.ledger.env
    ensures var id, c := ids[0], r.ledger.env.codec;
            v' == v.(txns := v.txns[id := HeardTxn(c, r.ledger.txns[id], r'.ledger.txns[id])])
    ensures ids[0] !in ids[1..] && InStep(v', r'.ledger, ids[1..])
    ensures r.ledger.log <= r'.ledger.log && NoEdits(r'.ledger.log[|r.ledger.log|..])
    ensures Fold(v, Delivered(r.ledger.env.codec, r'.ledger.log[|r.ledger.log|..])) == v'
    ensures forall x :: x in r.ledger.txns && x != ids[0] ==> r'.ledger.txns[x] == r.ledger.txns[x]
  {
    hide Fold, Delivered, RunRow, RowChanges, AnyMatch, HeardTxn, TxnViewOf, NoEdits, Rewrite;
    var id := ids[0];
    r' := CountRow(r, dir, rules, id);
    v' := v.(txns := v.txns[id := HeardTxn(r.ledger.env.codec, r.ledger.txns[id], r'.ledger.txns[id])]);
    RunRowHeard(v, r.ledger, dir, rules, id);
    RunRowFrame(r.ledger, dir, rules, id);
  }

  lemma {:induction false} RunRowsHeard(v: View, r: RunResult, dir: Direction, rules: seq<Rule>, ids: seq<string>)
    requires Distinct(ids) && InStep(v, r.ledger, ids)
    ensures forall id :: id in ids ==> id in r.ledger.txns
    ensures var f := RunRows(r, dir, rules, ids).ledger;
            && r.ledger.log <= f.log && NoEdits(f.log[|r.ledger.log|..])
            && Fold(v, Delivered(r.ledger.env.codec, f.log[|r.ledger.log|..]))
               == HeardRows(r.ledger.env.codec, v, r.ledger, f, Elems(ids))
    decreases |ids|
  {
    hide Fold, Delivered, CountRow, HeardTxn, TxnViewOf, NoEdits, HeardRows, Elems;
    var s, c := r.ledger, r.ledger.env.codec;
    if ids == [] {
      DeliveredNothing(c, v);
      assert s.log[|s.log|..] == [];
      HeardByNone(c, v, s);
      NoEditsInNothing();
    } else {
      var r', v' := CountRowHeard(v, r, dir, rules, ids);
      RunRowsHeard(v', r', dir, rules, ids[1..]);
      var f := RunRows(r', dir, rules, ids[1..]).ledger;
      RunRowsElsewhere(r', dir, rules, ids[1..], ids[0]);
      HeardInTurn(c, v, s, r'.ledger, f);
      HeardRowsStep(c, v, v', s, r'.ledger, f, ids);
    }
  }

  lemma HeardByNone(c: Codec, v: View, s: Ledger)
    ensures HeardRows(c, v, s, s, Elems([])) == v
  {
  }

  lemma NoEditsInNothing()
    ensures NoEdits([])
  {
  }

  lemma RunRowsElsewhere(r: RunResult, dir: Direction, rules: seq<Rule>, ids: seq<string>, x: string)
    requires Distinct(ids) && (forall id :: id in ids ==> id in r.ledger.txns) && x in r.ledger.txns && x !in ids
    ensures var f := RunRows(r, dir, rules, ids).ledger; x in f.txns && f.txns[x] == r.ledger.txns[x]
  {
    hide RunTxn, RunRows, Matching, Changing;
    RunRowsPointwise(r.ledger, r, dir, rules, ids);
  }

  lemma HeardRowsStep(c: Codec, v: View, v': View, s: Ledger, m: Ledger, f: Ledger, ids: seq<string>)
    requires ids != [] && ids[0] !in ids[1..]
    requires ids[0] in s.txns && ids[0] in m.txns && ids[0] in v.txns && ids[0] in f.txns
    requires v' == v.(txns := v.txns[ids[0] := HeardTxn(c, s.txns[ids[0]], m.txns[ids[0]])])
    requires f.txns[ids[0]] == m.txns[ids[0]] && m.txns.Keys == s.txns.Keys
    requires forall x :: x in s.txns && x != ids[0] ==> m.txns[x] == s.txns[x]
    ensures HeardRows(c, v', m, f, Elems(ids[1..])) == HeardRows(c, v, s, f, Elems(ids))
  {
    hide HeardTxn;
    assert Elems(ids) == {ids[0]} + Elems(ids[1..]);
  }

  lemma RunRulesHeard(s: Ledger, dir: Direction, rules: seq<Rule>, ruleId: int)
    ensures var r := RunRules(s, dir, rules, ruleId).ledger;
            && s.log <= r.log && NoEdits(r.log[|s.log|..])
            && Fold(ViewOf(s), Delivered(s.env.codec, r.log[|s.log|..]))
               == HeardRows(s.env.codec, ViewOf(s), s, r, s.txns.Keys)
  {
    hide Fold, Delivered, RunRows, AllIds, HeardTxn, TxnViewOf, Distinct;
    var c, v := s.env.codec, ViewOf(s);
    AllIdsExist(s.txns);
    var ids := AllIds(s.txns);
    if rules == [] {
      DeliveredNothing(c, v);
      assert s.log[|s.log|..] == [];
      NothingHeard(c, s);
    } else {
      var m, r := RunRows(RunResult(s, 0, 0), dir, rules, ids).ledger, RunRules(s, dir, rules, ruleId).ledger;
      assert Distinct(ids) && Elems(ids) == s.txns.Keys by { EnumeratesIs(ids, s.txns.Keys); }
      RunRowsHeard(v, RunResult(s, 0, 0), dir, rules, ids);
      RunEventHeard(c, HeardRows(c, v, s, m, s.txns.Keys), m, r);
      HeardInTurn(c, v, s, m, r);
    }
  }

  lemma EnumeratesIs(ids: seq<string>, all: set<string>)
    requires Enumerates(ids, all)
    ensures Distinct(ids) && Elems(ids) == all
  {
  }

  lemma NothingHeard(c: Codec, s: Ledger)
    ensures HeardRows(c, ViewOf(s), s, s, s.txns.Keys) == ViewOf(s)
  {
    forall x | x in s.txns ensures HeardTxn(c, s.txns[x], s.txns[x]) == TxnViewOf(s.txns[x]) {
      UnchangedIsHeard(c, s.txns[x].extensions);
    }
  }

  lemma RunEventHeard(c: Codec, v: View, m: Ledger, r: Ledger)
    requires |r.log| == |m.log| + 1 && r == m.(log := r.log) && m.log <= r.log
    requires var d := r.log[|m.log|]; d.RuleExecuted? || d.RuleReverted?
    ensures Fold(v, Delivered(c, r.log[|m.log|..])) == v && NoEdits(r.log[|m.log|..])
  {
    hide Fold;
    var d := r.log[|m.log|];
    assert r.log[|m.log|..] == [d] && [d][1..] == [];
    assert Clear(c, [d]);
    ClearIsDelivered(c, [d]);
    FoldOne(v, d);
  }

  // --- the theorem, one step at a time ---

  /** Every row's change of extensions carries over the wire. */
  ghost predicate AllCarried(c: Codec, s: Ledger, r: Ledger) {
    forall id :: id in s.txns && id in r.txns ==> Carried(c, s.txns[id].extensions, r.txns[id].extensions)
  }

  /** For writes that change nothing but pairs. */
  lemma HeardRowsExactly(c: Codec, s: Ledger, r: Ledger)
    requires r.accounts == s.accounts && r.txns.Keys == s.txns.Keys
    ensures HeardRows(c, ViewOf(s), s, r, s.txns.Keys) == ViewOf(r) <==> AllCarried(c, s, r)
  {
    hide Heard, Carried;
    var h := HeardRows(c, ViewOf(s), s, r, s.txns.Keys);
    forall x | x in s.txns
      ensures HeardTxn(c, s.txns[x], r.txns[x]) == TxnViewOf(r.txns[x])
              <==> Carried(c, s.txns[x].extensions, r.txns[x].extensions)
    {
      HeardExactly(c, s.txns[x].extensions, r.txns[x].extensions);
    }
    assert h.accounts == ViewOf(r).accounts;
    if h == ViewOf(r) {
      forall x | x in s.txns ensures Carried(c, s.txns[x].extensions, r.txns[x].extensions) {
        assert h.txns[x] == ViewOf(r).txns[x];
      }
    }
    if AllCarried(c, s, r) { assert h.txns == ViewOf(r).txns; }
  }

  lemma SetExtensionsHeard(s: Ledger, id: string, m: Pairs)
    requires id in s.txns
    ensures var r := WritePairs(s, id, ExtensionSeam, m);
            WireTracks(s, r) <==> AllCarried(s.env.codec, s, r)
  {
    hide Fold, Delivered, WritePairs, HeardRows, AllCarried, Heard;
    var r, c := WritePairs(s, id, ExtensionSeam, m), s.env.codec;
    WritePairsIs(s, id, ExtensionSeam, m);
    ExtensionWriteHeard(ViewOf(s), s, id, m);
    OneRowHeard(s, r, id, m);
    HeardRowsExactly(c, s, r);
  }

  lemma PutOne(h: View, v: View, id: string, t: TxnView)
    requires id in v.txns && h.accounts == v.accounts && h.txns.Keys == v.txns.Keys
    requires forall x :: x in v.txns ==> h.txns[x] == if x == id then t else v.txns[x]
    ensures h == v.(txns := v.txns[id := t])
  {
  }

  lemma UnchangedTxnHeard(c: Codec, t: Txn)
    ensures HeardTxn(c, t, t) == TxnViewOf(t)
  {
    UnchangedIsHeard(c, t.extensions);
  }

  lemma ExtendedTxnHeard(c: Codec, t: Txn, m: Pairs)
    ensures HeardTxn(c, t, t.(extensions := m)) == TxnViewOf(t).(extensions := Heard(c, t.extensions, m))
  {
    hide Heard;
  }

  lemma OneRowHeard(s: Ledger, r: Ledger, id: string, m: Pairs)
    requires id in s.txns && r.txns == s.txns[id := s.txns[id].(extensions := m)] && r.accounts == s.accounts
    ensures HeardRows(s.env.codec, ViewOf(s), s, r, s.txns.Keys)
            == PutPairs(ViewOf(s), id, ExtensionSeam, Heard(s.env.codec, s.txns[id].extensions, m))
  {
    hide HeardTxn, TxnViewOf;
    var c, v := s.env.codec, ViewOf(s);
    forall x | x in s.txns && x != id ensures HeardTxn(c, s.txns[x], r.txns[x]) == TxnViewOf(s.txns[x]) {
      UnchangedTxnHeard(c, s.txns[x]);
    }
    ExtendedTxnHeard(c, s.txns[id], m);
    PutOne(HeardRows(c, v, s, r, s.txns.Keys), v, id, HeardTxn(c, s.txns[id], r.txns[id]));
  }

  lemma QuietIsCarried(s: Ledger, r: Ledger)
    requires IsQuiet(s, r)
    ensures AllCarried(s.env.codec, s, r)
  {
    hide Received, Carried;
    forall id | id in s.txns && id in r.txns
      ensures Carried(s.env.codec, s.txns[id].extensions, r.txns[id].extensions)
    {
      UnchangedIsHeard(s.env.codec, s.txns[id].extensions);
    }
  }

  /** A client in step with the tables, applying what reaches it of a request's events, is in step after the request if
      and only if every extension value the request sets survives decoding, and every one it removes can be decoded. */
  lemma StepOverWire(s: Ledger, op: Op)
    requires Sound(s) && Admissible(s, op)
    ensures WireTracks(s, Step(s, op)) <==> AllCarried(s.env.codec, s, Step(s, op))
  {
    hide Sound, WireTracks, AllCarried, IsQuiet, NoEdits, Tracks, Normalize, RunRules, WritePairs, Clear;
    if op.OpRunRules? {
      RunRulesOverWire(s, op.dir, op.rules, op.ruleId);
    } else if Quiet(op) || op.id !in s.txns {
      QuietOverWire(s, op);
    } else {
      SetExtensionsHeard(s, op.id, Normalize(ExtensionSeam, op.pairs));
    }
  }

  lemma QuietOverWire(s: Ledger, op: Op)
    requires Sound(s) && Admissible(s, op) && (Quiet(op) || (op.OpSetPairs? && op.id !in s.txns))
    ensures WireTracks(s, Step(s, op)) && AllCarried(s.env.codec, s, Step(s, op))
  {
    hide Sound, WireTracks, AllCarried, NoEdits, Tracks, Step, Clear, Admissible;
    StepTracks(s, op);
    if Quiet(op) { QuietStep(s, op); } else { UnknownRow(s, op); }
    ClearTracks(s, Step(s, op));
    QuietIsCarried(s, Step(s, op));
  }

  lemma UnknownRow(s: Ledger, op: Op)
    requires op.OpSetPairs? && op.id !in s.txns
    ensures IsQuiet(s, Step(s, op)) && NoEdits(Step(s, op).log[|s.log|..])
  {
    NothingIsQuiet(s);
  }

  lemma RunRulesOverWire(s: Ledger, dir: Direction, rules: seq<Rule>, ruleId: int)
    requires Sound(s) && WellFormedRules(rules)
    ensures var r := RunRules(s, dir, rules, ruleId).ledger; WireTracks(s, r) <==> AllCarried(s.env.codec, s, r)
  {
    hide Sound, Fold, Delivered, RunRules, HeardRows, AllCarried, WellFormedRules, RunTxn, Matching, ViewOf;
    var r := RunRules(s, dir, rules, ruleId).ledger;
    RunRulesHeard(s, dir, rules, ruleId);
    RunRulesExact(s, dir, rules, ruleId);
    HeardRowsExactly(s.env.codec, s, r);
  }

  // --- whole runs ---

  ghost predicate LosslessRows(s: Ledger) {
    forall id :: id in s.txns ==> Lossless(s.env.codec, s.txns[id].extensions)
  }

  /** A request whose extension values all survive decoding: its own, or those of the rules it applies. */
  ghost predicate LosslessOp(c: Codec, op: Op) {
    match op
    case OpSetPairs(_, seam, pairs) =>
      seam.ExtensionSeam? ==>
        forall k :: k in pairs ==> CleanValueOf(seam, pairs[k]) == "" || Survives(c, CleanValueOf(seam, pairs[k]))
    case OpRunRules(_, rules, _) => forall rule :: rule in rules ==> Lossless(c, rule.extensions)
    case _ => true
  }

  lemma {:induction false} NormalizedValues(seam: Seam, m: Pairs, keys: seq<string>, out: Pairs, c: Codec)
    requires forall k :: k in keys ==> k in m
    requires forall k :: k in m ==> CleanValueOf(seam, m[k]) == "" || Survives(c, CleanValueOf(seam, m[k]))
    requires Lossless(c, out)
    ensures Lossless(c, NormalizeFrom(seam, m, keys, out))
  {
    hide CleanKeyOf, CleanValueOf, Survives;
    if keys != [] {
      var k, v := CleanKeyOf(seam, keys[0]), CleanValueOf(seam, m[keys[0]]);
      if k == "" || v == "" || (k !in out && |out| >= MAX_COUNT) {
        NormalizedValues(seam, m, keys[1..], out, c);
      } else {
        NormalizedValues(seam, m, keys[1..], out[k := v], c);
      }
    }
  }

  lemma NormalizeLossless(seam: Seam, m: Pairs, c: Codec)
    requires forall k :: k in m ==> CleanValueOf(seam, m[k]) == "" || Survives(c, CleanValueOf(seam, m[k]))
    ensures Lossless(c, Normalize(seam, m))
  {
    hide CleanKeyOf, CleanValueOf, Survives, Ordered, NormalizeFrom;
    BelowIsStrictTotal();
    OrderedEnumerates(m.Keys, Below);
    NormalizedValues(seam, m, OrderedKeys(m.Keys), map[], c);
  }

  /** Changes between sets of surviving values always carry. */
  lemma LosslessIsCarried(c: Codec, prev: Pairs, next: Pairs)
    requires Lossless(c, prev) && Lossless(c, next)
    ensures Carried(c, prev, next)
  {
  }

  lemma AppliedLossless(c: Codec, dir: Direction, rules: seq<Rule>, rec: Record, current: Pairs)
    requires WellFormedRules(rules) && Normal(ExtensionSeam, current) && Lossless(c, current)
    requires forall rule :: rule in rules ==> Lossless(c, rule.extensions)
    ensures Lossless(c, Rewrite(dir, rules, rec, ExtensionSeam, current).0)
  {
    hide Apply, Unapply, Effect, WellFormedRules, Normal, Kept, CleanKeyOf, CleanValueOf;
    var e := Effect(rules, rec, ExtensionSeam);
    forall k | k in e ensures Survives(c, e[k]) {
      EffectPairs(rules, rec, ExtensionSeam, k);
      var i :| 0 <= i < |rules| && k in Actions(rules[i], ExtensionSeam) && Actions(rules[i], ExtensionSeam)[k] == e[k];
      assert rules[i] in rules;
    }
    ApplyIs(rules, rec, ExtensionSeam, current);
    UnapplyIs(rules, rec, ExtensionSeam, current);
  }

  lemma RunRulesLossless(s: Ledger, op: Op)
    requires Sound(s) && Admissible(s, op) && op.OpRunRules? && LosslessRows(s) && LosslessOp(s.env.codec, op)
    ensures LosslessRows(Step(s, op)) && Step(s, op).env == s.env
  {
    hide Sound, RunRules, Lossless, WellFormedRules, Rewrite, ToRecord;
    RunRulesExact(s, op.dir, op.rules, op.ruleId);
    forall id | id in s.txns ensures Lossless(s.env.codec, RunTxn(s, op.dir, op.rules, id).extensions) {
      SoundRowPairs(s, id);
      AppliedLossless(s.env.codec, op.dir, op.rules, ToRecord(s, id), s.txns[id].extensions);
    }
  }

  lemma SetExtensionsLossless(s: Ledger, op: Op)
    requires op.OpSetPairs? && op.seam.ExtensionSeam? && LosslessRows(s) && LosslessOp(s.env.codec, op)
    ensures LosslessRows(Step(s, op)) && Step(s, op).env == s.env
  {
    hide Lossless, Normalize, WritePairs, CleanValueOf, Survives;
    NormalizeLossless(ExtensionSeam, op.pairs, s.env.codec);
    if op.id in s.txns { WritePairsIs(s, op.id, ExtensionSeam, Normalize(ExtensionSeam, op.pairs)); }
  }

  lemma LosslessRowsAreCarried(s: Ledger, r: Ledger)
    requires LosslessRows(s) && LosslessRows(r) && r.env == s.env
    ensures AllCarried(s.env.codec, s, r)
  {
    hide Lossless, Carried;
    forall id | id in s.txns && id in r.txns
      ensures Carried(s.env.codec, s.txns[id].extensions, r.txns[id].extensions)
    {
      LosslessIsCarried(s.env.codec, s.txns[id].extensions, r.txns[id].extensions);
    }
  }

  /** Requests whose values survive keep every stored value surviving, and so every change carried. */
  lemma StepLossless(s: Ledger, op: Op)
    requires Sound(s) && Admissible(s, op) && LosslessRows(s) && LosslessOp(s.env.codec, op)
    ensures LosslessRows(Step(s, op)) && AllCarried(s.env.codec, s, Step(s, op)) && Step(s, op).env == s.env
  {
    hide Sound, LosslessRows, LosslessOp, AllCarried, IsQuiet, NoEdits, Quiet, Admissible, Step;
    var r := Step(s, op);
    NotQuiet(op);
    if op.OpRunRules? {
      RunRulesLossless(s, op);
    } else if Quiet(op) {
      QuietStep(s, op);
      QuietLossless(s, r);
    } else {
      SetExtensionsLossless(s, op);
    }
    LosslessRowsAreCarried(s, r);
  }

  lemma NotQuiet(op: Op)
    ensures Quiet(op) <==> !op.OpRunRules? && !(op.OpSetPairs? && op.seam.ExtensionSeam?)
  {
  }

  lemma QuietLossless(s: Ledger, r: Ledger)
    requires IsQuiet(s, r) && LosslessRows(s)
    ensures LosslessRows(r) && r.env == s.env
  {
    hide Received;
  }

  /** Over any run of requests whose extension values survive decoding, a client that applies what reaches it mirrors
      the tables. */
  lemma {:induction false} RunOverWire(s: Ledger, ops: seq<Op>)
    requires Sound(s) && AdmissibleRun(s, ops) && LosslessRows(s)
    requires forall op :: op in ops ==> LosslessOp(s.env.codec, op)
    ensures WireTracks(s, Run(s, ops)) && Run(s, ops).env == s.env
    decreases |ops|
  {
    hide Sound, WireTracks, LosslessRows, LosslessOp, AllCarried, Step, Admissible;
    if ops == [] {
      WireTracksSelf(s);
    } else {
      var m := Step(s, ops[0]);
      StepSound(s, ops[0]);
      StepLossless(s, ops[0]);
      StepOverWire(s, ops[0]);
      assert forall op :: op in ops[1..] ==> op in ops;
      RunOverWire(m, ops[1..]);
      WireTracksTransitive(s, m, Run(m, ops[1..]));
    }
  }

  /** From the empty ledger: folding all that reaches the client gives the tables. */
  lemma EventSourcingOverWire(env: Env, ops: seq<Op>)
    requires AdmissibleRun(Empty(env), ops) && forall op :: op in ops ==> LosslessOp(env.codec, op)
    ensures var s := Run(Empty(env), ops);
            Fold(View(map[], map[]), Delivered(env.codec, s.log)) == ViewOf(s)
  {
    hide Fold, Run, Delivered, LosslessOp;
    var s0 := Empty(env);
    RunOverWire(s0, ops);
    assert ViewOf(s0) == View(map[], map[]);
    var s := Run(s0, ops);
    assert s.log[0..] == s.log;
  }

  lemma WireTracksSelf(s: Ledger)
    ensures WireTracks(s, s)
  {
    hide ViewOf, Fold;
    DeliveredNothing(s.env.codec, ViewOf(s));
    assert s.log[|s.log|..] == [];
  }

  // --- a client that adopts whole snapshots ---

  /** Like `Consume`, but a core edit's snapshot replaces labels and extensions too. */
  function Adopt(v: View, d: Data): View {
    if d.TxnUpdated? && d.id in v.txns then
      v.(txns := v.txns[d.id := TxnView(d.txn.core, d.txn.labels, d.txn.extensions, v.txns[d.id].edges)])
    else Consume(v, d)
  }

  function AdoptAll(v: View, ds: seq<Data>): View
    decreases |ds|
  {
    if ds == [] then v else AdoptAll(Adopt(v, ds[0]), ds[1..])
  }

  /** Even reading the log as stored. */
  ghost predicate AdoptTracks(s: Ledger, r: Ledger) {
    s.log <= r.log && AdoptAll(ViewOf(s), r.log[|s.log|..]) == ViewOf(r)
  }

  lemma {:induction false} AdoptIsFold(v: View, ds: seq<Data>)
    requires NoEdits(ds)
    ensures AdoptAll(v, ds) == Fold(v, ds)
    decreases |ds|
  {
    hide Consume;
    if ds != [] {
      assert ds[0] in ds;
      assert forall d :: d in ds[1..] ==> d in ds;
      AdoptIsFold(Consume(v, ds[0]), ds[1..]);
    }
  }

  lemma ValuesExactly(c: Codec, m: Pairs)
    ensures Values(c, m) == m <==> Lossless(c, m)
  {
    if Values(c, m) == m {
      forall k | k in m ensures Survives(c, m[k]) { assert Values(c, m)[k] == m[k]; }
    }
  }

  lemma EditAdopted(s: Ledger, op: Op)
    requires op.OpUpdateTxn? && UpdateTxn(s, op.id, op.txn, op.now).1.Done?
    ensures op.id in s.txns
    ensures AdoptTracks(s, Step(s, op)) <==> Lossless(s.env.codec, s.txns[op.id].extensions)
  {
    hide ReadTxn, Values, VersionChange, Consume, Lossless;
    var r, id := Step(s, op), op.id;
    var next := s.txns[id].(core := ReadTxn(op.txn).value, syncedAt := op.now);
    var d := TxnUpdated(id, Snap(s.env.codec, next));
    EditIs(s, op);
    assert r.log[|s.log|..] == [d] && [d][1..] == [];
    var v := Adopt(ViewOf(s), d);
    assert AdoptAll(ViewOf(s), [d]) == AdoptAll(v, []) == v;
    ValuesExactly(s.env.codec, next.extensions);
    ViewOfWrite(s, r, id);
    assert v.txns[id].extensions == Values(s.env.codec, next.extensions);
    assert ViewOf(r).txns[id].extensions == next.extensions;
  }

  lemma EditIs(s: Ledger, op: Op)
    requires op.OpUpdateTxn? && UpdateTxn(s, op.id, op.txn, op.now).1.Done?
    ensures op.id in s.txns && ReadTxn(op.txn).Some?
    ensures var r, next := Step(s, op), s.txns[op.id].(core := ReadTxn(op.txn).value, syncedAt := op.now);
            && r.accounts == s.accounts && r.env == s.env && r.txns == s.txns[op.id := next]
            && r.log == s.log + [TxnUpdated(op.id, Snap(s.env.codec, next))]
  {
    hide ReadTxn, Snap;
  }

  /** Such a client is in step after a request exactly when the request is no core edit of a row with an extension value
      that does not survive decoding: the edit's snapshot rounds it, or, if it cannot be decoded, wipes them all. */
  lemma AdoptsExactly(s: Ledger, op: Op)
    requires Sound(s) && Admissible(s, op)
    ensures AdoptTracks(s, Step(s, op)) <==>
            (op.OpUpdateTxn? && UpdateTxn(s, op.id, op.txn, op.now).1.Done? ==>
               op.id in s.txns && Lossless(s.env.codec, s.txns[op.id].extensions))
  {
    hide Sound, Lossless, AdoptTracks, UpdateTxn, NoEdits, Tracks, IsQuiet;
    if op.OpUpdateTxn? && UpdateTxn(s, op.id, op.txn, op.now).1.Done? {
      EditAdopted(s, op);
    } else {
      StepTracks(s, op);
      StepNoEdits(s, op);
      AdoptTracksToo(s, Step(s, op));
    }
  }

  lemma AdoptTracksToo(s: Ledger, r: Ledger)
    requires Tracks(s, r) && NoEdits(r.log[|s.log|..])
    ensures AdoptTracks(s, r)
  {
    hide Fold, AdoptAll, ViewOf, NoEdits;
    AdoptIsFold(ViewOf(s), r.log[|s.log|..]);
  }

  lemma StepNoEdits(s: Ledger, op: Op)
    requires Sound(s) && Admissible(s, op)
    requires op.OpUpdateTxn? ==> !UpdateTxn(s, op.id, op.txn, op.now).1.Done?
    ensures s.log <= Step(s, op).log && NoEdits(Step(s, op).log[|s.log|..])
  {
    hide Sound, NoEdits, RunRules, WritePairs, Normalize, IsQuiet;
    NothingIsQuiet(s);
    if op.OpRunRules? {
      RunRulesHeard(s, op.dir, op.rules, op.ruleId);
    } else if op.OpUpdateTxn? {
      RefusedEdit(s, op);
    } else if op.OpSetPairs? {
      if op.id in s.txns { WritePairsLog(s, op.id, op.seam, Normalize(op.seam, op.pairs)); }
    } else {
      QuietStep(s, op);
      QuietAppends(s, Step(s, op));
    }
  }

  lemma RefusedEdit(s: Ledger, op: Op)
    requires op.OpUpdateTxn? && !UpdateTxn(s, op.id, op.txn, op.now).1.Done?
    ensures Step(s, op) == s
  {
    hide ReadTxn, VersionChange;
  }

  lemma QuietAppends(s: Ledger, r: Ledger)
    requires IsQuiet(s, r)
    ensures s.log <= r.log
  {
  }

  lemma {:induction false} AdoptAllConcat(v: View, a: seq<Data>, b: seq<Data>)
    ensures AdoptAll(v, a + b) == AdoptAll(AdoptAll(v, a), b)
    decreases |a|
  {
    hide Adopt;
    if a == [] {
      assert a + b == b;
    } else {
      assert (a + b)[0] == a[0] && (a + b)[1..] == a[1..] + b;
      AdoptAllConcat(Adopt(v, a[0]), a[1..], b);
    }
  }

  lemma AdoptTracksTransitive(s: Ledger, m: Ledger, r: Ledger)
    requires AdoptTracks(s, m) && m.log <= r.log
    ensures AdoptTracks(s, r) <==> AdoptTracks(m, r)
  {
    hide AdoptAll, ViewOf;
    var a, b := m.log[|s.log|..], r.log[|m.log|..];
    AdoptAllConcat(ViewOf(s), a, b);
    assert r.log[|s.log|..] == a + b;
  }

  /** Over any run of requests whose extension values survive decoding, adopting whole snapshots is safe as well. */
  lemma {:induction false} RunAdopts(s: Ledger, ops: seq<Op>)
    requires Sound(s) && AdmissibleRun(s, ops)
    requires (LosslessRows(s) && forall op :: op in ops ==> LosslessOp(s.env.codec, op))
             || forall op :: op in ops ==> !op.OpUpdateTxn?
    ensures AdoptTracks(s, Run(s, ops))
    decreases |ops|
  {
    hide Sound, AdoptTracks, LosslessOp, AllCarried, Step, Admissible, Lossless, UpdateTxn;
    if ops == [] {
      AdoptTracksSelf(s);
    } else {
      var m := Step(s, ops[0]);
      StepSound(s, ops[0]);
      assert ops[0] in ops && forall op :: op in ops[1..] ==> op in ops;
      if LosslessRows(s) && forall op :: op in ops ==> LosslessOp(s.env.codec, op) { StepLossless(s, ops[0]); }
      if ops[0].OpUpdateTxn? && UpdateTxn(s, ops[0].id, ops[0].txn, ops[0].now).1.Done? { EditAdopted(s, ops[0]); }
      AdoptsExactly(s, ops[0]);
      RunAdopts(m, ops[1..]);
      AdoptLogGrows(m, Run(m, ops[1..]));
      AdoptTracksTransitive(s, m, Run(m, ops[1..]));
    }
  }

  lemma AdoptLogGrows(s: Ledger, r: Ledger)
    requires AdoptTracks(s, r)
    ensures s.log <= r.log
  {
  }

  lemma AdoptTracksSelf(s: Ledger)
    ensures AdoptTracks(s, s)
  {
    hide ViewOf;
    assert s.log[|s.log|..] == [];
  }
}
