/** Relationship neighborhoods read two ways (the search index and the per-transaction scan), and search paging. */
module Search {
  import opened Text
  import opened Sorting
  import opened Meta
  import opened Edges
  import opened Ledger
  import opened Integrity

  datatype Side = Outbound | Inbound

  /** One entry of a neighborhood: the kind, the direction, the transaction at the other end. */
  datatype Entry = Entry(kind: string, side: Side, other: string)

  /** A stored edge together with the row it is stored on. */
  datatype Arrow = Arrow(subject: string, kind: string, target: string)

  datatype Row = Row(id: string, txn: Txn)

  function RowsOf(txns: map<string, Txn>, ids: seq<string>): (rows: seq<Row>)
    requires forall id :: id in ids ==> id in txns
    ensures |rows| == |ids| && forall i :: 0 <= i < |ids| ==> rows[i] == Row(ids[i], txns[ids[i]])
  {
    seq(|ids|, i requires 0 <= i < |ids| => assert ids[i] in ids; Row(ids[i], txns[ids[i]]))
  }

  function ArrowsFrom(subject: string, es: seq<Edge>): seq<Arrow> {
    if es == [] then [] else [Arrow(subject, es[0].kind, es[0].target)] + ArrowsFrom(subject, es[1..])
  }

  function Arrows(rows: seq<Row>): seq<Arrow> {
    if rows == [] then [] else ArrowsFrom(rows[0].id, rows[0].txn.edges) + Arrows(rows[1..])
  }

  /** What one edge contributes to the index list of `id`. */
  function Entries(a: Arrow, id: string): seq<Entry> {
    (if a.subject == id then [Entry(a.kind, Outbound, a.target)] else [])
    + (if a.target == id then [Entry(a.kind, Inbound, a.subject)] else [])
  }

  /** buildRelationshipIndex's list for `id`. */
  function IndexAt(arrows: seq<Arrow>, id: string): seq<Entry> {
    if arrows == [] then [] else Entries(arrows[0], id) + IndexAt(arrows[1..], id)
  }

  function OutboundOf(es: seq<Edge>): seq<Entry> {
    if es == [] then [] else [Entry(es[0].kind, Outbound, es[0].target)] + OutboundOf(es[1..])
  }

  function InboundFrom(arrows: seq<Arrow>, id: string): seq<Entry> {
    if arrows == [] then []
    else (if arrows[0].target == id && arrows[0].subject != id
          then [Entry(arrows[0].kind, Inbound, arrows[0].subject)] else [])
         + InboundFrom(arrows[1..], id)
  }

  /** Outbound first, then by kind, then by the other end. */
  predicate EntryBelow(a: Entry, b: Entry) {
    if a.side != b.side then a.side.Outbound?
    else if a.kind != b.kind then Below(a.kind, b.kind)
    else Below(a.other, b.other)
  }

  /** listTransactionRelationships before its sort, over the related rows in the order given. */
  function Scan(es: seq<Edge>, related: seq<Row>, id: string): seq<Entry> {
    OutboundOf(es) + InboundFrom(Arrows(related), id)
  }

  ghost function RelatedRows(txns: map<string, Txn>): seq<Row> {
    RelatedIdsExist(txns);
    RowsOf(txns, RelatedIds(txns))
  }

  ghost function AllRows(txns: map<string, Txn>): seq<Row> {
    AllIdsExist(txns);
    RowsOf(txns, AllIds(txns))
  }

  /** listTransactionRelationships. */
  ghost function Neighborhood(txns: map<string, Txn>, id: string): seq<Entry>
    requires id in txns
  {
    Sort(Scan(txns[id].edges, RelatedRows(txns), id), EntryBelow)
  }

  lemma EntryBelowIsStrictTotal()
    ensures StrictTotal(EntryBelow)
  {
    hide Below;
    forall a: Entry, b: Entry, c: Entry
      ensures !EntryBelow(a, a) && (a == b || EntryBelow(a, b) || EntryBelow(b, a))
      ensures EntryBelow(a, b) && EntryBelow(b, c) ==> EntryBelow(a, c)
    {
      BelowIrreflexive(a.kind);
      BelowIrreflexive(a.other);
      BelowTotal(a.kind, b.kind);
      BelowTotal(a.other, b.other);
      if Below(a.kind, b.kind) && Below(b.kind, c.kind) { BelowTransitive(a.kind, b.kind, c.kind); }
      if Below(a.other, b.other) && Below(b.other, c.other) { BelowTransitive(a.other, b.other, c.other); }
      if Below(a.kind, b.kind) && Below(b.kind, a.kind) { BelowTransitive(a.kind, b.kind, a.kind); }
    }
  }

  /** A listed neighborhood has what it points at first, then what points at it, each by kind, then by the other end. */
  lemma NeighborhoodInOrder(txns: map<string, Txn>, id: string, i: nat, j: nat)
    requires id in txns && i < j < |Neighborhood(txns, id)|
    ensures var a, b := Neighborhood(txns, id)[i], Neighborhood(txns, id)[j];
            || a == b || (a.side.Outbound? && b.side.Inbound?)
            || (a.side == b.side && Below(a.kind, b.kind))
            || (a.side == b.side && a.kind == b.kind && Below(a.other, b.other))
  {
    hide Below, Scan, RelatedRows;
    EntryBelowIsStrictTotal();
    SortSorts(Scan(txns[id].edges, RelatedRows(txns), id), EntryBelow);
    var a, b := Neighborhood(txns, id)[i], Neighborhood(txns, id)[j];
    assert !EntryBelow(b, a);
    assert a == b || EntryBelow(a, b);
  }

  // --- counting entries by counting edges ---

  lemma EntriesCount(a: Arrow, id: string, kind: string, other: string)
    ensures multiset(Entries(a, id))[Entry(kind, Outbound, other)] == if a == Arrow(id, kind, other) then 1 else 0
    ensures multiset(Entries(a, id))[Entry(kind, Inbound, other)] == if a == Arrow(other, kind, id) then 1 else 0
  {
  }

  lemma {:induction false} IndexCounts(arrows: seq<Arrow>, id: string, kind: string, other: string)
    ensures multiset(IndexAt(arrows, id))[Entry(kind, Outbound, other)] == multiset(arrows)[Arrow(id, kind, other)]
    ensures multiset(IndexAt(arrows, id))[Entry(kind, Inbound, other)] == multiset(arrows)[Arrow(other, kind, id)]
  {
    hide Entries;
    if arrows != [] {
      IndexCounts(arrows[1..], id, kind, other);
      EntriesCount(arrows[0], id, kind, other);
      assert arrows == [arrows[0]] + arrows[1..];
      assert multiset(arrows) == multiset{arrows[0]} + multiset(arrows[1..]);
      assert multiset(IndexAt(arrows, id)) == multiset(Entries(arrows[0], id)) + multiset(IndexAt(arrows[1..], id));
    }
  }

  lemma {:induction false} InboundCounts(arrows: seq<Arrow>, id: string, e: Entry)
    ensures multiset(InboundFrom(arrows, id))[e]
            == if e.side.Inbound? && e.other != id then multiset(arrows)[Arrow(e.other, e.kind, id)] else 0
  {
    if arrows != [] {
      InboundCounts(arrows[1..], id, e);
      assert arrows == [arrows[0]] + arrows[1..];
      assert multiset(arrows) == multiset{arrows[0]} + multiset(arrows[1..]);
      var rest := InboundFrom(arrows[1..], id);
      assert [] + rest == rest;
    }
  }

  lemma {:induction false} OutboundCounts(es: seq<Edge>, e: Entry)
    ensures multiset(OutboundOf(es))[e] == if e.side.Outbound? then multiset(es)[Edge(e.kind, e.other)] else 0
  {
    if es != [] {
      OutboundCounts(es[1..], e);
      assert es == [es[0]] + es[1..];
      assert multiset(es) == multiset{es[0]} + multiset(es[1..]);
    }
  }

  lemma {:induction false} ArrowsFromCounts(subject: string, es: seq<Edge>, a: Arrow)
    ensures multiset(ArrowsFrom(subject, es))[a]
            == if a.subject == subject then multiset(es)[Edge(a.kind, a.target)] else 0
  {
    if es != [] {
      ArrowsFromCounts(subject, es[1..], a);
      assert es == [es[0]] + es[1..];
      assert multiset(es) == multiset{es[0]} + multiset(es[1..]);
    }
  }

  /** Over rows with distinct ids an edge is met as often as its own row stores it. */
  lemma {:induction false} ArrowsCount(txns: map<string, Txn>, ids: seq<string>, a: Arrow)
    requires Distinct(ids) && forall id :: id in ids ==> id in txns
    ensures multiset(Arrows(RowsOf(txns, ids)))[a]
            == if a.subject in ids then multiset(txns[a.subject].edges)[Edge(a.kind, a.target)] else 0
  {
    if ids != [] {
      var rows := RowsOf(txns, ids);
      assert rows[1..] == RowsOf(txns, ids[1..]);
      assert ids == [ids[0]] + ids[1..];
      ArrowsCount(txns, ids[1..], a);
      ArrowsFromCounts(ids[0], txns[ids[0]].edges, a);
      assert ids[0] !in ids[1..];
    }
  }

  /** The table's edges, whichever complete listing of its rows they are collected from. */
  lemma ArrowsOfTable(txns: map<string, Txn>, ids: seq<string>, a: Arrow)
    requires Distinct(ids) && (forall id :: id in ids ==> id in txns)
    requires forall id :: id in txns && txns[id].edges != [] ==> id in ids
    ensures multiset(Arrows(RowsOf(txns, ids)))[a]
            == if a.subject in txns then multiset(txns[a.subject].edges)[Edge(a.kind, a.target)] else 0
  {
    ArrowsCount(txns, ids, a);
  }

  // --- the theorems ---

  /** Outbound and inbound are exact duals. */
  lemma IndexDuality(arrows: seq<Arrow>, a: string, b: string, kind: string)
    ensures multiset(IndexAt(arrows, a))[Entry(kind, Outbound, b)]
        == multiset(IndexAt(arrows, b))[Entry(kind, Inbound, a)]
  {
    IndexCounts(arrows, a, kind, b);
    IndexCounts(arrows, b, kind, a);
  }

  function TotalOver(arrows: seq<Arrow>, ids: seq<string>): nat {
    if ids == [] then 0 else |IndexAt(arrows, ids[0])| + TotalOver(arrows, ids[1..])
  }

  function TotalOfOne(a: Arrow, ids: seq<string>): nat {
    if ids == [] then 0 else |Entries(a, ids[0])| + TotalOfOne(a, ids[1..])
  }

  lemma {:induction false} TotalSplits(arrows: seq<Arrow>, ids: seq<string>)
    requires arrows != []
    ensures TotalOver(arrows, ids) == TotalOfOne(arrows[0], ids) + TotalOver(arrows[1..], ids)
  {
    if ids != [] { TotalSplits(arrows, ids[1..]); }
  }

  lemma {:induction false} OneEdgeTwoEntries(a: Arrow, ids: seq<string>)
    requires Distinct(ids)
    ensures TotalOfOne(a, ids) == (if a.subject in ids then 1 else 0) + (if a.target in ids then 1 else 0)
  {
    if ids != [] {
      OneEdgeTwoEntries(a, ids[1..]);
      assert ids[0] !in ids[1..];
      assert ids == [ids[0]] + ids[1..];
    }
  }

  /** The index holds two entries for every stored edge. */
  lemma {:induction false} IndexTotal(arrows: seq<Arrow>, ids: seq<string>)
    requires Distinct(ids) && forall a :: a in arrows ==> a.subject in ids && a.target in ids
    ensures TotalOver(arrows, ids) == 2 * |arrows|
  {
    if arrows == [] {
      EmptyTotal(ids);
    } else {
      TotalSplits(arrows, ids);
      assert arrows[0] in arrows;
      OneEdgeTwoEntries(arrows[0], ids);
      IndexTotal(arrows[1..], ids);
    }
  }

  lemma {:induction false} EmptyTotal(ids: seq<string>)
    ensures TotalOver([], ids) == 0
  {
    if ids != [] { EmptyTotal(ids[1..]); }
  }

  function StoredEdges(rows: seq<Row>): nat {
    if rows == [] then 0 else |rows[0].txn.edges| + StoredEdges(rows[1..])
  }

  lemma {:induction false} ArrowsFromSize(subject: string, es: seq<Edge>)
    ensures |ArrowsFrom(subject, es)| == |es|
    ensures forall a :: a in ArrowsFrom(subject, es) ==> a.subject == subject && Edge(a.kind, a.target) in es
  {
    if es != [] { ArrowsFromSize(subject, es[1..]); }
  }

  lemma {:induction false} ArrowsSize(rows: seq<Row>)
    ensures |Arrows(rows)| == StoredEdges(rows)
  {
    hide ArrowsFrom;
    if rows != [] {
      ArrowsFromSize(rows[0].id, rows[0].txn.edges);
      ArrowsSize(rows[1..]);
    }
  }

  /** In every sound state the index lists over the stored ids hold two entries for every stored edge. */
  lemma IndexTotalInTable(s: Ledger)
    requires Sound(s)
    ensures TotalOver(Arrows(AllRows(s.txns)), AllIds(s.txns)) == 2 * StoredEdges(AllRows(s.txns))
  {
    hide Sound, RowSound, Arrows, RowsOf, AllIds;
    AllIdsExist(s.txns);
    var ids, arrows := AllIds(s.txns), Arrows(AllRows(s.txns));
    forall a | a in arrows ensures a.subject in ids && a.target in ids {
      assert multiset(arrows)[a] > 0;
      ArrowsOfTable(s.txns, ids, a);
      if a.target !in s.txns { NoEdgeInto(s, a.subject, Edge(a.kind, a.target)); }
    }
    IndexTotal(arrows, ids);
    ArrowsSize(AllRows(s.txns));
  }

  /** Reading the table in any order, the sorted neighborhood is the same. */
  lemma NeighborhoodIgnoresOrder(txns: map<string, Txn>, ids: seq<string>, id: string)
    requires id in txns && Distinct(ids) && (forall i :: i in ids ==> i in txns)
    requires forall i :: i in txns && txns[i].edges != [] ==> i in ids
    ensures Sort(Scan(txns[id].edges, RowsOf(txns, ids), id), EntryBelow) == Neighborhood(txns, id)
  {
    hide Scan, EntryBelow, RelatedIds;
    RelatedIdsExist(txns);
    EntryBelowIsStrictTotal();
    var a, b := Scan(txns[id].edges, RowsOf(txns, ids), id), Scan(txns[id].edges, RelatedRows(txns), id);
    forall e ensures multiset(a)[e] == multiset(b)[e] {
      ScanCounts(txns, ids, id, e);
      ScanCounts(txns, RelatedIds(txns), id, e);
    }
    SortSorts(a, EntryBelow);
    SortSorts(b, EntryBelow);
    SortedUnique(Sort(a, EntryBelow), Sort(b, EntryBelow), EntryBelow);
  }

  lemma ScanCounts(txns: map<string, Txn>, ids: seq<string>, id: string, e: Entry)
    requires id in txns && Distinct(ids) && (forall i :: i in ids ==> i in txns)
    requires forall i :: i in txns && txns[i].edges != [] ==> i in ids
    ensures multiset(Scan(txns[id].edges, RowsOf(txns, ids), id))[e]
            == if e.side.Outbound? then multiset(txns[id].edges)[Edge(e.kind, e.other)]
               else if e.other != id && e.other in txns then multiset(txns[e.other].edges)[Edge(e.kind, id)]
               else 0
  {
    hide Arrows, RowsOf;
    OutboundCounts(txns[id].edges, e);
    InboundCounts(Arrows(RowsOf(txns, ids)), id, e);
    ArrowsOfTable(txns, ids, Arrow(e.other, e.kind, id));
  }

  lemma IndexCountsInTable(txns: map<string, Txn>, id: string, e: Entry)
    ensures multiset(IndexAt(Arrows(AllRows(txns)), id))[e]
            == if e.side.Outbound? then (if id in txns then multiset(txns[id].edges)[Edge(e.kind, e.other)] else 0)
               else if e.other in txns then multiset(txns[e.other].edges)[Edge(e.kind, id)] else 0
  {
    hide Arrows, RowsOf, IndexAt, AllIds;
    AllIdsExist(txns);
    IndexCounts(Arrows(AllRows(txns)), id, e.kind, e.other);
    ArrowsOfTable(txns, AllIds(txns), Arrow(id, e.kind, e.other));
    ArrowsOfTable(txns, AllIds(txns), Arrow(e.other, e.kind, id));
  }

  /** The fast index has exactly the entries of the slow scan if and only if the transaction has no edge to itself. */
  lemma IndexMatchesScan(txns: map<string, Txn>, id: string)
    requires id in txns
    ensures multiset(IndexAt(Arrows(AllRows(txns)), id)) == multiset(Neighborhood(txns, id))
            <==> forall e :: e in txns[id].edges ==> e.target != id
  {
    hide Scan, IndexAt, EntryBelow, Arrows, RowsOf, RelatedIds, AllIds;
    RelatedIdsExist(txns);
    EntryBelowIsStrictTotal();
    var index, scan := IndexAt(Arrows(AllRows(txns)), id), Scan(txns[id].edges, RelatedRows(txns), id);
    SortSorts(scan, EntryBelow);
    forall e: Entry ensures multiset(index)[e] == multiset(scan)[e]
                     + if e.side.Inbound? && e.other == id then multiset(txns[id].edges)[Edge(e.kind, id)] else 0
    {
      IndexCountsInTable(txns, id, e);
      ScanCounts(txns, RelatedIds(txns), id, e);
    }
    if e :| e in txns[id].edges && e.target == id {
      assert multiset(txns[id].edges)[e] > 0;
      assert multiset(index)[Entry(e.kind, Inbound, id)] > multiset(scan)[Entry(e.kind, Inbound, id)];
    } else {
      forall e: Entry ensures multiset(index)[e] == multiset(scan)[e] {
        assert Edge(e.kind, id) !in txns[id].edges;
      }
    }
  }

  /** In every sound, hence every reachable, state: for a stored id the index and the scan agree; for any
      other id the index has nothing. */
  lemma IndexRefinesScan(s: Ledger, id: string)
    requires Sound(s)
    ensures id in s.txns ==> multiset(IndexAt(Arrows(AllRows(s.txns)), id)) == multiset(Neighborhood(s.txns, id))
    ensures id !in s.txns ==> IndexAt(Arrows(AllRows(s.txns)), id) == []
  {
    hide Sound, RowSound, IndexAt, Arrows, AllRows, Neighborhood;
    if id in s.txns {
      NoSelfEdge(s, id);
      IndexMatchesScan(s.txns, id);
    } else {
      var index := IndexAt(Arrows(AllRows(s.txns)), id);
      if index != [] {
        var e := index[0];
        assert multiset(index)[e] > 0;
        IndexCountsInTable(s.txns, id, e);
        if e.other in s.txns { NoEdgeInto(s, e.other, Edge(e.kind, id)); }
        assert false;
      }
    }
  }

  lemma NoSelfEdge(s: Ledger, id: string)
    requires Sound(s) && id in s.txns
    ensures forall e :: e in s.txns[id].edges ==> e.target != id
  {
    hide NormalEdges, Normal;
    SoundRow(s, id);
  }

  lemma NoEdgeInto(s: Ledger, from: string, e: Edge)
    requires Sound(s) && from in s.txns && e.target !in s.txns
    ensures e !in s.txns[from].edges
  {
    hide NormalEdges, Normal;
    SoundRow(s, from);
  }

  // --- batches and pages ---

  /** One batch of LIMIT `n` OFFSET `offset`. */
  function Slice<T>(rows: seq<T>, offset: nat, n: nat): seq<T> {
    if offset >= |rows| then [] else if |rows| - offset <= n then rows[offset..] else rows[offset..offset + n]
  }

  /** searchTransactions' clamped page of a match list. */
  function SearchPage<T>(matched: seq<T>, limit: int, offset: int): seq<T> {
    var from := if offset < 0 then 0 else if offset > |matched| then |matched| else offset;
    var rest := matched[from..];
    if limit >= 0 && |rest| > limit then rest[..limit] else rest
  }

  function PagesFrom<T>(matched: seq<T>, limit: nat, offset: nat, pages: nat): seq<T>
    decreases pages
  {
    if pages == 0 then [] else SearchPage(matched, limit, offset) + PagesFrom(matched, limit, offset + limit, pages - 1)
  }

  /** Pages at offsets 0, L, 2L, ... concatenate to the match list, cut at what the pages together can hold. */
  lemma {:induction false} PagesTile<T>(matched: seq<T>, limit: nat, offset: nat, pages: nat)
    requires limit > 0 && offset <= |matched|
    ensures var end := offset + limit * pages;
            PagesFrom(matched, limit, offset, pages)
            == if end >= |matched| then matched[offset..] else matched[offset..end]
    decreases pages
  {
    hide SearchPage;
    PageIs(matched, limit, offset);
    var rest := limit * (pages - 1);
    assert limit * pages == limit + rest;
    if pages > 0 {
      assert rest >= 0;
      if offset + limit <= |matched| {
        PagesTile(matched, limit, offset + limit, pages - 1);
      } else {
        PastTheEnd(matched, limit, offset + limit, pages - 1);
      }
    }
  }

  lemma PageIs<T>(matched: seq<T>, limit: nat, offset: nat)
    requires offset <= |matched|
    ensures SearchPage(matched, limit, offset)
            == if offset + limit <= |matched| then matched[offset..offset + limit] else matched[offset..]
  {
  }

  lemma {:induction false} PastTheEnd<T>(matched: seq<T>, limit: nat, offset: nat, pages: nat)
    requires offset >= |matched|
    ensures PagesFrom(matched, limit, offset, pages) == []
    decreases pages
  {
    if pages > 0 { PastTheEnd(matched, limit, offset + limit, pages - 1); }
  }
}
