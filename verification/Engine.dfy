/** The loops behind the write paths: sorting rows out of a table, normalizing pairs, applying rules, indexing edges. */
module Engine {
  import opened Text
  import opened Sorting
  import opened Meta
  import opened Edges
  import opened Ledger
  import opened Search

  /** The members of a set, `ORDER BY` lt. */
  method OrderBy<T(==, !new)>(s: set<T>, lt: (T, T) -> bool) returns (xs: seq<T>)
    requires StrictTotal(lt)
    ensures xs == Ordered(s, lt)
  {
    xs := [];
    var rest := s;
    while rest != {}
      invariant rest <= s && Enumerates(xs, s - rest)
    {
      var x :| x in rest;
      assert x !in xs;
      xs, rest := xs + [x], rest - {x};
    }
    assert s - rest == s;
    SortEnumerates(xs, s, lt);
    xs := Sort(xs, lt);
    OrderedUnique(xs, s, lt);
  }

  lemma SortEnumerates<T(!new)>(xs: seq<T>, s: set<T>, lt: (T, T) -> bool)
    requires StrictTotal(lt) && Enumerates(xs, s)
    ensures Enumerates(Sort(xs, lt), s) && Sorted(Sort(xs, lt), lt)
  {
    SortSorts(xs, lt);
    SortElems(xs, lt);
    DistinctFromMultiset(Sort(xs, lt), xs);
    forall x ensures x in Sort(xs, lt) <==> x in s { assert x in Elems(Sort(xs, lt)) <==> x in Elems(xs); }
  }

  /** labels.Normalize and extensions.Normalize. */
  method NormalizePairs(seam: Seam, input: Pairs) returns (out: Pairs)
    ensures out == Normalize(seam, input)
  {
    hide CleanKeyOf, CleanValueOf, Ordered, Below;
    KeysEnumerate(input);
    var keys := OrderBy(input.Keys, Below);
    assert keys[0..] == keys;
    out := map[];
    for i := 0 to |keys|
      invariant NormalizeFrom(seam, input, keys[i..], out) == NormalizeFrom(seam, input, keys, map[])
    {
      var k, v := CleanKeyOf(seam, keys[i]), CleanValueOf(seam, input[keys[i]]);
      assert keys[i..][0] == keys[i] && keys[i..][1..] == keys[i + 1..];
      if k == "" || v == "" { continue; }
      if k !in out && |out| >= MAX_COUNT { continue; }
      out := out[k := v];
    }
  }

  lemma KeysEnumerate(m: Pairs)
    ensures StrictTotal(Below) && forall k :: k in OrderedKeys(m.Keys) ==> k in m
  {
    BelowIsStrictTotal();
    OrderedEnumerates(m.Keys, Below);
  }

  /** rules.Apply and rules.ApplyExtensions. */
  method ApplyTo(rules: seq<Rule>, rec: Record, seam: Seam, current: Pairs) returns (next: Pairs, changed: bool)
    ensures (next, changed) == Apply(rules, rec, seam, current)
  {
    hide Normalize;
    var merged := current;
    for i := 0 to |rules|
      invariant Merge(rules[i..], rec, seam, merged) == Merge(rules, rec, seam, current)
    {
      assert rules[i..][0] == rules[i] && rules[i..][1..] == rules[i + 1..];
      if !rules[i].query(rec) { continue; }
      merged := merged + Actions(rules[i], seam);
    }
    var normalized := NormalizePairs(seam, merged);
    if normalized == current { return current, false; }
    return normalized, true;
  }

  /** rules.Unapply and rules.UnapplyExtensions. */
  method UnapplyTo(rules: seq<Rule>, rec: Record, seam: Seam, current: Pairs) returns (next: Pairs, changed: bool)
    ensures (next, changed) == Unapply(rules, rec, seam, current)
  {
    hide Normalize;
    var reduced := current;
    for i := 0 to |rules|
      invariant Reduce(rules[i..], rec, seam, reduced) == Reduce(rules, rec, seam, current)
    {
      assert rules[i..][0] == rules[i] && rules[i..][1..] == rules[i + 1..];
      if !rules[i].query(rec) { continue; }
      var actions := Actions(rules[i], seam);
      reduced := map k | k in reduced && !(k in actions && actions[k] == reduced[k]) :: reduced[k];
    }
    var normalized := NormalizePairs(seam, reduced);
    if normalized == current { return current, false; }
    return normalized, true;
  }

  method RewriteTo(dir: Direction, rules: seq<Rule>, rec: Record, seam: Seam, current: Pairs)
    returns (next: Pairs, changed: bool)
    ensures (next, changed) == Rewrite(dir, rules, rec, seam, current)
  {
    if dir.Applying? { next, changed := ApplyTo(rules, rec, seam, current); }
    else { next, changed := UnapplyTo(rules, rec, seam, current); }
  }

  method AnyRuleMatches(rules: seq<Rule>, rec: Record) returns (matches: bool)
    ensures matches <==> AnyMatch(rules, rec)
  {
    for i := 0 to |rules|
      invariant forall j :: 0 <= j < i ==> !rules[j].query(rec)
    {
      if rules[i].query(rec) { return true; }
    }
    return false;
  }

  /** The transform of removeRelationship. */
  method DropEdge(es: seq<Edge>, want: Edge) returns (out: seq<Edge>)
    ensures out == Without(es, want)
  {
    out := [];
    for i := 0 to |es|
      invariant out + Without(es[i..], want) == Without(es, want)
    {
      assert es[i..][1..] == es[i + 1..];
      if es[i] != want { out := out + [es[i]]; }
    }
  }

  method DropTarget(es: seq<Edge>, target: string) returns (out: seq<Edge>)
    ensures out == WithoutTarget(es, target)
  {
    out := [];
    for i := 0 to |es|
      invariant out + WithoutTarget(es[i..], target) == WithoutTarget(es, target)
    {
      assert es[i..][1..] == es[i + 1..];
      if es[i].target != target { out := out + [es[i]]; }
    }
  }

  method CollectOutbound(es: seq<Edge>) returns (out: seq<Entry>)
    ensures out == OutboundOf(es)
  {
    out := [];
    for i := 0 to |es|
      invariant out + OutboundOf(es[i..]) == OutboundOf(es)
    {
      assert es[i..][1..] == es[i + 1..];
      out := out + [Entry(es[i].kind, Outbound, es[i].target)];
    }
  }

  /** The scan of listTransactionRelationships over the related rows. */
  method CollectInbound(rows: seq<Row>, id: string) returns (out: seq<Entry>)
    ensures out == InboundFrom(Arrows(rows), id)
  {
    hide InboundFrom, ArrowsFrom;
    out := [];
    NoInbound(id);
    for i := 0 to |rows|
      invariant out == InboundFrom(Arrows(rows[..i]), id)
    {
      RowSnoc(rows, i);
      InboundConcat(Arrows(rows[..i]), ArrowsFrom(rows[i].id, rows[i].txn.edges), id);
      if rows[i].id == id {
        OwnEdgesAreOutbound(id, rows[i].txn.edges);
        continue;
      }
      ghost var before := out;
      var es := rows[i].txn.edges;
      for j := 0 to |es|
        invariant out == before + InboundFrom(ArrowsFrom(rows[i].id, es[..j]), id)
      {
        EdgeSnoc(rows[i].id, es, j);
        InboundConcat(ArrowsFrom(rows[i].id, es[..j]), [Arrow(rows[i].id, es[j].kind, es[j].target)], id);
        InboundOfOne(Arrow(rows[i].id, es[j].kind, es[j].target), id);
        if es[j].target == id { out := out + [Entry(es[j].kind, Inbound, rows[i].id)]; }
      }
      assert es[..|es|] == es;
    }
    assert rows[..|rows|] == rows;
  }

  lemma NoInbound(id: string)
    ensures InboundFrom(Arrows([]), id) == [] && forall x :: InboundFrom(ArrowsFrom(x, []), id) == []
  {
  }

  lemma InboundOfOne(a: Arrow, id: string)
    ensures InboundFrom([a], id)
            == if a.target == id && a.subject != id then [Entry(a.kind, Inbound, a.subject)] else []
  {
    assert InboundFrom([], id) == [];
  }

  lemma {:induction false} InboundConcat(a: seq<Arrow>, b: seq<Arrow>, id: string)
    ensures InboundFrom(a + b, id) == InboundFrom(a, id) + InboundFrom(b, id)
  {
    if a == [] {
      assert a + b == b;
    } else {
      assert (a + b)[0] == a[0] && (a + b)[1..] == a[1..] + b;
      InboundConcat(a[1..], b, id);
    }
  }

  lemma {:induction false} OwnEdgesAreOutbound(id: string, es: seq<Edge>)
    ensures InboundFrom(ArrowsFrom(id, es), id) == []
  {
    if es != [] {
      OwnEdgesAreOutbound(id, es[1..]);
      var a := Arrow(id, es[0].kind, es[0].target);
      assert ([a] + ArrowsFrom(id, es[1..]))[1..] == ArrowsFrom(id, es[1..]);
    }
  }

  // --- the relationship index ---

  function Listed(idx: map<string, seq<Entry>>, id: string): seq<Entry> { if id in idx then idx[id] else [] }

  function Added(idx: map<string, seq<Entry>>, id: string, e: Entry): map<string, seq<Entry>> {
    idx[id := Listed(idx, id) + [e]]
  }

  lemma {:induction false} IndexConcat(a: seq<Arrow>, b: seq<Arrow>, id: string)
    ensures IndexAt(a + b, id) == IndexAt(a, id) + IndexAt(b, id)
  {
    hide Entries;
    if a == [] {
      assert a + b == b;
    } else {
      assert (a + b)[0] == a[0] && (a + b)[1..] == a[1..] + b;
      IndexConcat(a[1..], b, id);
    }
  }

  lemma {:induction false} ArrowsFromConcat(subject: string, a: seq<Edge>, b: seq<Edge>)
    ensures ArrowsFrom(subject, a + b) == ArrowsFrom(subject, a) + ArrowsFrom(subject, b)
  {
    if a == [] {
      assert a + b == b;
    } else {
      assert (a + b)[0] == a[0] && (a + b)[1..] == a[1..] + b;
      ArrowsFromConcat(subject, a[1..], b);
    }
  }

  lemma {:induction false} ArrowsConcat(a: seq<Row>, b: seq<Row>)
    ensures Arrows(a + b) == Arrows(a) + Arrows(b)
  {
    hide ArrowsFrom;
    if a == [] {
      assert a + b == b;
    } else {
      assert (a + b)[0] == a[0] && (a + b)[1..] == a[1..] + b;
      ArrowsConcat(a[1..], b);
    }
  }

  /** Both entries of one edge. */
  method IndexEdge(idx: map<string, seq<Entry>>, a: Arrow) returns (out: map<string, seq<Entry>>)
    ensures forall id :: Listed(out, id) == Listed(idx, id) + Entries(a, id)
  {
    out := Added(idx, a.subject, Entry(a.kind, Outbound, a.target));
    out := Added(out, a.target, Entry(a.kind, Inbound, a.subject));
  }

  method BuildRelationshipIndex(rows: seq<Row>) returns (idx: map<string, seq<Entry>>)
    ensures forall id :: Listed(idx, id) == IndexAt(Arrows(rows), id)
  {
    hide Entries, IndexAt, Arrows, ArrowsFrom, Listed;
    idx := map[];
    NothingIndexed();
    ghost var done := [];
    for i := 0 to |rows|
      invariant done == Arrows(rows[..i])
      invariant forall id :: Listed(idx, id) == IndexAt(done, id)
    {
      var t := rows[i];
      ghost var before := done;
      for j := 0 to |t.txn.edges|
        invariant done == before + ArrowsFrom(t.id, t.txn.edges[..j])
        invariant forall id :: Listed(idx, id) == IndexAt(done, id)
      {
        var e := t.txn.edges[j];
        ghost var arrow := Arrow(t.id, e.kind, e.target);
        idx := IndexEdge(idx, Arrow(t.id, e.kind, e.target));
        forall id ensures Listed(idx, id) == IndexAt(done + [arrow], id) { IndexSnoc(done, arrow, id); }
        EdgeSnoc(t.id, t.txn.edges, j);
        assert (before + ArrowsFrom(t.id, t.txn.edges[..j])) + [arrow]
            == before + (ArrowsFrom(t.id, t.txn.edges[..j]) + [arrow]);
        done := done + [arrow];
      }
      RowSnoc(rows, i);
      assert t.txn.edges[..|t.txn.edges|] == t.txn.edges;
    }
    assert rows[..|rows|] == rows;
  }

  lemma NothingIndexed()
    ensures Arrows([]) == [] && forall id :: Listed(map[], id) == IndexAt([], id)
    ensures forall subject :: ArrowsFrom(subject, []) == []
  {
  }

  lemma IndexSnoc(done: seq<Arrow>, a: Arrow, id: string)
    ensures IndexAt(done + [a], id) == IndexAt(done, id) + Entries(a, id)
  {
    hide Entries;
    IndexConcat(done, [a], id);
    assert IndexAt([a], id) == Entries(a, id) + IndexAt([], id);
  }

  lemma EdgeSnoc(subject: string, es: seq<Edge>, j: nat)
    requires j < |es|
    ensures ArrowsFrom(subject, es[..j + 1])
        == ArrowsFrom(subject, es[..j]) + [Arrow(subject, es[j].kind, es[j].target)]
  {
    assert es[..j + 1] == es[..j] + [es[j]];
    ArrowsFromConcat(subject, es[..j], [es[j]]);
  }

  lemma RowSnoc(rows: seq<Row>, i: nat)
    requires i < |rows|
    ensures Arrows(rows[..i + 1]) == Arrows(rows[..i]) + ArrowsFrom(rows[i].id, rows[i].txn.edges)
  {
    hide ArrowsFrom;
    assert rows[..i + 1] == rows[..i] + [rows[i]];
    ArrowsConcat(rows[..i], [rows[i]]);
    assert Arrows([rows[i]]) == ArrowsFrom(rows[i].id, rows[i].txn.edges) + Arrows([]);
  }
}
