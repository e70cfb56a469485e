/** What a relationship request does to the row, and what the log says of it. */
module Relations {
  import opened Text
  import opened Sorting
  import opened Edges
  import opened Ledger
  import opened Integrity
  import opened Requests

  predicate TellsOfEdge(d: Data, id: string, prev: seq<Edge>, next: seq<Edge>) {
    match d
    case EdgeCreated(x, e) => x == id && e in next && e !in prev
    case EdgeRemoved(x, e) => x == id && e in prev && e !in next
    case _ => false
  }

  lemma {:induction false} CreatedTell(id: string, prev: seq<Edge>, next: seq<Edge>)
    requires Distinct(next)
    ensures var ds := CreatedEdges(id, prev, next);
            Distinct(ds) && forall d :: d in ds <==> d.EdgeCreated? && d.id == id && d.edge in next && d.edge !in prev
  {
    hide Distinct;
    if next == [] {
      NoneTwice<Data>();
    } else {
      HeadIsNew(next);
      CreatedTell(id, prev, next[1..]);
      var rest := CreatedEdges(id, prev, next[1..]);
      DistinctHead(EdgeCreated(id, next[0]), rest);
      assert [] + rest == rest;
    }
  }

  lemma {:induction false} RemovedTell(id: string, prev: seq<Edge>, next: seq<Edge>)
    requires Distinct(prev)
    ensures var ds := RemovedEdges(id, prev, next);
            Distinct(ds) && forall d :: d in ds <==> d.EdgeRemoved? && d.id == id && d.edge in prev && d.edge !in next
  {
    hide Distinct;
    if prev == [] {
      NoneTwice<Data>();
    } else {
      HeadIsNew(prev);
      RemovedTell(id, prev[1..], next);
      var rest := RemovedEdges(id, prev[1..], next);
      DistinctHead(EdgeRemoved(id, prev[0]), rest);
      assert [] + rest == rest;
    }
  }

  /** One event for each edge that is new or gone, and no other. */
  lemma EdgeDiffTells(id: string, prev: seq<Edge>, next: seq<Edge>)
    requires Distinct(prev) && Distinct(next)
    ensures var ds := EdgeDiff(id, prev, next);
            Distinct(ds) && forall d :: d in ds <==> TellsOfEdge(d, id, prev, next)
  {
    hide Distinct;
    CreatedTell(id, prev, next);
    RemovedTell(id, prev, next);
    DistinctJoin(CreatedEdges(id, prev, next), RemovedEdges(id, prev, next));
  }

  lemma OnlyOne<T>(xs: seq<T>, x: T)
    requires Distinct(xs) && forall y :: y in xs <==> y == x
    ensures xs == [x]
  {
    assert x in xs;
    ElementIn(xs, 0);
    if |xs| > 1 { ElementIn(xs, 1); }
  }

  lemma OnlyNone<T>(xs: seq<T>)
    requires forall x :: x !in xs
    ensures xs == []
  {
    if xs != [] { ElementIn(xs, 0); }
  }

  lemma ElementIn<T>(xs: seq<T>, i: nat)
    requires i < |xs|
    ensures xs[i] in xs
  {
  }

  lemma DiffOfAdded(id: string, es: seq<Edge>, next: seq<Edge>, e: Edge, kept: bool)
    requires Distinct(es) && Distinct(next) && forall x :: x in next <==> x in es || (x == e && kept)
    ensures EdgeDiff(id, es, next) == if kept && e !in es then [EdgeCreated(id, e)] else []
  {
    hide EdgeDiff, Distinct;
    EdgeDiffTells(id, es, next);
    if kept && e !in es {
      assert e in next;
      OnlyOne(EdgeDiff(id, es, next), EdgeCreated(id, e));
    } else {
      OnlyNone(EdgeDiff(id, es, next));
    }
  }

  lemma DiffOfRemoved(id: string, es: seq<Edge>, next: seq<Edge>, e: Edge)
    requires Distinct(es) && Distinct(next) && forall x :: x in next <==> x in es && x != e
    ensures EdgeDiff(id, es, next) == if e in es then [EdgeRemoved(id, e)] else []
  {
    hide EdgeDiff, Distinct;
    EdgeDiffTells(id, es, next);
    if e in es {
      assert e !in next;
      OnlyOne(EdgeDiff(id, es, next), EdgeRemoved(id, e));
    } else {
      OnlyNone(EdgeDiff(id, es, next));
    }
  }

  /** The edge a request names, and whether it is left out: an empty kind or target, or a hundred edges already. */
  function Named(kind: string, target: string): Edge { Edge(NormalizeKind(kind), Trim(target)) }

  predicate Ignored(e: Edge, es: seq<Edge>) { e.kind == "" || e.target == "" || |es| >= 100 }

  /** Only the edges of row `id` change, and the log. */
  ghost predicate EdgesOnly(s: Ledger, r: Ledger, id: string) {
    && r == s.(txns := r.txns, log := r.log) && r.txns.Keys == s.txns.Keys && id in s.txns
    && (forall x :: x in s.txns && x != id ==> r.txns[x] == s.txns[x])
    && r.txns[id] == s.txns[id].(edges := r.txns[id].edges)
  }

  lemma MutateDoes(s: Ledger, id: string, transformed: seq<Edge>)
    requires id in s.txns
    ensures var (r, out), es, next := MutateEdges(s, id, transformed), s.txns[id].edges, NormalizeEdges(transformed);
            && (out == Done <==> forall e :: e in next ==> e in es || (e.target != id && e.target in s.txns))
            && (out == Done || (out == Invalid && r == s))
            && (out == Done ==>
                  EdgesOnly(s, r, id) && r.txns[id].edges == next && r.log == s.log + EdgeDiff(id, es, next))
  {
    hide NormalizeEdges, EdgeDiff;
    var es, next := s.txns[id].edges, NormalizeEdges(transformed);
    forall e | e in next && MutateEdges(s, id, transformed).1 == Done ensures EdgeAllowed(s, id, es, e) {
      var i :| 0 <= i < |next| && next[i] == e;
      assert EdgeAllowed(s, id, es, next[i]);
    }
    assert forall i :: 0 <= i < |next| ==> next[i] in next;
  }

  /** A relationship is added exactly when it is there already, is left out, or points at another stored transaction;
      then the row has its old edges and that one, and the log says so if it is new. */
  lemma AddEdgeDoes(s: Ledger, id: string, kind: string, target: string)
    requires Sound(s)
    ensures var (r, out), e := AddEdge(s, id, kind, target), Named(kind, target);
            && (out == NotFound <==> id !in s.txns)
            && (id in s.txns ==>
                  var es := s.txns[id].edges;
                  && (out == Done <==> Ignored(e, es) || e in es || (e.target != id && e.target in s.txns))
                  && (out == Invalid <==> out != Done)
                  && (out == Done ==>
                        && EdgesOnly(s, r, id)
                        && (forall x :: x in r.txns[id].edges <==> x in es || (x == e && !Ignored(e, es)))
                        && r.log == s.log + (if Ignored(e, es) || e in es then [] else [EdgeCreated(id, e)])))
            && (out != Done ==> r == s)
  {
    hide Sound, NormalizeKind, Trim, NormalizeEdges, EdgeDiff, Ignored, Distinct, MutateEdges, EdgesOnly;
    if id in s.txns {
      var es, e := s.txns[id].edges, Named(kind, target);
      MutateDoes(s, id, es + [Edge(kind, target)]);
      var next := NormalizeEdges(es + [Edge(kind, target)]);
      SoundRow(s, id);
      NextOnAdd(es, kind, target);
      DiffOfAdded(id, es, next, e, !Ignored(e, es));
    }
  }

  lemma NextOnAdd(es: seq<Edge>, kind: string, target: string)
    requires NormalEdges(es)
    ensures var next, e := NormalizeEdges(es + [Edge(kind, target)]), Named(kind, target);
            Distinct(es) && Distinct(next) && forall x :: x in next <==> x in es || (x == e && !Ignored(e, es))
  {
    hide NormalizeKind, Trim, NormalizeEdges, NormalEdges;
    var next, e := NormalizeEdges(es + [Edge(kind, target)]), Named(kind, target);
    NormalizeAppend(es, Edge(kind, target));
    NormalizeEdgesCanonical(es + [Edge(kind, target)]);
    NormalIsDistinct(es);
    NormalIsDistinct(next);
    SameMembers(next, Elems(es) + (if Ignored(e, es) then {} else {e}));
  }

  lemma NormalIsDistinct(es: seq<Edge>)
    requires NormalEdges(es)
    ensures Distinct(es)
  {
  }

  lemma SameMembers(es: seq<Edge>, all: set<Edge>)
    requires Elems(es) == all
    ensures forall e :: e in es <==> e in all
  {
    assert forall e :: e in es <==> e in Elems(es);
  }

  /** A relationship is removed under any spelling that cleans to it: the row keeps exactly the others. */
  lemma RemoveEdgeDoes(s: Ledger, id: string, kind: string, target: string)
    requires Sound(s)
    ensures var (r, out), e := RemoveEdge(s, id, kind, target), Named(kind, target);
            && (out == NotFound <==> id !in s.txns) && (out == Done <==> id in s.txns)
            && (out != Done ==> r == s)
            && (out == Done ==>
                  var es := s.txns[id].edges;
                  && EdgesOnly(s, r, id)
                  && (forall x :: x in r.txns[id].edges <==> x in es && x != e)
                  && r.log == s.log + (if e in es then [EdgeRemoved(id, e)] else []))
  {
    hide Sound, NormalizeKind, Trim, NormalizeEdges, EdgeDiff, Without, Distinct, MutateEdges, EdgesOnly;
    if id in s.txns {
      var es, e := s.txns[id].edges, Named(kind, target);
      MutateDoes(s, id, Without(es, e));
      var next := NormalizeEdges(Without(es, e));
      SoundRow(s, id);
      NextOnRemove(es, e);
      DiffOfRemoved(id, es, next, e);
    }
  }

  lemma NextOnRemove(es: seq<Edge>, e: Edge)
    requires NormalEdges(es)
    ensures var next := NormalizeEdges(Without(es, e));
            Distinct(es) && Distinct(next) && forall x :: x in next <==> x in es && x != e
  {
    hide NormalizeEdges, NormalEdges, Without;
    WithoutIs(es, e);
    NormalizeEdgesCanonical(Without(es, e));
    NormalIsDistinct(es);
    NormalIsDistinct(Without(es, e));
    SameMembers(Without(es, e), Elems(es) - {e});
  }
}
