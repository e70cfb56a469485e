/** Relationship edges: the normal form of a transaction's outbound edge list. */
module Edges {
  import opened Text
  import opened Sorting
  import opened Meta

  datatype Edge = Edge(kind: string, target: string)

  const MAX_EDGES := 100

  /** Edge identity in the Go code: kind, a NUL byte, target. */
  function Key(e: Edge): string { e.kind + ['\0'] + e.target }

  /** Kinds are identifiers, so no NUL can hide inside one and equal keys mean equal edges. */
  lemma KeyInjective(a: Edge, b: Edge)
    requires IsKind(a.kind) && IsKind(b.kind)
    ensures Key(a) == Key(b) <==> a == b
  {
    if Key(a) == Key(b) {
      NoNulBefore(a, b);
      NoNulBefore(b, a);
      assert a.kind == Key(a)[..|a.kind|] && b.kind == Key(b)[..|b.kind|];
      assert a.target == Key(a)[|a.kind| + 1..] && b.target == Key(b)[|b.kind| + 1..];
    }
  }

  lemma NoNulBefore(a: Edge, b: Edge)
    requires IsKind(b.kind) && Key(a) == Key(b)
    ensures |b.kind| <= |a.kind|
  {
    assert Key(b)[|a.kind|] == '\0';
    assert forall i :: 0 <= i < |b.kind| ==> Key(b)[i] == b.kind[i];
  }

  predicate EdgeBelow(a: Edge, b: Edge) {
    Below(a.kind, b.kind) || (a.kind == b.kind && Below(a.target, b.target))
  }

  lemma EdgeBelowIsStrictTotal()
    ensures StrictTotal(EdgeBelow)
  {
    hide Below;
    BelowIsStrictTotal();
    assert StrictTotal(Below);
    forall a: string, b: string ensures a == b || Below(a, b) || Below(b, a) { BelowTotal(a, b); }
    forall a: string ensures !Below(a, a) { BelowIrreflexive(a); }
    forall a, b, c | EdgeBelow(a, b) && EdgeBelow(b, c) ensures EdgeBelow(a, c) {
      if Below(a.kind, b.kind) && Below(b.kind, c.kind) { BelowTransitive(a.kind, b.kind, c.kind); }
      if Below(a.target, b.target) && Below(b.target, c.target) { BelowTransitive(a.target, b.target, c.target); }
    }
  }

  function CleanEdge(e: Edge): Edge { Edge(NormalizeKind(e.kind), Trim(e.target)) }

  predicate IsCleanEdge(e: Edge) { e.kind != "" && e.target != "" && IsKind(e.kind) && Trimmed(e.target) }

  function Collect(edges: seq<Edge>, out: seq<Edge>): seq<Edge> {
    if edges == [] then out
    else
      var e := CleanEdge(edges[0]);
      if e.kind == "" || e.target == "" || e in out || |out| >= MAX_EDGES then Collect(edges[1..], out)
      else Collect(edges[1..], out + [e])
  }

  /** relationships.Normalize. */
  function NormalizeEdges(edges: seq<Edge>): seq<Edge> { Sort(Collect(edges, []), EdgeBelow) }

  /** The stored form of an edge list. */
  ghost predicate NormalEdges(es: seq<Edge>) {
    |es| <= MAX_EDGES && Distinct(es) && Sorted(es, EdgeBelow) && forall e :: e in es ==> IsCleanEdge(e)
  }

  /** Stored edges are listed by kind, then by target. */
  lemma EdgesInOrder(es: seq<Edge>, i: nat, j: nat)
    requires NormalEdges(es) && i < j < |es|
    ensures Below(es[i].kind, es[j].kind) || (es[i].kind == es[j].kind && Below(es[i].target, es[j].target))
  {
    hide Below, IsCleanEdge;
    EdgeBelowIsStrictTotal();
    assert es[i] != es[j] && !EdgeBelow(es[j], es[i]);
    assert EdgeBelow(es[i], es[j]);
  }

  lemma {:induction false} CollectClean(edges: seq<Edge>, out: seq<Edge>)
    requires |out| <= MAX_EDGES && Distinct(out) && forall e :: e in out ==> IsCleanEdge(e)
    ensures var r := Collect(edges, out);
            && |r| <= MAX_EDGES && Distinct(r) && (forall e :: e in r ==> IsCleanEdge(e))
            && (forall e :: e in r ==> e in out || exists i :: 0 <= i < |edges| && e == CleanEdge(edges[i]))
            && out <= r
  {
    hide NormalizeKind, IsKind, Trim, Trimmed;
    if edges != [] {
      var e := CleanEdge(edges[0]);
      NormalizeKindCanonical(edges[0].kind);
      var out' := if e.kind == "" || e.target == "" || e in out || |out| >= MAX_EDGES then out else out + [e];
      CollectClean(edges[1..], out');
      forall x | x in Collect(edges, out)
        ensures x in out || exists i :: 0 <= i < |edges| && x == CleanEdge(edges[i])
      {
        if x !in out' {
          var i :| 0 <= i < |edges[1..]| && x == CleanEdge(edges[1..][i]);
          assert x == CleanEdge(edges[i + 1]);
        } else if x !in out {
          assert x == CleanEdge(edges[0]);
        }
      }
    }
  }

  /** Collecting an already clean, duplicate-free list within the cap copies it. */
  lemma {:induction false} CollectCopies(edges: seq<Edge>, out: seq<Edge>)
    requires |out + edges| <= MAX_EDGES && Distinct(out + edges) && forall e :: e in edges ==> IsCleanEdge(e)
    ensures Collect(edges, out) == out + edges
  {
    hide NormalizeKind, IsKind, Trim, Trimmed;
    if edges == [] {
      assert out + edges == out;
    } else {
      var e := edges[0];
      assert IsCleanEdge(e);
      NormalizeKindCanonical(e.kind);
      assert CleanEdge(e) == e;
      assert (out + edges)[|out|] == e;
      forall i | 0 <= i < |out| ensures out[i] != e { assert (out + edges)[i] == out[i]; }
      assert out + edges == (out + [e]) + edges[1..];
      CollectCopies(edges[1..], out + [e]);
    }
  }

  /** Normalization always reaches the normal form, invents no edge, and leaves the normal form alone. */
  lemma NormalizeEdgesCanonical(edges: seq<Edge>)
    ensures NormalEdges(NormalizeEdges(edges))
    ensures forall e :: e in NormalizeEdges(edges) ==> exists i :: 0 <= i < |edges| && e == CleanEdge(edges[i])
    ensures NormalEdges(edges) ==> NormalizeEdges(edges) == edges
  {
    hide NormalizeKind, IsKind, Trim, EdgeBelow, CleanEdge, IsCleanEdge;
    EdgeBelowIsStrictTotal();
    CollectClean(edges, []);
    var c := Collect(edges, []);
    SortSorts(c, EdgeBelow);
    DistinctFromMultiset(Sort(c, EdgeBelow), c);
    forall e | e in NormalizeEdges(edges) ensures e in c { assert e in multiset(c); }
    if NormalEdges(edges) {
      assert [] + edges == edges;
      CollectCopies(edges, []);
      SortedUnique(NormalizeEdges(edges), edges, EdgeBelow);
    }
  }

  /** Asserting one more edge keeps every old edge; the new one joins if it is well formed and there is room. */
  lemma NormalizeAppend(es: seq<Edge>, e: Edge)
    requires NormalEdges(es)
    ensures Elems(NormalizeEdges(es + [e])) == Elems(es) + AddedEdge(es, e)
  {
    hide NormalizeKind, IsKind, Trim, EdgeBelow, CleanEdge, IsCleanEdge;
    EdgeBelowIsStrictTotal();
    CollectAppend(es, e, []);
    assert [] + es == es;
    CollectCopies(es, []);
    var c := Collect([e], es);
    assert Elems(c) == Elems(es) + AddedEdge(es, e);
    SortElems(c, EdgeBelow);
  }

  ghost function AddedEdge(es: seq<Edge>, e: Edge): set<Edge> {
    var c := CleanEdge(e);
    if c.kind == "" || c.target == "" || |es| >= MAX_EDGES then {} else {c}
  }

  lemma {:induction false} CollectAppend(es: seq<Edge>, e: Edge, out: seq<Edge>)
    ensures Collect(es + [e], out) == Collect([e], Collect(es, out))
  {
    hide CleanEdge;
    if es == [] {
      assert es + [e] == [e];
    } else {
      assert (es + [e])[0] == es[0] && (es + [e])[1..] == es[1..] + [e];
      var c := CleanEdge(es[0]);
      CollectAppend(es[1..], e,
        if c.kind == "" || c.target == "" || c in out || |out| >= MAX_EDGES then out else out + [c]);
    }
  }

  function Without(es: seq<Edge>, e: Edge): seq<Edge> {
    if es == [] then [] else (if es[0] == e then [] else [es[0]]) + Without(es[1..], e)
  }

  function WithoutTarget(es: seq<Edge>, target: string): seq<Edge> {
    if es == [] then [] else (if es[0].target == target then [] else [es[0]]) + WithoutTarget(es[1..], target)
  }

  lemma {:induction false} WithoutIs(es: seq<Edge>, e: Edge)
    requires NormalEdges(es)
    ensures NormalEdges(Without(es, e)) && |Without(es, e)| <= |es|
    ensures Elems(Without(es, e)) == Elems(es) - {e}
  {
    hide IsCleanEdge, EdgeBelow;
    if es != [] {
      var rest := Without(es[1..], e);
      WithoutIs(es[1..], e);
      ElemsOfHead(es);
      WithHead(es, rest);
      assert Elems([es[0]] + rest) == {es[0]} + Elems(rest);
      assert [] + rest == rest;
    }
  }

  lemma {:induction false} WithoutTargetIs(es: seq<Edge>, target: string)
    requires NormalEdges(es)
    ensures NormalEdges(WithoutTarget(es, target))
    ensures Elems(WithoutTarget(es, target)) == set e | e in es && e.target != target
  {
    hide IsCleanEdge, EdgeBelow, NormalEdges;
    if es != [] {
      var rest := WithoutTarget(es[1..], target);
      TailIsNormal(es);
      WithoutTargetIs(es[1..], target);
      WithoutTargetShrinks(es[1..], target);
      ElemsOfHead(es);
      assert Elems(rest) <= Elems(es[1..]);
      WithHead(es, rest);
      assert Elems([es[0]] + rest) == {es[0]} + Elems(rest);
      assert [] + rest == rest;
      assert forall e :: e in es <==> e in Elems(es);
    }
  }

  lemma {:induction false} WithoutTargetShrinks(es: seq<Edge>, target: string)
    ensures |WithoutTarget(es, target)| <= |es|
    ensures |WithoutTarget(es, target)| == |es| <==> WithoutTarget(es, target) == es
    ensures WithoutTarget(es, target) == es <==> forall e :: e in es ==> e.target != target
  {
    if es != [] {
      WithoutTargetShrinks(es[1..], target);
      assert es == [es[0]] + es[1..];
      assert forall e :: e in es <==> e == es[0] || e in es[1..];
    }
  }

  lemma TailIsNormal(es: seq<Edge>)
    requires NormalEdges(es) && es != []
    ensures NormalEdges(es[1..])
  {
    hide IsCleanEdge, EdgeBelow;
  }

  lemma ElemsOfHead(es: seq<Edge>)
    requires es != []
    ensures Elems(es) == {es[0]} + Elems(es[1..])
  {
  }

  lemma WithHead(es: seq<Edge>, rest: seq<Edge>)
    requires NormalEdges(es) && es != [] && NormalEdges(rest) && |rest| < |es| && Elems(rest) <= Elems(es[1..])
    ensures NormalEdges([es[0]] + rest)
  {
    hide IsCleanEdge, EdgeBelow;
    forall e | e in rest ensures e in es && e != es[0] && !EdgeBelow(e, es[0]) {
      assert e in Elems(rest);
      var i :| 0 <= i < |es[1..]| && es[1..][i] == e;
      assert es[i + 1] == e;
    }
    var r := [es[0]] + rest;
    forall i, j | 0 <= i < j < |r| ensures r[i] != r[j] && !EdgeBelow(r[j], r[i]) {
      assert r[j] == rest[j - 1];
      assert rest[j - 1] in rest;
      if i > 0 { assert r[i] == rest[i - 1]; }
    }
  }
}
