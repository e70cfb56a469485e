/** The count-and-sort loops behind the label, extension and relationship-kind vocabularies. */
module Counting {
  import opened Text
  import opened Sorting
  import opened Meta
  import opened Edges
  import opened Vocabulary
  import opened Engine

  /** A count map holds the multiplicities of what has been counted. */
  ghost predicate Tallies<T(!new)>(counts: map<T, nat>, tokens: multiset<T>) {
    (forall x :: x in counts <==> x in tokens) && forall x :: x in counts ==> counts[x] == tokens[x]
  }

  method CountOne<T(==, !new)>(counts: map<T, nat>, x: T, ghost tokens: multiset<T>) returns (next: map<T, nat>)
    requires Tallies(counts, tokens)
    ensures Tallies(next, tokens + multiset{x})
  {
    next := counts[x := (if x in counts then counts[x] else 0) + 1];
  }

  lemma OrderedAscends<T(!new)>(s: set<T>, lt: (T, T) -> bool)
    requires StrictTotal(lt)
    ensures forall i, j :: 0 <= i < j < |Ordered(s, lt)| ==> lt(Ordered(s, lt)[i], Ordered(s, lt)[j])
    ensures forall x :: x in Ordered(s, lt) <==> x in s
  {
    hide Ordered;
    OrderedEnumerates(s, lt);
    var xs := Ordered(s, lt);
    forall i, j | 0 <= i < j < |xs| ensures lt(xs[i], xs[j]) {
      assert xs[i] != xs[j] && !lt(xs[j], xs[i]);
    }
  }

  /** The sorted list of a count map. */
  method ListCounts<T(==, !new)>(counts: map<T, nat>, lt: (T, T) -> bool, ghost tokens: multiset<T>)
      returns (out: seq<Count<T>>)
    requires StrictTotal(lt) && Tallies(counts, tokens)
    ensures IsVocabulary(out, tokens, lt)
  {
    hide Ordered;
    var items := OrderBy(counts.Keys, lt);
    OrderedAscends(counts.Keys, lt);
    assert forall i :: 0 <= i < |items| ==> items[i] in counts.Keys;
    out := seq(|items|, i requires 0 <= i < |items| => Count(items[i], counts[items[i]]));
    forall x | x in tokens ensures exists i :: 0 <= i < |out| && out[i].item == x {
      assert x in counts.Keys;
      var i :| 0 <= i < |items| && items[i] == x;
      assert out[i].item == x;
    }
  }

  /** The pairs of a map not yet visited are left out. */
  ghost function Visited(m: Pairs, rest: set<string>): Pairs { map k | k in m && k !in rest :: m[k] }

  lemma ItemsGrow(m: Pairs, rest: set<string>, k: string)
    requires k in rest && rest <= m.Keys
    ensures Items(Visited(m, rest - {k})) == Items(Visited(m, rest)) + {Label(k, m[k])}
    ensures Label(k, m[k]) !in Items(Visited(m, rest))
    ensures Visited(m, rest - {k}).Keys == Visited(m, rest).Keys + {k} && k !in Visited(m, rest)
  {
    var a, b := Visited(m, rest - {k}), Visited(m, rest);
    forall l ensures l in Items(a) <==> l in Items(b) + {Label(k, m[k])} {
      assert l in Items(a) <==> l.key in a && a[l.key] == l.value;
      assert l in Items(b) <==> l.key in b && b[l.key] == l.value;
    }
  }

  lemma NoneVisited(m: Pairs)
    ensures Visited(m, m.Keys) == map[] && Visited(m, {}) == m && Items(map[]) == {}
  {
  }

  lemma {:induction false} LabelTokensConcat(a: seq<Pairs>, b: seq<Pairs>)
    ensures LabelTokens(a + b) == LabelTokens(a) + LabelTokens(b)
  {
    hide Items;
    if a == [] {
      assert a + b == b;
    } else {
      assert (a + b)[0] == a[0] && (a + b)[1..] == a[1..] + b;
      LabelTokensConcat(a[1..], b);
    }
  }

  lemma LabelTokensSnoc(sets: seq<Pairs>, i: nat)
    requires i < |sets|
    ensures LabelTokens(sets[..i + 1]) == LabelTokens(sets[..i]) + multiset(Items(sets[i]))
  {
    hide Items;
    assert sets[..i + 1] == sets[..i] + [sets[i]];
    LabelTokensConcat(sets[..i], [sets[i]]);
  }

  method CountItems(counts: map<Label, nat>, m: Pairs, ghost tokens: multiset<Label>) returns (next: map<Label, nat>)
    requires Tallies(counts, tokens)
    ensures Tallies(next, tokens + multiset(Items(m)))
  {
    hide Items, Visited, Tallies;
    NoneVisited(m);
    next := counts;
    var rest := m.Keys;
    assert tokens + multiset(Items(Visited(m, rest))) == tokens;
    while rest != {}
      invariant rest <= m.Keys && Tallies(next, tokens + multiset(Items(Visited(m, rest))))
    {
      var k :| k in rest;
      next := CountOne(next, Label(k, m[k]), tokens + multiset(Items(Visited(m, rest))));
      ItemsGrow(m, rest, k);
      assert multiset(Items(Visited(m, rest - {k}))) == multiset(Items(Visited(m, rest))) + multiset{Label(k, m[k])};
      assert tokens + multiset(Items(Visited(m, rest))) + multiset{Label(k, m[k])}
          == tokens + multiset(Items(Visited(m, rest - {k})));
      rest := rest - {k};
    }
  }

  method LabelCounts(sets: seq<Pairs>) returns (out: seq<Count<Label>>)
    ensures IsVocabulary(out, LabelTokens(sets), LabelBelow)
  {
    hide LabelTokens, Items, LabelBelow, Tallies;
    var counts: map<Label, nat> := map[];
    NothingTallied<Label>(multiset{});
    for i := 0 to |sets|
      invariant Tallies(counts, LabelTokens(sets[..i]))
    {
      counts := CountItems(counts, sets[i], LabelTokens(sets[..i]));
      LabelTokensSnoc(sets, i);
    }
    assert sets[..|sets|] == sets;
    LabelBelowIsStrictTotal();
    out := ListCounts(counts, LabelBelow, LabelTokens(sets));
  }

  lemma NothingTallied<T(!new)>(none: multiset<T>)
    requires none == multiset{}
    ensures Tallies(map[], none) && LabelTokens([]) == multiset{} && KeyTokens([]) == multiset{}
        && KindTokens([]) == multiset{}
  {
  }

  lemma {:induction false} KeyTokensConcat(a: seq<Pairs>, b: seq<Pairs>)
    ensures KeyTokens(a + b) == KeyTokens(a) + KeyTokens(b)
  {
    if a == [] {
      assert a + b == b;
    } else {
      assert (a + b)[0] == a[0] && (a + b)[1..] == a[1..] + b;
      KeyTokensConcat(a[1..], b);
    }
  }

  lemma KeyTokensSnoc(sets: seq<Pairs>, i: nat)
    requires i < |sets|
    ensures KeyTokens(sets[..i + 1]) == KeyTokens(sets[..i]) + multiset(sets[i].Keys)
  {
    assert sets[..i + 1] == sets[..i] + [sets[i]];
    KeyTokensConcat(sets[..i], [sets[i]]);
  }

  method CountKeys(counts: map<string, nat>, m: Pairs, ghost tokens: multiset<string>) returns (next: map<string, nat>)
    requires Tallies(counts, tokens)
    ensures Tallies(next, tokens + multiset(m.Keys))
  {
    hide Tallies, Visited, Items;
    NoneVisited(m);
    next := counts;
    var rest := m.Keys;
    assert tokens + multiset(Visited(m, rest).Keys) == tokens;
    while rest != {}
      invariant rest <= m.Keys && Tallies(next, tokens + multiset(Visited(m, rest).Keys))
    {
      var k :| k in rest;
      next := CountOne(next, k, tokens + multiset(Visited(m, rest).Keys));
      ItemsGrow(m, rest, k);
      assert multiset(Visited(m, rest - {k}).Keys) == multiset(Visited(m, rest).Keys) + multiset{k};
      assert tokens + multiset(Visited(m, rest).Keys) + multiset{k} == tokens + multiset(Visited(m, rest - {k}).Keys);
      rest := rest - {k};
    }
  }

  method ExtensionKeyCounts(sets: seq<Pairs>) returns (out: seq<Count<string>>)
    ensures IsVocabulary(out, KeyTokens(sets), Below)
  {
    hide KeyTokens, Below, Tallies;
    var counts: map<string, nat> := map[];
    NothingTallied<string>(multiset{});
    for i := 0 to |sets|
      invariant Tallies(counts, KeyTokens(sets[..i]))
    {
      counts := CountKeys(counts, sets[i], KeyTokens(sets[..i]));
      KeyTokensSnoc(sets, i);
    }
    assert sets[..|sets|] == sets;
    BelowIsStrictTotal();
    out := ListCounts(counts, Below, KeyTokens(sets));
  }

  /** The part of a key before its first dot, or the whole key. */
  function Namespace(key: string): (ns: string)
    ensures ns <= key && '.' !in ns && (|ns| < |key| ==> key[|ns|] == '.')
  {
    if key == [] || key[0] == '.' then [] else [key[0]] + Namespace(key[1..])
  }

  /** One extension key with its owner and the number of transactions that carry it. */
  datatype ExtensionCount = ExtensionCount(namespace: string, count: Count<string>)

  function CountsOf(entries: seq<ExtensionCount>): seq<Count<string>> {
    seq(|entries|, i requires 0 <= i < |entries| => entries[i].count)
  }

  method ExtensionCounts(sets: seq<Pairs>) returns (out: seq<ExtensionCount>)
    ensures IsVocabulary(CountsOf(out), KeyTokens(sets), Below)
    ensures forall i :: 0 <= i < |out| ==> out[i].namespace == Namespace(out[i].count.item)
  {
    hide KeyTokens, Below, Namespace;
    var counts := ExtensionKeyCounts(sets);
    out := seq(|counts|, i requires 0 <= i < |counts| => ExtensionCount(Namespace(counts[i].item), counts[i]));
    assert CountsOf(out) == counts;
  }

  lemma {:induction false} KindsConcat(a: seq<Edge>, b: seq<Edge>)
    ensures KindsOf(a + b) == KindsOf(a) + KindsOf(b)
  {
    if a == [] {
      assert a + b == b;
    } else {
      assert (a + b)[0] == a[0] && (a + b)[1..] == a[1..] + b;
      KindsConcat(a[1..], b);
    }
  }

  lemma KindsSnoc(es: seq<Edge>, j: nat)
    requires j < |es|
    ensures multiset(KindsOf(es[..j + 1])) == multiset(KindsOf(es[..j])) + multiset{es[j].kind}
  {
    assert es[..j + 1] == es[..j] + [es[j]];
    KindsConcat(es[..j], [es[j]]);
    assert KindsOf([es[j]]) == [es[j].kind] + KindsOf([]);
  }

  lemma {:induction false} KindTokensConcat(a: seq<seq<Edge>>, b: seq<seq<Edge>>)
    ensures KindTokens(a + b) == KindTokens(a) + KindTokens(b)
  {
    if a == [] {
      assert a + b == b;
    } else {
      assert (a + b)[0] == a[0] && (a + b)[1..] == a[1..] + b;
      KindTokensConcat(a[1..], b);
    }
  }

  lemma KindTokensSnoc(sets: seq<seq<Edge>>, i: nat)
    requires i < |sets|
    ensures KindTokens(sets[..i + 1]) == KindTokens(sets[..i]) + multiset(KindsOf(sets[i]))
  {
    assert sets[..i + 1] == sets[..i] + [sets[i]];
    KindTokensConcat(sets[..i], [sets[i]]);
  }

  method CountKinds(counts: map<string, nat>, es: seq<Edge>, ghost tokens: multiset<string>)
      returns (next: map<string, nat>)
    requires Tallies(counts, tokens)
    ensures Tallies(next, tokens + multiset(KindsOf(es)))
  {
    hide Tallies, KindsOf;
    NoKinds();
    next := counts;
    assert es[..0] == [] && tokens + multiset(KindsOf(es[..0])) == tokens;
    for j := 0 to |es|
      invariant Tallies(next, tokens + multiset(KindsOf(es[..j])))
    {
      next := CountOne(next, es[j].kind, tokens + multiset(KindsOf(es[..j])));
      KindsSnoc(es, j);
      assert tokens + multiset(KindsOf(es[..j])) + multiset{es[j].kind} == tokens + multiset(KindsOf(es[..j + 1]));
    }
    assert es[..|es|] == es;
  }

  method RelationshipKindCounts(sets: seq<seq<Edge>>) returns (out: seq<Count<string>>)
    ensures IsVocabulary(out, KindTokens(sets), Below)
  {
    hide KindTokens, Below, Tallies, KindsOf;
    var counts: map<string, nat> := map[];
    NothingTallied<string>(multiset{});
    for i := 0 to |sets|
      invariant Tallies(counts, KindTokens(sets[..i]))
    {
      counts := CountKinds(counts, sets[i], KindTokens(sets[..i]));
      KindTokensSnoc(sets, i);
    }
    assert sets[..|sets|] == sets;
    BelowIsStrictTotal();
    out := ListCounts(counts, Below, KindTokens(sets));
  }

  lemma NoKinds()
    ensures KindsOf([]) == []
  {
  }

  // --- what the counts count ---

  /** The sets, among the first n, that have the pair; that have the key. */
  ghost function WithLabel(sets: seq<Pairs>, n: nat, l: Label): set<nat> {
    set i: nat | i < n && i < |sets| && l.key in sets[i] && sets[i][l.key] == l.value
  }

  ghost function WithKey(sets: seq<Pairs>, n: nat, key: string): set<nat> {
    set i: nat | i < n && i < |sets| && key in sets[i]
  }

  /** The edges of a kind, by the list they are in and their place in it. */
  ghost function OfKind(sets: seq<seq<Edge>>, n: nat, kind: string): set<(nat, nat)> {
    set i: nat, j: nat | i < n && i < |sets| && j < |sets[i]| && sets[i][j].kind == kind :: (i, j)
  }

  ghost function PlacesOf(es: seq<Edge>, n: nat, row: nat, kind: string): set<(nat, nat)> {
    set j: nat | j < n && j < |es| && es[j].kind == kind :: (row, j)
  }

  lemma {:induction false} LabelsCounted(sets: seq<Pairs>, n: nat, l: Label)
    requires n <= |sets|
    ensures LabelTokens(sets[..n])[l] == |WithLabel(sets, n, l)|
  {
    hide LabelTokens, Items;
    if n == 0 {
      assert sets[..0] == [] && LabelTokens([]) == multiset{} by { NothingTallied<Label>(multiset{}); }
    } else {
      LabelsCounted(sets, n - 1, l);
      LabelTokensSnoc(sets, n - 1);
      ItemsCount(sets[n - 1], l);
      var before := WithLabel(sets, n - 1, l);
      assert WithLabel(sets, n, l)
          == if l.key in sets[n - 1] && sets[n - 1][l.key] == l.value then before + {n - 1} else before;
    }
  }

  lemma {:induction false} KeysCounted(sets: seq<Pairs>, n: nat, key: string)
    requires n <= |sets|
    ensures KeyTokens(sets[..n])[key] == |WithKey(sets, n, key)|
  {
    hide KeyTokens;
    if n == 0 {
      assert sets[..0] == [] && KeyTokens([]) == multiset{} by { NothingTallied<string>(multiset{}); }
    } else {
      KeysCounted(sets, n - 1, key);
      KeyTokensSnoc(sets, n - 1);
      var before := WithKey(sets, n - 1, key);
      assert WithKey(sets, n, key) == if key in sets[n - 1] then before + {n - 1} else before;
    }
  }

  lemma {:induction false} KindsInRow(es: seq<Edge>, n: nat, row: nat, kind: string)
    requires n <= |es|
    ensures multiset(KindsOf(es[..n]))[kind] == |PlacesOf(es, n, row, kind)|
  {
    hide KindsOf;
    if n == 0 {
      NoKinds();
      assert es[..0] == [];
    } else {
      KindsInRow(es, n - 1, row, kind);
      KindsSnoc(es, n - 1);
      var before := PlacesOf(es, n - 1, row, kind);
      assert PlacesOf(es, n, row, kind) == if es[n - 1].kind == kind then before + {(row, n - 1)} else before;
    }
  }

  lemma {:induction false} KindsCounted(sets: seq<seq<Edge>>, n: nat, kind: string)
    requires n <= |sets|
    ensures KindTokens(sets[..n])[kind] == |OfKind(sets, n, kind)|
  {
    hide KindTokens, KindsOf;
    if n == 0 {
      assert sets[..0] == [] && KindTokens([]) == multiset{} by { NothingTallied<string>(multiset{}); }
    } else {
      var es := sets[n - 1];
      KindsCounted(sets, n - 1, kind);
      KindTokensSnoc(sets, n - 1);
      KindsInRow(es, |es|, n - 1, kind);
      assert es[..|es|] == es;
      var before, here := OfKind(sets, n - 1, kind), PlacesOf(es, |es|, n - 1, kind);
      assert OfKind(sets, n, kind) == before + here && before !! here;
    }
  }

  /** The three vocabularies in terms of what is stored: how many sets have the pair or the key, and how many edges the
      kind. */
  lemma CountsMean(sets: seq<Pairs>, l: Label, edges: seq<seq<Edge>>, kind: string)
    ensures LabelTokens(sets)[l] == |WithLabel(sets, |sets|, l)|
    ensures KeyTokens(sets)[l.key] == |WithKey(sets, |sets|, l.key)|
    ensures KindTokens(edges)[kind] == |OfKind(edges, |edges|, kind)|
  {
    hide LabelTokens, KeyTokens, KindTokens;
    assert sets[..|sets|] == sets && edges[..|edges|] == edges;
    LabelsCounted(sets, |sets|, l);
    KeysCounted(sets, |sets|, l.key);
    KindsCounted(edges, |edges|, kind);
  }
}
