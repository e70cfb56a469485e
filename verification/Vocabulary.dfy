/** The label, extension and relationship vocabularies: counting what rows carry, and what a bulk delete removes. */
module Vocabulary {
  import opened Text
  import opened Sorting
  import opened Meta
  import opened Edges
  import opened Amount
  import opened Ledger
  import opened Integrity

  datatype Label = Label(key: string, value: string)

  /** One vocabulary entry: an item and how many times it occurs. */
  datatype Count<T> = Count(item: T, n: nat)

  ghost predicate IsVocabulary<T(!new)>(out: seq<Count<T>>, tokens: multiset<T>, lt: (T, T) -> bool) {
    && (forall i, j :: 0 <= i < j < |out| ==> lt(out[i].item, out[j].item))
    && (forall i :: 0 <= i < |out| ==> out[i].n == tokens[out[i].item] && out[i].n > 0)
    && (forall x :: x in tokens ==> exists i :: 0 <= i < |out| && out[i].item == x)
  }

  function Total<T>(out: seq<Count<T>>): nat {
    if out == [] then 0 else out[0].n + Total(out[1..])
  }

  function Items(m: Pairs): set<Label> { set k | k in m :: Label(k, m[k]) }

  function LabelTokens(sets: seq<Pairs>): multiset<Label> {
    if sets == [] then multiset{} else multiset(Items(sets[0])) + LabelTokens(sets[1..])
  }

  function KeyTokens(sets: seq<Pairs>): multiset<string> {
    if sets == [] then multiset{} else multiset(sets[0].Keys) + KeyTokens(sets[1..])
  }

  function KindsOf(es: seq<Edge>): seq<string> {
    if es == [] then [] else [es[0].kind] + KindsOf(es[1..])
  }

  function KindTokens(sets: seq<seq<Edge>>): multiset<string> {
    if sets == [] then multiset{} else multiset(KindsOf(sets[0])) + KindTokens(sets[1..])
  }

  /** By key, then value. */
  predicate LabelBelow(a: Label, b: Label) {
    if a.key != b.key then Below(a.key, b.key) else Below(a.value, b.value)
  }

  lemma LabelBelowIsStrictTotal()
    ensures StrictTotal(LabelBelow)
  {
    hide Below;
    forall a: Label, b: Label, c: Label
      ensures !LabelBelow(a, a) && (a == b || LabelBelow(a, b) || LabelBelow(b, a))
      ensures LabelBelow(a, b) && LabelBelow(b, c) ==> LabelBelow(a, c)
    {
      BelowIrreflexive(a.value);
      BelowTotal(a.key, b.key);
      BelowTotal(a.value, b.value);
      if Below(a.key, b.key) && Below(b.key, c.key) { BelowTransitive(a.key, b.key, c.key); }
      if Below(a.value, b.value) && Below(b.value, c.value) { BelowTransitive(a.value, b.value, c.value); }
      if Below(a.key, b.key) && Below(b.key, a.key) { BelowTransitive(a.key, b.key, a.key); BelowIrreflexive(a.key); }
    }
  }

  /** A listing has every counted label once, by key, then by value. */
  lemma ListedInOrder(out: seq<Count<Label>>, tokens: multiset<Label>, i: nat, j: nat)
    requires IsVocabulary(out, tokens, LabelBelow) && i < j < |out|
    ensures var a, b := out[i].item, out[j].item;
            Below(a.key, b.key) || (a.key == b.key && Below(a.value, b.value))
  {
    hide Below;
    assert LabelBelow(out[i].item, out[j].item);
  }

  // --- what a vocabulary adds up to ---

  /** The counts sum to every occurrence. */
  lemma {:induction false} VocabularyTotal<T(!new)>(out: seq<Count<T>>, tokens: multiset<T>, lt: (T, T) -> bool)
    requires StrictTotal(lt) && IsVocabulary(out, tokens, lt)
    ensures Total(out) == |tokens|
    decreases |out|
  {
    if out == [] {
      assert tokens == multiset{};
    } else {
      var rest := tokens[out[0].item := 0];
      assert tokens == rest + multiset{}[out[0].item := out[0].n];
      TailIsVocabulary(out, tokens, lt);
      VocabularyTotal(out[1..], rest, lt);
    }
  }

  lemma TailIsVocabulary<T(!new)>(out: seq<Count<T>>, tokens: multiset<T>, lt: (T, T) -> bool)
    requires StrictTotal(lt) && IsVocabulary(out, tokens, lt) && out != []
    ensures IsVocabulary(out[1..], tokens[out[0].item := 0], lt)
  {
    var rest := tokens[out[0].item := 0];
    forall i | 0 <= i < |out[1..]| ensures out[1..][i].n == rest[out[1..][i].item] {
      assert out[1..][i] == out[i + 1] && lt(out[0].item, out[i + 1].item);
    }
    forall x | x in rest ensures exists i :: 0 <= i < |out[1..]| && out[1..][i].item == x {
      assert x in tokens && x != out[0].item;
      var i :| 0 <= i < |out| && out[i].item == x;
      assert out[1..][i - 1].item == x;
    }
  }

  /** The entries of one key. */
  function OfKey(out: seq<Count<Label>>, key: string): seq<Count<Label>> {
    if out == [] then [] else (if out[0].item.key == key then [out[0]] else []) + OfKey(out[1..], key)
  }

  lemma {:induction false} OfKeyMembers(out: seq<Count<Label>>, key: string)
    ensures forall c :: c in OfKey(out, key) <==> c in out && c.item.key == key
  {
    if out != [] { OfKeyMembers(out[1..], key); assert out == [out[0]] + out[1..]; }
  }

  lemma {:induction false} OfKeyAscends(out: seq<Count<Label>>, key: string, lt: (Label, Label) -> bool)
    requires forall i, j :: 0 <= i < j < |out| ==> lt(out[i].item, out[j].item)
    ensures forall i, j :: 0 <= i < j < |OfKey(out, key)| ==> lt(OfKey(out, key)[i].item, OfKey(out, key)[j].item)
  {
    if out != [] {
      OfKeyAscends(out[1..], key, lt);
      OfKeyMembers(out[1..], key);
      var rest := OfKey(out[1..], key);
      forall c | c in rest ensures lt(out[0].item, c.item) {
        var i :| 0 <= i < |out[1..]| && out[1..][i] == c;
        assert out[i + 1] == c;
      }
      assert [] + rest == rest;
      assert forall j :: 0 <= j < |rest| ==> rest[j] in rest;
    }
  }

  function Only(sets: seq<Pairs>, key: string): seq<Pairs> {
    if sets == [] then [] else [if key in sets[0] then map[key := sets[0][key]] else map[]] + Only(sets[1..], key)
  }

  function Holding(sets: seq<Pairs>, key: string): nat {
    if sets == [] then 0 else (if key in sets[0] then 1 else 0) + Holding(sets[1..], key)
  }

  lemma ItemsCount(m: Pairs, l: Label)
    ensures multiset(Items(m))[l] == if l.key in m && m[l.key] == l.value then 1 else 0
  {
    assert l in Items(m) <==> l.key in m && m[l.key] == l.value;
  }

  lemma {:induction false} OnlyTokens(sets: seq<Pairs>, key: string, l: Label)
    ensures LabelTokens(Only(sets, key))[l] == if l.key == key then LabelTokens(sets)[l] else 0
  {
    hide Items;
    if sets != [] {
      OnlyTokens(sets[1..], key, l);
      ItemsCount(sets[0], l);
      ItemsCount(Only(sets, key)[0], l);
    }
  }

  lemma {:induction false} OnlySize(sets: seq<Pairs>, key: string)
    ensures |LabelTokens(Only(sets, key))| == Holding(sets, key)
  {
    if sets != [] {
      OnlySize(sets[1..], key);
      var m := Only(sets, key)[0];
      if key in sets[0] {
        assert m == map[key := sets[0][key]] && key in m;
        assert forall l :: l in Items(m) <==> l == Label(key, sets[0][key]);
        assert Items(m) == {Label(key, sets[0][key])};
      } else {
        assert Items(m) == {};
      }
    }
  }

  /** The counts listed for a key sum to the number of transactions that hold it. */
  lemma KeyTotal(out: seq<Count<Label>>, sets: seq<Pairs>, key: string)
    requires IsVocabulary(out, LabelTokens(sets), LabelBelow)
    ensures Total(OfKey(out, key)) == Holding(sets, key)
  {
    hide LabelBelow, Items;
    LabelBelowIsStrictTotal();
    OfKeyAscends(out, key, LabelBelow);
    OfKeyIsVocabulary(out, sets, key);
    VocabularyTotal(OfKey(out, key), LabelTokens(Only(sets, key)), LabelBelow);
    OnlySize(sets, key);
  }

  lemma OfKeyIsVocabulary(out: seq<Count<Label>>, sets: seq<Pairs>, key: string)
    requires IsVocabulary(out, LabelTokens(sets), LabelBelow)
    ensures IsVocabulary(OfKey(out, key), LabelTokens(Only(sets, key)), LabelBelow)
  {
    hide LabelBelow, LabelTokens, OfKey, Only;
    OfKeyAscends(out, key, LabelBelow);
    OfKeyMembers(out, key);
    var of := OfKey(out, key);
    forall i | 0 <= i < |of| ensures of[i].n == LabelTokens(Only(sets, key))[of[i].item] && of[i].n > 0 {
      assert of[i] in of;
      OnlyTokens(sets, key, of[i].item);
    }
    forall x | x in LabelTokens(Only(sets, key)) ensures exists i :: 0 <= i < |of| && of[i].item == x {
      OnlyTokens(sets, key, x);
      assert x in LabelTokens(sets);
      var i :| 0 <= i < |out| && out[i].item == x;
      assert out[i] in of;
    }
  }

  // --- the ledger's vocabulary ---

  function LabelSets(txns: map<string, Txn>, ids: seq<string>): seq<Pairs>
    requires forall id :: id in ids ==> id in txns
  {
    if ids == [] then [] else [txns[ids[0]].labels] + LabelSets(txns, ids[1..])
  }

  ghost function CarriersAmong(txns: map<string, Txn>, ids: seq<string>, key: string,
      value: Option<string>): set<string>
    requires forall id :: id in ids ==> id in txns
  {
    set id | id in ids && Carries(txns[id], key, value)
  }

  lemma CarriersOfHead(txns: map<string, Txn>, ids: seq<string>, key: string, value: Option<string>)
    requires Distinct(ids) && ids != [] && forall id :: id in ids ==> id in txns
    ensures |CarriersAmong(txns, ids, key, value)|
            == (if Carries(txns[ids[0]], key, value) then 1 else 0) + |CarriersAmong(txns, ids[1..], key, value)|
  {
    hide Carries;
    assert ids[0] !in ids[1..];
    assert ids == [ids[0]] + ids[1..];
    var a, b := CarriersAmong(txns, ids, key, value), CarriersAmong(txns, ids[1..], key, value);
    assert a == if Carries(txns[ids[0]], key, value) then {ids[0]} + b else b;
    assert ids[0] !in b;
  }

  lemma {:induction false} CarriersCounted(txns: map<string, Txn>, ids: seq<string>, l: Label)
    requires Distinct(ids) && forall id :: id in ids ==> id in txns
    ensures LabelTokens(LabelSets(txns, ids))[l] == |CarriersAmong(txns, ids, l.key, Some(l.value))|
    ensures Holding(LabelSets(txns, ids), l.key) == |CarriersAmong(txns, ids, l.key, None)|
  {
    hide Items, CarriersAmong;
    if ids != [] {
      CarriersCounted(txns, ids[1..], l);
      ItemsCount(txns[ids[0]].labels, l);
      CarriersOfHead(txns, ids, l.key, Some(l.value));
      CarriersOfHead(txns, ids, l.key, None);
    } else {
      NoCarriers(txns, l.key, Some(l.value));
      NoCarriers(txns, l.key, None);
    }
  }

  lemma NoCarriers(txns: map<string, Txn>, key: string, value: Option<string>)
    ensures CarriersAmong(txns, [], key, value) == {}
  {
  }

  /** A listing of the rows that leaves out none that carries a label. */
  ghost predicate Lists(txns: map<string, Txn>, ids: seq<string>) {
    && Distinct(ids) && (forall id :: id in ids ==> id in txns)
    && forall id :: id in txns && txns[id].labels != map[] ==> id in ids
  }

  /** Each listed count is the number of rows a bulk delete of that pair, or of that key, would touch. */
  lemma TokensAreCarriers(txns: map<string, Txn>, ids: seq<string>, l: Label)
    requires Lists(txns, ids)
    ensures LabelTokens(LabelSets(txns, ids))[l] == |Carriers(txns, l.key, Some(l.value))|
    ensures Holding(LabelSets(txns, ids), l.key) == |Carriers(txns, l.key, None)|
  {
    CarriersCounted(txns, ids, l);
    assert CarriersAmong(txns, ids, l.key, Some(l.value)) == Carriers(txns, l.key, Some(l.value));
    assert CarriersAmong(txns, ids, l.key, None) == Carriers(txns, l.key, None);
  }

  /** What deleting a label leaves of every pair's carriers. */
  lemma CarriersAfterDrop(txns: map<string, Txn>, key: string, value: Option<string>, l: Label)
    ensures var txns' := map id | id in txns :: DropLabel(txns[id], key, value);
            Carriers(txns', l.key, Some(l.value))
            == if l.key == key && (value.None? || value.value == l.value) then {}
                else Carriers(txns, l.key, Some(l.value))
  {
  }

  lemma ListsAfterDrop(txns: map<string, Txn>, ids: seq<string>, key: string, value: Option<string>)
    requires Lists(txns, ids)
    ensures Lists(map id | id in txns :: DropLabel(txns[id], key, value), ids)
  {
    hide Distinct;
  }

  /** Deleting a listed pair, or a listed key, by its stored spelling: the one event reports exactly the count (or
      the sum of the counts) the vocabulary showed, those pairs are gone, and every other pair's count stands. */
  lemma DeleteMatchesListing(s: Ledger, ids: seq<string>, out: seq<Count<Label>>, i: nat, whole: bool)
    requires Sound(s) && Lists(s.txns, ids) && i < |out|
    requires IsVocabulary(out, LabelTokens(LabelSets(s.txns, ids)), LabelBelow)
    ensures var l := out[i].item;
            var (s', outcome) := DeleteLabel(s, l.key, if whole then None else Some(l.value));
            && outcome.Done? && Lists(s'.txns, ids)
            && s'.log == s.log + [LabelDeleted(l.key, if whole then "" else l.value,
                                               if whole then Total(OfKey(out, l.key)) else out[i].n)]
            && forall x :: LabelTokens(LabelSets(s'.txns, ids))[x]
                           == if x == l || (whole && x.key == l.key) then 0 else LabelTokens(LabelSets(s.txns, ids))[x]
  {
    hide Sound, LabelBelow, LabelTokens, OfKey, Total, CleanKeyOf, CleanValueOf, Lists, Carries, Holding;
    var l := out[i].item;
    var value := if whole then None else Some(l.value);
    TokensAreCarriers(s.txns, ids, l);
    KeyTotal(out, LabelSets(s.txns, ids), l.key) by { ListsMeans(s.txns, ids); }
    ListedIsStored(s, l);
    CarriersNest(s.txns, l);
    var txns' := map id | id in s.txns :: DropLabel(s.txns[id], l.key, value);
    ListsAfterDrop(s.txns, ids, l.key, value);
    ListsMeans(txns', ids);
    forall x ensures LabelTokens(LabelSets(txns', ids))[x]
                     == if x == l || (whole && x.key == l.key) then 0 else LabelTokens(LabelSets(s.txns, ids))[x]
    {
      CarriersAfterDrop(s.txns, l.key, value, x);
      TokensAreCarriers(s.txns, ids, x);
      TokensAreCarriers(txns', ids, x);
    }
  }

  lemma ListsMeans(txns: map<string, Txn>, ids: seq<string>)
    requires Lists(txns, ids)
    ensures forall id :: id in ids ==> id in txns
  {
  }

  lemma CarriersNest(txns: map<string, Txn>, l: Label)
    ensures Carriers(txns, l.key, Some(l.value)) <= Carriers(txns, l.key, None)
    ensures |Carriers(txns, l.key, Some(l.value))| <= |Carriers(txns, l.key, None)|
  {
    SubsetSize(Carriers(txns, l.key, Some(l.value)), Carriers(txns, l.key, None));
  }

  /** A stored label is addressed by its own spelling. */
  lemma ListedIsStored(s: Ledger, l: Label)
    requires Sound(s) && Carriers(s.txns, l.key, Some(l.value)) != {}
    ensures l.key != "" && CleanKeyOf(LabelSeam, l.key) == l.key && CleanValueOf(LabelSeam, l.value) == l.value
  {
    hide CleanKeyOf, CleanValueOf, NormalEdges;
    var id :| id in Carriers(s.txns, l.key, Some(l.value));
    SoundRow(s, id);
    assert CleanPair(LabelSeam, l.key, s.txns[id].labels[l.key]);
  }
}
