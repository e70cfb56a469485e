/** Labels and schema extensions: the two key/value seams of a transaction, their shared
    normalization, and the rules engine that merges into and removes from them. */
module Meta {
  import opened Text
  import opened Sorting

  type Pairs = map<string, string>

  /** Labels fold case and cap values; extensions keep case and hold JSON text up to a size. */
  datatype Seam = LabelSeam | ExtensionSeam

  const MAX_LABEL_LEN := 50
  const MAX_EXTENSION_KEY_LEN := 100
  const MAX_VALUE_BYTES := 8192
  const MAX_COUNT := 50

  function CleanKeyOf(seam: Seam, k: string): string {
    if seam.LabelSeam? then CleanKey(k, true, MAX_LABEL_LEN) else CleanKey(k, false, MAX_EXTENSION_KEY_LEN)
  }

  /** "" means the pair is dropped. */
  function CleanValueOf(seam: Seam, v: string): string {
    var t := Trim(v);
    if seam.LabelSeam? then (if |t| > MAX_LABEL_LEN then Trim(t[..MAX_LABEL_LEN]) else t)
    else if |t| > MAX_VALUE_BYTES then "" else t
  }

  predicate CleanPair(seam: Seam, k: string, v: string) {
    k != "" && v != "" && CleanKeyOf(seam, k) == k && CleanValueOf(seam, v) == v
  }

  predicate Clean(seam: Seam, m: Pairs) { forall k :: k in m ==> CleanPair(seam, k, m[k]) }

  /** The stored form. */
  predicate Normal(seam: Seam, m: Pairs) { Clean(seam, m) && |m| <= MAX_COUNT }

  lemma CleanOfClean(seam: Seam, k: string, v: string)
    ensures CleanKeyOf(seam, CleanKeyOf(seam, k)) == CleanKeyOf(seam, k)
    ensures CleanValueOf(seam, CleanValueOf(seam, v)) == CleanValueOf(seam, v)
  {
    hide CleanKey, IsCleanKey, Trim, Trimmed, IsSpace;
    var cap := if seam.LabelSeam? then MAX_LABEL_LEN else MAX_EXTENSION_KEY_LEN;
    CleanKeyCanonical(k, seam.LabelSeam?, cap);
    CleanKeyCanonical(CleanKeyOf(seam, k), seam.LabelSeam?, cap);
  }

  // --- normalization ---

  lemma BelowIsStrictTotal()
    ensures StrictTotal(Below)
  {
    forall a, b, c ensures !Below(a, a) && (a == b || Below(a, b) || Below(b, a))
        && (Below(a, b) && Below(b, c) ==> Below(a, c)) {
      BelowIrreflexive(a);
      BelowTotal(a, b);
      if Below(a, b) && Below(b, c) { BelowTransitive(a, b, c); }
    }
  }

  ghost function OrderedKeys(s: set<string>): seq<string> { Ordered(s, Below) }

  /** The loop of Normalize over the sorted keys. */
  function NormalizeFrom(seam: Seam, m: Pairs, keys: seq<string>, out: Pairs): Pairs
    requires forall k :: k in keys ==> k in m
  {
    if keys == [] then out
    else
      var k, v := CleanKeyOf(seam, keys[0]), CleanValueOf(seam, m[keys[0]]);
      if k == "" || v == "" || (k !in out && |out| >= MAX_COUNT) then NormalizeFrom(seam, m, keys[1..], out)
      else NormalizeFrom(seam, m, keys[1..], out[k := v])
  }

  ghost function Normalize(seam: Seam, m: Pairs): Pairs {
    BelowIsStrictTotal();
    OrderedEnumerates(m.Keys, Below);
    NormalizeFrom(seam, m, OrderedKeys(m.Keys), map[])
  }

  lemma {:induction false} NormalizeFromIsNormal(seam: Seam, m: Pairs, keys: seq<string>, out: Pairs)
    requires forall k :: k in keys ==> k in m
    requires Normal(seam, out)
    ensures Normal(seam, NormalizeFrom(seam, m, keys, out))
  {
    hide CleanKeyOf, CleanValueOf;
    if keys != [] {
      var k, v := CleanKeyOf(seam, keys[0]), CleanValueOf(seam, m[keys[0]]);
      CleanOfClean(seam, keys[0], m[keys[0]]);
      if k == "" || v == "" || (k !in out && |out| >= MAX_COUNT) {
        NormalizeFromIsNormal(seam, m, keys[1..], out);
      } else {
        assert out[k := v].Keys == out.Keys + {k};
        assert k in out ==> out[k := v].Keys == out.Keys;
        NormalizeFromIsNormal(seam, m, keys[1..], out[k := v]);
      }
    }
  }

  /** Whatever comes in, what is stored is clean and within the cap. */
  lemma NormalizeIsNormal(seam: Seam, m: Pairs)
    ensures Normal(seam, Normalize(seam, m))
  {
    BelowIsStrictTotal();
    OrderedEnumerates(m.Keys, Below);
    NormalizeFromIsNormal(seam, m, OrderedKeys(m.Keys), map[]);
  }

  ghost function Rank(s: set<string>, k: string): nat { |set x | x in s && Below(x, k)| }

  /** The keys the cap lets through: the 50 least. */
  ghost function Kept(s: set<string>): (r: set<string>)
    ensures r <= s
  {
    set k | k in s && Rank(s, k) < MAX_COUNT
  }

  function Least(a: nat, b: nat): nat { if a < b then a else b }

  lemma {:induction false} PrefixSize(xs: seq<string>, i: nat)
    requires i <= |xs| && Distinct(xs)
    ensures |Elems(xs[..i])| == i
  {
    if i > 0 {
      PrefixSize(xs, i - 1);
      assert xs[..i] == xs[..i - 1] + [xs[i - 1]];
      assert Elems(xs[..i]) == Elems(xs[..i - 1]) + {xs[i - 1]};
      assert xs[i - 1] !in xs[..i - 1];
    }
  }

  lemma RankIsIndex(s: set<string>, i: nat)
    requires i < |OrderedKeys(s)|
    ensures Rank(s, OrderedKeys(s)[i]) == i
  {
    hide Below, Ordered;
    BelowIsStrictTotal();
    OrderedEnumerates(s, Below);
    var xs := OrderedKeys(s);
    PrefixSize(xs, i);
    assert (set x | x in s && Below(x, xs[i])) == Elems(xs[..i]) by {
      forall x ensures x in s && Below(x, xs[i]) <==> x in xs[..i] {
        if x in s && Below(x, xs[i]) {
          var j :| 0 <= j < |xs| && xs[j] == x;
          assert j < i;
          assert xs[..i][j] == x;
        }
        if x in xs[..i] {
          var j :| 0 <= j < i && xs[j] == x;
          assert xs[j] != xs[i];
        }
      }
    }
  }

  lemma KeptIsPrefix(s: set<string>)
    ensures Kept(s) == Elems(OrderedKeys(s)[..Least(MAX_COUNT, |OrderedKeys(s)|)])
    ensures |Kept(s)| == Least(MAX_COUNT, |s|)
  {
    hide Below, Ordered;
    BelowIsStrictTotal();
    OrderedEnumerates(s, Below);
    var xs := OrderedKeys(s);
    var n := Least(MAX_COUNT, |xs|);
    PrefixSize(xs, n);
    forall k ensures k in Kept(s) <==> k in Elems(xs[..n]) {
      if k in s {
        var i :| 0 <= i < |xs| && xs[i] == k;
        RankIsIndex(s, i);
        if i < n { assert xs[..n][i] == k; }
      }
      if k in xs[..n] {
        var i :| 0 <= i < n && xs[i] == k;
        RankIsIndex(s, i);
      }
    }
  }

  ghost function Restrict(m: Pairs, s: set<string>): Pairs { map k | k in m && k in s :: m[k] }

  lemma {:induction false} NormalizeFromClean(seam: Seam, m: Pairs, keys: seq<string>, i: nat, out: Pairs)
    requires Clean(seam, m) && Distinct(keys) && (forall k :: k in keys ==> k in m)
    requires i <= |keys| && out == Restrict(m, Elems(keys[..Least(MAX_COUNT, i)]))
    ensures NormalizeFrom(seam, m, keys[i..], out) == Restrict(m, Elems(keys[..Least(MAX_COUNT, |keys|)]))
    decreases |keys| - i
  {
    hide CleanKeyOf, CleanValueOf;
    if i < |keys| {
      var n := Least(MAX_COUNT, i);
      PrefixSize(keys, n);
      assert out.Keys == Elems(keys[..n]);
      assert keys[i..][0] == keys[i] && keys[i..][1..] == keys[i + 1..];
      assert keys[i] !in keys[..n];
      if i < MAX_COUNT {
        assert keys[..i + 1] == keys[..i] + [keys[i]];
        NormalizeFromClean(seam, m, keys, i + 1, out[keys[i] := m[keys[i]]]);
      } else {
        NormalizeFromClean(seam, m, keys, i + 1, out);
      }
    }
  }

  /** On clean pairs normalization is exactly the cap: it keeps the 50 least keys and drops the rest. */
  lemma NormalizeClean(seam: Seam, m: Pairs)
    requires Clean(seam, m)
    ensures Normalize(seam, m) == Restrict(m, Kept(m.Keys))
    ensures |m| <= MAX_COUNT ==> Normalize(seam, m) == m
  {
    hide CleanKeyOf, CleanValueOf, CleanPair, Below, Ordered, NormalizeFrom, Rank;
    BelowIsStrictTotal();
    OrderedEnumerates(m.Keys, Below);
    var keys := OrderedKeys(m.Keys);
    NormalizeFromClean(seam, m, keys, 0, map[]);
    assert keys[0..] == keys;
    KeptIsPrefix(m.Keys);
    if |m| <= MAX_COUNT {
      assert keys[..|keys|] == keys;
      assert Restrict(m, Kept(m.Keys)) == m;
    }
  }

  // --- the rules engine ---

  /** What a query sees of a transaction. Relationships are not filled in on the rules path. */
  datatype Record = Record(
    id: string, accountId: string, accountName: string, amount: string, pending: bool, date: int,
    description: string, payee: string, memo: string, labels: Pairs, extensions: Pairs, syncedAt: int)

  /** A compiled rule: the query is an arbitrary predicate on records. */
  datatype Rule = Rule(query: Record -> bool, labels: Pairs, extensions: Pairs)

  function Actions(r: Rule, seam: Seam): Pairs { if seam.LabelSeam? then r.labels else r.extensions }

  /** Rule actions are normalized when the rule is written. */
  ghost predicate WellFormedRules(rules: seq<Rule>) {
    forall r :: r in rules ==> Normal(LabelSeam, r.labels) && Normal(ExtensionSeam, r.extensions)
  }

  predicate AnyMatch(rules: seq<Rule>, rec: Record) {
    exists i :: 0 <= i < |rules| && rules[i].query(rec)
  }

  function Merge(rules: seq<Rule>, rec: Record, seam: Seam, merged: Pairs): Pairs {
    if rules == [] then merged
    else Merge(rules[1..], rec, seam, if rules[0].query(rec) then merged + Actions(rules[0], seam) else merged)
  }

  function Reduce(rules: seq<Rule>, rec: Record, seam: Seam, reduced: Pairs): Pairs {
    if rules == [] then reduced
    else Reduce(rules[1..], rec, seam,
      if rules[0].query(rec) then
        var a := Actions(rules[0], seam);
        map k | k in reduced && !(k in a && a[k] == reduced[k]) :: reduced[k]
      else reduced)
  }

  /** rules.Apply and rules.ApplyExtensions. */
  ghost function Apply(rules: seq<Rule>, rec: Record, seam: Seam, current: Pairs): (Pairs, bool) {
    var n := Normalize(seam, Merge(rules, rec, seam, current));
    if n == current then (current, false) else (n, true)
  }

  /** rules.Unapply and rules.UnapplyExtensions. */
  ghost function Unapply(rules: seq<Rule>, rec: Record, seam: Seam, current: Pairs): (Pairs, bool) {
    var n := Normalize(seam, Reduce(rules, rec, seam, current));
    if n == current then (current, false) else (n, true)
  }

  /** What the matching rules set between them, later rules winning. */
  function Effect(rules: seq<Rule>, rec: Record, seam: Seam): Pairs { Merge(rules, rec, seam, map[]) }

  /** Some matching rule sets exactly this pair. */
  ghost predicate SetsPair(rules: seq<Rule>, rec: Record, seam: Seam, k: string, v: string) {
    exists i :: 0 <= i < |rules| && rules[i].query(rec) && k in Actions(rules[i], seam)
        && Actions(rules[i], seam)[k] == v
  }

  lemma {:induction false} MergeOverrides(rules: seq<Rule>, rec: Record, seam: Seam, m: Pairs)
    ensures Merge(rules, rec, seam, m) == m + Effect(rules, rec, seam)
  {
    if rules != [] && rules[0].query(rec) {
      var a := Actions(rules[0], seam);
      MergeOverrides(rules[1..], rec, seam, m + a);
      MergeOverrides(rules[1..], rec, seam, map[] + a);
      assert (m + a) + Effect(rules[1..], rec, seam) == m + ((map[] + a) + Effect(rules[1..], rec, seam));
    } else if rules != [] {
      MergeOverrides(rules[1..], rec, seam, m);
    }
  }

  /** Every pair of the effect comes from a matching rule, and a key some matching rule sets is in the effect. */
  lemma {:induction false} EffectPairs(rules: seq<Rule>, rec: Record, seam: Seam, k: string)
    ensures k in Effect(rules, rec, seam) ==> SetsPair(rules, rec, seam, k, Effect(rules, rec, seam)[k])
    ensures k !in Effect(rules, rec, seam) ==> forall v :: !SetsPair(rules, rec, seam, k, v)
  {
    if rules != [] {
      var rest := rules[1..];
      EffectPairs(rest, rec, seam, k);
      var a := if rules[0].query(rec) then Actions(rules[0], seam) else map[];
      MergeOverrides(rest, rec, seam, map[] + a);
      MergeOverrides(rest, rec, seam, map[]);
      var whole := Effect(rules, rec, seam);
      assert whole == a + Effect(rest, rec, seam);
      if k in Effect(rest, rec, seam) {
        var i :| 0 <= i < |rest| && rest[i].query(rec) && k in Actions(rest[i], seam)
            && Actions(rest[i], seam)[k] == whole[k];
        assert rules[i + 1] == rest[i];
      } else if k !in a {
        forall v ensures !SetsPair(rules, rec, seam, k, v) {
          if SetsPair(rules, rec, seam, k, v) {
            var i :| 0 <= i < |rules| && rules[i].query(rec) && k in Actions(rules[i], seam)
                && Actions(rules[i], seam)[k] == v;
            assert i > 0 && rest[i - 1] == rules[i];
            assert SetsPair(rest, rec, seam, k, v);
          }
        }
      }
    }
  }

  /** The rule that sets a key last: it matches, and no later rule that matches has the key. */
  ghost predicate SetsLast(rules: seq<Rule>, rec: Record, seam: Seam, i: int, k: string) {
    && 0 <= i < |rules| && rules[i].query(rec) && k in Actions(rules[i], seam)
    && forall j :: i < j < |rules| && rules[j].query(rec) ==> k !in Actions(rules[j], seam)
  }

  /** When several matching rules set a key, the last one wins. */
  lemma {:induction false} LastRuleWins(rules: seq<Rule>, rec: Record, seam: Seam, i: nat, k: string)
    requires SetsLast(rules, rec, seam, i, k)
    ensures k in Effect(rules, rec, seam) && Effect(rules, rec, seam)[k] == Actions(rules[i], seam)[k]
  {
    var rest := rules[1..];
    var a := if rules[0].query(rec) then Actions(rules[0], seam) else map[];
    MergeOverrides(rest, rec, seam, map[] + a);
    MergeOverrides(rest, rec, seam, map[]);
    assert Effect(rules, rec, seam) == a + Effect(rest, rec, seam);
    if i > 0 {
      assert rest[i - 1] == rules[i];
      assert forall j :: i - 1 < j < |rest| ==> rest[j] == rules[j + 1];
      LastRuleWins(rest, rec, seam, i - 1, k);
    } else {
      assert forall v :: !SetsPair(rest, rec, seam, k, v) by { NoLaterSets(rules, rec, seam, k); }
      EffectPairs(rest, rec, seam, k);
    }
  }

  lemma NoLaterSets(rules: seq<Rule>, rec: Record, seam: Seam, k: string)
    requires SetsLast(rules, rec, seam, 0, k)
    ensures forall v :: !SetsPair(rules[1..], rec, seam, k, v)
  {
    assert forall j :: 0 <= j < |rules[1..]| ==> rules[1..][j] == rules[j + 1];
  }

  lemma EffectClean(rules: seq<Rule>, rec: Record, seam: Seam)
    requires WellFormedRules(rules)
    ensures Clean(seam, Effect(rules, rec, seam))
    ensures !AnyMatch(rules, rec) ==> Effect(rules, rec, seam) == map[]
  {
    forall k | k in Effect(rules, rec, seam)
        ensures CleanPair(seam, k, Effect(rules, rec, seam)[k]) && AnyMatch(rules, rec) {
      EffectPairs(rules, rec, seam, k);
      var i :| 0 <= i < |rules| && rules[i].query(rec) && k in Actions(rules[i], seam)
               && Actions(rules[i], seam)[k] == Effect(rules, rec, seam)[k];
      assert rules[i] in rules;
    }
  }

  /** What Apply leaves: the effect laid over the current pairs, then the cap. */
  lemma ApplyIs(rules: seq<Rule>, rec: Record, seam: Seam, current: Pairs)
    requires WellFormedRules(rules) && Normal(seam, current)
    ensures var all := current + Effect(rules, rec, seam);
            Apply(rules, rec, seam, current).0 == Restrict(all, Kept(all.Keys))
            && Apply(rules, rec, seam, current).0.Keys == Kept(all.Keys)
    ensures Apply(rules, rec, seam, current).1 <==> Apply(rules, rec, seam, current).0 != current
    ensures Apply(rules, rec, seam, current).1 ==> AnyMatch(rules, rec)
  {
    hide CleanKeyOf, CleanValueOf, CleanPair, Normalize, Kept, Merge, Effect, AnyMatch, WellFormedRules;
    var e := Effect(rules, rec, seam);
    EffectClean(rules, rec, seam);
    MergeOverrides(rules, rec, seam, current);
    NormalizeClean(seam, current + e);
    if e == map[] { assert current + e == current; }
  }

  /** What Unapply leaves: exactly the pairs no matching rule sets. A key survives whenever its value is
      not one a matching rule writes, however many rules name the key. */
  lemma UnapplyIs(rules: seq<Rule>, rec: Record, seam: Seam, current: Pairs)
    requires WellFormedRules(rules) && Normal(seam, current)
    ensures Unapply(rules, rec, seam, current).0 ==
            map k | k in current && !SetsPair(rules, rec, seam, k, current[k]) :: current[k]
    ensures Unapply(rules, rec, seam, current).1 <==>
            exists k :: k in current && SetsPair(rules, rec, seam, k, current[k])
    ensures Unapply(rules, rec, seam, current).1 ==> AnyMatch(rules, rec)
  {
    hide CleanPair, Normalize, Kept, Reduce;
    var left := map k | k in current && !SetsPair(rules, rec, seam, k, current[k]) :: current[k];
    ReduceIs(rules, rec, seam, current);
    SubmapSize(left, current);
    NormalizeClean(seam, left);
  }

  lemma SubmapSize(m: Pairs, n: Pairs)
    requires m.Keys <= n.Keys
    ensures |m| <= |n|
  {
    var extra := n.Keys - m.Keys;
    assert n.Keys == m.Keys + extra;
    assert |m.Keys + extra| == |m.Keys| + |extra|;
  }

  lemma {:induction false} ReduceIs(rules: seq<Rule>, rec: Record, seam: Seam, m: Pairs)
    ensures Reduce(rules, rec, seam, m) == map k | k in m && !SetsPair(rules, rec, seam, k, m[k]) :: m[k]
  {
    hide Below, CleanPair;
    if rules != [] {
      var a := Actions(rules[0], seam);
      var m' := if rules[0].query(rec) then map k | k in m && !(k in a && a[k] == m[k]) :: m[k] else m;
      ReduceIs(rules[1..], rec, seam, m');
      forall k | k in m
        ensures SetsPair(rules, rec, seam, k, m[k]) <==>
                (rules[0].query(rec) && k in a && a[k] == m[k]) || SetsPair(rules[1..], rec, seam, k, m[k])
      {
        if SetsPair(rules, rec, seam, k, m[k]) {
          var i :| 0 <= i < |rules| && rules[i].query(rec) && k in Actions(rules[i], seam)
              && Actions(rules[i], seam)[k] == m[k];
          if i > 0 { assert rules[1..][i - 1] == rules[i]; }
        }
        if SetsPair(rules[1..], rec, seam, k, m[k]) {
          var i :| 0 <= i < |rules[1..]| && rules[1..][i].query(rec) && k in Actions(rules[1..][i], seam)
                   && Actions(rules[1..][i], seam)[k] == m[k];
          assert rules[i + 1] == rules[1..][i];
        }
      }
    }
  }

  lemma KeptStable(all: set<string>, s: set<string>)
    requires Kept(all) <= s <= all
    ensures Kept(s) == Kept(all)
  {
    KeptIsPrefix(all);
    forall k | k in s ensures k in Kept(s) <==> k in Kept(all) {
      SubsetSize((set x | x in s && Below(x, k)), (set x | x in all && Below(x, k)));
      if k !in Kept(all) {
        forall x | x in Kept(all) ensures Below(x, k) { KeptBelow(all, x, k); }
        SubsetSize(Kept(all), set x | x in s && Below(x, k));
        if |all| <= MAX_COUNT { SubsetEqual(Kept(all), all); }
      }
    }
  }

  lemma SubsetSize(a: set<string>, b: set<string>)
    requires a <= b
    ensures |a| <= |b|
  {
    assert b == a + (b - a);
    assert |a + (b - a)| == |a| + |b - a|;
  }

  lemma SubsetEqual(a: set<string>, b: set<string>)
    requires a <= b && |a| == |b|
    ensures a == b
  {
    assert b == a + (b - a);
    assert |a + (b - a)| == |a| + |b - a|;
  }

  lemma KeptBelow(s: set<string>, x: string, k: string)
    requires x in Kept(s) && k in s && k !in Kept(s)
    ensures Below(x, k)
  {
    BelowTotal(x, k);
    if Below(k, x) {
      forall y | y in s && Below(y, k) ensures Below(y, x) { BelowTransitive(y, k, x); }
      SubsetSize((set y | y in s && Below(y, k)), (set y | y in s && Below(y, x)));
    }
  }

  /** Running the same rules again changes nothing, even when the cap cut the first run short. */
  lemma ApplyTwice(rules: seq<Rule>, rec: Record, rec': Record, seam: Seam, current: Pairs)
    requires WellFormedRules(rules) && Normal(seam, current)
    requires forall r :: r in rules ==> r.query(rec) == r.query(rec')
    ensures var once := Apply(rules, rec, seam, current).0;
            Apply(rules, rec', seam, once) == (once, false)
  {
    hide CleanKeyOf, CleanValueOf, CleanPair, Normalize, Kept, Merge, Apply, WellFormedRules, Clean, Normal;
    SameMatches(rules, rec, rec', seam, map[]);
    var e := Effect(rules, rec, seam);
    var all := current + e;
    var once := Apply(rules, rec, seam, current).0;
    ApplyIs(rules, rec, seam, current);
    ApplyKeepsNormal(rules, rec, seam, current);
    ApplyIs(rules, rec', seam, once);
    KeptStable(all.Keys, (once + e).Keys);
  }

  lemma ApplyKeepsNormal(rules: seq<Rule>, rec: Record, seam: Seam, current: Pairs)
    requires Normal(seam, current)
    ensures Normal(seam, Apply(rules, rec, seam, current).0) && Normal(seam, Unapply(rules, rec, seam, current).0)
  {
    hide CleanKeyOf, CleanValueOf;
    NormalizeIsNormal(seam, Merge(rules, rec, seam, current));
    NormalizeIsNormal(seam, Reduce(rules, rec, seam, current));
  }

  lemma {:induction false} SameMatches(rules: seq<Rule>, rec: Record, rec': Record, seam: Seam, m: Pairs)
    requires forall r :: r in rules ==> r.query(rec) == r.query(rec')
    ensures Merge(rules, rec, seam, m) == Merge(rules, rec', seam, m)
    ensures AnyMatch(rules, rec) == AnyMatch(rules, rec')
    ensures forall k, v :: SetsPair(rules, rec, seam, k, v) == SetsPair(rules, rec', seam, k, v)
  {
    if rules != [] {
      SameMatches(rules[1..], rec, rec', seam, if rules[0].query(rec) then m + Actions(rules[0], seam) else m);
    }
  }

  /** A caller can tell beforehand whether unapply will undo apply on a row: the row carries none of the
      keys the matching rules set, and the cap keeps every key the row has. */
  ghost predicate Undoable(rules: seq<Rule>, rec: Record, seam: Seam, current: Pairs) {
    var e := Effect(rules, rec, seam);
    current.Keys !! e.Keys && current.Keys <= Kept(current.Keys + e.Keys)
  }

  /** What apply followed by unapply leaves of a row. */
  lemma ApplyThenUnapply(rules: seq<Rule>, rec: Record, rec': Record, seam: Seam, current: Pairs)
    requires WellFormedRules(rules) && Normal(seam, current)
    requires forall r :: r in rules ==> r.query(rec) == r.query(rec')
    ensures var e := Effect(rules, rec, seam);
            Unapply(rules, rec', seam, Apply(rules, rec, seam, current).0).0
            == Restrict(current, Kept(current.Keys + e.Keys) - e.Keys)
  {
    hide CleanKeyOf, CleanValueOf, CleanPair, Normalize, Kept, Effect, Reduce, Merge, Apply, Unapply, WellFormedRules,
        SetsPair, Normal, Clean;
    SameMatches(rules, rec, rec', seam, map[]);
    var e := Effect(rules, rec, seam);
    var once := Apply(rules, rec, seam, current).0;
    ApplyIs(rules, rec, seam, current);
    ApplyKeepsNormal(rules, rec, seam, current);
    UnapplyIs(rules, rec', seam, once);
    assert (current + e).Keys == current.Keys + e.Keys;
    forall k | k in once ensures SetsPair(rules, rec', seam, k, once[k]) <==> k in e {
      EffectPairs(rules, rec, seam, k);
    }
  }

  /** Unapply inverts apply exactly on the undoable rows. */
  lemma UnapplyInvertsApply(rules: seq<Rule>, rec: Record, rec': Record, seam: Seam, current: Pairs)
    requires WellFormedRules(rules) && Normal(seam, current)
    requires forall r :: r in rules ==> r.query(rec) == r.query(rec')
    ensures Unapply(rules, rec', seam, Apply(rules, rec, seam, current).0).0 == current
            <==> Undoable(rules, rec, seam, current)
  {
    hide CleanKeyOf, CleanValueOf, CleanPair, Normalize, Kept, Effect, Reduce, Merge, Apply, Unapply, WellFormedRules;
    ApplyThenUnapply(rules, rec, rec', seam, current);
    var e := Effect(rules, rec, seam);
    var back := Restrict(current, Kept(current.Keys + e.Keys) - e.Keys);
    if back == current { assert back.Keys == current.Keys; }
  }

  /** The cap can defeat the undo: fifty labels, one rule key that sorts before them all. */
  lemma UndoFailsAtTheCap(rule: Rule, rec: Record, current: Pairs, last: string)
    requires rule.query(rec) && WellFormedRules([rule]) && Normal(LabelSeam, current) && |current| == MAX_COUNT
    requires "a" in rule.labels && "a" !in current && last in current
    requires forall k :: k in current ==> Below("a", k) && (k == last || Below(k, last))
    ensures Unapply([rule], rec, LabelSeam, Apply([rule], rec, LabelSeam, current).0).0 != current
  {
    hide CleanKeyOf, CleanValueOf, CleanPair, Normalize, Effect, Apply, Unapply, Below, Reduce, Merge;
    var e := Effect([rule], rec, LabelSeam);
    EffectPairs([rule], rec, LabelSeam, "a");
    assert SetsPair([rule], rec, LabelSeam, "a", [rule][0].labels["a"]);
    UnapplyInvertsApply([rule], rec, rec, LabelSeam, current);
    var all := current.Keys + e.Keys;
    var below := set x | x in all && Below(x, last);
    SubsetSize(current.Keys - {last} + {"a"}, below);
    assert |current.Keys - {last} + {"a"}| == MAX_COUNT;
    assert last !in Kept(all);
  }
}
