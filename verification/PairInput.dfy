/** What a request's labels or extensions become when they are stored: which pairs, under which keys, with which
    values. */
module PairInput {
  import opened Text
  import opened Sorting
  import opened Meta

  /** The raw key `j` of the input stands for the pair `k`, `v`. */
  predicate Names(seam: Seam, m: Pairs, j: string, k: string, v: string) {
    j in m && CleanKeyOf(seam, j) == k != "" && CleanValueOf(seam, m[j]) == v != ""
  }

  /** A raw key that stands for some pair under `k`. */
  predicate NamesKey(seam: Seam, m: Pairs, j: string, k: string) {
    j in m && CleanKeyOf(seam, j) == k != "" && CleanValueOf(seam, m[j]) != ""
  }

  /** The x-th of the first n raw keys stands for `k`, `v`, and no later one of them for `k`. */
  ghost predicate NamesLast(seam: Seam, m: Pairs, keys: seq<string>, n: nat, x: int, k: string, v: string) {
    && 0 <= x < n <= |keys| && Names(seam, m, keys[x], k, v)
    && forall y :: x < y < n ==> !NamesKey(seam, m, keys[y], k)
  }

  ghost predicate HasLast(seam: Seam, m: Pairs, keys: seq<string>, n: nat, k: string, v: string) {
    exists x :: NamesLast(seam, m, keys, n, x, k, v)
  }

  ghost predicate NamedBefore(seam: Seam, m: Pairs, keys: seq<string>, x: int, k: string) {
    exists y :: 0 <= y < x <= |keys| && NamesKey(seam, m, keys[y], k)
  }

  /** Every stored pair is the last one the first n raw keys have for its key. */
  ghost predicate Latest(seam: Seam, m: Pairs, keys: seq<string>, n: nat, out: Pairs) {
    forall k :: k in out ==> HasLast(seam, m, keys, n, k, out[k])
  }

  /** Every key the first n raw keys stand for is stored, or came when the cap was full of earlier ones. */
  ghost predicate Covered(seam: Seam, m: Pairs, keys: seq<string>, n: nat, out: Pairs) {
    && n <= |keys| && |out| <= MAX_COUNT
    && forall x, k :: 0 <= x < n && NamesKey(seam, m, keys[x], k) ==>
         k in out || (|out| == MAX_COUNT && forall l :: l in out ==> NamedBefore(seam, m, keys, x, l))
  }

  lemma StillLatest(seam: Seam, m: Pairs, keys: seq<string>, n: nat, out: Pairs, k: string)
    requires Latest(seam, m, keys, n, out) && n < |keys| && k in out && !NamesKey(seam, m, keys[n], k)
    ensures HasLast(seam, m, keys, n + 1, k, out[k])
  {
    hide Names, NamesKey;
    var x :| NamesLast(seam, m, keys, n, x, k, out[k]);
    assert NamesLast(seam, m, keys, n + 1, x, k, out[k]);
  }

  lemma StoredIsNamed(seam: Seam, m: Pairs, keys: seq<string>, n: nat, out: Pairs, k: string)
    requires Latest(seam, m, keys, n, out) && k in out
    ensures NamedBefore(seam, m, keys, n, k)
  {
    hide CleanKeyOf, CleanValueOf;
    var x :| NamesLast(seam, m, keys, n, x, k, out[k]);
    assert NamesKey(seam, m, keys[x], k);
  }

  /** A raw key that stands for nothing, or for a new key when the cap is full, is passed over. */
  lemma PassedOver(seam: Seam, m: Pairs, keys: seq<string>, n: nat, out: Pairs)
    requires Latest(seam, m, keys, n, out) && Covered(seam, m, keys, n, out) && n < |keys|
    requires forall k :: NamesKey(seam, m, keys[n], k) ==> k !in out && |out| >= MAX_COUNT
    ensures Latest(seam, m, keys, n + 1, out) && Covered(seam, m, keys, n + 1, out)
  {
    hide NamesKey, NamesLast, NamedBefore;
    forall k | k in out
      ensures HasLast(seam, m, keys, n + 1, k, out[k])
      ensures NamedBefore(seam, m, keys, n, k)
    {
      StillLatest(seam, m, keys, n, out, k);
      StoredIsNamed(seam, m, keys, n, out, k);
    }
  }

  /** Otherwise the pair is stored, over an earlier one of the same key. */
  lemma PutLatest(seam: Seam, m: Pairs, keys: seq<string>, n: nat, out: Pairs, k: string, v: string)
    requires Latest(seam, m, keys, n, out) && n < |keys| && Names(seam, m, keys[n], k, v)
    requires forall l :: NamesKey(seam, m, keys[n], l) ==> l == k
    ensures Latest(seam, m, keys, n + 1, out[k := v])
  {
    hide Names, NamesKey;
    var next := out[k := v];
    forall l | l in next ensures HasLast(seam, m, keys, n + 1, l, next[l]) {
      if l == k {
        assert NamesLast(seam, m, keys, n + 1, n, k, v);
      } else {
        StillLatest(seam, m, keys, n, out, l);
      }
    }
  }

  lemma PutCovered(seam: Seam, m: Pairs, keys: seq<string>, n: nat, out: Pairs, k: string, v: string)
    requires Covered(seam, m, keys, n, out) && n < |keys| && (k in out || |out| < MAX_COUNT)
    requires forall l :: NamesKey(seam, m, keys[n], l) ==> l == k
    ensures Covered(seam, m, keys, n + 1, out[k := v])
  {
    hide NamesKey, NamedBefore;
    var next := out[k := v];
    assert next.Keys == out.Keys + {k};
    if k in out { assert next.Keys == out.Keys; }
  }

  lemma {:induction false} LoopStores(seam: Seam, m: Pairs, keys: seq<string>, n: nat, out: Pairs)
    requires (forall j :: j in keys ==> j in m) && n <= |keys|
    requires Latest(seam, m, keys, n, out) && Covered(seam, m, keys, n, out)
    ensures forall j :: j in keys[n..] ==> j in m
    ensures var all := NormalizeFrom(seam, m, keys[n..], out);
            Latest(seam, m, keys, |keys|, all) && Covered(seam, m, keys, |keys|, all)
    decreases |keys| - n
  {
    hide CleanKeyOf, CleanValueOf, Latest, Covered;
    if n < |keys| {
      assert keys[n] in keys && keys[n..][0] == keys[n] && keys[n..][1..] == keys[n + 1..];
      var k, v := CleanKeyOf(seam, keys[n]), CleanValueOf(seam, m[keys[n]]);
      if k == "" || v == "" || (k !in out && |out| >= MAX_COUNT) {
        PassedOver(seam, m, keys, n, out);
        LoopStores(seam, m, keys, n + 1, out);
      } else {
        PutLatest(seam, m, keys, n, out, k, v);
        PutCovered(seam, m, keys, n, out, k, v);
        LoopStores(seam, m, keys, n + 1, out[k := v]);
      }
    }
  }

  // --- in terms of the input alone ---

  /** Of the raw keys that stand for `k`, the greatest, and with it the value. */
  ghost predicate LastRaw(seam: Seam, m: Pairs, j: string, k: string, v: string) {
    Names(seam, m, j, k, v) && forall i :: NamesKey(seam, m, i, k) && i != j ==> Below(i, j)
  }

  /** Every raw key for `k` has a lesser one for `l`: in the order of the raw keys, `l` comes first. */
  ghost predicate ComesFirst(seam: Seam, m: Pairs, l: string, k: string) {
    forall j :: NamesKey(seam, m, j, k) ==> exists i :: NamesKey(seam, m, i, l) && Below(i, j)
  }

  /** Every input pair with a non-empty cleaned key and value is stored under the cleaned key, with the value of the
      greatest raw key that cleans to it, unless fifty keys whose raw keys come first have filled the set; and nothing
      else is stored. */
  lemma NormalizeStores(seam: Seam, m: Pairs)
    ensures var n := Normalize(seam, m);
            && (forall k :: k in n ==> exists j :: LastRaw(seam, m, j, k, n[k]))
            && (forall j, k :: NamesKey(seam, m, j, k) ==>
                  k in n || (|n| == 50 && forall l :: l in n ==> ComesFirst(seam, m, l, k)))
  {
    hide CleanKeyOf, CleanValueOf, Below, Ordered, NormalizeFrom, Latest, Covered, LastRaw, ComesFirst;
    var n, keys := Normalize(seam, m), OrderedKeys(m.Keys);
    SortedKeys(m);
    NothingStored(seam, m, keys);
    assert keys[0..] == keys;
    LoopStores(seam, m, keys, 0, map[]);
    forall k | k in n ensures exists j :: LastRaw(seam, m, j, k, n[k]) { LatestIsLast(seam, m, keys, n, k); }
    forall j, k | NamesKey(seam, m, j, k) && k !in n
      ensures |n| == 50 && forall l :: l in n ==> ComesFirst(seam, m, l, k)
    {
      LeftOut(seam, m, keys, n, j, k);
    }
  }

  lemma SortedKeys(m: Pairs)
    ensures var keys := OrderedKeys(m.Keys);
            && (forall j :: j in keys <==> j in m)
            && forall x, y :: 0 <= x < y < |keys| ==> Below(keys[x], keys[y])
    ensures StrictTotal(Below)
  {
    hide Below, Ordered;
    BelowIsStrictTotal();
    OrderedEnumerates(m.Keys, Below);
    var keys := OrderedKeys(m.Keys);
    forall x, y | 0 <= x < y < |keys| ensures Below(keys[x], keys[y]) {
      assert keys[x] != keys[y] && !Below(keys[y], keys[x]);
    }
  }

  lemma NothingStored(seam: Seam, m: Pairs, keys: seq<string>)
    ensures Latest(seam, m, keys, 0, map[]) && Covered(seam, m, keys, 0, map[])
  {
  }

  lemma LatestIsLast(seam: Seam, m: Pairs, keys: seq<string>, out: Pairs, k: string)
    requires Latest(seam, m, keys, |keys|, out) && k in out && forall j :: j in m ==> j in keys
    requires forall x, y :: 0 <= x < y < |keys| ==> Below(keys[x], keys[y])
    ensures exists j :: LastRaw(seam, m, j, k, out[k])
  {
    hide CleanKeyOf, CleanValueOf, Below;
    var x :| NamesLast(seam, m, keys, |keys|, x, k, out[k]);
    forall i | NamesKey(seam, m, i, k) && i != keys[x] ensures Below(i, keys[x]) {
      var y :| 0 <= y < |keys| && keys[y] == i;
    }
    assert LastRaw(seam, m, keys[x], k, out[k]);
  }

  lemma LeftOut(seam: Seam, m: Pairs, keys: seq<string>, out: Pairs, j: string, k: string)
    requires Covered(seam, m, keys, |keys|, out) && NamesKey(seam, m, j, k) && k !in out
    requires forall i :: i in m ==> i in keys
    requires forall x, y :: 0 <= x < y < |keys| ==> Below(keys[x], keys[y])
    ensures |out| == MAX_COUNT && forall l :: l in out ==> ComesFirst(seam, m, l, k)
  {
    hide CleanKeyOf, CleanValueOf, Below, NamedBefore;
    var x :| 0 <= x < |keys| && keys[x] == j;
    forall l | l in out ensures ComesFirst(seam, m, l, k) { FirstOf(seam, m, keys, out, k, l); }
  }

  lemma FirstOf(seam: Seam, m: Pairs, keys: seq<string>, out: Pairs, k: string, l: string)
    requires Covered(seam, m, keys, |keys|, out) && k !in out && l in out
    requires forall i :: i in m ==> i in keys
    requires forall x, y :: 0 <= x < y < |keys| ==> Below(keys[x], keys[y])
    ensures ComesFirst(seam, m, l, k)
  {
    hide CleanKeyOf, CleanValueOf, Below;
    forall j | NamesKey(seam, m, j, k) ensures exists i :: NamesKey(seam, m, i, l) && Below(i, j) {
      var x :| 0 <= x < |keys| && keys[x] == j;
      assert NamedBefore(seam, m, keys, x, l);
      var y :| 0 <= y < x && NamesKey(seam, m, keys[y], l);
    }
  }

  /** Which spellings name a key: spaces around it, unsafe characters in it, and for a label its letters in any case. */
  lemma SpellingsName(seam: Seam, key: string, left: string, spelling: string, right: string)
    requires IsCleanKey(key, seam.LabelSeam?, if seam.LabelSeam? then 50 else 100)
    requires AllSpaces(left) && AllSpaces(right) && Trimmed(spelling)
    requires Strip(if seam.LabelSeam? then Lower(spelling) else spelling) == key
    ensures CleanKeyOf(seam, left + spelling + right) == key
  {
    hide CleanKey, IsCleanKey, Strip;
    SpellingsClean(key, left, spelling, right, seam.LabelSeam?, if seam.LabelSeam? then 50 else 100);
  }

  /** A longer key keeps its first fifty or hundred characters. */
  lemma KeysAreCut(seam: Seam, s: string)
    requires Trimmed(s) && Safe(s) && (seam.LabelSeam? ==> NoUppers(s))
    requires |s| > if seam.LabelSeam? then 50 else 100
    ensures CleanKeyOf(seam, s) == Trim(if seam.LabelSeam? then s[..50] else s[..100])
  {
    LongKeysAreCut(s, seam.LabelSeam?, if seam.LabelSeam? then 50 else 100);
  }

  /** And which value: a label's first fifty characters, an extension's text if it is not too large, spaces around
      taken away. */
  lemma ValuesKept(left: string, value: string, right: string)
    requires AllSpaces(left) && AllSpaces(right) && Trimmed(value)
    ensures CleanValueOf(LabelSeam, left + value + right) == if |value| <= 50 then value else Trim(value[..50])
    ensures CleanValueOf(ExtensionSeam, left + value + right) == if |value| <= 8192 then value else ""
  {
    TrimOf(left, value, right);
  }
}
