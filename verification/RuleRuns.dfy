/** Whole rule runs: what a run does to every row, its counters, and when one run undoes another. */
module RuleRuns {
  import opened Sorting
  import opened Meta
  import opened Edges
  import opened Ledger
  import opened Integrity

  /** The row a run leaves behind, as a function of the ledger before the run. */
  ghost function RunTxn(s: Ledger, dir: Direction, rules: seq<Rule>, id: string): Txn
    requires id in s.txns
  {
    var rec, t := ToRecord(s, id), s.txns[id];
    t.(labels := Rewrite(dir, rules, rec, LabelSeam, t.labels).0,
       extensions := Rewrite(dir, rules, rec, ExtensionSeam, t.extensions).0)
  }

  ghost function Matching(s: Ledger, rules: seq<Rule>, ids: set<string>): set<string> {
    set id | id in ids && id in s.txns && AnyMatch(rules, ToRecord(s, id))
  }

  ghost function Changing(s: Ledger, dir: Direction, rules: seq<Rule>, ids: set<string>): set<string> {
    set id | id in ids && id in s.txns && RunTxn(s, dir, rules, id) != s.txns[id]
  }

  lemma ChangesIffCounted(s: Ledger, dir: Direction, rules: seq<Rule>, id: string)
    requires id in s.txns
    ensures RowChanges(s, dir, rules, id) <==> RunTxn(s, dir, rules, id) != s.txns[id]
  {
    hide Rewrite;
    var rec, t := ToRecord(s, id), s.txns[id];
    RewriteUnchanged(dir, rules, rec, LabelSeam, t.labels);
    RewriteUnchanged(dir, rules, rec, ExtensionSeam, t.extensions);
  }

  /** `m` has visited some rows of `s` but none of `ids`. */
  ghost predicate NotYet(s: Ledger, m: Ledger, ids: seq<string>) {
    && m.accounts == s.accounts && m.txns.Keys == s.txns.Keys
    && forall id :: id in ids ==> id in s.txns && m.txns[id] == s.txns[id]
  }

  lemma SameRow(s: Ledger, m: Ledger, ids: seq<string>, dir: Direction, rules: seq<Rule>, id: string)
    requires NotYet(s, m, ids) && id in ids
    ensures ToRecord(m, id) == ToRecord(s, id)
    ensures RunTxn(m, dir, rules, id) == RunTxn(s, dir, rules, id)
  {
    hide Rewrite;
  }

  lemma {:induction false} RunRowsPointwise(s: Ledger, r: RunResult, dir: Direction, rules: seq<Rule>, ids: seq<string>)
    requires NotYet(s, r.ledger, ids) && Distinct(ids)
    ensures var f := RunRows(r, dir, rules, ids);
            && OnlyPairs(r.ledger, f.ledger)
            && (forall id :: id in s.txns ==>
                  f.ledger.txns[id] == if id in ids then RunTxn(s, dir, rules, id) else r.ledger.txns[id])
            && f.matched == r.matched + |Matching(s, rules, Elems(ids))|
            && f.changed == r.changed + |Changing(s, dir, rules, Elems(ids))|
    decreases |ids|
  {
    hide RunRow, RowChanges, AnyMatch, ToRecord, RunTxn, Matching, Changing;
    if ids == [] {
      NothingCounted(s, dir, rules);
    } else {
      var id, r' := ids[0], CountRow(r, dir, rules, ids[0]);
      SameRow(s, r.ledger, ids, dir, rules, id);
      RunRowFrame(r.ledger, dir, rules, id);
      RunRowIsRunTxn(r.ledger, dir, rules, id);
      ChangesIffCounted(r.ledger, dir, rules, id);
      assert id !in ids[1..];
      assert NotYet(s, r'.ledger, ids[1..]);
      RunRowsPointwise(s, r', dir, rules, ids[1..]);
      OneMoreCounted(s, dir, rules, ids);
    }
  }

  lemma RunRowIsRunTxn(s: Ledger, dir: Direction, rules: seq<Rule>, id: string)
    requires id in s.txns
    ensures RunRow(s, dir, rules, id).txns == s.txns[id := RunTxn(s, dir, rules, id)]
  {
    hide Rewrite, RunRow;
    RunRowFrame(s, dir, rules, id);
  }

  lemma NothingCounted(s: Ledger, dir: Direction, rules: seq<Rule>)
    ensures Matching(s, rules, Elems([])) == {} && Changing(s, dir, rules, Elems([])) == {}
  {
  }

  lemma OneMoreCounted(s: Ledger, dir: Direction, rules: seq<Rule>, ids: seq<string>)
    requires ids != [] && Distinct(ids) && ids[0] in s.txns
    ensures |Matching(s, rules, Elems(ids))| ==
            |Matching(s, rules, Elems(ids[1..]))| + (if AnyMatch(rules, ToRecord(s, ids[0])) then 1 else 0)
    ensures |Changing(s, dir, rules, Elems(ids))| ==
            |Changing(s, dir, rules, Elems(ids[1..]))|
                + (if RunTxn(s, dir, rules, ids[0]) != s.txns[ids[0]] then 1 else 0)
  {
    hide AnyMatch, ToRecord, RunTxn, Matching, Changing;
    var x, rest := ids[0], Elems(ids[1..]);
    assert Elems(ids) == {x} + rest && x !in rest by { assert x !in ids[1..]; }
    OneMoreMatching(s, rules, x, rest);
    OneMoreChanging(s, dir, rules, x, rest);
  }

  lemma OneMoreMatching(s: Ledger, rules: seq<Rule>, x: string, rest: set<string>)
    requires x in s.txns && x !in rest
    ensures |Matching(s, rules, {x} + rest)| ==
            |Matching(s, rules, rest)| + (if AnyMatch(rules, ToRecord(s, x)) then 1 else 0)
  {
    hide AnyMatch, ToRecord;
    var m := Matching(s, rules, rest);
    assert Matching(s, rules, {x} + rest) == if AnyMatch(rules, ToRecord(s, x)) then m + {x} else m;
  }

  lemma OneMoreChanging(s: Ledger, dir: Direction, rules: seq<Rule>, x: string, rest: set<string>)
    requires x in s.txns && x !in rest
    ensures |Changing(s, dir, rules, {x} + rest)| ==
            |Changing(s, dir, rules, rest)| + (if RunTxn(s, dir, rules, x) != s.txns[x] then 1 else 0)
  {
    hide RunTxn;
    var m := Changing(s, dir, rules, rest);
    assert Changing(s, dir, rules, {x} + rest) == if RunTxn(s, dir, rules, x) != s.txns[x] then m + {x} else m;
  }

  /** A run rewrites every row by the rules as if alone, and its counters count exactly the matching rows and
      the rows that came out different: changed <= matched <= the number of transactions. */
  lemma RunRulesExact(s: Ledger, dir: Direction, rules: seq<Rule>, ruleId: int)
    requires Sound(s) && WellFormedRules(rules)
    ensures var r := RunRules(s, dir, rules, ruleId);
            && OnlyPairs(s, r.ledger)
            && (forall id :: id in s.txns ==> r.ledger.txns[id] == RunTxn(s, dir, rules, id))
            && r.matched == |Matching(s, rules, s.txns.Keys)|
            && r.changed == |set id | id in s.txns && r.ledger.txns[id] != s.txns[id]|
            && r.changed <= r.matched <= |s.txns|
  {
    hide Sound, RunRows, AllIds, RunTxn, AnyMatch, ToRecord, WellFormedRules;
    var r := RunRules(s, dir, rules, ruleId);
    AllIdsExist(s.txns);
    var ids := AllIds(s.txns);
    assert Elems(ids) == s.txns.Keys;
    forall id | id in s.txns ensures RunTxn(s, dir, rules, id) != s.txns[id] ==> AnyMatch(rules, ToRecord(s, id)) {
      ChangedMatched(s, dir, rules, id);
    }
    if rules == [] {
      NoRulesNoMatch(s);
    } else {
      RunRowsPointwise(s, RunResult(s, 0, 0), dir, rules, ids);
    }
    var changed := set id | id in s.txns && r.ledger.txns[id] != s.txns[id];
    assert changed == Changing(s, dir, rules, s.txns.Keys);
    SubsetSize(changed, Matching(s, rules, s.txns.Keys));
    SubsetSize(Matching(s, rules, s.txns.Keys), s.txns.Keys);
  }

  lemma NoRulesNoMatch(s: Ledger)
    ensures Matching(s, [], s.txns.Keys) == {}
    ensures forall rec :: !AnyMatch([], rec)
  {
  }

  lemma ChangedMatched(s: Ledger, dir: Direction, rules: seq<Rule>, id: string)
    requires Sound(s) && WellFormedRules(rules) && id in s.txns
    ensures RunTxn(s, dir, rules, id) != s.txns[id] ==> AnyMatch(rules, ToRecord(s, id))
  {
    hide Sound, Normal, NormalEdges, Apply, Unapply, WellFormedRules, AnyMatch, SetsPair, Effect, Kept;
    SoundRow(s, id);
    var rec, t := ToRecord(s, id), s.txns[id];
    ApplyIs(rules, rec, LabelSeam, t.labels);
    ApplyIs(rules, rec, ExtensionSeam, t.extensions);
    UnapplyIs(rules, rec, LabelSeam, t.labels);
    UnapplyIs(rules, rec, ExtensionSeam, t.extensions);
  }

  // --- repeated and inverse runs ---

  /** The rules match the same rows of `r` as of `s`. */
  ghost predicate SameAnswers(s: Ledger, r: Ledger, rules: seq<Rule>) {
    && r.txns.Keys == s.txns.Keys
    && forall id :: id in s.txns ==> Agree(rules, ToRecord(s, id), ToRecord(r, id))
  }

  ghost predicate Agree(rules: seq<Rule>, a: Record, b: Record) {
    forall rule :: rule in rules ==> rule.query(a) == rule.query(b)
  }

  ghost function Written(rules: seq<Rule>, seam: Seam): set<string> {
    set i, k | 0 <= i < |rules| && k in Actions(rules[i], seam) :: k
  }

  /** Records that differ at most in keys the rules write. */
  ghost predicate SameElsewhere(a: Record, b: Record, rules: seq<Rule>) {
    && a == b.(labels := a.labels, extensions := a.extensions)
    && a.labels - Written(rules, LabelSeam) == b.labels - Written(rules, LabelSeam)
    && a.extensions - Written(rules, ExtensionSeam) == b.extensions - Written(rules, ExtensionSeam)
  }

  /** No query looks at a key that some rule of the run writes. */
  ghost predicate Independent(rules: seq<Rule>) {
    forall a, b :: SameElsewhere(a, b, rules) ==> Agree(rules, a, b)
  }

  /** On one row and seam: the cap cuts no key that the rules do not write. */
  ghost predicate FitsRow(rules: seq<Rule>, rec: Record, seam: Seam, current: Pairs) {
    var all := current.Keys + Effect(rules, rec, seam).Keys;
    all - Written(rules, seam) <= Kept(all)
  }

  ghost predicate Fits(s: Ledger, rules: seq<Rule>) {
    forall id :: id in s.txns ==>
      && FitsRow(rules, ToRecord(s, id), LabelSeam, s.txns[id].labels)
      && FitsRow(rules, ToRecord(s, id), ExtensionSeam, s.txns[id].extensions)
  }

  lemma SetPairsAreWritten(rules: seq<Rule>, rec: Record, seam: Seam, k: string, v: string)
    requires SetsPair(rules, rec, seam, k, v)
    ensures k in Written(rules, seam)
  {
  }

  lemma EffectIsWritten(rules: seq<Rule>, rec: Record, seam: Seam)
    ensures Effect(rules, rec, seam).Keys <= Written(rules, seam)
  {
    hide Effect, Written, SetsPair;
    var e := Effect(rules, rec, seam);
    forall k | k in e ensures k in Written(rules, seam) {
      EffectPairs(rules, rec, seam, k);
      SetPairsAreWritten(rules, rec, seam, k, e[k]);
    }
  }

  /** An apply leaves the keys the rules do not write alone exactly on the rows that fit. */
  lemma AppliedElsewhere(rules: seq<Rule>, rec: Record, seam: Seam, current: Pairs)
    requires WellFormedRules(rules) && Normal(seam, current)
    ensures FitsRow(rules, rec, seam, current)
            <==> Apply(rules, rec, seam, current).0 - Written(rules, seam) == current - Written(rules, seam)
  {
    hide Apply, Normal, Effect, WellFormedRules, Written, Kept;
    var e, w := Effect(rules, rec, seam), Written(rules, seam);
    ApplyIs(rules, rec, seam, current);
    EffectIsWritten(rules, rec, seam);
    var once := Apply(rules, rec, seam, current).0;
    assert (current + e).Keys == current.Keys + e.Keys;
    if once - w == current - w {
      forall k | k in current.Keys + e.Keys - w ensures k in once { assert k in current - w; }
    }
  }

  /** A row whose keys all survive an apply fits. */
  lemma KeptRowFits(rules: seq<Rule>, rec: Record, seam: Seam, current: Pairs)
    requires WellFormedRules(rules) && Normal(seam, current)
    requires current.Keys <= Apply(rules, rec, seam, current).0.Keys || Undoable(rules, rec, seam, current)
    ensures FitsRow(rules, rec, seam, current)
  {
    hide Apply, Normal, Effect, WellFormedRules, Written, Kept;
    ApplyIs(rules, rec, seam, current);
    EffectIsWritten(rules, rec, seam);
    assert (current + Effect(rules, rec, seam)).Keys == current.Keys + Effect(rules, rec, seam).Keys;
  }

  /** When no query looks at a written key, a row that fits is matched after an apply by the rules that matched it
      before. */
  lemma FittingRowAgrees(s: Ledger, a: Ledger, rules: seq<Rule>, id: string)
    requires Sound(s) && WellFormedRules(rules) && Independent(rules) && id in s.txns && id in a.txns
    requires a.accounts == s.accounts && a.txns[id] == RunTxn(s, Applying, rules, id)
    requires FitsRow(rules, ToRecord(s, id), LabelSeam, s.txns[id].labels)
    requires FitsRow(rules, ToRecord(s, id), ExtensionSeam, s.txns[id].extensions)
    ensures Agree(rules, ToRecord(s, id), ToRecord(a, id))
  {
    hide Sound, Apply, FitsRow, Written, WellFormedRules, Independent, Agree;
    SoundRowPairs(s, id);
    var rec, t := ToRecord(s, id), s.txns[id];
    AppliedElsewhere(rules, rec, LabelSeam, t.labels);
    AppliedElsewhere(rules, rec, ExtensionSeam, t.extensions);
    IndependentAgree(rules, rec, ToRecord(a, id));
  }

  /** So when every row fits, an apply leaves every answer as it was. */
  lemma IndependentAnswers(s: Ledger, rules: seq<Rule>, ruleId: int)
    requires Sound(s) && WellFormedRules(rules) && Independent(rules) && Fits(s, rules)
    ensures SameAnswers(s, RunRules(s, Applying, rules, ruleId).ledger, rules)
  {
    hide Sound, RunRules, Agree, FitsRow, Independent, WellFormedRules, Matching, RunTxn, ToRecord;
    var a := RunRules(s, Applying, rules, ruleId).ledger;
    RunRulesExact(s, Applying, rules, ruleId);
    forall id | id in s.txns ensures Agree(rules, ToRecord(s, id), ToRecord(a, id)) {
      FittingRowAgrees(s, a, rules, id);
    }
  }

  lemma IndependentAgree(rules: seq<Rule>, a: Record, b: Record)
    requires Independent(rules) && SameElsewhere(a, b, rules)
    ensures Agree(rules, a, b)
  {
    hide Agree, SameElsewhere;
  }

  /** The second of two runs of the same rules. */
  ghost function SecondRun(s: Ledger, rules: seq<Rule>, ruleId: int): RunResult {
    RunRules(RunRules(s, Applying, rules, ruleId).ledger, Applying, rules, ruleId)
  }

  /** While the rules match the rows they matched, running them a second time updates nothing. */
  lemma SameAnswersIdle(s: Ledger, rules: seq<Rule>, ruleId: int)
    requires Sound(s) && WellFormedRules(rules)
    requires SameAnswers(s, RunRules(s, Applying, rules, ruleId).ledger, rules)
    ensures var r := RunRules(s, Applying, rules, ruleId).ledger;
            SecondRun(s, rules, ruleId).changed == 0 && SecondRun(s, rules, ruleId).ledger.txns == r.txns
  {
    hide Sound, RunRules, ToRecord, WellFormedRules, Matching, Apply;
    var r := RunRules(s, Applying, rules, ruleId).ledger;
    RunRulesExact(s, Applying, rules, ruleId);
    RunRulesSound(s, Applying, rules, ruleId);
    RunRulesExact(r, Applying, rules, ruleId);
    var r2 := RunRules(r, Applying, rules, ruleId).ledger;
    forall id | id in s.txns ensures r2.txns[id] == r.txns[id] {
      SoundRowPairs(s, id);
      var t := s.txns[id];
      ApplyTwice(rules, ToRecord(s, id), ToRecord(r, id), LabelSeam, t.labels);
      ApplyTwice(rules, ToRecord(s, id), ToRecord(r, id), ExtensionSeam, t.extensions);
    }
    assert (set id | id in r.txns && r2.txns[id] != r.txns[id]) == {};
  }

  /** When no query looks at a key the rules write, and the cap cuts no key they do not write, running the same rules
      a second time updates nothing. */
  lemma SecondApplyIsIdle(s: Ledger, rules: seq<Rule>, ruleId: int)
    requires Sound(s) && WellFormedRules(rules) && Independent(rules) && Fits(s, rules)
    ensures var r := RunRules(s, Applying, rules, ruleId).ledger;
            SecondRun(s, rules, ruleId).changed == 0 && SecondRun(s, rules, ruleId).ledger.txns == r.txns
  {
    hide Sound, RunRules, WellFormedRules, Independent, Fits, SameAnswers;
    IndependentAnswers(s, rules, ruleId);
    SameAnswersIdle(s, rules, ruleId);
  }

  lemma SoundRowPairs(s: Ledger, id: string)
    requires Sound(s) && id in s.txns
    ensures Normal(LabelSeam, s.txns[id].labels) && Normal(ExtensionSeam, s.txns[id].extensions)
  {
    hide Normal, NormalEdges;
    assert RowSound(s, id);
  }

  ghost predicate RowUndoable(s: Ledger, rules: seq<Rule>, id: string)
    requires id in s.txns
  {
    && Undoable(rules, ToRecord(s, id), LabelSeam, s.txns[id].labels)
    && Undoable(rules, ToRecord(s, id), ExtensionSeam, s.txns[id].extensions)
  }

  /** Unapply after apply restores every transaction exactly when each row is undoable on both seams: it carried
      none of the keys its matching rules set, and the cap keeps every key it carried. This takes the rules' word that
      they match the rows that are undoable, or that came back, after the apply as they did before. */
  lemma UnapplyRestoresWhereAgreed(s: Ledger, rules: seq<Rule>, ruleId: int)
    requires Sound(s) && WellFormedRules(rules)
    requires var a := RunRules(s, Applying, rules, ruleId).ledger;
             forall id :: id in s.txns && id in a.txns
                          && (RowUndoable(s, rules, id) || RunTxn(a, Unapplying, rules, id) == s.txns[id]) ==>
                            Agree(rules, ToRecord(s, id), ToRecord(a, id))
    ensures var a := RunRules(s, Applying, rules, ruleId).ledger;
            RunRules(a, Unapplying, rules, ruleId).ledger.txns == s.txns
            <==> forall id :: id in s.txns ==> RowUndoable(s, rules, id)
  {
    hide Sound, RunRules, ToRecord, WellFormedRules, Matching, RowUndoable, RunTxn, Agree;
    var a := RunRules(s, Applying, rules, ruleId).ledger;
    RunRulesExact(s, Applying, rules, ruleId);
    RunRulesSound(s, Applying, rules, ruleId);
    RunRulesExact(a, Unapplying, rules, ruleId);
    var u := RunRules(a, Unapplying, rules, ruleId).ledger;
    assert u.txns.Keys == s.txns.Keys;
    forall id | id in s.txns ensures u.txns[id] == s.txns[id] <==> RowUndoable(s, rules, id) {
      if RowUndoable(s, rules, id) || RunTxn(a, Unapplying, rules, id) == s.txns[id] {
        UnapplyRestoresRow(s, a, rules, id);
      }
    }
  }

  lemma UnapplyRestoresRow(s: Ledger, a: Ledger, rules: seq<Rule>, id: string)
    requires Sound(s) && WellFormedRules(rules) && id in s.txns && id in a.txns
    requires Agree(rules, ToRecord(s, id), ToRecord(a, id)) && a.txns[id] == RunTxn(s, Applying, rules, id)
    ensures RunTxn(a, Unapplying, rules, id) == s.txns[id] <==>
            RowUndoable(s, rules, id)
  {
    hide Sound, ToRecord, WellFormedRules, Undoable, Apply, Unapply;
    SoundRowPairs(s, id);
    UnapplyInvertsApply(rules, ToRecord(s, id), ToRecord(a, id), LabelSeam, s.txns[id].labels);
    UnapplyInvertsApply(rules, ToRecord(s, id), ToRecord(a, id), ExtensionSeam, s.txns[id].extensions);
  }

  /** An undoable row fits, and so does a row that came back: unapply adds nothing, so no key of it was cut. */
  lemma RestoredRowFits(s: Ledger, a: Ledger, rules: seq<Rule>, id: string)
    requires Sound(s) && Sound(a) && WellFormedRules(rules) && id in s.txns && id in a.txns
    requires a.txns[id] == RunTxn(s, Applying, rules, id)
    requires RowUndoable(s, rules, id) || RunTxn(a, Unapplying, rules, id) == s.txns[id]
    ensures FitsRow(rules, ToRecord(s, id), LabelSeam, s.txns[id].labels)
    ensures FitsRow(rules, ToRecord(s, id), ExtensionSeam, s.txns[id].extensions)
  {
    hide Sound, ToRecord, WellFormedRules, Undoable, Apply, Unapply, FitsRow, SetsPair;
    var rec, rec', t := ToRecord(s, id), ToRecord(a, id), s.txns[id];
    SoundRowPairs(s, id);
    SoundRowPairs(a, id);
    UnapplyIs(rules, rec', LabelSeam, a.txns[id].labels);
    UnapplyIs(rules, rec', ExtensionSeam, a.txns[id].extensions);
    KeptRowFits(rules, rec, LabelSeam, t.labels);
    KeptRowFits(rules, rec, ExtensionSeam, t.extensions);
  }

  /** Unapply after apply restores every transaction if and only if each row is undoable on both seams, for any rules
      whose queries do not look at the keys the rules write. */
  lemma UnapplyRestoresExactly(s: Ledger, rules: seq<Rule>, ruleId: int)
    requires Sound(s) && WellFormedRules(rules) && Independent(rules)
    ensures var a := RunRules(s, Applying, rules, ruleId).ledger;
            RunRules(a, Unapplying, rules, ruleId).ledger.txns == s.txns
            <==> forall id :: id in s.txns ==> RowUndoable(s, rules, id)
  {
    hide Sound, RunRules, ToRecord, WellFormedRules, Matching, RowUndoable, RunTxn, Agree, Independent, FitsRow;
    var a := RunRules(s, Applying, rules, ruleId).ledger;
    RunRulesExact(s, Applying, rules, ruleId);
    RunRulesSound(s, Applying, rules, ruleId);
    forall id | id in s.txns && id in a.txns
                && (RowUndoable(s, rules, id) || RunTxn(a, Unapplying, rules, id) == s.txns[id])
      ensures Agree(rules, ToRecord(s, id), ToRecord(a, id))
    {
      RestoredRowFits(s, a, rules, id);
      FittingRowAgrees(s, a, rules, id);
    }
    UnapplyRestoresWhereAgreed(s, rules, ruleId);
  }

  /** An unapply removes a pair exactly when a matching rule sets that very pair, and changes no other. */
  lemma UnapplyIsExact(s: Ledger, rules: seq<Rule>, ruleId: int, id: string, seam: Seam)
    requires Sound(s) && WellFormedRules(rules) && id in s.txns
    ensures var before := PairsOf(s.txns[id], seam);
            var after := PairsOf(RunRules(s, Unapplying, rules, ruleId).ledger.txns[id], seam);
            after == map k | k in before && !SetsPair(rules, ToRecord(s, id), seam, k, before[k]) :: before[k]
  {
    hide Sound, RunRules, ToRecord, WellFormedRules, Matching, SetsPair, Unapply;
    RunRulesExact(s, Unapplying, rules, ruleId);
    SoundRowPairs(s, id);
    UnapplyIs(rules, ToRecord(s, id), seam, PairsOf(s.txns[id], seam));
  }
}
