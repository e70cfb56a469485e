/** How far the guard on a second rule run can be weakened: not at all, by anyone who sees only what rules write. */
module RuleLimits {
  import opened Text
  import opened Meta
  import opened Ledger
  import opened Integrity
  import opened RuleRuns

  /** A rule that could be added without writing a new key, whose query looks at no written key, and that matches no
      row as things stand. */
  ghost predicate Dormant(s: Ledger, rules: seq<Rule>, extra: Rule) {
    && Normal(LabelSeam, extra.labels) && Normal(ExtensionSeam, extra.extensions)
    && extra.labels.Keys <= Written(rules, LabelSeam) && extra.extensions.Keys <= Written(rules, ExtensionSeam)
    && Independent(rules + [extra])
    && forall id :: id in s.txns ==> !extra.query(ToRecord(s, id))
  }

  lemma {:induction false} MergeSnoc(rules: seq<Rule>, extra: Rule, rec: Record, seam: Seam, m: Pairs)
    ensures Merge(rules + [extra], rec, seam, m)
            == Merge(rules, rec, seam, m) + (if extra.query(rec) then Actions(extra, seam) else map[])
  {
    if rules == [] {
      assert rules + [extra] == [extra] && m + map[] == m;
    } else {
      assert (rules + [extra])[0] == rules[0] && (rules + [extra])[1..] == rules[1..] + [extra];
      MergeSnoc(rules[1..], extra, rec, seam, if rules[0].query(rec) then m + Actions(rules[0], seam) else m);
    }
  }

  lemma WrittenSnoc(rules: seq<Rule>, extra: Rule, seam: Seam)
    requires Actions(extra, seam).Keys <= Written(rules, seam)
    ensures Written(rules + [extra], seam) == Written(rules, seam)
  {
    var more := rules + [extra];
    forall k | k in Written(more, seam) ensures k in Written(rules, seam) {
      var i :| 0 <= i < |more| && k in Actions(more[i], seam);
      if i < |rules| { assert more[i] == rules[i]; }
    }
    forall k | k in Written(rules, seam) ensures k in Written(more, seam) {
      var i :| 0 <= i < |rules| && k in Actions(rules[i], seam);
      assert more[i] == rules[i];
    }
  }

  lemma DormantChangesNothing(s: Ledger, rules: seq<Rule>, extra: Rule)
    requires WellFormedRules(rules) && Dormant(s, rules, extra)
    ensures WellFormedRules(rules + [extra])
    ensures Fits(s, rules + [extra]) <==> Fits(s, rules)
  {
    hide Normal, Independent, Written, Kept, ToRecord;
    WrittenSnoc(rules, extra, LabelSeam);
    WrittenSnoc(rules, extra, ExtensionSeam);
    forall id, seam | id in s.txns
      ensures Effect(rules + [extra], ToRecord(s, id), seam) == Effect(rules, ToRecord(s, id), seam)
    {
      MergeSnoc(rules, extra, ToRecord(s, id), seam, map[]);
    }
  }

  function PairsIn(rec: Record, seam: Seam): Pairs { if seam.LabelSeam? then rec.labels else rec.extensions }

  /** A rule for one row: it matches once the row has lost the key `lost`, and then sets `w`. */
  function Waiting(id: string, seam: Seam, lost: string, w: string, v: string): Rule {
    var pair: Pairs := map[w := v];
    Rule(
      (r: Record) => r.id == id && lost !in PairsIn(r, seam),
      if seam.LabelSeam? then pair else map[],
      if seam.LabelSeam? then map[] else pair)
  }

  /** When the cap cuts a key the rules do not write, some key they write survives the cut. */
  lemma SomeWrittenSurvives(rules: seq<Rule>, rec: Record, seam: Seam, current: Pairs, lost: string)
    returns (w: string)
    requires WellFormedRules(rules) && Normal(seam, current) && lost in current
    requires var all := current.Keys + Effect(rules, rec, seam).Keys; lost !in Kept(all)
    ensures w in Effect(rules, rec, seam) && w in Kept(current.Keys + Effect(rules, rec, seam).Keys)
  {
    hide CleanPair, Effect, Kept, WellFormedRules, CleanKeyOf, CleanValueOf;
    var e := Effect(rules, rec, seam);
    var all := current.Keys + e.Keys;
    KeptIsPrefix(all);
    if Kept(all) !! e.Keys {
      SubsetSize(Kept(all), current.Keys - {lost});
      assert |current.Keys - {lost}| == |current| - 1;
      SubsetEqual(Kept(all), all);
      assert false;
    }
    w :| w in Kept(all) && w in e;
  }

  lemma OnePairIsNormal(seam: Seam, w: string, v: string)
    requires CleanPair(seam, w, v)
    ensures Normal(seam, map[w := v]) && Normal(LabelSeam, map[]) && Normal(ExtensionSeam, map[])
  {
    hide CleanPair;
    assert |map[w := v]| == 1;
  }

  lemma WaitingIsIndependent(rules: seq<Rule>, id: string, seam: Seam, lost: string, w: string, v: string)
    requires Independent(rules) && lost !in Written(rules, seam) && w in Written(rules, seam)
    ensures Independent(rules + [Waiting(id, seam, lost, w, v)])
  {
    hide Written, Independent;
    var extra := Waiting(id, seam, lost, w, v);
    WrittenSnoc(rules, extra, LabelSeam);
    WrittenSnoc(rules, extra, ExtensionSeam);
    forall a, b | SameElsewhere(a, b, rules + [extra]) ensures Agree(rules + [extra], a, b) {
      WaitingAgrees(rules, a, b, id, seam, lost, w, v);
    }
    assert Independent(rules + [extra]) by { IndependentIs(rules + [extra]); }
  }

  lemma IndependentIs(rules: seq<Rule>)
    requires forall a, b :: SameElsewhere(a, b, rules) ==> Agree(rules, a, b)
    ensures Independent(rules)
  {
  }

  lemma WaitingAgrees(rules: seq<Rule>, a: Record, b: Record, id: string, seam: Seam, lost: string, w: string,
      v: string)
    requires Independent(rules) && SameElsewhere(a, b, rules) && lost !in Written(rules, seam)
    ensures Agree(rules + [Waiting(id, seam, lost, w, v)], a, b)
  {
    hide Written, Independent;
    IndependentAgree(rules, a, b);
    var out := Written(rules, seam);
    assert lost in PairsIn(a, seam) <==> lost in PairsIn(a, seam) - out;
    assert lost in PairsIn(b, seam) <==> lost in PairsIn(b, seam) - out;
  }

  lemma WaitingIsDormant(s: Ledger, rules: seq<Rule>, id: string, seam: Seam, lost: string, w: string, v: string)
    requires Independent(rules) && id in s.txns && lost in PairsOf(s.txns[id], seam)
    requires lost !in Written(rules, seam) && w in Written(rules, seam) && CleanPair(seam, w, v)
    ensures Dormant(s, rules, Waiting(id, seam, lost, w, v))
  {
    hide Written, Independent, CleanPair, Normal;
    OnePairIsNormal(seam, w, v);
    WaitingIsIndependent(rules, id, seam, lost, w, v);
  }

  /** The last rule has the last word on its keys. */
  lemma WakingRuleWins(rules: seq<Rule>, extra: Rule, rec: Record, seam: Seam, once: Pairs, w: string)
    requires WellFormedRules(rules + [extra]) && Normal(seam, once) && extra.query(rec)
    requires w in Actions(extra, seam) && w in once && Actions(extra, seam)[w] != once[w]
    ensures Apply(rules + [extra], rec, seam, once).0 != once
  {
    hide Normal, Apply, WellFormedRules, Kept, Merge;
    MergeSnoc(rules, extra, rec, seam, map[]);
    ApplyIs(rules + [extra], rec, seam, once);
  }

  lemma ChangedRowIsCounted(s: Ledger, dir: Direction, rules: seq<Rule>, ruleId: int, id: string)
    requires Sound(s) && WellFormedRules(rules) && id in s.txns && RunTxn(s, dir, rules, id) != s.txns[id]
    ensures RunRules(s, dir, rules, ruleId).changed > 0
  {
    hide Sound, RunRules, WellFormedRules, Matching, RunTxn;
    RunRulesExact(s, dir, rules, ruleId);
    var r := RunRules(s, dir, rules, ruleId);
    var changed := set id | id in s.txns && r.ledger.txns[id] != s.txns[id];
    assert id in changed;
    assert r.changed == |changed|;
  }

  lemma RowWakes(r: Ledger, rules: seq<Rule>, id: string, seam: Seam, lost: string, w: string, v: string)
    requires Sound(r) && id in r.txns && WellFormedRules(rules + [Waiting(id, seam, lost, w, v)])
    requires var once := PairsOf(r.txns[id], seam); lost !in once && w in once && once[w] != v
    ensures RunTxn(r, Applying, rules + [Waiting(id, seam, lost, w, v)], id) != r.txns[id]
  {
    hide Sound, WellFormedRules, Apply, Normal;
    SoundRowPairs(r, id);
    WakingRuleWins(rules, Waiting(id, seam, lost, w, v), ToRecord(r, id), seam, PairsOf(r.txns[id], seam), w);
  }

  /** With the waiting rule added, the second run changes the row that lost a key. */
  lemma SecondRunWakes(s: Ledger, rules: seq<Rule>, ruleId: int, id: string, seam: Seam, lost: string, w: string,
      v: string)
    requires var all := rules + [Waiting(id, seam, lost, w, v)];
             && Sound(s) && WellFormedRules(all) && id in s.txns
             && var once := PairsOf(RunTxn(s, Applying, all, id), seam); lost !in once && w in once && once[w] != v
    ensures var all := rules + [Waiting(id, seam, lost, w, v)];
            SecondRun(s, all, ruleId).changed > 0
  {
    hide Sound, RunRules, WellFormedRules, Matching, RunTxn, Waiting;
    var all := rules + [Waiting(id, seam, lost, w, v)];
    var r := RunRules(s, Applying, all, ruleId).ledger;
    RunRulesExact(s, Applying, all, ruleId);
    RunRulesSound(s, Applying, all, ruleId);
    RowWakes(r, rules, id, seam, lost, w, v);
    ChangedRowIsCounted(r, Applying, all, ruleId, id);
  }

  lemma OtherValue(seam: Seam, taken: string)
    returns (v: string)
    ensures v != taken && v != "" && CleanValueOf(seam, v) == v
  {
    hide Trim;
    v := if taken == "1" then "2" else "1";
    assert Trimmed(v) && |v| == 1;
  }

  /** Where the guard fails on a row, some dormant rule makes the second run change it. */
  lemma MisfitWakesSomeRule(s: Ledger, rules: seq<Rule>, ruleId: int, id: string, seam: Seam)
    returns (extra: Rule)
    requires Sound(s) && WellFormedRules(rules) && Independent(rules) && id in s.txns
    requires !FitsRow(rules, ToRecord(s, id), seam, PairsOf(s.txns[id], seam))
    ensures Dormant(s, rules, extra)
    ensures SecondRun(s, rules + [extra], ruleId).changed > 0
  {
    hide Sound, SecondRun, WellFormedRules, Effect, Apply, Normal, Independent, Written, Kept, Dormant, Waiting,
        ToRecord, CleanPair, CleanKeyOf, CleanValueOf;
    var rec, current := ToRecord(s, id), PairsOf(s.txns[id], seam);
    var e := Effect(rules, rec, seam);
    var all := current.Keys + e.Keys;
    var free := all - Written(rules, seam);
    assert !(free <= Kept(all));
    var lost :| lost in free && lost !in Kept(all);
    SoundRowPairs(s, id);
    EffectIsWritten(rules, rec, seam);
    var w := SomeWrittenSurvives(rules, rec, seam, current, lost);
    var v := OtherValue(seam, e[w]);
    CleanEffectKey(rules, rec, seam, w, v);
    extra := Waiting(id, seam, lost, w, v);
    WaitingIsDormant(s, rules, id, seam, lost, w, v);
    AfterFirstRun(s, rules, extra, id, seam);
    SecondRunWakes(s, rules, ruleId, id, seam, lost, w, v);
  }

  lemma CleanEffectKey(rules: seq<Rule>, rec: Record, seam: Seam, w: string, v: string)
    requires WellFormedRules(rules) && w in Effect(rules, rec, seam) && v != "" && CleanValueOf(seam, v) == v
    ensures CleanPair(seam, w, v)
  {
    hide Effect, CleanKeyOf, CleanValueOf, WellFormedRules;
    EffectClean(rules, rec, seam);
  }

  /** The first run of the longer list leaves a row as the rules alone do. */
  lemma AfterFirstRun(s: Ledger, rules: seq<Rule>, extra: Rule, id: string, seam: Seam)
    requires Sound(s) && WellFormedRules(rules) && Dormant(s, rules, extra) && id in s.txns
    ensures WellFormedRules(rules + [extra])
    ensures var all := PairsOf(s.txns[id], seam) + Effect(rules, ToRecord(s, id), seam);
            PairsOf(RunTxn(s, Applying, rules + [extra], id), seam) == Restrict(all, Kept(all.Keys))
            && all.Keys == PairsOf(s.txns[id], seam).Keys + Effect(rules, ToRecord(s, id), seam).Keys
  {
    hide Sound, Normal, Independent, Written, Kept, ToRecord, Apply, Effect;
    SoundRowPairs(s, id);
    DormantChangesNothing(s, rules, extra);
    DormantEffect(s, rules, extra, id, seam);
    ApplyIs(rules + [extra], ToRecord(s, id), seam, PairsOf(s.txns[id], seam));
  }

  lemma DormantEffect(s: Ledger, rules: seq<Rule>, extra: Rule, id: string, seam: Seam)
    requires Dormant(s, rules, extra) && id in s.txns
    ensures Effect(rules + [extra], ToRecord(s, id), seam) == Effect(rules, ToRecord(s, id), seam)
  {
    hide Normal, Independent, Written, ToRecord;
    MergeSnoc(rules, extra, ToRecord(s, id), seam, map[]);
  }

  /** The guard is exact for rules whose queries look at no written key: a second run updates nothing, whatever dormant
      rule is added to the list, if and only if the cap cuts no key that the rules do not write. */
  lemma SecondRunIdleExactly(s: Ledger, rules: seq<Rule>, ruleId: int)
    requires Sound(s) && WellFormedRules(rules) && Independent(rules)
    ensures Fits(s, rules) <==>
            forall extra :: Dormant(s, rules, extra) ==>
              SecondRun(s, rules + [extra], ruleId).changed == 0
  {
    hide Sound, SecondRun, WellFormedRules, Independent, Dormant, Fits, ToRecord, FitsRow;
    if Fits(s, rules) {
      forall extra | Dormant(s, rules, extra)
        ensures SecondRun(s, rules + [extra], ruleId).changed == 0
      {
        DormantChangesNothing(s, rules, extra);
        DormantIsIndependent(s, rules, extra);
        SecondApplyIsIdle(s, rules + [extra], ruleId);
      }
    } else {
      var id, seam := Misfit(s, rules);
      var extra := MisfitWakesSomeRule(s, rules, ruleId, id, seam);
    }
  }

  lemma DormantIsIndependent(s: Ledger, rules: seq<Rule>, extra: Rule)
    requires Dormant(s, rules, extra)
    ensures Independent(rules + [extra])
  {
    hide Independent, Normal, Written, ToRecord;
  }

  lemma Misfit(s: Ledger, rules: seq<Rule>) returns (id: string, seam: Seam)
    requires !Fits(s, rules)
    ensures id in s.txns && !FitsRow(rules, ToRecord(s, id), seam, PairsOf(s.txns[id], seam))
  {
    hide FitsRow, ToRecord;
    id :| id in s.txns && !(FitsRow(rules, ToRecord(s, id), LabelSeam, s.txns[id].labels)
                            && FitsRow(rules, ToRecord(s, id), ExtensionSeam, s.txns[id].extensions));
    seam := if FitsRow(rules, ToRecord(s, id), LabelSeam, s.txns[id].labels) then ExtensionSeam else LabelSeam;
  }
}
