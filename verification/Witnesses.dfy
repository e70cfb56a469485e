/** Ledgers the server can reach, on which what the documentation promises of rule runs and of history fails. */
module Witnesses {
  import opened Text
  import opened Meta
  import opened Edges
  import opened Sorting
  import opened Amount
  import opened Ledger
  import opened Integrity
  import opened History
  import opened RuleRuns
  import opened RuleLimits
  import opened Replay
  import opened Wire
  import opened Requests
  import opened Relations

  const CASH := AccountInput("Cash", "USD", "", Omitted)
  const ENTRY := TxnInput("cash", "1", At(0), "", "", "", false)

  /** Create an account, enter a transaction "t" in it, label it. */
  function Setup(labels: Pairs): seq<Op> {
    [OpCreateAccount("cash", CASH, 0), OpCreateTxn("t", ENTRY, 0), OpSetPairs("t", LabelSeam, labels)]
  }

  lemma OneIsValid()
    ensures ValidateAmount("1") == Some("1")
  {
    hide Trim, TrimLeft, TrimRight;
    assert Trimmed("1");
    assert "1"[1..] == "" && DigitRun("") == 0;
    assert DigitRun("1") == 1;
  }

  lemma EntryIsValid()
    ensures ReadTxn(ENTRY) == Some(Core("cash", "1", false, 0, "", "", ""))
  {
    hide Trim, ValidateAmount;
    OneIsValid();
    assert Trimmed("cash") && Trimmed("");
  }

  lemma CashIsValid()
    ensures ReadAccount(CASH, Account(MANUAL_ORG, "", "", "0", 0, 0, MANUAL), 0)
            == Some(Account(MANUAL_ORG, "Cash", "USD", "0", 0, 0, MANUAL))
  {
    hide Trim, ValidateAmount;
    assert Trimmed("Cash") && Trimmed("USD") && Trimmed("");
  }

  lemma NormalIsKept(seam: Seam, m: Pairs)
    requires Normal(seam, m)
    ensures Normalize(seam, m) == m
  {
    hide Normalize, CleanPair, Kept;
    NormalizeClean(seam, m);
    KeptIsPrefix(m.Keys);
    SubsetEqual(Kept(m.Keys), m.Keys);
  }

  lemma EmptyIsSound(env: Env)
    ensures Sound(Empty(env)) && Agrees(Empty(env))
  {
  }

  const BORN := Txn(Core("cash", "1", false, 0, "", "", ""), 0, MANUAL, map[], map[], [])

  lemma AfterTwoSteps(env: Env, s1: Ledger, s2: Ledger)
    requires s1 == Step(Empty(env), OpCreateAccount("cash", CASH, 0)) && s2 == Step(s1, OpCreateTxn("t", ENTRY, 0))
    ensures s2.txns == map["t" := BORN] && "t" in s2.versions
  {
    hide ReadTxn, ReadAccount;
    CashIsValid();
    EntryIsValid();
    assert "cash" in s1.accounts && s1.txns == map[];
  }

  /** Every stored label set is reached by some run from the empty ledger. */
  lemma Reached(env: Env, labels: Pairs)
    requires Normal(LabelSeam, labels)
    ensures AdmissibleRun(Empty(env), Setup(labels))
    ensures var s := Run(Empty(env), Setup(labels));
            && Sound(s) && Agrees(s) && s.txns == map["t" := BORN.(labels := labels)] && "t" in s.versions
  {
    hide Sound, Agrees, Normalize, Normal, Step, WritePairs;
    var s0, ops := Empty(env), Setup(labels);
    var s1 := Step(s0, ops[0]);
    var s2 := Step(s1, ops[1]);
    var s := Step(s2, ops[2]);
    assert ops[1..][1..] == [ops[2]] && ops[1..][0] == ops[1];
    assert Run(s0, ops) == Run(s1, ops[1..]) == Run(s2, [ops[2]]) == Run(s, [ops[2]][1..]) == s;
    AfterTwoSteps(env, s1, s2);
    LastStep(s2, s, labels);
    EmptyIsSound(env);
    assert AdmissibleRun(s0, ops) by {
      assert AdmissibleRun(s, [ops[2]][1..]);
      assert AdmissibleRun(s2, [ops[2]]);
      assert AdmissibleRun(s1, ops[1..]);
    }
    RunSound(s0, ops);
    RunAgrees(s0, ops);
  }

  lemma LastStep(s2: Ledger, s: Ledger, labels: Pairs)
    requires Normal(LabelSeam, labels) && s == Step(s2, OpSetPairs("t", LabelSeam, labels))
        && s2.txns == map["t" := BORN]
    ensures s.txns == map["t" := BORN.(labels := labels)] && "t" in s.versions
  {
    hide Normal, Normalize, WritePairs;
    NormalIsKept(LabelSeam, labels);
    WritePairsIs(s2, "t", LabelSeam, labels);
    WritePairsVersions(s2, "t", LabelSeam, labels);
  }

  // --- fifty labels: "b", "bb", "bbb", ... ---

  function Bs(n: nat): (s: string)
    ensures |s| == n
  {
    seq(n, _ => 'b')
  }

  function Labels(n: nat): Pairs { if n == 0 then map[] else Labels(n - 1)[Bs(n) := "1"] }

  lemma {:induction false} LabelsAre(n: nat)
    ensures |Labels(n)| == n
    ensures forall k :: k in Labels(n) <==> 1 <= |k| <= n && k == Bs(|k|)
    ensures forall k :: k in Labels(n) ==> Labels(n)[k] == "1"
  {
    hide Bs;
    if n > 0 {
      LabelsAre(n - 1);
      var fewer := Labels(n - 1);
      assert Bs(n) !in fewer;
      assert Labels(n).Keys == fewer.Keys + {Bs(n)};
      assert forall k :: k in Labels(n) <==> k in fewer || k == Bs(n);
    }
  }

  lemma LabelsAreNormal(n: nat)
    requires n <= MAX_COUNT
    ensures Normal(LabelSeam, Labels(n))
  {
    hide Labels, CleanKey, IsCleanKey, Trim;
    LabelsAre(n);
    forall k | k in Labels(n) ensures CleanPair(LabelSeam, k, Labels(n)[k]) { PlainKey(k); PlainValue(); }
  }

  lemma PlainKey(k: string)
    requires 1 <= |k| <= MAX_LABEL_LEN && (k == Bs(|k|) || k == "a")
    ensures k != "" && CleanKeyOf(LabelSeam, k) == k
  {
    hide CleanKey;
    CleanKeyCanonical(k, true, MAX_LABEL_LEN);
  }

  lemma PlainValue()
    ensures forall seam :: CleanValueOf(seam, "1") == "1" && CleanValueOf(seam, "2") == "2"
  {
    assert Trimmed("1") && Trimmed("2");
  }

  lemma {:induction false} ShorterIsBelow(i: nat, j: nat)
    requires i < j
    ensures Below(Bs(i), Bs(j))
  {
    if i > 0 {
      assert Bs(i)[1..] == Bs(i - 1) && Bs(j)[1..] == Bs(j - 1);
      ShorterIsBelow(i - 1, j - 1);
    }
  }

  lemma AIsBelow(k: string)
    requires |k| >= 1 && k == Bs(|k|)
    ensures Below("a", k) && !Below(k, "a") && k != "a"
  {
    assert k[0] == 'b';
  }

  /** Beside a label "a", the longest of the fifty is cut. */
  lemma LongestIsCut()
    ensures var all := Labels(50).Keys + {"a"}; Bs(50) !in Kept(all) && "a" in Kept(all) && Bs(50) in all
  {
    hide Labels, Below, Bs;
    LabelsAre(50);
    var all := Labels(50).Keys + {"a"};
    assert "a" !in Labels(50) by { if "a" in Labels(50) { AIsBelow("a"); } }
    assert |all| == 51;
    var below := set x | x in all && Below(x, Bs(50));
    forall x | x in all && x != Bs(50) ensures x in below {
      if x == "a" { AIsBelow(Bs(50)); } else { ShorterIsBelow(|x|, 50); }
    }
    SubsetSize(all - {Bs(50)}, below);
    forall x | x in all ensures !Below(x, "a") { if x == "a" { BelowIrreflexive("a"); } else { AIsBelow(x); } }
    assert (set x | x in all && Below(x, "a")) == {};
  }

  // --- rules on those labels ---

  const TAG := Rule((r: Record) => true, map["a" := "1"], map[])

  /** Matches while the longest of the fifty labels is there. */
  const RETAG := Rule((r: Record) => Bs(50) in r.labels, map["a" := "2"], map[])

  /** Matches while there is no label "a". */
  const MARK := Rule((r: Record) => "a" !in r.labels, map["a" := "1"], map[])

  lemma RulesAreNormal()
    ensures WellFormedRules([TAG]) && WellFormedRules([TAG, RETAG]) && WellFormedRules([MARK])
  {
    hide CleanKeyOf, CleanValueOf;
    PlainKey("a");
    PlainValue();
    OnePairIsNormal(LabelSeam, "a", "1");
    OnePairIsNormal(LabelSeam, "a", "2");
  }

  lemma RulesWriteA()
    ensures Written([TAG], LabelSeam) == {"a"} && Written([TAG, RETAG], LabelSeam) == {"a"}
    ensures Written([TAG], ExtensionSeam) == {} && Written([TAG, RETAG], ExtensionSeam) == {}
  {
    assert "a" in Actions([TAG][0], LabelSeam) && "a" in Actions([TAG, RETAG][0], LabelSeam);
  }

  /** Neither list looks at the key it writes. */
  lemma RulesAreIndependent()
    ensures Independent([TAG]) && Independent([TAG, RETAG])
  {
    hide Written, Bs;
    RulesWriteA();
    assert Bs(50) != "a" by { assert |Bs(50)| == 50; }
    forall a, b | SameElsewhere(a, b, [TAG, RETAG]) ensures Agree([TAG, RETAG], a, b) {
      var x, y := a.labels - {"a"}, b.labels - {"a"};
      assert Bs(50) in a.labels <==> Bs(50) in x;
      assert Bs(50) in b.labels <==> Bs(50) in y;
    }
  }

  /** Fifty labels meet everything `UndoFailsAtTheCap` asks for. */
  lemma FiftyLabelsLoseOne(rec: Record)
    ensures !Undoable([TAG], rec, LabelSeam, Labels(50))
  {
    hide Labels, Bs, Below, Apply, Unapply, WellFormedRules, Normal, Undoable;
    RulesAreNormal();
    LabelsAreNormal(50);
    LabelsAre(50);
    forall k | k in Labels(50) ensures Below("a", k) && (k == Bs(50) || Below(k, Bs(50))) {
      AIsBelow(k);
      if |k| < 50 { ShorterIsBelow(|k|, 50); }
    }
    assert "a" !in Labels(50) by { if "a" in Labels(50) { AIsBelow("a"); } }
    UndoFailsAtTheCap(TAG, rec, Labels(50), Bs(50));
    UnapplyInvertsApply([TAG], rec, rec, LabelSeam, Labels(50));
  }

  /** Unapply is not the inverse of apply: on a reachable ledger, one rule that always matches costs a row a label. */
  lemma UnapplyLosesALabel(env: Env, ruleId: int)
    ensures var s := Run(Empty(env), Setup(Labels(50)));
            RunRules(RunRules(s, Applying, [TAG], ruleId).ledger, Unapplying, [TAG], ruleId).ledger.txns != s.txns
  {
    hide Labels, Sound, RunRules, Run, WellFormedRules, Normal, Independent, Undoable, Setup;
    var s := Run(Empty(env), Setup(Labels(50)));
    LabelsAreNormal(50);
    Reached(env, Labels(50));
    RulesAreNormal();
    RulesAreIndependent();
    FiftyLabelsLoseOne(ToRecord(s, "t"));
    UnapplyRestoresExactly(s, [TAG], ruleId);
  }

  /** A second run is not idle: on the same ledger the first run sets a=2 and cuts the label the second rule looks
      for, so the second run writes a=1, though no rule looks at the key they write. */
  lemma SecondRunRewrites(env: Env, ruleId: int)
    ensures Independent([TAG, RETAG])
    ensures var s := Run(Empty(env), Setup(Labels(50)));
            SecondRun(s, [TAG, RETAG], ruleId).changed > 0
  {
    hide Labels, Sound, RunRules, Run, WellFormedRules, Normal, Independent, Setup, RunTxn, Matching, Bs;
    var s, rules := Run(Empty(env), Setup(Labels(50))), [TAG, RETAG];
    LabelsAreNormal(50);
    Reached(env, Labels(50));
    RulesAreNormal();
    RulesAreIndependent();
    var r := RunRules(s, Applying, rules, ruleId).ledger;
    RunRulesExact(s, Applying, rules, ruleId);
    RunRulesSound(s, Applying, rules, ruleId);
    FirstRunSetsTwo(s);
    SecondRunSetsOne(r);
    ChangedRowIsCounted(r, Applying, rules, ruleId, "t");
  }

  lemma EffectOfOne(rule: Rule, rec: Record, seam: Seam)
    ensures Effect([rule], rec, seam) == if rule.query(rec) then Actions(rule, seam) else map[]
  {
    var a: Pairs := if rule.query(rec) then map[] + Actions(rule, seam) else map[];
    assert [rule][1..] == [];
    assert Merge([rule], rec, seam, map[]) == Merge([], rec, seam, a) == a;
    assert map[] + Actions(rule, seam) == Actions(rule, seam);
  }

  lemma EffectOfTwo(first: Rule, second: Rule, rec: Record, seam: Seam)
    ensures Effect([first, second], rec, seam)
            == (if first.query(rec) then Actions(first, seam) else map[])
               + (if second.query(rec) then Actions(second, seam) else map[])
  {
    EffectOfOne(first, rec, seam);
    assert [first] + [second] == [first, second];
    MergeSnoc([first], second, rec, seam, map[]);
  }

  lemma FirstRunSetsTwo(s: Ledger)
    requires "t" in s.txns && s.txns["t"].labels == Labels(50)
    ensures var once := RunTxn(s, Applying, [TAG, RETAG], "t").labels;
            Bs(50) !in once && "a" in once && once["a"] == "2"
  {
    hide Labels, Bs, Kept, Apply, WellFormedRules, Normal, Below, Effect;
    var rec := ToRecord(s, "t");
    LabelsAreNormal(50);
    RulesAreNormal();
    LongestIsCut();
    LabelsAre(50);
    assert Bs(50) in rec.labels;
    EffectOfTwo(TAG, RETAG, rec, LabelSeam);
    assert map["a" := "1"] + map["a" := "2"] == map["a" := "2"];
    ApplyIs([TAG, RETAG], rec, LabelSeam, Labels(50));
    assert (Labels(50) + map["a" := "2"]).Keys == Labels(50).Keys + {"a"};
  }

  lemma SecondRunSetsOne(r: Ledger)
    requires Sound(r) && "t" in r.txns && Bs(50) !in r.txns["t"].labels
    requires "a" in r.txns["t"].labels && r.txns["t"].labels["a"] == "2"
    ensures RunTxn(r, Applying, [TAG, RETAG], "t") != r.txns["t"]
  {
    hide Bs, Kept, Apply, WellFormedRules, Normal, Sound, Effect;
    var rec, once := ToRecord(r, "t"), r.txns["t"].labels;
    SoundRowPairs(r, "t");
    RulesAreNormal();
    EffectOfTwo(TAG, RETAG, rec, LabelSeam);
    ApplyIs([TAG, RETAG], rec, LabelSeam, once);
  }

  /** And queries must not look at written keys: a rule for rows without the label "a" that sets it no longer matches
      once it has, so unapply leaves the label, though every row was undoable. */
  lemma UnapplyMissesItsOwnLabel(env: Env, ruleId: int)
    ensures var s := Run(Empty(env), Setup(map[]));
            && (forall id :: id in s.txns ==> RowUndoable(s, [MARK], id))
            && RunRules(RunRules(s, Applying, [MARK], ruleId).ledger, Unapplying, [MARK], ruleId).ledger.txns != s.txns
  {
    hide Sound, RunRules, Run, WellFormedRules, Normal, Setup, RunTxn, Matching;
    var s, rules := Run(Empty(env), Setup(map[])), [MARK];
    OnePairIsNormal(LabelSeam, "a", "1") by { RulesAreNormal(); PlainKey("a"); PlainValue(); }
    Reached(env, map[]);
    RulesAreNormal();
    var a := RunRules(s, Applying, rules, ruleId).ledger;
    RunRulesExact(s, Applying, rules, ruleId);
    RunRulesSound(s, Applying, rules, ruleId);
    RunRulesExact(a, Unapplying, rules, ruleId);
    MarkedRow(s);
    UnmarkedRow(a);
  }

  lemma MarkedRow(s: Ledger)
    requires "t" in s.txns && s.txns["t"].labels == map[] && s.txns["t"].extensions == map[]
    ensures RowUndoable(s, [MARK], "t")
    ensures "a" in RunTxn(s, Applying, [MARK], "t").labels
  {
    hide Kept, Apply, WellFormedRules, Effect;
    var rec := ToRecord(s, "t");
    RulesAreNormal();
    EffectOfOne(MARK, rec, LabelSeam);
    EffectOfOne(MARK, rec, ExtensionSeam);
    ApplyIs([MARK], rec, LabelSeam, map[]);
    KeptIsPrefix({"a"});
    SubsetEqual(Kept({"a"}), {"a"});
    assert (map[] + map["a" := "1"]).Keys == {"a"};
  }

  lemma UnmarkedRow(a: Ledger)
    requires Sound(a) && "t" in a.txns && "a" in a.txns["t"].labels
    ensures "a" in RunTxn(a, Unapplying, [MARK], "t").labels
  {
    hide Unapply, WellFormedRules, Normal, Sound;
    SoundRowPairs(a, "t");
    RulesAreNormal();
    UnapplyIs([MARK], ToRecord(a, "t"), LabelSeam, a.txns["t"].labels);
  }

  /** The bulk label delete leaves a history that ends in a snapshot its row no longer matches. */
  lemma BulkDeleteBreaksHistory(env: Env)
    ensures var ops := Setup(map["a" := "1"]) + [OpDeleteLabel("a", None)];
            AdmissibleRun(Empty(env), ops) && !Agrees(Run(Empty(env), ops))
  {
    hide Sound, Agrees, Run, AdmissibleRun, Normal, DeleteLabel, Setup, CleanKeyOf, CleanValueOf;
    var labels, last := map["a" := "1"], OpDeleteLabel("a", None);
    PlainKey("a");
    PlainValue();
    OnePairIsNormal(LabelSeam, "a", "1");
    Reached(env, labels);
    var s := Run(Empty(env), Setup(labels));
    RunSplits(Empty(env), Setup(labels), [last]);
    OneStep(s, last);
    assert Carries(s.txns["t"], "a", None);
    DeleteLabelAgreesExactly(s, "a", None);
  }

  lemma OneStep(s: Ledger, op: Op)
    requires Admissible(s, op)
    ensures Run(s, [op]) == Step(s, op) && AdmissibleRun(s, [op])
  {
    hide Step;
    assert [op][1..] == [];
  }

  // --- extension values that do not survive decoding ---

  /** Two numbers as float64 treats them: one is rounded, one is out of range. */
  const FLOATS: Codec :=
    v => if v == "1e400" then None else if v == "9007199254740993" then Some("9007199254740992") else Some(v)

  lemma SomeNumbersDoNot()
    ensures !Survives(FLOATS, "9007199254740993") && !Survives(FLOATS, "1e400")
    ensures CleanValueOf(ExtensionSeam, "9007199254740993") == "9007199254740993"
    ensures CleanValueOf(ExtensionSeam, "1e400") == "1e400"
  {
    hide Trim;
    assert Trimmed("9007199254740993") && Trimmed("1e400");
  }

  const FIRST: seq<Op> := [OpCreateAccount("cash", CASH, 0), OpCreateTxn("t", ENTRY, 0)]

  /** An account "cash" with one transaction "t" in it. */
  lemma Opened(env: Env)
    ensures AdmissibleRun(Empty(env), FIRST)
    ensures var s := Run(Empty(env), FIRST);
            Sound(s) && s.env == env && s.txns == map["t" := BORN] && "cash" in s.accounts
  {
    hide Sound, ReadTxn, ReadAccount;
    var s0 := Empty(env);
    var s1 := Step(s0, FIRST[0]);
    var s := Step(s1, FIRST[1]);
    assert FIRST[1..] == [FIRST[1]] && [FIRST[1]][1..] == [];
    assert Run(s0, FIRST) == Run(s1, [FIRST[1]]) == Run(s, []) == s;
    AfterTwoSteps(env, s1, s);
    CashIsValid();
    EntryIsValid();
    EmptyIsSound(env);
    assert AdmissibleRun(s0, FIRST) by {
      assert AdmissibleRun(s, []);
      assert AdmissibleRun(s1, [FIRST[1]]);
    }
    RunSound(s0, FIRST);
  }

  lemma XIsNormal(value: string)
    requires value != "" && CleanValueOf(ExtensionSeam, value) == value
    ensures Normal(ExtensionSeam, map["x" := value])
  {
    hide CleanKey, CleanValueOf;
    assert IsCleanKey("x", false, MAX_EXTENSION_KEY_LEN);
    CleanKeyCanonical("x", false, MAX_EXTENSION_KEY_LEN);
    OnePairIsNormal(ExtensionSeam, "x", value);
  }

  function SetX(value: string): Op { OpSetPairs("t", ExtensionSeam, map["x" := value]) }

  lemma XIsStored(s: Ledger, value: string)
    requires value != "" && CleanValueOf(ExtensionSeam, value) == value && s.txns == map["t" := BORN]
    ensures Step(s, SetX(value)).txns == map["t" := BORN.(extensions := map["x" := value])]
    ensures Step(s, SetX(value)).accounts == s.accounts && Step(s, SetX(value)).env == s.env
  {
    hide Normal, Normalize, WritePairs, CleanValueOf;
    XIsNormal(value);
    NormalIsKept(ExtensionSeam, map["x" := value]);
    WritePairsIs(s, "t", ExtensionSeam, map["x" := value]);
  }

  lemma FirstIsLossless(c: Codec)
    ensures forall op :: op in FIRST ==> LosslessOp(c, op) && !op.OpUpdateTxn?
  {
  }

  /** A client that has heard of every event does not hold a number that does not survive decoding. */
  lemma WireLosesAValue(env: Env, value: string)
    requires value != "" && CleanValueOf(ExtensionSeam, value) == value && !Survives(env.codec, value)
    ensures var ops := FIRST + [SetX(value)];
            var s := Run(Empty(env), ops);
            AdmissibleRun(Empty(env), ops) && Fold(View(map[], map[]), Delivered(env.codec, s.log)) != ViewOf(s)
  {
    hide Sound, Run, AdmissibleRun, Fold, Delivered, ViewOf, LosslessOp, CleanValueOf, Step, SetX, Survives;
    var s0, op := Empty(env), SetX(value);
    Opened(env);
    var m := Run(s0, FIRST);
    RunSplits(s0, FIRST, [op]);
    SetXIsAdmissible(m, value);
    OneStep(m, op);
    var s := Step(m, op);
    XIsStored(m, value);
    FirstIsLossless(env.codec);
    EventSourcingOverWire(env, FIRST);
    NotCarried(env.codec, m, s, value);
    SetXOverWire(m, value);
    var a, b := m.log, s.log[|m.log|..];
    assert s.log == a + b;
    DeliveredConcat(env.codec, a, b);
    FoldConcat(View(map[], map[]), Delivered(env.codec, a), Delivered(env.codec, b));
  }

  lemma SetXIsAdmissible(s: Ledger, value: string)
    ensures Admissible(s, SetX(value))
  {
  }

  lemma SetXOverWire(s: Ledger, value: string)
    requires Sound(s)
    ensures s.log <= Step(s, SetX(value)).log
    ensures Fold(ViewOf(s), Delivered(s.env.codec, Step(s, SetX(value)).log[|s.log|..])) == ViewOf(Step(s, SetX(value)))
            <==> AllCarried(s.env.codec, s, Step(s, SetX(value)))
  {
    hide Sound, Fold, Delivered, ViewOf, AllCarried, WritePairs, Normalize, Tracks;
    StepOverWire(s, SetX(value));
    StepTracks(s, SetX(value));
    TracksAppends(s, Step(s, SetX(value)));
  }

  lemma TracksAppends(s: Ledger, r: Ledger)
    requires Tracks(s, r)
    ensures s.log <= r.log
  {
  }

  lemma NotCarried(c: Codec, s: Ledger, r: Ledger, value: string)
    requires s.txns == map["t" := BORN] && r.txns == map["t" := BORN.(extensions := map["x" := value])]
    requires !Survives(c, value)
    ensures !AllCarried(c, s, r)
  {
    hide Survives;
    assert "t" in s.txns && "t" in r.txns;
    assert "x" in r.txns["t"].extensions && "x" !in s.txns["t"].extensions;
  }

  /** And a client that adopts whole snapshots loses it at the next core edit, even reading the log as stored. */
  lemma EditLosesAValue(env: Env, value: string)
    requires value != "" && CleanValueOf(ExtensionSeam, value) == value && !Survives(env.codec, value)
    ensures var ops := FIRST + [SetX(value)] + [OpUpdateTxn("t", ENTRY, 1)];
            var s := Run(Empty(env), ops);
            AdmissibleRun(Empty(env), ops) && AdoptAll(View(map[], map[]), s.log) != ViewOf(s)
  {
    hide Sound, Run, AdmissibleRun, AdoptAll, ViewOf, LosslessOp, CleanValueOf, Step, Lossless, AdoptTracks;
    var s0, put, edit := Empty(env), SetX(value), OpUpdateTxn("t", ENTRY, 1);
    Opened(env);
    var s2 := Run(s0, FIRST);
    RunSplits(s0, FIRST, [put]);
    SetXIsAdmissible(s2, value);
    OneStep(s2, put);
    var s3 := Step(s2, put);
    XIsStored(s2, value);
    RunSplits(s0, FIRST + [put], [edit]);
    assert Admissible(s3, edit);
    OneStep(s3, edit);
    var s := Step(s3, edit);
    EmptyIsSound(env);
    FirstIsLossless(env.codec);
    RunAdopts(s0, FIRST + [put]);
    RunSound(s0, FIRST + [put]);
    EntryIsEdited(s3);
    XIsNotLossless(env.codec, value);
    AdoptsExactly(s3, edit);
    AdoptedFromEmpty(env, s3, s);
  }

  lemma EntryIsEdited(s: Ledger)
    requires "t" in s.txns && s.txns["t"].source == MANUAL && "cash" in s.accounts
    ensures UpdateTxn(s, "t", ENTRY, 1).1.Done?
    ensures s.log <= Step(s, OpUpdateTxn("t", ENTRY, 1)).log
  {
    hide ReadTxn, Snap;
    EntryIsValid();
  }

  lemma XIsNotLossless(c: Codec, value: string)
    requires !Survives(c, value)
    ensures !Lossless(c, map["x" := value])
  {
    hide Survives;
    assert "x" in map["x" := value];
  }

  lemma AdoptedFromEmpty(env: Env, m: Ledger, s: Ledger)
    requires AdoptTracks(Empty(env), m) && m.log <= s.log && !AdoptTracks(m, s)
    ensures AdoptAll(View(map[], map[]), s.log) != ViewOf(s)
  {
    hide AdoptAll;
    AdoptTracksTransitive(Empty(env), m, s);
    assert ViewOf(Empty(env)) == View(map[], map[]);
    assert s.log[0..] == s.log;
  }

  // --- a stored relationship ---

  const LINK := OpAddEdge("t", "refund", " u")
  const ENTER := OpCreateTxn("u", ENTRY, 0)

  /** A ledger with a relationship: "t" refunds "u", and deleting "u" takes the relationship with it. */
  lemma EdgeIsReached(env: Env)
    ensures var ops := FIRST + [ENTER] + [LINK];
            var s := Run(Empty(env), ops);
            var r := Step(s, OpDeleteTxn("u"));
            && AdmissibleRun(Empty(env), ops) && Sound(s) && s.txns.Keys == {"t", "u"}
            && s.txns["t"].edges == [Edge("refund", "u")]
            && s.log != [] && s.log[|s.log| - 1] == EdgeCreated("t", Edge("refund", "u"))
            && r.txns.Keys == {"t"} && r.txns["t"].edges == []
  {
    hide Sound, Run, AdmissibleRun, Step;
    var s0 := Empty(env);
    Opened(env);
    EmptyIsSound(env);
    var one := Run(s0, FIRST);
    RunSplits(s0, FIRST, [ENTER]);
    OneStep(one, ENTER);
    var two := Step(one, ENTER);
    RunSplits(s0, FIRST + [ENTER], [LINK]);
    OneStep(two, LINK);
    RunSound(s0, FIRST + [ENTER]);
    RunSound(s0, FIRST + [ENTER] + [LINK]);
    UIsEntered(one);
    TRefundsU(two);
    UIsDeleted(Step(two, LINK));
  }

  lemma UIsEntered(s: Ledger)
    requires s.txns == map["t" := BORN] && "cash" in s.accounts
    ensures Step(s, ENTER).txns == map["t" := BORN, "u" := BORN]
  {
    hide ReadTxn, CreateTxn;
    EntryIsCreated(s, "u");
  }

  lemma TRefundsU(s: Ledger)
    requires Sound(s) && s.txns == map["t" := BORN, "u" := BORN]
    ensures var r := Step(s, LINK);
            r.txns == s.txns["t" := BORN.(edges := [Edge("refund", "u")])]
            && r.log == s.log + [EdgeCreated("t", Edge("refund", "u"))]
  {
    hide Sound, AddEdge, NormalizeKind, Trim, Distinct;
    RefundIsNamed();
    AddEdgeDoes(s, "t", "refund", " u");
    StepSound(s, LINK);
    var r, e := Step(s, LINK), Edge("refund", "u");
    assert !Ignored(e, []);
    EdgesAreDistinct(r, "t");
    OnlyOne(r.txns["t"].edges, e);
  }

  lemma EdgesAreDistinct(s: Ledger, id: string)
    requires Sound(s) && id in s.txns
    ensures Distinct(s.txns[id].edges)
  {
    hide NormalEdges, Normal;
    SoundRow(s, id);
    NormalIsDistinct(s.txns[id].edges);
  }

  lemma RefundIsNamed()
    ensures Named("refund", " u") == Edge("refund", "u")
  {
    hide NormalizeKind, Trim;
    assert IsKind("refund");
    NormalizeKindCanonical("refund");
    assert " " + "u" + "" == " u";
    TrimOf(" ", "u", "");
  }

  lemma UIsDeleted(s: Ledger)
    requires Sound(s) && s.txns == map["t" := BORN.(edges := [Edge("refund", "u")]), "u" := BORN]
    ensures var r := Step(s, OpDeleteTxn("u")); r.txns.Keys == {"t"} && r.txns["t"].edges == []
  {
    hide Sound, DeleteTxn;
    DeleteTxnDoes(s, "u");
    var r := Step(s, OpDeleteTxn("u"));
    assert Unlinked(s.txns["t"], r.txns["t"], "u");
    OnlyNone(r.txns["t"].edges);
  }

  // --- an account with more transactions than one listing returns ---

  /** Create an account and n transactions in it. */
  function Crowd(n: nat): seq<Op> {
    if n == 0 then [OpCreateAccount("cash", CASH, 0)] else Crowd(n - 1) + [OpCreateTxn(Bs(n), ENTRY, 0)]
  }

  lemma {:induction false} CrowdIs(env: Env, n: nat)
    ensures AdmissibleRun(Empty(env), Crowd(n))
    ensures var s := Run(Empty(env), Crowd(n));
            && Sound(s) && "cash" in s.accounts && s.accounts["cash"].source == MANUAL
            && |s.txns| == n && (forall id :: id in s.txns ==> |id| <= n && s.txns[id].core.accountId == "cash")
  {
    hide Sound, Run, AdmissibleRun, Bs, ReadTxn;
    var s0 := Empty(env);
    EmptyIsSound(env);
    if n == 0 {
      OneStep(s0, OpCreateAccount("cash", CASH, 0));
      CashOpened(s0);
      StepSound(s0, OpCreateAccount("cash", CASH, 0));
    } else {
      var op := OpCreateTxn(Bs(n), ENTRY, 0);
      CrowdIs(env, n - 1);
      var m := Run(s0, Crowd(n - 1));
      RunSplits(s0, Crowd(n - 1), [op]);
      OneStep(m, op);
      OneMore(m, n);
      StepSound(m, op);
    }
  }

  lemma CashOpened(s: Ledger)
    requires s.accounts == map[] && s.txns == map[]
    ensures var r := Step(s, OpCreateAccount("cash", CASH, 0));
            "cash" in r.accounts && r.accounts["cash"].source == MANUAL && r.txns == map[]
  {
    hide ReadAccount;
    CashIsValid();
  }

  lemma EntryIsCreated(s: Ledger, id: string)
    requires "cash" in s.accounts && id !in s.txns
    ensures CreateTxn(s, id, ENTRY, 0).0.accounts == s.accounts
    ensures CreateTxn(s, id, ENTRY, 0).0.txns == s.txns[id := BORN]
  {
    hide ReadTxn, Snap;
    EntryIsValid();
  }

  lemma OneMore(s: Ledger, n: nat)
    requires n > 0 && "cash" in s.accounts && s.accounts["cash"].source == MANUAL && |s.txns| == n - 1
    requires forall id :: id in s.txns ==> |id| <= n - 1 && s.txns[id].core.accountId == "cash"
    ensures var r := Step(s, OpCreateTxn(Bs(n), ENTRY, 0));
            && r.accounts == s.accounts && |r.txns| == n
            && forall id :: id in r.txns ==> |id| <= n && r.txns[id].core.accountId == "cash"
  {
    hide Bs, CreateTxn;
    assert Bs(n) !in s.txns;
    EntryIsCreated(s, Bs(n));
    var r := Step(s, OpCreateTxn(Bs(n), ENTRY, 0));
    assert r.txns.Keys == s.txns.Keys + {Bs(n)};
  }

  /** Deleting that account removes a transaction of which the log says nothing. */
  lemma CascadeIsSilent(env: Env)
    ensures var s := Run(Empty(env), Crowd(MAX_INT32 + 1));
            && AdmissibleRun(Empty(env), Crowd(MAX_INT32 + 1))
            && DeleteAccount(s, "cash").1.Done? && !Tracks(s, DeleteAccount(s, "cash").0)
  {
    hide Sound, Run, AdmissibleRun, Crowd, Tracks, DropAllChildren;
    CrowdIs(env, MAX_INT32 + 1);
    var s := Run(Empty(env), Crowd(MAX_INT32 + 1));
    assert InAccount(s.txns, "cash") == s.txns.Keys;
    DeleteAccountReplays(s, "cash");
  }
}
