/** The experiment driver `evaluate_all_recommenders`: the optional stacking of
    the transposed item-content matrix under the training matrix, the
    first-match table of fit parameters, and the loop that runs every
    recommender class and appends one record per class to the log. */
module Evaluate {
  import opened Results
  import opened Matrices

  // ---------------------------------------------------------------------
  // Stacking the item-content matrix under the training matrix

  /** `sps.vstack((top, bottom))`: the rows of `top` followed by the rows of
      `bottom`; the column counts must agree. */
  function VStack(top: Grid, bottom: Grid): (r: Result<Grid>)
    requires top.Valid() && bottom.Valid()
    ensures r.Ok? <==> top.cols == bottom.cols
    ensures r.Ok? ==> r.value.Valid() && r.value.rows == top.rows + bottom.rows && r.value.cols == top.cols
    ensures r.Ok? ==> r.value.cells[..top.rows] == top.cells && r.value.cells[top.rows..] == bottom.cells
  {
    if top.cols != bottom.cols then Err("blocks must have the same number of columns")
    else
      var cells := top.cells + bottom.cells;
      assert cells[..top.rows] == top.cells && cells[top.rows..] == bottom.cells;
      Ok(Grid(top.rows + bottom.rows, top.cols, cells))
  }

  /** The training matrix the recommenders see: unchanged without an ICM, the
      URM rows followed by the rows of the transposed ICM with one. */
  function StackIcm(train: Grid, icm: Option<Grid>): (r: Result<Grid>)
    requires train.Valid() && (icm.Some? ==> icm.value.Valid())
    ensures icm.None? ==> r == Ok(train)
    ensures icm.Some? ==> (r.Ok? <==> icm.value.rows == train.cols)
    ensures icm.Some? && r.Ok? ==>
              && r.value.Valid()
              && r.value.rows == train.rows + icm.value.cols
              && r.value.cols == train.cols
              && r.value.cells[..train.rows] == train.cells
              && forall f, i :: 0 <= f < icm.value.cols && 0 <= i < icm.value.rows
                                ==> r.value.cells[train.rows + f][i] == icm.value.cells[i][f]
  {
    match icm
    case None => Ok(train)
    case Some(m) => VStack(train, Transpose(m))
  }

  /** The ICM can be read back from the stacked matrix: transposing its rows
      below the URM gives the ICM again. */
  lemma StackedIcmRecoverable(train: Grid, icm: Grid)
    requires train.Valid() && icm.Valid() && icm.rows == train.cols
    ensures StackIcm(train, Some(icm)).Ok?
    ensures var s := StackIcm(train, Some(icm)).value;
            var below := Grid(icm.cols, icm.rows, s.cells[train.rows..]);
            below.Valid() && Transpose(below) == icm
  {
    var s := StackIcm(train, Some(icm)).value;
    var below := Grid(icm.cols, icm.rows, s.cells[train.rows..]);
    assert below == Transpose(icm);
    TransposeInvolution(icm);
  }

  // ---------------------------------------------------------------------
  // Fit parameters by first matching class

  /** A keyword argument value of `fit`. */
  datatype ParamValue = PInt(i: int) | PReal(x: real) | PBool(b: bool) | PStr(s: string) | PIcm(icm: Option<Grid>)

  type FitParams = map<string, ParamValue>

  /** A recommender class: its `RECOMMENDER_NAME` and the names of all classes
      an instance of it is an instance of (itself and its bases). */
  datatype RecClass = RecClass(recommenderName: string, lineage: set<string>)

  /** One `isinstance` branch: the class it checks for and the parameters it selects. */
  datatype Rule = Rule(className: string, params: FitParams)

  /** The `isinstance` chain, branch by branch in the order written. */
  function ParamTable(icm: Option<Grid>): (t: seq<Rule>)
    ensures |t| == 16
    ensures t[0].params == map["ICMs" := PIcm(icm)]
  {
    [ Rule("ItemKNNCBFWeightedSimilarityRecommender", map["ICMs" := PIcm(icm)]),
      Rule("ItemKNNCFRecommender", map["topK" := PInt(200), "shrink" := PInt(200), "feature_weighting" := PStr("TF-IDF")]),
      Rule("SLIMElasticNetRecommender", map["topK" := PInt(453), "l1_ratio" := PReal(0.00029920499017254754), "alpha" := PReal(0.10734084960757517)]),
      Rule("IALSRecommender_implicit", map["n_factors" := PInt(50), "regularization" := PReal(0.001847510119137634)]),
      Rule("RP3betaRecommender", map["topK" := PInt(40), "alpha" := PReal(0.4208737801266599), "beta" := PReal(0.5251543657397256),
                                     "normalize_similarity" := PBool(true)]),
      Rule("MultVAERecommender", map["topK" := PInt(615), "l1_ratio" := PReal(0.007030044688343361), "alpha" := PReal(0.07010526286528686)]),
      Rule("Hybrid_SlimElastic_Rp3", map["alpha" := PReal(0.9)]),
      Rule("HybridRatings_SLIM_Rp3", map["alpha" := PReal(0.9)]),
      Rule("HybridSimilarity_SLIM_Rp3", map["alpha" := PReal(0.9610229519605884), "topK" := PInt(1199)]),
      Rule("HybridSimilarity_withGroupedusers", map["alpha" := PReal(0.979326712891909), "topK" := PInt(1349)]),
      Rule("PureSVDRecommender", map["num_factors" := PInt(28), "random_seed" := PInt(0)]),
      Rule("Hybrid_SlimElastic_Rp3_PureSVD", map["alpha" := PReal(0.95), "beta" := PReal(0.1), "gamma" := PReal(0.1)]),
      Rule("HybridRatings_SLIM_EASE_R", map["alpha" := PReal(0.9610229519605884)]),
      Rule("HybridRatings_PureSVD_EASE_R", map["alpha" := PReal(0.5)]),
      Rule("HybridRatings_SLIM_PureSVD_EASE_R", map["alpha" := PReal(0.95)]),
      Rule("Hybrid_SLIM_EASE_R_IALS", map["alpha" := PReal(0.3815016492157693), "beta" := PReal(0.5802064204762605),
                                          "gamma" := PReal(0.06145838241599496)]) ]
  }

  /** Branch i is the first whose class the instance belongs to. */
  predicate FirstMatchAt(rules: seq<Rule>, lineage: set<string>, i: nat) {
    && i < |rules|
    && rules[i].className in lineage
    && forall j :: 0 <= j < i ==> rules[j].className !in lineage
  }

  /** No branch matches. */
  predicate NoMatch(rules: seq<Rule>, lineage: set<string>) {
    forall i :: 0 <= i < |rules| ==> rules[i].className !in lineage
  }

  /** Walks an `if/elif/else` chain of `isinstance` tests: the parameters of
      the first matching branch, `{}` when none matches. */
  function Lookup(rules: seq<Rule>, lineage: set<string>): (p: FitParams)
    ensures forall i :: 0 <= i < |rules| && FirstMatchAt(rules, lineage, i) ==> p == rules[i].params
    ensures NoMatch(rules, lineage) ==> p == map[]
  {
    if |rules| == 0 then map[]
    else if rules[0].className in lineage then rules[0].params
    else
      var p := Lookup(rules[1..], lineage);
      SkipUnmatchedBranch(rules, lineage);
      p
  }

  /** Past a branch that does not match, the chain behaves as its remainder. */
  lemma SkipUnmatchedBranch(rules: seq<Rule>, lineage: set<string>)
    requires |rules| > 0 && rules[0].className !in lineage
    ensures forall i :: 1 <= i < |rules| && FirstMatchAt(rules, lineage, i) ==> FirstMatchAt(rules[1..], lineage, i - 1)
    ensures NoMatch(rules, lineage) ==> NoMatch(rules[1..], lineage)
  {
    var rest := rules[1..];
    assert forall j :: 0 <= j < |rest| ==> rest[j] == rules[j + 1];
  }

  /** The `fit` keyword arguments chosen for an instance of class `c`. */
  function FitParamsFor(c: RecClass, icm: Option<Grid>): FitParams {
    Lookup(ParamTable(icm), c.lineage)
  }

  /** The selected parameters are those of the first matching branch, or `{}`
      when no branch matches: there is no third possibility. */
  lemma FitParamsFirstMatchOrEmpty(c: RecClass, icm: Option<Grid>)
    ensures (exists i :: 0 <= i < 16 && FirstMatchAt(ParamTable(icm), c.lineage, i) && FitParamsFor(c, icm) == ParamTable(icm)[i].params)
            || (NoMatch(ParamTable(icm), c.lineage) && FitParamsFor(c, icm) == map[])
  {
    var t := ParamTable(icm);
    if !NoMatch(t, c.lineage) {
      var k :| 0 <= k < |t| && t[k].className in c.lineage;
      var i := FirstIndex(t, c.lineage, k);
      assert FirstMatchAt(t, c.lineage, i);
    }
  }

  /** The least index whose class matches, given that index k matches. */
  lemma {:induction false} FirstIndex(rules: seq<Rule>, lineage: set<string>, k: nat) returns (i: nat)
    requires k < |rules| && rules[k].className in lineage
    ensures i <= k && FirstMatchAt(rules, lineage, i)
    decreases k
  {
    if exists j :: 0 <= j < k && rules[j].className in lineage {
      var j :| 0 <= j < k && rules[j].className in lineage;
      i := FirstIndex(rules, lineage, j);
    } else {
      i := k;
    }
  }

  /** The weighted content-based recommender receives the ICM, whatever other
      classes it derives from. */
  lemma WeightedCbfReceivesIcm(c: RecClass, icm: Option<Grid>)
    requires "ItemKNNCBFWeightedSimilarityRecommender" in c.lineage
    ensures FitParamsFor(c, icm) == map["ICMs" := PIcm(icm)]
  {
    assert FirstMatchAt(ParamTable(icm), c.lineage, 0);
  }

  /** An earlier branch shadows a later one: a class deriving from both the
      item-based collaborative filter and RP3beta gets the former's parameters. */
  lemma EarlierBranchWins(icm: Option<Grid>)
    ensures var c := RecClass("Both", {"Both", "ItemKNNCFRecommender", "RP3betaRecommender"});
            FitParamsFor(c, icm) == map["topK" := PInt(200), "shrink" := PInt(200), "feature_weighting" := PStr("TF-IDF")]
  {
    var c := RecClass("Both", {"Both", "ItemKNNCFRecommender", "RP3betaRecommender"});
    assert FirstMatchAt(ParamTable(icm), c.lineage, 1);
  }

  /** The class the experiment list holds gets the last branch's weights. */
  lemma ListedHybridParams(icm: Option<Grid>)
    ensures var c := RecClass("Hybrid_SLIM_EASE_R_IALS", {"Hybrid_SLIM_EASE_R_IALS", "BaseRecommender"});
            FitParamsFor(c, icm)
            == map["alpha" := PReal(0.3815016492157693), "beta" := PReal(0.5802064204762605), "gamma" := PReal(0.06145838241599496)]
  {
    var c := RecClass("Hybrid_SLIM_EASE_R_IALS", {"Hybrid_SLIM_EASE_R_IALS", "BaseRecommender"});
    assert FirstMatchAt(ParamTable(icm), c.lineage, 15);
  }

  /** A class outside the chain is fitted with no keyword arguments. */
  lemma UnlistedClassGetsNoParams(icm: Option<Grid>)
    ensures FitParamsFor(RecClass("TopPop", {"TopPop", "BaseRecommender"}), icm) == map[]
  {
    assert NoMatch(ParamTable(icm), {"TopPop", "BaseRecommender"});
  }

  // ---------------------------------------------------------------------
  // Log records

  /** The record written after a successful run. */
  function SuccessRecord(name: string, results: string): string {
    "1-Algorithm: " + name + ", results: \n" + results + "\n"
  }

  /** The record written when instantiating, fitting or evaluating raised. */
  function FailureRecord(name: string, message: string): string {
    "Algorithm: " + name + " - Exception: " + message + "\n"
  }

  /** The one record written for a class, given how its run ended. */
  function Record(name: string, outcome: Result<string>): (r: string)
    ensures outcome.Ok? ==> r == SuccessRecord(name, outcome.value)
    ensures outcome.Err? ==> r == FailureRecord(name, outcome.message)
    ensures |r| > 0 && (r[0] == '1' <==> outcome.Ok?)
  {
    match outcome
    case Ok(s) => SuccessRecord(name, s)
    case Err(m) => FailureRecord(name, m)
  }

  lemma SameFrame(p: string, a: string, b: string, q: string)
    requires p + a + q == p + b + q
    ensures a == b
  {
    assert |a| == |b|;
    assert a == (p + a + q)[|p|..|p| + |a|];
    assert b == (p + b + q)[|p|..|p| + |b|];
  }

  /** For a given class, the record determines the outcome: the results text
      on success, the exception message on failure. */
  lemma RecordDeterminesOutcome(name: string, o1: Result<string>, o2: Result<string>)
    requires Record(name, o1) == Record(name, o2)
    ensures o1 == o2
  {
    if o1.Ok? && o2.Ok? {
      SameFrame("1-Algorithm: " + name + ", results: \n", o1.value, o2.value, "\n");
    } else if o1.Err? && o2.Err? {
      SameFrame("Algorithm: " + name + " - Exception: ", o1.message, o2.message, "\n");
    }
  }

  // ---------------------------------------------------------------------
  // The loop

  /** The log file: records appended so far, and how many of them have been
      flushed. */
  datatype Log = Log(records: seq<string>, flushed: nat)

  /** What the loop needs besides the class list: the training matrix after
      stacking, the ICM as given, and how instantiating, fitting and evaluating
      a class with given parameters ends (results text or exception message). */
  datatype Env = Env(train: Grid, icm: Option<Grid>, run: (Grid, Option<Grid>, RecClass, FitParams) -> Result<string>)

  /** How the run of class `c` ends. */
  function Outcome(env: Env, c: RecClass): Result<string> {
    env.run(env.train, env.icm, c, FitParamsFor(c, env.icm))
  }

  /** One iteration: append the class's record, then flush. */
  function Step(log: Log, env: Env, c: RecClass): (r: Log)
    ensures r.records == log.records + [Record(c.recommenderName, Outcome(env, c))]
    ensures r.flushed == |r.records|
  {
    Log(log.records + [Record(c.recommenderName, Outcome(env, c))], |log.records| + 1)
  }

  /** The records the loop owes a class list: one per class, in list order,
      each fixed by that class's own outcome. */
  function Records(classes: seq<RecClass>, env: Env): (rs: seq<string>)
    ensures |rs| == |classes|
    ensures forall k :: 0 <= k < |classes| ==> rs[k] == Record(classes[k].recommenderName, Outcome(env, classes[k]))
  {
    seq(|classes|, k requires 0 <= k < |classes| => Record(classes[k].recommenderName, Outcome(env, classes[k])))
  }

  lemma RecordsCons(classes: seq<RecClass>, env: Env)
    requires |classes| > 0
    ensures Records(classes, env) == [Record(classes[0].recommenderName, Outcome(env, classes[0]))] + Records(classes[1..], env)
  {
    var whole := Records(classes, env);
    var rest := [Record(classes[0].recommenderName, Outcome(env, classes[0]))] + Records(classes[1..], env);
    assert |whole| == |rest|;
    forall k | 0 <= k < |whole| ensures whole[k] == rest[k] {
      if k > 0 {
        assert classes[1..][k - 1] == classes[k];
      }
    }
  }

  lemma AppendThenConcat<T>(a: seq<T>, x: T, b: seq<T>)
    ensures (a + [x]) + b == a + ([x] + b)
  {
  }

  /** The `for` loop over the class list: each class attempted once, in list
      order, one record each, whatever the earlier classes did; the log only
      grows; everything is flushed after each class. */
  function RunAll(log: Log, classes: seq<RecClass>, env: Env): (r: Log)
    ensures r.records == log.records + Records(classes, env)
    ensures r.flushed == if |classes| == 0 then log.flushed else |r.records|
    decreases |classes|
  {
    if |classes| == 0 then
      assert Records(classes, env) == [];
      log
    else
      var next := Step(log, env, classes[0]);
      var r := RunAll(next, classes[1..], env);
      RecordsCons(classes, env);
      AppendThenConcat(log.records, Record(classes[0].recommenderName, Outcome(env, classes[0])), Records(classes[1..], env));
      r
  }

  /** The log is append-only: what it held before the loop is a prefix of what
      it holds after, and the new part is one record per class in list order. */
  lemma RunAllAppendOnly(log: Log, classes: seq<RecClass>, env: Env)
    ensures |RunAll(log, classes, env).records| == |log.records| + |classes|
    ensures RunAll(log, classes, env).records[..|log.records|] == log.records
    ensures forall k :: 0 <= k < |classes| ==>
              RunAll(log, classes, env).records[|log.records| + k] == Record(classes[k].recommenderName, Outcome(env, classes[k]))
  {
    var r := RunAll(log, classes, env).records;
    assert r == log.records + Records(classes, env);
  }

  /** The records a class list produces do not depend on what the log held. */
  lemma RunAllAppends(log: Log, classes: seq<RecClass>, env: Env)
    ensures RunAll(log, classes, env).records == log.records + RunAll(Log([], 0), classes, env).records
  {
    assert [] + Records(classes, env) == Records(classes, env);
  }

  /** Running two lists one after the other is running their concatenation. */
  lemma {:induction false} RunAllConcat(log: Log, xs: seq<RecClass>, ys: seq<RecClass>, env: Env)
    ensures RunAll(log, xs + ys, env) == RunAll(RunAll(log, xs, env), ys, env)
    decreases |xs|
  {
    if |xs| > 0 {
      assert (xs + ys)[0] == xs[0];
      assert (xs + ys)[1..] == xs[1..] + ys;
      RunAllConcat(Step(log, env, xs[0]), xs[1..], ys, env);
    } else {
      assert xs + ys == ys;
    }
  }

  /** A class whose run raises contributes its failure record and the loop goes
      on: the log is the records of the classes before it, its failure record,
      and the records of the classes after it. */
  lemma FailureDoesNotStopLoop(log: Log, classes: seq<RecClass>, env: Env, k: nat)
    requires k < |classes| && Outcome(env, classes[k]).Err?
    ensures RunAll(log, classes, env).records
            == RunAll(log, classes[..k], env).records
               + [FailureRecord(classes[k].recommenderName, Outcome(env, classes[k]).message)]
               + RunAll(Log([], 0), classes[k + 1..], env).records
  {
    assert classes == classes[..k] + ([classes[k]] + classes[k + 1..]);
    RunAllConcat(log, classes[..k], [classes[k]] + classes[k + 1..], env);
    var before := RunAll(log, classes[..k], env);
    RunAllConcat(before, [classes[k]], classes[k + 1..], env);
    var mid := RunAll(before, [classes[k]], env);
    assert mid.records == before.records + [FailureRecord(classes[k].recommenderName, Outcome(env, classes[k]).message)];
    RunAllAppends(mid, classes[k + 1..], env);
  }

  /** `evaluate_all_recommenders` after the train/test split: stacking the ICM
      (a mismatch raises before any class runs), then the loop. */
  function EvaluateAll(train: Grid, icm: Option<Grid>, classes: seq<RecClass>, log: Log,
                       run: (Grid, Option<Grid>, RecClass, FitParams) -> Result<string>): (r: Result<Log>)
    requires train.Valid() && (icm.Some? ==> icm.value.Valid())
    ensures r.Err? <==> icm.Some? && icm.value.rows != train.cols
    ensures r.Err? ==> r.message == StackIcm(train, icm).message
    ensures r.Ok? ==> && r.value.records == log.records + Records(classes, Env(StackIcm(train, icm).value, icm, run))
                      && r.value.flushed == if |classes| == 0 then log.flushed else |r.value.records|
  {
    match StackIcm(train, icm)
    case Err(m) => Err(m)
    case Ok(t) => Ok(RunAll(log, classes, Env(t, icm, run)))
  }
}
