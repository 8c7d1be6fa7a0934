/** The two-model rating-level hybrid `ScoresHybridP3alphaPureSVD`: its fit,
    its score fusion and the persistence of its state as a keyed bundle.

    The two sub-models (a P3alpha graph recommender and a PureSVD factor model)
    are opaque: their training and their scoring are functions supplied by the
    caller, applied to the state the hybrid holds. The attributes the hybrid
    persists are dynamically typed in the source (loading assigns whatever the
    bundle holds), so they are modelled as `Value`s; an attribute that has never
    been assigned is `Unset`, and reading it raises. */
module HybridP3alphaPureSVD {
  import opened Results
  import opened Matrices
  import opened Scores

  /** A value held in an attribute or in a saved bundle; `Unset` is an attribute
      the object does not have yet. */
  datatype Value = Unset | Number(x: real) | Flag(b: bool) | Array(cells: Matrix)

  /** The graph-based sub-model; `wSparse` is its learned item-item similarity. */
  datatype P3alpha = P3alpha(wSparse: Value)

  /** The factor-model sub-model. */
  datatype PureSVD = PureSVD(itemFactors: Value, userFactors: Value)

  /** The hybrid: its training matrix, both sub-models and the fusion settings. */
  datatype Hybrid = Hybrid(urmTrain: Matrix, p3alpha: P3alpha, svd: PureSVD, alpha: Value, normScores: Value)

  /** `__init__`: the training matrix is kept, the sub-models are created
      untrained, and neither `alpha` nor `norm_scores` exists until `fit`. */
  function New(urmTrain: Matrix): (h: Hybrid)
    ensures h.urmTrain == urmTrain
    ensures h.alpha == Unset && h.normScores == Unset
    ensures h.p3alpha.wSparse == Unset && h.svd.itemFactors == Unset && h.svd.userFactors == Unset
  {
    Hybrid(urmTrain, P3alpha(Unset), PureSVD(Unset, Unset), Unset, Unset)
  }

  /** The keyword arguments of `fit`. */
  datatype FitArgs = FitArgs(topKP: int, alphaP: real, normalizeSimilarityP: bool,
                             alpha: real, numFactors: int, normScores: bool)

  /** The defaults of `fit` in the source. */
  const DefaultFitArgs := FitArgs(991, 0.4705816992313091, false, 0.5, 340, true)

  /** What `P3alphaRecommender.fit(topK, alpha, normalize_similarity)` receives. */
  datatype P3alphaArgs = P3alphaArgs(topK: int, alpha: real, normalizeSimilarity: bool)

  /** The state of numpy's global random generator. PureSVD's `fit` receives no
      `random_seed` from the hybrid, so its randomised SVD draws from it. */
  type RandomState = int

  /** Opaque training of the sub-models: from the training matrix and the arguments
      each `fit` receives (and, for PureSVD, the random state it draws from), the
      learned state. */
  type P3alphaTrainer = (Matrix, P3alphaArgs) -> Matrix
  type PureSVDTrainer = (Matrix, int, RandomState) -> (Matrix, Matrix)

  /** `fit`: stores `alpha` and `norm_scores`, forwards `topK_P`, `alpha_P` and
      `normalize_similarity_P` to P3alpha and `num_factors` to PureSVD. */
  function Fit(h: Hybrid, args: FitArgs, trainP3alpha: P3alphaTrainer, trainSvd: PureSVDTrainer, rng: RandomState): (r: Hybrid)
    ensures r.alpha == Number(args.alpha) && r.normScores == Flag(args.normScores)
    ensures r.p3alpha.wSparse
            == Array(trainP3alpha(h.urmTrain, P3alphaArgs(args.topKP, args.alphaP, args.normalizeSimilarityP)))
    ensures r.svd.itemFactors == Array(trainSvd(h.urmTrain, args.numFactors, rng).0)
    ensures r.svd.userFactors == Array(trainSvd(h.urmTrain, args.numFactors, rng).1)
    ensures r.urmTrain == h.urmTrain
  {
    var w := trainP3alpha(h.urmTrain, P3alphaArgs(args.topKP, args.alphaP, args.normalizeSimilarityP));
    var factors := trainSvd(h.urmTrain, args.numFactors, rng);
    Hybrid(h.urmTrain, P3alpha(Array(w)), PureSVD(Array(factors.0), Array(factors.1)),
           Number(args.alpha), Flag(args.normScores))
  }

  /** The state after `fit` depends only on the training matrix, the arguments
      and the random state PureSVD draws, not on anything the hybrid held before. */
  lemma FitForgetsPreviousState(h1: Hybrid, h2: Hybrid, args: FitArgs, t1: P3alphaTrainer, t2: PureSVDTrainer, rng: RandomState)
    requires h1.urmTrain == h2.urmTrain
    ensures Fit(h1, args, t1, t2, rng) == Fit(h2, args, t1, t2, rng)
  {
  }

  /** `fit()` with its defaults blends half and half with normalisation on, and
      trains PureSVD with 340 factors. */
  lemma FitWithDefaults(h: Hybrid, t1: P3alphaTrainer, t2: PureSVDTrainer, rng: RandomState)
    ensures Fit(h, DefaultFitArgs, t1, t2, rng).alpha == Number(0.5)
    ensures Fit(h, DefaultFitArgs, t1, t2, rng).normScores == Flag(true)
    ensures Fit(h, DefaultFitArgs, t1, t2, rng).svd.itemFactors == Array(t2(h.urmTrain, 340, rng).0)
    ensures Fit(h, DefaultFitArgs, t1, t2, rng).p3alpha.wSparse
            == Array(t1(h.urmTrain, P3alphaArgs(991, 0.4705816992313091, false)))
  {
  }

  // ---------------------------------------------------------------------
  // Scoring

  /** Each contribution as it enters the weighted sum: z-scored with its own
      batch mean and standard deviation, or raw. */
  function Contribution(s: Matrix, normalize: bool, sd: real): (r: Matrix)
    requires normalize ==> IsStd(s, sd)
    ensures SameShape(r, s)
    ensures !normalize ==> r == s
  {
    if normalize then Normalize(s, sd) else s
  }

  /** Opaque scoring of the sub-models for the requested users and items:
      P3alpha from the user profiles of the training matrix and its similarity,
      PureSVD from its user and item factors. */
  type P3alphaScorer = (Matrix, Matrix) -> Matrix
  type PureSVDScorer = (Matrix, Matrix) -> Matrix
  datatype Scorers = Scorers(p3alpha: P3alphaScorer, svd: PureSVDScorer)

  /** Both sub-models hold the learned matrices they score from. */
  predicate Trained(h: Hybrid) {
    h.p3alpha.wSparse.Array? && h.svd.userFactors.Array? && h.svd.itemFactors.Array?
  }

  /** The two sub-models' scores, P3alpha's first; reading a learned matrix
      the sub-model does not have raises. */
  function SubScores(h: Hybrid, sc: Scorers): (r: Result<(Matrix, Matrix)>)
    ensures r.Ok? <==> Trained(h)
    ensures r.Ok? ==> r.value.0 == sc.p3alpha(h.urmTrain, h.p3alpha.wSparse.cells)
    ensures r.Ok? ==> r.value.1 == sc.svd(h.svd.userFactors.cells, h.svd.itemFactors.cells)
  {
    if !h.p3alpha.wSparse.Array? then Err("'P3alphaRecommender' object has no attribute 'W_sparse'")
    else if !h.svd.userFactors.Array? then Err("'PureSVDRecommender' object has no attribute 'USER_factors'")
    else if !h.svd.itemFactors.Array? then Err("'PureSVDRecommender' object has no attribute 'ITEM_factors'")
    else Ok((sc.p3alpha(h.urmTrain, h.p3alpha.wSparse.cells), sc.svd(h.svd.userFactors.cells, h.svd.itemFactors.cells)))
  }

  /** An array with exactly one element. */
  predicate OneElement(m: Matrix) {
    |m| == 1 && |m[0]| == 1
  }

  /** `if self.norm_scores:` on the stored value: a flag is itself, and a
      number or a one-element array is true when non-zero. Reading a missing
      attribute raises, and so does asking for the truth of any other array. */
  function Truth(v: Value): (r: Result<bool>)
    ensures r.Ok? <==> v.Flag? || v.Number? || (v.Array? && OneElement(v.cells))
    ensures v.Flag? ==> r == Ok(v.b)
    ensures v.Number? ==> r == Ok(v.x != 0.0)
    ensures v.Array? && OneElement(v.cells) ==> r == Ok(v.cells[0][0] != 0.0)
  {
    match v
    case Flag(b) => Ok(b)
    case Number(x) => Ok(x != 0.0)
    case Unset => Err("'ScoresHybridP3alphaPureSVD' object has no attribute 'norm_scores'")
    case Array(cells) =>
      if OneElement(cells) then Ok(cells[0][0] != 0.0)
      else Err("The truth value of an array with more than one element is ambiguous")
  }

  /** The stored `alpha` as it takes part in `s1 * alpha + s2 * (1 - alpha)`:
      a number is itself, a flag counts as 1 or 0, and a one-element array
      broadcasts as its element. A missing attribute raises. */
  function Weight(v: Value): (r: Result<real>)
    ensures r.Ok? <==> v.Flag? || v.Number? || (v.Array? && OneElement(v.cells))
    ensures v.Number? ==> r == Ok(v.x)
    ensures v.Flag? ==> r == Ok(if v.b then 1.0 else 0.0)
    ensures v.Array? && OneElement(v.cells) ==> r == Ok(v.cells[0][0])
  {
    match v
    case Number(x) => Ok(x)
    case Flag(b) => Ok(if b then 1.0 else 0.0)
    case Unset => Err("'ScoresHybridP3alphaPureSVD' object has no attribute 'alpha'")
    case Array(cells) =>
      if OneElement(cells) then Ok(cells[0][0])
      else Err("an array alpha is not a scalar weight")
  }

  /** When the scores are normalised, `sd1` and `sd2` are the standard
      deviations of the two sub-models' scores. */
  predicate StdsFit(h: Hybrid, sc: Scorers, sd1: real, sd2: real) {
    SubScores(h, sc).Ok? && Truth(h.normScores) == Ok(true) ==>
      IsStd(SubScores(h, sc).value.0, sd1) && IsStd(SubScores(h, sc).value.1, sd2)
  }

  /** `_compute_item_score`: both sub-models score first, then the flag is
      tested, then the two contributions are blended with `alpha`; matrices of
      different shapes cannot be added. */
  function ComputeItemScore(h: Hybrid, sc: Scorers, sd1: real, sd2: real): (r: Result<Matrix>)
    requires StdsFit(h, sc, sd1, sd2)
    ensures r.Ok? <==> SubScores(h, sc).Ok? && Truth(h.normScores).Ok? && Weight(h.alpha).Ok?
                       && SameShape(SubScores(h, sc).value.0, SubScores(h, sc).value.1)
    ensures r.Ok? ==> SameShape(r.value, SubScores(h, sc).value.0)
    ensures r.Ok? ==> r.value == Fuse(Contribution(SubScores(h, sc).value.0, Truth(h.normScores).value, sd1),
                                      Contribution(SubScores(h, sc).value.1, Truth(h.normScores).value, sd2),
                                      Weight(h.alpha).value)
  {
    match SubScores(h, sc)
    case Err(m) => Err(m)
    case Ok((s1, s2)) =>
      match Truth(h.normScores)
      case Err(m) => Err(m)
      case Ok(norm) =>
        var c1 := Contribution(s1, norm, sd1);
        var c2 := Contribution(s2, norm, sd2);
        match Weight(h.alpha)
        case Err(m) => Err(m)
        case Ok(a) =>
          if SameShape(c1, c2) then Ok(Fuse(c1, c2, a))
          else Err("operands could not be broadcast together")
  }

  /** With normalisation off the raw scores are combined unchanged. */
  lemma RawScoresFused(h: Hybrid, sc: Scorers, s1: Matrix, s2: Matrix, sd1: real, sd2: real)
    requires SubScores(h, sc) == Ok((s1, s2)) && SameShape(s1, s2)
    requires h.alpha.Number? && h.normScores == Flag(false)
    ensures ComputeItemScore(h, sc, sd1, sd2) == Ok(Fuse(s1, s2, h.alpha.x))
  {
  }

  /** With normalisation on, each contribution is z-scored independently with
      its own global mean and deviation (mean 0, variance 1) before the sum. */
  lemma NormalizedScoresFused(h: Hybrid, sc: Scorers, s1: Matrix, s2: Matrix, sd1: real, sd2: real)
    requires SubScores(h, sc) == Ok((s1, s2)) && SameShape(s1, s2)
    requires h.alpha.Number? && h.normScores == Flag(true)
    requires IsStd(s1, sd1) && IsStd(s2, sd2)
    ensures ComputeItemScore(h, sc, sd1, sd2) == Ok(Fuse(Normalize(s1, sd1), Normalize(s2, sd2), h.alpha.x))
  {
  }

  /** A number stored as `norm_scores` acts through its truth value: zero blends
      the raw scores. */
  lemma ZeroNormScoresBlendsRaw(h: Hybrid, sc: Scorers, s1: Matrix, s2: Matrix, sd1: real, sd2: real)
    requires SubScores(h, sc) == Ok((s1, s2)) && SameShape(s1, s2)
    requires h.alpha.Number? && h.normScores == Number(0.0)
    ensures ComputeItemScore(h, sc, sd1, sd2) == Ok(Fuse(s1, s2, h.alpha.x))
  {
  }

  /** A flag stored as `alpha` selects one sub-model: `True` gives the P3alpha
      scores, `False` the PureSVD ones. */
  lemma FlagAlphaSelectsOneModel(h: Hybrid, sc: Scorers, s1: Matrix, s2: Matrix, sd1: real, sd2: real)
    requires SubScores(h, sc) == Ok((s1, s2)) && SameShape(s1, s2)
    requires h.alpha.Flag? && h.normScores == Flag(false)
    ensures ComputeItemScore(h, sc, sd1, sd2) == Ok(if h.alpha.b then s1 else s2)
  {
    if h.alpha.b {
      FuseAlphaOne(s1, s2);
    } else {
      FuseAlphaZero(s1, s2);
    }
  }

  /** One-element arrays stored as `alpha` and `norm_scores` score exactly as
      the numbers they hold. */
  lemma OneElementArraysActAsNumbers(h: Hybrid, sc: Scorers, a: real, n: real, sd1: real, sd2: real)
    requires h.alpha == Array([[a]]) && h.normScores == Array([[n]])
    requires StdsFit(h, sc, sd1, sd2)
    ensures StdsFit(h.(alpha := Number(a), normScores := Number(n)), sc, sd1, sd2)
    ensures ComputeItemScore(h, sc, sd1, sd2)
            == ComputeItemScore(h.(alpha := Number(a), normScores := Number(n)), sc, sd1, sd2)
  {
    var h' := h.(alpha := Number(a), normScores := Number(n));
    assert SubScores(h', sc) == SubScores(h, sc);
  }

  /** Before `fit`, scoring raises: no sub-model has learned anything and the
      hybrid has no `norm_scores` or `alpha`. */
  lemma UnfittedCannotScore(urm: Matrix, sc: Scorers, sd1: real, sd2: real)
    ensures ComputeItemScore(New(urm), sc, sd1, sd2).Err?
  {
  }

  /** After `fit`, scoring succeeds for any sub-model scores of equal shape
      meeting the normalisation's precondition. */
  lemma FittedCanScore(h: Hybrid, args: FitArgs, t1: P3alphaTrainer, t2: PureSVDTrainer, rng: RandomState,
                       sc: Scorers, s1: Matrix, s2: Matrix, sd1: real, sd2: real)
    requires SubScores(Fit(h, args, t1, t2, rng), sc) == Ok((s1, s2)) && SameShape(s1, s2)
    requires args.normScores ==> IsStd(s1, sd1) && IsStd(s2, sd2)
    ensures ComputeItemScore(Fit(h, args, t1, t2, rng), sc, sd1, sd2).Ok?
  {
  }

  /** Two identical sub-model outputs fuse to that output (z-scored when the
      flag is on), whatever alpha is. */
  lemma SelfFusionIsIdentity(h: Hybrid, sc: Scorers, s: Matrix, sd: real)
    requires SubScores(h, sc) == Ok((s, s))
    requires Weight(h.alpha).Ok? && Truth(h.normScores).Ok?
    requires Truth(h.normScores).value ==> IsStd(s, sd)
    ensures ComputeItemScore(h, sc, sd, sd) == Ok(Contribution(s, Truth(h.normScores).value, sd))
  {
    var c := Contribution(s, Truth(h.normScores).value, sd);
    FuseSelf(c, Weight(h.alpha).value);
  }

  // ---------------------------------------------------------------------
  // Persistence

  const KeyItemFactors := "Item_Factors_svd"
  const KeyUserFactors := "User_Factors_svd"
  const KeyNormScores := "norm_scores"
  const KeyWSparse := "W_sparse_P3Alpha"
  const KeyAlpha := "alpha"

  /** The keys `save_model` writes. */
  const SavedKeys: set<string> := {KeyItemFactors, KeyUserFactors, KeyNormScores, KeyWSparse, KeyAlpha}

  /** The keys in the order `save_model` inserts them into its dictionary. */
  const SaveOrder: seq<string> := [KeyItemFactors, KeyUserFactors, KeyNormScores, KeyWSparse, KeyAlpha]

  /** A saved bundle: attribute name to value. */
  type Bundle = map<string, Value>

  /** Every attribute `save_model` reads exists. */
  predicate Persistable(h: Hybrid) {
    && h.svd.itemFactors != Unset && h.svd.userFactors != Unset && h.normScores != Unset
    && h.p3alpha.wSparse != Unset && h.alpha != Unset
  }

  /** `save_model`: exactly the five keys, each bound to the current field;
      building the dictionary raises when one of the attributes is missing. */
  function SaveModel(h: Hybrid): (r: Result<Bundle>)
    ensures r.Ok? <==> Persistable(h)
    ensures r.Ok? ==> r.value.Keys == SavedKeys
    ensures r.Ok? ==> r.value[KeyItemFactors] == h.svd.itemFactors && r.value[KeyUserFactors] == h.svd.userFactors
    ensures r.Ok? ==> r.value[KeyNormScores] == h.normScores && r.value[KeyWSparse] == h.p3alpha.wSparse
    ensures r.Ok? ==> r.value[KeyAlpha] == h.alpha
  {
    if !Persistable(h) then Err("'ScoresHybridP3alphaPureSVD' object has no attribute")
    else
      Ok(map[KeyItemFactors := h.svd.itemFactors, KeyUserFactors := h.svd.userFactors,
             KeyNormScores := h.normScores, KeyWSparse := h.p3alpha.wSparse, KeyAlpha := h.alpha])
  }

  /** A hybrid cannot be saved before `fit`, and can be after it. */
  lemma SaveNeedsFit(urm: Matrix, h: Hybrid, args: FitArgs, t1: P3alphaTrainer, t2: PureSVDTrainer, rng: RandomState)
    ensures SaveModel(New(urm)).Err?
    ensures SaveModel(Fit(h, args, t1, t2, rng)).Ok?
  {
  }

  /** One iteration of the loading loop: a recognised key overwrites its field,
      any other key is ignored. */
  function Dispatch(h: Hybrid, key: string, v: Value): (r: Hybrid)
    ensures key in SavedKeys ==> r == Overlay(h, map[key := v], {key})
    ensures key !in SavedKeys ==> r == h
  {
    if key == KeyWSparse then h.(p3alpha := P3alpha(v))
    else if key == KeyItemFactors then h.(svd := h.svd.(itemFactors := v))
    else if key == KeyUserFactors then h.(svd := h.svd.(userFactors := v))
    else if key == KeyAlpha then h.(alpha := v)
    else if key == KeyNormScores then h.(normScores := v)
    else h
  }

  /** The loading loop over the keys in the order the bundle yields them. */
  function LoadKeys(h: Hybrid, b: Bundle, keys: seq<string>): (r: Hybrid)
    requires forall i :: 0 <= i < |keys| ==> keys[i] in b
    ensures r == Overlay(h, b, set k | k in keys)
    decreases |keys|
  {
    if |keys| == 0 then
      assert (set k | k in keys) == {};
      h
    else
      var rest := set k | k in keys[1..];
      assert (set k | k in keys) == rest + {keys[0]};
      DispatchThenOverlay(h, b, keys[0], rest);
      LoadKeys(Dispatch(h, keys[0], b[keys[0]]), b, keys[1..])
  }

  /** The value of the field for `key` once the keys in `seen` have been loaded. */
  function Pick(b: Bundle, seen: set<string>, key: string, current: Value): Value {
    if key in seen && key in b then b[key] else current
  }

  /** Reference definition of loading: every field whose key has been seen takes
      the bundle's value; every other field keeps its own. */
  function Overlay(h: Hybrid, b: Bundle, seen: set<string>): Hybrid {
    Hybrid(h.urmTrain,
           P3alpha(Pick(b, seen, KeyWSparse, h.p3alpha.wSparse)),
           PureSVD(Pick(b, seen, KeyItemFactors, h.svd.itemFactors),
                   Pick(b, seen, KeyUserFactors, h.svd.userFactors)),
           Pick(b, seen, KeyAlpha, h.alpha),
           Pick(b, seen, KeyNormScores, h.normScores))
  }

  /** Loading one key and then a set of keys is loading both. */
  lemma DispatchThenOverlay(h: Hybrid, b: Bundle, key: string, seen: set<string>)
    requires key in b
    ensures Overlay(Dispatch(h, key, b[key]), b, seen) == Overlay(h, b, seen + {key})
  {
    if key == KeyWSparse {
    } else if key == KeyItemFactors {
    } else if key == KeyUserFactors {
    } else if key == KeyAlpha {
    } else if key == KeyNormScores {
    } else {
      assert Dispatch(h, key, b[key]) == h;
    }
  }

  /** `keys` lists the keys of the bundle and nothing else, each at least once. */
  predicate Enumerates(keys: seq<string>, b: Bundle) {
    (forall i :: 0 <= i < |keys| ==> keys[i] in b) && (forall k :: k in b ==> k in keys)
  }

  /** `load_model`: each recognised key overwrites exactly its own field, fields
      whose key is absent keep their value, unrecognised keys are ignored and the
      rest of the hybrid is untouched. */
  function LoadModel(h: Hybrid, b: Bundle, order: seq<string>): (r: Hybrid)
    requires Enumerates(order, b)
    ensures r.urmTrain == h.urmTrain
    ensures r.p3alpha.wSparse == if KeyWSparse in b then b[KeyWSparse] else h.p3alpha.wSparse
    ensures r.svd.itemFactors == if KeyItemFactors in b then b[KeyItemFactors] else h.svd.itemFactors
    ensures r.svd.userFactors == if KeyUserFactors in b then b[KeyUserFactors] else h.svd.userFactors
    ensures r.alpha == if KeyAlpha in b then b[KeyAlpha] else h.alpha
    ensures r.normScores == if KeyNormScores in b then b[KeyNormScores] else h.normScores
  {
    assert (set k | k in order) == b.Keys;
    LoadKeys(h, b, order)
  }

  /** The result of loading does not depend on the order in which the keys are
      visited, because distinct keys write distinct fields. */
  lemma LoadOrderIndependent(h: Hybrid, b: Bundle, order1: seq<string>, order2: seq<string>)
    requires Enumerates(order1, b) && Enumerates(order2, b)
    ensures LoadModel(h, b, order1) == LoadModel(h, b, order2)
  {
  }

  /** An entry under a key the hybrid does not recognise changes nothing. */
  lemma UnknownKeyIgnored(h: Hybrid, b: Bundle, order: seq<string>, key: string, v: Value)
    requires key !in SavedKeys && Enumerates(order, b)
    ensures Enumerates(order + [key], b[key := v])
    ensures LoadModel(h, b[key := v], order + [key]) == LoadModel(h, b, order)
  {
  }

  /** Saving and then loading into any hybrid on the same training matrix gives
      back the saved hybrid, whatever order the keys are read in. */
  lemma SaveLoadRoundTrip(h: Hybrid, target: Hybrid, order: seq<string>)
    requires SaveModel(h).Ok? && Enumerates(order, SaveModel(h).value)
    ensures LoadModel(target, SaveModel(h).value, order) == h.(urmTrain := target.urmTrain)
  {
  }

  /** The insertion order of `save_model`'s dictionary lists every saved key
      exactly once. */
  lemma SaveOrderEnumerates(h: Hybrid)
    requires SaveModel(h).Ok?
    ensures Enumerates(SaveOrder, SaveModel(h).value)
    ensures forall i, j :: 0 <= i < j < |SaveOrder| ==> SaveOrder[i] != SaveOrder[j]
  {
  }

  /** Loading a bundle that lacks `alpha` into a hybrid that was never fitted
      leaves it without `alpha`, so scoring still raises. */
  lemma PartialLoadCannotScore(urm: Matrix, b: Bundle, order: seq<string>, sc: Scorers, sd1: real, sd2: real)
    requires Enumerates(order, b) && KeyAlpha !in b
    requires StdsFit(LoadModel(New(urm), b, order), sc, sd1, sd2)
    ensures ComputeItemScore(LoadModel(New(urm), b, order), sc, sd1, sd2).Err?
  {
  }

  /** Likewise a bundle that lacks the P3alpha similarity leaves that sub-model
      unable to score, whatever else the bundle restores. */
  lemma MissingSimilarityCannotScore(urm: Matrix, b: Bundle, order: seq<string>, sc: Scorers, sd1: real, sd2: real)
    requires Enumerates(order, b) && KeyWSparse !in b
    ensures StdsFit(LoadModel(New(urm), b, order), sc, sd1, sd2)
    ensures ComputeItemScore(LoadModel(New(urm), b, order), sc, sd1, sd2).Err?
  {
  }

  /** A hybrid restored from the saved bundle scores as the saved hybrid would
      on the restoring hybrid's training matrix, and so exactly as the saved
      hybrid does when that matrix is the same. */
  lemma RoundTripPreservesScores(h: Hybrid, target: Hybrid, sc: Scorers, sd1: real, sd2: real)
    requires SaveModel(h).Ok?
    requires StdsFit(h.(urmTrain := target.urmTrain), sc, sd1, sd2)
    ensures StdsFit(LoadModel(target, SaveModel(h).value, SaveOrder), sc, sd1, sd2)
    ensures ComputeItemScore(LoadModel(target, SaveModel(h).value, SaveOrder), sc, sd1, sd2)
            == ComputeItemScore(h.(urmTrain := target.urmTrain), sc, sd1, sd2)
    ensures target.urmTrain == h.urmTrain ==>
              ComputeItemScore(LoadModel(target, SaveModel(h).value, SaveOrder), sc, sd1, sd2)
              == ComputeItemScore(h, sc, sd1, sd2)
  {
    SaveOrderEnumerates(h);
    SaveLoadRoundTrip(h, target, SaveOrder);
  }
}
