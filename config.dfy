/** Compile-time limits shared by the sequential and the OpenMP programs,
    and the validation of the two command lines. */
module Config {

  /** Number of features per point (FEATURES). */
  const Features: nat := 8
  /** Capacity of the point buffer (MAX_POINTS). */
  const MaxPoints: nat := 1000000
  /** Largest cluster count accepted (MAX_K; the OpenMP program also names it MAX_CLUSTERS). */
  const MaxK: nat := 10
  const MaxClusters: nat := 10
  /** Iteration ceiling of one restart (MAX_ITER). */
  const MaxIter: nat := 2000
  /** Restart count used when none is given (DEFAULT_RESTARTS). */
  const DefaultRestarts: nat := 100
  /** Largest restart count the OpenMP program accepts (MAX_RESTARTS). */
  const MaxRestarts: nat := 1000
  /** The largest finite float (FLT_MAX), the initial "no result yet" best accuracy. */
  const FltMax: real := 340282346638528859811704183484516925440.0

  datatype Option<T> = None | Some(value: T)

  datatype Result<T, E> = Ok(value: T) | Err(error: E)

  /** The configuration errors the two programs report before loading any data. */
  datatype ConfigError =
    | ClusterCountOutOfRange   // k <= 0 or k > MaxK
    | RestartsNotPositive      // sequential program only
    | TooManyRestarts          // OpenMP program only

  /** Command-line validation of the sequential program: `k` must lie in
      [1, MaxK] and an explicit restart count must be positive; a missing
      restart count means DefaultRestarts. The result is the restart count to run. */
  function ValidateSeq(k: int, restartsArg: Option<int>): (r: Result<int, ConfigError>)
    ensures r.Ok? <==> 1 <= k <= MaxK && (restartsArg.Some? ==> restartsArg.value > 0)
    ensures !(1 <= k <= MaxK) ==> r == Err(ClusterCountOutOfRange)
    ensures r.Ok? ==> r.value >= 1
    ensures r.Ok? && restartsArg.Some? ==> r.value == restartsArg.value
    ensures r.Ok? && restartsArg.None? ==> r.value == DefaultRestarts
  {
    var restarts := if restartsArg.Some? then restartsArg.value else DefaultRestarts;
    if k <= 0 || k > MaxK then Err(ClusterCountOutOfRange)
    else if restarts <= 0 then Err(RestartsNotPositive)
    else Ok(restarts)
  }

  /** Command-line validation of the OpenMP program: `k` is checked against
      MaxClusters and again against MaxK; a restart count <= 0 silently becomes
      DefaultRestarts, and one above MaxRestarts is rejected. */
  function ValidateOmp(k: int, restartsArg: Option<int>): (r: Result<int, ConfigError>)
    ensures r.Ok? <==> 1 <= k <= MaxClusters && (restartsArg.Some? ==> restartsArg.value <= MaxRestarts)
    ensures !(1 <= k <= MaxClusters) ==> r == Err(ClusterCountOutOfRange)
    ensures r.Ok? ==> 1 <= r.value <= MaxRestarts
    ensures r.Ok? && restartsArg.Some? && restartsArg.value > 0 ==> r.value == restartsArg.value
    ensures r.Ok? && (restartsArg.None? || restartsArg.value <= 0) ==> r.value == DefaultRestarts
  {
    if k <= 0 || k > MaxClusters then Err(ClusterCountOutOfRange)
    else
      var restarts := if restartsArg.Some? then restartsArg.value else DefaultRestarts;
      if k <= 0 || k > MaxK then Err(ClusterCountOutOfRange)
      else if restarts <= 0 then Ok(DefaultRestarts)
      else if restarts > MaxRestarts then Err(TooManyRestarts)
      else Ok(restarts)
  }

  /** The two programs agree on every restart count in [1, MaxRestarts] and
      disagree on a non-positive one: the sequential program rejects it and
      the OpenMP program substitutes the default. */
  lemma ValidationsCompared(k: int, restarts: int)
    requires 1 <= k <= MaxK
    ensures 1 <= restarts <= MaxRestarts ==>
      ValidateSeq(k, Some(restarts)) == ValidateOmp(k, Some(restarts)) == Ok(restarts)
    ensures restarts <= 0 ==>
      ValidateSeq(k, Some(restarts)) == Err(RestartsNotPositive) &&
      ValidateOmp(k, Some(restarts)) == Ok(DefaultRestarts)
    ensures restarts > MaxRestarts ==>
      ValidateSeq(k, Some(restarts)) == Ok(restarts) &&
      ValidateOmp(k, Some(restarts)) == Err(TooManyRestarts)
  {
  }
}
