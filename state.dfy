/**
 * The epoch decision engine: from the state the oracle pool is in and the current blockchain
 * height, the command (if any) this oracle should issue next.
 *
 * The checks run in a fixed order: no pool yet, no local datapoint, a datapoint from another
 * epoch, a stale datapoint, a refresh that is due, otherwise nothing. The arithmetic is on `u32`
 * and is written out as it behaves in a release build (wrap-around); `ProcessIntended` states
 * the same decision on unbounded integers, and `ProcessAgreesWithIntended` shows the two agree
 * whenever nothing wraps.
 */
module State {
  import opened Base

  /** The last datapoint box this oracle posted: the epoch it belongs to and its creation height. */
  datatype LocalDatapointBoxState = LocalDatapointBoxState(epochId: U32, height: U32)

  /** A running pool: its current epoch, the height of its pool box, and our own last datapoint. */
  datatype LiveEpochState = LiveEpochState(
    epochId: U32,
    latestPoolBoxHeight: U32,
    localDatapointBoxState: Option<LocalDatapointBoxState>)

  /** The state the oracle pool is currently in. */
  datatype PoolState = NeedsBootstrap | LiveEpoch(liveEpoch: LiveEpochState)

  /** The actions `process` can ask for. */
  datatype PoolCommand =
    | PublishFirstDataPoint
    | PublishSubsequentDataPoint(republish: bool)
    | Refresh

  datatype StageError = StageError(reason: string)

  // ---------------------------------------------------------------- u32 arithmetic

  /** `x as u32` for a `u64`: keeps the low 32 bits. */
  function TruncateToU32(x: U64): (r: U32)
    ensures x < U32Modulus ==> r == x
    ensures r <= x && (x - r) % U32Modulus == 0
  {
    x % U32Modulus
  }

  /** `a - b` on `u32` in a release build: wraps below zero. */
  function WrappingSub(a: U32, b: U32): (r: U32)
    ensures b <= a ==> r == a - b
    ensures a < b ==> r == U32Modulus - (b - a)
  {
    (a - b) % U32Modulus
  }

  /** `a + b` on `u32` in a release build: wraps past the largest value. */
  function WrappingAdd(a: U32, b: U32): (r: U32)
    ensures a + b < U32Modulus ==> r == a + b
    ensures a + b >= U32Modulus ==> r == a + b - U32Modulus && r < a && r < b
  {
    (a + b) % U32Modulus
  }

  // ---------------------------------------------------------------- the decision

  /**
   * `process`. `configuredEpochLength` is the refresh contract's `epoch_length`, which the source
   * reads from the global configuration and casts to `u32`; the subtraction and the addition are
   * the `u32` operations of a release build.
   */
  function Process(state: PoolState, height: U32, configuredEpochLength: U64)
    : (r: Result<Option<PoolCommand>, StageError>)
    ensures r.Ok?
  {
    match state
    case NeedsBootstrap => Ok(None)
    case LiveEpoch(live) =>
      var epochLength := TruncateToU32(configuredEpochLength);
      match live.localDatapointBoxState
      case Some(local) =>
        if local.epochId != live.epochId then
          Ok(Some(PublishSubsequentDataPoint(false)))
        else if local.height < WrappingSub(height, epochLength) then
          Ok(Some(PublishSubsequentDataPoint(true)))
        else if height >= WrappingAdd(live.latestPoolBoxHeight, epochLength) then
          Ok(Some(Refresh))
        else
          Ok(None)
      case None =>
        Ok(Some(PublishFirstDataPoint))
  }

  /**
   * The decision as the checks are meant: a datapoint is stale when more than one epoch has
   * passed since it was posted, and a refresh is due once a whole epoch has passed since the
   * pool box was created. Heights and the epoch length are unbounded here.
   */
  function ProcessIntended(state: PoolState, height: nat, epochLength: nat): (r: Option<PoolCommand>)
    ensures state.NeedsBootstrap? ==> r.None?
    ensures state.LiveEpoch? && state.liveEpoch.localDatapointBoxState.None? ==> r == Some(PublishFirstDataPoint)
    ensures r == Some(PublishSubsequentDataPoint(true)) ==>
              state.LiveEpoch? && state.liveEpoch.localDatapointBoxState.Some? &&
              height - state.liveEpoch.localDatapointBoxState.value.height > epochLength
    ensures r == Some(Refresh) ==>
              state.LiveEpoch? && height - state.liveEpoch.latestPoolBoxHeight >= epochLength
  {
    match state
    case NeedsBootstrap => None
    case LiveEpoch(live) =>
      match live.localDatapointBoxState
      case None => Some(PublishFirstDataPoint)
      case Some(local) =>
        if local.epochId != live.epochId then Some(PublishSubsequentDataPoint(false))
        else if height - local.height > epochLength then Some(PublishSubsequentDataPoint(true))
        else if height - live.latestPoolBoxHeight >= epochLength then Some(Refresh)
        else None
  }

  /** Neither `u32` operation of `process` wraps. */
  predicate NoWrap(state: PoolState, height: U32, epochLength: U32) {
    state.LiveEpoch? ==>
      epochLength <= height && state.liveEpoch.latestPoolBoxHeight + epochLength < U32Modulus
  }

  /** Whenever nothing wraps, `process` makes the intended decision. */
  lemma ProcessAgreesWithIntended(state: PoolState, height: U32, configuredEpochLength: U64)
    requires NoWrap(state, height, TruncateToU32(configuredEpochLength))
    ensures Process(state, height, configuredEpochLength) ==
            Ok(ProcessIntended(state, height, TruncateToU32(configuredEpochLength)))
  {
  }

  // ---------------------------------------------------------------- the order of the checks

  /** With no pool on chain nothing is done, whatever the height. */
  lemma NeedsBootstrapDoesNothing(height: U32, configuredEpochLength: U64)
    ensures Process(NeedsBootstrap, height, configuredEpochLength) == Ok(None)
  {
  }

  /** Without a datapoint of our own, the first one is published, whatever the heights. */
  lemma NoLocalDatapointPublishesFirst(live: LiveEpochState, height: U32, configuredEpochLength: U64)
    requires live.localDatapointBoxState.None?
    ensures Process(LiveEpoch(live), height, configuredEpochLength) == Ok(Some(PublishFirstDataPoint))
  {
  }

  /** A datapoint from another epoch is replaced by a fresh one, before staleness or refresh is looked at. */
  lemma OtherEpochPublishesSubsequent(live: LiveEpochState, height: U32, configuredEpochLength: U64)
    requires live.localDatapointBoxState.Some?
    requires live.localDatapointBoxState.value.epochId != live.epochId
    ensures Process(LiveEpoch(live), height, configuredEpochLength) ==
            Ok(Some(PublishSubsequentDataPoint(false)))
  {
  }

  /** In the current epoch, a datapoint older than one epoch is republished. */
  lemma StaleDatapointIsRepublished(live: LiveEpochState, height: U32, configuredEpochLength: U64)
    requires live.localDatapointBoxState.Some?
    requires live.localDatapointBoxState.value.epochId == live.epochId
    requires TruncateToU32(configuredEpochLength) <= height
    requires live.localDatapointBoxState.value.height < height - TruncateToU32(configuredEpochLength)
    ensures Process(LiveEpoch(live), height, configuredEpochLength) ==
            Ok(Some(PublishSubsequentDataPoint(true)))
  {
  }

  /**
   * In the current epoch with a datapoint that is not stale, a refresh is issued exactly when an
   * epoch has passed since the pool box, and nothing is done otherwise.
   */
  lemma RefreshExactlyWhenEpochPassed(live: LiveEpochState, height: U32, configuredEpochLength: U64)
    requires live.localDatapointBoxState.Some?
    requires live.localDatapointBoxState.value.epochId == live.epochId
    requires TruncateToU32(configuredEpochLength) <= height
    requires live.localDatapointBoxState.value.height >= height - TruncateToU32(configuredEpochLength)
    requires live.latestPoolBoxHeight + TruncateToU32(configuredEpochLength) < U32Modulus
    ensures var r := Process(LiveEpoch(live), height, configuredEpochLength);
            (r == Ok(Some(Refresh)) <==> height >= live.latestPoolBoxHeight + TruncateToU32(configuredEpochLength)) &&
            (r != Ok(Some(Refresh)) ==> r == Ok(None))
  {
  }

  /** The epoch length is the configured one whenever that fits in 32 bits. */
  lemma EpochLengthIsConfigured(live: LiveEpochState, height: U32, configuredEpochLength: U64)
    requires configuredEpochLength < U32Modulus
    requires NoWrap(LiveEpoch(live), height, configuredEpochLength)
    ensures Process(LiveEpoch(live), height, configuredEpochLength) ==
            Ok(ProcessIntended(LiveEpoch(live), height, configuredEpochLength))
  {
    ProcessAgreesWithIntended(LiveEpoch(live), height, configuredEpochLength);
  }

  /** A configured epoch length of 2^32 or more is silently reduced modulo 2^32. */
  lemma EpochLengthIsTruncated(live: LiveEpochState, height: U32, configuredEpochLength: U64)
    requires configuredEpochLength >= U32Modulus
    ensures Process(LiveEpoch(live), height, configuredEpochLength) ==
            Process(LiveEpoch(live), height, configuredEpochLength - U32Modulus)
  {
    assert TruncateToU32(configuredEpochLength) == TruncateToU32(configuredEpochLength - U32Modulus);
  }

  // ---------------------------------------------------------------- concrete cases

  function SameEpochWithDatapointAt(localHeight: U32, poolBoxHeight: U32): PoolState {
    LiveEpoch(LiveEpochState(7, poolBoxHeight, Some(LocalDatapointBoxState(7, localHeight))))
  }

  /** Epoch length 10, height 100: a datapoint at height 80 is republished. */
  lemma ExampleStaleDatapoint()
    ensures Process(SameEpochWithDatapointAt(80, 85), 100, 10) == Ok(Some(PublishSubsequentDataPoint(true)))
  {
  }

  /** Epoch length 10, height 100: a datapoint at 95 and a pool box at 85 call for a refresh. */
  lemma ExampleRefreshDue()
    ensures Process(SameEpochWithDatapointAt(95, 85), 100, 10) == Ok(Some(Refresh))
  {
  }

  /** Epoch length 10, height 100: a datapoint at 95 and a pool box at 92 call for nothing. */
  lemma ExampleNothingToDo()
    ensures Process(SameEpochWithDatapointAt(95, 92), 100, 10) == Ok(None)
  {
  }

  // ---------------------------------------------------------------- early heights

  /**
   * Below the first epoch length, `height - epoch_length` wraps to a huge value in a release
   * build, so a datapoint of the current epoch posted at or before the current height is always
   * republished, although no epoch has passed since it was posted and the intended decision
   * never republishes there. (A debug build panics instead.)
   */
  lemma EarlyHeightAlwaysRepublishes(live: LiveEpochState, height: U32, configuredEpochLength: U64)
    requires live.localDatapointBoxState.Some?
    requires live.localDatapointBoxState.value.epochId == live.epochId
    requires live.localDatapointBoxState.value.height <= height < TruncateToU32(configuredEpochLength)
    ensures Process(LiveEpoch(live), height, configuredEpochLength) ==
            Ok(Some(PublishSubsequentDataPoint(true)))
    ensures ProcessIntended(LiveEpoch(live), height, TruncateToU32(configuredEpochLength)) !=
            Some(PublishSubsequentDataPoint(true))
  {
  }

  /** The smallest such case: epoch length 10, height 5, a datapoint posted at height 5. */
  lemma ExampleEarlyHeight()
    ensures Process(SameEpochWithDatapointAt(5, 0), 5, 10) == Ok(Some(PublishSubsequentDataPoint(true)))
    ensures ProcessIntended(SameEpochWithDatapointAt(5, 0), 5, 10) == None
  {
  }
}
