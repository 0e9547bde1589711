/**
 * The validated parameter bundles of the five pool contracts (oracle, pool, refresh, ballot,
 * update). Each holds the contract's pay-to-script address and the register indices and numeric
 * thresholds that parameterise it; the conversions only copy the numbers, never range-check them.
 */
module Contracts {
  import opened Base
  import opened AddressEncoding

  datatype OracleContractParameters = OracleContractParameters(
    p2s: Address,
    poolNftIndex: USize)

  datatype PoolContractParameters = PoolContractParameters(
    p2s: Address,
    refreshNftIndex: USize,
    updateNftIndex: USize)

  datatype RefreshContractParameters = RefreshContractParameters(
    p2s: Address,
    poolNftIndex: USize,
    oracleTokenIdIndex: USize,
    minDataPointsIndex: USize,
    minDataPoints: U64,
    bufferIndex: USize,
    bufferLength: U64,
    maxDeviationPercentIndex: USize,
    maxDeviationPercent: U64,
    epochLengthIndex: USize,
    epochLength: U64)

  datatype BallotContractParameters = BallotContractParameters(
    p2s: Address,
    minStorageRentIndex: USize,
    minStorageRent: U64,
    updateNftIndex: USize)

  datatype UpdateContractParameters = UpdateContractParameters(
    p2s: Address,
    poolNftIndex: USize,
    ballotTokenIndex: USize,
    minVotesIndex: USize,
    minVotes: U64)
}
