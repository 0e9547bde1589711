/**
 * The serialised form of the five contract parameter bundles and the conversions in both
 * directions (core/src/serde.rs, lines 282-473).
 *
 * Decoding parses the `p2s` string with the unchecked parser, so it recovers whichever network
 * prefix the string carries and returns it beside the bundle; every other field is copied.
 * Encoding, as written, always uses `Mainnet` for `p2s`, whatever network the pool lives on
 * (`...ToSerde`). The `...ToSerdeOn` functions take the prefix as an argument; the as-written
 * encoders are their `Mainnet` instances, and the corrected configuration encoders of
 * `SerdeConfig` use them with the caller's prefix.
 */
module SerdeContracts {
  import opened Base
  import opened AddressEncoding
  import opened Contracts

  // ---------------------------------------------------------------- oracle contract

  datatype OracleContractParametersSerde = OracleContractParametersSerde(
    p2s: string,
    poolNftIndex: USize)

  function OracleParamsToSerdeOn(codec: Codec, p: OracleContractParameters, prefix: NetworkPrefix)
    : OracleContractParametersSerde
  {
    OracleContractParametersSerde(codec.toStr(prefix, p.p2s), p.poolNftIndex)
  }

  /** `From<OracleContractParameters> for OracleContractParametersSerde`. */
  function OracleParamsToSerde(codec: Codec, p: OracleContractParameters): OracleContractParametersSerde {
    OracleParamsToSerdeOn(codec, p, Mainnet)
  }

  /** `TryFrom<OracleContractParametersSerde> for (OracleContractParameters, NetworkPrefix)`. */
  function OracleParamsFromSerde(codec: Codec, s: OracleContractParametersSerde)
    : (r: Result<(OracleContractParameters, NetworkPrefix), AddressEncoderError>)
    ensures r.Ok? <==> codec.uncheckedParse(s.p2s).Ok?
    ensures r.Err? ==> r.error == codec.uncheckedParse(s.p2s).error
    ensures r.Ok? ==> codec.uncheckedParse(s.p2s) == Ok(NetworkAddress(r.value.1, r.value.0.p2s))
    ensures r.Ok? ==> OracleParamsToSerdeOn(codec, r.value.0, r.value.1) == s.(p2s := codec.toStr(r.value.1, r.value.0.p2s))
  {
    var a :- codec.uncheckedParse(s.p2s);
    Ok((OracleContractParameters(a.address, s.poolNftIndex), a.network))
  }

  lemma OracleParamsRoundTrip(codec: Codec, p: OracleContractParameters, prefix: NetworkPrefix)
    requires Lawful(codec)
    ensures OracleParamsFromSerde(codec, OracleParamsToSerdeOn(codec, p, prefix)) == Ok((p, prefix))
  {
    assert codec.uncheckedParse(codec.toStr(prefix, p.p2s)) == Ok(NetworkAddress(prefix, p.p2s));
  }

  /** The source's encoder writes `p2s` for `Mainnet`, whatever network the bundle belongs to. */
  lemma OracleParamsEncodedOnMainnet(codec: Codec, p: OracleContractParameters)
    requires Lawful(codec)
    ensures OracleParamsFromSerde(codec, OracleParamsToSerde(codec, p)) == Ok((p, Mainnet))
  {
    OracleParamsRoundTrip(codec, p, Mainnet);
  }

  // ---------------------------------------------------------------- pool contract

  datatype PoolContractParametersSerde = PoolContractParametersSerde(
    p2s: string,
    refreshNftIndex: USize,
    updateNftIndex: USize)

  function PoolParamsToSerdeOn(codec: Codec, p: PoolContractParameters, prefix: NetworkPrefix)
    : PoolContractParametersSerde
  {
    PoolContractParametersSerde(codec.toStr(prefix, p.p2s), p.refreshNftIndex, p.updateNftIndex)
  }

  /** `From<PoolContractParameters> for PoolContractParametersSerde`. */
  function PoolParamsToSerde(codec: Codec, p: PoolContractParameters): PoolContractParametersSerde {
    PoolParamsToSerdeOn(codec, p, Mainnet)
  }

  /** `TryFrom<PoolContractParametersSerde> for (PoolContractParameters, NetworkPrefix)`. */
  function PoolParamsFromSerde(codec: Codec, s: PoolContractParametersSerde)
    : (r: Result<(PoolContractParameters, NetworkPrefix), AddressEncoderError>)
    ensures r.Ok? <==> codec.uncheckedParse(s.p2s).Ok?
    ensures r.Err? ==> r.error == codec.uncheckedParse(s.p2s).error
    ensures r.Ok? ==> codec.uncheckedParse(s.p2s) == Ok(NetworkAddress(r.value.1, r.value.0.p2s))
    ensures r.Ok? ==> PoolParamsToSerdeOn(codec, r.value.0, r.value.1) == s.(p2s := codec.toStr(r.value.1, r.value.0.p2s))
  {
    var a :- codec.uncheckedParse(s.p2s);
    Ok((PoolContractParameters(a.address, s.refreshNftIndex, s.updateNftIndex), a.network))
  }

  lemma PoolParamsRoundTrip(codec: Codec, p: PoolContractParameters, prefix: NetworkPrefix)
    requires Lawful(codec)
    ensures PoolParamsFromSerde(codec, PoolParamsToSerdeOn(codec, p, prefix)) == Ok((p, prefix))
  {
    assert codec.uncheckedParse(codec.toStr(prefix, p.p2s)) == Ok(NetworkAddress(prefix, p.p2s));
  }

  /** The source's encoder writes `p2s` for `Mainnet`, whatever network the bundle belongs to. */
  lemma PoolParamsEncodedOnMainnet(codec: Codec, p: PoolContractParameters)
    requires Lawful(codec)
    ensures PoolParamsFromSerde(codec, PoolParamsToSerde(codec, p)) == Ok((p, Mainnet))
  {
    PoolParamsRoundTrip(codec, p, Mainnet);
  }

  // ---------------------------------------------------------------- refresh contract

  datatype RefreshContractParametersSerde = RefreshContractParametersSerde(
    p2s: string,
    poolNftIndex: USize,
    oracleTokenIdIndex: USize,
    minDataPointsIndex: USize,
    minDataPoints: U64,
    bufferIndex: USize,
    bufferLength: U64,
    maxDeviationPercentIndex: USize,
    maxDeviationPercent: U64,
    epochLengthIndex: USize,
    epochLength: U64)

  function RefreshParamsToSerdeOn(codec: Codec, p: RefreshContractParameters, prefix: NetworkPrefix)
    : RefreshContractParametersSerde
  {
    RefreshContractParametersSerde(
      codec.toStr(prefix, p.p2s), p.poolNftIndex, p.oracleTokenIdIndex, p.minDataPointsIndex,
      p.minDataPoints, p.bufferIndex, p.bufferLength, p.maxDeviationPercentIndex,
      p.maxDeviationPercent, p.epochLengthIndex, p.epochLength)
  }

  /** `From<RefreshContractParameters> for RefreshContractParametersSerde`. */
  function RefreshParamsToSerde(codec: Codec, p: RefreshContractParameters): RefreshContractParametersSerde {
    RefreshParamsToSerdeOn(codec, p, Mainnet)
  }

  /** `TryFrom<RefreshContractParametersSerde> for (RefreshContractParameters, NetworkPrefix)`. */
  function RefreshParamsFromSerde(codec: Codec, s: RefreshContractParametersSerde)
    : (r: Result<(RefreshContractParameters, NetworkPrefix), AddressEncoderError>)
    ensures r.Ok? <==> codec.uncheckedParse(s.p2s).Ok?
    ensures r.Err? ==> r.error == codec.uncheckedParse(s.p2s).error
    ensures r.Ok? ==> codec.uncheckedParse(s.p2s) == Ok(NetworkAddress(r.value.1, r.value.0.p2s))
    ensures r.Ok? ==> RefreshParamsToSerdeOn(codec, r.value.0, r.value.1) == s.(p2s := codec.toStr(r.value.1, r.value.0.p2s))
  {
    var a :- codec.uncheckedParse(s.p2s);
    Ok((RefreshContractParameters(
          a.address, s.poolNftIndex, s.oracleTokenIdIndex, s.minDataPointsIndex, s.minDataPoints,
          s.bufferIndex, s.bufferLength, s.maxDeviationPercentIndex, s.maxDeviationPercent,
          s.epochLengthIndex, s.epochLength),
        a.network))
  }

  lemma RefreshParamsRoundTrip(codec: Codec, p: RefreshContractParameters, prefix: NetworkPrefix)
    requires Lawful(codec)
    ensures RefreshParamsFromSerde(codec, RefreshParamsToSerdeOn(codec, p, prefix)) == Ok((p, prefix))
  {
    assert codec.uncheckedParse(codec.toStr(prefix, p.p2s)) == Ok(NetworkAddress(prefix, p.p2s));
  }

  /** The source's encoder writes `p2s` for `Mainnet`, whatever network the bundle belongs to. */
  lemma RefreshParamsEncodedOnMainnet(codec: Codec, p: RefreshContractParameters)
    requires Lawful(codec)
    ensures RefreshParamsFromSerde(codec, RefreshParamsToSerde(codec, p)) == Ok((p, Mainnet))
  {
    RefreshParamsRoundTrip(codec, p, Mainnet);
  }

  // ---------------------------------------------------------------- ballot contract

  datatype BallotContractParametersSerde = BallotContractParametersSerde(
    p2s: string,
    minStorageRentIndex: USize,
    minStorageRent: U64,
    updateNftIndex: USize)

  function BallotParamsToSerdeOn(codec: Codec, p: BallotContractParameters, prefix: NetworkPrefix)
    : BallotContractParametersSerde
  {
    BallotContractParametersSerde(codec.toStr(prefix, p.p2s), p.minStorageRentIndex, p.minStorageRent, p.updateNftIndex)
  }

  /** `From<BallotContractParameters> for BallotContractParametersSerde`. */
  function BallotParamsToSerde(codec: Codec, p: BallotContractParameters): BallotContractParametersSerde {
    BallotParamsToSerdeOn(codec, p, Mainnet)
  }

  /** `TryFrom<BallotContractParametersSerde> for (BallotContractParameters, NetworkPrefix)`. */
  function BallotParamsFromSerde(codec: Codec, s: BallotContractParametersSerde)
    : (r: Result<(BallotContractParameters, NetworkPrefix), AddressEncoderError>)
    ensures r.Ok? <==> codec.uncheckedParse(s.p2s).Ok?
    ensures r.Err? ==> r.error == codec.uncheckedParse(s.p2s).error
    ensures r.Ok? ==> codec.uncheckedParse(s.p2s) == Ok(NetworkAddress(r.value.1, r.value.0.p2s))
    ensures r.Ok? ==> BallotParamsToSerdeOn(codec, r.value.0, r.value.1) == s.(p2s := codec.toStr(r.value.1, r.value.0.p2s))
  {
    var a :- codec.uncheckedParse(s.p2s);
    Ok((BallotContractParameters(a.address, s.minStorageRentIndex, s.minStorageRent, s.updateNftIndex), a.network))
  }

  lemma BallotParamsRoundTrip(codec: Codec, p: BallotContractParameters, prefix: NetworkPrefix)
    requires Lawful(codec)
    ensures BallotParamsFromSerde(codec, BallotParamsToSerdeOn(codec, p, prefix)) == Ok((p, prefix))
  {
    assert codec.uncheckedParse(codec.toStr(prefix, p.p2s)) == Ok(NetworkAddress(prefix, p.p2s));
  }

  /** The source's encoder writes `p2s` for `Mainnet`, whatever network the bundle belongs to. */
  lemma BallotParamsEncodedOnMainnet(codec: Codec, p: BallotContractParameters)
    requires Lawful(codec)
    ensures BallotParamsFromSerde(codec, BallotParamsToSerde(codec, p)) == Ok((p, Mainnet))
  {
    BallotParamsRoundTrip(codec, p, Mainnet);
  }

  // ---------------------------------------------------------------- update contract

  datatype UpdateContractParametersSerde = UpdateContractParametersSerde(
    p2s: string,
    poolNftIndex: USize,
    ballotTokenIndex: USize,
    minVotesIndex: USize,
    minVotes: U64)

  function UpdateParamsToSerdeOn(codec: Codec, p: UpdateContractParameters, prefix: NetworkPrefix)
    : UpdateContractParametersSerde
  {
    UpdateContractParametersSerde(codec.toStr(prefix, p.p2s), p.poolNftIndex, p.ballotTokenIndex, p.minVotesIndex, p.minVotes)
  }

  /** `From<UpdateContractParameters> for UpdateContractParametersSerde`. */
  function UpdateParamsToSerde(codec: Codec, p: UpdateContractParameters): UpdateContractParametersSerde {
    UpdateParamsToSerdeOn(codec, p, Mainnet)
  }

  /** `TryFrom<UpdateContractParametersSerde> for (UpdateContractParameters, NetworkPrefix)`. */
  function UpdateParamsFromSerde(codec: Codec, s: UpdateContractParametersSerde)
    : (r: Result<(UpdateContractParameters, NetworkPrefix), AddressEncoderError>)
    ensures r.Ok? <==> codec.uncheckedParse(s.p2s).Ok?
    ensures r.Err? ==> r.error == codec.uncheckedParse(s.p2s).error
    ensures r.Ok? ==> codec.uncheckedParse(s.p2s) == Ok(NetworkAddress(r.value.1, r.value.0.p2s))
    ensures r.Ok? ==> UpdateParamsToSerdeOn(codec, r.value.0, r.value.1) == s.(p2s := codec.toStr(r.value.1, r.value.0.p2s))
  {
    var a :- codec.uncheckedParse(s.p2s);
    Ok((UpdateContractParameters(a.address, s.poolNftIndex, s.ballotTokenIndex, s.minVotesIndex, s.minVotes), a.network))
  }

  lemma UpdateParamsRoundTrip(codec: Codec, p: UpdateContractParameters, prefix: NetworkPrefix)
    requires Lawful(codec)
    ensures UpdateParamsFromSerde(codec, UpdateParamsToSerdeOn(codec, p, prefix)) == Ok((p, prefix))
  {
    assert codec.uncheckedParse(codec.toStr(prefix, p.p2s)) == Ok(NetworkAddress(prefix, p.p2s));
  }

  /** The source's encoder writes `p2s` for `Mainnet`, whatever network the bundle belongs to. */
  lemma UpdateParamsEncodedOnMainnet(codec: Codec, p: UpdateContractParameters)
    requires Lawful(codec)
    ensures UpdateParamsFromSerde(codec, UpdateParamsToSerde(codec, p)) == Ok((p, Mainnet))
  {
    UpdateParamsRoundTrip(codec, p, Mainnet);
  }
}
