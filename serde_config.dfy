/**
 * Conversions between the serialised configurations and the validated ones
 * (core/src/serde.rs, lines 30-280 and 475-541).
 *
 * Every address string is decoded first; any decode failure is returned at once as
 * `AddressEncoder`. Only when all decodes succeed are the recovered network prefixes compared,
 * and a disagreement is `NetworkPrefixesDiffer`. `Verdict` states this error taxonomy once, over
 * the list of decode outcomes in the order the source performs them; each conversion is proved
 * to agree with it.
 *
 * The passthrough types the conversions never inspect (token ids, ballot vote parameters, the log
 * level filter, the predefined data-point source, the tokens to mint) are type parameters.
 */
module SerdeConfig {
  import opened Base
  import opened AddressEncoding
  import opened Contracts
  import opened SerdeContracts

  datatype SerdeConversionError =
    | AddressEncoder(error: AddressEncoderError)
    | NetworkPrefixesDiffer

  /** Rust's `?` on an `AddressEncoderError`, through the derived `From` conversion. */
  function FromEncoderError<T>(r: Result<T, AddressEncoderError>): (r': Result<T, SerdeConversionError>)
    ensures r'.Ok? <==> r.Ok?
    ensures r.Ok? ==> r'.value == r.value
    ensures r.Err? ==> r'.error == AddressEncoder(r.error)
  {
    match r
    case Ok(v) => Ok(v)
    case Err(e) => Err(AddressEncoder(e))
  }

  // ---------------------------------------------------------------- the error taxonomy

  /** What one address decode yields: the recovered network prefix, or the decoder's error. */
  type DecodeStep = Result<NetworkPrefix, AddressEncoderError>

  /** The error of the first failing decode, if any. */
  function FirstError(steps: seq<DecodeStep>): (e: Option<AddressEncoderError>)
    ensures e.None? <==> forall i :: 0 <= i < |steps| ==> steps[i].Ok?
    ensures e.Some? ==> exists i :: 0 <= i < |steps| && steps[i] == Err(e.value) &&
                                    forall j :: 0 <= j < i ==> steps[j].Ok?
  {
    if steps == [] then None
    else if steps[0].Err? then Some(steps[0].error)
    else
      var e := FirstError(steps[1..]);
      assert forall i :: 1 <= i < |steps| ==> steps[i] == steps[1..][i - 1];
      if e.Some? then
        var k :| 0 <= k < |steps[1..]| && steps[1..][k] == Err(e.value) &&
                 forall j :: 0 <= j < k ==> steps[1..][j].Ok?;
        assert steps[k + 1] == Err(e.value);
        e
      else e
  }

  lemma {:induction false} FirstErrorAppend(a: seq<DecodeStep>, b: seq<DecodeStep>)
    ensures FirstError(a + b) == if FirstError(a).Some? then FirstError(a) else FirstError(b)
  {
    if a != [] {
      assert (a + b)[1..] == a[1..] + b;
      FirstErrorAppend(a[1..], b);
    } else {
      assert a + b == b;
    }
  }

  /**
   * All decodes succeeded with one and the same network prefix, and that prefix is `anchor`
   * when an anchor is given.
   */
  ghost predicate Agree(steps: seq<DecodeStep>, anchor: Option<NetworkPrefix>) {
    (forall i, j :: 0 <= i < |steps| && 0 <= j < |steps| ==> steps[i] == steps[j]) &&
    (anchor.Some? ==> forall i :: 0 <= i < |steps| ==> steps[i] == Ok(anchor.value))
  }

  /**
   * The error a conversion must report for these decode outcomes, or `None` if it must succeed:
   * the first decode error wins; otherwise any disagreement among the prefixes (or with the
   * anchor) is `NetworkPrefixesDiffer`.
   */
  ghost function Verdict(steps: seq<DecodeStep>, anchor: Option<NetworkPrefix>): Option<SerdeConversionError> {
    match FirstError(steps)
    case Some(e) => Some(AddressEncoder(e))
    case None => if Agree(steps, anchor) then None else Some(NetworkPrefixesDiffer)
  }

  /** A malformed address is never reported as a prefix mismatch. */
  lemma DecodeErrorTakesPrecedence(steps: seq<DecodeStep>, anchor: Option<NetworkPrefix>, i: nat)
    requires i < |steps| && steps[i].Err?
    ensures Verdict(steps, anchor).Some? && Verdict(steps, anchor).value.AddressEncoder?
  {
  }

  /** The error of a failing decode preceded only by successes is the first error. */
  lemma FirstErrorAt(steps: seq<DecodeStep>, k: nat)
    requires k < |steps| && steps[k].Err?
    requires forall j :: 0 <= j < k ==> steps[j].Ok?
    ensures FirstError(steps) == Some(steps[k].error)
  {
  }

  /** When every decode succeeded, the prefixes agree exactly when they all equal the `k`-th. */
  lemma AgreeWithOne(steps: seq<DecodeStep>, k: nat)
    requires k < |steps|
    ensures Agree(steps, None) <==> forall i :: 0 <= i < |steps| ==> steps[i] == steps[k]
  {
  }

  /** The prefix of a decoded bundle; `Ok((_, p))` becomes `Ok(p)`. */
  function StepOf<T>(r: Result<(T, NetworkPrefix), AddressEncoderError>): DecodeStep {
    match r
    case Ok(v) => Ok(v.1)
    case Err(e) => Err(e)
  }

  // ---------------------------------------------------------------- addresses

  /** `Addresses`: where the oracle tokens go and which wallet pays for chain transactions. */
  datatype Addresses = Addresses(
    addressForOracleTokens: Address,
    walletAddressForChainTransaction: Address)

  datatype AddressesSerde = AddressesSerde(
    addressForOracleTokens: string,
    walletAddressForChainTransaction: string)

  datatype AddressesWithPrefix = AddressesWithPrefix(addresses: Addresses, prefix: NetworkPrefix)

  /** `From<(Addresses, NetworkPrefix)> for AddressesSerde`. */
  function AddressesToSerde(codec: Codec, a: Addresses, prefix: NetworkPrefix): AddressesSerde {
    AddressesSerde(
      codec.toStr(prefix, a.addressForOracleTokens),
      codec.toStr(prefix, a.walletAddressForChainTransaction))
  }

  /**
   * `TryFrom<AddressesSerde> for AddressesWithPrefix`: the prefix is the one of the oracle-token
   * address; the wallet address is parsed with the checked parser under that prefix.
   */
  function AddressesFromSerde(codec: Codec, s: AddressesSerde): (r: Result<AddressesWithPrefix, AddressEncoderError>)
    ensures codec.uncheckedParse(s.addressForOracleTokens).Err? ==> r == Err(codec.uncheckedParse(s.addressForOracleTokens).error)
    ensures r.Ok? ==> codec.uncheckedParse(s.addressForOracleTokens) ==
                      Ok(NetworkAddress(r.value.prefix, r.value.addresses.addressForOracleTokens))
    ensures r.Ok? ==> codec.parse(r.value.prefix, s.walletAddressForChainTransaction) ==
                      Ok(r.value.addresses.walletAddressForChainTransaction)
    ensures codec.uncheckedParse(s.addressForOracleTokens).Ok? ==>
              var prefix := codec.uncheckedParse(s.addressForOracleTokens).value.network;
              (r.Ok? <==> codec.parse(prefix, s.walletAddressForChainTransaction).Ok?) &&
              (r.Err? ==> r.error == codec.parse(prefix, s.walletAddressForChainTransaction).error)
  {
    var oracleTokenAddress :- codec.uncheckedParse(s.addressForOracleTokens);
    var prefix := oracleTokenAddress.network;
    var wallet :- codec.parse(prefix, s.walletAddressForChainTransaction);
    Ok(AddressesWithPrefix(Addresses(oracleTokenAddress.address, wallet), prefix))
  }

  lemma AddressesRoundTrip(codec: Codec, a: Addresses, prefix: NetworkPrefix)
    requires Lawful(codec)
    ensures AddressesFromSerde(codec, AddressesToSerde(codec, a, prefix)) == Ok(AddressesWithPrefix(a, prefix))
  {
    CheckedParseOfEncoded(codec, prefix, prefix, a.walletAddressForChainTransaction);
  }

  /**
   * Under the laws, the addresses decode exactly when both strings are addresses of one network;
   * a wallet address of the other network fails inside the decoder, as an `AddressEncoderError`.
   */
  lemma AddressesDecodeExactlyOnOneNetwork(codec: Codec, s: AddressesSerde)
    requires Lawful(codec)
    ensures AddressesFromSerde(codec, s).Ok? <==>
              codec.uncheckedParse(s.addressForOracleTokens).Ok? &&
              codec.uncheckedParse(s.walletAddressForChainTransaction).Ok? &&
              codec.uncheckedParse(s.addressForOracleTokens).value.network ==
                codec.uncheckedParse(s.walletAddressForChainTransaction).value.network
    ensures AddressesFromSerde(codec, s).Ok? ==>
              AddressesFromSerde(codec, s).value.addresses.walletAddressForChainTransaction ==
                codec.uncheckedParse(s.walletAddressForChainTransaction).value.address
  {
  }

  // ---------------------------------------------------------------- oracle configuration

  datatype BallotBoxWrapperParametersSerde<Vote> = BallotBoxWrapperParametersSerde(
    contractParameters: BallotContractParametersSerde,
    voteParameters: Option<Vote>,
    ballotTokenOwnerAddress: string)

  datatype BallotBoxWrapperParameters<Vote> = BallotBoxWrapperParameters(
    contractParameters: BallotContractParameters,
    voteParameters: Option<Vote>,
    ballotTokenOwnerAddress: Address)

  /** `OracleConfigSerde`, the configuration file as read. */
  datatype OracleConfigSerde<TokenIds, Vote, Level, Source> = OracleConfigSerde(
    nodeIp: string,
    nodePort: U16,
    nodeApiKey: string,
    baseFee: U64,
    logLevel: Option<Level>,
    coreApiPort: U16,
    oracleAddress: string,
    dataPointSource: Option<Source>,
    dataPointSourceCustomScript: Option<string>,
    oracleContractParameters: OracleContractParametersSerde,
    poolContractParameters: PoolContractParametersSerde,
    refreshContractParameters: RefreshContractParametersSerde,
    updateContractParameters: UpdateContractParametersSerde,
    ballotParameters: BallotBoxWrapperParametersSerde<Vote>,
    tokenIds: TokenIds,
    addresses: AddressesSerde)

  /** `OracleConfig`, the validated configuration. `oracleAddress` stays a string. */
  datatype OracleConfig<TokenIds, Vote, Level, Source> = OracleConfig(
    nodeIp: string,
    nodePort: U16,
    nodeApiKey: string,
    baseFee: U64,
    logLevel: Option<Level>,
    coreApiPort: U16,
    oracleAddress: string,
    dataPointSource: Option<Source>,
    dataPointSourceCustomScript: Option<string>,
    oracleContractParameters: OracleContractParameters,
    poolContractParameters: PoolContractParameters,
    refreshContractParameters: RefreshContractParameters,
    updateContractParameters: UpdateContractParameters,
    ballotParameters: BallotBoxWrapperParameters<Vote>,
    tokenIds: TokenIds,
    addresses: Addresses)

  /** `TryFrom<OracleConfigSerde> for OracleConfig`. */
  function OracleConfigFromSerde<TokenIds, Vote, Level, Source>(
    codec: Codec, c: OracleConfigSerde<TokenIds, Vote, Level, Source>)
    : Result<OracleConfig<TokenIds, Vote, Level, Source>, SerdeConversionError>
  {
    var oracle :- FromEncoderError(OracleParamsFromSerde(codec, c.oracleContractParameters));
    var pool :- FromEncoderError(PoolParamsFromSerde(codec, c.poolContractParameters));
    var refresh :- FromEncoderError(RefreshParamsFromSerde(codec, c.refreshContractParameters));
    var update :- FromEncoderError(UpdateParamsFromSerde(codec, c.updateContractParameters));
    var owner :- FromEncoderError(codec.uncheckedParse(c.ballotParameters.ballotTokenOwnerAddress));
    var networkPrefix := owner.network;
    var ballot :- FromEncoderError(BallotParamsFromSerde(codec, c.ballotParameters.contractParameters));
    var ballotParameters := BallotBoxWrapperParameters(ballot.0, c.ballotParameters.voteParameters, owner.address);
    var addressesWithPrefix :- FromEncoderError(AddressesFromSerde(codec, c.addresses));
    if addressesWithPrefix.prefix == networkPrefix
       && ballot.1 == networkPrefix
       && update.1 == networkPrefix
       && refresh.1 == networkPrefix
       && oracle.1 == networkPrefix
       && pool.1 == networkPrefix
    then
      Ok(OracleConfig(
           c.nodeIp, c.nodePort, c.nodeApiKey, c.baseFee, c.logLevel, c.coreApiPort, c.oracleAddress,
           c.dataPointSource, c.dataPointSourceCustomScript,
           oracle.0, pool.0, refresh.0, update.0, ballotParameters, c.tokenIds,
           addressesWithPrefix.addresses))
    else
      Err(NetworkPrefixesDiffer)
  }

  /**
   * The decodes `OracleConfigFromSerde` performs, in its order: oracle, pool, refresh and update
   * contracts, ballot-token owner, ballot contract, addresses.
   */
  function OracleConfigSteps<TokenIds, Vote, Level, Source>(
    codec: Codec, c: OracleConfigSerde<TokenIds, Vote, Level, Source>): seq<DecodeStep>
  {
    [ StepOf(OracleParamsFromSerde(codec, c.oracleContractParameters)),
      StepOf(PoolParamsFromSerde(codec, c.poolContractParameters)),
      StepOf(RefreshParamsFromSerde(codec, c.refreshContractParameters)),
      StepOf(UpdateParamsFromSerde(codec, c.updateContractParameters)),
      codec.uncheckedParse(c.ballotParameters.ballotTokenOwnerAddress).MapOk((a: NetworkAddress) => a.network),
      StepOf(BallotParamsFromSerde(codec, c.ballotParameters.contractParameters)),
      AddressesFromSerde(codec, c.addresses).MapOk((a: AddressesWithPrefix) => a.prefix) ]
  }

  /**
   * The oracle configuration is accepted exactly when every decode succeeds and all seven
   * recovered prefixes agree (the source compares each against the ballot-token owner's);
   * otherwise it fails with the first decode error, or with `NetworkPrefixesDiffer`.
   */
  lemma OracleConfigVerdict<TokenIds, Vote, Level, Source>(
    codec: Codec, c: OracleConfigSerde<TokenIds, Vote, Level, Source>)
    ensures var r := OracleConfigFromSerde(codec, c);
            var v := Verdict(OracleConfigSteps(codec, c), None);
            (r.Ok? <==> v.None?) && (r.Err? ==> r.error == v.value)
  {
    var steps := OracleConfigSteps(codec, c);
    var oracle := OracleParamsFromSerde(codec, c.oracleContractParameters);
    var pool := PoolParamsFromSerde(codec, c.poolContractParameters);
    var refresh := RefreshParamsFromSerde(codec, c.refreshContractParameters);
    var update := UpdateParamsFromSerde(codec, c.updateContractParameters);
    var owner := codec.uncheckedParse(c.ballotParameters.ballotTokenOwnerAddress);
    var ballot := BallotParamsFromSerde(codec, c.ballotParameters.contractParameters);
    var addresses := AddressesFromSerde(codec, c.addresses);
    if oracle.Err? {
      FirstErrorAt(steps, 0);
    } else if pool.Err? {
      FirstErrorAt(steps, 1);
    } else if refresh.Err? {
      FirstErrorAt(steps, 2);
    } else if update.Err? {
      FirstErrorAt(steps, 3);
    } else if owner.Err? {
      FirstErrorAt(steps, 4);
    } else if ballot.Err? {
      FirstErrorAt(steps, 5);
    } else if addresses.Err? {
      FirstErrorAt(steps, 6);
    } else {
      AgreeWithOne(steps, 4);
      var prefix := owner.value.network;
      var agree := addresses.value.prefix == prefix && ballot.value.1 == prefix && update.value.1 == prefix
                   && refresh.value.1 == prefix && oracle.value.1 == prefix && pool.value.1 == prefix;
      assert steps == [Ok(oracle.value.1), Ok(pool.value.1), Ok(refresh.value.1), Ok(update.value.1),
                       Ok(prefix), Ok(ballot.value.1), Ok(addresses.value.prefix)];
      if agree {
        forall i | 0 <= i < |steps| ensures steps[i] == steps[4] {
          assert i == 0 || i == 1 || i == 2 || i == 3 || i == 4 || i == 5 || i == 6;
        }
      } else if addresses.value.prefix != prefix {
        assert steps[6] != steps[4];
      } else if ballot.value.1 != prefix {
        assert steps[5] != steps[4];
      } else if update.value.1 != prefix {
        assert steps[3] != steps[4];
      } else if refresh.value.1 != prefix {
        assert steps[2] != steps[4];
      } else if oracle.value.1 != prefix {
        assert steps[0] != steps[4];
      } else {
        assert steps[1] != steps[4];
      }
      assert OracleConfigFromSerde(codec, c).Ok? <==> agree;
    }
  }

  /** Replaces every address string by the empty string, leaving all other fields. */
  function OracleConfigSerdeWithoutAddresses<TokenIds, Vote, Level, Source>(
    c: OracleConfigSerde<TokenIds, Vote, Level, Source>): OracleConfigSerde<TokenIds, Vote, Level, Source>
  {
    c.(oracleContractParameters := c.oracleContractParameters.(p2s := ""),
       poolContractParameters := c.poolContractParameters.(p2s := ""),
       refreshContractParameters := c.refreshContractParameters.(p2s := ""),
       updateContractParameters := c.updateContractParameters.(p2s := ""),
       ballotParameters := c.ballotParameters.(
         contractParameters := c.ballotParameters.contractParameters.(p2s := ""),
         ballotTokenOwnerAddress := ""),
       addresses := AddressesSerde("", ""))
  }

  /**
   * `From<(OracleConfig, NetworkPrefix)> for OracleConfigSerde`, generalised: the ballot-token
   * owner and the addresses are encoded under `prefix`, every contract `p2s` under
   * `contractPrefix`.
   */
  function EncodeOracleConfig<TokenIds, Vote, Level, Source>(
    codec: Codec, c: OracleConfig<TokenIds, Vote, Level, Source>,
    prefix: NetworkPrefix, contractPrefix: NetworkPrefix)
    : OracleConfigSerde<TokenIds, Vote, Level, Source>
  {
    OracleConfigSerde(
      c.nodeIp, c.nodePort, c.nodeApiKey, c.baseFee, c.logLevel, c.coreApiPort, c.oracleAddress,
      c.dataPointSource, c.dataPointSourceCustomScript,
      OracleParamsToSerdeOn(codec, c.oracleContractParameters, contractPrefix),
      PoolParamsToSerdeOn(codec, c.poolContractParameters, contractPrefix),
      RefreshParamsToSerdeOn(codec, c.refreshContractParameters, contractPrefix),
      UpdateParamsToSerdeOn(codec, c.updateContractParameters, contractPrefix),
      BallotBoxWrapperParametersSerde(
        BallotParamsToSerdeOn(codec, c.ballotParameters.contractParameters, contractPrefix),
        c.ballotParameters.voteParameters,
        codec.toStr(prefix, c.ballotParameters.ballotTokenOwnerAddress)),
      c.tokenIds,
      AddressesToSerde(codec, c.addresses, prefix))
  }

  /** `From<(OracleConfig, NetworkPrefix)> for OracleConfigSerde`, as written: contracts always on `Mainnet`. */
  function OracleConfigToSerde<TokenIds, Vote, Level, Source>(
    codec: Codec, c: OracleConfig<TokenIds, Vote, Level, Source>, prefix: NetworkPrefix)
    : OracleConfigSerde<TokenIds, Vote, Level, Source>
  {
    EncodeOracleConfig(codec, c, prefix, Mainnet)
  }

  /** The corrected encoder: every address, contracts included, under the caller's prefix. */
  function OracleConfigToSerdeOnNetwork<TokenIds, Vote, Level, Source>(
    codec: Codec, c: OracleConfig<TokenIds, Vote, Level, Source>, prefix: NetworkPrefix)
    : OracleConfigSerde<TokenIds, Vote, Level, Source>
  {
    EncodeOracleConfig(codec, c, prefix, prefix)
  }

  /**
   * A successful conversion copies every field that is not an address string: re-encoding the
   * result, under any prefixes, reproduces the input apart from the address strings. The
   * `oracleAddress` string is among the copied fields and is never decoded or prefix-checked.
   */
  lemma OracleConfigCopiesFields<TokenIds, Vote, Level, Source>(
    codec: Codec, c: OracleConfigSerde<TokenIds, Vote, Level, Source>,
    prefix: NetworkPrefix, contractPrefix: NetworkPrefix)
    requires OracleConfigFromSerde(codec, c).Ok?
    ensures OracleConfigSerdeWithoutAddresses(EncodeOracleConfig(codec, OracleConfigFromSerde(codec, c).value, prefix, contractPrefix)) ==
            OracleConfigSerdeWithoutAddresses(c)
  {
  }

  /**
   * A successful conversion holds the decoded bundles and addresses, all recovered under the
   * ballot-token owner's prefix.
   */
  lemma OracleConfigHoldsDecodedValues<TokenIds, Vote, Level, Source>(
    codec: Codec, c: OracleConfigSerde<TokenIds, Vote, Level, Source>)
    requires OracleConfigFromSerde(codec, c).Ok?
    ensures var cfg := OracleConfigFromSerde(codec, c).value;
            var prefix := codec.uncheckedParse(c.ballotParameters.ballotTokenOwnerAddress).value.network;
            codec.uncheckedParse(c.ballotParameters.ballotTokenOwnerAddress) ==
              Ok(NetworkAddress(prefix, cfg.ballotParameters.ballotTokenOwnerAddress)) &&
            OracleParamsFromSerde(codec, c.oracleContractParameters) == Ok((cfg.oracleContractParameters, prefix)) &&
            PoolParamsFromSerde(codec, c.poolContractParameters) == Ok((cfg.poolContractParameters, prefix)) &&
            RefreshParamsFromSerde(codec, c.refreshContractParameters) == Ok((cfg.refreshContractParameters, prefix)) &&
            UpdateParamsFromSerde(codec, c.updateContractParameters) == Ok((cfg.updateContractParameters, prefix)) &&
            BallotParamsFromSerde(codec, c.ballotParameters.contractParameters) ==
              Ok((cfg.ballotParameters.contractParameters, prefix)) &&
            AddressesFromSerde(codec, c.addresses) == Ok(AddressesWithPrefix(cfg.addresses, prefix))
  {
  }

  /** Whatever `oracleAddress` holds, the verdict is the same. */
  lemma OracleAddressNeverChecked<TokenIds, Vote, Level, Source>(
    codec: Codec, c: OracleConfigSerde<TokenIds, Vote, Level, Source>, other: string)
    ensures OracleConfigFromSerde(codec, c.(oracleAddress := other)).Ok? <==> OracleConfigFromSerde(codec, c).Ok?
    ensures OracleConfigFromSerde(codec, c).Err? ==>
              OracleConfigFromSerde(codec, c.(oracleAddress := other)) == OracleConfigFromSerde(codec, c)
  {
  }

  /**
   * A wallet address of the other network than the oracle-token address is reported as an
   * address-encoder error, never as `NetworkPrefixesDiffer`.
   */
  lemma OracleConfigWalletOnOtherNetwork<TokenIds, Vote, Level, Source>(
    codec: Codec, c: OracleConfigSerde<TokenIds, Vote, Level, Source>)
    requires Lawful(codec)
    requires codec.uncheckedParse(c.addresses.addressForOracleTokens).Ok?
    requires codec.uncheckedParse(c.addresses.walletAddressForChainTransaction).Ok?
    requires codec.uncheckedParse(c.addresses.addressForOracleTokens).value.network !=
             codec.uncheckedParse(c.addresses.walletAddressForChainTransaction).value.network
    ensures OracleConfigFromSerde(codec, c).Err?
    ensures OracleConfigFromSerde(codec, c).error.AddressEncoder?
  {
    AddressesDecodeExactlyOnOneNetwork(codec, c.addresses);
    OracleConfigVerdict(codec, c);
    DecodeErrorTakesPrecedence(OracleConfigSteps(codec, c), None, 6);
  }

  /**
   * Decoding an encoded configuration gives it back exactly when the contracts were encoded
   * under the same prefix as the owner and the addresses; otherwise the prefixes differ.
   */
  lemma OracleConfigEncodeDecode<TokenIds, Vote, Level, Source>(
    codec: Codec, c: OracleConfig<TokenIds, Vote, Level, Source>,
    prefix: NetworkPrefix, contractPrefix: NetworkPrefix)
    requires Lawful(codec)
    ensures OracleConfigFromSerde(codec, EncodeOracleConfig(codec, c, prefix, contractPrefix)) ==
            if prefix == contractPrefix then Ok(c) else Err(NetworkPrefixesDiffer)
  {
    OracleParamsRoundTrip(codec, c.oracleContractParameters, contractPrefix);
    PoolParamsRoundTrip(codec, c.poolContractParameters, contractPrefix);
    RefreshParamsRoundTrip(codec, c.refreshContractParameters, contractPrefix);
    UpdateParamsRoundTrip(codec, c.updateContractParameters, contractPrefix);
    BallotParamsRoundTrip(codec, c.ballotParameters.contractParameters, contractPrefix);
    AddressesRoundTrip(codec, c.addresses, prefix);
    assert codec.uncheckedParse(codec.toStr(prefix, c.ballotParameters.ballotTokenOwnerAddress)) ==
           Ok(NetworkAddress(prefix, c.ballotParameters.ballotTokenOwnerAddress));
  }

  /**
   * The as-written encoder round-trips on `Mainnet` only: a `Testnet` configuration, once
   * encoded, is rejected with `NetworkPrefixesDiffer`.
   */
  lemma OracleConfigRoundTrip<TokenIds, Vote, Level, Source>(
    codec: Codec, c: OracleConfig<TokenIds, Vote, Level, Source>, prefix: NetworkPrefix)
    requires Lawful(codec)
    ensures OracleConfigFromSerde(codec, OracleConfigToSerde(codec, c, prefix)) ==
            if prefix == Mainnet then Ok(c) else Err(NetworkPrefixesDiffer)
  {
    OracleConfigEncodeDecode(codec, c, prefix, Mainnet);
  }

  /** The corrected encoder round-trips on both networks. */
  lemma OracleConfigRoundTripOnNetwork<TokenIds, Vote, Level, Source>(
    codec: Codec, c: OracleConfig<TokenIds, Vote, Level, Source>, prefix: NetworkPrefix)
    requires Lawful(codec)
    ensures OracleConfigFromSerde(codec, OracleConfigToSerdeOnNetwork(codec, c, prefix)) == Ok(c)
  {
    OracleConfigEncodeDecode(codec, c, prefix, prefix);
  }

  // ---------------------------------------------------------------- bootstrap configuration

  /** `BootstrapConfigSerde`; note that `nodePort` is a string here. */
  datatype BootstrapConfigSerde<Mint> = BootstrapConfigSerde(
    refreshContractParameters: RefreshContractParametersSerde,
    poolContractParameters: PoolContractParametersSerde,
    updateContractParameters: UpdateContractParametersSerde,
    ballotContractParameters: BallotContractParametersSerde,
    tokensToMint: Mint,
    nodeIp: string,
    nodePort: string,
    nodeApiKey: string,
    addresses: AddressesSerde)

  datatype BootstrapConfig<Mint> = BootstrapConfig(
    refreshContractParameters: RefreshContractParameters,
    poolContractParameters: PoolContractParameters,
    updateContractParameters: UpdateContractParameters,
    ballotContractParameters: BallotContractParameters,
    tokensToMint: Mint,
    nodeIp: string,
    nodePort: string,
    nodeApiKey: string,
    addresses: Addresses)

  /** `TryFrom<BootstrapConfigSerde> for BootstrapConfig`: every prefix must equal the addresses' prefix. */
  function BootstrapConfigFromSerde<Mint>(codec: Codec, c: BootstrapConfigSerde<Mint>)
    : Result<BootstrapConfig<Mint>, SerdeConversionError>
  {
    var pool :- FromEncoderError(PoolParamsFromSerde(codec, c.poolContractParameters));
    var refresh :- FromEncoderError(RefreshParamsFromSerde(codec, c.refreshContractParameters));
    var update :- FromEncoderError(UpdateParamsFromSerde(codec, c.updateContractParameters));
    var ballot :- FromEncoderError(BallotParamsFromSerde(codec, c.ballotContractParameters));
    var addressesWithPrefix :- FromEncoderError(AddressesFromSerde(codec, c.addresses));
    var prefix := addressesWithPrefix.prefix;
    if pool.1 == prefix && refresh.1 == prefix && update.1 == prefix && ballot.1 == prefix then
      Ok(BootstrapConfig(
           refresh.0, pool.0, update.0, ballot.0, c.tokensToMint, c.nodeIp, c.nodePort, c.nodeApiKey,
           addressesWithPrefix.addresses))
    else
      Err(NetworkPrefixesDiffer)
  }

  /** The decodes `BootstrapConfigFromSerde` performs, in its order: pool, refresh, update, ballot, addresses. */
  function BootstrapConfigSteps<Mint>(codec: Codec, c: BootstrapConfigSerde<Mint>): seq<DecodeStep> {
    [ StepOf(PoolParamsFromSerde(codec, c.poolContractParameters)),
      StepOf(RefreshParamsFromSerde(codec, c.refreshContractParameters)),
      StepOf(UpdateParamsFromSerde(codec, c.updateContractParameters)),
      StepOf(BallotParamsFromSerde(codec, c.ballotContractParameters)),
      AddressesFromSerde(codec, c.addresses).MapOk((a: AddressesWithPrefix) => a.prefix) ]
  }

  /**
   * The bootstrap configuration is accepted exactly when every decode succeeds and the four
   * contract prefixes equal the addresses' prefix; otherwise the first decode error, or
   * `NetworkPrefixesDiffer`.
   */
  lemma BootstrapConfigVerdict<Mint>(codec: Codec, c: BootstrapConfigSerde<Mint>)
    ensures var r := BootstrapConfigFromSerde(codec, c);
            var v := Verdict(BootstrapConfigSteps(codec, c), None);
            (r.Ok? <==> v.None?) && (r.Err? ==> r.error == v.value)
  {
    var steps := BootstrapConfigSteps(codec, c);
    var pool := PoolParamsFromSerde(codec, c.poolContractParameters);
    var refresh := RefreshParamsFromSerde(codec, c.refreshContractParameters);
    var update := UpdateParamsFromSerde(codec, c.updateContractParameters);
    var ballot := BallotParamsFromSerde(codec, c.ballotContractParameters);
    var addresses := AddressesFromSerde(codec, c.addresses);
    if pool.Err? {
      FirstErrorAt(steps, 0);
    } else if refresh.Err? {
      FirstErrorAt(steps, 1);
    } else if update.Err? {
      FirstErrorAt(steps, 2);
    } else if ballot.Err? {
      FirstErrorAt(steps, 3);
    } else if addresses.Err? {
      FirstErrorAt(steps, 4);
    } else {
      AgreeWithOne(steps, 4);
      var prefix := addresses.value.prefix;
      var agree := pool.value.1 == prefix && refresh.value.1 == prefix && update.value.1 == prefix
                   && ballot.value.1 == prefix;
      assert steps == [Ok(pool.value.1), Ok(refresh.value.1), Ok(update.value.1), Ok(ballot.value.1), Ok(prefix)];
      if agree {
        forall i | 0 <= i < |steps| ensures steps[i] == steps[4] {
          assert i == 0 || i == 1 || i == 2 || i == 3 || i == 4;
        }
      } else if pool.value.1 != prefix {
        assert steps[0] != steps[4];
      } else if refresh.value.1 != prefix {
        assert steps[1] != steps[4];
      } else if update.value.1 != prefix {
        assert steps[2] != steps[4];
      } else {
        assert steps[3] != steps[4];
      }
      assert BootstrapConfigFromSerde(codec, c).Ok? <==> agree;
    }
  }

  function BootstrapConfigSerdeWithoutAddresses<Mint>(c: BootstrapConfigSerde<Mint>): BootstrapConfigSerde<Mint> {
    c.(refreshContractParameters := c.refreshContractParameters.(p2s := ""),
       poolContractParameters := c.poolContractParameters.(p2s := ""),
       updateContractParameters := c.updateContractParameters.(p2s := ""),
       ballotContractParameters := c.ballotContractParameters.(p2s := ""),
       addresses := AddressesSerde("", ""))
  }

  /** `From<(BootstrapConfig, NetworkPrefix)> for BootstrapConfigSerde`, generalised as `EncodeOracleConfig`. */
  function EncodeBootstrapConfig<Mint>(
    codec: Codec, c: BootstrapConfig<Mint>, prefix: NetworkPrefix, contractPrefix: NetworkPrefix)
    : BootstrapConfigSerde<Mint>
  {
    BootstrapConfigSerde(
      RefreshParamsToSerdeOn(codec, c.refreshContractParameters, contractPrefix),
      PoolParamsToSerdeOn(codec, c.poolContractParameters, contractPrefix),
      UpdateParamsToSerdeOn(codec, c.updateContractParameters, contractPrefix),
      BallotParamsToSerdeOn(codec, c.ballotContractParameters, contractPrefix),
      c.tokensToMint, c.nodeIp, c.nodePort, c.nodeApiKey,
      AddressesToSerde(codec, c.addresses, prefix))
  }

  /** `From<(BootstrapConfig, NetworkPrefix)> for BootstrapConfigSerde`, as written: contracts on `Mainnet`. */
  function BootstrapConfigToSerde<Mint>(codec: Codec, c: BootstrapConfig<Mint>, prefix: NetworkPrefix)
    : BootstrapConfigSerde<Mint>
  {
    EncodeBootstrapConfig(codec, c, prefix, Mainnet)
  }

  /** The corrected encoder: contracts under the caller's prefix too. */
  function BootstrapConfigToSerdeOnNetwork<Mint>(codec: Codec, c: BootstrapConfig<Mint>, prefix: NetworkPrefix)
    : BootstrapConfigSerde<Mint>
  {
    EncodeBootstrapConfig(codec, c, prefix, prefix)
  }

  /** A successful conversion copies the tokens to mint and the node settings. */
  lemma BootstrapConfigCopiesFields<Mint>(
    codec: Codec, c: BootstrapConfigSerde<Mint>, prefix: NetworkPrefix, contractPrefix: NetworkPrefix)
    requires BootstrapConfigFromSerde(codec, c).Ok?
    ensures BootstrapConfigSerdeWithoutAddresses(EncodeBootstrapConfig(codec, BootstrapConfigFromSerde(codec, c).value, prefix, contractPrefix)) ==
            BootstrapConfigSerdeWithoutAddresses(c)
  {
  }

  lemma BootstrapConfigEncodeDecode<Mint>(
    codec: Codec, c: BootstrapConfig<Mint>, prefix: NetworkPrefix, contractPrefix: NetworkPrefix)
    requires Lawful(codec)
    ensures BootstrapConfigFromSerde(codec, EncodeBootstrapConfig(codec, c, prefix, contractPrefix)) ==
            if prefix == contractPrefix then Ok(c) else Err(NetworkPrefixesDiffer)
  {
    PoolParamsRoundTrip(codec, c.poolContractParameters, contractPrefix);
    RefreshParamsRoundTrip(codec, c.refreshContractParameters, contractPrefix);
    UpdateParamsRoundTrip(codec, c.updateContractParameters, contractPrefix);
    BallotParamsRoundTrip(codec, c.ballotContractParameters, contractPrefix);
    AddressesRoundTrip(codec, c.addresses, prefix);
  }

  /** The as-written encoder round-trips on `Mainnet` only. */
  lemma BootstrapConfigRoundTrip<Mint>(codec: Codec, c: BootstrapConfig<Mint>, prefix: NetworkPrefix)
    requires Lawful(codec)
    ensures BootstrapConfigFromSerde(codec, BootstrapConfigToSerde(codec, c, prefix)) ==
            if prefix == Mainnet then Ok(c) else Err(NetworkPrefixesDiffer)
  {
    BootstrapConfigEncodeDecode(codec, c, prefix, Mainnet);
  }

  /** The corrected encoder round-trips on both networks. */
  lemma BootstrapConfigRoundTripOnNetwork<Mint>(codec: Codec, c: BootstrapConfig<Mint>, prefix: NetworkPrefix)
    requires Lawful(codec)
    ensures BootstrapConfigFromSerde(codec, BootstrapConfigToSerdeOnNetwork(codec, c, prefix)) == Ok(c)
  {
    BootstrapConfigEncodeDecode(codec, c, prefix, prefix);
  }

  // ---------------------------------------------------------------- update-bootstrap configuration

  /** Only the contracts that change are supplied; the others are `None`. */
  datatype UpdateBootstrapConfigSerde<Mint> = UpdateBootstrapConfigSerde(
    poolContractParameters: Option<PoolContractParametersSerde>,
    refreshContractParameters: Option<RefreshContractParametersSerde>,
    updateContractParameters: Option<UpdateContractParametersSerde>,
    tokensToMint: Mint,
    addresses: AddressesSerde)

  datatype UpdateBootstrapConfig<Mint> = UpdateBootstrapConfig(
    poolContractParameters: Option<PoolContractParameters>,
    refreshContractParameters: Option<RefreshContractParameters>,
    updateContractParameters: Option<UpdateContractParameters>,
    tokensToMint: Mint,
    addresses: Addresses)

  /** `option.map(decode).transpose()`: an absent bundle decodes to `Ok(None)`. */
  function TransposeDecode<S, T>(o: Option<S>, decode: S -> Result<(T, NetworkPrefix), AddressEncoderError>)
    : (r: Result<Option<(T, NetworkPrefix)>, AddressEncoderError>)
    ensures o.None? ==> r == Ok(None)
    ensures o.Some? ==> (r.Ok? <==> decode(o.value).Ok?)
    ensures o.Some? && r.Ok? ==> r.value == Some(decode(o.value).value)
    ensures o.Some? && r.Err? ==> r.error == decode(o.value).error
  {
    match o
    case None => Ok(None)
    case Some(s) =>
      match decode(s)
      case Ok(t) => Ok(Some(t))
      case Err(e) => Err(e)
  }

  /** `.map(|p| p.0)`: drops the recovered prefix. */
  function WithoutPrefix<T>(o: Option<(T, NetworkPrefix)>): (r: Option<T>)
    ensures r.Some? <==> o.Some?
    ensures o.Some? ==> r.value == o.value.0
  {
    match o
    case None => None
    case Some(t) => Some(t.0)
  }

  /** The decode step of an optional bundle: none at all when it is absent. */
  function OptionalStep<T>(r: Result<Option<(T, NetworkPrefix)>, AddressEncoderError>): seq<DecodeStep> {
    match r
    case Ok(None) => []
    case Ok(Some(t)) => [Ok(t.1)]
    case Err(e) => [Err(e)]
  }

  function DecodeOptionalPool(codec: Codec, o: Option<PoolContractParametersSerde>)
    : Result<Option<(PoolContractParameters, NetworkPrefix)>, AddressEncoderError>
  {
    TransposeDecode(o, (s: PoolContractParametersSerde) => PoolParamsFromSerde(codec, s))
  }

  function DecodeOptionalRefresh(codec: Codec, o: Option<RefreshContractParametersSerde>)
    : Result<Option<(RefreshContractParameters, NetworkPrefix)>, AddressEncoderError>
  {
    TransposeDecode(o, (s: RefreshContractParametersSerde) => RefreshParamsFromSerde(codec, s))
  }

  function DecodeOptionalUpdate(codec: Codec, o: Option<UpdateContractParametersSerde>)
    : Result<Option<(UpdateContractParameters, NetworkPrefix)>, AddressEncoderError>
  {
    TransposeDecode(o, (s: UpdateContractParametersSerde) => UpdateParamsFromSerde(codec, s))
  }

  /** The decodes of the update conversion, in its order: present contract bundles only, then the addresses. */
  function UpdateBootstrapConfigSteps<Mint>(codec: Codec, c: UpdateBootstrapConfigSerde<Mint>): seq<DecodeStep> {
    OptionalStep(DecodeOptionalPool(codec, c.poolContractParameters))
    + OptionalStep(DecodeOptionalRefresh(codec, c.refreshContractParameters))
    + OptionalStep(DecodeOptionalUpdate(codec, c.updateContractParameters))
    + [AddressesFromSerde(codec, c.addresses).MapOk((a: AddressesWithPrefix) => a.prefix)]
  }

  /** The prefix an optional decoded bundle contributes: none when it is absent. */
  function PrefixOf<T>(o: Option<(T, NetworkPrefix)>): seq<NetworkPrefix> {
    match o
    case None => []
    case Some(t) => [t.1]
  }

  /**
   * The update conversion's decode steps split at its three optional bundles and the addresses.
   */
  lemma UpdateBootstrapConfigStepsSplit<Mint>(codec: Codec, c: UpdateBootstrapConfigSerde<Mint>)
    ensures var steps := UpdateBootstrapConfigSteps(codec, c);
            var pools := OptionalStep(DecodeOptionalPool(codec, c.poolContractParameters));
            var refreshes := OptionalStep(DecodeOptionalRefresh(codec, c.refreshContractParameters));
            var updates := OptionalStep(DecodeOptionalUpdate(codec, c.updateContractParameters));
            var last := [AddressesFromSerde(codec, c.addresses).MapOk((a: AddressesWithPrefix) => a.prefix)];
            FirstError(steps) ==
              if FirstError(pools).Some? then FirstError(pools)
              else if FirstError(refreshes).Some? then FirstError(refreshes)
              else if FirstError(updates).Some? then FirstError(updates)
              else FirstError(last)
  {
    var pools := OptionalStep(DecodeOptionalPool(codec, c.poolContractParameters));
    var refreshes := OptionalStep(DecodeOptionalRefresh(codec, c.refreshContractParameters));
    var updates := OptionalStep(DecodeOptionalUpdate(codec, c.updateContractParameters));
    var last := [AddressesFromSerde(codec, c.addresses).MapOk((a: AddressesWithPrefix) => a.prefix)];
    assert UpdateBootstrapConfigSteps(codec, c) == pools + (refreshes + (updates + last));
    FirstErrorAppend(pools, refreshes + (updates + last));
    FirstErrorAppend(refreshes, updates + last);
    FirstErrorAppend(updates, last);
  }

  /**
   * When every decode of the update conversion succeeds, its steps are exactly the prefixes of the
   * present bundles followed by the addresses' prefix.
   */
  lemma UpdateBootstrapConfigStepsOk<Mint>(
    codec: Codec, c: UpdateBootstrapConfigSerde<Mint>,
    pool: Option<(PoolContractParameters, NetworkPrefix)>,
    refresh: Option<(RefreshContractParameters, NetworkPrefix)>,
    update: Option<(UpdateContractParameters, NetworkPrefix)>,
    addresses: AddressesWithPrefix)
    requires DecodeOptionalPool(codec, c.poolContractParameters) == Ok(pool)
    requires DecodeOptionalRefresh(codec, c.refreshContractParameters) == Ok(refresh)
    requires DecodeOptionalUpdate(codec, c.updateContractParameters) == Ok(update)
    requires AddressesFromSerde(codec, c.addresses) == Ok(addresses)
    ensures UpdateBootstrapConfigSteps(codec, c) ==
            seq(|PrefixOf(pool) + PrefixOf(refresh) + PrefixOf(update) + [addresses.prefix]|,
                i requires 0 <= i < |PrefixOf(pool) + PrefixOf(refresh) + PrefixOf(update) + [addresses.prefix]| =>
                  Ok((PrefixOf(pool) + PrefixOf(refresh) + PrefixOf(update) + [addresses.prefix])[i]))
  {
  }

  /**
   * When every decode succeeded, with the prefixes `prefixes`, the conversion must succeed exactly
   * when each prefix is the anchor, and otherwise reports `NetworkPrefixesDiffer`.
   */
  lemma VerdictOfPrefixes(steps: seq<DecodeStep>, prefixes: seq<NetworkPrefix>, anchor: NetworkPrefix)
    requires |steps| == |prefixes| && forall i :: 0 <= i < |steps| ==> steps[i] == Ok(prefixes[i])
    ensures Verdict(steps, Some(anchor)).None? <==> forall i :: 0 <= i < |prefixes| ==> prefixes[i] == anchor
    ensures Verdict(steps, Some(anchor)).Some? ==> Verdict(steps, Some(anchor)).value == NetworkPrefixesDiffer
  {
    assert FirstError(steps).None?;
  }

  /** The `for p in prefixes` check: every collected prefix equals `anchor`. */
  method AllEqualTo(prefixes: seq<NetworkPrefix>, anchor: NetworkPrefix) returns (b: bool)
    ensures b <==> forall i :: 0 <= i < |prefixes| ==> prefixes[i] == anchor
  {
    for i := 0 to |prefixes|
      invariant forall j :: 0 <= j < i ==> prefixes[j] == anchor
    {
      if prefixes[i] != anchor {
        return false;
      }
    }
    return true;
  }

  /**
   * `TryFrom<(UpdateBootstrapConfigSerde, NetworkPrefix)> for UpdateBootstrapConfig`. The
   * prefixes of the present bundles and of the addresses are collected, in order, and each of
   * them must equal `existingNetworkPrefix`, the prefix of the pool already deployed.
   */
  method UpdateBootstrapConfigFromSerde<Mint>(
    codec: Codec, c: UpdateBootstrapConfigSerde<Mint>, existingNetworkPrefix: NetworkPrefix)
    returns (r: Result<UpdateBootstrapConfig<Mint>, SerdeConversionError>)
    ensures var v := Verdict(UpdateBootstrapConfigSteps(codec, c), Some(existingNetworkPrefix));
            (r.Ok? <==> v.None?) && (r.Err? ==> r.error == v.value)
    ensures r.Ok? ==>
              DecodeOptionalPool(codec, c.poolContractParameters).Ok? &&
              DecodeOptionalRefresh(codec, c.refreshContractParameters).Ok? &&
              DecodeOptionalUpdate(codec, c.updateContractParameters).Ok? &&
              AddressesFromSerde(codec, c.addresses).Ok? &&
              AddressesFromSerde(codec, c.addresses).value.prefix == existingNetworkPrefix &&
              r.value == UpdateBootstrapConfig(
                WithoutPrefix(DecodeOptionalPool(codec, c.poolContractParameters).value),
                WithoutPrefix(DecodeOptionalRefresh(codec, c.refreshContractParameters).value),
                WithoutPrefix(DecodeOptionalUpdate(codec, c.updateContractParameters).value),
                c.tokensToMint,
                AddressesFromSerde(codec, c.addresses).value.addresses)
  {
    UpdateBootstrapConfigStepsSplit(codec, c);

    var prefixes: seq<NetworkPrefix> := [];

    var pool :- FromEncoderError(DecodeOptionalPool(codec, c.poolContractParameters));
    if pool.Some? {
      prefixes := prefixes + [pool.value.1];
    }
    assert prefixes == PrefixOf(pool);

    var refresh :- FromEncoderError(DecodeOptionalRefresh(codec, c.refreshContractParameters));
    if refresh.Some? {
      prefixes := prefixes + [refresh.value.1];
    }
    assert prefixes == PrefixOf(pool) + PrefixOf(refresh);

    var update :- FromEncoderError(DecodeOptionalUpdate(codec, c.updateContractParameters));
    if update.Some? {
      prefixes := prefixes + [update.value.1];
    }
    assert prefixes == PrefixOf(pool) + PrefixOf(refresh) + PrefixOf(update);

    var addressesWithPrefix :- FromEncoderError(AddressesFromSerde(codec, c.addresses));
    prefixes := prefixes + [addressesWithPrefix.prefix];

    UpdateBootstrapConfigStepsOk(codec, c, pool, refresh, update, addressesWithPrefix);
    VerdictOfPrefixes(UpdateBootstrapConfigSteps(codec, c), prefixes, existingNetworkPrefix);

    var allMatch := AllEqualTo(prefixes, existingNetworkPrefix);
    if !allMatch {
      return Err(NetworkPrefixesDiffer);
    }
    assert prefixes[|prefixes| - 1] == addressesWithPrefix.prefix;
    return Ok(UpdateBootstrapConfig(
                WithoutPrefix(pool), WithoutPrefix(refresh), WithoutPrefix(update),
                c.tokensToMint, addressesWithPrefix.addresses));
  }

  /**
   * With no contract bundle present, only the addresses are decoded and their prefix alone is
   * compared with the existing pool's.
   */
  lemma UpdateBootstrapAddressesOnly<Mint>(
    codec: Codec, c: UpdateBootstrapConfigSerde<Mint>, existingNetworkPrefix: NetworkPrefix)
    requires c.poolContractParameters.None? && c.refreshContractParameters.None? && c.updateContractParameters.None?
    ensures Verdict(UpdateBootstrapConfigSteps(codec, c), Some(existingNetworkPrefix)).None? <==>
            AddressesFromSerde(codec, c.addresses).Ok? &&
            AddressesFromSerde(codec, c.addresses).value.prefix == existingNetworkPrefix
  {
    var steps := UpdateBootstrapConfigSteps(codec, c);
    assert steps == [AddressesFromSerde(codec, c.addresses).MapOk((a: AddressesWithPrefix) => a.prefix)];
  }
}
