# oracle-core: configuration conversion, epoch decisions, confirmation sweeps

A Dafny model of three pieces of sequential logic in the Ergo oracle-pool node `oracle-core`.

- **Configuration conversion** (`core/src/serde.rs`).
  - The serialised configuration holds every address as a string.
  - Converting it into the validated configuration decodes each address, oracle, pool, refresh, update and ballot contracts (their `p2s`), the ballot-token owner and the two wallet addresses. Each decode also recovers the network prefix (Mainnet or Testnet) that the string carries.
  - Any decode failure is returned at once as an `AddressEncoder` error.
  - Only when every decode succeeded are the prefixes compared. If they disagree, the error is `NetworkPrefixesDiffer`.
  - `Verdict` (module `SerdeConfig`) states this taxonomy once, over the decode outcomes in source order. `OracleConfigVerdict`, `BootstrapConfigVerdict` and the contract of the method `UpdateBootstrapConfigFromSerde` prove that each of the three conversions agrees with it.
  - The update conversion is imperative. It collects the prefixes of the bundles actually present into a list and loops over it against the caller's prefix, so it is a method.
  - The encoders go the other way. Decoding one of their outputs is proved to give the configuration back exactly when the contracts and the other addresses were encoded under the same prefix.
- **Epoch decision engine** (`core/src/state.rs`).
  - `Process` maps the pool state and the current height to the next command.
  - The checks run in a fixed order: no pool; no local datapoint; a datapoint from another epoch; a stale datapoint; a refresh due; nothing.
  - The `u32` arithmetic is written out as a release build performs it, with the `as u32` truncation and wrap-around subtraction and addition.
  - `ProcessIntended` is the same decision on unbounded integers. The lemma `ProcessAgreesWithIntended` shows that the two agree whenever nothing wraps.
- **Confirmation sweeps** (`core/src/explorer_api.rs`).
  - `WaitForTxsConfirmation` keeps the pending list of transaction ids.
  - Each sweep looks up every id of a snapshot of that list. The method `Sweep` does this against the specification `SweepSpec`.
  - A found id is removed from the list (`Without`, the model of `retain`). A transaction coming back with another id aborts.
  - After each sweep the wait ends if nothing is pending, otherwise ends on timeout, otherwise sleeps and sweeps again.
  - The loop is proved against the recursive specification `WaitFrom`. The lemmas about `WaitFrom` state what each way out of the loop means.

## Abstractions

- **The address codec of ergo_lib** (`AddressEncoder`) is foreign code. It is the record `AddressEncoding.Codec` of three total functions: the unchecked parse, the checked parse under a prefix, and the encoder. Two laws are stated as the predicate `Lawful`:
  - decoding an encoded address gives back the address and its prefix;
  - the checked parse under `p` succeeds exactly when the unchecked parse succeeds with prefix `p`, and then yields the same address.

  Every round trip `requires Lawful(codec)`. `WitnessCodec` is a concrete codec that satisfies the laws (`WitnessCodecLawful`), which shows the laws are consistent. It is not ergo_lib's encoding.
- **Types the conversions only copy** are type parameters and are never inspected: token ids, ballot vote parameters, the log-level filter, the predefined data-point source, and the tokens to mint.
- **Global configuration.** `ORACLE_CONFIG` is not read. The refresh contract's `epoch_length` is a parameter of `Process`, and the oracle address's network is a parameter of `WaitForTxsConfirmation`.
- **The explorer** is the function `lookup(sweep, id)`. It gives the answer to a request for `id` during sweep number `sweep`. `query(url)` gives this function for the explorer at `url`, so network selection stays visible.
- **The clock** is the function `elapsed(n)`: the nanoseconds since the start, as the timeout check reads them after sweep `n`.
  - The only assumption is `SleepsElapse`: every sweep after the first follows a 10 s sleep, so `elapsed(n) >= (n - 1) * 10 s`.
  - From it, the loop provably stops by sweep 62 (`MaxSweeps`).
- **Integer widths.** `usize` is taken to be 64 bits. Bytes are `Byte` (`0..255`).

## Code versus specification

- **Round trip.** Validating a configuration, re-serialising it with the prefix it was validated under and validating it again should give the same configuration. The code does not do this for Testnet.
  - Contract `p2s` addresses are always encoded for Mainnet (core/src/serde.rs lines 291, 322, 362, 411, 466). Only the owner and wallet addresses use the supplied prefix.
  - So a Testnet configuration comes back as `NetworkPrefixesDiffer`.
  - The model follows the code (`OracleConfigRoundTrip`, `BootstrapConfigRoundTrip`). The corrected encoders are under "## Findings".
- **Field types.** The Rust definitions of `LiveEpochState`, `LocalDatapointBoxState` (in `core/src/oracle_state.rs`) and `PoolCommand` lie outside the modelled files. `State` defines all three, with the fields at the types `process` uses them at: `u32` heights and epoch ids.

## Model

| member | source | states |
|---|---|---|
| `AddressEncoding.CheckedParseOfEncoded` | core/src/serde.rs:203-219 | Under the codec laws, the checked parse of an encoded address succeeds exactly for the prefix it was encoded with, and then recovers the address |
| `SerdeContracts.OracleParamsToSerde` | core/src/serde.rs:288-295 | No contract of its own: it writes `p2s` for Mainnet and copies `pool_nft_index`; see `OracleParamsEncodedOnMainnet` and `OracleParamsRoundTrip` |
| `SerdeContracts.OracleParamsFromSerde` | core/src/serde.rs:297-309 | Succeeds exactly when `p2s` parses, otherwise returns the parser's error; returns the parsed address with the prefix it carries; re-encoding the result under that prefix gives back the input, so the other fields are copied unchanged |
| `SerdeContracts.OracleParamsRoundTrip` | core/src/serde.rs:288-309 | Decoding a bundle encoded under any prefix gives back the bundle and that prefix |
| `SerdeContracts.OracleParamsEncodedOnMainnet` | core/src/serde.rs:288-295 | The source's encoder always writes `p2s` for Mainnet, so decoding its output yields prefix Mainnet |
| `SerdeContracts.PoolParamsToSerde` | core/src/serde.rs:319-327 | No contract of its own: it writes `p2s` for Mainnet and copies the indices; see `PoolParamsEncodedOnMainnet` and `PoolParamsRoundTrip` |
| `SerdeContracts.PoolParamsFromSerde` | core/src/serde.rs:329-341 | As for the oracle bundle: decode error passed through, prefix recovered, other fields copied |
| `SerdeContracts.PoolParamsRoundTrip` | core/src/serde.rs:319-341 | Encoding with any prefix then decoding gives back the bundle and the prefix |
| `SerdeContracts.PoolParamsEncodedOnMainnet` | core/src/serde.rs:319-327 | The source's encoder always writes `p2s` for Mainnet |
| `SerdeContracts.RefreshParamsToSerde` | core/src/serde.rs:359-375 | No contract of its own: it writes `p2s` for Mainnet and copies the numeric fields; see `RefreshParamsEncodedOnMainnet` and `RefreshParamsRoundTrip` |
| `SerdeContracts.RefreshParamsFromSerde` | core/src/serde.rs:377-397 | Decode error passed through, prefix recovered, all ten numeric fields copied |
| `SerdeContracts.RefreshParamsRoundTrip` | core/src/serde.rs:359-397 | Encoding with any prefix then decoding gives back the bundle and the prefix |
| `SerdeContracts.RefreshParamsEncodedOnMainnet` | core/src/serde.rs:359-375 | The source's encoder always writes `p2s` for Mainnet |
| `SerdeContracts.BallotParamsToSerde` | core/src/serde.rs:408-417 | No contract of its own: it writes `p2s` for Mainnet and copies the other fields; see `BallotParamsEncodedOnMainnet` and `BallotParamsRoundTrip` |
| `SerdeContracts.BallotParamsFromSerde` | core/src/serde.rs:419-432 | Decode error passed through, prefix recovered, other fields copied |
| `SerdeContracts.BallotParamsRoundTrip` | core/src/serde.rs:408-432 | Encoding with any prefix then decoding gives back the bundle and the prefix |
| `SerdeContracts.BallotParamsEncodedOnMainnet` | core/src/serde.rs:408-417 | The source's encoder always writes `p2s` for Mainnet |
| `SerdeContracts.UpdateParamsToSerde` | core/src/serde.rs:463-473 | No contract of its own: it writes `p2s` for Mainnet and copies the other fields; see `UpdateParamsEncodedOnMainnet` and `UpdateParamsRoundTrip` |
| `SerdeContracts.UpdateParamsFromSerde` | core/src/serde.rs:445-460 | Decode error passed through, prefix recovered, other fields copied |
| `SerdeContracts.UpdateParamsRoundTrip` | core/src/serde.rs:445-473 | Encoding with any prefix then decoding gives back the bundle and the prefix |
| `SerdeContracts.UpdateParamsEncodedOnMainnet` | core/src/serde.rs:463-473 | The source's encoder always writes `p2s` for Mainnet |
| `SerdeConfig.FromEncoderError` | core/src/serde.rs:51-57 | `?` on an address-encoder result keeps a success value and wraps an error as `AddressEncoder` |
| `SerdeConfig.FirstError` | core/src/serde.rs:104-132 | No error exactly when every decode succeeded; otherwise the error of a failing decode that only successes precede |
| `SerdeConfig.DecodeErrorTakesPrecedence` | core/src/serde.rs:104-132 | As soon as any decode fails, the verdict is an `AddressEncoder` error and never `NetworkPrefixesDiffer` |
| `SerdeConfig.AddressesToSerde` | core/src/serde.rs:190-201 | No contract of its own: it encodes both addresses under the given prefix; see `AddressesRoundTrip` |
| `SerdeConfig.AddressesFromSerde` | core/src/serde.rs:203-220 | The prefix is that of the oracle-token address. The wallet address is parsed with the checked parser under that prefix. Each parser's error is returned as is |
| `SerdeConfig.AddressesRoundTrip` | core/src/serde.rs:190-220 | Encoding the addresses under a prefix and decoding them gives back the same addresses and that prefix |
| `SerdeConfig.AddressesDecodeExactlyOnOneNetwork` | core/src/serde.rs:203-220 | Under the laws, the addresses decode exactly when both strings parse and carry the same network. A wallet address on the other network is therefore a decoder error |
| `SerdeConfig.OracleConfigFromSerde` | core/src/serde.rs:101-163 | No contract of its own: the conversion itself; see `OracleConfigVerdict`, `OracleConfigHoldsDecodedValues`, `OracleConfigCopiesFields` and `OracleConfigEncodeDecode` |
| `SerdeConfig.OracleConfigVerdict` | core/src/serde.rs:101-163 | The oracle configuration is accepted exactly when all seven decodes succeed, in the order oracle, pool, refresh, update, owner, ballot, addresses, and all prefixes equal the owner's. Otherwise the result is the first decode error or `NetworkPrefixesDiffer` |
| `SerdeConfig.OracleConfigCopiesFields` | core/src/serde.rs:141-158 | On success every non-address field, `oracle_address` included, is copied unchanged |
| `SerdeConfig.OracleConfigHoldsDecodedValues` | core/src/serde.rs:101-158 | On success each bundle and address is the decoded one, and all were recovered under the owner's prefix |
| `SerdeConfig.OracleAddressNeverChecked` | core/src/serde.rs:148 | The `oracle_address` string has no influence on whether the conversion succeeds or on its error |
| `SerdeConfig.OracleConfigWalletOnOtherNetwork` | core/src/serde.rs:132-161 | A wallet address on another network than the oracle-token address yields an `AddressEncoder` error |
| `SerdeConfig.OracleConfigEncodeDecode` | core/src/serde.rs:59-163 | Decoding an encoded configuration gives it back exactly when contracts and addresses were encoded under the same prefix, and `NetworkPrefixesDiffer` otherwise |
| `SerdeConfig.OracleConfigToSerde` | core/src/serde.rs:59-99 | No contract of its own: the encoder as written, with the contracts under Mainnet; see `OracleConfigEncodeDecode` and `OracleConfigRoundTrip` |
| `SerdeConfig.OracleConfigRoundTrip` | core/src/serde.rs:59-99 | The source's encoder round-trips for Mainnet. For Testnet the result is `NetworkPrefixesDiffer` |
| `SerdeConfig.OracleConfigRoundTripOnNetwork` | core/src/serde.rs:59-99 | The corrected encoder round-trips on both networks |
| `SerdeConfig.BootstrapConfigFromSerde` | core/src/serde.rs:246-280 | No contract of its own: the conversion itself; see `BootstrapConfigVerdict`, `BootstrapConfigCopiesFields` and `BootstrapConfigEncodeDecode` |
| `SerdeConfig.BootstrapConfigVerdict` | core/src/serde.rs:246-280 | Accepted exactly when the pool, refresh, update, ballot and addresses decodes all succeed and the four contract prefixes equal the addresses' prefix. Otherwise the first decode error or `NetworkPrefixesDiffer` |
| `SerdeConfig.BootstrapConfigCopiesFields` | core/src/serde.rs:262-277 | On success the tokens to mint and the node settings are copied unchanged |
| `SerdeConfig.BootstrapConfigEncodeDecode` | core/src/serde.rs:222-280 | Decoding an encoded bootstrap configuration gives it back exactly when contracts and addresses share the prefix |
| `SerdeConfig.BootstrapConfigToSerde` | core/src/serde.rs:222-244 | No contract of its own: the encoder as written, with the contracts under Mainnet; see `BootstrapConfigEncodeDecode` and `BootstrapConfigRoundTrip` |
| `SerdeConfig.BootstrapConfigRoundTrip` | core/src/serde.rs:222-244 | The source's encoder round-trips for Mainnet only |
| `SerdeConfig.BootstrapConfigRoundTripOnNetwork` | core/src/serde.rs:222-244 | The corrected encoder round-trips on both networks |
| `SerdeConfig.TransposeDecode` | core/src/serde.rs:498-501 | An absent bundle decodes to `Ok(None)`. A present one succeeds or fails exactly as its decode does |
| `SerdeConfig.WithoutPrefix` | core/src/serde.rs:531-536 | Drops the recovered prefix and keeps presence and the bundle |
| `SerdeConfig.UpdateBootstrapConfigStepsSplit` | core/src/serde.rs:498-524 | The first decode error of the update conversion comes from pool, refresh, update, then addresses, in that order; absent bundles contribute nothing |
| `SerdeConfig.AllEqualTo` | core/src/serde.rs:525-529 | The loop over the collected prefixes reports true exactly when each equals the given prefix |
| `SerdeConfig.UpdateBootstrapConfigFromSerde` | core/src/serde.rs:485-541 | The result agrees with the verdict over the present bundles and the addresses, anchored at the existing pool's prefix. On success it holds the decoded present bundles, `None` for absent ones, the tokens to mint and the addresses, whose prefix is the existing one |
| `SerdeConfig.UpdateBootstrapAddressesOnly` | core/src/serde.rs:496-529 | With no bundle present, only the addresses' prefix is compared with the existing one |
| `State.TruncateToU32` | core/src/state.rs:27-31 | `as u32` keeps the value when it fits and otherwise subtracts a multiple of 2^32 |
| `State.WrappingSub` | core/src/state.rs:38 | `u32` subtraction is exact when it does not go below zero and wraps by 2^32 otherwise |
| `State.WrappingAdd` | core/src/state.rs:46 | `u32` addition is exact below 2^32 and otherwise wraps to a value smaller than both operands |
| `State.Process` | core/src/state.rs:18-59 | `process` never returns an error |
| `State.ProcessIntended` | core/src/state.rs:32-56 | The corrected decision. Without a pool, nothing; without a datapoint, the first one is published; a republish only when more than one epoch has passed since the datapoint; a refresh only when an epoch has passed since the pool box |
| `State.ProcessAgreesWithIntended` | core/src/state.rs:18-59 | Whenever the epoch length does not exceed the height and the pool box height plus the epoch length fits in `u32`, `process` makes the intended decision |
| `State.NeedsBootstrapDoesNothing` | core/src/state.rs:20-25 | With no pool, the result is `Ok(None)` at every height |
| `State.NoLocalDatapointPublishesFirst` | core/src/state.rs:52-56 | Without a local datapoint the result is `PublishFirstDataPoint`, whatever the heights |
| `State.OtherEpochPublishesSubsequent` | core/src/state.rs:33-37 | A datapoint from another epoch gives `PublishSubsequentDataPoint { republish: false }`, before the staleness or refresh checks |
| `State.StaleDatapointIsRepublished` | core/src/state.rs:38-45 | In the same epoch, a datapoint below `height - epoch_length` gives `PublishSubsequentDataPoint { republish: true }` |
| `State.RefreshExactlyWhenEpochPassed` | core/src/state.rs:46-51 | In the same epoch with a datapoint that is not stale, the result is `Refresh` exactly when `height >= latest_pool_box_height + epoch_length`, and `None` otherwise |
| `State.EpochLengthIsConfigured` | core/src/state.rs:27-31 | A configured epoch length that fits in 32 bits is used as is |
| `State.EpochLengthIsTruncated` | core/src/state.rs:27-31 | A configured epoch length of 2^32 or more acts as that length minus 2^32 |
| `State.ExampleStaleDatapoint` | core/src/state.rs:38-45 | Epoch length 10, height 100, datapoint at 80: republish |
| `State.ExampleRefreshDue` | core/src/state.rs:46-48 | Epoch length 10, height 100, datapoint at 95, pool box at 85: `Refresh` |
| `State.ExampleNothingToDo` | core/src/state.rs:49-51 | Epoch length 10, height 100, datapoint at 95, pool box at 92: nothing |
| `State.EarlyHeightAlwaysRepublishes` | core/src/state.rs:38 | Below the first epoch length, a same-epoch datapoint posted at or before the height is always republished, which the intended decision never does |
| `State.ExampleEarlyHeight` | core/src/state.rs:38 | Epoch length 10, height 5, datapoint at 5: the code republishes; the intended decision does nothing |
| `ExplorerApi.ExplorerUrl` | core/src/explorer_api.rs:65-70 | Mainnet uses `https://api.ergoplatform.com/api/v1/` and Testnet uses `https://api-testnet.ergoplatform.com/api/v1/` |
| `ExplorerApi.Without` | core/src/explorer_api.rs:79 | `retain` removes every occurrence of the id and nothing else: exact multiset, membership, and the rest kept in order |
| `ExplorerApi.SweptFacts` | core/src/explorer_api.rs:75-80 | A completed sweep leaves a sub-sequence of the pending list: exactly the ids not found among those looked up. Every found transaction carried the requested id |
| `ExplorerApi.MismatchFacts` | core/src/explorer_api.rs:76-77 | A sweep aborts only on an id of its snapshot answered with a transaction of another id |
| `ExplorerApi.SweepOnce` | core/src/explorer_api.rs:75-81 | A sweep over a snapshot of the whole pending list either keeps exactly the pending ids not found, as a sub-sequence, or aborts on a pending id answered with another id |
| `ExplorerApi.Sweep` | core/src/explorer_api.rs:75-81 | The loop over the snapshot computes the sweep's specification |
| `ExplorerApi.WaitContinues` | core/src/explorer_api.rs:82-89 | A sweep that leaves ids pending before the timeout is followed by the next sweep, and there is always a next one |
| `ExplorerApi.WaitEndsInTime` | core/src/explorer_api.rs:74-90 | The loop ends by sweep 62, and no timeout check before the last one fired |
| `ExplorerApi.WaitTimedOut` | core/src/explorer_api.rs:85-88 | A timeout leaves a non-empty sub-sequence of the pending list: exactly the ids no sweep found. The time read was above 600 s |
| `ExplorerApi.WaitAllConfirmed` | core/src/explorer_api.rs:82-84 | When nothing is left pending, every requested id was found, with its own id, by some sweep |
| `ExplorerApi.WaitAborted` | core/src/explorer_api.rs:77 | An abort means a requested id was answered with a transaction of another id in the last sweep |
| `ExplorerApi.WaitFirstSweepFindsAll` | core/src/explorer_api.rs:82-89 | If the first sweep finds every id, the wait ends after that sweep, without sleeping |
| `ExplorerApi.WaitForTxsConfirmation` | core/src/explorer_api.rs:62-91 | The loop's outcome and sweep count are those of the specification, at most 62 sweeps. Each way out means what the lemmas above state |
| `ExplorerApi.WaitForTxConfirmation` | core/src/explorer_api.rs:58-60 | Waiting for one id: if it ends confirmed, the id was found; if it times out, the id is still pending |

## Left out

- Token id helpers `token_id_as_base64_string` and `token_id_from_base64` (core/src/serde.rs:543-563). They are thin wrappers over base64 and ergo_lib, and token ids are uninterpreted here.
- The serde derives and the JSON shape of the `*Serde` structs. They are mechanical.
- Base58, checksums and script serialisation inside ergo_lib's address codec. This is foreign code, replaced by the lawful codec.
- `ExplorerApi::new`, `set_req_headers`, `send_get_req` and `get_transaction` (core/src/explorer_api.rs:29-56). These are HTTP, URL parsing and JSON parsing; their combined answer is the `lookup` function. The `unwrap` of URL parsing is not modelled.
- `ExplorerApi.Sweep`: two requests for the same id within one sweep, which happen when the id is listed twice, are assumed to get the same answer, because `lookup` is indexed by sweep and id.
- `Instant::now`, `elapsed`, `thread::sleep`, `println!` and logging. The clock is the `elapsed` input, and sleeping is not modelled beyond `SleepsElapse`.
- `ExplorerApi.WaitForTxsConfirmation`: the `assert_eq!` panic is modelled as the outcome `Aborted`, and the process exit is not modelled.
- The global `ORACLE_CONFIG`. Its two uses are parameters.
- The unused `EpochState` struct (core/src/state.rs:7-9).
- `State.Process`: the debug-build panic on `u32` overflow is not modelled; the release-build wrap-around is.
- `State.ProcessAgreesWithIntended`: stated only for the inputs where neither `u32` operation wraps. The addition can wrap only for pool box heights within one epoch of 2^32, and there `process` asks for an early refresh.

## Findings

| source | as written | input that shows it | evidently intended | confidence | as-written member | corrected member |
|---|---|---|---|---|---|---|
| core/src/serde.rs:291 | every contract `p2s` is encoded as a Mainnet address, whatever prefix the caller gives (also lines 322, 362, 411, 466) | any Testnet configuration: encoding it and validating the result fails with `NetworkPrefixesDiffer` | contract addresses encoded under the caller's prefix, so that re-validating a configuration gives it back on either network | not executed | `SerdeConfig.OracleConfigRoundTrip` | `SerdeConfig.OracleConfigRoundTripOnNetwork` |
| core/src/state.rs:38 | `height - epoch_length` on `u32` wraps (in a release build; a debug build panics) while the height is below the epoch length | epoch length 10, height 5, local datapoint of the current epoch at height 5: the code republishes | republish only when more than one epoch has passed since the datapoint (`height - local.height > epoch_length`) | not executed | `State.ExampleEarlyHeight` | `State.ProcessIntended` |
