/**
 * The part of ergo_lib's `AddressEncoder` that the configuration conversions rely on.
 *
 * The library itself (Base58, checksums, script serialisation) is foreign code: it is modelled
 * as an opaque codec, a record of three total functions, together with the laws the
 * conversions depend on (`Lawful`). Every statement about a round trip assumes `Lawful(codec)`.
 * `WitnessCodec` is one concrete codec that obeys the laws, which shows they are consistent; it is
 * not ergo_lib's encoding.
 */
module AddressEncoding {
  import opened Base

  /** The network an address string is encoded for. */
  datatype NetworkPrefix = Mainnet | Testnet

  /** A validated address; `ergoTree` stands for the serialised script it pays to. */
  datatype Address = Address(ergoTree: seq<Byte>)

  /** An address together with the network prefix recovered from its encoding. */
  datatype NetworkAddress = NetworkAddress(network: NetworkPrefix, address: Address)

  /** `AddressEncoderError`: a string that is not an address, or an address for the wrong network. */
  datatype AddressEncoderError = Malformed(reason: string) | InvalidNetwork(reason: string)

  /**
   * The three entry points of the library that the conversions call:
   *   uncheckedParse(s)   -- `AddressEncoder::unchecked_parse_network_address_from_str(s)`
   *   parse(p, s)         -- `AddressEncoder::new(p).parse_address_from_str(s)`
   *   toStr(p, a)         -- `AddressEncoder::new(p).address_to_str(a)`
   */
  datatype Codec = Codec(
    uncheckedParse: string -> Result<NetworkAddress, AddressEncoderError>,
    parse: (NetworkPrefix, string) -> Result<Address, AddressEncoderError>,
    toStr: (NetworkPrefix, Address) -> string)

  /** Decoding an encoded address recovers the address and the prefix it was encoded under. */
  ghost predicate DecodesEncoded(codec: Codec) {
    forall p: NetworkPrefix, a: Address ::
      codec.uncheckedParse(codec.toStr(p, a)) == Ok(NetworkAddress(p, a))
  }

  /**
   * The checked parse under `p` succeeds exactly when the unchecked parse succeeds with prefix `p`,
   * and then it yields the same address.
   */
  ghost predicate CheckedParseAgrees(codec: Codec) {
    forall p: NetworkPrefix, s: string ::
      (codec.parse(p, s).Ok? <==>
         codec.uncheckedParse(s).Ok? && codec.uncheckedParse(s).value.network == p) &&
      (codec.parse(p, s).Ok? ==> codec.parse(p, s).value == codec.uncheckedParse(s).value.address)
  }

  ghost predicate Lawful(codec: Codec) {
    DecodesEncoded(codec) && CheckedParseAgrees(codec)
  }

  /** Under the laws, the checked parse of an encoded address succeeds exactly for its own prefix. */
  lemma CheckedParseOfEncoded(codec: Codec, p: NetworkPrefix, q: NetworkPrefix, a: Address)
    requires Lawful(codec)
    ensures codec.parse(q, codec.toStr(p, a)).Ok? <==> p == q
    ensures p == q ==> codec.parse(q, codec.toStr(p, a)) == Ok(a)
  {
    assert codec.uncheckedParse(codec.toStr(p, a)) == Ok(NetworkAddress(p, a));
  }

  // A concrete codec obeying the laws: a one-character network tag followed by the script bytes,
  // one character per byte.

  function NetworkTag(p: NetworkPrefix): char {
    match p
    case Mainnet => 'm'
    case Testnet => 't'
  }

  function BytesToChars(bs: seq<Byte>): (s: string)
    ensures |s| == |bs|
    ensures forall i :: 0 <= i < |s| ==> s[i] as int == bs[i] as int
  {
    seq(|bs|, i requires 0 <= i < |bs| => bs[i] as int as char)
  }

  predicate AllBytes(s: string) {
    forall i :: 0 <= i < |s| ==> s[i] as int < 256
  }

  function CharsToBytes(s: string): (bs: seq<Byte>)
    requires AllBytes(s)
    ensures |bs| == |s|
    ensures forall i :: 0 <= i < |s| ==> bs[i] as int == s[i] as int
  {
    seq(|s|, i requires 0 <= i < |s| => s[i] as int)
  }

  function WitnessUncheckedParse(s: string): Result<NetworkAddress, AddressEncoderError> {
    if |s| == 0 then Err(Malformed("empty"))
    else if !AllBytes(s[1..]) then Err(Malformed("not a byte string"))
    else if s[0] == NetworkTag(Mainnet) then Ok(NetworkAddress(Mainnet, Address(CharsToBytes(s[1..]))))
    else if s[0] == NetworkTag(Testnet) then Ok(NetworkAddress(Testnet, Address(CharsToBytes(s[1..]))))
    else Err(Malformed("unknown network tag"))
  }

  function WitnessParse(p: NetworkPrefix, s: string): Result<Address, AddressEncoderError> {
    match WitnessUncheckedParse(s)
    case Err(e) => Err(e)
    case Ok(na) => if na.network == p then Ok(na.address) else Err(InvalidNetwork("other network"))
  }

  function WitnessToStr(p: NetworkPrefix, a: Address): string {
    [NetworkTag(p)] + BytesToChars(a.ergoTree)
  }

  function WitnessCodec(): Codec {
    Codec(WitnessUncheckedParse, WitnessParse, WitnessToStr)
  }

  lemma WitnessDecodesEncoded(p: NetworkPrefix, a: Address)
    ensures WitnessUncheckedParse(WitnessToStr(p, a)) == Ok(NetworkAddress(p, a))
  {
    var s := WitnessToStr(p, a);
    assert s[1..] == BytesToChars(a.ergoTree);
    assert CharsToBytes(s[1..]) == a.ergoTree;
  }

  /** The laws are satisfiable: `WitnessCodec` obeys them. */
  lemma WitnessCodecLawful()
    ensures Lawful(WitnessCodec())
  {
    forall p: NetworkPrefix, a: Address
      ensures WitnessCodec().uncheckedParse(WitnessCodec().toStr(p, a)) == Ok(NetworkAddress(p, a))
    {
      WitnessDecodesEncoded(p, a);
    }
  }
}
