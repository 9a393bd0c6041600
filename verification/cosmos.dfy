/** Value types of the cosmos-sdk and protobuf libraries that the
    transformers read from remote responses, with the text renderings the
    transformers apply (`sdk.Int.String()`, `sdk.Dec.String()`). */
module Cosmos {
  import opened Decimal

  /** Number of fractional decimal digits of `sdk.Dec`. */
  const DEC_PRECISION: nat := 18
  const DEC_ONE: nat := 1_000_000_000_000_000_000

  /** `sdk.Dec`: a fixed-point decimal held as an integer count of 10^-18 units. */
  datatype Dec = Dec(atto: int)

  /** `sdk.Coin`: an integer amount of one denomination. */
  datatype Coin = Coin(denom: string, amount: int)

  /** `sdk.DecCoin`: a decimal amount of one denomination (rewards). */
  datatype DecCoin = DecCoin(denom: string, amount: Dec)

  /** `time.Time`, kept opaque: only its RFC 3339 text is observable. */
  datatype Time = Time(rfc3339: string)

  /** protobuf `Any`: a type URL and an opaque encoded payload. */
  datatype Any = Any(typeUrl: string, value: string)

  /** `sdk.Int.String()`. */
  function IntString(i: int): string {
    IntToDecimal(i)
  }

  /** `sdk.Dec.String()` of a non-negative value: integer part, a point,
      and always exactly 18 fractional digits. */
  function UnsignedDecString(atto: nat): string
  {
    NatToDecimal(atto / DEC_ONE) + "." + PadZeros(NatToDecimal(atto % DEC_ONE), DEC_PRECISION)
  }

  /** `sdk.Dec.String()`: a minus sign for negative values. */
  function DecString(d: Dec): string {
    if d.atto < 0 then "-" + UnsignedDecString(-d.atto) else UnsignedDecString(d.atto)
  }
}
