/** The three staking-APR formulas of the source, over exact rationals
    (`real`), so the `sdk.Dec` 18-digit rounding of `Quo`/`QuoInt` is not
    reproduced. All three define the APR as 0 when no tokens are bonded. */
module Apr {
  import opened Results

  /** `CalculateStakingAPR` (queryengine/native/native_utils.go): provision
      divided by bonded tokens, as a fraction; no percentage factor is
      applied although the comment above the division mentions one. */
  function CalculateStakingApr(bondedTokens: int, annualProvisions: real): (apr: real)
    ensures bondedTokens == 0 ==> apr == 0.0
    ensures bondedTokens != 0 ==> apr * bondedTokens as real == annualProvisions
  {
    if bondedTokens == 0 then 0.0 else annualProvisions / bondedTokens as real
  }

  /** The formula inside `GetStakingAPR` (queryengine/native/native_types.go):
      the same quotient multiplied by 100, a percentage. */
  function AprPercent(bondedTokens: int, annualProvisions: real): (apr: real)
    ensures bondedTokens == 0 ==> apr == 0.0
    ensures bondedTokens != 0 ==> apr * bondedTokens as real == annualProvisions * 100.0
  {
    if bondedTokens == 0 then 0.0 else annualProvisions / bondedTokens as real * 100.0
  }

  /** `GetStakingAPR` (query/native_utils.go): the per-epoch provision
      scaled by 365 days and 100 percent, divided by bonded tokens. */
  function EpochStakingApr(bondedTokens: int, epochProvision: real): (apr: real)
    ensures bondedTokens == 0 ==> apr == 0.0
    ensures bondedTokens != 0 ==> apr * bondedTokens as real == epochProvision * 36500.0
  {
    if bondedTokens == 0 then 0.0 else epochProvision * 36500.0 / bondedTokens as real
  }

  /** `GetStakingAPR` of the native engine: the pool query runs first and its
      failure is returned before the provision query is consulted; with both
      answers the percentage formula applies. */
  function GetStakingApr(pool: Result<int>, annualProvisions: Result<real>): (r: Result<real>)
    ensures pool.Err? ==> r == Err(pool.error)
    ensures pool.Ok? && annualProvisions.Err? ==> r == Err(annualProvisions.error)
    ensures pool.Ok? && annualProvisions.Ok? ==>
              r == Ok(AprPercent(pool.value, annualProvisions.value))
  {
    var bonded :- pool;
    var provisions :- annualProvisions;
    Ok(AprPercent(bonded, provisions))
  }

  /** The three variants differ only by a constant factor: 100 for the
      native engine's percentage and 36500 for the epoch variant. */
  lemma AprVariantsScale(bondedTokens: int, provision: real)
    ensures AprPercent(bondedTokens, provision) == 100.0 * CalculateStakingApr(bondedTokens, provision)
    ensures EpochStakingApr(bondedTokens, provision) == 36500.0 * CalculateStakingApr(bondedTokens, provision)
  {
    if bondedTokens != 0 {
      var b := bondedTokens as real;
      var q := CalculateStakingApr(bondedTokens, provision);
      assert q * b == provision;
      assert (100.0 * q) * b == provision * 100.0;
      assert (36500.0 * q) * b == provision * 36500.0;
    }
  }

  /** The fixtures of queryengine/native/native_utils_test.go that match a
      formula: zero bonded tokens, zero provision, and bonded 10^11 with
      provision 100 giving 0.0000365. Only the epoch variant meets the last. */
  lemma AprTestFixtures()
    ensures EpochStakingApr(0, 100.0) == 0.0
    ensures EpochStakingApr(100, 0.0) == 0.0
    ensures EpochStakingApr(100000000000, 100.0) == 0.0000365
    ensures CalculateStakingApr(100000000000, 100.0) != 0.0000365
    ensures AprPercent(100000000000, 100.0) != 0.0000365
  {
    AprVariantsScale(100000000000, 100.0);
  }
}
