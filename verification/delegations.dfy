/** The on-demand user delegation snapshot (`FetchUserDelegations` in
    queryengine/native/native_types.go): three remote answers merged into
    one response, with unbonding entries flattened and reward totals
    aggregated by denomination. Totals are summed exactly on `sdk.Dec`
    units; the source sums float64 values and prints them with `%f`. */
module Delegations {
  import opened Results
  import opened Cosmos
  import opened Json

  // ---------------------------------------------------------------- inputs

  datatype RawDelegation = RawDelegation(delegatorAddress: string, validatorAddress: string, shares: Dec)

  datatype RawDelegationResponse = RawDelegationResponse(delegation: RawDelegation, balance: Coin)

  datatype RawUnbondingEntry = RawUnbondingEntry(
    creationHeight: int, completionTime: Time, initialBalance: int, balance: int)

  datatype RawUnbonding = RawUnbonding(
    delegatorAddress: string, validatorAddress: string, entries: seq<RawUnbondingEntry>)

  datatype RawReward = RawReward(validatorAddress: string, reward: seq<DecCoin>)

  // --------------------------------------------------------------- records

  datatype Delegation = Delegation(delegatorAddress: string, validatorAddress: string, shares: string)

  datatype Balance = Balance(denom: string, amount: string)

  datatype DelegationInfo = DelegationInfo(delegation: Delegation, balance: Balance)

  datatype UnbondingDelegation = UnbondingDelegation(
    delegatorAddress: string,
    validatorAddress: string,
    creationHeight: int,
    completionTime: Time,
    initialBalance: string,
    balance: string)

  datatype ValidatorReward = ValidatorReward(validatorAddress: string, reward: Slice<Balance>)

  datatype RewardsInfo = RewardsInfo(rewards: Slice<ValidatorReward>, total: Slice<Balance>)

  datatype DelegationResponse = DelegationResponse(
    delegations: Slice<DelegationInfo>,
    unbondingDelegations: Slice<UnbondingDelegation>,
    rewards: RewardsInfo)

  function ToDelegationInfo(d: RawDelegationResponse): DelegationInfo {
    DelegationInfo(
      Delegation(d.delegation.delegatorAddress, d.delegation.validatorAddress, DecString(d.delegation.shares)),
      Balance(d.balance.denom, IntString(d.balance.amount)))
  }

  function ToUnbonding(u: RawUnbonding, e: RawUnbondingEntry): UnbondingDelegation {
    UnbondingDelegation(
      u.delegatorAddress, u.validatorAddress, e.creationHeight, e.completionTime,
      IntString(e.initialBalance), IntString(e.balance))
  }

  function RewardBalance(c: DecCoin): Balance {
    Balance(c.denom, DecString(c.amount))
  }

  function ToValidatorReward(r: RawReward): ValidatorReward {
    ValidatorReward(r.validatorAddress,
                    Appended(seq(|r.reward|, j requires 0 <= j < |r.reward| => RewardBalance(r.reward[j]))))
  }

  // ------------------------------------------------------------- unbonding

  function EntriesOf(u: RawUnbonding): seq<UnbondingDelegation> {
    seq(|u.entries|, j requires 0 <= j < |u.entries| => ToUnbonding(u, u.entries[j]))
  }

  /** The nested range loop over responses and their entries. */
  function FlattenUnbonding(resp: seq<RawUnbonding>): seq<UnbondingDelegation> {
    if |resp| == 0 then [] else FlattenUnbonding(resp[..|resp| - 1]) + EntriesOf(resp[|resp| - 1])
  }

  /** Number of entries in the first `i` responses. */
  function EntryOffset(resp: seq<RawUnbonding>, i: nat): nat
    requires i <= |resp|
  {
    if i == 0 then 0 else EntryOffset(resp, i - 1) + |resp[i - 1].entries|
  }

  /** Entry `j` of response `i` is flattened to position
      `EntryOffset(resp, i) + j`. */
  ghost predicate PlacedAt(resp: seq<RawUnbonding>, i: int, j: int)
    requires 0 <= i < |resp| && 0 <= j < |resp[i].entries|
  {
    && EntryOffset(resp, i) + j < |FlattenUnbonding(resp)|
    && FlattenUnbonding(resp)[EntryOffset(resp, i) + j] == ToUnbonding(resp[i], resp[i].entries[j])
  }

  /** Flattening yields exactly one record per (response, entry) pair, in
      nested order: as many records as entries, with entry `j` of response
      `i` at position `EntryOffset(resp, i) + j`. */
  lemma FlattenUnbondingShape(resp: seq<RawUnbonding>)
    ensures |FlattenUnbonding(resp)| == EntryOffset(resp, |resp|)
    ensures forall i, j :: 0 <= i < |resp| && 0 <= j < |resp[i].entries| ==> PlacedAt(resp, i, j)
  {
    FlattenLength(resp);
    forall i, j | 0 <= i < |resp| && 0 <= j < |resp[i].entries|
      ensures PlacedAt(resp, i, j)
    {
      FlattenAt(resp, i, j);
    }
  }

  lemma {:induction false} FlattenLength(resp: seq<RawUnbonding>)
    ensures |FlattenUnbonding(resp)| == EntryOffset(resp, |resp|)
  {
    if |resp| > 0 {
      var p := resp[..|resp| - 1];
      FlattenLength(p);
      OffsetOfPrefixAt(resp, |resp| - 1, |resp| - 1);
    }
  }

  lemma {:induction false} FlattenAt(resp: seq<RawUnbonding>, i: nat, j: nat)
    requires i < |resp| && j < |resp[i].entries|
    ensures EntryOffset(resp, i) + j < EntryOffset(resp, |resp|)
    ensures EntryOffset(resp, i) + j < |FlattenUnbonding(resp)|
    ensures FlattenUnbonding(resp)[EntryOffset(resp, i) + j] == ToUnbonding(resp[i], resp[i].entries[j])
  {
    var n := |resp|;
    var p := resp[..n - 1];
    FlattenLength(resp);
    FlattenLength(p);
    OffsetMonotone(resp, i + 1, n);
    OffsetOfPrefixAt(resp, n - 1, n - 1);
    if i < n - 1 {
      FlattenAt(p, i, j);
      OffsetOfPrefixAt(resp, n - 1, i);
      assert p[i] == resp[i];
    }
  }

  lemma {:induction false} OffsetOfPrefix(resp: seq<RawUnbonding>, k: nat)
    requires k <= |resp|
    ensures forall i :: 0 <= i <= k ==> EntryOffset(resp[..k], i) == EntryOffset(resp, i)
  {
    forall i | 0 <= i <= k ensures EntryOffset(resp[..k], i) == EntryOffset(resp, i) {
      OffsetOfPrefixAt(resp, k, i);
    }
  }

  lemma {:induction false} OffsetOfPrefixAt(resp: seq<RawUnbonding>, k: nat, i: nat)
    requires i <= k <= |resp|
    ensures EntryOffset(resp[..k], i) == EntryOffset(resp, i)
    decreases i
  {
    if i > 0 {
      OffsetOfPrefixAt(resp, k, i - 1);
    }
  }

  lemma {:induction false} OffsetMonotone(resp: seq<RawUnbonding>, i: nat, k: nat)
    requires i <= k <= |resp|
    ensures EntryOffset(resp, i) <= EntryOffset(resp, k)
    decreases k - i
  {
    if i < k {
      OffsetMonotone(resp, i, k - 1);
    }
  }

  // ---------------------------------------------------------- reward totals

  /** Every reward coin, in response order then coin order. */
  function RewardCoins(rs: seq<RawReward>): seq<DecCoin> {
    if |rs| == 0 then [] else RewardCoins(rs[..|rs| - 1]) + rs[|rs| - 1].reward
  }

  /** The denominations of `coins`, each once, in order of first appearance. */
  function DistinctDenoms(coins: seq<DecCoin>): seq<string> {
    if |coins| == 0 then []
    else
      var p := DistinctDenoms(coins[..|coins| - 1]);
      var d := coins[|coins| - 1].denom;
      if d in p then p else p + [d]
  }

  /** Exact sum, in 10^-18 units, of the amounts of denomination `d`. */
  function SumOf(coins: seq<DecCoin>, d: string): int {
    if |coins| == 0 then 0
    else SumOf(coins[..|coins| - 1], d) + (if coins[|coins| - 1].denom == d then coins[|coins| - 1].amount.atto else 0)
  }

  function CountOf(coins: seq<DecCoin>, d: string): nat {
    if |coins| == 0 then 0
    else CountOf(coins[..|coins| - 1], d) + (if coins[|coins| - 1].denom == d then 1 else 0)
  }

  /** Reference definition of the totals: one coin per distinct denomination,
      in first-appearance order, holding the exact sum of its amounts. */
  function TotalsSpec(coins: seq<DecCoin>): seq<DecCoin> {
    var ds := DistinctDenoms(coins);
    seq(|ds|, i requires 0 <= i < |ds| => DecCoin(ds[i], Dec(SumOf(coins, ds[i]))))
  }

  ghost function CoinDenoms(coins: seq<DecCoin>): set<string> {
    set i | 0 <= i < |coins| :: coins[i].denom
  }

  /** No denomination repeats in the totals, and exactly the input
      denominations appear. */
  lemma {:induction false} DistinctDenomsUniqueAndComplete(coins: seq<DecCoin>)
    ensures forall i, j :: 0 <= i < j < |DistinctDenoms(coins)| ==> DistinctDenoms(coins)[i] != DistinctDenoms(coins)[j]
    ensures forall d :: d in DistinctDenoms(coins) <==> d in CoinDenoms(coins)
  {
    if |coins| > 0 {
      var p := coins[..|coins| - 1];
      DistinctDenomsUniqueAndComplete(p);
      forall d | d in CoinDenoms(coins) ensures d in DistinctDenoms(coins) {
        var i :| 0 <= i < |coins| && coins[i].denom == d;
        if i < |coins| - 1 {
          assert p[i].denom == d;
        }
      }
      forall d | d in CoinDenoms(p) ensures d in CoinDenoms(coins) {
        var i :| 0 <= i < |p| && p[i].denom == d;
        assert coins[i].denom == d;
      }
    }
  }

  /** A denomination absent from the input sums to 0 and is counted 0 times. */
  lemma {:induction false} AbsentDenom(coins: seq<DecCoin>, d: string)
    requires d !in CoinDenoms(coins)
    ensures SumOf(coins, d) == 0 && CountOf(coins, d) == 0
  {
    if |coins| > 0 {
      var p := coins[..|coins| - 1];
      forall i | 0 <= i < |p| ensures p[i].denom != d {
        assert p[i] == coins[i];
      }
      AbsentDenom(p, d);
    }
  }

  /** A denomination seen exactly once totals to that one amount. */
  lemma {:induction false} SingleDenomTotal(coins: seq<DecCoin>, d: string)
    requires CountOf(coins, d) == 1
    ensures exists i :: 0 <= i < |coins| && coins[i].denom == d && SumOf(coins, d) == coins[i].amount.atto
              && forall j :: 0 <= j < |coins| && j != i ==> coins[j].denom != d
  {
    var n := |coins|;
    var p := coins[..n - 1];
    if coins[n - 1].denom == d {
      assert CountOf(p, d) == 0;
      ZeroCount(p, d);
      forall j | 0 <= j < n - 1 ensures coins[j].denom != d {
        assert p[j].denom != d;
      }
      assert SumOf(coins, d) == coins[n - 1].amount.atto;
    } else {
      SingleDenomTotal(p, d);
      var i :| 0 <= i < |p| && p[i].denom == d && SumOf(p, d) == p[i].amount.atto
                && forall j :: 0 <= j < |p| && j != i ==> p[j].denom != d;
      assert coins[i] == p[i];
      forall j | 0 <= j < n && j != i ensures coins[j].denom != d {
        if j < n - 1 {
          assert coins[j] == p[j];
        }
      }
    }
  }

  lemma {:induction false} ZeroCount(coins: seq<DecCoin>, d: string)
    requires CountOf(coins, d) == 0
    ensures d !in CoinDenoms(coins) && SumOf(coins, d) == 0
  {
    if |coins| > 0 {
      var p := coins[..|coins| - 1];
      ZeroCount(p, d);
      assert CoinDenoms(coins) == CoinDenoms(p) + {coins[|coins| - 1].denom} by {
        forall x | x in CoinDenoms(coins) ensures x in CoinDenoms(p) + {coins[|coins| - 1].denom} {
          var i :| 0 <= i < |coins| && coins[i].denom == x;
          if i < |coins| - 1 {
            assert p[i].denom == x;
          }
        }
      }
    }
  }

  /** One more coin either adds to the total of its denomination, or, for a
      new denomination, appends a total holding that coin. */
  lemma TotalsSpecSnoc(coins: seq<DecCoin>, c: DecCoin)
    ensures var t := TotalsSpec(coins);
            var t' := TotalsSpec(coins + [c]);
            && (forall i :: 0 <= i < |t| && t[i].denom == c.denom ==>
                  t' == t[i := DecCoin(c.denom, Dec(t[i].amount.atto + c.amount.atto))])
            && ((forall i :: 0 <= i < |t| ==> t[i].denom != c.denom) ==> t' == t + [c])
  {
    var s := coins + [c];
    assert s[..|s| - 1] == coins;
    var ds := DistinctDenoms(coins);
    var t := TotalsSpec(coins);
    var t' := TotalsSpec(s);
    DistinctDenomsUniqueAndComplete(coins);
    forall d ensures SumOf(s, d) == SumOf(coins, d) + (if c.denom == d then c.amount.atto else 0) {
    }
    if c.denom in ds {
      var w :| 0 <= w < |ds| && ds[w] == c.denom;
      assert t[w].denom == c.denom;
      forall i | 0 <= i < |t| && t[i].denom == c.denom
        ensures t' == t[i := DecCoin(c.denom, Dec(t[i].amount.atto + c.amount.atto))]
      {
        assert DistinctDenoms(s) == ds;
        forall j | 0 <= j < |t| && j != i ensures t'[j] == t[j] {
          assert ds[j] != ds[i];
        }
      }
    } else {
      assert DistinctDenoms(s) == ds + [c.denom];
      assert c.denom !in CoinDenoms(coins);
      AbsentDenom(coins, c.denom);
      assert t'[|t|] == c;
      forall j | 0 <= j < |t| ensures t'[j] == t[j] {
        assert ds[j] != c.denom;
      }
    }
  }

  /** The source's total loop: for each coin, scan the totals for its
      denomination; add to the match, or append the coin when none matches. */
  method AggregateTotals(coins: seq<DecCoin>) returns (total: seq<DecCoin>)
    ensures total == TotalsSpec(coins)
  {
    total := [];
    var k := 0;
    while k < |coins|
      invariant 0 <= k <= |coins|
      invariant total == TotalsSpec(coins[..k])
    {
      var c := coins[k];
      var i := 0;
      while i < |total| && total[i].denom != c.denom
        invariant 0 <= i <= |total|
        invariant forall j :: 0 <= j < i ==> total[j].denom != c.denom
      {
        i := i + 1;
      }
      TotalsSpecSnoc(coins[..k], c);
      assert coins[..k + 1] == coins[..k] + [c];
      if i < |total| {
        total := total[i := DecCoin(c.denom, Dec(total[i].amount.atto + c.amount.atto))];
      } else {
        total := total + [c];
      }
      k := k + 1;
    }
    assert coins[..|coins|] == coins;
  }

  /** Totals list the input denominations once each, in first-appearance
      order; each holds the exact sum of its amounts, and a denomination
      seen once keeps its single amount. */
  lemma TotalsProperties(coins: seq<DecCoin>)
    ensures forall i, j :: 0 <= i < j < |TotalsSpec(coins)| ==> TotalsSpec(coins)[i].denom != TotalsSpec(coins)[j].denom
    ensures forall d :: d in CoinDenoms(coins) <==> exists i :: 0 <= i < |TotalsSpec(coins)| && TotalsSpec(coins)[i].denom == d
    ensures forall i :: 0 <= i < |TotalsSpec(coins)| ==> TotalsSpec(coins)[i].amount.atto == SumOf(coins, TotalsSpec(coins)[i].denom)
    ensures forall i :: 0 <= i < |TotalsSpec(coins)| && CountOf(coins, TotalsSpec(coins)[i].denom) == 1 ==>
              exists k :: 0 <= k < |coins| && coins[k] == TotalsSpec(coins)[i]
  {
    var t := TotalsSpec(coins);
    var ds := DistinctDenoms(coins);
    DistinctDenomsUniqueAndComplete(coins);
    forall d | d in CoinDenoms(coins) ensures exists i :: 0 <= i < |t| && t[i].denom == d {
      var i :| 0 <= i < |ds| && ds[i] == d;
      assert t[i].denom == d;
    }
    forall i | 0 <= i < |t| && CountOf(coins, t[i].denom) == 1
      ensures exists k :: 0 <= k < |coins| && coins[k] == t[i]
    {
      SingleDenomTotal(coins, t[i].denom);
      var k :| 0 <= k < |coins| && coins[k].denom == t[i].denom && SumOf(coins, t[i].denom) == coins[k].amount.atto
                && forall j :: 0 <= j < |coins| && j != k ==> coins[j].denom != t[i].denom;
      assert coins[k] == t[i];
    }
  }

  /** Index of the first coin of denomination `d`. */
  ghost function FirstIndex(coins: seq<DecCoin>, d: string): (k: nat)
    requires d in CoinDenoms(coins)
    ensures k < |coins| && coins[k].denom == d
    ensures forall j :: 0 <= j < k ==> coins[j].denom != d
  {
    if coins[0].denom == d then 0
    else
      assert d in CoinDenoms(coins[1..]) by {
        var i :| 0 <= i < |coins| && coins[i].denom == d;
        assert coins[1..][i - 1].denom == d;
      }
      1 + FirstIndex(coins[1..], d)
  }

  /** Totals are ordered by first appearance of their denomination. */
  lemma {:induction false} DistinctDenomsFirstAppearance(coins: seq<DecCoin>)
    ensures forall d :: d in DistinctDenoms(coins) ==> d in CoinDenoms(coins)
    ensures forall i, j :: 0 <= i < j < |DistinctDenoms(coins)| ==>
              FirstIndex(coins, DistinctDenoms(coins)[i]) < FirstIndex(coins, DistinctDenoms(coins)[j])
  {
    DistinctDenomsUniqueAndComplete(coins);
    if |coins| > 0 {
      var n := |coins|;
      var p := coins[..n - 1];
      var ds := DistinctDenoms(coins);
      var dp := DistinctDenoms(p);
      DistinctDenomsFirstAppearance(p);
      DistinctDenomsUniqueAndComplete(p);
      forall d | d in CoinDenoms(p) ensures FirstIndex(coins, d) == FirstIndex(p, d) {
        FirstIndexOfPrefix(coins, n - 1, d);
      }
      forall i, j | 0 <= i < j < |ds|
        ensures FirstIndex(coins, ds[i]) < FirstIndex(coins, ds[j])
      {
        if j < |dp| {
          assert ds[i] == dp[i] && ds[j] == dp[j];
        } else {
          assert ds[j] == coins[n - 1].denom && ds[j] !in dp;
          assert ds[j] !in CoinDenoms(p);
          assert ds[i] == dp[i];
          forall k | 0 <= k < n - 1 ensures coins[k].denom != ds[j] {
            assert coins[k] == p[k];
          }
        }
      }
    }
  }

  lemma FirstIndexOfPrefix(coins: seq<DecCoin>, m: nat, d: string)
    requires m <= |coins| && d in CoinDenoms(coins[..m])
    ensures d in CoinDenoms(coins)
    ensures FirstIndex(coins, d) == FirstIndex(coins[..m], d)
  {
    var p := coins[..m];
    var k := FirstIndex(p, d);
    assert coins[k].denom == d;
    forall j | 0 <= j < k ensures coins[j].denom != d {
      assert coins[j] == p[j];
    }
  }

  // --------------------------------------------------------------- the call

  const DELEGATIONS_ERROR: string := "failed to fetch delegations: "
  const UNBONDING_ERROR: string := "failed to fetch unbonding delegations: "
  const REWARDS_ERROR: string := "failed to fetch rewards: "

  /** `FetchUserDelegations`: the three queries run in order and the first
      failure is returned wrapped with its context. On success: one
      delegation record per delegation response; one unbonding record per
      (response, entry) pair, nil when there are none; one reward record per
      validator; and the totals by denomination, nil when there are no
      reward coins. */
  method FetchUserDelegations(delegations: Result<seq<RawDelegationResponse>>,
                              unbondings: Result<seq<RawUnbonding>>,
                              rewards: Result<seq<RawReward>>) returns (r: Result<DelegationResponse>)
    ensures delegations.Err? ==> r == Err(DELEGATIONS_ERROR + delegations.error)
    ensures delegations.Ok? && unbondings.Err? ==> r == Err(UNBONDING_ERROR + unbondings.error)
    ensures delegations.Ok? && unbondings.Ok? && rewards.Err? ==> r == Err(REWARDS_ERROR + rewards.error)
    ensures delegations.Ok? && unbondings.Ok? && rewards.Ok? ==> r.Ok?
    ensures r.Ok? ==>
              var ds := delegations.value;
              && Elems(r.value.delegations) == seq(|ds|, i requires 0 <= i < |ds| => ToDelegationInfo(ds[i]))
              && (r.value.delegations.Nil? <==> |ds| == 0)
    ensures r.Ok? ==>
              && Elems(r.value.unbondingDelegations) == FlattenUnbonding(unbondings.value)
              && (r.value.unbondingDelegations.Nil? <==> |FlattenUnbonding(unbondings.value)| == 0)
    ensures r.Ok? ==>
              var rs := rewards.value;
              && Elems(r.value.rewards.rewards) == seq(|rs|, i requires 0 <= i < |rs| => ToValidatorReward(rs[i]))
              && (r.value.rewards.rewards.Nil? <==> |rs| == 0)
    ensures r.Ok? ==>
              var coins := RewardCoins(rewards.value);
              && (r.value.rewards.total.Nil? <==> |coins| == 0)
              && |Elems(r.value.rewards.total)| == |TotalsSpec(coins)|
              && forall i :: 0 <= i < |TotalsSpec(coins)| ==>
                   Elems(r.value.rewards.total)[i] == RewardBalance(TotalsSpec(coins)[i])
  {
    if delegations.Err? {
      return Err(DELEGATIONS_ERROR + delegations.error);
    }
    var ds := delegations.value;
    var infos := seq(|ds|, i requires 0 <= i < |ds| => ToDelegationInfo(ds[i]));
    if unbondings.Err? {
      return Err(UNBONDING_ERROR + unbondings.error);
    }
    var flat := FlattenUnbonding(unbondings.value);
    if rewards.Err? {
      return Err(REWARDS_ERROR + rewards.error);
    }
    var rs := rewards.value;
    var perValidator := seq(|rs|, i requires 0 <= i < |rs| => ToValidatorReward(rs[i]));
    var coins := RewardCoins(rs);
    var totals := AggregateTotals(coins);
    DistinctDenomsUniqueAndComplete(coins);
    assert |coins| > 0 ==> coins[0].denom in DistinctDenoms(coins);
    var balances := seq(|totals|, i requires 0 <= i < |totals| => RewardBalance(totals[i]));
    r := Ok(DelegationResponse(
      Appended(infos),
      Appended(flat),
      RewardsInfo(Appended(perValidator), Appended(balances))));
  }

  // ------------------------------------------------------------------ JSON

  function BalanceJson(b: Balance): Json {
    JObject([("denom", JString(b.denom)), ("amount", JString(b.amount))])
  }

  function DelegationInfoJson(d: DelegationInfo): Json {
    JObject([
      ("delegation", JObject([
        ("delegator_address", JString(d.delegation.delegatorAddress)),
        ("validator_address", JString(d.delegation.validatorAddress)),
        ("shares", JString(d.delegation.shares))])),
      ("balance", BalanceJson(d.balance))])
  }

  function UnbondingJson(u: UnbondingDelegation): Json {
    JObject([
      ("delegator_address", JString(u.delegatorAddress)),
      ("validator_address", JString(u.validatorAddress)),
      ("creation_height", JInt(u.creationHeight)),
      ("completion_time", JString(u.completionTime.rfc3339)),
      ("initial_balance", JString(u.initialBalance)),
      ("balance", JString(u.balance))])
  }

  function ValidatorRewardJson(v: ValidatorReward): Json {
    JObject([("validator_address", JString(v.validatorAddress)), ("reward", SliceJson(v.reward, BalanceJson))])
  }

  /** `RewardsInfo.MarshalJSON`: nil reward and total lists marshal as empty
      arrays, never as `null`. */
  function RewardsInfoJson(r: RewardsInfo): (j: Json)
    ensures j.JObject? && |j.fields| == 2
    ensures j.fields[0].0 == "rewards" && j.fields[0].1 == ArrayOf(Elems(r.rewards), ValidatorRewardJson)
    ensures j.fields[1].0 == "total" && j.fields[1].1 == ArrayOf(Elems(r.total), BalanceJson)
    ensures r.rewards.Nil? ==> j.fields[0].1 == JArray([])
    ensures r.total.Nil? ==> j.fields[1].1 == JArray([])
  {
    JObject([
      ("rewards", ArrayOf(Elems(r.rewards), ValidatorRewardJson)),
      ("total", ArrayOf(Elems(r.total), BalanceJson))])
  }

  /** DelegationResponse has no marshaller of its own: nil delegation and
      unbonding lists marshal as `null`. */
  function DelegationResponseJson(d: DelegationResponse): (j: Json)
    ensures j.JObject? && |j.fields| == 3
    ensures d.unbondingDelegations.Nil? ==> j.fields[1] == ("unbondingDelegations", JNull)
    ensures d.delegations.Nil? ==> j.fields[0] == ("delegations", JNull)
  {
    JObject([
      ("delegations", SliceJson(d.delegations, DelegationInfoJson)),
      ("unbondingDelegations", SliceJson(d.unbondingDelegations, UnbondingJson)),
      ("rewards", RewardsInfoJson(d.rewards))])
  }
}
