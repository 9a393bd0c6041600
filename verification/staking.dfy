/** The validators transformer (`GetValidators` in
    queryengine/native/native_types.go): one remote staking response becomes
    the ordered validator records plus the operator-address index. */
module Staking {
  import opened Results
  import opened Decimal
  import opened Cosmos
  import opened Json
  import opened Index

  /** staking.Description, carried through unchanged. */
  datatype Description = Description(
    moniker: string, identity: string, website: string, securityContact: string, details: string)

  datatype CommissionRates = CommissionRates(rate: Dec, maxRate: Dec, maxChangeRate: Dec)

  /** staking.Commission: the current rates plus when they last changed. */
  datatype Commission = Commission(rates: CommissionRates, updateTime: Time)

  /** A validator as the staking query service returns it (the fields the
      transformer reads, and a few it drops). */
  datatype RawValidator = RawValidator(
    operatorAddress: string,
    jailed: bool,
    status: int,
    tokens: int,
    delegatorShares: Dec,
    description: Description,
    unbondingHeight: int,
    unbondingTime: Time,
    commission: Commission,
    minSelfDelegation: int)

  /** The normalized validator record the engine publishes. */
  datatype Validator = Validator(
    operatorAddress: string,
    jailed: bool,
    status: string,
    tokens: string,
    description: Description,
    commission: string)

  /** staking.BondStatus names; an unknown code prints as its number, as the
      protobuf enum `String()` does. */
  function BondStatusName(code: int): string {
    if code == 0 then "BOND_STATUS_UNSPECIFIED"
    else if code == 1 then "BOND_STATUS_UNBONDED"
    else if code == 2 then "BOND_STATUS_UNBONDING"
    else if code == 3 then "BOND_STATUS_BONDED"
    else IntToDecimal(code)
  }

  function ToValidator(v: RawValidator): Validator {
    Validator(
      v.operatorAddress,
      v.jailed,
      BondStatusName(v.status),
      IntString(v.tokens),
      v.description,
      DecString(v.commission.rates.rate))
  }

  const DESCRIPTION_TAGS: seq<string> := ["moniker", "identity", "website", "security_contact", "details"]

  /** staking.Description under its struct tags, every one of which is
      `omitempty`: a field holding the empty string is left out. */
  function DescriptionJson(d: Description): (j: Json)
    ensures j.JObject? && |j.fields| <= |DESCRIPTION_TAGS|
    ensures forall e :: e in j.fields ==> e.0 in DESCRIPTION_TAGS && e.1.JString? && e.1.s != ""
  {
    JObject(OmitEmptyString("moniker", d.moniker)
            + OmitEmptyString("identity", d.identity)
            + OmitEmptyString("website", d.website)
            + OmitEmptyString("security_contact", d.securityContact)
            + OmitEmptyString("details", d.details))
  }

  /** Each description field appears under its own tag exactly when it is
      non-empty; an all-empty description is the empty object. */
  lemma DescriptionJsonOmitsEmpty(d: Description)
    ensures var f := DescriptionJson(d).fields;
            && (("moniker", JString(d.moniker)) in f <==> d.moniker != "")
            && (("identity", JString(d.identity)) in f <==> d.identity != "")
            && (("website", JString(d.website)) in f <==> d.website != "")
            && (("security_contact", JString(d.securityContact)) in f <==> d.securityContact != "")
            && (("details", JString(d.details)) in f <==> d.details != "")
    ensures DescriptionJson(Description("", "", "", "", "")) == JObject([])
  {
  }

  /** The record under its struct tags. */
  function ValidatorJson(v: Validator): Json {
    JObject([
      ("operator_address", JString(v.operatorAddress)),
      ("jailed", JBool(v.jailed)),
      ("status", JString(v.status)),
      ("tokens", JString(v.tokens)),
      ("description", DescriptionJson(v.description)),
      ("commission", JString(v.commission))])
  }

  /** The validator list as `SetJsonToCache` receives it: the slice starts
      nil and stays nil when the response is empty. */
  function ValidatorsJson(vs: seq<Validator>): Json {
    SliceJson(Appended(vs), ValidatorJson)
  }

  function ValidatorKey(v: Validator): string {
    v.operatorAddress
  }

  /** One validator's serialized form, as stored in the index. */
  function ValidatorText(marshal: Marshaller): Validator -> string {
    v => GeneralResultToString(marshal, ValidatorJson(v))
  }

  /** `GetValidators`: a failed fetch returns the fetch error and no partial
      output; otherwise one record per response validator, in response
      order, with the status as its enum name and only the current
      commission rate, and an index keyed by operator address. */
  function GetValidators(resp: Result<seq<RawValidator>>, marshal: Marshaller): (r: Result<Dataset<Validator>>)
    ensures resp.Err? ==> r == Err(resp.error)
    ensures resp.Ok? ==> r.Ok? && |r.value.records| == |resp.value|
    ensures resp.Ok? ==> forall i :: 0 <= i < |resp.value| ==>
              var v := r.value.records[i];
              var raw := resp.value[i];
              && v.operatorAddress == raw.operatorAddress
              && v.jailed == raw.jailed
              && v.status == BondStatusName(raw.status)
              && v.tokens == IntString(raw.tokens)
              && v.description == raw.description
              && v.commission == DecString(raw.commission.rates.rate)
  {
    match resp
    case Err(e) => Err(e)
    case Ok(raws) =>
      var records := seq(|raws|, i requires 0 <= i < |raws| => ToValidator(raws[i]));
      Ok(MakeDataset(records, ValidatorKey, ValidatorText(marshal)))
  }

  /** The validator index agrees with the list: its keys are exactly the
      operator addresses in the list, each value is the serialization of the
      last record with that address, and it has as many entries as the list
      iff the addresses are distinct. */
  lemma ValidatorIndexAgreesWithList(resp: Result<seq<RawValidator>>, marshal: Marshaller)
    requires resp.Ok?
    ensures var d := GetValidators(resp, marshal).value;
            && d.index.Keys == KeySet(d.records, ValidatorKey)
            && (forall k :: k in d.index ==>
                 exists i :: IsLastRecord(d.records, ValidatorKey, k, i)
                   && d.index[k] == GeneralResultToString(marshal, ValidatorJson(d.records[i])))
            && |d.index| <= |d.records|
            && (|d.index| == |d.records| <==> DistinctBy(d.records, ValidatorKey))
  {
    var raws := resp.value;
    var records := seq(|raws|, i requires 0 <= i < |raws| => ToValidator(raws[i]));
    var text := ValidatorText(marshal);
    var d := MakeDataset(records, ValidatorKey, text);
    assert GetValidators(resp, marshal).value == d;
    DatasetKeys(records, ValidatorKey, text);
    DatasetSize(records, ValidatorKey, text);
    forall k | k in d.index
      ensures exists i :: IsLastRecord(records, ValidatorKey, k, i)
                && d.index[k] == GeneralResultToString(marshal, ValidatorJson(records[i]))
    {
      DatasetValues(records, ValidatorKey, text, k);
    }
  }

  /** The index is empty exactly when the response is. */
  lemma ValidatorIndexEmpty(resp: Result<seq<RawValidator>>, marshal: Marshaller)
    requires resp.Ok?
    ensures |GetValidators(resp, marshal).value.index| == 0 <==> |resp.value| == 0
  {
    var raws := resp.value;
    var records := seq(|raws|, i requires 0 <= i < |raws| => ToValidator(raws[i]));
    assert GetValidators(resp, marshal).value == MakeDataset(records, ValidatorKey, ValidatorText(marshal));
    DatasetEmpty(records, ValidatorKey, ValidatorText(marshal));
  }
}
