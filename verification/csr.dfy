/** The CSR transformer (`GetCSRS` in queryengine/native/native_types.go):
    a field-for-field mapping keyed by the decimal id. The scheduler does not
    call it (its block is commented out), so no tick writes the CSR keys. */
module Csr {
  import opened Results
  import opened Decimal
  import opened Cosmos
  import opened Json
  import opened Index
  import Governance

  /** A CSR NFT as the csr query service returns it. */
  datatype RawCsr = RawCsr(id: Uint64, contracts: seq<string>, txs: Uint64, revenue: int)

  /** The normalized CSR record; revenue is the big integer's decimal text. */
  datatype Csr = Csr(id: Uint64, contracts: seq<string>, txs: Uint64, revenue: string)

  function ToCsr(c: RawCsr): Csr {
    Csr(c.id, c.contracts, c.txs, IntString(c.revenue))
  }

  function CsrKey(c: Csr): string {
    Governance.IdKey(c.id)
  }

  /** The record under its struct tags; a contracts list decoded as nil
      marshals as `null`. */
  function CsrJson(c: Csr): Json {
    JObject([
      ("id", JInt(c.id)),
      ("contracts", SliceJson(Appended(c.contracts), s => JString(s))),
      ("txs", JInt(c.txs)),
      ("revenue", JString(c.revenue))])
  }

  function CsrText(marshal: Marshaller): Csr -> string {
    c => GeneralResultToString(marshal, CsrJson(c))
  }

  /** `GetCSRS`: a failed fetch returns its error and no partial output;
      otherwise one record per response CSR, in order, duplicates included,
      each field carried over and the revenue rendered in decimal. */
  function GetCsrs(resp: Result<seq<RawCsr>>, marshal: Marshaller): (r: Result<Dataset<Csr>>)
    ensures resp.Err? ==> r == Err(resp.error)
    ensures resp.Ok? ==> r.Ok? && |r.value.records| == |resp.value|
    ensures resp.Ok? ==> forall i :: 0 <= i < |resp.value| ==>
              var c := r.value.records[i];
              var raw := resp.value[i];
              && c.id == raw.id
              && c.contracts == raw.contracts
              && c.txs == raw.txs
              && c.revenue == IntToDecimal(raw.revenue)
  {
    match resp
    case Err(e) => Err(e)
    case Ok(raws) =>
      var records := seq(|raws|, i requires 0 <= i < |raws| => ToCsr(raws[i]));
      Ok(MakeDataset(records, CsrKey, CsrText(marshal)))
  }

  /** The CSR index agrees with the list: keys are the ids' decimal keys,
      values serialize the last record with that id, and the index is as
      large as the list iff the ids are distinct. */
  lemma CsrIndexAgreesWithList(resp: Result<seq<RawCsr>>, marshal: Marshaller)
    requires resp.Ok?
    ensures var d := GetCsrs(resp, marshal).value;
            && d.index.Keys == KeySet(d.records, CsrKey)
            && (forall k :: k in d.index ==>
                 exists i :: IsLastRecord(d.records, CsrKey, k, i)
                   && d.index[k] == GeneralResultToString(marshal, CsrJson(d.records[i])))
            && |d.index| <= |d.records|
            && (|d.index| == |d.records| <==>
                 forall i, j :: 0 <= i < j < |d.records| ==> d.records[i].id != d.records[j].id)
  {
    var raws := resp.value;
    var records := seq(|raws|, i requires 0 <= i < |raws| => ToCsr(raws[i]));
    var text := CsrText(marshal);
    var d := MakeDataset(records, CsrKey, text);
    assert GetCsrs(resp, marshal).value == d;
    DatasetKeys(records, CsrKey, text);
    DatasetSize(records, CsrKey, text);
    forall k | k in d.index
      ensures exists i :: IsLastRecord(records, CsrKey, k, i)
                && d.index[k] == GeneralResultToString(marshal, CsrJson(records[i]))
    {
      DatasetValues(records, CsrKey, text, k);
    }
    forall i, j | 0 <= i < j < |records|
      ensures CsrKey(records[i]) == CsrKey(records[j]) <==> records[i].id == records[j].id
    {
      Governance.IdKeyFaithful(records[i].id, records[j].id);
    }
  }
}
