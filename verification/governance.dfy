/** The proposals transformer (`GetAllProposals` in
    queryengine/native/native_types.go). Two collaborators are abstract
    parameters: the live tally query (a second remote call, made only for
    proposals in their voting period) and the metadata extractor
    `GetProposalMetadata`, which is not part of this model. */
module Governance {
  import opened Results
  import opened Decimal
  import opened Cosmos
  import opened Json
  import opened Index

  /** Vote counts of a proposal (gov.TallyResult). */
  datatype Tally = Tally(yes: int, abstain: int, no: int, noWithVeto: int)

  /** The Go zero value of gov.TallyResult, whose integers marshal as 0. */
  const ZERO_TALLY: Tally := Tally(0, 0, 0, 0)

  /** gov.ProposalStatus code of an open voting period. */
  const STATUS_VOTING_PERIOD: int := 2

  datatype Metadata = Metadata(title: string, description: string)

  /** A proposal as the governance query service returns it. */
  datatype RawProposal = RawProposal(
    proposalId: Uint64,
    content: Any,
    status: int,
    finalTallyResult: Tally,
    submitTime: Time,
    depositEndTime: Time,
    totalDeposit: seq<Coin>,
    votingStartTime: Time,
    votingEndTime: Time)

  /** The normalized proposal record the engine publishes. */
  datatype Proposal = Proposal(
    proposalId: Uint64,
    typeUrl: string,
    title: string,
    description: string,
    status: string,
    finalVote: Tally,
    submitTime: Time,
    depositEndTime: Time,
    totalDeposit: seq<Coin>,
    votingStartTime: Time,
    votingEndTime: Time)

  /** The remote tally query for one proposal id. */
  type TallyQuery = Uint64 -> Result<Tally>

  /** `GetProposalMetadata`, abstracted. */
  type MetadataExtractor = Any -> Result<Metadata>

  /** gov.ProposalStatus names; an unknown code prints as its number. */
  function ProposalStatusName(code: int): string {
    if code == 0 then "PROPOSAL_STATUS_UNSPECIFIED"
    else if code == 1 then "PROPOSAL_STATUS_DEPOSIT_PERIOD"
    else if code == 2 then "PROPOSAL_STATUS_VOTING_PERIOD"
    else if code == 3 then "PROPOSAL_STATUS_PASSED"
    else if code == 4 then "PROPOSAL_STATUS_REJECTED"
    else if code == 5 then "PROPOSAL_STATUS_FAILED"
    else IntToDecimal(code)
  }

  /** The tally a record carries: during the voting period the live tally
      when that query succeeds and the zero tally when it fails (never the
      embedded one); otherwise the embedded final tally. */
  function SelectTally(p: RawProposal, live: TallyQuery): (t: Tally)
    ensures p.status == STATUS_VOTING_PERIOD && live(p.proposalId).Ok? ==> t == live(p.proposalId).value
    ensures p.status == STATUS_VOTING_PERIOD && live(p.proposalId).Err? ==> t == ZERO_TALLY
    ensures p.status != STATUS_VOTING_PERIOD ==> t == p.finalTallyResult
  {
    if p.status == STATUS_VOTING_PERIOD then
      match live(p.proposalId)
      case Ok(t) => t
      case Err(_) => ZERO_TALLY
    else p.finalTallyResult
  }

  function ToProposal(p: RawProposal, live: TallyQuery, metadata: MetadataExtractor): Proposal {
    var md := match metadata(p.content)
              case Ok(m) => m
              case Err(_) => Metadata("", "");
    Proposal(
      p.proposalId,
      p.content.typeUrl,
      md.title,
      md.description,
      ProposalStatusName(p.status),
      SelectTally(p, live),
      p.submitTime,
      p.depositEndTime,
      p.totalDeposit,
      p.votingStartTime,
      p.votingEndTime)
  }

  /** Map key of an id: `strconv.Itoa(int(id))`, so ids at or above 2^63
      render negative. */
  function IdKey(id: Uint64): string {
    IntToDecimal(Uint64ToInt(id))
  }

  function ProposalKey(p: Proposal): string {
    IdKey(p.proposalId)
  }

  function CoinJson(c: Coin): Json {
    JObject([("denom", JString(c.denom)), ("amount", JString(IntString(c.amount)))])
  }

  function TallyJson(t: Tally): Json {
    JObject([
      ("yes", JString(IntString(t.yes))),
      ("abstain", JString(IntString(t.abstain))),
      ("no", JString(IntString(t.no))),
      ("no_with_veto", JString(IntString(t.noWithVeto)))])
  }

  function TimeJson(t: Time): Json {
    JString(t.rfc3339)
  }

  /** The record under its struct tags; `sdk.Coins` marshals nil as `[]`. */
  function ProposalJson(p: Proposal): Json {
    JObject([
      ("proposal_id", JInt(p.proposalId)),
      ("type_url", JString(p.typeUrl)),
      ("title", JString(p.title)),
      ("description", JString(p.description)),
      ("status", JString(p.status)),
      ("final_vote", TallyJson(p.finalVote)),
      ("submit_time", TimeJson(p.submitTime)),
      ("deposit_end_time", TimeJson(p.depositEndTime)),
      ("total_deposit", ArrayOf(p.totalDeposit, CoinJson)),
      ("voting_start_time", TimeJson(p.votingStartTime)),
      ("voting_end_time", TimeJson(p.votingEndTime))])
  }

  /** The proposal list as `SetJsonToCache` receives it (nil when empty). */
  function ProposalsJson(ps: seq<Proposal>): Json {
    SliceJson(Appended(ps), ProposalJson)
  }

  function ProposalText(marshal: Marshaller): Proposal -> string {
    p => GeneralResultToString(marshal, ProposalJson(p))
  }

  /** `GetAllProposals`: a failed list fetch returns its error and no partial
      output; a failed live-tally fetch or metadata extraction does not
      abort. Every response proposal yields one record, in order, duplicates
      included; a failed metadata extraction leaves title and description
      empty. */
  function GetAllProposals(resp: Result<seq<RawProposal>>, live: TallyQuery, metadata: MetadataExtractor,
                           marshal: Marshaller): (r: Result<Dataset<Proposal>>)
    ensures resp.Err? ==> r == Err(resp.error)
    ensures resp.Ok? ==> r.Ok? && |r.value.records| == |resp.value|
    ensures resp.Ok? ==> forall i :: 0 <= i < |resp.value| ==>
              var p := r.value.records[i];
              var raw := resp.value[i];
              && p.proposalId == raw.proposalId
              && p.typeUrl == raw.content.typeUrl
              && p.status == ProposalStatusName(raw.status)
              && p.finalVote == SelectTally(raw, live)
              && (metadata(raw.content).Err? ==> p.title == "" && p.description == "")
              && (metadata(raw.content).Ok? ==>
                    p.title == metadata(raw.content).value.title
                    && p.description == metadata(raw.content).value.description)
              && p.submitTime == raw.submitTime
              && p.depositEndTime == raw.depositEndTime
              && p.totalDeposit == raw.totalDeposit
              && p.votingStartTime == raw.votingStartTime
              && p.votingEndTime == raw.votingEndTime
  {
    match resp
    case Err(e) => Err(e)
    case Ok(raws) =>
      var records := seq(|raws|, i requires 0 <= i < |raws| => ToProposal(raws[i], live, metadata));
      Ok(MakeDataset(records, ProposalKey, ProposalText(marshal)))
  }

  /** Ids below 2^63 are keyed by their plain decimal rendering; distinct
      64-bit ids always get distinct keys. */
  lemma IdKeyFaithful(a: Uint64, b: Uint64)
    ensures a <= INT64_MAX ==> IdKey(a) == NatToDecimal(a)
    ensures IdKey(a) == IdKey(b) <==> a == b
  {
    if IdKey(a) == IdKey(b) {
      IntToDecimalInjective(Uint64ToInt(a), Uint64ToInt(b));
      Uint64ToIntInjective(a, b);
    }
  }

  /** The proposal index agrees with the list: its keys are exactly the ids'
      decimal keys, each value is the serialization of the last record with
      that id, and it is as large as the list iff the ids are distinct. */
  lemma ProposalIndexAgreesWithList(resp: Result<seq<RawProposal>>, live: TallyQuery,
                                    metadata: MetadataExtractor, marshal: Marshaller)
    requires resp.Ok?
    ensures var d := GetAllProposals(resp, live, metadata, marshal).value;
            && d.index.Keys == KeySet(d.records, ProposalKey)
            && (forall k :: k in d.index ==>
                 exists i :: IsLastRecord(d.records, ProposalKey, k, i)
                   && d.index[k] == GeneralResultToString(marshal, ProposalJson(d.records[i])))
            && |d.index| <= |d.records|
            && (|d.index| == |d.records| <==>
                 forall i, j :: 0 <= i < j < |d.records| ==> d.records[i].proposalId != d.records[j].proposalId)
  {
    var raws := resp.value;
    var records := seq(|raws|, i requires 0 <= i < |raws| => ToProposal(raws[i], live, metadata));
    assert GetAllProposals(resp, live, metadata, marshal).value == MakeDataset(records, ProposalKey, ProposalText(marshal));
    ProposalDatasetAgrees(records, marshal);
  }

  /** The index facts for any proposal records. */
  lemma ProposalDatasetAgrees(records: seq<Proposal>, marshal: Marshaller)
    ensures var index := MakeDataset(records, ProposalKey, ProposalText(marshal)).index;
            && index.Keys == KeySet(records, ProposalKey)
            && |index| <= |records|
            && (|index| == |records| <==>
                 forall i, j :: 0 <= i < j < |records| ==> records[i].proposalId != records[j].proposalId)
    ensures var index := MakeDataset(records, ProposalKey, ProposalText(marshal)).index;
            forall k :: k in index ==>
              exists i :: IsLastRecord(records, ProposalKey, k, i)
                && index[k] == GeneralResultToString(marshal, ProposalJson(records[i]))
  {
    var text := ProposalText(marshal);
    DatasetKeys(records, ProposalKey, text);
    DatasetSize(records, ProposalKey, text);
    ProposalKeysDistinct(records);
    forall k | k in MakeDataset(records, ProposalKey, text).index
      ensures exists i :: IsLastRecord(records, ProposalKey, k, i)
                && MakeDataset(records, ProposalKey, text).index[k] == GeneralResultToString(marshal, ProposalJson(records[i]))
    {
      DatasetValues(records, ProposalKey, text, k);
    }
  }

  /** Proposal keys are distinct exactly when the proposal ids are. */
  lemma ProposalKeysDistinct(records: seq<Proposal>)
    ensures DistinctBy(records, ProposalKey) <==>
              forall i, j :: 0 <= i < j < |records| ==> records[i].proposalId != records[j].proposalId
  {
    forall i, j | 0 <= i < j < |records|
      ensures ProposalKey(records[i]) == ProposalKey(records[j]) <==> records[i].proposalId == records[j].proposalId
    {
      IdKeyFaithful(records[i].proposalId, records[j].proposalId);
    }
  }

  /** The index is empty exactly when the response is. */
  lemma ProposalIndexEmpty(resp: Result<seq<RawProposal>>, live: TallyQuery,
                           metadata: MetadataExtractor, marshal: Marshaller)
    requires resp.Ok?
    ensures |GetAllProposals(resp, live, metadata, marshal).value.index| == 0 <==> |resp.value| == 0
  {
    var raws := resp.value;
    var records := seq(|raws|, i requires 0 <= i < |raws| => ToProposal(raws[i], live, metadata));
    assert GetAllProposals(resp, live, metadata, marshal).value == MakeDataset(records, ProposalKey, ProposalText(marshal));
    DatasetEmpty(records, ProposalKey, ProposalText(marshal));
  }
}
