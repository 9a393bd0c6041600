/** One iteration of the native engine's ticker loop (`StartNativeQueryEngine`
    in queryengine/native/query_native.go) as a state transition of the
    store. The remote answers of the iteration are inputs; a fatal log,
    which ends the process, is a `Fatal` result after which nothing runs. */
module Tick {
  import opened Results
  import opened Json
  import opened Store
  import opened NativeCache
  import opened Config
  import opened Index
  import Apr
  import Staking
  import Governance

  /** What the remote services answer during one iteration. */
  datatype Responses = Responses(
    pool: Result<int>,
    annualProvisions: Result<real>,
    validators: Result<seq<Staking.RawValidator>>,
    proposals: Result<seq<Governance.RawProposal>>,
    liveTally: Governance.TallyQuery,
    metadata: Governance.MetadataExtractor)

  /** Collaborators: the JSON marshaller, the decimal rendering of the APR
      (`sdk.Dec.String`), and the store's failing keys. */
  datatype Env = Env(marshal: Marshaller, aprText: real -> string, faults: Faults)

  /** The store after the iteration and the keys written, in order; a fatal
      log also carries its message and the error it logged. */
  datatype TickResult =
    | Continue(store: Store, written: seq<string>)
    | Fatal(store: Store, written: seq<string>, msg: string, error: string)

  /** The keys of the two dataset steps, in the order they are written. */
  const DATASET_KEYS: seq<string> := [ALL_VALIDATORS, VALIDATOR_MAP, ALL_PROPOSALS, PROPOSAL_MAP]

  /** Every key an iteration writes, in order. */
  const WRITE_ORDER: seq<string> := [STAKING_APR] + DATASET_KEYS

  /** `b` agrees with `a` on every key not in the write log. */
  ghost predicate Untouched(a: Store, b: Store, written: seq<string>) {
    forall k :: k !in written ==> (k in a <==> k in b) && (k in a ==> a[k] == b[k])
  }

  /** The list write then the index write; either failure is fatal and
      stops the iteration there. */
  function PublishDataset(st: Store, written: seq<string>, env: Env, listKey: string, list: Json,
                          mapKey: string, index: map<string, string>, listMsg: string, mapMsg: string): (r: TickResult)
    ensures r.written == written || r.written == written + [listKey] || r.written == written + [listKey, mapKey]
    ensures r.Continue? ==> r.written == written + [listKey, mapKey]
    ensures r.Fatal? ==> |r.written| < |written| + 2
    ensures listKey in env.faults ==> r == Fatal(st, written, listMsg, SET_JSON_ERROR_PREFIX + env.faults[listKey])
    ensures listKey !in env.faults ==> listKey in r.store && r.store[listKey] == Str(Envelope(env.marshal, list))
    ensures listKey !in env.faults ==>
              var listed := SetJsonToCache(st, env.faults, env.marshal, listKey, list).store;
              && (r.Continue? <==> HSet(listed, env.faults, mapKey, index).Stored?)
              && (HSet(listed, env.faults, mapKey, index).Failed? ==>
                    r == Fatal(listed, written + [listKey], mapMsg,
                               SET_MAP_ERROR_PREFIX + HSet(listed, env.faults, mapKey, index).error))
  {
    var wl := SetJsonToCache(st, env.faults, env.marshal, listKey, list);
    if wl.Failed? then
      Fatal(st, written, listMsg, wl.error)
    else
      var wm := SetMapToCache(wl.store, env.faults, mapKey, index);
      if wm.Failed? then
        Fatal(wl.store, written + [listKey], mapMsg, wm.error)
      else
        Continue(wm.store, written + [listKey, mapKey])
  }

  /** A dataset's writes change only the keys they append to the log. */
  lemma PublishDatasetFrame(st: Store, written: seq<string>, env: Env, listKey: string, list: Json,
                            mapKey: string, index: map<string, string>, listMsg: string, mapMsg: string)
    ensures var r := PublishDataset(st, written, env, listKey, list, mapKey, index, listMsg, mapMsg);
            Untouched(st, r.store, r.written[|written|..])
  {
    var wl := SetJsonToCache(st, env.faults, env.marshal, listKey, list);
    if wl.Failed? {
      assert written[|written|..] == [];
    } else {
      var wm := SetMapToCache(wl.store, env.faults, mapKey, index);
      if wm.Failed? {
        assert (written + [listKey])[|written|..] == [listKey];
      } else {
        assert (written + [listKey, mapKey])[|written|..] == [listKey, mapKey];
        SameExceptTrans(st, wl.store, wm.store, {listKey}, {mapKey});
      }
    }
  }

  /** A dataset as its transformer hands it to the loop: the list payload
      and the index. */
  datatype Fetched = Fetched(list: Json, index: map<string, string>)

  /** One dataset step of the loop: what the fetch gave, the list key and
      index key it writes, and the messages of its three fatal logs. */
  datatype Step = Step(fetched: Result<Fetched>, listKey: string, mapKey: string,
                       fetchMsg: string, listMsg: string, mapMsg: string)

  /** The validator step: `GetValidators`, then the two validator keys. */
  function ValidatorStep(resp: Responses, env: Env): Step {
    var got := Staking.GetValidators(resp.validators, env.marshal);
    Step(if got.Err? then Err(got.error) else Ok(Fetched(Staking.ValidatorsJson(got.value.records), got.value.index)),
         ALL_VALIDATORS, VALIDATOR_MAP,
         "failed to get validators", "failed to set validators", "failed to set validator map")
  }

  /** The proposal step: `GetAllProposals`, then the two proposal keys. */
  function ProposalStep(resp: Responses, env: Env): Step {
    var got := Governance.GetAllProposals(resp.proposals, resp.liveTally, resp.metadata, env.marshal);
    Step(if got.Err? then Err(got.error) else Ok(Fetched(Governance.ProposalsJson(got.value.records), got.value.index)),
         ALL_PROPOSALS, PROPOSAL_MAP,
         "failed to get proposals", "failed to set proposals", "failed to set proposal map")
  }

  /** A failed fetch is fatal before anything is written; otherwise the
      dataset is published. */
  function PublishStep(st: Store, written: seq<string>, env: Env, s: Step): (r: TickResult)
    ensures r.written == written || r.written == written + [s.listKey] || r.written == written + [s.listKey, s.mapKey]
    ensures r.Continue? ==> r.written == written + [s.listKey, s.mapKey]
    ensures r.Fatal? ==> |r.written| < |written| + 2
    ensures s.fetched.Err? ==> r == Fatal(st, written, s.fetchMsg, s.fetched.error)
    ensures s.fetched.Ok? && s.listKey in env.faults ==>
              r == Fatal(st, written, s.listMsg, SET_JSON_ERROR_PREFIX + env.faults[s.listKey])
    ensures s.fetched.Ok? && s.listKey !in env.faults ==>
              var listed := SetJsonToCache(st, env.faults, env.marshal, s.listKey, s.fetched.value.list).store;
              && s.listKey in r.store && r.store[s.listKey] == Str(Envelope(env.marshal, s.fetched.value.list))
              && (r.Continue? <==> HSet(listed, env.faults, s.mapKey, s.fetched.value.index).Stored?)
              && (HSet(listed, env.faults, s.mapKey, s.fetched.value.index).Failed? ==>
                    r == Fatal(listed, written + [s.listKey], s.mapMsg,
                               SET_MAP_ERROR_PREFIX + HSet(listed, env.faults, s.mapKey, s.fetched.value.index).error))
  {
    match s.fetched
    case Err(e) => Fatal(st, written, s.fetchMsg, e)
    case Ok(f) => PublishDataset(st, written, env, s.listKey, f.list, s.mapKey, f.index, s.listMsg, s.mapMsg)
  }

  /** A step changes only the keys it appends to the log. */
  lemma PublishStepFrame(st: Store, written: seq<string>, env: Env, s: Step)
    ensures var r := PublishStep(st, written, env, s);
            Untouched(st, r.store, r.written[|written|..])
  {
    match s.fetched
    case Err(_) =>
      assert written[|written|..] == [];
    case Ok(f) =>
      PublishDatasetFrame(st, written, env, s.listKey, f.list, s.mapKey, f.index, s.listMsg, s.mapMsg);
  }

  /** The first dataset step, then the second unless the first was fatal. */
  function PublishAll(st: Store, written: seq<string>, env: Env, a: Step, b: Step): TickResult {
    var v := PublishStep(st, written, env, a);
    if v.Fatal? then v else PublishStep(v.store, v.written, env, b)
  }

  /** The write log of the APR step. */
  function AprLog(w: Write): seq<string> {
    if w.Stored? then [STAKING_APR] else []
  }

  /** One iteration. A failed APR fetch skips the rest of the iteration; a
      failed APR write is only logged; every later fetch or write failure is
      fatal. */
  function Tick(st: Store, resp: Responses, env: Env): (r: TickResult)
    ensures Apr.GetStakingApr(resp.pool, resp.annualProvisions).Err? ==> r == Continue(st, [])
  {
    match Apr.GetStakingApr(resp.pool, resp.annualProvisions)
    case Err(_) => Continue(st, [])
    case Ok(apr) =>
      var w := AfterApr(st, resp, env);
      PublishAll(w.store, AprLog(w), env, ValidatorStep(resp, env), ProposalStep(resp, env))
  }

  /** The store after the APR step of an iteration whose APR fetch succeeded. */
  function AfterApr(st: Store, resp: Responses, env: Env): (w: Write)
    requires Apr.GetStakingApr(resp.pool, resp.annualProvisions).Ok?
  {
    SetJsonToCache(st, env.faults, env.marshal, STAKING_APR,
                   JString(env.aprText(Apr.GetStakingApr(resp.pool, resp.annualProvisions).value)))
  }

  /** The keys of two steps, in the order they are written. */
  function StepKeys(a: Step, b: Step): seq<string> {
    [a.listKey, a.mapKey, b.listKey, b.mapKey]
  }

  /** The two dataset steps append a prefix of their keys to the log, and
      all of them unless a fatal error stopped the iteration. */
  lemma PublishAllLog(st: Store, written: seq<string>, env: Env, a: Step, b: Step)
    ensures |written| <= |PublishAll(st, written, env, a, b).written|
    ensures var r := PublishAll(st, written, env, a, b);
            && r.written == written + r.written[|written|..]
            && r.written[|written|..] <= StepKeys(a, b)
            && (r.Continue? ==> r.written[|written|..] == StepKeys(a, b))
  {
    var v := PublishStep(st, written, env, a);
    var r := PublishAll(st, written, env, a, b);
    StepLogs(written, v.written, r.written, a.listKey, a.mapKey, b.listKey, b.mapKey, v.Continue?, r.Continue?);
  }

  /** The log arithmetic of two steps: the first appends a prefix of
      `keys[..2]`, the second, which runs only after the first completed,
      a prefix of `keys[2..]`. */
  lemma StepLogs(written: seq<string>, mid: seq<string>, last: seq<string>,
                 k1: string, k2: string, k3: string, k4: string, midDone: bool, lastDone: bool)
    requires mid == written || mid == written + [k1] || mid == written + [k1, k2]
    requires midDone ==> mid == written + [k1, k2]
    requires !midDone ==> last == mid && !lastDone
    requires midDone ==> last == mid || last == mid + [k3] || last == mid + [k3, k4]
    requires lastDone ==> last == mid + [k3, k4]
    ensures |written| <= |last| && last == written + last[|written|..]
    ensures last[|written|..] <= [k1, k2, k3, k4]
    ensures lastDone ==> last[|written|..] == [k1, k2, k3, k4]
  {
    var keys := [k1, k2, k3, k4];
    var k :| k in {0, 1, 2, 3, 4} && last == written + keys[..k];
    assert last[|written|..] == keys[..k];
  }

  /** Keys are written in the fixed order, possibly without the APR key at
      the front, and an iteration that is not cut short by a fatal error
      writes either nothing (the APR fetch failed) or every dataset key. */
  lemma TickWriteOrder(st: Store, resp: Responses, env: Env)
    ensures var r := Tick(st, resp, env);
            && (r.written <= WRITE_ORDER || r.written <= DATASET_KEYS)
            && (r.Continue? ==> r.written == [] || r.written == WRITE_ORDER || r.written == DATASET_KEYS)
  {
    if Apr.GetStakingApr(resp.pool, resp.annualProvisions).Ok? {
      var w := AfterApr(st, resp, env);
      var a, b := ValidatorStep(resp, env), ProposalStep(resp, env);
      var r := PublishAll(w.store, AprLog(w), env, a, b);
      assert Tick(st, resp, env) == r;
      assert StepKeys(a, b) == DATASET_KEYS;
      PublishAllLog(w.store, AprLog(w), env, a, b);
      HeadThenLog(AprLog(w), r.written[|AprLog(w)|..], STAKING_APR, DATASET_KEYS, r.Continue?);
    }
  }

  /** A log that starts with at most the key `x` and continues with a
      prefix of `keys` is a prefix of `[x] + keys` or of `keys`. */
  lemma HeadThenLog(head: seq<string>, log: seq<string>, x: string, keys: seq<string>, full: bool)
    requires head == [] || head == [x]
    requires log <= keys && (full ==> log == keys)
    ensures head + log <= [x] + keys || head + log <= keys
    ensures full ==> head + log == [x] + keys || head + log == keys
  {
    if head == [x] {
      assert log == keys[..|log|];
      assert head + log == ([x] + keys)[..1 + |log|];
    }
  }

  lemma UntouchedTrans(a: Store, b: Store, c: Store, log1: seq<string>, log2: seq<string>)
    requires Untouched(a, b, log1) && Untouched(b, c, log2)
    ensures Untouched(a, c, log1 + log2)
  {
    forall k | k !in log1 + log2
      ensures (k in a <==> k in c) && (k in a ==> a[k] == c[k])
    {
      assert k !in log1 && k !in log2;
    }
  }

  /** The dataset steps change only the keys they append to the log. */
  lemma PublishAllFrame(st: Store, written: seq<string>, env: Env, a: Step, b: Step)
    ensures var r := PublishAll(st, written, env, a, b);
            && |written| <= |r.written| && r.written == written + r.written[|written|..]
            && Untouched(st, r.store, r.written[|written|..])
  {
    var v := PublishStep(st, written, env, a);
    PublishStepFrame(st, written, env, a);
    StepExtends(written, v.written, a.listKey, a.mapKey);
    if v.Continue? {
      var p := PublishStep(v.store, v.written, env, b);
      PublishStepFrame(v.store, v.written, env, b);
      StepExtends(v.written, p.written, b.listKey, b.mapKey);
      ChainFrames(st, v.store, p.store, written, v.written, p.written);
    }
  }

  /** A step's log extends the log before it. */
  lemma StepExtends(written: seq<string>, log: seq<string>, k1: string, k2: string)
    requires log == written || log == written + [k1] || log == written + [k1, k2]
    ensures |written| <= |log| && log == written + log[|written|..]
  {
  }

  /** Two steps that each change only what they append to the log change
      only what they append together. */
  lemma ChainFrames(a: Store, b: Store, c: Store, log0: seq<string>, log1: seq<string>, log2: seq<string>)
    requires |log0| <= |log1| <= |log2|
    requires log1 == log0 + log1[|log0|..] && log2 == log1 + log2[|log1|..]
    requires Untouched(a, b, log1[|log0|..]) && Untouched(b, c, log2[|log1|..])
    ensures log2 == log0 + log2[|log0|..]
    ensures Untouched(a, c, log2[|log0|..])
  {
    var first := log1[|log0|..];
    var second := log2[|log1|..];
    assert log2 == log0 + (first + second);
    assert log2[|log0|..] == first + second;
    UntouchedTrans(a, b, c, first, second);
  }

  /** Only keys in the write log change: everything else, the CSR keys and
      the block number included, keeps its value from the previous
      iteration. */
  lemma TickFrame(st: Store, resp: Responses, env: Env)
    ensures Untouched(st, Tick(st, resp, env).store, Tick(st, resp, env).written)
  {
    if Apr.GetStakingApr(resp.pool, resp.annualProvisions).Ok? {
      var w := AfterApr(st, resp, env);
      var a, b := ValidatorStep(resp, env), ProposalStep(resp, env);
      assert Untouched(st, w.store, AprLog(w));
      var r := PublishAll(w.store, AprLog(w), env, a, b);
      assert Tick(st, resp, env) == r;
      PublishAllFrame(w.store, AprLog(w), env, a, b);
      UntouchedTrans(st, w.store, r.store, AprLog(w), r.written[|AprLog(w)|..]);
    }
  }

  /** Both writes of a dataset succeed when neither key is failing, the
      index has an entry, and the index key does not hold a string. The
      list key then holds the envelope, and the index key's hash holds every
      index entry plus the fields of earlier writes the index does not
      mention. */
  lemma PublishDatasetSucceeds(st: Store, written: seq<string>, env: Env, listKey: string, list: Json,
                               mapKey: string, index: map<string, string>, listMsg: string, mapMsg: string)
    requires listKey != mapKey && listKey !in env.faults && mapKey !in env.faults
    requires |index| > 0 && (mapKey in st ==> st[mapKey].Hash?)
    ensures var r := PublishDataset(st, written, env, listKey, list, mapKey, index, listMsg, mapMsg);
            && r.Continue? && r.written == written + [listKey, mapKey]
            && listKey in r.store && r.store[listKey] == Str(Envelope(env.marshal, list))
            && mapKey in r.store && r.store[mapKey].Hash?
            && (forall f :: f in index ==> f in r.store[mapKey].fields && r.store[mapKey].fields[f] == index[f])
            && (forall f :: f in HashFields(st, mapKey) && f !in index ==>
                  f in r.store[mapKey].fields && r.store[mapKey].fields[f] == HashFields(st, mapKey)[f])
  {
    var wl := SetJsonToCache(st, env.faults, env.marshal, listKey, list);
    assert HashFields(wl.store, mapKey) == HashFields(st, mapKey);
  }

  /** A step can complete: the fetch succeeded with a non-empty index, its
      two keys differ and accept writes, and the index key does not hold a
      plain string. */
  ghost predicate Publishable(st: Store, env: Env, s: Step) {
    && s.fetched.Ok? && |s.fetched.value.index| > 0
    && s.listKey != s.mapKey && s.listKey !in env.faults && s.mapKey !in env.faults
    && (s.mapKey in st ==> st[s.mapKey].Hash?)
  }

  /** After a completed step, its list key holds this iteration's envelope
      and its index key's hash holds every index entry, plus every field of
      the earlier hash `prev` that the index does not mention. */
  ghost predicate Published(prev: map<string, string>, after: Store, env: Env, s: Step) {
    && s.fetched.Ok?
    && s.listKey in after && after[s.listKey] == Str(Envelope(env.marshal, s.fetched.value.list))
    && s.mapKey in after && after[s.mapKey].Hash?
    && (forall f :: f in s.fetched.value.index ==>
          f in after[s.mapKey].fields && after[s.mapKey].fields[f] == s.fetched.value.index[f])
    && (forall f :: f in prev && f !in s.fetched.value.index ==>
          f in after[s.mapKey].fields && after[s.mapKey].fields[f] == prev[f])
  }

  /** A publishable step appends its two keys and publishes its dataset. */
  lemma PublishStepCompletes(st: Store, written: seq<string>, env: Env, s: Step)
    requires Publishable(st, env, s)
    ensures var r := PublishStep(st, written, env, s);
            && r.Continue? && r.written == written + [s.listKey, s.mapKey]
            && Published(HashFields(st, s.mapKey), r.store, env, s)
  {
    var f := s.fetched.value;
    PublishDatasetSucceeds(st, written, env, s.listKey, f.list, s.mapKey, f.index, s.listMsg, s.mapMsg);
  }

  /** What a step published survives later writes to other keys. */
  lemma PublishedKept(prev: map<string, string>, mid: Store, after: Store, env: Env, s: Step, log: seq<string>)
    requires Published(prev, mid, env, s) && Untouched(mid, after, log)
    requires s.listKey !in log && s.mapKey !in log
    ensures Published(prev, after, env, s)
  {
    assert after[s.listKey] == mid[s.listKey];
    assert after[s.mapKey] == mid[s.mapKey];
  }

  /** The four keys of two steps are pairwise distinct. */
  ghost predicate DisjointSteps(a: Step, b: Step) {
    && a.listKey != b.listKey && a.listKey != b.mapKey
    && a.mapKey != b.listKey && a.mapKey != b.mapKey
  }

  /** After the first of two publishable steps on distinct keys completes,
      the second is still publishable and its index key is unchanged. */
  lemma FirstStepCompletes(st: Store, written: seq<string>, env: Env, a: Step, b: Step)
    requires Publishable(st, env, a) && Publishable(st, env, b) && DisjointSteps(a, b)
    ensures var v := PublishStep(st, written, env, a);
            && v.Continue? && v.written == written + [a.listKey, a.mapKey]
            && Published(HashFields(st, a.mapKey), v.store, env, a)
            && Publishable(v.store, env, b)
            && HashFields(v.store, b.mapKey) == HashFields(st, b.mapKey)
  {
    PublishStepCompletes(st, written, env, a);
    PublishStepFrame(st, written, env, a);
    var v := PublishStep(st, written, env, a);
    assert v.written[|written|..] == [a.listKey, a.mapKey];
    assert b.mapKey !in v.written[|written|..];
  }

  /** Two publishable steps on distinct keys both complete, and each one's
      dataset is left in the store. */
  lemma PublishAllCompletes(st: Store, written: seq<string>, env: Env, a: Step, b: Step)
    requires Publishable(st, env, a) && Publishable(st, env, b) && DisjointSteps(a, b)
    ensures var r := PublishAll(st, written, env, a, b);
            && r.Continue? && r.written == written + StepKeys(a, b)
            && Published(HashFields(st, a.mapKey), r.store, env, a)
            && Published(HashFields(st, b.mapKey), r.store, env, b)
  {
    FirstStepCompletes(st, written, env, a, b);
    var v := PublishStep(st, written, env, a);
    PublishStepCompletes(v.store, v.written, env, b);
    PublishStepFrame(v.store, v.written, env, b);
    var p := PublishStep(v.store, v.written, env, b);
    assert p.written[|v.written|..] == [b.listKey, b.mapKey];
    PublishedKept(HashFields(st, a.mapKey), v.store, p.store, env, a, [b.listKey, b.mapKey]);
    StepLogs(written, v.written, p.written, a.listKey, a.mapKey, b.listKey, b.mapKey, true, true);
  }

  /** The validator step can complete: the fetch answers with at least one
      validator, both keys accept writes, and the index key does not hold a
      plain string. */
  ghost predicate ValidatorsPublishable(st: Store, resp: Responses, env: Env) {
    && resp.validators.Ok? && |resp.validators.value| > 0
    && ALL_VALIDATORS !in env.faults && VALIDATOR_MAP !in env.faults
    && (VALIDATOR_MAP in st ==> st[VALIDATOR_MAP].Hash?)
  }

  /** The same for the proposal step. */
  ghost predicate ProposalsPublishable(st: Store, resp: Responses, env: Env) {
    && resp.proposals.Ok? && |resp.proposals.value| > 0
    && ALL_PROPOSALS !in env.faults && PROPOSAL_MAP !in env.faults
    && (PROPOSAL_MAP in st ==> st[PROPOSAL_MAP].Hash?)
  }

  /** A validator response with at least one validator makes a publishable
      step whose payload is the transformer's list and index. */
  lemma ValidatorStepPublishable(st: Store, resp: Responses, env: Env)
    requires ValidatorsPublishable(st, resp, env)
    ensures Publishable(st, env, ValidatorStep(resp, env))
    ensures var d := Staking.GetValidators(resp.validators, env.marshal).value;
            ValidatorStep(resp, env).fetched.value == Fetched(Staking.ValidatorsJson(d.records), d.index)
  {
    NativeKeysDistinct();
    Staking.ValidatorIndexEmpty(resp.validators, env.marshal);
  }

  /** The same for proposals. */
  lemma ProposalStepPublishable(st: Store, resp: Responses, env: Env)
    requires ProposalsPublishable(st, resp, env)
    ensures Publishable(st, env, ProposalStep(resp, env))
    ensures var d := Governance.GetAllProposals(resp.proposals, resp.liveTally, resp.metadata, env.marshal).value;
            ProposalStep(resp, env).fetched.value == Fetched(Governance.ProposalsJson(d.records), d.index)
  {
    NativeKeysDistinct();
    Governance.ProposalIndexEmpty(resp.proposals, resp.liveTally, resp.metadata, env.marshal);
  }

  /** The APR step writes at most the APR key, so a dataset step that was
      publishable before it still is. */
  lemma AfterAprKeepsDatasets(st: Store, resp: Responses, env: Env)
    requires Apr.GetStakingApr(resp.pool, resp.annualProvisions).Ok?
    ensures var w := AfterApr(st, resp, env);
            && (VALIDATOR_MAP in w.store <==> VALIDATOR_MAP in st)
            && (VALIDATOR_MAP in st ==> w.store[VALIDATOR_MAP] == st[VALIDATOR_MAP])
            && (PROPOSAL_MAP in w.store <==> PROPOSAL_MAP in st)
            && (PROPOSAL_MAP in st ==> w.store[PROPOSAL_MAP] == st[PROPOSAL_MAP])
            && (ValidatorsPublishable(st, resp, env) ==> ValidatorsPublishable(w.store, resp, env))
            && (ProposalsPublishable(st, resp, env) ==> ProposalsPublishable(w.store, resp, env))
  {
    NativeKeysDistinct();
  }

  /** When the APR is fetched and both dataset steps can complete, the
      iteration completes: every key is written in order, except that a
      rejected APR write, which is only logged, leaves the APR key out; and
      both datasets are left in the store. */
  lemma TickCompletes(st: Store, resp: Responses, env: Env)
    requires Apr.GetStakingApr(resp.pool, resp.annualProvisions).Ok?
    requires ValidatorsPublishable(st, resp, env) && ProposalsPublishable(st, resp, env)
    ensures Tick(st, resp, env).Continue?
    ensures STAKING_APR !in env.faults ==> Tick(st, resp, env).written == WRITE_ORDER
    ensures STAKING_APR in env.faults ==> Tick(st, resp, env).written == DATASET_KEYS
    ensures Published(HashFields(st, VALIDATOR_MAP), Tick(st, resp, env).store, env, ValidatorStep(resp, env))
    ensures Published(HashFields(st, PROPOSAL_MAP), Tick(st, resp, env).store, env, ProposalStep(resp, env))
  {
    NativeKeysDistinct();
    var w := AfterApr(st, resp, env);
    var a, b := ValidatorStep(resp, env), ProposalStep(resp, env);
    assert Tick(st, resp, env) == PublishAll(w.store, AprLog(w), env, a, b);
    AfterAprKeepsDatasets(st, resp, env);
    ValidatorStepPublishable(w.store, resp, env);
    ProposalStepPublishable(w.store, resp, env);
    PublishAllCompletes(w.store, AprLog(w), env, a, b);
    assert HashFields(w.store, VALIDATOR_MAP) == HashFields(st, VALIDATOR_MAP);
    assert HashFields(w.store, PROPOSAL_MAP) == HashFields(st, PROPOSAL_MAP);
    assert StepKeys(a, b) == DATASET_KEYS;
  }

  /** A validator fetch failure is fatal right after the APR step: the
      logged error is the fetch error and nothing else is written. */
  lemma TickValidatorFetchFatal(st: Store, resp: Responses, env: Env)
    requires Apr.GetStakingApr(resp.pool, resp.annualProvisions).Ok? && resp.validators.Err?
    ensures var r := Tick(st, resp, env);
            && r == Fatal(AfterApr(st, resp, env).store, r.written, "failed to get validators", resp.validators.error)
            && (r.written == [] || r.written == [STAKING_APR])
  {
  }

  /** An empty validator response is fatal too: the (null) list is stored,
      but the empty index makes the hash write fail for lack of fields. */
  lemma TickEmptyValidatorsFatal(st: Store, resp: Responses, env: Env)
    requires Apr.GetStakingApr(resp.pool, resp.annualProvisions).Ok? && resp.validators == Ok([])
    requires ALL_VALIDATORS !in env.faults && VALIDATOR_MAP !in env.faults
    ensures var r := Tick(st, resp, env);
            && r.Fatal? && r.msg == "failed to set validator map"
            && r.error == SET_MAP_ERROR_PREFIX + HSET_ARITY_ERROR
            && r.written[|r.written| - 1] == ALL_VALIDATORS
            && r.store[ALL_VALIDATORS] == Str(Envelope(env.marshal, JNull))
  {
    NativeKeysDistinct();
    Staking.ValidatorIndexEmpty(resp.validators, env.marshal);
  }

  /** A proposal fetch failure is fatal after the validators are published;
      the proposal keys keep their previous values. */
  lemma TickProposalFetchFatal(st: Store, resp: Responses, env: Env)
    requires Apr.GetStakingApr(resp.pool, resp.annualProvisions).Ok?
    requires ValidatorsPublishable(st, resp, env) && resp.proposals.Err?
    ensures var r := Tick(st, resp, env);
            && r.Fatal? && r.msg == "failed to get proposals" && r.error == resp.proposals.error
            && r.written[|r.written| - 2..] == [ALL_VALIDATORS, VALIDATOR_MAP]
  {
    var w := AfterApr(st, resp, env);
    var a, b := ValidatorStep(resp, env), ProposalStep(resp, env);
    ValidatorsDone(st, resp, env);
    assert b.fetched == Err(resp.proposals.error) && b.fetchMsg == "failed to get proposals";
    SecondFetchFault(w.store, AprLog(w), env, a, b);
  }

  /** Index entries are never removed: an entry for a validator that has
      left the response stays in the hash, with its old value, after an
      iteration that refreshed everything else. */
  lemma TickKeepsStaleValidators(st: Store, resp: Responses, env: Env)
    requires Apr.GetStakingApr(resp.pool, resp.annualProvisions).Ok?
    requires ValidatorsPublishable(st, resp, env) && ProposalsPublishable(st, resp, env)
    ensures var r := Tick(st, resp, env);
            var d := Staking.GetValidators(resp.validators, env.marshal).value;
            && VALIDATOR_MAP in r.store && r.store[VALIDATOR_MAP].Hash?
            && forall f :: f in HashFields(st, VALIDATOR_MAP) && f !in d.index ==>
              f in r.store[VALIDATOR_MAP].fields && r.store[VALIDATOR_MAP].fields[f] == HashFields(st, VALIDATOR_MAP)[f]
  {
    TickCompletes(st, resp, env);
    ValidatorStepPublishable(st, resp, env);
  }

  /** The same for proposals: entries of proposals no longer listed survive. */
  lemma TickKeepsStaleProposals(st: Store, resp: Responses, env: Env)
    requires Apr.GetStakingApr(resp.pool, resp.annualProvisions).Ok?
    requires ValidatorsPublishable(st, resp, env) && ProposalsPublishable(st, resp, env)
    ensures var r := Tick(st, resp, env);
            var d := Governance.GetAllProposals(resp.proposals, resp.liveTally, resp.metadata, env.marshal).value;
            && PROPOSAL_MAP in r.store && r.store[PROPOSAL_MAP].Hash?
            && forall f :: f in HashFields(st, PROPOSAL_MAP) && f !in d.index ==>
              f in r.store[PROPOSAL_MAP].fields && r.store[PROPOSAL_MAP].fields[f] == HashFields(st, PROPOSAL_MAP)[f]
  {
    TickCompletes(st, resp, env);
    ProposalStepPublishable(st, resp, env);
  }

  /** A rejected write of the validator list is fatal right after the APR
      step, with the store's error behind the list writer's prefix. */
  lemma TickValidatorListFault(st: Store, resp: Responses, env: Env)
    requires Apr.GetStakingApr(resp.pool, resp.annualProvisions).Ok? && resp.validators.Ok?
    requires ALL_VALIDATORS in env.faults
    ensures var r := Tick(st, resp, env);
            && r == Fatal(AfterApr(st, resp, env).store, r.written, "failed to set validators",
                          SET_JSON_ERROR_PREFIX + env.faults[ALL_VALIDATORS])
            && (r.written == [] || r.written == [STAKING_APR])
  {
  }

  /** A rejected write of the validator index is fatal after the list is
      stored, with the store's error behind the index writer's prefix. */
  lemma TickValidatorMapFault(st: Store, resp: Responses, env: Env)
    requires Apr.GetStakingApr(resp.pool, resp.annualProvisions).Ok? && resp.validators.Ok?
    requires ALL_VALIDATORS !in env.faults && VALIDATOR_MAP in env.faults
    ensures var r := Tick(st, resp, env);
            var d := Staking.GetValidators(resp.validators, env.marshal).value;
            && r.Fatal? && r.msg == "failed to set validator map"
            && r.error == SET_MAP_ERROR_PREFIX + env.faults[VALIDATOR_MAP]
            && (r.written == [ALL_VALIDATORS] || r.written == [STAKING_APR, ALL_VALIDATORS])
            && ALL_VALIDATORS in r.store
            && r.store[ALL_VALIDATORS] == Str(Envelope(env.marshal, Staking.ValidatorsJson(d.records)))
  {
    NativeKeysDistinct();
  }

  /** A publishable validator step completes after the APR step, so the
      iteration goes on to the proposal step with both validator keys
      logged. */
  lemma ValidatorsDone(st: Store, resp: Responses, env: Env)
    requires Apr.GetStakingApr(resp.pool, resp.annualProvisions).Ok?
    requires ValidatorsPublishable(st, resp, env)
    ensures var w := AfterApr(st, resp, env);
            var a := ValidatorStep(resp, env);
            var v := PublishStep(w.store, AprLog(w), env, a);
            && Tick(st, resp, env) == PublishAll(w.store, AprLog(w), env, a, ProposalStep(resp, env))
            && v.Continue? && v.written == AprLog(w) + [ALL_VALIDATORS, VALIDATOR_MAP]
            && (AprLog(w) == [] || AprLog(w) == [STAKING_APR])
  {
    var w := AfterApr(st, resp, env);
    var a, b := ValidatorStep(resp, env), ProposalStep(resp, env);
    assert Tick(st, resp, env) == PublishAll(w.store, AprLog(w), env, a, b);
    AfterAprKeepsDatasets(st, resp, env);
    ValidatorStepPublishable(w.store, resp, env);
    PublishStepCompletes(w.store, AprLog(w), env, a);
  }

  /** When the first step completes, a failed fetch of the second step is
      fatal with that step's fetch message and error. */
  lemma SecondFetchFault(st: Store, written: seq<string>, env: Env, a: Step, b: Step)
    requires PublishStep(st, written, env, a).Continue?
    requires b.fetched.Err?
    ensures var v := PublishStep(st, written, env, a);
            PublishAll(st, written, env, a, b) == Fatal(v.store, v.written, b.fetchMsg, b.fetched.error)
  {
  }

  /** When the first step completes, a rejected list write of the second
      step is fatal with that step's list message, and nothing more is
      logged. */
  lemma SecondListFault(st: Store, written: seq<string>, env: Env, a: Step, b: Step)
    requires PublishStep(st, written, env, a).Continue?
    requires b.fetched.Ok? && b.listKey in env.faults
    ensures var v := PublishStep(st, written, env, a);
            PublishAll(st, written, env, a, b) ==
              Fatal(v.store, v.written, b.listMsg, SET_JSON_ERROR_PREFIX + env.faults[b.listKey])
  {
  }

  /** When the first step completes, a rejected index write of the second
      step is fatal with its index message after its list is stored. */
  lemma SecondMapFault(st: Store, written: seq<string>, env: Env, a: Step, b: Step)
    requires PublishStep(st, written, env, a).Continue?
    requires b.fetched.Ok? && b.listKey !in env.faults && b.mapKey in env.faults
    ensures var v := PublishStep(st, written, env, a);
            var r := PublishAll(st, written, env, a, b);
            && r.Fatal? && r.msg == b.mapMsg && r.error == SET_MAP_ERROR_PREFIX + env.faults[b.mapKey]
            && r.written == v.written + [b.listKey]
            && b.listKey in r.store && r.store[b.listKey] == Str(Envelope(env.marshal, b.fetched.value.list))
  {
  }

  /** The proposal step of a successful fetch carries the transformer's
      list and index. */
  lemma ProposalStepFetched(resp: Responses, env: Env)
    requires resp.proposals.Ok?
    ensures var s := ProposalStep(resp, env);
            var d := Governance.GetAllProposals(resp.proposals, resp.liveTally, resp.metadata, env.marshal).value;
            && s.fetched == Ok(Fetched(Governance.ProposalsJson(d.records), d.index))
            && s.listKey == ALL_PROPOSALS && s.mapKey == PROPOSAL_MAP
            && s.listMsg == "failed to set proposals" && s.mapMsg == "failed to set proposal map"
  {
  }

  /** A rejected write of the proposal list is fatal once the validators
      are published. */
  lemma TickProposalListFault(st: Store, resp: Responses, env: Env)
    requires Apr.GetStakingApr(resp.pool, resp.annualProvisions).Ok?
    requires ValidatorsPublishable(st, resp, env) && resp.proposals.Ok?
    requires ALL_PROPOSALS in env.faults
    ensures var r := Tick(st, resp, env);
            && r.Fatal? && r.msg == "failed to set proposals"
            && r.error == SET_JSON_ERROR_PREFIX + env.faults[ALL_PROPOSALS]
            && (r.written == [ALL_VALIDATORS, VALIDATOR_MAP] || r.written == [STAKING_APR, ALL_VALIDATORS, VALIDATOR_MAP])
  {
    var w := AfterApr(st, resp, env);
    var a, b := ValidatorStep(resp, env), ProposalStep(resp, env);
    ValidatorsDone(st, resp, env);
    ProposalStepFetched(resp, env);
    SecondListFault(w.store, AprLog(w), env, a, b);
  }

  /** A rejected write of the proposal index is fatal after the proposal
      list is stored. */
  lemma TickProposalMapFault(st: Store, resp: Responses, env: Env)
    requires Apr.GetStakingApr(resp.pool, resp.annualProvisions).Ok?
    requires ValidatorsPublishable(st, resp, env) && resp.proposals.Ok?
    requires ALL_PROPOSALS !in env.faults && PROPOSAL_MAP in env.faults
    ensures var r := Tick(st, resp, env);
            var d := Governance.GetAllProposals(resp.proposals, resp.liveTally, resp.metadata, env.marshal).value;
            && r.Fatal? && r.msg == "failed to set proposal map"
            && r.error == SET_MAP_ERROR_PREFIX + env.faults[PROPOSAL_MAP]
            && (r.written == [ALL_VALIDATORS, VALIDATOR_MAP, ALL_PROPOSALS]
                || r.written == [STAKING_APR, ALL_VALIDATORS, VALIDATOR_MAP, ALL_PROPOSALS])
            && ALL_PROPOSALS in r.store
            && r.store[ALL_PROPOSALS] == Str(Envelope(env.marshal, Governance.ProposalsJson(d.records)))
  {
    var w := AfterApr(st, resp, env);
    var a, b := ValidatorStep(resp, env), ProposalStep(resp, env);
    ValidatorsDone(st, resp, env);
    ProposalStepFetched(resp, env);
    SecondMapFault(w.store, AprLog(w), env, a, b);
    var log := PublishStep(w.store, AprLog(w), env, a).written;
    LogThenKey(AprLog(w), log, Tick(st, resp, env).written, STAKING_APR, ALL_VALIDATORS, VALIDATOR_MAP, ALL_PROPOSALS);
  }

  /** The log after an optional head key, two keys of a completed step and
      one more key. */
  lemma LogThenKey(head: seq<string>, log: seq<string>, last: seq<string>, h: string, x: string, y: string, z: string)
    requires head == [] || head == [h]
    requires log == head + [x, y] && last == log + [z]
    ensures last == [x, y, z] || last == [h, x, y, z]
  {
  }

  /** An accepted APR write leaves the rendered APR, in its envelope, under
      the APR key for the rest of the iteration, whatever happens later. */
  lemma TickStoresApr(st: Store, resp: Responses, env: Env)
    requires Apr.GetStakingApr(resp.pool, resp.annualProvisions).Ok? && STAKING_APR !in env.faults
    ensures var r := Tick(st, resp, env);
            var apr := Apr.GetStakingApr(resp.pool, resp.annualProvisions).value;
            && |r.written| > 0 && r.written[0] == STAKING_APR
            && STAKING_APR in r.store
            && r.store[STAKING_APR] == Str(Envelope(env.marshal, JString(env.aprText(apr))))
  {
    NativeKeysDistinct();
    var w := AfterApr(st, resp, env);
    var a, b := ValidatorStep(resp, env), ProposalStep(resp, env);
    var r := PublishAll(w.store, AprLog(w), env, a, b);
    assert Tick(st, resp, env) == r;
    assert AprLog(w) == [STAKING_APR];
    PublishAllLog(w.store, AprLog(w), env, a, b);
    PublishAllFrame(w.store, AprLog(w), env, a, b);
    assert StepKeys(a, b) == DATASET_KEYS;
    NotInPrefix(STAKING_APR, r.written[1..], DATASET_KEYS);
  }

  lemma NotInPrefix(k: string, log: seq<string>, order: seq<string>)
    requires log <= order && k !in order
    ensures k !in log
  {
    assert log == order[..|log|];
  }

  /** The CSR keys are never written by an iteration: they keep whatever
      value they had, since the CSR step is disabled in the loop. */
  lemma TickLeavesCsrKeys(st: Store, resp: Responses, env: Env)
    ensures var r := Tick(st, resp, env);
            && ALL_CSRS !in r.written && CSR_MAP !in r.written
            && (ALL_CSRS in st <==> ALL_CSRS in r.store) && (ALL_CSRS in st ==> r.store[ALL_CSRS] == st[ALL_CSRS])
            && (CSR_MAP in st <==> CSR_MAP in r.store) && (CSR_MAP in st ==> r.store[CSR_MAP] == st[CSR_MAP])
  {
    var r := Tick(st, resp, env);
    NativeKeysDistinct();
    TickWriteOrder(st, resp, env);
    TickFrame(st, resp, env);
    var order := if r.written <= WRITE_ORDER then WRITE_ORDER else DATASET_KEYS;
    assert ALL_CSRS !in order && CSR_MAP !in order;
    NotInPrefix(ALL_CSRS, r.written, order);
    NotInPrefix(CSR_MAP, r.written, order);
  }
}
