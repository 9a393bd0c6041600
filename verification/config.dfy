/** Configuration the core consumes (config/config.go): the cache key names,
    the network-dependent file choice, the order of contract calls, and the
    rotation through backup RPC endpoints. Environment reads and client
    dialing are left out; their results are parameters. */
module Config {
  import opened Strings

  const BLOCK_NUMBER: string := "BLOCK_NUMBER"
  const STAKING_APR: string := "STAKING_APR"
  const ALL_VALIDATORS: string := "ALL_VALIDATORS"
  const VALIDATOR_MAP: string := "VALIDATOR_MAP"
  const ALL_CSRS: string := "ALL_CSRS"
  const CSR_MAP: string := "CSR_MAP"
  const ALL_PROPOSALS: string := "ALL_PROPOSALS"
  const PROPOSAL_MAP: string := "PROPOSAL_MAP"
  const ALL_PROPOSALS_HTTP: string := "ALL_PROPOSALS_HTTP"
  const PAIRS: string := "PAIRS"
  const PROCESSED_PAIRS: string := "PROCESSED_PAIRS"
  const PROCESSED_PAIRS_MAP: string := "PROCESSED_PAIRS_MAP"
  const CTOKENS: string := "CTOKENS"
  const PROCESSED_CTOKENS: string := "PROCESSED_CTOKENS"
  const PROCESSED_CTOKENS_MAP: string := "PROCESSED_CTOKENS_MAP"

  /** The keys the native engine writes, and the CSR keys it leaves alone,
      are pairwise distinct, so no write clobbers another key's value. */
  lemma NativeKeysDistinct()
    ensures STAKING_APR !in [ALL_VALIDATORS, VALIDATOR_MAP, ALL_PROPOSALS, PROPOSAL_MAP, ALL_CSRS, CSR_MAP]
    ensures ALL_VALIDATORS !in [VALIDATOR_MAP, ALL_PROPOSALS, PROPOSAL_MAP, ALL_CSRS, CSR_MAP]
    ensures VALIDATOR_MAP !in [ALL_PROPOSALS, PROPOSAL_MAP, ALL_CSRS, CSR_MAP]
    ensures ALL_PROPOSALS !in [PROPOSAL_MAP, ALL_CSRS, CSR_MAP]
    ensures PROPOSAL_MAP !in [ALL_CSRS, CSR_MAP]
    ensures ALL_CSRS != CSR_MAP
  {
    assert |STAKING_APR| == 11 && |ALL_VALIDATORS| == 14 && |VALIDATOR_MAP| == 13 && |ALL_PROPOSALS| == 13;
    assert |PROPOSAL_MAP| == 12 && |ALL_CSRS| == 8 && |CSR_MAP| == 7;
    assert VALIDATOR_MAP[0] != ALL_PROPOSALS[0];
  }

  /** A general contract call descriptor. Each argument is kept in the text
      form `fmt.Sprintf("%v", arg)` gives it. */
  datatype Contract = Contract(name: string, methods: seq<string>, args: seq<seq<string>>, keys: seq<string>)

  /** `ContractCalls`: the FPI calls first, then the general calls, each in
      its own order. */
  function ContractCalls(fpiCalls: seq<Contract>, generalCalls: seq<Contract>): (calls: seq<Contract>)
    ensures |calls| == |fpiCalls| + |generalCalls|
    ensures forall i :: 0 <= i < |fpiCalls| ==> calls[i] == fpiCalls[i]
    ensures forall i :: 0 <= i < |generalCalls| ==> calls[|fpiCalls| + i] == generalCalls[i]
  {
    fpiCalls + generalCalls
  }

  datatype NetworkFiles = NetworkFiles(fpiFile: string, contractsFile: string)

  const TESTNET_FILES: NetworkFiles :=
    NetworkFiles("./config/jsons/fpi_testnet.json", "./config/jsons/contracts_testnet.json")
  const MAINNET_FILES: NetworkFiles :=
    NetworkFiles("./config/jsons/fpi_mainnet.json", "./config/jsons/contracts.json")

  /** Testnet files iff the `TESTNET` variable is exactly "true"; any other
      value, the empty one included, selects mainnet. */
  function SelectNetworkFiles(testnet: string): (f: NetworkFiles)
    ensures f == TESTNET_FILES <==> testnet == "true"
    ensures f == MAINNET_FILES <==> testnet != "true"
  {
    if testnet == "true" then TESTNET_FILES else MAINNET_FILES
  }

  /** The index starts below the first URL because `SetBackupRPC` increments
      before use. */
  const INITIAL_BACKUP_RPC_INDEX: int := -1

  datatype BackupRpc = BackupRpc(index: nat, url: string)

  function BackupUrls(rpcUrls: string): (urls: seq<string>)
    ensures |urls| >= 1
  {
    Split(rpcUrls, ',')
  }

  /** `SetBackupRPC`: advance the index, wrap to 0 past the last URL, and
      pick that URL. The index is never below -1: it starts there and only
      this function changes it. */
  function SetBackupRpc(index: int, rpcUrls: string): (r: BackupRpc)
    requires index >= INITIAL_BACKUP_RPC_INDEX
    ensures r.index < |BackupUrls(rpcUrls)|
    ensures r.url == BackupUrls(rpcUrls)[r.index]
    ensures index + 1 < |BackupUrls(rpcUrls)| ==> r.index == index + 1
    ensures index + 1 >= |BackupUrls(rpcUrls)| ==> r.index == 0
  {
    var urls := BackupUrls(rpcUrls);
    var next := index + 1;
    var i := if next >= |urls| then 0 else next;
    BackupRpc(i, urls[i])
  }

  /** The index after `k` successive calls. */
  function RotateBackupRpc(index: int, rpcUrls: string, k: nat): (r: int)
    requires index >= INITIAL_BACKUP_RPC_INDEX
    ensures r >= INITIAL_BACKUP_RPC_INDEX
    decreases k
  {
    if k == 0 then index else RotateBackupRpc(SetBackupRpc(index, rpcUrls).index, rpcUrls, k - 1)
  }

  /** From the initial index, the first call selects the first URL. */
  lemma FirstBackupRpcIsFirstUrl(rpcUrls: string)
    ensures SetBackupRpc(INITIAL_BACKUP_RPC_INDEX, rpcUrls).index == 0
    ensures SetBackupRpc(INITIAL_BACKUP_RPC_INDEX, rpcUrls).url == BackupUrls(rpcUrls)[0]
  {
  }

  /** From a valid index the rotation advances by one per call modulo the
      number of URLs, so as many calls as there are URLs return the index
      to where it started. */
  lemma {:induction false} BackupRpcCycles(start: nat, rpcUrls: string, k: nat)
    requires start < |BackupUrls(rpcUrls)|
    ensures RotateBackupRpc(start, rpcUrls, k) == (start + k) % |BackupUrls(rpcUrls)|
    decreases k
  {
    var n := |BackupUrls(rpcUrls)|;
    if k == 0 {
      ModOfSmall(start, n);
    } else {
      var next := SetBackupRpc(start, rpcUrls).index;
      BackupRpcCycles(next, rpcUrls, k - 1);
      if start + 1 == n {
        assert next == 0;
        ModWrap(k - 1, n);
        assert start + k == (k - 1) + n;
      } else {
        assert next + (k - 1) == start + k;
      }
    }
  }

  lemma ModOfSmall(a: nat, n: nat)
    requires a < n
    ensures a % n == a
  {
  }

  lemma ModWrap(a: nat, n: nat)
    requires n > 0
    ensures (a + n) % n == a % n
  {
    var q, r := a / n, a % n;
    assert a == q * n + r;
    assert a + n == (q + 1) * n + r;
    ModUnique(a + n, q + 1, r, n);
  }

  lemma ModUnique(x: int, q: int, r: int, n: int)
    requires n > 0 && 0 <= r < n && x == q * n + r
    ensures x % n == r
  {
    var q2, r2 := x / n, x % n;
    assert x == q2 * n + r2;
    assert (q - q2) * n == r2 - r;
    if q > q2 {
      MulAtLeast(q - q2, n);
    } else if q < q2 {
      MulAtLeast(q2 - q, n);
    }
  }

  lemma MulAtLeast(d: int, n: int)
    requires d >= 1 && n > 0
    ensures d * n >= n
  {
  }

  lemma BackupRpcFullCycle(start: nat, rpcUrls: string)
    requires start < |BackupUrls(rpcUrls)|
    ensures RotateBackupRpc(start, rpcUrls, |BackupUrls(rpcUrls)|) == start
  {
    var n := |BackupUrls(rpcUrls)|;
    BackupRpcCycles(start, rpcUrls, n);
    ModWrap(start, n);
    ModOfSmall(start, n);
  }

  /** With a single URL (no comma) every call selects index 0 and that URL. */
  lemma SingleBackupUrl(index: int, rpcUrls: string)
    requires index >= INITIAL_BACKUP_RPC_INDEX
    requires ',' !in rpcUrls
    ensures SetBackupRpc(index, rpcUrls) == BackupRpc(0, rpcUrls)
  {
    var urls := BackupUrls(rpcUrls);
    NoSeparatorCount(rpcUrls, ',');
    assert |urls| == 1;
  }

  lemma {:induction false} NoSeparatorCount(s: string, c: char)
    requires c !in s
    ensures CountChar(s, c) == 0
  {
    if |s| > 0 {
      assert s[0] != c;
      assert c !in s[1..] by {
        forall i | 0 <= i < |s[1..]| ensures s[1..][i] != c {
          assert s[1..][i] == s[i + 1];
        }
      }
      NoSeparatorCount(s[1..], c);
    }
  }
}
