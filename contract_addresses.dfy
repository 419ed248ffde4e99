/** The static table from chain id to the named contract addresses deployed on
    that chain, and its accessor, which fails rather than hand back a missing
    or empty address. */
module ContractAddresses {
  import opened Wrappers
  import opened Strings

  /** A `0x`-prefixed hexadecimal address, as text. */
  type Address = string

  /** The optional keys of a chain's address record. */
  datatype ContractName = SpokePoolWrapper | AggressiveVault | ConservativeVault | Weth | Executor

  const ARBITRUM_SEPOLIA: int := 421614
  const OPTIMISM_SEPOLIA: int := 11155420

  /** `CHAIN_IDS`: the two chain ids the rest of the application names. */
  const CHAIN_IDS: set<int> := {ARBITRUM_SEPOLIA, OPTIMISM_SEPOLIA}

  const ARBITRUM_SPOKE_POOL_WRAPPER: Address := "0x3E54E049e347CBde496E7CFf9d07451d6946C8C8"
  const ARBITRUM_WETH: Address := "0x980B62Da83eFf3D4576C647993b0c1D7faf17c73"
  const OPTIMISM_AGGRESSIVE_VAULT: Address := "0xe5F38C01e71e0D755eA56A8a2d3491EB64136A27"
  const OPTIMISM_CONSERVATIVE_VAULT: Address := "0xb50FDc176Da964c12925fAF7802F807C0Cf430d3"
  const OPTIMISM_WETH: Address := "0x4200000000000000000000000000000000000006"
  const OPTIMISM_EXECUTOR: Address := "0x8E4c0ee82dc4AbA6f98f1f3c61f7F9DD1a496E17"

  const CONTRACT_ADDRESSES: map<int, map<ContractName, Address>> := map[
    ARBITRUM_SEPOLIA := map[
      SpokePoolWrapper := ARBITRUM_SPOKE_POOL_WRAPPER,
      Weth := ARBITRUM_WETH
    ],
    OPTIMISM_SEPOLIA := map[
      AggressiveVault := OPTIMISM_AGGRESSIVE_VAULT,
      ConservativeVault := OPTIMISM_CONSERVATIVE_VAULT,
      Weth := OPTIMISM_WETH,
      Executor := OPTIMISM_EXECUTOR
    ]
  ]

  /** The two errors the accessor throws. */
  datatype LookupError =
    | NoAddressesForChain(chainId: int)
    | NoAddressForContract(name: ContractName, chainId: int)
  {
    /** The message of the thrown `Error`: it ends with the chain id, and the
        missing-contract message names the contract. */
    function Message(): (r: string)
      ensures var tail := "chain ID " + ChainIdText(chainId);
        |r| > |tail| && r[|r| - |tail|..] == tail
      ensures NoAddressForContract? ==> OccursAt(r, NameText(name), 30)
    {
      var tail := "chain ID " + ChainIdText(chainId);
      match this
      case NoAddressesForChain(_) =>
        var head := "No addresses found for ";
        assert (head + tail)[|head|..] == tail;
        head + tail
      case NoAddressForContract(n, _) =>
        var head := "No address found for contract ";
        var named := head + NameText(n) + " on ";
        assert (named + tail)[|named|..] == tail;
        assert (named + tail)[30..30 + |NameText(n)|] == NameText(n);
        named + tail
    }
  }

  function NameText(name: ContractName): string {
    match name
    case SpokePoolWrapper => "spokePoolWrapper"
    case AggressiveVault => "aggressiveVault"
    case ConservativeVault => "conservativeVault"
    case Weth => "weth"
    case Executor => "executor"
  }

  function ChainIdText(chainId: int): string {
    if chainId < 0 then "-" + NatToDecimal(-chainId) else NatToDecimal(chainId)
  }

  /** `getContractAddress`: a missing chain, a missing key and an empty (falsy)
      entry all fail; otherwise the result is the table's entry. */
  function GetContractAddress(chainId: int, name: ContractName): (r: Result<Address, LookupError>)
    ensures r.Success? ==>
      chainId in CONTRACT_ADDRESSES && name in CONTRACT_ADDRESSES[chainId]
      && r.value == CONTRACT_ADDRESSES[chainId][name] && r.value != ""
    ensures r == Failure(NoAddressesForChain(chainId)) <==> chainId !in CONTRACT_ADDRESSES
  {
    if chainId !in CONTRACT_ADDRESSES then Failure(NoAddressesForChain(chainId))
    else
      var chainAddresses := CONTRACT_ADDRESSES[chainId];
      if name !in chainAddresses || chainAddresses[name] == "" then
        Failure(NoAddressForContract(name, chainId))
      else
        Success(chainAddresses[name])
  }

  predicate IsHexDigit(c: char) {
    IsDigit(c) || 'a' <= c <= 'f' || 'A' <= c <= 'F'
  }

  /** A 20-byte address written as `0x` and forty hexadecimal digits. */
  predicate IsAddress(a: string) {
    |a| == 42 && a[0] == '0' && a[1] == 'x' && forall i :: 2 <= i < 42 ==> IsHexDigit(a[i])
  }

  /** Both named chain ids are keys of the table, and no other id is. */
  lemma ConfiguredChains()
    ensures CONTRACT_ADDRESSES.Keys == CHAIN_IDS
  {
  }

  /** Every entry of the table is a well-formed 20-byte address. */
  lemma {:induction false} EntriesAreAddresses(chainId: int, name: ContractName)
    requires chainId in CONTRACT_ADDRESSES && name in CONTRACT_ADDRESSES[chainId]
    ensures IsAddress(CONTRACT_ADDRESSES[chainId][name])
  {
    ArbitrumAddressesWellFormed();
    OptimismVaultsWellFormed();
    OptimismOthersWellFormed();
  }

  lemma ArbitrumAddressesWellFormed()
    ensures IsAddress(ARBITRUM_SPOKE_POOL_WRAPPER) && IsAddress(ARBITRUM_WETH)
  {
  }

  lemma OptimismVaultsWellFormed()
    ensures IsAddress(OPTIMISM_AGGRESSIVE_VAULT) && IsAddress(OPTIMISM_CONSERVATIVE_VAULT)
  {
  }

  lemma OptimismOthersWellFormed()
    ensures IsAddress(OPTIMISM_WETH) && IsAddress(OPTIMISM_EXECUTOR)
  {
  }

  /** A lookup succeeds exactly when the chain has an entry under that name, and
      then yields that entry; with no empty entry in the table, the falsy test
      never rejects a present key. */
  lemma LookupSucceedsIffPresent(chainId: int, name: ContractName)
    ensures GetContractAddress(chainId, name).Success?
        <==> chainId in CONTRACT_ADDRESSES && name in CONTRACT_ADDRESSES[chainId]
    ensures GetContractAddress(chainId, name).Success? ==>
      GetContractAddress(chainId, name).value == CONTRACT_ADDRESSES[chainId][name]
  {
    if chainId in CONTRACT_ADDRESSES && name in CONTRACT_ADDRESSES[chainId] {
      EntriesAreAddresses(chainId, name);
    }
  }

  /** Any chain other than the two configured ones fails with the chain error. */
  lemma UnknownChainFails(chainId: int, name: ContractName)
    requires chainId != ARBITRUM_SEPOLIA && chainId != OPTIMISM_SEPOLIA
    ensures GetContractAddress(chainId, name) == Failure(NoAddressesForChain(chainId))
  {
  }

  /** Names a configured chain does not carry fail with the contract error. */
  lemma MissingContractsFail()
    ensures GetContractAddress(ARBITRUM_SEPOLIA, ConservativeVault)
         == Failure(NoAddressForContract(ConservativeVault, ARBITRUM_SEPOLIA))
    ensures GetContractAddress(ARBITRUM_SEPOLIA, AggressiveVault)
         == Failure(NoAddressForContract(AggressiveVault, ARBITRUM_SEPOLIA))
    ensures GetContractAddress(ARBITRUM_SEPOLIA, Executor)
         == Failure(NoAddressForContract(Executor, ARBITRUM_SEPOLIA))
    ensures GetContractAddress(OPTIMISM_SEPOLIA, SpokePoolWrapper)
         == Failure(NoAddressForContract(SpokePoolWrapper, OPTIMISM_SEPOLIA))
  {
  }

  /** The five lookups the bridge card performs all succeed, with these values. */
  lemma BridgeLookupsSucceed()
    ensures GetContractAddress(ARBITRUM_SEPOLIA, SpokePoolWrapper)
         == Success(ARBITRUM_SPOKE_POOL_WRAPPER)
    ensures GetContractAddress(ARBITRUM_SEPOLIA, Weth)
         == Success(ARBITRUM_WETH)
    ensures GetContractAddress(OPTIMISM_SEPOLIA, AggressiveVault)
         == Success(OPTIMISM_AGGRESSIVE_VAULT)
    ensures GetContractAddress(OPTIMISM_SEPOLIA, ConservativeVault)
         == Success(OPTIMISM_CONSERVATIVE_VAULT)
    ensures GetContractAddress(OPTIMISM_SEPOLIA, Weth)
         == Success(OPTIMISM_WETH)
  {
  }
}
