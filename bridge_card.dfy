/** The logic of the bridge card: it builds the arguments of the spoke-pool
    wrapper's `deposit` call for a bridging intent from Arbitrum Sepolia to
    Optimism Sepolia, classifies the errors a bridge or a network switch
    throws, filters what is typed into the amount field, and keeps the card's
    state (amount, in-flight flag, error) across those handlers. */
module BridgeCard {
  import opened Wrappers
  import opened Strings
  import opened ContractAddresses

  /** `parseEther('0.05')`: at or above it the conservative vault is the exclusive relayer. */
  const RELAYER_THRESHOLD_WEI: nat := 50_000_000_000_000_000
  /** `parseEther('0.01')`: the fee kept back from the output amount. */
  const BRIDGE_FEE_WEI: nat := 10_000_000_000_000_000
  /** Fifteen minutes, in seconds, from the quote timestamp to the fill deadline. */
  const FILL_WINDOW_SECONDS: nat := 15 * 60

  const USER_REJECTED: string := "Transaction was cancelled"
  const INSUFFICIENT_FUNDS: string := "Insufficient funds for gas + value"
  const DEFAULT_FAILURE: string := "Failed to bridge. Please try again"
  const SWITCH_CANCELLED: string := "Network switch was cancelled"
  const SWITCH_FAILED: string := "Failed to switch network. Please try again"

  // ---------------------------------------------------------------------------
  // 32-byte slots

  /** `0x` followed by 24 zero digits: the twelve zero bytes that pad a 20-byte address. */
  const BYTES32_PREFIX: string := "0x000000000000000000000000"

  /** `s.slice(2)`: everything after the `0x`, or nothing if the text is shorter. */
  function SliceFrom2(s: string): string {
    if |s| >= 2 then s[2..] else []
  }

  /** `addressToBytes32`: the address's digits left-padded with 24 zero digits. */
  function AddressToBytes32(addr: string): (r: string)
    ensures |r| == 26 + |SliceFrom2(addr)|
    ensures r[0] == '0' && r[1] == 'x' && forall i :: 2 <= i < 26 ==> r[i] == '0'
  {
    BYTES32_PREFIX + SliceFrom2(addr)
  }

  /** `tokenToBytes32`, a second definition with the same text. */
  function TokenToBytes32(addr: string): (r: string)
    ensures |r| == 26 + |SliceFrom2(addr)|
    ensures r[..26] == BYTES32_PREFIX && r[26..] == SliceFrom2(addr)
  {
    BYTES32_PREFIX + SliceFrom2(addr)
  }

  /** The address a padded 32-byte slot carries: its last forty digits behind `0x`. */
  function Bytes32ToAddress(word: string): (a: string)
    requires |word| >= 26
    ensures |a| == |word| - 24
  {
    "0x" + word[26..]
  }

  /** A 32-byte word written as `0x` and 64 hexadecimal digits. */
  predicate IsBytes32(word: string) {
    |word| == 66 && word[0] == '0' && word[1] == 'x' && forall i :: 2 <= i < 66 ==> IsHexDigit(word[i])
  }

  /** Padding loses nothing: the address comes back out of the slot. */
  lemma PaddingRoundTrip(addr: string)
    requires |addr| >= 2 && addr[0] == '0' && addr[1] == 'x'
    ensures Bytes32ToAddress(AddressToBytes32(addr)) == addr
  {
    var word := AddressToBytes32(addr);
    assert word[26..] == addr[2..];
    assert addr == "0x" + addr[2..];
  }

  /** A 20-byte address pads to a 32-byte word whose last 40 digits are the address's. */
  lemma PaddedAddressIsBytes32(addr: string)
    requires IsAddress(addr)
    ensures IsBytes32(AddressToBytes32(addr))
    ensures AddressToBytes32(addr)[26..] == addr[2..]
  {
    var word := AddressToBytes32(addr);
    forall i | 26 <= i < 66
      ensures word[i] == addr[i - 24]
    {
      assert word[i] == SliceFrom2(addr)[i - 26];
    }
  }

  /** The two padding helpers agree on every input. */
  lemma TokenPaddingIsAddressPadding(addr: string)
    ensures TokenToBytes32(addr) == AddressToBytes32(addr)
  {
  }

  // ---------------------------------------------------------------------------
  // The deposit call

  /** The exclusive relayer: the conservative vault for amounts at or above the
      threshold, the aggressive vault below it, both looked up on Optimism Sepolia. */
  function ExclusiveRelayer(inputWei: nat): (r: Result<Address, LookupError>)
    ensures r.Success?
    ensures r.value == OPTIMISM_CONSERVATIVE_VAULT || r.value == OPTIMISM_AGGRESSIVE_VAULT
  {
    BridgeLookupsSucceed();
    if inputWei >= RELAYER_THRESHOLD_WEI then GetContractAddress(OPTIMISM_SEPOLIA, ConservativeVault)
    else GetContractAddress(OPTIMISM_SEPOLIA, AggressiveVault)
  }

  /** The relayer lookup always succeeds, and the boundary belongs to the conservative side. */
  lemma RelayerChoice(inputWei: nat)
    ensures ExclusiveRelayer(inputWei).Success?
    ensures ExclusiveRelayer(inputWei).value == OPTIMISM_CONSERVATIVE_VAULT <==> inputWei >= RELAYER_THRESHOLD_WEI
    ensures ExclusiveRelayer(inputWei).value == OPTIMISM_AGGRESSIVE_VAULT <==> inputWei < RELAYER_THRESHOLD_WEI
  {
    BridgeLookupsSucceed();
    assert OPTIMISM_CONSERVATIVE_VAULT[2] != OPTIMISM_AGGRESSIVE_VAULT[2];
  }

  /** The twelve arguments of the wrapper's `deposit`, in their order. */
  datatype DepositArgs = DepositArgs(
    depositor: string,
    recipient: string,
    inputToken: string,
    outputToken: string,
    inputAmount: nat,
    outputAmount: int,
    destinationChainId: int,
    exclusiveRelayer: string,
    quoteTimestamp: nat,
    fillDeadline: nat,
    exclusivityParameter: nat,
    message: string)

  /** A payable contract call: where it goes, its arguments and the ETH it carries. */
  datatype DepositCall = DepositCall(target: Address, args: DepositArgs, value: nat)

  /** The call `handleBridge` hands to the wallet for a connected account, an
      amount in wei and the quote timestamp read from the node; it fails only
      if one of the address lookups throws (`DepositCallArguments` shows that
      none does, and `ExclusiveRelayer` already promises its own success). */
  function BuildDepositCall(account: Address, inputWei: nat, quoteTimestamp: nat): (r: Result<DepositCall, LookupError>)
    ensures r.Success? ==> r.value.value == r.value.args.inputAmount == inputWei
    ensures r.Success? ==> r.value.args.depositor == r.value.args.recipient
    ensures r.Success? ==> r.value.args.outputAmount == r.value.args.inputAmount - BRIDGE_FEE_WEI
    ensures r.Success? ==> r.value.args.fillDeadline == r.value.args.exclusivityParameter > quoteTimestamp
  {
    var fillDeadline := quoteTimestamp + FILL_WINDOW_SECONDS;
    var outputAmount := inputWei - BRIDGE_FEE_WEI;
    var relayer := ExclusiveRelayer(inputWei).value;
    var inputToken :- GetContractAddress(ARBITRUM_SEPOLIA, Weth);
    var outputToken :- GetContractAddress(OPTIMISM_SEPOLIA, Weth);
    var target :- GetContractAddress(ARBITRUM_SEPOLIA, SpokePoolWrapper);
    Success(DepositCall(
      target,
      DepositArgs(
        AddressToBytes32(account),
        AddressToBytes32(account),
        TokenToBytes32(inputToken),
        TokenToBytes32(outputToken),
        inputWei,
        outputAmount,
        OPTIMISM_SEPOLIA,
        AddressToBytes32(relayer),
        quoteTimestamp,
        fillDeadline,
        fillDeadline,
        "0x"),
      inputWei))
  }

  /** What the deposit call carries, whatever the account, amount and timestamp. */
  lemma DepositCallArguments(account: Address, inputWei: nat, quoteTimestamp: nat)
    ensures BuildDepositCall(account, inputWei, quoteTimestamp).Success?
    ensures var call := BuildDepositCall(account, inputWei, quoteTimestamp).value;
      && call.target == ARBITRUM_SPOKE_POOL_WRAPPER
      && call.value == call.args.inputAmount == inputWei
      && call.args.outputAmount == inputWei - BRIDGE_FEE_WEI
      && call.args.fillDeadline == quoteTimestamp + 900
      && call.args.exclusivityParameter == call.args.fillDeadline
      && call.args.quoteTimestamp == quoteTimestamp
      && call.args.depositor == call.args.recipient == AddressToBytes32(account)
      && call.args.destinationChainId == 11155420
      && call.args.inputToken == TokenToBytes32(ARBITRUM_WETH)
      && call.args.outputToken == TokenToBytes32(OPTIMISM_WETH)
      && call.args.exclusiveRelayer
         == AddressToBytes32(if inputWei >= RELAYER_THRESHOLD_WEI then OPTIMISM_CONSERVATIVE_VAULT else OPTIMISM_AGGRESSIVE_VAULT)
      && IsBytes32(call.args.inputToken) && Bytes32ToAddress(call.args.inputToken) == ARBITRUM_WETH
      && IsBytes32(call.args.outputToken) && Bytes32ToAddress(call.args.outputToken) == OPTIMISM_WETH
      && IsBytes32(call.args.exclusiveRelayer)
      && Bytes32ToAddress(call.args.exclusiveRelayer)
         == (if inputWei >= RELAYER_THRESHOLD_WEI then OPTIMISM_CONSERVATIVE_VAULT else OPTIMISM_AGGRESSIVE_VAULT)
      && call.args.message == "0x"
  {
    BridgeLookupsSucceed();
    RelayerChoice(inputWei);
    ArbitrumAddressesWellFormed();
    OptimismVaultsWellFormed();
    OptimismOthersWellFormed();
    PaddedAddressIsBytes32(ARBITRUM_WETH);
    PaddedAddressIsBytes32(OPTIMISM_WETH);
    PaddedAddressIsBytes32(ExclusiveRelayer(inputWei).value);
    PaddingRoundTrip(ARBITRUM_WETH);
    PaddingRoundTrip(OPTIMISM_WETH);
    PaddingRoundTrip(ExclusiveRelayer(inputWei).value);
  }

  // ---------------------------------------------------------------------------
  // Error classification

  /** What a `catch` clause receives: an `Error` with its message, or any other value. */
  datatype Thrown = ErrorValue(message: string) | NonError

  /** The message a failed bridge shows; the test runs on the lower-cased message
      and the cancellation test comes first. */
  function BridgeErrorMessage(err: Thrown): (r: string)
    ensures r == USER_REJECTED || r == INSUFFICIENT_FUNDS || r == DEFAULT_FAILURE
    ensures r == USER_REJECTED <==> err.ErrorValue? && MentionsCancellation(Lower(err.message))
    ensures r == INSUFFICIENT_FUNDS <==>
      err.ErrorValue? && !MentionsCancellation(Lower(err.message))
      && exists i :: OccursAt(Lower(err.message), "insufficient funds", i)
  {
    match err
    case NonError => DEFAULT_FAILURE
    case ErrorValue(m) =>
      var lowered := Lower(m);
      if Contains(lowered, "user rejected") || Contains(lowered, "user denied") || Contains(lowered, "cancelled") then
        USER_REJECTED
      else if Contains(lowered, "insufficient funds") then
        INSUFFICIENT_FUNDS
      else
        DEFAULT_FAILURE
  }

  /** The lower-cased message holds one of the three cancellation phrases. */
  ghost predicate MentionsCancellation(lowered: string) {
    (exists i :: OccursAt(lowered, "user rejected", i))
    || (exists i :: OccursAt(lowered, "user denied", i))
    || (exists i :: OccursAt(lowered, "cancelled", i))
  }

  /** Any of the three cancellation phrases wins, even when the message also
      reports insufficient funds. */
  lemma CancellationTakesPriority(m: string)
    requires (exists i :: OccursAt(Lower(m), "user rejected", i))
          || (exists i :: OccursAt(Lower(m), "user denied", i))
          || (exists i :: OccursAt(Lower(m), "cancelled", i))
    ensures BridgeErrorMessage(ErrorValue(m)) == USER_REJECTED
  {
  }

  /** The bridge classifier does not depend on the ASCII case of the message
      (`Upper` maps the ASCII letters only). */
  lemma BridgeErrorIgnoresCase(m: string)
    ensures BridgeErrorMessage(ErrorValue(Upper(m))) == BridgeErrorMessage(ErrorValue(m))
  {
    LowerOfUpper(m);
  }

  /** Without a cancellation phrase, a message that mentions insufficient funds
      in any case gets the insufficient-funds message. */
  lemma InsufficientFundsClassified(m: string)
    requires !Contains(Lower(m), "user rejected") && !Contains(Lower(m), "user denied")
    requires !Contains(Lower(m), "cancelled")
    requires exists i :: OccursAt(Lower(m), "insufficient funds", i)
    ensures BridgeErrorMessage(ErrorValue(m)) == INSUFFICIENT_FUNDS
  {
  }

  /** Every message without one of the four phrases, and every non-`Error`, gets the default. */
  lemma DefaultFailureClassified(err: Thrown)
    requires err.ErrorValue? ==>
      forall p :: p in ["user rejected", "user denied", "cancelled", "insufficient funds"]
        ==> !Contains(Lower(err.message), p)
    ensures BridgeErrorMessage(err) == DEFAULT_FAILURE
  {
  }

  /** A wallet's rejection message, and a thrown non-`Error`. */
  lemma BridgeErrorExamples()
    ensures BridgeErrorMessage(ErrorValue("User rejected the request.")) == USER_REJECTED
    ensures BridgeErrorMessage(NonError) == DEFAULT_FAILURE
  {
    assert OccursAt(Lower("User rejected the request."), "user rejected", 0);
  }

  /** The message a failed network switch shows, or none for a non-`Error`; this
      test is case-sensitive. */
  function SwitchErrorMessage(err: Thrown): (r: Option<string>)
    ensures r.None? <==> err.NonError?
    ensures r.Some? ==> r.value == SWITCH_CANCELLED || r.value == SWITCH_FAILED
    ensures err.ErrorValue? ==>
      (r == Some(SWITCH_CANCELLED) <==>
        (exists i :: OccursAt(err.message, "rejected", i)) || (exists i :: OccursAt(err.message, "denied", i)))
  {
    match err
    case NonError => None
    case ErrorValue(m) =>
      if Contains(m, "rejected") || Contains(m, "denied") then Some(SWITCH_CANCELLED)
      else Some(SWITCH_FAILED)
  }

  /** A message in capitals is a cancellation to the bridge classifier, which
      lower-cases it first, but a plain failure to the switch classifier, which
      matches the lower-case words only. */
  lemma SwitchErrorIsCaseSensitive()
    ensures SwitchErrorMessage(ErrorValue("USER REJECTED")) == Some(SWITCH_FAILED)
    ensures SwitchErrorMessage(ErrorValue("user rejected")) == Some(SWITCH_CANCELLED)
    ensures BridgeErrorMessage(ErrorValue("USER REJECTED")) == USER_REJECTED
  {
    CapitalisedRejectionIsSwitchFailure();
    LowerCaseRejectionIsSwitchCancellation();
    CapitalsAreCancellation();
  }
  lemma CapitalisedRejectionIsSwitchFailure()
    ensures SwitchErrorMessage(ErrorValue("USER REJECTED")) == Some(SWITCH_FAILED)
  {
    CapitalsHaveNoSwitchWords();
  }
  lemma LowerCaseRejectionIsSwitchCancellation()
    ensures SwitchErrorMessage(ErrorValue("user rejected")) == Some(SWITCH_CANCELLED)
  {
    assert OccursAt("user rejected", "rejected", 5);
  }

  lemma CapitalsHaveNoSwitchWords()
    ensures !Contains("USER REJECTED", "rejected") && !Contains("USER REJECTED", "denied")
  {
    MissingFirstChar("USER REJECTED", "rejected");
    MissingFirstChar("USER REJECTED", "denied");
  }

  lemma CapitalsAreCancellation()
    ensures BridgeErrorMessage(ErrorValue("USER REJECTED")) == USER_REJECTED
  {
    LowerOfCapitals();
    assert OccursAt("user rejected", "user rejected", 0);
  }

  lemma LowerOfCapitals()
    ensures Lower("USER REJECTED") == "user rejected"
  {
  }

  // ---------------------------------------------------------------------------
  // The amount field

  predicate IsAmountChar(c: char) {
    IsDigit(c) || c == '.'
  }

  predicate OnlyAmountChars(s: string) {
    forall i :: 0 <= i < |s| ==> IsAmountChar(s[i])
  }

  function DotCount(s: string): nat {
    if s == [] then 0 else (if s[0] == '.' then 1 else 0) + DotCount(s[1..])
  }

  /** `replace(/[^0-9.]/g, '')`: drops every character but digits and dots,
      keeping the dots, and leaves an already clean string alone. */
  function StripNonAmountChars(s: string): (r: string)
    ensures OnlyAmountChars(r) && |r| <= |s|
    ensures DotCount(r) == DotCount(s)
    ensures OnlyAmountChars(s) ==> r == s
  {
    if s == [] then []
    else if IsAmountChar(s[0]) then
      var rest := StripNonAmountChars(s[1..]);
      assert ([s[0]] + rest)[1..] == rest;
      [s[0]] + rest
    else
      StripNonAmountChars(s[1..])
  }

  /** The filter works character by character: it distributes over concatenation, */
  lemma {:induction false} StripConcat(a: string, b: string)
    ensures StripNonAmountChars(a + b) == StripNonAmountChars(a) + StripNonAmountChars(b)
    decreases |a|
  {
    if a == [] {
      assert a + b == b;
    } else {
      assert (a + b)[0] == a[0] && (a + b)[1..] == a[1..] + b;
      StripConcat(a[1..], b);
    }
  }

  /** and keeps a single character exactly when it is a digit or a dot. */
  lemma StripOneChar(c: char)
    ensures StripNonAmountChars([c]) == if IsAmountChar(c) then [c] else []
  {
    assert [c][1..] == [];
  }

  /** `/^\d*\.?\d*$/`: digits, at most one dot, digits. */
  predicate MatchesAmountPattern(s: string)
    ensures MatchesAmountPattern(s) ==> OnlyAmountChars(s) && DotCount(s) <= 1
  {
    if s == [] then true
    else if IsDigit(s[0]) then MatchesAmountPattern(s[1..])
    else if s[0] == '.' && AllDigits(s[1..]) then
      DigitsHaveNoDot(s[1..]);
      true
    else false
  }

  /** What the amount field may hold: digits and at most one dot. */
  predicate WellFormedAmount(s: string) {
    OnlyAmountChars(s) && DotCount(s) <= 1
  }

  lemma {:induction false} DigitsHaveNoDot(s: string)
    requires OnlyAmountChars(s)
    ensures AllDigits(s) <==> DotCount(s) == 0
  {
    if s != [] {
      DigitsHaveNoDot(s[1..]);
    }
  }

  /** On digits and dots, the pattern accepts exactly the strings with at most one dot. */
  lemma {:induction false} PatternIffAtMostOneDot(s: string)
    requires OnlyAmountChars(s)
    ensures MatchesAmountPattern(s) <==> DotCount(s) <= 1
  {
    if s != [] {
      if IsDigit(s[0]) {
        PatternIffAtMostOneDot(s[1..]);
      } else {
        DigitsHaveNoDot(s[1..]);
      }
    }
  }

  /** The amount after the input's `onChange` fires with `typed`. */
  function AmountAfterInput(current: string, typed: string): (r: string)
    ensures r == current || r == StripNonAmountChars(typed)
    ensures OnlyAmountChars(current) ==> OnlyAmountChars(r)
  {
    var value := StripNonAmountChars(typed);
    if value == "" || MatchesAmountPattern(value) then value else current
  }

  /** The filtered text is taken exactly when the typed text has at most one dot;
      otherwise the amount stays what it was. */
  lemma AmountInputEffect(current: string, typed: string)
    ensures AmountAfterInput(current, typed)
         == if DotCount(typed) <= 1 then StripNonAmountChars(typed) else current
  {
    PatternIffAtMostOneDot(StripNonAmountChars(typed));
  }

  /** The field never holds anything but a well-formed amount. */
  lemma AmountAfterInputWellFormed(current: string, typed: string)
    requires WellFormedAmount(current)
    ensures WellFormedAmount(AmountAfterInput(current, typed))
  {
    AmountInputEffect(current, typed);
  }

  /** Typing back a value the filter accepted changes nothing. */
  lemma AcceptedAmountIsFixpoint(current: string, accepted: string)
    requires WellFormedAmount(accepted)
    ensures AmountAfterInput(current, accepted) == accepted
  {
    AmountInputEffect(current, accepted);
  }

  // ---------------------------------------------------------------------------
  // The card's handlers

  /** What the wallet and the node answer, as seen from the handlers. */
  datatype BlockReply = Block(timestamp: nat) | BlockThrew(blockError: Thrown)
  datatype WriteReply = Confirmed | WriteThrew(writeError: Thrown)
  datatype SwitchReply = Switched | SwitchThrew(switchError: Thrown)

  /** The control the card shows: connect, switch to the source chain, or bridge. */
  datatype BridgeControl = ConnectControl | SwitchNetworkControl | BridgeControl

  function ControlShown(isConnected: bool, chainId: int): (c: BridgeControl)
    ensures c == BridgeControl <==> isConnected && chainId == ARBITRUM_SEPOLIA
    ensures c == SwitchNetworkControl <==> isConnected && chainId != ARBITRUM_SEPOLIA
  {
    if !isConnected then ConnectControl
    else if chainId != ARBITRUM_SEPOLIA then SwitchNetworkControl
    else BridgeControl
  }

  /** The early return of `handleBridge`: an amount, an account, a valid amount and a client. */
  predicate BridgeGuard(amount: string, account: Option<Address>, amountValid: bool, hasClient: bool) {
    amount != "" && account.Some? && amountValid && hasClient
  }

  /** How the `try` block of `handleBridge` ends: the deposit call it submitted,
      if it got that far, and what was thrown, if anything. */
  datatype Attempt = Attempt(sent: Option<DepositCall>, thrown: Option<Thrown>)

  function TryBridge(account: Address, inputWei: nat, block: BlockReply, write: WriteReply): (r: Attempt)
    ensures block.BlockThrew? ==> r == Attempt(None, Some(block.blockError))
    ensures r.sent.Some? <==> block.Block?
    ensures r.thrown.None? ==> r.sent.Some? && write.Confirmed?
    ensures r.sent.Some? ==> r.thrown == if write.WriteThrew? then Some(write.writeError) else None
  {
    match block
    case BlockThrew(e) => Attempt(None, Some(e))
    case Block(ts) =>
      match BuildDepositCall(account, inputWei, ts)
      case Failure(lookupError) => Attempt(None, Some(ErrorValue(lookupError.Message())))
      case Success(call) => Attempt(Some(call), if write.WriteThrew? then Some(write.writeError) else None)
  }

  /** Once the quote block is read, the deposit call is always submitted, the
      bridge succeeds exactly when the wallet confirms it, and a refusal is
      rethrown as the wallet's own error. */
  lemma TryBridgeSubmits(account: Address, inputWei: nat, ts: nat, write: WriteReply)
    ensures TryBridge(account, inputWei, Block(ts), write).sent
         == Some(BuildDepositCall(account, inputWei, ts).value)
    ensures TryBridge(account, inputWei, Block(ts), write).thrown.None? <==> write.Confirmed?
    ensures TryBridge(account, inputWei, Block(ts), write).thrown
         == if write.WriteThrew? then Some(write.writeError) else None
  {
    DepositCallArguments(account, inputWei, ts);
  }

  /** A click on an enabled bridge button, with an account and a client,
      always passes the early return of `handleBridge`. */
  lemma EnabledButtonPassesGuard(card: BridgeCardState, account: Address, amountValid: bool)
    requires card.BridgeEnabled(amountValid)
    ensures BridgeGuard(card.amount, Some(account), amountValid, true)
  {
  }

  /** The guard does not look at the in-flight flag: while a bridge is in flight
      the guard still passes, and only the disabled button keeps a second one out. */
  lemma GuardIgnoresInFlight(card: BridgeCardState, account: Address, amountValid: bool)
    requires card.amount != "" && amountValid && card.isBridging
    ensures BridgeGuard(card.amount, Some(account), amountValid, true)
    ensures !card.BridgeEnabled(amountValid)
  {
  }

  class BridgeCardState {
    var amount: string
    var isBridging: bool
    var error: Option<string>

    ghost predicate Valid()
      reads this
    {
      WellFormedAmount(amount)
    }

    constructor ()
      ensures Valid() && amount == "" && !isBridging && error == None
    {
      amount := "";
      isBridging := false;
      error := None;
    }

    /** The bridge button is enabled: an amount, a valid one, and nothing in flight. */
    predicate BridgeEnabled(amountValid: bool)
      reads this
    {
      amount != "" && amountValid && !isBridging
    }

    /** The amount input's `onChange`. */
    method OnAmountChange(typed: string)
      requires Valid()
      modifies this`amount
      ensures Valid()
      ensures amount == if DotCount(typed) <= 1 then StripNonAmountChars(typed) else old(amount)
    {
      AmountInputEffect(amount, typed);
      AmountAfterInputWellFormed(amount, typed);
      amount := AmountAfterInput(amount, typed);
    }

    /** `handleSwitchNetwork`: clears the error, then shows the classified switch
        error if the switch threw an `Error`. */
    method HandleSwitchNetwork(reply: SwitchReply)
      modifies this`error
      ensures error == if reply.SwitchThrew? then SwitchErrorMessage(reply.switchError) else None
    {
      error := None;
      if reply.SwitchThrew? {
        var shown := SwitchErrorMessage(reply.switchError);
        if shown.Some? {
          error := shown;
        }
      }
    }

    /** The first statements of the `try` block: the bridge goes in flight, which
        disables the button, and the error is cleared. */
    method BeginBridge()
      modifies this`isBridging, this`error
      ensures isBridging && error == None
      ensures !BridgeEnabled(true) && !BridgeEnabled(false)
    {
      isBridging := true;
      error := None;
    }

    /** The `catch` and `finally` clauses, or the amount reset after a success. */
    method SettleBridge(thrown: Option<Thrown>)
      requires Valid()
      modifies this`isBridging, this`error, this`amount
      ensures Valid() && !isBridging
      ensures thrown.None? ==> amount == "" && error == old(error)
      ensures thrown.Some? ==> amount == old(amount) && error == Some(BridgeErrorMessage(thrown.value))
    {
      if thrown.None? {
        amount := "";
      } else {
        error := Some(BridgeErrorMessage(thrown.value));
      }
      isBridging := false;
    }

    /** `handleBridge`, with the amount in wei, the validity of the amount and the
        node's and wallet's replies given as parameters; returns the deposit call
        it submitted, if any. Both parameters come from the same text: an amount
        that passes `Number(amount) >= 0.02` is, up to the rounding of that
        floating-point test, at least 0.02 ETH, so its wei value is above the fee. */
    method HandleBridge(account: Option<Address>, amountValid: bool, hasClient: bool,
                        inputWei: nat, block: BlockReply, write: WriteReply)
      returns (sent: Option<DepositCall>)
      requires Valid()
      requires amountValid ==> inputWei > BRIDGE_FEE_WEI
      modifies this
      ensures Valid()
      ensures !BridgeGuard(old(amount), account, amountValid, hasClient) ==>
        sent == None && amount == old(amount) && isBridging == old(isBridging) && error == old(error)
      ensures BridgeGuard(old(amount), account, amountValid, hasClient) ==>
        var attempt := TryBridge(account.value, inputWei, block, write);
        && sent == attempt.sent
        && !isBridging
        && error == (if attempt.thrown.Some? then Some(BridgeErrorMessage(attempt.thrown.value)) else None)
        && amount == (if attempt.thrown.None? then "" else old(amount))
      ensures sent.Some? ==> sent.value.args.outputAmount > 0
    {
      if !BridgeGuard(amount, account, amountValid, hasClient) {
        return None;
      }
      BeginBridge();
      sent := None;
      var thrown: Option<Thrown> := None;
      match block {
        case BlockThrew(e) =>
          thrown := Some(e);
        case Block(ts) =>
          var built := BuildDepositCall(account.value, inputWei, ts);
          if built.Failure? {
            thrown := Some(ErrorValue(built.error.Message()));
          } else {
            sent := Some(built.value);
            if write.WriteThrew? {
              thrown := Some(write.writeError);
            }
          }
      }
      SettleBridge(thrown);
    }
  }
}
