# Vault dashboard: verified model of the bridge and intent-list logic

This project is a Dafny model of the logic inside a browser dashboard for a
cross-chain intent-filler demo. The dashboard's users deposit ETH into two
yield vaults. They can also fire a bridging intent from Arbitrum Sepolia to
Optimism Sepolia. The model covers three pieces of that frontend:

- **The contract address table** (`ContractAddresses`, `contract_addresses.dfy`).
  This is the constant map from chain id to named contract addresses. Its accessor
  `getContractAddress` throws for an unknown chain, for a missing name, and for
  an empty entry. The model returns a `Result` instead of throwing.
- **The bridge card** (`BridgeCard`, `bridge_card.dfy`). It covers:
  - the arguments of the spoke-pool wrapper's `deposit` call: 32-byte padding,
    the choice of exclusive relayer at the 0.05 ETH threshold, an output amount
    0.01 ETH below the input, and the fill deadline and exclusivity parameter
    900 seconds after the quote;
  - the two error classifiers;
  - the amount field's input filter;
  - the card's state (amount, in-flight flag, error) across `handleBridge` and
    `handleSwitchNetwork`, as the class `BridgeCardState`.
- **The intent list of the vault card** (`SecondDepositCard`,
  `second_deposit_card.dfy`). It covers:
  - the clamped 1000-block lookback window;
  - building a record from each decoded `IntentExecuted` log;
  - the id-keyed prepend merge that skips known ids, and its fold over a batch;
  - the fee total;
  - the resets on mount and on account or chain change.

  The stateful part is the class `IntentFeed`. Its `FetchRecentEvents` hands
  the logs to `FoldLogs`, which loops over them and calls the state updater
  `AddIntent` on each one. The class invariant says that ids are pairwise distinct and that the
  total equals the fee sum.

`Strings` (`strings.dfy`) holds the JavaScript string operations these rely on:
ASCII `toLowerCase`, `includes` and decimal `BigInt.toString`.
`Wrappers` (`wrappers.dfy`) holds `Option` and `Result`.

Wei amounts are natural numbers. Chain ids are integers. Text is `string`.
The node's and wallet's answers are parameters:
- `BlockReply`: the quote block, or what `getBlock` threw;
- `WriteReply`: what `writeContractAsync` did;
- `SwitchReply`: what `switchChain` did (see "Left out" on whether it can throw);
- `PollReply`: no client, a thrown RPC error, or the block number and the logs.

The wall-clock date is a parameter too.

`getContractAddress` is a function over a constant. So lookups are
deterministic and cannot change the table, by construction.

Two details of the code shape what the model keeps.
- The code formats each record's fee with five decimals (SecondDepositCard.tsx:216)
  and the running total with six (SecondDepositCard.tsx:123). The model keeps
  exact wei in both places; see "Left out".
- The `IntentExecuted` entry of the vault ABI file (app/contracts/VaultABI.ts:316-321) has no `inputAmount`, but the
  inline event definition the poller passes to `getLogs` has one. The model takes
  the decoded arguments as given, each of them optional.

## Model

| member | source | states |
|---|---|---|
| `ContractAddresses.GetContractAddress` | app/config/contractAddresses.ts:35-47 | a success is exactly the table's non-empty entry for that chain and name; the chain error is returned exactly when the chain is not a key |
| `ContractAddresses.LookupError.Message` | app/config/contractAddresses.ts:38-43 | both thrown messages end with "chain ID" and the chain id, and the missing-contract message names the contract at the place the template puts it |
| `ContractAddresses.ConfiguredChains` | app/config/contractAddresses.ts:13-32 | the table's keys are exactly the two `CHAIN_IDS`, 421614 and 11155420 |
| `ContractAddresses.EntriesAreAddresses` | app/config/contractAddresses.ts:13-26 | every entry of the table is `0x` followed by 40 hexadecimal digits |
| `ContractAddresses.LookupSucceedsIffPresent` | app/config/contractAddresses.ts:35-47 | a lookup succeeds iff the chain is configured and has that name, and then it yields the table entry |
| `ContractAddresses.UnknownChainFails` | app/config/contractAddresses.ts:36-39 | any chain id other than 421614 and 11155420 fails with "no addresses for chain" and never yields an address |
| `ContractAddresses.MissingContractsFail` | app/config/contractAddresses.ts:41-44 | `conservativeVault`, `aggressiveVault` and `executor` on 421614, and `spokePoolWrapper` on 11155420, fail with "no address for contract" |
| `ContractAddresses.BridgeLookupsSucceed` | app/config/contractAddresses.ts:15-24 | the five lookups the bridge card performs succeed, with the configured addresses |
| `Strings.Contains` | app/components/BridgeCard.tsx:167-171 | `includes` is true iff the phrase occurs at some index of the message |
| `Strings.Lower` | app/components/BridgeCard.tsx:167-171 | ASCII `toLowerCase`: the same length, no ASCII capital left, and every character that is not an ASCII capital kept as it is |
| `Strings.DecimalRoundTrip` | app/components/SecondDepositCard.tsx:223 | the decimal rendering of a deposit id parses back to that id |
| `Strings.NatToDecimalInjective` | app/components/SecondDepositCard.tsx:223 | two deposit ids render to the same string iff they are equal |
| `BridgeCard.AddressToBytes32` | app/components/BridgeCard.tsx:95-97 | the slot is `0x`, then 24 zero digits, then the address without its `0x` |
| `BridgeCard.TokenToBytes32` | app/components/BridgeCard.tsx:100-102 | the token slot is the same `0x` and 24 zero digits, followed by the address without its `0x` |
| `BridgeCard.PaddingRoundTrip` | app/components/BridgeCard.tsx:95-97 | dropping the 24 pad digits recovers the `0x` address that was padded |
| `BridgeCard.PaddedAddressIsBytes32` | app/components/BridgeCard.tsx:95-97 | a 42-character address pads to a 66-character 32-byte word whose characters from index 26 on are the address's digits |
| `BridgeCard.TokenPaddingIsAddressPadding` | app/components/BridgeCard.tsx:95-102 | `tokenToBytes32` and `addressToBytes32` agree on every input |
| `BridgeCard.ExclusiveRelayer` | app/components/BridgeCard.tsx:116-118 | the relayer lookup never throws and always yields one of the two Optimism Sepolia vaults |
| `BridgeCard.RelayerChoice` | app/components/BridgeCard.tsx:114-118 | the relayer lookup always succeeds; it is the conservative vault iff the input is at least 5·10^16 wei, and the aggressive vault iff it is below |
| `BridgeCard.BuildDepositCall` | app/components/BridgeCard.tsx:104-158 | a built call carries the input amount as its ETH value and an output 10^16 wei below it; depositor and recipient are the same slot; exclusivity equals the fill deadline, which is after the quote |
| `BridgeCard.DepositCallArguments` | app/components/BridgeCard.tsx:104-158 | the call goes to the spoke-pool wrapper; value and input are the amount; output is input − 10^16; the deadline is quote + 900 and exclusivity equals it; depositor = recipient = the padded account; the destination is 11155420; the token slots are exactly the zero-padded WETH addresses and the relayer slot exactly the zero-padded vault the threshold picks, each a 32-byte word that decodes back to its address; the message is `0x` |
| `BridgeCard.TryBridge` | app/components/BridgeCard.tsx:105-161 | a failed block read sends nothing and is what is thrown; a call is sent iff the block was read; once a call is sent, what is thrown is exactly the wallet's own error, or nothing if it confirmed |
| `BridgeCard.TryBridgeSubmits` | app/components/BridgeCard.tsx:139-161 | once the quote block is read, the built deposit call is always submitted; nothing is thrown iff the wallet confirms, and a refusal is rethrown as the wallet's own error for the `catch` to classify |
| `BridgeCard.BridgeErrorMessage` | app/components/BridgeCard.tsx:166-178 | the result is one of the three fixed messages: the cancellation message iff the lower-cased message of an Error contains "user rejected", "user denied" or "cancelled"; the insufficient-funds message iff it contains none of these but "insufficient funds"; otherwise the default |
| `BridgeCard.CancellationTakesPriority` | app/components/BridgeCard.tsx:167-170 | a lower-cased message containing any of "user rejected", "user denied" or "cancelled" gives the cancellation message, whatever else it contains |
| `BridgeCard.InsufficientFundsClassified` | app/components/BridgeCard.tsx:171-172 | without a cancellation phrase, a message containing "insufficient funds" in any case gives the insufficient-funds message |
| `BridgeCard.DefaultFailureClassified` | app/components/BridgeCard.tsx:173-178 | a non-Error, or a message with none of the four phrases, gives the default message |
| `BridgeCard.BridgeErrorIgnoresCase` | app/components/BridgeCard.tsx:167-171 | upper-casing the ASCII letters of a message does not change how a bridge error is classified |
| `BridgeCard.BridgeErrorExamples` | app/components/BridgeCard.tsx:166-178 | "User rejected the request." is a cancellation; a thrown non-Error gets the default message |
| `BridgeCard.SwitchErrorMessage` | app/components/BridgeCard.tsx:64-73 | a non-Error leaves the error unset; an Error gets the cancellation message iff its message, unchanged in case, contains "rejected" or "denied", and the failure message otherwise |
| `BridgeCard.SwitchErrorIsCaseSensitive` | app/components/BridgeCard.tsx:67-72 | "user rejected" is a switch cancellation but "USER REJECTED" is a switch failure, while the bridge classifier calls the latter a cancellation |
| `BridgeCard.StripNonAmountChars` | app/components/BridgeCard.tsx:297 | the filtered text has only digits and dots, keeps every dot, and leaves text that is already clean unchanged |
| `BridgeCard.StripConcat` | app/components/BridgeCard.tsx:297 | the filter distributes over concatenation, so it works character by character, keeping order |
| `BridgeCard.StripOneChar` | app/components/BridgeCard.tsx:297 | a single character is kept iff it is a digit or a dot; with `StripConcat` this fixes the result on every input |
| `BridgeCard.MatchesAmountPattern` | app/components/BridgeCard.tsx:298 | whatever the pattern accepts holds only digits and dots, and at most one dot |
| `BridgeCard.PatternIffAtMostOneDot` | app/components/BridgeCard.tsx:298 | on digits and dots, `^\d*\.?\d*$` accepts exactly the strings with at most one dot |
| `BridgeCard.AmountAfterInput` | app/components/BridgeCard.tsx:296-300 | the new amount is either the old one or the filtered text, and a digits-and-dots amount stays so |
| `BridgeCard.AmountInputEffect` | app/components/BridgeCard.tsx:296-300 | the amount becomes the filtered text iff the typed text has at most one dot; otherwise it stays unchanged |
| `BridgeCard.AmountAfterInputWellFormed` | app/components/BridgeCard.tsx:296-300 | a well-formed amount (digits, at most one dot) stays well-formed after any input |
| `BridgeCard.AcceptedAmountIsFixpoint` | app/components/BridgeCard.tsx:296-300 | filtering an accepted value again returns it unchanged |
| `BridgeCard.ControlShown` | app/components/BridgeCard.tsx:334-351 | the bridge button is offered iff the wallet is connected and on 421614; the switch button iff it is connected and on another chain |
| `BridgeCard.EnabledButtonPassesGuard` | app/components/BridgeCard.tsx:88 | a click on the enabled bridge button, with an account and a client, always passes the early return of `handleBridge` |
| `BridgeCard.GuardIgnoresInFlight` | app/components/BridgeCard.tsx:346 | the guard does not look at the in-flight flag: while a bridge is in flight it still passes, and only the disabled button keeps a second bridge out |
| `BridgeCard.BridgeCardState.constructor` | app/components/BridgeCard.tsx:41-47 | the card starts with an empty amount, nothing in flight and no error |
| `BridgeCard.BridgeCardState.OnAmountChange` | app/components/BridgeCard.tsx:296-300 | the new amount is the filtered text if it has at most one dot, the old amount otherwise; the amount stays well-formed |
| `BridgeCard.BridgeCardState.HandleSwitchNetwork` | app/components/BridgeCard.tsx:60-75 | after a switch, the error is cleared on success, is the classified message for an Error, and stays unset for a non-Error |
| `BridgeCard.BridgeCardState.BeginBridge` | app/components/BridgeCard.tsx:91-92 | a started bridge is in flight with no error, and the bridge button is disabled |
| `BridgeCard.BridgeCardState.SettleBridge` | app/components/BridgeCard.tsx:160-181 | on success the amount is cleared; on failure the classified message is shown; in both cases nothing is left in flight |
| `BridgeCard.BridgeCardState.HandleBridge` | app/components/BridgeCard.tsx:87-182 | a failed guard changes nothing and submits nothing; otherwise it submits exactly the built call once the quote block is read, and then nothing is in flight, the error is the classified throw, and the amount is cleared iff nothing was thrown; every submitted call has a positive output amount |
| `SecondDepositCard.FromBlock` | app/components/SecondDepositCard.tsx:179 | the window start is at most the block number and at most 1000 below it; it is 0 iff the block number is at most 1000, and otherwise exactly 1000 below |
| `SecondDepositCard.ToIntentEvent` | app/components/SecondDepositCard.tsx:206-226 | the record's id is the decimal digits of the deposit id (0 when missing), and its date is the date given |
| `SecondDepositCard.MissingArgsDefaultToZero` | app/components/SecondDepositCard.tsx:209-211 | a log whose decoded arguments are all missing gives id "0" and a zero fee |
| `SecondDepositCard.SameIdIffSameDeposit` | app/components/SecondDepositCard.tsx:223 | two records share an id iff their logs share a deposit id |
| `SecondDepositCard.MergeIntent` | app/components/SecondDepositCard.tsx:229-237 | after the updater the record's id is listed; the list grows by one exactly when that id was new; the previous list is the unchanged tail |
| `SecondDepositCard.MergeIntentKnownId` | app/components/SecondDepositCard.tsx:229-231 | merging a record whose id is listed returns the list unchanged |
| `SecondDepositCard.MergeIntentFreshId` | app/components/SecondDepositCard.tsx:233 | merging a record with a fresh id puts it at index 0, followed by the previous list in order |
| `SecondDepositCard.MergeIntentIdempotent` | app/components/SecondDepositCard.tsx:229-233 | merging the same record twice equals merging it once |
| `SecondDepositCard.MergeIntentIds` | app/components/SecondDepositCard.tsx:229-233 | after a merge, the listed ids are the ids before plus the record's |
| `SecondDepositCard.MergeIntentKeepsDistinct` | app/components/SecondDepositCard.tsx:229-233 | pairwise distinct ids stay distinct, and a merge grows the list by at most one |
| `SecondDepositCard.MergeIntentFees` | app/components/SecondDepositCard.tsx:229-236 | the fee sum grows by the record's fee when it is added and not at all when it is skipped |
| `SecondDepositCard.IntentsOf` | app/components/SecondDepositCard.tsx:204-226 | a batch gives at most one record per log, each stamped with the poll's date and a decimal id |
| `SecondDepositCard.IntentsOfAllDecoded` | app/components/SecondDepositCard.tsx:205 | when every log's arguments decoded, every log gives a record |
| `SecondDepositCard.MergeAll` | app/components/SecondDepositCard.tsx:204-239 | folding a batch never shrinks the list and adds at most one entry per record |
| `SecondDepositCard.MergeAllIds` | app/components/SecondDepositCard.tsx:204-239 | after a batch, the listed ids are exactly the old ids plus the batch's |
| `SecondDepositCard.MergeAllKeepsDistinct` | app/components/SecondDepositCard.tsx:204-239 | distinct ids stay distinct after a batch, even when the batch repeats a deposit id, so each new deposit is listed exactly once |
| `SecondDepositCard.MergeAllKeepsExisting` | app/components/SecondDepositCard.tsx:204-239 | the old list is the unchanged tail of the new one |
| `SecondDepositCard.MergeAllNoNewIds` | app/components/SecondDepositCard.tsx:204-239 | a batch whose ids are all listed already leaves the list unchanged |
| `SecondDepositCard.MergeAllIdempotent` | app/components/SecondDepositCard.tsx:204-239 | merging the same batch again leaves the list as the first merge left it |
| `SecondDepositCard.MergeAllNewestFirst` | app/components/SecondDepositCard.tsx:204-239 | of two records new to the list and to the batch, the one from the later log is nearer the head |
| `SecondDepositCard.TotalFeesEarned` | app/components/SecondDepositCard.tsx:114-124 | the accumulated total is the sum of every listed record's fee |
| `SecondDepositCard.SumFeesNonNegative` | app/components/SecondDepositCard.tsx:114-124 | when no listed record has a negative fee, the total is not negative |
| `SecondDepositCard.IntentFeed.constructor` | app/components/SecondDepositCard.tsx:24-28 | the card starts with an empty list and a zero total |
| `SecondDepositCard.IntentFeed.ResetEvents` | app/components/SecondDepositCard.tsx:283-287 | on mount the list is emptied and the total reset |
| `SecondDepositCard.IntentFeed.OnAccountOrChainChange` | app/components/SecondDepositCard.tsx:290-303 | the list and total are reset iff an account or a non-zero chain id is set; otherwise they are unchanged |
| `SecondDepositCard.IntentFeed.AddIntent` | app/components/SecondDepositCard.tsx:229-237 | the updater leaves the list as `MergeIntent` of the old list and the record, keeping ids distinct and the total equal to the fee sum |
| `SecondDepositCard.IntentFeed.FoldLogs` | app/components/SecondDepositCard.tsx:204-239 | the `forEach` leaves the list as `MergeAll` of the old list and the batch's records in log order, keeping the same invariant |
| `SecondDepositCard.IntentFeed.FetchRecentEvents` | app/components/SecondDepositCard.tsx:168-244 | no client or a thrown RPC error leaves the list and total unchanged; otherwise it queries [FromBlock(n), n] and the list becomes the in-order fold of the logs whose arguments decoded (other logs are skipped); ids stay distinct and the total stays the fee sum |

## Left out

- SecondDepositCard.ToIntentEvent: the record keeps the fee as the exact wei difference `inputAmount − outputAmount`. The source converts both amounts to floating-point ETH and renders the difference with `toFixed(5)` plus " ETH". That floating-point rendering is not modelled.
- SecondDepositCard.TotalFeesEarned: the total is the exact integer sum of the records' wei fees. The source sums the `parseFloat` of each rendered fee and renders the total with `toFixed(6)`. The `isNaN` skip never fires on those renderings. The reset shows the literal "0 ETH", and the model's zero total stands for it.
- SecondDepositCard.IntentFeed.FetchRecentEvents: overlapping poll cycles are not modelled; each poll is one sequential fold. The source reads the clock once per log (`new Date()` inside the `forEach`, SecondDepositCard.tsx:219). The model stamps every record of one poll with the single date `today`, so a poll that spans midnight is not captured. The logs returned for the window are a parameter, and the model does not check that they come from inside it.
- BridgeCard.BridgeCardState.HandleBridge: the amount check `Number(amount) >= 0.02` is floating point, so it is the boolean parameter `amountValid`. `parseEther(amount)` belongs to the viem library, so the wei amount is the parameter `inputWei`. The source derives both from the same text. The tie is kept as the premise `amountValid ==> inputWei > 10^16`, which is strict but below the 0.02 ETH minimum, because of rounding: a text just under 0.02 can round up to pass the floating-point test. Under that premise every submitted call has a positive output amount. The quote timestamp is the timestamp of the block five below the head; the node's answer is a parameter. The 32-bit range of the timestamps, which the ABI encoder would enforce, is not checked.
- BridgeCard.BridgeCardState.HandleSwitchNetwork: the `SwitchThrew` reply models the `catch` at BridgeCard.tsx:64-73 as the code evidently intends. The component takes `switchChain` from `useSwitchChain()` (BridgeCard.tsx:39), and the app is built on wagmi 2 (`WagmiProvider`, app/providers.tsx:6). In wagmi 2 that `switchChain` is the fire-and-forget mutation and returns no promise; the variant that rejects is `switchChainAsync`. As written, then, a refused switch never reaches the `catch` (the library reports it through the hook's error state), and the card's error stays cleared. The model does not capture that library behaviour, which rests on the library's API rather than on this code.
- Strings.Lower: `toLowerCase` (and `Upper`, `toUpperCase`) are modelled for the ASCII letters only. JavaScript also maps non-ASCII capitals, for example É to é, and some mappings change the length: İ lower-cases to two characters. So `Lower` keeps the length and every non-ASCII character, which JavaScript does not. The bridge classifier is not affected. Its four phrases are ASCII, and the only non-ASCII characters that lower-case to ASCII letters (the Kelvin sign and İ) can neither create nor break one of them.
- BridgeCard.BridgeErrorIgnoresCase: this holds for ASCII upper-casing only. With JavaScript's full `toUpperCase` it fails: "user denıed" (dotless ı) gets the default message, while its upper-cased form "USER DENIED" is a cancellation.
- The max-amount helpers of both cards, the TVL and USD display, and the minimum-amount display are floating-point formatting and are not modelled.
- The push-subscription `IntentExecuted` handler uses random ids and random fees, so it is mock data and is not modelled.
- The vault deposit flow of the vault card (`handleDeposit`, the modal, the balance and `totalAssets` reads, the `Deposit`/`Withdraw` watchers) is wallet and RPC plumbing and is not modelled.
- Timers (`setInterval`, `setTimeout`), console logging, theming and all markup are not modelled.
- The date string is a parameter, because the source reads the wall clock.
