/** The intent list of the conservative vault's card: each poll reads the
    `IntentExecuted` logs of the last thousand blocks, turns every decoded log
    into an intent record and prepends it to the newest-first list unless a
    record with the same id is already there; the fee total is recomputed
    whenever a record is added, and the list is emptied on mount and when the
    account or chain changes. */
module SecondDepositCard {
  import opened Wrappers
  import opened Strings

  const LOOKBACK_BLOCKS: nat := 1000

  /** The first block of the polling window: a thousand blocks back, clamped at zero. */
  function FromBlock(blockNumber: nat): (r: nat)
    ensures r <= blockNumber && blockNumber - r <= LOOKBACK_BLOCKS
    ensures r == 0 <==> blockNumber <= LOOKBACK_BLOCKS
    ensures r > 0 ==> blockNumber - r == LOOKBACK_BLOCKS
  {
    if blockNumber > LOOKBACK_BLOCKS then blockNumber - LOOKBACK_BLOCKS else 0
  }

  /** The decoded arguments of an `IntentExecuted` log; each may be missing. */
  datatype IntentArgs = IntentArgs(
    outputAmount: Option<nat>,
    inputAmount: Option<nat>,
    depositId: Option<nat>,
    originChainId: Option<nat>)

  /** A log as the node returns it; its arguments may fail to decode. */
  datatype IntentLog = IntentLog(args: Option<IntentArgs>)

  /** A displayed intent: the deposit id in decimal, the date it was seen, and the
      fee in wei that the card renders as a decimal ETH string. */
  datatype IntentEvent = IntentEvent(id: string, date: string, feeWei: int)

  /** The record built from one decoded log; a missing amount or id counts as 0. */
  function ToIntentEvent(args: IntentArgs, today: string): (e: IntentEvent)
    ensures AllDigits(e.id) && DecimalToNat(e.id) == args.depositId.GetOr(0)
    ensures e.date == today
  {
    var depositId := args.depositId.GetOr(0);
    DecimalRoundTrip(depositId);
    IntentEvent(
      NatToDecimal(depositId),
      today,
      args.inputAmount.GetOr(0) - args.outputAmount.GetOr(0))
  }

  /** A log with no decoded arguments at all yields id "0" and no fee. */
  lemma MissingArgsDefaultToZero(today: string)
    ensures ToIntentEvent(IntentArgs(None, None, None, None), today) == IntentEvent("0", today, 0)
  {
  }

  /** Two records get the same id exactly when their logs carry the same deposit
      id, so deduplicating by id is deduplicating by deposit. */
  lemma SameIdIffSameDeposit(a: IntentArgs, b: IntentArgs, today: string)
    ensures ToIntentEvent(a, today).id == ToIntentEvent(b, today).id
        <==> a.depositId.GetOr(0) == b.depositId.GetOr(0)
  {
    NatToDecimalInjective(a.depositId.GetOr(0), b.depositId.GetOr(0));
  }

  // ---------------------------------------------------------------------------
  // The deduplicating prepend

  /** `events.some(event => event.id === id)`. */
  predicate HasId(events: seq<IntentEvent>, id: string) {
    exists i :: 0 <= i < |events| && events[i].id == id
  }

  predicate DistinctIds(events: seq<IntentEvent>) {
    forall i, j :: 0 <= i < j < |events| ==> events[i].id != events[j].id
  }

  /** The state updater: a record whose id is present is dropped, any other is
      put in front. */
  function MergeIntent(events: seq<IntentEvent>, e: IntentEvent): (r: seq<IntentEvent>)
    ensures HasId(r, e.id)
    ensures |r| == |events| + (if HasId(events, e.id) then 0 else 1)
    ensures r[|r| - |events|..] == events
  {
    if HasId(events, e.id) then events
    else
      assert ([e] + events)[0] == e;
      [e] + events
  }

  lemma MergeIntentKnownId(events: seq<IntentEvent>, e: IntentEvent)
    requires HasId(events, e.id)
    ensures MergeIntent(events, e) == events
  {
  }

  lemma MergeIntentFreshId(events: seq<IntentEvent>, e: IntentEvent)
    requires !HasId(events, e.id)
    ensures |MergeIntent(events, e)| == |events| + 1
    ensures MergeIntent(events, e)[0] == e && MergeIntent(events, e)[1..] == events
  {
  }

  /** Merging the same record twice is merging it once. */
  lemma MergeIntentIdempotent(events: seq<IntentEvent>, e: IntentEvent)
    ensures MergeIntent(MergeIntent(events, e), e) == MergeIntent(events, e)
  {
    assert MergeIntent(events, e)[0].id == e.id || HasId(events, e.id);
  }

  /** The ids after a merge are the ids before plus the merged record's. */
  lemma MergeIntentIds(events: seq<IntentEvent>, e: IntentEvent, id: string)
    ensures HasId(MergeIntent(events, e), id) <==> HasId(events, id) || id == e.id
  {
    var r := MergeIntent(events, e);
    if !HasId(events, e.id) {
      assert r[0] == e;
      if HasId(events, id) {
        var k :| 0 <= k < |events| && events[k].id == id;
        assert r[k + 1] == events[k];
      }
      if HasId(r, id) && id != e.id {
        var k :| 0 <= k < |r| && r[k].id == id;
        assert events[k - 1] == r[k];
      }
    }
  }

  /** A merge keeps ids distinct and adds at most one record. */
  lemma MergeIntentKeepsDistinct(events: seq<IntentEvent>, e: IntentEvent)
    requires DistinctIds(events)
    ensures DistinctIds(MergeIntent(events, e))
    ensures |events| <= |MergeIntent(events, e)| <= |events| + 1
  {
    var r := MergeIntent(events, e);
    if !HasId(events, e.id) {
      forall i, j | 0 <= i < j < |r|
        ensures r[i].id != r[j].id
      {
        if i == 0 {
          assert r[j] == events[j - 1];
        } else {
          assert r[i] == events[i - 1] && r[j] == events[j - 1];
        }
      }
    }
  }

  // ---------------------------------------------------------------------------
  // A batch of logs

  /** The records built from a batch of logs, in log order; logs without decoded
      arguments are skipped. */
  function IntentsOf(logs: seq<IntentLog>, today: string): (r: seq<IntentEvent>)
    ensures |r| <= |logs|
    ensures forall k :: 0 <= k < |r| ==> r[k].date == today && AllDigits(r[k].id)
  {
    if logs == [] then []
    else
      var last := logs[|logs| - 1];
      IntentsOf(logs[..|logs| - 1], today)
        + (if last.args.Some? then [ToIntentEvent(last.args.value, today)] else [])
  }

  /** When every log decoded, every log gives a record. */
  lemma {:induction false} IntentsOfAllDecoded(logs: seq<IntentLog>, today: string)
    requires forall k :: 0 <= k < |logs| ==> logs[k].args.Some?
    ensures |IntentsOf(logs, today)| == |logs|
    decreases |logs|
  {
    if logs != [] {
      IntentsOfAllDecoded(logs[..|logs| - 1], today);
    }
  }

  /** Extending the logs by one adds that log's record, if it decoded, at the end. */
  lemma IntentsOfPrefix(logs: seq<IntentLog>, i: nat, today: string)
    requires i < |logs|
    ensures IntentsOf(logs[..i + 1], today)
         == IntentsOf(logs[..i], today)
            + (if logs[i].args.Some? then [ToIntentEvent(logs[i].args.value, today)] else [])
  {
    assert logs[..i + 1][..i] == logs[..i];
  }

  /** A further log whose arguments decoded merges its record into the list built so far. */
  lemma FoldDecodedLog(start: seq<IntentEvent>, logs: seq<IntentLog>, i: nat, today: string)
    requires i < |logs| && logs[i].args.Some?
    ensures MergeAll(start, IntentsOf(logs[..i + 1], today))
         == MergeIntent(MergeAll(start, IntentsOf(logs[..i], today)), ToIntentEvent(logs[i].args.value, today))
  {
    IntentsOfPrefix(logs, i, today);
    MergeAllSnoc(start, IntentsOf(logs[..i], today), ToIntentEvent(logs[i].args.value, today));
  }

  /** A further log whose arguments did not decode leaves that list alone. */
  lemma FoldUndecodedLog(start: seq<IntentEvent>, logs: seq<IntentLog>, i: nat, today: string)
    requires i < |logs| && logs[i].args.None?
    ensures MergeAll(start, IntentsOf(logs[..i + 1], today)) == MergeAll(start, IntentsOf(logs[..i], today))
  {
    IntentsOfPrefix(logs, i, today);
    assert IntentsOf(logs[..i], today) + [] == IntentsOf(logs[..i], today);
  }

  /** The updater applied to each record of a batch in turn; the list never shrinks and
      each record adds at most one entry. */
  function MergeAll(events: seq<IntentEvent>, batch: seq<IntentEvent>): (r: seq<IntentEvent>)
    ensures |events| <= |r| <= |events| + |batch|
  {
    if batch == [] then events
    else MergeIntent(MergeAll(events, batch[..|batch| - 1]), batch[|batch| - 1])
  }

  lemma MergeAllSnoc(events: seq<IntentEvent>, batch: seq<IntentEvent>, e: IntentEvent)
    ensures MergeAll(events, batch + [e]) == MergeIntent(MergeAll(events, batch), e)
  {
    assert (batch + [e])[..|batch|] == batch;
  }

  /** After a batch, the list holds exactly the ids it held plus the batch's. */
  lemma {:induction false} MergeAllIds(events: seq<IntentEvent>, batch: seq<IntentEvent>)
    ensures forall id :: HasId(MergeAll(events, batch), id) <==> HasId(events, id) || HasId(batch, id)
    decreases |batch|
  {
    if batch != [] {
      var front, last := batch[..|batch| - 1], batch[|batch| - 1];
      MergeAllIds(events, front);
      forall id
        ensures HasId(MergeAll(events, batch), id) <==> HasId(events, id) || HasId(batch, id)
      {
        MergeIntentIds(MergeAll(events, front), last, id);
        if HasId(front, id) {
          var k :| 0 <= k < |front| && front[k].id == id;
          assert batch[k] == front[k];
        }
        if HasId(batch, id) && id != last.id {
          var k :| 0 <= k < |batch| && batch[k].id == id;
          assert front[k] == batch[k];
        }
      }
    }
  }

  /** Ids that were distinct stay distinct however many records a batch repeats. */
  lemma {:induction false} MergeAllKeepsDistinct(events: seq<IntentEvent>, batch: seq<IntentEvent>)
    requires DistinctIds(events)
    ensures DistinctIds(MergeAll(events, batch))
    decreases |batch|
  {
    if batch != [] {
      MergeAllKeepsDistinct(events, batch[..|batch| - 1]);
      MergeIntentKeepsDistinct(MergeAll(events, batch[..|batch| - 1]), batch[|batch| - 1]);
    }
  }

  /** The records already listed stay, in their order, at the tail. */
  lemma {:induction false} MergeAllKeepsExisting(events: seq<IntentEvent>, batch: seq<IntentEvent>)
    ensures var r := MergeAll(events, batch); r[|r| - |events|..] == events
    decreases |batch|
  {
    if batch != [] {
      var prev := MergeAll(events, batch[..|batch| - 1]);
      MergeAllKeepsExisting(events, batch[..|batch| - 1]);
      var r := MergeIntent(prev, batch[|batch| - 1]);
      assert r[|r| - |events|..] == r[|r| - |prev|..][|prev| - |events|..];
    }
  }

  /** A batch whose ids are all listed already changes nothing. */
  lemma {:induction false} MergeAllNoNewIds(events: seq<IntentEvent>, batch: seq<IntentEvent>)
    requires forall k :: 0 <= k < |batch| ==> HasId(events, batch[k].id)
    ensures MergeAll(events, batch) == events
    decreases |batch|
  {
    if batch != [] {
      var front := batch[..|batch| - 1];
      assert forall k :: 0 <= k < |front| ==> front[k] == batch[k];
      MergeAllNoNewIds(events, front);
    }
  }

  /** Polling the same logs again leaves the list as the first poll left it. */
  lemma MergeAllIdempotent(events: seq<IntentEvent>, batch: seq<IntentEvent>)
    ensures MergeAll(MergeAll(events, batch), batch) == MergeAll(events, batch)
  {
    var r := MergeAll(events, batch);
    MergeAllIds(events, batch);
    forall k | 0 <= k < |batch|
      ensures HasId(r, batch[k].id)
    {
      assert HasId(batch, batch[k].id);
    }
    MergeAllNoNewIds(r, batch);
  }

  /** The index of the first record with this id, or -1. */
  function IndexOfId(events: seq<IntentEvent>, id: string): (k: int)
    ensures -1 <= k < |events|
    ensures k == -1 <==> !HasId(events, id)
    ensures k >= 0 ==> events[k].id == id && forall j :: 0 <= j < k ==> events[j].id != id
  {
    if events == [] then -1
    else if events[0].id == id then 0
    else
      var k := IndexOfId(events[1..], id);
      if k == -1 then
        assert forall j :: 1 <= j < |events| ==> events[j] == events[1..][j - 1];
        -1
      else k + 1
  }

  lemma IndexOfIdPrepend(e: IntentEvent, events: seq<IntentEvent>, id: string)
    requires e.id != id
    ensures IndexOfId([e] + events, id)
         == if IndexOfId(events, id) == -1 then -1 else IndexOfId(events, id) + 1
  {
    assert ([e] + events)[1..] == events;
  }

  /** The record at index `i` of a batch is new to the list and to the batch
      before it. */
  predicate NewInBatch(events: seq<IntentEvent>, batch: seq<IntentEvent>, i: int) {
    0 <= i < |batch| && !HasId(events, batch[i].id)
    && forall k :: 0 <= k < i ==> batch[k].id != batch[i].id
  }

  /** Of two new records, the one from the later log ends up nearer the head. */
  lemma {:induction false} MergeAllNewestFirst(events: seq<IntentEvent>, batch: seq<IntentEvent>, i: int, j: int)
    requires i < j && NewInBatch(events, batch, i) && NewInBatch(events, batch, j)
    ensures 0 <= IndexOfId(MergeAll(events, batch), batch[j].id)
              < IndexOfId(MergeAll(events, batch), batch[i].id)
    decreases |batch|
  {
    var n := |batch|;
    if j == n - 1 {
      LastNewRecordFirst(events, batch, i);
    } else {
      var front, last := batch[..n - 1], batch[n - 1];
      NewInFront(events, batch, i);
      NewInFront(events, batch, j);
      MergeAllNewestFirst(events, front, i, j);
      var prev := MergeAll(events, front);
      assert MergeAll(events, batch) == MergeIntent(prev, last);
      if !HasId(prev, last.id) {
        assert last.id != batch[i].id && last.id != batch[j].id;
        IndexOfIdPrepend(last, prev, batch[i].id);
        IndexOfIdPrepend(last, prev, batch[j].id);
      }
    }
  }

  lemma NewInFront(events: seq<IntentEvent>, batch: seq<IntentEvent>, i: int)
    requires NewInBatch(events, batch, i) && i < |batch| - 1
    ensures NewInBatch(events, batch[..|batch| - 1], i)
  {
    var front := batch[..|batch| - 1];
    assert forall k :: 0 <= k <= i ==> front[k] == batch[k];
  }

  /** The base case: a new record from the batch's last log goes to the head,
      ahead of any earlier new record. */
  lemma LastNewRecordFirst(events: seq<IntentEvent>, batch: seq<IntentEvent>, i: int)
    requires |batch| > 0 && i < |batch| - 1
    requires NewInBatch(events, batch, i) && NewInBatch(events, batch, |batch| - 1)
    ensures IndexOfId(MergeAll(events, batch), batch[|batch| - 1].id) == 0
    ensures IndexOfId(MergeAll(events, batch), batch[i].id) > 0
  {
    var n := |batch|;
    var front, last := batch[..n - 1], batch[n - 1];
    var prev := MergeAll(events, front);
    MergeAllIds(events, front);
    assert front[i] == batch[i];
    assert HasId(prev, batch[i].id);
    assert !HasId(front, last.id) by {
      assert forall k :: 0 <= k < |front| ==> front[k] == batch[k];
    }
    assert !HasId(prev, last.id);
    assert MergeAll(events, batch) == [last] + prev;
    IndexOfIdPrepend(last, prev, batch[i].id);
  }

  // ---------------------------------------------------------------------------
  // Fees

  /** The exact fee total, in wei, of a list of records. */
  function SumFees(events: seq<IntentEvent>): int {
    if events == [] then 0 else SumFees(events[..|events| - 1]) + events[|events| - 1].feeWei
  }

  /** When no record lost value, the total is not negative either. */
  lemma {:induction false} SumFeesNonNegative(events: seq<IntentEvent>)
    requires forall k :: 0 <= k < |events| ==> events[k].feeWei >= 0
    ensures SumFees(events) >= 0
    decreases |events|
  {
    if events != [] {
      SumFeesNonNegative(events[..|events| - 1]);
    }
  }

  lemma {:induction false} SumFeesPrepend(e: IntentEvent, events: seq<IntentEvent>)
    ensures SumFees([e] + events) == e.feeWei + SumFees(events)
    decreases |events|
  {
    if events != [] {
      var front := events[..|events| - 1];
      assert ([e] + events)[..|events|] == [e] + front;
      SumFeesPrepend(e, front);
    }
  }

  /** A record whose id is already listed adds nothing to the total; a new one
      adds its own fee once. */
  lemma MergeIntentFees(events: seq<IntentEvent>, e: IntentEvent)
    ensures SumFees(MergeIntent(events, e))
         == SumFees(events) + (if HasId(events, e.id) then 0 else e.feeWei)
  {
    if !HasId(events, e.id) {
      SumFeesPrepend(e, events);
    }
  }

  /** `updateTotalFeesEarned`: the sum of every listed record's fee. */
  method TotalFeesEarned(events: seq<IntentEvent>) returns (total: int)
    ensures total == SumFees(events)
  {
    total := 0;
    var i := 0;
    while i < |events|
      invariant 0 <= i <= |events|
      invariant total == SumFees(events[..i])
    {
      assert events[..i + 1][..i] == events[..i];
      total := total + events[i].feeWei;
      i := i + 1;
    }
    assert events[..|events|] == events;
  }

  // ---------------------------------------------------------------------------
  // The card's state

  /** What a poll gets from the node: no client, a thrown RPC error, or the
      current block number and the logs of the window below it. */
  datatype PollReply = NoClient | RpcFailed | Polled(blockNumber: nat, logs: seq<IntentLog>)

  /** A block range, both ends included. */
  datatype BlockRange = BlockRange(fromBlock: nat, toBlock: nat)

  class IntentFeed {
    var intentEvents: seq<IntentEvent>
    var totalFeesWei: int

    ghost predicate Valid()
      reads this
    {
      DistinctIds(intentEvents) && totalFeesWei == SumFees(intentEvents)
    }

    /** The initial state: no records and a zero total. */
    constructor ()
      ensures Valid() && intentEvents == [] && totalFeesWei == 0
    {
      intentEvents := [];
      totalFeesWei := 0;
    }

    /** The mount effect, and the body of the account/chain effect: the list is
        emptied and the total reset. */
    method ResetEvents()
      modifies this
      ensures Valid() && intentEvents == [] && totalFeesWei == 0
    {
      intentEvents := [];
      totalFeesWei := 0;
    }

    /** The account/chain effect resets only when an account or a chain id is set. */
    method OnAccountOrChainChange(address: Option<string>, chainId: Option<int>)
      requires Valid()
      modifies this
      ensures Valid()
      ensures if (address.Some? && address.value != "") || (chainId.Some? && chainId.value != 0)
              then intentEvents == [] && totalFeesWei == 0
              else intentEvents == old(intentEvents) && totalFeesWei == old(totalFeesWei)
    {
      if (address.Some? && address.value != "") || (chainId.Some? && chainId.value != 0) {
        ResetEvents();
      }
    }

    /** The state updater of one log: a record whose id is listed is dropped, any
        other is put in front and the total recomputed over the new list. */
    method AddIntent(intent: IntentEvent)
      requires Valid()
      modifies this
      ensures Valid()
      ensures intentEvents == MergeIntent(old(intentEvents), intent)
    {
      var eventExists := HasId(intentEvents, intent.id);
      if !eventExists {
        MergeIntentKeepsDistinct(intentEvents, intent);
        intentEvents := [intent] + intentEvents;
        totalFeesWei := TotalFeesEarned(intentEvents);
      }
    }

    /** The `forEach` over the logs: every log whose arguments decoded goes
        through the state updater, in log order. */
    method FoldLogs(logs: seq<IntentLog>, today: string)
      requires Valid()
      modifies this
      ensures Valid()
      ensures intentEvents == MergeAll(old(intentEvents), IntentsOf(logs, today))
    {
      var i := 0;
      while i < |logs|
        invariant 0 <= i <= |logs|
        invariant Valid()
        invariant intentEvents == MergeAll(old(intentEvents), IntentsOf(logs[..i], today))
      {
        if logs[i].args.Some? {
          FoldDecodedLog(old(intentEvents), logs, i, today);
          AddIntent(ToIntentEvent(logs[i].args.value, today));
        } else {
          FoldUndecodedLog(old(intentEvents), logs, i, today);
        }
        i := i + 1;
      }
      assert logs[..|logs|] == logs;
    }

    /** `fetchRecentEvents`: returns the block range it asked the node for, and
        folds the decoded logs into the list in log order; without a client, or
        when the node throws, nothing changes. */
    method FetchRecentEvents(reply: PollReply, today: string) returns (window: Option<BlockRange>)
      requires Valid()
      modifies this
      ensures Valid()
      ensures !reply.Polled? ==>
        window == None && intentEvents == old(intentEvents) && totalFeesWei == old(totalFeesWei)
      ensures reply.Polled? ==>
        && window == Some(BlockRange(FromBlock(reply.blockNumber), reply.blockNumber))
        && intentEvents == MergeAll(old(intentEvents), IntentsOf(reply.logs, today))
    {
      if !reply.Polled? {
        return None;
      }
      window := Some(BlockRange(FromBlock(reply.blockNumber), reply.blockNumber));
      FoldLogs(reply.logs, today);
    }
  }
}
