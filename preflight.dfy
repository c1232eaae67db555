/**
 * The pre-flight decision flow of `transaction()` in the library's entry
 * file, and the three delayed checks it schedules.
 *
 * The asynchronous steps are replaced by their results: the gas estimates
 * arrive as optional integers, the duplicate-candidate check is an oracle
 * parameter, the unique id is supplied, the send function is an outcome, and
 * every call that hands an event to the notification layer appends one
 * `Emission` to an ordered log. The transaction queue is the store's list of
 * records as it stands when it is read.
 */
module PreFlight {
  import opened Wrappers
  import opened Utilities

  // ---------------------------------------------------------------------------
  // Vocabulary
  // ---------------------------------------------------------------------------

  const NsfFail := "nsfFail"
  const TxRepeat := "txRepeat"
  const TxAwaitingApproval := "txAwaitingApproval"
  const TxRequest := "txRequest"
  const TxSendFail := "txSendFail"
  const TxConfirmReminder := "txConfirmReminder"
  const TxStallPending := "txStallPending"
  const TxStallConfirmed := "txStallConfirmed"

  const AwaitingApproval := "awaitingApproval"
  const Sent := "sent"
  const Pending := "pending"
  const Failed := "failed"

  const InsufficientFundsReason := "User has insufficient funds"
  const UserRejectedReason := "User rejected transaction"

  /** The `to` and `value` of the caller's transaction details. */
  datatype TxDetails = TxDetails(to: string, value: int)

  /** What the caller's `sendTransaction` does, if there is one. */
  datatype SendTransaction =
    | NotProvided
    | Rejects                            // the returned promise rejects
    | Resolves(hash: Option<string>)     // it resolves; `hash` is `result.hash` (None when `result` or its hash is missing)

  /**
   * The options of one `transaction()` call. `gasLimit` and `gasPrice` are the
   * resolved results of the `estimateGas` and `gasPrice` estimators, None when
   * the estimator is not supplied; `balance` is None when not supplied.
   */
  datatype Options = Options(
    balance: Option<int>,
    gasLimit: Option<int>,
    gasPrice: Option<int>,
    txDetails: Option<TxDetails>,
    send: SendTransaction)

  /** One event handed to the notification layer, with the record status it carries, if any. */
  datatype Emission = Emission(eventCode: string, status: Option<string>)

  /** The delayed checks `transaction()` can schedule. */
  datatype Timer = ConfirmReminder | StallPending | StallConfirmed

  /** How the promise returned by `transaction()` ends. */
  datatype Settlement =
    | Rejected(reason: string)
    | ResolvedWithId(id: string)
    // resolves with `{ emitter, sendTransactionResult }` once the send result has a hash
    | ResolvedAfterHash(hash: string)
    | NeverSettles

  /** Everything one call does before it settles: emissions in order, timers armed, settlement. */
  datatype Run = Run(log: seq<Emission>, armed: seq<Timer>, settlement: Settlement)

  // ---------------------------------------------------------------------------
  // Queue reads
  // ---------------------------------------------------------------------------

  predicate IdIs(r: Record, id: string) {
    Get(r, "id") == Some(Str(id))
  }

  predicate StatusIs(r: Record, status: string) {
    Get(r, "status") == Some(Str(status))
  }

  /** The predicate `tx => tx.id === id`. */
  function ById(id: string): Record -> bool {
    r => IdIs(r, id)
  }

  /** `transactionQueue.find(tx => tx.status === "awaitingApproval")` finds a record. */
  function SomeAwaitingApproval(queue: seq<Record>): (b: bool)
    ensures b <==> exists i | 0 <= i < |queue| :: StatusIs(queue[i], AwaitingApproval)
  {
    FindIndex(queue, r => StatusIs(r, AwaitingApproval)) != -1
  }

  // ---------------------------------------------------------------------------
  // The funds check
  // ---------------------------------------------------------------------------

  /** The funds check runs only when the balance and both gas estimators are supplied. */
  predicate FundsCheckApplies(o: Options) {
    o.balance.Some? && o.gasLimit.Some? && o.gasPrice.Some?
  }

  /** Gas limit times gas price plus the value sent, in unbounded integers. */
  function TransactionCost(gasLimit: int, price: int, value: int): int {
    gasLimit * price + value
  }

  /**
   * The funds check reads `txDetails.value` without a guard: when the details
   * are missing it throws inside the asynchronous executor, which leaves the
   * returned promise unsettled.
   */
  predicate FundsCheckThrows(o: Options) {
    FundsCheckApplies(o) && o.txDetails.None?
  }

  /** The cost is strictly greater than the balance. */
  predicate InsufficientFunds(o: Options) {
    FundsCheckApplies(o) && o.txDetails.Some? &&
    TransactionCost(o.gasLimit.value, o.gasPrice.value, o.txDetails.value.value) > o.balance.value
  }

  /** The flow gets past the funds check and reaches the duplicate check. */
  predicate PassesFundsCheck(o: Options) {
    !FundsCheckThrows(o) && !InsufficientFunds(o)
  }

  // ---------------------------------------------------------------------------
  // The specification of one call
  // ---------------------------------------------------------------------------

  /** The advisory events, in the order they are checked: repeat, then awaiting approval. */
  function Advisories(o: Options, isDuplicate: TxDetails -> bool, queue: seq<Record>): seq<Emission> {
    (if o.txDetails.Some? && isDuplicate(o.txDetails.value) then [Emission(TxRepeat, None)] else [])
    + (if SomeAwaitingApproval(queue) then [Emission(TxAwaitingApproval, None)] else [])
  }

  /** A send result carries a hash when it has a non-empty `hash`. */
  predicate HasHash(s: SendTransaction) {
    s.Resolves? && s.hash.Some? && s.hash.value != ""
  }

  /** What follows `txRequest`, as a run of the send step. */
  function SendStep(s: SendTransaction, id: string): Run {
    match s
    case NotProvided => Run([], [], ResolvedWithId(id))
    case Rejects => Run([Emission(TxSendFail, Some(Failed))], [], Rejected(UserRejectedReason))
    case Resolves(_) =>
      if HasHash(s) then Run([], [StallPending, StallConfirmed], ResolvedAfterHash(s.hash.value))
      else Run([], [], NeverSettles)
  }

  /**
   * The whole call, stated by cases: the funds check throws, or fails, or the
   * advisories, the request and the send step follow one another.
   */
  function PreFlightRun(o: Options, id: string, isDuplicate: TxDetails -> bool, queue: seq<Record>): Run {
    if FundsCheckThrows(o) then Run([], [], NeverSettles)
    else if InsufficientFunds(o) then Run([Emission(NsfFail, None)], [], Rejected(InsufficientFundsReason))
    else
      var send := SendStep(o.send, id);
      Run(Advisories(o, isDuplicate, queue) + [Emission(TxRequest, Some(AwaitingApproval))] + send.log,
          [ConfirmReminder] + send.armed,
          send.settlement)
  }

  /**
   * `transaction(options)`, step by step: each event handed on is appended to
   * `log`, each `setTimeout` appends its check to `armed`, and the first
   * `resolve` or `reject` ends the call.
   */
  method Transaction(o: Options, id: string, isDuplicate: TxDetails -> bool, queue: seq<Record>)
    returns (log: seq<Emission>, armed: seq<Timer>, settlement: Settlement)
    ensures Run(log, armed, settlement) == PreFlightRun(o, id, isDuplicate, queue)
  {
    log, armed := [], [];

    // sufficient-balance check
    if o.balance.Some? && o.gasLimit.Some? && o.gasPrice.Some? {
      if o.txDetails.None? {
        // reading `txDetails.value` throws; neither resolve nor reject is reached
        settlement := NeverSettles;
        return;
      }
      var cost := TransactionCost(o.gasLimit.value, o.gasPrice.value, o.txDetails.value.value);
      if cost > o.balance.value {
        log := log + [Emission(NsfFail, None)];
        settlement := Rejected(InsufficientFundsReason);
        return;
      }
    }

    // duplicate transaction check
    if o.txDetails.Some? && isDuplicate(o.txDetails.value) {
      log := log + [Emission(TxRepeat, None)];
    }

    // previous transactions awaiting approval
    if FindIndex(queue, r => StatusIs(r, AwaitingApproval)) != -1 {
      log := log + [Emission(TxAwaitingApproval, None)];
    }

    // confirm reminder after timeout
    armed := armed + [ConfirmReminder];

    log := log + [Emission(TxRequest, Some(AwaitingApproval))];

    match o.send {
      case NotProvided =>
        settlement := ResolvedWithId(id);
      case Rejects =>
        log := log + [Emission(TxSendFail, Some(Failed))];
        settlement := Rejected(UserRejectedReason);
      case Resolves(hash) =>
        if hash.Some? && hash.value != "" {
          armed := armed + [StallPending, StallConfirmed];
          settlement := ResolvedAfterHash(hash.value);
        } else {
          settlement := NeverSettles;
        }
    }
  }

  // ---------------------------------------------------------------------------
  // Properties of a call
  // ---------------------------------------------------------------------------

  /**
   * When the cost exceeds the balance, `nsfFail` is the only event, the call
   * rejects for insufficient funds, nothing is scheduled and `txRequest` is
   * never emitted.
   */
  lemma InsufficientFundsHalts(o: Options, id: string, isDuplicate: TxDetails -> bool, queue: seq<Record>)
    requires FundsCheckApplies(o) && o.txDetails.Some?
    requires TransactionCost(o.gasLimit.value, o.gasPrice.value, o.txDetails.value.value) > o.balance.value
    ensures PreFlightRun(o, id, isDuplicate, queue) == Run([Emission(NsfFail, None)], [], Rejected(InsufficientFundsReason))
    ensures Emission(TxRequest, Some(AwaitingApproval)) !in PreFlightRun(o, id, isDuplicate, queue).log
  {
  }

  /**
   * The comparison is strict, so a cost up to and including the balance
   * passes, and the check is skipped when an input is missing: in both cases
   * the flow goes on to `txRequest` and `nsfFail` is not emitted.
   */
  lemma FundsCheckBoundary(o: Options, id: string, isDuplicate: TxDetails -> bool, queue: seq<Record>)
    requires
      || !FundsCheckApplies(o)
      || (o.txDetails.Some? &&
          TransactionCost(o.gasLimit.value, o.gasPrice.value, o.txDetails.value.value) <= o.balance.value)
    ensures Emission(TxRequest, Some(AwaitingApproval)) in PreFlightRun(o, id, isDuplicate, queue).log
    ensures Emission(NsfFail, None) !in PreFlightRun(o, id, isDuplicate, queue).log
  {
  }

  /**
   * A balance of 1000 covers a gas limit of 10 at price 50 with nothing sent
   * (cost 500), so the request goes ahead; a balance of 400 does not.
   */
  lemma BalanceScenarios(send: SendTransaction, id: string, isDuplicate: TxDetails -> bool, queue: seq<Record>, to: string)
    ensures var covered := Options(Some(1000), Some(10), Some(50), Some(TxDetails(to, 0)), send);
      Emission(TxRequest, Some(AwaitingApproval)) in PreFlightRun(covered, id, isDuplicate, queue).log
    ensures var short := Options(Some(400), Some(10), Some(50), Some(TxDetails(to, 0)), send);
      PreFlightRun(short, id, isDuplicate, queue) == Run([Emission(NsfFail, None)], [], Rejected(InsufficientFundsReason))
  {
  }

  /**
   * Reading `txDetails.value` when the details are missing: the call emits
   * nothing, schedules nothing and never settles.
   */
  lemma MissingDetailsNeverSettles(o: Options, id: string, isDuplicate: TxDetails -> bool, queue: seq<Record>)
    requires FundsCheckApplies(o) && o.txDetails.None?
    ensures PreFlightRun(o, id, isDuplicate, queue) == Run([], [], NeverSettles)
  {
  }

  /** The codes of a log, in order. */
  function Codes(log: seq<Emission>): (r: seq<string>)
    ensures |r| == |log| && forall k | 0 <= k < |log| :: r[k] == log[k].eventCode
  {
    if log == [] then [] else [log[0].eventCode] + Codes(log[1..])
  }

  /**
   * On the path past the funds check the codes come in this order:
   * `txRepeat` exactly when there are details the oracle calls a duplicate,
   * then `txAwaitingApproval` exactly when some record in the queue (for any
   * id) awaits approval, then `txRequest`, then `txSendFail` exactly when the
   * send rejects. None of the advisories halts the flow.
   */
  lemma EmissionOrder(o: Options, id: string, isDuplicate: TxDetails -> bool, queue: seq<Record>)
    requires PassesFundsCheck(o)
    ensures Codes(PreFlightRun(o, id, isDuplicate, queue).log) ==
      (if o.txDetails.Some? && isDuplicate(o.txDetails.value) then [TxRepeat] else [])
      + (if exists i | 0 <= i < |queue| :: StatusIs(queue[i], AwaitingApproval) then [TxAwaitingApproval] else [])
      + [TxRequest]
      + (if o.send.Rejects? then [TxSendFail] else [])
  {
  }

  /**
   * The settlement and the timers by send outcome: without a send function
   * the call resolves with its id right after `txRequest`; a rejected send
   * rejects with the user-rejected reason and arms no stall check; a send
   * whose result has no hash never settles; a hash arms both stall checks and
   * resolves. The reminder is armed on every path past the funds check.
   */
  lemma SendOutcomes(o: Options, id: string, isDuplicate: TxDetails -> bool, queue: seq<Record>)
    requires PassesFundsCheck(o)
    ensures var run := PreFlightRun(o, id, isDuplicate, queue);
      && (o.send.NotProvided? ==>
            run.settlement == ResolvedWithId(id) && run.log[|run.log| - 1] == Emission(TxRequest, Some(AwaitingApproval)))
      && (o.send.Rejects? ==>
            run.settlement == Rejected(UserRejectedReason)
            && run.log[|run.log| - 1] == Emission(TxSendFail, Some(Failed)))
      && (o.send.Resolves? && !HasHash(o.send) ==> run.settlement == NeverSettles)
      && (HasHash(o.send) ==> run.settlement == ResolvedAfterHash(o.send.hash.value))
      && run.armed == [ConfirmReminder] + (if HasHash(o.send) then [StallPending, StallConfirmed] else [])
  {
  }

  /**
   * Whatever the inputs: each check is armed at most once, stall checks only
   * with a hash, the call rejects exactly when `nsfFail` or `txSendFail` was
   * emitted, and every emitted code is one a listener can be registered for.
   */
  lemma RunInvariants(o: Options, id: string, isDuplicate: TxDetails -> bool, queue: seq<Record>)
    ensures var run := PreFlightRun(o, id, isDuplicate, queue);
      && (forall i, j | 0 <= i < j < |run.armed| :: run.armed[i] != run.armed[j])
      && (StallPending in run.armed || StallConfirmed in run.armed ==> PassesFundsCheck(o) && HasHash(o.send))
      && (run.settlement.Rejected? <==>
            Emission(NsfFail, None) in run.log || Emission(TxSendFail, Some(Failed)) in run.log)
      && (forall e | e in run.log :: IsValidEventCode(e.eventCode))
  {
  }

  // ---------------------------------------------------------------------------
  // The delayed checks, evaluated when they fire
  // ---------------------------------------------------------------------------

  /** Reminder: some record with this id still awaits approval. */
  function ReminderFires(queue: seq<Record>, id: string): (b: bool)
    ensures b <==> exists i | 0 <= i < |queue| :: IdIs(queue[i], id) && StatusIs(queue[i], AwaitingApproval)
  {
    FindIndex(queue, r => IdIs(r, id) && StatusIs(r, AwaitingApproval)) != -1
  }

  /**
   * A stall check: the first record with this id has the expected status and
   * the client's status flags say it is connected and its node synced.
   */
  function StallFires(queue: seq<Record>, id: string, status: string, connected: bool, nodeSynced: bool): (b: bool)
    ensures b <==> (exists i | IsFirstMatch(queue, ById(id), i) :: StatusIs(queue[i], status)) && connected && nodeSynced
  {
    var i := FindIndex(queue, ById(id));
    i != -1 && StatusIs(queue[i], status) && connected && nodeSynced
  }

  /** What one armed check emits when it fires: its event, or nothing. */
  function Fire(t: Timer, queue: seq<Record>, id: string, connected: bool, nodeSynced: bool): (r: Option<Emission>)
    ensures r.Some? ==> r.value.status.None?
    ensures r.Some? ==> r.value.eventCode == match t
      case ConfirmReminder => TxConfirmReminder
      case StallPending => TxStallPending
      case StallConfirmed => TxStallConfirmed
    ensures t.ConfirmReminder? ==> (r.Some? <==> ReminderFires(queue, id))
    ensures t.StallPending? ==> (r.Some? <==> StallFires(queue, id, Sent, connected, nodeSynced))
    ensures t.StallConfirmed? ==> (r.Some? <==> StallFires(queue, id, Pending, connected, nodeSynced))
  {
    match t
    case ConfirmReminder =>
      if ReminderFires(queue, id) then Some(Emission(TxConfirmReminder, None)) else None
    case StallPending =>
      if StallFires(queue, id, Sent, connected, nodeSynced) then Some(Emission(TxStallPending, None)) else None
    case StallConfirmed =>
      if StallFires(queue, id, Pending, connected, nodeSynced) then Some(Emission(TxStallConfirmed, None)) else None
  }

  /**
   * Of the three checks only the reminder's event can reach a listener
   * registered with `on`: the stall codes are outside its accepted set.
   */
  lemma StallEventsUnregistrable(t: Timer, queue: seq<Record>, id: string, connected: bool, nodeSynced: bool)
    requires Fire(t, queue, id, connected, nodeSynced).Some?
    ensures IsValidEventCode(Fire(t, queue, id, connected, nodeSynced).value.eventCode) <==> t.ConfirmReminder?
  {
  }

  // ---------------------------------------------------------------------------
  // The store: upsert by id
  // ---------------------------------------------------------------------------

  function IdOf(r: Record): Option<JsValue> {
    Get(r, "id")
  }

  /** At most one record per defined id. */
  ghost predicate UniqueIds(queue: seq<Record>) {
    forall i, j | 0 <= i < |queue| && 0 <= j < |queue| && IdOf(queue[i]).Some? && IdOf(queue[i]) == IdOf(queue[j]) :: i == j
  }

  /** The status of the first record with this id, or None when there is no such record. */
  function StatusOf(queue: seq<Record>, id: string): Option<JsValue> {
    var i := FindIndex(queue, ById(id));
    if i == -1 then None else Get(queue[i], "status")
  }

  /**
   * With one record per id, all three checks read the status of that one
   * record: the reminder fires exactly when it awaits approval, a stall check
   * exactly when it has the expected status and the client's status flags both hold.
   */
  lemma ChecksReadTheRecord(queue: seq<Record>, id: string, connected: bool, nodeSynced: bool)
    requires UniqueIds(queue)
    ensures ReminderFires(queue, id) <==> StatusOf(queue, id) == Some(Str(AwaitingApproval))
    ensures StallFires(queue, id, Sent, connected, nodeSynced) <==> StatusOf(queue, id) == Some(Str(Sent)) && connected && nodeSynced
    ensures StallFires(queue, id, Pending, connected, nodeSynced) <==> StatusOf(queue, id) == Some(Str(Pending)) && connected && nodeSynced
  {
  }

  /** The update `{ id, status }` the store merges into the record of a transaction. */
  function StatusUpdate(id: string, status: string): Record {
    map["id" := Some(Str(id)), "status" := Some(Str(status))]
  }

  /**
   * Upserting by id with data whose id is this id or undefined keeps one
   * record per id, leaves a record with this id, and that record reads every
   * defined field of the data.
   */
  lemma UpsertById(queue: seq<Record>, id: string, data: Record)
    requires UniqueIds(queue)
    requires IdOf(data) == None || IdOf(data) == Some(Str(id))
    requires FindIndex(queue, ById(id)) != -1 || IdOf(data) == Some(Str(id))
    ensures var q := UpdateOrAdd(queue, ById(id), data);
      && UniqueIds(q)
      && FindIndex(q, ById(id)) != -1
      && forall k | Get(data, k).Some? :: Get(q[FindIndex(q, ById(id))], k) == Get(data, k)
  {
    var q := UpdateOrAdd(queue, ById(id), data);
    var i := FindIndex(queue, ById(id));
    if i != -1 {
      assert q == queue[i := Merge(queue[i], data)];
      assert IdOf(q[i]) == Some(Str(id));
      forall a, b | 0 <= a < |q| && 0 <= b < |q| && IdOf(q[a]).Some? && IdOf(q[a]) == IdOf(q[b])
        ensures a == b
      {
        if a == i || b == i {
          assert IdOf(queue[a]) == IdOf(queue[b]);
        }
      }
      assert ById(id)(q[i]);
      assert FindIndex(q, ById(id)) == i by {
        var f := FindIndex(q, ById(id));
        assert f != -1;
        assert IdOf(q[f]) == IdOf(q[i]);
      }
    } else {
      var n := |queue|;
      assert q == queue + [RemoveUndefined(data)];
      assert IdOf(q[n]) == Some(Str(id));
      forall a, b | 0 <= a < |q| && 0 <= b < |q| && IdOf(q[a]).Some? && IdOf(q[a]) == IdOf(q[b])
        ensures a == b
      {
        if a != n && b != n {
          assert IdOf(queue[a]) == IdOf(queue[b]);
        }
      }
      assert ById(id)(q[n]);
      assert FindIndex(q, ById(id)) == n;
    }
  }

  /**
   * The reminder is self-invalidating: once the store has recorded the
   * request as awaiting approval the reminder would fire, and once the record
   * has moved on to `sent` it no longer fires, while the stall-pending check
   * fires exactly when the client's status flags both hold and the
   * stall-confirmed check does not.
   */
  lemma ReminderSelfInvalidates(queue: seq<Record>, id: string, connected: bool, nodeSynced: bool)
    requires UniqueIds(queue)
    ensures var requested := UpdateOrAdd(queue, ById(id), StatusUpdate(id, AwaitingApproval));
      var sent := UpdateOrAdd(requested, ById(id), StatusUpdate(id, Sent));
      && ReminderFires(requested, id)
      && !ReminderFires(sent, id)
      && (StallFires(sent, id, Sent, connected, nodeSynced) <==> connected && nodeSynced)
      && !StallFires(sent, id, Pending, connected, nodeSynced)
  {
    var requested := UpdateOrAdd(queue, ById(id), StatusUpdate(id, AwaitingApproval));
    assert Get(StatusUpdate(id, AwaitingApproval), "id") == Some(Str(id));
    assert Get(StatusUpdate(id, AwaitingApproval), "status") == Some(Str(AwaitingApproval));
    UpsertById(queue, id, StatusUpdate(id, AwaitingApproval));
    ChecksReadTheRecord(requested, id, connected, nodeSynced);
    var sent := UpdateOrAdd(requested, ById(id), StatusUpdate(id, Sent));
    assert Get(StatusUpdate(id, Sent), "id") == Some(Str(id));
    assert Get(StatusUpdate(id, Sent), "status") == Some(Str(Sent));
    UpsertById(requested, id, StatusUpdate(id, Sent));
    ChecksReadTheRecord(sent, id, connected, nodeSynced);
  }
}
