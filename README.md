# Transaction notification core, modelled in Dafny

This project models two parts of a browser library that follows blockchain
transactions and hands notification events (`txRequest`, `nsfFail`,
`txRepeat`, `txConfirmReminder`, ...) to a notification layer.

- **Utilities** (`utilities.dfy`, module `Utilities`): `removeUndefined`,
  `updateOrAdd` (the upsert rule of the transaction store) with `findIndex`
  (the array method `updateOrAdd` uses),
  `extractMessageFromError` (turning an error's text into an event code and a
  message), `timeString` (a millisecond count as whole seconds or whole
  minutes), and the emitter returned by `createEmitter()`. The emitter is a
  class whose `listeners` map is updated in place by `On`. JavaScript objects
  are maps from property names to `Option<JsValue>`: `None` is a property
  holding `undefined`, and a missing name also reads as `undefined`.
- **Pre-flight flow** (`preflight.dfy`, module `PreFlight`): the decision
  procedure of `transaction(options)`. In order, it runs the funds check, the
  duplicate check, the awaiting-approval check, emits `txRequest`, and then
  takes the send step. `Transaction` is a method that appends each emitted
  event to a log, each scheduled check to a list of armed timers, and ends
  with a settlement: rejected with a reason, resolved with the id, resolved
  with `{ emitter, sendTransactionResult }` after a hash, or never settled. It is proved equal to the
  specification function `PreFlightRun`, and the properties are lemmas about
  that function. The three delayed checks are predicates evaluated on the
  transaction queue at the moment they fire.
- `text.dfy` (module `Text`) holds substring search (`includes`) and the
  decimal rendering of integers used in template literals, each with its
  inverse. `wrappers.dfy` holds `Option` and `Outcome`.

Modelling choices:

- Amounts, gas limits and gas prices are unbounded integers, as the
  arbitrary-precision library makes them.
- The asynchronous inputs are replaced by their results:
  - each gas estimate is an optional integer, None when its estimator is not
    supplied;
  - the duplicate-candidate search of the transactions module is an oracle
    `TxDetails -> bool`;
  - the `uuid()` id is a parameter;
  - `sendTransaction` is one of three outcomes: not provided, rejects, or
    resolves with an optional hash.
- A call that hands an event to the notification layer becomes one appended
  `Emission(eventCode, status)`.
- The queue is the store's record list as it stands when it is read.

Behaviour kept exactly as the code has it:

- The funds check runs when `balance`, `estimateGas` and `gasPrice` are all
  supplied. It then reads `txDetails.value` without a guard. With no
  `txDetails`, that read throws inside the asynchronous executor, so nothing is
  emitted, nothing is scheduled and the returned promise never settles
  (`MissingDetailsNeverSettles`).
- A send that resolves without a non-empty `hash` leaves the promise
  unsettled.
- `on` accepts `"txUnderPriced"`, but the classifier produces
  `"txUnderpriced"`. `on` also rejects `"txStallPending"` and
  `"txStallConfirmed"`, which are the codes the two stall checks emit
  (`UnregistrableCodes`, `StallEventsUnregistrable`).
- A failed send rejects with the fixed reason "User rejected transaction";
  `extractMessageFromError` is never called on that path.
- The accepted event codes are the 15 of `on`'s switch.

## Model

| member | source | states |
|---|---|---|
| `Utilities.RemoveUndefined` | src/utilities.js:19-27 | the result keeps exactly the properties whose value is not `undefined`, each with its value unchanged |
| `Utilities.RemoveUndefinedIdempotent` | src/utilities.js:19-27 | no property of the result holds `undefined`, and cleaning twice equals cleaning once |
| `Utilities.RemoveUndefinedKeepsReads` | src/utilities.js:19-27 | every property name reads the same value (possibly `undefined`) from the cleaned object as from the original |
| `Utilities.Merge` | src/utilities.js:35 | the merged object has the element's properties plus the defined ones of the data; a property reads the data's value when that is defined and the element's otherwise |
| `Utilities.FindIndex` | src/utilities.js:32 | the result is -1 exactly when no element satisfies the predicate, and otherwise the first index whose element does |
| `Utilities.UpdateOrAdd` | src/utilities.js:30-40 | with a first match at `i` the result is the list with only element `i` replaced by the merge; with no match it is the list followed by the cleaned data |
| `Utilities.UpdateOrAddMatched` | src/utilities.js:30-37 | with a match the length is unchanged, every other element is unchanged, undefined data fields never overwrite, and defined ones always do |
| `Utilities.ExtractMessageFromError` | src/utilities.js:42-70 | missing or empty stack or message gives `txError` with "An unknown error occured"; otherwise the stack text is classified: the denial pattern gives `txSendFail`, else the underpricing pattern gives `txUnderpriced`, else `txError` with the raw text |
| `Utilities.JsOr` | src/utilities.js:50 | JavaScript's logical or on optional strings: the first operand when it is truthy, otherwise the second; `ClassificationIgnoresMessage` states that with both truthy the stack is the text classified |
| `Utilities.ClassificationIgnoresMessage` | src/utilities.js:43-50 | when both are present, the result depends on the stack only, never on the message |
| `Utilities.ClassifierCodes` | src/utilities.js:50-69 | the code is one of `txError`, `txSendFail`, `txUnderpriced`, and a denial wins over underpricing |
| `Text.Contains` | src/utilities.js:52-59 | `includes` as a left-to-right scan; `ContainsIffOccurs` states it holds exactly when the pattern occurs at some index |
| `Text.ContainsIffOccurs` | src/utilities.js:52-59 | the left-to-right `includes` scan succeeds exactly when the pattern occurs at some index of the text |
| `Text.NatToDecimalRoundTrip` | src/utilities.js:7 | the decimal text of a natural number is non-empty, all digits, has no leading zero (except "0" itself), and reads back as the number |
| `Text.CanonicalIntRoundTrip` | src/utilities.js:7 | every canonical integer text (no leading zeros, no "-0") is the rendering of the number it reads as, so number and text correspond one to one |
| `Text.IntToDecimal` | src/utilities.js:7 | the template-literal rendering of an integer; `IntToDecimalRoundTrip` states it is canonical, signed exactly for negatives, and reads back as the integer |
| `Text.IntToDecimalRoundTrip` | src/utilities.js:7 | the text of a signed integer is canonical, starts with '-' exactly for negatives, and reads back as that integer |
| `Utilities.TimeString` | src/utilities.js:5-8 | `timeString`; `TimeStringReadsBack` states its text is the canonical count of whole minutes from 60000 ms on, and of whole seconds below |
| `Utilities.FloorSecondsThenMinutes` | src/utilities.js:6-7 | rounding down to seconds and then to minutes equals rounding down to minutes, and "at least 60 seconds" means "at least 60000 ms" |
| `Utilities.TimeStringReadsBack` | src/utilities.js:5-8 | the text reads back as `<t div 60000> min` when `t >= 60000` and as `<t div 1000> sec` otherwise (rounding down), with the count written canonically, so the text is exactly the rendering of that count and unit |
| `Utilities.UnregistrableCodes` | src/utilities.js:59-98 | the classifier's `txUnderpriced` cannot be registered while `txUnderPriced` can; `txStallPending` and `txStallConfirmed` cannot be registered |
| `Utilities.Emitter.constructor` | src/utilities.js:72-74 | a new emitter has no listeners |
| `Utilities.Emitter.On` | src/utilities.js:75-107 | an unaccepted code throws the invalid-code message; else a non-function listener throws "Listener must be a function"; either way `listeners` is unchanged. On success only the entry for the code is overwritten. Only accepted codes mapped to functions are ever stored |
| `Utilities.RegisterTwice` | src/utilities.js:106 | two successful registrations for one code leave the second listener, with no other entry changed |
| `PreFlight.SomeAwaitingApproval` | src/index.js:140 | the queue search succeeds exactly when some record, for any id, has status `awaitingApproval` |
| `PreFlight.PreFlightRun` | src/index.js:52-261 | the specification of one call, by cases; the lemmas `InsufficientFundsHalts` to `RunInvariants` state its properties |
| `PreFlight.FundsCheckApplies` | src/index.js:97 | the funds check runs exactly when balance, gas limit and gas price are all supplied; `FundsCheckBoundary` states that a missing one lets the flow through |
| `PreFlight.TransactionCost` | src/index.js:98-100 | gas limit times gas price plus the value, without overflow |
| `PreFlight.InsufficientFunds` | src/index.js:97-103 | the check applies and the cost is strictly greater than the balance; `InsufficientFundsHalts` and `FundsCheckBoundary` state that this, and only this, ends the call with `nsfFail` |
| `PreFlight.Transaction` | src/index.js:52-261 | the step-by-step flow produces exactly the log, armed timers and settlement of `PreFlightRun` |
| `PreFlight.InsufficientFundsHalts` | src/index.js:97-116 | when gas limit times price plus value exceeds the balance, the only event is `nsfFail`, the call rejects with "User has insufficient funds", nothing is armed and `txRequest` is never emitted |
| `PreFlight.FundsCheckBoundary` | src/index.js:97-103 | a cost up to and including the balance, or any missing input among balance, gas limit and gas price, lets the flow reach `txRequest` without `nsfFail` |
| `PreFlight.BalanceScenarios` | src/index.js:97-116 | balance 1000 with gas 10 at price 50 and value 0 proceeds to `txRequest`; balance 400 is rejected with only `nsfFail` |
| `PreFlight.MissingDetailsNeverSettles` | src/index.js:97-100 | when the funds check runs without `txDetails`, nothing is emitted or armed and the call never settles |
| `PreFlight.EmissionOrder` | src/index.js:119-208 | past the funds check the codes are, in order: `txRepeat` iff details exist and the oracle holds; `txAwaitingApproval` iff some queued record awaits approval; `txRequest`; `txSendFail` iff the send rejects |
| `PreFlight.SendOutcomes` | src/index.js:183-260 | without a send function the call resolves with its id and `txRequest` is the last event. A rejected send ends with `txSendFail` (status `failed`) and rejects with "User rejected transaction". A result without a hash never settles. A hash resolves with `{ emitter, sendTransactionResult }`. On every path the reminder is armed, followed by both stall checks exactly when there is a hash |
| `PreFlight.RunInvariants` | src/index.js:97-260 | no check is armed twice, and stall checks are armed only after a hash. The call rejects iff `nsfFail` or `txSendFail` was emitted. Every emitted code is accepted by `on` |
| `PreFlight.ReminderFires` | src/index.js:154-159 | the reminder fires iff some record with this id has status `awaitingApproval` |
| `PreFlight.StallFires` | src/index.js:215-244 | a stall check fires iff the first record with this id has the expected status and the client's status flags say it is connected and its node synced |
| `PreFlight.Fire` | src/index.js:154-257 | each armed check emits at most one event, with no status, exactly when its guard holds: `txConfirmReminder`, `txStallPending` or `txStallConfirmed` respectively |
| `PreFlight.StallEventsUnregistrable` | src/index.js:223-246 | of the fired events, only the reminder's code is accepted by `on` |
| `PreFlight.ChecksReadTheRecord` | src/index.js:154-244 | with one record per id, the reminder fires iff that record awaits approval, and each stall check fires iff it has `sent` or `pending` and the client's status flags both hold |
| `PreFlight.UpsertById` | src/utilities.js:30-40 | upserting by id keeps one record per id and leaves a record with the id that reads every defined field of the data; this links a later hash to the pre-flight record |
| `PreFlight.ReminderSelfInvalidates` | src/index.js:154-244 | after the store records the request as awaiting approval the reminder would fire. Once the record moves to `sent`: the reminder no longer fires, stall-pending fires iff the client's status flags both hold, and stall-confirmed does not fire |

## Left out

- `formatTime` and `argsEqual`: they depend on `Date`, locale formatting and `JSON.stringify`.
- `init`'s setup: building the status API client, mounting the UI, updating the app store. `account` and `hash` are left out too: they are thin wrappers over that client. That client is not part of this model.
- Promises, `await` and `setTimeout` timing: the model keeps the order of events and the settlement, and evaluates each delayed check as a predicate at its firing time. Real delays and interleavings with other calls are not modelled.
- Estimator failures and their `console.error` logging: the arbitrary-precision library's value for `undefined` is not modelled. A gas field is either a resolved integer or absent.
- Parse failures of `bigInt(balance)` and `bigInt(txDetails.value)` are not modelled. Balances and values are integers.
- A `sendTransaction` that throws synchronously is not modelled.
- The internals of the transactions module are not part of this model. That covers `handlePreFlightEvent`, `duplicateTransactionCandidate` and `handleTransactionEvent`. Emissions are log entries, and the duplicate check is an oracle. So the model does not capture how emissions change the store between the checks: the awaiting-approval check reads the queue as given.
- The value resolved after a hash (`ResolvedAfterHash`): its `emitter` is read as `hash(...).emitter`, but `hash()` already returns the client's emitter, so the value read is that emitter's own `emitter` property. The model records only the hash and does not say what that value holds; on an emitter shaped like `createEmitter()`'s, which has only `listeners` and `on`, it would be `undefined`.
- The `contract`, `listeners`, `balance` and `txObject` payload passed with each event is not modelled, and neither is the shape of the resolved `{ emitter, sendTransactionResult }` value. The emitter returned by `hash()` comes from the unseen client.
- Dispatching events to registered listeners: it happens in code that is not part of this model.
- `Utilities.TimeString`: JavaScript switches to exponent notation for magnitudes of 10^21 and above, and `time` may be fractional; the model renders whole milliseconds as plain decimal digits.
