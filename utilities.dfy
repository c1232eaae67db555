/**
 * The helpers of the notification library's utility file: plain-object
 * cleaning and merging, list upsert, error classification, duration text
 * and the event emitter's listener registration.
 *
 * A JavaScript object is a map from property names to an optional value;
 * `None` is a property explicitly holding `undefined`, and a name that is
 * not in the map also reads as `undefined` (see `Get`).
 */
module Utilities {
  import opened Wrappers
  import opened Text

  /** The JavaScript values the model distinguishes. */
  datatype JsValue = Str(s: string) | Num(n: int) | Bool(b: bool) | Func(ref: nat) | Obj(ref: nat)

  type Record = map<string, Option<JsValue>>

  /** Reading property `k` of `r`: a missing property reads as `undefined`. */
  function Get(r: Record, k: string): Option<JsValue> {
    if k in r then r[k] else None
  }

  // ---------------------------------------------------------------------------
  // removeUndefined and updateOrAdd
  // ---------------------------------------------------------------------------

  /** `removeUndefined(obj)`: a copy of `obj` without the properties holding `undefined`. */
  function RemoveUndefined(obj: Record): (r: Record)
    ensures forall k :: k in r <==> k in obj && obj[k].Some?
    ensures forall k | k in r :: r[k] == obj[k]
  {
    map k | k in obj && obj[k].Some? :: obj[k]
  }

  /** No property of the result holds `undefined`, so cleaning a second time changes nothing. */
  lemma RemoveUndefinedIdempotent(obj: Record)
    ensures forall k | k in RemoveUndefined(obj) :: RemoveUndefined(obj)[k].Some?
    ensures RemoveUndefined(RemoveUndefined(obj)) == RemoveUndefined(obj)
  {
  }

  /** Cleaning is invisible to property reads: every name reads the same value before and after. */
  lemma RemoveUndefinedKeepsReads(obj: Record)
    ensures forall k :: Get(RemoveUndefined(obj), k) == Get(obj, k)
  {
  }

  /** `{ ...target, ...removeUndefined(data) }`: the defined fields of `data` override `target`. */
  function Merge(target: Record, data: Record): (r: Record)
    ensures forall k :: k in r <==> k in target || (k in data && data[k].Some?)
    ensures forall k :: Get(r, k) == if Get(data, k).Some? then Get(data, k) else Get(target, k)
  {
    target + RemoveUndefined(data)
  }

  /** `i` is the first index of `list` whose element satisfies `pred`. */
  predicate IsFirstMatch(list: seq<Record>, pred: Record -> bool, i: int) {
    0 <= i < |list| && pred(list[i]) && forall j | 0 <= j < i :: !pred(list[j])
  }

  /** `list.findIndex(pred)`: the first matching index, or -1 when nothing matches. */
  function FindIndex(list: seq<Record>, pred: Record -> bool): (r: int)
    ensures r == -1 || IsFirstMatch(list, pred, r)
    ensures r == -1 <==> forall j | 0 <= j < |list| :: !pred(list[j])
    decreases |list|
  {
    if |list| == 0 then -1
    else if pred(list[0]) then 0
    else
      var k := FindIndex(list[1..], pred);
      if k == -1 then -1 else k + 1
  }

  /**
   * `updateOrAdd(list, predicate, data)`: merge the defined fields of `data`
   * into the first element satisfying `predicate`, or append the cleaned
   * `data` when no element does. The input list is a value, so it is never
   * changed; the result is a new list, as the source's clone is.
   */
  function UpdateOrAdd(list: seq<Record>, pred: Record -> bool, data: Record): (r: seq<Record>)
    ensures forall i | IsFirstMatch(list, pred, i) :: r == list[i := Merge(list[i], data)]
    ensures (forall j | 0 <= j < |list| :: !pred(list[j])) ==> r == list + [RemoveUndefined(data)]
  {
    var index := FindIndex(list, pred);
    if index != -1 then list[index := Merge(list[index], data)]
    else list + [RemoveUndefined(data)]
  }

  /**
   * Upserting into a list with a match keeps its length, changes only the
   * first matching element, and never lets an `undefined` field of `data`
   * overwrite a field of that element.
   */
  lemma UpdateOrAddMatched(list: seq<Record>, pred: Record -> bool, data: Record, i: int)
    requires IsFirstMatch(list, pred, i)
    ensures |UpdateOrAdd(list, pred, data)| == |list|
    ensures forall j | 0 <= j < |list| && j != i :: UpdateOrAdd(list, pred, data)[j] == list[j]
    ensures forall k | Get(data, k).None? :: Get(UpdateOrAdd(list, pred, data)[i], k) == Get(list[i], k)
    ensures forall k | Get(data, k).Some? :: Get(UpdateOrAdd(list, pred, data)[i], k) == Get(data, k)
  {
  }

  // ---------------------------------------------------------------------------
  // extractMessageFromError
  // ---------------------------------------------------------------------------

  /** The two properties of a thrown error that the classifier reads. */
  datatype ErrorValue = ErrorValue(stack: Option<string>, message: Option<string>)

  datatype ErrorReport = ErrorReport(eventCode: string, errorMsg: string)

  const DeniedPattern := "User denied transaction signature"
  const UnderpricedPattern := "transaction underpriced"
  const UnknownErrorMsg := "An unknown error occured"

  /** JavaScript truthiness of an optional string: defined and not empty. */
  predicate Truthy(s: Option<string>) {
    s.Some? && s.value != ""
  }

  /** JavaScript `a || b` on optional strings: `a` when it is truthy, `b` otherwise. */
  function JsOr(a: Option<string>, b: Option<string>): Option<string> {
    if Truthy(a) then a else b
  }

  /** `extractMessageFromError(error)`: the text searched is `stack || message`. */
  function ExtractMessageFromError(error: ErrorValue): (r: ErrorReport)
    ensures !Truthy(error.stack) || !Truthy(error.message) ==> r == ErrorReport("txError", UnknownErrorMsg)
    ensures Truthy(error.stack) && Truthy(error.message) ==>
      var text := error.stack.value;
      && (Contains(text, DeniedPattern) ==> r == ErrorReport("txSendFail", DeniedPattern))
      && (!Contains(text, DeniedPattern) && Contains(text, UnderpricedPattern) ==>
            r == ErrorReport("txUnderpriced", "Transaction is under priced"))
      && (!Contains(text, DeniedPattern) && !Contains(text, UnderpricedPattern) ==>
            r == ErrorReport("txError", text))
  {
    if !Truthy(error.stack) || !Truthy(error.message) then
      ErrorReport("txError", UnknownErrorMsg)
    else
      var text := JsOr(error.stack, error.message).value;
      if Contains(text, DeniedPattern) then ErrorReport("txSendFail", DeniedPattern)
      else if Contains(text, UnderpricedPattern) then ErrorReport("txUnderpriced", "Transaction is under priced")
      else ErrorReport("txError", text)
  }

  /**
   * Once both `stack` and `message` are truthy, `stack || message` is the
   * stack, so the classification depends on the stack only, never on the
   * message.
   */
  lemma ClassificationIgnoresMessage(stack: string, m1: string, m2: string)
    requires m1 != "" && m2 != ""
    ensures ExtractMessageFromError(ErrorValue(Some(stack), Some(m1)))
         == ExtractMessageFromError(ErrorValue(Some(stack), Some(m2)))
  {
  }

  /** The classifier produces one of three codes, and a denial takes precedence over underpricing. */
  lemma ClassifierCodes(error: ErrorValue)
    ensures ExtractMessageFromError(error).eventCode in {"txError", "txSendFail", "txUnderpriced"}
    ensures Truthy(error.stack) && Truthy(error.message) && Contains(error.stack.value, DeniedPattern) ==>
      ExtractMessageFromError(error).eventCode == "txSendFail"
  {
  }

  // ---------------------------------------------------------------------------
  // timeString
  // ---------------------------------------------------------------------------

  /**
   * `timeString(time)`: whole seconds (rounded down) below a minute, whole
   * minutes from a minute on. Dafny's `/` by a positive divisor rounds
   * down, as `Math.floor` of the quotient does.
   */
  function TimeString(time: int): string {
    var seconds := time / 1000;
    if seconds >= 60 then IntToDecimal(seconds / 60) + " min" else IntToDecimal(seconds) + " sec"
  }

  /** What a duration text says: a count and its unit. */
  datatype Duration = Minutes(count: int) | Seconds(count: int)

  /** Reads a text of the form `<integer> min` or `<integer> sec`. */
  function ReadDuration(text: string): Option<Duration> {
    if |text| >= 4 && text[|text| - 4..] == " min" then Some(Minutes(ParseInt(text[..|text| - 4])))
    else if |text| >= 4 && text[|text| - 4..] == " sec" then Some(Seconds(ParseInt(text[..|text| - 4])))
    else None
  }

  /** Rounding down to seconds and then to minutes is rounding down to minutes. */
  lemma FloorSecondsThenMinutes(time: int)
    ensures (time / 1000) / 60 == time / 60000
    ensures time / 1000 >= 60 <==> time >= 60000
  {
  }

  /**
   * The text shows the duration in minutes exactly when it is at least a
   * minute, and the number shown is the duration rounded down to that unit,
   * written without leading zeros (so, by `CanonicalIntRoundTrip`, the text
   * is the one rendering of that number).
   */
  lemma TimeStringReadsBack(time: int)
    ensures ReadDuration(TimeString(time)) ==
      if time >= 60000 then Some(Minutes(time / 60000)) else Some(Seconds(time / 1000))
    ensures var text := TimeString(time); |text| > 4 && IsCanonicalInt(text[..|text| - 4])
  {
    FloorSecondsThenMinutes(time);
    var seconds := time / 1000;
    var n := if seconds >= 60 then seconds / 60 else seconds;
    var unit := if seconds >= 60 then " min" else " sec";
    var text := IntToDecimal(n) + unit;
    assert TimeString(time) == text;
    assert text[|text| - 4..] == unit;
    assert text[..|text| - 4] == IntToDecimal(n);
    IntToDecimalRoundTrip(n);
  }

  // ---------------------------------------------------------------------------
  // createEmitter().on
  // ---------------------------------------------------------------------------

  /** The event codes `on` accepts, exactly as its switch lists them. */
  const AcceptedEventCodes: set<string> := {
    "txSent", "txPool", "txConfirmed", "txSpeedUp", "txCancel", "txFailed",
    "txRequest", "nsfFail", "txRepeat", "txAwaitingApproval", "txConfirmReminder",
    "txSendFail", "txError", "txUnderPriced", "all"
  }

  predicate IsValidEventCode(code: string) {
    code in AcceptedEventCodes
  }

  function InvalidEventCodeMessage(code: string): string {
    code + " is not a valid event code, for a list of valid event codes see: https://github.com/blocknative/notify"
  }

  const NotAFunctionMessage := "Listener must be a function"

  /** `typeof listener === "function"`. */
  predicate IsFunction(listener: Option<JsValue>) {
    listener.Some? && listener.value.Func?
  }

  /**
   * The code the classifier gives an underpriced transaction is spelled
   * differently from the one `on` accepts, so a listener for it can never
   * be registered; the two stall codes cannot be registered either.
   */
  lemma UnregistrableCodes(error: ErrorValue)
    ensures ExtractMessageFromError(error).eventCode == "txUnderpriced" ==>
      !IsValidEventCode(ExtractMessageFromError(error).eventCode)
    ensures IsValidEventCode("txUnderPriced") && !IsValidEventCode("txUnderpriced")
    ensures !IsValidEventCode("txStallPending") && !IsValidEventCode("txStallConfirmed")
  {
  }

  /** The object `createEmitter()` returns: one listener per event code. */
  class Emitter {
    var listeners: map<string, JsValue>

    /** Only accepted codes are ever registered, and only with functions. */
    ghost predicate Valid()
      reads this
    {
      forall code | code in listeners :: IsValidEventCode(code) && listeners[code].Func?
    }

    constructor ()
      ensures Valid() && listeners == map[]
    {
      listeners := map[];
    }

    /**
     * `on(eventCode, listener)`: the code is checked first, the listener
     * second; either failure throws and leaves `listeners` as it was.
     * Otherwise the entry for the code is overwritten, so the last
     * registration wins and no other entry changes.
     */
    method On(eventCode: string, listener: Option<JsValue>) returns (result: Outcome<string>)
      requires Valid()
      modifies this
      ensures Valid()
      ensures result.Pass? <==> IsValidEventCode(eventCode) && IsFunction(listener)
      ensures !IsValidEventCode(eventCode) ==> result == Fail(InvalidEventCodeMessage(eventCode))
      ensures IsValidEventCode(eventCode) && !IsFunction(listener) ==> result == Fail(NotAFunctionMessage)
      ensures listeners == if result.Pass? then old(listeners)[eventCode := listener.value] else old(listeners)
    {
      if !IsValidEventCode(eventCode) {
        return Fail(InvalidEventCodeMessage(eventCode));
      }
      if !IsFunction(listener) {
        return Fail(NotAFunctionMessage);
      }
      listeners := listeners[eventCode := listener.value];
      result := Pass;
    }
  }

  /** Registering twice for the same code keeps only the second listener. */
  method RegisterTwice(e: Emitter, code: string, first: JsValue, second: JsValue)
    requires e.Valid() && IsValidEventCode(code) && first.Func? && second.Func?
    modifies e
    ensures e.Valid()
    ensures e.listeners == old(e.listeners)[code := second]
  {
    var r1 := e.On(code, Some(first));
    var r2 := e.On(code, Some(second));
  }
}
