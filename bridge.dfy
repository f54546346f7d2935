/**
 * The single-slot call-correlation state of the app delegate: the optional `pendingResult`
 * sink, the log of every invocation of a caller's sink, and the abstract UI events
 * (composer presented, composer dismissed). `Step` says what one method call or one
 * composer completion does to this state; the class `AppDelegate` does it in place.
 */
module ComposeBridge {
  import opened Wrappers
  import opened MessageChannel

  /** Identifies the caller whose result sink was handed to the method-call handler. */
  type CallId = nat

  /** One invocation of a caller's result sink. */
  datatype Resolution = Resolution(id: CallId, response: Response)

  /** UIKit side effects, recorded only as events. */
  datatype UiEvent = Presented(composer: Composer) | Dismissed

  /** The slot, the sink-invocation log and the UI log. */
  datatype BridgeState = BridgeState(pending: Option<CallId>, resolved: seq<Resolution>, ui: seq<UiEvent>)

  /** What drives the delegate: a channel method call, or the composer finishing. */
  datatype Event =
    | Call(id: CallId, methodName: string, args: Args, canSendText: bool)
    | Finish(outcome: Outcome)

  const INITIAL := BridgeState(None, [], [])

  /** How many times the sink of caller `id` was invoked in `log`. */
  function Resolutions(log: seq<Resolution>, id: CallId): nat
  {
    if log == [] then 0
    else Resolutions(log[..|log| - 1], id) + (if log[|log| - 1].id == id then 1 else 0)
  }

  /**
   * One event. A call is either answered at once (one sink invocation, slot untouched) or
   * parks its caller in the slot, overwriting whatever was there. A completion answers the
   * parked caller, if any, and empties the slot.
   */
  function Step(s: BridgeState, e: Event): (t: BridgeState)
    ensures s.resolved <= t.resolved && |t.resolved| <= |s.resolved| + 1
    ensures s.ui <= t.ui
    ensures e.Finish? ==> t.pending == None
  {
    match e
    case Call(id, methodName, args, canSendText) =>
      (match Dispatch(methodName, args, canSendText)
       case Reply(r) => s.(resolved := s.resolved + [Resolution(id, r)])
       case Present(c) => s.(pending := Some(id), ui := s.ui + [Presented(c)]))
    case Finish(o) =>
      var answered := if s.pending.Some? then [Resolution(s.pending.value, CompletionResponse(o))] else [];
      BridgeState(None, s.resolved + answered, s.ui + [Dismissed])
  }

  /** A sequence of events, in order. Sink invocations are never retracted. */
  function Run(s: BridgeState, es: seq<Event>): (t: BridgeState)
    ensures s.resolved <= t.resolved && |t.resolved| <= |s.resolved| + |es|
    ensures s.ui <= t.ui
    decreases |es|
  {
    if es == [] then s else Run(Step(s, es[0]), es[1..])
  }

  /** The app delegate, reduced to the state its channel handler and composer delegate share. */
  class AppDelegate {
    var pending: Option<CallId>
    var resolved: seq<Resolution>
    var ui: seq<UiEvent>

    function Snapshot(): BridgeState
      reads this
    {
      BridgeState(pending, resolved, ui)
    }

    constructor ()
      ensures Snapshot() == INITIAL
    {
      pending := None;
      resolved := [];
      ui := [];
    }

    /** The closure registered with `setMethodCallHandler`; `canSendText` is the answer of the SMS service. */
    method HandleMethodCall(call: CallId, methodName: string, args: Args, canSendText: bool)
      modifies this
      ensures Snapshot() == Step(old(Snapshot()), Call(call, methodName, args, canSendText))
    {
      if methodName == SEND_MESSAGE {
        if args.NotDict? {
          resolved := resolved + [Resolution(call, Error(INVALID_ARGUMENTS, BAD_FORMAT_MESSAGE))];
          return;
        }
        var entries := args.entries;
        if !(RECIPIENT_KEY in entries && entries[RECIPIENT_KEY].Str?) {
          resolved := resolved + [Resolution(call, Error(INVALID_ARGUMENTS, NO_RECIPIENT_MESSAGE))];
          return;
        }
        var recipient := entries[RECIPIENT_KEY].s;
        if !(MESSAGE_KEY in entries && entries[MESSAGE_KEY].Str?) {
          resolved := resolved + [Resolution(call, Error(INVALID_ARGUMENTS, NO_MESSAGE_MESSAGE))];
          return;
        }
        var message := entries[MESSAGE_KEY].s;
        if canSendText {
          var composer := Composer([recipient], message);
          pending := Some(call);
          ui := ui + [Presented(composer)];
        } else {
          resolved := resolved + [Resolution(call, Error(SMS_NOT_AVAILABLE, SMS_NOT_AVAILABLE_MESSAGE))];
        }
      } else {
        resolved := resolved + [Resolution(call, NotImplemented)];
      }
    }

    /** `messageComposeViewController(_:didFinishWith:)`. */
    method MessageComposeDidFinish(outcome: Outcome)
      modifies this
      ensures Snapshot() == Step(old(Snapshot()), Finish(outcome))
    {
      ui := ui + [Dismissed];
      var response: Response;
      match outcome {
        case Sent => response := Success("sent");
        case Cancelled => response := Success("cancelled");
        case Failed => response := Error(SEND_FAILED, SEND_FAILED_MESSAGE);
        case Unknown => response := Error(UNKNOWN_RESULT, UNKNOWN_RESULT_MESSAGE);
      }
      if pending.Some? {
        resolved := resolved + [Resolution(pending.value, response)];
      }
      pending := None;
    }
  }
}
