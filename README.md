# send_it: the iOS message-composer bridge

The iOS app delegate of send_it registers a handler on the Flutter method channel
`com.sendit/messages`. A `sendMessage` call carries a dictionary with a `recipient` and a
`message`. The handler checks the arguments, asks the SMS service whether it can send text,
and presents the system message composer. It keeps the caller's result sink in a single
optional field, `pendingResult`. When the composer finishes, the delegate answers that sink
with `"sent"`, `"cancelled"`, `SEND_FAILED` or `UNKNOWN_RESULT`, then empties the field.

This project models that call-correlation core in Dafny:

- `MessageChannel` (channel.dfy) holds the pure decisions: decoding the argument bag
  (`DecodeArgs`), choosing between an immediate answer and presenting the composer
  (`Dispatch`), and mapping the composer's outcome to an answer (`CompletionResponse`).
- `ComposeBridge` (bridge.dfy) holds the state. It has the slot, a log of every invocation
  of a caller's sink (`Resolution(id, response)`), and a log of UI events (composer
  presented, composer dismissed). `Step` and `Run` say what one event, or a sequence of
  events, does to that state. The class `AppDelegate` performs the same two operations in
  place, and each method is proved against `Step`.
- `BridgeTraces` (traces.dfy) proves what callers can rely on. For each path it proves the
  answer and whether the slot changes. A completion always empties the slot. Two completions
  in a row answer the parked caller once. A second `sendMessage` that decodes and finds SMS
  available (the one that presents the composer) drops the earlier caller, who is then never
  answered. Any other call is answered at once and leaves the parked caller in the slot.
  When every call comes from its own caller, no caller is ever answered twice.
- `Wrappers` (wrappers.dfy) holds `Option` and `Result`.

A caller's result sink is represented by a `CallId`. "Invoking the sink" means appending a
`Resolution` for that id to the log. The answer of `MFMessageComposeViewController.canSendText()`
is a boolean parameter of each method call.

Four facts about the code shape the model:

- The code does not reject a `sendMessage` while another is pending. A call that presents
  the composer stores its sink over the old one (AppDelegate.swift:63), and the earlier
  caller is never answered (`EarlierCallerDropped`). A call that is answered at once, for
  bad arguments or because SMS is unavailable, leaves the parked caller in the slot
  (`ImmediateAnswerKeepsParkedCaller`).
- Only the type of `recipient` and `message` is checked (AppDelegate.swift:41, 47), so
  empty strings are accepted (`EmptyStringsDecode`).
- The SMS service is asked before the slot is touched (AppDelegate.swift:56). The slot is
  written only when the composer is presented, so an SMS_NOT_AVAILABLE answer leaves it as
  it was (`SmsUnavailableRejected`).
- `MessageComposeResult.failed` carries no reason. The SEND_FAILED error always carries the
  same message (AppDelegate.swift:88).

## Model

| member | source | states |
|---|---|---|
| MessageChannel.DecodeArgs | send_it/ios/Runner/AppDelegate.swift:30-51 | non-dictionary arguments fail as NotAMap; otherwise a missing or non-string recipient fails as MissingRecipient, whatever the message is; otherwise a missing or non-string message fails as MissingMessage; decoding succeeds iff both keys hold strings, and then the request holds exactly those strings |
| MessageChannel.Dispatch | send_it/ios/Runner/AppDelegate.swift:20-70 | an immediate answer is never a success; the composer is presented iff the method is sendMessage, the arguments decode and SMS is available |
| MessageChannel.CompletionResponse | send_it/ios/Runner/AppDelegate.swift:82-91 | the answer is a success iff the outcome is Sent or Cancelled; it is never NotImplemented |
| MessageChannel.RecipientCheckedFirst | send_it/ios/Runner/AppDelegate.swift:41-51 | a dictionary missing both fields is reported as "Recipient not found" with INVALID_ARGUMENTS |
| MessageChannel.EmptyStringsDecode | send_it/ios/Runner/AppDelegate.swift:41-51 | empty recipient and message strings decode successfully |
| MessageChannel.DecodeArgumentBag | send_it/ios/Runner/AppDelegate.swift:30-51 | decoding the dictionary {recipient, message} built from a request gives back that request |
| MessageChannel.DecodeDeterminesFields | send_it/ios/Runner/AppDelegate.swift:41-51 | two bags that decode to the same request hold the same recipient and message values |
| MessageChannel.DecodeIgnoresOtherKeys | send_it/ios/Runner/AppDelegate.swift:41-51 | adding or changing any key other than recipient and message does not change the decoding |
| MessageChannel.PresentedComposerCarriesRequest | send_it/ios/Runner/AppDelegate.swift:56-60 | a presented composer has exactly the decoded recipient as its one recipient and the decoded message as its body |
| MessageChannel.DispatchReplies | send_it/ios/Runner/AppDelegate.swift:20-70 | unknown method: NotImplemented; failed decode: INVALID_ARGUMENTS with that failure's message; decoded but SMS unavailable: SMS_NOT_AVAILABLE |
| MessageChannel.CompletionTable | send_it/ios/Runner/AppDelegate.swift:82-91 | Sent gives "sent", Cancelled gives "cancelled", Failed gives SEND_FAILED, an unknown outcome gives UNKNOWN_RESULT |
| MessageChannel.CompletionDistinguishesOutcomes | send_it/ios/Runner/AppDelegate.swift:82-91 | distinct outcomes give distinct answers |
| ComposeBridge.Step | send_it/ios/Runner/AppDelegate.swift:16-93 | one event never retracts a sink invocation and adds at most one; UI events only accumulate; a completion always leaves the slot empty |
| ComposeBridge.Run | send_it/ios/Runner/AppDelegate.swift:16-93 | over any event sequence the invocation log only grows, by at most one entry per event |
| ComposeBridge.AppDelegate.constructor | send_it/ios/Runner/AppDelegate.swift:7 | a new delegate has an empty slot and has answered nobody |
| ComposeBridge.AppDelegate.HandleMethodCall | send_it/ios/Runner/AppDelegate.swift:16-72 | the guard chain, run in place, changes the slot and the logs exactly as Step does for that call |
| ComposeBridge.AppDelegate.MessageComposeDidFinish | send_it/ios/Runner/AppDelegate.swift:78-93 | the completion delegate, run in place, dismisses, answers the parked sink if any, and clears the slot, exactly as Step does |
| BridgeTraces.UnknownMethodNotImplemented | send_it/ios/Runner/AppDelegate.swift:69-70 | a method other than sendMessage is answered NotImplemented once, and the slot and UI are unchanged, whatever the prior state |
| BridgeTraces.NotDictRejected | send_it/ios/Runner/AppDelegate.swift:30-36 | non-dictionary arguments are answered once with INVALID_ARGUMENTS / "Arguments not in expected format"; the slot is unchanged |
| BridgeTraces.MissingRecipientRejected | send_it/ios/Runner/AppDelegate.swift:41-45 | a missing or non-string recipient is answered once with INVALID_ARGUMENTS / "Recipient not found"; the slot is unchanged |
| BridgeTraces.MissingMessageRejected | send_it/ios/Runner/AppDelegate.swift:47-51 | with a string recipient, a missing or non-string message is answered once with INVALID_ARGUMENTS / "Message not found"; the slot is unchanged |
| BridgeTraces.SmsUnavailableRejected | send_it/ios/Runner/AppDelegate.swift:56-67 | valid arguments with SMS unavailable are answered once with SMS_NOT_AVAILABLE; the slot is unchanged |
| BridgeTraces.ValidCallParks | send_it/ios/Runner/AppDelegate.swift:56-65 | valid arguments with SMS available put this caller in the slot, whatever it held, present a composer for [recipient] with the message as body, and answer nobody |
| BridgeTraces.CallAnsweredOrParked | send_it/ios/Runner/AppDelegate.swift:20-70 | every call is either answered once, right away, with the slot unchanged, or parked in the slot with nobody answered |
| BridgeTraces.FinishAnswersParkedCaller | send_it/ios/Runner/AppDelegate.swift:82-92 | with a parked caller, a completion answers it once with the mapped outcome and empties the slot |
| BridgeTraces.FinishOnEmptySlotAnswersNobody | send_it/ios/Runner/AppDelegate.swift:84-92 | with an empty slot, a completion answers nobody and the slot stays empty |
| BridgeTraces.DoubleFinishAnswersOnce | send_it/ios/Runner/AppDelegate.swift:84-92 | two completions in a row answer the parked caller once, with the first outcome, and leave the slot empty |
| BridgeTraces.StepLeavesOthersAlone | send_it/ios/Runner/AppDelegate.swift:63-92 | an event neither answers nor parks a caller that is not parked and is not the one calling |
| BridgeTraces.NeverAnsweredAgain | send_it/ios/Runner/AppDelegate.swift:63-92 | a caller that is not parked and never calls again is never answered again, over any event sequence |
| BridgeTraces.EarlierCallerDropped | send_it/ios/Runner/AppDelegate.swift:63 | a second sendMessage that decodes and finds SMS available replaces the parked caller, and the replaced caller is never answered afterwards unless it calls again |
| BridgeTraces.ImmediateAnswerKeepsParkedCaller | send_it/ios/Runner/AppDelegate.swift:20-70 | a call that is answered at once leaves the parked caller in the slot, so the next completion answers that caller with its outcome |
| BridgeTraces.ParkedCallerAnsweredOnce | send_it/ios/Runner/AppDelegate.swift:63-92 | a parked caller whose completion comes before anyone else is parked is answered exactly once, with that completion's outcome |
| BridgeTraces.StepKeepsAnsweredAtMostOnce | send_it/ios/Runner/AppDelegate.swift:63-92 | an event from a new caller keeps the invariant: no caller answered twice, and the parked caller not yet answered |
| BridgeTraces.RunKeepsAnsweredAtMostOnce | send_it/ios/Runner/AppDelegate.swift:63-92 | any event sequence in which each call comes from its own new caller keeps that invariant |
| BridgeTraces.NoCallerAnsweredTwice | send_it/ios/Runner/AppDelegate.swift:16-93 | starting from a new delegate, with distinct callers, no caller's sink is ever invoked more than once |
| BridgeTraces.SendThenSentScenario | send_it/ios/Runner/AppDelegate.swift:56-92 | a valid sendMessage for "+15551234567" / "hi" with SMS available, followed by Sent, answers the caller "sent", presents then dismisses the composer, and leaves the slot empty |

## Left out

- Channel construction, the `FlutterViewController` cast and `GeneratedPluginRegistrant.register` (AppDelegate.swift:13-14, 74-75) are framework bootstrap with no logic.
- Presenting and dismissing the composer (AppDelegate.swift:65, 79) are recorded only as `Presented` and `Dismissed` events. The composer's own behaviour belongs to UIKit.
- `MFMessageComposeViewController.canSendText()` is a call into the system. Its answer is the `canSendText` parameter of each call.
- The `print` logging (AppDelegate.swift:21-54) is observability only.
- The `[weak self]` capture and its `guard let self` early return (AppDelegate.swift:17-18) are not modelled. If the delegate were gone, the call would never be answered. The model always has a delegate.
- Threading is not modelled. The handler and the delegate callback run on the main thread and share no locks.
- Argument values are reduced to "a string" or "something else". The `details` of every `FlutterError` are nil and are not modelled.
- The order between UI events and sink invocations is not recorded by `Step`: the UI log and the invocation log are kept apart. `AppDelegate.MessageComposeDidFinish` dismisses first and then answers the sink, as AppDelegate.swift:79-90 does, but its contract, stated through `Step`, does not say so.
- The result sink is a `CallId`, not a closure. Invoking it is an entry in the invocation log, so what the Flutter side does with the answer is not modelled.
