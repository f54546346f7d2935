/**
 * The message channel "com.sendit/messages" as the iOS side sees it: the argument bag a
 * call carries, the answers a call can receive, and the three pure decisions the handler
 * makes — decoding the arguments, choosing between an immediate answer and presenting the
 * composer, and mapping the composer's outcome to an answer.
 */
module MessageChannel {
  import opened Wrappers

  /** A value in the argument bag; the handler only ever asks "is this a String?". */
  datatype Value = Str(s: string) | Other

  /** The call's arguments: a string-keyed dictionary, or anything else (including nil). */
  datatype Args = Dict(entries: map<string, Value>) | NotDict

  /** What a caller's result sink is invoked with. */
  datatype Response =
    | Success(value: string)
    | Error(code: string, message: string)
    | NotImplemented

  /** The composer's result: sent, cancelled, failed, or a case added by a later SDK. */
  datatype Outcome = Sent | Cancelled | Failed | Unknown

  /** A decoded sendMessage call. */
  datatype SendRequest = SendRequest(recipient: string, body: string)

  /** The three guard failures of the handler, in the order it checks them. */
  datatype DecodeError = NotAMap | MissingRecipient | MissingMessage

  /** What the composer is pre-filled with when it is presented. */
  datatype Composer = Composer(recipients: seq<string>, body: string)

  /** The handler either answers the caller now, or presents the composer and answers later. */
  datatype Action = Reply(response: Response) | Present(composer: Composer)

  const SEND_MESSAGE := "sendMessage"
  const RECIPIENT_KEY := "recipient"
  const MESSAGE_KEY := "message"

  const INVALID_ARGUMENTS := "INVALID_ARGUMENTS"
  const SMS_NOT_AVAILABLE := "SMS_NOT_AVAILABLE"
  const SEND_FAILED := "SEND_FAILED"
  const UNKNOWN_RESULT := "UNKNOWN_RESULT"

  const BAD_FORMAT_MESSAGE := "Arguments not in expected format"
  const NO_RECIPIENT_MESSAGE := "Recipient not found"
  const NO_MESSAGE_MESSAGE := "Message not found"
  const SMS_NOT_AVAILABLE_MESSAGE := "SMS is not available"
  const SEND_FAILED_MESSAGE := "Failed to send message"
  const UNKNOWN_RESULT_MESSAGE := "Unknown result"

  /** The human-readable message the handler attaches to each guard failure. */
  function ErrorMessage(e: DecodeError): string
  {
    match e
    case NotAMap => BAD_FORMAT_MESSAGE
    case MissingRecipient => NO_RECIPIENT_MESSAGE
    case MissingMessage => NO_MESSAGE_MESSAGE
  }

  /** `args[key] as? String` succeeds: the key is present and its value is a string. */
  predicate HasString(entries: map<string, Value>, key: string)
  {
    key in entries && entries[key].Str?
  }

  /**
   * The guard chain of the handler: the arguments must be a dictionary, then `recipient`
   * must be a string, then `message` must be a string. Only the type is checked, so empty
   * strings are accepted; keys other than these two are ignored.
   */
  function DecodeArgs(args: Args): (r: Result<SendRequest, DecodeError>)
    ensures args.NotDict? ==> r == Err(NotAMap)
    ensures args.Dict? && !HasString(args.entries, RECIPIENT_KEY) ==> r == Err(MissingRecipient)
    ensures (args.Dict? && HasString(args.entries, RECIPIENT_KEY) && !HasString(args.entries, MESSAGE_KEY))
            ==> r == Err(MissingMessage)
    ensures r.Ok? <==> args.Dict? && HasString(args.entries, RECIPIENT_KEY) && HasString(args.entries, MESSAGE_KEY)
    ensures r.Ok? ==>
              args.entries[RECIPIENT_KEY] == Str(r.value.recipient) && args.entries[MESSAGE_KEY] == Str(r.value.body)
  {
    match args
    case NotDict => Err(NotAMap)
    case Dict(entries) =>
      if !(RECIPIENT_KEY in entries) || entries[RECIPIENT_KEY].Other? then Err(MissingRecipient)
      else if !(MESSAGE_KEY in entries) || entries[MESSAGE_KEY].Other? then Err(MissingMessage)
      else Ok(SendRequest(entries[RECIPIENT_KEY].s, entries[MESSAGE_KEY].s))
  }

  /** The dictionary a caller builds for a sendMessage call. */
  function ArgumentBag(req: SendRequest): Args
  {
    Dict(map[RECIPIENT_KEY := Str(req.recipient), MESSAGE_KEY := Str(req.body)])
  }

  /**
   * The decision the method-call handler makes for one call, given the answer of
   * `canSendText()`: an unknown method is answered NotImplemented, a failed guard is answered
   * INVALID_ARGUMENTS, an unavailable SMS service is answered SMS_NOT_AVAILABLE, and only a
   * well-formed sendMessage call with SMS available presents the composer (and is not answered now).
   */
  function Dispatch(methodName: string, args: Args, canSendText: bool): (a: Action)
    ensures a.Reply? ==> !a.response.Success?
    ensures a.Present? <==> methodName == SEND_MESSAGE && DecodeArgs(args).Ok? && canSendText
  {
    if methodName != SEND_MESSAGE then Reply(NotImplemented)
    else
      match DecodeArgs(args)
      case Err(e) => Reply(Error(INVALID_ARGUMENTS, ErrorMessage(e)))
      case Ok(req) =>
        if canSendText then Present(Composer([req.recipient], req.body))
        else Reply(Error(SMS_NOT_AVAILABLE, SMS_NOT_AVAILABLE_MESSAGE))
  }

  /**
   * The answer the completion delegate gives the pending caller: a user cancellation counts
   * as success, a failure or an unrecognised outcome as an error.
   */
  function CompletionResponse(o: Outcome): (r: Response)
    ensures r.Success? <==> o == Sent || o == Cancelled
    ensures !r.NotImplemented?
  {
    match o
    case Sent => Success("sent")
    case Cancelled => Success("cancelled")
    case Failed => Error(SEND_FAILED, SEND_FAILED_MESSAGE)
    case Unknown => Error(UNKNOWN_RESULT, UNKNOWN_RESULT_MESSAGE)
  }

  // ----- Properties of the pure layer -----

  /** Recipient is checked before message: a bag missing both reports the recipient. */
  lemma RecipientCheckedFirst(entries: map<string, Value>)
    requires !HasString(entries, RECIPIENT_KEY) && !HasString(entries, MESSAGE_KEY)
    ensures DecodeArgs(Dict(entries)) == Err(MissingRecipient)
    ensures Dispatch(SEND_MESSAGE, Dict(entries), true) == Reply(Error(INVALID_ARGUMENTS, NO_RECIPIENT_MESSAGE))
  {
  }

  /** Only the type is checked: empty strings decode. */
  lemma EmptyStringsDecode()
    ensures DecodeArgs(ArgumentBag(SendRequest("", ""))) == Ok(SendRequest("", ""))
  {
  }

  /** Decoding the bag a caller builds gives back the caller's request. */
  lemma DecodeArgumentBag(req: SendRequest)
    ensures DecodeArgs(ArgumentBag(req)) == Ok(req)
  {
  }

  /** A decoded request determines the two fields decoding reads; other keys may differ. */
  lemma DecodeDeterminesFields(a1: Args, a2: Args)
    requires DecodeArgs(a1).Ok? && DecodeArgs(a1) == DecodeArgs(a2)
    ensures a1.entries[RECIPIENT_KEY] == a2.entries[RECIPIENT_KEY]
    ensures a1.entries[MESSAGE_KEY] == a2.entries[MESSAGE_KEY]
  {
  }

  /** Keys other than recipient and message do not affect decoding. */
  lemma DecodeIgnoresOtherKeys(entries: map<string, Value>, key: string, v: Value)
    requires key != RECIPIENT_KEY && key != MESSAGE_KEY
    ensures DecodeArgs(Dict(entries[key := v])) == DecodeArgs(Dict(entries))
  {
  }

  /** The composer shows exactly the decoded recipient and message. */
  lemma PresentedComposerCarriesRequest(args: Args)
    requires DecodeArgs(args).Ok?
    ensures Dispatch(SEND_MESSAGE, args, true)
            == Present(Composer([DecodeArgs(args).value.recipient], DecodeArgs(args).value.body))
  {
  }

  /** Every immediate answer the handler gives, path by path. */
  lemma DispatchReplies(methodName: string, args: Args, canSendText: bool)
    ensures methodName != SEND_MESSAGE ==> Dispatch(methodName, args, canSendText) == Reply(NotImplemented)
    ensures methodName == SEND_MESSAGE && DecodeArgs(args).Err? ==>
              Dispatch(methodName, args, canSendText)
              == Reply(Error(INVALID_ARGUMENTS, ErrorMessage(DecodeArgs(args).error)))
    ensures methodName == SEND_MESSAGE && DecodeArgs(args).Ok? && !canSendText ==>
              Dispatch(methodName, args, canSendText) == Reply(Error(SMS_NOT_AVAILABLE, SMS_NOT_AVAILABLE_MESSAGE))
  {
  }

  /** The outcome table, case by case. */
  lemma CompletionTable()
    ensures CompletionResponse(Sent) == Success("sent")
    ensures CompletionResponse(Cancelled) == Success("cancelled")
    ensures CompletionResponse(Failed) == Error(SEND_FAILED, SEND_FAILED_MESSAGE)
    ensures CompletionResponse(Unknown) == Error(UNKNOWN_RESULT, UNKNOWN_RESULT_MESSAGE)
  {
  }

  /** Different outcomes are reported differently, so the caller can tell them apart. */
  lemma CompletionDistinguishesOutcomes(o1: Outcome, o2: Outcome)
    requires o1 != o2
    ensures CompletionResponse(o1) != CompletionResponse(o2)
  {
  }
}
