/**
 * What the delegate promises its callers, one event at a time and over whole event
 * sequences: which answer each path gives and whether the slot moves; that a completion
 * always empties the slot and answers the parked caller once; that a second sendMessage
 * which presents the composer silently drops the caller it overwrites, while a call answered
 * at once leaves it parked; and that, with distinct callers, no caller's sink is ever invoked twice.
 */
module BridgeTraces {
  import opened Wrappers
  import opened MessageChannel
  import opened ComposeBridge

  // ----- One method call -----

  /** An unknown method is answered NotImplemented once; the slot and the UI are untouched. */
  lemma UnknownMethodNotImplemented(s: BridgeState, id: CallId, methodName: string, args: Args, canSendText: bool)
    requires methodName != SEND_MESSAGE
    ensures Step(s, Call(id, methodName, args, canSendText))
            == s.(resolved := s.resolved + [Resolution(id, NotImplemented)])
  {
  }

  /** Arguments that are not a dictionary are answered INVALID_ARGUMENTS once; the slot is untouched. */
  lemma NotDictRejected(s: BridgeState, id: CallId, canSendText: bool)
    ensures Step(s, Call(id, SEND_MESSAGE, NotDict, canSendText))
            == s.(resolved := s.resolved + [Resolution(id, Error(INVALID_ARGUMENTS, BAD_FORMAT_MESSAGE))])
  {
  }

  /** A missing or non-string recipient is reported whatever the message is. */
  lemma MissingRecipientRejected(s: BridgeState, id: CallId, entries: map<string, Value>, canSendText: bool)
    requires !HasString(entries, RECIPIENT_KEY)
    ensures Step(s, Call(id, SEND_MESSAGE, Dict(entries), canSendText))
            == s.(resolved := s.resolved + [Resolution(id, Error(INVALID_ARGUMENTS, NO_RECIPIENT_MESSAGE))])
  {
  }

  /** A missing or non-string message, with a string recipient, is reported as such. */
  lemma MissingMessageRejected(s: BridgeState, id: CallId, entries: map<string, Value>, canSendText: bool)
    requires HasString(entries, RECIPIENT_KEY) && !HasString(entries, MESSAGE_KEY)
    ensures Step(s, Call(id, SEND_MESSAGE, Dict(entries), canSendText))
            == s.(resolved := s.resolved + [Resolution(id, Error(INVALID_ARGUMENTS, NO_MESSAGE_MESSAGE))])
  {
  }

  /** Well-formed arguments without SMS are answered SMS_NOT_AVAILABLE once; the slot is untouched. */
  lemma SmsUnavailableRejected(s: BridgeState, id: CallId, args: Args)
    requires DecodeArgs(args).Ok?
    ensures Step(s, Call(id, SEND_MESSAGE, args, false))
            == s.(resolved := s.resolved + [Resolution(id, Error(SMS_NOT_AVAILABLE, SMS_NOT_AVAILABLE_MESSAGE))])
  {
  }

  /**
   * Well-formed arguments with SMS available park the caller in the slot, whatever was there,
   * and present a composer for the one recipient with the message as body; nobody is answered.
   */
  lemma ValidCallParks(s: BridgeState, id: CallId, args: Args)
    requires DecodeArgs(args).Ok?
    ensures Step(s, Call(id, SEND_MESSAGE, args, true))
            == s.(pending := Some(id),
                  ui := s.ui + [Presented(Composer([DecodeArgs(args).value.recipient], DecodeArgs(args).value.body))])
  {
  }

  /** A call is answered at once, exactly once, or parked, never both and never neither. */
  lemma CallAnsweredOrParked(s: BridgeState, e: Event)
    requires e.Call?
    ensures var t := Step(s, e);
            (t.pending == s.pending && |t.resolved| == |s.resolved| + 1 && t.resolved[|s.resolved|].id == e.id)
            || (t.pending == Some(e.id) && t.resolved == s.resolved)
  {
  }

  // ----- One completion -----

  /** A completion answers the parked caller with the mapped outcome, if there is one, and empties the slot. */
  lemma FinishAnswersParkedCaller(s: BridgeState, id: CallId, o: Outcome)
    requires s.pending == Some(id)
    ensures Step(s, Finish(o)).pending == None
    ensures Step(s, Finish(o)).resolved == s.resolved + [Resolution(id, CompletionResponse(o))]
  {
  }

  /** A completion with an empty slot answers nobody and leaves the slot empty. */
  lemma FinishOnEmptySlotAnswersNobody(s: BridgeState, o: Outcome)
    requires s.pending == None
    ensures Step(s, Finish(o)).pending == None
    ensures Step(s, Finish(o)).resolved == s.resolved
  {
  }

  /** Two completions in a row answer the parked caller once, with the first outcome. */
  lemma DoubleFinishAnswersOnce(s: BridgeState, id: CallId, o1: Outcome, o2: Outcome)
    requires s.pending == Some(id)
    ensures Run(s, [Finish(o1), Finish(o2)]).pending == None
    ensures Run(s, [Finish(o1), Finish(o2)]).resolved == s.resolved + [Resolution(id, CompletionResponse(o1))]
  {
    var t := Step(s, Finish(o1));
    assert [Finish(o1), Finish(o2)][1..] == [Finish(o2)];
    assert Run(s, [Finish(o1), Finish(o2)]) == Run(t, [Finish(o2)]);
    assert [Finish(o2)][1..] == [];
  }

  // ----- Counting invocations of one caller's sink -----

  lemma {:induction false} ResolutionsAppend(log: seq<Resolution>, r: Resolution, id: CallId)
    ensures Resolutions(log + [r], id) == Resolutions(log, id) + (if r.id == id then 1 else 0)
  {
    assert (log + [r])[..|log|] == log;
  }

  /** A caller that is not parked and does not call again is not answered by one more event. */
  lemma StepLeavesOthersAlone(s: BridgeState, e: Event, x: CallId)
    requires s.pending != Some(x)
    requires e.Call? ==> e.id != x
    ensures Resolutions(Step(s, e).resolved, x) == Resolutions(s.resolved, x)
    ensures Step(s, e).pending != Some(x)
  {
    var t := Step(s, e);
    if t.resolved != s.resolved {
      ResolutionsAppend(s.resolved, t.resolved[|s.resolved|], x);
      assert t.resolved == s.resolved + [t.resolved[|s.resolved|]];
    }
  }

  /** A caller that is not parked and never calls again is never answered again. */
  lemma {:induction false} NeverAnsweredAgain(s: BridgeState, x: CallId, es: seq<Event>)
    requires s.pending != Some(x)
    requires forall i :: 0 <= i < |es| && es[i].Call? ==> es[i].id != x
    ensures Resolutions(Run(s, es).resolved, x) == Resolutions(s.resolved, x)
    ensures Run(s, es).pending != Some(x)
    decreases |es|
  {
    if es != [] {
      StepLeavesOthersAlone(s, es[0], x);
      NeverAnsweredAgain(Step(s, es[0]), x, es[1..]);
    }
  }

  /**
   * The overwrite: a second well-formed sendMessage while caller `a` is parked replaces `a`
   * in the slot, and unless `a` calls again its sink is never invoked afterwards.
   */
  lemma EarlierCallerDropped(s: BridgeState, a: CallId, b: CallId, args: Args, es: seq<Event>)
    requires s.pending == Some(a) && a != b
    requires DecodeArgs(args).Ok?
    requires forall i :: 0 <= i < |es| && es[i].Call? ==> es[i].id != a
    ensures Step(s, Call(b, SEND_MESSAGE, args, true)).pending == Some(b)
    ensures Resolutions(Run(s, [Call(b, SEND_MESSAGE, args, true)] + es).resolved, a) == Resolutions(s.resolved, a)
  {
    var e := Call(b, SEND_MESSAGE, args, true);
    var t := Step(s, e);
    assert ([e] + es)[0] == e && ([e] + es)[1..] == es;
    assert t.resolved == s.resolved;
    NeverAnsweredAgain(t, a, es);
  }

  /**
   * A call answered at once (unknown method, bad arguments, SMS unavailable) leaves the parked
   * caller in the slot, and the next completion answers that caller, after the immediate answer.
   */
  lemma ImmediateAnswerKeepsParkedCaller(s: BridgeState, a: CallId, e: Event, o: Outcome)
    requires s.pending == Some(a)
    requires e.Call? && !Parks(e)
    ensures Step(s, e).pending == Some(a)
    ensures Run(s, [e, Finish(o)]).resolved
            == s.resolved + [Resolution(e.id, Dispatch(e.methodName, e.args, e.canSendText).response),
                             Resolution(a, CompletionResponse(o))]
    ensures Run(s, [e, Finish(o)]).pending == None
  {
    var t := Step(s, e);
    assert [e, Finish(o)][1..] == [Finish(o)];
    assert Run(s, [e, Finish(o)]) == Run(t, [Finish(o)]);
    assert [Finish(o)][1..] == [];
  }

  /** A call that would park its caller in the slot. */
  predicate Parks(e: Event)
  {
    e.Call? && Dispatch(e.methodName, e.args, e.canSendText).Present?
  }

  /**
   * Exactly once: if the first completion `es[k]` after caller `id` was parked comes before any
   * other caller is parked, and `id` does not call again, then `id` is answered exactly once,
   * with that completion's outcome.
   */
  lemma {:induction false} ParkedCallerAnsweredOnce(s: BridgeState, id: CallId, es: seq<Event>, k: nat)
    requires s.pending == Some(id) && Resolutions(s.resolved, id) == 0
    requires k < |es| && es[k].Finish?
    requires forall i :: 0 <= i < k ==> es[i].Call? && !Parks(es[i])
    requires forall i :: 0 <= i < |es| && es[i].Call? ==> es[i].id != id
    ensures Resolutions(Run(s, es).resolved, id) == 1
    ensures Resolution(id, CompletionResponse(es[k].outcome)) in Run(s, es).resolved
    ensures Run(s, es).pending != Some(id)
    decreases k
  {
    var t := Step(s, es[0]);
    if k == 0 {
      assert t.resolved == s.resolved + [Resolution(id, CompletionResponse(es[0].outcome))];
      ResolutionsAppend(s.resolved, Resolution(id, CompletionResponse(es[0].outcome)), id);
      NeverAnsweredAgain(t, id, es[1..]);
      assert t.resolved[|s.resolved|] == Resolution(id, CompletionResponse(es[k].outcome));
      assert t.resolved <= Run(s, es).resolved;
    } else {
      assert !Parks(es[0]);
      var r := Dispatch(es[0].methodName, es[0].args, es[0].canSendText).response;
      assert t == s.(resolved := s.resolved + [Resolution(es[0].id, r)]);
      ResolutionsAppend(s.resolved, Resolution(es[0].id, r), id);
      ParkedCallerAnsweredOnce(t, id, es[1..], k - 1);
    }
  }

  // ----- At most once, over any sequence of distinct callers -----

  /** Caller `id` has never been seen: not parked, never answered. */
  predicate Unused(s: BridgeState, id: CallId)
  {
    s.pending != Some(id) && Resolutions(s.resolved, id) == 0
  }

  /** Every call in `es` comes from a caller not seen in `s` and not seen earlier in `es`. */
  predicate DistinctCallers(s: BridgeState, es: seq<Event>)
  {
    (forall i :: 0 <= i < |es| && es[i].Call? ==> Unused(s, es[i].id))
    && (forall i, j :: 0 <= i < j < |es| && es[i].Call? && es[j].Call? ==> es[i].id != es[j].id)
  }

  /** No caller has been answered twice, and the parked caller has not been answered yet. */
  ghost predicate AnsweredAtMostOnce(s: BridgeState)
  {
    forall id: CallId :: Resolutions(s.resolved, id) <= 1 && (s.pending == Some(id) ==> Resolutions(s.resolved, id) == 0)
  }

  lemma StepKeepsAnsweredAtMostOnce(s: BridgeState, e: Event)
    requires AnsweredAtMostOnce(s)
    requires e.Call? ==> Unused(s, e.id)
    ensures AnsweredAtMostOnce(Step(s, e))
  {
    var t := Step(s, e);
    forall id: CallId
      ensures Resolutions(t.resolved, id) <= 1 && (t.pending == Some(id) ==> Resolutions(t.resolved, id) == 0)
    {
      if t.resolved != s.resolved {
        var r := t.resolved[|s.resolved|];
        assert t.resolved == s.resolved + [r];
        ResolutionsAppend(s.resolved, r, id);
        if e.Finish? {
          assert s.pending == Some(r.id);
        }
      }
    }
  }

  lemma {:induction false} RunKeepsAnsweredAtMostOnce(s: BridgeState, es: seq<Event>)
    requires AnsweredAtMostOnce(s)
    requires DistinctCallers(s, es)
    ensures AnsweredAtMostOnce(Run(s, es))
    decreases |es|
  {
    if es != [] {
      var t := Step(s, es[0]);
      StepKeepsAnsweredAtMostOnce(s, es[0]);
      forall i | 0 <= i < |es[1..]| && es[1..][i].Call?
        ensures Unused(t, es[1..][i].id)
      {
        assert es[1..][i] == es[i + 1];
        StepLeavesOthersAlone(s, es[0], es[i + 1].id);
      }
      RunKeepsAnsweredAtMostOnce(t, es[1..]);
    }
  }

  /** From a fresh delegate, when every call comes from its own caller, no sink is invoked twice. */
  lemma NoCallerAnsweredTwice(es: seq<Event>, id: CallId)
    requires forall i, j :: 0 <= i < j < |es| && es[i].Call? && es[j].Call? ==> es[i].id != es[j].id
    ensures Resolutions(Run(INITIAL, es).resolved, id) <= 1
  {
    RunKeepsAnsweredAtMostOnce(INITIAL, es);
  }

  // ----- A scenario -----

  /** A valid sendMessage with SMS available, then the user sends: the caller gets "sent" and the slot is empty. */
  lemma SendThenSentScenario()
    ensures Run(INITIAL, [Call(1, SEND_MESSAGE, ArgumentBag(SendRequest("+15551234567", "hi")), true), Finish(Sent)])
            == BridgeState(None, [Resolution(1, Success("sent"))], [Presented(Composer(["+15551234567"], "hi")), Dismissed])
  {
    var e1 := Call(1, SEND_MESSAGE, ArgumentBag(SendRequest("+15551234567", "hi")), true);
    var es := [e1, Finish(Sent)];
    DecodeArgumentBag(SendRequest("+15551234567", "hi"));
    var t := Step(INITIAL, e1);
    assert t == BridgeState(Some(1), [], [Presented(Composer(["+15551234567"], "hi"))]);
    assert es[1..] == [Finish(Sent)];
    assert [Finish(Sent)][1..] == [];
  }
}
