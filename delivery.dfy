/** Delivering media to a user: the caption with its length cut
    (`sendMediaBroadcastToUser`, `sendMediaReplyToUser`) and the ladder of requests each
    of them falls back along, over `sendMessage` and `copyMessage`. */
module Delivery {
  import opened Js
  import opened Validation
  import opened TextHelpers
  import opened Retry

  // ---------------------------------------------------------------- captions

  const BroadcastPrefix: string := "📢 管理员广播:"
  const ReplyPrefix: string := "💬 管理员回复:"
  /** Telegram's caption limit as the worker states it. */
  const CaptionLimit: nat := 1024

  /** Each prefix is nine UTF-16 units: the emoji is a surrogate pair. */
  lemma PrefixUnits()
    ensures Utf16Length(BroadcastPrefix) == 9 && Utf16Length(ReplyPrefix) == 9
    ensures Utf16Length(BroadcastPrefix + "\n\n") == 11 && Utf16Length(ReplyPrefix + "\n\n") == 11
  {
    Utf16Append(BroadcastPrefix, "\n\n");
    Utf16Append(ReplyPrefix, "\n\n");
  }

  /** `${prefix}\n\n${body.substring(0, 1024 - prefix.length - 4)}...`, in UTF-16 units:
      the cut may split a surrogate pair. */
  function CutCaption(prefix: string, body: string): seq<Unit>
    requires Utf16Length(prefix) + 4 <= CaptionLimit <= Utf16Length(body) + Utf16Length(prefix) + 4
  {
    Utf16(prefix + "\n\n") + Utf16(body)[..CaptionLimit - Utf16Length(prefix) - 4] + Utf16("...")
  }

  /** The caption of a broadcast medium: the prefix and the escaped message, cut when
      the whole is longer than 1024 units. */
  function BroadcastCaption(message: string): seq<Unit> {
    var escaped := Escape(message);
    var full := BroadcastPrefix + "\n\n" + escaped;
    PrefixUnits();
    Utf16Append(BroadcastPrefix + "\n\n", escaped);
    if Utf16Length(full) > CaptionLimit then CutCaption(BroadcastPrefix, escaped) else Utf16(full)
  }

  /** The caption of a medium the admin sends a user: the prefix, and the admin's own
      caption after it when there is one (`originalCaption` truthy). */
  function ReplyCaption(original: Option<string>): seq<Unit> {
    PrefixUnits();
    var full := if original.Some? && original.value != "" then ReplyPrefix + "\n\n" + original.value else ReplyPrefix;
    if Utf16Length(full) > CaptionLimit then
      Utf16Append(ReplyPrefix + "\n\n", original.value);
      CutCaption(ReplyPrefix, original.value)
    else Utf16(full)
  }

  /** A cut caption is 1025 units long — one more than the limit it is cut for — made
      of the prefix line, the first 1011 units of the body and an ellipsis. */
  lemma CutCaptionShape(prefix: string, body: string)
    requires Utf16Length(prefix) == 9 && Utf16Length(body) >= 1011
    ensures var c := CutCaption(prefix, body);
      |c| == CaptionLimit + 1
      && c[..11] == Utf16(prefix + "\n\n")
      && c[11..1022] == Utf16(body)[..1011]
      && c[1022..] == Utf16("...")
  {
    Utf16Append(prefix, "\n\n");
    var c := CutCaption(prefix, body);
    assert |Utf16("...")| == 3;
    assert c == Utf16(prefix + "\n\n") + Utf16(body)[..1011] + Utf16("...");
  }

  /** A broadcast caption is the whole text when that fits in 1024 units, and exactly
      1025 units otherwise. */
  lemma BroadcastCaptionLength(message: string)
    ensures Utf16Length(Escape(message)) <= 1013 ==>
      BroadcastCaption(message) == Utf16(BroadcastPrefix + "\n\n" + Escape(message))
    ensures Utf16Length(Escape(message)) > 1013 ==>
      |BroadcastCaption(message)| == CaptionLimit + 1
      && BroadcastCaption(message)[..11] == Utf16(BroadcastPrefix + "\n\n")
      && BroadcastCaption(message)[11..1022] == Utf16(Escape(message))[..1011]
      && BroadcastCaption(message)[1022..] == Utf16("...")
  {
    var escaped := Escape(message);
    PrefixUnits();
    Utf16Append(BroadcastPrefix + "\n\n", escaped);
    if Utf16Length(BroadcastPrefix + "\n\n" + escaped) > CaptionLimit {
      CutCaptionShape(BroadcastPrefix, escaped);
    }
  }

  /** A reply caption is the prefix alone without a caption of the admin's, the whole
      text when that fits in 1024 units, and exactly 1025 units otherwise. */
  lemma ReplyCaptionLength(original: Option<string>)
    ensures original.None? || original.value == "" ==> ReplyCaption(original) == Utf16(ReplyPrefix)
    ensures original.Some? && original.value != "" && Utf16Length(original.value) <= 1013 ==>
      ReplyCaption(original) == Utf16(ReplyPrefix + "\n\n" + original.value)
    ensures original.Some? && Utf16Length(original.value) > 1013 ==>
      |ReplyCaption(original)| == CaptionLimit + 1
      && ReplyCaption(original)[..11] == Utf16(ReplyPrefix + "\n\n")
      && ReplyCaption(original)[11..1022] == Utf16(original.value)[..1011]
      && ReplyCaption(original)[1022..] == Utf16("...")
  {
    PrefixUnits();
    if original.Some? && original.value != "" {
      Utf16Append(ReplyPrefix + "\n\n", original.value);
      if Utf16Length(ReplyPrefix + "\n\n" + original.value) > CaptionLimit {
        CutCaptionShape(ReplyPrefix, original.value);
      }
    }
  }

  // ---------------------------------------------------------------- requests

  /** A request that reaches the API. */
  datatype Request =
    | SendText(chatId: JsValue, text: string)
    | Copy(chatId: JsValue, fromChatId: JsValue, messageId: JsValue, caption: Option<seq<Unit>>)

  /** Why `sendMessage` or `copyMessage` throws: a rejected argument, or the API call. */
  datatype SendError = Rejected(rejection: ValidationError) | InvalidMessageId | ApiFailed(failure: ApiError)

  /** What a send resolves to (the result's `ok`) or throws. */
  datatype Outcome = Resolved(ok: bool) | Thrown(error: SendError)

  function OutcomeOf(a: ApiResult): Outcome {
    match a
    case Answer(ok) => Resolved(ok)
    case Error(e) => Thrown(ApiFailed(e))
  }

  /** The medium being delivered: to whom, from which chat, which message. */
  datatype Medium = Medium(userChatId: JsValue, adminChatId: JsValue, messageId: JsValue)

  /** The requests a step made and how it ended. */
  datatype Run = Run(requests: seq<Request>, outcome: Outcome)

  /** Why `sendMessage` refuses its arguments before any request: the chat id, then a
      text of more than 4096 UTF-16 units. */
  function SendCheck(chatId: JsValue, text: string): (e: Option<SendError>)
    ensures e.None? <==> IsValidChatId(chatId) && Utf16Length(text) <= 4096
  {
    match ValidateInput(chatId, ChatIdCheck)
    case Some(e) => Some(Rejected(e))
    case None =>
      match ValidateInput(Str(text), TextCheck(4096))
      case Some(e) => Some(Rejected(e))
      case None => None
  }

  /** Why `copyMessage` refuses its arguments: either chat id, or a message id that is
      not a number other than 0. */
  function CopyCheck(m: Medium): (e: Option<SendError>)
    ensures e.None? <==> IsValidChatId(m.userChatId) && IsValidChatId(m.adminChatId) && m.messageId.Num? && m.messageId.n != 0
  {
    match ValidateInput(m.userChatId, ChatIdCheck)
    case Some(e) => Some(Rejected(e))
    case None =>
      match ValidateInput(m.adminChatId, ChatIdCheck)
      case Some(e) => Some(Rejected(e))
      case None =>
        if !Truthy(m.messageId) || !m.messageId.Num? then Some(InvalidMessageId) else None
  }

  /** `sendMessage(chatId, text)` as the `k`-th request: checked, then sent. */
  function SendStep(answer: nat -> ApiResult, k: nat, chatId: JsValue, text: string): (r: Run)
    ensures |r.requests| <= 1
  {
    match SendCheck(chatId, text)
    case Some(e) => Run([], Thrown(e))
    case None => Run([SendText(chatId, text)], OutcomeOf(answer(k)))
  }

  /** `copyMessage(chatId, fromChatId, messageId, { caption })` as the `k`-th request. */
  function CopyStep(answer: nat -> ApiResult, k: nat, m: Medium, caption: Option<seq<Unit>>): (r: Run)
    ensures |r.requests| <= 1
  {
    match CopyCheck(m)
    case Some(e) => Run([], Thrown(e))
    case None => Run([Copy(m.userChatId, m.adminChatId, m.messageId, caption)], OutcomeOf(answer(k)))
  }

  /** One step after another, unless the first throws. */
  function Then(a: Run, b: Run): Run {
    Run(a.requests + b.requests, b.outcome)
  }

  /** A text to the user, then — unless sending it throws — a bare copy of the medium. */
  function TextThenCopy(answer: nat -> ApiResult, k: nat, m: Medium, text: string): (r: Run)
    ensures |r.requests| <= 2
  {
    var sent := SendStep(answer, k, m.userChatId, text);
    if sent.outcome.Thrown? then sent else Then(sent, CopyStep(answer, k + |sent.requests|, m, None))
  }

  /** The `try` block: the captioned copy, and when it resolves without `ok`, the text
      on its own and a bare copy. */
  function Captioned(answer: nat -> ApiResult, k: nat, m: Medium, caption: seq<Unit>, separateText: string): Run {
    var first := CopyStep(answer, k, m, Some(caption));
    if first.outcome != Resolved(false) then first
    else Then(first, TextThenCopy(answer, k + |first.requests|, m, separateText))
  }

  /** The ladder of both media senders, from the `k`-th request on: the `try` block,
      and when anything in it throws, the notice and a bare copy, whose error is the
      one rethrown. */
  function Ladder(answer: nat -> ApiResult, k: nat, m: Medium, caption: seq<Unit>, separateText: string, noticeText: string): Run {
    var attempt := Captioned(answer, k, m, caption, separateText);
    if !attempt.outcome.Thrown? then attempt
    else Then(attempt, TextThenCopy(answer, k + |attempt.requests|, m, noticeText))
  }

  /** A medium that passes the checks is first offered with its caption, and when that
      succeeds nothing else is sent. */
  lemma LadderCaptionFirst(answer: nat -> ApiResult, k: nat, m: Medium, caption: seq<Unit>, separateText: string, noticeText: string)
    requires IsValidChatId(m.userChatId) && IsValidChatId(m.adminChatId) && m.messageId.Num? && m.messageId.n != 0
    ensures var run := Ladder(answer, k, m, caption, separateText, noticeText);
      run.requests != [] && run.requests[0] == Copy(m.userChatId, m.adminChatId, m.messageId, Some(caption))
      && (answer(k) == Answer(true) ==> run == Run([Copy(m.userChatId, m.adminChatId, m.messageId, Some(caption))], Resolved(true)))
  {
  }

  /** Whenever `run`, started at request `k`, resolves, it resolves with the answer to
      its last request, a copy of the medium. */
  predicate EndsWithCopy(run: Run, answer: nat -> ApiResult, k: nat, m: Medium) {
    run.outcome.Resolved? ==>
      run.requests != []
      && run.requests[|run.requests| - 1].Copy?
      && run.requests[|run.requests| - 1].messageId == m.messageId
      && run.outcome == OutcomeOf(answer(k + |run.requests| - 1))
  }

  lemma CopyStepEnds(answer: nat -> ApiResult, k: nat, m: Medium, caption: Option<seq<Unit>>)
    ensures EndsWithCopy(CopyStep(answer, k, m, caption), answer, k, m)
  {
  }

  /** A second step that ends with a copy makes the pair end with it. */
  lemma ThenEnds(a: Run, b: Run, answer: nat -> ApiResult, k: nat, m: Medium)
    requires EndsWithCopy(b, answer, k + |a.requests|, m)
    ensures EndsWithCopy(Then(a, b), answer, k, m)
  {
    if b.outcome.Resolved? {
      var r := a.requests + b.requests;
      assert r[|r| - 1] == b.requests[|b.requests| - 1];
    }
  }

  lemma TextThenCopyEnds(answer: nat -> ApiResult, k: nat, m: Medium, text: string)
    ensures EndsWithCopy(TextThenCopy(answer, k, m, text), answer, k, m)
  {
    var sent := SendStep(answer, k, m.userChatId, text);
    if !sent.outcome.Thrown? {
      CopyStepEnds(answer, k + |sent.requests|, m, None);
      ThenEnds(sent, CopyStep(answer, k + |sent.requests|, m, None), answer, k, m);
    }
  }

  lemma CaptionedEnds(answer: nat -> ApiResult, k: nat, m: Medium, caption: seq<Unit>, separateText: string)
    ensures EndsWithCopy(Captioned(answer, k, m, caption, separateText), answer, k, m)
    ensures |Captioned(answer, k, m, caption, separateText).requests| <= 3
  {
    var first := CopyStep(answer, k, m, Some(caption));
    CopyStepEnds(answer, k, m, Some(caption));
    if first.outcome == Resolved(false) {
      TextThenCopyEnds(answer, k + |first.requests|, m, separateText);
      ThenEnds(first, TextThenCopy(answer, k + |first.requests|, m, separateText), answer, k, m);
    }
  }

  /** The ladder makes at most five requests, and whenever it resolves, it resolves
      with the answer to its last request, a copy of the medium. */
  lemma LadderEndsWithCopy(answer: nat -> ApiResult, k: nat, m: Medium, caption: seq<Unit>, separateText: string, noticeText: string)
    ensures var run := Ladder(answer, k, m, caption, separateText, noticeText);
      |run.requests| <= 5
      && (run.outcome.Resolved? ==>
            run.requests != []
            && run.requests[|run.requests| - 1].Copy?
            && run.requests[|run.requests| - 1].messageId == m.messageId
            && run.outcome == OutcomeOf(answer(k + |run.requests| - 1)))
  {
    var attempt := Captioned(answer, k, m, caption, separateText);
    var notice := TextThenCopy(answer, k + |attempt.requests|, m, noticeText);
    assert EndsWithCopy(attempt, answer, k, m) && |attempt.requests| <= 3 by {
      CaptionedEnds(answer, k, m, caption, separateText);
    }
    assert EndsWithCopy(Then(attempt, notice), answer, k, m) by {
      TextThenCopyEnds(answer, k + |attempt.requests|, m, noticeText);
      ThenEnds(attempt, notice, answer, k, m);
    }
    assert EndsWithCopy(Ladder(answer, k, m, caption, separateText, noticeText), answer, k, m);
  }

  /** A caption the API refuses (`ok: false`) leads to the text on its own and a bare
      copy, and the bare copy's answer is the result. */
  lemma LadderSeparately(answer: nat -> ApiResult, k: nat, m: Medium, caption: seq<Unit>, separateText: string, noticeText: string)
    requires CopyCheck(m).None? && SendCheck(m.userChatId, separateText).None?
    requires answer(k) == Answer(false) && answer(k + 1).Answer? && answer(k + 2).Answer?
    ensures Ladder(answer, k, m, caption, separateText, noticeText) ==
      Run([Copy(m.userChatId, m.adminChatId, m.messageId, Some(caption)),
           SendText(m.userChatId, separateText),
           Copy(m.userChatId, m.adminChatId, m.messageId, None)],
          Resolved(answer(k + 2).ok))
  {
    assert [Copy(m.userChatId, m.adminChatId, m.messageId, Some(caption))] + ([SendText(m.userChatId, separateText)] + [Copy(m.userChatId, m.adminChatId, m.messageId, None)])
      == [Copy(m.userChatId, m.adminChatId, m.messageId, Some(caption)), SendText(m.userChatId, separateText), Copy(m.userChatId, m.adminChatId, m.messageId, None)];
  }

  /** A captioned copy that throws leads to the notice and a bare copy; when the bare
      copy throws too, its error is the one the sender throws. */
  lemma LadderFallback(answer: nat -> ApiResult, k: nat, m: Medium, caption: seq<Unit>, separateText: string, noticeText: string)
    requires CopyCheck(m).None? && SendCheck(m.userChatId, noticeText).None?
    requires answer(k).Error? && answer(k + 1).Answer?
    ensures Ladder(answer, k, m, caption, separateText, noticeText) ==
      Run([Copy(m.userChatId, m.adminChatId, m.messageId, Some(caption)),
           SendText(m.userChatId, noticeText),
           Copy(m.userChatId, m.adminChatId, m.messageId, None)],
          OutcomeOf(answer(k + 2)))
  {
    assert [Copy(m.userChatId, m.adminChatId, m.messageId, Some(caption))] + ([SendText(m.userChatId, noticeText)] + [Copy(m.userChatId, m.adminChatId, m.messageId, None)])
      == [Copy(m.userChatId, m.adminChatId, m.messageId, Some(caption)), SendText(m.userChatId, noticeText), Copy(m.userChatId, m.adminChatId, m.messageId, None)];
  }

  /** A medium for a chat id that fails its check is never sent: the ladder throws,
      having sent nothing. */
  lemma LadderRejectsBadChat(answer: nat -> ApiResult, k: nat, m: Medium, caption: seq<Unit>, separateText: string, noticeText: string)
    requires !IsValidChatId(m.userChatId)
    ensures Ladder(answer, k, m, caption, separateText, noticeText) == Run([], Thrown(Rejected(InvalidChatId)))
  {
  }

  /** Every request goes to chat `c`. */
  predicate AddressedTo(requests: seq<Request>, c: JsValue) {
    forall i :: 0 <= i < |requests| ==> requests[i].chatId == c
  }

  lemma AddressedAppend(a: seq<Request>, b: seq<Request>, c: JsValue)
    requires AddressedTo(a, c) && AddressedTo(b, c)
    ensures AddressedTo(a + b, c)
  {
  }

  lemma CopyStepAddressed(answer: nat -> ApiResult, k: nat, m: Medium, caption: Option<seq<Unit>>)
    ensures AddressedTo(CopyStep(answer, k, m, caption).requests, m.userChatId)
  {
  }

  lemma TextThenCopyAddressed(answer: nat -> ApiResult, k: nat, m: Medium, text: string)
    ensures AddressedTo(TextThenCopy(answer, k, m, text).requests, m.userChatId)
  {
    var sent := SendStep(answer, k, m.userChatId, text);
    assert AddressedTo(sent.requests, m.userChatId);
    if !sent.outcome.Thrown? {
      CopyStepAddressed(answer, k + |sent.requests|, m, None);
      AddressedAppend(sent.requests, CopyStep(answer, k + |sent.requests|, m, None).requests, m.userChatId);
    }
  }

  lemma CaptionedAddressed(answer: nat -> ApiResult, k: nat, m: Medium, caption: seq<Unit>, separateText: string)
    ensures AddressedTo(Captioned(answer, k, m, caption, separateText).requests, m.userChatId)
  {
    var first := CopyStep(answer, k, m, Some(caption));
    CopyStepAddressed(answer, k, m, Some(caption));
    if first.outcome == Resolved(false) {
      TextThenCopyAddressed(answer, k + |first.requests|, m, separateText);
      AddressedAppend(first.requests, TextThenCopy(answer, k + |first.requests|, m, separateText).requests, m.userChatId);
    }
  }

  /** Every request of the ladder goes to the user the medium is for. */
  lemma LadderAddressed(answer: nat -> ApiResult, k: nat, m: Medium, caption: seq<Unit>, separateText: string, noticeText: string)
    ensures AddressedTo(Ladder(answer, k, m, caption, separateText, noticeText).requests, m.userChatId)
  {
    var attempt := Captioned(answer, k, m, caption, separateText);
    var notice := TextThenCopy(answer, k + |attempt.requests|, m, noticeText);
    assert AddressedTo(attempt.requests, m.userChatId) by {
      CaptionedAddressed(answer, k, m, caption, separateText);
    }
    assert AddressedTo(notice.requests, m.userChatId) by {
      TextThenCopyAddressed(answer, k + |attempt.requests|, m, noticeText);
    }
    AddressedAppend(attempt.requests, notice.requests, m.userChatId);
  }

  /** The notice of the last resort for a broadcast. */
  function BroadcastNotice(message: string): string {
    BroadcastPrefix + "\n\n" + Escape(message) + "\n\n📎 管理员还发送了一个文件"
  }

  const ReplyNotice: string := "💬 管理员发送了一个文件"

  // ---------------------------------------------------------------- the transport

  /** The API as the worker sees it: the requests made so far, and the answer the API
      gives to each request by its position. */
  class Telegram {
    var sent: seq<Request>
    const answer: nat -> ApiResult

    constructor(answer: nat -> ApiResult)
      ensures sent == [] && this.answer == answer
    {
      sent := [];
      this.answer := answer;
    }

    /** `sendMessage(chatId, text, botToken)` */
    method SendMessage(chatId: JsValue, text: string) returns (r: Outcome)
      modifies this
      ensures var step := SendStep(answer, |old(sent)|, chatId, text);
        sent == old(sent) + step.requests && r == step.outcome
    {
      var step := SendStep(answer, |sent|, chatId, text);
      sent := sent + step.requests;
      r := step.outcome;
    }

    /** `copyMessage(chatId, fromChatId, messageId, botToken, { caption })` */
    method CopyMessage(m: Medium, caption: Option<seq<Unit>>) returns (r: Outcome)
      modifies this
      ensures var step := CopyStep(answer, |old(sent)|, m, caption);
        sent == old(sent) + step.requests && r == step.outcome
    {
      var step := CopyStep(answer, |sent|, m, caption);
      sent := sent + step.requests;
      r := step.outcome;
    }

    /** `sendMessage` of `text`, then `copyMessage` without a caption unless the send threw. */
    method SendTextThenCopy(m: Medium, text: string) returns (r: Outcome)
      modifies this
      ensures var run := TextThenCopy(answer, |old(sent)|, m, text);
        sent == old(sent) + run.requests && r == run.outcome
    {
      ghost var start := sent;
      r := SendMessage(m.userChatId, text);
      if !r.Thrown? {
        ghost var mid := sent;
        r := CopyMessage(m, None);
        AppendAssoc(start, mid[|start|..], sent[|mid|..]);
      }
    }

    /** The `try` block of both media senders. */
    method SendCaptioned(m: Medium, caption: seq<Unit>, separateText: string) returns (r: Outcome)
      modifies this
      ensures var run := Captioned(answer, |old(sent)|, m, caption, separateText);
        sent == old(sent) + run.requests && r == run.outcome
    {
      r := CopyMessage(m, Some(caption));
      if r == Resolved(false) {
        r := SendTextThenCopy(m, separateText);
      }
    }

    /** The ladder itself, shared by both callers. */
    method SendMedia(m: Medium, caption: seq<Unit>, separateText: string, noticeText: string) returns (r: Outcome)
      modifies this
      ensures var run := Ladder(answer, |old(sent)|, m, caption, separateText, noticeText);
        sent == old(sent) + run.requests && r == run.outcome
    {
      r := SendCaptioned(m, caption, separateText);
      if r.Thrown? {
        r := SendTextThenCopy(m, noticeText);
      }
    }

    /** `sendMediaBroadcastToUser(userChatId, adminChatId, messageId, message, botToken)` */
    method SendMediaBroadcastToUser(m: Medium, message: string) returns (r: Outcome)
      modifies this
      ensures var run := Ladder(answer, |old(sent)|, m, BroadcastCaption(message),
                                BroadcastPrefix + "\n\n" + Escape(message), BroadcastNotice(message));
        sent == old(sent) + run.requests && r == run.outcome
    {
      r := SendMedia(m, BroadcastCaption(message), BroadcastPrefix + "\n\n" + Escape(message), BroadcastNotice(message));
    }

    /** `sendMediaReplyToUser(userChatId, adminChatId, messageId, originalCaption, botToken)` */
    method SendMediaReplyToUser(m: Medium, originalCaption: Option<string>) returns (r: Outcome)
      modifies this
      ensures var run := Ladder(answer, |old(sent)|, m, ReplyCaption(originalCaption), ReplyPrefix, ReplyNotice);
        sent == old(sent) + run.requests && r == run.outcome
    {
      r := SendMedia(m, ReplyCaption(originalCaption), ReplyPrefix, ReplyNotice);
    }
  }
}
