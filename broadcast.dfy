/** The broadcast engine (`broadcastMessage`) and the report the admin gets after a
    `/post`. Deliveries within a batch run one after another: `Promise.allSettled`
    lets them overlap, but the counts do not depend on the order they finish in. */
module Broadcast {
  import opened Js
  import opened Validation
  import opened TextHelpers
  import opened Retry
  import opened Delivery

  /** `CONSTANTS.BROADCAST_BATCH_SIZE` */
  const BatchSize: nat := 10
  /** `CONSTANTS.BROADCAST_DELAY_MS` */
  const BatchDelayMs: nat := 100
  /** `CONSTANTS.MAX_ERROR_DISPLAY` */
  const MaxErrorDisplay: nat := 5

  /** The `userIds` argument: `'all'`, or a list of ids (a single id is a list of one). */
  datatype Audience = Everyone | Chats(ids: seq<JsValue>)

  /** What is broadcast: a text, or a medium copied from the admin chat. */
  datatype Content = TextContent | MediaContent(adminChatId: JsValue, messageId: JsValue)

  /** An entry of the `errors` list, by what it reports; `ErrorLine` gives its text. */
  datatype BroadcastError =
    | BadMessage(rejection: ValidationError)       // the message fails its check
    | NoUsers                                      // `'all'` with no registered user
    | NoTargets                                    // an empty list of ids
    | InvalidId(id: JsValue)                       // an id that fails the chat id check
    | UserFailed(chatId: JsValue, error: SendError) // a delivery that threw

  /** `{ success, failed, errors }` */
  datatype Results = Results(success: nat, failed: nat, errors: seq<BroadcastError>)

  /** The message of an error a delivery throws. The text of an HTTP error holds the
      response's status text and body, and that of a body the parser refuses is the
      engine's, so those come from `describe`. */
  function ErrorText(describe: ApiError -> string, e: SendError): string {
    match e
    case Rejected(v) => ValidationMessage(v)
    case InvalidMessageId => "Invalid message ID"
    case ApiFailed(Timeout(m)) => "Telegram API timeout for " + m
    case ApiFailed(InvalidResponseFormat) => "Invalid API response format"
    case ApiFailed(Network(m)) => m
    case ApiFailed(other) => describe(other)
  }

  /** The text of an entry of `errors`. */
  function ErrorLine(describe: ApiError -> string, e: BroadcastError): string {
    match e
    case BadMessage(v) => ValidationMessage(v)
    case NoUsers => "未找到可广播的用户，请确保已启用用户跟踪功能"
    case NoTargets => "未指定有效的用户ID"
    case InvalidId(id) => "无效的用户ID: " + Show(id)
    case UserFailed(chatId, error) => "用户 " + Show(chatId) + ": " + ErrorText(describe, error)
  }

  /** The text of a text broadcast. */
  function BroadcastText(message: string): string { "📢 *管理员广播:*\n\n" + Escape(message) }

  /** The ids a broadcast is for: for `'all'`, the chat of every registered user. */
  function TargetIds(audience: Audience, registry: seq<JsValue>): seq<JsValue> {
    match audience
    case Everyone => registry
    case Chats(ids) => ids
  }

  /** The ids that pass the chat id check, in their order. */
  function ValidIds(ids: seq<JsValue>): (valid: seq<JsValue>)
    ensures |valid| <= |ids|
    ensures forall i :: 0 <= i < |valid| ==> IsValidChatId(valid[i]) && valid[i] in ids
  {
    if ids == [] then []
    else
      var rest := ValidIds(ids[..|ids| - 1]);
      if IsValidChatId(ids[|ids| - 1]) then rest + [ids[|ids| - 1]] else rest
  }

  /** One error for each id that fails the check, in their order. */
  function InvalidErrors(ids: seq<JsValue>): (errors: seq<BroadcastError>)
    ensures |errors| + |ValidIds(ids)| == |ids|
  {
    if ids == [] then []
    else
      var rest := InvalidErrors(ids[..|ids| - 1]);
      if IsValidChatId(ids[|ids| - 1]) then rest else rest + [InvalidId(ids[|ids| - 1])]
  }

  /** The delivery to one user, from the `k`-th request on. */
  function DeliveryRun(answer: nat -> ApiResult, k: nat, chatId: JsValue, message: string, content: Content): Run {
    match content
    case TextContent => SendStep(answer, k, chatId, BroadcastText(message))
    case MediaContent(adminChatId, messageId) =>
      Ladder(answer, k, Medium(chatId, adminChatId, messageId), BroadcastCaption(message),
             BroadcastPrefix + "\n\n" + Escape(message), BroadcastNotice(message))
  }

  /** The requests and the counts of delivering to some chats one after another. */
  datatype Tally = Tally(requests: seq<Request>, success: nat, failed: nat, errors: seq<BroadcastError>)

  /** One more delivery, to `chatId`, counted. */
  function Record(t: Tally, chatId: JsValue, run: Run): Tally {
    match run.outcome
    case Resolved(_) => Tally(t.requests + run.requests, t.success + 1, t.failed, t.errors)
    case Thrown(e) => Tally(t.requests + run.requests, t.success, t.failed + 1, t.errors + [UserFailed(chatId, e)])
  }

  /** The delivery function of a broadcast: from the `k`-th request on, to one chat. */
  function Sender(answer: nat -> ApiResult, message: string, content: Content): (nat, JsValue) -> Run {
    (k: nat, chatId: JsValue) => DeliveryRun(answer, k, chatId, message, content)
  }

  /** `deliver` is the delivery function of the broadcast. The trigger keeps the
      solver from unfolding a delivery wherever `deliver` is applied: only where a
      delivery was actually made is it related to `DeliveryRun`. */
  ghost predicate SendsAs(deliver: (nat, JsValue) -> Run, answer: nat -> ApiResult, message: string, content: Content) {
    forall j: nat, c: JsValue {:trigger DeliveryRun(answer, j, c, message, content)} ::
      deliver(j, c) == DeliveryRun(answer, j, c, message, content)
  }

  lemma SenderSendsAs(answer: nat -> ApiResult, message: string, content: Content)
    ensures SendsAs(Sender(answer, message, content), answer, message, content)
  {
  }

  /** The tally `t` after delivering to `chats` in order, the requests numbered from
      `k` on. */
  function Deliver(deliver: (nat, JsValue) -> Run, k: nat, t: Tally, chats: seq<JsValue>): Tally
    decreases |chats|
  {
    if chats == [] then t
    else Deliver(deliver, k, Record(t, chats[0], deliver(k + |t.requests|, chats[0])), chats[1..])
  }

  const NoDeliveries := Tally([], 0, 0, [])

  /** The results once the invalid ids have been counted and the tally is in. */
  function ResultsOf(invalidErrors: seq<BroadcastError>, t: Tally): Results {
    Results(t.success, |invalidErrors| + t.failed, invalidErrors + t.errors)
  }

  /** `slice(i, i + 10)` for `i = 0, 10, 20, …`: the batches of a list. */
  function Batches(s: seq<JsValue>): seq<seq<JsValue>>
    decreases |s|
  {
    if s == [] then []
    else if |s| <= BatchSize then [s]
    else [s[..BatchSize]] + Batches(s[BatchSize..])
  }

  function Flatten(batches: seq<seq<JsValue>>): seq<JsValue> {
    if batches == [] then [] else batches[0] + Flatten(batches[1..])
  }

  /** The waits: `BatchDelayMs` between two batches, none after the last. */
  function Pauses(batches: nat): (waits: seq<nat>)
    ensures |waits| == if batches == 0 then 0 else batches - 1
    ensures forall i :: 0 <= i < |waits| ==> waits[i] == BatchDelayMs
  {
    seq(if batches == 0 then 0 else batches - 1, _ => BatchDelayMs)
  }

  // ---------------------------------------------------------------- properties

  /** The state of the batch loop with the ids `todo` still to go: delivering to them
      completes the broadcast, their batches complete the batches formed, and a pause
      follows every batch formed so far unless it was the last. */
  ghost predicate Progress(deliver: (nat, JsValue) -> Run, k: nat, valid: seq<JsValue>, todo: seq<JsValue>,
                           t: Tally, batches: seq<seq<JsValue>>, waits: seq<nat>) {
    Deliver(deliver, k, t, todo) == Deliver(deliver, k, NoDeliveries, valid)
    && batches + Batches(todo) == Batches(valid)
    && waits == if todo != [] then Pauses(|batches| + 1) else Pauses(|batches|)
  }

  /** Taking the first batch off the ids left keeps the loop's state: the batch is the
      next one, delivering to it and then to the rest is delivering to all of them, and
      one pause follows it unless nothing is left. */
  lemma ProgressStep(deliver: (nat, JsValue) -> Run, k: nat, valid: seq<JsValue>, todo: seq<JsValue>,
                     t: Tally, batches: seq<seq<JsValue>>, waits: seq<nat>)
    requires todo != [] && Progress(deliver, k, valid, todo, t, batches, waits)
    ensures var n := if |todo| <= BatchSize then |todo| else BatchSize;
      Progress(deliver, k, valid, todo[n..], Deliver(deliver, k, t, todo[..n]), batches + [todo[..n]],
               if |todo| > BatchSize then waits + [BatchDelayMs] else waits)
  {
    var n := if |todo| <= BatchSize then |todo| else BatchSize;
    BatchesFirst(todo);
    DeliverAppend(deliver, k, t, todo[..n], todo[n..]);
    assert todo[..n] + todo[n..] == todo;
    AppendAssoc(batches, [todo[..n]], Batches(todo[n..]));
    if |todo| > BatchSize {
      PausesNext(|batches| + 1);
    }
  }

  /** One more batch is one more pause. */
  lemma PausesNext(batches: nat)
    requires batches >= 1
    ensures Pauses(batches + 1) == Pauses(batches) + [BatchDelayMs]
  {
  }

  /** Every delivery is one success, or one failure with one error. */
  lemma {:induction false} DeliverCount(deliver: (nat, JsValue) -> Run, k: nat, t: Tally, chats: seq<JsValue>)
    ensures var u := Deliver(deliver, k, t, chats);
      u.success + u.failed == t.success + t.failed + |chats|
      && |t.errors| <= |u.errors| && |u.errors| - |t.errors| == u.failed - t.failed
      && u.errors[..|t.errors|] == t.errors
    decreases |chats|
  {
    if chats != [] {
      var t' := Record(t, chats[0], deliver(k + |t.requests|, chats[0]));
      DeliverCount(deliver, k, t', chats[1..]);
      assert t'.errors[..|t.errors|] == t.errors;
    }
  }

  /** Delivering to `a` and then to `b` is delivering to `a + b`. */
  lemma {:induction false} DeliverAppend(deliver: (nat, JsValue) -> Run, k: nat, t: Tally, a: seq<JsValue>, b: seq<JsValue>)
    ensures Deliver(deliver, k, Deliver(deliver, k, t, a), b) == Deliver(deliver, k, t, a + b)
    decreases |a|
  {
    if a != [] {
      DeliverAppend(deliver, k, Record(t, a[0], deliver(k + |t.requests|, a[0])), a[1..], b);
      assert (a + b)[0] == a[0] && (a + b)[1..] == a[1..] + b;
    } else {
      assert a + b == b;
    }
  }

  /** Every request of a delivery is for the user it delivers to. */
  lemma SenderAddressed(answer: nat -> ApiResult, message: string, content: Content, k: nat, chatId: JsValue)
    ensures AddressedTo(Sender(answer, message, content)(k, chatId).requests, chatId)
  {
    match content
    case TextContent =>
    case MediaContent(adminChatId, messageId) =>
      LadderAddressed(answer, k, Medium(chatId, adminChatId, messageId), BroadcastCaption(message),
                      BroadcastPrefix + "\n\n" + Escape(message), BroadcastNotice(message));
  }

  /** When each delivery sends only to its own chat, the requests a broadcast adds are
      all for its chats: an id left out is never sent to. */
  lemma {:induction false} DeliverAddressed(deliver: (nat, JsValue) -> Run, k: nat, t: Tally, chats: seq<JsValue>)
    requires forall j: nat, c: JsValue :: AddressedTo(deliver(j, c).requests, c)
    ensures var rs := Deliver(deliver, k, t, chats).requests;
      |t.requests| <= |rs| && rs[..|t.requests|] == t.requests
      && forall i :: |t.requests| <= i < |rs| ==> rs[i].chatId in chats
    decreases |chats|
  {
    if chats != [] {
      var run := deliver(k + |t.requests|, chats[0]);
      var t' := Record(t, chats[0], run);
      DeliverAddressed(deliver, k, t', chats[1..]);
      var rs := Deliver(deliver, k, t, chats).requests;
      assert AddressedTo(run.requests, chats[0]);
      assert rs[..|t'.requests|] == t'.requests;
      forall i | |t.requests| <= i < |rs|
        ensures rs[i].chatId in chats
      {
        if i < |t'.requests| {
          assert rs[i] == t'.requests[i] == run.requests[i - |t.requests|];
        } else {
          assert rs[i].chatId in chats[1..];
        }
      }
      assert rs[..|t.requests|] == t'.requests[..|t.requests|];
    }
  }

  /** A broadcast sends to valid chat ids of its targets only. */
  lemma BroadcastAddressed(answer: nat -> ApiResult, k: nat, targets: seq<JsValue>, message: string, content: Content)
    ensures var rs := Deliver(Sender(answer, message, content), k, NoDeliveries, ValidIds(targets)).requests;
      forall i :: 0 <= i < |rs| ==> rs[i].chatId in targets && IsValidChatId(rs[i].chatId)
  {
    forall j: nat, c: JsValue
      ensures AddressedTo(Sender(answer, message, content)(j, c).requests, c)
    {
      SenderAddressed(answer, message, content, j, c);
    }
    DeliverAddressed(Sender(answer, message, content), k, NoDeliveries, ValidIds(targets));
  }

  /** `ValidIds` keeps exactly the ids that pass, in their order. */
  lemma ValidIdsAppend(ids: seq<JsValue>, id: JsValue)
    ensures ValidIds(ids + [id]) == ValidIds(ids) + (if IsValidChatId(id) then [id] else [])
    ensures InvalidErrors(ids + [id]) == InvalidErrors(ids) + (if IsValidChatId(id) then [] else [InvalidId(id)])
  {
    assert (ids + [id])[..|ids|] == ids;
  }

  /** The first batch is the first ten ids, or all of them when there are fewer. */
  lemma BatchesFirst(s: seq<JsValue>)
    requires s != []
    ensures var n := if |s| <= BatchSize then |s| else BatchSize;
      Batches(s) == [s[..n]] + Batches(s[n..])
  {
    if |s| <= BatchSize {
      assert s[..|s|] == s && s[|s|..] == [];
    }
  }

  lemma {:induction false} BatchesCount(s: seq<JsValue>)
    ensures |Batches(s)| == (|s| + BatchSize - 1) / BatchSize
    decreases |s|
  {
    if |s| > BatchSize {
      BatchesCount(s[BatchSize..]);
    }
  }

  /** The batches are non-empty lists of at most ten ids, which together are the ids
      in their order. */
  lemma {:induction false} BatchesShape(s: seq<JsValue>)
    ensures forall i :: 0 <= i < |Batches(s)| ==> 0 < |Batches(s)[i]| <= BatchSize
    ensures Flatten(Batches(s)) == s
    decreases |s|
  {
    if |s| > BatchSize {
      BatchesShape(s[BatchSize..]);
      var c := Batches(s);
      assert c == [s[..BatchSize]] + Batches(s[BatchSize..]);
      assert Flatten(c) == s[..BatchSize] + Flatten(Batches(s[BatchSize..]));
      assert s == s[..BatchSize] + s[BatchSize..];
      forall i | 0 < i < |c|
        ensures 0 < |c[i]| <= BatchSize
      {
        assert c[i] == Batches(s[BatchSize..])[i - 1];
      }
    } else if s != [] {
      assert Batches(s) == [s];
      assert Flatten([s]) == s + Flatten([]);
    }
  }

  // ---------------------------------------------------------------- broadcastMessage

  /** `sendMediaBroadcastToUser`, or `sendMessage` of the broadcast text. */
  method DeliverOne(tg: Telegram, chatId: JsValue, message: string, content: Content, ghost deliver: (nat, JsValue) -> Run)
    returns (o: Outcome)
    modifies tg
    requires SendsAs(deliver, tg.answer, message, content)
    ensures var run := deliver(|old(tg.sent)|, chatId);
      tg.sent == old(tg.sent) + run.requests && o == run.outcome
  {
    ghost var run := DeliveryRun(tg.answer, |tg.sent|, chatId, message, content);
    match content
    case TextContent =>
      o := tg.SendMessage(chatId, BroadcastText(message));
    case MediaContent(adminChatId, messageId) =>
      o := tg.SendMediaBroadcastToUser(Medium(chatId, adminChatId, messageId), message);
  }

  /** The `filter` of the ids: each one that fails the check is one failure and one
      error, in order. */
  method FilterIds(targets: seq<JsValue>) returns (valid: seq<JsValue>, r: Results)
    ensures valid == ValidIds(targets)
    ensures r == Results(0, |InvalidErrors(targets)|, InvalidErrors(targets))
  {
    r := Results(0, 0, []);
    valid := [];
    var i := 0;
    while i < |targets|
      invariant i <= |targets|
      invariant valid == ValidIds(targets[..i])
      invariant r.success == 0 && r.errors == InvalidErrors(targets[..i]) && r.failed == |r.errors|
    {
      ValidIdsAppend(targets[..i], targets[i]);
      assert targets[..i + 1] == targets[..i] + [targets[i]];
      if ValidateInput(targets[i], ChatIdCheck).None? {
        valid := valid + [targets[i]];
      } else {
        r := r.(errors := r.errors + [InvalidId(targets[i])], failed := r.failed + 1);
      }
      i := i + 1;
    }
    assert targets[..i] == targets;
  }

  /** The delivery to one chat of a batch, counted into `r`: a success, or a failure
      and its error. */
  method DeliverCounted(tg: Telegram, chatId: JsValue, message: string, content: Content, r0: Results,
                        ghost deliver: (nat, JsValue) -> Run, ghost k: nat, ghost start: seq<Request>, ghost t0: Tally,
                        ghost invalidErrors: seq<BroadcastError>)
    returns (r: Results, ghost t: Tally)
    modifies tg
    requires SendsAs(deliver, tg.answer, message, content) && |start| == k
    requires tg.sent == start + t0.requests && r0 == ResultsOf(invalidErrors, t0)
    ensures t == Record(t0, chatId, deliver(k + |t0.requests|, chatId))
    ensures tg.sent == start + t.requests && r == ResultsOf(invalidErrors, t)
  {
    assert |tg.sent| == k + |t0.requests|;
    ghost var run := deliver(|tg.sent|, chatId);
    var o := DeliverOne(tg, chatId, message, content, deliver);
    AppendAssoc(start, t0.requests, run.requests);
    r := r0;
    match o {
      case Resolved(_) =>
        r := r.(success := r.success + 1);
      case Thrown(e) =>
        AppendAssoc(invalidErrors, t0.errors, [UserFailed(chatId, e)]);
        r := r.(failed := r.failed + 1, errors := r.errors + [UserFailed(chatId, e)]);
    }
    t := Record(t0, chatId, run);
  }

  /** One batch: the deliveries to its chats, counted into `r`. */
  method DeliverBatch(tg: Telegram, batch: seq<JsValue>, message: string, content: Content, r0: Results,
                      ghost deliver: (nat, JsValue) -> Run, ghost k: nat, ghost start: seq<Request>, ghost t0: Tally,
                      ghost invalidErrors: seq<BroadcastError>)
    returns (r: Results, ghost t: Tally)
    modifies tg
    requires SendsAs(deliver, tg.answer, message, content) && |start| == k
    requires tg.sent == start + t0.requests && r0 == ResultsOf(invalidErrors, t0)
    ensures t == Deliver(deliver, k, t0, batch)
    ensures tg.sent == start + t.requests && r == ResultsOf(invalidErrors, t)
  {
    r, t := r0, t0;
    var j := 0;
    while j < |batch|
      invariant j <= |batch|
      invariant Deliver(deliver, k, t, batch[j..]) == Deliver(deliver, k, t0, batch)
      invariant tg.sent == start + t.requests && r == ResultsOf(invalidErrors, t)
    {
      assert batch[j..][0] == batch[j] && batch[j..][1..] == batch[j + 1..];
      r, t := DeliverCounted(tg, batch[j], message, content, r, deliver, k, start, t, invalidErrors);
      j := j + 1;
    }
  }

  /** The `for` loop over the batches: each batch delivered, and a pause after every
      batch but the last. */
  method DeliverAll(tg: Telegram, valid: seq<JsValue>, message: string, content: Content, r0: Results,
                    ghost deliver: (nat, JsValue) -> Run, ghost k: nat, ghost start: seq<Request>,
                    ghost invalidErrors: seq<BroadcastError>)
    returns (r: Results, batches: seq<seq<JsValue>>, waits: seq<nat>, ghost t: Tally)
    modifies tg
    requires SendsAs(deliver, tg.answer, message, content)
    requires |start| == k && tg.sent == start && r0 == ResultsOf(invalidErrors, NoDeliveries)
    ensures t == Deliver(deliver, k, NoDeliveries, valid)
    ensures tg.sent == start + t.requests && r == ResultsOf(invalidErrors, t)
    ensures batches == Batches(valid) && waits == Pauses(|batches|)
  {
    r, batches, waits, t := r0, [], [], NoDeliveries;
    ghost var todo := valid;
    var next := 0;
    while next < |valid|
      invariant 0 <= next <= |valid| && todo == valid[next..]
      invariant Progress(deliver, k, valid, todo, t, batches, waits)
      invariant tg.sent == start + t.requests && r == ResultsOf(invalidErrors, t)
      decreases |todo|
    {
      var batch := valid[next..if next + BatchSize <= |valid| then next + BatchSize else |valid|];
      assert batch == todo[..|batch|] && valid[next + |batch|..] == todo[|batch|..];
      ProgressStep(deliver, k, valid, todo, t, batches, waits);
      batches := batches + [batch];
      r, t := DeliverBatch(tg, batch, message, content, r, deliver, k, start, t, invalidErrors);
      if next + BatchSize < |valid| {
        waits := waits + [BatchDelayMs];
      }
      next := next + |batch|;
      todo := todo[|batch|..];
    }
    assert todo == [];
  }

  /** `broadcastMessage(userIds, message, env, isMedia, mediaOptions)`, with `registry`
      the chat ids `getUsersFromKV` reads. Also gives the batches as they were formed
      and the waits between them. */
  method BroadcastMessage(tg: Telegram, audience: Audience, message: JsValue, registry: seq<JsValue>, content: Content)
    returns (r: Results, batches: seq<seq<JsValue>>, waits: seq<nat>)
    modifies tg
    ensures ValidateInput(message, TextCheck(4096)).Some? ==>
      r == Results(0, 1, [BadMessage(ValidateInput(message, TextCheck(4096)).value)])
      && tg.sent == old(tg.sent) && batches == [] && waits == []
    ensures ValidateInput(message, TextCheck(4096)).None? && TargetIds(audience, registry) == [] ==>
      r == Results(0, 1, [if audience.Everyone? then NoUsers else NoTargets])
      && tg.sent == old(tg.sent) && batches == [] && waits == []
    ensures ValidateInput(message, TextCheck(4096)).None? && TargetIds(audience, registry) != [] ==>
      var targets := TargetIds(audience, registry);
      var valid := ValidIds(targets);
      var t := Deliver(Sender(tg.answer, message.s, content), |old(tg.sent)|, NoDeliveries, valid);
      tg.sent == old(tg.sent) + t.requests
      && r == ResultsOf(InvalidErrors(targets), t)
      && r.success + r.failed == |targets| && |r.errors| == r.failed
      && batches == Batches(valid) && waits == Pauses(|batches|)
  {
    batches, waits := [], [];
    var check := ValidateInput(message, TextCheck(4096));
    if check.Some? {
      return Results(0, 1, [BadMessage(check.value)]), batches, waits;
    }
    var targets := TargetIds(audience, registry);
    if audience.Everyone? && targets == [] {
      return Results(0, 1, [NoUsers]), batches, waits;
    }
    if targets == [] {
      return Results(0, 1, [NoTargets]), batches, waits;
    }
    var valid;
    valid, r := FilterIds(targets);
    ghost var t;
    SenderSendsAs(tg.answer, message.s, content);
    r, batches, waits, t := DeliverAll(tg, valid, message.s, content, r, Sender(tg.answer, message.s, content),
                                       |tg.sent|, tg.sent, r.errors);
    DeliverCount(Sender(tg.answer, message.s, content), |old(tg.sent)|, NoDeliveries, valid);
  }

  // ---------------------------------------------------------------- the report

  /** The lines of errors the report shows: the first five. */
  function Shown(lines: seq<string>): seq<string> {
    if |lines| <= MaxErrorDisplay then lines else lines[..MaxErrorDisplay]
  }

  function Lines(describe: ApiError -> string, errors: seq<BroadcastError>): (lines: seq<string>)
    ensures |lines| == |errors|
  {
    if errors == [] then [] else [ErrorLine(describe, errors[0])] + Lines(describe, errors[1..])
  }

  /** The report after a broadcast. */
  function Report(describe: ApiError -> string, r: Results): string {
    var lines := Lines(describe, r.errors);
    "📊 *群发完成报告*\n\n✅ 成功: " + Decimal(r.success) + "\n❌ 失败: " + Decimal(r.failed) + "\n\n"
    + (if |lines| > 0 then
         "🔍 *错误详情:*\n" + Join(Shown(lines), '\n')
         + (if |lines| > MaxErrorDisplay then "\n... 还有 " + Decimal(|lines| - MaxErrorDisplay) + " 个错误" else "")
       else "🎉 全部发送成功！")
  }

  /** The report names at most five errors, the first ones, each on a line of its own
      (when no error message holds a line break), and counts the rest. */
  lemma ReportLists(lines: seq<string>)
    requires |lines| > 0
    requires forall i :: 0 <= i < |lines| ==> '\n' !in lines[i]
    ensures |Shown(lines)| <= MaxErrorDisplay
    ensures Shown(lines) == lines[..|Shown(lines)|]
    ensures Split(Join(Shown(lines), '\n'), '\n') == Shown(lines)
    ensures |Shown(lines)| < |lines| <==> |lines| > MaxErrorDisplay
  {
    SplitJoin(Shown(lines), '\n');
  }
}
