# A verified model of the Telegram relay worker

`worker.js` is a Cloudflare Worker that relays Telegram messages between users and one
admin chat. It keeps no session. An admin's reply finds its way back to a user in one of
two ways:

- by reading an identity tag that the worker wrote into the forwarded text (the model
  reads the replied-to message as the text the worker sent; see "## Left out");
- in forum mode, by a thread id → user map that the worker keeps in KV.

This project models the logic of that worker in Dafny and proves what it promises.
Fetch, KV, hashing and the clock become abstract values. Each KV `put` has an outcome of
its own: a rejected `put` is swallowed by the worker, and then nothing is stored.

| module | file | what it models |
|---|---|---|
| `Js` | `js.dfy` | JavaScript values and truthiness, `String(n)`, `startsWith`/`includes`, UTF-16 lengths |
| `Validation` | `validation.dfy` | `validateInput`, `validateEnvironment` |
| `TextHelpers` | `text_helpers.dfy` | one-character `split`/`join`, `trim`, `parsePostTargets`, `escapeMarkdown` |
| `Retry` | `retry.dfy` | `withRetry` as a loop over a scripted `fetch`; the classification of results after the loop in `callTelegramAPI` |
| `Topics` | `topics.dfy` | the forum-topic directory, as a class over the stored KV blob |
| `TagCodec` | `tag_codec.dfy` | signatures, the six tag formats, and `extractUserChatId` as a priority parser over "leftmost match" searches |
| `Registry` | `registry.dfy` | `getUsersFromKV` and `addUserToKV`: an upsert into a list of records, with eviction above 1000 |
| `Delivery` | `delivery.dfy` | captions and their cut; `sendMessage`/`copyMessage` over a recording `Telegram` class; the fallback ladder of both media senders |
| `Broadcast` | `broadcast.dfy` | `broadcastMessage` (id filter, batches of ten, counts) and the report after `/post` |
| `AdminRouting` | `admin_routing.dfy` | the branches of `handleAdminMessage`, reading a `/post` command, routing a reply, and what the user receives |

Modelling choices:

- **Strings.** Texts are Dafny strings. JavaScript's `length` and `substring` count UTF-16 code units, so the model counts through `Utf16`. A caption is a sequence of code units, because the cut may split a surrogate pair.
- **The caption cut.** It is modelled exactly as written. A legal caption is at most 1024 units, yet a cut caption is `prefix + "\n\n"`, then the first `1024 − 9 − 4 = 1011` units of the body, then `"..."`. That is 1025 units (`Delivery.CutCaptionShape`).
- **Regular expressions.** `match` is the leftmost position where a deterministic prefix matcher succeeds (`TagCodec.Find`). Every run in a pattern (`\w+`, `\d+`, `[a-f0-9]{16}`) is followed by a character outside its class, so greediness needs no backtracking. The oldest format's lookahead `(?![:\w])` is checked on the character after the match.
- **The network.** The network is a script: request number `k` gets answer `k`. The `Telegram` class records every request in order. A delivery is then a function from the script to the requests made and the outcome, so each request can be traced back to the user it was sent to.
- **Where the worker's help text and its code disagree, the model follows the code.** The help and usage texts (worker.js:969, 981) say that `/post` in reply to a medium broadcasts that medium. The code never reaches that branch: see "## Findings". The corrected dispatch is `AdminRouting.Action`.

## Model

| member | source | states |
|---|---|---|
| Validation.ChatIdCheckAccepts | worker.js:56-60 | a chat id passes exactly when it is a non-zero number or a string of optional minus and digits |
| Validation.UserIdCheckAccepts | worker.js:71-75 | a user id passes exactly when it is a positive number or a non-empty digit string |
| Validation.UserIdIsChatId | worker.js:56-75 | every valid user id is also a valid chat id, and renders as digits |
| Validation.TextCheckAccepts | worker.js:62-69 | a text passes exactly when it is a string of at most `maxLength` UTF-16 units (no limit when 0); a non-string is always "must be a string" |
| Validation.ValidateEnvironment | worker.js:26-43 | no error exactly when both variables are present, the admin chat id is an integer text and the token matches `^\d+:[A-Za-z0-9_-]+$`; an absent or empty variable is reported first, and the error names exactly the absent or empty ones, `BOT_TOKEN` before `ADMIN_CHAT_ID`; with both present, a non-integer chat id is reported before a malformed token |
| Validation.BotTokenShape | worker.js:40-42 | digits, a colon and token characters are accepted exactly when both parts are non-empty |
| Validation.BotTokenSplits | worker.js:40-42 | every accepted token splits into a digit string, a colon and the rest |
| Retry.WithRetry | worker.js:111-129 | the loop computes the reference `Retrying` outcome and number of attempts; the waits are 1000·k ms after the k-th failure, none after the last |
| Retry.Backoff | worker.js:126 | the i-th wait is 1000·(i+1) ms |
| Retry.RetryingStopsAtFirstSuccess | worker.js:112-119 | the outcome comes after failures only: the first attempt that returns gives the value; otherwise the error is that of attempt `maxRetries`; never more than `maxRetries` attempts |
| Retry.RetryingFindsSuccess | worker.js:112-114 | a success at attempt k after k−1 failures is what is returned, after exactly k attempts |
| Retry.BackoffTotal | worker.js:126 | n waits add up to 1000·n(n+1)/2 ms |
| Retry.AllFailuresWait | worker.js:116-126 | with three attempts all failing, the third error is rethrown after 3000 ms of waiting |
| Retry.CallTelegramApi | worker.js:651-699 | a bad method name is an error without any fetch; otherwise the fetch is retried and then classified: non-2xx, a body that is not JSON, null, no own `ok`, an abort after the last attempt, or `ok` |
| Retry.HttpErrorNotRetried | worker.js:679-682 | a non-2xx first response is reported as an HTTP error after one fetch |
| Retry.AbortsAreTimeout | worker.js:693-695 | three aborts are a timeout of that method |
| Retry.MissingOkInvalid | worker.js:684-689 | a 2xx body without an own `ok` field, or one that is not an object, is "Invalid API response format" |
| Topics.ReadMapping | worker.js:177-198 | no KV, no value, unparsable text or a non-object read as the empty map; an object reads as itself |
| Topics.TopicDirectory.SaveMapping | worker.js:200-214 | with KV and a `put` that resolves, the stored blob becomes the mapping and reads back as it; without KV, or when the `put` is rejected and swallowed, the stored value is unchanged |
| Topics.TopicDirectory.UserIdFromTopicId | worker.js:215-235 | null for anything but a non-zero number; otherwise a user is returned exactly when some entry holds that thread, and it is such a user |
| Topics.TopicDirectory.GetOrCreateUserTopic | worker.js:237-274 | a rejected input gives null and changes nothing; an existing non-zero entry is returned with no create call and no write; otherwise one create call when name and chat pass, and on success the new thread is returned and one `put` is made, which stores exactly the old mapping plus `userId → thread` when it resolves and stores nothing when it is rejected |
| Topics.TopicDirectory.CreateThenLookup | worker.js:215-274 | a thread returned for a user is found again by the reverse lookup and routed to that user, when it was the user's already or was created and stored, and no other user holds it; when the `put` of a new thread is rejected, the lookup finds nobody |
| Topics.NewTopicOwner | worker.js:261-262 | after a new thread id is recorded, its only owner is the user it was recorded for, so the reverse lookup finds that user |
| TagCodec.GenerateSignature | worker.js:277-305 | a signature is produced exactly when the id passes the user-id check |
| TagCodec.SignatureShape | worker.js:277-305 | a signature is sixteen lowercase hex digits |
| TagCodec.SignatureOfRendering | worker.js:277-305 | an id is signed through its rendering only: the number and its digit string get the same signature |
| TagCodec.VerifyUserIdSignature | worker.js:308-316 | verification holds exactly when the id is digits and the signature equals the recomputed one |
| TagCodec.FallbackTag | worker.js:330-422 | when signing fails (the id fails its check), the tag is the unsigned rendering of the same kind; with no `[` before or after it, a reply to the mention link finds no user, and a reply to the deep link of an id that renders as digits (the number 0) gets that id back unverified |
| TagCodec.TypedMentionHidesTag | worker.js:364-383 | a mention link `[@name](https://t.me/name)` in the text of a user without a username hides the worker's signed deep link after it: the unsigned mention is tried first and gives null |
| TagCodec.EmbeddedSignature | worker.js:319-329 | the signature embedded in a tag is deterministic for (id, secret), sixteen hex digits, and verifies |
| TagCodec.ExtractUserChatId | worker.js:344-422 | any id returned is a digit string |
| TagCodec.ExtractDecidedBy | worker.js:344-417 | the earliest format in priority order that is found anywhere in the text decides the result, whatever later formats find |
| TagCodec.ExtractNothingFound | worker.js:346-417 | a non-string, or a text in which no format is found, gives null |
| TagCodec.ExtractSignedMention | worker.js:349-361 | a signed @-link gives its id exactly when its signature verifies, null otherwise, with no fall-through |
| TagCodec.ExtractLegacyMention | worker.js:365-369 | a legacy @-link gives null |
| TagCodec.ExtractSignedDeepLink | worker.js:372-384 | a signed tg:// link gives its id exactly when its signature verifies, null otherwise |
| TagCodec.ExtractLegacyDeepLink | worker.js:388-392 | a legacy tg:// link gives its id, unverified |
| TagCodec.ExtractSignedBracket | worker.js:395-407 | `[USER:id:sig]` gives its id exactly when its signature verifies, null otherwise |
| TagCodec.ExtractLegacyBracket | worker.js:411-415 | `[USER:id]` not followed by `:` or a word character gives its id, unverified |
| TagCodec.LegacyBracketLookahead | worker.js:411 | `[USER:id]` followed by `:` or a word character does not match the oldest format |
| TagCodec.TagRoundTrip | worker.js:319-422 | extracting from a text holding the tag of a valid user id, with or without a username, and no `[` before or after the tag, gives back the id as rendered |
| TagCodec.ChatIdRoundTrip | worker.js:319-422 | for a positive numeric chat id, with no `[` before the tag, the round trip gives its decimal digits |
| TagCodec.FirstTagDecides | worker.js:349-417 | of two tags in a text, the first decides when a format matches it before any newer format matches either |
| TagCodec.SecondTagDecides | worker.js:349-417 | of two tags, the second decides when nothing up to its format matches the first |
| TagCodec.SignedBeatsLegacy | worker.js:372-415 | a signed tg:// link wins over an earlier `[USER:id]` |
| TagCodec.LeftmostSignedMarkerDecides | worker.js:372-384 | of two signed tg:// links, the leftmost decides, even with a bad signature |
| TextHelpers.Split | worker.js:428 | `split` gives one more piece than separators, and no piece holds the separator |
| TextHelpers.JoinSplit | worker.js:428-432 | joining the pieces of a split gives back the text |
| TextHelpers.SplitJoin | worker.js:428-432 | splitting a join of separator-free pieces gives back the pieces |
| TextHelpers.TrimShape | worker.js:441 | `trim` removes only whitespace, and only at both ends, and leaves none there |
| TextHelpers.DigitPiecesKeep | worker.js:440-442 | an id is kept exactly when it is a digit string that some piece trims to |
| TextHelpers.DigitPiecesOfIds | worker.js:440-442 | digit ids come through the trim and filter unchanged, in order |
| TextHelpers.ParseWithoutSpace | worker.js:426-429 | text without a space (empty text included) gives no targets and an empty message |
| TextHelpers.ParseAtFirstSpace | worker.js:428-444 | the message is everything after the first space; the targets are `all` exactly when the part before it is `all`, and are otherwise its trimmed digit pieces |
| TextHelpers.PostCommandRoundTrip | worker.js:425-445 | parsing ids joined by commas, a space and a message gives back those ids and that message |
| TextHelpers.EscapeMarkdown | worker.js:702-709 | a non-string is returned as it is; a string grows by exactly one unit per special character |
| TextHelpers.EscapeLength | worker.js:708 | the escaped length is the length plus the number of the 18 special characters |
| TextHelpers.UnescapeEscape | worker.js:708 | escaping loses nothing: removing the inserted backslashes gives back the text, backslashes included |
| TextHelpers.EscapeKeepsPlainText | worker.js:708 | a text without special characters is unchanged |
| TextHelpers.EscapeAppend | worker.js:708 | escaping works character by character: it distributes over concatenation |
| Registry.ReadUsers | worker.js:448-470 | the stored array when there is one; an empty list without KV, with no value, with unparsable text or with a non-array |
| Registry.FindIndex | worker.js:483 | the first record with that chat id, or −1 when there is none |
| Registry.SortSorts | worker.js:501 | the sort orders records newest first |
| Registry.SortPermutes | worker.js:501 | the sort neither adds nor loses a record |
| Registry.InsertStable | worker.js:501 | inserting a record puts it before the records of its own time and reorders no records of one time |
| Registry.SortStable | worker.js:501 | the sort is stable: the records of any one time keep their relative order |
| Registry.UpsertPlaces | worker.js:483-497 | the record replaces the chat's first record and nothing else, or is appended after all the others when the chat is new |
| Registry.UpsertUnderLimit | worker.js:493-503 | below the limit the list is stored as upserted, new record included |
| Registry.CappedBound | worker.js:500-503 | the stored list never holds more than 1000 records, all of them from the upserted list |
| Registry.CappedKeepsNewest | worker.js:500-503 | records dropped past the limit are none newer than any kept, and together with the kept ones they are the whole list |
| Registry.CappedKeepsEarliestOfATime | worker.js:500-503 | of the records that share a time, the ones kept are the earliest in the upserted list |
| Registry.UserRegistry.AddUser | worker.js:474-510 | without KV, when a check fails, or when the `put` is rejected and swallowed, the stored list is unchanged; otherwise it becomes the upserted list, cut to the newest 1000, so at most 1000 records |
| Delivery.PrefixUnits | worker.js:515 | each prefix is nine UTF-16 units, eleven with its two line breaks |
| Delivery.CutCaptionShape | worker.js:522-523 | a cut caption is 1025 units: the prefix line, the first 1011 units of the body and `...` |
| Delivery.BroadcastCaptionLength | worker.js:518-524 | a broadcast caption is the whole escaped text when it fits in 1024 units, and exactly 1025 units of that shape otherwise |
| Delivery.ReplyCaptionLength | worker.js:796-803 | a reply caption is the prefix alone without an admin caption, the whole text when it fits, and exactly 1025 units of that shape otherwise |
| Delivery.SendCheck | worker.js:714-715 | `sendMessage` sends nothing exactly when the chat id or the text (4096 units) fails its check |
| Delivery.CopyCheck | worker.js:735-740 | `copyMessage` sends exactly when both chat ids pass and the message id is a non-zero number |
| Delivery.LadderCaptionFirst | worker.js:527-534 | a medium that passes the checks is first copied with its caption, and when that is `ok` nothing else is sent |
| Delivery.LadderSeparately | worker.js:536-546 | a caption refused with `ok: false` leads to the text alone and then a bare copy, whose answer is the result |
| Delivery.LadderFallback | worker.js:548-559 | a captioned copy that throws leads to the notice and a bare copy, whose outcome (an error included) is the result |
| Delivery.LadderRejectsBadChat | worker.js:548-559 | a medium for a chat id that fails its check is never sent: the ladder throws with no request made |
| Delivery.LadderEndsWithCopy | worker.js:513-561 | the ladder makes at most five requests, and whenever it resolves, it resolves with the answer to its last request, a copy of the medium |
| Delivery.LadderAddressed | worker.js:513-561 | every request of the ladder goes to the user the medium is for |
| Delivery.Telegram.SendMessage | worker.js:712-730 | the request log grows by what `SendStep` sends, and the outcome is its outcome |
| Delivery.Telegram.CopyMessage | worker.js:733-756 | the request log grows by what `CopyStep` sends, and the outcome is its outcome |
| Delivery.Telegram.SendTextThenCopy | worker.js:543-546 | the log grows by a text and, unless it throws, a bare copy; this is `TextThenCopy` |
| Delivery.Telegram.SendCaptioned | worker.js:527-546 | the `try` block: it logs and returns what `Captioned` describes |
| Delivery.Telegram.SendMedia | worker.js:517-560 | the whole ladder: it logs and returns what `Ladder` describes |
| Delivery.Telegram.SendMediaBroadcastToUser | worker.js:513-561 | the ladder with the broadcast caption, the full caption as separate text and the file notice |
| Delivery.Telegram.SendMediaReplyToUser | worker.js:792-839 | the ladder with the reply caption, the prefix as separate text and the file notice |
| Broadcast.ValidIds | worker.js:591-600 | the kept ids all pass the chat-id check and come from the targets |
| Broadcast.InvalidErrors | worker.js:591-600 | every target is either kept or has one error |
| Broadcast.ValidIdsAppend | worker.js:591-600 | the filter keeps exactly the ids that pass, in order, and records one error for each other id |
| Broadcast.FilterIds | worker.js:591-600 | the loop computes the kept ids and one failure and one error per rejected id |
| Broadcast.BatchesShape | worker.js:609-610 | the batches are non-empty, of at most ten ids, and together are the valid ids in order |
| Broadcast.BatchesCount | worker.js:609-610 | N ids make ⌈N/10⌉ batches |
| Broadcast.BatchesFirst | worker.js:610 | the first batch is the first ten ids, or all of them when there are fewer |
| Broadcast.Pauses | worker.js:632-634 | a 100 ms wait between two batches, none after the last |
| Broadcast.PausesNext | worker.js:632-634 | one more batch adds one more wait |
| Broadcast.DeliverCount | worker.js:612-627 | every delivery is one success, or one failure with one error appended |
| Broadcast.DeliverAppend | worker.js:609-629 | delivering batch by batch is delivering to the whole list in order |
| Broadcast.DeliverAddressed | worker.js:612-627 | when each delivery sends only to its own chat, every request goes to one of the chats delivered to |
| Broadcast.BroadcastAddressed | worker.js:591-627 | a broadcast sends only to valid ids among its targets; an invalid id is never sent to |
| Broadcast.DeliverOne | worker.js:614-620 | the delivery to one chat is the media ladder or the escaped broadcast text |
| Broadcast.DeliverCounted | worker.js:612-627 | one delivery, counted as a success or as a failure with its error |
| Broadcast.DeliverBatch | worker.js:612-629 | one batch, delivered in order and counted |
| Broadcast.DeliverAll | worker.js:609-635 | the batch loop: it delivers to every valid id in order and forms the batches and waits above |
| Broadcast.BroadcastMessage | worker.js:564-648 | an invalid message, `all` with no users, or no targets gives `{0, 1, [error]}` with nothing sent; otherwise the requests are those of delivering to the valid ids, success + failed = number of targets and errors.length = failed |
| Broadcast.ReportLists | worker.js:1044 | the report shows at most five error lines, the first ones, one per line, and counts the rest exactly when there are more than five |
| AdminRouting.MediaPostUnreachable | worker.js:976-1095 | as written, no message reaches the media broadcast; every `/post` text is the text broadcast |
| AdminRouting.MediaPostReached | worker.js:1090-1131 | corrected: `/post` in reply to a message is the media broadcast exactly when that message carries no tag, and the text broadcast otherwise |
| AdminRouting.ActionAgreesElsewhere | worker.js:926-1254 | every other message takes the same branch in both dispatches |
| AdminRouting.PostToForwardIsTextPost | worker.js:1090-1095 | `/post` in reply to a forwarded user message is the text broadcast, when no `[` stands before or after the tag |
| AdminRouting.UserMarkerMissesCurrentTags | worker.js:1094 | as written, a text holding a tag the worker writes today, with no `[` before or after the tag, does not contain `[USER:` |
| AdminRouting.IdentityTagFindsCurrentTags | worker.js:1094 | corrected: such a text, with no `[` before or after the tag, does carry a tag the decoder finds |
| AdminRouting.PlainTextCarriesNoTag | worker.js:1094 | a text without `[` carries no tag |
| AdminRouting.PostBroadcastGuarded | worker.js:976-1041 | a broadcast is reached only with a message, with user tracking on for `all`, and with at least one digit id |
| AdminRouting.PostWithoutMessage | worker.js:977-1000 | an empty command text gives the usage text; one without a space gives "no message" |
| AdminRouting.PostBlank | worker.js:977-988 | `/post` followed by whitespace only gives the usage text |
| AdminRouting.PostToIds | worker.js:976-1102 | `/post 123,456 text` broadcasts that text to those ids, in both the text and the media path |
| AdminRouting.PostToAll | worker.js:976-1102 | `/post all text` broadcasts to everyone exactly when user tracking is on; the media path does not check tracking |
| AdminRouting.MediaPostBroadcastsReplied | worker.js:1095-1124 | corrected order: a media `/post` calls `broadcastMessage` exactly when its command has a message, with the parsed audience and message and a copy of the replied-to message from the admin chat |
| AdminRouting.TextPostBroadcastsTyped | worker.js:976-1041 | a text `/post` calls `broadcastMessage` with the typed message as text exactly when its checks pass |
| AdminRouting.MediaBroadcastCopiesReplied | worker.js:1122-1124 | each user of a media broadcast is first sent a copy of the replied-to message from the admin chat, captioned with the broadcast text, and nothing else when that copy succeeds |
| AdminRouting.RouteReply | worker.js:1133-1140 | the tag of the replied-to text (or its caption when the text is falsy) decides when found; otherwise, only in forum mode with a thread id, the owner of the topic; otherwise nobody |
| AdminRouting.ForwardRoutesBack | worker.js:1134 | a reply to a forwarded message whose text or caption holds the worker's tag, as the worker sent it and with no `[` before or after the tag, goes to that user |
| AdminRouting.UntaggedReplyFallsBack | worker.js:1134-1140 | a reply to a message without `[` finds no tag, so routing falls back to the topic |
| AdminRouting.ReplyText | worker.js:1155-1159 | a text reply is the heading and then the escaped text, one unit longer per special character |
| AdminRouting.DeliverReply | worker.js:1154-1162 | a text is sent escaped after the heading; anything else goes through the reply ladder with the admin's caption; every request goes to the routed user |

## Left out

- Hashing (HMAC-SHA256 and SHA-256 through `crypto.subtle`, worker.js:283-300) is an abstract `Crypto` pair of functions, assumed to return full 32-byte digests. Other properties of those functions cannot be proved.
- `fetch`, `AbortController`, real timers, HTTP bodies and JSON text are not modelled. A fetch is a scripted outcome per attempt. An API answer is a scripted result per request. Waits are returned as lists of delays.
- Concurrency is not modelled:
  - `Promise.allSettled` within a batch runs as a sequential loop;
  - the detached `ctx.waitUntil` tasks are not modelled;
  - neither is the KV read-modify-write race between invocations.
- Broadcast.BroadcastMessage: fixes the order of errors within a batch to list order. When deliveries overlap, the source appends them in completion order. The counts do not depend on that order.
- Topics.TopicDirectory.UserIdFromTopicId: leaves open which of several owners of one thread is returned. In the source it is the first in the blob's key order, which the model does not track.
- AdminRouting.RouteReply: inherits that open choice for the owner of the topic.
- AdminRouting.RouteReply, AdminRouting.ForwardRoutesBack and AdminRouting.HasIdentityTag: take the replied-to text or caption to be the text the worker sent, Markdown link syntax included. The worker sends forwards with `parse_mode: 'Markdown'` (worker.js:720, 746). Telegram most likely hands back the rendered text, with the link moved into entities. No tag pattern of `extractUserChatId` would then match, and routing would rest on the topic lookup alone. This is an assumption about Telegram, not about `worker.js`; the model proves only what the decoder does with the text as sent.
- `Date` values are integers: `lastActive` is the instant the ISO string stands for. The random icon colour of a new topic (worker.js:253-255) is not modelled, since it affects no outcome.
- Logging (`logError`, `logInfo`) is left out, since it affects no outcome.
- `createForumTopic` (worker.js:158-174) is an abstract created/failed outcome after its argument checks.
- `isForum` and `getForumTopics` are not modelled. They only feed the `/start` and `/status` texts.
- The texts of `/start`, `/status`, `/help` and `/users` are not modelled, since they carry no routing logic.
- The admin's usage, warning, acknowledgement and "broadcast started" messages (worker.js:979-1037, 1142-1183, 1213-1238) are not requests in the model. The model states which branch is taken, not the notice text.
- The media broadcast report (worker.js:1126) is not modelled as a text.
- `handleUserMessage`, `handleMessage`, `handleWebhook`, `handleRequest`, `setWebhook`, `getMe` and `createUserInfo` are not part of this model. They hold the HTTP plumbing and the user-side templates.
- The catch-all at the end of `handleAdminMessage` is not modelled.
- Numbers are unbounded integers. `String(n)` of a number beyond 2^53, and of a non-integer, are not modelled.
- Strings are sequences of Unicode scalar values, so lone surrogates in incoming text are not represented.
- TagCodec.TagRoundTrip, TagCodec.ChatIdRoundTrip, AdminRouting.ForwardRoutesBack, AdminRouting.PostToForwardIsTextPost, AdminRouting.UserMarkerMissesCurrentTags and AdminRouting.IdentityTagFindsCurrentTags: hold only when no `[` stands before or after the tag. The forwarded text puts the user's own text, unescaped, before the tag (worker.js:880-881), and the header (worker.js:787) holds the user's display name. What such text can do is proved only for particular shapes:
  - a mention link typed by a user who has no username makes the reply unroutable by tag (`TagCodec.TypedMentionHidesTag`);
  - a signed deep link typed before the tag decides in its place (`TagCodec.LeftmostSignedMarkerDecides`). A forged signature leads nowhere. A signature that verifies redirects the reply to the id it names. Without `USER_ID_SECRET`, that signature is a plain SHA-256 of `user:<id>:fallback`;
  - a user's text may contain `[USER:`, and then the as-written `hasUserTag` counts the forward as tagged.
  Other text shapes are not characterised.
- TagCodec.CreateSecureUserTag: its own contract only says that the tag starts with `[`. What the tag means is stated by `TagCodec.TagRoundTrip`, `EmbeddedSignature` and `FallbackTag`.

## Findings

| source | as written | input that shows it | evidently intended | confidence | as-written member | corrected member |
|---|---|---|---|---|---|---|
| worker.js:1095 | the media-broadcast branch follows the text `/post` branch at line 976, which takes every text starting with `/post` and returns | the admin replies `/post all hello` to a photo: it broadcasts the text "hello" and never the photo | a `/post` in reply to an untagged message broadcasts that message (the help text at 969 describes this) | not executed | AdminRouting.MediaPostUnreachable (branches of AdminRouting.ActionAsWritten) | AdminRouting.MediaPostReached (branches of AdminRouting.Action) |
| worker.js:1094 | `hasUserTag` looks only for the substring `[USER:` | a reply to a forwarded message whose text holds `[👤 USER:123:0123456789abcdef](tg://user?id=123)`, the tag the worker writes today, counts as untagged (this assumes the reply carries the text as sent; if Telegram returns it rendered, no tag format matches either way) | recognise every tag format the decoder knows | not executed | AdminRouting.UserMarkerMissesCurrentTags (on AdminRouting.HasUserTagAsWritten) | AdminRouting.IdentityTagFindsCurrentTags (on AdminRouting.HasIdentityTag, for the text as sent) |
