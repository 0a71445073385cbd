/** What the worker does with a message from the admin chat (`handleAdminMessage`):
    which branch a message takes, how a `/post` command is read, to whom a reply goes
    and what that user receives. */
module AdminRouting {
  import opened Js
  import opened TextHelpers
  import opened Topics
  import opened Delivery
  import TagCodec
  import Broadcast
  import Retry

  /** An optional string field of a Telegram message, as a JavaScript value. */
  function Field(o: Option<string>): (v: JsValue)
    ensures Truthy(v) <==> o.Some? && o.value != ""
    ensures v.Str? ==> o == Some(v.s)
  {
    if o.Some? then Str(o.value) else Undefined
  }

  /** The message an admin message replies to, as far as routing reads it. */
  datatype RepliedTo = RepliedTo(text: Option<string>, caption: Option<string>, messageId: JsValue)

  /** An admin message: its text and caption, its id and thread, the message it
      replies to, whether it carries one of the `forum_topic_*` service fields, and
      whether it carries a photo, document, video, audio, voice or sticker. */
  datatype AdminMessage = AdminMessage(
    text: Option<string>, caption: Option<string>, messageId: JsValue, threadId: JsValue,
    replyTo: Option<RepliedTo>, topicEvent: bool, hasMedia: bool)

  /** The branch of `handleAdminMessage` a message takes. */
  datatype AdminAction =
    | StartPanel | StatusPanel | HelpPanel   // `/start`, `/status`, `/help`
    | TextPost                               // `/post …` typed as text
    | UserList                               // `/users`
    | MediaPost                              // `/post …` in reply to a medium
    | ReplyToSender                          // any other reply
    | IgnoreService                          // a service message in a topic
    | TopicMessage                           // a message written straight into a topic
    | Hint                                   // anything else

  /** `message.text && message.text.startsWith('/post')` */
  predicate IsPostText(text: Option<string>) {
    text.Some? && text.value != "" && StartsWith(text.value, "/post")
  }

  /** `isSystemMessage`: a topic created, edited, closed or reopened, or a message with
      neither text nor any of the forwarded kinds of media. */
  predicate IsServiceMessage(m: AdminMessage) {
    m.topicEvent || (!Truthy(Field(m.text)) && !m.hasMedia)
  }

  // ---------------------------------------------------------------- recognising a user tag

  /** `field?.includes('[USER:')`: false when the field is absent. */
  predicate MentionsUserMarker(field: Option<string>) {
    field.Some? && Includes(field.value, "[USER:")
  }

  /** `hasUserTag` as written: the marker of the oldest tag format only. */
  predicate HasUserTagAsWritten(r: RepliedTo) {
    MentionsUserMarker(r.text) || MentionsUserMarker(r.caption)
  }

  /** Some tag format of the decoder is found in the field. */
  predicate CarriesTag(field: Option<string>) {
    field.Some? && exists i :: 0 <= i < |TagCodec.PriorityOrder| && TagCodec.Find(TagCodec.PriorityOrder[i], field.value).Some?
  }

  /** Whether the replied-to message is a forwarded user message: it carries a tag of
      any of the formats the decoder knows. */
  predicate HasIdentityTag(r: RepliedTo) {
    CarriesTag(r.text) || CarriesTag(r.caption)
  }

  /** No `[` in the text is followed by `U`, so the oldest marker is nowhere in it. */
  lemma {:induction false} NoUserMarker(s: string)
    requires forall i :: 0 <= i < |s| - 1 ==> s[i] == '[' ==> s[i + 1] != 'U'
    ensures !Includes(s, "[USER:")
  {
    if s != [] {
      if |s| >= 6 {
        assert s[..6][0] == s[0] && s[..6][1] == s[1];
      }
      var t := s[1..];
      forall i | 0 <= i < |t| - 1
        ensures t[i] == '[' ==> t[i + 1] != 'U'
      {
        assert t[i] == s[i + 1] && t[i + 1] == s[i + 2];
      }
      NoUserMarker(t);
    }
  }

  /** Around a tag whose only `[` is its first character and is not followed by `U`,
      the oldest marker is nowhere in the text. */
  lemma MarkerOnlyAt(pre: string, tag: string, post: string)
    requires '[' !in pre && '[' !in post
    requires TagCodec.OneBracket(tag) && |tag| > 1 && tag[1] != 'U'
    ensures !Includes(pre + tag + post, "[USER:")
  {
    var s := pre + tag + post;
    forall i | 0 <= i < |s| - 1
      ensures s[i] == '[' ==> s[i + 1] != 'U'
    {
      if i < |pre| {
        assert s[i] == pre[i];
      } else if i == |pre| {
        assert s[i + 1] == tag[1];
      } else if i < |pre| + |tag| {
        assert s[i] == tag[1..][i - |pre| - 1];
      } else {
        assert s[i] == post[i - |pre| - |tag|];
      }
    }
    NoUserMarker(s);
  }

  /** The two renderings of a tag with a signature: one `[`, followed by `@` or `👤`,
      and matched by their own format. */
  predicate RenderedAs(tag: string, f: TagCodec.Format, post: string) {
    TagCodec.OneBracket(tag) && |tag| > 1 && (tag[1] == '@' || tag[1] == '👤')
    && TagCodec.MatchAt(f, tag + post).Some?
  }

  lemma MentionRendered(name: string, id: string, sig: string, post: string)
    requires |name| > 0 && AllWordChars(name) && IsDigits(id) && TagCodec.IsSignature(sig)
    ensures RenderedAs(TagCodec.SignedMentionTag(name, id, sig), TagCodec.SignedMention, post)
  {
    TagCodec.SignedMentionAt(name, id, sig, post);
  }

  lemma DeepLinkRendered(id: string, sig: string, post: string)
    requires IsDigits(id) && TagCodec.IsSignature(sig)
    ensures RenderedAs(TagCodec.SignedDeepLinkTag(id, sig), TagCodec.SignedDeepLink, post)
  {
    TagCodec.SignedDeepLinkAt(id, sig, post);
  }

  /** The tag as `createSecureUserTag` writes it for a valid id, with its format: a
      valid id is always signed. */
  lemma TagRendering(crypto: TagCodec.Crypto, userId: JsValue, secret: Option<string>, username: Option<string>, post: string)
    returns (f: TagCodec.Format)
    requires TagCodec.FullDigests(crypto) && Validation.IsValidUserId(userId)
    requires username.None? || username.value == "" || AllWordChars(username.value)
    ensures RenderedAs(TagCodec.CreateSecureUserTag(crypto, userId, secret, username), f, post)
  {
    var id := Show(userId);
    Validation.UserIdIsChatId(userId);
    TagCodec.SignatureShape(crypto, userId, secret);
    var sig := TagCodec.GenerateSignature(crypto, userId, secret).value;
    if username.Some? && username.value != "" {
      MentionRendered(username.value, id, sig, post);
      f := TagCodec.SignedMention;
    } else {
      DeepLinkRendered(id, sig, post);
      f := TagCodec.SignedDeepLink;
    }
  }

  /** The `[USER:` check misses every tag the worker writes today: a forwarded user
      message, with its tag in the text, does not count as tagged. */
  lemma UserMarkerMissesCurrentTags(crypto: TagCodec.Crypto, userId: JsValue, secret: Option<string>, username: Option<string>, pre: string, post: string)
    requires TagCodec.FullDigests(crypto) && Validation.IsValidUserId(userId)
    requires username.None? || username.value == "" || AllWordChars(username.value)
    requires '[' !in pre && '[' !in post
    ensures !MentionsUserMarker(Some(pre + TagCodec.CreateSecureUserTag(crypto, userId, secret, username) + post))
  {
    var tag := TagCodec.CreateSecureUserTag(crypto, userId, secret, username);
    var _ := TagRendering(crypto, userId, secret, username, post);
    MarkerOnlyAt(pre, tag, post);
  }

  /** The corrected check recognises every tag the worker writes. */
  lemma IdentityTagFindsCurrentTags(crypto: TagCodec.Crypto, userId: JsValue, secret: Option<string>, username: Option<string>, pre: string, post: string)
    requires TagCodec.FullDigests(crypto) && Validation.IsValidUserId(userId)
    requires username.None? || username.value == "" || AllWordChars(username.value)
    requires '[' !in pre && '[' !in post
    ensures CarriesTag(Some(pre + TagCodec.CreateSecureUserTag(crypto, userId, secret, username) + post))
  {
    var tag := TagCodec.CreateSecureUserTag(crypto, userId, secret, username);
    var f := TagRendering(crypto, userId, secret, username, post);
    TagCodec.FindAtTag(f, pre, tag, post);
    TagCodec.RankPosition(f);
  }

  /** A text without any `[` carries no tag. */
  lemma PlainTextCarriesNoTag(t: string)
    requires '[' !in t
    ensures !CarriesTag(Some(t))
  {
    forall i | 0 <= i < |TagCodec.PriorityOrder|
      ensures TagCodec.Find(TagCodec.PriorityOrder[i], t).None?
    {
      TagCodec.FindInPlainText(TagCodec.PriorityOrder[i], t);
    }
  }

  // ---------------------------------------------------------------- dispatch

  /** The branches of `handleAdminMessage` in the order the code tests them. */
  function ActionAsWritten(m: AdminMessage, forumMode: string): AdminAction {
    if m.text == Some("/start") then StartPanel
    else if m.text == Some("/status") then StatusPanel
    else if m.text == Some("/help") then HelpPanel
    else if IsPostText(m.text) then TextPost
    else if m.text == Some("/users") then UserList
    else match m.replyTo
      case Some(replied) =>
        if IsPostText(m.text) && !HasUserTagAsWritten(replied) then MediaPost else ReplyToSender
      case None =>
        if forumMode == "true" && Truthy(m.threadId) then
          if IsServiceMessage(m) then IgnoreService else TopicMessage
        else Hint
  }

  /** None of the other commands starts with `/post`. */
  lemma OtherCommandsNotPost()
    ensures !StartsWith("/start", "/post") && !StartsWith("/status", "/post") && !StartsWith("/help", "/post")
  {
    assert "/start"[..5][1] == 's' && "/status"[..5][1] == 's' && "/help"[..5][1] == 'h';
    assert "/post"[1] == 'p';
  }

  /** The media broadcast after a reply is never reached: every `/post` text is taken
      by the text broadcast first, so a `/post` reply to a photo broadcasts its own text. */
  lemma MediaPostUnreachable(m: AdminMessage, forumMode: string)
    ensures ActionAsWritten(m, forumMode) != MediaPost
    ensures IsPostText(m.text) ==> ActionAsWritten(m, forumMode) == TextPost
  {
    OtherCommandsNotPost();
  }

  /** The branches in the intended order: a `/post` reply to a message that is not a
      forwarded user message broadcasts that message; a reply is otherwise routed to
      its user. */
  function Action(m: AdminMessage, forumMode: string): AdminAction {
    if m.text == Some("/start") then StartPanel
    else if m.text == Some("/status") then StatusPanel
    else if m.text == Some("/help") then HelpPanel
    else if m.replyTo.Some? && IsPostText(m.text) && !HasIdentityTag(m.replyTo.value) then MediaPost
    else if IsPostText(m.text) then TextPost
    else if m.text == Some("/users") then UserList
    else if m.replyTo.Some? then ReplyToSender
    else if forumMode == "true" && Truthy(m.threadId) then
      if IsServiceMessage(m) then IgnoreService else TopicMessage
    else Hint
  }

  /** `/post` in reply to a message without a tag is the media broadcast, and with a
      tag it is the text broadcast. */
  lemma MediaPostReached(m: AdminMessage, forumMode: string)
    requires m.replyTo.Some? && IsPostText(m.text)
    ensures Action(m, forumMode) == MediaPost <==> !HasIdentityTag(m.replyTo.value)
    ensures HasIdentityTag(m.replyTo.value) ==> Action(m, forumMode) == TextPost
  {
    OtherCommandsNotPost();
  }

  /** Every other message takes the branch it takes as written. */
  lemma ActionAgreesElsewhere(m: AdminMessage, forumMode: string)
    requires !(m.replyTo.Some? && IsPostText(m.text) && !HasIdentityTag(m.replyTo.value))
    ensures Action(m, forumMode) == ActionAsWritten(m, forumMode)
  {
  }

  /** A `/post` reply to a forwarded user message is the text broadcast, not a media
      broadcast of that message. */
  lemma PostToForwardIsTextPost(m: AdminMessage, forumMode: string, crypto: TagCodec.Crypto, userId: JsValue, secret: Option<string>, username: Option<string>, pre: string, post: string)
    requires TagCodec.FullDigests(crypto) && Validation.IsValidUserId(userId)
    requires username.None? || username.value == "" || AllWordChars(username.value)
    requires '[' !in pre && '[' !in post
    requires m.replyTo.Some? && m.replyTo.value.text == Some(pre + TagCodec.CreateSecureUserTag(crypto, userId, secret, username) + post)
    requires IsPostText(m.text)
    ensures Action(m, forumMode) == TextPost
  {
    IdentityTagFindsCurrentTags(crypto, userId, secret, username, pre, post);
    MediaPostReached(m, forumMode);
  }

  // ---------------------------------------------------------------- the /post command

  /** Where a `/post` command ends: the usage text, a missing message, `all` without
      user tracking, no valid id, or a broadcast. */
  datatype PostStep =
    | PostUsage
    | PostMissingMessage
    | PostAllUntracked
    | PostNoValidIds
    | PostBroadcast(audience: Broadcast.Audience, message: string)

  /** The ids as the strings `broadcastMessage` receives. */
  function StrIds(ids: seq<string>): (v: seq<JsValue>)
    ensures |v| == |ids| && forall i :: 0 <= i < |ids| ==> v[i] == Str(ids[i])
  {
    seq(|ids|, i requires 0 <= i < |ids| => Str(ids[i]))
  }

  /** `message.text.substring(5).trim()`; `/post` is five UTF-16 units. */
  function CommandText(text: string): string
    requires StartsWith(text, "/post")
  {
    Trim(text[5..])
  }

  /** The text `/post` handler, up to the call of `broadcastMessage`. */
  function PostDecision(text: string, userTracking: string): PostStep
    requires StartsWith(text, "/post")
  {
    var commandText := CommandText(text);
    if commandText == "" then PostUsage
    else
      var command := ParsePostTargets(commandText);
      if command.message == "" then PostMissingMessage
      else if command.targets.All? && userTracking != "true" then PostAllUntracked
      else if command.targets.Ids? && command.targets.ids == [] then PostNoValidIds
      else PostBroadcast(if command.targets.All? then Broadcast.Everyone else Broadcast.Chats(StrIds(command.targets.ids)), command.message)
  }

  /** The `/post` handler after a reply to a medium: only a missing message stops it
      (no usage text, no tracking check, no empty-list check). */
  function MediaPostDecision(text: string): PostStep
    requires StartsWith(text, "/post")
  {
    var command := ParsePostTargets(CommandText(text));
    if command.message == "" then PostMissingMessage
    else PostBroadcast(if command.targets.All? then Broadcast.Everyone else Broadcast.Chats(StrIds(command.targets.ids)), command.message)
  }

  /** A broadcast is reached only with a message, with user tracking for `all`, and
      with at least one id made of digits. */
  lemma PostBroadcastGuarded(text: string, userTracking: string)
    requires StartsWith(text, "/post")
    ensures var d := PostDecision(text, userTracking);
      d.PostBroadcast? ==>
        d.message != ""
        && (d.audience.Everyone? ==> userTracking == "true")
        && (d.audience.Chats? ==> d.audience.ids != [] && forall i :: 0 <= i < |d.audience.ids| ==> d.audience.ids[i].Str? && IsDigits(d.audience.ids[i].s))
  {
  }

  /** A message with no space or only whitespace after it sets nothing going. */
  lemma PostWithoutMessage(text: string, userTracking: string)
    requires StartsWith(text, "/post")
    ensures CommandText(text) == "" ==> PostDecision(text, userTracking) == PostUsage
    ensures CommandText(text) != "" && ' ' !in CommandText(text) ==> PostDecision(text, userTracking) == PostMissingMessage
  {
    if ' ' !in CommandText(text) {
      ParseWithoutSpace(CommandText(text));
    }
  }

  /** `/post` followed by whitespace only is the usage text. */
  lemma {:induction false} PostBlank(blank: string, userTracking: string)
    requires forall i :: 0 <= i < |blank| ==> IsJsSpace(blank[i])
    ensures PostDecision("/post" + blank, userTracking) == PostUsage
  {
    var text := "/post" + blank;
    assert text[5..] == blank;
    TrimStartBlank(blank);
  }

  lemma {:induction false} TrimStartBlank(blank: string)
    requires forall i :: 0 <= i < |blank| ==> IsJsSpace(blank[i])
    ensures TrimStart(blank) == []
  {
    if blank != [] {
      assert IsJsSpace(blank[0]);
      TrimStartBlank(blank[1..]);
    }
  }

  /** A message as the admin types it: not empty, without whitespace at either end. */
  predicate IsTypedMessage(message: string) {
    message != [] && !IsJsSpace(message[0]) && !IsJsSpace(message[|message| - 1])
  }

  /** `/post `, then a typed text: the command text is that text. */
  lemma CommandOfSpaced(body: string)
    requires IsTypedMessage(body)
    ensures StartsWith("/post " + body, "/post") && CommandText("/post " + body) == body
  {
    var text := "/post " + body;
    assert text[..5] == "/post";
    assert text[5..] == " " + body;
    assert (" " + body)[1..] == body;
    assert TrimStart(" " + body) == TrimStart(body) == body;
  }

  /** A head that starts with a character other than whitespace, a space and a typed
      message make a typed text. */
  lemma SpacedTyped(head: string, message: string)
    requires head != [] && !IsJsSpace(head[0]) && IsTypedMessage(message)
    ensures IsTypedMessage(head + " " + message)
  {
    var body := head + " " + message;
    assert body[0] == head[0];
    assert body[|body| - 1] == message[|message| - 1];
  }

  /** `/post `, a typed text and what parsing makes of it: the decision. */
  lemma PostOfTyped(body: string, userTracking: string, command: PostCommand)
    requires IsTypedMessage(body) && ParsePostTargets(body) == command && command.message != ""
    ensures StartsWith("/post " + body, "/post")
    ensures command.targets.Ids? && command.targets.ids != [] ==>
      PostDecision("/post " + body, userTracking) == PostBroadcast(Broadcast.Chats(StrIds(command.targets.ids)), command.message)
    ensures command.targets.All? ==>
      PostDecision("/post " + body, userTracking) == if userTracking == "true" then PostBroadcast(Broadcast.Everyone, command.message) else PostAllUntracked
    ensures MediaPostDecision("/post " + body) == PostBroadcast(if command.targets.All? then Broadcast.Everyone else Broadcast.Chats(StrIds(command.targets.ids)), command.message)
  {
    CommandOfSpaced(body);
  }

  /** `/post 123,456 text` broadcasts the text to exactly those ids, in the text
      broadcast and in the media broadcast alike. */
  lemma PostToIds(ids: seq<string>, message: string, userTracking: string)
    requires ids != [] && forall i :: 0 <= i < |ids| ==> IsDigits(ids[i])
    requires IsTypedMessage(message)
    ensures var text := "/post " + (Join(ids, ',') + " " + message);
      StartsWith(text, "/post") && PostDecision(text, userTracking) == PostBroadcast(Broadcast.Chats(StrIds(ids)), message)
      && MediaPostDecision(text) == PostBroadcast(Broadcast.Chats(StrIds(ids)), message)
  {
    var head := Join(ids, ',');
    assert IsTypedMessage(head + " " + message) by {
      JoinStartsWithDigit(ids);
      SpacedTyped(head, message);
    }
    assert ParsePostTargets(head + " " + message) == PostCommand(Ids(ids), message) by {
      PostCommandRoundTrip(ids, message);
    }
    PostOfTyped(head + " " + message, userTracking, PostCommand(Ids(ids), message));
  }

  /** A list of ids joined by commas starts with a digit. */
  lemma JoinStartsWithDigit(ids: seq<string>)
    requires ids != [] && IsDigits(ids[0])
    ensures Join(ids, ',') != [] && IsDigit(Join(ids, ',')[0]) && !IsJsSpace(Join(ids, ',')[0])
  {
    JoinFirst(ids, ',');
    assert IsDigit(ids[0][0]);
  }

  /** `/post all text` broadcasts to everyone exactly when user tracking is on; the
      media broadcast does not look at user tracking, so `all` always reaches it. */
  lemma PostToAll(message: string, userTracking: string)
    requires IsTypedMessage(message)
    ensures var text := "/post " + ("all" + " " + message);
      StartsWith(text, "/post")
      && PostDecision(text, userTracking) == (if userTracking == "true" then PostBroadcast(Broadcast.Everyone, message) else PostAllUntracked)
      && MediaPostDecision(text) == PostBroadcast(Broadcast.Everyone, message)
  {
    var body := "all" + " " + message;
    assert IsTypedMessage(body) by {
      SpacedTyped("all", message);
    }
    assert ParsePostTargets(body) == PostCommand(All, message) by {
      ParseAtFirstSpace("all", message);
    }
    PostOfTyped(body, userTracking, PostCommand(All, message));
  }

  // ---------------------------------------------------------------- the broadcast a /post starts

  /** The arguments of a `broadcastMessage` call: the audience, the message and what is
      delivered (the message as text, or a copy of a message of the admin chat). */
  datatype PostCall = PostCall(audience: Broadcast.Audience, message: string, content: Broadcast.Content)

  /** The `broadcastMessage` call a `/post` message makes, in the intended branch
      order: in reply to a message without a tag, that message is copied; otherwise the
      typed text is sent. None when the command ends before the call. */
  function PostCallOf(m: AdminMessage, userTracking: string, adminChatId: JsValue): Option<PostCall> {
    if !IsPostText(m.text) then None
    else if m.replyTo.Some? && !HasIdentityTag(m.replyTo.value) then
      match MediaPostDecision(m.text.value)
      case PostBroadcast(audience, message) =>
        Some(PostCall(audience, message, Broadcast.MediaContent(adminChatId, m.replyTo.value.messageId)))
      case _ => None
    else
      match PostDecision(m.text.value, userTracking)
      case PostBroadcast(audience, message) => Some(PostCall(audience, message, Broadcast.TextContent))
      case _ => None
  }

  /** The media broadcast broadcasts the replied-to message: whenever the command has
      a message, it is copied from the admin chat to the parsed audience, with the
      parsed message as its caption. */
  lemma MediaPostBroadcastsReplied(m: AdminMessage, forumMode: string, userTracking: string, adminChatId: JsValue)
    requires Action(m, forumMode) == MediaPost
    ensures m.text.Some? && StartsWith(m.text.value, "/post") && m.replyTo.Some?
    ensures var command := ParsePostTargets(CommandText(m.text.value));
      (PostCallOf(m, userTracking, adminChatId).Some? <==> command.message != "")
      && (command.message != "" ==>
            PostCallOf(m, userTracking, adminChatId)
            == Some(PostCall(if command.targets.All? then Broadcast.Everyone else Broadcast.Chats(StrIds(command.targets.ids)),
                             command.message, Broadcast.MediaContent(adminChatId, m.replyTo.value.messageId))))
  {
    OtherCommandsNotPost();
  }

  /** The text broadcast sends the typed message as text, exactly when its checks
      pass. */
  lemma TextPostBroadcastsTyped(m: AdminMessage, forumMode: string, userTracking: string, adminChatId: JsValue)
    requires Action(m, forumMode) == TextPost
    ensures m.text.Some? && StartsWith(m.text.value, "/post")
    ensures match PostDecision(m.text.value, userTracking)
      case PostBroadcast(audience, message) =>
        PostCallOf(m, userTracking, adminChatId) == Some(PostCall(audience, message, Broadcast.TextContent))
      case _ => PostCallOf(m, userTracking, adminChatId) == None
  {
    OtherCommandsNotPost();
  }

  /** Each user of a media broadcast is first sent a copy of the replied-to message
      from the admin chat, captioned with the broadcast message; when that copy
      succeeds, nothing else is sent to them. */
  lemma MediaBroadcastCopiesReplied(m: AdminMessage, forumMode: string, userTracking: string, adminChatId: JsValue,
                                    answer: nat -> Retry.ApiResult, k: nat, chatId: JsValue)
    requires Action(m, forumMode) == MediaPost && PostCallOf(m, userTracking, adminChatId).Some?
    requires Validation.IsValidChatId(chatId) && Validation.IsValidChatId(adminChatId)
    requires m.replyTo.Some? && m.replyTo.value.messageId.Num? && m.replyTo.value.messageId.n != 0
    ensures var call := PostCallOf(m, userTracking, adminChatId).value;
      var copy := Copy(chatId, adminChatId, m.replyTo.value.messageId, Some(BroadcastCaption(call.message)));
      var run := Broadcast.DeliveryRun(answer, k, chatId, call.message, call.content);
      run.requests != [] && run.requests[0] == copy
      && (answer(k) == Retry.Answer(true) ==> run == Run([copy], Resolved(true)))
  {
    MediaPostBroadcastsReplied(m, forumMode, userTracking, adminChatId);
    var call := PostCallOf(m, userTracking, adminChatId).value;
    LadderCaptionFirst(answer, k, Medium(chatId, adminChatId, m.replyTo.value.messageId), BroadcastCaption(call.message),
                       BroadcastPrefix + "\n\n" + Escape(call.message), BroadcastNotice(call.message));
  }

  // ---------------------------------------------------------------- routing a reply

  /** The user a reply goes to: the tag of the replied-to message (its text, or its
      caption when the text is empty); failing that, in forum mode and inside a topic,
      the owner of the topic. */
  method RouteReply(dir: TopicDirectory, crypto: TagCodec.Crypto, secret: Option<string>, forumMode: string, replied: RepliedTo, threadId: JsValue)
    returns (r: Option<string>)
    ensures var tagged := TagCodec.ExtractUserChatId(crypto, Or(Field(replied.text), Field(replied.caption)), secret);
      (tagged.Some? ==> r == tagged)
      && (tagged.None? && !(forumMode == "true" && Truthy(threadId)) ==> r == None)
      && (tagged.None? && forumMode == "true" && Truthy(threadId) ==>
            (r.Some? <==> threadId.Num? && Owners(dir.Mapping(), threadId.n) != {})
            && (r.Some? ==> r.value in Owners(dir.Mapping(), threadId.n)))
  {
    r := TagCodec.ExtractUserChatId(crypto, Or(Field(replied.text), Field(replied.caption)), secret);
    if r.None? && forumMode == "true" && Truthy(threadId) {
      r := dir.UserIdFromTopicId(threadId);
    }
  }

  /** A reply to a forwarded user message, whose text or (for a medium) caption holds
      the tag the worker wrote, is routed to that user, whatever topic it is in. */
  lemma ForwardRoutesBack(crypto: TagCodec.Crypto, userId: JsValue, secret: Option<string>, username: Option<string>, replied: RepliedTo, pre: string, post: string)
    requires TagCodec.FullDigests(crypto) && Validation.IsValidUserId(userId)
    requires username.None? || username.value == "" || AllWordChars(username.value)
    requires '[' !in pre && '[' !in post
    requires var forwarded := Some(pre + TagCodec.CreateSecureUserTag(crypto, userId, secret, username) + post);
      replied.text == forwarded || (!Truthy(Field(replied.text)) && replied.caption == forwarded)
    ensures TagCodec.ExtractUserChatId(crypto, Or(Field(replied.text), Field(replied.caption)), secret) == Some(Show(userId))
  {
    TagCodec.TagRoundTrip(crypto, userId, secret, username, pre, post);
  }

  /** A reply to a message without any `[` in it finds no tag, so it falls back to the
      topic it was written in. */
  lemma UntaggedReplyFallsBack(crypto: TagCodec.Crypto, secret: Option<string>, replied: RepliedTo)
    requires replied.text.Some? ==> '[' !in replied.text.value
    requires replied.caption.Some? ==> '[' !in replied.caption.value
    ensures TagCodec.ExtractUserChatId(crypto, Or(Field(replied.text), Field(replied.caption)), secret).None?
  {
    var v := Or(Field(replied.text), Field(replied.caption));
    if Truthy(v) && v.Str? {
      assert '[' !in v.s;
      forall j | 0 <= j < |TagCodec.PriorityOrder|
        ensures TagCodec.Finder(v.s)(TagCodec.PriorityOrder[j]).None?
      {
        TagCodec.FindInPlainText(TagCodec.PriorityOrder[j], v.s);
      }
      TagCodec.ExtractNothingFound(crypto, v, secret);
    }
  }

  // ---------------------------------------------------------------- delivering a reply

  /** The heading of a text reply; the admin's text follows it escaped. */
  const ReplyHeading: string := "💬 *管理员回复:*\n\n"

  /** What a user receives for a text reply. */
  function ReplyText(text: string): (r: string)
    ensures |r| == |ReplyHeading| + |text| + CountSpecial(text)
    ensures r[..|ReplyHeading|] == ReplyHeading
  {
    EscapeLength(text);
    ReplyHeading + Escape(text)
  }

  /** Sending the admin's message to the user it was routed to: a text is sent escaped
      under the heading; anything else is copied along the media ladder with the
      admin's caption. Every request made goes to that user. */
  method DeliverReply(tg: Telegram, userChatId: string, adminChatId: JsValue, m: AdminMessage) returns (r: Outcome)
    modifies tg
    ensures Truthy(Field(m.text)) ==>
      var step := SendStep(tg.answer, |old(tg.sent)|, Str(userChatId), ReplyText(m.text.value));
      tg.sent == old(tg.sent) + step.requests && r == step.outcome
    ensures !Truthy(Field(m.text)) ==>
      var run := Ladder(tg.answer, |old(tg.sent)|, Medium(Str(userChatId), adminChatId, m.messageId), ReplyCaption(m.caption), ReplyPrefix, ReplyNotice);
      tg.sent == old(tg.sent) + run.requests && r == run.outcome
    ensures |old(tg.sent)| <= |tg.sent| && AddressedTo(tg.sent[|old(tg.sent)|..], Str(userChatId))
  {
    ghost var before := tg.sent;
    if Truthy(Field(m.text)) {
      r := tg.SendMessage(Str(userChatId), ReplyText(m.text.value));
    } else {
      var medium := Medium(Str(userChatId), adminChatId, m.messageId);
      r := tg.SendMediaReplyToUser(medium, m.caption);
      LadderAddressed(tg.answer, |before|, medium, ReplyCaption(m.caption), ReplyPrefix, ReplyNotice);
    }
  }
}
