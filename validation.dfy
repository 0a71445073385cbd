/** `validateInput` and `validateEnvironment`: the checks the worker applies to ids,
    texts, message objects and its own configuration. A thrown error is a
    `Some(error)` result; a passing check is `None`. */
module Validation {
  import opened Js

  /** The `type` argument of `validateInput`, with the `maxLength` option of `'text'`
      (0 stands for an absent option: `options.maxLength && ...` skips the test). */
  datatype Check =
    | MessageCheck
    | ChatIdCheck
    | TextCheck(maxLength: nat)
    | UserIdCheck
    | UnknownCheck(name: string)

  datatype ValidationError =
    | InvalidMessageObject
    | MessageMissingFields
    | InvalidChatId
    | TextNotString
    | TextTooLong(maxLength: nat)
    | InvalidUserId
    | UnknownValidationType(name: string)

  function ValidateInput(input: JsValue, check: Check): Option<ValidationError> {
    match check
    case MessageCheck =>
      if !Truthy(input) || !input.Obj? then Some(InvalidMessageObject)
      else if "from" !in input.truthyFields || "chat" !in input.truthyFields then Some(MessageMissingFields)
      else None
    case ChatIdCheck =>
      if !Truthy(input) || !IsIntegerText(Show(input)) then Some(InvalidChatId) else None
    case TextCheck(maxLength) =>
      if !input.Str? then Some(TextNotString)
      else if maxLength != 0 && Utf16Length(input.s) > maxLength then Some(TextTooLong(maxLength))
      else None
    case UserIdCheck =>
      if !Truthy(input) || !IsDigits(Show(input)) then Some(InvalidUserId) else None
    case UnknownCheck(name) => Some(UnknownValidationType(name))
  }

  /** The message of the error `validateInput` throws. */
  function ValidationMessage(e: ValidationError): string {
    match e
    case InvalidMessageObject => "Invalid message object"
    case MessageMissingFields => "Message missing required fields"
    case InvalidChatId => "Invalid chat ID format"
    case TextNotString => "Text must be a string"
    case TextTooLong(maxLength) => "Text exceeds maximum length of " + Decimal(maxLength)
    case InvalidUserId => "Invalid user ID format"
    case UnknownValidationType(name) => "Unknown validation type: " + name
  }

  predicate IsValidChatId(v: JsValue) { ValidateInput(v, ChatIdCheck).None? }
  predicate IsValidUserId(v: JsValue) { ValidateInput(v, UserIdCheck).None? }

  /** A chat id passes exactly when it is a non-zero number or a string of
      the form `-?\d+` (a number 0 is falsy and fails). */
  lemma ChatIdCheckAccepts(v: JsValue)
    ensures IsValidChatId(v) <==> (v.Num? && v.n != 0) || (v.Str? && IsIntegerText(v.s))
  {
    match v
    case Bool(b) =>
      assert !IsDigit(Show(v)[0]) && Show(v)[0] != '-';
    case Obj(_) =>
      assert !IsDigit(Show(v)[0]) && Show(v)[0] != '-';
    case _ =>
  }

  /** A user id passes exactly when it is a positive number or a non-empty digit string. */
  lemma UserIdCheckAccepts(v: JsValue)
    ensures IsValidUserId(v) <==> (v.Num? && v.n > 0) || (v.Str? && IsDigits(v.s))
  {
    match v
    case Bool(b) =>
      assert !IsDigit(Show(v)[0]);
    case Obj(_) =>
      assert !IsDigit(Show(v)[0]);
    case _ =>
  }

  /** What passes a user-id check also passes a chat-id check, and renders as digits. */
  lemma UserIdIsChatId(v: JsValue)
    requires IsValidUserId(v)
    ensures IsValidChatId(v) && IsDigits(Show(v))
  {
  }

  /** A text check with limit `m` passes exactly for strings of at most `m` UTF-16 units. */
  lemma TextCheckAccepts(v: JsValue, m: nat)
    ensures ValidateInput(v, TextCheck(m)).None? <==> v.Str? && (m == 0 || Utf16Length(v.s) <= m)
    ensures ValidateInput(v, TextCheck(m)) == Some(TextNotString) <==> !v.Str?
  {
  }

  // ---------------------------------------------------------------- environment

  /** The two required variables (absent, or the string the platform provides). */
  datatype Env = Env(botToken: Option<string>, adminChatId: Option<string>)

  datatype EnvError =
    | MissingVariables(names: seq<string>)
    | AdminChatIdNotInteger
    | BotTokenMalformed

  /** `[A-Za-z0-9_-]` */
  predicate IsTokenChar(c: char) { IsWordChar(c) || c == '-' }

  /** The length of the run of digits that starts `s`. */
  function DigitRun(s: string): (k: nat)
    ensures k <= |s| && AllDigits(s[..k]) && (k < |s| ==> !IsDigit(s[k]))
  {
    if s == [] || !IsDigit(s[0]) then 0
    else
      var k := 1 + DigitRun(s[1..]);
      assert s[..k] == [s[0]] + s[1..][..k - 1];
      k
  }

  /** `/^\d+:[A-Za-z0-9_-]+$/.test(s)`: `\d+` can only end at the first non-digit,
      which must be the colon, and everything after it is a token character. */
  predicate IsBotToken(s: string) {
    var k := DigitRun(s);
    0 < k && k + 1 < |s| && s[k] == ':' && forall i :: k < i < |s| ==> IsTokenChar(s[i])
  }

  predicate Present(v: Option<string>) { v.Some? && v.value != "" }

  function MissingNames(env: Env): seq<string> {
    (if Present(env.botToken) then [] else ["BOT_TOKEN"])
    + (if Present(env.adminChatId) then [] else ["ADMIN_CHAT_ID"])
  }

  function ValidateEnvironment(env: Env): (r: Option<EnvError>)
    ensures r.None? <==> Present(env.botToken) && Present(env.adminChatId)
                         && IsIntegerText(env.adminChatId.value) && IsBotToken(env.botToken.value)
    // The first check: the error names exactly the absent or empty variables, in the
    // order BOT_TOKEN, ADMIN_CHAT_ID.
    ensures (r.Some? && r.value.MissingVariables?)
            <==> !Present(env.botToken) || !Present(env.adminChatId)
    ensures r.Some? && r.value.MissingVariables? ==>
              |r.value.names| == (if Present(env.botToken) then 0 else 1)
                                 + (if Present(env.adminChatId) then 0 else 1)
              && ("BOT_TOKEN" in r.value.names <==> !Present(env.botToken))
              && ("ADMIN_CHAT_ID" in r.value.names <==> !Present(env.adminChatId))
              && r.value.names[0] == (if Present(env.botToken) then "ADMIN_CHAT_ID" else "BOT_TOKEN")
    // Then the chat id is checked, and only then the token.
    ensures r == Some(AdminChatIdNotInteger)
            <==> Present(env.botToken) && Present(env.adminChatId)
                 && !IsIntegerText(env.adminChatId.value)
    ensures r == Some(BotTokenMalformed)
            <==> Present(env.botToken) && Present(env.adminChatId)
                 && IsIntegerText(env.adminChatId.value) && !IsBotToken(env.botToken.value)
  {
    var missing := MissingNames(env);
    if |missing| > 0 then Some(MissingVariables(missing))
    else if !IsIntegerText(env.adminChatId.value) then Some(AdminChatIdNotInteger)
    else if !IsBotToken(env.botToken.value) then Some(BotTokenMalformed)
    else None
  }

  /** A token is accepted exactly when it is a digit string, a colon and a non-empty
      run of token characters. */
  lemma {:induction false} BotTokenShape(d: string, rest: string)
    requires AllDigits(d) && forall i :: 0 <= i < |rest| ==> IsTokenChar(rest[i])
    ensures IsBotToken(d + ":" + rest) <==> |d| > 0 && |rest| > 0
  {
    var s := d + ":" + rest;
    DigitRunOf(d, ":" + rest);
    assert s == d + (":" + rest);
    assert forall i :: |d| < i < |s| ==> s[i] == rest[i - |d| - 1];
  }

  lemma {:induction false} DigitRunOf(d: string, r: string)
    requires AllDigits(d) && (r != [] ==> !IsDigit(r[0]))
    ensures DigitRun(d + r) == |d|
  {
    if d != [] {
      assert (d + r)[0] == d[0] && (d + r)[1..] == d[1..] + r;
      DigitRunOf(d[1..], r);
    } else {
      assert d + r == r;
    }
  }

  /** Every accepted token is a digit string, a colon and a token-character string. */
  lemma BotTokenSplits(s: string)
    requires IsBotToken(s)
    ensures exists k :: 0 < k < |s| - 1 && IsDigits(s[..k]) && s[k] == ':' && s == s[..k] + ":" + s[k + 1..]
  {
    var k := DigitRun(s);
    assert s == s[..k] + ":" + s[k + 1..];
  }
}
