/** The identity-tag codec: signing a user id, rendering the tag embedded in every
    message forwarded to the admin, and recovering the id from the text of a message
    the admin replies to (`generateUserIdSignature`, `verifyUserIdSignature`,
    `createSecureUserTag`, `extractUserChatId`). */
module TagCodec {
  import opened Js
  import opened Validation

  newtype Byte = x: int | 0 <= x < 256

  /** The two digests the worker takes from `crypto.subtle`, each over the UTF-8
      encoding of its string arguments: HMAC-SHA256 under a key, and SHA-256. */
  datatype Crypto = Crypto(hmacSha256: (string, string) -> seq<Byte>, sha256: string -> seq<Byte>)

  /** Both digests are 32 bytes long, as SHA-256 digests are. */
  ghost predicate FullDigests(c: Crypto) {
    (forall key: string, msg: string :: |c.hmacSha256(key, msg)| == 32)
    && (forall msg: string :: |c.sha256(msg)| == 32)
  }

  // ---------------------------------------------------------------- signatures

  function HexDigit(d: nat): (c: char)
    requires d < 16
    ensures IsLowerHex(c)
  {
    if d < 10 then ('0' as int + d) as char else ('a' as int + d - 10) as char
  }

  /** `bytes.map(b => b.toString(16).padStart(2, '0')).join('')` */
  function Hex(bytes: seq<Byte>): (h: string)
    ensures |h| == 2 * |bytes|
    ensures forall i :: 0 <= i < |h| ==> IsLowerHex(h[i])
  {
    if bytes == [] then ""
    else [HexDigit(bytes[0] as int / 16), HexDigit(bytes[0] as int % 16)] + Hex(bytes[1..])
  }

  /** `s.substring(0, n)` */
  function Take(s: string, n: nat): (r: string)
    ensures |r| == if n <= |s| then n else |s|
    ensures r == s[..|r|]
  {
    if n <= |s| then s[..n] else s
  }

  /** The shape of a signature in the tag patterns: `[a-f0-9]{16}`. */
  predicate IsSignature(s: string) {
    |s| == 16 && forall i :: 0 <= i < 16 ==> IsLowerHex(s[i])
  }

  /** `!secret` is false. */
  predicate HasSecret(secret: Option<string>) { secret.Some? && secret.value != "" }

  /** `generateUserIdSignature(userId, secret)`; `None` is the error it throws when the
      id fails `validateInput(userId, 'userId')`. With a secret it signs `user:<id>`;
      without one it hashes `user:<id>:fallback`. */
  function GenerateSignature(crypto: Crypto, userId: JsValue, secret: Option<string>): (r: Option<string>)
    ensures r.Some? <==> IsValidUserId(userId)
  {
    if !IsValidUserId(userId) then None
    else
      var digest :=
        if HasSecret(secret) then crypto.hmacSha256(secret.value, "user:" + Show(userId))
        else crypto.sha256("user:" + Show(userId) + ":fallback");
      Some(Take(Hex(digest), 16))
  }

  /** A generated signature is sixteen lowercase hex digits. */
  lemma SignatureShape(crypto: Crypto, userId: JsValue, secret: Option<string>)
    requires FullDigests(crypto) && IsValidUserId(userId)
    ensures IsSignature(GenerateSignature(crypto, userId, secret).value)
  {
  }

  /** A valid id is signed through its rendering only: the number 42 and the string
      "42" get the same signature. */
  lemma SignatureOfRendering(crypto: Crypto, userId: JsValue, secret: Option<string>)
    requires IsValidUserId(userId)
    ensures IsValidUserId(Str(Show(userId)))
    ensures GenerateSignature(crypto, Str(Show(userId)), secret) == GenerateSignature(crypto, userId, secret)
  {
    UserIdIsChatId(userId);
  }

  /** `verifyUserIdSignature(userId, signature, secret)`: recompute and compare; an id
      that cannot be signed verifies nothing. */
  function VerifyUserIdSignature(crypto: Crypto, userId: string, signature: string, secret: Option<string>): (ok: bool)
    ensures ok <==> IsDigits(userId) && Some(signature) == GenerateSignature(crypto, Str(userId), secret)
  {
    match GenerateSignature(crypto, Str(userId), secret)
    case None => false
    case Some(expected) => signature == expected
  }

  // ---------------------------------------------------------------- the six tag formats

  function SignedMentionTag(username: string, id: string, sig: string): string {
    "[@" + username + " (" + id + ":" + sig + ")](https://t.me/" + username + ")"
  }

  function LegacyMentionTag(username: string): string {
    "[@" + username + "](https://t.me/" + username + ")"
  }

  function SignedDeepLinkTag(id: string, sig: string): string {
    "[👤 USER:" + id + ":" + sig + "](tg://user?id=" + id + ")"
  }

  function LegacyDeepLinkTag(id: string): string {
    "[👤 USER:" + id + "](tg://user?id=" + id + ")"
  }

  function SignedBracketTag(id: string, sig: string): string {
    "[USER:" + id + ":" + sig + "]"
  }

  function LegacyBracketTag(id: string): string {
    "[USER:" + id + "]"
  }

  /** `createSecureUserTag(userId, secret, username)`: a signed mention link when a
      username is known, a signed deep link otherwise; when signing throws, the same
      two renderings without a signature. */
  function CreateSecureUserTag(crypto: Crypto, userId: JsValue, secret: Option<string>, username: Option<string>): (tag: string)
    ensures |tag| > 0 && tag[0] == '['
  {
    var named := username.Some? && username.value != "";
    match GenerateSignature(crypto, userId, secret)
    case Some(sig) =>
      if named then SignedMentionTag(username.value, Show(userId), sig)
      else SignedDeepLinkTag(Show(userId), sig)
    case None =>
      if named then LegacyMentionTag(username.value)
      else LegacyDeepLinkTag(Show(userId))
  }

  // ---------------------------------------------------------------- matching

  /** The character classes of the runs in the tag patterns: `\w+`, `\d+` and
      `[a-f0-9]{16}`. */
  datatype Class = WordChars | DigitChars | Hex16

  /** A tag pattern: literal text and runs of a class, in order. */
  datatype Pattern = End | Text(w: string, next: Pattern) | Run(c: Class, next: Pattern)

  predicate InClass(ch: char, c: Class) {
    match c
    case WordChars => IsWordChar(ch)
    case DigitChars => IsDigit(ch)
    case Hex16 => IsLowerHex(ch)
  }

  /** A string that one run of class `c` matches. */
  predicate IsRun(s: string, c: Class) {
    (if c == Hex16 then |s| == 16 else |s| > 0) && forall i :: 0 <= i < |s| ==> InClass(s[i], c)
  }

  /** The literal `w` at the start of `u`, and what follows it. */
  function LitPrefix(u: string, w: string): (r: Option<string>)
    ensures r.Some? ==> u == w + r.value
  {
    if StartsWith(u, w) then assert u == u[..|w|] + u[|w|..]; Some(u[|w|..]) else None
  }

  function RunLength(u: string, c: Class): (k: nat)
    ensures k <= |u|
    ensures forall i :: 0 <= i < k ==> InClass(u[i], c)
    ensures k < |u| ==> !InClass(u[k], c)
  {
    if u == [] || !InClass(u[0], c) then 0 else 1 + RunLength(u[1..], c)
  }

  /** A run of class `c` at the start of `u`, and what follows it. Word and digit runs
      are taken greedily: in every pattern such a run is followed by text that starts
      outside its class, so the longest run is the only one a match can use and no
      backtracking is needed. */
  function RunPrefix(u: string, c: Class): (r: Option<(string, string)>)
    ensures r.Some? ==> IsRun(r.value.0, c) && u == r.value.0 + r.value.1
  {
    var k := if c == Hex16 then (if |u| >= 16 && RunLength(u[..16], c) == 16 then 16 else 0) else RunLength(u, c);
    if k == 0 then None
    else
      assert c == Hex16 ==> forall i :: 0 <= i < 16 ==> InClass(u[..16][i], c);
      assert u == u[..k] + u[k..];
      Some((u[..k], u[k..]))
  }

  /** `runs` supplies, in order, one string of the right class for every run of `p`. */
  predicate Fits(p: Pattern, runs: seq<string>)
    decreases p
  {
    match p
    case End => runs == []
    case Text(_, next) => Fits(next, runs)
    case Run(c, next) => runs != [] && IsRun(runs[0], c) && Fits(next, runs[1..])
  }

  /** The pattern anchored at the start of `u`: the strings its runs matched, and the
      rest of `u`. */
  function MatchPattern(p: Pattern, u: string): (r: Option<(seq<string>, string)>)
    ensures r.Some? ==> Fits(p, r.value.0)
    ensures r.Some? && p.Text? ==> LitPrefix(u, p.w).Some?
  {
    match p
    case End => Some(([], u))
    case Text(w, next) =>
      var rest :- LitPrefix(u, w);
      MatchPattern(next, rest)
    case Run(c, next) =>
      var run :- RunPrefix(u, c);
      var m :- MatchPattern(next, run.1);
      assert ([run.0] + m.0)[1..] == m.0;
      Some(([run.0] + m.0, m.1))
  }

  /** The text a pattern matches, given the strings of its runs. */
  function Render(p: Pattern, runs: seq<string>): string
    decreases p
  {
    match p
    case End => ""
    case Text(w, next) => w + Render(next, runs)
    case Run(_, next) => if runs == [] then "" else runs[0] + Render(next, runs[1..])
  }

  /** Every run is followed by text that starts with a character outside its class. */
  predicate Separated(p: Pattern)
    decreases p
  {
    match p
    case End => true
    case Text(_, next) => Separated(next)
    case Run(c, next) => next.Text? && next.w != [] && !InClass(next.w[0], c) && Separated(next)
  }

  /** No literal text of the pattern contains a `[`. */
  predicate NoBracketText(p: Pattern)
    decreases p
  {
    match p
    case End => true
    case Text(w, next) => '[' !in w && NoBracketText(next)
    case Run(_, next) => NoBracketText(next)
  }

  datatype Format =
    | SignedMention   // [@name (id:sig)](https://t.me/name)
    | LegacyMention   // [@name](https://t.me/name)
    | SignedDeepLink  // [👤 USER:id:sig](tg://user?id=id)
    | LegacyDeepLink  // [👤 USER:id](tg://user?id=id)
    | SignedBracket   // [USER:id:sig]
    | LegacyBracket   // [USER:id] not followed by ':' or a word character

  predicate IsSigned(f: Format) { f.SignedMention? || f.SignedDeepLink? || f.SignedBracket? }

  /** The regular expression of each format after its opening `\[`. */
  function Body(f: Format): Pattern {
    match f
    case SignedMention =>
      Text("@", Run(WordChars, Text(" (", Run(DigitChars, Text(":", Run(Hex16,
        Text(")](https://t.me/", Run(WordChars, Text(")", End)))))))))
    case LegacyMention =>
      Text("@", Run(WordChars, Text("](https://t.me/", Run(WordChars, Text(")", End)))))
    case SignedDeepLink =>
      Text("👤 USER:", Run(DigitChars, Text(":", Run(Hex16,
        Text("](tg://user?id=", Run(DigitChars, Text(")", End)))))))
    case LegacyDeepLink =>
      Text("👤 USER:", Run(DigitChars, Text("](tg://user?id=", Run(DigitChars, Text(")", End)))))
    case SignedBracket =>
      Text("USER:", Run(DigitChars, Text(":", Run(Hex16, Text("]", End)))))
    case LegacyBracket =>
      Text("USER:", Run(DigitChars, Text("]", End)))
  }

  /** The regular expression of each format, as a pattern. */
  function PatternOf(f: Format): Pattern { Text("[", Body(f)) }

  /** What the runs of a match of each format are: its capture groups among them. */
  lemma MatchedRuns(f: Format, runs: seq<string>)
    requires Fits(PatternOf(f), runs)
    ensures f.SignedMention? ==> |runs| == 4 && IsDigits(runs[1]) && IsSignature(runs[2])
    ensures f.LegacyMention? ==> |runs| == 2
    ensures f.SignedDeepLink? || f.SignedBracket? ==> |runs| >= 2 && IsDigits(runs[0]) && IsSignature(runs[1])
    ensures f.LegacyDeepLink? || f.LegacyBracket? ==> |runs| >= 1 && IsDigits(runs[0])
  {
  }

  /** `match[1]` and `match[2]` ("" where a pattern has no second group). */
  datatype Groups = Groups(first: string, second: string)

  /** Whether the regular expression of `f` matches at the start of `u`, with its
      groups; the oldest format also looks past its `]` (`(?![:\w])`). */
  function MatchAt(f: Format, u: string): (r: Option<Groups>)
    ensures r.Some? ==> |u| > 0 && u[0] == '['
    ensures r.Some? && !f.LegacyMention? ==> IsDigits(r.value.first)
    ensures r.Some? && IsSigned(f) ==> IsSignature(r.value.second)
  {
    if u == [] || u[0] != '[' then None
    else
      var m :- MatchPattern(PatternOf(f), u);
      var runs := m.0;
      MatchedRuns(f, runs);
      match f
      case SignedMention => Some(Groups(runs[1], runs[2]))
      case LegacyMention => Some(Groups(runs[0], ""))
      case SignedDeepLink => Some(Groups(runs[0], runs[1]))
      case LegacyDeepLink => Some(Groups(runs[0], ""))
      case SignedBracket => Some(Groups(runs[0], runs[1]))
      case LegacyBracket =>
        var rest := m.1;
        if rest == [] || (rest[0] != ':' && !IsWordChar(rest[0])) then Some(Groups(runs[0], "")) else None
  }

  /** `text.match(pattern)`: the match that starts leftmost, trying every start
      position from the first to just past the last character. */
  function Find(f: Format, t: string): (r: Option<Groups>)
    ensures r.Some? ==> '[' in t
    ensures r.Some? && !f.LegacyMention? ==> IsDigits(r.value.first)
    ensures r.Some? && IsSigned(f) ==> IsSignature(r.value.second)
    decreases |t|
  {
    var m := MatchAt(f, t);
    if m.Some? then m
    else if t == [] then None
    else
      var r := Find(f, t[1..]);
      assert r.Some? ==> t[0] == '[' || '[' in t[1..];
      r
  }

  // ---------------------------------------------------------------- extraction

  /** The verdict on a signed match: its id when the signature is the one recomputed,
      null (a logged mismatch) otherwise. */
  function Verified(crypto: Crypto, g: Groups, secret: Option<string>): Option<string> {
    if VerifyUserIdSignature(crypto, g.first, g.second, secret) then Some(g.first) else None
  }

  /** What each format yields once found: signed ones their verified id, the legacy
      mention nothing (a username does not give back an id), the other legacy formats
      their id, unverified. */
  function Resolve(crypto: Crypto, f: Format, g: Groups, secret: Option<string>): Option<string> {
    match f
    case LegacyMention => None
    case LegacyDeepLink => Some(g.first)
    case LegacyBracket => Some(g.first)
    case _ => Verified(crypto, g, secret)
  }

  /** The order in which extraction tries the patterns. */
  const PriorityOrder: seq<Format> :=
    [SignedMention, LegacyMention, SignedDeepLink, LegacyDeepLink, SignedBracket, LegacyBracket]

  /** The formats tried in turn, `find` giving what each one finds in the text: the
      first one found decides. */
  function Decide(crypto: Crypto, formats: seq<Format>, find: Format -> Option<Groups>, secret: Option<string>): Option<string>
    decreases |formats|
  {
    if formats == [] then None
    else
      match find(formats[0])
      case Some(g) => Resolve(crypto, formats[0], g, secret)
      case None => Decide(crypto, formats[1..], find, secret)
  }

  /** What a search finds, for every format but the legacy mention, has a digit string
      for its first group. */
  ghost predicate FindsDigits(find: Format -> Option<Groups>) {
    forall f: Format :: find(f).Some? && !f.LegacyMention? ==> IsDigits(find(f).value.first)
  }

  lemma {:induction false} DecideDigits(crypto: Crypto, formats: seq<Format>, find: Format -> Option<Groups>, secret: Option<string>)
    requires FindsDigits(find)
    ensures Decide(crypto, formats, find, secret).Some? ==> IsDigits(Decide(crypto, formats, find, secret).value)
    decreases |formats|
  {
    if formats != [] && find(formats[0]).None? {
      DecideDigits(crypto, formats[1..], find, secret);
    }
  }

  /** The search of every format in the text `t`. */
  function Finder(t: string): Format -> Option<Groups> {
    f => Find(f, t)
  }

  /** The formats tried in turn against the text: the first one found anywhere in it
      decides. */
  function FirstDecision(crypto: Crypto, formats: seq<Format>, t: string, secret: Option<string>): (r: Option<string>)
    ensures r.Some? ==> IsDigits(r.value)
  {
    DecideDigits(crypto, formats, Finder(t), secret);
    Decide(crypto, formats, Finder(t), secret)
  }

  /** `extractUserChatId(messageText, secret)`: null for anything but a non-empty
      string; otherwise the six patterns in order, each consulted only when the ones
      before it are not found. */
  function ExtractUserChatId(crypto: Crypto, messageText: JsValue, secret: Option<string>): (r: Option<string>)
    ensures r.Some? ==> IsDigits(r.value)
  {
    if !Truthy(messageText) || !messageText.Str? then None
    else FirstDecision(crypto, PriorityOrder, messageText.s, secret)
  }

  /** The position of each format in the order. */
  function Rank(f: Format): nat {
    match f
    case SignedMention => 0
    case LegacyMention => 1
    case SignedDeepLink => 2
    case LegacyDeepLink => 3
    case SignedBracket => 4
    case LegacyBracket => 5
  }

  lemma RankInOrder(j: nat)
    requires j < |PriorityOrder|
    ensures Rank(PriorityOrder[j]) == j
  {
  }

  lemma RankPosition(f: Format)
    ensures Rank(f) < |PriorityOrder| && PriorityOrder[Rank(f)] == f
  {
  }

  /** Dropping the first format leaves the others unfound. */
  lemma NoneFoundTail(formats: seq<Format>, find: Format -> Option<Groups>, i: nat)
    requires 0 < i <= |formats|
    requires forall j :: 0 <= j < i ==> find(formats[j]).None?
    ensures forall j :: 0 <= j < i - 1 ==> find(formats[1..][j]).None?
  {
    forall j | 0 <= j < i - 1
      ensures find(formats[1..][j]).None?
    {
      assert formats[1..][j] == formats[j + 1];
    }
  }

  /** The first format found decides, whatever the ones after it find. */
  lemma {:induction false} DecideAt(crypto: Crypto, formats: seq<Format>, find: Format -> Option<Groups>, secret: Option<string>, i: nat)
    requires i < |formats| && find(formats[i]).Some?
    requires forall j :: 0 <= j < i ==> find(formats[j]).None?
    ensures Decide(crypto, formats, find, secret) == Resolve(crypto, formats[i], find(formats[i]).value, secret)
    decreases i
  {
    if i > 0 {
      assert find(formats[0]).None?;
      NoneFoundTail(formats, find, i);
      assert formats[1..][i - 1] == formats[i];
      DecideAt(crypto, formats[1..], find, secret, i - 1);
    }
  }

  /** When no format is found, there is no decision. */
  lemma {:induction false} DecideNone(crypto: Crypto, formats: seq<Format>, find: Format -> Option<Groups>, secret: Option<string>)
    requires forall j :: 0 <= j < |formats| ==> find(formats[j]).None?
    ensures Decide(crypto, formats, find, secret) == None
    decreases |formats|
  {
    if formats != [] {
      assert find(formats[0]).None?;
      NoneFoundTail(formats, find, |formats|);
      DecideNone(crypto, formats[1..], find, secret);
    }
  }

  /** The format found that comes first in the order decides, wherever in the text the
      formats stand. */
  lemma ExtractDecidedBy(crypto: Crypto, t: string, secret: Option<string>, f: Format)
    requires Find(f, t).Some?
    requires forall g: Format :: Rank(g) < Rank(f) ==> Find(g, t).None?
    ensures ExtractUserChatId(crypto, Str(t), secret) == Resolve(crypto, f, Find(f, t).value, secret)
  {
    RankPosition(f);
    forall j | 0 <= j < Rank(f)
      ensures Find(PriorityOrder[j], t).None?
    {
      RankInOrder(j);
    }
    DecideAt(crypto, PriorityOrder, Finder(t), secret, Rank(f));
  }

  /** A text in which no format is found, and a value that is not a string, give null. */
  lemma ExtractNothingFound(crypto: Crypto, messageText: JsValue, secret: Option<string>)
    requires messageText.Str? ==> forall g: Format :: Find(g, messageText.s).None?
    ensures ExtractUserChatId(crypto, messageText, secret) == None
  {
    if messageText.Str? {
      var t := messageText.s;
      forall j | 0 <= j < |PriorityOrder|
        ensures Finder(t)(PriorityOrder[j]).None?
      {
      }
      DecideNone(crypto, PriorityOrder, Finder(t), secret);
    }
  }

  // ---------------------------------------------------------------- text around a tag

  /** Text before the first `[` cannot start a match, so the search passes over it. */
  lemma {:induction false} FindSkipsPlainText(f: Format, pre: string, u: string)
    requires '[' !in pre
    ensures Find(f, pre + u) == Find(f, u)
  {
    if pre == [] {
      assert pre + u == u;
    } else {
      assert (pre + u)[0] == pre[0];
      assert (pre + u)[1..] == pre[1..] + u;
      FindSkipsPlainText(f, pre[1..], u);
    }
  }

  lemma FindInPlainText(f: Format, t: string)
    requires '[' !in t
    ensures Find(f, t) == None
  {
  }

  /** Around a tag whose only `[` is its first character, every format is found exactly
      when it matches at the tag. */
  lemma FindAtTag(g: Format, pre: string, tag: string, post: string)
    requires '[' !in pre && '[' !in post
    requires |tag| > 0 && '[' !in tag[1..]
    ensures Find(g, pre + tag + post) == MatchAt(g, tag + post)
  {
    var u := tag + post;
    assert pre + tag + post == pre + u;
    FindSkipsPlainText(g, pre, u);
    assert u[1..] == tag[1..] + post;
    FindInPlainText(g, u[1..]);
  }

  /** The search passes over a tag that does not match. */
  lemma FindPastTag(g: Format, pre: string, x: string, rest: string)
    requires '[' !in pre && |x| > 0 && '[' !in x[1..]
    requires MatchAt(g, x + rest) == None
    ensures Find(g, pre + x + rest) == Find(g, rest)
  {
    assert pre + x + rest == pre + (x + rest);
    FindSkipsPlainText(g, pre, x + rest);
    assert (x + rest)[1..] == x[1..] + rest;
    FindSkipsPlainText(g, x[1..], rest);
  }

  // ---------------------------------------------------------------- pieces of a match

  lemma LitPrefixOf(w: string, rest: string)
    ensures LitPrefix(w + rest, w) == Some(rest)
  {
    assert (w + rest)[..|w|] == w;
    assert (w + rest)[|w|..] == rest;
  }

  lemma {:induction false} RunLengthOf(run: string, rest: string, c: Class)
    requires forall i :: 0 <= i < |run| ==> InClass(run[i], c)
    requires rest == [] || !InClass(rest[0], c)
    ensures RunLength(run + rest, c) == |run|
  {
    if run == [] {
      assert run + rest == rest;
    } else {
      assert (run + rest)[0] == run[0];
      assert (run + rest)[1..] == run[1..] + rest;
      RunLengthOf(run[1..], rest, c);
    }
  }

  /** A run followed by a character outside its class is matched whole. */
  lemma RunPrefixOf(run: string, rest: string, c: Class)
    requires IsRun(run, c)
    requires c != Hex16 ==> rest == [] || !InClass(rest[0], c)
    ensures RunPrefix(run + rest, c) == Some((run, rest))
  {
    var u := run + rest;
    assert u[..|run|] == run && u[|run|..] == rest;
    if c == Hex16 {
      RunLengthOf(run, "", c);
      assert run + "" == run;
    } else {
      RunLengthOf(run, rest, c);
    }
  }

  /** Matching a pattern against its own rendering gives back the strings of its runs
      and the text after it. */
  lemma {:induction false} MatchRender(p: Pattern, runs: seq<string>, post: string)
    requires Separated(p) && Fits(p, runs)
    ensures MatchPattern(p, Render(p, runs) + post) == Some((runs, post))
  {
    match p
    case End =>
      assert Render(p, runs) + post == post;
    case Text(w, next) =>
      assert Render(p, runs) + post == w + (Render(next, runs) + post);
      LitPrefixOf(w, Render(next, runs) + post);
      MatchRender(next, runs, post);
    case Run(c, next) =>
      var tail := Render(next, runs[1..]) + post;
      assert Render(p, runs) + post == runs[0] + tail;
      assert tail == next.w + (Render(next.next, runs[1..]) + post);
      RunPrefixOf(runs[0], tail, c);
      MatchRender(next, runs[1..], post);
      assert [runs[0]] + runs[1..] == runs;
  }

  /** A `[` of a rendering can only come from the pattern's literal text. */
  lemma {:induction false} RenderNoBracket(p: Pattern, runs: seq<string>)
    requires NoBracketText(p) && Fits(p, runs)
    ensures '[' !in Render(p, runs)
  {
    match p
    case End =>
    case Text(w, next) =>
      RenderNoBracket(next, runs);
    case Run(c, next) =>
      assert forall i :: 0 <= i < |runs[0]| ==> runs[0][i] != '[' by {
        forall i | 0 <= i < |runs[0]|
          ensures runs[0][i] != '['
        {
          assert InClass(runs[0][i], c);
        }
      }
      RenderNoBracket(next, runs[1..]);
  }

  lemma SeparatedPattern(f: Format)
    ensures Separated(PatternOf(f))
  {
  }

  /** None of the literal pieces of the patterns holds a `[`. */
  lemma NoBracketLiterals()
    ensures '[' !in "@" && '[' !in " (" && '[' !in ":" && '[' !in ")](https://t.me/" && '[' !in ")"
    ensures '[' !in "](https://t.me/" && '[' !in "👤 USER:" && '[' !in "](tg://user?id=" && '[' !in "USER:" && '[' !in "]"
  {
  }

  lemma NoBracketBody(f: Format)
    ensures NoBracketText(Body(f))
  {
    NoBracketLiterals();
  }

  /** A tag rendered from a format's pattern matches that format at its start, with the
      runs it was made from, and has no `[` after its first character. */
  lemma MatchTag(f: Format, runs: seq<string>, post: string)
    requires Fits(PatternOf(f), runs)
    ensures MatchPattern(PatternOf(f), Render(PatternOf(f), runs) + post) == Some((runs, post))
    ensures var tag := Render(PatternOf(f), runs); |tag| > 0 && tag[0] == '[' && '[' !in tag[1..]
  {
    SeparatedPattern(f);
    MatchRender(PatternOf(f), runs, post);
    var tag := Render(PatternOf(f), runs);
    assert tag == "[" + Render(Body(f), runs);
    assert tag[1..] == Render(Body(f), runs);
    NoBracketBody(f);
    RenderNoBracket(Body(f), runs);
  }

  /** A format whose pattern goes on differently right after the `[` does not match. */
  lemma MissAtSecond(f: Format, u: string)
    requires |u| > 1 && u[1] != Body(f).w[0]
    ensures MatchAt(f, u) == None
  {
    if LitPrefix(u, "[").Some? {
      var v := LitPrefix(u, "[").value;
      assert v == u[1..];
      assert LitPrefix(v, Body(f).w) == None;
      assert MatchPattern(Body(f), v) == None;
    }
  }

  /** A format that agrees with the text up to its first run but goes on differently
      after it does not match. */
  lemma MissAfterFirstRun(f: Format, run: string, rest: string)
    requires IsRun(run, Body(f).next.c)
    requires rest != [] && !InClass(rest[0], Body(f).next.c) && rest[0] != Body(f).next.next.w[0]
    ensures MatchAt(f, "[" + Body(f).w + run + rest) == None
  {
    var b := Body(f);
    var u := "[" + b.w + run + rest;
    assert u == "[" + (b.w + (run + rest));
    LitPrefixOf("[", b.w + (run + rest));
    LitPrefixOf(b.w, run + rest);
    RunPrefixOf(run, rest, b.next.c);
    assert LitPrefix(rest, b.next.next.w) == None;
    assert MatchPattern(b.next.next, rest) == None;
    assert MatchPattern(b.next, run + rest) == None;
    assert MatchPattern(b, b.w + (run + rest)) == None;
    assert MatchPattern(PatternOf(f), u) == None;
  }

  // ---------------------------------------------------------------- the tags as patterns

  /** Regrouping the pieces of a template literal as a rendering nests them. */
  lemma Nest4(a: string, b: string, c: string, d: string)
    ensures a + b + c + d == a + (b + (c + d))
  {
  }

  lemma Nest6(a: string, b: string, c: string, d: string, e: string, f: string)
    ensures a + b + c + d + e + f == a + (b + (c + (d + (e + f))))
  {
    Nest4(c, d, e, f);
  }

  lemma Nest8(a: string, b: string, c: string, d: string, e: string, f: string, g: string, h: string)
    ensures a + b + c + d + e + f + g + h == a + (b + (c + (d + (e + (f + (g + h))))))
  {
    Nest6(c, d, e, f, g, h);
  }

  lemma Nest10(a: string, b: string, c: string, d: string, e: string, f: string, g: string, h: string, i: string, j: string)
    ensures a + b + c + d + e + f + g + h + i + j == a + (b + (c + (d + (e + (f + (g + (h + (i + j))))))))
  {
    Nest8(c, d, e, f, g, h, i, j);
  }

  lemma SignedMentionShape(name: string, id: string, sig: string)
    ensures SignedMentionTag(name, id, sig) == Render(PatternOf(SignedMention), [name, id, sig, name])
  {
    var p := Body(SignedMention).next;
    var q := p.next.next;
    var r := q.next.next;
    assert Render(r.next.next, [name]) == name + ")" by {
      assert [name][1..] == [];
    }
    assert Render(r, [sig, name]) == sig + (")](https://t.me/" + (name + ")")) by {
      assert [sig, name][1..] == [name];
    }
    assert Render(q, [id, sig, name]) == id + (":" + (sig + (")](https://t.me/" + (name + ")")))) by {
      assert [id, sig, name][1..] == [sig, name];
    }
    assert Render(p, [name, id, sig, name])
      == name + (" (" + (id + (":" + (sig + (")](https://t.me/" + (name + ")")))))) by {
      assert [name, id, sig, name][1..] == [id, sig, name];
    }
    assert "[@" == "[" + "@";
    Nest10("[", "@", name, " (", id, ":", sig, ")](https://t.me/", name, ")");
  }

  lemma SignedMentionFits(name: string, id: string, sig: string)
    requires |name| > 0 && AllWordChars(name) && IsDigits(id) && IsSignature(sig)
    ensures Fits(PatternOf(SignedMention), [name, id, sig, name])
  {
    assert [name, id, sig, name][1..] == [id, sig, name];
    assert [id, sig, name][1..] == [sig, name];
    assert [sig, name][1..] == [name];
  }

  lemma LegacyMentionShape(name: string)
    ensures LegacyMentionTag(name) == Render(PatternOf(LegacyMention), [name, name])
  {
    var p := Body(LegacyMention).next;
    assert Render(p.next.next, [name]) == name + ")" by {
      assert [name][1..] == [];
    }
    assert Render(p, [name, name]) == name + ("](https://t.me/" + (name + ")")) by {
      assert [name, name][1..] == [name];
    }
    assert "[@" == "[" + "@";
    Nest6("[", "@", name, "](https://t.me/", name, ")");
  }

  lemma LegacyMentionFits(name: string)
    requires |name| > 0 && AllWordChars(name)
    ensures Fits(PatternOf(LegacyMention), [name, name])
  {
    assert [name, name][1..] == [name];
  }

  lemma SignedDeepLinkShape(id: string, sig: string)
    ensures SignedDeepLinkTag(id, sig) == Render(PatternOf(SignedDeepLink), [id, sig, id])
  {
    var p := Body(SignedDeepLink).next;
    var q := p.next.next;
    assert Render(q.next.next, [id]) == id + ")" by {
      assert [id][1..] == [];
    }
    assert Render(q, [sig, id]) == sig + ("](tg://user?id=" + (id + ")")) by {
      assert [sig, id][1..] == [id];
    }
    assert Render(p, [id, sig, id]) == id + (":" + (sig + ("](tg://user?id=" + (id + ")")))) by {
      assert [id, sig, id][1..] == [sig, id];
    }
    assert "[👤 USER:" == "[" + "👤 USER:";
    Nest8("[", "👤 USER:", id, ":", sig, "](tg://user?id=", id, ")");
  }

  lemma SignedDeepLinkFits(id: string, sig: string)
    requires IsDigits(id) && IsSignature(sig)
    ensures Fits(PatternOf(SignedDeepLink), [id, sig, id])
  {
    assert [id, sig, id][1..] == [sig, id];
    assert [sig, id][1..] == [id];
  }

  lemma LegacyDeepLinkShape(id: string)
    ensures LegacyDeepLinkTag(id) == Render(PatternOf(LegacyDeepLink), [id, id])
  {
    var p := Body(LegacyDeepLink).next;
    assert Render(p.next.next, [id]) == id + ")" by {
      assert [id][1..] == [];
    }
    assert Render(p, [id, id]) == id + ("](tg://user?id=" + (id + ")")) by {
      assert [id, id][1..] == [id];
    }
    assert "[👤 USER:" == "[" + "👤 USER:";
    Nest6("[", "👤 USER:", id, "](tg://user?id=", id, ")");
  }

  lemma LegacyDeepLinkFits(id: string)
    requires IsDigits(id)
    ensures Fits(PatternOf(LegacyDeepLink), [id, id])
  {
    assert [id, id][1..] == [id];
  }

  lemma SignedBracketShape(id: string, sig: string)
    ensures SignedBracketTag(id, sig) == Render(PatternOf(SignedBracket), [id, sig])
  {
    var p := Body(SignedBracket).next;
    assert Render(p.next.next, [sig]) == sig + "]" by {
      assert [sig][1..] == [];
    }
    assert Render(p, [id, sig]) == id + (":" + (sig + "]")) by {
      assert [id, sig][1..] == [sig];
    }
    assert "[USER:" == "[" + "USER:";
    Nest6("[", "USER:", id, ":", sig, "]");
  }

  lemma SignedBracketFits(id: string, sig: string)
    requires IsDigits(id) && IsSignature(sig)
    ensures Fits(PatternOf(SignedBracket), [id, sig])
  {
    assert [id, sig][1..] == [sig];
  }

  lemma LegacyBracketShape(id: string)
    ensures LegacyBracketTag(id) == Render(PatternOf(LegacyBracket), [id])
  {
    var p := Body(LegacyBracket).next;
    assert Render(p, [id]) == id + "]" by {
      assert [id][1..] == [];
    }
    assert "[USER:" == "[" + "USER:";
    Nest4("[", "USER:", id, "]");
  }

  lemma LegacyBracketFits(id: string)
    requires IsDigits(id)
    ensures Fits(PatternOf(LegacyBracket), [id])
  {
  }

  // ---------------------------------------------------------------- each tag, extracted

  /** Around a tag whose only `[` is its first character, the format that matches at
      the tag and comes first in the order decides. */
  lemma DecideAtTag(crypto: Crypto, f: Format, pre: string, tag: string, post: string, secret: Option<string>)
    requires '[' !in pre && '[' !in post
    requires |tag| > 0 && '[' !in tag[1..]
    requires MatchAt(f, tag + post).Some?
    requires forall g: Format :: Rank(g) < Rank(f) ==> MatchAt(g, tag + post).None?
    ensures ExtractUserChatId(crypto, Str(pre + tag + post), secret)
         == Resolve(crypto, f, MatchAt(f, tag + post).value, secret)
  {
    forall g: Format
      ensures Find(g, pre + tag + post) == MatchAt(g, tag + post)
    {
      FindAtTag(g, pre, tag, post);
    }
    ExtractDecidedBy(crypto, pre + tag + post, secret, f);
  }

  /** The only `[` of a rendered tag is its first character. */
  predicate OneBracket(tag: string) { |tag| > 0 && tag[0] == '[' && '[' !in tag[1..] }

  lemma SignedMentionAt(name: string, id: string, sig: string, post: string)
    requires |name| > 0 && AllWordChars(name) && IsDigits(id) && IsSignature(sig)
    ensures OneBracket(SignedMentionTag(name, id, sig))
    ensures MatchAt(SignedMention, SignedMentionTag(name, id, sig) + post) == Some(Groups(id, sig))
  {
    SignedMentionShape(name, id, sig);
    SignedMentionFits(name, id, sig);
    MatchTag(SignedMention, [name, id, sig, name], post);
  }

  lemma LegacyMentionAt(name: string, post: string)
    requires |name| > 0 && AllWordChars(name)
    ensures OneBracket(LegacyMentionTag(name))
    ensures MatchAt(LegacyMention, LegacyMentionTag(name) + post) == Some(Groups(name, ""))
    ensures MatchAt(SignedMention, LegacyMentionTag(name) + post) == None
  {
    LegacyMentionShape(name);
    LegacyMentionFits(name);
    MatchTag(LegacyMention, [name, name], post);
    LegacyMentionUnsigned(name, post);
  }

  /** The unsigned mention link is not the signed one: `]` follows its name, not ` (`. */
  lemma LegacyMentionUnsigned(name: string, post: string)
    requires |name| > 0 && AllWordChars(name)
    ensures MatchAt(SignedMention, LegacyMentionTag(name) + post) == None
  {
    var rest := "](https://t.me/" + name + ")" + post;
    assert LegacyMentionTag(name) + post == "[" + "@" + name + rest by {
      var a, c := "[@", "](https://t.me/";
      Nest6(a, name, c, name, ")", post);
      Nest4(c, name, ")", post);
      assert a == "[" + "@";
      AppendAssoc("[" + "@", name, rest);
    }
    MissAfterFirstRun(SignedMention, name, rest);
  }

  lemma SignedDeepLinkAt(id: string, sig: string, post: string)
    requires IsDigits(id) && IsSignature(sig)
    ensures OneBracket(SignedDeepLinkTag(id, sig))
    ensures MatchAt(SignedDeepLink, SignedDeepLinkTag(id, sig) + post) == Some(Groups(id, sig))
    ensures forall g: Format :: Rank(g) < Rank(SignedDeepLink) ==> MatchAt(g, SignedDeepLinkTag(id, sig) + post).None?
  {
    var u := SignedDeepLinkTag(id, sig) + post;
    SignedDeepLinkShape(id, sig);
    SignedDeepLinkFits(id, sig);
    MatchTag(SignedDeepLink, [id, sig, id], post);
    assert u[1] == '👤';
    MissAtSecond(SignedMention, u);
    MissAtSecond(LegacyMention, u);
  }

  lemma LegacyDeepLinkAt(id: string, post: string)
    requires IsDigits(id)
    ensures OneBracket(LegacyDeepLinkTag(id))
    ensures MatchAt(LegacyDeepLink, LegacyDeepLinkTag(id) + post) == Some(Groups(id, ""))
    ensures forall g: Format :: Rank(g) < Rank(LegacyDeepLink) ==> MatchAt(g, LegacyDeepLinkTag(id) + post).None?
  {
    var u := LegacyDeepLinkTag(id) + post;
    LegacyDeepLinkShape(id);
    LegacyDeepLinkFits(id);
    MatchTag(LegacyDeepLink, [id, id], post);
    assert u[1] == '👤';
    MissAtSecond(SignedMention, u);
    MissAtSecond(LegacyMention, u);
    LegacyDeepLinkUnsigned(id, post);
  }

  /** The unsigned deep link is not the signed one: `]` follows its id, not `:`. */
  lemma LegacyDeepLinkUnsigned(id: string, post: string)
    requires IsDigits(id)
    ensures MatchAt(SignedDeepLink, LegacyDeepLinkTag(id) + post) == None
  {
    var rest := "](tg://user?id=" + id + ")" + post;
    assert LegacyDeepLinkTag(id) + post == "[" + "👤 USER:" + id + rest by {
      var a, c := "[👤 USER:", "](tg://user?id=";
      Nest6(a, id, c, id, ")", post);
      Nest4(c, id, ")", post);
      assert a == "[" + "👤 USER:";
      AppendAssoc("[" + "👤 USER:", id, rest);
    }
    MissAfterFirstRun(SignedDeepLink, id, rest);
  }

  lemma SignedBracketAt(id: string, sig: string, post: string)
    requires IsDigits(id) && IsSignature(sig)
    ensures OneBracket(SignedBracketTag(id, sig))
    ensures MatchAt(SignedBracket, SignedBracketTag(id, sig) + post) == Some(Groups(id, sig))
    ensures forall g: Format :: Rank(g) < Rank(SignedBracket) ==> MatchAt(g, SignedBracketTag(id, sig) + post).None?
  {
    var u := SignedBracketTag(id, sig) + post;
    SignedBracketShape(id, sig);
    SignedBracketFits(id, sig);
    MatchTag(SignedBracket, [id, sig], post);
    assert u[1] == 'U';
    MissAtSecond(SignedMention, u);
    MissAtSecond(LegacyMention, u);
    MissAtSecond(SignedDeepLink, u);
    MissAtSecond(LegacyDeepLink, u);
  }

  /** The bracket tags match nothing newer than themselves. */
  lemma BracketMissesNewer(id: string, post: string)
    requires IsDigits(id)
    ensures var u := LegacyBracketTag(id) + post;
      MatchAt(SignedMention, u).None? && MatchAt(LegacyMention, u).None?
      && MatchAt(SignedDeepLink, u).None? && MatchAt(LegacyDeepLink, u).None?
  {
    var u := LegacyBracketTag(id) + post;
    LegacyBracketShape(id);
    assert u[1] == 'U';
    MissAtSecond(SignedMention, u);
    MissAtSecond(LegacyMention, u);
    MissAtSecond(SignedDeepLink, u);
    MissAtSecond(LegacyDeepLink, u);
  }

  /** The oldest form is not the bracket form with a signature. */
  lemma LegacyBracketUnsigned(id: string, post: string)
    requires IsDigits(id)
    ensures MatchAt(SignedBracket, LegacyBracketTag(id) + post) == None
  {
    var rest := "]" + post;
    assert LegacyBracketTag(id) + post == "[" + "USER:" + id + rest by {
      assert "[USER:" == "[" + "USER:";
      Nest4("[", "USER:", id, "]");
    }
    MissAfterFirstRun(SignedBracket, id, rest);
  }

  lemma LegacyBracketAt(id: string, post: string)
    requires IsDigits(id)
    requires post == [] || (post[0] != ':' && !IsWordChar(post[0]))
    ensures OneBracket(LegacyBracketTag(id))
    ensures MatchAt(LegacyBracket, LegacyBracketTag(id) + post) == Some(Groups(id, ""))
    ensures forall g: Format :: Rank(g) < Rank(LegacyBracket) ==> MatchAt(g, LegacyBracketTag(id) + post).None?
  {
    LegacyBracketShape(id);
    LegacyBracketFits(id);
    MatchTag(LegacyBracket, [id], post);
    BracketMissesNewer(id, post);
    LegacyBracketUnsigned(id, post);
  }

  /** A signed deep link decides by its signature alone: its id when the signature is
      the one recomputed for that id, null for any other signature (one changed hex
      digit included). */
  lemma ExtractSignedDeepLink(crypto: Crypto, pre: string, id: string, sig: string, post: string, secret: Option<string>)
    requires IsDigits(id) && IsSignature(sig)
    requires '[' !in pre && '[' !in post
    ensures ExtractUserChatId(crypto, Str(pre + SignedDeepLinkTag(id, sig) + post), secret)
         == if VerifyUserIdSignature(crypto, id, sig, secret) then Some(id) else None
  {
    SignedDeepLinkAt(id, sig, post);
    DecideAtTag(crypto, SignedDeepLink, pre, SignedDeepLinkTag(id, sig), post, secret);
  }

  /** A legacy deep link gives its id, unverified. */
  lemma ExtractLegacyDeepLink(crypto: Crypto, pre: string, id: string, post: string, secret: Option<string>)
    requires IsDigits(id)
    requires '[' !in pre && '[' !in post
    ensures ExtractUserChatId(crypto, Str(pre + LegacyDeepLinkTag(id) + post), secret) == Some(id)
  {
    LegacyDeepLinkAt(id, post);
    DecideAtTag(crypto, LegacyDeepLink, pre, LegacyDeepLinkTag(id), post, secret);
  }

  /** A signed mention link decides by its signature alone, whatever follows it. */
  lemma ExtractSignedMention(crypto: Crypto, pre: string, name: string, id: string, sig: string, post: string, secret: Option<string>)
    requires |name| > 0 && AllWordChars(name) && IsDigits(id) && IsSignature(sig)
    requires '[' !in pre
    ensures ExtractUserChatId(crypto, Str(pre + SignedMentionTag(name, id, sig) + post), secret)
         == if VerifyUserIdSignature(crypto, id, sig, secret) then Some(id) else None
  {
    var u := SignedMentionTag(name, id, sig) + post;
    SignedMentionAt(name, id, sig, post);
    assert pre + SignedMentionTag(name, id, sig) + post == pre + u;
    FindSkipsPlainText(SignedMention, pre, u);
    ExtractDecidedBy(crypto, pre + u, secret, SignedMention);
  }

  /** A legacy mention link gives null: a username does not lead back to an id. */
  lemma ExtractLegacyMention(crypto: Crypto, pre: string, name: string, post: string, secret: Option<string>)
    requires |name| > 0 && AllWordChars(name)
    requires '[' !in pre && '[' !in post
    ensures ExtractUserChatId(crypto, Str(pre + LegacyMentionTag(name) + post), secret) == None
  {
    LegacyMentionAt(name, post);
    DecideAtTag(crypto, LegacyMention, pre, LegacyMentionTag(name), post, secret);
  }

  /** The older bracket form with a signature decides by its signature alone. */
  lemma ExtractSignedBracket(crypto: Crypto, pre: string, id: string, sig: string, post: string, secret: Option<string>)
    requires IsDigits(id) && IsSignature(sig)
    requires '[' !in pre && '[' !in post
    ensures ExtractUserChatId(crypto, Str(pre + SignedBracketTag(id, sig) + post), secret)
         == if VerifyUserIdSignature(crypto, id, sig, secret) then Some(id) else None
  {
    SignedBracketAt(id, sig, post);
    DecideAtTag(crypto, SignedBracket, pre, SignedBracketTag(id, sig), post, secret);
  }

  /** The oldest form gives its id, unverified, when what follows it is neither `:`
      nor a word character. */
  lemma ExtractLegacyBracket(crypto: Crypto, pre: string, id: string, post: string, secret: Option<string>)
    requires IsDigits(id)
    requires '[' !in pre && '[' !in post
    requires post == [] || (post[0] != ':' && !IsWordChar(post[0]))
    ensures ExtractUserChatId(crypto, Str(pre + LegacyBracketTag(id) + post), secret) == Some(id)
  {
    LegacyBracketAt(id, post);
    DecideAtTag(crypto, LegacyBracket, pre, LegacyBracketTag(id), post, secret);
  }

  /** A bracket tag followed by a word character or `:` is not the oldest form. */
  lemma LegacyBracketLookahead(id: string, post: string)
    requires IsDigits(id)
    requires post != [] && (post[0] == ':' || IsWordChar(post[0]))
    ensures MatchAt(LegacyBracket, LegacyBracketTag(id) + post) == None
  {
    LegacyBracketShape(id);
    LegacyBracketFits(id);
    MatchTag(LegacyBracket, [id], post);
  }

  // ---------------------------------------------------------------- the round trip

  /** The tag the worker writes into a forwarded message routes the admin's reply back:
      for a valid id, and a username that is absent or made of word characters, the
      text of the forward (anything without a `[` before the tag and after it) gives
      back the id exactly as it was rendered. */
  lemma TagRoundTrip(crypto: Crypto, userId: JsValue, secret: Option<string>, username: Option<string>, pre: string, post: string)
    requires FullDigests(crypto) && IsValidUserId(userId)
    requires username.None? || username.value == "" || AllWordChars(username.value)
    requires '[' !in pre && '[' !in post
    ensures ExtractUserChatId(crypto, Str(pre + CreateSecureUserTag(crypto, userId, secret, username) + post), secret)
         == Some(Show(userId))
  {
    var id := Show(userId);
    var sig := GenerateSignature(crypto, userId, secret).value;
    UserIdIsChatId(userId);
    SignatureShape(crypto, userId, secret);
    SignatureOfRendering(crypto, userId, secret);
    assert VerifyUserIdSignature(crypto, id, sig, secret);
    if username.Some? && username.value != "" {
      ExtractSignedMention(crypto, pre, username.value, id, sig, post, secret);
    } else {
      ExtractSignedDeepLink(crypto, pre, id, sig, post, secret);
    }
  }

  /** For the chat of a user (a positive number) the id comes back as its decimal digits. */
  lemma ChatIdRoundTrip(crypto: Crypto, chatId: nat, secret: Option<string>, username: Option<string>, pre: string)
    requires FullDigests(crypto) && chatId > 0
    requires username.None? || username.value == "" || AllWordChars(username.value)
    requires '[' !in pre
    ensures ExtractUserChatId(crypto, Str(pre + CreateSecureUserTag(crypto, Num(chatId), secret, username)), secret)
         == Some(Decimal(chatId))
  {
    var tag := CreateSecureUserTag(crypto, Num(chatId), secret, username);
    UserIdCheckAccepts(Num(chatId));
    TagRoundTrip(crypto, Num(chatId), secret, username, pre, "");
    assert pre + tag + "" == pre + tag;
  }

  /** The signature embedded in a tag is the same sixteen lowercase hex digits for the
      same id and secret, and it is the one verification recomputes. */
  lemma EmbeddedSignature(crypto: Crypto, userId: JsValue, secret: Option<string>)
    requires FullDigests(crypto) && IsValidUserId(userId)
    ensures var sig := GenerateSignature(crypto, userId, secret).value;
      IsSignature(sig)
      && CreateSecureUserTag(crypto, userId, secret, None) == SignedDeepLinkTag(Show(userId), sig)
      && VerifyUserIdSignature(crypto, Show(userId), sig, secret)
  {
    SignatureShape(crypto, userId, secret);
    SignatureOfRendering(crypto, userId, secret);
    UserIdIsChatId(userId);
  }

  /** When signing fails, the tag is the unsigned rendering, and a reply to it routes
      as the unsigned formats decide: a mention link leads nowhere, and a deep link
      whose id renders as digits (the number 0, say) gives that id back unverified. */
  lemma FallbackTag(crypto: Crypto, userId: JsValue, secret: Option<string>, username: Option<string>, pre: string, post: string)
    requires !IsValidUserId(userId)
    requires username.None? || username.value == "" || AllWordChars(username.value)
    requires '[' !in pre && '[' !in post
    ensures CreateSecureUserTag(crypto, userId, secret, username)
         == if username.Some? && username.value != "" then LegacyMentionTag(username.value)
            else LegacyDeepLinkTag(Show(userId))
    ensures username.Some? && username.value != "" ==>
      ExtractUserChatId(crypto, Str(pre + CreateSecureUserTag(crypto, userId, secret, username) + post), secret) == None
    ensures (username.None? || username.value == "") && IsDigits(Show(userId)) ==>
      ExtractUserChatId(crypto, Str(pre + CreateSecureUserTag(crypto, userId, secret, username) + post), secret)
      == Some(Show(userId))
  {
    if username.Some? && username.value != "" {
      ExtractLegacyMention(crypto, pre, username.value, post, secret);
    } else if IsDigits(Show(userId)) {
      ExtractLegacyDeepLink(crypto, pre, Show(userId), post, secret);
    }
  }

  /** A mention link typed by a user without a username hides the tag the worker
      appends to their text: the unsigned mention format is tried before the deep
      link, and it leads nowhere, so the reply finds no user by its tag. */
  lemma TypedMentionHidesTag(crypto: Crypto, userId: JsValue, secret: Option<string>, pre: string, name: string, mid: string, post: string)
    requires FullDigests(crypto) && IsValidUserId(userId)
    requires |name| > 0 && AllWordChars(name)
    requires '[' !in pre && '[' !in mid && '[' !in post
    ensures ExtractUserChatId(crypto, Str(pre + LegacyMentionTag(name) + mid + CreateSecureUserTag(crypto, userId, secret, None) + post), secret)
         == None
  {
    var id := Show(userId);
    var sig := GenerateSignature(crypto, userId, secret).value;
    UserIdIsChatId(userId);
    SignatureShape(crypto, userId, secret);
    var y := SignedDeepLinkTag(id, sig);
    assert CreateSecureUserTag(crypto, userId, secret, None) == y;
    LegacyMentionAt(name, mid + y + post);
    SignedDeepLinkAt(id, sig, post);
    FirstTagDecides(crypto, LegacyMention, pre, LegacyMentionTag(name), mid, y, post, secret);
  }

  // ---------------------------------------------------------------- several markers

  /** Of two tags, the first decides when some format matches at it before any format
      newer than that one matches at either. */
  lemma FirstTagDecides(crypto: Crypto, f: Format, pre: string, x: string, mid: string, y: string, post: string, secret: Option<string>)
    requires '[' !in pre && '[' !in mid && '[' !in post && OneBracket(x) && OneBracket(y)
    requires MatchAt(f, x + (mid + y + post)).Some?
    requires forall g: Format :: Rank(g) < Rank(f) ==> MatchAt(g, x + (mid + y + post)).None? && MatchAt(g, y + post).None?
    ensures ExtractUserChatId(crypto, Str(pre + x + mid + y + post), secret)
         == Resolve(crypto, f, MatchAt(f, x + (mid + y + post)).value, secret)
  {
    var rest := mid + y + post;
    var t := pre + x + mid + y + post;
    assert forall g: Format :: Rank(g) < Rank(f) ==> Find(g, t).None? by {
      assert t == pre + x + rest;
      forall g: Format | Rank(g) < Rank(f)
        ensures Find(g, t).None?
      {
        FindPastTag(g, pre, x, rest);
        FindAtTag(g, mid, y, post);
      }
    }
    assert Find(f, t) == MatchAt(f, x + rest) by {
      assert t == pre + (x + rest);
      FindSkipsPlainText(f, pre, x + rest);
    }
    ExtractDecidedBy(crypto, t, secret, f);
  }

  /** Of two tags, the second decides when nothing up to its format matches at the
      first. */
  lemma SecondTagDecides(crypto: Crypto, f: Format, pre: string, x: string, mid: string, y: string, post: string, secret: Option<string>)
    requires '[' !in pre && '[' !in mid && '[' !in post && OneBracket(x) && OneBracket(y)
    requires forall g: Format :: Rank(g) <= Rank(f) ==> MatchAt(g, x + (mid + y + post)).None?
    requires MatchAt(f, y + post).Some?
    requires forall g: Format :: Rank(g) < Rank(f) ==> MatchAt(g, y + post).None?
    ensures ExtractUserChatId(crypto, Str(pre + x + mid + y + post), secret)
         == Resolve(crypto, f, MatchAt(f, y + post).value, secret)
  {
    var rest := mid + y + post;
    var t := pre + x + mid + y + post;
    assert forall g: Format :: Rank(g) <= Rank(f) ==> Find(g, t) == MatchAt(g, y + post) by {
      assert t == pre + x + rest;
      forall g: Format | Rank(g) <= Rank(f)
        ensures Find(g, t) == MatchAt(g, y + post)
      {
        FindPastTag(g, pre, x, rest);
        FindAtTag(g, mid, y, post);
      }
    }
    ExtractDecidedBy(crypto, t, secret, f);
  }

  /** A signed marker wins over an older unsigned one standing before it: the bracket
      form `[USER:id]` is only consulted when no newer format is found. */
  lemma SignedBeatsLegacy(crypto: Crypto, pre: string, oldId: string, mid: string, id: string, sig: string, post: string, secret: Option<string>)
    requires IsDigits(oldId) && IsDigits(id) && IsSignature(sig)
    requires '[' !in pre && '[' !in mid && '[' !in post
    ensures ExtractUserChatId(crypto, Str(pre + LegacyBracketTag(oldId) + mid + SignedDeepLinkTag(id, sig) + post), secret)
         == if VerifyUserIdSignature(crypto, id, sig, secret) then Some(id) else None
  {
    var rest := mid + SignedDeepLinkTag(id, sig) + post;
    LegacyBracketShape(oldId);
    LegacyBracketFits(oldId);
    MatchTag(LegacyBracket, [oldId], rest);
    BracketMissesNewer(oldId, rest);
    SignedDeepLinkAt(id, sig, post);
    SecondTagDecides(crypto, SignedDeepLink, pre, LegacyBracketTag(oldId), mid, SignedDeepLinkTag(id, sig), post, secret);
  }

  /** The leftmost of two signed deep links decides, even when it carries a bad
      signature and the later one a good one: an earlier forged marker makes the
      message unroutable rather than redirecting it. */
  lemma LeftmostSignedMarkerDecides(crypto: Crypto, pre: string, id1: string, sig1: string, mid: string, id2: string, sig2: string, post: string, secret: Option<string>)
    requires IsDigits(id1) && IsSignature(sig1) && IsDigits(id2) && IsSignature(sig2)
    requires '[' !in pre && '[' !in mid && '[' !in post
    ensures ExtractUserChatId(crypto, Str(pre + SignedDeepLinkTag(id1, sig1) + mid + SignedDeepLinkTag(id2, sig2) + post), secret)
         == if VerifyUserIdSignature(crypto, id1, sig1, secret) then Some(id1) else None
  {
    var rest := mid + SignedDeepLinkTag(id2, sig2) + post;
    SignedDeepLinkAt(id1, sig1, rest);
    SignedDeepLinkAt(id2, sig2, post);
    FirstTagDecides(crypto, SignedDeepLink, pre, SignedDeepLinkTag(id1, sig1), mid, SignedDeepLinkTag(id2, sig2), post, secret);
  }
}
