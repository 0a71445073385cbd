/** The worker's pure string helpers: `String.prototype.split`/`join` on one
    character, `trim`, `parsePostTargets` and `escapeMarkdown`. */
module TextHelpers {
  import opened Js

  // ---------------------------------------------------------------- split and join

  /** The first position of `c` in `s`. */
  function IndexOf(s: string, c: char): (k: nat)
    requires c in s
    ensures k < |s| && s[k] == c && c !in s[..k]
  {
    if s[0] == c then 0
    else
      var k := 1 + IndexOf(s[1..], c);
      assert s[..k] == [s[0]] + s[1..][..k - 1];
      k
  }

  /** `s.split(sep)` for a one-character separator: the pieces between the separators,
      empty pieces included, so there is always one piece more than separators. */
  function Split(s: string, sep: char): (parts: seq<string>)
    ensures |parts| >= 1
    ensures forall i :: 0 <= i < |parts| ==> sep !in parts[i]
    decreases |s|
  {
    if sep !in s then [s]
    else
      var k := IndexOf(s, sep);
      [s[..k]] + Split(s[k + 1..], sep)
  }

  /** `parts.join(sep)`; the empty list joins to the empty string. */
  function Join(parts: seq<string>, sep: char): string {
    if parts == [] then ""
    else if |parts| == 1 then parts[0]
    else parts[0] + [sep] + Join(parts[1..], sep)
  }

  /** Joining a piece in front of at least one more puts one separator between them. */
  lemma JoinCons(p: string, rest: seq<string>, sep: char)
    requires |rest| >= 1
    ensures Join([p] + rest, sep) == p + [sep] + Join(rest, sep)
  {
    assert ([p] + rest)[1..] == rest;
  }

  /** Joining the pieces of a split gives back the string. */
  lemma {:induction false} JoinSplit(s: string, sep: char)
    ensures Join(Split(s, sep), sep) == s
    decreases |s|
  {
    if sep in s {
      var k := IndexOf(s, sep);
      JoinSplit(s[k + 1..], sep);
      JoinCons(s[..k], Split(s[k + 1..], sep), sep);
      assert s == s[..k] + [sep] + s[k + 1..];
    }
  }

  /** Splitting a join of separator-free pieces gives back the pieces. */
  lemma {:induction false} SplitJoin(parts: seq<string>, sep: char)
    requires |parts| >= 1
    requires forall i :: 0 <= i < |parts| ==> sep !in parts[i]
    ensures Split(Join(parts, sep), sep) == parts
  {
    if |parts| > 1 {
      var s := Join(parts, sep);
      var rest := Join(parts[1..], sep);
      assert s == parts[0] + ([sep] + rest);
      assert s[|parts[0]|] == sep;
      assert s[..|parts[0]|] == parts[0];
      assert IndexOf(s, sep) == |parts[0]|;
      assert s[|parts[0]| + 1..] == rest;
      SplitJoin(parts[1..], sep);
    }
  }

  /** Splitting at the first separator: the head is the separator-free text before it. */
  lemma SplitAtFirst(head: string, sep: char, tail: string)
    requires sep !in head
    ensures Split(head + [sep] + tail, sep) == [head] + Split(tail, sep)
  {
    var s := head + [sep] + tail;
    assert s[|head|] == sep && s[..|head|] == head;
    assert IndexOf(s, sep) == |head|;
    assert s[|head| + 1..] == tail;
  }

  // ---------------------------------------------------------------- trim

  /** The characters `String.prototype.trim` removes: ECMAScript WhiteSpace and
      LineTerminator. */
  predicate IsJsSpace(c: char) {
    ('\U{0009}' <= c <= '\U{000D}') || c == ' ' || c == '\U{00A0}' || c == '\U{1680}'
    || ('\U{2000}' <= c <= '\U{200A}') || c == '\U{2028}' || c == '\U{2029}' || c == '\U{202F}'
    || c == '\U{205F}' || c == '\U{3000}' || c == '\U{FEFF}'
  }

  function TrimStart(s: string): string {
    if s != [] && IsJsSpace(s[0]) then TrimStart(s[1..]) else s
  }

  function TrimEnd(s: string): string {
    if s != [] && IsJsSpace(s[|s| - 1]) then TrimEnd(s[..|s| - 1]) else s
  }

  /** `s.trim()` */
  function Trim(s: string): string { TrimEnd(TrimStart(s)) }

  /** Trimming the start removes a run of leading whitespace and stops at the first
      other character. */
  lemma {:induction false} TrimStartShape(s: string)
    ensures var r := TrimStart(s);
      |r| <= |s| && r == s[|s| - |r|..]
      && (r != [] ==> !IsJsSpace(r[0]))
      && forall i :: 0 <= i < |s| - |r| ==> IsJsSpace(s[i])
  {
    if s != [] && IsJsSpace(s[0]) {
      var r := TrimStart(s[1..]);
      TrimStartShape(s[1..]);
      assert s[1..][|s| - 1 - |r|..] == s[|s| - |r|..];
      forall i | 0 < i < |s| - |r|
        ensures IsJsSpace(s[i])
      {
        assert s[i] == s[1..][i - 1];
      }
    }
  }

  /** Trimming the end removes a run of trailing whitespace and stops at the last
      other character. */
  lemma {:induction false} TrimEndShape(s: string)
    ensures var r := TrimEnd(s);
      |r| <= |s| && r == s[..|r|]
      && (r != [] ==> !IsJsSpace(r[|r| - 1]))
      && forall i :: |r| <= i < |s| ==> IsJsSpace(s[i])
  {
    if s != [] && IsJsSpace(s[|s| - 1]) {
      var r := TrimEnd(s[..|s| - 1]);
      TrimEndShape(s[..|s| - 1]);
      assert s[..|s| - 1][..|r|] == s[..|r|];
      forall i | |r| <= i < |s| - 1
        ensures IsJsSpace(s[i])
      {
        assert s[i] == s[..|s| - 1][i];
      }
    }
  }

  /** A trimmed string is the original with only whitespace removed at both ends,
      and it neither starts nor ends with whitespace. */
  lemma TrimShape(s: string)
    ensures var t := Trim(s);
      (t != [] ==> !IsJsSpace(t[0]) && !IsJsSpace(t[|t| - 1]))
      && exists a, b :: 0 <= a <= b <= |s| && t == s[a..b]
           && (forall i :: 0 <= i < a ==> IsJsSpace(s[i])) && (forall i :: b <= i < |s| ==> IsJsSpace(s[i]))
  {
    var u := TrimStart(s);
    var t := TrimEnd(u);
    TrimStartShape(s);
    TrimEndShape(u);
    var a := |s| - |u|;
    var b := a + |t|;
    forall i | b <= i < |s|
      ensures IsJsSpace(s[i])
    {
      assert s[i] == u[i - a];
    }
    if t != [] {
      assert t[0] == u[0];
    }
    assert t == s[a..b] by {
      assert u == s[a..] && t == u[..|t|];
    }
  }

  lemma TrimDigits(s: string)
    requires AllDigits(s)
    ensures Trim(s) == s
  {
    if s != [] {
      assert !IsJsSpace(s[0]) && !IsJsSpace(s[|s| - 1]);
    }
  }

  // ---------------------------------------------------------------- parsePostTargets

  datatype Targets = All | Ids(ids: seq<string>)

  /** The result of `parsePostTargets`: `userIds` and `message`. */
  datatype PostCommand = PostCommand(targets: Targets, message: string)

  /** One piece through `map(id => id.trim())` and the digit filter: its trimmed form
      when that is a digit string, and nothing otherwise. */
  function DigitPiece(piece: string): (kept: seq<string>)
    ensures kept == [] || kept == [Trim(piece)]
    ensures kept != [] <==> IsDigits(Trim(piece))
  {
    var t := Trim(piece);
    if IsDigits(t) then [t] else []
  }

  /** `pieces.map(id => id.trim()).filter(id => /^\d+$/.test(id))` */
  function DigitPieces(pieces: seq<string>): (ids: seq<string>)
    ensures |ids| <= |pieces|
    ensures forall i :: 0 <= i < |ids| ==> IsDigits(ids[i])
  {
    if pieces == [] then [] else DigitPiece(pieces[0]) + DigitPieces(pieces[1..])
  }

  function ParsePostTargets(commandText: string): PostCommand {
    if commandText == "" then PostCommand(Ids([]), "")
    else
      var parts := Split(commandText, ' ');
      if |parts| < 2 then PostCommand(Ids([]), "")
      else
        var targetsStr := parts[0];
        var message := Join(parts[1..], ' ');
        if targetsStr == "all" then PostCommand(All, message)
        else PostCommand(Ids(DigitPieces(Split(targetsStr, ','))), message)
  }

  /** Without a space there is nothing to send: no targets and an empty message. */
  lemma ParseWithoutSpace(text: string)
    requires ' ' !in text
    ensures ParsePostTargets(text) == PostCommand(Ids([]), "")
  {
  }

  /** With a space, the text splits at the first one: the message is everything after
      it, the targets are `all` exactly when the part before it is `all`, and are
      otherwise the trimmed digit pieces of its comma-separated list. */
  lemma ParseAtFirstSpace(head: string, message: string)
    requires ' ' !in head
    ensures var r := ParsePostTargets(head + " " + message);
      r.message == message
      && (r.targets == All <==> head == "all")
      && (head != "all" ==> r.targets == Ids(DigitPieces(Split(head, ','))))
  {
    SplitAtFirst(head, ' ', message);
    JoinSplit(message, ' ');
    assert head + " " + message == head + [' '] + message;
  }

  /** The pieces kept are exactly the trimmed pieces that are digit strings, in order. */
  lemma {:induction false} DigitPiecesKeep(pieces: seq<string>, p: string)
    ensures p in DigitPieces(pieces) <==> IsDigits(p) && exists q :: q in pieces && Trim(q) == p
  {
    if pieces != [] {
      DigitPiecesKeep(pieces[1..], p);
      assert forall q :: q in pieces <==> q == pieces[0] || q in pieces[1..];
    }
  }

  /** Digit ids already in command form come back unchanged. */
  lemma {:induction false} DigitPiecesOfIds(ids: seq<string>)
    requires forall i :: 0 <= i < |ids| ==> IsDigits(ids[i])
    ensures DigitPieces(ids) == ids
  {
    if ids != [] {
      TrimDigits(ids[0]);
      assert DigitPiece(ids[0]) == [ids[0]];
      DigitPiecesOfIds(ids[1..]);
      assert ids == [ids[0]] + ids[1..];
    }
  }

  /** A digit string contains no character that is not a digit. */
  lemma DigitsExclude(s: string, c: char)
    requires AllDigits(s) && !IsDigit(c)
    ensures c !in s
  {
  }

  /** The `/post` round trip: writing ids separated by commas, a space and a message
      parses back to those ids and that message. */
  lemma PostCommandRoundTrip(ids: seq<string>, message: string)
    requires forall i :: 0 <= i < |ids| ==> IsDigits(ids[i])
    ensures ParsePostTargets(Join(ids, ',') + " " + message) == PostCommand(Ids(ids), message)
  {
    var head := Join(ids, ',');
    JoinNoSpace(ids, ',');
    ParseAtFirstSpace(head, message);
    if ids == [] {
      assert Split(head, ',') == [""];
    } else {
      forall i | 0 <= i < |ids| ensures ',' !in ids[i] {
        DigitsExclude(ids[i], ',');
      }
      SplitJoin(ids, ',');
      DigitPiecesOfIds(ids);
      JoinFirst(ids, ',');
      assert head != "all" by { assert IsDigit(head[0]); }
    }
  }

  lemma {:induction false} JoinFirst(parts: seq<string>, sep: char)
    requires |parts| >= 1 && |parts[0]| > 0
    ensures |Join(parts, sep)| > 0 && Join(parts, sep)[0] == parts[0][0]
  {
  }

  lemma {:induction false} JoinNoSpace(ids: seq<string>, sep: char)
    requires forall i :: 0 <= i < |ids| ==> IsDigits(ids[i])
    requires sep != ' '
    ensures ' ' !in Join(ids, sep)
  {
    if |ids| > 1 {
      JoinNoSpace(ids[1..], sep);
      DigitsExclude(ids[0], ' ');
    } else if |ids| == 1 {
      DigitsExclude(ids[0], ' ');
    }
  }

  // ---------------------------------------------------------------- escapeMarkdown

  /** The 18 characters of `/[_*\[\]()~`>#+=|{}.!-]/`. */
  predicate IsMarkdownSpecial(c: char) {
    c in "_*[]()~`>#+=|{}.!-"
  }

  function Escape(s: string): string {
    if s == [] then []
    else (if IsMarkdownSpecial(s[0]) then ['\\', s[0]] else [s[0]]) + Escape(s[1..])
  }

  /** `escapeMarkdown(text)`: a string gets a backslash before each special character;
      anything else comes back as it was. */
  function EscapeMarkdown(text: JsValue): (r: JsValue)
    ensures !text.Str? ==> r == text
    ensures text.Str? ==> r.Str? && |r.s| == |text.s| + CountSpecial(text.s)
  {
    if text.Str? then EscapeLength(text.s); Str(Escape(text.s)) else text
  }

  function CountSpecial(s: string): nat {
    if s == [] then 0 else (if IsMarkdownSpecial(s[0]) then 1 else 0) + CountSpecial(s[1..])
  }

  lemma {:induction false} EscapeLength(s: string)
    ensures |Escape(s)| == |s| + CountSpecial(s)
  {
    if s != [] { EscapeLength(s[1..]); }
  }

  /** Removing a backslash that stands before a special character. */
  function Unescape(s: string): string {
    if s == [] then []
    else if |s| >= 2 && s[0] == '\\' && IsMarkdownSpecial(s[1]) then [s[1]] + Unescape(s[2..])
    else [s[0]] + Unescape(s[1..])
  }

  /** An escaped text never starts with a special character: a special one is always
      preceded by its backslash, which is not special. */
  lemma EscapeStart(s: string)
    requires s != []
    ensures |Escape(s)| > 0 && !IsMarkdownSpecial(Escape(s)[0])
  {
  }

  /** Escaping loses nothing: unescaping gives back the original text, backslashes
      included. */
  lemma {:induction false} UnescapeEscape(s: string)
    ensures Unescape(Escape(s)) == s
  {
    if s != [] {
      var rest := Escape(s[1..]);
      UnescapeEscape(s[1..]);
      if IsMarkdownSpecial(s[0]) {
        assert Escape(s) == ['\\', s[0]] + rest;
        assert Escape(s)[2..] == rest;
      } else {
        assert Escape(s) == [s[0]] + rest;
        if s[0] == '\\' && s[1..] != [] {
          EscapeStart(s[1..]);
        }
        assert Escape(s)[1..] == rest;
      }
    }
  }

  /** Every non-special character is kept as it is, and only specials gain a backslash. */
  lemma {:induction false} EscapeKeepsPlainText(s: string)
    requires forall i :: 0 <= i < |s| ==> !IsMarkdownSpecial(s[i])
    ensures Escape(s) == s
  {
    if s != [] { EscapeKeepsPlainText(s[1..]); }
  }

  lemma {:induction false} EscapeAppend(a: string, b: string)
    ensures Escape(a + b) == Escape(a) + Escape(b)
  {
    if a == [] {
      assert a + b == b;
    } else {
      assert (a + b)[0] == a[0] && (a + b)[1..] == a[1..] + b;
      EscapeAppend(a[1..], b);
    }
  }
}
