/**
 * The session identity blob: a slim user record written as JSON the way
 * serde_json writes it, `{"email":"<escaped>","clearance":true|false}`,
 * and read back. Reading accepts exactly the strings writing produces.
 */
module IdentityCodec {
  import opened Wrappers
  import opened Models

  const OPEN := "{\"email\":\""
  const CLEARANCE_KEY := ",\"clearance\":"
  const HEX := "0123456789abcdef"

  /** Control characters that have a two-character escape (\b \t \n \f \r). */
  predicate HasShortEscape(v: int) {
    v == 8 || v == 9 || v == 10 || v == 12 || v == 13
  }

  /** How one character of a string is written inside JSON quotes. */
  function EscapeChar(c: char): (s: string)
    ensures IsPlain(c) ==> s == [c]
    ensures !IsPlain(c) ==> |s| >= 2 && s[0] == '\\'
  {
    var v := c as int;
    if c == '"' then ['\\', '"']
    else if c == '\\' then ['\\', '\\']
    else if v == 8 then ['\\', 'b']
    else if v == 9 then ['\\', 't']
    else if v == 10 then ['\\', 'n']
    else if v == 12 then ['\\', 'f']
    else if v == 13 then ['\\', 'r']
    else if v < 0x20 then ['\\', 'u', '0', '0', HEX[v / 16], HEX[v % 16]]
    else [c]
  }

  function Escape(s: string): string {
    if s == [] then [] else EscapeChar(s[0]) + Escape(s[1..])
  }

  lemma EscapePrepend(c: char, s: string)
    ensures Escape([c] + s) == EscapeChar(c) + Escape(s)
  {
    assert ([c] + s)[1..] == s;
  }

  function FlagText(clearance: bool): string {
    if clearance then "true" else "false"
  }

  /** Everything a blob holds after the email's closing quote. */
  function Tail(clearance: bool): string {
    CLEARANCE_KEY + FlagText(clearance) + "}"
  }

  /** The blob stored in the session for a slim user. */
  function Encode(u: SlimUser): string {
    OPEN + Escape(u.email) + "\"" + Tail(u.clearance)
  }

  function HexValue(c: char): (v: int)
    ensures c in HEX ==> 0 <= v < 16 && HEX[v] == c
  {
    if '0' <= c <= '9' then c as int - '0' as int
    else if 'a' <= c <= 'f' then c as int - 'a' as int + 10
    else -1
  }

  /**
   * Reads the escape sequence after a backslash: the character it stands
   * for and how many characters it takes.
   */
  function Unescape(t: string): (r: Option<(char, nat)>)
    ensures r.Some? ==> 1 <= r.value.1 <= |t| && EscapeChar(r.value.0) == ['\\'] + t[..r.value.1]
  {
    if t == [] then None
    else if t[0] == '"' then Some(('"', 1))
    else if t[0] == '\\' then Some(('\\', 1))
    else if t[0] == 'b' then Some((8 as char, 1))
    else if t[0] == 't' then Some((9 as char, 1))
    else if t[0] == 'n' then Some((10 as char, 1))
    else if t[0] == 'f' then Some((12 as char, 1))
    else if t[0] == 'r' then Some((13 as char, 1))
    else if |t| >= 5 && t[0] == 'u' && t[1] == '0' && t[2] == '0' && (t[3] == '0' || t[3] == '1') && t[4] in HEX then
      var v := (t[3] as int - '0' as int) * 16 + HexValue(t[4]);
      if HasShortEscape(v) then None
      else
        assert EscapeChar(v as char) == ['\\'] + t[..5] by { UnicodeEscape(t); }
        Some((v as char, 5))
    else None
  }

  /** A `u00xx` sequence is how the control character it names is written. */
  lemma UnicodeEscape(t: string)
    requires |t| >= 5 && t[0] == 'u' && t[1] == '0' && t[2] == '0' && (t[3] == '0' || t[3] == '1') && t[4] in HEX
    requires !HasShortEscape((t[3] as int - '0' as int) * 16 + HexValue(t[4]))
    ensures EscapeChar(((t[3] as int - '0' as int) * 16 + HexValue(t[4])) as char) == ['\\'] + t[..5]
  {
    var v := (t[3] as int - '0' as int) * 16 + HexValue(t[4]);
    assert v / 16 == t[3] as int - '0' as int && v % 16 == HexValue(t[4]);
    assert v < 0x20;
  }

  /** A character that is written as itself. */
  predicate IsPlain(c: char) {
    c != '"' && c != '\\' && (c as int) >= 0x20
  }

  lemma PlainEscape(c: char)
    requires IsPlain(c)
    ensures EscapeChar(c) == [c]
  {
  }

  /** Prepending an escape sequence to a parsed remainder gives the written form of the longer text. */
  lemma EscapedStep(t: string, c: char, n: nat, s: string, rest: string)
    requires 1 <= n && 1 + n <= |t| && t[0] == '\\'
    requires EscapeChar(c) == ['\\'] + t[1..][..n]
    requires t[1 + n..] == Escape(s) + "\"" + rest
    ensures t == Escape([c] + s) + "\"" + rest
  {
    EscapePrepend(c, s);
    assert t == t[..1 + n] + t[1 + n..];
    assert t[..1 + n] == ['\\'] + t[1..][..n];
  }

  /** Prepending a plain character to a parsed remainder gives the written form of the longer text. */
  lemma PlainStep(t: string, s: string, rest: string)
    requires |t| >= 1 && IsPlain(t[0])
    requires t[1..] == Escape(s) + "\"" + rest
    ensures t == Escape([t[0]] + s) + "\"" + rest
  {
    EscapePrepend(t[0], s);
    PlainEscape(t[0]);
    assert t == [t[0]] + t[1..];
  }

  /**
   * Reads the body of a JSON string up to its closing quote: the text it
   * stands for and what follows the quote.
   */
  function ParseString(t: string): (r: Option<(string, string)>)
    ensures r.Some? ==> t == Escape(r.value.0) + "\"" + r.value.1
    decreases |t|
  {
    if t == [] then None
    else if t[0] == '"' then Some(([], t[1..]))
    else if t[0] == '\\' then
      match Unescape(t[1..])
      case None => None
      case Some((c, n)) =>
        match ParseString(t[1 + n..])
        case None => None
        case Some((s, rest)) =>
          EscapedStep(t, c, n, s, rest);
          Some(([c] + s, rest))
    else if !IsPlain(t[0]) then None
    else
      match ParseString(t[1..])
      case None => None
      case Some((s, rest)) =>
        PlainStep(t, s, rest);
        Some(([t[0]] + s, rest))
  }

  /** Reads what follows the email: the clearance flag and the closing brace. */
  function ParseTail(rest: string): (r: Option<bool>)
    ensures r.Some? ==> rest == Tail(r.value)
  {
    if rest == Tail(true) then Some(true)
    else if rest == Tail(false) then Some(false)
    else None
  }

  lemma ParseTailOf(clearance: bool)
    ensures ParseTail(Tail(clearance)) == Some(clearance)
  {
    assert |Tail(true)| != |Tail(false)|;
  }

  /** The slim user a blob stands for, if it is one; a blob is never read two ways. */
  function Decode(blob: string): (r: Option<SlimUser>)
    ensures r.Some? ==> Encode(r.value) == blob
  {
    if !(|OPEN| <= |blob| && blob[..|OPEN|] == OPEN) then None
    else
      match ParseString(blob[|OPEN|..])
      case None => None
      case Some((email, rest)) =>
        match ParseTail(rest)
        case None => None
        case Some(clearance) =>
          assert blob == OPEN + blob[|OPEN|..];
          Some(SlimUser(email, clearance))
  }

  /** An escape sequence reads back as the character it was written for. */
  lemma UnescapeEscapeChar(c: char, rest: string)
    requires !IsPlain(c)
    ensures Unescape(EscapeChar(c)[1..] + rest) == Some((c, |EscapeChar(c)| - 1))
  {
    var v := c as int;
    if c != '"' && c != '\\' && !HasShortEscape(v) {
      var t := EscapeChar(c)[1..] + rest;
      assert t[3] == HEX[v / 16] && t[4] == HEX[v % 16];
      assert t[3] == '0' || t[3] == '1';
      assert HexValue(t[4]) == v % 16;
      assert (t[3] as int - '0' as int) == v / 16;
    }
  }

  /** Reading the written form of an escaped character and a remainder. */
  lemma ParseEscapedChar(c: char, tail: string, s: string, rest: string)
    requires !IsPlain(c)
    requires ParseString(tail) == Some((s, rest))
    ensures ParseString(EscapeChar(c) + tail) == Some(([c] + s, rest))
  {
    var e := EscapeChar(c);
    var t := e + tail;
    UnescapeEscapeChar(c, tail);
    assert t[1..] == e[1..] + tail;
    assert t[1 + (|e| - 1)..] == tail;
  }

  /** Reading the written form of a plain character and a remainder. */
  lemma ParsePlainChar(c: char, tail: string, s: string, rest: string)
    requires IsPlain(c)
    requires ParseString(tail) == Some((s, rest))
    ensures ParseString(EscapeChar(c) + tail) == Some(([c] + s, rest))
  {
    PlainEscape(c);
    assert ([c] + tail)[1..] == tail;
  }

  /** The written form of a non-empty text starts with its first character's escape. */
  lemma EscapeHead(s: string, rest: string)
    requires s != []
    ensures Escape(s) + "\"" + rest == EscapeChar(s[0]) + (Escape(s[1..]) + "\"" + rest)
  {
  }

  /** Reading a written string body gives back the text and the remainder. */
  lemma {:induction false} ParseEscaped(s: string, rest: string)
    ensures ParseString(Escape(s) + "\"" + rest) == Some((s, rest))
  {
    if s == [] {
      assert Escape(s) + "\"" + rest == "\"" + rest;
    } else {
      var tail := Escape(s[1..]) + "\"" + rest;
      ParseEscaped(s[1..], rest);
      EscapeHead(s, rest);
      if IsPlain(s[0]) {
        ParsePlainChar(s[0], tail, s[1..], rest);
      } else {
        ParseEscapedChar(s[0], tail, s[1..], rest);
      }
      assert [s[0]] + s[1..] == s;
    }
  }

  /** The blob written for a slim user reads back as that user. */
  lemma DecodeEncode(u: SlimUser)
    ensures Decode(Encode(u)) == Some(u)
  {
    var blob := Encode(u);
    assert blob == OPEN + (Escape(u.email) + "\"" + Tail(u.clearance));
    assert blob[|OPEN|..] == Escape(u.email) + "\"" + Tail(u.clearance);
    ParseEscaped(u.email, Tail(u.clearance));
    ParseTailOf(u.clearance);
  }

  /** A blob reads as a slim user exactly when it is that user's written form. */
  lemma DecodeIffEncoded(blob: string, u: SlimUser)
    ensures Decode(blob) == Some(u) <==> blob == Encode(u)
  {
    if blob == Encode(u) {
      DecodeEncode(u);
    }
  }
}
