/**
 * JSON text of a string value, as `JSON.stringify` writes it and `JSON.parse`
 * reads it back (ECMAScript's QuoteJSONString and the JSON string grammar of
 * RFC 8259, section 7). The store accessor passes every value through this pair.
 */
module Json {
  import opened Wrappers

  predicate IsHex(c: char) {
    '0' <= c <= '9' || 'a' <= c <= 'f' || 'A' <= c <= 'F'
  }

  function HexValue(c: char): (v: nat)
    requires IsHex(c)
    ensures v < 16
  {
    if c <= '9' then c as int - '0' as int
    else if c >= 'a' then c as int - 'a' as int + 10
    else c as int - 'A' as int + 10
  }

  /** A lower-case hexadecimal digit, as `JSON.stringify` writes them. */
  function HexDigit(d: nat): (c: char)
    requires d < 16
    ensures IsHex(c) && HexValue(c) == d
  {
    if d < 10 then ('0' as int + d) as char else ('a' as int + d - 10) as char
  }

  /** The text `JSON.stringify` writes for one character inside a string literal. */
  function Escape(c: char): string {
    if c == '"' then "\\\""
    else if c == '\\' then "\\\\"
    else if c == '\U{8}' then "\\b"
    else if c == '\t' then "\\t"
    else if c == '\n' then "\\n"
    else if c == '\U{C}' then "\\f"
    else if c == '\r' then "\\r"
    else if c < ' ' then "\\u00" + [HexDigit(c as int / 16), HexDigit(c as int % 16)]
    else [c]
  }

  function EscapeAll(v: string): string {
    if v == [] then [] else Escape(v[0]) + EscapeAll(v[1..])
  }

  /** `JSON.stringify` of a string: the escaped characters between double quotes. */
  function Serialise(v: string): (r: string)
    ensures |r| >= 2 && r[0] == '"' && r[|r| - 1] == '"'
  {
    "\"" + EscapeAll(v) + "\""
  }

  /** One decoded character of a string literal's body, and how many characters it took. */
  datatype Decoded = Decoded(ch: char, width: nat)

  /**
   * Reads one character of a string literal's body: a plain character, a
   * two-character escape, or `\u` with four hexadecimal digits. A bare quote,
   * a bare control character or an unknown escape is a syntax error.
   */
  function DecodeOne(body: string): (r: Option<Decoded>)
    requires body != []
    ensures r.Some? ==> 1 <= r.value.width <= |body|
  {
    var c := body[0];
    if c == '"' || c < ' ' then None
    else if c != '\\' then Some(Decoded(c, 1))
    else if |body| < 2 then None
    else
      var e := body[1];
      if e == '"' then Some(Decoded('"', 2))
      else if e == '\\' then Some(Decoded('\\', 2))
      else if e == '/' then Some(Decoded('/', 2))
      else if e == 'b' then Some(Decoded('\U{8}', 2))
      else if e == 'f' then Some(Decoded('\U{C}', 2))
      else if e == 'n' then Some(Decoded('\n', 2))
      else if e == 'r' then Some(Decoded('\r', 2))
      else if e == 't' then Some(Decoded('\t', 2))
      else if e == 'u' && |body| >= 6 && IsHex(body[2]) && IsHex(body[3]) && IsHex(body[4]) && IsHex(body[5]) then
        var code := HexValue(body[2]) * 4096 + HexValue(body[3]) * 256 + HexValue(body[4]) * 16 + HexValue(body[5]);
        if 0xD800 <= code <= 0xDFFF then None else Some(Decoded(code as char, 6))
      else None
  }

  /** The characters a string literal's body denotes, or `None` on a syntax error. */
  function Unescape(body: string): Option<string>
    decreases |body|
  {
    if body == [] then Some([])
    else match DecodeOne(body)
      case None => None
      case Some(d) =>
        match Unescape(body[d.width..])
        case None => None
        case Some(rest) => Some([d.ch] + rest)
  }

  /** `JSON.parse` of a text holding a string literal; `None` for anything else. */
  function Deserialise(s: string): (r: Option<string>)
    ensures r.Some? ==> |s| >= 2 && s[0] == '"' && s[|s| - 1] == '"'
  {
    if |s| >= 2 && s[0] == '"' && s[|s| - 1] == '"' then Unescape(s[1..|s| - 1]) else None
  }

  /** Each character's escape is read back as that character, whatever follows it. */
  lemma DecodeEscape(c: char, rest: string)
    ensures DecodeOne(Escape(c) + rest) == Some(Decoded(c, |Escape(c)|))
  {
  }

  lemma {:induction false} UnescapeEscapeAll(v: string)
    ensures Unescape(EscapeAll(v)) == Some(v)
  {
    if v != [] {
      var e := EscapeAll(v);
      var tail := EscapeAll(v[1..]);
      assert e == Escape(v[0]) + tail;
      DecodeEscape(v[0], tail);
      assert e[|Escape(v[0])|..] == tail;
      UnescapeEscapeAll(v[1..]);
      assert [v[0]] + v[1..] == v;
    }
  }

  /** Round trip: `JSON.parse(JSON.stringify(v))` is `v` for every string `v`. */
  lemma DeserialiseSerialise(v: string)
    ensures Deserialise(Serialise(v)) == Some(v)
  {
    var s := Serialise(v);
    assert s[1..|s| - 1] == EscapeAll(v);
    UnescapeEscapeAll(v);
  }

  /** Distinct strings are stored as distinct texts. */
  lemma SerialiseInjective(v: string, w: string)
    requires Serialise(v) == Serialise(w)
    ensures v == w
  {
    DeserialiseSerialise(v);
    DeserialiseSerialise(w);
  }
}
