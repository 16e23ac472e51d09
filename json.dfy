/**
 * The string quoting `encoding/json` applies when it marshals a string
 * field with HTML escaping on (the default of `json.Marshal`): `"` and `\`
 * get a backslash, the control characters with short escapes use them,
 * the other control characters and `<`, `>`, `&` become `\u00XX`, and the
 * separators U+2028 and U+2029 become the six-character escapes for those code points.
 */
module Json {
  import Hex

  /** A character written as itself. */
  predicate Plain(c: char) {
    if c < 0x80 as char then
      0x20 as char <= c && c != '"' && c != '\\' && c != '<' && c != '>' && c != '&'
    else c != 0x2028 as char && c != 0x2029 as char
  }

  function EscapeChar(c: char): (s: string)
    ensures Plain(c) ==> s == [c]
    ensures !Plain(c) ==> |s| >= 2 && s[0] == '\\'
  {
    if Plain(c) then [c]
    else if c == '"' || c == '\\' then ['\\', c]
    else if c == 0x08 as char then "\\b"
    else if c == 0x0C as char then "\\f"
    else if c == '\n' then "\\n"
    else if c == '\r' then "\\r"
    else if c == '\t' then "\\t"
    else if c == 0x2028 as char then "\\u2028"
    else if c == 0x2029 as char then "\\u2029"
    else
      var b := c as int as bv8;
      "\\u00" + [Hex.LowerDigits[(b >> 4) as int], Hex.LowerDigits[(b & 0xF) as int]]
  }

  function Escape(s: string): (e: string)
    ensures |e| >= |s|
  {
    if s == [] then "" else EscapeChar(s[0]) + Escape(s[1..])
  }

  /** A quoted JSON string. */
  function Quote(s: string): (q: string)
    ensures |q| >= 2 && q[0] == '"' && q[|q| - 1] == '"'
  {
    "\"" + Escape(s) + "\""
  }

  /** Text made only of plain characters is quoted unchanged. */
  lemma {:induction false} QuotePlain(s: string)
    requires forall k :: 0 <= k < |s| ==> Plain(s[k])
    ensures Quote(s) == "\"" + s + "\""
    ensures Escape(s) == s
  {
    if s != [] {
      QuotePlain(s[1..]);
    }
  }
}
