/** Strings as RFC 8259 reads them, section 7. */
module JsonStrings {
  import opened CanonicalJson
  import opened Options

  function HexValue(c: char): Option<nat> {
    if '0' <= c <= '9' then Some(c as int - '0' as int)
    else if 'a' <= c <= 'f' then Some(c as int - 'a' as int + 10)
    else if 'A' <= c <= 'F' then Some(c as int - 'A' as int + 10)
    else None
  }

  /** Four hexadecimal digits that stand for one character by themselves. */
  function HexChar(digits: string): Option<char>
    requires |digits| == 4
  {
    var (a, b, c, d) := (HexValue(digits[0]), HexValue(digits[1]), HexValue(digits[2]), HexValue(digits[3]));
    if a.None? || b.None? || c.None? || d.None? then None
    else
      var code := ((a.value * 16 + b.value) * 16 + c.value) * 16 + d.value;
      if code < 0xD800 || 0xE000 <= code < 0x1_0000 then Some(code as char) else None
  }

  /** The characters that a two-character escape sequence stands for. */
  function ShortEscape(c: char): Option<char> {
    match c
    case '\"' => Some('\"')
    case '\\' => Some('\\')
    case '/' => Some('/')
    case 'b' => Some('\U{0008}')
    case 'f' => Some('\U{000C}')
    case 'n' => Some('\U{000A}')
    case 'r' => Some('\U{000D}')
    case 't' => Some('\U{0009}')
    case _ => None
  }

  /** What stands between the quotation marks of a string; None if it is malformed. */
  function ReadChars(s: string): Option<string> {
    if s == "" then Some("")
    else if s[0] == '\\' then
      if |s| >= 6 && s[1] == 'u' then Before(HexChar(s[2..6]), ReadChars(s[6..]))
      else if |s| >= 2 then Before(ShortEscape(s[1]), ReadChars(s[2..]))
      else None
    else if s[0] == '\"' || s[0] < '\U{0020}' then None
    else Before(Some(s[0]), ReadChars(s[1..]))
  }

  function Before(c: Option<char>, rest: Option<string>): Option<string> {
    if c.None? || rest.None? then None else Some([c.value] + rest.value)
  }

  lemma EscapeIsRead(c: char, rest: string)
    ensures ReadChars(Escape(c) + rest) == Before(Some(c), ReadChars(rest))
  {
    var text := Escape(c) + rest;
    if |Escape(c)| == 6 {
      assert text[2..6] == ['0', '0', HexDigit(c as int / 16), HexDigit(c as int % 16)];
      assert text[6..] == rest;
      HexIsRead(c as int / 16);
      HexIsRead(c as int % 16);
    } else if |Escape(c)| == 2 {
      assert text[1] == Escape(c)[1];
      assert text[2..] == rest;
    } else {
      assert text[1..] == rest;
    }
  }

  lemma HexIsRead(n: nat)
    requires n < 16
    ensures HexValue(HexDigit(n)) == Some(n)
  {
  }

  /** A reader of JSON gets back exactly the string that was written. */
  lemma {:induction false} EscapedIsReadBack(s: string)
    ensures ReadChars(EscapeAll(s)) == Some(s)
    decreases s
  {
    if s != "" {
      EscapedIsReadBack(s[1..]);
      EscapeIsRead(s[0], EscapeAll(s[1..]));
      assert s == [s[0]] + s[1..];
    }
  }

  /** Nothing is escaped but the quotation mark, the reverse solidus and the control
      characters; in particular no character outside ASCII is. */
  lemma OnlyTheseAreEscaped(c: char)
    ensures Escape(c) == [c] <==> c != '\"' && c != '\\' && c as int >= 0x20
  {
  }
}
