/** Reading string literals back, by the grammar of JSON. */
module JsonReading {
  import opened Wrappers
  import opened JsonText

  function HexValue(c: char): Option<int> {
    if '0' <= c <= '9' then Some(c as int - '0' as int)
    else if 'a' <= c <= 'f' then Some(c as int - 'a' as int + 10)
    else if 'A' <= c <= 'F' then Some(c as int - 'A' as int + 10)
    else None
  }

  /** One character of a string literal and how many characters stand for it, by section 7 of RFC 8259; surrogate
      escapes are not read. */
  function ReadChar(text: string): Option<(char, nat)> {
    if text == "" || text[0] == '"' || text[0] < ' ' then None
    else if text[0] != '\\' then Some((text[0], 1))
    else if |text| < 2 then None
    else
      match text[1]
      case '"' => Some(('"', 2))
      case '\\' => Some(('\\', 2))
      case '/' => Some(('/', 2))
      case 'b' => Some(('\U{0008}', 2))
      case 'f' => Some(('\U{000C}', 2))
      case 'n' => Some(('\n', 2))
      case 'r' => Some(('\r', 2))
      case 't' => Some(('\t', 2))
      case 'u' => if |text| < 6 then None else ReadHex(text[2..6])
      case _ => None
  }

  function ReadHex(digits: string): Option<(char, nat)>
    requires |digits| == 4
  {
    match (HexValue(digits[0]), HexValue(digits[1]), HexValue(digits[2]), HexValue(digits[3]))
    case (Some(a), Some(b), Some(c), Some(d)) =>
      var code := ((a * 16 + b) * 16 + c) * 16 + d;
      if 0 <= code < 0xD800 then Some((code as char, 6)) else None
    case _ => None
  }

  /** The characters up to the closing quote, and what follows it. */
  function ReadString(text: string): Option<(string, string)>
    decreases |text|
  {
    if text != "" && text[0] == '"' then Some(("", text[1..]))
    else
      match ReadChar(text)
      case Some((c, n)) =>
        if n == 0 || n > |text| then None
        else
          (match ReadString(text[n..])
           case Some((s, rest)) => Some(([c] + s, rest))
           case None => None)
      case None => None
  }

  lemma HexDigitReads(n: nat)
    requires n < 16
    ensures HexValue(HexDigit(n)) == Some(n)
  {
    var digits := "0123456789abcdef";
    assert forall i :: 0 <= i < 16 ==> digits[i] as int == if i < 10 then '0' as int + i else 'a' as int + i - 10;
  }

  lemma CharReadsBack(c: char, rest: string)
    ensures ReadChar(EscapeChar(c) + rest) == Some((c, |EscapeChar(c)|))
  {
    var escaped := EscapeChar(c);
    var text := escaped + rest;
    if |escaped| == 6 {
      HexDigitReads(c as int / 16);
      HexDigitReads(c as int % 16);
      assert text[2..6] == escaped[2..6];
    }
  }

  /** What is written for a string is read back as that string. */
  lemma {:induction false} StringReadsBack(s: string, rest: string)
    ensures ReadString(Escape(s) + "\"" + rest) == Some((s, rest))
  {
    var text := Escape(s) + "\"" + rest;
    if s == "" {
      assert text[1..] == rest;
    } else {
      var tail := Escape(s[1..]) + "\"" + rest;
      assert text == EscapeChar(s[0]) + tail;
      EscapeCharFacts(s[0]);
      CharReadsBack(s[0], tail);
      hide EscapeChar, ReadChar;
      assert text[|EscapeChar(s[0])|..] == tail;
      StringReadsBack(s[1..], rest);
      assert s == [s[0]] + s[1..];
    }
  }
}
