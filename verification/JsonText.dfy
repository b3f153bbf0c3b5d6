/** Reading JSON strings back (RFC 8259, section 7). */
module JsonText {
  import opened Bundle
  import opened Text

  function HexDigit(c: char): (n: Option<nat>)
    ensures n.Some? ==> n.value < 16
  {
    if '0' <= c <= '9' then Some((c - '0') as nat)
    else if 'a' <= c <= 'f' then Some((c - 'a') as nat + 10)
    else if 'A' <= c <= 'F' then Some((c - 'A') as nat + 10)
    else None
  }

  /** The character of four hexadecimal digits; halves of surrogate pairs are not
      part of this model. */
  function CodePoint(h: string): Option<char>
    requires |h| == 4
  {
    if exists i :: 0 <= i < 4 && HexDigit(h[i]).None? then None
    else
      var n := HexDigit(h[0]).value * 4096 + HexDigit(h[1]).value * 256 + HexDigit(h[2]).value * 16
        + HexDigit(h[3]).value;
      if n < 0xD800 || 0xE000 <= n then Some(n as char) else None
  }

  /** What stands for a character after a backslash, other than `u`. */
  function ShortEscape(c: char): Option<char> {
    if c in "\"\\/" then Some(c)
    else if c == 'b' then Some(8 as char)
    else if c == 'f' then Some(12 as char)
    else if c == 'n' then Some('\n')
    else if c == 'r' then Some('\r')
    else if c == 't' then Some('\t')
    else None
  }

  function Prepend(c: Option<char>, s: Option<string>): Option<string> {
    if c.Some? && s.Some? then Some([c.value] + s.value) else None
  }

  /** The text between the quotes of a JSON string, read. */
  function Unescaped(t: string): Option<string> {
    if t == "" then Some("")
    else if t[0] != '\\' then
      if t[0] < ' ' || t[0] == '\"' then None else Prepend(Some(t[0]), Unescaped(t[1..]))
    else if |t| >= 6 && t[1] == 'u' then Prepend(CodePoint(t[2..6]), Unescaped(t[6..]))
    else if |t| >= 2 then Prepend(ShortEscape(t[1]), Unescaped(t[2..]))
    else None
  }

  lemma HexReadsBack(n: nat)
    ensures |Hex(n)| == 1 && HexDigit(Hex(n)[0]) == Some(n % 16)
  {
  }

  lemma FourDigits(n: nat)
    requires n < 65536
    ensures n / 4096 % 16 * 4096 + n / 256 % 16 * 256 + n / 16 % 16 * 16 + n % 16 == n
  {
    assert n / 256 == n / 16 / 16 && n / 4096 == n / 16 / 16 / 16;
    assert n / 4096 < 16;
  }

  lemma CodeReadsBack(c: char)
    requires c as nat < 65536
    ensures var h := Hex(c as nat / 4096) + Hex(c as nat / 256) + Hex(c as nat / 16) + Hex(c as nat);
      |h| == 4 && CodePoint(h) == Some(c)
  {
    var n := c as nat;
    FourDigits(n);
    HexReadsBack(n / 4096);
    HexReadsBack(n / 256);
    HexReadsBack(n / 16);
    HexReadsBack(n);
    hide Hex, HexDigit;
    var h := Hex(n / 4096) + Hex(n / 256) + Hex(n / 16) + Hex(n);
    assert h[0] == Hex(n / 4096)[0] && h[1] == Hex(n / 256)[0] && h[2] == Hex(n / 16)[0] && h[3] == Hex(n)[0];
  }

  lemma ShortReadsBack(c: char, rest: string)
    requires c in "\"\\\n\r\t"
    ensures Unescaped(JsonChar(c) + rest) == Prepend(Some(c), Unescaped(rest))
  {
    assert (JsonChar(c) + rest)[2..] == rest;
  }

  lemma LongReadsBack(c: char, rest: string)
    requires !Plain(c) && c !in "\"\\\n\r\t"
    ensures Unescaped(JsonChar(c) + rest) == Prepend(Some(c), Unescaped(rest))
  {
    var h := Hex(c as nat / 4096) + Hex(c as nat / 256) + Hex(c as nat / 16) + Hex(c as nat);
    CodeReadsBack(c);
    var t := JsonChar(c) + rest;
    assert JsonChar(c) == "\\u" + h;
    hide Hex, CodePoint, Plain, JsonChar;
    assert t[2..6] == h && t[6..] == rest;
  }

  lemma CharReadsBack(c: char, rest: string)
    ensures Unescaped(JsonChar(c) + rest) == Prepend(Some(c), Unescaped(rest))
  {
    if Plain(c) {
      assert JsonChar(c) == [c];
      hide JsonChar;
      assert ([c] + rest)[1..] == rest;
    } else if c in "\"\\\n\r\t" {
      ShortReadsBack(c, rest);
    } else {
      LongReadsBack(c, rest);
    }
  }

  /** Every text comes back from its JSON string. */
  lemma {:induction false} JsonReadsBack(s: string)
    ensures Unescaped(JsonBody(s)) == Some(s)
  {
    if s != "" {
      JsonReadsBack(s[1..]);
      CharReadsBack(s[0], JsonBody(s[1..]));
      hide JsonChar, Unescaped;
      assert [s[0]] + s[1..] == s;
    }
  }
}
