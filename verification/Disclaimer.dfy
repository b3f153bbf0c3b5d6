/** Escaping of the operator's disclaimer (domain_disclaimer_apply.go): for a
    quoted string of a Sieve script, and for the HTML part of a mail. */
module Disclaimer {
  import opened Text

  /** `sieveEscape`. */
  function SieveEscape(s: string): string {
    ReplaceChar(ReplaceChar(ReplaceChar(ReplaceChar(s, '\\', "\\\\"), '"', "\\\""), '\n', "\\n"), '\r', "")
  }

  /** `htmlEscape`. */
  function HtmlEscape(s: string): string {
    ReplaceChar(ReplaceChar(ReplaceChar(ReplaceChar(s, '&', "&amp;"), '<', "&lt;"), '>', "&gt;"), '"', "&quot;")
  }

  function SieveChar(c: char): string {
    if c == '\\' then "\\\\" else if c == '"' then "\\\""
    else if c == '\n' then "\\n" else if c == '\r' then "" else [c]
  }

  function HtmlChar(c: char): string {
    if c == '&' then "&amp;" else if c == '<' then "&lt;" else if c == '>' then "&gt;"
    else if c == '"' then "&quot;" else [c]
  }

  /** What a mail shows for the text `s`: a line feed comes out as the letter n
      and a carriage return is dropped. */
  function Shown(s: string): string {
    if s == "" then ""
    else (if s[0] == '\n' then "n" else if s[0] == '\r' then "" else [s[0]]) + Shown(s[1..])
  }

  /** Section 2.4.2 of RFC 5228: the rest of a quoted string, up to its closing
      quote, and what follows it.  A backslash stands for the next character. */
  function ReadQuoted(s: string): Option<(string, string)> {
    if s == "" then None
    else if s[0] == '"' then Some(("", s[1..]))
    else if s[0] == '\\' then
      if |s| == 1 then None else Prepend(s[1], ReadQuoted(s[2..]))
    else Prepend(s[0], ReadQuoted(s[1..]))
  }

  function Prepend(c: char, r: Option<(string, string)>): Option<(string, string)> {
    match r case None => None case Some(p) => Some(([c] + p.0, p.1))
  }

  function HtmlUnescape(s: string): string {
    if s == "" then ""
    else if "&amp;" <= s then "&" + HtmlUnescape(s[5..])
    else if "&lt;" <= s then "<" + HtmlUnescape(s[4..])
    else if "&gt;" <= s then ">" + HtmlUnescape(s[4..])
    else if "&quot;" <= s then "\"" + HtmlUnescape(s[6..])
    else [s[0]] + HtmlUnescape(s[1..])
  }

  lemma {:induction false} ReplaceAppend(a: string, b: string, c: char, replacement: string)
    ensures ReplaceChar(a + b, c, replacement) == ReplaceChar(a, c, replacement) + ReplaceChar(b, c, replacement)
  {
    if a == "" {
      assert a + b == b;
    } else {
      assert (a + b)[1..] == a[1..] + b;
      ReplaceAppend(a[1..], b, c, replacement);
    }
  }

  lemma {:induction false} Untouched(s: string, c: char, replacement: string)
    requires c !in s
    ensures ReplaceChar(s, c, replacement) == s
  {
    if s != "" {
      Untouched(s[1..], c, replacement);
      assert s == [s[0]] + s[1..];
    }
  }

  lemma ReplaceOne(c: char, replacement: string)
    ensures ReplaceChar([c], c, replacement) == replacement
  {
    assert [c][1..] == "";
  }

  /** The replacements in order act on each character once: none rewrites what
      an earlier one produced. */
  lemma SieveIsPerCharacter(s: string)
    ensures SieveEscape("") == ""
    ensures s != "" ==> SieveEscape(s) == SieveChar(s[0]) + SieveEscape(s[1..])
  {
    if s != "" {
      var a, t := [s[0]], s[1..];
      assert s == a + t;
      SieveAppend(a, t);
      SieveOne(s[0]);
    }
  }

  lemma SieveAppend(a: string, b: string)
    ensures SieveEscape(a + b) == SieveEscape(a) + SieveEscape(b)
  {
    hide ReplaceChar;
    ReplaceAppend(a, b, '\\', "\\\\");
    var a1, b1 := ReplaceChar(a, '\\', "\\\\"), ReplaceChar(b, '\\', "\\\\");
    ReplaceAppend(a1, b1, '"', "\\\"");
    var a2, b2 := ReplaceChar(a1, '"', "\\\""), ReplaceChar(b1, '"', "\\\"");
    ReplaceAppend(a2, b2, '\n', "\\n");
    ReplaceAppend(ReplaceChar(a2, '\n', "\\n"), ReplaceChar(b2, '\n', "\\n"), '\r', "");
  }

  lemma SieveOne(c: char)
    ensures SieveEscape([c]) == SieveChar(c)
  {
    hide ReplaceChar;
    if c == '\\' {
      ReplaceOne(c, "\\\\");
      Untouched("\\\\", '"', "\\\"");
      Untouched("\\\\", '\n', "\\n");
      Untouched("\\\\", '\r', "");
    } else {
      Untouched([c], '\\', "\\\\");
      if c == '"' {
        ReplaceOne(c, "\\\"");
        Untouched("\\\"", '\n', "\\n");
        Untouched("\\\"", '\r', "");
      } else {
        Untouched([c], '"', "\\\"");
        if c == '\n' {
          ReplaceOne(c, "\\n");
          Untouched("\\n", '\r', "");
        } else {
          Untouched([c], '\n', "\\n");
          if c == '\r' {
            ReplaceOne(c, "");
          } else {
            Untouched([c], '\r', "");
          }
        }
      }
    }
  }

  lemma HtmlIsPerCharacter(s: string)
    ensures HtmlEscape("") == ""
    ensures s != "" ==> HtmlEscape(s) == HtmlChar(s[0]) + HtmlEscape(s[1..])
  {
    if s != "" {
      var a, t := [s[0]], s[1..];
      assert s == a + t;
      HtmlAppend(a, t);
      HtmlOne(s[0]);
    }
  }

  lemma HtmlAppend(a: string, b: string)
    ensures HtmlEscape(a + b) == HtmlEscape(a) + HtmlEscape(b)
  {
    hide ReplaceChar;
    ReplaceAppend(a, b, '&', "&amp;");
    var a1, b1 := ReplaceChar(a, '&', "&amp;"), ReplaceChar(b, '&', "&amp;");
    ReplaceAppend(a1, b1, '<', "&lt;");
    var a2, b2 := ReplaceChar(a1, '<', "&lt;"), ReplaceChar(b1, '<', "&lt;");
    ReplaceAppend(a2, b2, '>', "&gt;");
    ReplaceAppend(ReplaceChar(a2, '>', "&gt;"), ReplaceChar(b2, '>', "&gt;"), '"', "&quot;");
  }

  lemma HtmlOne(c: char)
    ensures HtmlEscape([c]) == HtmlChar(c)
  {
    hide ReplaceChar;
    if c == '&' {
      ReplaceOne(c, "&amp;");
      Untouched("&amp;", '<', "&lt;");
      Untouched("&amp;", '>', "&gt;");
      Untouched("&amp;", '"', "&quot;");
    } else {
      Untouched([c], '&', "&amp;");
      if c == '<' {
        ReplaceOne(c, "&lt;");
        Untouched("&lt;", '>', "&gt;");
        Untouched("&lt;", '"', "&quot;");
      } else {
        Untouched([c], '<', "&lt;");
        if c == '>' {
          ReplaceOne(c, "&gt;");
          Untouched("&gt;", '"', "&quot;");
        } else {
          Untouched([c], '>', "&gt;");
          if c == '"' {
            ReplaceOne(c, "&quot;");
          } else {
            Untouched([c], '"', "&quot;");
          }
        }
      }
    }
  }

  /** Whatever the text, it stays inside the quoted string it is written into:
      the string ends at the quote that follows it, and reads as what a mail
      shows. */
  lemma {:induction false} SieveReadsBack(s: string, rest: string)
    ensures ReadQuoted(SieveEscape(s) + "\"" + rest) == Some((Shown(s), rest))
  {
    SieveIsPerCharacter(s);
    hide SieveEscape;
    if s == "" {
      assert ("" + "\"" + rest)[1..] == rest;
    } else {
      SieveReadsBack(s[1..], rest);
      var head, tail := SieveChar(s[0]), SieveEscape(s[1..]) + "\"" + rest;
      assert SieveEscape(s) + "\"" + rest == head + tail;
      ReadHead(s[0], tail);
    }
  }

  lemma ReadHead(c: char, tail: string)
    requires ReadQuoted(tail).Some?
    ensures var r := ReadQuoted(tail).value;
      ReadQuoted(SieveChar(c) + tail) == Some(((if c == '\n' then "n" else if c == '\r' then "" else [c]) + r.0, r.1))
  {
    var r := ReadQuoted(tail).value;
    if c == '\r' {
      assert "" + tail == tail && "" + r.0 == r.0;
    } else if SieveChar(c) == [c] {
      ReadPlain(c, tail);
    } else {
      ReadEscaped(if c == '\n' then 'n' else c, tail);
    }
  }

  lemma ReadPlain(c: char, tail: string)
    requires ReadQuoted(tail).Some? && c != '"' && c != '\\'
    ensures ReadQuoted([c] + tail) == Some(([c] + ReadQuoted(tail).value.0, ReadQuoted(tail).value.1))
  {
    assert ([c] + tail)[1..] == tail;
  }

  lemma ReadEscaped(c: char, tail: string)
    requires ReadQuoted(tail).Some?
    ensures ReadQuoted(['\\', c] + tail) == Some(([c] + ReadQuoted(tail).value.0, ReadQuoted(tail).value.1))
  {
    assert (['\\', c] + tail)[2..] == tail;
  }

  /** The text comes back unchanged exactly when it has no line break. */
  lemma {:induction false} ShownUnchanged(s: string)
    ensures Shown(s) == s <==> '\n' !in s && '\r' !in s
    ensures |Shown(s)| <= |s|
  {
    if s != "" {
      ShownUnchanged(s[1..]);
      assert s == [s[0]] + s[1..];
      if s[0] != '\n' && s[0] != '\r' {
        assert Shown(s)[1..] == Shown(s[1..]);
      }
      if s[0] == '\n' {
        assert Shown(s)[0] == 'n';
      }
    }
  }

  /** Escaped HTML holds no markup character and unescapes to the text. */
  lemma {:induction false} HtmlReadsBack(s: string)
    ensures HtmlUnescape(HtmlEscape(s)) == s
    ensures forall c :: c in HtmlEscape(s) ==> c != '<' && c != '>' && c != '"'
  {
    HtmlIsPerCharacter(s);
    hide HtmlEscape;
    if s != "" {
      HtmlReadsBack(s[1..]);
      UnescapeHead(s[0], HtmlEscape(s[1..]));
      assert s == [s[0]] + s[1..];
    }
  }

  lemma UnescapeHead(c: char, tail: string)
    ensures HtmlUnescape(HtmlChar(c) + tail) == [c] + HtmlUnescape(tail)
    ensures forall d :: d in HtmlChar(c) ==> d != '<' && d != '>' && d != '"'
  {
    NoMarkupLeft(c);
    hide HtmlUnescape, HtmlChar;
    if HtmlChar(c) == [c] {
      UnescapePlain(c, tail);
    } else {
      UnescapeEntity(c, tail);
    }
  }

  lemma NoMarkupLeft(c: char)
    ensures forall d :: d in HtmlChar(c) ==> d != '<' && d != '>' && d != '"'
  {
  }

  lemma UnescapePlain(c: char, tail: string)
    requires HtmlChar(c) == [c]
    ensures HtmlUnescape([c] + tail) == [c] + HtmlUnescape(tail)
  {
    var s := [c] + tail;
    assert s[0] == c && c != '&' && s[1..] == tail;
    hide HtmlChar;
  }

  lemma UnescapeEntity(c: char, tail: string)
    requires HtmlChar(c) != [c]
    ensures HtmlUnescape(HtmlChar(c) + tail) == [c] + HtmlUnescape(tail)
  {
    var head := HtmlChar(c);
    var s := head + tail;
    assert s[|head|..] == tail && head <= s;
    assert s[0] == head[0] && s[1] == head[1] && s[2] == head[2];
  }

  lemma {:induction false} ShownEscapes(s: string)
    ensures Shown(HtmlEscape(s)) == HtmlEscape(Shown(s))
  {
    HtmlIsPerCharacter(s);
    HtmlIsPerCharacter(Shown(s));
    if s != "" {
      ShownEscapes(s[1..]);
      ShownHead(s[0], HtmlEscape(s[1..]));
      hide HtmlEscape;
      if s[0] == '\n' {
        assert Shown(s)[1..] == Shown(s[1..]);
      } else if s[0] != '\r' {
        assert Shown(s)[1..] == Shown(s[1..]);
      } else {
        assert Shown(s) == Shown(s[1..]);
      }
    }
  }

  lemma ShownHead(c: char, tail: string)
    ensures Shown(HtmlChar(c) + tail) ==
      (if c == '\n' then "n" else if c == '\r' then "" else HtmlChar(c)) + Shown(tail)
  {
    hide HtmlChar, Shown;
    ShownAppend(HtmlChar(c), tail);
    if c == '\n' || c == '\r' {
      BreakShown(c);
    } else {
      NoBreakAdded(c);
      ShownUnchanged(HtmlChar(c));
    }
  }

  lemma BreakShown(c: char)
    requires c == '\n' || c == '\r'
    ensures Shown(HtmlChar(c)) == if c == '\n' then "n" else ""
  {
    assert HtmlChar(c) == [c] && [c][1..] == "";
  }

  lemma NoBreakAdded(c: char)
    requires c != '\n' && c != '\r'
    ensures '\n' !in HtmlChar(c) && '\r' !in HtmlChar(c)
  {
  }

  lemma {:induction false} ShownAppend(a: string, b: string)
    ensures Shown(a + b) == Shown(a) + Shown(b)
  {
    if a == "" {
      assert a + b == b;
    } else {
      assert (a + b)[1..] == a[1..] + b;
      ShownAppend(a[1..], b);
    }
  }

  /** The HTML part, escaped twice, reads back and shows the same text as the
      plain part. */
  lemma HtmlPartReadsBack(s: string, rest: string)
    ensures ReadQuoted(SieveEscape(HtmlEscape(s)) + "\"" + rest) == Some((HtmlEscape(Shown(s)), rest))
    ensures HtmlUnescape(HtmlEscape(Shown(s))) == Shown(s)
  {
    SieveReadsBack(HtmlEscape(s), rest);
    ShownEscapes(s);
    HtmlReadsBack(Shown(s));
  }
}
