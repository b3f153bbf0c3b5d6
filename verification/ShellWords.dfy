/** Word splitting by the quoting rules of section 2.2 of the XCU volume of
    POSIX.1-2017: backslash, single quotes and double quotes; expansions are not
    modelled.  It is the reference both command printers are measured against. */
module ShellWords {
  import opened Text

  datatype Mode = Bare | Single | Double

  predicate IsDelimiter(c: char) {
    c == ' ' || c == '\t' || c == '\n'
  }

  /** Characters that mean something to the splitter outside quotes. */
  predicate IsSpecial(c: char) {
    IsDelimiter(c) || c == '\'' || c == '"' || c == '\\'
  }

  function Flush(words: seq<string>, cur: Option<string>): seq<string> {
    match cur case None => words case Some(w) => words + [w]
  }

  function Push(cur: Option<string>, s: string): Option<string> {
    match cur case None => Some(s) case Some(w) => Some(w + s)
  }

  /** Reads `s` in `mode`; `words` are finished, `cur` is the word being read.
      `None` for an unterminated quote or a trailing backslash. */
  function Scan(s: string, mode: Mode, words: seq<string>, cur: Option<string>): Option<seq<string>>
    decreases |s|
  {
    if s == "" then
      if mode.Bare? then Some(Flush(words, cur)) else None
    else match mode
      case Bare =>
        if IsDelimiter(s[0]) then Scan(s[1..], Bare, Flush(words, cur), None)
        else if s[0] == '\'' then Scan(s[1..], Single, words, Push(cur, ""))
        else if s[0] == '"' then Scan(s[1..], Double, words, Push(cur, ""))
        else if s[0] == '\\' then
          if |s| == 1 then None
          else if s[1] == '\n' then Scan(s[2..], Bare, words, cur)
          else Scan(s[2..], Bare, words, Push(cur, [s[1]]))
        else Scan(s[1..], Bare, words, Push(cur, [s[0]]))
      case Single =>
        if s[0] == '\'' then Scan(s[1..], Bare, words, cur)
        else Scan(s[1..], Single, words, Push(cur, [s[0]]))
      case Double =>
        if s[0] == '"' then Scan(s[1..], Bare, words, cur)
        else if s[0] == '\\' && |s| > 1 && s[1] in "$`\"\\\n" then
          if s[1] == '\n' then Scan(s[2..], Double, words, cur)
          else Scan(s[2..], Double, words, Push(cur, [s[1]]))
        else Scan(s[1..], Double, words, Push(cur, [s[0]]))
  }

  function SplitWords(s: string): Option<seq<string>> {
    Scan(s, Bare, [], None)
  }

  /** `text`, wherever it starts a word, is read as the word `word`. */
  ghost predicate Spells(text: string, word: string) {
    forall rest: string, words: seq<string> ::
      Scan(text + rest, Bare, words, None) == Scan(rest, Bare, words, Some(word))
  }

  /** Texts that spell words, separated by spaces, split into those words. */
  lemma {:induction false} SpelledWords(texts: seq<string>, argv: seq<string>, words: seq<string>)
    requires |texts| == |argv|
    requires forall i :: 0 <= i < |texts| ==> Spells(texts[i], argv[i])
    ensures Scan(Join(texts, ' '), Bare, words, None) == Some(words + argv)
  {
    if texts == [] {
      assert words + argv == words;
    } else if |texts| == 1 {
      assert texts[0] + "" == texts[0];
      assert Scan(texts[0] + "", Bare, words, None) == Scan("", Bare, words, Some(argv[0]));
      assert argv == [argv[0]];
    } else {
      var rest := Join(texts[1..], ' ');
      assert texts[0] + " " + rest == texts[0] + (" " + rest);
      assert Scan(texts[0] + (" " + rest), Bare, words, None) == Scan(" " + rest, Bare, words, Some(argv[0]));
      assert (" " + rest)[1..] == rest;
      SpelledWords(texts[1..], argv[1..], words + [argv[0]]);
      assert words + [argv[0]] + argv[1..] == words + argv;
    }
  }

  lemma {:induction false} ScanPlain(text: string, rest: string, words: seq<string>, cur: Option<string>)
    requires forall c :: c in text ==> !IsSpecial(c)
    ensures text != "" ==> Scan(text + rest, Bare, words, cur) == Scan(rest, Bare, words, Push(cur, text))
    decreases |text|
  {
    if text != "" {
      assert text[0] in text && (text + rest)[0] == text[0];
      assert (text + rest)[1..] == text[1..] + rest;
      ScanPlain(text[1..], rest, words, Push(cur, [text[0]]));
      assert [text[0]] + text[1..] == text;
      assert cur.Some? ==> cur.value + [text[0]] + text[1..] == cur.value + text;
      assert text[1..] == "" ==> text == [text[0]] && text[1..] + rest == rest;
    }
  }

  /** A nonempty text without special characters spells itself. */
  lemma PlainSpellsItself(text: string)
    requires text != "" && forall c :: c in text ==> !IsSpecial(c)
    ensures Spells(text, text)
  {
    forall rest: string, words: seq<string>
      ensures Scan(text + rest, Bare, words, None) == Scan(rest, Bare, words, Some(text))
    {
      ScanPlain(text, rest, words, None);
    }
  }

  /** Inside single quotes, a quote written as `patch` reads as a quote. */
  ghost predicate PatchesQuote(patch: string) {
    forall rest: string, words: seq<string>, w: string ::
      Scan(patch + rest, Single, words, Some(w)) == Scan(rest, Single, words, Some(w + "'"))
  }

  lemma {:induction false} ScanQuoted(s: string, patch: string, rest: string, words: seq<string>, w: string)
    requires PatchesQuote(patch)
    ensures Scan(ReplaceChar(s, '\'', patch) + "'" + rest, Single, words, Some(w))
         == Scan(rest, Bare, words, Some(w + s))
    decreases |s|
  {
    if s == "" {
      assert "" + "'" + rest == "'" + rest && ("'" + rest)[1..] == rest;
      assert w + "" == w;
    } else {
      var tail := ReplaceChar(s[1..], '\'', patch) + "'" + rest;
      var head := if s[0] == '\'' then patch else [s[0]];
      assert ReplaceChar(s, '\'', patch) + "'" + rest == head + tail;
      ScanQuoted(s[1..], patch, rest, words, w + [s[0]]);
      assert w + [s[0]] + s[1..] == w + s;
      if s[0] != '\'' {
        assert (head + tail)[1..] == tail;
      }
    }
  }

  /** Wrapping in single quotes with patched inner quotes spells the original. */
  lemma QuotedSpells(s: string, patch: string)
    requires PatchesQuote(patch)
    ensures Spells("'" + ReplaceChar(s, '\'', patch) + "'", s)
  {
    var text := "'" + ReplaceChar(s, '\'', patch) + "'";
    forall rest: string, words: seq<string>
      ensures Scan(text + rest, Bare, words, None) == Scan(rest, Bare, words, Some(s))
    {
      assert (text + rest)[1..] == ReplaceChar(s, '\'', patch) + "'" + rest;
      ScanQuoted(s, patch, rest, words, "");
      assert "" + s == s;
    }
  }

  lemma BackslashPatch(rest: string, words: seq<string>, w: string)
    ensures Scan("'\\''" + rest, Single, words, Some(w)) == Scan(rest, Single, words, Some(w + "'"))
  {
    var s1, s2 := "\\''" + rest, "'" + rest;
    assert ("'\\''" + rest)[1..] == s1 && s1[2..] == s2 && s2[1..] == rest;
    assert Scan(s1, Bare, words, Some(w)) == Scan(s2, Bare, words, Some(w + "'"));
    assert w + "'" + "" == w + "'";
  }

  lemma DoubleQuotePatch(rest: string, words: seq<string>, w: string)
    ensures Scan("'\"'\"'" + rest, Single, words, Some(w)) == Scan(rest, Single, words, Some(w + "'"))
  {
    var s1, s2, s3, s4 := "\"'\"'" + rest, "'\"'" + rest, "\"'" + rest, "'" + rest;
    assert ("'\"'\"'" + rest)[1..] == s1 && s1[1..] == s2 && s2[1..] == s3 && s3[1..] == s4 && s4[1..] == rest;
    assert w + "" == w && w + "'" + "" == w + "'";
    assert Scan(s1, Bare, words, Some(w)) == Scan(s2, Double, words, Some(w));
    assert Scan(s2, Double, words, Some(w)) == Scan(s3, Double, words, Some(w + "'"));
    assert Scan(s3, Double, words, Some(w + "'")) == Scan(s4, Bare, words, Some(w + "'"));
  }

  /** Both patches the code uses: `'\''` and `'"'"'`. */
  lemma Patches()
    ensures PatchesQuote("'\\''") && PatchesQuote("'\"'\"'")
  {
    forall rest: string, words: seq<string>, w: string
      ensures Scan("'\\''" + rest, Single, words, Some(w)) == Scan(rest, Single, words, Some(w + "'"))
      ensures Scan("'\"'\"'" + rest, Single, words, Some(w)) == Scan(rest, Single, words, Some(w + "'"))
    {
      BackslashPatch(rest, words, w);
      DoubleQuotePatch(rest, words, w);
    }
  }

  /** Without quotes and backslashes, words never hold a newline. */
  lemma {:induction false} UnquotedWordsAreLines(s: string, words: seq<string>, cur: Option<string>)
    requires forall c :: c in s ==> c !in "'\"\\"
    requires forall w :: w in words ==> '\n' !in w
    requires cur.Some? ==> '\n' !in cur.value
    ensures Scan(s, Bare, words, cur).Some?
    ensures forall w :: w in Scan(s, Bare, words, cur).value ==> '\n' !in w
    decreases |s|
  {
    if s != "" {
      if IsDelimiter(s[0]) {
        UnquotedWordsAreLines(s[1..], Flush(words, cur), None);
      } else {
        assert s[0] in s;
        UnquotedWordsAreLines(s[1..], words, Push(cur, [s[0]]));
      }
    }
  }
}
