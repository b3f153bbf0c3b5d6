/** The quoting side of cron jobs: the metacharacter scan of
    internal/cronvalidate/cron.go and the ExecStart line of cron_apply.go. */
module CronCommand {
  import opened Text
  import opened ShellWords

  predicate IsMeta(c: char) {
    c in {'&', '|', ';', '$', '`', '(', ')', '<', '>', '\\', '\n', '\0', '{', '}', '*', '?'}
  }

  /** Where a reader of the command stands. */
  datatype Place = Outside | InSingle | InDouble | AfterBackslash

  function Advance(at: Place, c: char): Place {
    match at
    case Outside => if c == '\'' then InSingle else if c == '"' then InDouble else Outside
    case InSingle => if c == '\'' then Outside else InSingle
    case InDouble => if c == '"' then Outside else if c == '\\' then AfterBackslash else InDouble
    case AfterBackslash => InDouble
  }

  /** The place reached after the first `i` characters. */
  function PlaceAt(s: string, i: nat): Place
    requires i <= |s|
  {
    if i == 0 then Outside else Advance(PlaceAt(s, i - 1), s[i - 1])
  }

  predicate MetaOutsideQuotes(s: string) {
    exists i :: 0 <= i < |s| && PlaceAt(s, i) == Outside && IsMeta(s[i])
  }

  /** No metacharacter stands outside quotes among the first `i` characters. */
  ghost predicate CleanTo(s: string, i: nat) {
    forall j :: 0 <= j < i && j < |s| && PlaceAt(s, j) == Outside ==> !IsMeta(s[j])
  }

  lemma Read(s: string, i: nat)
    requires i < |s|
    ensures PlaceAt(s, i + 1) == Advance(PlaceAt(s, i), s[i])
    ensures CleanTo(s, i) && (PlaceAt(s, i) != Outside || !IsMeta(s[i])) ==> CleanTo(s, i + 1)
  {
  }

  lemma ReadAll(s: string, i: nat)
    ensures i >= |s| && CleanTo(s, i) ==> !MetaOutsideQuotes(s)
    ensures i >= |s| && CleanTo(s, i) ==> CleanTo(s, i + 1)
    ensures i < |s| && PlaceAt(s, i) == Outside && IsMeta(s[i]) ==> MetaOutsideQuotes(s)
  {
  }

  lemma AtStart(s: string)
    ensures PlaceAt(s, 0) == Outside && CleanTo(s, 0) && !IsMeta('\'') && !IsMeta('"')
  {
  }

  // What the automaton means: an unquoted stretch, a single-quoted part, a
  // double-quoted part, and an open quote at the end.

  lemma {:induction false} PlaceAcross(a: string, b: string, i: nat)
    requires PlaceAt(a, |a|) == Outside && i <= |b|
    ensures PlaceAt(a + b, |a| + i) == PlaceAt(b, i)
  {
    if i == 0 {
      PlacePrefix(a, b, |a|);
    } else {
      PlaceAcross(a, b, i - 1);
      assert (a + b)[|a| + i - 1] == b[i - 1];
    }
  }

  lemma {:induction false} PlacePrefix(a: string, b: string, i: nat)
    requires i <= |a|
    ensures PlaceAt(a + b, i) == PlaceAt(a, i)
  {
    if i > 0 {
      PlacePrefix(a, b, i - 1);
      assert (a + b)[i - 1] == a[i - 1];
    }
  }

  /** A text that ends outside quotes, then another one: either has a
      metacharacter outside quotes. */
  lemma MetaAcross(a: string, b: string)
    requires PlaceAt(a, |a|) == Outside
    ensures MetaOutsideQuotes(a + b) <==> MetaOutsideQuotes(a) || MetaOutsideQuotes(b)
    ensures PlaceAt(a + b, |a + b|) == PlaceAt(b, |b|)
  {
    hide PlaceAt, IsMeta;
    forall i | 0 <= i < |a|
      ensures PlaceAt(a + b, i) == PlaceAt(a, i) && (a + b)[i] == a[i]
    {
      PlacePrefix(a, b, i);
    }
    forall i | 0 <= i <= |b|
      ensures PlaceAt(a + b, |a| + i) == PlaceAt(b, i) && (i < |b| ==> (a + b)[|a| + i] == b[i])
    {
      PlaceAcross(a, b, i);
    }
    if i :| 0 <= i < |b| && PlaceAt(b, i) == Outside && IsMeta(b[i]) {
      assert PlaceAt(a + b, |a| + i) == Outside && IsMeta((a + b)[|a| + i]);
    }
    if i :| 0 <= i < |a + b| && PlaceAt(a + b, i) == Outside && IsMeta((a + b)[i]) {
      assert i >= |a| ==> PlaceAt(a + b, |a| + (i - |a|)) == PlaceAt(b, i - |a|);
    }
  }

  /** The inside of double quotes: no quote but after a backslash. */
  predicate Escaped(body: string) {
    body == "" ||
    if body[0] == '\\' then |body| >= 2 && Escaped(body[2..]) else body[0] != '"' && Escaped(body[1..])
  }

  lemma {:induction false} Unquoted(s: string, i: nat)
    requires '\'' !in s && '"' !in s && i <= |s|
    ensures PlaceAt(s, i) == Outside
  {
    if i > 0 {
      Unquoted(s, i - 1);
      assert s[i - 1] in s;
    }
  }

  lemma {:induction false} InsideSingle(s: string, i: nat)
    requires '\'' !in s && i <= |s|
    ensures PlaceAt("'" + s, i + 1) == InSingle
  {
    var t := "'" + s;
    assert PlaceAt(t, 1) == Advance(PlaceAt(t, 0), t[0]);
    if i > 0 {
      InsideSingle(s, i - 1);
      assert t[i] == s[i - 1] && s[i - 1] in s;
    }
  }

  lemma {:induction false} InsideDouble(t: string, from: nat, body: string)
    requires Escaped(body) && from + |body| <= |t| && t[from..from + |body|] == body
    requires from >= 1 && PlaceAt(t, from) == InDouble
    ensures PlaceAt(t, from + |body|) == InDouble
    ensures forall i :: from <= i <= from + |body| ==> PlaceAt(t, i) != Outside
    decreases |body|
  {
    if body != "" {
      var part := t[from..from + |body|];
      assert part[0] == t[from];
      assert PlaceAt(t, from + 1) == Advance(PlaceAt(t, from), t[from]);
      if body[0] == '\\' {
        assert PlaceAt(t, from + 2) == Advance(PlaceAt(t, from + 1), t[from + 1]);
        assert t[from + 2..from + |body|] == part[2..];
        InsideDouble(t, from + 2, body[2..]);
      } else {
        assert t[from + 1..from + |body|] == part[1..];
        InsideDouble(t, from + 1, body[1..]);
      }
    }
  }

  /** Outside quotes the sixteen metacharacters count; a quoted part, closed or
      not, hides whatever it holds. */
  lemma QuotesHide(text: string, single: string, double: string)
    requires '\'' !in text && '"' !in text && '\'' !in single && Escaped(double)
    ensures PlaceAt(text, |text|) == Outside
    ensures MetaOutsideQuotes(text) <==> exists i :: 0 <= i < |text| && text[i] in "&|;$`()<>\\\n\0{}*?"
    ensures PlaceAt("'" + single + "'", |single| + 2) == Outside && !MetaOutsideQuotes("'" + single + "'")
    ensures PlaceAt("\"" + double + "\"", |double| + 2) == Outside && !MetaOutsideQuotes("\"" + double + "\"")
    ensures !MetaOutsideQuotes("'" + single) && !MetaOutsideQuotes("\"" + double)
  {
    UnquotedText(text);
    SingleHides(single);
    DoubleHides(double);
    hide PlaceAt, MetaOutsideQuotes, Escaped;
  }

  lemma UnquotedText(text: string)
    requires '\'' !in text && '"' !in text
    ensures PlaceAt(text, |text|) == Outside
    ensures MetaOutsideQuotes(text) <==> exists i :: 0 <= i < |text| && text[i] in "&|;$`()<>\\\n\0{}*?"
  {
    forall i | 0 <= i <= |text|
      ensures PlaceAt(text, i) == Outside
    {
      Unquoted(text, i);
    }
    assert forall c :: IsMeta(c) <==> c in "&|;$`()<>\\\n\0{}*?";
    hide PlaceAt, IsMeta;
  }

  lemma SingleHides(s: string)
    requires '\'' !in s
    ensures PlaceAt("'" + s + "'", |s| + 2) == Outside && !MetaOutsideQuotes("'" + s + "'")
    ensures !MetaOutsideQuotes("'" + s)
  {
    var t := "'" + s;
    var closed := t + "'";
    assert PlaceAt(closed, |s| + 2) == Advance(PlaceAt(closed, |s| + 1), closed[|s| + 1]);
    hide PlaceAt;
    forall i | 1 <= i <= |s| + 1
      ensures PlaceAt(t, i) == InSingle && PlaceAt(closed, i) == InSingle
    {
      InsideSingle(s, i - 1);
      PlacePrefix(t, "'", i);
    }
    assert t[0] == '\'' && closed[0] == '\'';
  }

  lemma DoubleHides(s: string)
    requires Escaped(s)
    ensures PlaceAt("\"" + s + "\"", |s| + 2) == Outside && !MetaOutsideQuotes("\"" + s + "\"")
    ensures !MetaOutsideQuotes("\"" + s)
  {
    var t := "\"" + s;
    var closed := t + "\"";
    assert PlaceAt(t, 1) == Advance(PlaceAt(t, 0), t[0]);
    assert PlaceAt(closed, 1) == Advance(PlaceAt(closed, 0), closed[0]);
    assert t[1..1 + |s|] == s && closed[1..1 + |s|] == s;
    InsideDouble(t, 1, s);
    InsideDouble(closed, 1, s);
    assert PlaceAt(closed, |s| + 2) == Advance(PlaceAt(closed, |s| + 1), closed[|s| + 1]);
    hide PlaceAt;
    assert t[0] == '"' && closed[0] == '"';
  }

  /** `hasUnquotedMetachar` answers exactly what the quote automaton says. */
  method HasUnquotedMetachar(s: string) returns (found: bool)
    ensures found <==> MetaOutsideQuotes(s)
  {
    hide PlaceAt, IsMeta, CleanTo, MetaOutsideQuotes;
    AtStart(s);
    var i := 0;
    while i < |s|
      invariant 0 <= i && CleanTo(s, i)
      invariant i <= |s| ==> PlaceAt(s, i) == Outside
    {
      var ch := s[i];
      Read(s, i);
      if ch == '\'' {
        i := i + 1;
        while i < |s| && s[i] != '\''
          invariant i <= |s| && PlaceAt(s, i) == InSingle && CleanTo(s, i)
        {
          Read(s, i);
          i := i + 1;
        }
        if i < |s| {
          Read(s, i);
        }
        ReadAll(s, i);
        i := i + 1;
        continue;
      }
      if ch == '"' {
        i := i + 1;
        while i < |s| && s[i] != '"'
          invariant i <= |s| && CleanTo(s, i) && (i < |s| ==> PlaceAt(s, i) == InDouble)
        {
          Read(s, i);
          if s[i] == '\\' && i + 1 < |s| {
            i := i + 1;
            Read(s, i);
          }
          i := i + 1;
        }
        if i < |s| {
          Read(s, i);
        }
        ReadAll(s, i);
        i := i + 1;
        continue;
      }
      if IsMeta(ch) {
        ReadAll(s, i);
        return true;
      }
      i := i + 1;
    }
    ReadAll(s, i);
    return false;
  }

  /** `singleQuote`. */
  function SingleQuote(s: string): string {
    "'" + ReplaceChar(s, '\'', "'\\''") + "'"
  }

  function Quoted(argv: seq<string>): (words: seq<string>)
    ensures |words| == |argv|
  {
    seq(|argv|, i requires 0 <= i < |argv| => SingleQuote(argv[i]))
  }

  /** A docroot owns an argument: equal, or a parent directory of it. */
  predicate OwnsArg(docroot: string, arg: string) {
    arg == docroot || docroot + "/" <= arg
  }

  /** The first docroot owning `arg`, "" when there is none. */
  function FirstOwner(docroots: seq<string>, arg: string): string {
    if docroots == [] then "" else if OwnsArg(docroots[0], arg) then docroots[0] else FirstOwner(docroots[1..], arg)
  }

  /** The docroot guarded by ExecStartPre. */
  function GuardedDocroot(args: seq<string>, docroots: seq<string>): string {
    if args == [] then ""
    else
      var owner := if "/" <= args[0] then FirstOwner(docroots, args[0]) else "";
      if owner != "" then owner else GuardedDocroot(args[1..], docroots)
  }

  /** `d` is the first docroot that is `arg` or a parent directory of it. */
  ghost predicate OwnerOf(docroots: seq<string>, arg: string, d: string) {
    exists k :: IsFirstOwner(docroots, arg, k) && docroots[k] == d
  }

  predicate IsFirstOwner(docroots: seq<string>, arg: string, k: int) {
    && 0 <= k < |docroots| && (arg == docroots[k] || docroots[k] + "/" <= arg)
    && forall j :: 0 <= j < k ==> arg != docroots[j] && !(docroots[j] + "/" <= arg)
  }

  lemma OwnerLater(docroots: seq<string>, arg: string, d: string)
    requires docroots != [] && !OwnsArg(docroots[0], arg)
    ensures OwnerOf(docroots, arg, d) <==> OwnerOf(docroots[1..], arg, d)
  {
    assert forall k :: 0 <= k < |docroots[1..]| ==> docroots[1..][k] == docroots[k + 1];
    if k :| IsFirstOwner(docroots, arg, k) && docroots[k] == d {
      assert IsFirstOwner(docroots[1..], arg, k - 1);
    }
    if k :| IsFirstOwner(docroots[1..], arg, k) && docroots[1..][k] == d {
      assert IsFirstOwner(docroots, arg, k + 1);
    }
  }

  lemma {:induction false} FirstOwnerIs(docroots: seq<string>, arg: string)
    ensures forall d :: d != "" ==> (FirstOwner(docroots, arg) == d <==> OwnerOf(docroots, arg, d))
  {
    if docroots != [] && !OwnsArg(docroots[0], arg) {
      FirstOwnerIs(docroots[1..], arg);
      forall d
        ensures OwnerOf(docroots, arg, d) <==> OwnerOf(docroots[1..], arg, d)
      {
        OwnerLater(docroots, arg, d);
      }
      hide OwnerOf;
    } else if docroots != [] {
      assert IsFirstOwner(docroots, arg, 0);
      assert forall k :: IsFirstOwner(docroots, arg, k) ==> k == 0;
    }
  }

  /** `d` owns argument `i`, the first absolute one that has an owner. */
  ghost predicate IsGuarded(args: seq<string>, docroots: seq<string>, d: string, i: int) {
    && 0 <= i < |args| && "/" <= args[i] && OwnerOf(docroots, args[i], d)
    && forall j :: 0 <= j < i ==> Unowned(docroots, args[j])
  }

  ghost predicate Unowned(docroots: seq<string>, arg: string) {
    "/" <= arg ==> forall d :: d != "" ==> !OwnerOf(docroots, arg, d)
  }

  /** The docroot guarded is the first owner of the first absolute argument that
      has one, if any has. */
  lemma {:induction false} GuardIs(args: seq<string>, docroots: seq<string>, d: string)
    requires d != ""
    ensures GuardedDocroot(args, docroots) == d <==> exists i :: IsGuarded(args, docroots, d, i)
  {
    if args != [] {
      FirstOwnerIs(docroots, args[0]);
      GuardIs(args[1..], docroots, d);
      hide FirstOwner, OwnerOf;
      var owner := if "/" <= args[0] then FirstOwner(docroots, args[0]) else "";
      if owner == "" {
        assert Unowned(docroots, args[0]);
        forall i
          ensures IsGuarded(args[1..], docroots, d, i) <==> IsGuarded(args, docroots, d, i + 1)
        {
          assert forall j :: 0 <= j < |args[1..]| ==> args[1..][j] == args[j + 1];
        }
        if i :| IsGuarded(args, docroots, d, i) {
          assert IsGuarded(args[1..], docroots, d, i - 1) <==> IsGuarded(args, docroots, d, i - 1 + 1);
        }
      } else {
        assert OwnerOf(docroots, args[0], owner);
        assert forall i :: IsGuarded(args, docroots, d, i) ==> i == 0;
        assert IsGuarded(args, docroots, owner, 0);
      }
    }
  }

  /** The ExecStart and ExecStartPre lines of `buildCronServiceContent`. */
  method BuildExecLines(argv: seq<string>, docroots: seq<string>) returns (execStart: string, execStartPre: string)
    requires argv != []
    ensures execStart == "ExecStart=" + Join(Quoted(argv), ' ')
    ensures execStartPre ==
      var docroot := GuardedDocroot(argv[1..], docroots);
      if docroot == "" then ""
      else "ExecStartPre=/usr/local/libexec/jabali/cron-precheck " + SingleQuote(docroot) + "\n"
  {
    assert "ExecStart=" + Join(Quoted(argv)[..0], ' ') == "ExecStart=";
    execStart := "ExecStart=";
    hide SingleQuote, Join, Quoted, GuardedDocroot;
    for i := 0 to |argv|
      invariant execStart == "ExecStart=" + Join(Quoted(argv)[..i], ' ')
    {
      QuotedStep("ExecStart=", argv, i);
      if i > 0 {
        execStart := execStart + " ";
      }
      execStart := execStart + SingleQuote(argv[i]);
    }
    assert Quoted(argv)[..|argv|] == Quoted(argv);
    var docroot := FindGuard(argv[1..], docroots);
    execStartPre := "";
    if docroot != "" {
      execStartPre := "ExecStartPre=/usr/local/libexec/jabali/cron-precheck " + SingleQuote(docroot) + "\n";
    }
  }

  /** The search of the docroot, by argument and then by docroot. */
  method FindGuard(args: seq<string>, docroots: seq<string>) returns (docroot: string)
    ensures docroot == GuardedDocroot(args, docroots)
  {
    docroot := "";
    var n := 0;
    while n < |args|
      invariant n <= |args| && docroot == ""
      invariant GuardedDocroot(args, docroots) == GuardedDocroot(args[n..], docroots)
    {
      var arg := args[n];
      if "/" <= arg {
        var k := 0;
        while k < |docroots|
          invariant k <= |docroots| && docroot == ""
          invariant FirstOwner(docroots, arg) == FirstOwner(docroots[k..], arg)
        {
          if arg == docroots[k] || docroots[k] + "/" <= arg {
            docroot := docroots[k];
            break;
          }
          k := k + 1;
        }
        if docroot != "" {
          break;
        }
      }
      n := n + 1;
    }
  }

  lemma QuotedStep(text: string, argv: seq<string>, i: nat)
    requires i < |argv|
    ensures text + Join(Quoted(argv)[..i + 1], ' ') ==
      if i == 0 then text + Join(Quoted(argv)[..i], ' ') + SingleQuote(argv[i])
      else text + Join(Quoted(argv)[..i], ' ') + " " + SingleQuote(argv[i])
  {
    hide SingleQuote;
    var last := [SingleQuote(argv[i])];
    assert Quoted(argv)[..i + 1] == Quoted(argv)[..i] + last;
    assert Join(last, ' ') == SingleQuote(argv[i]);
    if i > 0 {
      JoinAppend(Quoted(argv)[..i], last, ' ');
      Associate(text, Join(Quoted(argv)[..i], ' '), SingleQuote(argv[i]));
    }
  }

  lemma Associate(a: string, b: string, c: string)
    ensures a + (b + [' '] + c) == a + b + " " + c
  {
  }

  /** Splitting the ExecStart value gives the argv back, for every argv. */
  lemma ExecStartRoundTrip(argv: seq<string>)
    ensures SplitWords(Join(Quoted(argv), ' ')) == Some(argv)
  {
    Patches();
    forall i | 0 <= i < |argv|
      ensures Spells(Quoted(argv)[i], argv[i])
    {
      QuotedSpells(argv[i], "'\\''");
    }
    SpelledWords(Quoted(argv), argv, []);
    assert [] + argv == argv;
  }
}
