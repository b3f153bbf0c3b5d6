/** When the Link header is read as RFC 8288 reads it: the parameters of a link in
    the RFC's grammar, and what the code sees of them. */
module LinkParams {
  import opened KratosPages
  import opened LinkHeader
  import opened Text

  /** A parameter value as it is written. */
  datatype Value = Absent | Token(text: string) | Quoted(text: string)

  /** A parameter: its semicolon with the blanks around it, its name, its equals
      sign with the blanks around it (none without a value), and its value. */
  datatype Param = Param(open: string, name: string, eq: string, value: Value)

  function ValueText(v: Value): string {
    match v
    case Absent => ""
    case Token(t) => t
    case Quoted(t) => "\"" + t + "\""
  }

  function ParamText(p: Param): string {
    p.open + p.name + p.eq + ValueText(p.value)
  }

  function ParamsText(ps: seq<Param>): string {
    if ps == [] then "" else ParamText(ps[0]) + ParamsText(ps[1..])
  }

  /** The character with blanks around it. */
  predicate Around(s: string, c: char) {
    exists i :: 0 <= i < |s| && s[i] == c && Blank(s[..i]) && Blank(s[i + 1..])
  }

  /** A token of section 5.6.2 of RFC 9110. */
  predicate IsToken(s: string) {
    s != "" && forall i :: 0 <= i < |s| ==>
      '0' <= s[i] <= '9' || 'a' <= s[i] <= 'z' || 'A' <= s[i] <= 'Z' || s[i] in "!#$%&'*+-.^_`|~"
  }

  /** What may stand between the quotes: a quote or a backslash after a backslash. */
  predicate Quotable(s: string) {
    s == "" || (if s[0] == '\\' then |s| >= 2 && Quotable(s[2..]) else s[0] != '"' && Quotable(s[1..]))
  }

  function Unquote(s: string): string {
    if s == "" then ""
    else if s[0] == '\\' && |s| >= 2 then [s[1]] + Unquote(s[2..])
    else [s[0]] + Unquote(s[1..])
  }

  predicate IsValue(v: Value) {
    match v
    case Absent => true
    case Token(t) => IsToken(t)
    case Quoted(t) => Quotable(t)
  }

  predicate WellFormed(p: Param) {
    && Around(p.open, ';') && IsToken(p.name) && IsValue(p.value)
    && if p.value.Absent? then p.eq == "" else Around(p.eq, '=')
  }

  /** The link has these parameters, and blanks after them. */
  predicate HasParams(l: Link, ps: seq<Param>) {
    && Simple(l) && '"' !in l.uri
    && (forall i :: 0 <= i < |ps| ==> WellFormed(ps[i]))
    && ParamsText(ps) <= l.params && Blank(l.params[|ParamsText(ps)|..])
  }

  /** The position of the parameter `rel`, whose later occurrences are ignored. */
  function RelOf(ps: seq<Param>): (n: nat)
    ensures n <= |ps|
  {
    if ps == [] || Lower(ps[0].name) == "rel" then 0 else 1 + RelOf(ps[1..])
  }

  function Meaning(v: Value): string {
    match v
    case Absent => ""
    case Token(t) => t
    case Quoted(t) => Unquote(t)
  }

  /** The RFC's reading: `next` is among the relation types of `rel`, which are
      separated by spaces and compared without regard to case. */
  predicate NamesNext(ps: seq<Param>) {
    RelOf(ps) < |ps| && "next" in Split(Lower(Meaning(ps[RelOf(ps)].value)), ' ')
  }

  /** The parameter is written `rel="next"`, or with a longer name ending in `rel`. */
  predicate SpellsNext(p: Param) {
    |p.name| >= 3 && p.name[|p.name| - 3..] == "rel" && p.eq == "=" && p.value == Quoted("next")
  }

  /** Some parameter is so written, and none before it holds a comma. */
  predicate SpelledFirst(ps: seq<Param>) {
    ps != [] && (SpellsNext(ps[0]) || (',' !in ParamText(ps[0]) && SpelledFirst(ps[1..])))
  }

  predicate RelAt(s: string, i: int) {
    0 <= i <= |s| - 10 && s[i..i + 10] == REL
  }

  lemma HasRelAt(s: string)
    ensures HasRelNext(s) <==> exists i :: RelAt(s, i)
  {
    assert |REL| == 10;
    if HasRelNext(s) {
      var i :| 0 <= i <= |s| - |REL| && s[i..][..|REL|] == REL;
      assert RelAt(s, i);
    }
    if i :| RelAt(s, i) {
      assert s[i..][..|REL|] == REL;
    }
  }

  lemma RelChars(s: string, i: int)
    requires RelAt(s, i)
    ensures 0 <= i <= |s| - 10 && s[i + 3] == '=' && s[i + 4] == '"' && s[i + 8] == 't' && s[i + 9] == '"'
    ensures s[i + 5..i + 9] == "next" && s[i..i + 4] == "rel="
  {
    var t := s[i..i + 10];
    assert t[3] == s[i + 3] && t[4] == s[i + 4] && t[8] == s[i + 8] && t[9] == s[i + 9];
    assert REL[5..9] == "next" && REL[0..4] == "rel=";
    Slice(s, i, 5, 9);
    Slice(s, i, 0, 4);
  }

  lemma Slice(s: string, i: int, from: nat, to: nat)
    requires 0 <= i <= |s| - 10 && from <= to <= 10
    ensures s[i..i + 10][from..to] == s[i + from..i + to]
  {
    var t, u := s[i..i + 10][from..to], s[i + from..i + to];
    forall k | 0 <= k < to - from
      ensures t[k] == u[k]
    {
      assert t[k] == s[i..i + 10][from + k];
    }
    assert t == u;
  }

  lemma NoQuoteNoRel(s: string)
    requires '"' !in s
    ensures !HasRelNext(s)
  {
    HasRelAt(s);
    hide HasRelNext, RelAt;
    if i :| RelAt(s, i) {
      RelChars(s, i);
    }
  }

  lemma HasRelInPrefix(a: string, b: string)
    requires HasRelNext(a)
    ensures HasRelNext(a + b)
  {
    HasRelAt(a);
    HasRelAt(a + b);
    hide HasRelNext;
    var i :| RelAt(a, i);
    assert (a + b)[i..i + 10] == a[i..i + 10];
    assert RelAt(a + b, i);
  }

  /** The text sought holds no bracket, semicolon or blank. */
  predicate Separates(c: char) {
    c == '>' || c == ';' || c == ' ' || c == '\t'
  }

  lemma NoSeparatorInRel(k: nat)
    requires k < 10
    ensures !Separates(REL[k])
  {
  }

  lemma RelAtAround(a: string, c: char, b: string, i: int)
    requires Separates(c)
    ensures RelAt(a + [c] + b, i) <==> RelAt(a, i) || RelAt(b, i - |a| - 1)
  {
    hide Separates;
    var s, n := a + [c] + b, |a|;
    if 0 <= i <= |s| - 10 {
      if i + 10 <= n {
        assert s[i..i + 10] == a[i..i + 10];
      } else if i > n {
        assert s[i..i + 10] == b[i - n - 1..i - n - 1 + 10];
      } else {
        assert s[i..i + 10][n - i] == c;
        NoSeparatorInRel(n - i);
      }
    }
  }

  lemma HasRelAround(a: string, c: char, b: string)
    requires Separates(c)
    ensures HasRelNext(a + [c] + b) <==> HasRelNext(a) || HasRelNext(b)
  {
    HasRelAt(a);
    HasRelAt(b);
    HasRelAt(a + [c] + b);
    hide HasRelNext, RelAt, Separates;
    forall i
      ensures RelAt(a + [c] + b, i) <==> RelAt(a, i) || RelAt(b, i - |a| - 1)
    {
      RelAtAround(a, c, b, i);
    }
    if i :| RelAt(b, i) {
      assert i == (i + |a| + 1) - |a| - 1;
      RelAtAround(a, c, b, i + |a| + 1);
    }
  }

  /** Every quote stands behind a backslash. */
  predicate Escaped(t: string) {
    forall k :: 0 <= k < |t| && t[k] == '"' ==> k > 0 && t[k - 1] == '\\'
  }

  lemma {:induction false} QuotableIsEscaped(t: string)
    requires Quotable(t)
    ensures Escaped(t)
  {
    if t != "" {
      var n := if t[0] == '\\' then 2 else 1;
      QuotableIsEscaped(t[n..]);
      forall k | n <= k < |t| && t[k] == '"'
        ensures t[k - 1] == '\\'
      {
        assert t[n..][k - n] == t[k];
      }
    }
  }

  lemma OfAround(s: string, c: char)
    requires Around(s, c)
    ensures s != "" && forall i :: 0 <= i < |s| ==> s[i] == c || s[i] == ' ' || s[i] == '\t'
    ensures s[|s| - 1] == c && |s| >= 2 ==> Blank([s[|s| - 2]])
  {
    var i :| 0 <= i < |s| && s[i] == c && Blank(s[..i]) && Blank(s[i + 1..]);
    assert forall k :: 0 <= k < i ==> s[..i][k] == s[k];
    assert forall k :: i < k < |s| ==> s[i + 1..][k - i - 1] == s[k];
  }

  lemma TokenIsPlain(s: string)
    requires IsToken(s)
    ensures '"' !in s && ',' !in s
  {
  }

  function Front(p: Param): string {
    p.open + p.name + p.eq
  }

  /** No quote and no comma before the value of a parameter. */
  lemma PlainBeforeValue(p: Param)
    requires WellFormed(p)
    ensures '"' !in Front(p) && ',' !in Front(p)
  {
    TokenIsPlain(p.name);
    OfAround(p.open, ';');
    if !p.value.Absent? {
      OfAround(p.eq, '=');
    }
    hide IsToken, IsValue, Around;
  }

  /** The first quote of a match is the one that opens the value, and the second
      the one that closes it. */
  lemma MatchIsQuoted(front: string, t: string, i: int)
    requires RelAt(front + "\"" + t + "\"", i) && '"' !in front && Escaped(t)
    ensures i + 4 == |front| && t == "next"
  {
    var text, q := front + "\"" + t + "\"", |front|;
    RelChars(text, i);
    hide RelAt;
    assert forall k :: 0 <= k < q ==> text[k] == front[k] && front[k] != '"';
    assert forall k :: 0 <= k < |t| ==> text[q + 1 + k] == t[k];
    assert i + 4 == q;
    assert |t| == 4;
    assert t == text[i + 5..i + 9];
  }

  /** The text before the quote of a match ends in `rel=`. */
  lemma MatchIsName(p: Param, i: int)
    requires Around(p.open, ';') && Around(p.eq, '=')
    requires i + 4 == |Front(p)| && RelAt(ParamText(p), i)
    ensures p.eq == "=" && |p.name| >= 3 && p.name[|p.name| - 3..] == "rel"
  {
    MatchInFront(p, i);
    MatchIsEquals(p.open + p.name, p.eq);
    NameAtEnd(p.open, p.name);
  }

  lemma MatchInFront(p: Param, i: int)
    requires i + 4 == |Front(p)| && RelAt(ParamText(p), i)
    ensures Front(p)[i..] == "rel="
  {
    RelChars(ParamText(p), i);
    assert ParamText(p)[i..i + 4] == Front(p)[i..];
  }

  lemma MatchIsEquals(a: string, eq: string)
    requires Around(eq, '=') && |a + eq| >= 4 && (a + eq)[|a + eq| - 4..] == "rel="
    ensures eq == "=" && |a| >= 3 && a[|a| - 3..] == "rel"
  {
    OfAround(eq, '=');
    hide Around;
    var s := a + eq;
    assert forall k :: 0 <= k < 4 ==> s[|s| - 4 + k] == s[|s| - 4..][k] == "rel="[k];
    assert forall k :: 0 <= k < |eq| ==> s[|a| + k] == eq[k];
    assert s[|s| - 1] == eq[|eq| - 1] == '=' && s[|s| - 2] == 'l';
    assert |eq| == 1;
    assert a[|a| - 3..] == s[|s| - 4..][..3];
  }

  lemma NameAtEnd(open: string, name: string)
    requires Around(open, ';') && |open + name| >= 3 && (open + name)[|open + name| - 3..] == "rel"
    ensures |name| >= 3 && name[|name| - 3..] == "rel"
  {
    OfAround(open, ';');
    hide Around;
    var s := open + name;
    assert forall k :: 0 <= k < 3 ==> s[|s| - 3 + k] == s[|s| - 3..][k] == "rel"[k];
    assert open[|open| - 1] == s[|open| - 1];
    assert |name| >= 3;
  }

  lemma MatchIsSpelled(p: Param, i: int)
    requires WellFormed(p) && RelAt(ParamText(p), i)
    ensures SpellsNext(p)
  {
    PlainBeforeValue(p);
    match p.value
    case Quoted(t) =>
      QuotableIsEscaped(t);
      hide RelAt, Escaped, WellFormed;
      assert ParamText(p) == Front(p) + "\"" + t + "\"";
      MatchIsQuoted(Front(p), t, i);
      MatchIsName(p, i);
    case Token(t) =>
      TokenIsPlain(t);
      NoMatchUnquoted(p, i);
    case Absent =>
      NoMatchUnquoted(p, i);
  }

  lemma NoMatchUnquoted(p: Param, i: int)
    requires !p.value.Quoted? && '"' !in Front(p) && '"' !in ValueText(p.value)
    ensures !RelAt(ParamText(p), i)
  {
    assert ParamText(p) == Front(p) + ValueText(p.value);
    assert '"' !in ParamText(p);
    if RelAt(ParamText(p), i) {
      RelChars(ParamText(p), i);
    }
  }

  lemma SpelledMatches(p: Param)
    requires SpellsNext(p)
    ensures RelAt(ParamText(p), |Front(p)| - 4)
  {
    var n := |p.name| - 3;
    var a, b := p.open + p.name[..n], REL;
    assert p.name == p.name[..n] + "rel";
    assert ParamText(p) == a + b;
    RelBehind(a, b);
  }

  lemma RelBehind(a: string, b: string)
    requires b == REL
    ensures RelAt(a + b, |a|)
  {
    assert (a + b)[|a|..|a| + 10] == b;
  }

  lemma ParamSpells(p: Param)
    requires WellFormed(p)
    ensures HasRelNext(ParamText(p)) <==> SpellsNext(p)
  {
    HasRelAt(ParamText(p));
    hide *;
    if i :| RelAt(ParamText(p), i) {
      MatchIsSpelled(p, i);
    }
    if SpellsNext(p) {
      SpelledMatches(p);
    }
  }

  lemma SpelledHasNoComma(p: Param)
    requires WellFormed(p) && SpellsNext(p)
    ensures ',' !in ParamText(p)
  {
    PlainBeforeValue(p);
    hide WellFormed;
    assert ParamText(p) == Front(p) + "\"next\"";
  }

  lemma {:induction false} CutBehind(a: string, b: string)
    requires ',' !in a
    ensures Split(a + b, ',')[0] == a + Split(b, ',')[0]
  {
    if a == "" {
      assert a + b == b;
    } else {
      assert (a + b)[1..] == a[1..] + b;
      CutBehind(a[1..], b);
    }
  }

  lemma {:induction false} CutInside(a: string, b: string)
    requires ',' in a
    ensures Split(a + b, ',')[0] == Split(a, ',')[0]
  {
    assert (a + b)[1..] == a[1..] + b;
    if a[0] != ',' {
      CutInside(a[1..], b);
    }
  }

  lemma {:induction false} CutIsPrefix(s: string)
    ensures Split(s, ',')[0] <= s
  {
    if s != "" {
      CutIsPrefix(s[1..]);
    }
  }

  lemma HasRelBehind(a: string, b: string)
    requires b == "" || Separates(b[0])
    ensures HasRelNext(a + b) <==> HasRelNext(a) || HasRelNext(b)
  {
    if b == "" {
      NoQuoteNoRel(b);
      assert a + b == a;
    } else {
      HasRelAround(a, b[0], b[1..]);
      HasRelAround("", b[0], b[1..]);
      NoQuoteNoRel("");
      assert a + [b[0]] + b[1..] == a + b && "" + [b[0]] + b[1..] == b;
    }
  }

  /** Behind a parameter comes the end, a blank or a semicolon. */
  lemma FirstOfParams(ps: seq<Param>, trail: string)
    requires (forall i :: 0 <= i < |ps| ==> WellFormed(ps[i])) && Blank(trail)
    ensures var s := ParamsText(ps) + trail;
      s == "" || Separates(s[0])
  {
    if ps == [] {
      assert ParamsText(ps) + trail == trail;
    } else {
      OfAround(ps[0].open, ';');
      assert (ParamsText(ps) + trail)[0] == ps[0].open[0];
    }
  }

  /** The text before the first comma says `rel="next"` exactly when a parameter
      does that no comma precedes. */
  lemma {:induction false} CutSpells(ps: seq<Param>, trail: string)
    requires (forall i :: 0 <= i < |ps| ==> WellFormed(ps[i])) && Blank(trail)
    ensures HasRelNext(Split(ParamsText(ps) + trail, ',')[0]) <==> SpelledFirst(ps)
  {
    hide HasRelNext, Split, ParamText, WellFormed;
    if ps == [] {
      assert ParamsText(ps) + trail == trail;
      SplitFree(trail, ',');
      NoQuoteNoRel(trail);
    } else {
      var first, rest := ParamText(ps[0]), ParamsText(ps[1..]) + trail;
      assert ParamsText(ps) + trail == first + rest;
      CutSpells(ps[1..], trail);
      CutAfter(ps[0], ps[1..], trail);
    }
  }

  lemma CutAfter(p: Param, ps: seq<Param>, trail: string)
    requires WellFormed(p) && (forall i :: 0 <= i < |ps| ==> WellFormed(ps[i])) && Blank(trail)
    ensures var rest := ParamsText(ps) + trail;
      HasRelNext(Split(ParamText(p) + rest, ',')[0]) <==>
        SpellsNext(p) || (',' !in ParamText(p) && HasRelNext(Split(rest, ',')[0]))
  {
    var first, rest := ParamText(p), ParamsText(ps) + trail;
    FirstOfParams(ps, trail);
    ParamSpells(p);
    if SpellsNext(p) {
      SpelledHasNoComma(p);
    }
    hide *;
    if ',' in first {
      CutAtComma(first, rest);
    } else {
      CutBehindComma(first, rest);
    }
  }

  lemma CutAtComma(first: string, rest: string)
    requires ',' in first
    ensures HasRelNext(Split(first + rest, ',')[0]) ==> HasRelNext(first)
  {
    hide HasRelNext, Split;
    CutInside(first, rest);
    CutIsPrefix(first);
    var cut := Split(first, ',')[0];
    assert cut + first[|cut|..] == first;
    if HasRelNext(cut) {
      HasRelInPrefix(cut, first[|cut|..]);
    }
  }

  lemma CutBehindComma(first: string, rest: string)
    requires ',' !in first && (rest == "" || Separates(rest[0]))
    ensures HasRelNext(Split(first + rest, ',')[0]) <==> HasRelNext(first) || HasRelNext(Split(rest, ',')[0])
  {
    hide HasRelNext, Split, Blank;
    CutBehind(first, rest);
    CutIsPrefix(rest);
    HasRelBehind(first, Split(rest, ',')[0]);
  }

  /** A link in the grammar counts by its parameters. */
  lemma HeadSpells(l: Link, ps: seq<Param>)
    requires HasParams(l, ps)
    ensures HasRelNext(Head(l)) <==> SpelledFirst(ps)
  {
    hide HasRelNext, Split, WellFormed, ParamsText, SpelledFirst;
    var front, cut, n := l.lead + "<" + l.uri, Split(l.params, ',')[0], |ParamsText(ps)|;
    assert ParamsText(ps) + l.params[n..] == l.params;
    CutSpells(ps, l.params[n..]);
    NoQuoteNoRel(front);
    HasRelAround(front, '>', cut);
    assert Head(l) == front + ['>'] + cut;
  }

  /** Only the parameter `rel` is written `rel="next"`: no second `rel`, no longer
      name, is. */
  predicate Unmistaken(ps: seq<Param>) {
    forall i :: 0 <= i < |ps| && SpellsNext(ps[i]) ==> i == RelOf(ps)
  }

  lemma {:induction false} SpelledSomewhere(ps: seq<Param>) returns (n: nat)
    requires SpelledFirst(ps)
    ensures n < |ps| && SpellsNext(ps[n]) && forall i :: 0 <= i < n ==> ',' !in ParamText(ps[i])
  {
    hide SpellsNext, ParamText;
    if SpellsNext(ps[0]) {
      n := 0;
    } else {
      n := SpelledSomewhere(ps[1..]);
      n := n + 1;
    }
  }

  lemma {:induction false} SpelledAt(ps: seq<Param>, n: nat)
    requires n < |ps| && SpellsNext(ps[n]) && forall i :: 0 <= i < n ==> ',' !in ParamText(ps[i])
    ensures SpelledFirst(ps)
  {
    hide SpellsNext, ParamText;
    if n > 0 {
      assert ps[1..][n - 1] == ps[n];
      SpelledAt(ps[1..], n - 1);
    }
  }

  /** The RFC's reading of a value `"next"`. */
  lemma NextMeansNext()
    ensures "next" in Split(Lower(Meaning(Quoted("next"))), ' ')
  {
    hide Split;
    var s := "next";
    assert s[1..] == "ext" && "ext"[1..] == "xt" && "xt"[1..] == "t" && "t"[1..] == "";
    assert Unquote("t") == "t" && Unquote("xt") == "xt" && Unquote("ext") == "ext" && Unquote(s) == s;
    assert Lower(s) == s;
    SplitFree(s, ' ');
  }

  /** When the code's reading meets the RFC's: `rel` must be written
      `rel="next"`, and no parameter before it may hold a comma. */
  lemma ReadsAsTheRFC(ps: seq<Param>)
    requires Unmistaken(ps)
    ensures SpelledFirst(ps) <==>
      && NamesNext(ps) && SpellsNext(ps[RelOf(ps)])
      && forall i :: 0 <= i < RelOf(ps) ==> ',' !in ParamText(ps[i])
  {
    hide ParamText;
    if SpelledFirst(ps) {
      var n := SpelledSomewhere(ps);
      NextMeansNext();
    }
    if NamesNext(ps) && SpellsNext(ps[RelOf(ps)]) && forall i :: 0 <= i < RelOf(ps) ==> ',' !in ParamText(ps[i]) {
      SpelledAt(ps, RelOf(ps));
    }
  }

  /** By the RFC the link leads to a next page that can be asked for. */
  predicate Leads(l: Link, ps: seq<Param>, parses: string -> bool) {
    NamesNext(ps) && l.uri != "" && parses(l.uri)
  }

  predicate InGrammar(links: seq<Link>, pss: seq<seq<Param>>) {
    && |links| == |pss|
    && forall i :: 0 <= i < |links| ==> HasParams(links[i], pss[i]) && Unmistaken(pss[i])
  }

  /** For every header in the grammar, at its first link that leads on by the RFC:
      the code takes it exactly when it is written as above, and otherwise
      searches on behind it; a header without one has no next page. */
  lemma NextIsFirstLink(links: seq<Link>, pss: seq<seq<Param>>, parses: string -> bool, n: nat)
    requires links != [] && InGrammar(links, pss)
    requires n <= |links| && forall i :: 0 <= i < n ==> !Leads(links[i], pss[i], parses)
    requires n < |links| ==> Leads(links[n], pss[n], parses)
    ensures NextOf(PartsAt(Header(links), 0), parses) ==
      if n == |links| then None
      else if SpelledFirst(pss[n]) then Some(links[n].uri)
      else NextLink(links[n + 1..], parses)
  {
    hide PartsAt, NextOf, Header, NextLink, SpelledFirst, NamesNext, Unmistaken;
    NextIsExactly(links, parses);
    SkipsToFirst(links, pss, parses, n);
  }

  lemma {:induction false} SkipsToFirst(links: seq<Link>, pss: seq<seq<Param>>, parses: string -> bool, n: nat)
    requires InGrammar(links, pss)
    requires n <= |links| && forall i :: 0 <= i < n ==> !Leads(links[i], pss[i], parses)
    requires n < |links| ==> Leads(links[n], pss[n], parses)
    ensures NextLink(links, parses) ==
      if n == |links| then None
      else if SpelledFirst(pss[n]) then Some(links[n].uri)
      else NextLink(links[n + 1..], parses)
  {
    hide SpelledFirst, NamesNext, Unmistaken, HasRelNext, Head, HasParams;
    if links != [] {
      HeadSpells(links[0], pss[0]);
      if n > 0 {
        if SpelledFirst(pss[0]) {
          ReadsAsTheRFC(pss[0]);
        }
        SkipsToFirst(links[1..], pss[1..], parses, n - 1);
        assert n < |links| ==> links[1..][n..] == links[n + 1..];
      }
    }
  }

  function Usual(name: string, value: Value): Param {
    Param("; ", name, "=", value)
  }

  lemma UsualIsWellFormed(name: string, value: Value)
    requires IsToken(name) && IsValue(value) && !value.Absent?
    ensures WellFormed(Usual(name, value))
  {
    assert Around("; ", ';') by {
      assert "; "[0] == ';' && Blank("; "[..0]) && Blank("; "[1..]);
    }
    assert Around("=", '=') by {
      assert "="[0] == '=' && Blank("="[..0]) && Blank("="[1..]);
    }
  }

  /** A link that is not written as the code expects gives no next page. */
  lemma UnspelledIsLost(l: Link, ps: seq<Param>, parses: string -> bool)
    requires HasParams(l, ps) && !SpelledFirst(ps)
    ensures NextOf(PartsAt(Header([l]), 0), parses) == None
  {
    hide PartsAt, NextOf, SpelledFirst, HasRelNext, Head;
    HeadSpells(l, ps);
    NextIsExactly([l], parses);
    assert [l][1..] == [];
  }

  lemma UsualGrammar(l: Link, ps: seq<Param>)
    requires l.lead == "" && l.uri == "u" && l.params == ParamsText(ps) && '<' !in l.params && '>' !in l.params
    requires forall i :: 0 <= i < |ps| ==> WellFormed(ps[i])
    ensures HasParams(l, ps)
  {
    hide ParamsText, WellFormed;
    assert l.params[|l.params|..] == "";
  }

  lemma QuotedCommaText(title: Param, rel: Param)
    requires title == Usual("title", Quoted("a,b")) && rel == Usual("rel", Quoted("next"))
    ensures ParamsText([title, rel]) == "; title=\"a,b\"; rel=\"next\""
    ensures ',' in ParamText(title)
  {
    TitleText(title);
    RelText(rel);
    hide ParamText;
    assert [title, rel][1..] == [rel] && [rel][1..] == [];
    assert ParamsText([rel]) == ParamText(rel) + "" == ParamText(rel);
    assert ParamsText([title, rel]) == ParamText(title) + ParamText(rel);
    hide ParamsText, Usual;
    TwoTexts();
  }

  lemma TwoTexts()
    ensures "; title=\"a,b\"" + "; rel=\"next\"" == "; title=\"a,b\"; rel=\"next\""
  {
  }

  lemma TitleText(title: Param)
    requires title == Usual("title", Quoted("a,b"))
    ensures ParamText(title) == "; title=\"a,b\"" && ',' in ParamText(title)
  {
    assert ParamText(title) == "; title=\"a,b\"";
    assert ParamText(title)[10] == ',';
  }

  lemma RelText(rel: Param)
    requires rel == Usual("rel", Quoted("next"))
    ensures ParamText(rel) == "; rel=\"next\""
  {
    assert ParamText(rel) == "; rel=\"next\"";
  }

  lemma TokenText(rel: Param)
    requires rel == Usual("rel", Token("next"))
    ensures ParamsText([rel]) == "; rel=next"
  {
    assert [rel][1..] == [];
    assert ParamText(rel) == "; rel=next";
    hide ParamText;
  }

  lemma NoBrackets()
    ensures '<' !in "; title=\"a,b\"; rel=\"next\"" && '>' !in "; title=\"a,b\"; rel=\"next\""
    ensures '<' !in "; rel=next" && '>' !in "; rel=next"
  {
  }

  lemma UsualValues()
    ensures WellFormed(Usual("title", Quoted("a,b"))) && WellFormed(Usual("rel", Quoted("next")))
    ensures WellFormed(Usual("rel", Token("next")))
  {
    assert Quotable("a,b") && Quotable("next") && IsToken("rel") && IsToken("title") && IsToken("next");
    hide Quotable, IsToken, WellFormed;
    UsualIsWellFormed("title", Quoted("a,b"));
    UsualIsWellFormed("rel", Quoted("next"));
    UsualIsWellFormed("rel", Token("next"));
  }

  lemma LowerNames()
    ensures Lower("rel") == "rel" && Lower("next") == "next" && Lower("title") != "rel"
  {
    assert |Lower("title")| == 5;
  }

  lemma QuotedCommaLeads(title: Param, rel: Param)
    requires title == Usual("title", Quoted("a,b")) && rel == Usual("rel", Quoted("next"))
    ensures NamesNext([title, rel])
  {
    LowerNames();
    hide Lower, Split, Meaning;
    NextMeansNext();
    assert [title, rel][1..] == [rel] && RelOf([rel]) == 0;
  }

  lemma TokenLeads(rel: Param)
    requires rel == Usual("rel", Token("next"))
    ensures NamesNext([rel])
  {
    LowerNames();
    SplitFree("next", ' ');
    hide Lower, Split;
    assert RelOf([rel]) == 0 && Meaning([rel][0].value) == "next";
    assert ["next"][0] == "next";
  }

  /** A comma in a quoted parameter loses the next page: the header
      `<u>; title="a,b"; rel="next"` is one link that leads on by the RFC. */
  lemma QuotedCommaLosesNext(parses: string -> bool)
    ensures var l, ps := Link("", "u", "; title=\"a,b\"; rel=\"next\""),
        [Usual("title", Quoted("a,b")), Usual("rel", Quoted("next"))];
      && HasParams(l, ps) && NamesNext(ps) && NextOf(PartsAt(Header([l]), 0), parses) == None
  {
    var title, rel := Usual("title", Quoted("a,b")), Usual("rel", Quoted("next"));
    var l, ps := Link("", "u", "; title=\"a,b\"; rel=\"next\""), [title, rel];
    QuotedCommaText(title, rel);
    UsualValues();
    NoBrackets();
    hide ParamText, ParamsText, WellFormed, PartsAt, NextOf, HasParams, NamesNext;
    QuotedCommaLeads(title, rel);
    UsualGrammar(l, ps);
    UnspelledIsLost(l, ps, parses);
  }

  /** So does a `rel` without quotes: `<u>; rel=next`. */
  lemma TokenLosesNext(parses: string -> bool)
    ensures var l, ps := Link("", "u", "; rel=next"), [Usual("rel", Token("next"))];
      && HasParams(l, ps) && NamesNext(ps) && NextOf(PartsAt(Header([l]), 0), parses) == None
  {
    var rel := Usual("rel", Token("next"));
    var l, ps := Link("", "u", "; rel=next"), [rel];
    TokenText(rel);
    UsualValues();
    NoBrackets();
    hide ParamText, ParamsText, WellFormed, PartsAt, NextOf, HasParams, NamesNext;
    TokenLeads(rel);
    UsualGrammar(l, ps);
    UnspelledIsLost(l, ps, parses);
  }

  lemma LongerText(xrel: Param)
    requires xrel == Usual("xrel", Quoted("next"))
    ensures ParamsText([xrel]) == "; xrel=\"next\"" && SpelledFirst([xrel])
  {
    assert "xrel"[1..] == "rel";
    assert [xrel][1..] == [];
    assert ParamText(xrel) == "; xrel=\"next\"";
    hide ParamText;
  }

  lemma LongerIsWellFormed(xrel: Param)
    requires xrel == Usual("xrel", Quoted("next"))
    ensures WellFormed(xrel) && '<' !in "; xrel=\"next\"" && '>' !in "; xrel=\"next\""
  {
    assert IsToken("xrel") && Quotable("next");
    hide IsToken, Quotable, WellFormed;
    UsualIsWellFormed("xrel", Quoted("next"));
  }

  lemma LongerGrammar(xrel: Param)
    requires xrel == Usual("xrel", Quoted("next"))
    ensures HasParams(Link("", "u", "; xrel=\"next\""), [xrel]) && !NamesNext([xrel])
  {
    LongerIsWellFormed(xrel);
    LongerText(xrel);
    assert |Lower("xrel")| == 4;
    hide WellFormed, ParamsText, ParamText, Lower, SpelledFirst, HasParams;
    UsualGrammar(Link("", "u", "; xrel=\"next\""), [xrel]);
  }

  /** The other way round, a parameter whose name only ends in `rel` is taken for
      it: `<u>; xrel="next"` names no next page by the RFC. */
  lemma LongerNameIsTaken(parses: string -> bool)
    requires parses("u")
    ensures var l, ps := Link("", "u", "; xrel=\"next\""), [Usual("xrel", Quoted("next"))];
      && HasParams(l, ps) && !NamesNext(ps) && NextOf(PartsAt(Header([l]), 0), parses) == Some("u")
  {
    var l, ps := Link("", "u", "; xrel=\"next\""), [Usual("xrel", Quoted("next"))];
    LongerGrammar(ps[0]);
    LongerText(ps[0]);
    hide HasParams, NamesNext, PartsAt, NextOf, SpelledFirst, ParamsText, HasRelNext, Head;
    HeadSpells(l, ps);
    NextIsExactly([l], parses);
    assert HasRelNext(Head(l)) && l.uri == "u" && l.uri != "";
  }
}
