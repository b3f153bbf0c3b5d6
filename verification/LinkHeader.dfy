/** The Link header that leads to the next page of identities
    (`parseNextPageToken` in internal/kratosclient/admin.go), beside the links of
    section 3 of RFC 8288. */
module LinkHeader {
  import opened Text

  /** The parts between the commas at depth 0; `<` and `>` change the depth. */
  function PartsAt(s: string, depth: int): (parts: seq<string>)
    ensures parts != []
  {
    if s == "" then [""]
    else if s[0] == ',' && depth == 0 then [""] + PartsAt(s[1..], depth)
    else
      var rest := PartsAt(s[1..], depth + (if s[0] == '<' then 1 else if s[0] == '>' then -1 else 0));
      [[s[0]] + rest[0]] + rest[1..]
  }

  function Glue(head: string, parts: seq<string>): seq<string>
    requires parts != []
  {
    [head + parts[0]] + parts[1..]
  }

  lemma GlueNothing(parts: seq<string>)
    requires parts != []
    ensures Glue("", parts) == parts
  {
    assert "" + parts[0] == parts[0];
  }

  /** The parts found so far, the one that is open, and the parts of the rest. */
  function Whole(out: seq<string>, s: string, start: nat, i: nat, depth: int): seq<string>
    requires start <= i <= |s|
  {
    out + Glue(s[start..i], PartsAt(s[i..], depth))
  }

  /** `splitCSV`. */
  method SplitCSV(s: string) returns (out: seq<string>)
    ensures out == PartsAt(s, 0)
  {
    out := [];
    var depth, start := 0, 0;
    WholeStart(s);
    hide PartsAt, Whole;
    for i := 0 to |s|
      invariant 0 <= start <= i
      invariant Whole(out, s, start, i, depth) == PartsAt(s, 0)
    {
      WholeStep(out, s, start, i, depth);
      if s[i] == '<' {
        depth := depth + 1;
      } else if s[i] == '>' {
        depth := depth - 1;
      } else if s[i] == ',' && depth == 0 {
        out := out + [s[start..i]];
        start := i + 1;
      }
    }
    WholeEnd(out, s, start, depth);
    out := out + [s[start..]];
  }

  lemma WholeStart(s: string)
    ensures Whole([], s, 0, 0, 0) == PartsAt(s, 0)
  {
    assert s[0..0] == "" && s[0..] == s;
    GlueNothing(PartsAt(s, 0));
  }

  lemma WholeStep(out: seq<string>, s: string, start: nat, i: nat, depth: int)
    requires start <= i < |s|
    ensures Whole(out, s, start, i, depth) ==
      if s[i] == ',' && depth == 0 then Whole(out + [s[start..i]], s, i + 1, i + 1, depth)
      else Whole(out, s, start, i + 1, depth + (if s[i] == '<' then 1 else if s[i] == '>' then -1 else 0))
  {
    PartsStep(s, start, i, depth);
    hide PartsAt, Glue;
    if s[i] == ',' && depth == 0 {
      var rest := PartsAt(s[i + 1..], depth);
      GlueNothing(rest);
      assert s[i + 1..i + 1] == "";
      Associate(out, [s[start..i]], rest);
    }
  }

  lemma Associate(a: seq<string>, b: seq<string>, c: seq<string>)
    ensures a + (b + c) == (a + b) + c
  {
  }

  lemma WholeEnd(out: seq<string>, s: string, start: nat, depth: int)
    requires start <= |s|
    ensures Whole(out, s, start, |s|, depth) == out + [s[start..]]
  {
    PartsEnd(s, start, depth);
    hide PartsAt, Glue;
  }

  lemma PartsStep(s: string, start: nat, i: nat, depth: int)
    requires start <= i < |s|
    ensures Glue(s[start..i], PartsAt(s[i..], depth)) ==
      if s[i] == ',' && depth == 0 then [s[start..i]] + PartsAt(s[i + 1..], depth)
      else Glue(s[start..i + 1], PartsAt(s[i + 1..],
          depth + (if s[i] == '<' then 1 else if s[i] == '>' then -1 else 0)))
  {
    assert s[i..][0] == s[i] && s[i..][1..] == s[i + 1..];
    assert s[start..i] + "" == s[start..i];
    var next := PartsAt(s[i + 1..], depth + (if s[i] == '<' then 1 else if s[i] == '>' then -1 else 0));
    assert s[start..i] + ([s[i]] + next[0]) == s[start..i + 1] + next[0];
  }

  lemma PartsEnd(s: string, start: nat, depth: int)
    requires start <= |s|
    ensures Glue(s[start..|s|], PartsAt(s[|s|..], depth)) == [s[start..]]
  {
    assert s[|s|..] == "" && s[start..|s|] + "" == s[start..];
  }

  const REL := "rel=\"next\""

  predicate HasRelNext(part: string) {
    Contains(part, REL)
  }

  function IndexOf(s: string, c: char): (n: nat)
    ensures n <= |s| && (n < |s| <==> c in s) && (n < |s| ==> s[n] == c)
    ensures c !in s[..n]
  {
    if s == "" || s[0] == c then 0 else 1 + IndexOf(s[1..], c)
  }

  /** `extractURL`. */
  function ExtractURL(part: string): string {
    var start, end := IndexOf(part, '<'), IndexOf(part, '>');
    if start == |part| || end == |part| || end <= start + 1 then "" else part[start + 1..end]
  }

  /** The first part with `rel="next"` and a URL that can be parsed. */
  function NextOf(parts: seq<string>, parses: string -> bool): Option<string> {
    if parts == [] then None
    else if HasRelNext(parts[0]) && ExtractURL(parts[0]) != "" && parses(ExtractURL(parts[0]))
    then Some(ExtractURL(parts[0]))
    else NextOf(parts[1..], parses)
  }

  /** `parseNextPageToken`; `parses` and `token` stand for the URL package. */
  method ParseNextPageToken(header: string, parses: string -> bool, token: string -> string) returns (r: string)
    ensures r == match NextOf(PartsAt(header, 0), parses) case None => "" case Some(u) => token(u)
  {
    if header == "" {
      assert !HasRelNext("");
      return "";
    }
    var parts := SplitCSV(header);
    for i := 0 to |parts|
      invariant NextOf(parts[i..], parses) == NextOf(parts, parses)
    {
      assert parts[i..][0] == parts[i] && parts[i..][1..] == parts[i + 1..];
      if !HasRelNext(parts[i]) {
        continue;
      }
      var u := ExtractURL(parts[i]);
      if u == "" || !parses(u) {
        continue;
      }
      return token(u);
    }
    r := "";
  }

  /** A list element of the header: the blanks before a link, its URI reference,
      and the text of its parameters up to the separating comma. */
  datatype Link = Link(lead: string, uri: string, params: string)

  function LinkText(l: Link): string {
    l.lead + "<" + l.uri + ">" + l.params
  }

  /** The links as a header, a comma between them. */
  function Header(links: seq<Link>): string
    requires links != []
  {
    if |links| == 1 then LinkText(links[0]) else LinkText(links[0]) + "," + Header(links[1..])
  }

  predicate Blank(s: string) {
    forall i :: 0 <= i < |s| ==> s[i] == ' ' || s[i] == '\t'
  }

  /** No angle bracket but the two around the URI; commas may occur in the URI
      and in the parameters. */
  predicate Simple(l: Link) {
    Blank(l.lead) && '<' !in l.uri && '>' !in l.uri && '<' !in l.params && '>' !in l.params
  }

  /** The link up to the first comma of its parameters. */
  function Head(l: Link): string {
    l.lead + "<" + l.uri + ">" + Split(l.params, ',')[0]
  }

  /** The parts the scanner makes of a link. */
  function Pieces(l: Link): seq<string> {
    [Head(l)] + Split(l.params, ',')[1..]
  }

  function AllPieces(links: seq<Link>): seq<string> {
    if links == [] then [] else Pieces(links[0]) + AllPieces(links[1..])
  }

  /** Text without commas outside brackets is glued to what follows. */
  lemma {:induction false} PartsOfText(a: string, b: string, depth: int)
    requires '<' !in a && '>' !in a && (',' !in a || depth > 0)
    ensures PartsAt(a + b, depth) == Glue(a, PartsAt(b, depth))
  {
    if a == "" {
      assert a + b == b && "" + PartsAt(b, depth)[0] == PartsAt(b, depth)[0];
    } else {
      assert (a + b)[0] == a[0] && (a + b)[1..] == a[1..] + b;
      PartsOfText(a[1..], b, depth);
      assert [a[0]] + (a[1..] + PartsAt(b, depth)[0]) == a + PartsAt(b, depth)[0];
    }
  }

  lemma PlainStep(s: string)
    requires s != "" && s[0] != '<' && s[0] != '>'
    ensures PartsAt(s, 0) == Prefixed(s[0], PartsAt(s[1..], 0)) && Split(s, ',') == Prefixed(s[0], Split(s[1..], ','))
  {
  }

  /** One more character before the parts. */
  function Prefixed(c: char, parts: seq<string>): seq<string>
    requires parts != []
  {
    if c == ',' then [""] + parts else Glue([c], parts)
  }

  lemma PrefixedOnto(c: char, parts: seq<string>, more: seq<string>)
    requires parts != []
    ensures Prefixed(c, parts + more) == Prefixed(c, parts) + more
  {
    GlueOnto([c], parts, more);
  }

  lemma GlueOnto(a: string, parts: seq<string>, more: seq<string>)
    requires parts != []
    ensures Glue(a, parts + more) == Glue(a, parts) + more
  {
    assert (parts + more)[1..] == parts[1..] + more;
  }

  /** Parameters are cut at their commas. */
  lemma {:induction false} PartsOfParams(p: string, rest: string)
    requires '<' !in p && '>' !in p && (rest == "" || rest[0] == ',')
    ensures PartsAt(p + rest, 0) == Split(p, ',') + if rest == "" then [] else PartsAt(rest[1..], 0)
  {
    if p == "" {
      assert p + rest == rest;
    } else {
      hide PartsAt, Split, Prefixed;
      assert (p + rest)[0] == p[0] && (p + rest)[1..] == p[1..] + rest;
      PlainStep(p);
      PlainStep(p + rest);
      PartsOfParams(p[1..], rest);
      PrefixedOnto(p[0], Split(p[1..], ','), if rest == "" then [] else PartsAt(rest[1..], 0));
    }
  }

  lemma GlueTwice(a: string, b: string, parts: seq<string>)
    requires parts != []
    ensures Glue(a, Glue(b, parts)) == Glue(a + b, parts)
  {
    assert a + (b + parts[0]) == (a + b) + parts[0];
  }

  /** The text of a link up to its closing bracket is glued to what follows. */
  lemma PartsOfURI(lead: string, uri: string, after: string)
    requires Blank(lead) && '<' !in uri && '>' !in uri
    ensures PartsAt(lead + ("<" + (uri + (">" + after))), 0) == Glue(lead + ("<" + (uri + ">")), PartsAt(after, 0))
  {
    var mid := ">" + after;
    var s := "<" + (uri + mid);
    PartsOfText(lead, s, 0);
    Bracket(s, 0);
    PartsOfText(uri, mid, 1);
    Bracket(mid, 1);
    assert s[1..] == uri + mid && mid[1..] == after;
    hide PartsAt, Glue, Blank;
    GlueTwice(uri, ">", PartsAt(after, 0));
    GlueTwice("<", uri + ">", PartsAt(after, 0));
    GlueTwice(lead, "<" + (uri + ">"), PartsAt(after, 0));
  }

  lemma PartsOfLink(l: Link, rest: string)
    requires Simple(l) && (rest == "" || rest[0] == ',')
    ensures PartsAt(LinkText(l) + rest, 0) == Pieces(l) + if rest == "" then [] else PartsAt(rest[1..], 0)
  {
    PartsOfURI(l.lead, l.uri, l.params + rest);
    PartsOfParams(l.params, rest);
    var cut, more := Split(l.params, ','), if rest == "" then [] else PartsAt(rest[1..], 0);
    hide PartsAt, Split, Blank, Simple;
    TextOfLink(l, l.params + rest, rest);
    GlueOnto(l.lead + ("<" + (l.uri + ">")), cut, more);
    hide LinkText, Glue;
    assert Glue(l.lead + ("<" + (l.uri + ">")), cut) == Pieces(l) by {
      PiecesAre(l, l.lead + ("<" + (l.uri + ">")));
    }
  }

  lemma TextOfLink(l: Link, after: string, rest: string)
    requires after == l.params + rest
    ensures LinkText(l) + rest == l.lead + ("<" + (l.uri + (">" + after)))
  {
  }

  lemma PiecesAre(l: Link, front: string)
    requires front == l.lead + ("<" + (l.uri + ">"))
    ensures Pieces(l) == Glue(front, Split(l.params, ','))
  {
    hide Split;
    assert front == l.lead + "<" + l.uri + ">";
  }

  lemma Bracket(s: string, depth: int)
    requires s != "" && (s[0] == '<' || s[0] == '>')
    ensures PartsAt(s, depth) == Glue([s[0]], PartsAt(s[1..], if s[0] == '<' then depth + 1 else depth - 1))
  {
  }

  /** Splitting a header: commas inside URIs do no harm, those in parameters cut. */
  lemma {:induction false} HeaderSplits(links: seq<Link>)
    requires links != [] && forall i :: 0 <= i < |links| ==> Simple(links[i])
    ensures PartsAt(Header(links), 0) == AllPieces(links)
  {
    var l := links[0];
    if |links| == 1 {
      PartsOfLink(l, "");
      assert LinkText(l) + "" == LinkText(l);
      assert AllPieces(links[1..]) == [];
    } else {
      var rest := "," + Header(links[1..]);
      PartsOfLink(l, rest);
      assert LinkText(l) + rest == Header(links);
      assert rest[1..] == Header(links[1..]);
      HeaderSplits(links[1..]);
    }
  }

  lemma IndexBehind(a: string, c: char, b: string)
    requires c !in a
    ensures IndexOf(a + [c] + b, c) == |a|
  {
    var s := a + [c] + b;
    var m := IndexOf(s, c);
    assert s[|a|] == c;
    assert m <= |a| by {
      assert forall k :: 0 <= k < m ==> s[..m][k] == s[k];
    }
    assert forall k :: 0 <= k < |a| ==> s[k] == a[k];
  }

  lemma URLOfHead(l: Link)
    requires Simple(l)
    ensures ExtractURL(Head(l)) == l.uri
  {
    var cut := Split(l.params, ',')[0];
    URLBetween(l.lead, l.uri, cut);
    hide ExtractURL, Split, Simple;
    assert Head(l) == l.lead + ['<'] + l.uri + ['>'] + cut;
  }

  lemma URLBetween(lead: string, uri: string, after: string)
    requires Blank(lead) && '<' !in uri && '>' !in uri
    ensures ExtractURL(lead + ['<'] + uri + ['>'] + after) == uri
  {
    var s := lead + ['<'] + uri + ['>'] + after;
    assert '>' !in lead + ['<'] + uri;
    IndexBehind(lead, '<', uri + ['>'] + after);
    IndexBehind(lead + ['<'] + uri, '>', after);
    hide IndexOf, Blank;
    Regroup(lead, uri, after);
  }

  lemma Regroup(lead: string, uri: string, after: string)
    ensures var s, n := lead + ['<'] + uri + ['>'] + after, |lead| + 1;
      s == lead + ['<'] + (uri + ['>'] + after) && |s| > n + |uri| && s[n..n + |uri|] == uri
  {
  }

  /** A link counts when the text `rel="next"` stands before the first comma of
      its parameters and its URI is usable. */
  predicate Counts(l: Link, parses: string -> bool) {
    HasRelNext(Head(l)) && l.uri != "" && parses(l.uri)
  }

  function NextLink(links: seq<Link>, parses: string -> bool): Option<string> {
    if links == [] then None
    else if Counts(links[0], parses) then Some(links[0].uri)
    else NextLink(links[1..], parses)
  }

  lemma {:induction false} NoURISkipped(parts: seq<string>, more: seq<string>, parses: string -> bool)
    requires forall i :: 0 <= i < |parts| ==> '<' !in parts[i]
    ensures NextOf(parts + more, parses) == NextOf(more, parses)
  {
    hide HasRelNext;
    if parts == [] {
      assert parts + more == more;
    } else {
      assert (parts + more)[0] == parts[0] && (parts + more)[1..] == parts[1..] + more;
      assert ExtractURL(parts[0]) == "";
      NoURISkipped(parts[1..], more, parses);
    }
  }

  lemma {:induction false} PiecesFree(p: string)
    requires '<' !in p
    ensures forall i :: 0 <= i < |Split(p, ',')| ==> '<' !in Split(p, ',')[i]
  {
    if p != "" {
      PiecesFree(p[1..]);
    }
  }

  /** What the code takes for the next page, for every header: the URI of the
      first link that counts. */
  lemma NextIsExactly(links: seq<Link>, parses: string -> bool)
    requires links != [] && forall i :: 0 <= i < |links| ==> Simple(links[i])
    ensures NextOf(PartsAt(Header(links), 0), parses) == NextLink(links, parses)
  {
    HeaderSplits(links);
    NextAmong(links, parses);
  }

  lemma {:induction false} NextAmong(links: seq<Link>, parses: string -> bool)
    requires forall i :: 0 <= i < |links| ==> Simple(links[i])
    ensures NextOf(AllPieces(links), parses) == NextLink(links, parses)
  {
    if links != [] {
      var l := links[0];
      NextAmong(links[1..], parses);
      PiecesFree(l.params);
      hide NextOf, AllPieces, Counts, Head, Split;
      AllPiecesStep(links);
      NextOfHead(l, Split(l.params, ',')[1..] + AllPieces(links[1..]), parses);
      NoURISkipped(Split(l.params, ',')[1..], AllPieces(links[1..]), parses);
    }
  }

  lemma AllPiecesStep(links: seq<Link>)
    requires links != []
    ensures AllPieces(links) == [Head(links[0])] + (Split(links[0].params, ',')[1..] + AllPieces(links[1..]))
  {
    hide Split, Head;
  }

  lemma NextOfHead(l: Link, more: seq<string>, parses: string -> bool)
    requires Simple(l)
    ensures NextOf([Head(l)] + more, parses) == if Counts(l, parses) then Some(l.uri) else NextOf(more, parses)
  {
    URLOfHead(l);
    hide HasRelNext, ExtractURL, Head;
    assert ([Head(l)] + more)[1..] == more;
  }
}
