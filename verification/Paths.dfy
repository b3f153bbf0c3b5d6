/** Lexical path handling: `filepath.Clean`, `filepath.IsAbs` and `filepath.Rel`
    for the slash-separated paths of a Linux host, next to the component lists
    they stand for. */
module Paths {
  import opened Text

  /** One path element processed by `filepath.Clean`, left to right. */
  function Step(rooted: bool, stack: seq<string>, c: string): seq<string> {
    if c == "" || c == "." then stack
    else if c == ".." then
      if stack == [] then (if rooted then [] else [".."])
      else if stack[|stack| - 1] == ".." then stack + [".."]
      else stack[..|stack| - 1]
    else stack + [c]
  }

  function Steps(rooted: bool, stack: seq<string>, comps: seq<string>): seq<string>
    decreases |comps|
  {
    if comps == [] then stack else Steps(rooted, Step(rooted, stack, comps[0]), comps[1..])
  }

  predicate IsAbs(p: string) {
    |p| > 0 && p[0] == '/'
  }

  function Render(rooted: bool, comps: seq<string>): string {
    if rooted then "/" + Join(comps, '/')
    else if comps == [] then "."
    else Join(comps, '/')
  }

  /** The elements that remain after cleaning. */
  function CleanComps(p: string): seq<string> {
    Steps(IsAbs(p), [], Split(p, '/'))
  }

  /** `filepath.Clean`. */
  function Clean(p: string): string {
    Render(IsAbs(p), CleanComps(p))
  }

  /** Element lists that `Clean` can leave behind. */
  predicate Canonical(rooted: bool, comps: seq<string>) {
    forall i :: 0 <= i < |comps| ==>
      && comps[i] != "" && comps[i] != "." && '/' !in comps[i]
      && (comps[i] == ".." ==> !rooted && forall j :: 0 <= j < i ==> comps[j] == "..")
  }

  /** The meaning of a path free of `..`: its elements without `""` and `"."`. */
  function Components(p: string): seq<string> {
    Kept(Split(p, '/'))
  }

  function Kept(comps: seq<string>): seq<string> {
    if comps == [] then []
    else (if comps[0] == "" || comps[0] == "." then [] else [comps[0]]) + Kept(comps[1..])
  }

  lemma {:induction false} StepsCanonical(rooted: bool, stack: seq<string>, comps: seq<string>)
    requires Canonical(rooted, stack)
    requires forall c :: c in comps ==> '/' !in c
    ensures Canonical(rooted, Steps(rooted, stack, comps))
    decreases |comps|
  {
    if comps != [] {
      StepsCanonical(rooted, Step(rooted, stack, comps[0]), comps[1..]);
    }
  }

  lemma CleanCompsCanonical(p: string)
    ensures Canonical(IsAbs(p), CleanComps(p))
  {
    StepsCanonical(IsAbs(p), [], Split(p, '/'));
  }

  /** Cleaning leaves a canonical suffix alone. */
  lemma {:induction false} StepsOnCanonical(rooted: bool, done: seq<string>, rest: seq<string>)
    requires Canonical(rooted, done + rest)
    ensures Steps(rooted, done, rest) == done + rest
    decreases |rest|
  {
    if rest == [] {
      assert done + rest == done;
    } else {
      assert (done + rest)[|done|] == rest[0];
      assert done + rest == (done + [rest[0]]) + rest[1..];
      if rest[0] == ".." && done != [] {
        assert (done + rest)[|done| - 1] == "..";
      }
      assert done == [] ==> done + [rest[0]] == [rest[0]];
      assert Step(rooted, done, rest[0]) == done + [rest[0]];
      StepsOnCanonical(rooted, done + [rest[0]], rest[1..]);
    }
  }

  /** A rendered canonical list cleans back to the same list. */
  lemma RenderedComps(rooted: bool, comps: seq<string>)
    requires Canonical(rooted, comps)
    ensures IsAbs(Render(rooted, comps)) == rooted
    ensures CleanComps(Render(rooted, comps)) == comps
  {
    if comps == [] {
      RenderedNothing(rooted);
    } else {
      StepsOnCanonical(rooted, [], comps);
      assert [] + comps == comps;
      RenderedParts(rooted, comps);
      hide Canonical, Render, Split;
      assert ([""] + comps)[1..] == comps;
    }
  }

  lemma RenderedNothing(rooted: bool)
    ensures IsAbs(Render(rooted, [])) == rooted && CleanComps(Render(rooted, [])) == []
  {
    var p := Render(rooted, []);
    if rooted {
      assert p == "/" && Split(p, '/') == ["", ""] by {
        assert p[1..] == "";
      }
      assert Steps(true, [], ["", ""]) == Steps(true, [], [""]);
    } else {
      assert p == ".";
      SplitFree(".", '/');
      assert Steps(false, [], ["."]) == Steps(false, [], []);
    }
  }

  lemma RenderedParts(rooted: bool, comps: seq<string>)
    requires Canonical(rooted, comps) && comps != []
    ensures IsAbs(Render(rooted, comps)) == rooted
    ensures Split(Render(rooted, comps), '/') == if rooted then [""] + comps else comps
  {
    SplitJoin(comps, '/');
    JoinHead(comps);
    hide Split, Join;
    if rooted {
      assert Render(rooted, comps) == "" + ['/'] + Join(comps, '/');
      SplitAppend("", Join(comps, '/'), '/');
      SplitFree("", '/');
    }
  }

  lemma JoinHead(comps: seq<string>)
    requires comps != [] && comps[0] != ""
    ensures Join(comps, '/') != "" && Join(comps, '/')[0] == comps[0][0]
    ensures |comps[0]| >= 2 ==> |Join(comps, '/')| >= 2 && Join(comps, '/')[1] == comps[0][1]
    ensures |comps[0]| == 1 && |Join(comps, '/')| >= 2 ==> Join(comps, '/')[1] == '/'
  {
  }

  lemma {:induction false} StepsLast(rooted: bool, stack: seq<string>, comps: seq<string>, c: string)
    ensures Steps(rooted, stack, comps + [c]) == Step(rooted, Steps(rooted, stack, comps), c)
    decreases |comps|
  {
    if comps == [] {
      assert ([] + [c])[1..] == [];
    } else {
      assert (comps + [c])[0] == comps[0] && (comps + [c])[1..] == comps[1..] + [c];
      StepsLast(rooted, Step(rooted, stack, comps[0]), comps[1..], c);
    }
  }

  /** One more element: nothing for an empty one or `.`, the last element undone
      for `..`, which goes no higher than the root but climbs out of a relative
      path, and otherwise the element itself. */
  lemma CleanOneMore(p: string, c: string)
    requires p != "" && '/' !in c
    ensures var before := CleanComps(p);
      CleanComps(p + "/" + c) ==
        if c == "" || c == "." then before
        else if c != ".." then before + [c]
        else if before == [] && p[0] == '/' then []
        else if before == [] || before[|before| - 1] == ".." then before + [".."]
        else before[..|before| - 1]
  {
    SplitAppend(p, c, '/');
    SplitFree(c, '/');
    assert p + "/" + c == p + ['/'] + c;
    assert (p + "/" + c)[0] == p[0];
    StepsLast(IsAbs(p), [], Split(p, '/'), c);
    hide Split, Steps;
    assert [] + [".."] == [".."];
  }

  /** A path of one element. */
  lemma CleanOne(c: string)
    requires '/' !in c
    ensures CleanComps(c) == if c == "" || c == "." then [] else [c]
    ensures CleanComps("/" + c) == if c == "" || c == "." || c == ".." then [] else [c]
  {
    SplitFree(c, '/');
    assert ("/" + c)[1..] == c;
    assert Split("/" + c, '/') == ["", c];
    assert Steps(false, [], [c]) == Steps(false, Step(false, [], c), []);
    assert Steps(true, [], ["", c]) == Steps(true, [], [c]);
    assert Steps(true, [], [c]) == Steps(true, Step(true, [], c), []);
  }

  /** `filepath.Clean` is idempotent on every string. */
  lemma CleanIdempotent(p: string)
    ensures Clean(Clean(p)) == Clean(p)
  {
    CleanCompsCanonical(p);
    RenderedComps(IsAbs(p), CleanComps(p));
  }

  lemma {:induction false} KeptIsSteps(rooted: bool, stack: seq<string>, comps: seq<string>)
    requires ".." !in comps
    ensures Steps(rooted, stack, comps) == stack + Kept(comps)
    decreases |comps|
  {
    if comps != [] {
      KeptIsSteps(rooted, Step(rooted, stack, comps[0]), comps[1..]);
    }
  }

  /** A part of a split string is a substring of it. */
  lemma {:induction false} PartIsSubstring(s: string, sep: char, i: nat)
    requires i < |Split(s, sep)|
    ensures exists k :: 0 <= k <= |s| - |Split(s, sep)[i]| && s[k..][..|Split(s, sep)[i]|] == Split(s, sep)[i]
    ensures i == 0 ==> Split(s, sep)[0] <= s
  {
    var part := Split(s, sep)[i];
    if s == "" {
      assert s[0..][..|part|] == part;
    } else {
      var rest := Split(s[1..], sep);
      if s[0] != sep && i == 0 {
        PartIsSubstring(s[1..], sep, 0);
        assert rest[0] <= s[1..];
        assert s == [s[0]] + s[1..];
        assert s[0..][..|part|] == part;
      } else if s[0] == sep && i == 0 {
        assert s[0..][..0] == part;
      } else {
        var j := if s[0] == sep then i - 1 else i;
        assert part == rest[j];
        PartIsSubstring(s[1..], sep, j);
        var k :| 0 <= k <= |s[1..]| - |part| && s[1..][k..][..|part|] == part;
        assert s[k + 1..][..|part|] == part;
      }
    }
  }

  /** Once `..` is ruled out, cleaning only drops empty and `.` elements. */
  lemma CleanWithoutDotDot(p: string)
    requires !Contains(p, "..")
    ensures CleanComps(p) == Components(p)
  {
    forall c | c in Split(p, '/')
      ensures c != ".."
    {
      var i :| 0 <= i < |Split(p, '/')| && Split(p, '/')[i] == c;
      PartIsSubstring(p, '/', i);
    }
    KeptIsSteps(IsAbs(p), [], Split(p, '/'));
  }

  /** The code's containment test: equal, or `root + "/"` is a string prefix. */
  predicate Within(root: string, p: string) {
    p == root || root + "/" <= p
  }

  /** What the containment test means for clean absolute paths.  The root
      directory is the odd one out: it contains only itself. */
  lemma WithinIsComponentPrefix(root: seq<string>, comps: seq<string>)
    requires Canonical(true, root) && Canonical(true, comps)
    ensures Within(Render(true, root), Render(true, comps))
        <==> root <= comps && (root != [] || comps == [])
  {
    RenderedComps(true, root);
    RenderedComps(true, comps);
    hide Render, Canonical, CleanComps, IsAbs;
    if Render(true, root) + "/" <= Render(true, comps) {
      InsideIsPrefix(root, comps);
    }
    if root <= comps && root != [] && root != comps {
      PrefixIsInside(root, comps);
    }
  }

  lemma PrefixIsInside(root: seq<string>, comps: seq<string>)
    requires root <= comps && root != [] && root != comps
    ensures Render(true, root) + "/" <= Render(true, comps)
  {
    var rest := comps[|root|..];
    assert comps == root + rest;
    JoinAppend(root, rest, '/');
    hide Join;
    assert Render(true, comps) == Render(true, root) + "/" + Join(rest, '/');
  }

  lemma InsideIsPrefix(root: seq<string>, comps: seq<string>)
    requires Canonical(true, root) && Canonical(true, comps)
    requires Render(true, root) + "/" <= Render(true, comps)
    ensures root <= comps && root != []
  {
    var r, p := Render(true, root), Render(true, comps);
    var tail := p[|r| + 1..];
    assert p == r + "/" + tail && r[1..] == Join(root, '/') && p[1..] == Join(comps, '/');
    assert (r + "/" + tail)[1..] == r[1..] + "/" + tail;
    assert comps == [] ==> p == "/";
    assert comps != [];
    JoinHead(comps);
    assert p[1] != '/';
    assert root == [] ==> r == "/";
    assert root != [];
    SplitJoin(comps, '/');
    SplitAppend(Join(root, '/'), tail, '/');
    SplitJoin(root, '/');
    assert comps == root + Split(tail, '/');
  }

  function CommonPrefix(a: seq<string>, b: seq<string>): (n: nat)
    ensures n <= |a| && n <= |b| && a[..n] == b[..n]
    ensures n == |a| || n == |b| || a[n] != b[n]
  {
    if a == [] || b == [] || a[0] != b[0] then 0
    else
      var n := CommonPrefix(a[1..], b[1..]);
      assert a[..n + 1] == [a[0]] + a[1..][..n];
      assert b[..n + 1] == [b[0]] + b[1..][..n];
      n + 1
  }

  /** `filepath.Rel`: `None` where Go returns an error. */
  function Rel(base: string, target: string): Option<string> {
    var b, t := CleanComps(base), CleanComps(target);
    if Clean(base) == Clean(target) then Some(".")
    else if IsAbs(base) != IsAbs(target) then None
    else
      var n := CommonPrefix(b, t);
      if n < |b| && b[n] == ".." then None
      else Some(Join(seq(|b| - n, i => "..") + t[n..], '/'))
  }

  /** `isDescendant` of files_move.go. */
  predicate IsDescendant(ancestor: string, descendant: string) {
    ancestor == descendant ||
    match Rel(ancestor, descendant)
    case None => false
    case Some(rel) =>
      rel == "." || rel == "" || !(|rel| >= 2 && rel[0] == '.' && rel[1] == '.')
  }

  predicate StartsDotDot(c: string) {
    |c| >= 2 && c[0] == '.' && c[1] == '.'
  }

  /** `isDescendant` on clean absolute paths: the component-prefix relation,
      except for a direct child whose name begins with two dots. */
  lemma DescendantIsComponentPrefix(a: seq<string>, b: seq<string>)
    requires Canonical(true, a) && Canonical(true, b)
    ensures IsDescendant(Render(true, a), Render(true, b))
        <==> a <= b && !(|a| < |b| && StartsDotDot(b[|a|]))
  {
    var pa, pb := Render(true, a), Render(true, b);
    RenderedComps(true, a);
    RenderedComps(true, b);
    if a != b {
      assert pa != pb;
      var n := CommonPrefix(a, b);
      var parts := seq(|a| - n, i => "..") + b[n..];
      assert parts != [] && parts[0] != "";
      JoinHead(parts);
      if n < |a| {
        assert parts[0] == "..";
      } else {
        assert parts == b[|a|..];
        assert parts[0] == b[|a|] && parts[0] != ".";
        assert Join(parts, '/') != "." by {
          if |parts| > 1 { assert |Join(parts, '/')| >= 2; }
        }
      }
    }
  }
}
