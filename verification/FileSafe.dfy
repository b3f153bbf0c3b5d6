/** internal/filesafe: the scope check every files.* handler goes through, and
    the containment half of internal/cronvalidate.  A path is a string of bytes
    here, as its length limit counts them. */
module FileSafe {
  import opened Text
  import opened Paths

  datatype Code =
    | Empty | TooLong | NotAbsolute | ContainsNull | ContainsControl
    | Traversal | SymlinkEscape | NotInScope | BadPathArg

  const MAX_PATH := 4096

  /** `validatePathString`. */
  function ValidatePathString(p: string): Result<(), Code> {
    if p == "" then Err(Empty)
    else if |p| > MAX_PATH then Err(TooLong)
    else if '\0' in p then Err(ContainsNull)
    else if exists i :: 0 <= i < |p| && p[i] < ' ' then Err(ContainsControl)
    else if Contains(p, "..") then Err(Traversal)
    else Ok(())
  }

  predicate InDocroots(docroots: seq<string>, p: string) {
    exists i :: 0 <= i < |docroots| && Within(Clean(docroots[i]), p)
  }

  /** `verifyInScope`. */
  function ScopeCheck(docroots: seq<string>, p: string): Result<(), Code> {
    if !IsAbs(p) then Err(NotAbsolute)
    else if InDocroots(docroots, p) then Ok(())
    else Err(NotInScope)
  }

  /** `Scope.Clean`. */
  function ScopeClean(docroots: seq<string>, p: string): Result<string, Code> {
    match ValidatePathString(p)
    case Err(e) => Err(e)
    case Ok(_) =>
      var cleaned := Clean(p);
      if !IsAbs(cleaned) then Err(NotAbsolute)
      else
        match ScopeCheck(docroots, cleaned)
        case Err(e) => Err(e)
        case Ok(_) => Ok(cleaned)
  }

  /** What the host answers about symbolic links. */
  datatype Links = Links(eval: string -> Option<string>, isLink: string -> bool)

  /** `Scope.Resolve`. */
  function ScopeResolve(docroots: seq<string>, p: string, links: Links): Result<string, Code> {
    match ScopeClean(docroots, p)
    case Err(e) => Err(e)
    case Ok(cleaned) =>
      var resolved := match links.eval(cleaned) case Some(target) => target case None => cleaned;
      match ScopeCheck(docroots, resolved)
      case Err(e) => Err(e)
      case Ok(_) => if links.isLink(resolved) then Err(SymlinkEscape) else Ok(resolved)
  }

  /** `validatePathArg` of cron.go; `target` is what symlink resolution returned. */
  function PathArg(docroots: seq<string>, p: string, target: Option<string>): Result<(), Code> {
    if Contains(p, "..") then Err(BadPathArg)
    else
      var realPath := Clean(match target case Some(r) => r case None => p);
      if !IsAbs(realPath) then Err(BadPathArg)
      else if InDocroots(docroots, realPath) then Ok(())
      else Err(BadPathArg)
  }

  class Scope {
    const username: string
    const ownedDocroots: seq<string>

    constructor (username: string, ownedDocroots: seq<string>)
      ensures this.username == username && this.ownedDocroots == ownedDocroots
    {
      this.username := username;
      this.ownedDocroots := ownedDocroots;
    }

    /** `NewScope`: refuses an empty user, an empty list and relative docroots. */
    static method NewScope(username: string, ownedDocroots: seq<string>) returns (r: Result<Scope, Code>)
      ensures username == "" || ownedDocroots == [] ==> r == Err(Empty)
      ensures username != "" && ownedDocroots != [] ==>
        (r.Ok? <==> forall i :: 0 <= i < |ownedDocroots| ==> IsAbs(ownedDocroots[i]))
      ensures username != "" && ownedDocroots != [] && r.Err? ==> r.error == NotAbsolute
      ensures r.Ok? ==>
        && fresh(r.value) && r.value.username == username
        && |r.value.ownedDocroots| == |ownedDocroots|
        && forall i :: 0 <= i < |ownedDocroots| ==> r.value.ownedDocroots[i] == Clean(ownedDocroots[i])
    {
      if username == "" || |ownedDocroots| == 0 {
        return Err(Empty);
      }
      var normalized := new string[|ownedDocroots|];
      for i := 0 to |ownedDocroots|
        invariant forall j :: 0 <= j < i ==>
          IsAbs(ownedDocroots[j]) && normalized[j] == Clean(ownedDocroots[j])
      {
        var root := Clean(ownedDocroots[i]);
        CleanKeepsAbs(ownedDocroots[i]);
        if !IsAbs(root) {
          return Err(NotAbsolute);
        }
        normalized[i] := root;
      }
      var scope := new Scope(username, normalized[..]);
      return Ok(scope);
    }

    method VerifyInScope(p: string) returns (r: Result<(), Code>)
      ensures r == ScopeCheck(ownedDocroots, p)
    {
      if !IsAbs(p) {
        return Err(NotAbsolute);
      }
      for i := 0 to |ownedDocroots|
        invariant forall j :: 0 <= j < i ==> !Within(Clean(ownedDocroots[j]), p)
      {
        var docroot := Clean(ownedDocroots[i]);
        if p == docroot {
          return Ok(());
        }
        if docroot + "/" <= p {
          return Ok(());
        }
      }
      return Err(NotInScope);
    }

    method CleanPath(p: string) returns (r: Result<string, Code>)
      ensures r == ScopeClean(ownedDocroots, p)
    {
      var valid := ValidatePathString(p);
      if valid.Err? {
        return Err(valid.error);
      }
      var cleaned := Clean(p);
      if !IsAbs(cleaned) {
        return Err(NotAbsolute);
      }
      var inScope := VerifyInScope(cleaned);
      if inScope.Err? {
        return Err(inScope.error);
      }
      return Ok(cleaned);
    }

    method Resolve(p: string, links: Links) returns (r: Result<string, Code>)
      ensures r == ScopeResolve(ownedDocroots, p, links)
    {
      var valid := ValidatePathString(p);
      if valid.Err? {
        return Err(valid.error);
      }
      var cleaned := Clean(p);
      if !IsAbs(cleaned) {
        return Err(NotAbsolute);
      }
      var before := VerifyInScope(cleaned);
      if before.Err? {
        return Err(before.error);
      }
      var resolved := cleaned;
      var target := links.eval(cleaned);
      if target.Some? {
        resolved := target.value;
      }
      var after := VerifyInScope(resolved);
      if after.Err? {
        return Err(after.error);
      }
      if links.isLink(resolved) {
        return Err(SymlinkEscape);
      }
      return Ok(resolved);
    }
  }

  /** The texts that pass as paths: 1 to 4096 bytes, no control character, no two
      dots in a row; the first thing wrong is reported. */
  lemma PathTexts(p: string)
    ensures var bad, dots := exists i :: 0 <= i < |p| && p[i] as int < 32,
        exists i :: 0 <= i < |p| - 1 && p[i] == '.' && p[i + 1] == '.';
      ValidatePathString(p) ==
        if |p| == 0 then Err(Empty)
        else if |p| > 4096 then Err(TooLong)
        else if exists i :: 0 <= i < |p| && p[i] as int == 0 then Err(ContainsNull)
        else if bad then Err(ContainsControl)
        else if dots then Err(Traversal)
        else Ok(())
  {
    TwoDots(p);
    assert '\0' in p <==> exists i :: 0 <= i < |p| && p[i] as int == 0;
    assert forall i :: 0 <= i < |p| ==> (p[i] < ' ' <==> p[i] as int < 32);
    hide Contains;
  }

  lemma TwoDots(p: string)
    ensures Contains(p, "..") <==> exists i :: 0 <= i < |p| - 1 && p[i] == '.' && p[i + 1] == '.'
  {
    var dots := "..";
    if Contains(p, dots) {
      var i :| 0 <= i <= |p| - |dots| && p[i..][..|dots|] == dots;
      assert p[i..][..2][0] == p[i] && p[i..][..2][1] == p[i + 1];
    }
    if i :| 0 <= i < |p| - 1 && p[i] == '.' && p[i + 1] == '.' {
      assert p[i..][..|dots|] == dots;
    }
  }

  lemma CleanKeepsAbs(p: string)
    ensures IsAbs(Clean(p)) == IsAbs(p)
  {
    CleanCompsCanonical(p);
    RenderedComps(IsAbs(p), CleanComps(p));
  }

  /** The element list `comps` lies inside the docroot: a component prefix,
      where the root directory admits only itself. */
  predicate Owns(docroot: string, comps: seq<string>) {
    CleanComps(docroot) <= comps && (CleanComps(docroot) != [] || comps == [])
  }

  lemma InDocrootsMeaning(docroots: seq<string>, comps: seq<string>)
    requires forall i :: 0 <= i < |docroots| ==> IsAbs(docroots[i])
    requires Canonical(true, comps)
    ensures InDocroots(docroots, Render(true, comps))
        <==> exists i :: 0 <= i < |docroots| && Owns(docroots[i], comps)
  {
    forall i | 0 <= i < |docroots|
      ensures Within(Clean(docroots[i]), Render(true, comps)) <==> Owns(docroots[i], comps)
    {
      CleanCompsCanonical(docroots[i]);
      WithinIsComponentPrefix(CleanComps(docroots[i]), comps);
    }
  }

  /** Scope.Clean decides exactly component containment, and returns the path
      with its empty and `.` elements dropped. */
  lemma ScopeCleanDecides(docroots: seq<string>, p: string)
    requires forall i :: 0 <= i < |docroots| ==> IsAbs(docroots[i])
    ensures ValidatePathString(p).Ok? ==>
      ScopeClean(docroots, p) ==
        if !IsAbs(p) then Err(NotAbsolute)
        else if exists i :: 0 <= i < |docroots| && Owns(docroots[i], Components(p)) then Ok(Render(true, Components(p)))
        else Err(NotInScope)
    ensures ValidatePathString(p).Err? ==> ScopeClean(docroots, p) == Err(ValidatePathString(p).error)
  {
    if ValidatePathString(p).Ok? {
      CleanWithoutDotDot(p);
      CleanCompsCanonical(p);
      CleanKeepsAbs(p);
      if IsAbs(p) {
        InDocrootsMeaning(docroots, Components(p));
      }
    }
  }

  /** The cron validator decides on the resolved path, if there is one; when
      nothing resolves, it agrees with the file scope. */
  lemma PathArgDecides(docroots: seq<string>, p: string, target: Option<string>)
    requires forall i :: 0 <= i < |docroots| ==> IsAbs(docroots[i])
    ensures var decided := if target.Some? then target.value else p;
      PathArg(docroots, p, target).Ok? <==>
        && !(exists i :: 0 <= i < |p| - 1 && p[i] == '.' && p[i + 1] == '.')
        && IsAbs(decided) && exists i :: 0 <= i < |docroots| && Owns(docroots[i], CleanComps(decided))
    ensures target == None && ValidatePathString(p).Ok? ==>
      (PathArg(docroots, p, target).Ok? <==> ScopeClean(docroots, p).Ok?)
  {
    var decided := if target.Some? then target.value else p;
    TwoDots(p);
    CleanKeepsAbs(decided);
    CleanCompsCanonical(decided);
    if IsAbs(decided) {
      InDocrootsMeaning(docroots, CleanComps(decided));
    }
    hide Contains, InDocroots, Owns;
  }

  /** Resolve accepts what Clean accepts, once the path the host resolves it to is
      a docroot or below one as text, and no link. */
  lemma ResolveDecides(docroots: seq<string>, p: string, links: Links)
    ensures var r := ScopeResolve(docroots, p, links);
      var found := if links.eval(Clean(p)).Some? then links.eval(Clean(p)).value else Clean(p);
      var inside := exists i ::
        0 <= i < |docroots| && (found == Clean(docroots[i]) || Clean(docroots[i]) + "/" <= found);
      if ScopeClean(docroots, p).Err? then r == ScopeClean(docroots, p)
      else if |found| == 0 || found[0] != '/' then r == Err(NotAbsolute)
      else if !inside then r == Err(NotInScope)
      else if links.isLink(found) then r == Err(SymlinkEscape)
      else r == Ok(found)
  {
    var found := if links.eval(Clean(p)).Some? then links.eval(Clean(p)).value else Clean(p);
    assert InDocroots(docroots, found) <==>
      exists i :: 0 <= i < |docroots| && (found == Clean(docroots[i]) || Clean(docroots[i]) + "/" <= found);
    hide Clean, InDocroots, ValidatePathString;
  }

  /** Whatever the host answers, an accepted path is absolute, no link, and a
      docroot or below one as text; a clean answer is owned, and one without `..`
      lies below a docroot component by component.  When nothing resolves, Resolve
      is Clean. */
  lemma ResolveStaysInScope(docroots: seq<string>, p: string, links: Links)
    requires forall i :: 0 <= i < |docroots| ==> IsAbs(docroots[i])
    requires ScopeResolve(docroots, p, links).Ok?
    ensures var r := ScopeResolve(docroots, p, links).value;
      && IsAbs(r) && !links.isLink(r) && InDocroots(docroots, r)
      && (Clean(r) == r ==> exists i :: 0 <= i < |docroots| && Owns(docroots[i], CleanComps(r)))
      && (!Contains(r, "..") ==> exists i :: 0 <= i < |docroots| && CleanComps(docroots[i]) <= CleanComps(r))
      && (links.eval(Clean(p)) == None ==> ScopeClean(docroots, p) == Ok(r))
  {
    var r := ScopeResolve(docroots, p, links).value;
    if Clean(r) == r {
      CleanCompsCanonical(r);
      InDocrootsMeaning(docroots, CleanComps(r));
    }
    if !Contains(r, "..") {
      var i :| 0 <= i < |docroots| && Within(Clean(docroots[i]), r);
      BelowAsText(docroots[i], r);
    }
  }

  lemma BelowAsText(docroot: string, r: string)
    requires IsAbs(docroot) && Within(Clean(docroot), r) && !Contains(r, "..")
    ensures CleanComps(docroot) <= CleanComps(r)
  {
    var d := Clean(docroot);
    CleanCompsCanonical(docroot);
    RenderedComps(true, CleanComps(docroot));
    if r != d {
      var tail := r[|d| + 1..];
      assert r == d + ['/'] + tail;
      DotsInPrefix(d, r);
      CleanWithoutDotDot(r);
      CleanWithoutDotDot(d);
      SplitAppend(d, tail, '/');
      KeptAppend(Split(d, '/'), Split(tail, '/'));
    }
  }

  lemma DotsInPrefix(d: string, r: string)
    requires d <= r && !Contains(r, "..")
    ensures !Contains(d, "..")
  {
    forall i | 0 <= i <= |d| - 2
      ensures d[i..][..2] != ".."
    {
      assert r[i..][..2] == d[i..][..2];
    }
  }

  lemma {:induction false} KeptAppend(a: seq<string>, b: seq<string>)
    ensures Kept(a + b) == Kept(a) + Kept(b)
  {
    if a == [] {
      assert a + b == b;
    } else {
      assert (a + b)[0] == a[0] && (a + b)[1..] == a[1..] + b;
      KeptAppend(a[1..], b);
    }
  }

  lemma {:induction false} KeptShrinks(comps: seq<string>)
    ensures |Join(Kept(comps), '/')| <= |Join(comps, '/')|
    ensures |comps| > 1 && comps[0] == "" ==> |Join(Kept(comps), '/')| < |Join(comps, '/')|
  {
    if comps != [] {
      KeptShrinks(comps[1..]);
      var rest := Kept(comps[1..]);
      if comps[0] == "" || comps[0] == "." {
        assert Kept(comps) == rest;
      } else {
        assert Kept(comps) == [comps[0]] + rest && ([comps[0]] + rest)[1..] == rest;
        assert |comps| == 1 ==> rest == [];
      }
    }
  }

  lemma {:induction false} JoinedDots(parts: seq<string>, k: nat)
    requires k + 2 <= |Join(parts, '/')| && Join(parts, '/')[k] == '.' && Join(parts, '/')[k + 1] == '.'
    ensures exists i, j :: 0 <= i < |parts| && 0 <= j <= |parts[i]| - 2 && parts[i][j..][..2] == ".."
  {
    if |parts| == 1 {
      assert parts[0][k..][..2] == "..";
    } else if k < |parts[0]| {
      assert parts[0][k..][..2] == "..";
    } else {
      var n := |parts[0]| + 1;
      JoinedDots(parts[1..], k - n);
      var i, j :| 0 <= i < |parts[1..]| && 0 <= j <= |parts[1..][i]| - 2 && parts[1..][i][j..][..2] == "..";
      assert parts[i + 1][j..][..2] == "..";
    }
  }

  lemma {:induction false} JoinedChar(parts: seq<string>, k: nat)
    requires k < |Join(parts, '/')| && Join(parts, '/')[k] != '/'
    ensures exists i :: 0 <= i < |parts| && Join(parts, '/')[k] in parts[i]
  {
    if |parts| > 1 {
      if k < |parts[0]| {
        assert Join(parts, '/')[k] in parts[0];
      } else {
        JoinedChar(parts[1..], k - |parts[0]| - 1);
        var i :| 0 <= i < |parts[1..]| && Join(parts[1..], '/')[k - |parts[0]| - 1] in parts[1..][i];
        assert Join(parts, '/')[k] in parts[i + 1];
      }
    } else {
      assert Join(parts, '/')[k] in parts[0];
    }
  }

  lemma {:induction false} KeptFrom(comps: seq<string>)
    ensures forall c :: c in Kept(comps) ==> c in comps
  {
    if comps != [] {
      KeptFrom(comps[1..]);
    }
  }

  lemma ComponentInside(p: string, c: string)
    requires c in Components(p)
    ensures exists k :: 0 <= k <= |p| - |c| && p[k..][..|c|] == c
  {
    KeptFrom(Split(p, '/'));
    var i :| 0 <= i < |Split(p, '/')| && Split(p, '/')[i] == c;
    PartIsSubstring(p, '/', i);
  }

  lemma RenderedLength(p: string)
    requires IsAbs(p)
    ensures |Render(true, Components(p))| <= |p|
  {
    JoinSplit(p, '/');
    assert Split(p, '/')[0] == "";
    KeptShrinks(Split(p, '/'));
  }

  lemma RenderedChar(p: string, k: nat)
    requires k < |Render(true, Components(p))| && Render(true, Components(p))[k] != '/'
    ensures Render(true, Components(p))[k] in p
  {
    var comps := Components(p);
    var c := Render(true, comps)[k];
    assert c == Join(comps, '/')[k - 1];
    JoinedChar(comps, k - 1);
    var i :| 0 <= i < |comps| && c in comps[i];
    ComponentInside(p, comps[i]);
    var at :| 0 <= at <= |p| - |comps[i]| && p[at..][..|comps[i]|] == comps[i];
    assert forall m :: 0 <= m < |comps[i]| ==> comps[i][m] == p[at + m];
  }

  lemma DotsInside(p: string, c: string, j: nat)
    requires c in Components(p)
    ensures j <= |c| - 2 && c[j..][..2] == ".." ==> Contains(p, "..")
  {
    ComponentInside(p, c);
    var at :| 0 <= at <= |p| - |c| && p[at..][..|c|] == c;
    if j <= |c| - 2 {
      assert forall k :: 0 <= k < |c| ==> p[at..][..|c|][k] == p[at + k];
      assert c[j..][..2][0] == c[j] && c[j..][..2][1] == c[j + 1];
      assert p[at + j..][..2] == [p[at + j], p[at + j + 1]];
    }
  }

  lemma RenderedDots(p: string)
    ensures Contains(Render(true, Components(p)), "..") ==> Contains(p, "..")
  {
    var comps := Components(p);
    var r := Render(true, comps);
    if Contains(r, "..") {
      var k :| 0 <= k <= |r| - 2 && r[k..][..2] == "..";
      assert r[k] == r[k..][..2][0] && r[k + 1] == r[k..][..2][1];
      JoinedDots(comps, k - 1);
      var i, j :| 0 <= i < |comps| && 0 <= j <= |comps[i]| - 2 && comps[i][j..][..2] == "..";
      DotsInside(p, comps[i], j);
    }
  }

  /** A cleaned accepted path passes the string checks again. */
  lemma CleanedStillValid(p: string)
    requires ValidatePathString(p).Ok? && IsAbs(p)
    ensures ValidatePathString(Render(true, Components(p))).Ok?
  {
    var r := Render(true, Components(p));
    RenderedLength(p);
    RenderedDots(p);
    forall k | 0 <= k < |r|
      ensures ' ' <= r[k]
    {
      if r[k] != '/' {
        RenderedChar(p, k);
      }
    }
  }

  /** Scope.Clean is idempotent. */
  lemma ScopeCleanIdempotent(docroots: seq<string>, p: string)
    requires forall i :: 0 <= i < |docroots| ==> IsAbs(docroots[i])
    requires ScopeClean(docroots, p).Ok?
    ensures ScopeClean(docroots, ScopeClean(docroots, p).value) == ScopeClean(docroots, p)
  {
    ScopeCleanDecides(docroots, p);
    CleanedStillValid(p);
    CleanIdempotent(p);
  }

  /** On paths the scope accepted, `isDescendant` is the component-prefix relation. */
  lemma DescendantOnAccepted(docroots: seq<string>, a: string, b: string)
    requires forall i :: 0 <= i < |docroots| ==> IsAbs(docroots[i])
    requires ScopeClean(docroots, a).Ok? && ScopeClean(docroots, b).Ok?
    ensures IsDescendant(ScopeClean(docroots, a).value, ScopeClean(docroots, b).value)
        <==> Components(a) <= Components(b)
  {
    ScopeCleanDecides(docroots, a);
    ScopeCleanDecides(docroots, b);
    CleanWithoutDotDot(a);
    CleanWithoutDotDot(b);
    CleanCompsCanonical(a);
    CleanCompsCanonical(b);
    var ca, cb := Components(a), Components(b);
    DescendantIsComponentPrefix(ca, cb);
    if |ca| < |cb| {
      DotsInside(b, cb[|ca|], 0);
    }
  }
}
