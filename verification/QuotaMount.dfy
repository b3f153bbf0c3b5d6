/** internal/limits/quotamount.go: the mount point that holds a path. */
module QuotaMount {
  import opened Text
  import opened Paths

  /** `filepath.Abs` for a process whose working directory is `cwd`. */
  function Abs(cwd: string, path: string): string {
    if IsAbs(path) then Clean(path) else Clean(cwd + "/" + path)
  }

  function TrimRightSlash(s: string): string {
    if s != "" && s[|s| - 1] == '/' then TrimRightSlash(s[..|s| - 1]) else s
  }

  /** The path the scan compares mount points with. */
  function Target(cwd: string, path: string): string {
    var abs := Abs(cwd, path);
    if abs != "/" then TrimRightSlash(abs) else abs
  }

  predicate Holds(mount: string, abs: string) {
    mount == abs || mount == "/" || mount + "/" <= abs
  }

  predicate Listed(lines: seq<string>, mount: string) {
    exists i :: 0 <= i < |lines| && |Fields(lines[i])| >= 2 && Fields(lines[i])[1] == mount
  }

  /** The line starts, after blanks, with two words. */
  predicate Columns(line: string, lead: string, device: string, gap: string, mount: string, rest: string) {
    && AllSpaces(lead) && IsWord(device) && AllSpaces(gap) && gap != "" && IsWord(mount)
    && (rest == "" || IsSpace(rest[0]))
    && line == lead + device + gap + mount + rest
  }

  /** The second column of a line. */
  ghost predicate IsSecondColumn(line: string, mount: string) {
    exists lead, device, gap, rest :: Columns(line, lead, device, gap, mount, rest)
  }

  lemma ColumnIsField(line: string, lead: string, device: string, gap: string, mount: string, rest: string)
    requires Columns(line, lead, device, gap, mount, rest)
    ensures |Fields(line)| >= 2 && Fields(line)[1] == mount
  {
    var tail := gap + mount + rest;
    assert tail[0] == gap[0];
    FieldsWord(gap, mount, rest);
    hide Fields, IsSpace;
    assert line == lead + device + tail;
    FieldsWord(lead, device, tail);
  }

  lemma FieldIsColumn(line: string, mount: string)
    requires |Fields(line)| >= 2 && Fields(line)[1] == mount
    ensures IsSecondColumn(line, mount)
  {
    hide Fields, IsSpace;
    var lead, device, tail := FirstWord(line);
    var gap, word, rest := FirstWord(tail);
    assert device != "" && word != "" && word == mount;
    assert tail == gap + mount + rest;
    assert tail[0] == (gap + mount)[0] && !IsSpace(mount[0]);
    assert line == lead + device + gap + mount + rest;
    assert Columns(line, lead, device, gap, mount, rest);
  }

  lemma SecondColumn(line: string, mount: string)
    ensures IsSecondColumn(line, mount) <==> |Fields(line)| >= 2 && Fields(line)[1] == mount
  {
    hide Fields, IsSpace;
    if IsSecondColumn(line, mount) {
      var lead, device, gap, rest :| Columns(line, lead, device, gap, mount, rest);
      ColumnIsField(line, lead, device, gap, mount, rest);
    }
    if |Fields(line)| >= 2 && Fields(line)[1] == mount {
      FieldIsColumn(line, mount);
    }
  }

  /** A mount point is listed when it is the second column of a line. */
  lemma ListedExactly(lines: seq<string>, mount: string)
    ensures Listed(lines, mount) <==> exists i :: 0 <= i < |lines| && IsSecondColumn(lines[i], mount)
  {
    hide Fields, IsSecondColumn;
    forall i | 0 <= i < |lines|
      ensures IsSecondColumn(lines[i], mount) <==> |Fields(lines[i])| >= 2 && Fields(lines[i])[1] == mount
    {
      SecondColumn(lines[i], mount);
    }
  }

  datatype MountError = OpenFailed | ScanFailed | NoMount

  /** `quotaMountForWithMounts`; `table` holds the lines the scanner yields,
      `None` when the file cannot be opened, and `scanOk` tells whether the scan
      reached the end.  The answer is a longest listed mount holding the path. */
  method QuotaMountFor(cwd: string, path: string, table: Option<seq<string>>, scanOk: bool)
    returns (mount: Result<string, MountError>)
    ensures mount == Err(OpenFailed) <==> table == None
    ensures mount == Err(ScanFailed) <==> table.Some? && !scanOk
    ensures mount == Err(NoMount) <==>
      table.Some? && scanOk && forall mp :: Listed(table.value, mp) ==> !Holds(mp, Target(cwd, path))
    ensures mount.Ok? ==> Listed(table.value, mount.value) && Holds(mount.value, Target(cwd, path))
    ensures mount.Ok? ==> forall mp ::
      Listed(table.value, mp) && Holds(mp, Target(cwd, path)) ==> |mp| <= |mount.value|
  {
    if table == None {
      return Err(OpenFailed);
    }
    var lines := table.value;
    var abs := Abs(cwd, path);
    if abs != "/" {
      abs := TrimRightSlash(abs);
    }
    var best := "";
    for i := 0 to |lines|
      invariant best != "" ==> Listed(lines[..i], best) && Holds(best, abs)
      invariant forall j :: 0 <= j < i && |Fields(lines[j])| >= 2 && Holds(Fields(lines[j])[1], abs) ==>
        best != "" && |Fields(lines[j])[1]| <= |best|
    {
      var fields := Fields(lines[i]);
      assert best != "" ==> Listed(lines[..i + 1], best) by {
        if best != "" {
          var k :| 0 <= k < |lines[..i]| && |Fields(lines[..i][k])| >= 2 && Fields(lines[..i][k])[1] == best;
          assert lines[..i + 1][k] == lines[..i][k];
        }
      }
      if |fields| < 2 {
        continue;
      }
      var mp := fields[1];
      assert mp in fields && mp != "";
      if mp == abs || mp == "/" || mp + "/" <= abs {
        if |mp| > |best| {
          best := mp;
          assert lines[..i + 1][i] == lines[i];
        }
      }
    }
    assert lines[..|lines|] == lines;
    if !scanOk {
      return Err(ScanFailed);
    }
    return if best == "" then Err(NoMount) else Ok(best);
  }

  /** Every mount point in the table is a clean absolute path. */
  ghost predicate Normalised(lines: seq<string>) {
    forall mp :: Listed(lines, mp) ==> IsAbs(mp) && Clean(mp) == mp
  }

  lemma HoldsIsComponentPrefix(mount: seq<string>, comps: seq<string>)
    requires Canonical(true, mount) && Canonical(true, comps)
    ensures Holds(Render(true, mount), Render(true, comps)) <==> mount <= comps
  {
    WithinIsComponentPrefix(mount, comps);
    RenderedComps(true, mount);
    RenderedComps(true, comps);
    assert mount == [] <==> Render(true, mount) == "/" by {
      if mount != [] { JoinHead(mount); }
    }
  }

  lemma LongerPrefix(a: seq<string>, b: seq<string>, p: seq<string>)
    requires a <= p && b <= p && |Render(true, a)| <= |Render(true, b)|
    requires Canonical(true, b) && Canonical(true, a)
    ensures a <= b
  {
    if |b| < |a| {
      var rest := a[|b|..];
      assert a == b + rest;
      if b != [] {
        JoinAppend(b, rest, '/');
      } else {
        JoinHead(a);
      }
    }
  }

  lemma {:induction false} TrimNothing(comps: seq<string>)
    requires comps != [] && Canonical(true, comps)
    ensures Join(comps, '/') != "" && Join(comps, '/')[|Join(comps, '/')| - 1] != '/'
  {
    if |comps| > 1 {
      forall i | 0 <= i < |comps[1..]|
        ensures comps[1..][i] == comps[i + 1]
      {}
      TrimNothing(comps[1..]);
    }
  }

  /** A path as the process sees it. */
  function FromRoot(cwd: string, path: string): string {
    if |path| > 0 && path[0] == '/' then path else cwd + "/" + path
  }

  /** The scan looks for the cleaned path, without a slash at its end. */
  lemma TargetIsClean(cwd: string, path: string)
    requires IsAbs(cwd)
    ensures Target(cwd, path) == Render(true, CleanComps(FromRoot(cwd, path)))
    ensures Canonical(true, CleanComps(FromRoot(cwd, path)))
  {
    var raw := FromRoot(cwd, path);
    CleanCompsCanonical(raw);
    var comps := CleanComps(raw);
    assert Abs(cwd, path) == Render(true, comps);
    if comps != [] {
      TrimNothing(comps);
    }
  }

  /** For a normalised table, a longest holding mount is the innermost one: it
      is a component prefix of the path, and so is every other holding mount of it. */
  lemma InnermostMount(cwd: string, path: string, lines: seq<string>, mount: string)
    requires IsAbs(cwd) && Normalised(lines)
    requires Listed(lines, mount) && Holds(mount, Target(cwd, path))
    requires forall mp :: Listed(lines, mp) && Holds(mp, Target(cwd, path)) ==> |mp| <= |mount|
    ensures CleanComps(mount) <= CleanComps(FromRoot(cwd, path))
    ensures forall mp :: Listed(lines, mp) ==>
      && (Holds(mp, Target(cwd, path)) <==> CleanComps(mp) <= CleanComps(FromRoot(cwd, path)))
      && (Holds(mp, Target(cwd, path)) <==> CleanComps(mp) <= CleanComps(mount))
  {
    TargetIsClean(cwd, path);
    var comps := CleanComps(FromRoot(cwd, path));
    RenderedComps(true, comps);
    CleanCompsCanonical(mount);
    HoldsIsComponentPrefix(CleanComps(mount), comps);
    forall mp | Listed(lines, mp)
      ensures Holds(mp, Target(cwd, path)) <==> CleanComps(mp) <= comps
      ensures Holds(mp, Target(cwd, path)) <==> CleanComps(mp) <= CleanComps(mount)
    {
      CleanCompsCanonical(mp);
      HoldsIsComponentPrefix(CleanComps(mp), comps);
      if Holds(mp, Target(cwd, path)) {
        LongerPrefix(CleanComps(mp), CleanComps(mount), comps);
      }
    }
  }
}
