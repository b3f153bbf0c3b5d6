/** files.copy and files.move (files_copy.go, files_move.go) over a file system
    whose every operation may fail: which ones do is part of the input. */
module FileOps {
  import opened FileTree
  import Paths

  /** `p` and everything beneath it aside, the two trees are the same. */
  predicate SameOutside(a: Tree, b: Tree, p: Path) {
    && (forall q :: q in a && !(p <= q) ==> q in b && b[q] == a[q])
    && (forall q :: q in b && !(p <= q) ==> q in a)
  }

  /** Everything under `p` is as in `base`. */
  predicate SameUnder(t: Tree, base: Tree, p: Path) {
    && (forall q :: q in t && p <= q ==> q in base && base[q] == t[q])
    && (forall q :: q in base && p <= q ==> q in t)
  }

  /** A node of this kind can be put at `target`: a directory wherever no
      ancestor is something else, a file or link in a directory that is there. */
  predicate Placeable(t: Tree, n: Node, target: Path)
    requires target != []
  {
    match n
    case Special => true
    case Dir => forall j :: 0 <= j <= |target| && target[..j] in t ==> t[target[..j]].Dir?
    case _ => HasDir(t, Parent(target))
  }

  class FileSystem {
    var nodes: Tree
    /** The entries at which some operation of a copy fails. */
    const broken: set<Path>

    constructor (nodes: Tree, broken: set<Path>)
      ensures this.nodes == nodes && this.broken == broken
    {
      this.nodes, this.broken := nodes, broken;
    }

    /** `os.Symlink`. */
    method Symlink(target: string, p: Path, works: bool) returns (ok: bool)
      requires WellFormed(nodes) && p != []
      modifies this
      ensures WellFormed(nodes)
      ensures ok <==> works && p !in old(nodes) && HasDir(old(nodes), Parent(p))
      ensures nodes == if ok then old(nodes)[p := Link(target)] else old(nodes)
    {
      ok := works && p !in nodes && HasDir(nodes, Parent(p));
      if ok {
        nodes := nodes[p := Link(target)];
      }
    }

    /** `copyFile`: an exclusive create, then the content; a failure may leave
        a truncated target behind. */
    method CopyFile(src: Path, dst: Path, works: bool) returns (n: nat, ok: bool)
      requires WellFormed(nodes) && dst != []
      requires src in nodes && nodes[src].File?
      modifies this
      ensures WellFormed(nodes)
      ensures ok <==> works && dst !in old(nodes) && HasDir(old(nodes), Parent(dst))
      ensures ok ==> nodes == old(nodes)[dst := old(nodes)[src]] && n == |old(nodes)[src].content|
      ensures !ok ==> (nodes == old(nodes)
                       || (dst !in old(nodes) && dst in nodes && nodes == old(nodes)[dst := nodes[dst]]))
    {
      n, ok := 0, false;
      var opens: bool, creates: bool, copies: bool := *, *, *;
      opens, creates, copies := opens || works, creates || works, copies || works;
      if !opens || !creates || dst in nodes || !HasDir(nodes, Parent(dst)) {
        return;
      }
      var content := nodes[src].content;
      n := |content|;
      if !copies {
        n :| 0 <= n <= |content|;
      }
      assert content[..|content|] == content;
      nodes := nodes[dst := File(content[..n])];
      ok := works;
    }

    /** `os.MkdirAll`: creates the missing prefixes outermost first, up to the
        first obstacle. */
    method MkdirAll(p: Path, works: bool) returns (ok: bool)
      requires WellFormed(nodes)
      modifies this
      ensures WellFormed(nodes)
      ensures ok <==> works && forall j :: 0 <= j <= |p| && p[..j] in old(nodes) ==> old(nodes)[p[..j]].Dir?
      ensures ok ==> nodes == AddDirs(old(nodes), p) && HasDir(nodes, p)
      ensures !ok ==> exists k :: 0 <= k <= |p| && nodes == AddDirs(old(nodes), p[..k])
    {
      assert p[..0] == [] && p[..|p|] == p;
      var made :| 0 <= made <= |p| && forall j :: 0 <= j <= made && p[..j] in nodes ==> nodes[p[..j]].Dir?;
      ok := works && forall j :: 0 <= j <= |p| && p[..j] in nodes ==> nodes[p[..j]].Dir?;
      if ok {
        made := |p|;
      }
      forall j | 0 <= j <= made
        ensures p[..made][..j] == p[..j]
      {}
      AddDirsWellFormed(nodes, p[..made]);
      nodes := AddDirs(nodes, p[..made]);
    }

    /** `os.RemoveAll`: children go before their directory. */
    method RemoveAll(p: Path, works: bool)
      requires WellFormed(nodes) && p != []
      modifies this
      ensures WellFormed(nodes)
      ensures works ==> nodes == Removed(old(nodes), p)
      ensures SameOutside(nodes, old(nodes), p)
    {
      if works {
        nodes := Removed(nodes, p);
      } else {
        var kept :| {} <= kept <= Below(nodes, p) && forall q :: q in kept && q != p ==> Parent(q) in kept;
        nodes := map q | q in nodes && (!(p <= q) || q in kept) :: nodes[q];
      }
    }

    /** The names in a directory, in some order. */
    method ReadDirNames(p: Path) returns (names: seq<string>)
      ensures forall n :: n in names <==> p + [n] in nodes
      ensures forall i, j :: 0 <= i < j < |names| ==> names[i] != names[j]
    {
      names := [];
      var left := set q | q in nodes && |q| == |p| + 1 && p <= q;
      ghost var all := left;
      while left != {}
        invariant left <= all
        invariant forall n :: n in names <==> p + [n] in all - left
        invariant forall i, j :: 0 <= i < j < |names| ==> names[i] != names[j]
        decreases left
      {
        var q :| q in left;
        assert q == p + [q[|p|]];
        left, names := left - {q}, names + [q[|p|]];
      }
    }

    /** `os.Rename` to a path that does not exist. */
    method Rename(src: Path, dst: Path, works: bool) returns (ok: bool)
      requires WellFormed(nodes) && src != [] && dst != [] && dst !in nodes && !(src <= dst)
      modifies this
      ensures ok <==> works && src in old(nodes) && HasDir(old(nodes), Parent(dst))
      ensures nodes == if ok then Renamed(old(nodes), src, dst) else old(nodes)
    {
      ok := works && src in nodes && HasDir(nodes, Parent(dst));
      if ok {
        nodes := Renamed(nodes, src, dst);
      }
    }

    /** copyTree's walk from `p` down: `p` is reproduced at its target, then,
        for a directory, every entry read beforehand. */
    method Walk(src: Path, dst: Path, p: Path, ghost base: Tree) returns (total: nat, ok: bool)
      requires WellFormed(nodes) && WellFormed(base) && dst != []
      requires src <= p && p in base
      requires SameUnder(nodes, base, src)
      requires !(src <= dst) && !(dst <= src)
      requires Below(nodes, Moved(src, dst, p)) == {}
      modifies this
      ensures WellFormed(nodes) && SameUnder(nodes, base, src)
      ensures ok <==> Below(base, p) !! broken && Placeable(old(nodes), base[p], Moved(src, dst, p))
      ensures ok ==> nodes == CopiedBelow(old(nodes), base, src, dst, p)
      ensures ok ==> total == Bytes(base, Below(base, p))
      ensures !ok ==> LeftBehind(nodes, old(nodes), Moved(src, dst, p), dst)
      decreases Below(base, p), 2
    {
      hide Below, AddDirs, Image, Bytes, WellFormed, CopiedBelow, LeftBehind;
      total, ok := 0, false;
      var target := Moved(src, dst, p);
      NothingLeftBehind(nodes, target, dst);
      AddedElsewhere(src, dst, target);
      NothingBelowIs(nodes, target);
      BelowNests(base, src, p);
      var works, visible: bool := p !in broken, *;
      if !works && (nodes[p].Special? || !visible) {
        return;
      }
      if !nodes[p].Dir? {
        LeafBelow(base, p);
        LeafCopied(nodes, base, src, dst, p);
      }
      match nodes[p] {
        case Link(to) =>
          ok := Symlink(to, target, works);
        case Dir =>
          total, ok := WalkDir(src, dst, p, works, base);
        case File(_) =>
          total, ok := CopyFile(p, target, works);
        case Special =>
          ok := true;
      }
    }

    /** The walk of a directory: its names are read, then it is created, then
        its entries are walked. */
    method WalkDir(src: Path, dst: Path, p: Path, works: bool, ghost base: Tree) returns (total: nat, ok: bool)
      requires WellFormed(nodes) && WellFormed(base) && dst != []
      requires src <= p && HasDir(base, p) && works == (p !in broken)
      requires SameUnder(nodes, base, src)
      requires !(src <= dst) && !(dst <= src)
      requires Below(nodes, Moved(src, dst, p)) == {}
      modifies this
      ensures WellFormed(nodes) && SameUnder(nodes, base, src)
      ensures ok <==> Below(base, p) !! broken && Placeable(old(nodes), Dir, Moved(src, dst, p))
      ensures ok ==> nodes == CopiedBelow(old(nodes), base, src, dst, p)
      ensures ok ==> total == Bytes(base, Below(base, p))
      ensures !ok ==> LeftBehind(nodes, old(nodes), Moved(src, dst, p), dst)
      decreases Below(base, p), 1
    {
      hide LeftBehind, CopiedBelow, Bytes, AddDirs, Image, Visited;
      total, ok := 0, false;
      var target := Moved(src, dst, p);
      NothingLeftBehind(nodes, target, dst);
      BelowNests(base, src, p);
      var readable: bool := *;
      if !readable && !works {
        return;
      }
      var names := ReadDirNames(p);
      assert forall n :: n in names <==> p + [n] in base;
      EverythingVisited(base, p, names);
      var made := MkdirAll(target, works);
      DirsElsewhere(old(nodes), base, src, dst, target);
      if !made {
        DirsLeftBehind(nodes, old(nodes), target, dst);
        return;
      }
      DirCreated(old(nodes), target);
      total, ok := WalkEntries(src, dst, p, names, base);
      if ok {
        DirCopied(old(nodes), base, src, dst, p, names);
      } else {
        ParentLeftBehind(nodes, old(nodes), target, dst);
      }
    }

    /** The rest of the walk: every entry of the directory `p`. */
    method WalkEntries(src: Path, dst: Path, p: Path, names: seq<string>, ghost base: Tree) returns (total: nat,
        ok: bool)
      requires WellFormed(nodes) && WellFormed(base) && dst != []
      requires src <= p && p in base
      requires SameUnder(nodes, base, src)
      requires !(src <= dst) && !(dst <= src)
      requires forall n :: n in names ==> p + [n] in base
      requires forall i, j :: 0 <= i < j < |names| ==> names[i] != names[j]
      requires Below(nodes, Moved(src, dst, p)) == {Moved(src, dst, p)} && HasDir(nodes, Moved(src, dst, p))
      modifies this
      ensures WellFormed(nodes) && SameUnder(nodes, base, src)
      ensures ok <==> Visited(base, p, names) !! broken
      ensures ok ==> nodes == old(nodes) + Image(base, src, dst, Visited(base, p, names))
      ensures ok ==> total == Bytes(base, Visited(base, p, names))
      ensures !ok ==> SameOutside(nodes, old(nodes), dst)
      decreases Below(base, p), 0
    {
      hide Below, Visited, AddDirs, Image, Bytes, WellFormed, CopiedBelow;
      total, ok := 0, true;
      var target := Moved(src, dst, p);
      BelowNests(base, src, p);
      NothingVisited(nodes, base, src, dst, p);
      for i := 0 to |names|
        invariant WellFormed(nodes) && SameUnder(nodes, base, src)
        invariant Visited(base, p, names[..i]) !! broken
        invariant nodes == old(nodes) + Image(base, src, dst, Visited(base, p, names[..i]))
        invariant total == Bytes(base, Visited(base, p, names[..i]))
      {
        var c := p + [names[i]];
        ghost var before := nodes;
        assert Moved(src, dst, c) == target + [names[i]];
        NotYetVisited(old(nodes), base, src, dst, p, names, i);
        ChildBelow(base, p, names[i]);
        EntryDone(old(nodes), before, base, src, dst, p, names, i);
        ChildPlaceable(nodes, base[c], target, names[i]);
        VisitedStep(base, p, names, i);
        VisitedMore(base, p, names, i + 1);
        var n, done := Walk(src, dst, c, base);
        ImageInside(old(nodes), base, src, dst, Visited(base, p, names[..i]));
        if !done {
          ChildLeftBehind(nodes, before, target, names[i], dst);
          return total, false;
        }
        total := total + n;
      }
      assert names[..|names|] == names;
    }

    /** `copyTree`. */
    method CopyTree(src: Path, dst: Path) returns (total: nat, ok: bool)
      requires WellFormed(nodes) && dst != [] && dst !in nodes && !(src <= dst)
      modifies this
      ensures WellFormed(nodes)
      ensures ok <==>
        && src in old(nodes) && Below(old(nodes), src) !! broken && Placeable(old(nodes), old(nodes)[src], dst)
      ensures ok ==>
        && src in old(nodes) && nodes == Copied(old(nodes), src, dst)
        && total == Bytes(old(nodes), Below(old(nodes), src))
      ensures !ok ==> LeftBehind(nodes, old(nodes), dst, dst)
    {
      NothingLeftBehind(nodes, dst, dst);
      if src !in nodes {
        return 0, false;
      }
      NothingBelowMissing(nodes, dst);
      assert !(dst <= src) by {
        assert src in Below(nodes, dst) <==> dst <= src;
      }
      assert Moved(src, dst, src) == dst;
      total, ok := Walk(src, dst, src, nodes);
    }

    /** files.copy after both paths were resolved.  `cleanOk` says whether the
        cleanup of a failed copy goes through. */
    method FilesCopy(src: Path, dst: Path, cleanOk: bool) returns (r: CopyResult)
      requires WellFormed(nodes) && dst != []
      requires Paths.Canonical(true, src) && Paths.Canonical(true, dst)
      requires dst !in nodes ==> forall i :: 0 <= i < |dst| ==> !Paths.StartsDotDot(dst[i])
      modifies this
      ensures WellFormed(nodes)
      ensures r.Refused? <==> src <= dst || dst in old(nodes)
      ensures r.Refused? ==> nodes == old(nodes)
      ensures r.Completed? <==>
        && !(src <= dst) && dst !in old(nodes)
        && src in old(nodes) && Below(old(nodes), src) !! broken && Placeable(old(nodes), old(nodes)[src], dst)
      ensures r.Completed? ==>
        && src in old(nodes) && nodes == Copied(old(nodes), src, dst)
        && r.bytes == Bytes(old(nodes), Below(old(nodes), src))
      ensures r.Failed? ==> LeftBehind(nodes, old(nodes), dst, dst)
      ensures r.Failed? && cleanOk ==>
        exists k :: 0 <= k < |dst| && nodes == AddDirs(old(nodes), dst[..k])
      ensures r.Failed? && cleanOk && HasDir(old(nodes), Parent(dst)) ==> nodes == old(nodes)
    {
      Paths.DescendantIsComponentPrefix(src, dst);
      if src == dst || Paths.IsDescendant(Paths.Render(true, src), Paths.Render(true, dst)) || dst in nodes {
        return Refused;
      }
      var total, ok := CopyTree(src, dst);
      if !ok {
        ghost var partial := nodes;
        RemoveAll(dst, cleanOk);
        CleanedUp(nodes, partial, old(nodes), dst, cleanOk);
        return Failed;
      }
      return Completed(total);
    }

    /** files.move after both paths were resolved; `works` is the outcome of the
        rename. */
    method FilesMove(src: Path, dst: Path, works: bool) returns (r: MoveResult)
      requires WellFormed(nodes) && dst != []
      requires Paths.Canonical(true, src) && Paths.Canonical(true, dst)
      requires dst !in nodes ==> forall i :: 0 <= i < |dst| ==> !Paths.StartsDotDot(dst[i])
      modifies this
      ensures WellFormed(nodes)
      ensures r == MoveRefused <==> src <= dst || dst in old(nodes)
      ensures r == MoveDone <==>
        !(src <= dst) && dst !in old(nodes) && works && src in old(nodes) && HasDir(old(nodes), Parent(dst))
      ensures r == MoveDone ==> nodes == Renamed(old(nodes), src, dst)
      ensures r != MoveDone ==> nodes == old(nodes)
    {
      Paths.DescendantIsComponentPrefix(src, dst);
      if src == dst || Paths.IsDescendant(Paths.Render(true, src), Paths.Render(true, dst)) || dst in nodes {
        return MoveRefused;
      }
      var ok := Rename(src, dst, works);
      if !ok {
        return MoveFailed;
      }
      RenamedWellFormed(old(nodes), src, dst);
      return MoveDone;
    }
  }

  datatype CopyResult = Completed(bytes: nat) | Refused | Failed

  datatype MoveResult = MoveDone | MoveRefused | MoveFailed

  /** `t` once `p` and all below it have been reproduced. */
  ghost function CopiedBelow(t: Tree, base: Tree, src: Path, dst: Path, p: Path): Tree
    requires src <= p && p in base && dst != []
  {
    Grounded(t, base, src, dst, p) + Image(base, src, dst, Below(base, p))
  }

  /** Reproducing a directory first creates the missing ancestors of its target. */
  ghost function Grounded(t: Tree, base: Tree, src: Path, dst: Path, p: Path): Tree
    requires src <= p && p in base && dst != []
  {
    if base[p].Dir? then AddDirs(t, Parent(Moved(src, dst, p))) else t
  }

  lemma AddDirsStep(t: Tree, p: Path)
    requires p != []
    ensures AddDirs(t, p) == if p in t then AddDirs(t, Parent(p)) else AddDirs(t, Parent(p))[p := Dir]
  {
    PrefixesStep(p);
    hide Prefixes, Parent;
  }

  lemma PrefixesStep(p: Path)
    requires p != []
    ensures Prefixes(p) == Prefixes(Parent(p)) + {p}
  {
    var a := Parent(p);
    assert forall j :: 0 <= j < |p| ==> a[..j] == p[..j];
    assert p[..|p|] == p;
  }

  /** The entries of `p` listed in `names`, with everything below them. */
  ghost function Visited(base: Tree, p: Path, names: seq<string>): (nodes: set<Path>)
    ensures nodes <= Below(base, p)
  {
    set q | q in Below(base, p) && |q| > |p| && q[|p|] in names
  }

  /** A failed step changes nothing outside `dst` except, at most, leading
      directories created on the way to `target`. */
  ghost predicate LeftBehind(now: Tree, before: Tree, target: Path, dst: Path) {
    exists k :: 0 <= k < |target| && SameOutside(now, AddDirs(before, target[..k]), dst)
  }

  lemma NothingLeftBehind(t: Tree, target: Path, dst: Path)
    requires WellFormed(t) && target != []
    ensures LeftBehind(t, t, target, dst)
    ensures forall now :: SameOutside(now, t, dst) ==> LeftBehind(now, t, target, dst)
  {
    AddDirsPresent(t, [], 0);
    assert target[..0] == [][..0];
    assert AddDirs(t, target[..0]) == t;
  }

  lemma LastDirIsInside(t: Tree, target: Path, dst: Path)
    requires dst != [] && dst <= target
    ensures SameOutside(AddDirs(t, target), AddDirs(t, target[..|target| - 1]), dst)
  {
    AddDirsStep(t, target);
    hide AddDirs;
  }

  lemma DirsLeftBehind(now: Tree, before: Tree, target: Path, dst: Path)
    requires dst != [] && dst <= target
    requires exists k :: 0 <= k <= |target| && now == AddDirs(before, target[..k])
    ensures LeftBehind(now, before, target, dst)
  {
    var k :| 0 <= k <= |target| && now == AddDirs(before, target[..k]);
    if k == |target| {
      assert target[..k] == target;
      LastDirIsInside(before, target, dst);
    } else {
      assert SameOutside(now, AddDirs(before, target[..k]), dst);
    }
  }

  lemma ChildLeftBehind(now: Tree, before: Tree, target: Path, name: string, dst: Path)
    requires WellFormed(before) && HasDir(before, target)
    requires LeftBehind(now, before, target + [name], dst)
    ensures SameOutside(now, before, dst)
  {
    var k :| 0 <= k < |target + [name]| && SameOutside(now, AddDirs(before, (target + [name])[..k]), dst);
    assert (target + [name])[..k] == target[..k];
    AddDirsPresent(before, target, k);
  }

  lemma AddedElsewhere(src: Path, dst: Path, target: Path)
    requires dst <= target && !(src <= dst) && !(dst <= src)
    ensures !(src <= target)
  {
    if src <= target {
      PrefixesCompare(src, dst, target);
    }
  }

  lemma ParentLeftBehind(now: Tree, before: Tree, target: Path, dst: Path)
    requires target != [] && SameOutside(now, AddDirs(before, Parent(target)), dst)
    ensures LeftBehind(now, before, target, dst)
  {
    assert target[..|target| - 1] == Parent(target);
  }

  lemma DirsElsewhere(t: Tree, base: Tree, src: Path, dst: Path, target: Path)
    requires dst <= target && !(src <= dst) && !(dst <= src)
    requires SameUnder(t, base, src)
    ensures forall k :: 0 <= k <= |target| ==> SameUnder(AddDirs(t, target[..k]), base, src)
    ensures SameUnder(AddDirs(t, target), base, src)
  {
    AddedElsewhere(src, dst, target);
    assert target[..|target|] == target;
    forall k | 0 <= k <= |target|
      ensures SameUnder(AddDirs(t, target[..k]), base, src)
    {
      assert forall j :: 0 <= j <= k ==> target[..k][..j] == target[..j];
      DirsAside(t, base, src, target[..k]);
    }
  }

  lemma DirsAside(t: Tree, base: Tree, src: Path, p: Path)
    requires SameUnder(t, base, src) && forall j :: 0 <= j <= |p| ==> !(src <= p[..j])
    ensures SameUnder(AddDirs(t, p), base, src)
  {
  }

  lemma LeafBelow(base: Tree, p: Path)
    requires WellFormed(base) && p in base
    ensures !base[p].Dir? ==> Below(base, p) == {p}
  {
    forall q | q in base && p <= q && q != p
      ensures base[p].Dir?
    {
      assert q[..|p|] == p;
      assert |q| == |p| ==> q == p;
      PrefixIsDir(base, q, |p|);
    }
  }

  lemma EverythingVisited(base: Tree, p: Path, names: seq<string>)
    requires WellFormed(base) && p in base
    requires forall n :: n in names <==> p + [n] in base
    ensures Below(base, p) == Visited(base, p, names) + {p}
    ensures p !in Visited(base, p, names)
  {
    forall q | q in Below(base, p) && q != p
      ensures q in Visited(base, p, names)
    {
      assert |q| == |p| ==> q == p;
      assert q[..|p| + 1] == p + [q[|p|]];
      if |q| > |p| + 1 {
        PrefixIsDir(base, q, |p| + 1);
      } else {
        assert q[..|p| + 1] == q;
      }
    }
  }

  lemma NothingVisited(t: Tree, base: Tree, src: Path, dst: Path, p: Path)
    requires src <= p
    ensures Visited(base, p, []) == {} && Bytes(base, {}) == 0
    ensures t + Image(base, src, dst, {}) == t
  {
  }

  lemma ImageInside(t: Tree, base: Tree, src: Path, dst: Path, done: set<Path>)
    requires done <= Below(base, src)
    ensures SameOutside(t + Image(base, src, dst, done), t, dst)
  {
  }

  lemma BelowNests(base: Tree, src: Path, p: Path)
    requires src <= p
    ensures Below(base, p) <= Below(base, src)
    ensures p in base ==> p in Below(base, p)
  {
  }

  lemma ImageUnion(base: Tree, src: Path, dst: Path, a: set<Path>, b: set<Path>)
    requires a <= Below(base, src) && b <= Below(base, src)
    ensures Image(base, src, dst, a + b) == Image(base, src, dst, a) + Image(base, src, dst, b)
  {
    forall q | dst <= q
      ensures q in Targets(base, src, dst, a + b)
          <==> q in Targets(base, src, dst, a) || q in Targets(base, src, dst, b)
    {
      MovedBack(dst, src, q);
    }
  }

  lemma ImageSplits(base: Tree, src: Path, dst: Path, p: Path, names: seq<string>)
    requires src <= p && HasDir(base, p)
    requires Below(base, p) == Visited(base, p, names) + {p}
    ensures Image(base, src, dst, Below(base, p))
         == map[Moved(src, dst, p) := Dir] + Image(base, src, dst, Visited(base, p, names))
    ensures Moved(src, dst, p) !in Image(base, src, dst, Visited(base, p, names))
  {
    ImageUnion(base, src, dst, {p}, Visited(base, p, names));
    MovedBack(src, dst, p);
    forall q | q in Targets(base, src, dst, {p})
      ensures q == Moved(src, dst, p)
    {
      MovedBack(dst, src, q);
    }
    assert Image(base, src, dst, {p}) == map[Moved(src, dst, p) := Dir];
    assert Visited(base, p, names) + {p} == {p} + Visited(base, p, names);
  }

  lemma NotYetVisited(t: Tree, base: Tree, src: Path, dst: Path, p: Path, names: seq<string>, i: nat)
    requires src <= p && p in base && i < |names|
    requires forall i, j :: 0 <= i < j < |names| ==> names[i] != names[j]
    requires Below(t, Moved(src, dst, p)) == {Moved(src, dst, p)}
    ensures Below(t + Image(base, src, dst, Visited(base, p, names[..i])), Moved(src, dst, p) + [names[i]]) == {}
    ensures HasDir(t, Moved(src, dst, p)) ==>
      HasDir(t + Image(base, src, dst, Visited(base, p, names[..i])), Moved(src, dst, p))
  {
    MovedBack(src, dst, p);
    var here := Moved(src, dst, p);
    var target := here + [names[i]];
    forall q | target <= q
      ensures q !in t && q !in Targets(base, src, dst, Visited(base, p, names[..i]))
    {
      assert q[..|target|] == target;
      assert here <= q && q != here;
      assert q in t ==> q in Below(t, here);
      assert dst <= q;
      assert |Moved(dst, src, q)| > |p| ==> Moved(dst, src, q)[|p|] == q[|target| - 1];
    }
  }

  lemma NothingBelowIs(t: Tree, p: Path)
    requires Below(t, p) == {}
    ensures p !in t
  {
    assert p in t ==> p in Below(t, p);
  }

  /** In a directory that is there any entry can be put. */
  lemma ChildPlaceable(t: Tree, n: Node, target: Path, name: string)
    requires WellFormed(t) && HasDir(t, target) && Below(t, target + [name]) == {}
    ensures Placeable(t, n, target + [name])
  {
    var c := target + [name];
    NothingBelowIs(t, c);
    assert Parent(c) == target && c[..|c|] == c;
    forall j | 0 <= j <= |c| && c[..j] in t
      ensures t[c[..j]].Dir?
    {
      if j < |target| {
        assert c[..j] == target[..j];
        PrefixIsDir(t, target, j);
      } else if j == |target| {
        assert c[..j] == target;
      }
    }
  }

  lemma VisitedMore(base: Tree, p: Path, names: seq<string>, i: nat)
    requires i <= |names|
    ensures Visited(base, p, names[..i]) <= Visited(base, p, names)
  {
  }

  lemma ChildBelow(base: Tree, p: Path, name: string)
    requires p in base
    ensures Below(base, p + [name]) < Below(base, p)
  {
    assert p in Below(base, p) && p !in Below(base, p + [name]);
  }

  lemma VisitedStep(base: Tree, p: Path, names: seq<string>, i: nat)
    requires i < |names| && forall i, j :: 0 <= i < j < |names| ==> names[i] != names[j]
    ensures Visited(base, p, names[..i + 1]) == Visited(base, p, names[..i]) + Below(base, p + [names[i]])
    ensures Visited(base, p, names[..i]) !! Below(base, p + [names[i]])
  {
    forall q | q in base
      ensures p + [names[i]] <= q <==> p <= q && |q| > |p| && q[|p|] == names[i]
    {
      if p <= q && |q| > |p| && q[|p|] == names[i] {
        assert q[..|p| + 1] == p + [names[i]];
      }
    }
  }

  lemma LeafCopied(t: Tree, base: Tree, src: Path, dst: Path, p: Path)
    requires WellFormed(base) && src <= p && p in base && !base[p].Dir? && dst != []
    ensures CopiedBelow(t, base, src, dst, p)
         == if base[p].Special? then t else t[Moved(src, dst, p) := base[p]]
    ensures Bytes(base, Below(base, p)) == Size(base[p])
  {
    LeafBelow(base, p);
    BytesRemove(base, {p}, p);
    assert {p} - {p} == {};
    MovedBack(src, dst, p);
    forall q | q in Targets(base, src, dst, {p})
      ensures q == Moved(src, dst, p)
    {
      MovedBack(dst, src, q);
    }
  }

  lemma DirCreated(t: Tree, target: Path)
    requires target != [] && Below(t, target) == {}
    ensures AddDirs(t, target) == AddDirs(t, Parent(target))[target := Dir]
    ensures Below(AddDirs(t, target), target) == {target}
  {
    assert target !in t by {
      assert target in t ==> target in Below(t, target);
    }
    AddDirsStep(t, target);
    forall q | q in AddDirs(t, target) && target <= q
      ensures q == target
    {
      assert q in t ==> q in Below(t, target);
      var k :| 0 <= k <= |target| && q == target[..k];
    }
  }

  lemma DirCopied(t: Tree, base: Tree, src: Path, dst: Path, p: Path, names: seq<string>)
    requires WellFormed(base) && src <= p && HasDir(base, p) && dst != []
    requires forall n :: n in names <==> p + [n] in base
    requires Below(t, Moved(src, dst, p)) == {}
    ensures AddDirs(t, Moved(src, dst, p)) + Image(base, src, dst, Visited(base, p, names))
         == CopiedBelow(t, base, src, dst, p)
    ensures Bytes(base, Visited(base, p, names)) == Bytes(base, Below(base, p))
  {
    hide Visited, AddDirs, Image, Bytes, WellFormed;
    EverythingVisited(base, p, names);
    BelowNests(base, src, p);
    ImageSplits(base, src, dst, p, names);
    DirCreated(t, Moved(src, dst, p));
    BytesRemove(base, Below(base, p), p);
    assert Below(base, p) - {p} == Visited(base, p, names);
  }

  lemma EntryDone(t: Tree, before: Tree, base: Tree, src: Path, dst: Path, p: Path, names: seq<string>, i: nat)
    requires src <= p && p in base && dst != [] && i < |names| && p + [names[i]] in base
    requires forall i, j :: 0 <= i < j < |names| ==> names[i] != names[j]
    requires before == t + Image(base, src, dst, Visited(base, p, names[..i]))
    requires WellFormed(before) && HasDir(before, Moved(src, dst, p))
    ensures CopiedBelow(before, base, src, dst, p + [names[i]])
         == t + Image(base, src, dst, Visited(base, p, names[..i + 1]))
    ensures Bytes(base, Visited(base, p, names[..i + 1]))
         == Bytes(base, Visited(base, p, names[..i])) + Bytes(base, Below(base, p + [names[i]]))
  {
    hide Below, Visited, AddDirs, Image, Bytes, WellFormed;
    var c, target := p + [names[i]], Moved(src, dst, p);
    assert Moved(src, dst, c) == target + [names[i]];
    BelowNests(base, src, p);
    BelowNests(base, src, c);
    assert Parent(Moved(src, dst, c)) == target[..|target|] == target;
    AddDirsPresent(before, target, |target|);
    VisitedStep(base, p, names, i);
    BytesUnion(base, Visited(base, p, names[..i]), Below(base, c));
    ImageUnion(base, src, dst, Visited(base, p, names[..i]), Below(base, c));
  }

  lemma NothingAdded(before: Tree, dst: Path, k: nat)
    requires k < |dst| && Below(before, dst) == {} && dst !in before
    ensures forall q :: q in AddDirs(before, dst[..k]) ==> !(dst <= q)
  {
    forall q | q in AddDirs(before, dst[..k])
      ensures !(dst <= q)
    {
      assert q in before && dst <= q ==> q in Below(before, dst);
    }
  }

  lemma OnlyDirsLeft(now: Tree, partial: Tree, dirs: Tree, dst: Path)
    requires SameOutside(now, dirs, dst) && now == Removed(partial, dst)
    requires forall q :: q in dirs ==> !(dst <= q)
    ensures now == dirs
  {
  }

  lemma CleanedUp(now: Tree, partial: Tree, before: Tree, dst: Path, removed: bool)
    requires WellFormed(before) && dst != [] && dst !in before
    requires LeftBehind(partial, before, dst, dst)
    requires SameOutside(now, partial, dst)
    requires removed ==> now == Removed(partial, dst)
    ensures LeftBehind(now, before, dst, dst)
    ensures removed ==> exists k :: 0 <= k < |dst| && now == AddDirs(before, dst[..k])
    ensures removed && HasDir(before, Parent(dst)) ==> now == before
  {
    var k :| 0 <= k < |dst| && SameOutside(partial, AddDirs(before, dst[..k]), dst);
    assert SameOutside(now, AddDirs(before, dst[..k]), dst);
    NothingBelowMissing(before, dst);
    NothingAdded(before, dst, k);
    if removed {
      OnlyDirsLeft(now, partial, AddDirs(before, dst[..k]), dst);
      if HasDir(before, Parent(dst)) {
        assert Parent(dst)[..k] == dst[..k];
        AddDirsPresent(before, Parent(dst), k);
      }
    }
  }
}
