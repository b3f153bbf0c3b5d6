/** Directory trees as maps from component paths to nodes, with the tree
    operations files.copy and files.move are made of.  No ancestor is a symbolic
    link: links are leaves. */
module FileTree {
  type Path = seq<string>

  datatype Node = Dir | File(content: string) | Link(target: string) | Special

  type Tree = map<Path, Node>

  function Parent(p: Path): Path
    requires p != []
  {
    p[..|p| - 1]
  }

  predicate HasDir(t: Tree, p: Path) {
    p in t && t[p].Dir?
  }

  /** The root is a directory and so is the parent of every node. */
  predicate WellFormed(t: Tree) {
    HasDir(t, []) && forall p :: p in t && p != [] ==> HasDir(t, Parent(p))
  }

  function Below(t: Tree, p: Path): (nodes: set<Path>)
    ensures nodes <= t.Keys
  {
    set q | q in t && p <= q
  }

  /** Where `q`, a node under `src`, goes when `src` is reproduced at `dst`. */
  function Moved(src: Path, dst: Path, q: Path): Path
    requires src <= q
  {
    dst + q[|src|..]
  }

  lemma MovedBack(src: Path, dst: Path, q: Path)
    requires src <= q
    ensures dst <= Moved(src, dst, q) && Moved(dst, src, Moved(src, dst, q)) == q
  {
  }

  /** The nodes `done` of `t`, all under `src`, reproduced under `dst`; devices,
      sockets and pipes are skipped. */
  ghost function Image(t: Tree, src: Path, dst: Path, done: set<Path>): Tree
    requires done <= Below(t, src)
  {
    map q | q in Targets(t, src, dst, done) :: t[Moved(dst, src, q)]
  }

  ghost function Targets(t: Tree, src: Path, dst: Path, done: set<Path>): (targets: set<Path>)
    requires done <= Below(t, src)
    ensures forall q :: q in targets ==> dst <= q && Moved(dst, src, q) in done && !t[Moved(dst, src, q)].Special?
    ensures forall q :: q in done && !t[q].Special? ==> Moved(src, dst, q) in targets
  {
    var kept := set q | q in done && !t[q].Special?;
    forall q | q in kept
      ensures dst <= Moved(src, dst, q) && Moved(dst, src, Moved(src, dst, q)) == q
    {
      MovedBack(src, dst, q);
    }
    set q | q in kept :: Moved(src, dst, q)
  }

  function Prefixes(p: Path): set<Path> {
    set k | 0 <= k <= |p| :: p[..k]
  }

  /** `os.MkdirAll`: the missing prefixes of `p` become directories. */
  function AddDirs(t: Tree, p: Path): Tree {
    t + map q | q in Prefixes(p) && q !in t :: Dir
  }

  /** The whole effect of a successful files.copy. */
  ghost function Copied(t: Tree, src: Path, dst: Path): Tree
    requires src in t && dst != []
  {
    (if t[src].Dir? then AddDirs(t, Parent(dst)) else t) + Image(t, src, dst, Below(t, src))
  }

  function Removed(t: Tree, p: Path): Tree {
    map q | q in t && !(p <= q) :: t[q]
  }

  /** The whole effect of a successful rename. */
  function Renamed(t: Tree, src: Path, dst: Path): Tree {
    var targets := set r | r in Below(t, src) :: Moved(src, dst, r);
    Removed(t, src) + map q | q in targets && dst <= q && Moved(dst, src, q) in t :: t[Moved(dst, src, q)]
  }

  function Size(n: Node): nat {
    if n.File? then |n.content| else 0
  }

  /** Sum of the regular-file sizes over a set of nodes. */
  ghost function Bytes(t: Tree, s: set<Path>): nat
    requires s <= t.Keys
  {
    if s == {} then 0 else var q :| q in s; Size(t[q]) + Bytes(t, s - {q})
  }

  /** Only regular files count, each with its length. */
  lemma BytesCount(t: Tree, s: set<Path>, q: Path)
    requires s <= t.Keys && q in s
    ensures Bytes(t, {}) == 0
    ensures Bytes(t, s) == Bytes(t, s - {q}) + match t[q] { case File(content) => |content| case _ => 0 }
  {
    BytesRemove(t, s, q);
    hide Bytes;
    assert Bytes(t, {}) == 0 by {
      NoBytes(t);
    }
  }

  lemma NoBytes(t: Tree)
    ensures Bytes(t, {}) == 0
  {
  }

  /** The directories above and at `p` are there, everything else is as before. */
  lemma AddDirsAt(t: Tree, p: Path, q: Path)
    ensures q in AddDirs(t, p) <==> q in t || q <= p
    ensures q in AddDirs(t, p) ==> AddDirs(t, p)[q] == if q in t then t[q] else Dir
  {
    assert q <= p ==> p[..|q|] == q && q in Prefixes(p);
  }

  lemma {:induction false} BytesRemove(t: Tree, s: set<Path>, q: Path)
    requires s <= t.Keys && q in s
    ensures Bytes(t, s) == Size(t[q]) + Bytes(t, s - {q})
    decreases |s|
  {
    var r :| r in s && Bytes(t, s) == Size(t[r]) + Bytes(t, s - {r});
    if r != q {
      BytesRemove(t, s - {r}, q);
      BytesRemove(t, s - {q}, r);
      assert s - {r} - {q} == s - {q} - {r};
    }
  }

  lemma {:induction false} BytesUnion(t: Tree, a: set<Path>, b: set<Path>)
    requires a <= t.Keys && b <= t.Keys && a !! b
    ensures Bytes(t, a + b) == Bytes(t, a) + Bytes(t, b)
    decreases |a|
  {
    if a == {} {
      assert a + b == b;
    } else {
      var q :| q in a;
      BytesRemove(t, a, q);
      BytesRemove(t, a + b, q);
      assert a + b - {q} == (a - {q}) + b;
      BytesUnion(t, a - {q}, b);
    }
  }

  lemma {:induction false} PrefixIsDir(t: Tree, p: Path, k: nat)
    requires WellFormed(t) && p in t && k < |p|
    ensures HasDir(t, p[..k])
    decreases |p|
  {
    if k < |p| - 1 {
      PrefixIsDir(t, Parent(p), k);
      assert Parent(p)[..k] == p[..k];
    }
  }

  lemma NothingBelowMissing(t: Tree, p: Path)
    requires WellFormed(t) && p !in t
    ensures Below(t, p) == {}
  {
    forall q | q in t
      ensures !(p <= q)
    {
      if p <= q {
        assert |q| == |p| ==> q == p;
        assert q[..|p|] == p;
        if |p| < |q| {
          PrefixIsDir(t, q, |p|);
        }
      }
    }
  }

  lemma AddDirsPresent(t: Tree, p: Path, k: nat)
    requires WellFormed(t) && HasDir(t, p) && k <= |p|
    ensures AddDirs(t, p[..k]) == t
  {
    forall j | 0 <= j <= k
      ensures p[..k][..j] in t
    {
      assert p[..k][..j] == p[..j];
      assert j == |p| ==> p[..j] == p;
      if j < |p| {
        PrefixIsDir(t, p, j);
      }
    }
  }

  lemma AddDirsWellFormed(t: Tree, p: Path)
    requires WellFormed(t)
    requires forall k :: 0 <= k <= |p| && p[..k] in t ==> t[p[..k]].Dir?
    ensures WellFormed(AddDirs(t, p))
    ensures HasDir(AddDirs(t, p), p)
  {
    var t' := AddDirs(t, p);
    assert p[..|p|] == p;
    forall q | q in t' && q != []
      ensures HasDir(t', Parent(q))
    {
      if q !in t {
        var k :| 0 <= k <= |p| && q == p[..k];
        assert Parent(q) == p[..k - 1];
      }
    }
  }

  /** What `Renamed` holds: everything outside `src`, and each node of `src` at
      its new place. */
  lemma RenamedAt(t: Tree, src: Path, dst: Path, q: Path)
    requires WellFormed(t) && dst !in t
    ensures q in Renamed(t, src, dst) <==> (q in t && !(src <= q)) || (dst <= q && Moved(dst, src, q) in t)
    ensures q in t && !(src <= q) ==> Renamed(t, src, dst)[q] == t[q]
    ensures dst <= q && Moved(dst, src, q) in t ==> Renamed(t, src, dst)[q] == t[Moved(dst, src, q)]
  {
    NothingBelowMissing(t, dst);
    assert q in t && dst <= q ==> q in Below(t, dst);
    if dst <= q {
      MovedBack(dst, src, q);
      assert Moved(dst, src, q) in t ==> Moved(dst, src, q) in Below(t, src);
    }
    if q in Renamed(t, src, dst) && q !in Removed(t, src) {
      var r :| r in Below(t, src) && Moved(src, dst, r) == q;
      MovedBack(src, dst, r);
    }
  }

  lemma MovedParent(src: Path, dst: Path, q: Path)
    requires src <= q && q != src
    ensures Moved(src, dst, q) != [] && src <= Parent(q)
    ensures Parent(Moved(src, dst, q)) == Moved(src, dst, Parent(q))
  {
  }

  /** A rename keeps every node's parent a directory and leaves nothing at the
      old place. */
  lemma RenamedWellFormed(t: Tree, src: Path, dst: Path)
    requires WellFormed(t) && src in t && src != [] && dst != [] && dst !in t
    requires HasDir(t, Parent(dst)) && !(src <= dst)
    ensures WellFormed(Renamed(t, src, dst))
    ensures Below(Renamed(t, src, dst), src) == {}
  {
    var t' := Renamed(t, src, dst);
    assert !(src <= Parent(dst));
    RenamedAt(t, src, dst, []);
    forall q | q in t' && q != []
      ensures HasDir(t', Parent(q))
    {
      RenamedAt(t, src, dst, q);
      RenamedAt(t, src, dst, Parent(q));
      if dst <= q && q != dst {
        MovedParent(dst, src, q);
      }
    }
    NothingBelowMissing(t, dst);
    forall q | q in t'
      ensures !(src <= q)
    {
      RenamedAt(t, src, dst, q);
      if src <= q {
        assert dst <= src ==> src in Below(t, dst);
        PrefixesCompare(src, dst, q);
      }
    }
  }

  lemma PrefixesCompare(a: Path, b: Path, p: Path)
    requires a <= p && b <= p
    ensures a <= b || b <= a
  {
    assert p[..|a|] == a && p[..|b|] == b;
    assert |a| <= |b| ==> b[..|a|] == p[..|a|];
    assert |b| <= |a| ==> a[..|b|] == p[..|b|];
  }

  lemma ThereAndBackAt(t: Tree, src: Path, dst: Path, q: Path)
    requires WellFormed(t) && dst !in t
    requires WellFormed(Renamed(t, src, dst)) && src !in Renamed(t, src, dst)
    ensures q in Renamed(Renamed(t, src, dst), dst, src) <==> q in t
    ensures q in t ==> Renamed(Renamed(t, src, dst), dst, src)[q] == t[q]
  {
    hide Renamed, WellFormed;
    var t' := Renamed(t, src, dst);
    NothingBelowMissing(t, dst);
    NothingBelowMissing(t', src);
    assert q in t && dst <= q ==> q in Below(t, dst);
    RenamedAt(t', dst, src, q);
    RenamedAt(t, src, dst, q);
    assert q in t' && src <= q ==> q in Below(t', src);
    if src <= q {
      var there := Moved(src, dst, q);
      MovedBack(src, dst, q);
      RenamedAt(t, src, dst, there);
      assert there in t ==> there in Below(t, dst);
    }
  }

  /** Moving there and back restores the tree. */
  lemma MoveThereAndBack(t: Tree, src: Path, dst: Path)
    requires WellFormed(t) && src in t && src != [] && dst != [] && dst !in t
    requires HasDir(t, Parent(dst)) && !(src <= dst)
    ensures Renamed(Renamed(t, src, dst), dst, src) == t
  {
    hide Renamed;
    RenamedWellFormed(t, src, dst);
    assert src in Renamed(t, src, dst) ==> src in Below(Renamed(t, src, dst), src);
    forall q: Path
      ensures q in Renamed(Renamed(t, src, dst), dst, src) <==> q in t
      ensures q in t ==> Renamed(Renamed(t, src, dst), dst, src)[q] == t[q]
    {
      ThereAndBackAt(t, src, dst, q);
    }
  }

  lemma CopiedInside(t: Tree, src: Path, dst: Path, q: Path)
    requires WellFormed(t) && src in t && dst != [] && dst !in t && dst <= q
    ensures q in Copied(t, src, dst) <==> Moved(dst, src, q) in t && !t[Moved(dst, src, q)].Special?
    ensures q in Copied(t, src, dst) ==> Copied(t, src, dst)[q] == t[Moved(dst, src, q)]
  {
    NothingBelowMissing(t, dst);
    assert q in t ==> q in Below(t, dst);
    MovedBack(dst, src, q);
    assert Moved(dst, src, q) in t ==> Moved(dst, src, q) in Below(t, src);
    AddDirsAt(t, Parent(dst), q);
    hide AddDirs;
  }

  lemma CopiedOutside(t: Tree, src: Path, dst: Path, q: Path)
    requires src in t && dst != [] && !(dst <= q)
    ensures q in Copied(t, src, dst) <==> q in t || (t[src].Dir? && q <= dst)
    ensures q in Copied(t, src, dst) ==> Copied(t, src, dst)[q] == if q in t then t[q] else Dir
  {
    AddDirsAt(t, Parent(dst), q);
    assert q !in Targets(t, src, dst, Below(t, src));
    assert q <= dst ==> q == dst[..|q|] && |q| < |dst|;
    assert q <= dst <==> q <= Parent(dst);
    hide AddDirs, Targets;
  }

  /** The copied tree, node by node: each kept node of `src` reappears at its
      target, everything outside `dst` stays, except that copying a directory
      also creates the missing ancestors of `dst`. */
  lemma CopiedAt(t: Tree, src: Path, dst: Path, q: Path)
    requires WellFormed(t) && src in t && dst != [] && dst !in t
    ensures dst <= q ==>
      (q in Copied(t, src, dst) <==> Moved(dst, src, q) in t && !t[Moved(dst, src, q)].Special?)
    ensures dst <= q && q in Copied(t, src, dst) ==> Copied(t, src, dst)[q] == t[Moved(dst, src, q)]
    ensures !(dst <= q) && q in t ==> q in Copied(t, src, dst) && Copied(t, src, dst)[q] == t[q]
    ensures !(dst <= q) && q !in t ==> (q in Copied(t, src, dst) <==> t[src].Dir? && q <= dst)
    ensures !(dst <= q) && q !in t && q in Copied(t, src, dst) ==> Copied(t, src, dst)[q] == Dir
  {
    if dst <= q {
      CopiedInside(t, src, dst, q);
    } else {
      CopiedOutside(t, src, dst, q);
    }
    hide Copied, WellFormed, Moved;
  }

  /** A successful copy leaves a proper tree, creates nothing outside `dst` when
      the parent of `dst` was there, and can be undone by removing `dst`. */
  lemma CopiedWellFormed(t: Tree, src: Path, dst: Path)
    requires WellFormed(t) && src in t && dst != [] && dst !in t && HasDir(t, Parent(dst))
    ensures WellFormed(Copied(t, src, dst))
    ensures Removed(Copied(t, src, dst), dst) == t
  {
    hide Copied;
    var c := Copied(t, src, dst);
    NothingBelowMissing(t, dst);
    CopiedInsideOnly(t, src, dst);
    CopiedAt(t, src, dst, []);
    forall q | q in c && q != []
      ensures HasDir(c, Parent(q))
    {
      CopiedAt(t, src, dst, q);
      CopiedAt(t, src, dst, Parent(q));
      if dst <= q && q != dst {
        MovedParent(dst, src, q);
      }
    }
    forall q: Path
      ensures q in Removed(c, dst) <==> q in t
      ensures q in t ==> Removed(c, dst)[q] == t[q]
    {
      CopiedAt(t, src, dst, q);
      assert q in t && dst <= q ==> q in Below(t, dst);
    }
  }

  lemma CopiedInsideOnly(t: Tree, src: Path, dst: Path)
    requires WellFormed(t) && src in t && dst != [] && dst !in t && HasDir(t, Parent(dst))
    ensures forall q :: q in Copied(t, src, dst) && !(dst <= q) ==> q in t
  {
    var up := Parent(dst);
    AddDirsPresent(t, up, |up|);
    assert up[..|up|] == up;
  }

  /** Without special files, copying and then removing the source is a move. */
  lemma CopyThenRemoveIsMove(t: Tree, src: Path, dst: Path)
    requires WellFormed(t) && src in t && src != [] && dst != [] && dst !in t
    requires HasDir(t, Parent(dst)) && !(src <= dst)
    requires forall q :: q in Below(t, src) ==> !t[q].Special?
    ensures Removed(Copied(t, src, dst), src) == Renamed(t, src, dst)
  {
    hide Copied, Renamed, WellFormed;
    var c, m := Removed(Copied(t, src, dst), src), Renamed(t, src, dst);
    NothingBelowMissing(t, dst);
    CopiedInsideOnly(t, src, dst);
    assert dst <= src ==> src in Below(t, dst);
    forall q: Path
      ensures q in c <==> q in m
      ensures q in m ==> c[q] == m[q]
    {
      CopiedAt(t, src, dst, q);
      RenamedAt(t, src, dst, q);
      assert q in t && dst <= q ==> q in Below(t, dst);
      if dst <= q {
        assert Moved(dst, src, q) in t ==> Moved(dst, src, q) in Below(t, src);
        if src <= q {
          PrefixesCompare(src, dst, q);
        }
      }
    }
  }

  lemma TargetsStep(t: Tree, src: Path, dst: Path, s: set<Path>, q: Path)
    requires s <= Below(t, src) && q in s
    ensures Targets(t, src, dst, s) ==
      Targets(t, src, dst, s - {q}) + if t[q].Special? then {} else {Moved(src, dst, q)}
    ensures Moved(src, dst, q) !in Targets(t, src, dst, s - {q})
  {
    MovedBack(src, dst, q);
    forall p | dst <= p
      ensures p in Targets(t, src, dst, s) <==>
        p in Targets(t, src, dst, s - {q}) || (p == Moved(src, dst, q) && !t[q].Special?)
    {
      MovedBack(dst, src, p);
    }
  }

  /** Nodes with the same sizes have the same total, wherever they are. */
  lemma {:induction false} BytesMoved(t: Tree, src: Path, u: Tree, dst: Path, s: set<Path>)
    requires s <= Below(t, src)
    requires forall q :: q in s && !t[q].Special? ==> Moved(src, dst, q) in u && u[Moved(src, dst, q)] == t[q]
    ensures Targets(t, src, dst, s) <= u.Keys
    ensures Bytes(u, Targets(t, src, dst, s)) == Bytes(t, s)
    decreases |s|
  {
    if s == {} {
      NoBytes(u);
      NoBytes(t);
      assert Targets(t, src, dst, s) == {};
    } else {
      hide Bytes, Targets, Moved, Below;
      var q :| q in s;
      BytesMoved(t, src, u, dst, s - {q});
      BytesRemove(t, s, q);
      TargetsStep(t, src, dst, s, q);
      var before := Targets(t, src, dst, s - {q});
      if !t[q].Special? {
        OneMoreByteCount(u, before, Moved(src, dst, q));
      }
    }
  }

  lemma OneMoreByteCount(u: Tree, s: set<Path>, p: Path)
    requires s <= u.Keys && p in u && p !in s
    ensures Bytes(u, s + {p}) == Size(u[p]) + Bytes(u, s)
  {
    BytesRemove(u, s + {p}, p);
    hide Bytes;
    assert s + {p} - {p} == s;
  }

  /** The byte count a copy reports is what it adds to the tree. */
  lemma CopyAddsItsBytes(t: Tree, src: Path, dst: Path)
    requires WellFormed(t) && src in t && dst != [] && dst !in t && HasDir(t, Parent(dst))
    ensures Bytes(Copied(t, src, dst), Below(Copied(t, src, dst), dst)) == Bytes(t, Below(t, src))
    ensures Bytes(Copied(t, src, dst), Copied(t, src, dst).Keys)
         == Bytes(t, t.Keys) + Bytes(t, Below(t, src))
  {
    hide Copied, Bytes;
    var c := Copied(t, src, dst);
    var s := Below(t, src);
    NothingBelowMissing(t, dst);
    CopiedInsideOnly(t, src, dst);
    forall q: Path
      ensures q in Below(c, dst) <==> q in Targets(t, src, dst, s)
      ensures q in t ==> q in c && c[q] == t[q]
      ensures q in t ==> !(dst <= q)
    {
      CopiedAt(t, src, dst, q);
      assert q in t && dst <= q ==> q in Below(t, dst);
      if dst <= q {
        MovedBack(dst, src, q);
      }
    }
    forall q | q in s && !t[q].Special?
      ensures Moved(src, dst, q) in c && c[Moved(src, dst, q)] == t[q]
    {
      MovedBack(src, dst, q);
      CopiedAt(t, src, dst, Moved(src, dst, q));
    }
    BytesMoved(t, src, c, dst, s);
    assert Below(c, dst) == Targets(t, src, dst, s);
    assert c.Keys == t.Keys + Below(c, dst);
    BytesUnion(c, t.Keys, Below(c, dst));
    BytesSame(t, c, t.Keys);
  }

  lemma {:induction false} BytesSame(t: Tree, u: Tree, s: set<Path>)
    requires s <= t.Keys && s <= u.Keys && forall q :: q in s ==> t[q] == u[q]
    ensures Bytes(t, s) == Bytes(u, s)
    decreases |s|
  {
    if s != {} {
      var q :| q in s;
      BytesRemove(t, s, q);
      BytesRemove(u, s, q);
      BytesSame(t, u, s - {q});
    }
  }
}
