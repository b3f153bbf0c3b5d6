/** What the os_users bundle holds, read off the columns of the four files. */
module OsUsersBundle {
  import opened OsUsers
  import opened Text

  /** `kept` is the lines that `keep` allows, in their order and as often as they
      occur. */
  ghost predicate Picks(kept: seq<string>, lines: seq<string>, keep: string -> bool) {
    exists places: seq<nat> :: PicksAt(kept, lines, keep, places)
  }

  ghost predicate PicksAt(kept: seq<string>, lines: seq<string>, keep: string -> bool, places: seq<nat>) {
    && |places| == |kept|
    && (forall k :: 0 <= k < |places| ==> places[k] < |lines| && kept[k] == lines[places[k]])
    && (forall j, k :: 0 <= j < k < |places| ==> places[j] < places[k])
    && (forall i :: 0 <= i < |lines| ==> (keep(lines[i]) <==> i in places))
  }

  /** `systemUsersGroupAllowlist`. */
  predicate IsPanelGroup(name: string) {
    name == "jabali" || name == "jabali-mail" || name == "jabali-sockets" || name == "jabali-sftp" || name == "pdns"
  }

  /** Row `i` is the last row of the group file with this gid. */
  ghost predicate LastWithGid(group: seq<string>, gid: int, i: int) {
    && 0 <= i < |group| && |Columns(group[i])| >= 3 && Atoi(Columns(group[i])[2]) == gid
    && forall j :: i < j < |group| && |Columns(group[j])| >= 3 ==> Atoi(Columns(group[j])[2]) != gid
  }

  /** A passwd line of a hosting account: a uid from 1000 up, or a primary group
      that is the panel's. */
  ghost predicate IsHosting(f: Files, line: string) {
    && line != "" && line[0] != '#' && |Columns(line)| >= 4
    && (|| Atoi(Columns(line)[2]) >= 1000
        || exists i :: LastWithGid(f.group, Atoi(Columns(line)[3]), i) && IsPanelGroup(Columns(f.group[i])[0]))
  }

  /** A line whose first column, not empty and ended by a colon, names a hosting
      account. */
  ghost predicate NamesHosting(f: Files, line: string) {
    && |Columns(line)| >= 2 && Columns(line)[0] != ""
    && exists l :: l in f.passwd && IsHosting(f, l) && Columns(l)[0] == Columns(line)[0]
  }

  predicate NamesPanelGroup(line: string) {
    |Columns(line)| >= 2 && IsPanelGroup(Columns(line)[0])
  }

  /** A group row of the panel, of a hosting account, or with a gid from 1000 up. */
  ghost predicate IsBundledGroup(f: Files, row: string) {
    && row != "" && row[0] != '#' && |Columns(row)| >= 3
    && (|| IsPanelGroup(Columns(row)[0])
        || Atoi(Columns(row)[2]) >= 1000
        || exists l :: l in f.passwd && IsHosting(f, l) && Atoi(Columns(l)[3]) == Atoi(Columns(row)[2]))
  }

  /** The bundle of the four files, line by line. */
  lemma BundleHolds(f: Files)
    ensures Picks(Filter(f).passwd, f.passwd, l => NamesHosting(f, l))
    ensures Picks(Filter(f).shadow, f.shadow, l => NamesHosting(f, l))
    ensures Picks(Filter(f).group, f.group, l => IsBundledGroup(f, l))
    ensures Picks(Filter(f).gshadow, f.gshadow, l => NamesPanelGroup(l))
  {
    var names := GidMap(f.group);
    var users, gids := Users(f.passwd, names), Gids(f.passwd, names);
    forall l
      ensures KeepsKeyed(l, users) <==> NamesHosting(f, l)
      ensures KeepsKeyed(l, AllowedNames()) <==> NamesPanelGroup(l)
      ensures KeepsGroup(l, gids) <==> IsBundledGroup(f, l)
    {
      NamesHostingIs(f, l);
      NamesPanelGroupIs(l);
      BundledGroupIs(f, l);
    }
    assert Filter(f) == Files(KeptKeyed(f.passwd, users), KeptKeyed(f.shadow, users), KeptGroups(f.group, gids),
                              KeptKeyed(f.gshadow, AllowedNames()));
    hide *;
    KeyedPicks(f.passwd, users, l => NamesHosting(f, l));
    KeyedPicks(f.shadow, users, l => NamesHosting(f, l));
    GroupPicks(f.group, gids, l => IsBundledGroup(f, l));
    KeyedPicks(f.gshadow, AllowedNames(), l => NamesPanelGroup(l));
  }

  lemma PicksOne(kept: seq<string>, lines: seq<string>, keep: string -> bool)
    requires lines != [] && Picks(kept, lines[..|lines| - 1], keep)
    ensures Picks(kept + (if keep(lines[|lines| - 1]) then [lines[|lines| - 1]] else []), lines, keep)
  {
    var n := |lines| - 1;
    var places :| PicksAt(kept, lines[..n], keep, places);
    if keep(lines[n]) {
      OneMore(kept, lines, keep, places);
    } else {
      NoMore(kept, lines, keep, places);
      assert kept + [] == kept;
    }
    hide PicksAt;
  }

  lemma OneMore(kept: seq<string>, lines: seq<string>, keep: string -> bool, places: seq<nat>)
    requires lines != [] && PicksAt(kept, lines[..|lines| - 1], keep, places) && keep(lines[|lines| - 1])
    ensures PicksAt(kept + [lines[|lines| - 1]], lines, keep, places + [|lines| - 1])
  {
    var n := |lines| - 1;
    var before, more := lines[..n], places + [n];
    assert forall i :: 0 <= i < n ==> before[i] == lines[i];
    assert forall i :: i in more <==> i in places || i == n;
  }

  lemma NoMore(kept: seq<string>, lines: seq<string>, keep: string -> bool, places: seq<nat>)
    requires lines != [] && PicksAt(kept, lines[..|lines| - 1], keep, places) && !keep(lines[|lines| - 1])
    ensures PicksAt(kept, lines, keep, places)
  {
    var n := |lines| - 1;
    var before := lines[..n];
    assert forall i :: 0 <= i < n ==> before[i] == lines[i];
    assert n !in places;
  }

  lemma {:induction false} KeyedPicks(lines: seq<string>, names: set<string>, keep: string -> bool)
    requires forall l :: KeepsKeyed(l, names) <==> keep(l)
    ensures Picks(KeptKeyed(lines, names), lines, keep)
  {
    hide KeepsKeyed, Picks;
    if lines == [] {
      NothingPicked(keep);
    } else {
      KeyedPicks(lines[..|lines| - 1], names, keep);
      PicksOne(KeptKeyed(lines[..|lines| - 1], names), lines, keep);
    }
  }

  lemma {:induction false} GroupPicks(lines: seq<string>, gids: set<int>, keep: string -> bool)
    requires forall l :: KeepsGroup(l, gids) <==> keep(l)
    ensures Picks(KeptGroups(lines, gids), lines, keep)
  {
    hide KeepsGroup, Picks;
    if lines == [] {
      NothingPicked(keep);
    } else {
      GroupPicks(lines[..|lines| - 1], gids, keep);
      PicksOne(KeptGroups(lines[..|lines| - 1], gids), lines, keep);
    }
  }

  lemma NothingPicked(keep: string -> bool)
    ensures Picks([], [], keep)
  {
    assert PicksAt([], [], keep, []);
  }

  lemma PanelGroups(name: string)
    ensures name in AllowedNames() <==> IsPanelGroup(name)
  {
  }

  /** The group map, read from the back. */
  lemma {:induction false} GidMapIsLast(group: seq<string>, gid: int)
    ensures gid in GidMap(group) ==>
      exists i :: LastWithGid(group, gid, i) && Columns(group[i])[0] == GidMap(group)[gid]
    ensures gid !in GidMap(group) ==> forall i :: !LastWithGid(group, gid, i)
  {
    hide Columns, Atoi;
    if group != [] {
      var n := |group| - 1;
      GidMapIsLast(group[..n], gid);
      assert forall j :: 0 <= j < n ==> group[..n][j] == group[j];
      if |Columns(group[n])| >= 3 && Atoi(Columns(group[n])[2]) == gid {
        assert LastWithGid(group, gid, n);
      } else {
        forall i
          ensures LastWithGid(group, gid, i) <==> LastWithGid(group[..n], gid, i)
        {
        }
      }
    }
  }

  lemma SelectedIsHosting(f: Files, line: string)
    ensures Selected(line, GidMap(f.group)) <==> IsHosting(f, line)
  {
    hide Columns, Atoi, GidMap, AllowedNames, IsPanelGroup;
    if |Columns(line)| >= 4 {
      var gid := Atoi(Columns(line)[3]);
      GidMapIsLast(f.group, gid);
      forall name: string
        ensures name in AllowedNames() <==> IsPanelGroup(name)
      {
        PanelGroups(name);
      }
      assert forall i, j :: LastWithGid(f.group, gid, i) && LastWithGid(f.group, gid, j) ==> i == j;
    }
  }

  lemma NamesHostingIs(f: Files, line: string)
    ensures KeepsKeyed(line, Users(f.passwd, GidMap(f.group))) <==> NamesHosting(f, line)
  {
    KeyedByName(line, Users(f.passwd, GidMap(f.group)));
    UsersAre(f.passwd, GidMap(f.group));
    forall l
      ensures Selected(l, GidMap(f.group)) <==> IsHosting(f, l)
    {
      SelectedIsHosting(f, l);
    }
    hide Columns, Users, GidMap, Selected, IsHosting, KeepsKeyed;
  }

  lemma NamesPanelGroupIs(line: string)
    ensures KeepsKeyed(line, AllowedNames()) <==> NamesPanelGroup(line)
  {
    KeyedByName(line, AllowedNames());
    PanelGroups(NameOf(line));
    assert !IsPanelGroup("");
    hide Columns, KeepsKeyed, AllowedNames, IsPanelGroup;
  }

  lemma BundledGroupIs(f: Files, row: string)
    ensures KeepsGroup(row, Gids(f.passwd, GidMap(f.group))) <==> IsBundledGroup(f, row)
  {
    UsersAre(f.passwd, GidMap(f.group));
    forall l
      ensures Selected(l, GidMap(f.group)) <==> IsHosting(f, l)
    {
      SelectedIsHosting(f, l);
    }
    HostingHasGid(f);
    hide Columns, Atoi, Users, Gids, GidMap, Selected, IsHosting, AllowedNames, IsPanelGroup;
    PanelGroups(Columns(row)[0]);
  }

  lemma HostingHasGid(f: Files)
    ensures forall l :: IsHosting(f, l) ==> |Columns(l)| >= 4 && FieldInt(l, 3) == Atoi(Columns(l)[3])
  {
    hide Columns, Atoi;
  }

  lemma {:induction false} DecimalReads(n: nat)
    ensures IsDigits(Decimal(n)) && Value(Decimal(n)) == n
  {
    if n < 10 {
      assert Decimal(n)[..0] == "";
    } else {
      DecimalReads(n / 10);
      assert Decimal(n)[..|Decimal(n)| - 1] == Decimal(n / 10);
    }
  }

  /** Uids and gids are read as the numbers they are, up to the bounds of int64. */
  lemma AtoiReads(n: nat)
    ensures Atoi(Decimal(n)) == if n < 0x8000_0000_0000_0000 then n else 0x7fff_ffff_ffff_ffff
    ensures Atoi("+" + Decimal(n)) == Atoi(Decimal(n))
    ensures Atoi("-" + Decimal(n)) == if n <= 0x8000_0000_0000_0000 then -(n as int) else -0x8000_0000_0000_0000
  {
    DecimalReads(n);
    hide Decimal, Value;
    var s := Decimal(n);
    assert ("+" + s)[1..] == s && ("-" + s)[1..] == s;
  }
}
