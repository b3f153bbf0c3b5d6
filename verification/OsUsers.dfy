/** The os_users stage of a system backup (backup_system.go): four account files
    filtered by a relation that spans passwd and group.  A file is the list of
    lines its scanner yields. */
module OsUsers {
  import opened Text

  /** `systemUsersGroupAllowlist`. */
  function AllowedNames(): set<string> {
    {"jabali", "jabali-mail", "jabali-sockets", "jabali-sftp", "pdns"}
  }

  predicate Allowlisted(name: string) {
    name in AllowedNames()
  }

  const MAX_INT := 0x7fff_ffff_ffff_ffff

  predicate IsDigits(s: string) {
    s != "" && forall i :: 0 <= i < |s| ==> '0' <= s[i] <= '9'
  }

  function Value(s: string): nat
    requires forall i :: 0 <= i < |s| ==> '0' <= s[i] <= '9'
  {
    if s == "" then 0 else 10 * Value(s[..|s| - 1]) + (s[|s| - 1] as int - '0' as int)
  }

  /** The number `strconv.Atoi` returns, its error ignored: 0 for bad syntax, the
      nearest int64 when out of range. */
  function Atoi(s: string): int {
    var negative := s != "" && s[0] == '-';
    var digits := if s != "" && (s[0] == '-' || s[0] == '+') then s[1..] else s;
    if !IsDigits(digits) then 0
    else if negative then (if Value(digits) > MAX_INT + 1 then -1 - MAX_INT else 0 - Value(digits))
    else if Value(digits) > MAX_INT then MAX_INT
    else Value(digits)
  }

  function Columns(line: string): seq<string> {
    Split(line, ':')
  }

  function NameOf(line: string): string {
    Columns(line)[0]
  }

  function FieldInt(line: string, i: nat): int {
    if i < |Columns(line)| then Atoi(Columns(line)[i]) else 0
  }

  predicate IsComment(line: string) {
    line != "" && line[0] == '#'
  }

  /** `strings.IndexByte(line, ':')`. */
  function IndexColon(line: string): int {
    if line == "" then -1
    else if line[0] == ':' then 0
    else
      var i := IndexColon(line[1..]);
      if i < 0 then -1 else i + 1
  }

  /** The group names by gid, the last row of a gid winning; comments count. */
  function GidMap(group: seq<string>): map<int, string> {
    if group == [] then map[]
    else
      var rest, line := GidMap(group[..|group| - 1]), group[|group| - 1];
      if |Columns(line)| < 3 then rest else rest[FieldInt(line, 2) := NameOf(line)]
  }

  predicate GroupAllowed(names: map<int, string>, gid: int) {
    gid in names && Allowlisted(names[gid])
  }

  /** A passwd line of a hosting account. */
  predicate Selected(line: string, names: map<int, string>) {
    && line != "" && !IsComment(line) && |Columns(line)| >= 4
    && (FieldInt(line, 2) >= 1000 || GroupAllowed(names, FieldInt(line, 3)))
  }

  predicate KeepsGroup(line: string, gids: set<int>) {
    && line != "" && !IsComment(line) && |Columns(line)| >= 3
    && (Allowlisted(NameOf(line)) || FieldInt(line, 2) in gids || FieldInt(line, 2) >= 1000)
  }

  predicate KeepsKeyed(line: string, names: set<string>) {
    IndexColon(line) > 0 && IndexColon(line) <= |line| && line[..IndexColon(line)] in names
  }

  function Users(passwd: seq<string>, names: map<int, string>): set<string> {
    set i | 0 <= i < |passwd| && Selected(passwd[i], names) :: NameOf(passwd[i])
  }

  function Gids(passwd: seq<string>, names: map<int, string>): set<int> {
    set i | 0 <= i < |passwd| && Selected(passwd[i], names) :: FieldInt(passwd[i], 3)
  }

  function KeptGroups(lines: seq<string>, gids: set<int>): seq<string> {
    if lines == [] then []
    else
      var line := lines[|lines| - 1];
      KeptGroups(lines[..|lines| - 1], gids) + if KeepsGroup(line, gids) then [line] else []
  }

  function KeptKeyed(lines: seq<string>, names: set<string>): seq<string> {
    if lines == [] then []
    else
      var line := lines[|lines| - 1];
      KeptKeyed(lines[..|lines| - 1], names) + if KeepsKeyed(line, names) then [line] else []
  }

  /** The four account files, or the bundle made from them. */
  datatype Files = Files(passwd: seq<string>, shadow: seq<string>, group: seq<string>, gshadow: seq<string>)

  function Filter(f: Files): Files {
    var names := GidMap(f.group);
    var users := Users(f.passwd, names);
    Files(KeptKeyed(f.passwd, users), KeptKeyed(f.shadow, users),
          KeptGroups(f.group, Gids(f.passwd, names)), KeptKeyed(f.gshadow, AllowedNames()))
  }

  /** `readGroupGIDMap`. */
  method ReadGroupGIDMap(group: seq<string>) returns (names: map<int, string>)
    ensures names == GidMap(group)
  {
    names := map[];
    for i := 0 to |group|
      invariant names == GidMap(group[..i])
    {
      assert group[..i + 1][..i] == group[..i];
      var parts := Split(group[i], ':');
      if |parts| < 3 {
        continue;
      }
      names := names[Atoi(parts[2]) := parts[0]];
    }
    assert group[..|group|] == group;
  }

  /** `selectOSUsernames`. */
  method SelectOSUsernames(passwd: seq<string>, group: seq<string>) returns (users: set<string>, gids: set<int>)
    ensures users == Users(passwd, GidMap(group)) && gids == Gids(passwd, GidMap(group))
  {
    hide Atoi, GidMap;
    var names := ReadGroupGIDMap(group);
    users, gids := {}, {};
    for i := 0 to |passwd|
      invariant users == Users(passwd[..i], names) && gids == Gids(passwd[..i], names)
    {
      UsersStep(passwd, i, names);
      var line := passwd[i];
      if line == "" || line[0] == '#' {
        continue;
      }
      var parts := Split(line, ':');
      if |parts| < 4 {
        continue;
      }
      var username := parts[0];
      var uid, gid := Atoi(parts[2]), Atoi(parts[3]);
      var groupName := if gid in names then names[gid] else "";
      if uid >= 1000 || Allowlisted(groupName) {
        users := users + {username};
        gids := gids + {gid};
      }
    }
    assert passwd[..|passwd|] == passwd;
  }

  lemma UsersStep(passwd: seq<string>, i: nat, names: map<int, string>)
    requires i < |passwd|
    ensures Users(passwd[..i + 1], names)
         == Users(passwd[..i], names) + if Selected(passwd[i], names) then {NameOf(passwd[i])} else {}
    ensures Gids(passwd[..i + 1], names)
         == Gids(passwd[..i], names) + if Selected(passwd[i], names) then {FieldInt(passwd[i], 3)} else {}
  {
    hide Selected, NameOf, FieldInt;
    var a, b := passwd[..i], passwd[..i + 1];
    assert forall j :: 0 <= j < i ==> a[j] == b[j];
    assert b[i] == passwd[i];
  }

  /** `readGroupFile`. */
  method ReadGroupFile(lines: seq<string>, gids: set<int>) returns (out: seq<string>)
    ensures out == KeptGroups(lines, gids)
  {
    hide Atoi, Allowlisted;
    out := [];
    for i := 0 to |lines|
      invariant out == KeptGroups(lines[..i], gids)
    {
      assert lines[..i + 1][..i] == lines[..i];
      var line := lines[i];
      if line == "" || line[0] == '#' {
        continue;
      }
      var parts := Split(line, ':');
      if |parts| < 3 {
        continue;
      }
      var gid := Atoi(parts[2]);
      if Allowlisted(parts[0]) || gid in gids || gid >= 1000 {
        out := out + [line];
      }
    }
    assert lines[..|lines|] == lines;
  }

  /** `readUsernameKeyedFile`, and `readGroupShadowFile` for the allowlist. */
  method ReadKeyedFile(lines: seq<string>, keep: set<string>) returns (out: seq<string>)
    ensures out == KeptKeyed(lines, keep)
  {
    out := [];
    for i := 0 to |lines|
      invariant out == KeptKeyed(lines[..i], keep)
    {
      assert lines[..i + 1][..i] == lines[..i];
      var line := lines[i];
      if line == "" {
        continue;
      }
      var idx := IndexColon(line);
      ColonPlace(line);
      if idx <= 0 {
        continue;
      }
      if line[..idx] in keep {
        out := out + [line];
      }
    }
    assert lines[..|lines|] == lines;
  }

  /** Which of the six reads of the four files go through, in their order. */
  datatype Reads = Reads(gids: bool, users: bool, group: bool, passwd: bool, shadow: bool, gshadow: bool)

  /** `loadFilteredOSUsers`: a failed read of the group file, or of passwd for the
      selection, ends it; later failures only empty their part of the bundle. */
  method LoadFilteredOSUsers(f: Files, can: Reads) returns (bundle: Result<Files, ()>)
    ensures bundle.Err? <==> !can.gids || !can.users || !can.group
    ensures bundle.Ok? ==>
      && bundle.value.group == Filter(f).group
      && bundle.value.passwd == (if can.passwd then Filter(f).passwd else [])
      && bundle.value.shadow == (if can.shadow then Filter(f).shadow else [])
      && bundle.value.gshadow == (if can.gshadow then Filter(f).gshadow else [])
  {
    hide KeptKeyed, KeptGroups, Users, Gids, GidMap, AllowedNames;
    if !can.gids || !can.users {
      return Err(());
    }
    var keepUsers, primaryGIDs := SelectOSUsernames(f.passwd, f.group);
    if !can.group {
      return Err(());
    }
    var group := ReadGroupFile(f.group, primaryGIDs);
    var passwd, shadow, gshadow := [], [], [];
    if can.passwd {
      passwd := ReadKeyedFile(f.passwd, keepUsers);
    }
    if can.shadow {
      shadow := ReadKeyedFile(f.shadow, keepUsers);
    }
    if can.gshadow {
      gshadow := ReadKeyedFile(f.gshadow, AllowedNames());
    }
    return Ok(Files(passwd, shadow, group, gshadow));
  }

  lemma {:induction false} ColonPlace(line: string)
    ensures -1 <= IndexColon(line) < |line| || line == ""
    ensures IndexColon(line) >= 0 <==> |Columns(line)| >= 2
    ensures IndexColon(line) >= 0 ==> line[..IndexColon(line)] == NameOf(line)
    ensures IndexColon(line) < 0 ==> NameOf(line) == line
  {
    if line != "" {
      ColonPlace(line[1..]);
    }
  }

  /** A line is kept by name exactly when it has a nonempty first field among
      the names, followed by a colon. */
  lemma KeyedByName(line: string, names: set<string>)
    ensures KeepsKeyed(line, names) <==> |Columns(line)| >= 2 && NameOf(line) != "" && NameOf(line) in names
  {
    ColonPlace(line);
  }

  lemma GroupsKept(lines: seq<string>, gids: set<int>)
    ensures forall l :: l in KeptGroups(lines, gids) <==> l in lines && KeepsGroup(l, gids)
    ensures KeptGroups(lines, gids) == lines <==> forall l :: l in lines ==> KeepsGroup(l, gids)
  {
    GroupsAmong(lines, gids);
    hide KeepsGroup, KeptGroups;
    if forall l :: l in lines ==> KeepsGroup(l, gids) {
      AllGroupsKept(lines, gids);
    }
  }

  lemma {:induction false} GroupsAmong(lines: seq<string>, gids: set<int>)
    ensures forall l :: l in KeptGroups(lines, gids) <==> l in lines && KeepsGroup(l, gids)
  {
    if lines != [] {
      var n := |lines| - 1;
      GroupsAmong(lines[..n], gids);
      hide KeepsGroup;
      assert lines == lines[..n] + [lines[n]];
    }
  }

  lemma {:induction false} AllGroupsKept(lines: seq<string>, gids: set<int>)
    requires forall i :: 0 <= i < |lines| ==> KeepsGroup(lines[i], gids)
    ensures KeptGroups(lines, gids) == lines
  {
    hide KeepsGroup;
    if lines != [] {
      AllGroupsKept(lines[..|lines| - 1], gids);
    }
  }

  lemma KeyedKept(lines: seq<string>, names: set<string>)
    ensures forall l :: l in KeptKeyed(lines, names) <==> l in lines && KeepsKeyed(l, names)
    ensures KeptKeyed(lines, names) == lines <==> forall l :: l in lines ==> KeepsKeyed(l, names)
  {
    KeyedAmong(lines, names);
    hide KeepsKeyed, KeptKeyed;
    if forall l :: l in lines ==> KeepsKeyed(l, names) {
      AllKeyedKept(lines, names);
    }
  }

  lemma {:induction false} KeyedAmong(lines: seq<string>, names: set<string>)
    ensures forall l :: l in KeptKeyed(lines, names) <==> l in lines && KeepsKeyed(l, names)
  {
    if lines != [] {
      var n := |lines| - 1;
      KeyedAmong(lines[..n], names);
      hide KeepsKeyed;
      assert lines == lines[..n] + [lines[n]];
    }
  }

  lemma {:induction false} AllKeyedKept(lines: seq<string>, names: set<string>)
    requires forall i :: 0 <= i < |lines| ==> KeepsKeyed(lines[i], names)
    ensures KeptKeyed(lines, names) == lines
  {
    hide KeepsKeyed;
    if lines != [] {
      AllKeyedKept(lines[..|lines| - 1], names);
    }
  }

  lemma UsersAre(passwd: seq<string>, names: map<int, string>)
    ensures forall u :: u in Users(passwd, names) <==>
      exists l :: l in passwd && Selected(l, names) && NameOf(l) == u
    ensures forall g :: g in Gids(passwd, names) <==>
      exists l :: l in passwd && Selected(l, names) && FieldInt(l, 3) == g
  {
    hide Selected, NameOf, FieldInt;
    forall l | l in passwd && Selected(l, names)
      ensures NameOf(l) in Users(passwd, names) && FieldInt(l, 3) in Gids(passwd, names)
    {
      var i :| 0 <= i < |passwd| && passwd[i] == l;
    }
  }

  /** The bundle is closed: every non-comment group row whose gid is the primary
      gid of a selected passwd line is in it. */
  lemma BundleIsClosed(f: Files, row: string, line: string)
    requires row in f.group && row != "" && !IsComment(row) && |Columns(row)| >= 3
    requires line in f.passwd && Selected(line, GidMap(f.group))
    requires FieldInt(row, 2) == FieldInt(line, 3)
    ensures row in Filter(f).group
    ensures NameOf(line) != "" ==> line in Filter(f).passwd
  {
    hide GidMap, FieldInt;
    UsersAre(f.passwd, GidMap(f.group));
    GroupsKept(f.group, Gids(f.passwd, GidMap(f.group)));
    KeyedKept(f.passwd, Users(f.passwd, GidMap(f.group)));
    KeyedByName(line, Users(f.passwd, GidMap(f.group)));
  }

  lemma AllowedIsNoComment(line: string)
    requires Allowlisted(NameOf(line))
    ensures line != "" && !IsComment(line)
  {
    ColonPlace(line);
  }

  /** Filtering keeps the names that matter: an allowlisted group that wins its
      gid still wins it among the kept rows. */
  lemma {:induction false} AllowedGroupSurvives(group: seq<string>, gids: set<int>, gid: int)
    requires GroupAllowed(GidMap(group), gid)
    ensures GroupAllowed(GidMap(KeptGroups(group, gids)), gid)
  {
    hide FieldInt, Allowlisted, NameOf;
    var n := |group| - 1;
    var line := group[n];
    var kept := KeptGroups(group[..n], gids);
    if |Columns(line)| >= 3 && FieldInt(line, 2) == gid {
      AllowedIsNoComment(line);
      assert (kept + [line])[..|kept|] == kept;
    } else {
      AllowedGroupSurvives(group[..n], gids, gid);
      assert (kept + [line])[..|kept|] == kept;
      assert kept + [] == kept;
    }
  }

  /** A selected line with a name is selected again in the bundle. */
  lemma SelectedAgain(f: Files, line: string)
    requires line in f.passwd && Selected(line, GidMap(f.group)) && NameOf(line) != ""
    ensures line in Filter(f).passwd && Selected(line, GidMap(Filter(f).group))
  {
    hide GidMap, FieldInt, NameOf, KeptKeyed, KeptGroups, Users, Gids;
    var names := GidMap(f.group);
    UsersAre(f.passwd, names);
    KeyedKept(f.passwd, Users(f.passwd, names));
    KeyedByName(line, Users(f.passwd, names));
    if GroupAllowed(names, FieldInt(line, 3)) {
      AllowedGroupSurvives(f.group, Gids(f.passwd, names), FieldInt(line, 3));
    }
  }

  /** A group row that is in the bundle for one reason only: its gid. */
  predicate OnlyByGid(row: string) {
    !Allowlisted(NameOf(row)) && FieldInt(row, 2) < 1000
  }

  /** Some bundled passwd line, selected by the bundled groups, has this gid. */
  predicate Vouched(f: Files, gid: int) {
    exists i :: 0 <= i < |Filter(f).passwd|
      && Selected(Filter(f).passwd[i], GidMap(Filter(f).group)) && FieldInt(Filter(f).passwd[i], 3) == gid
  }

  /** No group row depends on a passwd line that has no name to be kept by. */
  predicate NoOrphans(f: Files) {
    forall i :: 0 <= i < |Filter(f).group| && OnlyByGid(Filter(f).group[i]) ==>
      Vouched(f, FieldInt(Filter(f).group[i], 2))
  }

  lemma UsersKept(f: Files)
    ensures forall u :: u in Users(f.passwd, GidMap(f.group)) && u != "" ==>
      u in Users(Filter(f).passwd, GidMap(Filter(f).group))
  {
    hide GidMap, Selected, NameOf, Filter, Users;
    UsersAre(f.passwd, GidMap(f.group));
    UsersAre(Filter(f).passwd, GidMap(Filter(f).group));
    forall u | u in Users(f.passwd, GidMap(f.group)) && u != ""
      ensures u in Users(Filter(f).passwd, GidMap(Filter(f).group))
    {
      var l :| l in f.passwd && Selected(l, GidMap(f.group)) && NameOf(l) == u;
      SelectedAgain(f, l);
    }
  }

  lemma {:induction false} KeyedTwice(lines: seq<string>, names: set<string>, again: set<string>)
    requires forall u :: u in names && u != "" ==> u in again
    ensures KeptKeyed(KeptKeyed(lines, names), again) == KeptKeyed(lines, names)
  {
    hide NameOf, KeepsKeyed;
    var kept := KeptKeyed(lines, names);
    KeyedKept(lines, names);
    KeyedKept(kept, again);
    forall l | l in kept
      ensures KeepsKeyed(l, again)
    {
      KeyedByName(l, names);
      KeyedByName(l, again);
    }
  }

  /** Filtering the bundle again leaves passwd, shadow and gshadow unchanged, and
      leaves the group rows unchanged exactly when there are no orphans. */
  lemma RefilterExactly(f: Files)
    ensures var b := Filter(f);
      && Filter(b).passwd == b.passwd && Filter(b).shadow == b.shadow && Filter(b).gshadow == b.gshadow
      && (Filter(b) == b <==> NoOrphans(f))
  {
    var b := Filter(f);
    var names, names' := GidMap(f.group), GidMap(b.group);
    UsersKept(f);
    KeyedTwice(f.passwd, Users(f.passwd, names), Users(b.passwd, names'));
    KeyedTwice(f.shadow, Users(f.passwd, names), Users(b.passwd, names'));
    KeyedTwice(f.gshadow, AllowedNames(), AllowedNames());
    GroupsTwice(f);
  }

  lemma GroupsTwice(f: Files)
    ensures KeptGroups(Filter(f).group, Gids(Filter(f).passwd, GidMap(Filter(f).group))) == Filter(f).group
        <==> NoOrphans(f)
  {
    var group, gids' := Filter(f).group, Gids(Filter(f).passwd, GidMap(Filter(f).group));
    assert NoOrphans(f) <==>
      forall i :: 0 <= i < |group| && OnlyByGid(group[i]) ==> Vouched(f, FieldInt(group[i], 2));
    GroupsKept(group, gids');
    forall row | row in group
      ensures KeepsGroup(row, gids') <==> !OnlyByGid(row) || Vouched(f, FieldInt(row, 2))
    {
      RowKeptAgain(f, row);
    }
    hide *;
    assert forall i :: 0 <= i < |group| ==> group[i] in group;
  }

  lemma RowKeptAgain(f: Files, row: string)
    requires row in Filter(f).group
    ensures KeepsGroup(row, Gids(Filter(f).passwd, GidMap(Filter(f).group)))
        <==> !OnlyByGid(row) || Vouched(f, FieldInt(row, 2))
  {
    GroupsAmong(f.group, Gids(f.passwd, GidMap(f.group)));
    assert KeepsGroup(row, Gids(f.passwd, GidMap(f.group)));
    VouchedIsGid(f, FieldInt(row, 2));
    hide Filter, Gids, GidMap, Vouched, FieldInt, NameOf, Allowlisted, IsComment, KeptGroups;
  }

  lemma VouchedIsGid(f: Files, gid: int)
    ensures Vouched(f, gid) <==> gid in Gids(Filter(f).passwd, GidMap(Filter(f).group))
  {
    hide Filter, GidMap, Selected, FieldInt;
  }

  /** The group names by gid without the comment rows, which no bundle holds. */
  function Plain(group: seq<string>): map<int, string> {
    if group == [] then map[]
    else
      var rest, row := Plain(group[..|group| - 1]), group[|group| - 1];
      if IsComment(row) || |Columns(row)| < 3 then rest else rest[FieldInt(row, 2) := NameOf(row)]
  }

  /** For a primary gid the kept rows name the same group as all plain rows. */
  lemma {:induction false} KeptRowsName(group: seq<string>, gids: set<int>, gid: int)
    requires gid in gids
    ensures gid in GidMap(KeptGroups(group, gids)) <==> gid in Plain(group)
    ensures gid in Plain(group) ==> GidMap(KeptGroups(group, gids))[gid] == Plain(group)[gid]
  {
    if group != [] {
      hide FieldInt, Allowlisted, NameOf;
      var n := |group| - 1;
      var row, kept := group[n], KeptGroups(group[..n], gids);
      KeptRowsName(group[..n], gids, gid);
      assert (kept + [row])[..|kept|] == kept && kept + [] == kept;
    }
  }

  /** The line has the name of a selected user, and not the empty one. */
  predicate NamedUser(f: Files, line: string) {
    NameOf(line) != "" && NameOf(line) in Users(f.passwd, GidMap(f.group))
  }

  /** The passwd file has a line with this primary gid that has a name to be kept
      by and that the plain group rows select. */
  predicate Backed(f: Files, gid: int) {
    exists l :: l in f.passwd && NamedUser(f, l) && Selected(l, Plain(f.group)) && FieldInt(l, 3) == gid
  }

  /** Every group row kept for its gid alone has such a line. */
  predicate RowsBacked(f: Files) {
    forall row :: row in f.group && KeepsGroup(row, Gids(f.passwd, GidMap(f.group))) && OnlyByGid(row)
      ==> Backed(f, FieldInt(row, 2))
  }

  /** Filtering the bundle again leaves passwd, shadow and gshadow unchanged, and
      leaves the group rows unchanged exactly when every row that the four files
      keep for its gid alone is backed there. */
  lemma StableExactly(f: Files)
    ensures var b := Filter(f);
      && Filter(b).passwd == b.passwd && Filter(b).shadow == b.shadow && Filter(b).gshadow == b.gshadow
      && (Filter(b) == b <==> RowsBacked(f))
  {
    RefilterExactly(f);
    var gids := Gids(f.passwd, GidMap(f.group));
    GroupsKept(f.group, gids);
    assert Filter(f).group == KeptGroups(f.group, gids);
    forall row | row in f.group && KeepsGroup(row, gids) && OnlyByGid(row)
      ensures Vouched(f, FieldInt(row, 2)) <==> Backed(f, FieldInt(row, 2))
    {
      VouchedIsBacked(f, FieldInt(row, 2));
    }
    hide Filter, GidMap, Gids, KeepsGroup, OnlyByGid, Vouched, Backed, FieldInt, KeptGroups;
    assert forall i :: 0 <= i < |Filter(f).group| ==> Filter(f).group[i] in Filter(f).group;
  }

  lemma VouchedIsBacked(f: Files, gid: int)
    requires gid in Gids(f.passwd, GidMap(f.group))
    ensures Vouched(f, gid) <==> Backed(f, gid)
  {
    var b, names' := Filter(f), GidMap(Filter(f).group);
    hide Filter, GidMap, Plain, Selected, FieldInt, NameOf, Users, Gids;
    forall l | FieldInt(l, 3) == gid
      ensures l in b.passwd && Selected(l, names')
         <==> l in f.passwd && NamedUser(f, l) && Selected(l, Plain(f.group))
    {
      SelectedByPlain(f, l);
      BundledLine(f, l, names');
    }
    if Backed(f, gid) {
      var l :| l in b.passwd && Selected(l, names') && FieldInt(l, 3) == gid;
      var j :| 0 <= j < |b.passwd| && b.passwd[j] == l;
    }
  }

  /** A line with a primary gid is selected by the bundled rows as by the plain. */
  lemma SelectedByPlain(f: Files, line: string)
    requires FieldInt(line, 3) in Gids(f.passwd, GidMap(f.group))
    ensures Selected(line, GidMap(Filter(f).group)) <==> Selected(line, Plain(f.group))
  {
    hide GidMap, Plain, FieldInt, NameOf, Users, Gids, KeptGroups, KeptKeyed, Allowlisted, IsComment;
    KeptRowsName(f.group, Gids(f.passwd, GidMap(f.group)), FieldInt(line, 3));
  }

  lemma BundledLine(f: Files, line: string, names: map<int, string>)
    ensures line in Filter(f).passwd && Selected(line, names)
       <==> line in f.passwd && NamedUser(f, line) && Selected(line, names)
  {
    hide GidMap, FieldInt, NameOf, Users, Gids, KeptGroups, KeptKeyed, IsComment, KeepsKeyed;
    KeyedKept(f.passwd, Users(f.passwd, GidMap(f.group)));
    KeyedByName(line, Users(f.passwd, GidMap(f.group)));
  }

  /** Files whose selected passwd lines all have names make a stable bundle. */
  lemma NamedUsersAreStable(f: Files)
    requires forall l :: l in f.passwd && Selected(l, GidMap(f.group)) ==> NameOf(l) != ""
    ensures Filter(Filter(f)) == Filter(f)
  {
    RefilterExactly(f);
    var b := Filter(f);
    var gids := Gids(f.passwd, GidMap(f.group));
    GroupsKept(f.group, gids);
    UsersAre(f.passwd, GidMap(f.group));
    assert b.group == KeptGroups(f.group, gids);
    hide Filter, Users, Gids, GidMap, Selected, FieldInt, NameOf, Allowlisted, KeptGroups;
    forall i | 0 <= i < |b.group| && OnlyByGid(b.group[i])
      ensures Vouched(f, FieldInt(b.group[i], 2))
    {
      assert b.group[i] in b.group && KeepsGroup(b.group[i], gids);
      var l :| l in f.passwd && Selected(l, GidMap(f.group)) && FieldInt(l, 3) == FieldInt(b.group[i], 2);
      SelectedAgain(f, l);
      var j :| 0 <= j < |b.passwd| && b.passwd[j] == l;
    }
  }

  /** Why the condition is needed: a selected passwd line without a name is not
      bundled, so the group row it backs is dropped by a second filtering. */
  lemma NamelessUserOrphansItsGroup()
    ensures var line, row := ":x:1000:77", "foo:x:77";
      var f := Files([line], [], [row], []);
      Filter(f) == Files([], [], [row], []) && Filter(Filter(f)) == Files([], [], [], [])
  {
    hide *;
    NamelessColumns();
    DropsBackedRow(":x:1000:77", "foo:x:77");
  }

  lemma NamelessColumns()
    ensures Columns(":x:1000:77") == ["", "x", "1000", "77"] && Columns("foo:x:77") == ["foo", "x", "77"]
  {
    hide Split;
    assert Join(["", "x", "1000", "77"], ':') == ":x:1000:77" by {
      JoinCons("", ["x", "1000", "77"]);
      JoinCons("x", ["1000", "77"]);
      JoinCons("1000", ["77"]);
    }
    assert Join(["foo", "x", "77"], ':') == "foo:x:77" by {
      JoinCons("foo", ["x", "77"]);
      JoinCons("x", ["77"]);
    }
    SplitJoin(["", "x", "1000", "77"], ':');
    SplitJoin(["foo", "x", "77"], ':');
  }

  lemma JoinCons(first: string, rest: seq<string>)
    requires rest != []
    ensures Join([first] + rest, ':') == first + [':'] + Join(rest, ':')
    ensures |rest| == 1 ==> Join(rest, ':') == rest[0]
  {
    assert ([first] + rest)[1..] == rest;
  }

  lemma DropsBackedRow(line: string, row: string)
    requires Columns(line) == ["", "x", "1000", "77"] && Columns(row) == ["foo", "x", "77"]
    ensures var f := Files([line], [], [row], []);
      Filter(f) == Files([], [], [row], []) && Filter(Filter(f)) == Files([], [], [], [])
  {
    var f, b := Files([line], [], [row], []), Files([], [], [row], []);
    var names := GidMap(f.group);
    NamelessIsSelected(line, names);
    RowNeedsGid(row);
    hide Atoi, Columns, NameOf, IsComment, Selected, KeepsGroup, FieldInt, GidMap, AllowedNames;
    KeptOnlyByGid(f, line, row, names);
    assert Filter(f) == b;
    assert Gids(b.passwd, names) == {};
    assert [row][..0] == [];
    assert KeptGroups(b.group, {}) == [];
  }

  lemma NamelessIsSelected(line: string, names: map<int, string>)
    requires Columns(line) == ["", "x", "1000", "77"]
    ensures Selected(line, names) && NameOf(line) == "" && FieldInt(line, 3) == 77
  {
    SmallNumbers();
    ColonPlace(line);
    assert line != "" && !IsComment(line);
    hide Atoi, Split, IndexColon, GroupAllowed;
  }

  lemma RowNeedsGid(row: string)
    requires Columns(row) == ["foo", "x", "77"]
    ensures forall gids :: KeepsGroup(row, gids) <==> 77 in gids
  {
    SmallNumbers();
    ColonPlace(row);
    assert row != "" && !IsComment(row);
    assert NameOf(row) == "foo" && FieldInt(row, 2) == 77;
    hide Atoi, Split, IndexColon, NameOf, FieldInt;
  }

  lemma KeptOnlyByGid(f: Files, line: string, row: string, names: map<int, string>)
    requires f.passwd == [line] && f.group == [row]
    requires Selected(line, names) && NameOf(line) == ""
    requires KeepsGroup(row, {FieldInt(line, 3)})
    ensures KeptKeyed(f.passwd, Users(f.passwd, names)) == [] && KeptGroups(f.group, Gids(f.passwd, names)) == f.group
  {
    UsersAre(f.passwd, names);
    hide Selected, NameOf, FieldInt;
    assert f.passwd[0] == line;
    assert Gids(f.passwd, names) == {FieldInt(line, 3)};
    KeyedByName(line, Users(f.passwd, names));
    KeyedKept(f.passwd, Users(f.passwd, names));
    GroupsKept(f.group, Gids(f.passwd, names));
  }

  lemma SmallNumbers()
    ensures Atoi("1000") == 1000 && Atoi("77") == 77
  {
    assert "1000"[..3] == "100" && "100"[..2] == "10" && "10"[..1] == "1" && "1"[..0] == "";
    assert Value("") == 0 && Value("1") == 1 && Value("10") == 10 && Value("100") == 100;
    assert "77"[..1] == "7" && "7"[..0] == "";
    assert Value("7") == 7;
  }
}
