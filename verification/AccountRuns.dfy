/** Whole reconstruction runs of one account, one after the other: the Kratos
    identity each run ties the account to, and what the later runs still add. */
module AccountRuns {
  import opened PanelDb
  import opened Bundle
  import opened Convergence
  import opened PlanShape
  import opened Text

  /** The identity `id` is stored with this email, as a lookup compares it. */
  predicate HasEmail(db: Db, email: string, id: string) {
    At(Identities, id) in db && db[At(Identities, id)].content.Identity?
    && db[At(Identities, id)].content.traits.emailJson == Quoted(email)
  }

  ghost predicate Known(db: Db, email: string) {
    exists id :: HasEmail(db, email, id)
  }

  ghost predicate AtMostOne(db: Db, email: string) {
    forall id, id' :: HasEmail(db, email, id) && HasEmail(db, email, id') ==> id == id'
  }

  /** The identity a run uses when its queries work: the exported one, else one
      found by email, else a fresh UUID. */
  ghost predicate Picks(db: Db, a: Account, id: string) {
    var email := UserOf(a).email;
    if ExportedOf(a).id != "" then id == ExportedOf(a).id
    else if email != "" && Known(db, email) then HasEmail(db, email, id)
    else At(Identities, id) !in db
  }

  /** Later runs will find the identity of the first one again. */
  ghost predicate Reusable(db: Db, a: Account) {
    var email := UserOf(a).email;
    || ExportedOf(a).id != ""
    || (email != "" && (Known(db, email) || TraitsOf(a).emailJson == Quoted(email)))
  }

  lemma {:induction false} JsonBodyPlain(s: string)
    ensures |JsonBody(s)| >= |s|
    ensures JsonBody(s) == s <==> forall i :: 0 <= i < |s| ==> Plain(s[i])
    ensures JsonBody(s) != s ==> |JsonBody(s)| > |s|
  {
    if s != "" {
      JsonBodyPlain(s[1..]);
      assert s == [s[0]] + s[1..];
      assert |JsonChar(s[0])| >= 1 && (!Plain(s[0]) ==> |JsonChar(s[0])| >= 2);
      if Plain(s[0]) {
        assert forall i :: 1 <= i < |s| ==> s[i] == s[1..][i - 1];
        assert JsonBody(s)[1..] == JsonBody(s[1..]);
      }
    }
  }

  /** Traits written from the account's own email are found again exactly when
      JSON needs no escapes in it. */
  lemma DefaultTraitsFound(u: Profile)
    ensures DefaultTraits(u).emailJson == Quoted(u.email) <==>
      forall i :: 0 <= i < |u.email| ==> ' ' <= u.email[i] && u.email[i] !in "\"\\<>&\U{2028}\U{2029}"
  {
    assert forall c :: Plain(c) <==> ' ' <= c && c !in "\"\\<>&\U{2028}\U{2029}";
    JsonBodyPlain(u.email);
    hide JsonBody, Plain;
    assert JsonString(u.email)[1..][..|JsonBody(u.email)|] == JsonBody(u.email);
    assert Quoted(u.email)[1..][..|u.email|] == u.email;
  }

  /** After a run the identity it used is stored; no other identity is new. */
  lemma IdentityStored(db: Db, a: Account, l: Login, mint: (string, string) -> string)
    ensures var after := Run(db, Plan(a, Some(l), mint));
      && Extends(db, after) && At(Identities, l.id) in after
      && (At(Identities, l.id) !in db ==> after[At(Identities, l.id)] == IdentityRow(a, l))
      && forall id :: At(Identities, id) in after && At(Identities, id) !in db ==> id == l.id
  {
    var rows := Plan(a, Some(l), mint);
    PlanShaped(a, Some(l), mint);
    assert forall r :: r in rows && r.key.table == Identities ==> r == IdentityRow(a, l);
    hide Plan, Run, AllShaped, IdentityRow, CastOf;
    RunAdds(db, rows);
    IdentityFirst(db, a, l, mint);
    var after := Run(db, rows);
    forall id | At(Identities, id) in after && At(Identities, id) !in db
      ensures id == l.id && after[At(Identities, l.id)] == IdentityRow(a, l)
    {
      assert after[At(Identities, id)] == IdentityRow(a, l);
      IdentityKey(a, l, id);
    }
  }

  lemma IdentityKey(a: Account, l: Login, id: string)
    ensures IdentityRow(a, l).key == At(Identities, id) <==> id == l.id
  {
    assert At(Identities, id).id == [id] && At(Identities, l.id).id == [l.id];
  }

  lemma IdentityFirst(db: Db, a: Account, l: Login, mint: (string, string) -> string)
    ensures var rows := Plan(a, Some(l), mint);
      rows != [] && rows[0] == IdentityRow(a, l) && At(Identities, l.id) in Run(db, rows[..1])
        && At(Identities, l.id) in Run(db, rows)
  {
    var rows, first := Plan(a, Some(l), mint), IdentityRow(a, l);
    assert rows[0] == first;
    hide Plan;
    assert rows[..1] == [] + [first] && rows[..|rows|] == rows;
    RunSnoc(db, [], first);
    PrefixExtends(db, rows, 1, |rows|);
  }

  lemma EmailsAfter(db: Db, a: Account, l: Login, mint: (string, string) -> string, email: string)
    ensures var after := Run(db, Plan(a, Some(l), mint));
      forall id :: HasEmail(after, email, id) ==> id == l.id || HasEmail(db, email, id)
    ensures HasEmail(Run(db, Plan(a, Some(l), mint)), email, l.id) ==>
      HasEmail(db, email, l.id) || (At(Identities, l.id) !in db && TraitsOf(a).emailJson == Quoted(email))
  {
    IdentityStored(db, a, l, mint);
    hide Plan, Run;
  }

  /** When the identity is reusable the next run uses the same one. */
  lemma SameIdentityAgain(db: Db, a: Account, l: Login, mint: (string, string) -> string, next: string)
    requires ExportedOf(a).id == "" ==> AtMostOne(db, UserOf(a).email)
    requires Picks(db, a, l.id) && Picks(Run(db, Plan(a, Some(l), mint)), a, next)
    requires Reusable(db, a)
    ensures var after := Run(db, Plan(a, Some(l), mint));
      && next == l.id && Reusable(after, a)
      && (ExportedOf(a).id == "" ==> AtMostOne(after, UserOf(a).email))
  {
    var after, email := Run(db, Plan(a, Some(l), mint)), UserOf(a).email;
    IdentityStored(db, a, l, mint);
    hide Plan, Run, UserOf, ExportedOf, TraitsOf;
    if ExportedOf(a).id == "" {
      assert HasEmail(after, email, l.id);
      EmailsAfter(db, a, l, mint, email);
    }
  }

  /** Otherwise every run makes an identity of its own. */
  lemma AnotherIdentityAgain(db: Db, a: Account, l: Login, mint: (string, string) -> string)
    requires Picks(db, a, l.id) && !Reusable(db, a)
    ensures At(Identities, l.id) !in db
    ensures !Reusable(Run(db, Plan(a, Some(l), mint)), a)
  {
    var after, email := Run(db, Plan(a, Some(l), mint)), UserOf(a).email;
    IdentityStored(db, a, l, mint);
    hide Plan, Run, UserOf, ExportedOf, TraitsOf;
    EmailsAfter(db, a, l, mint, email);
  }

  ghost predicate GrantsHaveIDs(a: Account) {
    a.meta.Some? ==> forall i :: 0 <= i < |a.meta.value.databaseUsers| ==>
      forall j :: 0 <= j < |a.meta.value.databaseUsers[i].grants| ==> a.meta.value.databaseUsers[i].grants[j].id != ""
  }

  lemma {:induction false} FlatSame<T>(xs: seq<T>, f: T -> seq<Row>, g: T -> seq<Row>)
    requires forall i :: 0 <= i < |xs| ==> f(xs[i]) == g(xs[i])
    ensures Flat(xs, f) == Flat(xs, g)
  {
    if xs != [] {
      FlatSame(xs[..|xs| - 1], f, g);
    }
  }

  /** Fresh ULIDs only matter to grants without an id. */
  lemma MintUnused(a: Account, l: Option<Login>, mint: (string, string) -> string, mint': (string, string) -> string)
    requires GrantsHaveIDs(a)
    ensures Plan(a, l, mint) == Plan(a, l, mint')
  {
    if a.meta.Some? {
      var m, uid := a.meta.value, a.manifest.id;
      var ids := IdsByName(m.databases);
      forall i | 0 <= i < |m.databaseUsers|
        ensures DatabaseUserPlan(uid, ids, mint)(m.databaseUsers[i])
             == DatabaseUserPlan(uid, ids, mint')(m.databaseUsers[i])
      {
        MintUnusedBy(uid, ids, m.databaseUsers[i], mint, mint');
      }
      hide DatabaseUserPlan, PoolPlan, DomainPlan, AppPlan, LastPlan, DatabasePlan, UserPlan, Flat;
      FlatSame(m.databaseUsers, DatabaseUserPlan(uid, ids, mint), DatabaseUserPlan(uid, ids, mint'));
    }
  }

  lemma MintUnusedBy(uid: string, ids: map<string, string>, u: DatabaseUser,
                     mint: (string, string) -> string, mint': (string, string) -> string)
    requires forall j :: 0 <= j < |u.grants| ==> u.grants[j].id != ""
    ensures DatabaseUserPlan(uid, ids, mint)(u) == DatabaseUserPlan(uid, ids, mint')(u)
  {
    hide GrantDatabase, GrantRow, Flat;
    forall j | 0 <= j < |u.grants|
      ensures GrantPlan(u.id, ids, mint)(u.grants[j]) == GrantPlan(u.id, ids, mint')(u.grants[j])
    {
      var database := GrantDatabase(ids, u.grants[j]);
      assert Or(u.grants[j].id, mint(database, u.id)) == Or(u.grants[j].id, mint'(database, u.id));
    }
    FlatSame(u.grants, GrantPlan(u.id, ids, mint), GrantPlan(u.id, ids, mint'));
  }

  /** Rows that differ at most in their content. */
  ghost predicate Twins(r: Row, s: Row) {
    r.key == s.key && r.uniques == s.uniques && r.refs == s.refs
  }

  ghost predicate AllTwins(rows: seq<Row>, rows': seq<Row>) {
    |rows| == |rows'| && forall i :: 0 <= i < |rows| ==> Twins(rows[i], rows'[i])
  }

  ghost predicate Alike(db: Db, db': Db) {
    db.Keys == db'.Keys && forall k :: k in db ==> Twins(db[k], db'[k])
  }

  /** INSERT IGNORE never looks at the content of a row. */
  lemma InsertAlike(db: Db, db': Db, r: Row, s: Row)
    requires Alike(db, db') && Twins(r, s)
    ensures Alike(InsertIgnore(db, r), InsertIgnore(db', s))
  {
    assert forall k :: k in db ==> Twins(db[k], db'[k]) && db[k].uniques == db'[k].uniques;
    assert Clash(db, r) <==> Clash(db', s);
  }

  lemma {:induction false} RunAlike(db: Db, db': Db, rows: seq<Row>, rows': seq<Row>)
    requires Alike(db, db') && AllTwins(rows, rows')
    ensures Alike(Run(db, rows), Run(db', rows'))
  {
    hide Alike, Twins, InsertIgnore;
    if rows != [] {
      var n := |rows| - 1;
      RunAlike(db, db', rows[..n], rows'[..n]);
      InsertAlike(Run(db, rows[..n]), Run(db', rows'[..n]), rows[n], rows'[n]);
    }
  }

  lemma TwinsAppend(a: seq<Row>, b: seq<Row>, rest: seq<Row>)
    requires AllTwins(a, b)
    ensures AllTwins(a + rest, b + rest)
  {
  }

  lemma UserPlansAreTwins(a: Account, l: Login, l': Login)
    requires l.id == l'.id
    ensures AllTwins(UserPlan(a, l), UserPlan(a, l'))
  {
    var first, first' := [IdentityRow(a, l)], [IdentityRow(a, l')];
    var rest := Each(ExportedOf(a).credentials, CredentialRow(l));
    var rest' := Each(ExportedOf(a).credentials, CredentialRow(l'));
    assert Twins(IdentityRow(a, l), IdentityRow(a, l'));
    assert AllTwins(rest, rest');
    assert UserRow(UserOf(a), l) == UserRow(UserOf(a), l');
    hide IdentityRow, CredentialRow, Each, ExportedOf, UserRow, UserOf, Twins;
    assert AllTwins(first + rest, first' + rest');
    TwinsAppend(first + rest, first' + rest', [UserRow(UserOf(a), l)]);
  }

  /** The network and schema of a login only reach the content of its rows. */
  lemma PlansAreTwins(a: Account, l: Login, l': Login, mint: (string, string) -> string)
    requires l.id == l'.id
    ensures AllTwins(Plan(a, Some(l), mint), Plan(a, Some(l'), mint))
  {
    UserPlansAreTwins(a, l, l');
    hide MetaPlan, UserPlan, AllTwins;
    TwinsAppend(UserPlan(a, l), UserPlan(a, l'),
                if a.meta.Some? then MetaPlan(a.manifest.id, a.meta.value, mint) else []);
  }

  lemma TwinRuns(db: Db, rows: seq<Row>, rows2: seq<Row>, rows3: seq<Row>)
    requires AllTwins(rows, rows2) && AllTwins(rows, rows3) && Run(Run(db, rows), rows) == Run(db, rows)
    ensures Run(db, rows2).Keys == Run(db, rows).Keys && Run(Run(db, rows2), rows3) == Run(db, rows2)
  {
    assert Alike(db, db);
    hide Run, AllTwins, Twins;
    RunAlike(db, db, rows, rows2);
    RunAlike(Run(db, rows), Run(db, rows2), rows, rows3);
    RunAdds(Run(db, rows2), rows3);
  }

  /** Three runs that pick one identity, whatever network and schema they find. */
  lemma LoginsOfOneIdentity(db: Db, a: Account, l1: Login, l2: Login, l3: Login, mint: (string, string) -> string)
    requires Distinct(a) && l1.id == l2.id == l3.id
    ensures var first := Run(db, Plan(a, Some(l1), mint));
      var second := Run(first, Plan(a, Some(l2), mint));
      && Run(second, Plan(a, Some(l3), mint)) == second
      && forall k :: k in second && k !in first ==> Late(k.table) && Awaits(Plan(a, Some(l1), mint), k)
  {
    var first := Run(db, Plan(a, Some(l1), mint));
    PlansAreTwins(a, l1, l2, mint);
    PlansAreTwins(a, l1, l3, mint);
    SameLoginConverges(db, a, Some(l1), mint);
    hide *;
    TwinRuns(first, Plan(a, Some(l1), mint), Plan(a, Some(l2), mint), Plan(a, Some(l3), mint));
  }

  /** Three runs of one bundle: the third changes nothing exactly when the
      identity is reusable, and then the second adds only shares and forwarders
      whose mailbox came later in the bundle. */
  lemma ThreeRuns(db: Db, a: Account, l1: Login, l2: Login, l3: Login,
                  m1: (string, string) -> string, m2: (string, string) -> string, m3: (string, string) -> string)
    requires Distinct(a) && GrantsHaveIDs(a) && (ExportedOf(a).id == "" ==> AtMostOne(db, UserOf(a).email))
    requires var first := Run(db, Plan(a, Some(l1), m1));
      var second := Run(first, Plan(a, Some(l2), m2));
      Picks(db, a, l1.id) && Picks(first, a, l2.id) && Picks(second, a, l3.id)
    ensures var first := Run(db, Plan(a, Some(l1), m1));
      var second := Run(first, Plan(a, Some(l2), m2));
      var third := Run(second, Plan(a, Some(l3), m3));
      && (third == second <==> Reusable(db, a))
      && (Reusable(db, a) ==> forall k :: k in second && k !in first ==>
            Late(k.table) && Awaits(Plan(a, Some(l1), m1), k))
  {
    var first := Run(db, Plan(a, Some(l1), m1));
    var second := Run(first, Plan(a, Some(l2), m2));
    MintUnused(a, Some(l2), m2, m1);
    MintUnused(a, Some(l3), m3, m1);
    if Reusable(db, a) {
      SameIdentityAgain(db, a, l1, m1, l2.id);
      SameIdentityAgain(first, a, l2, m2, l3.id);
      LoginsOfOneIdentity(db, a, l1, l2, l3, m1);
    } else {
      AnotherIdentityAgain(db, a, l1, m1);
      AnotherIdentityAgain(first, a, l2, m2);
      AnotherIdentityAgain(second, a, l3, m3);
      IdentityStored(second, a, l3, m3);
    }
  }

  /** When the second run adds a share, or a forwarder: exactly when one that
      waited in the first run would be accepted after it. */
  lemma SecondRunAddsTo(db: Db, a: Account, l: Option<Login>, mint: (string, string) -> string, t: Table)
    requires Distinct(a) && Late(t)
    ensures var rows := Plan(a, l, mint);
      var first := Run(db, rows);
      (exists k :: k in Run(first, rows) && k !in first && k.table == t)
      <==> exists p :: Forward(rows, p) && rows[p].key.table == t && Accepts(first, rows[p])
  {
    var rows := Plan(a, l, mint);
    var first := Run(db, rows);
    hide Plan, Distinct, Run, Accepts, Late;
    if p :| Forward(rows, p) && rows[p].key.table == t && Accepts(first, rows[p]) {
      ForwardIsSent(rows, p);
      PlanFits(a, l, mint);
      SentIsStored(first, rows, rows[p]);
    }
    if k :| k in Run(first, rows) && k !in first && k.table == t {
      var p := AddedSecond(db, a, l, mint, k);
    }
  }

  lemma AddedSecond(db: Db, a: Account, l: Option<Login>, mint: (string, string) -> string, k: Key) returns (p: nat)
    requires Distinct(a)
    requires var first := Run(db, Plan(a, l, mint)); k in Run(first, Plan(a, l, mint)) && k !in first
    ensures var rows := Plan(a, l, mint);
      Forward(rows, p) && rows[p].key == k && Accepts(Run(db, rows), rows[p])
  {
    var rows := Plan(a, l, mint);
    SameLoginConverges(db, a, l, mint);
    PlanPart(a, l, mint);
    hide Plan, Distinct, Run, Accepts, Forward, Late, Ordered, NoLateParents, Awaits;
    p := LateAccepted(Run(db, rows), rows, k);
    AcceptedWaited(db, rows, p);
  }

  lemma PlanFits(a: Account, l: Option<Login>, mint: (string, string) -> string)
    ensures forall r :: r in Plan(a, l, mint) ==> Fits(r)
  {
    PlanShaped(a, l, mint);
    hide Plan, CastOf, Fits;
  }

  lemma ForwardIsSent(rows: seq<Row>, p: int)
    requires Forward(rows, p)
    ensures 0 <= p < |rows| && rows[p] in rows
  {
  }

  lemma LateAccepted(db: Db, rows: seq<Row>, k: Key) returns (p: nat)
    requires k in Run(db, rows) && k !in db && NoLateParents(rows)
    requires forall q :: q in Run(db, rows) && q !in db ==> Late(q.table)
    ensures p < |rows| && rows[p].key == k && Accepts(db, rows[p])
  {
    var now := Run(db, rows);
    RunAdds(db, rows);
    AddedFree(db, rows);
    RefsOfAdded(db, rows);
    hide Run, Clash;
    p :| 0 <= p < |rows| && rows[p] == now[k];
    assert rows[p] in rows;
  }

  /** Not only shares are late: a forwarder of one domain to a mailbox of the next
      is refused by the first run and added by the second. */
  lemma ForwarderArrivesSecond(m: Metadata, manifest: Profile, d1: Domain, d2: Domain, f: Forwarder, b: Mailbox,
                               mint: (string, string) -> string)
    requires d1 == Domain("1", "a", None, None, None, [], None, [], [f], [])
    requires d2 == Domain("2", "b", None, None, None, [], None, [b], [], [])
    requires f == Forwarder("f", Some("m"), "alias", Some("sales"), "sales@a", [])
    requires b == Mailbox("m", "box", [], None, [])
    requires m == Metadata(manifest, None, [], [d1, d2], [], [], [], [], [], None, [], None)
    ensures var rows := Plan(Account(manifest, Some(m)), None, mint);
      var first := Run(map[], rows);
      At(Forwarders, "f") !in first && At(Forwarders, "f") in Run(first, rows)
  {
    TwoDomainPlan(m, manifest, d1, d2, f, b, mint);
    FourUniques(manifest.id, d1, f, d2, b);
    FourRefs(manifest.id, d1, f, d2, b);
    hide Plan, Run, DomainRow, ForwarderRow, MailboxRow;
    LateForwarder(DomainRow(manifest.id, d1), ForwarderRow("1")(f), DomainRow(manifest.id, d2), MailboxRow("2", b));
  }

  lemma FourRefs(uid: string, d1: Domain, f: Forwarder, d2: Domain, b: Mailbox)
    requires d1.id == "1" && d2.id == "2" && d1.pool == d1.ipv4 == d1.ipv6 == None
    requires d2.pool == d2.ipv4 == d2.ipv6 == None
    requires f.id == "f" && b.id == "m" && f.mailbox == Some("m")
    ensures var r1, r2, r3, r4 := DomainRow(uid, d1), ForwarderRow("1")(f), DomainRow(uid, d2), MailboxRow("2", b);
      && r1.key == At(Domains, "1") && r2.key == At(Forwarders, "f") && r3.key == At(Domains, "2")
      && r4.key == At(Mailboxes, "m") && r1.key != r3.key
      && r1.refs == {} && r2.refs == {r1.key, r4.key} && r3.refs == {} && r4.refs == {r3.key}
  {
    assert ["1"][0] != ["2"][0];
  }

  lemma FourUniques(uid: string, d1: Domain, f: Forwarder, d2: Domain, b: Mailbox)
    requires d1.name == "a" && d2.name == "b" && f.mailbox == Some("m") && f.localPart == Some("sales")
    ensures var r1, r2, r3, r4 := DomainRow(uid, d1), ForwarderRow("1")(f), DomainRow(uid, d2), MailboxRow("2", b);
      && r1.uniques !! r2.uniques && r1.uniques !! r3.uniques && r1.uniques !! r4.uniques
      && r2.uniques !! r3.uniques && r2.uniques !! r4.uniques && r3.uniques !! r4.uniques
  {
    assert "a"[0] != "b"[0];
    assert DomainRow(uid, d1).uniques == {Unique(UxDomainsName, ["a"])};
    assert DomainRow(uid, d2).uniques == {Unique(UxDomainsName, ["b"])};
    assert ["a"][0] != ["b"][0];
  }

  lemma LateForwarder(r1: Row, r2: Row, r3: Row, r4: Row)
    requires r1.refs == {} && r2.refs == {r1.key, r4.key} && r3.refs == {} && r4.refs == {r3.key}
    requires r1.key != r2.key && r1.key != r3.key && r1.key != r4.key && r2.key != r3.key && r2.key != r4.key
      && r3.key != r4.key
    requires r1.uniques !! r2.uniques && r1.uniques !! r3.uniques && r1.uniques !! r4.uniques
    requires r2.uniques !! r3.uniques && r2.uniques !! r4.uniques && r3.uniques !! r4.uniques
    ensures var rows := [r1, r2, r3, r4];
      r2.key !in Run(map[], rows) && r2.key in Run(Run(map[], rows), rows)
  {
    var one: Db := map[r1.key := r1];
    var two := one[r3.key := r3];
    var three := two[r4.key := r4];
    RunFour(map[], r1, r2, r3, r4);
    assert InsertIgnore(map[], r1) == one && InsertIgnore(one, r2) == one;
    assert InsertIgnore(one, r3) == two && InsertIgnore(two, r4) == three;
    RunFour(three, r1, r2, r3, r4);
    assert InsertIgnore(three, r1) == three;
    assert Accepts(three, r2);
    hide Accepts;
    var four := InsertIgnore(three, r2);
    InsertIsSafe(four, r3);
    InsertIsSafe(InsertIgnore(four, r3), r4);
  }

  lemma RunFour(db: Db, r1: Row, r2: Row, r3: Row, r4: Row)
    ensures Run(db, [r1, r2, r3, r4]) == InsertIgnore(InsertIgnore(InsertIgnore(InsertIgnore(db, r1), r2), r3), r4)
  {
    hide InsertIgnore;
    RunSnoc(db, [], r1);
    RunSnoc(db, [r1], r2);
    RunSnoc(db, [r1, r2], r3);
    RunSnoc(db, [r1, r2, r3], r4);
    assert [] + [r1] == [r1] && [r1] + [r2] == [r1, r2] && [r1, r2] + [r3] == [r1, r2, r3];
    assert [r1, r2, r3] + [r4] == [r1, r2, r3, r4];
  }

  lemma TwoDomainPlan(m: Metadata, manifest: Profile, d1: Domain, d2: Domain, fw: Forwarder, b: Mailbox,
                      mint: (string, string) -> string)
    requires ValidDomainName(d1.name) && d1.certificate == None && d1.mailboxes == [] && d1.forwarders == [fw]
      && d1.dnssec == []
    requires ValidDomainName(d2.name) && d2.certificate == None && d2.mailboxes == [b] && d2.forwarders == []
      && d2.dnssec == []
    requires b.autoresponder == None && b.sharedWith == []
    requires m == Metadata(manifest, None, [], [d1, d2], [], [], [], [], [], None, [], None)
    ensures Plan(Account(manifest, Some(m)), None, mint)
         == [DomainRow(manifest.id, d1), ForwarderRow(d1.id)(fw), DomainRow(manifest.id, d2), MailboxRow(d2.id, b)]
  {
    hide ValidDomainName, DomainRow, ForwarderRow, MailboxRow, MailboxPlan, DomainPlan, Plan;
    var f := DomainPlan(manifest.id);
    OnlyDomains(m, manifest, mint);
    ForwarderDomain(manifest.id, d1, fw);
    MailboxDomain(manifest.id, d2, b);
    FlatStep([d1, d2], 0, f);
    FlatStep([d1, d2], 1, f);
    hide Flat;
    assert [d1, d2][..0] == [] && [d1, d2][..2] == [d1, d2];
  }

  lemma ForwarderDomain(uid: string, d: Domain, fw: Forwarder)
    requires ValidDomainName(d.name) && d.certificate == None && d.mailboxes == [] && d.forwarders == [fw]
      && d.dnssec == []
    ensures DomainPlan(uid)(d) == [DomainRow(uid, d), ForwarderRow(d.id)(fw)]
  {
    OneDomainPlan(uid, d, [], Each([fw], ForwarderRow(d.id)));
    hide ValidDomainName, DomainRow, ForwarderRow, DomainPlan;
    assert Each([fw], ForwarderRow(d.id)) == [ForwarderRow(d.id)(fw)];
  }

  lemma MailboxDomain(uid: string, d: Domain, b: Mailbox)
    requires ValidDomainName(d.name) && d.certificate == None && d.mailboxes == [b] && d.forwarders == []
      && d.dnssec == []
    requires b.autoresponder == None && b.sharedWith == []
    ensures DomainPlan(uid)(d) == [DomainRow(uid, d), MailboxRow(d.id, b)]
  {
    FlatStep([b], 0, MailboxPlan(d.id));
    assert [b][..0] == [] && [b][..1] == [b];
    assert MailboxPlan(d.id)(b) == [MailboxRow(d.id, b)];
    OneDomainPlan(uid, d, [MailboxRow(d.id, b)], []);
  }

  lemma OnlyDomains(m: Metadata, manifest: Profile, mint: (string, string) -> string)
    requires m == Metadata(manifest, None, [], m.domains, [], [], [], [], [], None, [], None)
    ensures Plan(Account(manifest, Some(m)), None, mint) == Flat(m.domains, DomainPlan(manifest.id))
  {
    hide DomainPlan, PoolPlan, DatabasePlan, DatabaseUserPlan, AppPlan;
    assert LastPlan(manifest.id, m) == [];
    hide LastPlan;
    assert MetaPlan(manifest.id, m, mint) == Flat(m.domains, DomainPlan(manifest.id));
  }

  lemma OneDomainPlan(uid: string, d: Domain, mail: seq<Row>, forwarders: seq<Row>)
    requires ValidDomainName(d.name) && d.certificate == None && d.dnssec == []
    requires mail == Flat(d.mailboxes, MailboxPlan(d.id)) && forwarders == Each(d.forwarders, ForwarderRow(d.id))
    ensures DomainPlan(uid)(d) == [DomainRow(uid, d)] + mail + forwarders
  {
    hide ValidDomainName, DomainRow, ForwarderRow, MailboxPlan, Flat;
    assert Each(d.dnssec, DnssecRow(d.id)) == [];
    assert UnderDomain(d) == mail + forwarders;
  }
}
