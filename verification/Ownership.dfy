/** Who owns what after a reconstruction: the user of each domain and the Kratos
    identity of each user, two relations no foreign key enforces. */
module Ownership {
  import opened PanelDb
  import opened Bundle
  import opened PlanShape
  import opened Text

  /** Every row's owner exists. */
  ghost predicate Owned(db: Db) {
    forall k :: k in db ==> Owners(db[k]) <= db.Keys
  }

  /** The account's user is there, or is sent under the id its domains name and
      clashes with no other user. */
  ghost predicate UserThere(db: Db, a: Account, l: Option<Login>, rows: seq<Row>) {
    || At(Users, a.manifest.id) in db
    || (&& l.Some? && UserRow(UserOf(a), l.value) in rows
        && UserOf(a).id == a.manifest.id && !Clash(db, UserRow(UserOf(a), l.value)))
  }

  /** Rows a run of the account may send, whatever statements failed: planned
      ones, and the user only with its identity. */
  ghost predicate Sendable(a: Account, l: Option<Login>, mint: (string, string) -> string, rows: seq<Row>) {
    && (forall r :: r in rows ==> r in Plan(a, l, mint))
    && (l.Some? && UserRow(UserOf(a), l.value) in rows ==> IdentityRow(a, l.value) in rows)
  }

  lemma SentShaped(a: Account, l: Option<Login>, mint: (string, string) -> string, rows: seq<Row>)
    requires Sendable(a, l, mint, rows)
    ensures AllShaped(rows, CastOf(a, l))
  {
    PlanShaped(a, l, mint);
    hide Plan, Shaped, CastOf;
  }

  /** The user is there after a run exactly when it was, or its row could be
      stored. */
  lemma UserSettled(db: Db, a: Account, l: Option<Login>, rows: seq<Row>)
    requires AllShaped(rows, CastOf(a, l))
    ensures At(Users, a.manifest.id) in Run(db, rows) <==> UserThere(db, a, l, rows)
  {
    var now, key := Run(db, rows), At(Users, a.manifest.id);
    RunAdds(db, rows);
    AddedFree(db, rows);
    hide Run, Clash, DomainRowsOf;
    if key !in db && key in now {
      assert now[key] in rows && Shaped(now[key], CastOf(a, l));
      assert At(Users, UserOf(a).id).id == [UserOf(a).id] && key.id == [a.manifest.id];
    }
    if UserThere(db, a, l, rows) && key !in db {
      var row := UserRow(UserOf(a), l.value);
      assert row.key == key && row.refs == {};
      SentIsStored(db, rows, row);
      var k :| k in now && k !in db && k.table == Users;
      assert now[k] in rows && now[k] == row;
    }
  }

  /** While the user is missing its pools are refused, so a domain is added
      exactly when the old database would have stored one. */
  lemma DomainsSettled(db: Db, a: Account, l: Option<Login>, rows: seq<Row>)
    requires AllShaped(rows, CastOf(a, l)) && At(Users, a.manifest.id) !in Run(db, rows)
    ensures (exists k :: k in Run(db, rows) && k !in db && k.table == Domains)
        <==> exists r :: r in rows && r.key.table == Domains && Accepts(db, r)
  {
    var now := Run(db, rows);
    RunAdds(db, rows);
    RefsOfAdded(db, rows);
    AddedFree(db, rows);
    if r :| r in rows && r.key.table == Domains && Accepts(db, r) {
      SentIsStored(db, rows, r);
    }
    hide Run, Clash;
    if k :| k in now && k !in db && k.table == Domains {
      var r := now[k];
      assert r in rows && r.key == k && Shaped(r, CastOf(a, l));
      DomainRowIs(a.manifest.id, a.meta.value.domains, r);
      forall p | p in now && p !in db
        ensures p.table != Pools && p.table != ManagedIps
      {
        assert Shaped(now[p], CastOf(a, l)) && now[p].key == p;
      }
      assert r.refs <= now.Keys;
      assert Accepts(db, r);
    }
  }

  lemma IdentitySent(db: Db, a: Account, l: Option<Login>, rows: seq<Row>)
    requires l.Some? && UserRow(UserOf(a), l.value) in rows ==> IdentityRow(a, l.value) in rows
    ensures l.Some? && UserRow(UserOf(a), l.value) in rows ==> At(Identities, l.value.id) in Run(db, rows)
  {
    if l.Some? && UserRow(UserOf(a), l.value) in rows {
      var row := IdentityRow(a, l.value);
      assert row.key == At(Identities, l.value.id) && row.refs == {} && row.uniques == {};
      hide IdentityRow, UserRow, UserOf, Run;
      FreeIsStored(db, rows, row);
    }
  }

  /** A row without references and unique keys is there after it was sent. */
  lemma FreeIsStored(db: Db, rows: seq<Row>, row: Row)
    requires row in rows && row.refs == {} && row.uniques == {}
    ensures row.key in Run(db, rows)
  {
    var j :| 0 <= j < |rows| && rows[j] == row;
    assert rows[..|rows|] == rows && rows[..j] + [row] == rows[..j + 1];
    RunSnoc(db, rows[..j], row);
    hide Run;
    FreeInsert(Run(db, rows[..j]), row);
    PrefixExtends(db, rows, j + 1, |rows|);
  }

  lemma FreeInsert(db: Db, row: Row)
    requires row.refs == {} && row.uniques == {}
    ensures row.key in InsertIgnore(db, row)
  {
  }

  /** The owner of a row that a run added. */
  lemma OwnerOf(a: Account, l: Option<Login>, r: Row)
    requires Shaped(r, CastOf(a, l))
    ensures r.key.table == Domains ==> Owners(r) == {At(Users, a.manifest.id)}
    ensures r.key.table == Users ==>
      l.Some? && r == UserRow(UserOf(a), l.value) && Owners(r) == {At(Identities, l.value.id)}
    ensures r.key.table != Domains && r.key.table != Users ==> Owners(r) == {}
  {
    ShapedTables(a, l, r);
    hide Shaped, CastOf, IdentityRow, UserRow, DomainRowsOf;
    if r.key.table == Domains {
      DomainRowIs(a.manifest.id, a.meta.value.domains, r);
    }
  }

  lemma ShapedTables(a: Account, l: Option<Login>, r: Row)
    requires Shaped(r, CastOf(a, l))
    ensures Fits(r)
    ensures r.key.table == Domains ==> a.meta.Some? && r in DomainRowsOf(a.manifest.id, a.meta.value.domains)
    ensures r.key.table == Users ==> l.Some? && r == UserRow(UserOf(a), l.value)
    ensures r.key.table == Users ==> Owners(r) == {At(Identities, l.value.id)}
  {
    hide Fits, DomainRowsOf, IdentityRow, UserOf;
  }

  /** After any run, failed statements included, every row has its owner exactly
      when the user is there or no domain that was sent could be stored. */
  lemma OwnedAfter(db: Db, a: Account, l: Option<Login>, mint: (string, string) -> string, rows: seq<Row>)
    requires Owned(db) && Sendable(a, l, mint, rows)
    ensures Owned(Run(db, rows)) <==>
      UserThere(db, a, l, rows) || forall r :: r in rows && r.key.table == Domains ==> !Accepts(db, r)
  {
    hide Sendable, Accepts, Clash, UserThere, Run, CastOf, Owned;
    assert l.Some? && UserRow(UserOf(a), l.value) in rows ==> IdentityRow(a, l.value) in rows by {
      IdentityToo(a, l, mint, rows);
    }
    SentShaped(a, l, mint, rows);
    UserSettled(db, a, l, rows);
    IdentitySent(db, a, l, rows);
    OwnedNow(db, a, l, rows);
    if At(Users, a.manifest.id) !in Run(db, rows) {
      DomainsSettled(db, a, l, rows);
    }
  }

  lemma IdentityToo(a: Account, l: Option<Login>, mint: (string, string) -> string, rows: seq<Row>)
    requires Sendable(a, l, mint, rows)
    ensures l.Some? && UserRow(UserOf(a), l.value) in rows ==> IdentityRow(a, l.value) in rows
  {
  }

  lemma OwnedNow(db: Db, a: Account, l: Option<Login>, rows: seq<Row>)
    requires Owned(db) && AllShaped(rows, CastOf(a, l))
    requires l.Some? && UserRow(UserOf(a), l.value) in rows ==> At(Identities, l.value.id) in Run(db, rows)
    ensures Owned(Run(db, rows)) <==>
      At(Users, a.manifest.id) in Run(db, rows) || !exists k :: k in Run(db, rows) && k !in db && k.table == Domains
  {
    var now := Run(db, rows);
    RunAdds(db, rows);
    hide Run, CastOf, Shaped, Owners, UserRow, UserOf;
    forall k | k in now
      ensures k in db ==> Owners(now[k]) <= now.Keys
      ensures k !in db && k.table == Domains ==> Owners(now[k]) == {At(Users, a.manifest.id)}
      ensures k !in db && k.table != Domains ==> Owners(now[k]) <= now.Keys
    {
      if k in db {
        assert Owners(db[k]) <= db.Keys;
      } else {
        OwnerOf(a, l, now[k]);
      }
    }
  }

  /** On the bundle, for a run without failures: every domain has its user
      exactly when the user is there, or is sent under the manifest's id and
      clashes with nobody, or no domain of the bundle could be stored. */
  lemma OwnedExactly(db: Db, a: Account, l: Option<Login>, mint: (string, string) -> string)
    requires Owned(db)
    ensures var uid := a.manifest.id;
      Owned(Run(db, Plan(a, l, mint))) <==>
      || At(Users, uid) in db
      || (l.Some? && UserOf(a).id == uid && !Clash(db, UserRow(UserOf(a), l.value)))
      || (a.meta.Some? ==>
            forall i :: 0 <= i < |a.meta.value.domains| && ValidDomainName(a.meta.value.domains[i].name) ==>
              !Accepts(db, DomainRow(uid, a.meta.value.domains[i])))
  {
    var rows, uid := Plan(a, l, mint), a.manifest.id;
    WholePlanSendable(a, l, mint);
    OwnedAfter(db, a, l, mint, rows);
    SentShaped(a, l, mint, rows);
    forall r | r in rows && r.key.table == Domains
      ensures a.meta.Some?
      ensures exists i :: 0 <= i < |a.meta.value.domains| && ValidDomainName(a.meta.value.domains[i].name)
                && r == DomainRow(uid, a.meta.value.domains[i])
    {
      assert Shaped(r, CastOf(a, l));
    }
    if a.meta.Some? {
      forall i | 0 <= i < |a.meta.value.domains| && ValidDomainName(a.meta.value.domains[i].name)
        ensures DomainRow(uid, a.meta.value.domains[i]) in rows
        ensures DomainRow(uid, a.meta.value.domains[i]).key.table == Domains
      {
        DomainPlanned(a, l, mint, i);
      }
    }
    hide Plan, Accepts, Clash, DomainRow, ValidDomainName, Owned, Run, UserRow, UserOf;
  }

  lemma WholePlanSendable(a: Account, l: Option<Login>, mint: (string, string) -> string)
    ensures Sendable(a, l, mint, Plan(a, l, mint))
    ensures l.Some? ==> UserRow(UserOf(a), l.value) in Plan(a, l, mint)
  {
    hide MetaPlan, IdentityRow, UserRow, CredentialRow;
    if l.Some? {
      var rows := UserPlan(a, l.value);
      assert rows[0] == IdentityRow(a, l.value) && rows[|rows| - 1] == UserRow(UserOf(a), l.value);
    }
  }

  /** Where a run may be cut short. */
  lemma PrefixSendable(a: Account, l: Option<Login>, mint: (string, string) -> string, i: nat)
    requires i <= |Plan(a, l, mint)|
    ensures Sendable(a, l, mint, Plan(a, l, mint)[..i])
  {
    var rows := Plan(a, l, mint);
    if l.Some? && i > 0 {
      assert rows[0] == IdentityRow(a, l.value) && rows[..i][0] == rows[0];
    }
  }

  /** How a domain ends up without its user: another account has the email, so
      INSERT IGNORE drops the user, and nothing stops the domain. */
  lemma TakenEmailLeavesDomain(taken: Row, identity: Row, user: Profile, domain: Domain, m: Metadata, l: Login,
                               mint: (string, string) -> string)
    requires taken == UserRow(Profile("other", "a@x", "", false, []), Login("id", "n", "s"))
    requires identity == Row(At(Identities, "id"), {}, {}, Columns([]))
    requires user == Profile("u", "a@x", "", false, [])
    requires domain == Domain("d", "x", None, None, None, [], None, [], [], [])
    requires m == Metadata(user, None, [], [domain], [], [], [], [], [], None, [], None)
    ensures var db := map[taken.key := taken, identity.key := identity];
      Owned(db) && !Owned(Run(db, Plan(Account(user, Some(m)), Some(l), mint)))
  {
    var db := map[taken.key := taken, identity.key := identity];
    var a := Account(user, Some(m));
    EmailTaken(db, taken, UserRow(user, l));
    assert UserOf(a) == user && m.domains[0] == domain && ValidDomainName(domain.name);
    var row := DomainRow("u", domain);
    hide Plan, UserRow, DomainRow, ValidDomainName, Clash, Run, Owned, UserOf;
    assert row.key == At(Domains, "d") && row.refs == {} && Fits(row) by { DomainIs(domain); }
    assert Fits(taken) && taken.key == At(Users, "other") && Owners(taken) == {identity.key} by { TakenIs(taken); }
    StartsOwned(db, taken, identity, row);
    hide Accepts;
    OwnedExactly(db, a, Some(l), mint);
  }

  lemma DomainIs(domain: Domain)
    requires domain == Domain("d", "x", None, None, None, [], None, [], [], [])
    ensures DomainRow("u", domain).key == At(Domains, "d") && DomainRow("u", domain).refs == {}
    ensures Fits(DomainRow("u", domain))
  {
  }

  lemma TakenIs(taken: Row)
    requires taken == UserRow(Profile("other", "a@x", "", false, []), Login("id", "n", "s"))
    ensures Fits(taken) && taken.key == At(Users, "other") && Owners(taken) == {At(Identities, "id")}
  {
  }

  lemma StartsOwned(db: Db, taken: Row, identity: Row, domain: Row)
    requires db == map[taken.key := taken, identity.key := identity]
    requires taken.key == At(Users, "other") && identity.key == At(Identities, "id") && domain.key == At(Domains, "d")
    requires Owners(taken) == {identity.key} && Owners(identity) == {} && domain.refs == {}
    requires Fits(taken) && identity.uniques == {} && Fits(domain)
    ensures Owned(db) && Accepts(db, domain) && At(Users, "u") !in db
  {
    assert At(Users, "u").id[0] == "u" && taken.key.id[0] == "other" && "u"[0] != "other"[0];
  }

  lemma EmailTaken(db: Db, taken: Row, row: Row)
    requires taken.key in db && db[taken.key] == taken
    requires Unique(UxUsersEmail, ["a@x"]) in taken.uniques && Unique(UxUsersEmail, ["a@x"]) in row.uniques
    ensures Clash(db, row)
  {
    assert Unique(UxUsersEmail, ["a@x"]) in taken.uniques * row.uniques;
  }
}
