/** What the rows of a plan look like, table by table. */
module PlanShape {
  import opened PanelDb
  import opened Bundle
  import opened Text

  /** The account's user id, and the identity, user and domain rows of its plan. */
  datatype Cast = Cast(uid: string, identity: Option<Row>, user: Option<Row>, domains: set<Row>)

  /** A row of the plan: identity, user and domains are those of the cast, and a
      pool hangs off the user. */
  ghost predicate Shaped(r: Row, c: Cast) {
    && Fits(r)
    && r.key.table != ManagedIps
    && (r.key.table == Identities ==> c.identity == Some(r))
    && (r.key.table == Users ==> c.user == Some(r))
    && (r.key.table == Pools ==> r.refs == {At(Users, c.uid)})
    && (r.key.table == Domains ==> r in c.domains)
  }

  ghost predicate AllShaped(rows: seq<Row>, c: Cast) {
    forall r :: r in rows ==> Shaped(r, c)
  }

  lemma ShapedAppend(a: seq<Row>, b: seq<Row>, c: Cast)
    requires AllShaped(a, c) && AllShaped(b, c)
    ensures AllShaped(a + b, c)
  {
  }

  lemma ShapedFlat<T>(xs: seq<T>, f: T -> seq<Row>, c: Cast)
    requires forall i :: 0 <= i < |xs| ==> AllShaped(f(xs[i]), c)
    ensures AllShaped(Flat(xs, f), c)
  {
    forall r | r in Flat(xs, f)
      ensures Shaped(r, c)
    {
      FlatMember(xs, f, r);
      var i :| 0 <= i < |xs| && r in f(xs[i]);
      assert AllShaped(f(xs[i]), c);
    }
  }

  lemma ShapedEach<T(!new)>(xs: seq<T>, f: T -> Row, c: Cast)
    requires forall x :: Shaped(f(x), c)
    ensures AllShaped(Each(xs, f), c)
  {
    hide Shaped;
  }

  lemma PoolShaped(p: Pool, c: Cast)
    ensures AllShaped(PoolPlan(c.uid)(p), c)
  {
    assert AllShaped([PoolRow(c.uid, p)], c);
    ShapedEach(p.ini, IniRow(p.id), c);
    hide AllShaped, PoolRow, IniRow;
    ShapedAppend([PoolRow(c.uid, p)], Each(p.ini, IniRow(p.id)), c);
  }

  lemma MailboxShaped(domain: string, m: Mailbox, c: Cast)
    ensures AllShaped(MailboxPlan(domain)(m), c)
  {
    var first := [MailboxRow(domain, m)];
    assert AllShaped(first, c) && AllShaped(ReplyPlan(m), c);
    ShapedEach(m.sharedWith, ShareRow(m.id), c);
    assert MailboxPlan(domain)(m) == first + ReplyPlan(m) + Each(m.sharedWith, ShareRow(m.id));
    hide AllShaped, MailboxRow, ShareRow, ReplyPlan, MailboxPlan, Each;
    ShapedAppend(first, ReplyPlan(m), c);
    ShapedAppend(first + ReplyPlan(m), Each(m.sharedWith, ShareRow(m.id)), c);
  }

  lemma ForwarderShaped(domain: string, f: Forwarder, c: Cast)
    ensures Shaped(ForwarderRow(domain)(f), c)
  {
  }

  lemma UnderDomainShaped(d: Domain, c: Cast)
    ensures AllShaped(UnderDomain(d), c)
  {
    assert AllShaped(CertificatePlan(d), c);
    forall i | 0 <= i < |d.mailboxes|
      ensures AllShaped(MailboxPlan(d.id)(d.mailboxes[i]), c)
    {
      MailboxShaped(d.id, d.mailboxes[i], c);
    }
    forall f: Forwarder
      ensures Shaped(ForwarderRow(d.id)(f), c)
    {
      ForwarderShaped(d.id, f, c);
    }
    assert forall k :: Shaped(DnssecRow(d.id)(k), c);
    var mail := Flat(d.mailboxes, MailboxPlan(d.id));
    var forwarders, dnssec := Each(d.forwarders, ForwarderRow(d.id)), Each(d.dnssec, DnssecRow(d.id));
    hide AllShaped, Shaped, CertificatePlan, MailboxPlan, ForwarderRow, DnssecRow, Flat, Each;
    ShapedFlat(d.mailboxes, MailboxPlan(d.id), c);
    ShapedEach(d.forwarders, ForwarderRow(d.id), c);
    ShapedEach(d.dnssec, DnssecRow(d.id), c);
    ShapedAppend(CertificatePlan(d), mail, c);
    ShapedAppend(CertificatePlan(d) + mail, forwarders, c);
    ShapedAppend(CertificatePlan(d) + mail + forwarders, dnssec, c);
  }

  lemma DomainShaped(d: Domain, c: Cast)
    requires ValidDomainName(d.name) ==> DomainRow(c.uid, d) in c.domains
    ensures AllShaped(DomainPlan(c.uid)(d), c)
  {
    assert ValidDomainName(d.name) ==> AllShaped([DomainRow(c.uid, d)], c);
    UnderDomainShaped(d, c);
    assert AllShaped([], c);
    hide AllShaped, DomainRow, UnderDomain, ValidDomainName;
    if ValidDomainName(d.name) {
      ShapedAppend([DomainRow(c.uid, d)], UnderDomain(d), c);
    }
  }

  lemma DatabaseShaped(d: Database, c: Cast)
    ensures AllShaped(DatabasePlan(c.uid)(d), c)
  {
    hide ValidDatabaseName;
  }

  lemma GrantShaped(user': string, ids: map<string, string>, mint: (string, string) -> string, g: Grant, c: Cast)
    ensures AllShaped(GrantPlan(user', ids, mint)(g), c)
  {
    var to := GrantDatabase(ids, g);
    var row := GrantRow(user', to, Or(g.id, mint(to, user')), g);
    assert GrantPlan(user', ids, mint)(g) == if to == "" then [] else [row];
    hide GrantPlan, GrantDatabase;
    assert Shaped(row, c);
  }

  lemma DatabaseUserShaped(ids: map<string, string>, mint: (string, string) -> string, u: DatabaseUser, c: Cast)
    ensures AllShaped(DatabaseUserPlan(c.uid, ids, mint)(u), c)
  {
    var first, f := [DatabaseUserRow(c.uid, u)], GrantPlan(u.id, ids, mint);
    assert AllShaped(first, c);
    assert DatabaseUserPlan(c.uid, ids, mint)(u) == first + Flat(u.grants, f);
    hide AllShaped, DatabaseUserRow, GrantPlan, DatabaseUserPlan;
    forall i | 0 <= i < |u.grants|
      ensures AllShaped(f(u.grants[i]), c)
    {
      GrantShaped(u.id, ids, mint, u.grants[i], c);
    }
    ShapedFlat(u.grants, f, c);
    ShapedAppend(first, Flat(u.grants, f), c);
  }

  lemma LastShaped(m: Metadata, c: Cast)
    ensures AllShaped(LastPlan(c.uid, m), c)
  {
    var policy := PerUserPlan(EgressPolicies, c.uid, m.egressPolicy);
    var limits := PerUserPlan(LimitOverrides, c.uid, m.limits);
    var keys, jobs := Each(m.sshKeys, SshKeyRow(c.uid)), Each(m.cronJobs, JobRow(CronJobs, c.uid));
    var requests := Each(m.egressRequests, JobRow(EgressRequests, c.uid));
    assert AllShaped(policy, c) && AllShaped(limits, c);
    ShapedEach(m.sshKeys, SshKeyRow(c.uid), c);
    ShapedEach(m.cronJobs, JobRow(CronJobs, c.uid), c);
    ShapedEach(m.egressRequests, JobRow(EgressRequests, c.uid), c);
    assert LastPlan(c.uid, m) == keys + jobs + policy + requests + limits;
    hide AllShaped, PerUserPlan, Each, LastPlan;
    ShapedAppend(keys, jobs, c);
    ShapedAppend(keys + jobs, policy, c);
    ShapedAppend(keys + jobs + policy, requests, c);
    ShapedAppend(keys + jobs + policy + requests, limits, c);
  }

  lemma MetaShaped(m: Metadata, mint: (string, string) -> string, c: Cast)
    requires DomainRowsOf(c.uid, m.domains) <= c.domains
    ensures AllShaped(MetaPlan(c.uid, m, mint), c)
  {
    var ids := IdsByName(m.databases);
    SectionsShaped(m, mint, c);
    LastShaped(m, c);
    var p1, p2 := Flat(m.pools, PoolPlan(c.uid)), Flat(m.domains, DomainPlan(c.uid));
    var p3 := Flat(m.databases, DatabasePlan(c.uid));
    var p4 := Flat(m.databaseUsers, DatabaseUserPlan(c.uid, ids, mint));
    var p5, p6 := Flat(m.apps, AppPlan(c.uid, DomainIDs(m.domains))), LastPlan(c.uid, m);
    hide AllShaped, PoolPlan, DomainPlan, DatabasePlan, DatabaseUserPlan, AppPlan, LastPlan, Flat, IdsByName, DomainIDs;
    ShapedAppend(p1, p2, c);
    ShapedAppend(p1 + p2, p3, c);
    ShapedAppend(p1 + p2 + p3, p4, c);
    ShapedAppend(p1 + p2 + p3 + p4, p5, c);
    ShapedAppend(p1 + p2 + p3 + p4 + p5, p6, c);
  }

  lemma SectionsShaped(m: Metadata, mint: (string, string) -> string, c: Cast)
    requires DomainRowsOf(c.uid, m.domains) <= c.domains
    ensures AllShaped(Flat(m.pools, PoolPlan(c.uid)), c)
    ensures AllShaped(Flat(m.domains, DomainPlan(c.uid)), c)
    ensures AllShaped(Flat(m.databases, DatabasePlan(c.uid)), c)
    ensures AllShaped(Flat(m.databaseUsers, DatabaseUserPlan(c.uid, IdsByName(m.databases), mint)), c)
    ensures AllShaped(Flat(m.apps, AppPlan(c.uid, DomainIDs(m.domains))), c)
  {
    hide *;
    PoolsShaped(m.pools, c);
    DomainsShaped(m.domains, c);
    DatabasesShaped(m.databases, c);
    DatabaseUsersShaped(IdsByName(m.databases), mint, m.databaseUsers, c);
    AppsShaped(DomainIDs(m.domains), m.apps, c);
  }

  lemma PoolsShaped(pools: seq<Pool>, c: Cast)
    ensures AllShaped(Flat(pools, PoolPlan(c.uid)), c)
  {
    hide *;
    forall i | 0 <= i < |pools|
      ensures AllShaped(PoolPlan(c.uid)(pools[i]), c)
    {
      PoolShaped(pools[i], c);
    }
    ShapedFlat(pools, PoolPlan(c.uid), c);
  }

  lemma DomainsShaped(ds: seq<Domain>, c: Cast)
    requires DomainRowsOf(c.uid, ds) <= c.domains
    ensures AllShaped(Flat(ds, DomainPlan(c.uid)), c)
  {
    assert forall i :: 0 <= i < |ds| && ValidDomainName(ds[i].name) ==>
      DomainRow(c.uid, ds[i]) in DomainRowsOf(c.uid, ds);
    hide *;
    forall i | 0 <= i < |ds|
      ensures AllShaped(DomainPlan(c.uid)(ds[i]), c)
    {
      DomainShaped(ds[i], c);
    }
    ShapedFlat(ds, DomainPlan(c.uid), c);
  }

  lemma DatabasesShaped(ds: seq<Database>, c: Cast)
    ensures AllShaped(Flat(ds, DatabasePlan(c.uid)), c)
  {
    hide *;
    forall i | 0 <= i < |ds|
      ensures AllShaped(DatabasePlan(c.uid)(ds[i]), c)
    {
      DatabaseShaped(ds[i], c);
    }
    ShapedFlat(ds, DatabasePlan(c.uid), c);
  }

  lemma DatabaseUsersShaped(ids: map<string, string>, mint: (string, string) -> string, users: seq<DatabaseUser>,
                            c: Cast)
    ensures AllShaped(Flat(users, DatabaseUserPlan(c.uid, ids, mint)), c)
  {
    hide *;
    forall i | 0 <= i < |users|
      ensures AllShaped(DatabaseUserPlan(c.uid, ids, mint)(users[i]), c)
    {
      DatabaseUserShaped(ids, mint, users[i], c);
    }
    ShapedFlat(users, DatabaseUserPlan(c.uid, ids, mint), c);
  }

  lemma AppsShaped(known: set<string>, apps: seq<AppInstall>, c: Cast)
    ensures AllShaped(Flat(apps, AppPlan(c.uid, known)), c)
  {
    forall i | 0 <= i < |apps|
      ensures AllShaped(AppPlan(c.uid, known)(apps[i]), c)
    {
    }
    hide *;
    ShapedFlat(apps, AppPlan(c.uid, known), c);
  }

  function IdentityOf(a: Account, l: Option<Login>): Option<Row> {
    if l.Some? then Some(IdentityRow(a, l.value)) else None
  }

  function UserRowOf(a: Account, l: Option<Login>): Option<Row> {
    if l.Some? then Some(UserRow(UserOf(a), l.value)) else None
  }

  /** The domains of the bundle with valid names, as rows. */
  function DomainRowsOf(uid: string, ds: seq<Domain>): set<Row> {
    set i | 0 <= i < |ds| && ValidDomainName(ds[i].name) :: DomainRow(uid, ds[i])
  }

  function CastOf(a: Account, l: Option<Login>): Cast {
    Cast(a.manifest.id, IdentityOf(a, l), UserRowOf(a, l),
         if a.meta.Some? then DomainRowsOf(a.manifest.id, a.meta.value.domains) else {})
  }

  lemma IdentityShaped(a: Account, l: Login, c: Cast)
    requires c == CastOf(a, Some(l))
    ensures Shaped(IdentityRow(a, l), c)
  {
    hide DomainRowsOf, UserOf, ExportedOf;
  }

  lemma AccountRowShaped(a: Account, l: Login, c: Cast)
    requires c == CastOf(a, Some(l))
    ensures Shaped(UserRow(UserOf(a), l), c)
  {
    hide DomainRowsOf, UserOf, ExportedOf;
  }

  lemma CredentialsShaped(l: Login, c: Cast)
    ensures forall k :: Shaped(CredentialRow(l)(k), c)
  {
  }

  lemma UserShaped(a: Account, l: Login)
    ensures AllShaped(UserPlan(a, l), CastOf(a, Some(l)))
  {
    var c := CastOf(a, Some(l));
    var first, last := [IdentityRow(a, l)], [UserRow(UserOf(a), l)];
    var rest := Each(ExportedOf(a).credentials, CredentialRow(l));
    IdentityShaped(a, l, c);
    AccountRowShaped(a, l, c);
    CredentialsShaped(l, c);
    ShapedEach(ExportedOf(a).credentials, CredentialRow(l), c);
    assert AllShaped(first, c) && AllShaped(last, c);
    hide AllShaped, IdentityRow, UserRow, CredentialRow, Each, UserOf, ExportedOf, CastOf;
    ShapedAppend(first, rest, c);
    ShapedAppend(first + rest, last, c);
  }

  /** Every row a plan sends. */
  lemma PlanShaped(a: Account, l: Option<Login>, mint: (string, string) -> string)
    ensures AllShaped(Plan(a, l, mint), CastOf(a, l))
  {
    var c, uid := CastOf(a, l), a.manifest.id;
    assert AllShaped([], c);
    hide AllShaped, UserPlan, MetaPlan;
    if l.Some? {
      UserShaped(a, l.value);
    }
    if a.meta.Some? {
      MetaShaped(a.meta.value, mint, c);
    }
    ShapedAppend(if l.Some? then UserPlan(a, l.value) else [],
                 if a.meta.Some? then MetaPlan(uid, a.meta.value, mint) else [], c);
  }

  /** A domain of the bundle owned by the user, beside pools and addresses. */
  lemma DomainRowIs(uid: string, ds: seq<Domain>, r: Row)
    requires r in DomainRowsOf(uid, ds)
    ensures r.key.table == Domains && Owners(r) == {At(Users, uid)}
    ensures forall k :: k in r.refs ==> k.table == Pools || k.table == ManagedIps
  {
    var i :| 0 <= i < |ds| && ValidDomainName(ds[i].name) && r == DomainRow(uid, ds[i]);
    hide ValidDomainName, DomainRowsOf;
    OneDomainRow(uid, ds[i]);
  }

  lemma OneDomainRow(uid: string, d: Domain)
    ensures var r := DomainRow(uid, d);
      && r.key.table == Domains && Owners(r) == {At(Users, uid)}
      && forall k :: k in r.refs ==> k.table == Pools || k.table == ManagedIps
  {
    assert DomainRow(uid, d).content.values[0] == uid;
  }

  /** Every domain of the bundle with a valid name is planned. */
  lemma DomainPlanned(a: Account, l: Option<Login>, mint: (string, string) -> string, i: nat)
    requires a.meta.Some? && i < |a.meta.value.domains| && ValidDomainName(a.meta.value.domains[i].name)
    ensures DomainRow(a.manifest.id, a.meta.value.domains[i]) in Plan(a, l, mint)
  {
    var m, uid := a.meta.value, a.manifest.id;
    var r := DomainRow(uid, m.domains[i]);
    assert r in DomainPlan(uid)(m.domains[i]);
    hide DomainRow, DomainPlan, PoolPlan, DatabasePlan, DatabaseUserPlan, AppPlan, LastPlan, UserPlan, ValidDomainName;
    FlatHas(m.domains, DomainPlan(uid), i, r);
    hide Flat;
    assert r in MetaPlan(uid, m, mint);
  }
}
