/** Which statements a reconstruction tries, read off the bundle: one case for
    each kind of row, with its key, unique values, parents and columns, and with
    what must have succeeded before it. */
module TrialRows {
  import opened PanelDb
  import opened Bundle
  import opened Ownership
  import opened Trials
  import opened Text

  /** The profile of the account: the bundle's, or the manifest's without one. */
  predicate IsProfile(a: Account, u: Profile) {
    if a.meta.Some? && a.meta.value.user.id != "" then u == a.meta.value.user
    else u == Profile(a.manifest.id, a.manifest.email, a.manifest.username, a.manifest.isAdmin, [])
  }

  /** The exported identity of the account, `Exported` with empty fields if none. */
  predicate IsExported(a: Account, e: Exported) {
    if a.meta.Some? && a.meta.value.user.id != "" && a.meta.value.kratos.Some? then e == a.meta.value.kratos.value
    else e.id == "" && e.traits == None && e.state == "" && e.aal == "" && e.schema == "" && e.credentials == []
  }

  predicate IsTraits(u: Profile, e: Exported, t: Traits) {
    if e.traits.Some? then t == e.traits.value
    else
      && t.emailJson == JsonString(u.email)
      && t.text == "{\"email\":" + JsonString(u.email)
        + (if u.isAdmin then ",\"is_admin\":true" else ",\"is_admin\":false")
        + (if u.username == "" then "}" else ",\"username\":" + JsonString(u.username) + "}")
  }

  predicate IsIdentity(r: Row, u: Profile, e: Exported, l: Login) {
    && r.key == Key(Identities, [l.id]) && r.uniques == {} && r.refs == {} && r.content.Identity?
    && r.content.schema == (if e.schema != "" then e.schema else l.schema)
    && IsTraits(u, e, r.content.traits)
    && r.content.state == (if e.state != "" then e.state else "active")
    && r.content.nid == l.nid
    && r.content.aal == (if e.aal != "" then e.aal else "aal1")
  }

  /** The identity, then its credentials, then the user; the first that fails is
      the last that is tried. */
  ghost predicate OfUser(r: Row, u: Profile, e: Exported, l: Login, o: Oracle) {
    || IsIdentity(r, u, e, l)
    || (&& (forall identity :: IsIdentity(identity, u, e, l) ==> o(identity).Done?)
        && (|| (exists i :: 0 <= i < |e.credentials| && OfCredential(r, e.credentials[i], l)
                  && CredentialsDone(e.credentials[..i], l, o))
            || (OfProfile(r, u, l) && CredentialsDone(e.credentials, l, o))))
  }

  predicate OfCredential(r: Row, c: Credential, l: Login) {
    r == Row(Key(Credentials, [c.id]), {}, {Key(Identities, [l.id])}, Columns(c.settings + [l.nid]))
  }

  ghost predicate CredentialsDone(cs: seq<Credential>, l: Login, o: Oracle) {
    forall i, r :: 0 <= i < |cs| && OfCredential(r, cs[i], l) ==> o(r).Done?
  }

  predicate OfProfile(r: Row, u: Profile, l: Login) {
    r == Row(Key(Users, [u.id]),
             {Unique(UxUsersEmail, [u.email]), Unique(UxUsersKratosIdentityId, [l.id])}
             + (if u.username != "" then {Unique(UxUsersUsername, [u.username])} else {}),
             {}, Columns([l.id] + u.settings))
  }

  /** A pool, and its directives once it is there. */
  predicate OfPool(r: Row, uid: string, p: Pool, o: Oracle) {
    var pool := Row(Key(Pools, [p.id]), {Unique(UniqUserPhpver, [uid, p.version])}, {Key(Users, [uid])},
                    Columns(p.settings));
    r == pool || (o(pool).Done? && exists i :: 0 <= i < |p.ini| && IsIni(r, p.id, p.ini[i]))
  }

  predicate IsIni(r: Row, pool: string, d: Ini) {
    r == Row(Key(PoolIni, [d.id]), {Unique(UniqPoolDirective, [pool, d.directive])}, {Key(Pools, [pool])},
             Columns([d.value, d.kind]))
  }

  /** A mailbox, and its autoresponder and shares once it is there. */
  predicate OfMailbox(r: Row, domain: string, m: Mailbox, o: Oracle) {
    var box := Row(Key(Mailboxes, [m.id]), {Unique(UxMailboxesEmailCached, [m.localPart, domain])},
                   {Key(Domains, [domain])}, Columns(m.settings));
    || r == box
    || (&& o(box).Done?
        && (|| (&& m.autoresponder.Some?
                && r == Row(Key(Autoresponders, [m.id]), {}, {Key(Mailboxes, [m.id])}, Columns(m.autoresponder.value)))
            || (exists i :: 0 <= i < |m.sharedWith| && IsShare(r, m.id, m.sharedWith[i]))))
  }

  predicate IsShare(r: Row, owner: string, s: Share) {
    r == Row(Key(Shares, [s.id]), {Unique(UqShare, [owner, s.sharedWith])},
             {Key(Mailboxes, [owner]), Key(Mailboxes, [s.sharedWith])},
             Columns([if s.rights != "" then s.rights else "{}"]))
  }

  predicate IsDomain(r: Row, uid: string, d: Domain) {
    && r.key == Key(Domains, [d.id]) && r.uniques == {Unique(UxDomainsName, [d.name])}
    && r.refs == (if d.pool.Some? then {Key(Pools, [d.pool.value])} else {})
               + (if d.ipv4.Some? then {Key(ManagedIps, [d.ipv4.value])} else {})
               + (if d.ipv6.Some? then {Key(ManagedIps, [d.ipv6.value])} else {})
    && r.content == Columns([uid] + d.settings)
  }

  /** The lower-case names with digits, hyphens and dots inside. */
  predicate IsHostName(s: string) {
    && s != "" && s[0] !in "-." && s[|s| - 1] !in "-."
    && forall c :: c in s ==> 'a' <= c <= 'z' || '0' <= c <= '9' || c in "-."
  }

  /** A domain with a valid name, and what is below it once it is there. */
  ghost predicate OfDomain(r: Row, uid: string, d: Domain, o: Oracle) {
    && IsHostName(d.name)
    && (|| IsDomain(r, uid, d)
        || (&& (forall domain :: IsDomain(domain, uid, d) ==> o(domain).Done?)
            && BelowDomain(r, d, o)))
  }

  predicate BelowDomain(r: Row, d: Domain, o: Oracle) {
    || (&& d.certificate.Some?
        && r == Row(Key(Certificates, [d.certificate.value.id]), {Unique(UniqSslCertDomain, [d.id])},
                    {Key(Domains, [d.id])}, Columns(d.certificate.value.settings)))
    || (exists i :: 0 <= i < |d.mailboxes| && OfMailbox(r, d.id, d.mailboxes[i], o))
    || (exists i :: 0 <= i < |d.forwarders| && IsForwarder(r, d.id, d.forwarders[i]))
    || (exists i :: 0 <= i < |d.dnssec| && IsDnssecKey(r, d.id, d.dnssec[i]))
  }

  predicate IsDnssecKey(r: Row, domain: string, k: DnssecKey) {
    r == Row(Key(DnssecKeys, [domain, k.tag]), {}, {Key(Domains, [domain])}, Columns(k.settings))
  }

  predicate IsForwarder(r: Row, domain: string, f: Forwarder) {
    && r.key == Key(Forwarders, [f.id])
    && r.uniques == (if f.localPart.Some? then {Unique(UqAliasLocal, [domain, f.localPart.value])} else {})
                  + (if f.mailbox.Some? then {Unique(UqExternalForward, [f.mailbox.value, f.kind, f.dest])} else {})
    && r.refs == {Key(Domains, [domain])} + (if f.mailbox.Some? then {Key(Mailboxes, [f.mailbox.value])} else {})
    && r.content == Columns([f.kind, f.dest] + f.settings)
  }

  /** A letter, then at most 63 letters, digits and underscores. */
  predicate IsDatabaseName(s: string) {
    && 0 < |s| < 65 && ('a' <= s[0] <= 'z' || 'A' <= s[0] <= 'Z')
    && forall c :: c in s ==> 'a' <= c <= 'z' || 'A' <= c <= 'Z' || '0' <= c <= '9' || c == '_'
  }

  predicate OfDatabase(r: Row, uid: string, d: Database) {
    && IsDatabaseName(d.name)
    && r == Row(Key(Databases, [d.id]), {Unique(UniqUserName, [uid, d.name])}, {Key(Users, [uid])},
                Columns([if d.engine != "" then d.engine else "mariadb",
                         if d.charset != "" then d.charset else "utf8mb4",
                         if d.collation != "" then d.collation else "utf8mb4_unicode_ci"]))
  }

  /** The database a grant is for: the one it names by id, else the last one of
      the bundle with the name it gives, valid or not. */
  ghost predicate IsGrantDatabase(ds: seq<Database>, g: Grant, to: string) {
    && to != ""
    && if g.databaseID != "" then to == g.databaseID
       else exists i :: LastNamed(ds, g.databaseName, i) && ds[i].id == to
  }

  predicate LastNamed(ds: seq<Database>, name: string, i: int) {
    0 <= i < |ds| && ds[i].name == name && forall j :: i < j < |ds| ==> ds[j].name != name
  }

  /** A database user, and its grants once it is there. */
  ghost predicate OfDatabaseUser(r: Row, uid: string, ds: seq<Database>, mint: (string, string) -> string,
                                 u: DatabaseUser, o: Oracle) {
    var user := Row(Key(DatabaseUsers, [u.id]), {Unique(UniqUserUsername, [uid, u.username])}, {Key(Users, [uid])},
                    Columns([u.passwordHash]));
    || r == user
    || (o(user).Done? && exists i :: 0 <= i < |u.grants| && OfGrant(r, u.id, ds, mint, u.grants[i]))
  }

  ghost predicate OfGrant(r: Row, user: string, ds: seq<Database>, mint: (string, string) -> string, g: Grant) {
    exists to ::
      && IsGrantDatabase(ds, g, to)
      && r == Row(Key(Grants, [if g.id != "" then g.id else mint(to, user)]), {Unique(UniqDbUser, [to, user])},
                  {Key(Databases, [to]), Key(DatabaseUsers, [user])},
                  Columns([if g.level != "" then g.level else "rw",
                           if g.privileges != "" then g.privileges else "ALL"]))
  }

  /** An app of a domain that is there. */
  ghost predicate OfApp(r: Row, uid: string, ds: seq<Domain>, a: AppInstall, o: Oracle) {
    && (exists i :: 0 <= i < |ds| && ds[i].id == a.domainID && IsHostName(ds[i].name)
          && forall domain :: IsDomain(domain, uid, ds[i]) ==> o(domain).Done?)
    && r.key == Key(AppInstalls, [a.id])
    && r.uniques == {Unique(UniqAppInstallsDomainSubdirApptype, [a.domainID, a.subdirectory, a.appType])}
    && r.refs == {Key(Users, [uid]), Key(Domains, [a.domainID])}
               + (if a.databaseID.Some? && a.databaseID.value != "" then {Key(Databases, [a.databaseID.value])} else {})
    && r.content == Columns(a.settings)
  }

  predicate HangsOffUser(r: Row, uid: string, table: Table, id: string, columns: seq<string>) {
    r == Row(Key(table, [id]), {}, {Key(Users, [uid])}, Columns(columns))
  }

  predicate IsSshKey(r: Row, uid: string, k: SshKey) {
    r == Row(Key(SshKeys, [k.id]), {Unique(UxSshKeysUserFingerprint, [uid, k.fingerprint])}, {Key(Users, [uid])},
             Columns([k.name, k.publicKey]))
  }

  /** SSH keys, cron jobs, egress and limits. */
  predicate OfRest(r: Row, uid: string, m: Metadata) {
    || (exists i :: 0 <= i < |m.sshKeys| && IsSshKey(r, uid, m.sshKeys[i]))
    || (exists i :: 0 <= i < |m.cronJobs| && HangsOffUser(r, uid, CronJobs, m.cronJobs[i].id, m.cronJobs[i].settings))
    || (m.egressPolicy.Some? && HangsOffUser(r, uid, EgressPolicies, uid, m.egressPolicy.value))
    || (exists i :: 0 <= i < |m.egressRequests|
          && HangsOffUser(r, uid, EgressRequests, m.egressRequests[i].id, m.egressRequests[i].settings))
    || (m.limits.Some? && HangsOffUser(r, uid, LimitOverrides, uid, m.limits.value))
  }

  ghost predicate OfBundle(r: Row, uid: string, m: Metadata, mint: (string, string) -> string, o: Oracle) {
    || (exists i :: 0 <= i < |m.pools| && OfPool(r, uid, m.pools[i], o))
    || (exists i :: 0 <= i < |m.domains| && OfDomain(r, uid, m.domains[i], o))
    || (exists i :: 0 <= i < |m.databases| && OfDatabase(r, uid, m.databases[i]))
    || (exists i :: 0 <= i < |m.databaseUsers| && OfDatabaseUser(r, uid, m.databases, mint, m.databaseUsers[i], o))
    || (exists i :: 0 <= i < |m.apps| && OfApp(r, uid, m.domains, m.apps[i], o))
    || OfRest(r, uid, m)
  }

  /** A run that picked this login, or none, tries to insert this row. */
  ghost predicate Tried(r: Row, a: Account, l: Option<Login>, mint: (string, string) -> string, o: Oracle) {
    || (l.Some? && exists u, e :: IsProfile(a, u) && IsExported(a, e) && OfUser(r, u, e, l.value, o))
    || (a.meta.Some? && OfBundle(r, a.manifest.id, a.meta.value, mint, o))
  }

  lemma FlatExactly<T, E>(xs: seq<T>, f: T -> seq<E>, e: E)
    ensures e in Flat(xs, f) <==> exists i :: 0 <= i < |xs| && e in f(xs[i])
  {
    if e in Flat(xs, f) {
      FlatMember(xs, f, e);
    }
    if i :| 0 <= i < |xs| && e in f(xs[i]) {
      FlatHas(xs, f, i, e);
    }
  }

  lemma BehindHas(row: Row, o: Oracle, rest: Log, e: Event)
    ensures e in Behind(row, o, rest) <==> e == Try(row) || (o(row).Done? && e in rest)
  {
  }

  lemma PoolTried(r: Row, uid: string, p: Pool, o: Oracle)
    ensures Try(r) in PoolTrials(uid, o)(p) <==> OfPool(r, uid, p, o)
  {
    var rows := Each(p.ini, IniRow(p.id));
    TriesHold(rows);
    BehindHas(PoolRow(uid, p), o, Tries(rows), Try(r));
    hide Tries, Behind;
  }

  lemma PoolsTried(r: Row, uid: string, pools: seq<Pool>, o: Oracle)
    ensures Try(r) in Flat(pools, PoolTrials(uid, o)) <==> exists i :: 0 <= i < |pools| && OfPool(r, uid, pools[i], o)
  {
    FlatExactly(pools, PoolTrials(uid, o), Try(r));
    hide PoolTrials, OfPool, Flat;
    forall i | 0 <= i < |pools|
      ensures Try(r) in PoolTrials(uid, o)(pools[i]) <==> OfPool(r, uid, pools[i], o)
    {
      PoolTried(r, uid, pools[i], o);
    }
  }

  lemma MailboxTried(r: Row, domain: string, m: Mailbox, o: Oracle)
    ensures Try(r) in MailboxTrials(domain, o)(m) <==> OfMailbox(r, domain, m, o)
  {
    var reply, shares := ReplyPlan(m), Each(m.sharedWith, ShareRow(m.id));
    TriesHold(reply);
    TriesHold(shares);
    BehindHas(MailboxRow(domain, m), o, Tries(reply) + Tries(shares), Try(r));
    hide Tries, Behind;
  }

  lemma MailboxesTried(r: Row, domain: string, ms: seq<Mailbox>, o: Oracle)
    ensures Try(r) in Flat(ms, MailboxTrials(domain, o)) <==>
      exists i :: 0 <= i < |ms| && OfMailbox(r, domain, ms[i], o)
  {
    FlatExactly(ms, MailboxTrials(domain, o), Try(r));
    hide MailboxTrials, OfMailbox, Flat;
    forall i | 0 <= i < |ms|
      ensures Try(r) in MailboxTrials(domain, o)(ms[i]) <==> OfMailbox(r, domain, ms[i], o)
    {
      MailboxTried(r, domain, ms[i], o);
    }
  }

  lemma UnderTried(r: Row, d: Domain, o: Oracle)
    ensures Try(r) in UnderTrials(d, o) <==> BelowDomain(r, d, o)
  {
    MailboxesTried(r, d.id, d.mailboxes, o);
    TriesHold(CertificatePlan(d));
    TriesHold(Each(d.forwarders, ForwarderRow(d.id)));
    TriesHold(Each(d.dnssec, DnssecRow(d.id)));
    hide Tries, Flat, MailboxTrials, OfMailbox;
  }

  lemma HostNames(s: string)
    ensures IsHostName(s) <==> ValidDomainName(s)
  {
    if ValidDomainName(s) {
      forall c | c in s
        ensures 'a' <= c <= 'z' || '0' <= c <= '9' || c in "-."
      {
        var i :| 0 <= i < |s| && s[i] == c;
      }
    }
    if IsHostName(s) {
      assert forall i :: 0 <= i < |s| ==> s[i] in s;
    }
  }

  lemma DatabaseNames(s: string)
    ensures IsDatabaseName(s) <==> ValidDatabaseName(s)
  {
    if ValidDatabaseName(s) {
      forall c | c in s
        ensures 'a' <= c <= 'z' || 'A' <= c <= 'Z' || '0' <= c <= '9' || c == '_'
      {
        var i :| 0 <= i < |s| && s[i] == c;
      }
    }
    if IsDatabaseName(s) {
      assert forall i :: 0 <= i < |s| ==> s[i] in s;
    }
  }

  lemma DomainRowIsDomain(r: Row, uid: string, d: Domain)
    ensures IsDomain(r, uid, d) <==> r == DomainRow(uid, d)
  {
  }

  lemma DomainTried(r: Row, uid: string, d: Domain, o: Oracle)
    ensures Try(r) in DomainTrials(uid, o)(d) <==> OfDomain(r, uid, d, o)
  {
    HostNames(d.name);
    UnderTried(r, d, o);
    BehindHas(DomainRow(uid, d), o, UnderTrials(d, o), Try(r));
    hide IsHostName, ValidDomainName, UnderTrials, BelowDomain, Behind, IsDomain, DomainRow;
    DomainDone(uid, d, o);
    DomainRowIsDomain(r, uid, d);
  }

  lemma DomainDone(uid: string, d: Domain, o: Oracle)
    ensures o(DomainRow(uid, d)).Done? <==> forall domain :: IsDomain(domain, uid, d) ==> o(domain).Done?
  {
    hide IsDomain, DomainRow;
    forall domain
      ensures IsDomain(domain, uid, d) <==> domain == DomainRow(uid, d)
    {
      DomainRowIsDomain(domain, uid, d);
    }
  }

  lemma DomainsTried(r: Row, uid: string, ds: seq<Domain>, o: Oracle)
    ensures Try(r) in Flat(ds, DomainTrials(uid, o)) <==> exists i :: 0 <= i < |ds| && OfDomain(r, uid, ds[i], o)
  {
    FlatExactly(ds, DomainTrials(uid, o), Try(r));
    hide DomainTrials, OfDomain, Flat;
    forall i | 0 <= i < |ds|
      ensures Try(r) in DomainTrials(uid, o)(ds[i]) <==> OfDomain(r, uid, ds[i], o)
    {
      DomainTried(r, uid, ds[i], o);
    }
  }

  lemma DatabasesTried(r: Row, uid: string, ds: seq<Database>)
    ensures Try(r) in Flat(ds, DatabaseTrials(uid)) <==> exists i :: 0 <= i < |ds| && OfDatabase(r, uid, ds[i])
  {
    FlatExactly(ds, DatabaseTrials(uid), Try(r));
    hide Flat, ValidDatabaseName, IsDatabaseName;
    forall i | 0 <= i < |ds|
      ensures Try(r) in DatabaseTrials(uid)(ds[i]) <==> OfDatabase(r, uid, ds[i])
    {
      DatabaseNames(ds[i].name);
    }
    hide DatabaseTrials, OfDatabase;
  }

  /** The map of names to ids, read from the back. */
  lemma {:induction false} IdsAreLast(ds: seq<Database>, name: string)
    ensures name in IdsByName(ds) ==> exists i :: LastNamed(ds, name, i) && ds[i].id == IdsByName(ds)[name]
    ensures name !in IdsByName(ds) ==> forall i :: 0 <= i < |ds| ==> ds[i].name != name
  {
    if ds != [] {
      var n := |ds| - 1;
      IdsAreLast(ds[..n], name);
      if ds[n].name == name {
        assert LastNamed(ds, name, n);
      } else if name in IdsByName(ds[..n]) {
        var i :| LastNamed(ds[..n], name, i) && ds[..n][i].id == IdsByName(ds[..n])[name];
        assert forall j :: 0 <= j < n ==> ds[..n][j] == ds[j];
        assert LastNamed(ds, name, i);
      }
    }
  }

  lemma GrantDatabaseIs(ds: seq<Database>, g: Grant, to: string)
    ensures IsGrantDatabase(ds, g, to) <==> to != "" && to == GrantDatabase(IdsByName(ds), g)
  {
    IdsAreLast(ds, g.databaseName);
    hide IdsByName;
  }

  lemma GrantTried(r: Row, user: string, ds: seq<Database>, mint: (string, string) -> string, g: Grant)
    ensures Try(r) in GrantTrials(user, IdsByName(ds), mint)(g) <==> OfGrant(r, user, ds, mint, g)
  {
    var ids := IdsByName(ds);
    var to := GrantDatabase(ids, g);
    assert GrantTrials(user, ids, mint)(g) ==
      if to == "" then [Skip(MissingDatabase(g.databaseName))]
      else [Try(GrantRow(user, to, Or(g.id, mint(to, user)), g))];
    hide GrantTrials;
    forall t: string
      ensures IsGrantDatabase(ds, g, t) <==> t != "" && t == to
    {
      GrantDatabaseIs(ds, g, t);
    }
    hide IdsByName, GrantDatabase, IsGrantDatabase;
  }

  lemma DatabaseUserTried(r: Row, uid: string, ds: seq<Database>, mint: (string, string) -> string, u: DatabaseUser,
                          o: Oracle)
    ensures Try(r) in DatabaseUserTrials(uid, IdsByName(ds), mint, o)(u) <==> OfDatabaseUser(r, uid, ds, mint, u, o)
  {
    var f := GrantTrials(u.id, IdsByName(ds), mint);
    FlatExactly(u.grants, f, Try(r));
    BehindHas(DatabaseUserRow(uid, u), o, Flat(u.grants, f), Try(r));
    hide GrantTrials, OfGrant, Flat, Behind, IdsByName;
    forall i | 0 <= i < |u.grants|
      ensures Try(r) in f(u.grants[i]) <==> OfGrant(r, u.id, ds, mint, u.grants[i])
    {
      GrantTried(r, u.id, ds, mint, u.grants[i]);
    }
  }

  lemma DatabaseUsersTried(r: Row, uid: string, ds: seq<Database>, mint: (string, string) -> string,
                           us: seq<DatabaseUser>, o: Oracle)
    ensures Try(r) in Flat(us, DatabaseUserTrials(uid, IdsByName(ds), mint, o)) <==>
      exists i :: 0 <= i < |us| && OfDatabaseUser(r, uid, ds, mint, us[i], o)
  {
    FlatExactly(us, DatabaseUserTrials(uid, IdsByName(ds), mint, o), Try(r));
    hide DatabaseUserTrials, OfDatabaseUser, Flat, IdsByName;
    forall i | 0 <= i < |us|
      ensures Try(r) in DatabaseUserTrials(uid, IdsByName(ds), mint, o)(us[i]) <==>
          OfDatabaseUser(r, uid, ds, mint, us[i], o)
    {
      DatabaseUserTried(r, uid, ds, mint, us[i], o);
    }
  }

  lemma AppTried(r: Row, uid: string, ds: seq<Domain>, a: AppInstall, o: Oracle)
    ensures Try(r) in AppTrials(uid, RestoredIDs(uid, ds, o))(a) <==> OfApp(r, uid, ds, a, o)
  {
    forall i | 0 <= i < |ds|
      ensures ValidDomainName(ds[i].name) && o(DomainRow(uid, ds[i])).Done? <==>
        IsHostName(ds[i].name) && forall domain :: IsDomain(domain, uid, ds[i]) ==> o(domain).Done?
    {
      HostNames(ds[i].name);
      DomainDone(uid, ds[i], o);
    }
    hide ValidDomainName, IsHostName, IsDomain, DomainRow;
  }

  lemma AppsTried(r: Row, uid: string, ds: seq<Domain>, apps: seq<AppInstall>, o: Oracle)
    ensures Try(r) in Flat(apps, AppTrials(uid, RestoredIDs(uid, ds, o))) <==>
      exists i :: 0 <= i < |apps| && OfApp(r, uid, ds, apps[i], o)
  {
    FlatExactly(apps, AppTrials(uid, RestoredIDs(uid, ds, o)), Try(r));
    hide AppTrials, OfApp, Flat, RestoredIDs;
    forall i | 0 <= i < |apps|
      ensures Try(r) in AppTrials(uid, RestoredIDs(uid, ds, o))(apps[i]) <==> OfApp(r, uid, ds, apps[i], o)
    {
      AppTried(r, uid, ds, apps[i], o);
    }
  }

  lemma RestTried(r: Row, uid: string, m: Metadata)
    ensures Try(r) in Tries(LastPlan(uid, m)) <==> OfRest(r, uid, m)
  {
    TriesHold(LastPlan(uid, m));
    hide Tries;
  }

  lemma BundleTried(r: Row, uid: string, m: Metadata, mint: (string, string) -> string, o: Oracle)
    ensures Try(r) in MetaTrials(uid, m, mint, o) <==> OfBundle(r, uid, m, mint, o)
  {
    PoolsTried(r, uid, m.pools, o);
    DomainsTried(r, uid, m.domains, o);
    DatabasesTried(r, uid, m.databases);
    DatabaseUsersTried(r, uid, m.databases, mint, m.databaseUsers, o);
    AppsTried(r, uid, m.domains, m.apps, o);
    RestTried(r, uid, m);
    hide PoolTrials, DomainTrials, DatabaseTrials, DatabaseUserTrials, AppTrials, RestoredIDs, IdsByName, LastPlan,
        Tries, Flat, OfPool, OfDomain, OfDatabase, OfDatabaseUser, OfApp, OfRest;
  }

  lemma {:induction false} ChainHas(rows: seq<Row>, o: Oracle, r: Row)
    ensures Try(r) in Chain(rows, o) <==>
      exists i :: 0 <= i < |rows| && rows[i] == r && forall j :: 0 <= j < i ==> o(rows[j]).Done?
  {
    if rows != [] {
      ChainHas(rows[1..], o, r);
      BehindHas(rows[0], o, Chain(rows[1..], o), Try(r));
      hide Behind;
      if r != rows[0] && o(rows[0]).Done? {
        if i :| 0 <= i < |rows| && rows[i] == r && forall j :: 0 <= j < i ==> o(rows[j]).Done? {
          assert rows[1..][i - 1] == r;
        }
        if i :| 0 <= i < |rows[1..]| && rows[1..][i] == r && forall j :: 0 <= j < i ==> o(rows[1..][j]).Done? {
          assert rows[i + 1] == r;
          assert forall j :: 1 <= j < i + 1 ==> rows[j] == rows[1..][j - 1];
        }
      }
    }
  }

  lemma ProfileIs(a: Account, u: Profile)
    ensures IsProfile(a, u) <==> u == UserOf(a)
  {
  }

  lemma ExportedIs(a: Account, e: Exported)
    ensures IsExported(a, e) <==> e == ExportedOf(a)
  {
  }

  lemma TraitsAre(a: Account, t: Traits)
    ensures IsTraits(UserOf(a), ExportedOf(a), t) <==> t == TraitsOf(a)
  {
    hide UserOf, ExportedOf, JsonString;
    var u := UserOf(a);
    var email, name := JsonString(u.email), JsonString(u.username);
    assert t.text == "{\"email\":" + email + (if u.isAdmin then ",\"is_admin\":true" else ",\"is_admin\":false")
        + (if u.username == "" then "}" else ",\"username\":" + name + "}")
      <==> t.text == DefaultTraits(u).text;
  }

  lemma ProfileRowIs(r: Row, u: Profile, l: Login)
    ensures OfProfile(r, u, l) <==> r == UserRow(u, l)
  {
  }

  lemma CredentialsAre(cs: seq<Credential>, l: Login, o: Oracle)
    ensures CredentialsDone(cs, l, o) <==>
      forall i :: 0 <= i < |cs| ==> o(Each(cs, CredentialRow(l))[i]).Done?
  {
    assert forall i, r :: 0 <= i < |cs| ==> (OfCredential(r, cs[i], l) <==> r == Each(cs, CredentialRow(l))[i]);
  }

  lemma CredentialTried(r: Row, cs: seq<Credential>, l: Login, o: Oracle)
    ensures Try(r) in Chain(Each(cs, CredentialRow(l)), o) <==>
      exists i :: 0 <= i < |cs| && OfCredential(r, cs[i], l) && CredentialsDone(cs[..i], l, o)
  {
    var rows := Each(cs, CredentialRow(l));
    ChainHas(rows, o, r);
    forall i | 0 <= i < |cs|
      ensures OfCredential(r, cs[i], l) <==> rows[i] == r
      ensures CredentialsDone(cs[..i], l, o) <==> forall j :: 0 <= j < i ==> o(rows[j]).Done?
    {
      CredentialsAre(cs[..i], l, o);
      assert forall j :: 0 <= j < i ==> Each(cs[..i], CredentialRow(l))[j] == rows[j];
    }
    hide Chain, Each, OfCredential, CredentialsDone;
  }

  lemma IdentityIs(r: Row, a: Account, l: Login)
    ensures IsIdentity(r, UserOf(a), ExportedOf(a), l) <==> r == IdentityRow(a, l)
  {
    if r.content.Identity? {
      TraitsAre(a, r.content.traits);
    }
    hide UserOf, ExportedOf, TraitsOf, IsTraits;
  }

  lemma OfUserIs(r: Row, a: Account, l: Login, o: Oracle)
    ensures OfUser(r, UserOf(a), ExportedOf(a), l, o) <==>
      || r == IdentityRow(a, l)
      || (&& o(IdentityRow(a, l)).Done?
          && (|| Try(r) in Chain(Each(ExportedOf(a).credentials, CredentialRow(l)), o)
              || (r == UserRow(UserOf(a), l) && CredentialsDone(ExportedOf(a).credentials, l, o))))
  {
    var cs := ExportedOf(a).credentials;
    CredentialTried(r, cs, l, o);
    ProfileRowIs(r, UserOf(a), l);
    forall identity: Row
      ensures IsIdentity(identity, UserOf(a), ExportedOf(a), l) <==> identity == IdentityRow(a, l)
    {
      IdentityIs(identity, a, l);
    }
    hide Chain, Each, OfCredential, CredentialsDone, OfProfile, UserRow, UserOf, ExportedOf, IdentityRow, IsIdentity;
  }

  lemma UserTried(r: Row, a: Account, l: Login, o: Oracle)
    ensures Try(r) in Chain(UserPlan(a, l), o) <==>
      exists u, e :: IsProfile(a, u) && IsExported(a, e) && OfUser(r, u, e, l, o)
  {
    forall u: Profile
      ensures IsProfile(a, u) <==> u == UserOf(a)
    {
      ProfileIs(a, u);
    }
    forall e: Exported
      ensures IsExported(a, e) <==> e == ExportedOf(a)
    {
      ExportedIs(a, e);
    }
    OfUserIs(r, a, l, o);
    hide OfUser, IsProfile, IsExported, UserOf, ExportedOf, IdentityRow, UserRow, CredentialRow, Chain, Each;
    var cs := ExportedOf(a).credentials;
    ChainAround(IdentityRow(a, l), Each(cs, CredentialRow(l)), UserRow(UserOf(a), l), o);
    CredentialsAre(cs, l, o);
  }

  /** The log tries exactly the rows that the bundle, the login and the outcomes
      call for. */
  lemma TriedExactly(r: Row, a: Account, l: Option<Login>, mint: (string, string) -> string, o: Oracle)
    ensures Try(r) in RunLog(a, l, mint, o) <==> Tried(r, a, l, mint, o)
  {
    if l.Some? {
      UserTried(r, a, l.value, o);
    }
    if a.meta.Some? {
      BundleTried(r, a.manifest.id, a.meta.value, mint, o);
    }
    hide Chain, UserPlan, MetaTrials, OfUser, OfBundle, IsProfile, IsExported;
  }

  function Works(): Oracle {
    (r: Row) => Done
  }

  /** The plan, row by row: everything the bundle holds. */
  lemma PlannedExactly(r: Row, a: Account, l: Option<Login>, mint: (string, string) -> string)
    ensures r in Plan(a, l, mint) <==> Tried(r, a, l, mint, Works())
  {
    var log := RunLog(a, l, mint, Works());
    TriedExactly(r, a, l, mint, Works());
    DoneIsPlan(a, l, mint, Works());
    SentMember(log, Works(), r);
    hide Tried, RunLog, SentOf;
  }

  // Failures only take statements away.

  lemma MailboxMore(r: Row, domain: string, m: Mailbox, o: Oracle)
    ensures OfMailbox(r, domain, m, o) ==> OfMailbox(r, domain, m, Works())
  {
  }

  lemma DomainMore(r: Row, uid: string, d: Domain, o: Oracle)
    ensures OfDomain(r, uid, d, o) ==> OfDomain(r, uid, d, Works())
  {
    forall i | 0 <= i < |d.mailboxes|
      ensures OfMailbox(r, d.id, d.mailboxes[i], o) ==> OfMailbox(r, d.id, d.mailboxes[i], Works())
    {
      MailboxMore(r, d.id, d.mailboxes[i], o);
    }
    hide OfMailbox, IsHostName, IsDomain, IsForwarder;
  }

  lemma UserMore(r: Row, u: Profile, e: Exported, l: Login, o: Oracle)
    ensures OfUser(r, u, e, l, o) ==> OfUser(r, u, e, l, Works())
  {
    hide OfProfile, OfCredential, IsIdentity;
  }

  lemma BundleMore(r: Row, uid: string, m: Metadata, mint: (string, string) -> string, o: Oracle)
    ensures OfBundle(r, uid, m, mint, o) ==> OfBundle(r, uid, m, mint, Works())
  {
    forall i | 0 <= i < |m.domains|
      ensures OfDomain(r, uid, m.domains[i], o) ==> OfDomain(r, uid, m.domains[i], Works())
    {
      DomainMore(r, uid, m.domains[i], o);
    }
    assert forall p :: OfPool(r, uid, p, o) ==> OfPool(r, uid, p, Works());
    assert forall u :: OfDatabaseUser(r, uid, m.databases, mint, u, o) ==>
      OfDatabaseUser(r, uid, m.databases, mint, u, Works()) by {
      hide OfGrant;
    }
    assert forall app :: OfApp(r, uid, m.domains, app, o) ==> OfApp(r, uid, m.domains, app, Works()) by {
      hide IsHostName, IsDomain;
    }
    hide OfPool, OfDomain, OfDatabase, OfDatabaseUser, OfApp, OfRest;
  }

  lemma TriedMore(r: Row, a: Account, l: Option<Login>, mint: (string, string) -> string, o: Oracle)
    ensures Tried(r, a, l, mint, o) ==> Tried(r, a, l, mint, Works())
  {
    if l.Some? && exists u, e :: IsProfile(a, u) && IsExported(a, e) && OfUser(r, u, e, l.value, o) {
      var u, e :| IsProfile(a, u) && IsExported(a, e) && OfUser(r, u, e, l.value, o);
      UserMore(r, u, e, l.value, o);
    }
    if a.meta.Some? {
      BundleMore(r, a.manifest.id, a.meta.value, mint, o);
    }
    hide OfUser, OfBundle, IsProfile, IsExported;
  }

  lemma NoUserInBundle(r: Row, uid: string, m: Metadata, mint: (string, string) -> string, o: Oracle)
    requires OfBundle(r, uid, m, mint, o)
    ensures r.key.table != Users
  {
    hide IsHostName, IsDatabaseName, IsGrantDatabase;
  }

  /** What reached the database is planned, and the user comes with its identity. */
  lemma TrialsSendable(a: Account, l: Option<Login>, mint: (string, string) -> string, o: Oracle)
    ensures Sendable(a, l, mint, SentOf(RunLog(a, l, mint, o), o))
  {
    var log := RunLog(a, l, mint, o);
    forall r | r in SentOf(log, o)
      ensures r in Plan(a, l, mint)
    {
      hide *;
      SentMember(log, o, r);
      TriedExactly(r, a, l, mint, o);
      TriedMore(r, a, l, mint, o);
      PlannedExactly(r, a, l, mint);
    }
    if l.Some? && UserRow(UserOf(a), l.value) in SentOf(log, o) {
      UserWithIdentity(a, l.value, mint, o);
    }
    hide Plan, RunLog, SentOf;
  }

  lemma UserWithIdentity(a: Account, l: Login, mint: (string, string) -> string, o: Oracle)
    requires UserRow(UserOf(a), l) in SentOf(RunLog(a, Some(l), mint, o), o)
    ensures IdentityRow(a, l) in SentOf(RunLog(a, Some(l), mint, o), o)
  {
    var log, user, identity := RunLog(a, Some(l), mint, o), UserRow(UserOf(a), l), IdentityRow(a, l);
    assert user.key.table == Users && user != identity;
    SentMember(log, o, user);
    SentMember(log, o, identity);
    var cs := Each(ExportedOf(a).credentials, CredentialRow(l));
    assert forall i :: 0 <= i < |cs| ==> cs[i] != user;
    ChainHas(cs, o, user);
    ChainAround(identity, cs, user, o);
    if a.meta.Some? && Try(user) in MetaTrials(a.manifest.id, a.meta.value, mint, o) {
      BundleTried(user, a.manifest.id, a.meta.value, mint, o);
      NoUserInBundle(user, a.manifest.id, a.meta.value, mint, o);
    }
    hide SentOf, MetaTrials, Chain, IdentityRow, UserRow, CredentialRow, Each;
  }
}
