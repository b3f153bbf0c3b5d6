/** What a reconstruction warns about: the statements that fail, and what the
    bundle holds that no statement is tried for. */
module TrialWarnings {
  import opened PanelDb
  import opened Bundle
  import opened Trials
  import opened TrialRows
  import opened Text

  /** A domain of the bundle with this id is there. */
  ghost predicate DomainBack(uid: string, ds: seq<Domain>, id: string, o: Oracle) {
    exists i :: 0 <= i < |ds| && ds[i].id == id && IsHostName(ds[i].name)
      && forall domain :: IsDomain(domain, uid, ds[i]) ==> o(domain).Done?
  }

  /** A database user is there and has a grant for a database nobody knows. */
  ghost predicate LostGrant(uid: string, ds: seq<Database>, u: DatabaseUser, o: Oracle, name: string) {
    && o(Row(Key(DatabaseUsers, [u.id]), {Unique(UniqUserUsername, [uid, u.username])}, {Key(Users, [uid])},
             Columns([u.passwordHash]))).Done?
    && exists i :: 0 <= i < |u.grants| && LostFor(ds, u.grants[i], name)
  }

  ghost predicate LostFor(ds: seq<Database>, g: Grant, name: string) {
    g.databaseName == name && forall to :: !IsGrantDatabase(ds, g, to)
  }

  ghost predicate SkippedInBundle(w: Warning, uid: string, m: Metadata, o: Oracle) {
    match w
    case NoKratosIdentity => false
    case Failed(key) => false
    case InvalidDomain(name) => !IsHostName(name) && exists i :: 0 <= i < |m.domains| && m.domains[i].name == name
    case InvalidDatabase(name) =>
      !IsDatabaseName(name) && exists i :: 0 <= i < |m.databases| && m.databases[i].name == name
    case MissingDatabase(name) =>
      exists i :: 0 <= i < |m.databaseUsers| && LostGrant(uid, m.databases, m.databaseUsers[i], o, name)
    case MissingDomain(id) =>
      !DomainBack(uid, m.domains, id, o) && exists i :: 0 <= i < |m.apps| && m.apps[i].domainID == id
  }

  /** A run that picked this login, or none, reports this. */
  ghost predicate Warned(w: Warning, a: Account, l: Option<Login>, mint: (string, string) -> string, o: Oracle) {
    || (w == NoKratosIdentity && l.None?)
    || (a.meta.Some? && SkippedInBundle(w, a.manifest.id, a.meta.value, o))
    || (w.Failed? && exists r :: Tried(r, a, l, mint, o) && !o(r).Done? && r.key == w.key)
  }

  lemma {:induction false} WarningsMember(log: Log, o: Oracle, w: Warning)
    ensures w in WarningsOf(log, o) <==>
      Skip(w) in log || exists r :: Try(r) in log && !o(r).Done? && w == Failed(r.key)
  {
    if log != [] {
      var n := |log| - 1;
      WarningsMember(log[..n], o, w);
      assert log == log[..n] + [log[n]];
      hide WarningsOf;
      assert WarningsOf(log, o) == WarningsOf(log[..n], o) + EventWarnings(log[n], o) by {
        LogSnoc(log[..n], log[n], o);
      }
    }
  }

  lemma NoSkipTries(rows: seq<Row>, w: Warning)
    ensures Skip(w) !in Tries(rows)
  {
    TriesHold(rows);
  }

  lemma {:induction false} NoSkipChain(rows: seq<Row>, o: Oracle, w: Warning)
    ensures Skip(w) !in Chain(rows, o)
  {
    if rows != [] {
      NoSkipChain(rows[1..], o, w);
    }
  }

  lemma PoolsSkip(w: Warning, uid: string, pools: seq<Pool>, o: Oracle)
    ensures Skip(w) !in Flat(pools, PoolTrials(uid, o))
  {
    FlatExactly(pools, PoolTrials(uid, o), Skip(w));
    forall i | 0 <= i < |pools|
      ensures Skip(w) !in PoolTrials(uid, o)(pools[i])
    {
      NoSkipTries(Each(pools[i].ini, IniRow(pools[i].id)), w);
      hide Tries;
    }
  }

  lemma MailboxesSkip(w: Warning, domain: string, ms: seq<Mailbox>, o: Oracle)
    ensures Skip(w) !in Flat(ms, MailboxTrials(domain, o))
  {
    FlatExactly(ms, MailboxTrials(domain, o), Skip(w));
    forall i | 0 <= i < |ms|
      ensures Skip(w) !in MailboxTrials(domain, o)(ms[i])
    {
      NoSkipTries(ReplyPlan(ms[i]), w);
      NoSkipTries(Each(ms[i].sharedWith, ShareRow(ms[i].id)), w);
      hide Tries, MailboxRow, ShareRow, ReplyPlan, Each;
    }
  }

  lemma UnderSkip(w: Warning, d: Domain, o: Oracle)
    ensures Skip(w) !in UnderTrials(d, o)
  {
    MailboxesSkip(w, d.id, d.mailboxes, o);
    NoSkipTries(CertificatePlan(d), w);
    NoSkipTries(Each(d.forwarders, ForwarderRow(d.id)), w);
    NoSkipTries(Each(d.dnssec, DnssecRow(d.id)), w);
    hide Tries, Flat, MailboxTrials, CertificatePlan, ForwarderRow, DnssecRow, Each;
  }

  lemma DomainsSkip(w: Warning, uid: string, ds: seq<Domain>, o: Oracle)
    ensures Skip(w) in Flat(ds, DomainTrials(uid, o)) <==>
      w.InvalidDomain? && !IsHostName(w.name) && exists i :: 0 <= i < |ds| && ds[i].name == w.name
  {
    FlatExactly(ds, DomainTrials(uid, o), Skip(w));
    hide Flat, ValidDomainName, IsHostName, DomainRow, UnderTrials;
    forall i | 0 <= i < |ds|
      ensures Skip(w) in DomainTrials(uid, o)(ds[i]) <==> w == InvalidDomain(ds[i].name) && !IsHostName(ds[i].name)
    {
      HostNames(ds[i].name);
      UnderSkip(w, ds[i], o);
    }
  }

  lemma DatabasesSkip(w: Warning, uid: string, ds: seq<Database>)
    ensures Skip(w) in Flat(ds, DatabaseTrials(uid)) <==>
      w.InvalidDatabase? && !IsDatabaseName(w.name) && exists i :: 0 <= i < |ds| && ds[i].name == w.name
  {
    FlatExactly(ds, DatabaseTrials(uid), Skip(w));
    hide Flat, ValidDatabaseName, IsDatabaseName, DatabaseRow;
    forall i | 0 <= i < |ds|
      ensures Skip(w) in DatabaseTrials(uid)(ds[i]) <==> w == InvalidDatabase(ds[i].name) && !IsDatabaseName(ds[i].name)
    {
      DatabaseNames(ds[i].name);
    }
  }

  lemma GrantSkip(w: Warning, user: string, ds: seq<Database>, mint: (string, string) -> string, g: Grant)
    ensures Skip(w) in GrantTrials(user, IdsByName(ds), mint)(g) <==>
      w.MissingDatabase? && LostFor(ds, g, w.name)
  {
    var ids := IdsByName(ds);
    var to := GrantDatabase(ids, g);
    assert GrantTrials(user, ids, mint)(g) ==
      if to == "" then [Skip(MissingDatabase(g.databaseName))]
      else [Try(GrantRow(user, to, Or(g.id, mint(to, user)), g))];
    hide GrantTrials;
    forall t: string
      ensures IsGrantDatabase(ds, g, t) <==> t != "" && t == to
    {
      GrantDatabaseIs(ds, g, t);
    }
    hide IdsByName, GrantDatabase, IsGrantDatabase;
    assert to != "" <==> IsGrantDatabase(ds, g, to);
  }

  lemma UserSkip(w: Warning, uid: string, ds: seq<Database>, mint: (string, string) -> string, u: DatabaseUser,
                 o: Oracle)
    ensures Skip(w) in DatabaseUserTrials(uid, IdsByName(ds), mint, o)(u) <==>
      w.MissingDatabase? && LostGrant(uid, ds, u, o, w.name)
  {
    var f := GrantTrials(u.id, IdsByName(ds), mint);
    FlatExactly(u.grants, f, Skip(w));
    BehindHas(DatabaseUserRow(uid, u), o, Flat(u.grants, f), Skip(w));
    hide GrantTrials, Flat, Behind, IdsByName, LostFor;
    forall i | 0 <= i < |u.grants|
      ensures Skip(w) in f(u.grants[i]) <==> w.MissingDatabase? && LostFor(ds, u.grants[i], w.name)
    {
      GrantSkip(w, u.id, ds, mint, u.grants[i]);
    }
  }

  lemma UsersSkip(w: Warning, uid: string, ds: seq<Database>, mint: (string, string) -> string, us: seq<DatabaseUser>,
                  o: Oracle)
    ensures Skip(w) in Flat(us, DatabaseUserTrials(uid, IdsByName(ds), mint, o)) <==>
      w.MissingDatabase? && exists i :: 0 <= i < |us| && LostGrant(uid, ds, us[i], o, w.name)
  {
    FlatExactly(us, DatabaseUserTrials(uid, IdsByName(ds), mint, o), Skip(w));
    hide DatabaseUserTrials, LostGrant, Flat, IdsByName;
    forall i | 0 <= i < |us|
      ensures Skip(w) in DatabaseUserTrials(uid, IdsByName(ds), mint, o)(us[i]) <==>
          w.MissingDatabase? && LostGrant(uid, ds, us[i], o, w.name)
    {
      UserSkip(w, uid, ds, mint, us[i], o);
    }
  }

  lemma BackIsRestored(uid: string, ds: seq<Domain>, id: string, o: Oracle)
    ensures id in RestoredIDs(uid, ds, o) <==> DomainBack(uid, ds, id, o)
  {
    forall i | 0 <= i < |ds|
      ensures ValidDomainName(ds[i].name) && o(DomainRow(uid, ds[i])).Done? <==>
        IsHostName(ds[i].name) && forall domain :: IsDomain(domain, uid, ds[i]) ==> o(domain).Done?
    {
      HostNames(ds[i].name);
      DomainDone(uid, ds[i], o);
    }
    hide ValidDomainName, IsHostName, IsDomain, DomainRow;
  }

  lemma AppsSkip(w: Warning, uid: string, ds: seq<Domain>, apps: seq<AppInstall>, o: Oracle)
    ensures Skip(w) in Flat(apps, AppTrials(uid, RestoredIDs(uid, ds, o))) <==>
      && w.MissingDomain? && !DomainBack(uid, ds, w.id, o)
      && exists i :: 0 <= i < |apps| && apps[i].domainID == w.id
  {
    FlatExactly(apps, AppTrials(uid, RestoredIDs(uid, ds, o)), Skip(w));
    if w.MissingDomain? {
      BackIsRestored(uid, ds, w.id, o);
    }
    hide Flat, RestoredIDs, DomainBack, AppRow;
  }

  lemma BundleSkip(w: Warning, uid: string, m: Metadata, mint: (string, string) -> string, o: Oracle)
    ensures Skip(w) in MetaTrials(uid, m, mint, o) <==> SkippedInBundle(w, uid, m, o)
  {
    PoolsSkip(w, uid, m.pools, o);
    DomainsSkip(w, uid, m.domains, o);
    DatabasesSkip(w, uid, m.databases);
    UsersSkip(w, uid, m.databases, mint, m.databaseUsers, o);
    AppsSkip(w, uid, m.domains, m.apps, o);
    NoSkipTries(LastPlan(uid, m), w);
    hide PoolTrials, DomainTrials, DatabaseTrials, DatabaseUserTrials, AppTrials, RestoredIDs, IdsByName, LastPlan,
        Tries, Flat, DomainBack, LostGrant, IsHostName, IsDatabaseName;
  }

  lemma SkippedExactly(w: Warning, a: Account, l: Option<Login>, mint: (string, string) -> string, o: Oracle)
    ensures Skip(w) in RunLog(a, l, mint, o) <==>
      || (w == NoKratosIdentity && l.None?)
      || (a.meta.Some? && SkippedInBundle(w, a.manifest.id, a.meta.value, o))
  {
    if l.Some? {
      NoSkipChain(UserPlan(a, l.value), o, w);
    }
    if a.meta.Some? {
      BundleSkip(w, a.manifest.id, a.meta.value, mint, o);
    }
    hide SkippedInBundle, Chain, UserPlan, MetaTrials;
  }

  /** The warnings of a run are the failed statements and what was left out. */
  lemma WarnedExactly(w: Warning, a: Account, l: Option<Login>, mint: (string, string) -> string, o: Oracle)
    ensures w in WarningsOf(RunLog(a, l, mint, o), o) <==> Warned(w, a, l, mint, o)
  {
    var log := RunLog(a, l, mint, o);
    WarningsMember(log, o, w);
    SkippedExactly(w, a, l, mint, o);
    hide WarningsOf, Tried, SkippedInBundle, RunLog;
    forall r: Row
      ensures Try(r) in log <==> Tried(r, a, l, mint, o)
    {
      TriedExactly(r, a, l, mint, o);
    }
  }
}
