/** The reconstruction run (reconstructAccountState in backup_system_accounts.go):
    one INSERT IGNORE after another, each of which may fail before or after it
    took effect.  A failed parent skips its children; nothing is undone. */
module Reconstruct {
  import opened PanelDb
  import opened Bundle
  import opened AccountRuns
  import opened Ownership
  import opened Trials
  import opened TrialRows
  import opened TrialWarnings
  import opened Text

  /** No statement failed. */
  ghost predicate Clean(ws: seq<Warning>) {
    forall w :: w in ws ==> !w.Failed?
  }

  /** A stored identity with this email. */
  predicate Matches(db: Db, email: string, k: Key) {
    && k in db && k.table == Identities && |k.id| == 1 && db[k].content.Identity?
    && db[k].content.traits.emailJson == Quoted(email)
  }

  predicate IsActive(db: Db, k: Key) {
    k in db && db[k].content.Identity? && db[k].content.state == "active"
  }

  /** The words `SELECT nid, schema_id` prints for an identity. */
  function KratosWords(db: Db, k: Key): (words: seq<string>)
    requires IsActive(db, k)
    ensures forall w :: w in words ==> w != ""
  {
    Fields(TrimSpace(db[k].content.nid + "\t" + db[k].content.schema + "\n"))
  }

  lemma TwoFields(a: string, gap: string, b: string)
    requires IsWord(a) && IsWord(b) && AllSpaces(gap) && gap != ""
    ensures Fields(a + gap + b) == [a, b]
  {
    assert gap[0] in gap;
    hide Fields, IsSpace;
    var rest := gap + b;
    assert rest[0] == gap[0] && rest == gap + b + "" && a + gap + b == "" + a + rest;
    FieldsWord("", a, rest);
    FieldsWord(gap, b, "");
    NoFields();
  }

  lemma TwoWords(a: string, b: string)
    requires IsWord(a) && IsWord(b)
    ensures Fields(TrimSpace(a + "\t" + b + "\n")) == [a, b]
  {
    assert IsSpace('\t') && IsSpace('\n');
    hide Fields, TrimSpace, IsSpace;
    TwoFields(a, "\t", b);
    var text := a + "\t" + b;
    assert text[0] == a[0] && text[|text| - 1] == b[|b| - 1];
    TrimBlank("", text, "\n");
    assert text + "\n" == "" + text + "\n";
  }

  /** A network and a schema that are words come out as they are stored. */
  lemma KratosWordsAre(db: Db, k: Key)
    requires IsActive(db, k) && IsWord(db[k].content.nid) && IsWord(db[k].content.schema)
    ensures KratosWords(db, k) == [db[k].content.nid, db[k].content.schema]
  {
    TwoWords(db[k].content.nid, db[k].content.schema);
    hide Fields, TrimSpace;
  }

  /** An answer to the query for a network and a schema. */
  ghost predicate Prints(db: Db, nid: string, schema: string) {
    exists k :: IsActive(db, k) && |KratosWords(db, k)| >= 2 && KratosWords(db, k)[..2] == [nid, schema]
  }

  /** Whichever row the query answers with, it has a network and a schema. */
  ghost predicate AlwaysPrints(db: Db) {
    && (exists k :: IsActive(db, k))
    && forall k :: IsActive(db, k) ==> |KratosWords(db, k)| >= 2
  }

  /** The identity a run uses: the exported one, else one found by the email, else
      the new UUID. */
  ghost predicate Chooses(db: Db, a: Account, emailOk: bool, uuid: string, id: string) {
    var email := UserOf(a).email;
    if ExportedOf(a).id != "" then id == ExportedOf(a).id
    else if !emailOk || email == "" || !Known(db, email) then id == uuid
    else (id != "" && HasEmail(db, email, id)) || (id == uuid && HasEmail(db, email, ""))
  }

  class Restorer {
    var db: Db
    var nid: string
    var schema: string
    var warnings: seq<Warning>
    /** How each statement ends. */
    const oracle: Oracle
    ghost const start: Db
    ghost var log: Log

    /** Database and warnings are what the log says. */
    ghost predicate Valid()
      reads this
    {
      db == Run(start, SentOf(log, oracle)) && warnings == WarningsOf(log, oracle)
    }

    constructor (db: Db, oracle: Oracle)
      ensures Valid() && start == db && this.oracle == oracle && log == [] && nid == ""
    {
      this.db, this.oracle, nid, schema, warnings := db, oracle, "", "", [];
      start, log := db, [];
    }

    /** `runMariaDBStmt` of one INSERT IGNORE. */
    method Exec(row: Row) returns (ok: bool)
      modifies this`db
      ensures ok <==> oracle(row).Done?
      ensures db == if oracle(row) == FailedBefore then old(db) else InsertIgnore(old(db), row)
    {
      ok := oracle(row).Done?;
      if oracle(row) != FailedBefore {
        db := InsertIgnore(db, row);
      }
    }

    /** A statement whose failure is only reported. */
    method Attempt(row: Row) returns (ok: bool)
      requires Valid()
      modifies this`db, this`log, this`warnings
      ensures Valid() && log == old(log) + [Try(row)] && (ok <==> oracle(row).Done?)
    {
      hide InsertIgnore, Run, SentOf, WarningsOf;
      LogSnoc(log, Try(row), oracle);
      RunSnoc(start, SentOf(log, oracle), row);
      assert SentOf(log, oracle) + [] == SentOf(log, oracle) && warnings + [] == warnings;
      ok := Exec(row);
      if !ok {
        warnings := warnings + [Failed(row.key)];
      }
      log := log + [Try(row)];
    }

    method Warn(w: Warning)
      requires Valid()
      modifies this`log, this`warnings
      ensures Valid() && log == old(log) + [Skip(w)]
    {
      hide Run, SentOf, WarningsOf;
      LogSnoc(log, Skip(w), oracle);
      assert SentOf(log, oracle) + [] == SentOf(log, oracle);
      warnings := warnings + [w];
      log := log + [Skip(w)];
    }

    method TryEach(rows: seq<Row>)
      requires Valid()
      modifies this`db, this`log, this`warnings
      ensures Valid() && log == old(log) + Tries(rows)
    {
      hide Run, SentOf, WarningsOf;
      assert Tries(rows[..0]) == [];
      for i := 0 to |rows|
        invariant Valid() && log == old(log) + Tries(rows[..i])
      {
        TriesStep(rows, i);
        hide Tries;
        var _ := Attempt(rows[i]);
      }
      assert rows[..|rows|] == rows;
    }

    /** `ensureKratosLookup`: the network and schema of any active identity,
        remembered once found. */
    method EnsureKratosLookup(queryOk: bool) returns (n: string, s: string)
      modifies this`nid, this`schema
      ensures old(nid) != "" ==> nid == old(nid) && schema == old(schema)
      ensures n == nid && (n != "" ==> s == schema)
      ensures old(nid) == "" && n != "" ==> queryOk && Prints(db, n, s)
      ensures n == "" ==> !queryOk || !AlwaysPrints(db)
    {
      if nid != "" {
        return nid, schema;
      }
      if !queryOk || !exists k :: k in db && IsActive(db, k) {
        return "", "";
      }
      var k :| k in db && IsActive(db, k);
      var parts := KratosWords(db, k);
      if |parts| < 2 {
        return "", "";
      }
      nid, schema := parts[0], parts[1];
      assert parts[0] in parts && KratosWords(db, k)[..2] == [nid, schema];
      return nid, schema;
    }

    /** `lookupKratosIdentityByEmail`: "" when the query fails or finds nothing. */
    method LookupByEmail(email: string, queryOk: bool) returns (id: string)
      ensures id != "" ==> queryOk && email != "" && HasEmail(db, email, id)
      ensures id == "" ==> !queryOk || email == "" || !Known(db, email) || HasEmail(db, email, "")
    {
      if email == "" || !queryOk {
        return "";
      }
      if exists k :: k in db && Matches(db, email, k) {
        var k :| k in db && Matches(db, email, k);
        assert k == At(Identities, k.id[0]);
        id := k.id[0];
      } else {
        assert forall i :: HasEmail(db, email, i) ==> Matches(db, email, At(Identities, i));
        id := "";
      }
    }

    /** `insertUserAndKratos`; `uuid` is the new UUID.  A failed lookup by email
        is not reported: the run then goes on with the fresh identity. */
    method RestoreUser(a: Account, nidOk: bool, emailOk: bool, uuid: string) returns (login: Option<Login>)
      requires Valid()
      modifies this
      ensures Valid()
      ensures log == old(log) +
        if login.Some? then Chain(UserPlan(a, login.value), oracle) else [Skip(NoKratosIdentity)]
      ensures login.Some? ==> login.value.nid == nid && login.value.schema == schema
      ensures old(nid) != "" ==> login.Some? && nid == old(nid) && schema == old(schema)
      ensures old(nid) == "" && login.Some? ==> nidOk && Prints(old(db), nid, schema)
      ensures login.None? ==> !nidOk || !AlwaysPrints(old(db))
      ensures login.Some? ==> Chooses(old(db), a, emailOk, uuid, login.value.id)
    {
      hide UserPlan, Chain, Run, SentOf, WarningsOf, Prints, AlwaysPrints, UserOf, ExportedOf;
      var n, s := EnsureKratosLookup(nidOk);
      if n == "" {
        Warn(NoKratosIdentity);
        return None;
      }
      var exported := ExportedOf(a);
      var id := exported.id;
      if id == "" {
        id := LookupByEmail(UserOf(a).email, emailOk);
        if id == "" {
          id := uuid;
        }
      }
      login := Some(Login(id, n, s));
      InsertUserRows(a, login.value);
    }

    /** The credentials, up to the first that fails. */
    method InsertCredentials(rows: seq<Row>) returns (ok: bool)
      requires Valid()
      modifies this`db, this`log, this`warnings
      ensures Valid() && log == old(log) + Chain(rows, oracle)
      ensures ok <==> forall i :: 0 <= i < |rows| ==> oracle(rows[i]).Done?
    {
      hide Run, SentOf, WarningsOf, Chain, Tries;
      ChainFrom(rows, 0, oracle);
      for i := 0 to |rows|
        invariant Valid() && log + Chain(rows[i..], oracle) == old(log) + Chain(rows, oracle)
        invariant forall j :: 0 <= j < i ==> oracle(rows[j]).Done?
      {
        ChainFrom(rows, i, oracle);
        ghost var before := log;
        ok := Attempt(rows[i]);
        if !ok {
          return;
        }
        assert before + ([Try(rows[i])] + Chain(rows[i + 1..], oracle)) == log + Chain(rows[i + 1..], oracle);
      }
      ChainEnds(rows, oracle);
      ok := true;
    }

    /** The identity, its credentials and the user, up to the first that fails. */
    method InsertUserRows(a: Account, l: Login)
      requires Valid()
      modifies this`db, this`log, this`warnings
      ensures Valid() && log == old(log) + Chain(UserPlan(a, l), oracle)
    {
      var first, last := IdentityRow(a, l), UserRow(UserOf(a), l);
      var credentials := Each(ExportedOf(a).credentials, CredentialRow(l));
      hide IdentityRow, UserRow, UserOf, ExportedOf, CredentialRow, Each, Run, SentOf, WarningsOf, Chain;
      ChainAround(first, credentials, last, oracle);
      var ok := Attempt(first);
      if !ok {
        return;
      }
      ok := InsertCredentials(credentials);
      if !ok {
        return;
      }
      ok := Attempt(last);
    }

    method RestorePool(uid: string, p: Pool)
      requires Valid()
      modifies this`db, this`log, this`warnings
      ensures Valid() && log == old(log) + PoolTrials(uid, oracle)(p)
    {
      hide PoolRow, Run, Each;
      var ok := Attempt(PoolRow(uid, p));
      if !ok {
        return;
      }
      TryEach(Each(p.ini, IniRow(p.id)));
    }

    method RestorePools(uid: string, pools: seq<Pool>)
      requires Valid()
      modifies this`db, this`log, this`warnings
      ensures Valid() && log == old(log) + Flat(pools, PoolTrials(uid, oracle))
    {
      hide PoolTrials, Run, SentOf, WarningsOf;
      for i := 0 to |pools|
        invariant Valid() && log == old(log) + Flat(pools[..i], PoolTrials(uid, oracle))
      {
        RestorePool(uid, pools[i]);
        FlatStep(pools, i, PoolTrials(uid, oracle));
      }
      assert pools[..|pools|] == pools;
    }

    method RestoreMailbox(domain: string, m: Mailbox)
      requires Valid()
      modifies this`db, this`log, this`warnings
      ensures Valid() && log == old(log) + MailboxTrials(domain, oracle)(m)
    {
      hide MailboxRow, ShareRow, Run, SentOf, WarningsOf, Tries, Each, ReplyPlan;
      var ok := Attempt(MailboxRow(domain, m));
      if !ok {
        return;
      }
      TryEach(ReplyPlan(m));
      TryEach(Each(m.sharedWith, ShareRow(m.id)));
    }

    method RestoreMailboxes(domain: string, mailboxes: seq<Mailbox>)
      requires Valid()
      modifies this`db, this`log, this`warnings
      ensures Valid() && log == old(log) + Flat(mailboxes, MailboxTrials(domain, oracle))
    {
      hide MailboxTrials, Run, SentOf, WarningsOf;
      for i := 0 to |mailboxes|
        invariant Valid() && log == old(log) + Flat(mailboxes[..i], MailboxTrials(domain, oracle))
      {
        RestoreMailbox(domain, mailboxes[i]);
        FlatStep(mailboxes, i, MailboxTrials(domain, oracle));
      }
      assert mailboxes[..|mailboxes|] == mailboxes;
    }

    /** `ok` says whether the domain counts as restored. */
    method RestoreDomain(uid: string, d: Domain) returns (ok: bool)
      requires Valid()
      modifies this`db, this`log, this`warnings
      ensures Valid() && log == old(log) + DomainTrials(uid, oracle)(d)
      ensures ok <==> ValidDomainName(d.name) && oracle(DomainRow(uid, d)).Done?
    {
      hide DomainRow, UnderTrials, ValidDomainName, Run, SentOf, WarningsOf;
      if !ValidDomainName(d.name) {
        Warn(InvalidDomain(d.name));
        return false;
      }
      ok := Attempt(DomainRow(uid, d));
      if !ok {
        return;
      }
      RestoreUnderDomain(d);
    }

    method RestoreUnderDomain(d: Domain)
      requires Valid()
      modifies this`db, this`log, this`warnings
      ensures Valid() && log == old(log) + UnderTrials(d, oracle)
    {
      hide Flat, Each, CertificatePlan, MailboxTrials, Run, SentOf, WarningsOf;
      hide Tries, ForwarderRow, DnssecRow;
      TryEach(CertificatePlan(d));
      RestoreMailboxes(d.id, d.mailboxes);
      TryEach(Each(d.forwarders, ForwarderRow(d.id)));
      TryEach(Each(d.dnssec, DnssecRow(d.id)));
    }

    /** `known` is domainIDByOldID. */
    method RestoreDomains(uid: string, domains: seq<Domain>) returns (known: map<string, string>)
      requires Valid()
      modifies this`db, this`log, this`warnings
      ensures Valid() && log == old(log) + Flat(domains, DomainTrials(uid, oracle))
      ensures known.Keys == RestoredIDs(uid, domains, oracle)
    {
      hide DomainTrials, ValidDomainName, DomainRow, Run, SentOf, WarningsOf;
      known := map[];
      for i := 0 to |domains|
        invariant Valid() && log == old(log) + Flat(domains[..i], DomainTrials(uid, oracle))
        invariant known.Keys == RestoredIDs(uid, domains[..i], oracle)
      {
        var ok := RestoreDomain(uid, domains[i]);
        FlatStep(domains, i, DomainTrials(uid, oracle));
        RestoredStep(uid, domains, i, oracle);
        if ok {
          known := known[domains[i].id := domains[i].id];
        }
      }
      assert domains[..|domains|] == domains;
    }

    /** `ids` is dbIDByName, which learns a name even when its insert fails. */
    method RestoreDatabases(uid: string, databases: seq<Database>) returns (ids: map<string, string>)
      requires Valid()
      modifies this`db, this`log, this`warnings
      ensures Valid() && log == old(log) + Flat(databases, DatabaseTrials(uid))
      ensures ids == IdsByName(databases)
    {
      hide ValidDatabaseName, Run, SentOf, WarningsOf, DatabaseTrials;
      ids := map[];
      for i := 0 to |databases|
        invariant Valid() && log == old(log) + Flat(databases[..i], DatabaseTrials(uid))
        invariant ids == IdsByName(databases[..i])
      {
        var d := databases[i];
        assert databases[..i + 1][..i] == databases[..i];
        ids := ids[d.name := d.id];
        FlatStep(databases, i, DatabaseTrials(uid));
        RestoreDatabase(uid, d);
      }
      assert databases[..|databases|] == databases;
    }

    method RestoreDatabase(uid: string, d: Database)
      requires Valid()
      modifies this`db, this`log, this`warnings
      ensures Valid() && log == old(log) + DatabaseTrials(uid)(d)
    {
      hide ValidDatabaseName, Run, SentOf, WarningsOf;
      if !ValidDatabaseName(d.name) {
        Warn(InvalidDatabase(d.name));
        return;
      }
      var _ := Attempt(DatabaseRow(uid, d));
    }

    method RestoreGrant(user: string, ids: map<string, string>, mint: (string, string) -> string, g: Grant)
      requires Valid()
      modifies this`db, this`log, this`warnings
      ensures Valid() && log == old(log) + GrantTrials(user, ids, mint)(g)
    {
      assert GrantTrials(user, ids, mint)(g) ==
        var to := GrantDatabase(ids, g);
        if to == "" then [Skip(MissingDatabase(g.databaseName))]
        else [Try(GrantRow(user, to, Or(g.id, mint(to, user)), g))];
      hide GrantTrials, GrantRow, Run, SentOf, WarningsOf;
      var database := g.databaseID;
      if database == "" && g.databaseName in ids {
        database := ids[g.databaseName];
      }
      if database == "" {
        Warn(MissingDatabase(g.databaseName));
        return;
      }
      var _ := Attempt(GrantRow(user, database, Or(g.id, mint(database, user)), g));
    }

    method RestoreDatabaseUser(uid: string, ids: map<string, string>, mint: (string, string) -> string, u: DatabaseUser)
      requires Valid()
      modifies this`db, this`log, this`warnings
      ensures Valid() && log == old(log) + DatabaseUserTrials(uid, ids, mint, oracle)(u)
    {
      hide DatabaseUserRow, GrantTrials, Run, SentOf, WarningsOf;
      var ok := Attempt(DatabaseUserRow(uid, u));
      if !ok {
        return;
      }
      for i := 0 to |u.grants|
        invariant Valid()
          && log == old(log) + [Try(DatabaseUserRow(uid, u))] + Flat(u.grants[..i], GrantTrials(u.id, ids, mint))
      {
        RestoreGrant(u.id, ids, mint, u.grants[i]);
        FlatStep(u.grants, i, GrantTrials(u.id, ids, mint));
      }
      assert u.grants[..|u.grants|] == u.grants;
    }

    method RestoreDatabaseUsers(uid: string, ids: map<string, string>, mint: (string, string) -> string,
        users: seq<DatabaseUser>)
      requires Valid()
      modifies this`db, this`log, this`warnings
      ensures Valid() && log == old(log) + Flat(users, DatabaseUserTrials(uid, ids, mint, oracle))
    {
      hide DatabaseUserTrials, Run, SentOf, WarningsOf;
      for i := 0 to |users|
        invariant Valid() && log == old(log) + Flat(users[..i], DatabaseUserTrials(uid, ids, mint, oracle))
      {
        RestoreDatabaseUser(uid, ids, mint, users[i]);
        FlatStep(users, i, DatabaseUserTrials(uid, ids, mint, oracle));
      }
      assert users[..|users|] == users;
    }

    method RestoreApps(uid: string, known: map<string, string>, apps: seq<AppInstall>)
      requires Valid()
      modifies this`db, this`log, this`warnings
      ensures Valid() && log == old(log) + Flat(apps, AppTrials(uid, known.Keys))
    {
      hide AppRow, Run, SentOf, WarningsOf;
      for i := 0 to |apps|
        invariant Valid() && log == old(log) + Flat(apps[..i], AppTrials(uid, known.Keys))
      {
        FlatStep(apps, i, AppTrials(uid, known.Keys));
        if apps[i].domainID !in known {
          Warn(MissingDomain(apps[i].domainID));
        } else {
          var _ := Attempt(AppRow(uid, apps[i]));
        }
      }
      assert apps[..|apps|] == apps;
    }

    /** SSH keys, cron jobs, egress and limits. */
    method RestoreLast(uid: string, m: Metadata)
      requires Valid()
      modifies this`db, this`log, this`warnings
      ensures Valid() && log == old(log) + Tries(LastPlan(uid, m))
    {
      hide Run, PerUserPlan, Each;
      LastTries(uid, m);
      hide Tries, SshKeyRow, JobRow, LastPlan;
      TryEach(Each(m.sshKeys, SshKeyRow(uid)));
      TryEach(Each(m.cronJobs, JobRow(CronJobs, uid)));
      TryEach(PerUserPlan(EgressPolicies, uid, m.egressPolicy));
      TryEach(Each(m.egressRequests, JobRow(EgressRequests, uid)));
      TryEach(PerUserPlan(LimitOverrides, uid, m.limits));
    }

    method RestoreMetadata(uid: string, m: Metadata, mint: (string, string) -> string)
      requires Valid()
      modifies this`db, this`log, this`warnings
      ensures Valid() && log == old(log) + MetaTrials(uid, m, mint, oracle)
    {
      hide PoolTrials, DomainTrials, DatabaseTrials, DatabaseUserTrials, AppTrials, LastPlan, IdsByName, RestoredIDs,
          Flat, Tries, Run, SentOf, WarningsOf;
      RestorePools(uid, m.pools);
      var known := RestoreDomains(uid, m.domains);
      var ids := RestoreDatabases(uid, m.databases);
      RestoreDatabaseUsers(uid, ids, mint, m.databaseUsers);
      RestoreApps(uid, known, m.apps);
      RestoreLast(uid, m);
    }

    /** `reconstructAccountState`: the run tries what `RunLog` says, whatever
        fails; the database is the old one with the rows that reached it, and the
        planned run for the login the run picked if nothing failed. */
    method ReconstructAccountState(a: Account, nidOk: bool, emailOk: bool, uuid: string,
        mint: (string, string) -> string)
      returns (login: Option<Login>)
      requires Valid()
      modifies this
      ensures Valid() && log == old(log) + RunLog(a, login, mint, oracle)
      ensures var sent := SentOf(RunLog(a, login, mint, oracle), oracle);
        && db == Run(old(db), sent) && Sendable(a, login, mint, sent)
        && (Owned(old(db)) ==> (Owned(db) <==>
              || UserThere(old(db), a, login, sent)
              || forall r :: r in sent && r.key.table == Domains ==> !Accepts(old(db), r)))
      ensures warnings == old(warnings) + WarningsOf(RunLog(a, login, mint, oracle), oracle)
      ensures Clean(warnings[|old(warnings)|..]) ==> db == Run(old(db), Plan(a, login, mint))
      ensures old(nid) != "" ==> login.Some? && login.value.nid == old(nid) && login.value.schema == old(schema)
      ensures login.Some? ==> login.value.nid == nid && login.value.schema == schema
      ensures old(nid) == "" && login.Some? ==> nidOk && Prints(old(db), nid, schema)
      ensures login.None? ==> !nidOk || !AlwaysPrints(old(db))
      ensures login.Some? ==> Chooses(old(db), a, emailOk, uuid, login.value.id)
      ensures login.Some? && emailOk && At(Identities, "") !in old(db) && At(Identities, uuid) !in old(db) ==>
        Picks(old(db), a, login.value.id)
      ensures forall r :: r in SentOf(RunLog(a, login, mint, oracle), oracle) <==>
        Tried(r, a, login, mint, oracle) && oracle(r) != FailedBefore
      ensures forall w :: w in warnings[|old(warnings)|..] <==> Warned(w, a, login, mint, oracle)
    {
      hide Run, MetaTrials, UserPlan, Chain, Picks, Prints, AlwaysPrints, Chooses, Warned, Tried, Owned, UserThere,
          Accepts, Sendable, Plan, SentOf, WarningsOf;
      login := RestoreUser(a, nidOk, emailOk, uuid);
      if login.Some? && emailOk && At(Identities, "") !in old(db) && At(Identities, uuid) !in old(db) {
        ChoosesPicks(old(db), a, uuid, login.value.id);
      }
      if a.meta.Some? {
        RestoreMetadata(a.manifest.id, a.meta.value, mint);
      }
      ghost var events := RunLog(a, login, mint, oracle);
      assert log == old(log) + events;
      SentAppend(old(log), events, oracle);
      WarningsAppend(old(log), events, oracle);
      RunAppend(start, SentOf(old(log), oracle), SentOf(events, oracle));
      TrialsSendable(a, login, mint, oracle);
      SentExactly(a, login, mint, oracle);
      AllWarned(a, login, mint, oracle);
      if Owned(old(db)) {
        OwnedAfter(old(db), a, login, mint, SentOf(events, oracle));
      }
      assert warnings[|old(warnings)|..] == WarningsOf(events, oracle);
      if Clean(WarningsOf(events, oracle)) {
        CleanIsDone(events, oracle);
        DoneIsPlan(a, login, mint, oracle);
      }
    }
  }

  lemma SentExactly(a: Account, l: Option<Login>, mint: (string, string) -> string, o: Oracle)
    ensures forall r :: r in SentOf(RunLog(a, l, mint, o), o) <==> Tried(r, a, l, mint, o) && o(r) != FailedBefore
  {
    hide *;
    forall r: Row
      ensures r in SentOf(RunLog(a, l, mint, o), o) <==> Tried(r, a, l, mint, o) && o(r) != FailedBefore
    {
      SentMember(RunLog(a, l, mint, o), o, r);
      TriedExactly(r, a, l, mint, o);
    }
  }

  lemma AllWarned(a: Account, l: Option<Login>, mint: (string, string) -> string, o: Oracle)
    ensures forall w :: w in WarningsOf(RunLog(a, l, mint, o), o) <==> Warned(w, a, l, mint, o)
  {
    hide *;
    forall w: Warning
      ensures w in WarningsOf(RunLog(a, l, mint, o), o) <==> Warned(w, a, l, mint, o)
    {
      WarnedExactly(w, a, l, mint, o);
    }
  }

  /** When the queries work, the new UUID is free and no identity has an empty id,
      that is the identity that three runs in a row are about. */
  lemma ChoosesPicks(db: Db, a: Account, uuid: string, id: string)
    requires Chooses(db, a, true, uuid, id) && At(Identities, "") !in db && At(Identities, uuid) !in db
    ensures Picks(db, a, id)
  {
  }

  lemma CleanIsDone(log: Log, o: Oracle)
    requires Clean(WarningsOf(log, o))
    ensures AllDone(log, o)
  {
    forall r | Try(r) in log
      ensures o(r).Done?
    {
      if !o(r).Done? {
        FailureWarned(log, o, r);
      }
    }
  }

  lemma TriesStep(rows: seq<Row>, i: nat)
    requires i < |rows|
    ensures Tries(rows[..i + 1]) == Tries(rows[..i]) + [Try(rows[i])]
  {
  }

  lemma ChainFrom(rows: seq<Row>, i: nat, o: Oracle)
    requires i < |rows| || i == 0
    ensures rows[0..] == rows
    ensures i < |rows| ==>
      Chain(rows[i..], o) == [Try(rows[i])] + if o(rows[i]).Done? then Chain(rows[i + 1..], o) else []
  {
    assert i < |rows| ==> rows[i..][1..] == rows[i + 1..];
  }

  lemma ChainEnds(rows: seq<Row>, o: Oracle)
    ensures Chain(rows[|rows|..], o) == []
  {
  }

  lemma RestoredStep(uid: string, ds: seq<Domain>, i: nat, o: Oracle)
    requires i < |ds|
    ensures RestoredIDs(uid, ds[..i + 1], o) == RestoredIDs(uid, ds[..i], o)
      + if ValidDomainName(ds[i].name) && o(DomainRow(uid, ds[i])).Done? then {ds[i].id} else {}
  {
    hide ValidDomainName, DomainRow;
    assert ds[..i + 1][i] == ds[i];
    assert forall j :: 0 <= j < i ==> ds[..i + 1][j] == ds[..i][j];
  }
}
