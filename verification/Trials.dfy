/** What a reconstruction tries, statement by statement, when some statements
    fail: a failed parent skips its children, and nothing else is skipped. */
module Trials {
  import opened PanelDb
  import opened Bundle
  import opened Text

  /** The end of a statement; a failed one may have taken effect. */
  datatype Outcome = Done | FailedBefore | FailedAfter

  /** How each INSERT of a run ends. */
  type Oracle = Row -> Outcome

  datatype Warning =
    | NoKratosIdentity
    | Failed(key: Key)
    | InvalidDomain(name: string)
    | InvalidDatabase(name: string)
    | MissingDatabase(name: string)
    | MissingDomain(id: string)

  /** An INSERT that was tried, or something left out with a warning. */
  datatype Event = Try(row: Row) | Skip(warning: Warning)

  type Log = seq<Event>

  function EventRows(e: Event, o: Oracle): seq<Row> {
    if e.Try? && o(e.row) != FailedBefore then [e.row] else []
  }

  /** The rows that reached the database. */
  function SentOf(log: Log, o: Oracle): seq<Row> {
    if log == [] then [] else SentOf(log[..|log| - 1], o) + EventRows(log[|log| - 1], o)
  }

  function EventWarnings(e: Event, o: Oracle): seq<Warning> {
    match e
    case Try(row) => if o(row).Done? then [] else [Failed(row.key)]
    case Skip(w) => [w]
  }

  function WarningsOf(log: Log, o: Oracle): seq<Warning> {
    if log == [] then [] else WarningsOf(log[..|log| - 1], o) + EventWarnings(log[|log| - 1], o)
  }

  function Tries(rows: seq<Row>): Log {
    seq(|rows|, i requires 0 <= i < |rows| => Try(rows[i]))
  }

  /** A statement, and `rest` unless it fails. */
  function Behind(row: Row, o: Oracle, rest: Log): Log {
    [Try(row)] + if o(row).Done? then rest else []
  }

  /** One statement after the other, up to the first that fails. */
  function Chain(rows: seq<Row>, o: Oracle): Log {
    if rows == [] then [] else Behind(rows[0], o, Chain(rows[1..], o))
  }

  function PoolTrials(uid: string, o: Oracle): Pool -> Log {
    (p: Pool) => Behind(PoolRow(uid, p), o, Tries(Each(p.ini, IniRow(p.id))))
  }

  function MailboxTrials(domain: string, o: Oracle): Mailbox -> Log {
    (m: Mailbox) => Behind(MailboxRow(domain, m), o, Tries(ReplyPlan(m)) + Tries(Each(m.sharedWith, ShareRow(m.id))))
  }

  function UnderTrials(d: Domain, o: Oracle): Log {
    Tries(CertificatePlan(d)) + Flat(d.mailboxes, MailboxTrials(d.id, o))
    + Tries(Each(d.forwarders, ForwarderRow(d.id))) + Tries(Each(d.dnssec, DnssecRow(d.id)))
  }

  function DomainTrials(uid: string, o: Oracle): Domain -> Log {
    (d: Domain) =>
      if ValidDomainName(d.name) then Behind(DomainRow(uid, d), o, UnderTrials(d, o)) else [Skip(InvalidDomain(d.name))]
  }

  /** The ids of the domains that were restored. */
  function RestoredIDs(uid: string, ds: seq<Domain>, o: Oracle): set<string> {
    set i | 0 <= i < |ds| && ValidDomainName(ds[i].name) && o(DomainRow(uid, ds[i])).Done? :: ds[i].id
  }

  function DatabaseTrials(uid: string): Database -> Log {
    (d: Database) =>
      if ValidDatabaseName(d.name) then [Try(DatabaseRow(uid, d))] else [Skip(InvalidDatabase(d.name))]
  }

  function GrantTrials(user: string, ids: map<string, string>, mint: (string, string) -> string): Grant -> Log {
    (g: Grant) =>
      var database := GrantDatabase(ids, g);
      if database == "" then [Skip(MissingDatabase(g.databaseName))]
      else [Try(GrantRow(user, database, Or(g.id, mint(database, user)), g))]
  }

  function DatabaseUserTrials(uid: string, ids: map<string, string>, mint: (string, string) -> string, o: Oracle)
    : DatabaseUser -> Log
  {
    (u: DatabaseUser) => Behind(DatabaseUserRow(uid, u), o, Flat(u.grants, GrantTrials(u.id, ids, mint)))
  }

  function AppTrials(uid: string, restored: set<string>): AppInstall -> Log {
    (a: AppInstall) => if a.domainID in restored then [Try(AppRow(uid, a))] else [Skip(MissingDomain(a.domainID))]
  }

  function MetaTrials(uid: string, m: Metadata, mint: (string, string) -> string, o: Oracle): Log {
    Flat(m.pools, PoolTrials(uid, o)) + Flat(m.domains, DomainTrials(uid, o)) + Flat(m.databases, DatabaseTrials(uid))
    + Flat(m.databaseUsers, DatabaseUserTrials(uid, IdsByName(m.databases), mint, o))
    + Flat(m.apps, AppTrials(uid, RestoredIDs(uid, m.domains, o))) + Tries(LastPlan(uid, m))
  }

  /** Everything a run of the account tries and skips, in order. */
  function RunLog(a: Account, l: Option<Login>, mint: (string, string) -> string, o: Oracle): Log {
    (if l.Some? then Chain(UserPlan(a, l.value), o) else [Skip(NoKratosIdentity)])
    + (if a.meta.Some? then MetaTrials(a.manifest.id, a.meta.value, mint, o) else [])
  }

  lemma {:induction false} SentAppend(a: Log, b: Log, o: Oracle)
    ensures SentOf(a + b, o) == SentOf(a, o) + SentOf(b, o)
  {
    if b == [] {
      NothingSent(o);
      assert a + b == a && SentOf(a, o) + [] == SentOf(a, o);
    } else {
      hide SentOf, EventRows;
      var n := |b| - 1;
      assert b == b[..n] + [b[n]] && a + b == (a + b[..n]) + [b[n]];
      SentAppend(a, b[..n], o);
      LogSnoc(a + b[..n], b[n], o);
      LogSnoc(b[..n], b[n], o);
    }
  }

  lemma {:induction false} WarningsAppend(a: Log, b: Log, o: Oracle)
    ensures WarningsOf(a + b, o) == WarningsOf(a, o) + WarningsOf(b, o)
  {
    if b == [] {
      assert a + b == a && WarningsOf(b, o) == [] && WarningsOf(a, o) + [] == WarningsOf(a, o);
    } else {
      hide WarningsOf, EventWarnings;
      var n := |b| - 1;
      assert b == b[..n] + [b[n]] && a + b == (a + b[..n]) + [b[n]];
      WarningsAppend(a, b[..n], o);
      LogSnoc(a + b[..n], b[n], o);
      LogSnoc(b[..n], b[n], o);
    }
  }

  /** What one more event adds. */
  lemma LogSnoc(log: Log, e: Event, o: Oracle)
    ensures SentOf(log + [e], o) == SentOf(log, o) + EventRows(e, o)
    ensures WarningsOf(log + [e], o) == WarningsOf(log, o) + EventWarnings(e, o)
  {
    hide EventRows, EventWarnings;
    assert (log + [e])[..|log|] == log;
  }

  lemma {:induction false} SentMember(log: Log, o: Oracle, r: Row)
    ensures r in SentOf(log, o) <==> Try(r) in log && o(r) != FailedBefore
  {
    if log != [] {
      var n := |log| - 1;
      SentMember(log[..n], o, r);
      assert log == log[..n] + [log[n]];
      hide SentOf;
      assert SentOf(log, o) == SentOf(log[..n], o) + EventRows(log[n], o) by {
        LogSnoc(log[..n], log[n], o);
      }
    }
  }

  lemma {:induction false} FailureWarned(log: Log, o: Oracle, r: Row)
    requires Try(r) in log && !o(r).Done?
    ensures Failed(r.key) in WarningsOf(log, o)
  {
    var n := |log| - 1;
    assert log == log[..n] + [log[n]];
    if log[n] != Try(r) {
      FailureWarned(log[..n], o, r);
    }
  }

  /** Every statement of the log is done. */
  ghost predicate AllDone(log: Log, o: Oracle) {
    forall r :: Try(r) in log ==> o(r).Done?
  }

  lemma {:induction false} TriesDone(rows: seq<Row>, o: Oracle)
    requires forall r :: r in rows ==> o(r).Done?
    ensures SentOf(Tries(rows), o) == rows
  {
    if rows == [] {
      assert Tries(rows) == [];
      NothingSent(o);
    } else {
      var n := |rows| - 1;
      assert Tries(rows) == Tries(rows[..n]) + [Try(rows[n])];
      hide SentOf, Tries;
      assert rows == rows[..n] + [rows[n]] && rows[n] in rows;
      TriesDone(rows[..n], o);
      LogSnoc(Tries(rows[..n]), Try(rows[n]), o);
    }
  }

  lemma TriesHold(rows: seq<Row>)
    ensures forall r :: Try(r) in Tries(rows) <==> r in rows
    ensures forall w :: Skip(w) !in Tries(rows)
  {
    forall r | r in rows
      ensures Try(r) in Tries(rows)
    {
      var i :| 0 <= i < |rows| && rows[i] == r;
      assert Tries(rows)[i] == Try(r);
    }
  }

  lemma TriesAppend(a: seq<Row>, b: seq<Row>)
    ensures Tries(a + b) == Tries(a) + Tries(b)
  {
  }

  lemma LastTries(uid: string, m: Metadata)
    ensures Tries(LastPlan(uid, m)) ==
      Tries(Each(m.sshKeys, SshKeyRow(uid))) + Tries(Each(m.cronJobs, JobRow(CronJobs, uid)))
      + Tries(PerUserPlan(EgressPolicies, uid, m.egressPolicy))
      + Tries(Each(m.egressRequests, JobRow(EgressRequests, uid)))
      + Tries(PerUserPlan(LimitOverrides, uid, m.limits))
  {
    var keys, jobs := Each(m.sshKeys, SshKeyRow(uid)), Each(m.cronJobs, JobRow(CronJobs, uid));
    var policy, limits := PerUserPlan(EgressPolicies, uid, m.egressPolicy), PerUserPlan(LimitOverrides, uid, m.limits);
    var requests := Each(m.egressRequests, JobRow(EgressRequests, uid));
    hide Tries, Each, PerUserPlan;
    TriesAppend(keys, jobs);
    TriesAppend(keys + jobs, policy);
    TriesAppend(keys + jobs + policy, requests);
    TriesAppend(keys + jobs + policy + requests, limits);
  }

  lemma ChainHead(first: Row, rest: seq<Row>, o: Oracle)
    ensures Chain([first] + rest, o) == [Try(first)] + if o(first).Done? then Chain(rest, o) else []
  {
    assert ([first] + rest)[1..] == rest;
  }

  lemma ChainOne(row: Row, o: Oracle)
    ensures Chain([row], o) == [Try(row)]
  {
    assert [row][1..] == [] && Chain([], o) == [];
  }

  lemma AllDoneHead(rows: seq<Row>, o: Oracle)
    requires rows != []
    ensures (forall i :: 0 <= i < |rows| ==> o(rows[i]).Done?) <==>
      o(rows[0]).Done? && forall i :: 0 <= i < |rows[1..]| ==> o(rows[1..][i]).Done?
  {
    assert forall i :: 1 <= i < |rows| ==> rows[1..][i - 1] == rows[i];
  }

  lemma {:induction false} ChainAppend(a: seq<Row>, b: seq<Row>, o: Oracle)
    ensures Chain(a + b, o) ==
      Chain(a, o) + if forall i :: 0 <= i < |a| ==> o(a[i]).Done? then Chain(b, o) else []
  {
    if a == [] {
      assert a + b == b && Chain(a, o) == [];
      hide Chain;
      assert [] + Chain(b, o) == Chain(b, o);
    } else {
      hide Chain;
      assert a + b == [a[0]] + (a[1..] + b) && a == [a[0]] + a[1..];
      ChainHead(a[0], a[1..] + b, o);
      ChainHead(a[0], a[1..], o);
      ChainAppend(a[1..], b, o);
      AllDoneHead(a, o);
    }
  }

  lemma ChainAround(first: Row, rows: seq<Row>, last: Row, o: Oracle)
    ensures Chain([first] + rows + [last], o) == [Try(first)] +
      if !o(first).Done? then []
      else Chain(rows, o) + if forall i :: 0 <= i < |rows| ==> o(rows[i]).Done? then [Try(last)] else []
  {
    ChainOne(last, o);
    hide Chain;
    assert [first] + (rows + [last]) == [first] + rows + [last];
    ChainHead(first, rows + [last], o);
    ChainAppend(rows, [last], o);
  }

  // Runs in which every statement is done.

  lemma DoneParts(a: Log, b: Log, o: Oracle)
    requires AllDone(a + b, o)
    ensures AllDone(a, o) && AllDone(b, o)
  {
    assert forall e :: e in a || e in b ==> e in a + b;
  }

  lemma {:induction false} FlatDone<T>(xs: seq<T>, f: T -> Log, g: T -> seq<Row>, o: Oracle)
    requires AllDone(Flat(xs, f), o)
    requires forall i :: 0 <= i < |xs| && AllDone(f(xs[i]), o) ==> SentOf(f(xs[i]), o) == g(xs[i])
    ensures SentOf(Flat(xs, f), o) == Flat(xs, g)
  {
    hide SentOf, AllDone;
    if xs != [] {
      var n := |xs| - 1;
      DoneParts(Flat(xs[..n], f), f(xs[n]), o);
      FlatDone(xs[..n], f, g, o);
      SentAppend(Flat(xs[..n], f), f(xs[n]), o);
    } else {
      assert SentOf([], o) == [] by {
        NothingSent(o);
      }
    }
  }

  lemma NothingSent(o: Oracle)
    ensures SentOf([], o) == []
  {
  }

  lemma BehindDone(row: Row, o: Oracle, rest: Log)
    requires AllDone(Behind(row, o, rest), o)
    ensures AllDone(rest, o) && SentOf(Behind(row, o, rest), o) == [row] + SentOf(rest, o)
  {
    assert Try(row) in Behind(row, o, rest);
    assert Behind(row, o, rest) == [Try(row)] + rest;
    DoneParts([Try(row)], rest, o);
    SentAppend([Try(row)], rest, o);
    assert [Try(row)][..0] == [];
  }

  lemma TriesAllDone(rows: seq<Row>, o: Oracle)
    requires AllDone(Tries(rows), o)
    ensures SentOf(Tries(rows), o) == rows
  {
    TriesHold(rows);
    TriesDone(rows, o);
  }

  lemma {:induction false} ChainDone(rows: seq<Row>, o: Oracle)
    requires AllDone(Chain(rows, o), o)
    ensures SentOf(Chain(rows, o), o) == rows
  {
    hide SentOf, AllDone, Behind;
    if rows == [] {
      NothingSent(o);
    } else {
      BehindDone(rows[0], o, Chain(rows[1..], o));
      ChainDone(rows[1..], o);
    }
  }

  lemma PoolDone(uid: string, p: Pool, o: Oracle)
    requires AllDone(PoolTrials(uid, o)(p), o)
    ensures SentOf(PoolTrials(uid, o)(p), o) == PoolPlan(uid)(p)
  {
    hide SentOf, AllDone, Behind, Tries, PoolRow, IniRow, Each;
    BehindDone(PoolRow(uid, p), o, Tries(Each(p.ini, IniRow(p.id))));
    TriesAllDone(Each(p.ini, IniRow(p.id)), o);
  }

  lemma MailboxParts(domain: string, m: Mailbox, o: Oracle)
    ensures var reply, shares := ReplyPlan(m), Each(m.sharedWith, ShareRow(m.id));
      && MailboxPlan(domain)(m) == [MailboxRow(domain, m)] + reply + shares
      && MailboxTrials(domain, o)(m) == Behind(MailboxRow(domain, m), o, Tries(reply) + Tries(shares))
  {
    hide MailboxRow, ShareRow, ReplyPlan, Each, Tries, Behind;
  }

  lemma MailboxDone(domain: string, m: Mailbox, o: Oracle)
    requires AllDone(MailboxTrials(domain, o)(m), o)
    ensures SentOf(MailboxTrials(domain, o)(m), o) == MailboxPlan(domain)(m)
  {
    hide *;
    var reply, shares := ReplyPlan(m), Each(m.sharedWith, ShareRow(m.id));
    MailboxParts(domain, m, o);
    BehindDone(MailboxRow(domain, m), o, Tries(reply) + Tries(shares));
    DoneParts(Tries(reply), Tries(shares), o);
    TriesAllDone(reply, o);
    TriesAllDone(shares, o);
    SentAppend(Tries(reply), Tries(shares), o);
    assert [MailboxRow(domain, m)] + (reply + shares) == [MailboxRow(domain, m)] + reply + shares;
  }

  lemma UnderDone(d: Domain, o: Oracle)
    requires AllDone(UnderTrials(d, o), o)
    ensures SentOf(UnderTrials(d, o), o) == UnderDomain(d)
  {
    var boxes, forwarders, dnssec := Flat(d.mailboxes, MailboxTrials(d.id, o)), Each(d.forwarders, ForwarderRow(d.id)),
      Each(d.dnssec, DnssecRow(d.id));
    var certificate := Tries(CertificatePlan(d));
    hide SentOf, AllDone, Tries, Each, MailboxTrials, MailboxPlan, CertificatePlan, Flat, ForwarderRow, DnssecRow;
    DoneParts(certificate + boxes + Tries(forwarders), Tries(dnssec), o);
    DoneParts(certificate + boxes, Tries(forwarders), o);
    DoneParts(certificate, boxes, o);
    SentAppend(certificate + boxes + Tries(forwarders), Tries(dnssec), o);
    SentAppend(certificate + boxes, Tries(forwarders), o);
    SentAppend(certificate, boxes, o);
    TriesAllDone(CertificatePlan(d), o);
    TriesAllDone(forwarders, o);
    TriesAllDone(dnssec, o);
    forall i | 0 <= i < |d.mailboxes| && AllDone(MailboxTrials(d.id, o)(d.mailboxes[i]), o)
      ensures SentOf(MailboxTrials(d.id, o)(d.mailboxes[i]), o) == MailboxPlan(d.id)(d.mailboxes[i])
    {
      MailboxDone(d.id, d.mailboxes[i], o);
    }
    FlatDone(d.mailboxes, MailboxTrials(d.id, o), MailboxPlan(d.id), o);
  }

  lemma SkipSent(w: Warning, o: Oracle)
    ensures SentOf([Skip(w)], o) == []
  {
    assert [Skip(w)][..0] == [];
  }

  lemma TrySent(row: Row, o: Oracle)
    requires AllDone([Try(row)], o)
    ensures SentOf([Try(row)], o) == [row]
  {
    assert Try(row) in [Try(row)] && [Try(row)][..0] == [];
  }

  lemma DomainAllDone(uid: string, d: Domain, o: Oracle)
    requires AllDone(DomainTrials(uid, o)(d), o)
    ensures SentOf(DomainTrials(uid, o)(d), o) == DomainPlan(uid)(d)
    ensures ValidDomainName(d.name) ==> o(DomainRow(uid, d)).Done?
  {
    assert ValidDomainName(d.name) ==> Try(DomainRow(uid, d)) in DomainTrials(uid, o)(d);
    assert ValidDomainName(d.name) ==> o(DomainRow(uid, d)).Done?;
    SkipSent(InvalidDomain(d.name), o);
    hide SentOf, AllDone, Behind, DomainRow, UnderTrials, UnderDomain, ValidDomainName;
    if ValidDomainName(d.name) {
      BehindDone(DomainRow(uid, d), o, UnderTrials(d, o));
      UnderDone(d, o);
    }
  }

  lemma DatabaseDone(uid: string, d: Database, o: Oracle)
    requires AllDone(DatabaseTrials(uid)(d), o)
    ensures SentOf(DatabaseTrials(uid)(d), o) == DatabasePlan(uid)(d)
  {
    SkipSent(InvalidDatabase(d.name), o);
    hide SentOf, AllDone, DatabaseRow, ValidDatabaseName;
    if ValidDatabaseName(d.name) {
      TrySent(DatabaseRow(uid, d), o);
    }
  }

  lemma GrantDone(user: string, ids: map<string, string>, mint: (string, string) -> string, g: Grant, o: Oracle)
    requires AllDone(GrantTrials(user, ids, mint)(g), o)
    ensures SentOf(GrantTrials(user, ids, mint)(g), o) == GrantPlan(user, ids, mint)(g)
  {
    var to := GrantDatabase(ids, g);
    var row := GrantRow(user, to, Or(g.id, mint(to, user)), g);
    assert GrantTrials(user, ids, mint)(g) == if to == "" then [Skip(MissingDatabase(g.databaseName))] else [Try(row)];
    assert GrantPlan(user, ids, mint)(g) == if to == "" then [] else [row];
    hide GrantTrials, GrantPlan, GrantRow, SentOf, AllDone;
    SkipSent(MissingDatabase(g.databaseName), o);
    if to != "" {
      TrySent(row, o);
    }
  }

  lemma DatabaseUserDone(uid: string, ids: map<string, string>, mint: (string, string) -> string, u: DatabaseUser,
                         o: Oracle)
    requires AllDone(DatabaseUserTrials(uid, ids, mint, o)(u), o)
    ensures SentOf(DatabaseUserTrials(uid, ids, mint, o)(u), o) == DatabaseUserPlan(uid, ids, mint)(u)
  {
    var f, g := GrantTrials(u.id, ids, mint), GrantPlan(u.id, ids, mint);
    hide SentOf, AllDone, Behind, GrantTrials, GrantPlan, DatabaseUserRow, Flat;
    BehindDone(DatabaseUserRow(uid, u), o, Flat(u.grants, f));
    forall i | 0 <= i < |u.grants| && AllDone(f(u.grants[i]), o)
      ensures SentOf(f(u.grants[i]), o) == g(u.grants[i])
    {
      GrantDone(u.id, ids, mint, u.grants[i], o);
    }
    FlatDone(u.grants, f, g, o);
  }

  lemma AppDone(uid: string, known: set<string>, a: AppInstall, o: Oracle)
    requires AllDone(AppTrials(uid, known)(a), o)
    ensures SentOf(AppTrials(uid, known)(a), o) == AppPlan(uid, known)(a)
  {
    SkipSent(MissingDomain(a.domainID), o);
    hide SentOf, AllDone, AppRow;
    if a.domainID in known {
      TrySent(AppRow(uid, a), o);
    }
  }

  lemma PoolsDone(uid: string, pools: seq<Pool>, o: Oracle)
    requires AllDone(Flat(pools, PoolTrials(uid, o)), o)
    ensures SentOf(Flat(pools, PoolTrials(uid, o)), o) == Flat(pools, PoolPlan(uid))
  {
    hide *;
    forall i | 0 <= i < |pools| && AllDone(PoolTrials(uid, o)(pools[i]), o)
      ensures SentOf(PoolTrials(uid, o)(pools[i]), o) == PoolPlan(uid)(pools[i])
    {
      PoolDone(uid, pools[i], o);
    }
    FlatDone(pools, PoolTrials(uid, o), PoolPlan(uid), o);
  }

  lemma DomainsDone(uid: string, ds: seq<Domain>, o: Oracle)
    requires AllDone(Flat(ds, DomainTrials(uid, o)), o)
    ensures SentOf(Flat(ds, DomainTrials(uid, o)), o) == Flat(ds, DomainPlan(uid))
    ensures RestoredIDs(uid, ds, o) == DomainIDs(ds)
  {
    forall i | 0 <= i < |ds|
      ensures ValidDomainName(ds[i].name) ==> o(DomainRow(uid, ds[i])).Done?
      ensures AllDone(DomainTrials(uid, o)(ds[i]), o)
    {
      hide Flat, DomainTrials, ValidDomainName, DomainRow;
      forall r | Try(r) in DomainTrials(uid, o)(ds[i])
        ensures Try(r) in Flat(ds, DomainTrials(uid, o))
      {
        FlatHas(ds, DomainTrials(uid, o), i, Try(r));
      }
      DomainAllDone(uid, ds[i], o);
    }
    assert RestoredIDs(uid, ds, o) == DomainIDs(ds) by {
      hide ValidDomainName, DomainRow;
    }
    hide *;
    forall i | 0 <= i < |ds| && AllDone(DomainTrials(uid, o)(ds[i]), o)
      ensures SentOf(DomainTrials(uid, o)(ds[i]), o) == DomainPlan(uid)(ds[i])
    {
      DomainAllDone(uid, ds[i], o);
    }
    FlatDone(ds, DomainTrials(uid, o), DomainPlan(uid), o);
  }

  lemma DatabasesDone(uid: string, ds: seq<Database>, o: Oracle)
    requires AllDone(Flat(ds, DatabaseTrials(uid)), o)
    ensures SentOf(Flat(ds, DatabaseTrials(uid)), o) == Flat(ds, DatabasePlan(uid))
  {
    hide *;
    forall i | 0 <= i < |ds| && AllDone(DatabaseTrials(uid)(ds[i]), o)
      ensures SentOf(DatabaseTrials(uid)(ds[i]), o) == DatabasePlan(uid)(ds[i])
    {
      DatabaseDone(uid, ds[i], o);
    }
    FlatDone(ds, DatabaseTrials(uid), DatabasePlan(uid), o);
  }

  lemma DatabaseUsersDone(uid: string, ids: map<string, string>, mint: (string, string) -> string,
                          us: seq<DatabaseUser>, o: Oracle)
    requires AllDone(Flat(us, DatabaseUserTrials(uid, ids, mint, o)), o)
    ensures SentOf(Flat(us, DatabaseUserTrials(uid, ids, mint, o)), o) == Flat(us, DatabaseUserPlan(uid, ids, mint))
  {
    var f, g := DatabaseUserTrials(uid, ids, mint, o), DatabaseUserPlan(uid, ids, mint);
    hide *;
    forall i | 0 <= i < |us| && AllDone(f(us[i]), o)
      ensures SentOf(f(us[i]), o) == g(us[i])
    {
      DatabaseUserDone(uid, ids, mint, us[i], o);
    }
    FlatDone(us, f, g, o);
  }

  lemma AppsDone(uid: string, known: set<string>, apps: seq<AppInstall>, o: Oracle)
    requires AllDone(Flat(apps, AppTrials(uid, known)), o)
    ensures SentOf(Flat(apps, AppTrials(uid, known)), o) == Flat(apps, AppPlan(uid, known))
  {
    hide *;
    forall i | 0 <= i < |apps| && AllDone(AppTrials(uid, known)(apps[i]), o)
      ensures SentOf(AppTrials(uid, known)(apps[i]), o) == AppPlan(uid, known)(apps[i])
    {
      AppDone(uid, known, apps[i], o);
    }
    FlatDone(apps, AppTrials(uid, known), AppPlan(uid, known), o);
  }

  lemma MetaDone(uid: string, m: Metadata, mint: (string, string) -> string, o: Oracle)
    requires AllDone(MetaTrials(uid, m, mint, o), o)
    ensures SentOf(MetaTrials(uid, m, mint, o), o) == MetaPlan(uid, m, mint)
  {
    var ids, known := IdsByName(m.databases), RestoredIDs(uid, m.domains, o);
    var t1, t2, t3 := Flat(m.pools, PoolTrials(uid, o)), Flat(m.domains, DomainTrials(uid, o)),
      Flat(m.databases, DatabaseTrials(uid));
    var t4, t5, t6 := Flat(m.databaseUsers, DatabaseUserTrials(uid, ids, mint, o)), Flat(m.apps, AppTrials(uid, known)),
      Tries(LastPlan(uid, m));
    assert MetaTrials(uid, m, mint, o) == t1 + t2 + t3 + t4 + t5 + t6;
    hide MetaTrials, PoolTrials, DomainTrials, DatabaseTrials, DatabaseUserTrials, AppTrials, RestoredIDs, DomainIDs,
        IdsByName, LastPlan, Tries, Flat, SentOf, AllDone;
    SentOfSix(t1, t2, t3, t4, t5, t6, o);
    PoolsDone(uid, m.pools, o);
    DomainsDone(uid, m.domains, o);
    DatabasesDone(uid, m.databases, o);
    DatabaseUsersDone(uid, ids, mint, m.databaseUsers, o);
    AppsDone(uid, known, m.apps, o);
    TriesAllDone(LastPlan(uid, m), o);
  }

  lemma SentOfSix(t1: Log, t2: Log, t3: Log, t4: Log, t5: Log, t6: Log, o: Oracle)
    requires AllDone(t1 + t2 + t3 + t4 + t5 + t6, o)
    ensures AllDone(t1, o) && AllDone(t2, o) && AllDone(t3, o) && AllDone(t4, o) && AllDone(t5, o) && AllDone(t6, o)
    ensures SentOf(t1 + t2 + t3 + t4 + t5 + t6, o) ==
      SentOf(t1, o) + SentOf(t2, o) + SentOf(t3, o) + SentOf(t4, o) + SentOf(t5, o) + SentOf(t6, o)
  {
    hide SentOf, AllDone;
    DoneParts(t1 + t2 + t3 + t4 + t5, t6, o);
    DoneParts(t1 + t2 + t3 + t4, t5, o);
    DoneParts(t1 + t2 + t3, t4, o);
    DoneParts(t1 + t2, t3, o);
    DoneParts(t1, t2, o);
    SentAppend(t1 + t2 + t3 + t4 + t5, t6, o);
    SentAppend(t1 + t2 + t3 + t4, t5, o);
    SentAppend(t1 + t2 + t3, t4, o);
    SentAppend(t1 + t2, t3, o);
    SentAppend(t1, t2, o);
  }

  /** A run in which everything that is tried is done sends the plan. */
  lemma DoneIsPlan(a: Account, l: Option<Login>, mint: (string, string) -> string, o: Oracle)
    requires AllDone(RunLog(a, l, mint, o), o)
    ensures SentOf(RunLog(a, l, mint, o), o) == Plan(a, l, mint)
  {
    var user := if l.Some? then Chain(UserPlan(a, l.value), o) else [Skip(NoKratosIdentity)];
    var rest := if a.meta.Some? then MetaTrials(a.manifest.id, a.meta.value, mint, o) else [];
    hide SentOf, AllDone, Chain, UserPlan, MetaTrials, MetaPlan;
    DoneParts(user, rest, o);
    SentAppend(user, rest, o);
    NothingSent(o);
    SkipSent(NoKratosIdentity, o);
    if l.Some? {
      ChainDone(UserPlan(a, l.value), o);
    }
    if a.meta.Some? {
      MetaDone(a.manifest.id, a.meta.value, mint, o);
    }
  }
}
