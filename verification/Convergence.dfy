/** Repeating a reconstruction of one account: what a second run can still add,
    and when a third changes nothing. */
module Convergence {
  import opened PanelDb
  import opened Bundle
  import opened Text

  /** The tables nothing else in a plan refers to whose own parents may be
      inserted later: shares and forwarders name mailboxes of any domain. */
  predicate Late(t: Table) {
    t == Shares || t == Forwarders
  }

  /** No row of `b` is the parent of a row of `a`, shares and forwarders aside. */
  ghost predicate Apart(a: seq<Row>, b: seq<Row>) {
    forall r, s :: r in a && s in b && !Late(r.key.table) ==> s.key !in r.refs
  }

  /** Shares and forwarders aside, parents come before their children. */
  ghost predicate Ordered(rows: seq<Row>) {
    forall i, j :: 0 <= i <= j < |rows| && !Late(rows[i].key.table) ==> rows[j].key !in rows[i].refs
  }

  ghost predicate KeysIn(rows: seq<Row>, tables: set<Table>) {
    forall r :: r in rows ==> r.key.table in tables
  }

  /** The parents of every row are in `tables`, shares and forwarders aside. */
  ghost predicate RefsIn(rows: seq<Row>, tables: set<Table>) {
    forall r, k :: r in rows && !Late(r.key.table) && k in r.refs ==> k.table in tables
  }

  /** Nothing refers to a share or a forwarder. */
  ghost predicate NoLateParents(rows: seq<Row>) {
    forall r, k :: r in rows && k in r.refs ==> !Late(k.table)
  }

  /** A stretch of a plan in order, with the tables of its parents and keys. */
  ghost predicate Part(rows: seq<Row>, refs: set<Table>, keys: set<Table>) {
    Ordered(rows) && NoLateParents(rows) && RefsIn(rows, refs) && KeysIn(rows, keys)
  }

  /** Of the keys in `tables`, the rows touch only those in `own`. */
  ghost predicate Local(rows: seq<Row>, tables: set<Table>, own: set<Key>) {
    && (forall r :: r in rows && r.key.table in tables ==> r.key in own)
    && (forall r, k :: r in rows && !Late(r.key.table) && k in r.refs && k.table in tables ==> k in own)
  }

  lemma ApartByTables(a: seq<Row>, b: seq<Row>, refs: set<Table>, keys: set<Table>)
    requires RefsIn(a, refs) && KeysIn(b, keys) && refs !! keys
    ensures Apart(a, b)
  {
    forall r, s | r in a && s in b && !Late(r.key.table)
      ensures s.key !in r.refs
    {
      assert s.key.table in keys;
      assert s.key in r.refs ==> s.key.table in refs;
    }
  }

  lemma ApartByOwn(a: seq<Row>, b: seq<Row>, refs: set<Table>, keys: set<Table>, tables: set<Table>, own: set<Key>,
      own': set<Key>)
    requires RefsIn(a, refs) && KeysIn(b, keys) && refs * keys <= tables
    requires Local(a, tables, own) && Local(b, tables, own') && own !! own'
    ensures Apart(a, b)
  {
    forall r, s | r in a && s in b && !Late(r.key.table)
      ensures s.key !in r.refs
    {
      assert s.key.table in keys;
      assert s.key in r.refs ==> s.key.table in refs * keys;
    }
  }

  lemma OrderedAppend(a: seq<Row>, b: seq<Row>)
    requires Ordered(a) && Ordered(b) && Apart(a, b)
    ensures Ordered(a + b)
  {
    forall i, j | 0 <= i <= j < |a + b| && !Late((a + b)[i].key.table)
      ensures (a + b)[j].key !in (a + b)[i].refs
    {
      if i < |a| <= j {
        assert a[i] in a && b[j - |a|] in b;
      }
    }
  }

  lemma PartByTables(rows: seq<Row>, refs: set<Table>, keys: set<Table>)
    requires RefsIn(rows, refs) && KeysIn(rows, keys) && refs !! keys && NoLateParents(rows)
    ensures Part(rows, refs, keys)
  {
    ApartByTables(rows, rows, refs, keys);
    forall i, j | 0 <= i <= j < |rows| && !Late(rows[i].key.table)
      ensures rows[j].key !in rows[i].refs
    {
      assert rows[i] in rows && rows[j] in rows;
    }
  }

  lemma PartAppend(a: seq<Row>, refs: set<Table>, keys: set<Table>, b: seq<Row>, refs': set<Table>, keys': set<Table>)
    requires Part(a, refs, keys) && Part(b, refs', keys') && refs !! keys'
    ensures Part(a + b, refs + refs', keys + keys')
  {
    ApartByTables(a, b, refs, keys');
    OrderedAppend(a, b);
  }

  lemma LocalAppend(a: seq<Row>, b: seq<Row>, tables: set<Table>, own: set<Key>)
    requires Local(a, tables, own) && Local(b, tables, own)
    ensures Local(a + b, tables, own)
  {
  }

  /** Items that keep to themselves make an ordered stretch. */
  lemma {:induction false} FlatPart<T>(xs: seq<T>, f: T -> seq<Row>, own: T -> set<Key>,
                                       refs: set<Table>, keys: set<Table>, tables: set<Table>)
    requires refs * keys <= tables
    requires forall i :: 0 <= i < |xs| ==> Part(f(xs[i]), refs, keys) && Local(f(xs[i]), tables, own(xs[i]))
    requires forall i, j :: 0 <= i < j < |xs| ==> own(xs[i]) !! own(xs[j])
    ensures Part(Flat(xs, f), refs, keys)
  {
    if xs != [] {
      var n := |xs| - 1;
      FlatPart(xs[..n], f, own, refs, keys, tables);
      forall r, s | r in Flat(xs[..n], f) && s in f(xs[n]) && !Late(r.key.table)
        ensures s.key !in r.refs
      {
        FlatMember(xs[..n], f, r);
        var i :| 0 <= i < n && r in f(xs[..n][i]);
        assert xs[i] == xs[..n][i];
        ApartByOwn(f(xs[i]), f(xs[n]), refs, keys, tables, own(xs[i]), own(xs[n]));
      }
      OrderedAppend(Flat(xs[..n], f), f(xs[n]));
    }
  }

  lemma FlatLocal<T>(xs: seq<T>, f: T -> seq<Row>, tables: set<Table>, own: set<Key>)
    requires forall i :: 0 <= i < |xs| ==> Local(f(xs[i]), tables, own)
    ensures Local(Flat(xs, f), tables, own)
  {
    forall r | r in Flat(xs, f)
      ensures r.key.table in tables ==> r.key in own
      ensures !Late(r.key.table) ==> forall k :: k in r.refs && k.table in tables ==> k in own
    {
      FlatMember(xs, f, r);
      var i :| 0 <= i < |xs| && r in f(xs[i]);
      assert Local(f(xs[i]), tables, own);
    }
  }

  function PoolOwn(): Pool -> set<Key> {
    (p: Pool) => {At(Pools, p.id)}
  }

  function MailboxOwn(): Mailbox -> set<Key> {
    (m: Mailbox) => {At(Mailboxes, m.id)}
  }

  function DomainOwn(): Domain -> set<Key> {
    (d: Domain) => {At(Domains, d.id)} + set i | 0 <= i < |d.mailboxes| :: At(Mailboxes, d.mailboxes[i].id)
  }

  function DatabaseUserOwn(): DatabaseUser -> set<Key> {
    (u: DatabaseUser) => {At(DatabaseUsers, u.id)}
  }

  ghost predicate Disjoint<T(!new)>(xs: seq<T>, own: T -> set<Key>) {
    forall i, j :: 0 <= i < j < |xs| ==> own(xs[i]) !! own(xs[j])
  }

  /** No primary key of a parent table occurs twice in the bundle. */
  ghost predicate DistinctIDs(m: Metadata) {
    && Disjoint(m.pools, PoolOwn())
    && Disjoint(m.domains, DomainOwn())
    && (forall i :: 0 <= i < |m.domains| ==> Disjoint(m.domains[i].mailboxes, MailboxOwn()))
    && Disjoint(m.databaseUsers, DatabaseUserOwn())
  }

  lemma UserPart(a: Account, l: Login)
    ensures Part(UserPlan(a, l), {Identities}, {Identities, Credentials, Users})
  {
    var first := [IdentityRow(a, l)];
    var rest := Each(ExportedOf(a).credentials, CredentialRow(l)) + [UserRow(UserOf(a), l)];
    PartByTables(first, {}, {Identities});
    UserTail(a, l);
    hide Part, IdentityRow, CredentialRow, UserRow, UserOf, ExportedOf, Each;
    PartAppend(first, {}, {Identities}, rest, {Identities}, {Credentials, Users});
    assert UserPlan(a, l) == first + rest;
    assert {} + {Identities} == {Identities};
    assert {Identities} + {Credentials, Users} == {Identities, Credentials, Users};
  }

  lemma UserTail(a: Account, l: Login)
    ensures Part(Each(ExportedOf(a).credentials, CredentialRow(l)) + [UserRow(UserOf(a), l)],
                 {Identities}, {Credentials, Users})
  {
    hide UserOf, ExportedOf;
    PartByTables(Each(ExportedOf(a).credentials, CredentialRow(l)) + [UserRow(UserOf(a), l)],
                 {Identities}, {Credentials, Users});
  }

  lemma PoolHead(uid: string, p: Pool)
    ensures Part([PoolRow(uid, p)], {Users}, {Pools}) && Local([PoolRow(uid, p)], {Pools}, PoolOwn()(p))
  {
    PartByTables([PoolRow(uid, p)], {Users}, {Pools});
  }

  lemma PoolTail(p: Pool)
    ensures Part(Each(p.ini, IniRow(p.id)), {Pools}, {PoolIni})
    ensures Local(Each(p.ini, IniRow(p.id)), {Pools}, PoolOwn()(p))
  {
    PartByTables(Each(p.ini, IniRow(p.id)), {Pools}, {PoolIni});
  }

  lemma PoolItem(uid: string, p: Pool)
    ensures Part(PoolPlan(uid)(p), {Users, Pools}, {Pools, PoolIni})
    ensures Local(PoolPlan(uid)(p), {Pools}, PoolOwn()(p))
  {
    var first, rest := [PoolRow(uid, p)], Each(p.ini, IniRow(p.id));
    hide Part, Local, PoolRow, IniRow, PoolOwn, Each;
    assert PoolPlan(uid)(p) == first + rest;
    PoolHead(uid, p);
    PoolTail(p);
    LocalAppend(first, rest, {Pools}, PoolOwn()(p));
    PartAppend(first, {Users}, {Pools}, rest, {Pools}, {PoolIni});
    assert {Users} + {Pools} == {Users, Pools} && {Pools} + {PoolIni} == {Pools, PoolIni};
  }

  lemma PoolPart(uid: string, m: Metadata)
    requires DistinctIDs(m)
    ensures Part(Flat(m.pools, PoolPlan(uid)), {Users, Pools}, {Pools, PoolIni})
  {
    forall i | 0 <= i < |m.pools|
      ensures Part(PoolPlan(uid)(m.pools[i]), {Users, Pools}, {Pools, PoolIni})
      ensures Local(PoolPlan(uid)(m.pools[i]), {Pools}, PoolOwn()(m.pools[i]))
    {
      PoolItem(uid, m.pools[i]);
    }
    hide Part, Local, PoolPlan, PoolOwn;
    FlatPart(m.pools, PoolPlan(uid), PoolOwn(), {Users, Pools}, {Pools, PoolIni}, {Pools});
  }

  lemma MailboxItem(domain: string, m: Mailbox)
    ensures Part(MailboxPlan(domain)(m), {Domains, Mailboxes}, {Mailboxes, Autoresponders, Shares})
    ensures Local(MailboxPlan(domain)(m), {Domains, Mailboxes}, {At(Domains, domain), At(Mailboxes, m.id)})
    ensures Local(MailboxPlan(domain)(m), {Mailboxes}, MailboxOwn()(m))
  {
    var first, rest := [MailboxRow(domain, m)], ReplyPlan(m) + Each(m.sharedWith, ShareRow(m.id));
    MailboxRows(domain, m);
    hide Part, Local, MailboxPlan, MailboxRow, MailboxOwn, ReplyPlan, Each;
    MailboxHead(domain, m);
    MailboxTail(domain, m);
    LocalAppend(first, rest, {Domains, Mailboxes}, {At(Domains, domain), At(Mailboxes, m.id)});
    LocalAppend(first, rest, {Mailboxes}, MailboxOwn()(m));
    PartAppend(first, {Domains}, {Mailboxes}, rest, {Mailboxes}, {Autoresponders, Shares});
    assert {Domains} + {Mailboxes} == {Domains, Mailboxes};
    assert {Mailboxes} + {Autoresponders, Shares} == {Mailboxes, Autoresponders, Shares};
  }

  lemma MailboxRows(domain: string, m: Mailbox)
    ensures MailboxPlan(domain)(m) == [MailboxRow(domain, m)] + (ReplyPlan(m) + Each(m.sharedWith, ShareRow(m.id)))
  {
    hide MailboxRow, ReplyPlan, Each, ShareRow;
    assert MailboxPlan(domain)(m) == [MailboxRow(domain, m)] + ReplyPlan(m) + Each(m.sharedWith, ShareRow(m.id));
  }

  lemma MailboxHead(domain: string, m: Mailbox)
    ensures Part([MailboxRow(domain, m)], {Domains}, {Mailboxes})
    ensures Local([MailboxRow(domain, m)], {Domains, Mailboxes}, {At(Domains, domain), At(Mailboxes, m.id)})
    ensures Local([MailboxRow(domain, m)], {Mailboxes}, MailboxOwn()(m))
  {
    PartByTables([MailboxRow(domain, m)], {Domains}, {Mailboxes});
  }

  lemma MailboxTail(domain: string, m: Mailbox)
    ensures var rest := ReplyPlan(m) + Each(m.sharedWith, ShareRow(m.id));
      && Part(rest, {Mailboxes}, {Autoresponders, Shares})
      && Local(rest, {Domains, Mailboxes}, {At(Domains, domain), At(Mailboxes, m.id)})
      && Local(rest, {Mailboxes}, MailboxOwn()(m))
  {
    var reply, shares := ReplyPlan(m), Each(m.sharedWith, ShareRow(m.id));
    ReplyPart(domain, m);
    SharesPart(domain, m);
    hide Part, Local, ReplyPlan, Each, MailboxOwn;
    LocalAppend(reply, shares, {Domains, Mailboxes}, {At(Domains, domain), At(Mailboxes, m.id)});
    LocalAppend(reply, shares, {Mailboxes}, MailboxOwn()(m));
    PartAppend(reply, {Mailboxes}, {Autoresponders}, shares, {}, {Shares});
    assert {Mailboxes} + {} == {Mailboxes} && {Autoresponders} + {Shares} == {Autoresponders, Shares};
  }

  lemma ReplyPart(domain: string, m: Mailbox)
    ensures Part(ReplyPlan(m), {Mailboxes}, {Autoresponders}) && Local(ReplyPlan(m), {Mailboxes}, MailboxOwn()(m))
    ensures Local(ReplyPlan(m), {Domains, Mailboxes}, {At(Domains, domain), At(Mailboxes, m.id)})
  {
    PartByTables(ReplyPlan(m), {Mailboxes}, {Autoresponders});
  }

  lemma SharesPart(domain: string, m: Mailbox)
    ensures var shares := Each(m.sharedWith, ShareRow(m.id));
      && Part(shares, {}, {Shares}) && Local(shares, {Mailboxes}, MailboxOwn()(m))
      && Local(shares, {Domains, Mailboxes}, {At(Domains, domain), At(Mailboxes, m.id)})
  {
    PartByTables(Each(m.sharedWith, ShareRow(m.id)), {}, {Shares});
  }

  lemma LocalWiden(rows: seq<Row>, tables: set<Table>, own: set<Key>, more: set<Key>)
    requires Local(rows, tables, own) && own <= more
    ensures Local(rows, tables, more)
  {
  }

  lemma MailboxPart(d: Domain)
    requires Disjoint(d.mailboxes, MailboxOwn())
    ensures Part(Flat(d.mailboxes, MailboxPlan(d.id)), {Domains, Mailboxes}, {Mailboxes, Autoresponders, Shares})
    ensures Local(Flat(d.mailboxes, MailboxPlan(d.id)), {Domains, Mailboxes}, DomainOwn()(d))
  {
    forall i | 0 <= i < |d.mailboxes|
      ensures Part(MailboxPlan(d.id)(d.mailboxes[i]), {Domains, Mailboxes}, {Mailboxes, Autoresponders, Shares})
      ensures Local(MailboxPlan(d.id)(d.mailboxes[i]), {Mailboxes}, MailboxOwn()(d.mailboxes[i]))
      ensures Local(MailboxPlan(d.id)(d.mailboxes[i]), {Domains, Mailboxes}, DomainOwn()(d))
    {
      var m := d.mailboxes[i];
      MailboxItem(d.id, m);
      assert At(Mailboxes, m.id) in DomainOwn()(d);
      hide Part, Local, MailboxPlan;
      LocalWiden(MailboxPlan(d.id)(m), {Domains, Mailboxes}, {At(Domains, d.id), At(Mailboxes, m.id)}, DomainOwn()(d));
    }
    hide Part, Local, MailboxPlan, MailboxOwn, DomainOwn;
    FlatPart(d.mailboxes, MailboxPlan(d.id), MailboxOwn(), {Domains, Mailboxes},
             {Mailboxes, Autoresponders, Shares}, {Mailboxes});
    FlatLocal(d.mailboxes, MailboxPlan(d.id), {Domains, Mailboxes}, DomainOwn()(d));
  }

  function MailParents(): set<Table> {
    {Pools, ManagedIps, Domains, Mailboxes}
  }

  function MailKeys(): set<Table> {
    {Domains, Certificates, Mailboxes, Autoresponders, Shares, Forwarders, DnssecKeys}
  }

  lemma DomainItem(uid: string, d: Domain)
    requires Disjoint(d.mailboxes, MailboxOwn())
    ensures Part(DomainPlan(uid)(d), MailParents(), MailKeys())
    ensures Local(DomainPlan(uid)(d), {Domains, Mailboxes}, DomainOwn()(d))
  {
    var tables := {Domains, Mailboxes};
    var head, mail := [DomainRow(uid, d)] + CertificatePlan(d), Flat(d.mailboxes, MailboxPlan(d.id));
    var tail := Each(d.forwarders, ForwarderRow(d.id)) + Each(d.dnssec, DnssecRow(d.id));
    DomainHead(uid, d);
    MailboxPart(d);
    DomainTail(d);
    DomainRows(uid, d);
    assert Part([], MailParents(), MailKeys()) && Local([], tables, DomainOwn()(d));
    hide MailParents, MailKeys, Flat, Each, Disjoint, MailboxOwn;
    hide Part, Local, DomainPlan, MailboxPlan, DomainOwn, CertificatePlan, ValidDomainName, DomainRow, ForwarderRow,
        DnssecRow;
    LocalAppend(head, mail, tables, DomainOwn()(d));
    LocalAppend(head + mail, tail, tables, DomainOwn()(d));
    DomainParts(head, mail, tail);
  }

  lemma DomainParts(head: seq<Row>, mail: seq<Row>, tail: seq<Row>)
    requires Part(head, {Pools, ManagedIps, Domains}, {Domains, Certificates})
    requires Part(mail, {Domains, Mailboxes}, {Mailboxes, Autoresponders, Shares})
    requires Part(tail, {Domains}, {Forwarders, DnssecKeys})
    ensures Part(head + mail + tail, MailParents(), MailKeys())
  {
    hide Part;
    var refs, keys := {Pools, ManagedIps, Domains}, {Domains, Certificates};
    PartAppend(head, refs, keys, mail, {Domains, Mailboxes}, {Mailboxes, Autoresponders, Shares});
    PartAppend(head + mail, refs + {Domains, Mailboxes}, keys + {Mailboxes, Autoresponders, Shares},
               tail, {Domains}, {Forwarders, DnssecKeys});
    assert refs + {Domains, Mailboxes} + {Domains} == MailParents();
    assert keys + {Mailboxes, Autoresponders, Shares} + {Forwarders, DnssecKeys} == MailKeys();
  }

  lemma DomainRows(uid: string, d: Domain)
    ensures DomainPlan(uid)(d) ==
      if !ValidDomainName(d.name) then []
      else ([DomainRow(uid, d)] + CertificatePlan(d)) + Flat(d.mailboxes, MailboxPlan(d.id))
           + (Each(d.forwarders, ForwarderRow(d.id)) + Each(d.dnssec, DnssecRow(d.id)))
  {
    hide ValidDomainName, CertificatePlan, Flat, Each, DomainRow, MailboxPlan, ForwarderRow, DnssecRow;
    assert DomainPlan(uid)(d) == if ValidDomainName(d.name) then [DomainRow(uid, d)] + UnderDomain(d) else [];
    Regroup([DomainRow(uid, d)], CertificatePlan(d), Flat(d.mailboxes, MailboxPlan(d.id)),
            Each(d.forwarders, ForwarderRow(d.id)), Each(d.dnssec, DnssecRow(d.id)));
  }

  lemma Regroup(a: seq<Row>, b: seq<Row>, c: seq<Row>, d: seq<Row>, e: seq<Row>)
    ensures a + (b + c + d + e) == ((a + b) + c) + (d + e)
  {
  }

  lemma DomainHead(uid: string, d: Domain)
    ensures Part([DomainRow(uid, d)] + CertificatePlan(d), {Pools, ManagedIps, Domains}, {Domains, Certificates})
    ensures Local([DomainRow(uid, d)] + CertificatePlan(d), {Domains, Mailboxes}, DomainOwn()(d))
  {
    var first, rest, own := [DomainRow(uid, d)], CertificatePlan(d), DomainOwn()(d);
    assert Local(first, {Domains, Mailboxes}, own) && Local(rest, {Domains, Mailboxes}, own);
    PartByTables(first, {Pools, ManagedIps}, {Domains});
    PartByTables(rest, {Domains}, {Certificates});
    hide Part, Local, DomainRow, CertificatePlan;
    LocalAppend(first, rest, {Domains, Mailboxes}, own);
    PartAppend(first, {Pools, ManagedIps}, {Domains}, rest, {Domains}, {Certificates});
    assert {Pools, ManagedIps} + {Domains} == {Pools, ManagedIps, Domains}
      && {Domains} + {Certificates} == {Domains, Certificates};
  }

  lemma DomainTail(d: Domain)
    ensures var rows := Each(d.forwarders, ForwarderRow(d.id)) + Each(d.dnssec, DnssecRow(d.id));
      && Part(rows, {Domains}, {Forwarders, DnssecKeys})
      && Local(rows, {Domains, Mailboxes}, DomainOwn()(d))
  {
    var forwarders, dnssec := Each(d.forwarders, ForwarderRow(d.id)), Each(d.dnssec, DnssecRow(d.id));
    ForwardersPart(d);
    DnssecPart(d);
    hide Part, Local, ForwarderRow, DnssecRow, Each, DomainOwn;
    LocalAppend(forwarders, dnssec, {Domains, Mailboxes}, DomainOwn()(d));
    PartAppend(forwarders, {}, {Forwarders}, dnssec, {Domains}, {DnssecKeys});
    assert {} + {Domains} == {Domains} && {Forwarders} + {DnssecKeys} == {Forwarders, DnssecKeys};
  }

  lemma ForwardersPart(d: Domain)
    ensures var rows := Each(d.forwarders, ForwarderRow(d.id));
      Part(rows, {}, {Forwarders}) && Local(rows, {Domains, Mailboxes}, DomainOwn()(d))
  {
    PartByTables(Each(d.forwarders, ForwarderRow(d.id)), {}, {Forwarders});
  }

  lemma DnssecPart(d: Domain)
    ensures var rows := Each(d.dnssec, DnssecRow(d.id));
      Part(rows, {Domains}, {DnssecKeys}) && Local(rows, {Domains, Mailboxes}, DomainOwn()(d))
  {
    PartByTables(Each(d.dnssec, DnssecRow(d.id)), {Domains}, {DnssecKeys});
  }

  lemma DomainPart(uid: string, m: Metadata)
    requires DistinctIDs(m)
    ensures Part(Flat(m.domains, DomainPlan(uid)), MailParents(), MailKeys())
  {
    forall i | 0 <= i < |m.domains|
      ensures Part(DomainPlan(uid)(m.domains[i]), MailParents(), MailKeys())
      ensures Local(DomainPlan(uid)(m.domains[i]), {Domains, Mailboxes}, DomainOwn()(m.domains[i]))
    {
      DomainItem(uid, m.domains[i]);
    }
    assert MailParents() * MailKeys() == {Domains, Mailboxes};
    hide Part, Local, DomainPlan, DomainOwn, MailParents, MailKeys;
    FlatPart(m.domains, DomainPlan(uid), DomainOwn(), MailParents(), MailKeys(), {Domains, Mailboxes});
  }

  lemma DatabasePart(uid: string, m: Metadata)
    ensures Part(Flat(m.databases, DatabasePlan(uid)), {Users}, {Databases})
  {
    var f, none := DatabasePlan(uid), (d: Database) => {};
    forall i | 0 <= i < |m.databases|
      ensures Part(f(m.databases[i]), {Users}, {Databases}) && Local(f(m.databases[i]), {}, none(m.databases[i]))
    {
      PartByTables(f(m.databases[i]), {Users}, {Databases});
    }
    FlatPart(m.databases, f, none, {Users}, {Databases}, {});
  }

  lemma GrantItem(u: DatabaseUser, ids: map<string, string>, mint: (string, string) -> string, g: Grant)
    ensures var rows := GrantPlan(u.id, ids, mint)(g);
      && Part(rows, {Databases, DatabaseUsers}, {Grants})
      && Local(rows, {DatabaseUsers}, DatabaseUserOwn()(u)) && Local(rows, {}, {})
  {
    var database := GrantDatabase(ids, g);
    var row := GrantRow(u.id, database, Or(g.id, mint(database, u.id)), g);
    assert GrantPlan(u.id, ids, mint)(g) == if database == "" then [] else [row];
    hide GrantPlan, GrantDatabase;
    PartByTables(if database == "" then [] else [row], {Databases, DatabaseUsers}, {Grants});
  }

  lemma GrantsPart(ids: map<string, string>, mint: (string, string) -> string, u: DatabaseUser)
    ensures var rows := Flat(u.grants, GrantPlan(u.id, ids, mint));
      && Part(rows, {Databases, DatabaseUsers}, {Grants}) && Local(rows, {DatabaseUsers}, DatabaseUserOwn()(u))
  {
    var f, none := GrantPlan(u.id, ids, mint), (g: Grant) => {};
    hide Part, Local, GrantPlan, DatabaseUserOwn;
    forall i | 0 <= i < |u.grants|
      ensures Part(f(u.grants[i]), {Databases, DatabaseUsers}, {Grants}) && Local(f(u.grants[i]), {}, none(u.grants[i]))
      ensures Local(f(u.grants[i]), {DatabaseUsers}, DatabaseUserOwn()(u))
    {
      GrantItem(u, ids, mint, u.grants[i]);
    }
    FlatPart(u.grants, f, none, {Databases, DatabaseUsers}, {Grants}, {});
    FlatLocal(u.grants, f, {DatabaseUsers}, DatabaseUserOwn()(u));
  }

  lemma DatabaseUserHead(uid: string, u: DatabaseUser)
    ensures Part([DatabaseUserRow(uid, u)], {Users}, {DatabaseUsers})
    ensures Local([DatabaseUserRow(uid, u)], {DatabaseUsers}, DatabaseUserOwn()(u))
  {
    PartByTables([DatabaseUserRow(uid, u)], {Users}, {DatabaseUsers});
  }

  lemma DatabaseUserItem(uid: string, ids: map<string, string>, mint: (string, string) -> string, u: DatabaseUser)
    ensures var rows := DatabaseUserPlan(uid, ids, mint)(u);
      && Part(rows, {Users, Databases, DatabaseUsers}, {DatabaseUsers, Grants})
      && Local(rows, {DatabaseUsers}, DatabaseUserOwn()(u))
  {
    var first, rest := [DatabaseUserRow(uid, u)], Flat(u.grants, GrantPlan(u.id, ids, mint));
    hide Part, Local, DatabaseUserRow, DatabaseUserOwn, GrantPlan, Flat;
    assert DatabaseUserPlan(uid, ids, mint)(u) == first + rest;
    DatabaseUserHead(uid, u);
    GrantsPart(ids, mint, u);
    LocalAppend(first, rest, {DatabaseUsers}, DatabaseUserOwn()(u));
    PartAppend(first, {Users}, {DatabaseUsers}, rest, {Databases, DatabaseUsers}, {Grants});
    assert {Users} + {Databases, DatabaseUsers} == {Users, Databases, DatabaseUsers};
    assert {DatabaseUsers} + {Grants} == {DatabaseUsers, Grants};
  }

  lemma DatabaseUserPart(uid: string, ids: map<string, string>, mint: (string, string) -> string, m: Metadata)
    requires DistinctIDs(m)
    ensures Part(Flat(m.databaseUsers, DatabaseUserPlan(uid, ids, mint)), {Users, Databases, DatabaseUsers},
        {DatabaseUsers, Grants})
  {
    var f := DatabaseUserPlan(uid, ids, mint);
    forall i | 0 <= i < |m.databaseUsers|
      ensures Part(f(m.databaseUsers[i]), {Users, Databases, DatabaseUsers}, {DatabaseUsers, Grants})
      ensures Local(f(m.databaseUsers[i]), {DatabaseUsers}, DatabaseUserOwn()(m.databaseUsers[i]))
    {
      DatabaseUserItem(uid, ids, mint, m.databaseUsers[i]);
    }
    hide Part, Local, DatabaseUserPlan, DatabaseUserOwn;
    FlatPart(m.databaseUsers, f, DatabaseUserOwn(), {Users, Databases, DatabaseUsers}, {DatabaseUsers, Grants},
        {DatabaseUsers});
  }

  lemma AppPart(uid: string, domains: set<string>, m: Metadata)
    ensures Part(Flat(m.apps, AppPlan(uid, domains)), {Users, Domains, Databases}, {AppInstalls})
  {
    var f, none := AppPlan(uid, domains), (a: AppInstall) => {};
    forall i | 0 <= i < |m.apps|
      ensures Part(f(m.apps[i]), {Users, Domains, Databases}, {AppInstalls}) && Local(f(m.apps[i]), {}, none(m.apps[i]))
    {
      PartByTables(f(m.apps[i]), {Users, Domains, Databases}, {AppInstalls});
    }
    hide Part, Local, AppPlan;
    FlatPart(m.apps, f, none, {Users, Domains, Databases}, {AppInstalls}, {});
  }

  function LastKeys(): set<Table> {
    {SshKeys, CronJobs, EgressPolicies, EgressRequests, LimitOverrides}
  }

  lemma LastPart(uid: string, m: Metadata)
    ensures Part(LastPlan(uid, m), {Users}, LastKeys())
  {
    JobParts(uid, m);
    PolicyParts(uid, m);
    hide Part, LastKeys, Each, PerUserPlan, SshKeyRow, JobRow;
    LastJoin(Each(m.sshKeys, SshKeyRow(uid)), Each(m.cronJobs, JobRow(CronJobs, uid)),
             PerUserPlan(EgressPolicies, uid, m.egressPolicy), Each(m.egressRequests, JobRow(EgressRequests, uid)),
             PerUserPlan(LimitOverrides, uid, m.limits));
  }

  lemma JobParts(uid: string, m: Metadata)
    ensures Part(Each(m.sshKeys, SshKeyRow(uid)), {Users}, {SshKeys})
    ensures Part(Each(m.cronJobs, JobRow(CronJobs, uid)), {Users}, {CronJobs})
    ensures Part(Each(m.egressRequests, JobRow(EgressRequests, uid)), {Users}, {EgressRequests})
  {
    hide Part, Each;
    EachPerUser(uid, m.sshKeys, SshKeyRow(uid), SshKeys);
    EachPerUser(uid, m.cronJobs, JobRow(CronJobs, uid), CronJobs);
    EachPerUser(uid, m.egressRequests, JobRow(EgressRequests, uid), EgressRequests);
  }

  lemma PolicyParts(uid: string, m: Metadata)
    ensures Part(PerUserPlan(EgressPolicies, uid, m.egressPolicy), {Users}, {EgressPolicies})
    ensures Part(PerUserPlan(LimitOverrides, uid, m.limits), {Users}, {LimitOverrides})
  {
    hide Part;
    PerUserPart(uid, PerUserPlan(EgressPolicies, uid, m.egressPolicy), EgressPolicies);
    PerUserPart(uid, PerUserPlan(LimitOverrides, uid, m.limits), LimitOverrides);
  }

  lemma EachPerUser<T(!new)>(uid: string, xs: seq<T>, f: T -> Row, table: Table)
    requires table != Users && forall x :: f(x).key.table == table && f(x).refs == {At(Users, uid)}
    ensures Part(Each(xs, f), {Users}, {table})
  {
    PerUserPart(uid, Each(xs, f), table);
  }

  lemma PerUserPart(uid: string, rows: seq<Row>, table: Table)
    requires table != Users
    requires forall i :: 0 <= i < |rows| ==> rows[i].key.table == table && rows[i].refs == {At(Users, uid)}
    ensures Part(rows, {Users}, {table})
  {
    PartByTables(rows, {Users}, {table});
  }

  lemma LastJoin(keys: seq<Row>, jobs: seq<Row>, policy: seq<Row>, requests: seq<Row>, limits: seq<Row>)
    requires Part(keys, {Users}, {SshKeys}) && Part(jobs, {Users}, {CronJobs})
      && Part(policy, {Users}, {EgressPolicies})
    requires Part(requests, {Users}, {EgressRequests}) && Part(limits, {Users}, {LimitOverrides})
    ensures Part(keys + jobs + policy + requests + limits, {Users}, LastKeys())
  {
    hide Part;
    PartJoin(keys, {Users}, {SshKeys}, jobs, {Users}, {CronJobs}, {Users});
    PartJoin(keys + jobs, {Users}, {SshKeys} + {CronJobs}, policy, {Users}, {EgressPolicies}, {Users});
    PartJoin(keys + jobs + policy, {Users}, {SshKeys} + {CronJobs} + {EgressPolicies}, requests, {Users},
        {EgressRequests}, {Users});
    PartJoin(keys + jobs + policy + requests, {Users}, {SshKeys} + {CronJobs} + {EgressPolicies} + {EgressRequests},
             limits, {Users}, {LimitOverrides}, {Users});
    assert {SshKeys} + {CronJobs} + {EgressPolicies} + {EgressRequests} + {LimitOverrides} == LastKeys();
  }

  lemma PartJoin(a: seq<Row>, refs: set<Table>, keys: set<Table>, b: seq<Row>, refs': set<Table>, keys': set<Table>,
                 all: set<Table>)
    requires Part(a, refs, keys) && Part(b, refs', keys') && refs !! keys' && refs' <= all && refs <= all
    ensures Part(a + b, all, keys + keys')
  {
    PartAppend(a, refs, keys, b, refs', keys');
  }

  /** The tables of the parents of everything but the user's own rows. */
  function MetaParents(): set<Table> {
    {Users, Databases, DatabaseUsers} + MailParents()
  }

  function MetaKeys(): set<Table> {
    {Pools, PoolIni} + MailKeys() + {Databases} + {DatabaseUsers, Grants} + {AppInstalls} + LastKeys()
  }

  lemma MetaPart(uid: string, m: Metadata, mint: (string, string) -> string)
    requires DistinctIDs(m)
    ensures Part(MetaPlan(uid, m, mint), MetaParents(), MetaKeys())
  {
    var ids := IdsByName(m.databases);
    PoolPart(uid, m);
    DomainPart(uid, m);
    DatabasePart(uid, m);
    DatabaseUserPart(uid, ids, mint, m);
    AppPart(uid, DomainIDs(m.domains), m);
    LastPart(uid, m);
    MetaJoin(Flat(m.pools, PoolPlan(uid)), Flat(m.domains, DomainPlan(uid)), Flat(m.databases, DatabasePlan(uid)),
             Flat(m.databaseUsers, DatabaseUserPlan(uid, ids, mint)), Flat(m.apps, AppPlan(uid, DomainIDs(m.domains))),
             LastPlan(uid, m));
  }

  lemma MetaJoin(pools: seq<Row>, domains: seq<Row>, databases: seq<Row>, users: seq<Row>, apps: seq<Row>,
      last: seq<Row>)
    requires Part(pools, {Users, Pools}, {Pools, PoolIni}) && Part(domains, MailParents(), MailKeys())
    requires Part(databases, {Users}, {Databases})
    requires Part(users, {Users, Databases, DatabaseUsers}, {DatabaseUsers, Grants})
    requires Part(apps, {Users, Domains, Databases}, {AppInstalls}) && Part(last, {Users}, LastKeys())
    ensures Part(pools + domains + databases + users + apps + last, MetaParents(), MetaKeys())
  {
    hide Part;
    var web, k := {Users} + MailParents(), {Pools, PoolIni} + MailKeys();
    PartJoin(pools, {Users, Pools}, {Pools, PoolIni}, domains, MailParents(), MailKeys(), web);
    PartJoin(pools + domains, web, k, databases, {Users}, {Databases}, web);
    PartJoin(pools + domains + databases, web, k + {Databases}, users, {Users, Databases, DatabaseUsers},
             {DatabaseUsers, Grants}, MetaParents());
    PartJoin(pools + domains + databases + users, MetaParents(), k + {Databases} + {DatabaseUsers, Grants},
             apps, {Users, Domains, Databases}, {AppInstalls}, MetaParents());
    PartJoin(pools + domains + databases + users + apps, MetaParents(),
             k + {Databases} + {DatabaseUsers, Grants} + {AppInstalls}, last, {Users}, LastKeys(), MetaParents());
  }

  ghost predicate Distinct(a: Account) {
    a.meta.Some? ==> DistinctIDs(a.meta.value)
  }

  lemma PlanPart(a: Account, l: Option<Login>, mint: (string, string) -> string)
    requires Distinct(a)
    ensures Ordered(Plan(a, l, mint)) && NoLateParents(Plan(a, l, mint))
  {
    var first := if l.Some? then UserPlan(a, l.value) else [];
    var rest := if a.meta.Some? then MetaPlan(a.manifest.id, a.meta.value, mint) else [];
    assert Plan(a, l, mint) == first + rest;
    NothingIsPart({Identities}, {Identities, Credentials, Users});
    NothingIsPart(MetaParents(), MetaKeys());
    hide Ordered, NoLateParents, Distinct, Plan, MetaPlan, UserPlan, Part, MetaKeys, MetaParents, IdentityRow;
    if l.Some? {
      UserPart(a, l.value);
    }
    if a.meta.Some? {
      DistinctMeta(a);
      MetaPart(a.manifest.id, a.meta.value, mint);
    }
    Joined(first, rest);
  }

  lemma NothingIsPart(refs: set<Table>, keys: set<Table>)
    ensures Part([], refs, keys)
  {
  }

  lemma DistinctMeta(a: Account)
    requires Distinct(a) && a.meta.Some?
    ensures DistinctIDs(a.meta.value)
  {
  }

  lemma Joined(first: seq<Row>, rest: seq<Row>)
    requires Part(first, {Identities}, {Identities, Credentials, Users}) && Part(rest, MetaParents(), MetaKeys())
    ensures Ordered(first + rest) && NoLateParents(first + rest)
  {
    PartAppend(first, {Identities}, {Identities, Credentials, Users}, rest, MetaParents(), MetaKeys());
  }

  lemma OrderedWaits(rows: seq<Row>)
    requires Ordered(rows) && NoLateParents(rows)
    ensures NoChains(rows)
    ensures forall k :: Awaits(rows, k) ==> Late(k.table)
  {
    forall p | Forward(rows, p)
      ensures Late(rows[p].key.table)
      ensures forall q :: 0 <= q < |rows| ==> rows[p].key !in rows[q].refs
    {
      var j :| p <= j < |rows| && rows[j].key in rows[p].refs;
      forall q | 0 <= q < |rows|
        ensures rows[p].key !in rows[q].refs
      {
        assert rows[q] in rows;
      }
    }
  }

  lemma OrderedConverges(db: Db, rows: seq<Row>)
    requires Ordered(rows) && NoLateParents(rows)
    ensures var first := Run(db, rows);
      var second := Run(first, rows);
      && Run(second, rows) == second
      && (forall k :: k in second && k !in first ==> Late(k.table) && Awaits(rows, k))
      && (second == first <==> forall p :: Forward(rows, p) ==> !Accepts(first, rows[p]))
  {
    OrderedWaits(rows);
    TwoRunsSuffice(db, rows);
    SecondRunIdleExactly(db, rows);
    hide *;
    SecondRunAddsOnlyForward(db, rows, |rows|);
    assert rows[..|rows|] == rows;
  }

  /** With the same login a second run adds only shares and forwarders, those
      whose mailbox came later, and a third run changes nothing.  The second is
      already idle exactly when none of those would be accepted after the first. */
  lemma SameLoginConverges(db: Db, a: Account, l: Option<Login>, mint: (string, string) -> string)
    requires Distinct(a)
    ensures var rows := Plan(a, l, mint);
      var first := Run(db, rows);
      var second := Run(first, rows);
      && Run(second, rows) == second
      && (forall k :: k in second && k !in first ==> Late(k.table) && Awaits(rows, k))
      && (second == first <==> forall p :: Forward(rows, p) ==> !Accepts(first, rows[p]))
  {
    PlanPart(a, l, mint);
    hide *;
    OrderedConverges(db, Plan(a, l, mint));
  }
}
