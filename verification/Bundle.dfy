/** The account bundle of a backup and the rows a restore inserts from it, in
    the order it inserts them (backup_system_accounts.go).  Columns that only
    pass through are kept as the texts `settings`. */
module Bundle {
  import opened PanelDb
  import opened Text

  datatype Profile = Profile(id: string, email: string, username: string, isAdmin: bool, settings: seq<string>)
  datatype Credential = Credential(id: string, settings: seq<string>)
  datatype Exported = Exported(
    id: string, traits: Option<Traits>, state: string, aal: string, schema: string, credentials: seq<Credential>)
  datatype Ini = Ini(id: string, directive: string, value: string, kind: string)
  datatype Pool = Pool(id: string, version: string, settings: seq<string>, ini: seq<Ini>)
  datatype Certificate = Certificate(id: string, settings: seq<string>)
  datatype Share = Share(id: string, sharedWith: string, rights: string)
  datatype Mailbox = Mailbox(
    id: string, localPart: string, settings: seq<string>, autoresponder: Option<seq<string>>, sharedWith: seq<Share>)
  datatype Forwarder = Forwarder(
    id: string, mailbox: Option<string>, kind: string, localPart: Option<string>, dest: string, settings: seq<string>)
  datatype DnssecKey = DnssecKey(tag: string, settings: seq<string>)
  datatype Domain = Domain(
    id: string, name: string, pool: Option<string>, ipv4: Option<string>, ipv6: Option<string>, settings: seq<string>,
    certificate: Option<Certificate>, mailboxes: seq<Mailbox>, forwarders: seq<Forwarder>, dnssec: seq<DnssecKey>)
  datatype Database = Database(id: string, name: string, engine: string, charset: string, collation: string)
  datatype Grant = Grant(id: string, databaseID: string, databaseName: string, level: string, privileges: string)
  datatype DatabaseUser = DatabaseUser(id: string, username: string, passwordHash: string, grants: seq<Grant>)
  datatype AppInstall = AppInstall(
    id: string, domainID: string, databaseID: Option<string>, subdirectory: string, appType: string,
        settings: seq<string>)
  datatype SshKey = SshKey(id: string, name: string, publicKey: string, fingerprint: string)
  datatype Job = Job(id: string, settings: seq<string>)

  datatype Metadata = Metadata(
    user: Profile, kratos: Option<Exported>, pools: seq<Pool>, domains: seq<Domain>, databases: seq<Database>,
    databaseUsers: seq<DatabaseUser>, apps: seq<AppInstall>, sshKeys: seq<SshKey>, cronJobs: seq<Job>,
    egressPolicy: Option<seq<string>>, egressRequests: seq<Job>, limits: Option<seq<string>>)

  /** The manifest's user and the metadata bundle, absent from old backups. */
  datatype Account = Account(manifest: Profile, meta: Option<Metadata>)

  /** The identity the account is tied to, with the host's network and schema. */
  datatype Login = Login(id: string, nid: string, schema: string)

  function Or(s: string, default: string): string {
    if s == "" then default else s
  }

  function At(table: Table, id: string): Key {
    Key(table, [id])
  }

  function OptionalKey(table: Table, id: Option<string>): set<Key> {
    if id.Some? then {At(table, id.value)} else {}
  }

  predicate IsLowerOrDigit(c: char) {
    'a' <= c <= 'z' || '0' <= c <= '9'
  }

  /** `reconstructionDomainNameRE`. */
  predicate ValidDomainName(s: string) {
    && s != "" && IsLowerOrDigit(s[0]) && IsLowerOrDigit(s[|s| - 1])
    && forall i :: 0 <= i < |s| ==> IsLowerOrDigit(s[i]) || s[i] == '-' || s[i] == '.'
  }

  predicate IsLetter(c: char) {
    'a' <= c <= 'z' || 'A' <= c <= 'Z'
  }

  /** `dbNameRE`. */
  predicate ValidDatabaseName(s: string) {
    && 1 <= |s| <= 64 && IsLetter(s[0])
    && forall i :: 0 <= i < |s| ==> IsLetter(s[i]) || '0' <= s[i] <= '9' || s[i] == '_'
  }

  // The user and the Kratos identity.

  /** Schema-v2 user and identity when the bundle has them. */
  function UserOf(a: Account): Profile {
    if a.meta.Some? && a.meta.value.user.id != "" then a.meta.value.user else a.manifest.(settings := [])
  }

  function ExportedOf(a: Account): Exported {
    if a.meta.Some? && a.meta.value.user.id != "" && a.meta.value.kratos.Some?
    then a.meta.value.kratos.value
    else Exported("", None, "", "", "", [])
  }

  /** A character JSON writes as it is. */
  predicate Plain(c: char) {
    ' ' <= c && c !in "\"\\<>&" && c != '\U{2028}' && c != '\U{2029}'
  }

  function Hex(n: nat): string {
    [if n % 16 < 10 then '0' + (n % 16) as char else 'a' + (n % 16 - 10) as char]
  }

  function JsonChar(c: char): string {
    if Plain(c) then [c]
    else if c == '\"' || c == '\\' then ['\\', c]
    else if c == '\n' then "\\n"
    else if c == '\r' then "\\r"
    else if c == '\t' then "\\t"
    else "\\u" + Hex(c as nat / 4096) + Hex(c as nat / 256) + Hex(c as nat / 16) + Hex(c as nat)
  }

  function JsonBody(s: string): string {
    if s == "" then "" else JsonChar(s[0]) + JsonBody(s[1..])
  }

  function JsonString(s: string): string {
    "\"" + JsonBody(s) + "\""
  }

  /** What a lookup by email compares `$.email` with. */
  function Quoted(email: string): string {
    "\"" + email + "\""
  }

  function DefaultTraits(u: Profile): Traits {
    Traits("{\"email\":" + JsonString(u.email) + ",\"is_admin\":" + (if u.isAdmin then "true" else "false")
           + (if u.username == "" then "" else ",\"username\":" + JsonString(u.username)) + "}", JsonString(u.email))
  }

  function TraitsOf(a: Account): Traits {
    var e := ExportedOf(a);
    if e.traits.Some? then e.traits.value else DefaultTraits(UserOf(a))
  }

  function IdentityRow(a: Account, l: Login): Row {
    var e := ExportedOf(a);
    Row(At(Identities, l.id), {}, {},
        Identity(Or(e.schema, l.schema), TraitsOf(a), Or(e.state, "active"), l.nid, Or(e.aal, "aal1")))
  }

  function CredentialRow(l: Login): Credential -> Row {
    (c: Credential) => Row(At(Credentials, c.id), {}, {At(Identities, l.id)}, Columns(c.settings + [l.nid]))
  }

  function UserRow(u: Profile, l: Login): Row {
    Row(At(Users, u.id),
        {Unique(UxUsersEmail, [u.email]), Unique(UxUsersKratosIdentityId, [l.id])}
        + (if u.username == "" then {} else {Unique(UxUsersUsername, [u.username])}),
        {}, Columns([l.id] + u.settings))
  }

  // The rows that hang off the user.

  function PoolRow(uid: string, p: Pool): Row {
    Row(At(Pools, p.id), {Unique(UniqUserPhpver, [uid, p.version])}, {At(Users, uid)}, Columns(p.settings))
  }

  function IniRow(pool: string): Ini -> Row {
    (o: Ini) => Row(At(PoolIni, o.id), {Unique(UniqPoolDirective, [pool, o.directive])}, {At(Pools, pool)},
                    Columns([o.value, o.kind]))
  }

  function DomainRow(uid: string, d: Domain): Row {
    Row(At(Domains, d.id), {Unique(UxDomainsName, [d.name])},
        OptionalKey(Pools, d.pool) + OptionalKey(ManagedIps, d.ipv4) + OptionalKey(ManagedIps, d.ipv6),
        Columns([uid] + d.settings))
  }

  function CertificateRow(domain: string, c: Certificate): Row {
    Row(At(Certificates, c.id), {Unique(UniqSslCertDomain, [domain])}, {At(Domains, domain)}, Columns(c.settings))
  }

  /** `email_cached` is the local part at the domain's unique name. */
  function MailboxRow(domain: string, m: Mailbox): Row {
    Row(At(Mailboxes, m.id), {Unique(UxMailboxesEmailCached, [m.localPart, domain])}, {At(Domains, domain)},
        Columns(m.settings))
  }

  function AutoresponderRow(mailbox: string, settings: seq<string>): Row {
    Row(At(Autoresponders, mailbox), {}, {At(Mailboxes, mailbox)}, Columns(settings))
  }

  function ShareRow(owner: string): Share -> Row {
    (s: Share) => Row(At(Shares, s.id), {Unique(UqShare, [owner, s.sharedWith])},
                      {At(Mailboxes, owner), At(Mailboxes, s.sharedWith)}, Columns([Or(s.rights, "{}")]))
  }

  function ForwarderRow(domain: string): Forwarder -> Row {
    (f: Forwarder) =>
      Row(At(Forwarders, f.id),
          (if f.localPart.Some? then {Unique(UqAliasLocal, [domain, f.localPart.value])} else {})
          + (if f.mailbox.Some? then {Unique(UqExternalForward, [f.mailbox.value, f.kind, f.dest])} else {}),
          {At(Domains, domain)} + OptionalKey(Mailboxes, f.mailbox), Columns([f.kind, f.dest] + f.settings))
  }

  function DnssecRow(domain: string): DnssecKey -> Row {
    (k: DnssecKey) => Row(Key(DnssecKeys, [domain, k.tag]), {}, {At(Domains, domain)}, Columns(k.settings))
  }

  function DatabaseRow(uid: string, d: Database): Row {
    Row(At(Databases, d.id), {Unique(UniqUserName, [uid, d.name])}, {At(Users, uid)},
        Columns([Or(d.engine, "mariadb"), Or(d.charset, "utf8mb4"), Or(d.collation, "utf8mb4_unicode_ci")]))
  }

  function DatabaseUserRow(uid: string, u: DatabaseUser): Row {
    Row(At(DatabaseUsers, u.id), {Unique(UniqUserUsername, [uid, u.username])}, {At(Users, uid)},
        Columns([u.passwordHash]))
  }

  function GrantRow(user: string, database: string, id: string, g: Grant): Row {
    Row(At(Grants, id), {Unique(UniqDbUser, [database, user])}, {At(Databases, database), At(DatabaseUsers, user)},
        Columns([Or(g.level, "rw"), Or(g.privileges, "ALL")]))
  }

  function AppRow(uid: string, a: AppInstall): Row {
    Row(At(AppInstalls, a.id), {Unique(UniqAppInstallsDomainSubdirApptype, [a.domainID, a.subdirectory, a.appType])},
        {At(Users, uid), At(Domains, a.domainID)}
        + (if a.databaseID.Some? && a.databaseID.value != "" then {At(Databases, a.databaseID.value)} else {}),
        Columns(a.settings))
  }

  function SshKeyRow(uid: string): SshKey -> Row {
    (k: SshKey) => Row(At(SshKeys, k.id), {Unique(UxSshKeysUserFingerprint, [uid, k.fingerprint])}, {At(Users, uid)},
                       Columns([k.name, k.publicKey]))
  }

  function JobRow(table: Table, uid: string): Job -> Row {
    (j: Job) => Row(At(table, j.id), {}, {At(Users, uid)}, Columns(j.settings))
  }

  function PerUserRow(table: Table, uid: string, settings: seq<string>): Row {
    Row(At(table, uid), {}, {At(Users, uid)}, Columns(settings))
  }

  function PerUserPlan(table: Table, uid: string, settings: Option<seq<string>>): seq<Row> {
    if settings.Some? then [PerUserRow(table, uid, settings.value)] else []
  }

  // The whole run.

  function Each<T>(xs: seq<T>, f: T -> Row): (rows: seq<Row>)
    ensures |rows| == |xs| && forall i :: 0 <= i < |xs| ==> rows[i] == f(xs[i])
  {
    seq(|xs|, i requires 0 <= i < |xs| => f(xs[i]))
  }

  function Flat<T, E>(xs: seq<T>, f: T -> seq<E>): seq<E> {
    if xs == [] then [] else Flat(xs[..|xs| - 1], f) + f(xs[|xs| - 1])
  }

  lemma FlatStep<T, E>(xs: seq<T>, i: nat, f: T -> seq<E>)
    requires i < |xs|
    ensures Flat(xs[..i + 1], f) == Flat(xs[..i], f) + f(xs[i])
  {
    assert xs[..i + 1][..i] == xs[..i];
  }

  lemma {:induction false} FlatMember<T, E>(xs: seq<T>, f: T -> seq<E>, e: E)
    requires e in Flat(xs, f)
    ensures exists i :: 0 <= i < |xs| && e in f(xs[i])
  {
    var n := |xs| - 1;
    if e !in f(xs[n]) {
      FlatMember(xs[..n], f, e);
      var i :| 0 <= i < n && e in f(xs[..n][i]);
      assert xs[i] == xs[..n][i];
    }
  }

  lemma {:induction false} FlatHas<T, E>(xs: seq<T>, f: T -> seq<E>, i: nat, e: E)
    requires i < |xs| && e in f(xs[i])
    ensures e in Flat(xs, f)
  {
    var n := |xs| - 1;
    if i < n {
      FlatHas(xs[..n], f, i, e);
    }
  }

  function UserPlan(a: Account, l: Login): seq<Row> {
    [IdentityRow(a, l)] + Each(ExportedOf(a).credentials, CredentialRow(l)) + [UserRow(UserOf(a), l)]
  }

  function PoolPlan(uid: string): Pool -> seq<Row> {
    (p: Pool) => [PoolRow(uid, p)] + Each(p.ini, IniRow(p.id))
  }

  function ReplyPlan(m: Mailbox): seq<Row> {
    if m.autoresponder.Some? then [AutoresponderRow(m.id, m.autoresponder.value)] else []
  }

  function MailboxPlan(domain: string): Mailbox -> seq<Row> {
    (m: Mailbox) =>
      [MailboxRow(domain, m)] + ReplyPlan(m) + Each(m.sharedWith, ShareRow(m.id))
  }

  function CertificatePlan(d: Domain): seq<Row> {
    if d.certificate.Some? then [CertificateRow(d.id, d.certificate.value)] else []
  }

  /** The rows below a domain. */
  function UnderDomain(d: Domain): seq<Row> {
    CertificatePlan(d) + Flat(d.mailboxes, MailboxPlan(d.id))
    + Each(d.forwarders, ForwarderRow(d.id)) + Each(d.dnssec, DnssecRow(d.id))
  }

  function DomainPlan(uid: string): Domain -> seq<Row> {
    (d: Domain) =>
      if ValidDomainName(d.name) then [DomainRow(uid, d)] + UnderDomain(d) else []
  }

  function DatabasePlan(uid: string): Database -> seq<Row> {
    (d: Database) => if ValidDatabaseName(d.name) then [DatabaseRow(uid, d)] else []
  }

  /** Database ids by name, the last of a name winning. */
  function IdsByName(ds: seq<Database>): map<string, string> {
    if ds == [] then map[] else IdsByName(ds[..|ds| - 1])[ds[|ds| - 1].name := ds[|ds| - 1].id]
  }

  /** A grant's database: its own id, else the id its name maps to, else "". */
  function GrantDatabase(ids: map<string, string>, g: Grant): string {
    if g.databaseID != "" then g.databaseID else if g.databaseName in ids then ids[g.databaseName] else ""
  }

  /** `mint` stands for the fresh ULID of a grant that has no id. */
  function GrantPlan(user: string, ids: map<string, string>, mint: (string, string) -> string): Grant -> seq<Row> {
    (g: Grant) =>
      var database := GrantDatabase(ids, g);
      if database == "" then [] else [GrantRow(user, database, Or(g.id, mint(database, user)), g)]
  }

  function DatabaseUserPlan(uid: string, ids: map<string, string>, mint: (string, string) -> string)
    : DatabaseUser -> seq<Row>
  {
    (u: DatabaseUser) => [DatabaseUserRow(uid, u)] + Flat(u.grants, GrantPlan(u.id, ids, mint))
  }

  /** The domains whose insert was tried. */
  function DomainIDs(ds: seq<Domain>): set<string> {
    set i | 0 <= i < |ds| && ValidDomainName(ds[i].name) :: ds[i].id
  }

  function AppPlan(uid: string, domains: set<string>): AppInstall -> seq<Row> {
    (a: AppInstall) => if a.domainID in domains then [AppRow(uid, a)] else []
  }

  function LastPlan(uid: string, m: Metadata): seq<Row> {
    Each(m.sshKeys, SshKeyRow(uid)) + Each(m.cronJobs, JobRow(CronJobs, uid))
    + PerUserPlan(EgressPolicies, uid, m.egressPolicy) + Each(m.egressRequests, JobRow(EgressRequests, uid))
    + PerUserPlan(LimitOverrides, uid, m.limits)
  }

  function MetaPlan(uid: string, m: Metadata, mint: (string, string) -> string): seq<Row> {
    Flat(m.pools, PoolPlan(uid)) + Flat(m.domains, DomainPlan(uid)) + Flat(m.databases, DatabasePlan(uid))
    + Flat(m.databaseUsers, DatabaseUserPlan(uid, IdsByName(m.databases), mint))
    + Flat(m.apps, AppPlan(uid, DomainIDs(m.domains))) + LastPlan(uid, m)
  }

  /** The rows of a run in which no statement fails; without a login the user
      part is skipped. */
  function Plan(a: Account, l: Option<Login>, mint: (string, string) -> string): seq<Row> {
    (if l.Some? then UserPlan(a, l.value) else [])
    + (if a.meta.Some? then MetaPlan(a.manifest.id, a.meta.value, mint) else [])
  }
}
