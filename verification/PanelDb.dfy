/** The panel and Kratos databases as seen by INSERT IGNORE: rows with a primary
    key, unique keys and foreign keys, as the migrations declare them. */
module PanelDb {
  datatype Table =
    | Identities | Credentials | Users | Pools | PoolIni | ManagedIps | Domains | Certificates | Mailboxes
    | Autoresponders | Shares | Forwarders | DnssecKeys | Databases | DatabaseUsers | Grants | AppInstalls
    | SshKeys | CronJobs | EgressPolicies | EgressRequests | LimitOverrides

  /** The unique keys, by the names the migrations give them. */
  datatype Index =
    | UxUsersEmail | UxUsersKratosIdentityId | UxUsersUsername | UniqUserPhpver
    | UniqPoolDirective | UxDomainsName | UniqSslCertDomain | UxMailboxesEmailCached
    | UqShare | UqAliasLocal | UqExternalForward | UniqUserName
    | UniqUserUsername | UniqDbUser | UniqAppInstallsDomainSubdirApptype | UxSshKeysUserFingerprint

  datatype Unique = Unique(index: Index, values: seq<string>)

  /** A primary key; `id` has two parts in the DNSSEC key table, one elsewhere. */
  datatype Key = Key(table: Table, id: seq<string>)

  /** The traits of a Kratos identity: the JSON text, and the text JSON_EXTRACT
      gives for `$.email`. */
  datatype Traits = Traits(text: string, emailJson: string)

  datatype Content =
    | Columns(values: seq<string>)
    | Identity(schema: string, traits: Traits, state: string, nid: string, aal: string)

  /** `uniques` are the values of its unique keys, those with a NULL part left
      out; `refs` are the parents its foreign keys name. */
  datatype Row = Row(key: Key, uniques: set<Unique>, refs: set<Key>, content: Content)

  /** The parent a row names without a foreign key: the user of a domain, the
      Kratos identity of a user. */
  function Owners(row: Row): set<Key> {
    if !row.content.Columns? || row.content.values == [] then {}
    else if row.key.table == Domains then {Key(Users, [row.content.values[0]])}
    else if row.key.table == Users then {Key(Identities, [row.content.values[0]])}
    else {}
  }

  /** The table a unique key belongs to. */
  function TableOf(i: Index): Table {
    match i
    case UxUsersEmail | UxUsersKratosIdentityId | UxUsersUsername => Users
    case UniqUserPhpver => Pools
    case UniqPoolDirective => PoolIni
    case UxDomainsName => Domains
    case UniqSslCertDomain => Certificates
    case UxMailboxesEmailCached => Mailboxes
    case UqShare => Shares
    case UqAliasLocal | UqExternalForward => Forwarders
    case UniqUserName => Databases
    case UniqUserUsername => DatabaseUsers
    case UniqDbUser => Grants
    case UniqAppInstallsDomainSubdirApptype => AppInstalls
    case UxSshKeysUserFingerprint => SshKeys
  }

  /** The row has only unique values of its own table. */
  ghost predicate Fits(r: Row) {
    forall u :: u in r.uniques ==> TableOf(u.index) == r.key.table
  }

  type Db = map<Key, Row>

  predicate Clash(db: Db, row: Row) {
    exists k :: k in db && db[k].uniques * row.uniques != {}
  }

  /** INSERT IGNORE stores a row unless its primary key or a unique key is taken
      or a parent is missing. */
  predicate Accepts(db: Db, row: Row) {
    row.key !in db && !Clash(db, row) && row.refs <= db.Keys
  }

  function InsertIgnore(db: Db, row: Row): Db {
    if Accepts(db, row) then db[row.key := row] else db
  }

  /** The database after INSERT IGNORE of each row in turn. */
  ghost function Run(db: Db, rows: seq<Row>): Db {
    if rows == [] then db else InsertIgnore(Run(db, rows[..|rows| - 1]), rows[|rows| - 1])
  }

  /** Every foreign key finds its parent. */
  ghost predicate Intact(db: Db) {
    forall k :: k in db ==> db[k].refs <= db.Keys
  }

  /** No two rows share a unique value, and rows sit under their own keys. */
  ghost predicate NoDuplicates(db: Db) {
    && (forall k :: k in db ==> db[k].key == k)
    && forall k, l :: k in db && l in db && k != l ==> db[k].uniques * db[l].uniques == {}
  }

  /** Nothing of `before` was changed or deleted. */
  ghost predicate Extends(before: Db, after: Db) {
    forall k :: k in before ==> k in after && after[k] == before[k]
  }

  lemma {:induction false} RunAppend(db: Db, a: seq<Row>, b: seq<Row>)
    ensures Run(db, a + b) == Run(Run(db, a), b)
  {
    hide InsertIgnore;
    if b == [] {
      assert a + b == a;
    } else {
      var n := |b| - 1;
      RunAppend(db, a, b[..n]);
      assert (a + b)[..|a + b| - 1] == a + b[..n];
    }
  }

  lemma RunSnoc(db: Db, rows: seq<Row>, row: Row)
    ensures Run(db, rows + [row]) == InsertIgnore(Run(db, rows), row)
  {
    hide InsertIgnore;
    assert (rows + [row])[..|rows|] == rows;
  }

  lemma {:induction false} RunExtends(db: Db, rows: seq<Row>)
    ensures Extends(db, Run(db, rows))
  {
    if rows != [] {
      RunExtends(db, rows[..|rows| - 1]);
    }
  }

  lemma PrefixExtends(db: Db, rows: seq<Row>, i: nat, j: nat)
    requires i <= j <= |rows|
    ensures Extends(Run(db, rows[..i]), Run(db, rows[..j]))
  {
    assert rows[..j] == rows[..i] + rows[i..j];
    RunAppend(db, rows[..i], rows[i..j]);
    RunExtends(Run(db, rows[..i]), rows[i..j]);
  }

  /** At every point of every run: no row was changed or deleted, references and
      unique keys still hold, and a row that is new is one of those inserted,
      with its parents present. */
  lemma {:induction false} RunIsSafe(db: Db, rows: seq<Row>, i: nat)
    requires i <= |rows|
    ensures Extends(db, Run(db, rows[..i])) && Extends(Run(db, rows[..i]), Run(db, rows))
    ensures Intact(db) ==> Intact(Run(db, rows[..i]))
    ensures NoDuplicates(db) ==> NoDuplicates(Run(db, rows[..i]))
    ensures forall k :: k in Run(db, rows[..i]) && k !in db ==>
      && Run(db, rows[..i])[k] in rows[..i] && Run(db, rows[..i])[k].key == k
      && Run(db, rows[..i])[k].refs <= Run(db, rows[..i]).Keys
  {
    assert rows[..|rows|] == rows;
    PrefixExtends(db, rows, i, |rows|);
    PrefixExtends(db, rows, 0, i);
    assert rows[..0] == [];
    if i > 0 {
      RunIsSafe(db, rows, i - 1);
      InsertIsSafe(Run(db, rows[..i - 1]), rows[i - 1]);
      assert rows[..i][..i - 1] == rows[..i - 1];
      hide InsertIgnore, Intact, NoDuplicates;
      var before, after := Run(db, rows[..i - 1]), Run(db, rows[..i]);
      forall k | k in after && k !in db
        ensures after[k] in rows[..i] && after[k].key == k && after[k].refs <= after.Keys
      {
        if k in before {
          assert after[k] == before[k];
        }
      }
    }
  }

  lemma InsertIsSafe(db: Db, row: Row)
    ensures Extends(db, InsertIgnore(db, row))
    ensures Intact(db) ==> Intact(InsertIgnore(db, row))
    ensures NoDuplicates(db) ==> NoDuplicates(InsertIgnore(db, row))
    ensures forall k :: k in InsertIgnore(db, row) && k !in db ==>
      InsertIgnore(db, row)[k] == row && row.key == k && row.refs <= InsertIgnore(db, row).Keys
  {
  }

  lemma RunAdds(db: Db, rows: seq<Row>)
    ensures Extends(db, Run(db, rows))
    ensures forall k :: k in Run(db, rows) && k !in db ==> Run(db, rows)[k] in rows && Run(db, rows)[k].key == k
  {
    RunIsSafe(db, rows, |rows|);
    assert rows[..|rows|] == rows;
  }

  /** What a run adds did not clash with what was there before. */
  lemma {:induction false} AddedFree(db: Db, rows: seq<Row>)
    ensures forall k :: k in Run(db, rows) && k !in db ==> !Clash(db, Run(db, rows)[k])
  {
    if rows != [] {
      var n := |rows| - 1;
      AddedFree(db, rows[..n]);
      RunExtends(db, rows[..n]);
      ClashStays(db, Run(db, rows[..n]), rows[n]);
      hide Clash;
    }
  }

  lemma ClashStays(early: Db, late: Db, row: Row)
    requires Extends(early, late)
    ensures Clash(early, row) ==> Clash(late, row)
  {
    if Clash(early, row) {
      var k :| k in early && early[k].uniques * row.uniques != {};
      assert late[k] == early[k];
    }
  }

  /** A row that is sent to a database accepting it is in the result, unless rows
      of its own table got in its way. */
  lemma SentIsStored(db: Db, rows: seq<Row>, row: Row)
    requires row in rows && Accepts(db, row)
    requires forall r :: r in rows ==> Fits(r)
    ensures exists k :: k in Run(db, rows) && k !in db && k.table == row.key.table
  {
    var j :| 0 <= j < |rows| && rows[j] == row;
    var before, after := Run(db, rows[..j]), Run(db, rows);
    assert rows[..|rows|] == rows && rows[..j] + [row] == rows[..j + 1];
    RunAdds(db, rows[..j]);
    RunSnoc(db, rows[..j], row);
    PrefixExtends(db, rows, j, |rows|);
    PrefixExtends(db, rows, j + 1, |rows|);
    if Accepts(before, row) {
      assert row.key in after;
    } else if row.key !in before {
      var k :| k in before && before[k].uniques * row.uniques != {};
      var u :| u in before[k].uniques && u in row.uniques;
      assert k in db ==> Clash(db, row);
      assert before[k] in rows && before[k].key == k;
      assert k in after;
    } else {
      assert row.key in after;
    }
  }

  /** A key absent after a prefix of the rows and present at the end was added by
      a later row. */
  lemma {:induction false} AddedLater(db: Db, rows: seq<Row>, i: nat, k: Key)
    requires i <= |rows| && k !in Run(db, rows[..i]) && k in Run(db, rows)
    ensures exists j :: i <= j < |rows| && rows[j].key == k
  {
    assert rows[..|rows|] == rows;
    if i < |rows| {
      var n := |rows| - 1;
      if k in Run(db, rows[..n]) {
        assert rows[..n][..i] == rows[..i];
        AddedLater(db, rows[..n], i, k);
        var j :| i <= j < n && rows[..n][j].key == k;
        assert rows[j] == rows[..n][j];
      } else {
        assert rows[n].key == k;
      }
    }
  }

  /** The row at `p` names a parent that is itself inserted later on. */
  ghost predicate Forward(rows: seq<Row>, p: int) {
    0 <= p < |rows| && exists j :: p <= j < |rows| && rows[j].key in rows[p].refs
  }

  /** No row names a parent that itself waits for a later row. */
  ghost predicate NoChains(rows: seq<Row>) {
    forall p, q :: Forward(rows, p) && 0 <= q < |rows| ==> rows[p].key !in rows[q].refs
  }

  /** A row with key `k` waits for a later row. */
  ghost predicate Awaits(rows: seq<Row>, k: Key) {
    exists p :: Forward(rows, p) && rows[p].key == k
  }

  lemma RefusedForGood(early: Db, late: Db, row: Row)
    requires Extends(early, late) && row.refs <= early.Keys && !Accepts(early, row)
    ensures !Accepts(late, row)
  {
    if row.key !in early {
      var k :| k in early && early[k].uniques * row.uniques != {};
      assert late[k] == early[k];
    }
  }

  /** A row that a second run of the same rows adds waited, in the first run, for
      a parent inserted after it. */
  lemma {:induction false} SecondRunAddsOnlyForward(db: Db, rows: seq<Row>, i: nat)
    requires NoChains(rows) && i <= |rows|
    ensures var first := Run(db, rows);
      forall k :: k in Run(first, rows[..i]) && k !in first ==> Awaits(rows, k)
  {
    var first := Run(db, rows);
    if i > 0 {
      var row, early, late := rows[i - 1], Run(db, rows[..i - 1]), Run(first, rows[..i - 1]);
      SecondRunAddsOnlyForward(db, rows, i - 1);
      assert rows[..i][..i - 1] == rows[..i - 1];
      assert rows[..|rows|] == rows;
      if Accepts(late, row) {
        AddedWaited(db, rows, i - 1);
      }
    }
  }

  lemma AddedWaited(db: Db, rows: seq<Row>, i: nat)
    requires NoChains(rows) && i < |rows|
    requires var first := Run(db, rows);
      forall k :: k in Run(first, rows[..i]) && k !in first ==> Awaits(rows, k)
    requires Accepts(Run(Run(db, rows), rows[..i]), rows[i])
    ensures Forward(rows, i)
  {
    var first := Run(db, rows);
    var row, early, late := rows[i], Run(db, rows[..i]), Run(first, rows[..i]);
    assert rows[..|rows|] == rows;
    PrefixExtends(db, rows, i, |rows|);
    PrefixExtends(db, rows, i + 1, |rows|);
    RunExtends(first, rows[..i]);
    RunSnoc(db, rows[..i], row);
    assert rows[..i] + [row] == rows[..i + 1];
    assert !Accepts(early, row);
    Refs(late, row);
    hide Accepts, Run, Awaits, NoChains, InsertIgnore, Clash;
    if row.refs <= early.Keys {
      RefusedForGood(early, late, row);
    } else {
      var k :| k in row.refs && k !in early;
      NotAwaited(rows, i, k);
      assert k in late && k in first;
      AddedLater(db, rows, i, k);
    }
  }

  lemma NotAwaited(rows: seq<Row>, i: nat, k: Key)
    requires NoChains(rows) && i < |rows| && k in rows[i].refs
    ensures !Awaits(rows, k)
  {
  }

  lemma Refs(db: Db, row: Row)
    requires Accepts(db, row)
    ensures row.refs <= db.Keys
  {
  }

  /** Without chains two runs reach a fixpoint: a third changes nothing. */
  lemma TwoRunsSuffice(db: Db, rows: seq<Row>)
    requires NoChains(rows)
    ensures var second := Run(Run(db, rows), rows);
      Run(second, rows) == second
  {
    ThirdRunIdle(db, rows, |rows|);
    assert rows[..|rows|] == rows;
  }

  /** The second run is already idle exactly when, after the first, no row that
      waited for a later parent would now be accepted. */
  lemma SecondRunIdleExactly(db: Db, rows: seq<Row>)
    requires NoChains(rows)
    ensures var first := Run(db, rows);
      Run(first, rows) == first <==> forall p :: Forward(rows, p) ==> !Accepts(first, rows[p])
  {
    var first := Run(db, rows);
    assert rows[..|rows|] == rows;
    if Run(first, rows) == first {
      forall p | Forward(rows, p)
        ensures !Accepts(first, rows[p])
      {
        IdleRefuses(first, rows, p);
      }
    } else if forall p :: Forward(rows, p) ==> !Accepts(first, rows[p]) {
      SecondRunIdle(db, rows, |rows|);
    }
  }

  /** A row that would be accepted after a run waited in it for a later parent. */
  lemma AcceptedWaited(db: Db, rows: seq<Row>, p: nat)
    requires p < |rows| && Accepts(Run(db, rows), rows[p])
    ensures Forward(rows, p)
  {
    var first, early, row := Run(db, rows), Run(db, rows[..p]), rows[p];
    assert rows[..|rows|] == rows && rows[..p] + [row] == rows[..p + 1];
    PrefixExtends(db, rows, p, |rows|);
    PrefixExtends(db, rows, p + 1, |rows|);
    RunSnoc(db, rows[..p], row);
    assert !Accepts(early, row);
    Refs(first, row);
    hide Run, Accepts;
    if row.refs <= early.Keys {
      RefusedForGood(early, first, row);
    } else {
      var k :| k in row.refs && k !in early;
      AddedLater(db, rows, p, k);
    }
  }

  lemma RefsOfAdded(db: Db, rows: seq<Row>)
    ensures forall k :: k in Run(db, rows) && k !in db ==> Run(db, rows)[k].refs <= Run(db, rows).Keys
  {
    RunIsSafe(db, rows, |rows|);
    assert rows[..|rows|] == rows;
  }

  lemma IdleRefuses(db: Db, rows: seq<Row>, p: nat)
    requires Run(db, rows) == db && p < |rows|
    ensures !Accepts(db, rows[p])
  {
    assert rows[..|rows|] == rows && rows[..p] + [rows[p]] == rows[..p + 1];
    RunExtends(db, rows[..p]);
    PrefixExtends(db, rows, p, |rows|);
    PrefixExtends(db, rows, p + 1, |rows|);
    RunSnoc(db, rows[..p], rows[p]);
    SameBothWays(db, Run(db, rows[..p]));
  }

  lemma SameBothWays(a: Db, b: Db)
    requires Extends(a, b) && Extends(b, a)
    ensures a == b
  {
  }

  lemma {:induction false} SecondRunIdle(db: Db, rows: seq<Row>, i: nat)
    requires NoChains(rows) && i <= |rows|
    requires var first := Run(db, rows); forall p :: Forward(rows, p) ==> !Accepts(first, rows[p])
    ensures Run(Run(db, rows), rows[..i]) == Run(db, rows)
  {
    if i > 0 {
      SecondRunIdle(db, rows, i - 1);
      assert rows[..i][..i - 1] == rows[..i - 1];
      if Accepts(Run(db, rows), rows[i - 1]) {
        AddedWaited(db, rows, i - 1);
      }
    }
  }

  lemma {:induction false} ThirdRunIdle(db: Db, rows: seq<Row>, i: nat)
    requires NoChains(rows) && i <= |rows|
    ensures var second := Run(Run(db, rows), rows);
      Run(second, rows[..i]) == second
  {
    if i > 0 {
      ThirdRunIdle(db, rows, i - 1);
      NotAddedAgain(db, rows, i - 1);
      assert rows[..i][..i - 1] == rows[..i - 1];
    }
  }

  lemma NotAddedAgain(db: Db, rows: seq<Row>, i: nat)
    requires NoChains(rows) && i < |rows|
    ensures !Accepts(Run(Run(db, rows), rows), rows[i])
  {
    var first := Run(db, rows);
    var second := Run(first, rows);
    var row, early, next := rows[i], Run(first, rows[..i]), Run(first, rows[..i + 1]);
    assert rows[..|rows|] == rows;
    PrefixExtends(first, rows, i, |rows|);
    PrefixExtends(first, rows, i + 1, |rows|);
    SecondRunAddsOnlyForward(db, rows, |rows|);
    RunExtends(first, rows[..i]);
    RunSnoc(first, rows[..i], row);
    assert rows[..i] + [row] == rows[..i + 1];
    assert Accepts(early, row) ==> row.key in next;
    hide Run, NoChains, Awaits;
    if !Accepts(early, row) {
      if row.refs <= early.Keys {
        RefusedForGood(early, second, row);
      } else {
        var k :| k in row.refs && k !in early;
        NotAwaited(rows, i, k);
        assert k !in first && k !in second;
      }
    }
  }
}
