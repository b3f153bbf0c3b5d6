/** The order in which a reconstruction tries its statements: of two rows of the
    bundle that cannot both be stored, the one that is tried first is kept. */
module TrialOrder {
  import opened PanelDb
  import opened Bundle
  import opened Trials
  import opened TrialRows
  import opened Text

  /** `a` stands somewhere before some `b`. */
  ghost predicate Before<E>(s: seq<E>, a: E, b: E) {
    exists i, j :: 0 <= i < j < |s| && s[i] == a && s[j] == b
  }

  /** The row comes with item `i` of part `part` of the bundle: its pools, domains,
      databases, database users, apps, SSH keys, cron jobs, egress policy, egress
      requests, limits. */
  ghost predicate ComesWith(r: Row, part: nat, i: nat, uid: string, m: Metadata, mint: (string, string) -> string,
                            o: Oracle) {
    match part
    case 1 => i < |m.pools| && OfPool(r, uid, m.pools[i], o)
    case 2 => i < |m.domains| && OfDomain(r, uid, m.domains[i], o)
    case 3 => i < |m.databases| && OfDatabase(r, uid, m.databases[i])
    case 4 => i < |m.databaseUsers| && OfDatabaseUser(r, uid, m.databases, mint, m.databaseUsers[i], o)
    case 5 => i < |m.apps| && OfApp(r, uid, m.domains, m.apps[i], o)
    case 6 => i < |m.sshKeys| && IsSshKey(r, uid, m.sshKeys[i])
    case 7 => i < |m.cronJobs| && HangsOffUser(r, uid, CronJobs, m.cronJobs[i].id, m.cronJobs[i].settings)
    case 8 => i == 0 && m.egressPolicy.Some? && HangsOffUser(r, uid, EgressPolicies, uid, m.egressPolicy.value)
    case 9 =>
      && i < |m.egressRequests|
      && HangsOffUser(r, uid, EgressRequests, m.egressRequests[i].id, m.egressRequests[i].settings)
    case 10 => i == 0 && m.limits.Some? && HangsOffUser(r, uid, LimitOverrides, uid, m.limits.value)
    case _ => false
  }

  /** The parts of the log; the first is the user's. */
  function Part(part: nat, uid: string, m: Metadata, mint: (string, string) -> string, o: Oracle): Log {
    match part
    case 1 => Flat(m.pools, PoolTrials(uid, o))
    case 2 => Flat(m.domains, DomainTrials(uid, o))
    case 3 => Flat(m.databases, DatabaseTrials(uid))
    case 4 => Flat(m.databaseUsers, DatabaseUserTrials(uid, IdsByName(m.databases), mint, o))
    case 5 => Flat(m.apps, AppTrials(uid, RestoredIDs(uid, m.domains, o)))
    case 6 => Tries(Each(m.sshKeys, SshKeyRow(uid)))
    case 7 => Tries(Each(m.cronJobs, JobRow(CronJobs, uid)))
    case 8 => Tries(PerUserPlan(EgressPolicies, uid, m.egressPolicy))
    case 9 => Tries(Each(m.egressRequests, JobRow(EgressRequests, uid)))
    case 10 => Tries(PerUserPlan(LimitOverrides, uid, m.limits))
    case _ => []
  }

  lemma BeforeIn<E>(first: seq<E>, s: seq<E>, last: seq<E>, a: E, b: E)
    requires Before(s, a, b)
    ensures Before(first + s + last, a, b)
  {
    var i, j :| 0 <= i < j < |s| && s[i] == a && s[j] == b;
    var all := first + s + last;
    assert all[|first| + i] == a && all[|first| + j] == b;
  }

  lemma BeforeAcross<E>(s: seq<E>, t: seq<E>, a: E, b: E)
    requires a in s && b in t
    ensures Before(s + t, a, b)
  {
    var i :| 0 <= i < |s| && s[i] == a;
    var j :| 0 <= j < |t| && t[j] == b;
    assert (s + t)[i] == a && (s + t)[|s| + j] == b;
  }

  lemma {:induction false} FlatBefore<T, E>(xs: seq<T>, f: T -> seq<E>, i: nat, j: nat, a: E, b: E)
    requires i < j < |xs| && a in f(xs[i]) && b in f(xs[j])
    ensures Before(Flat(xs, f), a, b)
  {
    hide Before;
    var n := |xs| - 1;
    if j == n {
      FlatHas(xs[..n], f, i, a);
      BeforeAcross(Flat(xs[..n], f), f(xs[n]), a, b);
    } else {
      FlatBefore(xs[..n], f, i, j, a, b);
      BeforeIn([], Flat(xs[..n], f), f(xs[n]), a, b);
      assert [] + Flat(xs[..n], f) == Flat(xs[..n], f);
    }
  }

  lemma {:induction false} FlatInside<T, E>(xs: seq<T>, f: T -> seq<E>, i: nat, a: E, b: E)
    requires i < |xs| && Before(f(xs[i]), a, b)
    ensures Before(Flat(xs, f), a, b)
  {
    hide Before;
    var n := |xs| - 1;
    if i == n {
      BeforeIn(Flat(xs[..n], f), f(xs[n]), [], a, b);
      assert Flat(xs[..n], f) + f(xs[n]) + [] == Flat(xs, f);
    } else {
      FlatInside(xs[..n], f, i, a, b);
      BeforeIn([], Flat(xs[..n], f), f(xs[n]), a, b);
      assert [] + Flat(xs[..n], f) == Flat(xs[..n], f);
    }
  }

  lemma EachBefore<T>(xs: seq<T>, f: T -> Row, i: nat, j: nat)
    requires i < j < |xs|
    ensures Before(Tries(Each(xs, f)), Try(f(xs[i])), Try(f(xs[j])))
  {
    assert Tries(Each(xs, f))[i] == Try(f(xs[i])) && Tries(Each(xs, f))[j] == Try(f(xs[j]));
  }

  lemma ComesInPart(r: Row, part: nat, i: nat, uid: string, m: Metadata, mint: (string, string) -> string, o: Oracle)
    requires ComesWith(r, part, i, uid, m, mint, o)
    ensures 1 <= part <= 10 && Try(r) in Part(part, uid, m, mint, o)
  {
    hide OfPool, OfDomain, OfDatabase, OfDatabaseUser, OfApp, PoolTrials, DomainTrials, DatabaseTrials,
        DatabaseUserTrials, AppTrials, RestoredIDs, IdsByName, Flat, Tries;
    match part
    case 1 => PoolsTried(r, uid, m.pools, o);
    case 2 => DomainsTried(r, uid, m.domains, o);
    case 3 => DatabasesTried(r, uid, m.databases);
    case 4 => DatabaseUsersTried(r, uid, m.databases, mint, m.databaseUsers, o);
    case 5 => AppsTried(r, uid, m.domains, m.apps, o);
    case 6 => TriesHold(Each(m.sshKeys, SshKeyRow(uid)));
    case 7 => TriesHold(Each(m.cronJobs, JobRow(CronJobs, uid)));
    case 8 => TriesHold(PerUserPlan(EgressPolicies, uid, m.egressPolicy));
    case 9 => TriesHold(Each(m.egressRequests, JobRow(EgressRequests, uid)));
    case 10 => TriesHold(PerUserPlan(LimitOverrides, uid, m.limits));
    case _ =>
  }

  lemma ItemsInOrder(r: Row, s: Row, part: nat, i: nat, j: nat, uid: string, m: Metadata,
                     mint: (string, string) -> string, o: Oracle)
    requires ComesWith(r, part, i, uid, m, mint, o) && ComesWith(s, part, j, uid, m, mint, o) && i < j
    ensures Before(Part(part, uid, m, mint, o), Try(r), Try(s))
  {
    hide Before, OfPool, OfDomain, OfDatabaseUser, OfApp, PoolTrials, DomainTrials, DatabaseUserTrials, AppTrials,
        RestoredIDs, IdsByName, Flat, Tries, Each;
    match part
    case 1 =>
      PoolTried(r, uid, m.pools[i], o);
      PoolTried(s, uid, m.pools[j], o);
      FlatBefore(m.pools, PoolTrials(uid, o), i, j, Try(r), Try(s));
    case 2 =>
      DomainTried(r, uid, m.domains[i], o);
      DomainTried(s, uid, m.domains[j], o);
      FlatBefore(m.domains, DomainTrials(uid, o), i, j, Try(r), Try(s));
    case 3 =>
      DatabasesInOrder(r, s, uid, m.databases, i, j);
    case 4 =>
      DatabaseUserTried(r, uid, m.databases, mint, m.databaseUsers[i], o);
      DatabaseUserTried(s, uid, m.databases, mint, m.databaseUsers[j], o);
      FlatBefore(m.databaseUsers, DatabaseUserTrials(uid, IdsByName(m.databases), mint, o), i, j, Try(r), Try(s));
    case 5 =>
      AppTried(r, uid, m.domains, m.apps[i], o);
      AppTried(s, uid, m.domains, m.apps[j], o);
      FlatBefore(m.apps, AppTrials(uid, RestoredIDs(uid, m.domains, o)), i, j, Try(r), Try(s));
    case 6 => EachBefore(m.sshKeys, SshKeyRow(uid), i, j);
    case 7 => EachBefore(m.cronJobs, JobRow(CronJobs, uid), i, j);
    case 9 => EachBefore(m.egressRequests, JobRow(EgressRequests, uid), i, j);
    case _ =>
  }

  lemma DatabasesInOrder(r: Row, s: Row, uid: string, ds: seq<Database>, i: nat, j: nat)
    requires i < j < |ds| && OfDatabase(r, uid, ds[i]) && OfDatabase(s, uid, ds[j])
    ensures Before(Flat(ds, DatabaseTrials(uid)), Try(r), Try(s))
  {
    DatabaseNames(ds[i].name);
    DatabaseNames(ds[j].name);
    hide Before, Flat, ValidDatabaseName, IsDatabaseName;
    FlatBefore(ds, DatabaseTrials(uid), i, j, Try(r), Try(s));
  }

  function Same(l: Log): Log {
    l
  }

  function Parts(uid: string, m: Metadata, mint: (string, string) -> string, o: Oracle): seq<Log> {
    seq(10, i requires 0 <= i < 10 => Part(i + 1, uid, m, mint, o))
  }

  lemma FlatTen(ls: seq<Log>)
    requires |ls| == 10
    ensures Flat(ls, Same) == ls[0] + ls[1] + ls[2] + ls[3] + ls[4] + (ls[5] + ls[6] + ls[7] + ls[8] + ls[9])
  {
    FlatFive(ls);
    assert ls[..10] == ls;
    FlatStep(ls, 5, Same);
    FlatStep(ls, 6, Same);
    FlatStep(ls, 7, Same);
    FlatStep(ls, 8, Same);
    FlatStep(ls, 9, Same);
    hide Flat;
    var first := ls[0] + ls[1] + ls[2] + ls[3] + ls[4];
    assert first + ls[5] + ls[6] + ls[7] + ls[8] + ls[9] == first + (ls[5] + ls[6] + ls[7] + ls[8] + ls[9]);
  }

  lemma FlatFive(ls: seq<Log>)
    requires |ls| == 10
    ensures Flat(ls[..5], Same) == ls[0] + ls[1] + ls[2] + ls[3] + ls[4]
  {
    assert Flat(ls[..0], Same) == [];
    FlatStep(ls, 0, Same);
    FlatStep(ls, 1, Same);
    FlatStep(ls, 2, Same);
    FlatStep(ls, 3, Same);
    FlatStep(ls, 4, Same);
    hide Flat;
    assert [] + ls[0] == ls[0];
  }

  lemma LastParts(uid: string, m: Metadata, mint: (string, string) -> string, o: Oracle)
    ensures Tries(LastPlan(uid, m)) ==
      Part(6, uid, m, mint, o) + Part(7, uid, m, mint, o) + Part(8, uid, m, mint, o) + Part(9, uid, m, mint, o)
      + Part(10, uid, m, mint, o)
  {
    LastTries(uid, m);
    hide LastPlan, Tries, Each, PerUserPlan;
  }

  lemma PartsOfLog(uid: string, m: Metadata, mint: (string, string) -> string, o: Oracle)
    ensures MetaTrials(uid, m, mint, o) == Flat(Parts(uid, m, mint, o), Same)
  {
    var ls := Parts(uid, m, mint, o);
    LastParts(uid, m, mint, o);
    assert MetaTrials(uid, m, mint, o) ==
      Part(1, uid, m, mint, o) + Part(2, uid, m, mint, o) + Part(3, uid, m, mint, o) + Part(4, uid, m, mint, o)
      + Part(5, uid, m, mint, o) + Tries(LastPlan(uid, m)) by {
      hide PoolTrials, DomainTrials, DatabaseTrials, DatabaseUserTrials, AppTrials, RestoredIDs, IdsByName, LastPlan,
          Tries, Flat, Each, PerUserPlan;
    }
    hide Part, MetaTrials, LastPlan, Tries, Flat;
    FlatTen(ls);
  }

  lemma BundleInOrder(r: Row, s: Row, part: nat, i: nat, part': nat, j: nat, uid: string, m: Metadata,
                      mint: (string, string) -> string, o: Oracle)
    requires ComesWith(r, part, i, uid, m, mint, o) && ComesWith(s, part', j, uid, m, mint, o)
    requires part < part' || (part == part' && i < j)
    ensures Before(MetaTrials(uid, m, mint, o), Try(r), Try(s))
  {
    hide ComesWith, MetaTrials, Part, Before, Flat;
    var parts := Parts(uid, m, mint, o);
    PartsOfLog(uid, m, mint, o);
    ComesInPart(r, part, i, uid, m, mint, o);
    ComesInPart(s, part', j, uid, m, mint, o);
    if part < part' {
      FlatBefore(parts, Same, part - 1, part' - 1, Try(r), Try(s));
    } else {
      ItemsInOrder(r, s, part, i, j, uid, m, mint, o);
      FlatInside(parts, Same, part - 1, Try(r), Try(s));
    }
  }

  lemma InBundle(s: Row, part: nat, j: nat, uid: string, m: Metadata, mint: (string, string) -> string, o: Oracle)
    requires ComesWith(s, part, j, uid, m, mint, o)
    ensures Try(s) in MetaTrials(uid, m, mint, o)
  {
    hide ComesWith, MetaTrials, Part, Flat;
    var parts := Parts(uid, m, mint, o);
    PartsOfLog(uid, m, mint, o);
    ComesInPart(s, part, j, uid, m, mint, o);
    FlatHas(parts, Same, part - 1, Try(s));
  }

  /** The run tries the user's rows, then the parts of the bundle in that order,
      and the items of a part one after the other. */
  lemma TriedInOrder(r: Row, s: Row, part: nat, i: nat, part': nat, j: nat, a: Account, l: Option<Login>,
                     mint: (string, string) -> string, o: Oracle)
    requires a.meta.Some? && ComesWith(s, part', j, a.manifest.id, a.meta.value, mint, o)
    requires
      || (l.Some? && exists u, e :: IsProfile(a, u) && IsExported(a, e) && OfUser(r, u, e, l.value, o))
      || (&& ComesWith(r, part, i, a.manifest.id, a.meta.value, mint, o)
          && (part < part' || (part == part' && i < j)))
    ensures Before(RunLog(a, l, mint, o), Try(r), Try(s))
  {
    var uid, m := a.manifest.id, a.meta.value;
    var user := if l.Some? then Chain(UserPlan(a, l.value), o) else [Skip(NoKratosIdentity)];
    var rest := MetaTrials(uid, m, mint, o);
    assert RunLog(a, l, mint, o) == user + rest;
    assert user + rest + [] == user + rest;
    if l.Some? {
      UserTried(r, a, l.value, o);
    }
    hide RunLog, UserPlan, Chain, MetaTrials, OfUser, IsProfile, IsExported, Before, ComesWith;
    InBundle(s, part', j, uid, m, mint, o);
    if Try(r) in user {
      BeforeAcross(user, rest, Try(r), Try(s));
    } else {
      BundleInOrder(r, s, part, i, part', j, uid, m, mint, o);
      BeforeIn(user, rest, [], Try(r), Try(s));
    }
  }
}
