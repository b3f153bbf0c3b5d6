/** Rotation of a restic repository password (backup_repo_password_rotate.go).
    The repository is its set of keys; each restic command may fail, and a
    failed `key add` or `key remove` may still have taken effect. */
module ResticKeys {
  import opened Text

  type KeyId = string

  /** Keys by id, with the password each one opens with. */
  type Repo = map<KeyId, string>

  predicate OpensWith(repo: Repo, password: string) {
    exists id :: id in repo && repo[id] == password
  }

  /** A row of `restic key list`. */
  datatype Row = Row(id: KeyId, current: bool)

  function Ids(rows: seq<Row>): set<KeyId> {
    if rows == [] then {} else Ids(rows[..|rows| - 1]) + {rows[|rows| - 1].id}
  }

  lemma {:induction false} IdsHas(rows: seq<Row>, i: nat)
    requires i < |rows|
    ensures rows[i].id in Ids(rows)
  {
    if i < |rows| - 1 {
      IdsHas(rows[..|rows| - 1], i);
    }
  }

  lemma IdsMore(rows: seq<Row>, row: Row)
    ensures Ids(rows + [row]) == Ids(rows) + {row.id} && Ids([]) == {}
  {
    assert (rows + [row])[..|rows|] == rows;
  }

  lemma CurrentMore(rows: seq<Row>, row: Row)
    ensures (exists i :: 0 <= i < |rows + [row]| && (rows + [row])[i].current) <==>
      row.current || exists i :: 0 <= i < |rows| && rows[i].current
  {
    var more := rows + [row];
    assert more[|rows|] == row && forall i :: 0 <= i < |rows| ==> more[i] == rows[i];
  }

  lemma {:induction false} IdsWithin(rows: seq<Row>, ids: set<KeyId>)
    requires forall i :: 0 <= i < |rows| ==> rows[i].id in ids
    ensures Ids(rows) <= ids
  {
    if rows != [] {
      IdsWithin(rows[..|rows| - 1], ids);
    }
  }

  /** `rows` lists the keys of `repo`, opened with `password`: every key, a row
      marked current being a key of that password. */
  predicate IsListing(rows: seq<Row>, repo: Repo, password: string) {
    && Ids(rows) == repo.Keys
    && forall i :: 0 <= i < |rows| && rows[i].current ==> rows[i].id in repo && repo[rows[i].id] == password
  }

  datatype RotateError = InvalidArgument | OldPasswordRejected | AddFailed | NewPasswordRejected | NewKeyNotVisible

  datatype Rotation = Rotation(newKeyID: KeyId, oldKeyID: KeyId, oldRemoved: bool)

  /** The end of a command that changes the repository; a failed one may have
      taken effect. */
  datatype Outcome = Done | FailedBefore | FailedAfter

  /** How the four commands of a rotation end: whether the listings work, the key
      the first one is opened with and whether it shows that, and the id of the
      new key. */
  datatype Commands = Commands(
    lists: bool, opener: KeyId, shows: bool, add: Outcome, added: KeyId, listsAgain: bool, remove: Outcome)

  /** `keyIDSet`. */
  method KeyIDSet(keys: seq<Row>) returns (ids: set<KeyId>)
    ensures ids == Ids(keys)
  {
    ids := {};
    for i := 0 to |keys|
      invariant ids == Ids(keys[..i])
    {
      assert keys[..i + 1][..i] == keys[..i];
      ids := ids + {keys[i].id};
    }
    assert keys[..|keys|] == keys;
  }

  /** The first key of a listing that is not among `known`, "" without one. */
  method Unlisted(rows: seq<Row>, known: set<KeyId>) returns (id: KeyId)
    requires "" !in Ids(rows)
    ensures id == "" <==> Ids(rows) <= known
    ensures id != "" ==> id in Ids(rows) && id !in known
  {
    hide Ids;
    for i := 0 to |rows|
      invariant forall j :: 0 <= j < i ==> rows[j].id in known
    {
      IdsHas(rows, i);
      if rows[i].id !in known {
        return rows[i].id;
      }
    }
    IdsWithin(rows, known);
    return "";
  }

  /** The first key of a listing that is marked as current, "" without one. */
  method CurrentKey(rows: seq<Row>) returns (id: KeyId)
    requires forall i :: 0 <= i < |rows| && rows[i].current ==> rows[i].id != ""
    ensures id == "" <==> forall i :: 0 <= i < |rows| ==> !rows[i].current
    ensures id != "" ==> Row(id, true) in rows
  {
    for i := 0 to |rows|
      invariant forall j :: 0 <= j < i ==> !rows[j].current
    {
      if rows[i].current {
        assert rows[i] == Row(rows[i].id, true);
        return rows[i].id;
      }
    }
    return "";
  }

  class Repository {
    var keys: Repo
    /** Every repository state the agent could die on, oldest first. */
    ghost var trail: seq<Repo>

    constructor (keys: Repo)
      ensures this.keys == keys && trail == [keys]
    {
      this.keys := keys;
      trail := [keys];
    }

    ghost predicate Valid()
      reads this
    {
      && trail != [] && trail[|trail| - 1] == keys
      && "" !in keys
    }

    /** `restic key list`; `opener` is the key it opens the repository with, when
        that is one of the password. */
    method KeyList(password: string, works: bool, opener: KeyId, shows: bool) returns (rows: seq<Row>, ok: bool)
      ensures ok <==> works && OpensWith(keys, password)
      ensures ok ==> IsListing(rows, keys, password)
      ensures ok ==> (shows <==> exists i :: 0 <= i < |rows| && rows[i].current)
      ensures ok && shows && opener in keys && keys[opener] == password ==>
        forall i :: 0 <= i < |rows| && rows[i].current ==> rows[i].id == opener
    {
      rows, ok := [], false;
      if !works || !OpensWith(keys, password) {
        return;
      }
      var current := opener;
      if opener !in keys || keys[opener] != password {
        current :| current in keys && keys[current] == password;
      }
      hide OpensWith, Ids;
      var left := keys.Keys;
      while left != {}
        invariant left <= keys.Keys
        invariant Ids(rows) == keys.Keys - left
        invariant forall i :: 0 <= i < |rows| && rows[i].current ==> rows[i].id == current
        invariant shows && current !in left <==> exists i :: 0 <= i < |rows| && rows[i].current
        decreases left
      {
        var id :| id in left;
        var row := Row(id, shows && id == current);
        IdsMore(rows, row);
        CurrentMore(rows, row);
        rows := rows + [row];
        left := left - {id};
      }
      ok := true;
    }

    /** `restic key add` under `password`: a key with a fresh id. */
    method KeyAdd(password: string, newPassword: string, outcome: Outcome, id: KeyId) returns (ok: bool)
      requires Valid()
      modifies this
      ensures Valid()
      ensures var works := OpensWith(old(keys), password) && id != "" && id !in old(keys);
        && (ok <==> works && outcome.Done?)
        && if works && outcome != FailedBefore
           then keys == old(keys)[id := newPassword] && trail == old(trail) + [keys]
           else keys == old(keys) && trail == old(trail)
    {
      var works := OpensWith(keys, password) && id != "" && id !in keys;
      if works && outcome != FailedBefore {
        keys := keys[id := newPassword];
        trail := trail + [keys];
      }
      ok := works && outcome.Done?;
    }

    /** `restic key remove`. */
    method KeyRemove(password: string, id: KeyId, outcome: Outcome) returns (ok: bool)
      requires Valid()
      modifies this
      ensures Valid()
      ensures var works := OpensWith(old(keys), password) && id in old(keys);
        && (ok <==> works && outcome.Done?)
        && if works && outcome != FailedBefore then keys == old(keys) - {id} && trail == old(trail) + [keys]
           else keys == old(keys) && trail == old(trail)
    {
      var works := OpensWith(keys, password) && id in keys;
      if works && outcome != FailedBefore {
        keys := keys - {id};
        trail := trail + [keys];
      }
      ok := works && outcome.Done?;
    }

    /** `backupRepoPasswordRotateHandler`; `before` is its first listing.  At every
        point at most one old key is gone: one of the old password that was listed
        as current, with the new key in place. */
    method Rotate(oldPassword: string, newPassword: string, c: Commands)
      returns (r: Result<Rotation, RotateError>, ghost before: seq<Row>)
      requires Valid()
      modifies this
      ensures Valid() && old(trail) <= trail
      ensures r == Err(InvalidArgument) <==> oldPassword == "" || newPassword == "" || oldPassword == newPassword
      ensures r == Err(OldPasswordRejected) <==>
        && oldPassword != "" && newPassword != "" && oldPassword != newPassword
        && !(c.lists && OpensWith(old(keys), oldPassword))
      ensures r.Ok? <==>
        && oldPassword != "" && newPassword != "" && oldPassword != newPassword
        && c.lists && OpensWith(old(keys), oldPassword)
        && c.add.Done? && c.added != "" && c.added !in old(keys) && c.listsAgain
      ensures before == [] || IsListing(before, old(keys), oldPassword)
      ensures forall i :: |old(trail)| <= i < |trail| ==>
        && SafeRotation(old(keys), trail[i], oldPassword, newPassword)
        && forall id :: id in old(keys) && id !in trail[i] ==> Row(id, true) in before
      ensures SafeRotation(old(keys), keys, oldPassword, newPassword)
      ensures forall id :: id in old(keys) && id !in keys ==> Row(id, true) in before
      ensures r.Ok? ==>
        && r.value.newKeyID == c.added && c.added in keys && keys[c.added] == newPassword
        && (r.value.oldKeyID != "" <==> c.shows)
        && (r.value.oldRemoved <==> c.shows && c.remove.Done?)
      ensures r.Ok? && c.shows ==>
        && r.value.oldKeyID in old(keys) && old(keys)[r.value.oldKeyID] == oldPassword
        && (c.opener in old(keys) && old(keys)[c.opener] == oldPassword ==> r.value.oldKeyID == c.opener)
      ensures r.Ok? ==>
        var both := old(keys)[c.added := newPassword];
        keys == if c.shows && c.remove != FailedBefore then both - {r.value.oldKeyID} else both
      ensures r != Err(NewKeyNotVisible)
      ensures r.Err? ==> forall id :: id in old(keys) ==> id in keys && keys[id] == old(keys)[id]
    {
      hide SafeRotation, Ids, OpensWith;
      ghost var start := keys;
      before := [];
      Untouched(start, oldPassword, newPassword);
      if oldPassword == "" || newPassword == "" || oldPassword == newPassword {
        r := Err(InvalidArgument);
        return;
      }
      var beforeKeys, accepted := KeyList(oldPassword, c.lists, c.opener, c.shows);
      if !accepted {
        r := Err(OldPasswordRejected);
        return;
      }
      before := beforeKeys;
      var beforeIDs := KeyIDSet(beforeKeys);
      var added := KeyAdd(oldPassword, newPassword, c.add, c.added);
      ghost var both := keys;
      KeyAdded(start, both, oldPassword, newPassword);
      if !added {
        r := Err(AddFailed);
        return;
      }
      KeyOpens(keys, c.added);
      var afterKeys, opensNew := KeyList(newPassword, c.listsAgain, "", true);
      if !opensNew {
        r := Err(NewPasswordRejected);
        return;
      }
      var newKeyID := Unlisted(afterKeys, beforeIDs);
      if newKeyID == "" {
        r := Err(NewKeyNotVisible);
        return;
      }
      var oldKeyID := CurrentKey(beforeKeys);
      if oldKeyID == "" {
        r := Ok(Rotation(newKeyID, oldKeyID, false));
        return;
      }
      var removed := KeyRemove(newPassword, oldKeyID, c.remove);
      KeyRemoved(start, both, newKeyID, oldKeyID, oldPassword, newPassword);
      r := Ok(Rotation(newKeyID, oldKeyID, removed));
    }
  }

  /** A point of a rotation that began at `start`: nothing happened, a key for
      the new password was added, or it was added and one key for the old password
      removed. */
  predicate SafeRotation(start: Repo, now: Repo, oldPassword: string, newPassword: string) {
    now == start ||
    exists n :: n in now && n !in start &&
      (now == start[n := newPassword] ||
       exists o :: o in start && start[o] == oldPassword && now == start[n := newPassword] - {o})
  }

  lemma KeyOpens(repo: Repo, id: KeyId)
    requires id in repo
    ensures OpensWith(repo, repo[id])
  {
  }

  lemma Untouched(start: Repo, oldPassword: string, newPassword: string)
    ensures SafeRotation(start, start, oldPassword, newPassword)
  {
  }

  lemma KeyAdded(start: Repo, now: Repo, oldPassword: string, newPassword: string)
    ensures now == start ==> SafeRotation(start, now, oldPassword, newPassword)
    ensures (exists id :: id !in start && id in now && now == start[id := newPassword]) ==>
      SafeRotation(start, now, oldPassword, newPassword)
  {
  }

  lemma KeyRemoved(start: Repo, both: Repo, newKey: KeyId, oldKey: KeyId, oldPassword: string, newPassword: string)
    requires newKey !in start && oldKey in start && start[oldKey] == oldPassword && both == start[newKey := newPassword]
    ensures SafeRotation(start, both - {oldKey}, oldPassword, newPassword)
  {
    assert newKey in both - {oldKey};
  }

  /** What a safe point bounds: every key still there opens as before, a new one
      opens with the new password, and at most one is gone, one of the old
      password, never without a new one. */
  lemma AtMostOneGone(start: Repo, now: Repo, oldPassword: string, newPassword: string)
    requires SafeRotation(start, now, oldPassword, newPassword)
    ensures forall id :: id in now ==> now[id] == if id in start then start[id] else newPassword
    ensures forall i, j :: i in start && j in start && i !in now && j !in now ==> i == j
    ensures forall i :: i in start && i !in now ==> start[i] == oldPassword && exists n :: n in now && n !in start
    ensures forall m, n :: m in now && n in now && m !in start && n !in start ==> m == n
  {
    if now != start {
      var n :| n in now && n !in start && (now == start[n := newPassword] ||
        exists o :: o in start && start[o] == oldPassword && now == start[n := newPassword] - {o});
    }
  }

  /** Whatever fails and wherever the agent dies, a repository that the old
      password opened still opens with the old or the new one, and every other
      password that opened it still does. */
  lemma AlwaysOpens(start: Repo, now: Repo, oldPassword: string, newPassword: string)
    requires SafeRotation(start, now, oldPassword, newPassword)
    ensures OpensWith(start, oldPassword) ==> OpensWith(now, oldPassword) || OpensWith(now, newPassword)
    ensures forall p :: OpensWith(start, p) && p != oldPassword ==> OpensWith(now, p)
  {
    AtMostOneGone(start, now, oldPassword, newPassword);
    hide SafeRotation;
    forall p | OpensWith(start, p)
      ensures OpensWith(now, p) || (p == oldPassword && OpensWith(now, newPassword))
    {
      var id :| id in start && start[id] == p;
      if id in now {
        assert now[id] == p;
      } else {
        var n :| n in now && n !in start;
        assert now[n] == newPassword;
      }
    }
  }

  /** Each state of `states` follows from the one before by a rotation that may
      have stopped anywhere. */
  predicate IsChain(states: seq<Repo>, olds: seq<string>, news: seq<string>) {
    && |states| == |olds| + 1 == |news| + 1
    && forall i :: 0 <= i < |olds| ==> SafeRotation(states[i], states[i + 1], olds[i], news[i])
  }

  /** Rotating again and again keeps the repository usable: a password that no
      rotation replaced keeps opening it, and one that was replaced leaves a new
      one behind that does. */
  lemma {:induction false} ChainOpens(states: seq<Repo>, olds: seq<string>, news: seq<string>, p: string)
    requires IsChain(states, olds, news) && OpensWith(states[0], p)
    ensures p !in olds ==> OpensWith(states[|states| - 1], p)
    ensures var last := states[|states| - 1];
      OpensWith(last, p) || exists i :: 0 <= i < |news| && OpensWith(last, news[i])
  {
    hide OpensWith, SafeRotation;
    var n := |olds|;
    if n > 0 {
      ChainOpens(states[..n], olds[..n - 1], news[..n - 1], p);
      assert olds == olds[..n - 1] + [olds[n - 1]] && states[..n][n - 1] == states[n - 1];
      AlwaysOpens(states[n - 1], states[n], olds[n - 1], news[n - 1]);
      assert SafeRotation(states[n - 1], states[n - 1 + 1], olds[n - 1], news[n - 1]);
    }
  }
}
