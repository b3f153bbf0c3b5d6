/** What a reconstruction brings back: of which rows one can be sure. */
module Restored {
  import opened PanelDb
  import opened Bundle
  import opened Convergence
  import opened Trials
  import opened TrialRows
  import opened Text

  ghost predicate Holds(db: Db, r: Row) {
    r.key in db && db[r.key] == r
  }

  /** No other row has a primary or unique key of `r`. */
  ghost predicate Unrivalled(rows: seq<Row>, r: Row) {
    forall s :: s in rows && s != r ==> s.key != r.key && s.uniques * r.uniques == {}
  }

  /** The database has no row with a primary or unique key of `r`. */
  ghost predicate Free(db: Db, r: Row) {
    r.key !in db && forall k :: k in db ==> db[k].uniques * r.uniques == {}
  }

  /** Once a row without rivals finds its parents it is there. */
  lemma InsertHolds(db: Db, rows: seq<Row>, before: seq<Row>, r: Row)
    requires Free(db, r) && Unrivalled(rows, r) && (forall s :: s in before ==> s in rows)
    requires r.refs <= Run(db, before).Keys
    ensures Holds(InsertIgnore(Run(db, before), r), r)
  {
    var now := Run(db, before);
    RunAdds(db, before);
    hide Run;
    if r.key !in now {
      forall k | k in now
        ensures now[k].uniques * r.uniques == {}
      {
        if k !in db {
          assert now[k] in rows && now[k] != r;
        }
      }
    } else {
      assert now[r.key] in rows;
    }
  }

  lemma HoldsLater(db: Db, rows: seq<Row>, i: nat, r: Row)
    requires i <= |rows| && Holds(Run(db, rows[..i]), r)
    ensures Holds(Run(db, rows), r)
  {
    PrefixExtends(db, rows, i, |rows|);
    assert rows[..|rows|] == rows;
    hide Run;
  }

  /** A row that is sent, whose parents are there before the run and which has no
      rival, neither in the database nor among the rows sent before it, is stored. */
  lemma FirstIsStored(db: Db, rows: seq<Row>, j: nat, r: Row)
    requires j < |rows| && rows[j] == r && Free(db, r) && Unrivalled(rows[..j], r) && r.refs <= db.Keys
    ensures Holds(Run(db, rows), r)
  {
    assert rows[..j] + [r] == rows[..j + 1];
    RunSnoc(db, rows[..j], r);
    RunAdds(db, rows[..j]);
    hide Run;
    InsertHolds(db, rows[..j], rows[..j], r);
    HoldsLater(db, rows, j + 1, r);
  }

  /** The rows bring along or find every parent, and no two are rivals. */
  ghost predicate Complete(db: Db, rows: seq<Row>) {
    && (forall r :: r in rows ==> Free(db, r) && Unrivalled(rows, r))
    && (forall r, k :: r in rows && k in r.refs ==> k in db || exists s :: s in rows && s.key == k)
  }

  lemma {:induction false} PrefixHolds(db: Db, rows: seq<Row>, i: nat)
    requires Ordered(rows) && NoLateParents(rows) && Complete(db, rows) && i <= |rows|
    ensures forall j :: 0 <= j < i && !Late(rows[j].key.table) ==> Holds(Run(db, rows[..i]), rows[j])
  {
    hide Run, Holds, Free, Unrivalled;
    if i > 0 {
      var r, before := rows[i - 1], rows[..i - 1];
      PrefixHolds(db, rows, i - 1);
      assert before + [r] == rows[..i];
      RunSnoc(db, before, r);
      forall j | 0 <= j < i - 1 && !Late(rows[j].key.table)
        ensures Holds(Run(db, rows[..i]), rows[j])
      {
        assert rows[..i][..i - 1] == before;
        HoldsLater(db, rows[..i], i - 1, rows[j]);
      }
      if !Late(r.key.table) {
        assert r in rows;
        ParentsThere(db, rows, i - 1);
        InsertHolds(db, rows, before, r);
      }
    }
  }

  /** Parents come first, so they are there. */
  lemma ParentsThere(db: Db, rows: seq<Row>, i: nat)
    requires Ordered(rows) && NoLateParents(rows) && Complete(db, rows) && i < |rows| && !Late(rows[i].key.table)
    requires forall j :: 0 <= j < i && !Late(rows[j].key.table) ==> Holds(Run(db, rows[..i]), rows[j])
    ensures rows[i].refs <= Run(db, rows[..i]).Keys
  {
    RunAdds(db, rows[..i]);
    hide Run, Free, Unrivalled;
    assert rows[i] in rows;
    forall k | k in rows[i].refs
      ensures k in Run(db, rows[..i])
    {
      if k !in db {
        var s :| s in rows && s.key == k;
        var q :| 0 <= q < |rows| && rows[q] == s;
        assert q < i;
      }
    }
  }

  /** The parents of every row are there after the first run. */
  lemma AllParentsThere(db: Db, rows: seq<Row>, r: Row)
    requires Ordered(rows) && NoLateParents(rows) && Complete(db, rows) && r in rows
    ensures r.refs <= Run(db, rows).Keys
  {
    PrefixHolds(db, rows, |rows|);
    assert rows[..|rows|] == rows;
    RunAdds(db, rows);
    hide Run, Free, Unrivalled;
    forall k | k in r.refs
      ensures k in Run(db, rows)
    {
      if k !in db {
        var s :| s in rows && s.key == k;
        var q :| 0 <= q < |rows| && rows[q] == s;
        assert !Late(s.key.table);
      }
    }
  }

  lemma InsertedAt(db: Db, rows: seq<Row>, all: seq<Row>, n: nat)
    requires n < |all| && Free(db, all[n]) && Unrivalled(rows, all[n])
    requires forall i :: 0 <= i < |all| ==> all[i] in rows
    requires all[n].refs <= Run(db, all[..n]).Keys
    ensures Holds(Run(db, all), all[n])
  {
    hide Run, Holds, Free, Unrivalled;
    assert all[..n] + [all[n]] == all[..n + 1];
    RunSnoc(db, all[..n], all[n]);
    InsertHolds(db, rows, all[..n], all[n]);
    HoldsLater(db, all, n + 1, all[n]);
  }

  /** Every row is there after a second run. */
  lemma LateHolds(db: Db, rows: seq<Row>, i: nat)
    requires Ordered(rows) && NoLateParents(rows) && Complete(db, rows) && i < |rows|
    ensures Holds(Run(Run(db, rows), rows), rows[i])
  {
    var all, n := rows + rows, |rows| + i;
    assert rows[i] in rows && all[n] == rows[i] && all[..|rows|] == rows;
    AllParentsThere(db, rows, rows[i]);
    hide Run, Holds, Free, Unrivalled, Ordered, NoLateParents;
    PrefixExtends(db, all, |rows|, n);
    InsertedAt(db, rows, all, n);
    RunAppend(db, rows, rows);
  }

  lemma RowsRestored(db: Db, rows: seq<Row>)
    requires Ordered(rows) && NoLateParents(rows) && Complete(db, rows)
    ensures forall r :: r in rows ==>
      && (!Late(r.key.table) ==> Holds(Run(db, rows), r))
      && Holds(Run(Run(db, rows), rows), r)
  {
    PrefixHolds(db, rows, |rows|);
    assert rows[..|rows|] == rows;
    hide *;
    forall r | r in rows
      ensures (!Late(r.key.table) ==> Holds(Run(db, rows), r)) && Holds(Run(Run(db, rows), rows), r)
    {
      var i :| 0 <= i < |rows| && rows[i] == r;
      LateHolds(db, rows, i);
    }
  }

  /** A bundle without rivals and with all parents is back after two runs in which
      nothing fails, and but for shares and forwarders after the first. */
  lemma TwoRunsRestore(db: Db, a: Account, l: Option<Login>, mint: (string, string) -> string)
    requires Distinct(a)
    requires forall r, s :: Tried(r, a, l, mint, Works()) && Tried(s, a, l, mint, Works()) && r != s ==>
      r.key != s.key && s.uniques * r.uniques == {}
    requires forall r :: Tried(r, a, l, mint, Works()) ==> Free(db, r)
    requires forall r, k :: Tried(r, a, l, mint, Works()) && k in r.refs ==>
      k in db || exists s :: Tried(s, a, l, mint, Works()) && s.key == k
    ensures var first := Run(db, Plan(a, l, mint));
      forall r :: Tried(r, a, l, mint, Works()) ==>
        && (!Late(r.key.table) ==> Holds(first, r))
        && Holds(Run(first, Plan(a, l, mint)), r)
  {
    hide *;
    forall r: Row
      ensures r in Plan(a, l, mint) <==> Tried(r, a, l, mint, Works())
    {
      PlannedExactly(r, a, l, mint);
    }
    PlanPart(a, l, mint);
    PlanComplete(db, Plan(a, l, mint), r => Tried(r, a, l, mint, Works()));
    RowsRestored(db, Plan(a, l, mint));
  }

  lemma PlanComplete(db: Db, rows: seq<Row>, tried: Row -> bool)
    requires forall r :: r in rows <==> tried(r)
    requires forall r, s :: tried(r) && tried(s) && r != s ==> r.key != s.key && s.uniques * r.uniques == {}
    requires forall r :: tried(r) ==> Free(db, r)
    requires forall r, k :: tried(r) && k in r.refs ==> k in db || exists s :: tried(s) && s.key == k
    ensures Complete(db, rows)
  {
    hide Free;
  }
}
