/** Histories of the session cache: what a sequence of operations leaves in it. */
module CacheHistory {
  import opened SessionCache

  function Capacity(maxSize: int): nat {
    if maxSize < 1 then 1 else maxSize
  }

  /** A cache that never evicts. */
  function Unbounded(ops: seq<Op>): seq<Item> {
    if ops == [] then []
    else
      match ops[|ops| - 1]
      case Clear => []
      case Set(item) => Drop(Unbounded(ops[..|ops| - 1]), item.key) + [item]
  }

  /** Operation `i` is the last `Set` of its key since the last `Clear`. */
  predicate LastSet(ops: seq<Op>, i: nat): (last: bool)
    requires i < |ops|
    ensures last ==> ops[i].Set?
  {
    ops[i].Set? && forall j :: i < j < |ops| ==> ops[j].Set? && ops[j].item.key != ops[i].item.key
  }

  /** The items of the last sets, in the order they were made. */
  function LastSets(ops: seq<Op>, from: nat): seq<Item>
    requires from <= |ops|
    decreases |ops| - from
  {
    if from == |ops| then []
    else (if LastSet(ops, from) then [ops[from].item] else []) + LastSets(ops, from + 1)
  }

  function Newest(items: seq<Item>, n: nat): seq<Item> {
    if |items| <= n then items else items[|items| - n..]
  }

  lemma {:induction false} DropAppend(a: seq<Item>, b: seq<Item>, key: string)
    ensures Drop(a + b, key) == Drop(a, key) + Drop(b, key)
  {
    if a == [] {
      assert a + b == b;
    } else {
      assert (a + b)[1..] == a[1..] + b;
      DropAppend(a[1..], b, key);
    }
  }

  lemma {:induction false} DropOnce(items: seq<Item>, key: string, i: nat)
    requires DistinctKeys(items) && i < |items| && items[i].key == key
    ensures Drop(items, key) == items[..i] + items[i + 1..]
  {
    var a, b := items[..i], items[i + 1..];
    OthersKeys(items, key, i);
    FindNothing(a, key);
    FindNothing(b, key);
    DropAppend(a + [items[i]], b, key);
    DropAppend(a, [items[i]], key);
    assert Drop([items[i]], key) == [];
    hide Drop, DistinctKeys;
    assert items == a + [items[i]] + b;
    assert a + [] == a;
  }

  lemma OthersKeys(items: seq<Item>, key: string, i: nat)
    requires DistinctKeys(items) && i < |items| && items[i].key == key
    ensures forall it :: it in items[..i] || it in items[i + 1..] ==> it.key != key
  {
  }

  lemma {:induction false} DropDistinct(items: seq<Item>, item: Item)
    requires DistinctKeys(items)
    ensures DistinctKeys(Drop(items, item.key) + [item])
  {
    if i :| 0 <= i < |items| && items[i].key == item.key {
      DropOnce(items, item.key, i);
    } else {
      FindNothing(items, item.key);
    }
  }

  lemma {:induction false} UnboundedDistinct(ops: seq<Op>)
    ensures DistinctKeys(Unbounded(ops))
  {
    if ops != [] && ops[|ops| - 1].Set? {
      UnboundedDistinct(ops[..|ops| - 1]);
      DropDistinct(Unbounded(ops[..|ops| - 1]), ops[|ops| - 1].item);
    }
  }

  lemma NewestPair(items: seq<Item>, item: Item, n: nat)
    requires n >= 1
    ensures Newest(items + [item], n) == Newest(items, n - 1) + [item]
  {
  }

  /** Bounding commutes with setting: for the item kept aside, whatever the
      bounded list held of its key and whatever was evicted before. */
  lemma SetOnNewest(maxSize: int, items: seq<Item>, item: Item)
    requires DistinctKeys(items)
    ensures SetItem(maxSize, Newest(items, Capacity(maxSize)), item)
         == Newest(Drop(items, item.key) + [item], Capacity(maxSize))
  {
    var n := Capacity(maxSize);
    NewestPair(Drop(items, item.key), item, n);
    DropOnNewest(items, item.key, n);
  }

  lemma DropOnNewest(items: seq<Item>, key: string, n: nat)
    requires DistinctKeys(items) && n >= 1
    ensures var kept := Drop(Newest(items, n), key);
      Newest(Drop(items, key), n - 1) == (if |kept| >= n then kept[1..] else kept)
  {
    hide DistinctKeys, Drop;
    if i :| 0 <= i < |items| && items[i].key == key {
      if |items| <= n || |items| - n <= i {
        DropInside(items, key, n, i);
      } else {
        DropBefore(items, key, n, i);
      }
    } else {
      DropNowhere(items, key, n);
    }
  }

  lemma DropNowhere(items: seq<Item>, key: string, n: nat)
    requires n >= 1 && forall i :: 0 <= i < |items| ==> items[i].key != key
    ensures var kept := Drop(Newest(items, n), key);
      Newest(Drop(items, key), n - 1) == (if |kept| >= n then kept[1..] else kept)
  {
    FindNothing(items, key);
    FindNothing(Newest(items, n), key);
    hide Drop;
  }

  lemma DropInside(items: seq<Item>, key: string, n: nat, i: nat)
    requires DistinctKeys(items) && n >= 1 && i < |items| && items[i].key == key
    requires |items| <= n || |items| - n <= i
    ensures Drop(Newest(items, n), key) == Newest(Drop(items, key), n - 1)
    ensures |Drop(Newest(items, n), key)| < n
  {
    hide DistinctKeys, Drop;
    var newest := Newest(items, n);
    var start := |items| - |newest|;
    DropOnce(items, key, i);
    DistinctSuffix(items, start);
    DropOnce(newest, key, i - start);
    assert Drop(newest, key) == Drop(items, key)[start..];
  }

  lemma DropBefore(items: seq<Item>, key: string, n: nat, i: nat)
    requires DistinctKeys(items) && n >= 1 && i < |items| - n && items[i].key == key
    ensures Drop(Newest(items, n), key) == Newest(items, n)
    ensures Newest(items, n)[1..] == Newest(Drop(items, key), n - 1)
  {
    hide DistinctKeys, Drop;
    var newest := Newest(items, n);
    var start := |items| - n;
    DropOnce(items, key, i);
    NoOther(items, i);
    FindNothing(newest, key);
    assert newest[1..] == Drop(items, key)[start..];
  }

  lemma DistinctSuffix(items: seq<Item>, k: nat)
    requires DistinctKeys(items) && k <= |items|
    ensures DistinctKeys(items[k..])
  {
  }

  lemma NoOther(items: seq<Item>, i: nat)
    requires DistinctKeys(items) && i < |items|
    ensures forall j :: 0 <= j < |items| && j != i ==> items[j].key != items[i].key
  {
  }

  /** The bounded cache is the newest part of the unbounded one. */
  lemma {:induction false} BoundedIsNewest(maxSize: int, ops: seq<Op>)
    ensures Bounded(maxSize, ops) == Newest(Unbounded(ops), Capacity(maxSize))
    ensures |Bounded(maxSize, ops)| <= Capacity(maxSize) && DistinctKeys(Bounded(maxSize, ops))
  {
    UnboundedDistinct(ops);
    if ops != [] {
      var before := ops[..|ops| - 1];
      BoundedIsNewest(maxSize, before);
      if ops[|ops| - 1].Set? {
        UnboundedDistinct(before);
        SetOnNewest(maxSize, Unbounded(before), ops[|ops| - 1].item);
      }
    }
  }

  lemma LastSetOfMore(ops: seq<Op>, op: Op, i: nat)
    requires i < |ops|
    ensures LastSet(ops + [op], i) <==> LastSet(ops, i) && op.Set? && op.item.key != ops[i].item.key
  {
    var more := ops + [op];
    assert more[|ops|] == op && forall j :: 0 <= j < |ops| ==> more[j] == ops[j];
  }

  lemma {:induction false} LastSetsExtended(ops: seq<Op>, op: Op, from: nat)
    requires from <= |ops|
    ensures LastSets(ops + [op], from)
         == if op.Clear? then [] else Drop(LastSets(ops, from), op.item.key) + [op.item]
    decreases |ops| - from
  {
    hide LastSet;
    var more := ops + [op];
    if from == |ops| {
      assert LastSets(more, |more|) == [];
      assert LastSet(more, from) <==> op.Set? by {
        LastIsLast(ops, op);
      }
    } else {
      LastSetsExtended(ops, op, from + 1);
      LastSetOfMore(ops, op, from);
      var rest := LastSets(ops, from + 1);
      var head := if LastSet(ops, from) then [ops[from].item] else [];
      assert LastSets(ops, from) == head + rest;
      assert more[from] == ops[from];
      var head' := if LastSet(more, from) then [more[from].item] else [];
      assert LastSets(more, from) == head' + LastSets(more, from + 1);
      if op.Set? {
        DropAppend(head, rest, op.item.key);
        assert head' == Drop(head, op.item.key);
        assert head' + (Drop(rest, op.item.key) + [op.item]) == head' + Drop(rest, op.item.key) + [op.item];
      }
    }
  }

  lemma LastIsLast(ops: seq<Op>, op: Op)
    ensures LastSet(ops + [op], |ops|) <==> op.Set?
  {
  }

  /** The unbounded cache holds the last set of every key since the last clear,
      in the order of those sets. */
  lemma {:induction false} UnboundedIsLastSets(ops: seq<Op>)
    ensures Unbounded(ops) == LastSets(ops, 0)
  {
    if ops != [] {
      var before := ops[..|ops| - 1];
      UnboundedIsLastSets(before);
      LastSetsExtended(before, ops[|ops| - 1], 0);
      assert before + [ops[|ops| - 1]] == ops;
    }
  }

  /** After every history the cache holds the most recent distinct keys by last
      set, no more than its capacity. */
  lemma CacheHoldsMostRecent(maxSize: int, ops: seq<Op>)
    ensures Bounded(maxSize, ops) == Newest(LastSets(ops, 0), Capacity(maxSize))
  {
    BoundedIsNewest(maxSize, ops);
    UnboundedIsLastSets(ops);
  }

  predicate ByExpiry(items: seq<Item>) {
    forall i, j :: 0 <= i < j < |items| ==> items[i].expiresAt <= items[j].expiresAt
  }

  /** The clock never goes back between sets. */
  predicate ClockForward(ops: seq<Op>) {
    forall i, j :: 0 <= i < j < |ops| && ops[i].Set? && ops[j].Set? ==> ops[i].item.expiresAt <= ops[j].item.expiresAt
  }

  lemma {:induction false} LastSetsAreSets(ops: seq<Op>, from: nat)
    requires from <= |ops|
    ensures forall item :: item in LastSets(ops, from) ==> exists i :: from <= i < |ops| && ops[i] == Set(item)
    decreases |ops| - from
  {
    if from < |ops| {
      LastSetsAreSets(ops, from + 1);
    }
  }

  lemma {:induction false} LastSetsSorted(ops: seq<Op>, from: nat)
    requires from <= |ops| && ClockForward(ops)
    ensures ByExpiry(LastSets(ops, from))
    decreases |ops| - from
  {
    if from < |ops| {
      LastSetsSorted(ops, from + 1);
      if LastSet(ops, from) {
        EarlierExpiresFirst(ops, from);
        hide LastSet, ClockForward;
        SortedBehind(ops[from].item, LastSets(ops, from + 1));
      }
    }
  }

  lemma SortedBehind(first: Item, rest: seq<Item>)
    requires ByExpiry(rest) && forall item :: item in rest ==> first.expiresAt <= item.expiresAt
    ensures ByExpiry([first] + rest)
  {
  }

  lemma EarlierExpiresFirst(ops: seq<Op>, from: nat)
    requires from < |ops| && ops[from].Set? && ClockForward(ops)
    ensures forall item :: item in LastSets(ops, from + 1) ==> ops[from].item.expiresAt <= item.expiresAt
  {
    LastSetsAreSets(ops, from + 1);
    hide LastSets;
  }

  /** With a clock that never goes back, what a set evicts expires no later than
      anything it keeps. */
  lemma EvictsFirstToExpire(maxSize: int, ops: seq<Op>, item: Item)
    requires ClockForward(ops + [Set(item)])
    ensures ByExpiry(Bounded(maxSize, ops + [Set(item)]))
    ensures forall x, y ::
      && x in Bounded(maxSize, ops) && x !in Bounded(maxSize, ops + [Set(item)]) && x.key != item.key
      && y in Bounded(maxSize, ops + [Set(item)])
      ==> x.expiresAt <= y.expiresAt
  {
    var more := ops + [Set(item)];
    var before, now := Bounded(maxSize, ops), Bounded(maxSize, more);
    assert more[..|more| - 1] == ops && more[|ops|] == Set(item);
    SortedBounded(maxSize, more);
    ClockForwardPrefix(ops, Set(item));
    SortedBounded(maxSize, ops);
    BoundedIsNewest(maxSize, ops);
    assert now == SetItem(maxSize, before, item);
    ExpiresLast(ops, item);
    hide Bounded, SetItem, DistinctKeys, ByExpiry, ClockForward;
    forall x, y | x in before && x !in now && x.key != item.key && y in now
      ensures x.expiresAt <= y.expiresAt
    {
      Evicted(maxSize, before, item, x, y);
    }
  }

  lemma ExpiresLast(ops: seq<Op>, item: Item)
    requires ClockForward(ops + [Set(item)])
    ensures forall x :: (exists i :: 0 <= i < |ops| && ops[i] == Set(x)) ==> x.expiresAt <= item.expiresAt
  {
    var more := ops + [Set(item)];
    assert more[|ops|] == Set(item);
    forall x | exists i :: 0 <= i < |ops| && ops[i] == Set(x)
      ensures x.expiresAt <= item.expiresAt
    {
      var i :| 0 <= i < |ops| && ops[i] == Set(x);
      assert more[i] == Set(x);
    }
  }

  lemma ClockForwardPrefix(ops: seq<Op>, op: Op)
    requires ClockForward(ops + [op])
    ensures ClockForward(ops)
  {
    assert forall i :: 0 <= i < |ops| ==> (ops + [op])[i] == ops[i];
  }

  lemma SortedBounded(maxSize: int, ops: seq<Op>)
    requires ClockForward(ops)
    ensures ByExpiry(Bounded(maxSize, ops))
    ensures forall x :: x in Bounded(maxSize, ops) ==> exists i :: 0 <= i < |ops| && ops[i] == Set(x)
  {
    CacheHoldsMostRecent(maxSize, ops);
    LastSetsAreSets(ops, 0);
    LastSetsSorted(ops, 0);
    hide Bounded, LastSets, ClockForward;
  }

  lemma KeptByDrop(items: seq<Item>, key: string)
    requires DistinctKeys(items) && ByExpiry(items)
    ensures ByExpiry(Drop(items, key))
    ensures forall x :: x in items && x.key != key ==> x in Drop(items, key)
  {
    hide Drop;
    if k :| 0 <= k < |items| && items[k].key == key {
      DropOnce(items, key, k);
      var kept := Drop(items, key);
      forall x | x in items && x.key != key
        ensures x in kept
      {
        var i :| 0 <= i < |items| && items[i] == x;
        assert x == if i < k then kept[i] else kept[i - 1];
      }
    } else {
      FindNothing(items, key);
    }
  }

  lemma TailHolds(items: seq<Item>)
    ensures forall i :: 0 < i < |items| ==> items[i] in items[1..]
  {
    assert forall i :: 0 < i < |items| ==> items[i] == items[1..][i - 1];
  }

  lemma Evicted(maxSize: int, items: seq<Item>, item: Item, x: Item, y: Item)
    requires DistinctKeys(items) && ByExpiry(items)
    requires x in items && x !in SetItem(maxSize, items, item) && x.key != item.key
    requires y in SetItem(maxSize, items, item)
    ensures y == item || x.expiresAt <= y.expiresAt
  {
    hide Drop, DistinctKeys;
    var kept := Drop(items, item.key);
    KeptByDrop(items, item.key);
    var i :| 0 <= i < |kept| && kept[i] == x;
    TailHolds(kept);
    if y != item {
      assert y in kept[1..];
      var j :| 0 <= j < |kept[1..]| && kept[1..][j] == y;
    }
  }
}
