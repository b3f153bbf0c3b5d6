/** The session cache of internal/kratosclient/cache.go: a map and a list that
    must agree, under a capacity and a time to live. */
module SessionCache {
  import opened Text

  type Identity = string

  /** A cached answer; `key` is the hash of the cookie. */
  datatype Item = Item(key: string, identity: Identity, expiresAt: int)

  /** A list element holding an item; `elem` identifies the element. */
  datatype Node = Node(elem: nat, item: Item)

  predicate DistinctKeys(items: seq<Item>) {
    forall i, j :: 0 <= i < j < |items| ==> items[i].key != items[j].key
  }

  function Drop(items: seq<Item>, key: string): seq<Item> {
    if items == [] then []
    else (if items[0].key == key then [] else [items[0]]) + Drop(items[1..], key)
  }

  /** What `Set` does to the list of items, oldest first. */
  function SetItem(maxSize: int, items: seq<Item>, item: Item): seq<Item> {
    var kept := Drop(items, item.key);
    (if |kept| >= maxSize && kept != [] then kept[1..] else kept) + [item]
  }

  /** A state-changing operation; `Get` changes nothing. */
  datatype Op = Set(item: Item) | Clear

  /** The items after a history, oldest first. */
  function Bounded(maxSize: int, ops: seq<Op>): seq<Item> {
    if ops == [] then []
    else
      match ops[|ops| - 1]
      case Clear => []
      case Set(item) => SetItem(maxSize, Bounded(maxSize, ops[..|ops| - 1]), item)
  }

  function Find(items: seq<Item>, key: string): Option<Item> {
    if items == [] then None
    else if items[0].key == key then Some(items[0])
    else Find(items[1..], key)
  }

  /** What `Get` answers at time `now`. */
  function Answer(items: seq<Item>, key: string, now: int): Option<Identity> {
    match Find(items, key)
    case None => None
    case Some(item) => if now > item.expiresAt then None else Some(item.identity)
  }

  function Items(nodes: seq<Node>): (items: seq<Item>)
    ensures |items| == |nodes|
  {
    seq(|nodes|, i requires 0 <= i < |nodes| => nodes[i].item)
  }

  /** `list.Remove` of the element `elem`. */
  function RemoveElem(nodes: seq<Node>, elem: nat): seq<Node> {
    if nodes == [] then []
    else (if nodes[0].elem == elem then [] else [nodes[0]]) + RemoveElem(nodes[1..], elem)
  }

  /** The map and the list agree: the same nodes, one per key. */
  ghost predicate Agree(entries: map<string, Node>, lru: seq<Node>) {
    && (forall i :: 0 <= i < |lru| ==> lru[i].item.key in entries && entries[lru[i].item.key] == lru[i])
    && (forall k :: k in entries ==> entries[k].item.key == k && entries[k] in lru)
    && DistinctElems(lru)
  }

  class Cache {
    const maxSize: int
    const ttl: int
    const hash: string -> string
    var entries: map<string, Node>
    var lru: seq<Node>
    var nextElem: nat
    /** Every operation that changed the cache, oldest first. */
    ghost var history: seq<Op>

    ghost predicate Valid()
      reads this
    {
      && Contents() == Bounded(maxSize, history)
      && Agree(entries, lru) && forall n :: n in lru ==> n.elem < nextElem
    }

    ghost function Contents(): seq<Item>
      reads this
    {
      Items(lru)
    }

    /** `NewCache`. */
    constructor (maxSize: int, ttl: int, hash: string -> string)
      ensures Valid() && Contents() == [] && history == []
      ensures this.maxSize == maxSize && this.ttl == ttl && this.hash == hash
    {
      this.maxSize, this.ttl, this.hash := maxSize, ttl, hash;
      entries, lru, nextElem, history := map[], [], 0, [];
    }

    method Get(cookie: string, now: int) returns (r: Option<Identity>)
      requires Valid()
      ensures r == Answer(Contents(), hash(cookie), now)
      ensures forall i :: 0 <= i < |Contents()| && Contents()[i].key == hash(cookie) ==>
        r == if now <= Contents()[i].expiresAt then Some(Contents()[i].identity) else None
      ensures (forall i :: 0 <= i < |Contents()| ==> Contents()[i].key != hash(cookie)) ==> r == None
    {
      var key := hash(cookie);
      FindAgrees(entries, lru, key);
      KeyInList(entries, lru, key);
      hide Answer, Find, Bounded;
      if key !in entries {
        return None;
      }
      var entry := entries[key];
      if now > entry.item.expiresAt {
        return None;
      }
      return Some(entry.item.identity);
    }

    method Set(cookie: string, identity: Identity, now: int)
      requires Valid()
      modifies this
      ensures Valid() && DistinctKeys(Contents())
      ensures Contents() == SetItem(maxSize, old(Contents()), Item(hash(cookie), identity, now + ttl))
      ensures history == old(history) + [Op.Set(Item(hash(cookie), identity, now + ttl))]
    {
      hide Agree, RemoveElem, Drop, DistinctKeys, Bounded, Items, SetItem;
      var key := hash(cookie);
      RemoveAgrees(entries, lru, key);
      if key in entries {
        lru := RemoveElem(lru, entries[key].elem);
        entries := entries - {key};
      }
      ghost var kept := Items(lru);
      SameSize(entries, lru);
      if |entries| >= maxSize {
        if |lru| > 0 {
          EvictAgrees(entries, lru);
          entries := entries - {lru[0].item.key};
          lru := lru[1..];
        }
      }
      var entry := Node(nextElem, Item(key, identity, now + ttl));
      nextElem := nextElem + 1;
      SetItemIs(maxSize, old(Contents()), entry.item, kept);
      PushAgrees(entries, lru, entry);
      lru := lru + [entry];
      entries := entries[key := entry];
      BoundedAfterSet(maxSize, history, entry.item);
      history := history + [Op.Set(entry.item)];
    }

    method Clear()
      requires Valid()
      modifies this
      ensures Valid() && Contents() == [] && history == old(history) + [Op.Clear]
    {
      entries := map[];
      lru := [];
      history := history + [Op.Clear];
    }
  }

  lemma SetItemIs(maxSize: int, items: seq<Item>, item: Item, kept: seq<Item>)
    requires kept == Drop(items, item.key)
    ensures SetItem(maxSize, items, item) == (if |kept| >= maxSize && kept != [] then kept[1..] else kept) + [item]
  {
  }

  lemma BoundedAfterSet(maxSize: int, ops: seq<Op>, item: Item)
    ensures Bounded(maxSize, ops + [Op.Set(item)]) == SetItem(maxSize, Bounded(maxSize, ops), item)
  {
    assert (ops + [Op.Set(item)])[..|ops|] == ops;
  }

  lemma {:induction false} FindInList(lru: seq<Node>, key: string, i: nat)
    requires i < |lru| && lru[i].item.key == key
    requires forall j :: 0 <= j < i ==> lru[j].item.key != key
    ensures Find(Items(lru), key) == Some(lru[i].item)
  {
    assert Items(lru)[1..] == Items(lru[1..]);
    if i > 0 {
      FindInList(lru[1..], key, i - 1);
    }
  }

  lemma {:induction false} FindNothing(items: seq<Item>, key: string)
    requires forall i :: 0 <= i < |items| ==> items[i].key != key
    ensures Find(items, key) == None && Drop(items, key) == items
  {
    if items != [] {
      FindNothing(items[1..], key);
      assert [items[0]] + items[1..] == items;
    }
  }

  /** The list holds the item of a key, and no other item of it. */
  lemma KeyInList(entries: map<string, Node>, lru: seq<Node>, key: string)
    requires Agree(entries, lru)
    ensures key in entries <==> exists i :: 0 <= i < |lru| && Items(lru)[i].key == key
    ensures forall i :: 0 <= i < |lru| && Items(lru)[i].key == key ==> entries[key].item == Items(lru)[i]
  {
    if key in entries {
      var i :| 0 <= i < |lru| && lru[i] == entries[key];
      assert Items(lru)[i].key == key;
    }
  }

  lemma FindAgrees(entries: map<string, Node>, lru: seq<Node>, key: string)
    requires Agree(entries, lru)
    ensures Find(Items(lru), key) == if key in entries then Some(entries[key].item) else None
  {
    if key in entries {
      var i :| 0 <= i < |lru| && lru[i] == entries[key];
      FindInList(lru, key, i);
    } else {
      FindNothing(Items(lru), key);
    }
  }

  /** Removing the element of a key is dropping the key. */
  lemma {:induction false} RemoveIsDrop(lru: seq<Node>, elem: nat, key: string)
    requires forall n :: n in lru ==> (n.elem == elem <==> n.item.key == key)
    ensures Items(RemoveElem(lru, elem)) == Drop(Items(lru), key)
  {
    if lru != [] {
      RemoveIsDrop(lru[1..], elem, key);
      var rest := RemoveElem(lru[1..], elem);
      assert lru[0] in lru;
      ItemsCons(lru[0], lru[1..]);
      ItemsCons(lru[0], rest);
      hide Items;
      assert [lru[0]] + lru[1..] == lru && [] + rest == rest;
    }
  }

  lemma ItemsCons(n: Node, nodes: seq<Node>)
    ensures Items([n] + nodes) == [n.item] + Items(nodes)
  {
  }

  lemma {:induction false} RemoveMembers(lru: seq<Node>, elem: nat)
    ensures forall n :: n in RemoveElem(lru, elem) <==> n in lru && n.elem != elem
  {
    if lru != [] {
      RemoveMembers(lru[1..], elem);
      assert forall n :: n in lru <==> n == lru[0] || n in lru[1..];
    }
  }

  ghost predicate DistinctElems(lru: seq<Node>) {
    forall i, j :: 0 <= i < j < |lru| ==> lru[i].elem != lru[j].elem
  }

  lemma {:induction false} RemoveKeepsDistinct(lru: seq<Node>, elem: nat)
    requires DistinctElems(lru)
    ensures DistinctElems(RemoveElem(lru, elem))
    ensures forall n :: n in RemoveElem(lru, elem) ==> n in lru
  {
    if lru != [] {
      RemoveKeepsDistinct(lru[1..], elem);
      var rest := RemoveElem(lru[1..], elem);
      forall j | 0 <= j < |rest|
        ensures rest[j].elem != lru[0].elem
      {
        assert rest[j] in lru[1..];
      }
      assert RemoveElem(lru, elem) == (if lru[0].elem == elem then rest else [lru[0]] + rest);
    }
  }

  lemma RemoveAgrees(entries: map<string, Node>, lru: seq<Node>, key: string)
    requires Agree(entries, lru)
    ensures key in entries ==>
      var rest := RemoveElem(lru, entries[key].elem);
      Agree(entries - {key}, rest) && Items(rest) == Drop(Items(lru), key) && forall n :: n in rest ==> n in lru
    ensures key !in entries ==> Drop(Items(lru), key) == Items(lru)
  {
    if key in entries {
      var elem := entries[key].elem;
      var k :| 0 <= k < |lru| && lru[k] == entries[key];
      forall n | n in lru
        ensures n.elem == elem <==> n.item.key == key
      {
        var i :| 0 <= i < |lru| && lru[i] == n;
        if n.elem == elem {
          assert i == k;
        }
      }
      RemoveIsDrop(lru, elem, key);
      RemoveMembers(lru, elem);
      RemoveKeepsDistinct(lru, elem);
      var rest := RemoveElem(lru, elem);
      forall i | 0 <= i < |rest|
        ensures rest[i].item.key in entries - {key} && entries[rest[i].item.key] == rest[i]
      {
        assert rest[i] in lru;
      }
    } else {
      FindNothing(Items(lru), key);
    }
  }

  lemma EvictAgrees(entries: map<string, Node>, lru: seq<Node>)
    requires Agree(entries, lru) && lru != []
    ensures Agree(entries - {lru[0].item.key}, lru[1..])
    ensures Items(lru[1..]) == Items(lru)[1..]
  {
    forall k | k in entries && k != lru[0].item.key
      ensures entries[k] in lru[1..]
    {
      var i :| 0 <= i < |lru| && lru[i] == entries[k];
      assert lru[1..][i - 1] == entries[k];
    }
    OthersDiffer(entries, lru);
  }

  lemma OthersDiffer(entries: map<string, Node>, lru: seq<Node>)
    requires Agree(entries, lru) && lru != []
    ensures forall i :: 1 <= i < |lru| ==> lru[i].item.key != lru[0].item.key
  {
    forall i | 1 <= i < |lru|
      ensures lru[i].item.key != lru[0].item.key
    {
      assert lru[i].elem != lru[0].elem;
    }
  }

  lemma PushAgrees(entries: map<string, Node>, lru: seq<Node>, entry: Node)
    requires Agree(entries, lru) && entry.item.key !in entries
    requires forall n :: n in lru ==> n.elem != entry.elem
    ensures Agree(entries[entry.item.key := entry], lru + [entry])
    ensures Items(lru + [entry]) == Items(lru) + [entry.item]
    ensures DistinctKeys(Items(lru) + [entry.item])
  {
    forall i, j | 0 <= i < j < |lru|
      ensures lru[i].item.key != lru[j].item.key
    {
    }
  }

  /** The map and the list have the same size. */
  lemma {:induction false} SameSize(entries: map<string, Node>, lru: seq<Node>)
    requires Agree(entries, lru)
    ensures |entries| == |lru|
    decreases |lru|
  {
    if lru == [] {
      assert entries.Keys == {};
    } else {
      EvictAgrees(entries, lru);
      SameSize(entries - {lru[0].item.key}, lru[1..]);
      assert entries.Keys == (entries - {lru[0].item.key}).Keys + {lru[0].item.key};
      assert |entries.Keys| == |(entries - {lru[0].item.key}).Keys| + 1;
    }
  }
}
