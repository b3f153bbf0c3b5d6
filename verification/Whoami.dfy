/** Client.Whoami over the session cache (internal/kratosclient/client.go): one
    call as the code runs it, and every interleaving of many calls, each cache
    operation being atomic under the cache's lock. */
module Whoami {
  import opened Text
  import opened SessionCache

  datatype Answered = Identified(identity: Identity) | Unauthenticated | RemoteError

  /** The remote endpoint's reply. */
  datatype Reply = Session(identity: Identity) | Refused | Failed

  class Client {
    const cache: Cache

    constructor (cache: Cache)
      ensures this.cache == cache
    {
      this.cache := cache;
    }

    /** `Whoami`: the cache is consulted at `asked`, and a remote reply, if one
        is needed, arrives by `replied`. */
    method Whoami(cookie: string, asked: int, reply: Reply, replied: int) returns (r: Answered)
      requires cache.Valid()
      modifies cache
      ensures cache.Valid()
      ensures var hit := Answer(old(cache.Contents()), cache.hash(cookie), asked);
        && (cookie == "" ==> r == Unauthenticated)
        && (cookie != "" && hit.Some? ==> r == Identified(hit.value))
        && (cookie != "" && hit == None ==>
          r == match reply { case Session(i) => Identified(i)
                             case Refused => Unauthenticated
                             case Failed => RemoteError })
      ensures cookie != "" && Answer(old(cache.Contents()), cache.hash(cookie), asked) == None && reply.Session? ==>
        cache.Contents() == SetItem(cache.maxSize, old(cache.Contents()),
                                    Item(cache.hash(cookie), reply.identity, replied + cache.ttl))
      ensures cookie == "" || Answer(old(cache.Contents()), cache.hash(cookie), asked).Some? || !reply.Session? ==>
        cache.Contents() == old(cache.Contents())
    {
      if cookie == "" {
        return Unauthenticated;
      }
      var hit := cache.Get(cookie, asked);
      if hit.Some? {
        return Identified(hit.value);
      }
      match reply {
        case Refused => return Unauthenticated;
        case Failed => return RemoteError;
        case Session(identity) =>
          cache.Set(cookie, identity, replied);
          return Identified(identity);
      }
    }
  }

  datatype Config = Config(maxSize: int, ttl: nat, hash: string -> string)

  /** A call in progress: waiting for the remote, or about to store its reply. */
  datatype Phase = Waiting(cookie: string) | Fetched(cookie: string, identity: Identity)

  /** A successful remote reply and, for `Store`, the moment it was cached. */
  datatype Fetch = Fetch(cookie: string, identity: Identity, at: int)

  datatype Store = Store(key: string, identity: Identity, at: int)

  datatype CacheHit = CacheHit(cookie: string, identity: Identity, at: int)

  datatype System = System(
    clock: int,
    items: seq<Item>,
    calls: map<nat, Phase>,
    fetches: seq<Fetch>,
    stores: seq<Store>,
    hits: seq<CacheHit>)

  /** What may happen next, in any order and on any call. */
  datatype Event =
    | Tick(by_: nat)
    | Begin(call: nat, cookie: string)
    | RemoteReply(call: nat, reply: Reply)
    | SetCache(call: nat)
    | ClearCache

  const START := System(0, [], map[], [], [], [])

  function Step(c: Config, s: System, e: Event): System {
    match e
    case Tick(n) => s.(clock := s.clock + n)
    case Begin(call, cookie) =>
      if cookie == "" || call in s.calls then s
      else
        (match Answer(s.items, c.hash(cookie), s.clock)
         case Some(identity) => s.(hits := s.hits + [CacheHit(cookie, identity, s.clock)])
         case None => s.(calls := s.calls[call := Waiting(cookie)]))
    case RemoteReply(call, reply) =>
      if call !in s.calls || !s.calls[call].Waiting? then s
      else
        var cookie := s.calls[call].cookie;
        (match reply
         case Session(identity) =>
           s.(calls := s.calls[call := Fetched(cookie, identity)],
              fetches := s.fetches + [Fetch(cookie, identity, s.clock)])
         case _ => s.(calls := s.calls - {call}))
    case SetCache(call) =>
      if call !in s.calls || !s.calls[call].Fetched? then s
      else
        var key, identity := c.hash(s.calls[call].cookie), s.calls[call].identity;
        s.(calls := s.calls - {call},
           items := SetItem(c.maxSize, s.items, Item(key, identity, s.clock + c.ttl)),
           stores := s.stores + [Store(key, identity, s.clock)])
    case ClearCache => s.(items := [])
  }

  function Run(c: Config, s: System, events: seq<Event>): System
    decreases |events|
  {
    if events == [] then s else Run(c, Step(c, s, events[0]), events[1..])
  }

  /** One call that nothing interrupts does to the cache what `Client.Whoami` does:
      an answer from the cache is logged and changes nothing, else a session is
      fetched and stored, and nothing else leaves a trace. */
  lemma CallAlone(c: Config, s: System, call: nat, cookie: string, reply: Reply, wait: nat)
    requires call !in s.calls
    ensures var key := c.hash(cookie);
      var hit := if cookie == "" then None else Answer(s.items, key, s.clock);
      var fetched := cookie != "" && hit == None && reply.Session?;
      var now := s.clock + wait;
      Run(c, s, [Begin(call, cookie), Tick(wait), RemoteReply(call, reply), SetCache(call)]) ==
        System(now,
               if fetched then SetItem(c.maxSize, s.items, Item(key, reply.identity, now + c.ttl)) else s.items,
               s.calls,
               s.fetches + (if fetched then [Fetch(cookie, reply.identity, now)] else []),
               s.stores + (if fetched then [Store(key, reply.identity, now)] else []),
               s.hits + (if hit.Some? then [CacheHit(cookie, hit.value, s.clock)] else []))
  {
    hide Answer, SetItem, Run;
    FourSteps(c, s, Begin(call, cookie), Tick(wait), RemoteReply(call, reply), SetCache(call));
    assert s.fetches + [] == s.fetches && s.stores + [] == s.stores && s.hits + [] == s.hits;
    if cookie != "" && Answer(s.items, c.hash(cookie), s.clock) == None {
      RepliesAlone(c, s.(clock := s.clock + wait), call, cookie, reply);
    }
  }

  lemma RepliesAlone(c: Config, s: System, call: nat, cookie: string, reply: Reply)
    requires call !in s.calls
    ensures var waiting := s.(calls := s.calls[call := Waiting(cookie)]);
      Step(c, Step(c, waiting, RemoteReply(call, reply)), SetCache(call)) ==
        if !reply.Session? then s
        else
          var key := c.hash(cookie);
          s.(items := SetItem(c.maxSize, s.items, Item(key, reply.identity, s.clock + c.ttl)),
             fetches := s.fetches + [Fetch(cookie, reply.identity, s.clock)],
             stores := s.stores + [Store(key, reply.identity, s.clock)])
  {
    hide SetItem;
    var waiting := s.calls[call := Waiting(cookie)];
    assert waiting - {call} == s.calls;
    assert reply.Session? ==> waiting[call := Fetched(cookie, reply.identity)] - {call} == s.calls;
  }

  lemma FourSteps(c: Config, s: System, e1: Event, e2: Event, e3: Event, e4: Event)
    ensures Run(c, s, [e1, e2, e3, e4]) == Step(c, Step(c, Step(c, Step(c, s, e1), e2), e3), e4)
  {
    hide Step;
    assert [e1, e2, e3, e4][1..] == [e2, e3, e4] && [e2, e3, e4][1..] == [e3, e4] && [e3, e4][1..] == [e4];
    var t := Step(c, Step(c, s, e1), e2);
    assert Run(c, t, [e3, e4]) == Run(c, Step(c, t, e3), [e4]);
    assert Run(c, Step(c, t, e3), [e4]) == Run(c, Step(c, Step(c, t, e3), e4), []);
  }

  /** A successful remote reply for a cookie of this hash, no later than `at`. */
  ghost predicate FetchedBy(c: Config, s: System, key: string, identity: Identity, at: int) {
    exists i :: 0 <= i < |s.fetches| && c.hash(s.fetches[i].cookie) == key
                && s.fetches[i].identity == identity && s.fetches[i].at <= at
  }

  ghost predicate StoredFor(s: System, key: string, identity: Identity, at: int) {
    exists i :: 0 <= i < |s.stores| && s.stores[i] == Store(key, identity, at)
  }

  /** A cache answer at `at`: stored at most `ttl` earlier, from a remote success. */
  ghost predicate Justified(c: Config, s: System, key: string, identity: Identity, at: int) {
    exists i :: 0 <= i < |s.stores| && s.stores[i].key == key && s.stores[i].identity == identity
                && s.stores[i].at <= at <= s.stores[i].at + c.ttl
                && FetchedBy(c, s, key, identity, s.stores[i].at)
  }

  ghost predicate Inv(c: Config, s: System) {
    && (forall item :: item in s.items ==> StoredFor(s, item.key, item.identity, item.expiresAt - c.ttl))
    && (forall i :: 0 <= i < |s.stores| ==>
         s.stores[i].at <= s.clock && FetchedBy(c, s, s.stores[i].key, s.stores[i].identity, s.stores[i].at))
    && (forall call :: call in s.calls && s.calls[call].Fetched? ==>
         FetchedBy(c, s, c.hash(s.calls[call].cookie), s.calls[call].identity, s.clock))
    && (forall i :: 0 <= i < |s.hits| ==>
         Justified(c, s, c.hash(s.hits[i].cookie), s.hits[i].identity, s.hits[i].at))
  }

  lemma {:induction false} FoundIn(items: seq<Item>, key: string)
    ensures Find(items, key).Some? ==> Find(items, key).value in items && Find(items, key).value.key == key
  {
    if items != [] {
      FoundIn(items[1..], key);
    }
  }

  lemma {:induction false} DropFrom(items: seq<Item>, key: string)
    ensures forall x :: x in Drop(items, key) ==> x in items
  {
    if items != [] {
      DropFrom(items[1..], key);
    }
  }

  /** Logs only grow, so what they justify stays justified. */
  lemma Grows(c: Config, s: System, t: System)
    requires s.fetches <= t.fetches && s.stores <= t.stores
    ensures forall k, i, at :: FetchedBy(c, s, k, i, at) ==> FetchedBy(c, t, k, i, at)
    ensures forall k, i, at, later: int :: FetchedBy(c, s, k, i, at) && at <= later ==> FetchedBy(c, t, k, i, later)
    ensures forall k, i, at :: StoredFor(s, k, i, at) ==> StoredFor(t, k, i, at)
    ensures forall k, i, at :: Justified(c, s, k, i, at) ==> Justified(c, t, k, i, at)
  {
    assert forall i :: 0 <= i < |s.fetches| ==> t.fetches[i] == s.fetches[i];
    assert forall i :: 0 <= i < |s.stores| ==> t.stores[i] == s.stores[i];
    forall k, i, at, later: int | FetchedBy(c, s, k, i, at) && at <= later
      ensures FetchedBy(c, t, k, i, later)
    {
      var n :| 0 <= n < |s.fetches| && c.hash(s.fetches[n].cookie) == k
               && s.fetches[n].identity == i && s.fetches[n].at <= at;
      assert t.fetches[n] == s.fetches[n];
    }
    forall k, i, at | Justified(c, s, k, i, at)
      ensures Justified(c, t, k, i, at)
    {
      var n :| 0 <= n < |s.stores| && s.stores[n].key == k && s.stores[n].identity == i
               && s.stores[n].at <= at <= s.stores[n].at + c.ttl && FetchedBy(c, s, k, i, s.stores[n].at);
      assert t.stores[n] == s.stores[n] && FetchedBy(c, t, k, i, t.stores[n].at);
    }
  }

  lemma HitIsJustified(c: Config, s: System, cookie: string)
    requires Inv(c, s) && Answer(s.items, c.hash(cookie), s.clock).Some?
    ensures Justified(c, s, c.hash(cookie), Answer(s.items, c.hash(cookie), s.clock).value, s.clock)
  {
    hide FetchedBy;
    var key := c.hash(cookie);
    FoundIn(s.items, key);
    var item := Find(s.items, key).value;
    assert StoredFor(s, item.key, item.identity, item.expiresAt - c.ttl);
    var i :| 0 <= i < |s.stores| && s.stores[i] == Store(item.key, item.identity, item.expiresAt - c.ttl);
    assert FetchedBy(c, s, s.stores[i].key, s.stores[i].identity, s.stores[i].at);
  }

  lemma StepKeepsInv(c: Config, s: System, e: Event)
    requires Inv(c, s)
    ensures Inv(c, Step(c, s, e))
  {
    hide FetchedBy, StoredFor, Justified, SetItem, Answer;
    var t := Step(c, s, e);
    Grows(c, s, t);
    match e
    case Tick(_) =>
    case Begin(call, cookie) =>
      if cookie != "" && call !in s.calls && Answer(s.items, c.hash(cookie), s.clock).Some? {
        HitIsJustified(c, s, cookie);
      }
    case RemoteReply(call, reply) =>
      if call in s.calls && s.calls[call].Waiting? && reply.Session? {
        FetchLogged(c, s, t, s.calls[call].cookie, reply.identity);
      }
    case SetCache(call) =>
      if call in s.calls && s.calls[call].Fetched? {
        StoreLogged(c, s, t, c.hash(s.calls[call].cookie), s.calls[call].identity);
      }
    case ClearCache =>
  }

  lemma FetchLogged(c: Config, s: System, t: System, cookie: string, identity: Identity)
    requires t.fetches == s.fetches + [Fetch(cookie, identity, s.clock)]
    ensures FetchedBy(c, t, c.hash(cookie), identity, s.clock)
  {
    assert t.fetches[|s.fetches|] == Fetch(cookie, identity, s.clock);
  }

  lemma StoreLogged(c: Config, s: System, t: System, key: string, identity: Identity)
    requires t.stores == s.stores + [Store(key, identity, s.clock)]
    requires t.items == SetItem(c.maxSize, s.items, Item(key, identity, s.clock + c.ttl))
    ensures StoredFor(t, key, identity, s.clock)
    ensures forall x :: x in t.items ==> x in s.items || x == Item(key, identity, s.clock + c.ttl)
  {
    assert t.stores[|s.stores|] == Store(key, identity, s.clock);
    DropFrom(s.items, key);
  }

  lemma {:induction false} RunKeepsInv(c: Config, s: System, events: seq<Event>)
    requires Inv(c, s)
    ensures Inv(c, Run(c, s, events))
    decreases |events|
  {
    hide Inv, Step;
    if events != [] {
      StepKeepsInv(c, s, events[0]);
      RunKeepsInv(c, Step(c, s, events[0]), events[1..]);
    }
  }

  /** In every interleaving, an identity answered from the cache was returned by a
      successful remote call for a cookie of the same hash and stored at most
      `ttl` before the answer. */
  lemma CacheAnswersAreJustified(c: Config, events: seq<Event>)
    ensures var s := Run(c, START, events);
      forall i :: 0 <= i < |s.hits| ==>
        Justified(c, s, c.hash(s.hits[i].cookie), s.hits[i].identity, s.hits[i].at)
  {
    RunKeepsInv(c, START, events);
  }

  /** Nothing but a successful reply is ever cached: every store, and every item
      in the cache, goes back to one. */
  lemma OnlySuccessesAreCached(c: Config, events: seq<Event>)
    ensures var s := Run(c, START, events);
      && (forall i :: 0 <= i < |s.stores| ==>
           FetchedBy(c, s, s.stores[i].key, s.stores[i].identity, s.stores[i].at))
      && (forall item :: item in s.items ==> FetchedBy(c, s, item.key, item.identity, item.expiresAt - c.ttl))
  {
    hide FetchedBy;
    RunKeepsInv(c, START, events);
    var s := Run(c, START, events);
    forall item | item in s.items
      ensures FetchedBy(c, s, item.key, item.identity, item.expiresAt - c.ttl)
    {
      assert StoredFor(s, item.key, item.identity, item.expiresAt - c.ttl);
      var i :| 0 <= i < |s.stores| && s.stores[i] == Store(item.key, item.identity, item.expiresAt - c.ttl);
    }
  }
}
