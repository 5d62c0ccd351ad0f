/** The menu code as written, command by command, while every other caller
    keeps running: GetEffectiveMenu, Set, Invalidate and Broadcast. */
module MenuService {
  import opened MenuCache
  import opened Units
  import opened MenuFreshness
  import opened Replies
  import opened Ids
  import Sse

  /** The call a step belongs to, if any. */
  predicate Belongs(a: Step, p: nat) {
    !a.Advance? && a.p == p
  }

  predicate Foreign(run: seq<Step>, p: nat) {
    forall a :: a in run ==> !Belongs(a, p)
  }

  lemma {:induction false} ForeignRun(s: State, run: seq<Step>, p: nat)
    requires Legal(s, run) && Foreign(run, p)
    ensures var s' := Exec(s, run);
            && (p in s'.fetches <==> p in s.fetches) && (p in s.fetches ==> s'.fetches[p] == s.fetches[p])
            && (p in s'.invals <==> p in s.invals) && (p in s.invals ==> s'.invals[p] == s.invals[p])
    decreases |run|
  {
    if run != [] {
      assert run[0] in run;
      ForeignStep(s, run[0], p);
      ForeignRun(Apply(s, run[0]), run[1..], p);
    }
  }

  lemma ForeignStep(s: State, a: Step, p: nat)
    requires Enabled(s, a) && !Belongs(a, p)
    ensures var s' := Apply(s, a);
            && (p in s'.fetches <==> p in s.fetches) && (p in s.fetches ==> s'.fetches[p] == s.fetches[p])
            && (p in s'.invals <==> p in s.invals) && (p in s.invals ==> s'.invals[p] == s.invals[p])
  {
  }

  /** An order in which SCAN can return a set of keys. */
  lemma SomeOrder(keys: set<string>) returns (order: seq<string>)
    ensures (set k | k in order) == keys
  {
    order := [];
    var rest := keys;
    while rest != {}
      invariant rest <= keys && (set k | k in order) == keys - rest
    {
      var k :| k in rest;
      assert (set k' | k' in order + [k]) == (set k' | k' in order) + {k};
      order, rest := order + [k], rest - {k};
    }
  }

  lemma DistinctAtMostLength(order: seq<string>)
    ensures |set k | k in order| <= |order|
  {
    if order != [] {
      var rest := order[1..];
      DistinctAtMostLength(rest);
      assert (set k | k in order) == {order[0]} + set k | k in rest;
    }
  }

  // What GetEffectiveMenu returns: whose menu, and which CRM reading of it.
  datatype Result = Menu(rest: string, readAt: int) | NotFound | Failed

  // How CRM answers: with a menu and its valid_until, that there is none, or not at all.
  datatype CrmAnswer = Sends(validUntil: int) | HasNone | Fails

  // Whether Redis answers the cache lookup and the MGET of a fetch, and its SET.
  datatype CacheFates = CacheFates(lookup: bool, marks: bool, write: Reply)

  /** Redis and the clock, shared by every replica, and all calls in flight. */
  class Cluster {
    var s: State
    ghost var run: seq<Step>

    ghost predicate Valid() reads this {
      LeadsTo(run, s)
    }

    constructor ()
      ensures Valid() && run == []
    {
      s, run := INIT, [];
    }

    /** One command of ours. */
    method Step(a: Step)
      requires Valid() && Enabled(s, a)
      modifies this
      ensures Valid() && s == Apply(old(s), a) && old(run) <= run && old(s.now) <= s.now
    {
      Extend(run, s, a);
      KeepsStep(s, a, 0);
      s, run := Apply(s, a), run + [a];
    }

    /** Anything the others may do between two commands of call `p`. */
    method Interfere(p: nat)
      requires Valid()
      modifies this
      ensures Valid() && old(run) <= run && old(s.now) <= s.now
      ensures (p in s.fetches <==> p in old(s).fetches) && (p in s.fetches ==> s.fetches[p] == old(s).fetches[p])
      ensures (p in s.invals <==> p in old(s).invals) && (p in s.invals ==> s.invals[p] == old(s).invals[p])
    {
      assert Legal(s, []) && Foreign([], p);
      var more: seq<Step> :| Legal(s, more) && Foreign(more, p);
      RunSplits(INIT, run, more);
      ForeignRun(s, more, p);
      KeepsRun(s, more, p);
      s, run := Exec(s, more), run + more;
    }
  }

  lemma UnionAtMostSum(a: set<string>, b: set<string>)
    ensures |a + b| <= |a| + |b|
  {
  }

  function Doomed(i: Inval): set<string> {
    if i.rest != "" then {i.rest} else i.pending
  }

  /** What a DEL does to its call's own record. */
  lemma DropRecord(s: State, p: nat, i: Inval)
    ensures var i' := DropMenus(s, p, i, Doomed(i)).invals[p];
            && i'.rest == i.rest && i'.value == i.value
            && i'.phase == (if i.rest != "" || i.last then Done else Scanning)
            && |i'.cleared.Keys| <= |i.cleared.Keys| + |Doomed(i)|
  {
    ClearedKeys(i.cleared, Doomed(i), s.tick);
    UnionAtMostSum(i.cleared.Keys, Doomed(i));
  }

  lemma ClearedKeys(cleared: map<string, nat>, keys: set<string>, tick: nat)
    ensures (cleared + map k | k in keys :: tick).Keys == cleared.Keys + keys
  {
  }

  /** The DEL of call `p`. */
  method Drop(c: Cluster, p: nat)
    requires c.Valid() && p in c.s.invals
    requires c.s.invals[p].phase == if c.s.invals[p].rest != "" then Marked else Listed
    modifies c
    ensures c.Valid() && old(c.run) <= c.run && old(c.s.now) <= c.s.now && p in c.s.invals
    ensures var i, i' := old(c.s.invals[p]), c.s.invals[p];
            && i'.rest == i.rest && i'.value == i.value
            && i'.phase == (if i.rest != "" || i.last then Done else Scanning)
            && |i'.cleared.Keys| <= |i.cleared.Keys| + |Doomed(i)|
  {
    var i := c.s.invals[p];
    DropRecord(c.s, p, i);
    c.Step(if i.rest != "" then Delete(p) else DeleteKeys(p));
  }

  /** What Set leaves of a fetch's record as it was. */
  predicate SameFetch(f: Fetch, f': Fetch) {
    && f'.rest == f.rest && f'.fetchedAt == f.fetchedAt && f'.readAt == f.readAt
    && f'.validUntil == f.validUntil && f'.ttl == f.ttl && f'.ttlAt == f.ttlAt
  }

  /** The restaurant's cached menu is the one of this fetch, as of now. */
  predicate StoredNow(s: State, f: Fetch) {
    f.rest in s.menus &&
    var m := s.menus[f.rest];
    m.origin.fetchedAt == f.fetchedAt && m.origin.readAt == f.readAt && m.writtenAt == s.now && m.expiresAt == s.now + Min(f.ttl, HOUR)
  }

  /** menu_cache_repo.go Set, from the TTL check on: the menu is stored exactly when it
      has time left, the marks let it pass when they are read, and its SET takes
      effect; `ok` is false exactly when a Redis command that was sent failed. */
  method Set(c: Cluster, p: nat, marks: bool, write: Reply) returns (stored: bool, ok: bool)
    requires c.Valid() && p in c.s.fetches && c.s.fetches[p].phase in {Timed, Ended}
    modifies c
    ensures c.Valid() && old(c.run) <= c.run && old(c.s.now) <= c.s.now
    ensures p in c.s.fetches && SameFetch(old(c.s.fetches[p]), c.s.fetches[p])
    ensures var f := old(c.s.fetches[p]);
            var passes := f.phase == Timed && marks && GuardPasses(old(c.s), f);
            && stored == (passes && write.Heard?) && ok == (f.phase == Ended || (marks && (passes ==> write.Heard?)))
            && (passes && TookEffect(write) ==> StoredNow(c.s, f))
            && (ok ==> c.s.fetches[p].phase == Ended)
            && (f.phase == Ended ==> c.s == old(c.s))
  {
    if c.s.fetches[p].phase == Ended { return false, true; }
    if !marks { return false, false; }
    c.Step(Guard(p));
    c.Interfere(p);
    if c.s.fetches[p].phase == Ended { return false, true; }
    if TookEffect(write) { c.Step(Write(p)); }
    return write.Heard?, write.Heard?;
  }

  /** The call asked CRM for this restaurant and read its menu at `readAt`. */
  predicate Fetched(s: State, p: nat, rest: string, readAt: int, validUntil: int) {
    p in s.fetches && s.fetches[p].rest == rest && s.fetches[p].readAt == readAt && s.fetches[p].validUntil == validUntil
  }

  /** menu_service.go GetEffectiveMenu. A hit is served as it is cached; on a miss, or
      if the lookup fails, CRM is asked for this restaurant's menu, which is served
      whether or not it can be cached. If what is served is older than a finished
      invalidation, the cache entry is one of the three exceptions. */
  method GetEffectiveMenu(c: Cluster, p: nat, rest: string, crm: CrmAnswer, fates: CacheFates) returns (r: Result)
    requires c.Valid() && p !in c.s.fetches && p !in c.s.invals
    modifies c
    ensures c.Valid() && old(c.run) <= c.run && old(c.s.now) <= c.s.now
    ensures r.Menu? ==> r.rest == rest
    ensures fates.lookup && IsCached(old(c.s), rest) ==>
      r.Menu? && r.readAt == old(c.s).menus[rest].origin.readAt && c.s == old(c.s)
    ensures !(fates.lookup && IsCached(old(c.s), rest)) ==>
      match crm
      case Sends(until) =>
        && r.Menu? && old(c.s.now) <= r.readAt && Fetched(c.s, p, rest, r.readAt, until)
        && (fates.marks && fates.write.Heard? ==> c.s.fetches[p].phase == Ended)
      case HasNone => r == NotFound
      case Fails => r == Failed
    ensures r.Menu? ==>
      var s := old(c.s);
      forall q :: FinishedFor(s, q, rest) && r.readAt < s.invals[q].value ==>
        IsCached(s, rest) &&
        (var i, m := s.invals[q], s.menus[rest]; LostRace(i, m, rest) || MovedBack(s, i, m) || Slow(m))
  {
    InitInv();
    InvRun(INIT, c.run);
    if fates.lookup && IsCached(c.s, rest) {
      HitIsFresh(c.run, c.s, rest);
      var m := c.s.menus[rest];
      return Menu(m.origin.rest, m.origin.readAt);
    }
    ghost var s0 := c.s;
    forall q | FinishedFor(s0, q, rest) ensures s0.invals[q].value <= s0.now {
      assert InvalInv(s0, s0.invals[q]);
    }
    r := FetchAndCache(c, p, rest, crm, fates);
  }

  lemma HitIsFresh(run: seq<Step>, s: State, rest: string)
    requires LeadsTo(run, s) && IsCached(s, rest)
    ensures s.menus[rest].origin.rest == rest
    ensures forall q :: FinishedFor(s, q, rest) && s.menus[rest].origin.readAt < s.invals[q].value ==>
      var i, m := s.invals[q], s.menus[rest]; LostRace(i, m, rest) || MovedBack(s, i, m) || Slow(m)
  {
    InitInv();
    InvRun(INIT, run);
    assert CachedInv(s, rest, s.menus[rest]);
    forall q | FinishedFor(s, q, rest) && s.menus[rest].origin.readAt < s.invals[q].value
      ensures var i, m := s.invals[q], s.menus[rest]; LostRace(i, m, rest) || MovedBack(s, i, m) || Slow(m)
    {
      StaleOnlyIf(run, q, rest);
    }
  }

  /** The cache-miss path of GetEffectiveMenu. */
  method FetchAndCache(c: Cluster, p: nat, rest: string, crm: CrmAnswer, fates: CacheFates) returns (r: Result)
    requires c.Valid() && p !in c.s.fetches && p !in c.s.invals
    modifies c
    ensures c.Valid() && old(c.run) <= c.run && old(c.s.now) <= c.s.now
    ensures r.Menu? ==> r.rest == rest
    ensures match crm
            case Sends(until) =>
              && r.Menu? && old(c.s.now) <= r.readAt && Fetched(c.s, p, rest, r.readAt, until)
              && (fates.marks && fates.write.Heard? ==> c.s.fetches[p].phase == Ended)
            case HasNone => r == NotFound
            case Fails => r == Failed
  {
    c.Interfere(p);
    c.Step(BeginFetch(p, rest));
    c.Interfere(p);
    if crm.HasNone? { return NotFound; }
    if crm.Fails? { return Failed; }
    c.Step(ReadCrm(p, crm.validUntil));
    var menu := Menu(c.s.fetches[p].rest, c.s.fetches[p].readAt);
    c.Interfere(p);
    c.Step(ComputeTtl(p));
    c.Interfere(p);
    var _, _ := Set(c, p, fates.marks, fates.write);
    return menu;
  }

  /** The call's own record: what it invalidates, and the clock value of its mark. */
  predicate Invalidates(s: State, p: nat, rest: string, value: int) {
    p in s.invals && s.invals[p].rest == rest && s.invals[p].value == value
  }

  /** menu_cache_repo.go Invalidate, with its SCAN loop. `works` says whether every
      Redis command gets through; if not, the call fails at one of them. How many
      calls a scan takes and what each returns is Redis's choice, within its promise. */
  method Invalidate(c: Cluster, p: nat, rest: string, works: bool) returns (ok: bool, total: nat)
    requires c.Valid() && p !in c.s.fetches && p !in c.s.invals
    modifies c
    ensures c.Valid() && old(c.run) <= c.run && old(c.s.now) <= c.s.now
    ensures ok == works && Invalidates(c.s, p, rest, old(c.s.now))
    ensures ok ==> c.s.invals[p].phase == Done && |c.s.invals[p].cleared.Keys| <= total && (rest != "" ==> total == 1)
  {
    total := 0;
    c.Step(ReadClock(p, rest));
    c.Interfere(p);
    var here: bool := *;
    if !works && here { return false, 0; }
    c.Step(WriteMark(p));
    c.Interfere(p);
    if rest != "" {
      here := *;
      if !works && here { return false, 1; }
      Drop(c, p);
      return works, 1;
    }
    ok, total := ClearAll(c, p, works);
  }

  /** The SCAN loop: how many calls it takes is Redis's choice. */
  method ClearAll(c: Cluster, p: nat, works: bool) returns (ok: bool, total: nat)
    requires c.Valid() && p in c.s.invals && c.s.invals[p].rest == "" && c.s.invals[p].phase == Marked
    requires c.s.invals[p].cleared == map[]
    modifies c
    ensures c.Valid() && old(c.run) <= c.run && old(c.s.now) <= c.s.now
    ensures ok == works && Invalidates(c.s, p, "", old(c.s.invals[p]).value)
    ensures ok ==> c.s.invals[p].phase == Done && |c.s.invals[p].cleared.Keys| <= total
  {
    total := 0;
    ghost var value := c.s.invals[p].value;
    var left: nat := *;
    while true
      invariant c.Valid() && old(c.run) <= c.run && old(c.s.now) <= c.s.now
      invariant Invalidates(c.s, p, "", value) && c.s.invals[p].phase in {Marked, Scanning}
      invariant |c.s.invals[p].cleared.Keys| <= total
      decreases left
    {
      var last := left == 0;
      var n;
      ok, n := ScanOnce(c, p, last, works);
      if !ok { return false, total; }
      total := total + n;
      if last { return works, total; }
      left := left - 1;
      c.Interfere(p);
    }
  }

  /** One round: SCAN returns some keys, and DEL removes them. */
  method ScanOnce(c: Cluster, p: nat, last: bool, works: bool) returns (ok: bool, n: nat)
    requires c.Valid() && p in c.s.invals && c.s.invals[p].rest == "" && c.s.invals[p].phase in {Marked, Scanning}
    modifies c
    ensures c.Valid() && old(c.run) <= c.run && old(c.s.now) <= c.s.now
    ensures (works ==> ok) && Invalidates(c.s, p, "", old(c.s.invals[p]).value)
    ensures ok ==> c.s.invals[p].phase == if last then Done else Scanning
    ensures ok ==> |c.s.invals[p].cleared.Keys| <= |old(c.s.invals[p]).cleared.Keys| + n
  {
    var here: bool := *;
    if !works && here { return false, 0; }
    var keys := ScanCall(c, p, last);
    c.Interfere(p);
    here := *;
    if !works && here { return false, 0; }
    DistinctAtMostLength(keys);
    Drop(c, p);
    return true, |keys|;
  }

  /** SCAN returns keys in some order and perhaps repeated; what the last call owes
      is Redis's promise. */
  method ScanCall(c: Cluster, p: nat, last: bool) returns (keys: seq<string>)
    requires c.Valid() && p in c.s.invals && c.s.invals[p].rest == "" && c.s.invals[p].phase in {Marked, Scanning}
    modifies c
    ensures c.Valid() && old(c.run) <= c.run && old(c.s.now) <= c.s.now
    ensures p in c.s.invals
    ensures var i, i' := old(c.s.invals[p]), c.s.invals[p];
      i'.rest == "" && i'.phase == Listed && i'.value == i.value && i'.last == last && i'.cleared == i.cleared
    ensures c.s.invals[p].pending == set k | k in keys
  {
    var i := c.s.invals[p];
    ghost var order := SomeOrder(c.s.menus.Keys);
    assert ScanComplete(c.s, ScanStart(c.s, i), i.seen + set k | k in order);
    keys :| last ==> ScanComplete(c.s, ScanStart(c.s, i), i.seen + set k | k in keys);
    c.Step(Scan(p, (set k | k in keys), last));
  }

  // A crm.menu.updated message, decoded or not.
  datatype Message = Garbled | MenuUpdated(restaurantId: string)

  /** menu_consumer.go Broadcast: invalidate first, publish whether or not that
      worked, and fail only on a message that does not decode. When the event goes out
      the invalidation has been tried and, if Redis worked, has finished. */
  method Broadcast(c: Cluster, hub: Sse.Hub, p: nat, msg: Message, value: Sse.Payload, works: bool) returns (ok: bool)
    requires c.Valid() && p !in c.s.fetches && p !in c.s.invals && hub.Valid()
    modifies c, hub`history, hub.subscribed`buf, hub.subscribed`log
    ensures c.Valid() && hub.Valid() && old(c.run) <= c.run && old(c.s.now) <= c.s.now
    ensures ok == msg.MenuUpdated?
    ensures !ok ==> hub.history == old(hub.history) && c.s == old(c.s)
    ensures ok ==> hub.history == old(hub.history) + [Sse.Announcement(msg.restaurantId, value, c.s.tick)]
    ensures ok ==> Invalidates(c.s, p, msg.restaurantId, old(c.s.now))
    ensures ok && works ==> forall rest :: Covers(msg.restaurantId, rest) ==> FinishedFor(c.s, p, rest)
  {
    if msg.Garbled? { return false; }
    var _, _ := Invalidate(c, p, msg.restaurantId, works);
    hub.Publish(msg.restaurantId, value, c.s.tick);
    return true;
  }

  /** A screen that refetches after the event: unless the cache entry it hits is
      one of the three exceptions, it sees a menu read from CRM no earlier than
      the moment the event was handled, hence after the announced change. `before` is
      the run up to the refetch. */
  method BroadcastThenRefetch(c: Cluster, hub: Sse.Hub, p: nat, msg: Message, value: Sse.Payload, works: bool,
                              rest: string, crm: CrmAnswer, fates: CacheFates)
    returns (r: Result, ghost before: seq<Step>, ghost atRefetch: State)
    requires c.Valid() && p !in c.s.fetches && p !in c.s.invals && hub.Valid()
    requires msg.MenuUpdated? && Covers(msg.restaurantId, rest)
    modifies c, hub`history, hub.subscribed`buf, hub.subscribed`log
    ensures c.Valid() && hub.Valid() && old(c.run) <= before <= c.run && LeadsTo(before, atRefetch)
    ensures (r.Menu? ==> r.rest == rest) && (crm.Sends? ==> r.Menu?)
    ensures r.Menu? && works && r.readAt < old(c.s.now) ==>
      FinishedFor(atRefetch, p, rest) && IsCached(atRefetch, rest) &&
      (var i, m := atRefetch.invals[p], atRefetch.menus[rest]; LostRace(i, m, rest) || MovedBack(atRefetch, i, m) || Slow(m))
  {
    var _ := Broadcast(c, hub, p, msg, value, works);
    c.Interfere(p);
    before, atRefetch := c.run, c.s;
    FreshExists(c.s.fetches.Keys + c.s.invals.Keys);
    var q: nat :| q !in c.s.fetches.Keys + c.s.invals.Keys;
    r := GetEffectiveMenu(c, q, rest, crm, fates);
  }
}
