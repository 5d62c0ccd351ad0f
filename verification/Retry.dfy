/** The Kafka consumer: a handler retried with doubling waits, and a loop that
    commits past messages it gave up on. */
module Retry {
  import opened MenuCache
  import opened MenuFreshness
  import opened MenuService
  import opened Ids
  import opened Units

  // What handle does: calls of the handler with their results, and completed waits in ms.
  datatype Event = Ran(ok: bool) | Waited(ms: nat)

  function Pow2(n: nat): nat { if n == 0 then 1 else 2 * Pow2(n - 1) }

  /** `k` failed calls, each with the wait that follows it. */
  function Failures(k: nat): seq<Event> {
    if k == 0 then [] else Failures(k - 1) + [Ran(false), Waited(500 * Pow2(k - 1))]
  }

  /** The trace of a handling that ended with its `k`th call. */
  function Shape(k: nat, ok: bool): seq<Event>
    requires 1 <= k
  {
    Failures(k - 1) + [Ran(ok)]
  }

  function Runs(trace: seq<Event>): nat {
    if trace == [] then 0 else Runs(trace[..|trace| - 1]) + if trace[|trace| - 1].Ran? then 1 else 0
  }

  function TotalWait(trace: seq<Event>): nat {
    if trace == [] then 0
    else TotalWait(trace[..|trace| - 1]) + match trace[|trace| - 1] case Waited(ms) => ms case Ran(_) => 0
  }

  lemma {:induction false} FailuresAddUp(k: nat)
    ensures Runs(Failures(k)) == k && TotalWait(Failures(k)) == 500 * (Pow2(k) - 1)
    ensures forall e :: e in Failures(k) && e.Ran? ==> !e.ok
  {
    if k > 0 {
      FailuresAddUp(k - 1);
      var f, t := Failures(k - 1), Failures(k);
      assert t[..|t| - 1] == f + [Ran(false)] && (f + [Ran(false)])[..|f|] == f;
    }
  }

  /** The first wait is half a second, and each is twice the one before. */
  lemma WaitsDouble(k: nat)
    requires 1 <= k
    ensures |Failures(k - 1)| == 2 * (k - 1) && Failures(k)[..2 * (k - 1)] == Failures(k - 1)
    ensures Failures(k)[2 * k - 2..] == [Ran(false), Waited(if k == 1 then 500 else 2 * Failures(k - 1)[2 * k - 3].ms)]
  {
    if k > 1 { WaitsDouble(k - 1); }
  }

  /** A handling that ends with its `k`th call has run the handler `k` times, all
      but the last call failing, and has waited 500 * (2^(k-1) - 1) ms before it. */
  lemma ShapeMeans(k: nat, ok: bool)
    requires 1 <= k
    ensures var t := Shape(k, ok);
            && Runs(t) == k && t[|t| - 1] == Ran(ok) && TotalWait(t) == 500 * (Pow2(k - 1) - 1)
            && forall i :: 0 <= i < |t| - 1 && t[i].Ran? ==> !t[i].ok
  {
    FailuresAddUp(k - 1);
    var f, t := Failures(k - 1), Shape(k, ok);
    assert t[..|t| - 1] == f;
    forall i | 0 <= i < |t| - 1 && t[i].Ran? ensures !t[i].ok { assert f[i] in f; }
  }

  /** Where a handling ends: the handler's `k`th call answers `answers(k)`, and
      `cancelled(k)` says whether the context is seen to be cancelled after it, before
      the wait or during it. Without attempts nothing is called. */
  ghost predicate Ends(attempts: int, answers: nat -> bool, cancelled: nat -> bool, ok: bool, calls: nat) {
    if attempts <= 0 then ok && calls == 0
    else
      && 1 <= calls <= attempts && ok == answers(calls)
      && (forall k :: 1 <= k < calls ==> !answers(k) && !cancelled(k))
      && (answers(calls) || calls == attempts || cancelled(calls))
  }

  /** handle: it stops at the first success, the last attempt or a cancellation. */
  method Handle(attempts: int, answers: nat -> bool, cancelled: nat -> bool) returns (ok: bool, trace: seq<Event>, calls: nat)
    ensures Ends(attempts, answers, cancelled, ok, calls)
    ensures trace == if attempts <= 0 then [] else Shape(calls, ok)
  {
    ok, trace, calls := true, [], 0;
    var backoff := 500;
    var attempt := 1;
    while attempt <= attempts
      invariant 1 <= attempt && calls == attempt - 1 && (attempts <= 0 ==> attempt == 1)
      invariant ok == (attempt == 1) && trace == Failures(attempt - 1) && backoff == 500 * Pow2(attempt - 1)
      invariant 1 <= attempts ==> attempt <= attempts
      invariant forall k :: 1 <= k < attempt ==> !answers(k) && !cancelled(k)
      decreases attempts - attempt
    {
      ok := answers(attempt);
      trace, calls := trace + [Ran(ok)], attempt;
      if ok { return; }
      if attempt == attempts || cancelled(attempt) { return; }
      trace := trace + [Waited(backoff)];
      assert trace == Failures(attempt);
      backoff := backoff * 2;
      attempt := attempt + 1;
    }
  }

  // How one message was dealt with.
  datatype Delivery = Delivery(message: nat, ok: bool, calls: nat)

  // What the handler answers to the message at a position, call by call, when the
  // context is seen to be cancelled, and whether the commit after it gets through.
  datatype World = World(answers: nat -> nat -> bool, cancelled: nat -> nat -> bool, commits: nat -> bool)

  /** The loop of Start, until the consumer is stopped after `stopAt` messages: every
      message is handled once, in order, failed or not, and is committed before the
      next is fetched; a failed commit is caught up by the next good one. */
  method Consume(attempts: int, messages: seq<nat>, w: World, stopAt: nat) returns (deliveries: seq<Delivery>, committed: nat)
    ensures |deliveries| == Min(stopAt, |messages|)
    ensures forall k :: 0 <= k < |deliveries| ==>
      deliveries[k].message == messages[k] &&
      Ends(attempts, w.answers(k), w.cancelled(k), deliveries[k].ok, deliveries[k].calls)
    ensures committed <= |deliveries| && (0 < committed ==> w.commits(committed - 1))
    ensures forall k :: committed <= k < |deliveries| ==> !w.commits(k)
  {
    deliveries, committed := [], 0;
    var next := 0;
    while next < |messages| && next < stopAt
      invariant next == |deliveries| <= |messages| && next <= stopAt && committed <= next
      invariant forall k :: 0 <= k < |deliveries| ==>
        deliveries[k].message == messages[k] &&
        Ends(attempts, w.answers(k), w.cancelled(k), deliveries[k].ok, deliveries[k].calls)
      invariant 0 < committed ==> w.commits(committed - 1)
      invariant forall k :: committed <= k < next ==> !w.commits(k)
    {
      var ok, _, calls := Handle(attempts, w.answers(next), w.cancelled(next));
      deliveries := deliveries + [Delivery(messages[next], ok, calls)];
      next := next + 1;
      if w.commits(next - 1) { committed := next; }
    }
  }

  /** The durable consumer's handler under handle: each attempt is a new Invalidate
      among all the other calls, whose Redis commands get through if `works` says so,
      and may else fail after writing no more than its mark. One success is enough: a
      menu read before the message was handled stays cached only through the three
      exceptions. */
  method HandleInvalidate(c: Cluster, attempts: int, msg: Message, works: nat -> bool, cancelled: nat -> bool)
      returns (ok: bool, calls: nat, ghost p: nat)
    requires c.Valid()
    modifies c
    ensures c.Valid() && old(c.run) <= c.run
    ensures Ends(attempts, (k: nat) => msg.MenuUpdated? && works(k), cancelled, ok, calls)
    ensures 1 <= attempts && msg.MenuUpdated? ==> p in c.s.invals && c.s.invals[p].rest == msg.restaurantId && old(c.s.now) <= c.s.invals[p].value
    ensures ok && 1 <= attempts ==> msg.MenuUpdated? && forall rest :: Covers(msg.restaurantId, rest) ==> FinishedFor(c.s, p, rest)
    ensures ok && 1 <= attempts ==> forall rest ::
      Covers(msg.restaurantId, rest) && IsCached(c.s, rest) && c.s.menus[rest].origin.readAt < old(c.s.now) ==>
      var i, m := c.s.invals[p], c.s.menus[rest]; LostRace(i, m, rest) || MovedBack(c.s, i, m) || Slow(m)
  {
    ok, calls, p := attempts <= 0, 0, 0;
    if ok { return; }
    var attempt := 1;
    while attempt <= attempts
      invariant c.Valid() && old(c.run) <= c.run && old(c.s.now) <= c.s.now
      invariant !ok && 1 <= attempt <= attempts && calls == attempt - 1
      invariant forall k :: 1 <= k < attempt ==> !(msg.MenuUpdated? && works(k)) && !cancelled(k)
      decreases attempts - attempt
    {
      calls := attempt;
      var id: nat;
      ok, id := Attempt(c, msg, works(attempt));
      p := id;
      if ok {
        OnlyExceptions(c.run, c.s, p, msg.restaurantId, old(c.s.now));
        return;
      }
      if attempt == attempts || cancelled(attempt) { return; }
      c.Interfere(id);
      attempt := attempt + 1;
    }
  }

  /** One attempt: decode, and Invalidate as a call of its own. */
  method Attempt(c: Cluster, msg: Message, works: bool) returns (ok: bool, p: nat)
    requires c.Valid()
    modifies c
    ensures c.Valid() && old(c.run) <= c.run && old(c.s.now) <= c.s.now
    ensures ok == (msg.MenuUpdated? && works)
    ensures msg.MenuUpdated? ==> Invalidates(c.s, p, msg.restaurantId, old(c.s.now))
    ensures ok ==> c.s.invals[p].phase == Done
  {
    if msg.Garbled? { return false, 0; }
    FreshExists(c.s.fetches.Keys + c.s.invals.Keys);
    p :| p !in c.s.fetches.Keys + c.s.invals.Keys;
    var total;
    ok, total := Invalidate(c, p, msg.restaurantId, works);
  }

  lemma OnlyExceptions(run: seq<Step>, s: State, p: nat, target: string, since: int)
    requires LeadsTo(run, s) && p in s.invals && s.invals[p].phase == Done && s.invals[p].rest == target && since <= s.invals[p].value
    ensures forall rest :: Covers(target, rest) && IsCached(s, rest) && s.menus[rest].origin.readAt < since ==>
      var i, m := s.invals[p], s.menus[rest]; LostRace(i, m, rest) || MovedBack(s, i, m) || Slow(m)
  {
    InitInv();
    InvRun(INIT, run);
    forall rest | Covers(target, rest) && IsCached(s, rest) && s.menus[rest].origin.readAt < since
      ensures var i, m := s.invals[p], s.menus[rest]; LostRace(i, m, rest) || MovedBack(s, i, m) || Slow(m)
    {
      assert CachedInv(s, rest, s.menus[rest]);
      StaleOnlyIf(run, p, rest);
    }
  }
}
