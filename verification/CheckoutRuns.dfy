/** Runs that show why the conditions of CheckoutSafety and CheckoutReleases are
    needed: one member with points to spend, one key. */
module CheckoutRuns {
  import opened Options
  import opened Checkout
  import opened CheckoutSafety
  import opened CheckoutReleases

  const PROGRAM := Loyalty(100, 50, map["m" := 10], map["m" := 10], [], map[])
  const FIRST := State(0, PROGRAM, Orders([], map[]), map[], {}, map[], {})
  const BODY := Body("m", "r", 5)

  /** Five points held under key "k", granted on a subtotal of 1000 rubles. */
  function With(holds: seq<Hold>, available: int): Loyalty
    requires |holds| > 0
  {
    PROGRAM.(available := map["m" := available], holds := holds, refs := map["k" := |holds| - 1])
  }

  function Five(status: HoldStatus): Hold { Hold("m", 5, "k", 100_000, status) }

  /** A call for five points under key "k". */
  function For(subtotal: int, phase: Phase, hold: Option<nat>): Call {
    Call("k", false, BODY, subtotal, phase, hold, None, false, 0)
  }

  function Made(subtotal: int, phase: Phase, hold: nat, made: bool): Call {
    Call("k", false, BODY, subtotal, phase, Some(hold), Some(0), made, 0)
  }

  function Only(subtotal: int, maker: nat, bornAt: nat): Orders {
    Orders([Order("k", BODY, subtotal, Some(0), 500, maker, bornAt)], map[OrderKey("r", "k") := 0])
  }

  function At(tick: nat, l: Loyalty, os: Orders, calls: map<nat, Call>): State {
    State(tick, l, os, map["k" := BODY], {}, calls, {})
  }

  const NONE := Orders([], map[])
  const HELD := With([Five(Held)], 5)

  lemma Then(s: State, a: Step, s': State, rest: seq<Step>)
    requires Enabled(s, a) && Apply(s, a) == s' && Legal(s', rest)
    ensures Legal(s, [a] + rest) && Exec(s, [a] + rest) == Exec(s', rest)
  {
    assert ([a] + rest)[1..] == rest;
  }

  /** Every run below begins with call 0 getting its hold. */
  lemma ReserveFirst(rest: seq<Step>)
    requires Legal(At(2, HELD, NONE, map[0 := For(100_000, Calling, Some(0))]), rest)
    ensures var run := [Begin(0, "k", BODY, 100_000)] + ([Reserve(0, true)] + rest);
            Start(FIRST) && Legal(FIRST, run) &&
            Exec(FIRST, run) == Exec(At(2, HELD, NONE, map[0 := For(100_000, Calling, Some(0))]), rest)
  {
    var s1 := At(1, PROGRAM, NONE, map[0 := For(100_000, Begun, None)]);
    assert NextLoyalty(s1, Reserve(0, true)) == HELD;
    Then(s1, Reserve(0, true), At(2, HELD, NONE, map[0 := For(100_000, Calling, Some(0))]), rest);
    Then(FIRST, Begin(0, "k", BODY, 100_000), s1, [Reserve(0, true)] + rest);
  }

  /** A retry begins and is given the same hold. */
  lemma RetryReserves(t: nat, c: Call, subtotal: int, rest: seq<Step>)
    requires Legal(At(t + 2, HELD, NONE, map[0 := c, 1 := For(subtotal, Calling, Some(0))]), rest)
    ensures var s, run := At(t, HELD, NONE, map[0 := c]), [Begin(1, "k", BODY, subtotal)] + ([Reserve(1, true)] + rest);
            Legal(s, run) && Exec(s, run) == Exec(At(t + 2, HELD, NONE, map[0 := c, 1 := For(subtotal, Calling, Some(0))]), rest)
  {
    var s1 := At(t + 1, HELD, NONE, map[0 := c, 1 := For(subtotal, Begun, None)]);
    Then(s1, Reserve(1, true), At(t + 2, HELD, NONE, map[0 := c, 1 := For(subtotal, Calling, Some(0))]), rest);
    Then(At(t, HELD, NONE, map[0 := c]), Begin(1, "k", BODY, subtotal), s1, [Reserve(1, true)] + rest);
  }

  const RETRY := [CreateEffect(1)]

  /** The retry goes on to an order. */
  lemma RetryOrders(t: nat, c: Call, subtotal: int)
    ensures var s, run := At(t, HELD, NONE, map[0 := c]), [Begin(1, "k", BODY, subtotal)] + ([Reserve(1, true)] + RETRY);
            Legal(s, run) &&
            Exec(s, run) == At(t + 3, HELD, Only(subtotal, 1, t + 2), map[0 := c, 1 := Made(subtotal, Calling, 0, true)])
  {
    var s2 := At(t + 2, HELD, NONE, map[0 := c, 1 := For(subtotal, Calling, Some(0))]);
    Then(s2, CreateEffect(1), At(t + 3, HELD, Only(subtotal, 1, t + 2), map[0 := c, 1 := Made(subtotal, Calling, 0, true)]), []);
    RetryReserves(t, c, subtotal, RETRY);
  }

  /** The price falls between an attempt whose answer is lost and its retry. */
  lemma AfterDrop(subtotal: int, tail: seq<Step>)
    requires Legal(At(3, HELD, NONE, map[0 := For(100_000, Finished, Some(0))]), [Begin(1, "k", BODY, subtotal)] + tail)
    ensures var drop := [Begin(1, "k", BODY, subtotal)] + tail;
            var run := [Begin(0, "k", BODY, 100_000)] + ([Reserve(0, true)] + ([CreateAmbiguous(0)] + drop));
            && Start(FIRST) && Legal(FIRST, run)
            && Exec(FIRST, run) == Exec(At(3, HELD, NONE, map[0 := For(100_000, Finished, Some(0))]), drop)
  {
    var drop := [Begin(1, "k", BODY, subtotal)] + tail;
    var s2, s3 := At(2, HELD, NONE, map[0 := For(100_000, Calling, Some(0))]), At(3, HELD, NONE, map[0 := For(100_000, Finished, Some(0))]);
    Then(s2, CreateAmbiguous(0), s3, drop);
    ReserveFirst([CreateAmbiguous(0)] + drop);
  }

  /** The calls do not overlap and the points fit in 32 bits, and yet the retry's order
      has a discount of 500 on a subtotal of 600, of which the program's share is 300. */
  lemma PriceDropHappens() returns (run: seq<Step>)
    ensures Start(FIRST) && Legal(FIRST, run)
    ensures var s := Exec(FIRST, run);
            && s.orders.all == [Order("k", BODY, 600, Some(0), 500, 1, 5)] && s.loyalty == HELD
            && !WithinShare(s.loyalty, 500, 600) && 500 <= 600
  {
    RetryOrders(3, For(100_000, Finished, Some(0)), 600);
    var tail := [Reserve(1, true)] + RETRY;
    AfterDrop(600, tail);
    run := [Begin(0, "k", BODY, 100_000)] + ([Reserve(0, true)] + ([CreateAmbiguous(0)] + ([Begin(1, "k", BODY, 600)] + tail)));
  }

  /** After a deeper drop the retry asks kfc-order for a discount of 500 on a subtotal
      of 400, whatever kfc-order makes of it. */
  lemma PriceDropSends() returns (run: seq<Step>)
    ensures Start(FIRST) && Legal(FIRST, run)
    ensures var s := Exec(FIRST, run);
            && In(s, 1, Calling) && s.calls[1].hold == Some(0) && s.calls[1].subtotal == 400
            && Discount(s.calls[1], s.loyalty.pointValue) == 500 && s.orders.all == []
  {
    RetryReserves(3, For(100_000, Finished, Some(0)), 400, []);
    var tail := [Reserve(1, true)] + [];
    AfterDrop(400, tail);
    run := [Begin(0, "k", BODY, 100_000)] + ([Reserve(0, true)] + ([CreateAmbiguous(0)] + ([Begin(1, "k", BODY, 400)] + tail)));
  }

  function Failing(failedAt: nat): Call { For(100_000, Failed, Some(0)).(failedAt := failedAt) }

  /** Before its release goes out, a retry reuses the hold and gets its order: the
      release is about to free points that an order was discounted for. */
  lemma OverlapHappens() returns (run: seq<Step>)
    ensures Start(FIRST) && Legal(FIRST, run)
    ensures var s := Exec(FIRST, run);
            In(s, 0, Failed) && s.calls[0].hold == Some(0) && s.loyalty == HELD &&
            s.orders.all == [Order("k", BODY, 100_000, Some(0), 500, 1, 5)]
  {
    RetryOrders(3, Failing(2), 100_000);
    var tail := [Begin(1, "k", BODY, 100_000)] + ([Reserve(1, true)] + RETRY);
    Then(At(2, HELD, NONE, map[0 := For(100_000, Calling, Some(0))]), CreateDefinite(0), At(3, HELD, NONE, map[0 := Failing(2)]), tail);
    ReserveFirst([CreateDefinite(0)] + tail);
    run := [Begin(0, "k", BODY, 100_000)] + ([Reserve(0, true)] + ([CreateDefinite(0)] + tail));
  }

  const FREE := With([Five(Released(ByCall(0)))], 10)

  const FIRST_CALL := For(100_000, Calling, Some(0))
  const BOTH := At(4, HELD, NONE, map[0 := FIRST_CALL, 1 := FIRST_CALL])
  const FAILED := At(5, HELD, NONE, map[0 := Failing(4), 1 := FIRST_CALL])
  const GIVEN_BACK :=
    At(6, FREE, NONE, map[0 := Failing(4).(phase := Finished), 1 := FIRST_CALL]).(sent := {ReleaseSent(0, 0, 5)})

  /** Call 0 fails and releases; then the retry, which has the same hold, gets its order. */
  lemma ReleaseThenOrder()
    ensures var run := [CreateDefinite(0)] + ([Release(0, true)] + RETRY);
            Legal(BOTH, run) && Exec(BOTH, run).orders == Only(100_000, 1, 6) && Exec(BOTH, run).loyalty == FREE
  {
    OrderAfterRelease();
    ReleaseStep();
    Then(FAILED, Release(0, true), GIVEN_BACK, RETRY);
    Then(BOTH, CreateDefinite(0), FAILED, [Release(0, true)] + RETRY);
  }

  lemma ReleaseStep()
    ensures Enabled(FAILED, Release(0, true)) && Apply(FAILED, Release(0, true)) == GIVEN_BACK
  {
    assert NextLoyalty(FAILED, Release(0, true)) == FREE;
  }

  lemma OrderAfterRelease()
    ensures Legal(GIVEN_BACK, RETRY)
    ensures Exec(GIVEN_BACK, RETRY).orders == Only(100_000, 1, 6) && Exec(GIVEN_BACK, RETRY).loyalty == FREE
  {
    Then(GIVEN_BACK, CreateEffect(1), Apply(GIVEN_BACK, CreateEffect(1)), []);
    assert [CreateEffect(1)] + [] == RETRY;
  }

  /** Call 0 and an overlapping retry both get the hold. */
  lemma BothReserve(tail: seq<Step>)
    requires Legal(BOTH, tail)
    ensures var run := [Begin(0, "k", BODY, 100_000)] + ([Reserve(0, true)] + ([Begin(1, "k", BODY, 100_000)] + ([Reserve(1, true)] + tail)));
            Start(FIRST) && Legal(FIRST, run) && Exec(FIRST, run) == Exec(BOTH, tail)
  {
    RetryReserves(2, FIRST_CALL, 100_000, tail);
    ReserveFirst([Begin(1, "k", BODY, 100_000)] + ([Reserve(1, true)] + tail));
  }

  /** The order may also come after the release: it is discounted, and the member
      has all points back. */
  lemma LateOrderHappens() returns (run: seq<Step>)
    ensures Start(FIRST) && Legal(FIRST, run)
    ensures var s := Exec(FIRST, run);
            s.orders.all == [Order("k", BODY, 100_000, Some(0), 500, 1, 6)] && s.loyalty == FREE
  {
    ReleaseThenOrder();
    var tail := [CreateDefinite(0)] + ([Release(0, true)] + RETRY);
    BothReserve(tail);
    run := [Begin(0, "k", BODY, 100_000)] + ([Reserve(0, true)] + ([Begin(1, "k", BODY, 100_000)] + ([Reserve(1, true)] + tail)));
  }

  const TWICE := With([Five(Released(Expiry)), Five(Held)], 5)

  const EXPIRED := With([Five(Released(Expiry))], 10)
  const AGAIN := [CreateEffect(1), CreateOk(1), Commit(1, true)]

  const ORDERED := At(3, HELD, Only(100_000, 0, 2), map[0 := Made(100_000, Calling, 0, true)])
  const LOST := Made(100_000, Finished, 0, true)

  /** The state once the first hold has expired. */
  const GONE := At(5, EXPIRED, Only(100_000, 0, 2), map[0 := LOST])

  /** A hold expires behind an order whose creation was not heard of; the retry is
      given the order again and a second hold, and commits that one for it. */
  lemma ExpiryHappens() returns (run: seq<Step>)
    ensures Start(FIRST) && Legal(FIRST, run)
    ensures var s := Exec(FIRST, run);
            && s.orders.all == [Order("k", BODY, 100_000, Some(0), 500, 0, 2)]
            && s.loyalty.holds == [Five(Released(Expiry)), Five(Committed(0))]
  {
    var tail := [Begin(1, "k", BODY, 100_000)] + ([Reserve(1, true)] + AGAIN);
    SecondHold();
    ExpiresUnheard(tail);
    OrdersFirst([CreateAmbiguous(0)] + ([Expire(0)] + tail));
    run := [Begin(0, "k", BODY, 100_000)] + ([Reserve(0, true)] + ([CreateEffect(0)] + ([CreateAmbiguous(0)] + ([Expire(0)] + tail))));
  }

  lemma OrdersFirst(rest: seq<Step>)
    requires Legal(ORDERED, rest)
    ensures var run := [Begin(0, "k", BODY, 100_000)] + ([Reserve(0, true)] + ([CreateEffect(0)] + rest));
            Start(FIRST) && Legal(FIRST, run) && Exec(FIRST, run) == Exec(ORDERED, rest)
  {
    Then(At(2, HELD, NONE, map[0 := For(100_000, Calling, Some(0))]), CreateEffect(0), ORDERED, rest);
    ReserveFirst([CreateEffect(0)] + rest);
  }

  lemma ExpiresUnheard(rest: seq<Step>)
    requires Legal(GONE, rest)
    ensures var run := [CreateAmbiguous(0)] + ([Expire(0)] + rest);
            Legal(ORDERED, run) && Exec(ORDERED, run) == Exec(GONE, rest)
  {
    var s4 := At(4, HELD, Only(100_000, 0, 2), map[0 := LOST]);
    assert NextLoyalty(s4, Expire(0)) == EXPIRED;
    Then(s4, Expire(0), GONE, rest);
    Then(ORDERED, CreateAmbiguous(0), s4, [Expire(0)] + rest);
  }

  const SECOND := At(6, EXPIRED, Only(100_000, 0, 2), map[0 := LOST, 1 := For(100_000, Begun, None)])
  const SECOND_HELD := At(7, TWICE, Only(100_000, 0, 2), map[0 := LOST, 1 := For(100_000, Calling, Some(1))])

  /** From the state the run ends with the second hold committed for the order. */
  predicate EndsCommitted(s: State, run: seq<Step>) {
    && Legal(s, run) && Exec(s, run).orders == Only(100_000, 0, 2)
    && Exec(s, run).loyalty.holds == [Five(Released(Expiry)), Five(Committed(0))]
  }

  lemma SecondHold()
    ensures EndsCommitted(GONE, [Begin(1, "k", BODY, 100_000)] + ([Reserve(1, true)] + AGAIN))
  {
    SecondReserve();
    Then(GONE, Begin(1, "k", BODY, 100_000), SECOND, [Reserve(1, true)] + AGAIN);
  }

  lemma GrantsAgain()
    ensures HoldFor(EXPIRED, "k") == None && Grantable(EXPIRED, BODY, 100_000) && GrantHold(EXPIRED, "k", BODY, 100_000) == TWICE
  {
    var l := GrantHold(EXPIRED, "k", BODY, 100_000);
    assert l.holds == TWICE.holds && l.available == TWICE.available && l.refs == TWICE.refs;
  }

  lemma SecondReserve()
    ensures EndsCommitted(SECOND, [Reserve(1, true)] + AGAIN)
  {
    SecondCommit();
    GrantsAgain();
    Then(SECOND, Reserve(1, true), SECOND_HELD, AGAIN);
  }

  lemma SecondCommit()
    ensures EndsCommitted(SECOND_HELD, AGAIN)
  {
    var s8 := At(8, TWICE, Only(100_000, 0, 2), map[0 := LOST, 1 := Made(100_000, Calling, 1, false)]);
    var s9 := At(9, TWICE, Only(100_000, 0, 2), map[0 := LOST, 1 := Made(100_000, Placed, 1, false)]);
    var s10 := Apply(s9, Commit(1, true));
    assert s10.loyalty.holds == [Five(Released(Expiry)), Five(Committed(0))];
    Then(s9, Commit(1, true), s10, []);
    Then(s8, CreateOk(1), s9, [Commit(1, true)] + []);
    Then(SECOND_HELD, CreateEffect(1), s8, [CreateOk(1)] + ([Commit(1, true)] + []));
    assert [CreateEffect(1)] + ([CreateOk(1)] + ([Commit(1, true)] + [])) == AGAIN;
  }

  const WIDE := Body("m", "r", 0x1_0000_0005)
  const LARGE := 0x100_0000_0000

  /** 2^32 + 5 points are held as 5 and discounted as 2^32 + 5, on a subtotal that
      allows for it. */
  lemma NarrowingHappens() returns (run: seq<Step>)
    ensures Start(FIRST) && Legal(FIRST, run)
    ensures var s := Exec(FIRST, run);
            && |s.orders.all| == 1 && s.orders.all[0].hold == Some(0) && s.orders.all[0].discount == 100 * 0x1_0000_0005
            && |s.loyalty.holds| == 1 && s.loyalty.holds[0].points == 5 && s.orders.all[0].discount <= s.orders.all[0].subtotal
  {
    var c := Call("k", false, WIDE, LARGE, Begun, None, None, false, 0);
    var s1 := State(1, PROGRAM, NONE, map["k" := WIDE], {}, map[0 := c], {});
    var held := With([Hold("m", 5, "k", LARGE, Held)], 5);
    var s2 := s1.(tick := 2, loyalty := held, calls := map[0 := c.(phase := Calling, hold := Some(0))]);
    var s3 := Apply(s2, CreateEffect(0));
    assert NextLoyalty(s1, Reserve(0, true)) == held;
    Then(s2, CreateEffect(0), s3, []);
    Then(s1, Reserve(0, true), s2, [CreateEffect(0)] + []);
    Then(FIRST, Begin(0, "k", WIDE, LARGE), s1, [Reserve(0, true)] + ([CreateEffect(0)] + []));
    run := [Begin(0, "k", WIDE, LARGE)] + ([Reserve(0, true)] + ([CreateEffect(0)] + []));
  }
}
