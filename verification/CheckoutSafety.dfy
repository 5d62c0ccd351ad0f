/** What holds in every run of checkouts: points are conserved and tied to one
    order, and when a release can hit an order's hold. */
module CheckoutSafety {
  import opened Options
  import opened Checkout

  lemma StartInv(s: State)
    requires Start(s)
    ensures Inv(s)
  {
  }

  lemma {:induction false} RunSplits(s: State, before: seq<Step>, after: seq<Step>)
    ensures Legal(s, before + after) <==> Legal(s, before) && Legal(Exec(s, before), after)
    ensures Legal(s, before + after) ==> Exec(s, before + after) == Exec(Exec(s, before), after)
    decreases |before|
  {
    if before == [] {
      assert before + after == after;
    } else {
      assert (before + after)[0] == before[0] && (before + after)[1..] == before[1..] + after;
      if Enabled(s, before[0]) {
        RunSplits(Apply(s, before[0]), before[1..], after);
      }
    }
  }

  ghost predicate LeadsTo(s0: State, run: seq<Step>, s: State) {
    Legal(s0, run) && Exec(s0, run) == s
  }

  lemma Extend(s0: State, run: seq<Step>, s: State, a: Step)
    requires LeadsTo(s0, run, s) && Enabled(s, a)
    ensures LeadsTo(s0, run + [a], Apply(s, a))
  {
    RunSplits(s0, run, [a]);
    assert Legal(Apply(s, a), []);
    assert [a][1..] == [];
  }

  // ---------------------------------------------------------------------
  // The members' points
  // ---------------------------------------------------------------------

  predicate Solvent(l: Loyalty) {
    forall m :: m in l.available ==> 0 <= l.available[m]
  }

  lemma SolventStep(s: State, a: Step)
    requires Inv(s) && Enabled(s, a) && Solvent(s.loyalty)
    ensures Solvent(NextLoyalty(s, a)) && NextLoyalty(s, a).granted == s.loyalty.granted
  {
    forall h: nat | h < |s.loyalty.holds| ensures 0 < s.loyalty.holds[h].points { assert HoldInv(s, h); }
  }

  lemma {:induction false} SolventRun(s: State, run: seq<Step>)
    requires Inv(s) && Legal(s, run) && Solvent(s.loyalty)
    ensures Solvent(Exec(s, run).loyalty) && Exec(s, run).loyalty.granted == s.loyalty.granted
    decreases |run|
  {
    if run != [] {
      SolventStep(s, run[0]);
      InvStep(s, run[0]);
      SolventRun(Apply(s, run[0]), run[1..]);
    }
  }

  /** Points are conserved in every run: what a member has available and what
      holds keep is always what was granted, and neither is ever negative. */
  lemma PointsConserved(s0: State, run: seq<Step>, m: string)
    requires Start(s0) && Legal(s0, run) && Solvent(s0.loyalty) && m in s0.loyalty.granted
    ensures var l := Exec(s0, run).loyalty;
            m in l.available && 0 <= l.available[m] <= s0.loyalty.granted[m] &&
            l.available[m] + KeptBy(l.holds, m) == s0.loyalty.granted[m]
  {
    StartInv(s0);
    InvRun(s0, run);
    SolventRun(s0, run);
    var s := Exec(s0, run);
    forall h | 0 <= h < |s.loyalty.holds| ensures 0 < s.loyalty.holds[h].points { assert HoldInv(s, h); }
    KeptNotNegative(s.loyalty.holds, m);
  }

  lemma {:induction false} KeptNotNegative(holds: seq<Hold>, m: string)
    requires forall h :: 0 <= h < |holds| ==> 0 < holds[h].points
    ensures 0 <= KeptBy(holds, m)
  {
    if holds != [] { KeptNotNegative(holds[..|holds| - 1], m); }
  }

  // ---------------------------------------------------------------------
  // One order per hold
  // ---------------------------------------------------------------------

  /** In every run: orders under one key are one order, no two orders carry one
      hold, and userapi never sends CommitHold for one hold with two orders. A hold
      is committed only for the order under its key; that order carries it unless
      the hold it does carry was released before. */
  lemma OneOrderPerHold(s0: State, run: seq<Step>)
    requires Start(s0) && Legal(s0, run)
    ensures var s := Exec(s0, run);
            var all, holds := s.orders.all, s.loyalty.holds;
            && (forall o, o' :: 0 <= o < |all| && 0 <= o' < |all| && all[o].key == all[o'].key != "" ==> o == o')
            && (forall o, o' :: 0 <= o < |all| && 0 <= o' < |all| && all[o].hold == all[o'].hold != None ==> o == o')
            && (forall o :: 0 <= o < |all| ==> (all[o].hold.Some? <==> all[o].body.points != 0))
            && (forall h :: 0 <= h < |holds| && holds[h].status.Committed? ==> CommittedInKey(s, h, holds[h].status.order))
            && (forall o, h :: 0 <= o < |all| && all[o].hold == Some(h) && h < |holds| && holds[h].status.Committed?
                  ==> holds[h].status.order == o)
            && (forall x, y :: x in s.sent && y in s.sent && x.CommitSent? && y.CommitSent? && x.hold == y.hold ==> x.order == y.order)
  {
    StartInv(s0);
    InvRun(s0, run);
    var s := Exec(s0, run);
    OneOrderPerKey(s);
    CommittedToCarrier(s);
    forall h | 0 <= h < |s.loyalty.holds| && s.loyalty.holds[h].status.Committed?
      ensures CommittedInKey(s, h, s.loyalty.holds[h].status.order)
    {
      CommittedUnderKey(s, h);
    }
    CommitsAgree(s);
    forall o | 0 <= o < |s.orders.all| ensures s.orders.all[o].hold.Some? <==> s.orders.all[o].body.points != 0 {
      assert OrderInv(s, o);
    }
  }

  predicate CommittedInKey(s: State, h: nat, o: nat)
    requires h < |s.loyalty.holds|
  {
    var all, holds := s.orders.all, s.loyalty.holds;
    && o < |all| && all[o].key == holds[h].key
    && all[o].hold.Some? && all[o].hold.value < |holds|
    && (all[o].hold == Some(h) <==> !holds[all[o].hold.value].status.Released?)
  }

  lemma CommittedUnderKey(s: State, h: nat)
    requires Inv(s) && h < |s.loyalty.holds| && s.loyalty.holds[h].status.Committed?
    ensures CommittedInKey(s, h, s.loyalty.holds[h].status.order)
  {
    assert HoldInv(s, h);
    assert OrderInv(s, s.loyalty.holds[h].status.order);
  }

  lemma CommittedToCarrier(s: State)
    requires Inv(s)
    ensures var all, holds := s.orders.all, s.loyalty.holds;
            forall o, h :: 0 <= o < |all| && all[o].hold == Some(h) && h < |holds| && holds[h].status.Committed?
              ==> holds[h].status.order == o
  {
    OneOrderPerKey(s);
    var all, holds := s.orders.all, s.loyalty.holds;
    forall o, h: nat | 0 <= o < |all| && all[o].hold == Some(h) && h < |holds| && holds[h].status.Committed?
      ensures holds[h].status.order == o
    {
      assert OrderInv(s, o) && HoldInv(s, h);
    }
  }

  lemma CommitsAgree(s: State)
    requires Inv(s)
    ensures forall x, y :: x in s.sent && y in s.sent && x.CommitSent? && y.CommitSent? && x.hold == y.hold ==> x.order == y.order
  {
    OneOrderPerKey(s);
    forall x, y | x in s.sent && y in s.sent && x.CommitSent? && y.CommitSent? && x.hold == y.hold
      ensures x.order == y.order
    {
      assert SentInv(s, x) && SentInv(s, y) && HoldInv(s, x.hold);
    }
  }

  lemma OneOrderPerKey(s: State)
    requires Inv(s)
    ensures var all := s.orders.all;
            && (forall o, o' :: 0 <= o < |all| && 0 <= o' < |all| && all[o].key == all[o'].key != "" ==> o == o')
            && (forall o, o' :: 0 <= o < |all| && 0 <= o' < |all| && all[o].hold == all[o'].hold != None ==> o == o')
  {
    forall o, o' | 0 <= o < |s.orders.all| && 0 <= o' < |s.orders.all|
      ensures s.orders.all[o].key == s.orders.all[o'].key != "" ==> o == o'
      ensures s.orders.all[o].hold == s.orders.all[o'].hold != None ==> o == o'
    {
      assert OrderInv(s, o) && OrderInv(s, o');
      if s.orders.all[o].hold.Some? { assert HoldInv(s, s.orders.all[o].hold.value); }
    }
  }

  // ---------------------------------------------------------------------
  // The discount
  // ---------------------------------------------------------------------

  predicate FitsInt32(points: int) { -0x8000_0000 <= points < 0x8000_0000 }

  lemma Int32Exact(points: int)
    ensures Int32(points) == points <==> FitsInt32(points)
    ensures FitsInt32(Int32(points))
  {
  }

  /** The most points that may be redeemed on a subtotal. */
  function MaxPoints(l: Loyalty, subtotal: int): int
    requires ProgramInv(l)
  {
    l.maxPercent * subtotal / (100 * l.pointValue)
  }

  lemma CapIsMaxPoints(l: Loyalty, points: int, subtotal: int)
    requires ProgramInv(l)
    ensures WithinCap(l, points, subtotal) <==> points <= MaxPoints(l, subtotal)
  {
    var d, n := 100 * l.pointValue, l.maxPercent * subtotal;
    assert points * l.pointValue * 100 == points * d;
    QuotientBound(points, d, n);
  }

  lemma QuotientBound(k: int, d: int, n: int)
    requires 0 < d
    ensures k * d <= n <==> k <= n / d
  {
    var q := n / d;
    assert n == q * d + n % d;
    if k <= q { assert k * d <= q * d; }
    if q < k { assert (q + 1) * d <= k * d; }
  }

  predicate WithinShare(l: Loyalty, discount: int, subtotal: int) {
    discount * 100 <= l.maxPercent * subtotal && discount <= subtotal
  }

  /** A discount against the hold behind it and against a subtotal. */
  predicate DiscountFor(l: Loyalty, points: int, hold: Option<nat>, discount: int, subtotal: int)
    requires ProgramInv(l)
  {
    hold.Some? && hold.value < |l.holds| &&
    var h := l.holds[hold.value];
    && (discount == h.points * l.pointValue <==> FitsInt32(points))
    && (discount <= subtotal <==> points <= subtotal / l.pointValue)
    && (FitsInt32(points) ==>
          && WithinShare(l, discount, h.subtotal)
          && (WithinShare(l, discount, subtotal) <==> points <= MaxPoints(l, subtotal))
          && (h.subtotal <= subtotal ==> WithinShare(l, discount, subtotal)))
  }

  /** In every run, the discount on a CreateOrder request with a hold is worth exactly
      the points the hold keeps if and only if RedeemPoints survives the narrowing to
      int32. It is then within the program's share of the subtotal the hold was granted
      on, and within the share of the request's own subtotal if and only if the points
      still pass the limit there, as they do when the price has not fallen. It does not
      exceed the request's subtotal, as kfc-order demands, if and only if the points
      are worth no more. */
  lemma RequestedDiscount(s0: State, run: seq<Step>, p: nat)
    requires Start(s0) && Legal(s0, run)
    requires In(Exec(s0, run), p, Calling) && Exec(s0, run).calls[p].hold.Some?
    ensures ProgramInv(Exec(s0, run).loyalty)
    ensures var s := Exec(s0, run);
            var c := s.calls[p];
            DiscountFor(s.loyalty, c.body.points, c.hold, Discount(c, s.loyalty.pointValue), c.subtotal)
  {
    StartInv(s0);
    InvRun(s0, run);
    var s := Exec(s0, run);
    assert CallInv(s, p);
    DiscountIn(s, s.calls[p].key, s.calls[p].body, s.calls[p].hold.value, s.calls[p].subtotal);
  }

  /** The same of the discount of every order that kfc-order stores, against the
      order's own subtotal. */
  lemma DiscountMatchesHold(s0: State, run: seq<Step>, o: nat)
    requires Start(s0) && Legal(s0, run)
    requires o < |Exec(s0, run).orders.all| && Exec(s0, run).orders.all[o].discount != 0
    ensures ProgramInv(Exec(s0, run).loyalty)
    ensures var s := Exec(s0, run);
            var x := s.orders.all[o];
            DiscountFor(s.loyalty, x.body.points, x.hold, x.discount, x.subtotal)
  {
    StartInv(s0);
    InvRun(s0, run);
    var s := Exec(s0, run);
    assert OrderInv(s, o) && s.orders.all[o].hold.Some?;
    DiscountIn(s, s.orders.all[o].key, s.orders.all[o].body, s.orders.all[o].hold.value, s.orders.all[o].subtotal);
  }

  lemma DiscountIn(s: State, key: string, body: Body, hold: nat, subtotal: int)
    requires Inv(s) && KnownBody(s, key, body) && Carries(s, key, body.points, Some(hold))
    ensures DiscountFor(s.loyalty, body.points, Some(hold), body.points * s.loyalty.pointValue, subtotal)
  {
    var l := s.loyalty;
    var h := l.holds[hold];
    assert HoldInv(s, hold);
    Int32Exact(body.points);
    SameValue(body.points, h.points, l.pointValue);
    QuotientBound(body.points, l.pointValue, subtotal);
    if FitsInt32(body.points) { ShareOf(l, h.points, h.subtotal, subtotal); }
  }

  lemma ShareOf(l: Loyalty, points: int, granted: int, subtotal: int)
    requires ProgramInv(l) && 0 < points && WithinCap(l, points, granted)
    ensures WithinShare(l, points * l.pointValue, granted)
    ensures WithinShare(l, points * l.pointValue, subtotal) <==> points <= MaxPoints(l, subtotal)
    ensures granted <= subtotal ==> WithinShare(l, points * l.pointValue, subtotal)
  {
    ShareIsCap(l, points, granted);
    ShareIsCap(l, points, subtotal);
    CapIsMaxPoints(l, points, subtotal);
    if granted <= subtotal { CapGrows(l, points, granted, subtotal); }
  }

  lemma CapGrows(l: Loyalty, points: int, granted: int, subtotal: int)
    requires ProgramInv(l) && WithinCap(l, points, granted) && granted <= subtotal
    ensures WithinCap(l, points, subtotal)
  {
    assert l.maxPercent * granted <= l.maxPercent * subtotal;
  }

  lemma SameValue(a: int, b: int, value: int)
    requires value > 0
    ensures a * value == b * value <==> a == b
  {
  }

  /** For a positive number of points the share is all there is to check: it is
      never more than the subtotal. */
  lemma ShareIsCap(l: Loyalty, points: int, subtotal: int)
    requires ProgramInv(l) && 0 < points
    ensures WithinShare(l, points * l.pointValue, subtotal) <==> WithinCap(l, points, subtotal)
  {
    var cost := points * l.pointValue;
    assert 0 < cost;
    if cost * 100 <= l.maxPercent * subtotal { CostFits(cost, l.maxPercent, subtotal); }
  }

  lemma CostFits(cost: int, percent: int, subtotal: int)
    requires 0 <= percent <= 100 && 0 < cost && cost * 100 <= percent * subtotal
    ensures cost <= subtotal
  {
    if 0 < subtotal { assert percent * subtotal <= 100 * subtotal; }
  }

  /** A hold granted on one subtotal is fit for a retry at another, whatever its
      points, if and only if no fewer points may be redeemed there. */
  lemma CapCarriesOver(l: Loyalty, granted: int, retried: int)
    requires ProgramInv(l)
    ensures (forall points :: 0 < points && WithinCap(l, points, granted) ==> WithinCap(l, points, retried))
            <==> MaxPoints(l, granted) <= 0 || MaxPoints(l, granted) <= MaxPoints(l, retried)
  {
    var most := MaxPoints(l, granted);
    CapIsMaxPoints(l, most, granted);
    CapIsMaxPoints(l, most, retried);
    forall points ensures WithinCap(l, points, granted) <==> points <= most { CapIsMaxPoints(l, points, granted); }
    forall points ensures WithinCap(l, points, retried) <==> points <= MaxPoints(l, retried) {
      CapIsMaxPoints(l, points, retried);
    }
  }
}
