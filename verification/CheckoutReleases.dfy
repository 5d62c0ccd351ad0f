/** When a ReleaseHold of userapi can meet an order's hold, before or after the
    order is created, and which discounts end up paid for. */
module CheckoutReleases {
  import opened Options
  import opened Checkout
  import opened CheckoutSafety

  predicate Carried(s: State, hold: Option<nat>) {
    exists o :: 0 <= o < |s.orders.all| && s.orders.all[o].hold == hold
  }

  /** Another call with this hold has made an order. */
  predicate MadeByAnother(s: State, p: nat, hold: Option<nat>) {
    exists q :: q in s.calls && q != p && s.calls[q].made && s.calls[q].hold == hold
  }

  lemma MakerCarries(s: State, hold: Option<nat>)
    requires Inv(s)
    ensures Carried(s, hold) <==> exists q :: q in s.calls && s.calls[q].made && s.calls[q].hold == hold
  {
    if Carried(s, hold) {
      var o :| 0 <= o < |s.orders.all| && s.orders.all[o].hold == hold;
      assert OrderInv(s, o);
      var q := s.orders.all[o].maker;
      assert q in s.calls && s.calls[q].made && s.calls[q].hold == hold;
    }
    if q :| q in s.calls && s.calls[q].made && s.calls[q].hold == hold {
      assert CallInv(s, q);
      assert s.orders.all[s.calls[q].order.value].hold == hold;
    }
  }

  // ---------------------------------------------------------------------
  // Every run
  // ---------------------------------------------------------------------

  /** In every run, the release that a definitely failed call is about to send is
      for a hold that an order carries if and only if another call that was given
      the same hold has made an order. */
  lemma ReleaseHitsIff(s0: State, run: seq<Step>, p: nat)
    requires Start(s0) && Legal(s0, run) && In(Exec(s0, run), p, Failed)
    ensures var s := Exec(s0, run); Carried(s, s.calls[p].hold) <==> MadeByAnother(s, p, s.calls[p].hold)
  {
    StartInv(s0);
    InvRun(s0, run);
    var s := Exec(s0, run);
    assert CallInv(s, p);
    MakerCarries(s, s.calls[p].hold);
  }

  /** Likewise for a release that took effect, whether the order came before it or
      comes after. */
  lemma ReleasedHoldIff(s0: State, run: seq<Step>, p: nat, h: nat)
    requires Start(s0) && Legal(s0, run) && h < |Exec(s0, run).loyalty.holds|
    requires Exec(s0, run).loyalty.holds[h].status == Released(ByCall(p))
    ensures var s := Exec(s0, run);
            && p in s.calls && s.calls[p].hold == Some(h) && !s.calls[p].made
            && (Carried(s, Some(h)) <==> MadeByAnother(s, p, Some(h)))
            && (Carried(s, Some(h)) ==> !s.calls[p].generated)
  {
    StartInv(s0);
    InvRun(s0, run);
    var s := Exec(s0, run);
    assert HoldInv(s, h);
    MakerCarries(s, Some(h));
    forall o | 0 <= o < |s.orders.all| && s.orders.all[o].hold == Some(h) ensures !s.calls[p].generated {
      assert OrderInv(s, o);
    }
  }

  /** When a call still has its release to send and an order carries its hold, that
      order was created after the call had failed, by another call with the same
      client-given key. */
  lemma ReleaseHitsOnlyYoungerOrder(s0: State, run: seq<Step>, p: nat, o: nat)
    requires Start(s0) && Legal(s0, run)
    requires var s := Exec(s0, run);
             In(s, p, Failed) && o < |s.orders.all| && s.orders.all[o].hold == s.calls[p].hold
    ensures var s := Exec(s0, run);
            var c, x := s.calls[p], s.orders.all[o];
            && c.failedAt < x.bornAt && x.key == c.key && x.maker in s.calls && x.maker != p && s.calls[x.maker].key == c.key
            && !c.generated
  {
    StartInv(s0);
    InvRun(s0, run);
    var s := Exec(s0, run);
    assert CallInv(s, p) && OrderInv(s, o);
  }

  /** With a generated key, never: and nothing was assumed of retries for it. */
  lemma GeneratedKeyIsSafe(s0: State, run: seq<Step>, p: nat)
    requires Start(s0) && Legal(s0, run) && In(Exec(s0, run), p, Failed) && Exec(s0, run).calls[p].generated
    ensures var s := Exec(s0, run); forall o :: 0 <= o < |s.orders.all| ==> s.orders.all[o].hold != s.calls[p].hold
  {
    var s := Exec(s0, run);
    forall o: nat | o < |s.orders.all| && s.orders.all[o].hold == s.calls[p].hold ensures false {
      ReleaseHitsOnlyYoungerOrder(s0, run, p, o);
    }
  }

  // ---------------------------------------------------------------------
  // Clients that wait before they retry
  // ---------------------------------------------------------------------

  /** Nobody starts a checkout while another with its key is under way. */
  predicate Alone(s: State, a: Step) {
    a.Begin? && a.key != "" ==> forall p :: p in s.calls && s.calls[p].key == a.key ==> s.calls[p].phase == Finished
  }

  predicate RetriesWait(s: State, run: seq<Step>)
    requires Legal(s, run)
    decreases |run|
  {
    run == [] || (Alone(s, run[0]) && RetriesWait(Apply(s, run[0]), run[1..]))
  }

  predicate OneAtATime(s: State) {
    forall p, q | p in s.calls && q in s.calls && s.calls[p].phase != Finished && s.calls[q].phase != Finished ::
      s.calls[p].key == s.calls[q].key != "" ==> p == q
  }

  /** A call that failed definitely finds its key without an order. */
  predicate FailedHasNoOrder(s: State) {
    forall p, o :: p in s.calls && In(s, p, Failed) && 0 <= o < |s.orders.all| ==> s.orders.all[o].key != s.calls[p].key
  }

  predicate ReleasedByCall(l: Loyalty, hold: Option<nat>) {
    hold.Some? && hold.value < |l.holds| && l.holds[hold.value].status.Released? && l.holds[hold.value].status.cause.ByCall?
  }

  /** No order, and no call that may still make one, has a hold that a call released. */
  predicate ReleasedUnused(s: State) {
    && (forall o :: 0 <= o < |s.orders.all| ==> !ReleasedByCall(s.loyalty, s.orders.all[o].hold))
    && (forall p :: p in s.calls && s.calls[p].phase in {Calling, Failed, Placed} ==> !ReleasedByCall(s.loyalty, s.calls[p].hold))
  }

  /** A step touches its own call only, and never changes its key. */
  lemma CallsAfter(s: State, a: Step)
    requires Enabled(s, a)
    ensures Apply(s, a).calls == if OfCall(a) then s.calls[a.p := Own(s, a)] else s.calls
    ensures OfCall(a) && a.p in s.calls ==> Own(s, a).key == s.calls[a.p].key && s.calls[a.p].phase != Finished
    ensures OfCall(a) && a.p !in s.calls ==> (a.Begin? || a.BeginGenerated?) && Own(s, a).key == a.key && Own(s, a).phase != Failed
    ensures OfCall(a) && Own(s, a).phase == Failed ==> a.CreateDefinite?
  {
  }

  lemma OneAtATimeStep(s: State, a: Step)
    requires Inv(s) && Enabled(s, a) && Alone(s, a) && OneAtATime(s)
    ensures OneAtATime(Apply(s, a))
  {
    CallsAfter(s, a);
    if a.BeginGenerated? { GeneratedIsNew(s, a); }
  }

  lemma GeneratedIsNew(s: State, a: Step)
    requires Inv(s) && Enabled(s, a) && a.BeginGenerated?
    ensures forall q :: q in s.calls ==> s.calls[q].key != a.key
  {
    forall q | q in s.calls ensures s.calls[q].key != a.key { assert CallInv(s, q); }
  }

  lemma FailedHasNoOrderStep(s: State, a: Step)
    requires Inv(s) && Enabled(s, a) && OneAtATime(s) && FailedHasNoOrder(s)
    ensures FailedHasNoOrder(Apply(s, a))
  {
    var s' := Apply(s, a);
    CallsAfter(s, a);
    forall p, o | p in s'.calls && In(s', p, Failed) && 0 <= o < |s'.orders.all|
      ensures s'.orders.all[o].key != s'.calls[p].key
    {
      if a == CreateDefinite(p) {
        DefiniteLeavesNone(s, p, o);
      } else {
        OthersOrderIsAnothers(s, a, p, o);
      }
    }
  }

  lemma DefiniteLeavesNone(s: State, p: nat, o: nat)
    requires Inv(s) && Enabled(s, CreateDefinite(p)) && In(Apply(s, CreateDefinite(p)), p, Failed) && o < |s.orders.all|
    ensures s.orders.all[o].key != s.calls[p].key
  {
    assert CallInv(s, p);
    DefiniteMeansNone(s, p);
  }

  /** While a call has failed, no other is creating an order under its key. */
  lemma OthersOrderIsAnothers(s: State, a: Step, p: nat, o: nat)
    requires Inv(s) && Enabled(s, a) && OneAtATime(s) && FailedHasNoOrder(s)
    requires In(s, p, Failed) && o < |Apply(s, a).orders.all|
    ensures Apply(s, a).orders.all[o].key != s.calls[p].key
  {
    assert CallInv(s, p);
  }

  /** A release that arrives leaves its hold to nobody. */
  lemma ReleasesUnused(s: State, p: nat)
    requires Inv(s) && Enabled(s, Release(p, true)) && OneAtATime(s) && FailedHasNoOrder(s)
    ensures forall o :: 0 <= o < |s.orders.all| ==> s.orders.all[o].hold != s.calls[p].hold
    ensures forall q :: q in s.calls && q != p && s.calls[q].phase in {Calling, Failed, Placed} ==> s.calls[q].hold != s.calls[p].hold
  {
    assert CallInv(s, p);
    forall o | 0 <= o < |s.orders.all| ensures s.orders.all[o].hold != s.calls[p].hold { assert OrderInv(s, o); }
    forall q | q in s.calls && q != p && s.calls[q].phase in {Calling, Failed, Placed} ensures s.calls[q].hold != s.calls[p].hold {
      assert CallInv(s, q);
    }
  }

  /** Only a release that arrives puts a hold among those that calls released. */
  lemma NewlyReleased(s: State, a: Step, hold: Option<nat>)
    requires Enabled(s, a) && ReleasedByCall(NextLoyalty(s, a), hold)
    ensures ReleasedByCall(s.loyalty, hold) || (a.Release? && a.arrives && hold == s.calls[a.p].hold)
  {
  }

  /** A hold that a call gets from kfc-loyalty is not a released one. */
  lemma HoldIsFresh(s: State, a: Step)
    requires Inv(s) && Enabled(s, a) && OfCall(a) && Own(s, a).phase in {Calling, Failed, Placed}
    ensures (a.p in s.calls && s.calls[a.p].phase in {Calling, Failed, Placed} && Own(s, a).hold == s.calls[a.p].hold)
            || !ReleasedByCall(NextLoyalty(s, a), Own(s, a).hold)
    ensures !a.Release?
  {
  }

  lemma ReleasedUnusedStep(s: State, a: Step)
    requires Inv(s) && Enabled(s, a) && OneAtATime(s) && FailedHasNoOrder(s) && ReleasedUnused(s)
    ensures ReleasedUnused(Apply(s, a))
  {
    var s' := Apply(s, a);
    CallsAfter(s, a);
    if a.Release? && a.arrives { ReleasesUnused(s, a.p); }
    forall o | 0 <= o < |s'.orders.all| ensures !ReleasedByCall(s'.loyalty, s'.orders.all[o].hold) {
      if ReleasedByCall(s'.loyalty, s'.orders.all[o].hold) {
        NewlyReleased(s, a, s'.orders.all[o].hold);
        assert false;
      }
    }
    forall p | p in s'.calls && s'.calls[p].phase in {Calling, Failed, Placed}
      ensures !ReleasedByCall(s'.loyalty, s'.calls[p].hold)
    {
      if OfCall(a) && a.p == p { HoldIsFresh(s, a); }
      if ReleasedByCall(s'.loyalty, s'.calls[p].hold) {
        NewlyReleased(s, a, s'.calls[p].hold);
        assert false;
      }
    }
  }

  ghost predicate WaitInv(s: State) {
    OneAtATime(s) && FailedHasNoOrder(s) && ReleasedUnused(s)
  }

  lemma {:induction false} WaitRun(s: State, run: seq<Step>)
    requires Inv(s) && Legal(s, run) && RetriesWait(s, run) && WaitInv(s)
    ensures WaitInv(Exec(s, run))
    decreases |run|
  {
    if run != [] {
      OneAtATimeStep(s, run[0]);
      FailedHasNoOrderStep(s, run[0]);
      ReleasedUnusedStep(s, run[0]);
      InvStep(s, run[0]);
      WaitRun(Apply(s, run[0]), run[1..]);
    }
  }

  /** If clients retry only after the previous checkout with that key has
      returned, no release ever goes to a hold that an order carries. */
  lemma WaitingRetriesAreSafe(s0: State, run: seq<Step>, p: nat)
    requires Start(s0) && Legal(s0, run) && RetriesWait(s0, run) && In(Exec(s0, run), p, Failed)
    ensures var s := Exec(s0, run); forall o :: 0 <= o < |s.orders.all| ==> s.orders.all[o].hold != s.calls[p].hold
  {
    StartInv(s0);
    WaitRun(s0, run);
    var s := Exec(s0, run);
    forall o: nat | o < |s.orders.all| && s.orders.all[o].hold == s.calls[p].hold ensures false {
      ReleaseHitsOnlyYoungerOrder(s0, run, p, o);
    }
  }

  /** A definite failure whose release arrives costs the member nothing: the hold
      is released, and if it was still held its points are available again. */
  lemma FailedCheckoutRestoresPoints(s0: State, run: seq<Step>, p: nat)
    requires Start(s0) && Legal(s0, run) && In(Exec(s0, run), p, Failed)
    requires RetriesWait(s0, run) || Exec(s0, run).calls[p].generated
    ensures var s := Exec(s0, run);
            var c := s.calls[p];
            Enabled(s, Release(p, true)) && c.hold.value < |s.loyalty.holds| && c.body.member in s.loyalty.available &&
            var s' := Apply(s, Release(p, true));
            var m, h, h' := c.body.member, s.loyalty.holds[c.hold.value], s'.loyalty.holds[c.hold.value];
            && h'.status.Released? && Kept(h', m) == 0
            && s'.loyalty.available[m] == s.loyalty.available[m] + Kept(h, m)
            && Conserved(s'.loyalty)
  {
    StartInv(s0);
    InvRun(s0, run);
    var s := Exec(s0, run);
    var c := s.calls[p];
    assert CallInv(s, p);
    var h := s.loyalty.holds[c.hold.value];
    assert HoldInv(s, c.hold.value);
    if h.status.Committed? {
      assert OrderInv(s, h.status.order);
      if !c.generated { WaitRun(s0, run); }
      assert false;
    }
    ConservedStep(s, Release(p, true));
  }

  // ---------------------------------------------------------------------
  // Discounts that are paid for
  // ---------------------------------------------------------------------

  /** How the hold of order `o` stands: it is kept for the order, or it expired. */
  predicate KeptOrExpired(s: State, o: nat)
    requires o < |s.orders.all| && s.orders.all[o].hold.Some?
  {
    var h := s.orders.all[o].hold.value;
    h < |s.loyalty.holds| && s.loyalty.holds[h].status in {Held, Committed(o), Released(Expiry)}
  }

  /** In every run in which retries wait, and for an order with a generated key in
      every run, the hold behind a discount is held, committed for that order, or
      was let expire; it expired if and only if an Expire step took it. */
  lemma DiscountsArePaid(s0: State, run: seq<Step>, o: nat)
    requires Start(s0) && Legal(s0, run) && o < |Exec(s0, run).orders.all| && Exec(s0, run).orders.all[o].hold.Some?
    requires RetriesWait(s0, run) || Exec(s0, run).orders.all[o].key in Exec(s0, run).generated
    ensures var s := Exec(s0, run);
            && KeptOrExpired(s, o)
            && var h := s.orders.all[o].hold.value;
               (s.loyalty.holds[h].status == Released(Expiry) <==> Expire(h) in run)
  {
    StartInv(s0);
    InvRun(s0, run);
    var s := Exec(s0, run);
    assert OrderInv(s, o);
    var h := s.orders.all[o].hold.value;
    assert HoldInv(s, h);
    CommittedToCarrier(s);
    if RetriesWait(s0, run) {
      WaitRun(s0, run);
    } else if s.loyalty.holds[h].status.Released? && s.loyalty.holds[h].status.cause.ByCall? {
      GeneratedIsItsMakers(s, o, s.loyalty.holds[h].status.cause.call);
      assert false;
    }
    ExpiredIff(s0, run, h);
  }

  lemma GeneratedIsItsMakers(s: State, o: nat, p: nat)
    requires Inv(s) && o < |s.orders.all| && s.orders.all[o].key in s.generated
    requires p in s.calls && s.calls[p].key == s.orders.all[o].key
    ensures s.calls[p].made
  {
    assert OrderInv(s, o);
    assert CallInv(s, s.orders.all[o].maker);
  }

  lemma StatusStep(s: State, a: Step, h: nat)
    requires Enabled(s, a) && h < |NextLoyalty(s, a).holds|
    requires h < |s.loyalty.holds| ==> s.loyalty.holds[h].member in s.loyalty.available
    ensures NextLoyalty(s, a).holds[h].status == Released(Expiry) <==>
            (h < |s.loyalty.holds| && s.loyalty.holds[h].status == Released(Expiry)) || a == Expire(h)
  {
  }

  lemma {:induction false} ExpiredIff(s: State, run: seq<Step>, h: nat)
    requires Inv(s) && Legal(s, run) && h < |Exec(s, run).loyalty.holds|
    ensures Exec(s, run).loyalty.holds[h].status == Released(Expiry) <==>
            (h < |s.loyalty.holds| && s.loyalty.holds[h].status == Released(Expiry)) || Expire(h) in run
    decreases |run|
  {
    if run != [] {
      var s' := Apply(s, run[0]);
      InvStep(s, run[0]);
      ExpiredIff(s', run[1..], h);
      if h < |s'.loyalty.holds| {
        if h < |s.loyalty.holds| { assert HoldInv(s, h); }
        StatusStep(s, run[0], h);
      } else {
        LoyaltyExtends(s, run[0]);
      }
      assert run == [run[0]] + run[1..];
    }
  }

  /** If no hold expires, every discount is paid for. */
  lemma PaidWithoutExpiry(s0: State, run: seq<Step>, o: nat)
    requires Start(s0) && Legal(s0, run) && (forall h :: Expire(h) !in run)
    requires o < |Exec(s0, run).orders.all| && Exec(s0, run).orders.all[o].hold.Some?
    requires RetriesWait(s0, run) || Exec(s0, run).orders.all[o].key in Exec(s0, run).generated
    ensures var s := Exec(s0, run);
            var h := s.orders.all[o].hold.value;
            h < |s.loyalty.holds| && s.loyalty.holds[h].status in {Held, Committed(o)}
  {
    DiscountsArePaid(s0, run, o);
  }
}
