/** order_service.go `place` as written, one backend call at a time, with every
    other checkout running in between. */
module OrderService {
  import opened Options
  import opened Checkout
  import opened CheckoutSafety
  import opened CheckoutReleases
  import P = PriceCart

  // gRPC status codes.
  datatype Code =
    | Canceled | Unknown | InvalidArgument | DeadlineExceeded | NotFound | AlreadyExists | PermissionDenied
    | ResourceExhausted | FailedPrecondition | Aborted | OutOfRange | Unimplemented | Internal | Unavailable
    | DataLoss | Unauthenticated

  /** A failed call that may still have succeeded. */
  predicate IsAmbiguous(c: Code) {
    match c
    case DeadlineExceeded | Unavailable | Canceled | Unknown => true
    case _ => false
  }

  datatype PlaceOrderRequest = PlaceOrderRequest(
    orderType: string, note: string, idempotencyKey: string, items: seq<P.CartItem>, redeemPoints: int)

  datatype MenuAnswer = Found(menu: P.Menu) | NoSuchRestaurant | MenuUnavailable

  datatype Outcome =
    | OrderPlaced(order: nat)
    | BadRequest(message: string)
    | RestaurantNotFound
    | MenuError
    | LoyaltyError
    | CreateFailed(code: Code)

  /** Go's unicode.IsSpace. */
  predicate IsSpace(c: char) {
    || '\t' <= c <= '\r' || c in {' ', '\U{85}', '\U{A0}', '\U{1680}', '\U{2028}', '\U{2029}', '\U{202F}', '\U{205F}', '\U{3000}'}
    || '\U{2000}' <= c <= '\U{200A}'
  }

  function TrimLeft(s: string): string {
    if s != "" && IsSpace(s[0]) then TrimLeft(s[1..]) else s
  }

  function TrimRight(s: string): string {
    if s != "" && IsSpace(s[|s| - 1]) then TrimRight(s[..|s| - 1]) else s
  }

  function TrimSpace(s: string): string {
    TrimRight(TrimLeft(s))
  }

  predicate AllSpace(s: string) {
    forall i :: 0 <= i < |s| ==> IsSpace(s[i])
  }

  lemma {:induction false} LeftTrimmed(s: string) returns (before: string)
    ensures s == before + TrimLeft(s) && AllSpace(before) && (TrimLeft(s) != "" ==> !IsSpace(TrimLeft(s)[0]))
  {
    if s != "" && IsSpace(s[0]) {
      var rest := LeftTrimmed(s[1..]);
      before := [s[0]] + rest;
      assert s == [s[0]] + s[1..];
    } else {
      before := "";
    }
  }

  lemma {:induction false} RightTrimmed(s: string) returns (after: string)
    ensures s == TrimRight(s) + after && AllSpace(after)
    ensures var t := TrimRight(s); t != "" ==> !IsSpace(t[|t| - 1]) && t[0] == s[0]
  {
    var n := |s| - 1;
    if s != "" && IsSpace(s[n]) {
      var rest := RightTrimmed(s[..n]);
      after := rest + [s[n]];
      assert s == s[..n] + [s[n]];
    } else {
      after := "";
    }
  }

  /** Trimming takes off white space at both ends, all of it, and nothing else. */
  lemma TrimMeans(s: string) returns (before: string, after: string)
    ensures var t := TrimSpace(s);
            && s == before + t + after && AllSpace(before) && AllSpace(after)
            && (t != "" ==> !IsSpace(t[0]) && !IsSpace(t[|t| - 1]))
  {
    before := LeftTrimmed(s);
    after := RightTrimmed(TrimLeft(s));
  }

  /** The CreateOrder request that place fills in. */
  class CreateOrderRequest {
    var restaurantId: string
    var orderType: string
    var note: string
    var currency: string
    var idempotencyKey: string
    var lines: seq<P.Line>
    var memberId: string
    var loyaltyHoldId: Option<nat>
    var pointsRedeemed: int
    var discount: int

    constructor ()
      ensures loyaltyHoldId == None && pointsRedeemed == 0 && discount == 0 && memberId == ""
    {
      restaurantId, orderType, note, currency, idempotencyKey := "", "", "", "", "";
      lines, memberId, loyaltyHoldId, pointsRedeemed, discount := [], "", None, 0, 0;
    }

    method FillIn(restaurantId: string, req: PlaceOrderRequest, currency: string, lines: seq<P.Line>, memberId: Option<string>)
      modifies `restaurantId, `orderType, `note, `currency, `idempotencyKey, `lines, `memberId
      ensures this.restaurantId == restaurantId && this.orderType == req.orderType && this.note == TrimSpace(req.note)
      ensures this.currency == currency && this.idempotencyKey == req.idempotencyKey && this.lines == lines
      ensures this.memberId == if memberId.Some? then memberId.value else old(this.memberId)
    {
      this.restaurantId := restaurantId;
      this.orderType := req.orderType;
      this.note := TrimSpace(req.note);
      this.currency := currency;
      this.idempotencyKey := req.idempotencyKey;
      this.lines := lines;
      if memberId.Some? { this.memberId := memberId.value; }
    }
  }

  // ---------------------------------------------------------------------
  // One call among all the others
  // ---------------------------------------------------------------------

  predicate Belongs(a: Step, p: nat) {
    OfCall(a) && a.p == p
  }

  predicate Foreign(run: seq<Step>, p: nat) {
    forall a :: a in run ==> !Belongs(a, p)
  }

  /** The holds that call `p` has sent a ReleaseHold for. */
  function ReleasedBy(s: State, p: nat): set<nat> {
    set x | x in s.sent && x.ReleaseSent? && x.call == p :: x.hold
  }

  /** What no step of another call changes: the call's own record, what it sent, and the program. */
  predicate SameFor(s: State, s': State, p: nat) {
    && (p in s'.calls <==> p in s.calls) && (p in s.calls ==> s'.calls[p] == s.calls[p])
    && ReleasedBy(s', p) == ReleasedBy(s, p)
    && s'.loyalty.pointValue == s.loyalty.pointValue
  }

  lemma ForeignStep(s: State, a: Step, p: nat)
    requires Enabled(s, a) && !Belongs(a, p)
    ensures SameFor(s, Apply(s, a), p)
  {
  }

  lemma {:induction false} ForeignRun(s: State, run: seq<Step>, p: nat)
    requires Legal(s, run) && Foreign(run, p)
    ensures SameFor(s, Exec(s, run), p)
    decreases |run|
  {
    if run != [] {
      assert run[0] in run;
      ForeignStep(s, run[0], p);
      ForeignRun(Apply(s, run[0]), run[1..], p);
    }
  }

  /** The two services, shared by every replica, and all calls in flight. */
  class Backend {
    var s: State
    ghost var first: State
    ghost var run: seq<Step>

    ghost predicate Valid() reads this {
      Start(first) && LeadsTo(first, run, s)
    }

    constructor (start: State)
      requires Start(start)
      ensures Valid() && s == start
    {
      s, first, run := start, start, [];
    }

    /** One step of our call. */
    method Move(p: nat, a: Checkout.Step)
      requires Valid() && Enabled(s, a) && Belongs(a, p)
      modifies `s, `run
      ensures Valid() && old(run) <= run
      ensures p in s.calls && s.calls[p] == Own(old(s), a)
      ensures ReleasedBy(s, p) == ReleasedBy(old(s), p) + if a.Release? then {old(s).calls[p].hold.value} else {}
      ensures s.loyalty.pointValue == old(s).loyalty.pointValue
      ensures old(s).sent <= s.sent && (a.Commit? ==> CommitSent(old(s).calls[p].hold.value, old(s).calls[p].order.value) in s.sent)
    {
      Extend(first, run, s, a);
      assert NextLoyalty(s, a).pointValue == s.loyalty.pointValue;
      s, run := Apply(s, a), run + [a];
    }

    /** Anything the others may do between two steps of call `p`. */
    method Interfere(p: nat)
      requires Valid()
      modifies `s, `run
      ensures Valid() && old(run) <= run && first == old(first) && SameFor(old(s), s, p)
    {
      assert Legal(s, []) && Foreign([], p);
      var more: seq<Checkout.Step> :| Legal(s, more) && Foreign(more, p);
      RunSplits(first, run, more);
      ForeignRun(s, more, p);
      s, run := Exec(s, more), run + more;
    }
  }

  // ---------------------------------------------------------------------
  // CreateOrder and ReservePoints
  // ---------------------------------------------------------------------

  // How the two services fare with a checkout: whether GetProgram answers, whether
  // kfc-loyalty grants a hold if it can and its answer arrives, whether CreateOrder
  // arrives, and what failure it answers with, if any.
  datatype Fates = Fates(program: bool, grants: bool, heard: bool, delivered: bool, refusal: Option<Code>)

  /** What a checkout is stays the same from its first request to its last. */
  predicate SameCheckout(c: Call, c': Call) {
    c'.key == c.key && c'.generated == c.generated && c'.body == c.body && c'.subtotal == c.subtotal && c'.hold == c.hold
  }

  /** The CreateOrder request reaches kfc-order, or not. */
  method DeliverOrder(be: Backend, p: nat, delivered: bool)
    requires be.Valid() && In(be.s, p, Calling) && be.s.calls[p].order.None?
    modifies be`s, be`run
    ensures be.Valid() && old(be.run) <= be.run && ReleasedBy(be.s, p) == ReleasedBy(old(be.s), p)
    ensures In(be.s, p, Calling) && (be.s.calls[p].order.Some? <==> delivered) && (be.s.calls[p].made ==> delivered || old(be.s.calls[p]).made)
    ensures SameCheckout(old(be.s.calls[p]), be.s.calls[p])
  {
    be.Interfere(p);
    if !delivered { return; }
    be.Move(p, CreateEffect(p));
    be.Interfere(p);
  }

  /** The code of a failure is the one kfc-order gave, unless that is definite and may
      not be given: then none is heard. */
  predicate CodeFits(code: Code, refusal: Option<Code>, delivered: bool, generated: bool) {
    var given := if refusal.Some? then refusal.value else Unavailable;
    code == given || (code == Unavailable && !IsAmbiguous(given) && (delivered || !generated))
  }

  /** kfc-order answers CreateOrder, or the answer is lost. A code outside the
      ambiguous four is given only where the assumptions allow it, and always for a
      generated key whose request did not arrive. */
  method CreateOrderCall(be: Backend, p: nat, delivered: bool, refusal: Option<Code>) returns (ok: bool, code: Code)
    requires be.Valid() && In(be.s, p, Calling) && be.s.calls[p].order.None? && !be.s.calls[p].made
    modifies be`s, be`run
    ensures be.Valid() && old(be.run) <= be.run && ReleasedBy(be.s, p) == ReleasedBy(old(be.s), p)
    ensures p in be.s.calls && SameCheckout(old(be.s.calls[p]), be.s.calls[p]) && (be.s.calls[p].order.Some? <==> delivered)
    ensures ok == (delivered && refusal.None?)
    ensures !ok ==> CodeFits(code, refusal, delivered, old(be.s.calls[p]).generated)
    ensures be.s.calls[p].phase ==
      if old(be.s.calls[p]).hold.None? then Finished
      else if ok then Placed
      else if IsAmbiguous(code) then Finished
      else Failed
  {
    DeliverOrder(be, p, delivered);
    code := if refusal.Some? then refusal.value else Unavailable;
    ok := delivered && refusal.None?;
    if ok {
      be.Move(p, CreateOk(p));
      return;
    }
    if !IsAmbiguous(code) && !Enabled(be.s, CreateDefinite(p)) { code := Unavailable; }
    be.Move(p, if IsAmbiguous(code) then CreateAmbiguous(p) else CreateDefinite(p));
  }

  /** At this point of a run kfc-loyalty had no hold for the call and could grant none. */
  ghost predicate CouldNotGrant(first: State, run: seq<Step>, at: nat, p: nat) {
    at <= |run| && Legal(first, run[..at]) &&
    var s := Exec(first, run[..at]);
    In(s, p, Begun) && HoldFor(s.loyalty, s.calls[p].key).None? && !Grantable(s.loyalty, s.calls[p].body, s.calls[p].subtotal)
  }

  /** Why a checkout gets no hold: a call failed, or kfc-loyalty could grant none. */
  ghost predicate NoHold(first: State, run: seq<Step>, at: nat, p: nat, f: Fates) {
    !f.program || !f.grants || !f.heard || CouldNotGrant(first, run, at, p)
  }

  /** kfc-loyalty answers ReservePoints: it may refuse, and its answer may be lost. */
  method ReserveCall(be: Backend, p: nat, grants: bool, heard: bool) returns (hold: Option<nat>, ghost at: nat)
    requires be.Valid() && In(be.s, p, Begun)
    modifies be`s, be`run
    ensures be.Valid() && old(be.run) <= be.run
    ensures ReleasedBy(be.s, p) == ReleasedBy(old(be.s), p) && be.s.loyalty.pointValue == old(be.s.loyalty.pointValue)
    ensures p in be.s.calls
    ensures hold.Some? ==> be.s.calls[p] == old(be.s.calls[p]).(phase := Calling, hold := hold)
    ensures hold.None? ==> be.s.calls[p] == old(be.s.calls[p]).(phase := Finished)
    ensures hold.None? ==> !grants || !heard || CouldNotGrant(be.first, be.run, at, p)
  {
    be.Interfere(p);
    at := |be.run|;
    ghost var before := be.run;
    assert before[..at] == before;
    if grants && Enabled(be.s, Reserve(p, heard)) {
      be.Move(p, Reserve(p, heard));
      return if heard then be.s.calls[p].hold else None, at;
    }
    be.Move(p, ReserveRefused(p));
    assert be.run[..at] == before;
    return None, at;
  }

  /** GetProgram and ReservePoints. */
  method PriceAndReserve(be: Backend, p: nat, f: Fates) returns (hold: Option<nat>, pointValue: int, ghost at: nat)
    requires be.Valid() && In(be.s, p, Begun)
    modifies be`s, be`run
    ensures be.Valid() && old(be.run) <= be.run && ReleasedBy(be.s, p) == ReleasedBy(old(be.s), p)
    ensures hold.Some? ==> pointValue == old(be.s.loyalty.pointValue) == be.s.loyalty.pointValue
    ensures p in be.s.calls
    ensures hold.Some? ==> be.s.calls[p] == old(be.s.calls[p]).(phase := Calling, hold := hold)
    ensures hold.None? ==> be.s.calls[p] == old(be.s.calls[p]).(phase := Finished)
    ensures hold.None? ==> NoHold(be.first, be.run, at, p, f)
  {
    hold, pointValue, at := None, 0, 0;
    be.Interfere(p);
    if !f.program {
      be.Move(p, ReserveRefused(p));
      return;
    }
    pointValue := be.s.loyalty.pointValue;
    hold, at := ReserveCall(be, p, f.grants, f.heard);
  }

  method SubtotalOf(lines: seq<P.Line>) returns (subtotal: int)
    ensures subtotal == P.Subtotal(lines)
  {
    subtotal := 0;
    for k := 0 to |lines|
      invariant subtotal == P.Subtotal(lines[..k])
    {
      subtotal := subtotal + lines[k].unitPrice * lines[k].quantity;
      assert lines[..k + 1][..k] == lines[..k];
    }
    assert lines[..|lines|] == lines;
  }

  /** What is assumed of keys: a client's key always comes with the same member,
      restaurant and points and is never a generated one, and a generated one is new. */
  predicate KeyFits(s: State, key: string, newKey: string, body: Body) {
    if key != "" then key !in s.generated && (key in s.bodies ==> s.bodies[key] == body)
    else newKey != "" && newKey !in s.bodies
  }

  method BeginCall(be: Backend, p: nat, key: string, generated: bool, body: Body, subtotal: int)
    requires be.Valid() && p !in be.s.calls && 0 < body.points
    requires if generated then KeyFits(be.s, "", key, body) else key != "" && KeyFits(be.s, key, "", body)
    modifies be`s, be`run
    ensures be.Valid() && old(be.run) <= be.run && p in be.s.calls
    ensures be.s.calls[p] == Call(key, generated, body, subtotal, Begun, None, None, false, 0)
    ensures ReleasedBy(be.s, p) == ReleasedBy(old(be.s), p) && be.s.loyalty.pointValue == old(be.s.loyalty.pointValue)
  {
    be.Move(p, if generated then BeginGenerated(p, key, body, subtotal) else Begin(p, key, body, subtotal));
  }

  /** A new call with points, up to its hold or to none. */
  method BeginAndReserve(be: Backend, p: nat, key: string, generated: bool, body: Body, subtotal: int, f: Fates)
    returns (hold: Option<nat>, pointValue: int, ghost at: nat)
    requires be.Valid() && p !in be.s.calls && 0 < body.points
    requires if generated then KeyFits(be.s, "", key, body) else key != "" && KeyFits(be.s, key, "", body)
    modifies be`s, be`run
    ensures be.Valid() && old(be.run) <= be.run && ReleasedBy(be.s, p) == ReleasedBy(old(be.s), p)
    ensures hold.Some? ==> pointValue == old(be.s.loyalty.pointValue)
    ensures p in be.s.calls &&
      be.s.calls[p] == Call(key, generated, body, subtotal, if hold.Some? then Calling else Finished, hold, None, false, 0)
    ensures hold.None? ==> NoHold(be.first, be.run, at, p, f)
  {
    BeginCall(be, p, key, generated, body, subtotal);
    hold, pointValue, at := PriceAndReserve(be, p, f);
  }

  /** The call's record when it has a hold, or when it got none. */
  predicate Reserved(c: Call, base: CreateOrderRequest, generated: bool, body: Body, phase: Phase)
    reads base
  {
    c == Call(base.idempotencyKey, generated, body, P.Subtotal(base.lines), phase, if phase == Calling then base.loyaltyHoldId else None, None, false, 0)
  }

  /** reservePoints: the hold and the discount on the request, or a refusal. */
  method ReservePoints(be: Backend, p: nat, base: CreateOrderRequest, redeemPoints: int, memberId: Option<string>, newKey: string, f: Fates)
    returns (hold: Option<nat>, refusal: Outcome, ghost at: nat)
    requires be.Valid() && p !in be.s.calls && redeemPoints != 0
    requires memberId.Some? ==>
      KeyFits(be.s, base.idempotencyKey, newKey, Body(memberId.value, base.restaurantId, redeemPoints))
    modifies be`s, be`run, base`idempotencyKey, base`loyaltyHoldId, base`pointsRedeemed, base`discount
    ensures be.Valid() && old(be.run) <= be.run && ReleasedBy(be.s, p) == ReleasedBy(old(be.s), p)
    ensures memberId.None? || redeemPoints < 0 ==> hold.None? && refusal.BadRequest? && be.s == old(be.s)
    ensures memberId.Some? && redeemPoints > 0 ==>
      && p in be.s.calls
      && base.idempotencyKey == (if old(base.idempotencyKey) == "" then newKey else old(base.idempotencyKey))
      && Reserved(be.s.calls[p], base, old(base.idempotencyKey) == "", Body(memberId.value, base.restaurantId, redeemPoints),
                  if hold.Some? then Calling else Finished)
      && (hold.None? ==> NoHold(be.first, be.run, at, p, f))
    ensures hold.Some? ==>
      && memberId.Some? && redeemPoints > 0
      && base.loyaltyHoldId == hold && base.pointsRedeemed == Int32(redeemPoints)
      && base.discount == redeemPoints * old(be.s).loyalty.pointValue
    ensures hold.None? ==>
      && refusal == (if memberId.None? then BadRequest("sign in or scan your loyalty code to use points")
                     else if redeemPoints < 0 then BadRequest("points must be positive") else LoyaltyError)
      && base.loyaltyHoldId == old(base.loyaltyHoldId) && base.discount == old(base.discount)
  {
    hold, refusal, at := None, LoyaltyError, 0;
    if memberId.None? { return None, BadRequest("sign in or scan your loyalty code to use points"), at; }
    if redeemPoints < 0 { return None, BadRequest("points must be positive"), at; }
    var generated := base.idempotencyKey == "";
    if generated { base.idempotencyKey := newKey; }
    var subtotal := SubtotalOf(base.lines);
    var pointValue;
    hold, pointValue, at :=
      BeginAndReserve(be, p, base.idempotencyKey, generated, Body(memberId.value, base.restaurantId, redeemPoints), subtotal, f);
    if hold.None? { return; }
    base.loyaltyHoldId := hold;
    base.pointsRedeemed := Int32(redeemPoints);
    base.discount := redeemPoints * pointValue;
  }

  // ---------------------------------------------------------------------
  // place
  // ---------------------------------------------------------------------

  function MemberOf(memberId: Option<string>): string {
    if memberId.Some? then memberId.value else ""
  }

  /** What the checkout of a request is about, whatever its price. */
  function BodyOf(restaurantId: string, req: PlaceOrderRequest, memberId: Option<string>): Body {
    Body(MemberOf(memberId), restaurantId, req.redeemPoints)
  }

  method BeginWithout(be: Backend, p: nat, key: string, body: Body, subtotal: int)
    requires be.Valid() && p !in be.s.calls && body.points == 0 && (key != "" ==> KeyFits(be.s, key, "", body))
    modifies be`s, be`run
    ensures be.Valid() && old(be.run) <= be.run && p in be.s.calls
    ensures be.s.calls[p] == Call(key, false, body, subtotal, Calling, None, None, false, 0)
    ensures ReleasedBy(be.s, p) == ReleasedBy(old(be.s), p) && be.s.loyalty.pointValue == old(be.s.loyalty.pointValue)
  {
    StartInv(be.first);
    InvRun(be.first, be.run);
    be.Move(p, Begin(p, key, body, subtotal));
  }

  /** CreateOrder failed with a code that says that there is no order. */
  predicate FailsDefinitely(r: Outcome) {
    r.CreateFailed? && r.code != DeadlineExceeded && r.code != Unavailable && r.code != Canceled && r.code != Unknown
  }

  /** How a checkout that reached CreateOrder with this hold settles it: a definite
      failure sends its release and nothing else does; a success sends the commit,
      for the order it returns. */
  predicate Settled(s: State, s': State, p: nat, hold: Option<nat>, r: Outcome) {
    && ReleasedBy(s', p) == ReleasedBy(s, p) + (if FailsDefinitely(r) && hold.Some? then {hold.value} else {})
    && (r.OrderPlaced? ==>
          && p in s'.calls && s'.calls[p].order == Some(r.order)
          && (hold.Some? ==> CommitSent(hold.value, r.order) in s'.sent))
  }

  predicate CarriedByNone(s: State, hold: Option<nat>) {
    forall o :: 0 <= o < |s.orders.all| ==> s.orders.all[o].hold != hold
  }

  /** The part of place from CreateOrder on: commit, release, or leave the hold. */
  method Submit(be: Backend, p: nat, f: Fates) returns (r: Outcome, ghost atRelease: State)
    requires be.Valid() && In(be.s, p, Calling) && be.s.calls[p].order.None? && !be.s.calls[p].made
    modifies be`s, be`run
    ensures be.Valid() && old(be.run) <= be.run
    ensures if f.delivered && f.refusal.None? then r.OrderPlaced? else r.CreateFailed?
    ensures p in be.s.calls && SameCheckout(old(be.s.calls[p]), be.s.calls[p]) && (be.s.calls[p].order.Some? <==> f.delivered)
    ensures r.CreateFailed? ==> CodeFits(r.code, f.refusal, f.delivered, old(be.s.calls[p]).generated)
    ensures Settled(old(be.s), be.s, p, old(be.s.calls[p]).hold, r)
    ensures FailsDefinitely(r) && old(be.s.calls[p]).hold.Some? && old(be.s.calls[p]).generated ==>
      CarriedByNone(atRelease, old(be.s.calls[p]).hold)
  {
    atRelease := be.s;
    var ok, code := CreateOrderCall(be, p, f.delivered, f.refusal);
    be.Interfere(p);
    if !ok {
      atRelease := ReleaseIfDefinite(be, p, code);
      return CreateFailed(code), atRelease;
    }
    var order := be.s.calls[p].order.value;
    if be.s.calls[p].hold.Some? { CommitHold(be, p); }
    return OrderPlaced(order), atRelease;
  }

  /** ReleaseHold after a definite failure with a hold; whether it arrives is not heard. */
  method ReleaseIfDefinite(be: Backend, p: nat, code: Code) returns (ghost atRelease: State)
    requires be.Valid() && p in be.s.calls
    requires be.s.calls[p].phase == if be.s.calls[p].hold.None? || IsAmbiguous(code) then Finished else Failed
    modifies be`s, be`run
    ensures be.Valid() && old(be.run) <= be.run
    ensures p in be.s.calls && SameCheckout(old(be.s.calls[p]), be.s.calls[p]) && be.s.calls[p].order == old(be.s.calls[p]).order
    ensures var hold := old(be.s.calls[p]).hold;
      ReleasedBy(be.s, p) == ReleasedBy(old(be.s), p) + if FailsDefinitely(CreateFailed(code)) && hold.Some? then {hold.value} else {}
    ensures FailsDefinitely(CreateFailed(code)) && old(be.s.calls[p]).hold.Some? && old(be.s.calls[p]).generated ==>
      CarriedByNone(atRelease, old(be.s.calls[p]).hold)
  {
    atRelease := be.s;
    if be.s.calls[p].hold.Some? && !IsAmbiguous(code) {
      if be.s.calls[p].generated { CarriedNowhere(be.first, be.run, be.s, p); }
      SendRelease(be, p);
    }
  }

  lemma CarriedNowhere(first: State, run: seq<Step>, s: State, p: nat)
    requires Start(first) && LeadsTo(first, run, s) && In(s, p, Failed) && s.calls[p].hold.Some? && s.calls[p].generated
    ensures CarriedByNone(s, s.calls[p].hold)
  {
    GeneratedKeyIsSafe(first, run, p);
  }

  method SendRelease(be: Backend, p: nat)
    requires be.Valid() && In(be.s, p, Failed) && be.s.calls[p].hold.Some?
    modifies be`s, be`run
    ensures be.Valid() && old(be.run) <= be.run
    ensures p in be.s.calls && SameCheckout(old(be.s.calls[p]), be.s.calls[p]) && be.s.calls[p].order == old(be.s.calls[p]).order
    ensures ReleasedBy(be.s, p) == ReleasedBy(old(be.s), p) + {old(be.s.calls[p]).hold.value}
  {
    var arrives: bool := *;
    be.Move(p, Release(p, arrives));
  }

  method CommitHold(be: Backend, p: nat)
    requires be.Valid() && In(be.s, p, Placed) && be.s.calls[p].hold.Some? && be.s.calls[p].order.Some?
    modifies be`s, be`run
    ensures be.Valid() && old(be.run) <= be.run && ReleasedBy(be.s, p) == ReleasedBy(old(be.s), p)
    ensures p in be.s.calls && SameCheckout(old(be.s.calls[p]), be.s.calls[p]) && be.s.calls[p].order == old(be.s.calls[p]).order
    ensures CommitSent(be.s.calls[p].hold.value, be.s.calls[p].order.value) in be.s.sent
  {
    var arrives: bool := *;
    be.Move(p, Commit(p, arrives));
  }

  /** The call's record is this request's checkout, and its hold the member's own. */
  predicate CheckoutOf(s: State, p: nat, base: CreateOrderRequest, body: Body, delivered: bool)
    reads base
  {
    && p in s.calls && s.calls[p].key == base.idempotencyKey && s.calls[p].body == body
    && s.calls[p].subtotal == P.Subtotal(base.lines) && s.calls[p].hold == base.loyaltyHoldId
    && (s.calls[p].order.Some? <==> delivered)
    && (base.loyaltyHoldId.Some? ==>
          && base.loyaltyHoldId.value < |s.loyalty.holds|
          && var h := s.loyalty.holds[base.loyaltyHoldId.value];
             h.member == body.member && h.points == Int32(body.points) && h.key == base.idempotencyKey)
  }

  /** The order a checkout was answered with is stored under its key. */
  predicate PlacedUnderKey(s: State, r: Outcome, key: string) {
    r.OrderPlaced? ==> r.order < |s.orders.all| && s.orders.all[r.order].key == key
  }

  lemma CheckoutKnown(first: State, run: seq<Step>, s: State, p: nat)
    requires Start(first) && LeadsTo(first, run, s) && p in s.calls
    ensures var c := s.calls[p];
            && (c.hold.Some? ==> c.hold.value < |s.loyalty.holds|)
            && (c.hold.Some? ==>
                  var h := s.loyalty.holds[c.hold.value];
                  h.member == c.body.member && h.points == Int32(c.body.points) && h.key == c.key)
            && (c.order.Some? ==> c.order.value < |s.orders.all| && s.orders.all[c.order.value].key == c.key)
  {
    StartInv(first);
    InvRun(first, run);
    assert CallInv(s, p);
    if s.calls[p].hold.Some? { assert HoldInv(s, s.calls[p].hold.value); }
  }

  /** The part of place after pricing: `base` is filled in but for its loyalty fields. */
  method PlacePriced(be: Backend, p: nat, base: CreateOrderRequest, req: PlaceOrderRequest, memberId: Option<string>, newKey: string, f: Fates)
    returns (r: Outcome, ghost atRelease: State, ghost at: nat)
    requires be.Valid() && p !in be.s.calls && base.loyaltyHoldId == None && base.pointsRedeemed == 0 && base.discount == 0
    requires base.idempotencyKey == req.idempotencyKey && KeyFits(be.s, base.idempotencyKey, newKey, BodyOf(base.restaurantId, req, memberId))
    modifies be`s, be`run, base`idempotencyKey, base`loyaltyHoldId, base`pointsRedeemed, base`discount
    ensures be.Valid() && old(be.run) <= be.run
    ensures AnswersAs(r, req, memberId, f) && (r == LoyaltyError ==> NoHold(be.first, be.run, at, p, f))
    ensures r.BadRequest? ==> be.s == old(be.s)
    ensures r.OrderPlaced? || r.CreateFailed? ==>
      && base.idempotencyKey == (if req.redeemPoints != 0 && old(base.idempotencyKey) == "" then newKey else old(base.idempotencyKey))
      && (base.loyaltyHoldId.Some? <==> req.redeemPoints != 0) && base.pointsRedeemed == Int32(req.redeemPoints)
      && base.discount == req.redeemPoints * old(be.s).loyalty.pointValue
      && CheckoutOf(be.s, p, base, BodyOf(base.restaurantId, req, memberId), f.delivered) && PlacedUnderKey(be.s, r, base.idempotencyKey)
    ensures Settled(old(be.s), be.s, p, base.loyaltyHoldId, r)
    ensures FailsDefinitely(r) && base.loyaltyHoldId.Some? && old(base.idempotencyKey) == "" ==>
      CarriedByNone(atRelease, base.loyaltyHoldId)
  {
    atRelease := be.s;
    var refusal;
    refusal, at := Prepare(be, p, base, req, memberId, newKey, f);
    if refusal.Some? { return refusal.value, atRelease, at; }
    r, atRelease := SubmitRequest(be, p, base, BodyOf(base.restaurantId, req, memberId), f);
  }

  /** The part of place between pricing and CreateOrder: a hold, if points are asked for. */
  method Prepare(be: Backend, p: nat, base: CreateOrderRequest, req: PlaceOrderRequest, memberId: Option<string>, newKey: string, f: Fates)
    returns (refusal: Option<Outcome>, ghost at: nat)
    requires be.Valid() && p !in be.s.calls && base.loyaltyHoldId == None && base.pointsRedeemed == 0 && base.discount == 0
    requires base.idempotencyKey == req.idempotencyKey && KeyFits(be.s, base.idempotencyKey, newKey, BodyOf(base.restaurantId, req, memberId))
    modifies be`s, be`run, base`idempotencyKey, base`loyaltyHoldId, base`pointsRedeemed, base`discount
    ensures be.Valid() && old(be.run) <= be.run && ReleasedBy(be.s, p) == ReleasedBy(old(be.s), p)
    ensures refusal.Some? ==>
      && req.redeemPoints != 0 && base.loyaltyHoldId == None
      && refusal.value == (if memberId.None? then BadRequest("sign in or scan your loyalty code to use points")
                           else if req.redeemPoints < 0 then BadRequest("points must be positive") else LoyaltyError)
      && (refusal.value.BadRequest? ==> be.s == old(be.s))
      && (refusal.value.LoyaltyError? ==> NoHold(be.first, be.run, at, p, f))
    ensures refusal.None? ==>
      && (req.redeemPoints != 0 ==> memberId.Some? && req.redeemPoints > 0)
      && base.idempotencyKey == (if req.redeemPoints != 0 && req.idempotencyKey == "" then newKey else req.idempotencyKey)
      && (base.loyaltyHoldId.Some? <==> req.redeemPoints != 0) && base.pointsRedeemed == Int32(req.redeemPoints)
      && base.discount == req.redeemPoints * old(be.s).loyalty.pointValue
      && p in be.s.calls
      && Reserved(be.s.calls[p], base, req.redeemPoints != 0 && req.idempotencyKey == "", BodyOf(base.restaurantId, req, memberId), Calling)
  {
    at := 0;
    if req.redeemPoints != 0 {
      var hold, r;
      hold, r, at := ReservePoints(be, p, base, req.redeemPoints, memberId, newKey, f);
      return if hold.None? then Some(r) else None, at;
    }
    BeginWithout(be, p, base.idempotencyKey, BodyOf(base.restaurantId, req, memberId), P.Subtotal(base.lines));
    return None, at;
  }

  /** Submit, for a request that says what the call's record says. */
  method SubmitRequest(be: Backend, p: nat, base: CreateOrderRequest, body: Body, f: Fates)
    returns (r: Outcome, ghost atRelease: State)
    requires be.Valid() && In(be.s, p, Calling) && be.s.calls[p].order.None? && !be.s.calls[p].made
    requires be.s.calls[p].key == base.idempotencyKey && be.s.calls[p].body == body
    requires be.s.calls[p].subtotal == P.Subtotal(base.lines) && be.s.calls[p].hold == base.loyaltyHoldId
    modifies be`s, be`run
    ensures be.Valid() && old(be.run) <= be.run
    ensures if f.delivered && f.refusal.None? then r.OrderPlaced? else r.CreateFailed?
    ensures r.CreateFailed? ==> CodeFits(r.code, f.refusal, f.delivered, old(be.s.calls[p]).generated)
    ensures CheckoutOf(be.s, p, base, body, f.delivered) && PlacedUnderKey(be.s, r, base.idempotencyKey)
    ensures Settled(old(be.s), be.s, p, base.loyaltyHoldId, r)
    ensures FailsDefinitely(r) && base.loyaltyHoldId.Some? && old(be.s.calls[p]).generated ==>
      CarriedByNone(atRelease, base.loyaltyHoldId)
  {
    r, atRelease := Submit(be, p, f);
    CheckoutKnown(be.first, be.run, be.s, p);
  }

  /** The answer to a request that has passed its checks. */
  predicate AnswersAs(r: Outcome, req: PlaceOrderRequest, memberId: Option<string>, f: Fates) {
    if req.redeemPoints != 0 && memberId.None? then r == BadRequest("sign in or scan your loyalty code to use points")
    else if req.redeemPoints < 0 then r == BadRequest("points must be positive")
    else if req.redeemPoints != 0 && r == LoyaltyError then true
    else if f.delivered && f.refusal.None? then r.OrderPlaced?
    else r.CreateFailed? && CodeFits(r.code, f.refusal, f.delivered, req.redeemPoints != 0 && req.idempotencyKey == "")
  }

  // What place answers before it talks to either service, or the priced lines.
  datatype Checked = Passed(lines: seq<P.Line>, currency: string) | Refused(outcome: Outcome)

  function CheckOf(answer: MenuAnswer, req: PlaceOrderRequest): Checked {
    if req.orderType !in {"dine_in", "takeaway"} then Refused(BadRequest("order_type must be dine_in or takeaway"))
    else if req.items == [] then Refused(BadRequest("your order is empty"))
    else if |req.note| > 200 then Refused(BadRequest("note is too long"))
    else match answer
      case NoSuchRestaurant => Refused(RestaurantNotFound)
      case MenuUnavailable => Refused(MenuError)
      case Found(menu) =>
        match P.PriceAll(P.Items(menu.categories), req.items)
        case Invalid(message) => Refused(BadRequest(message))
        case Ok(lines) => Passed(lines, menu.currency)
  }

  // What can be wrong with a request before a service is called.
  datatype Fault = BadType | NoItems | LongNote | NoRestaurant | NoMenu | BadLine(i: nat)

  predicate Has(answer: MenuAnswer, req: PlaceOrderRequest, f: Fault) {
    match f
    case BadType => req.orderType != "dine_in" && req.orderType != "takeaway"
    case NoItems => |req.items| == 0
    case LongNote => |req.note| > 200
    case NoRestaurant => answer.NoSuchRestaurant?
    case NoMenu => answer.MenuUnavailable?
    case BadLine(i) =>
      answer.Found? && i < |req.items| && P.PriceLine(P.Items(answer.menu.categories), req.items[i]).Invalid?
  }

  function Rank(f: Fault): nat {
    match f
    case BadType => 0
    case NoItems => 1
    case LongNote => 2
    case NoRestaurant => 3
    case NoMenu => 4
    case BadLine(i) => 5 + i
  }

  function Reported(answer: MenuAnswer, req: PlaceOrderRequest, f: Fault): Outcome
    requires Has(answer, req, f)
  {
    match f
    case BadType => BadRequest("order_type must be dine_in or takeaway")
    case NoItems => BadRequest("your order is empty")
    case LongNote => BadRequest("note is too long")
    case NoRestaurant => RestaurantNotFound
    case NoMenu => MenuError
    case BadLine(i) => BadRequest(P.PriceLine(P.Items(answer.menu.categories), req.items[i]).message)
  }

  /** A request passes exactly when it has no fault, and then every line is priced,
      in order; otherwise the fault of the lowest rank is reported. */
  lemma CheckMeans(answer: MenuAnswer, req: PlaceOrderRequest)
    ensures var c := CheckOf(answer, req);
            && (c.Passed? <==> forall f :: !Has(answer, req, f))
            && (c.Passed? ==>
                  && answer.Found? && c.currency == answer.menu.currency && |c.lines| == |req.items|
                  && forall k :: 0 <= k < |req.items| ==>
                       P.PriceLine(P.Items(answer.menu.categories), req.items[k]) == P.Ok(c.lines[k]))
            && (c.Refused? ==>
                  exists f :: Has(answer, req, f) && c.outcome == Reported(answer, req, f) &&
                              forall g :: Has(answer, req, g) ==> Rank(f) <= Rank(g))
  {
    var c := CheckOf(answer, req);
    if answer.Found? { P.PricesEveryLine(P.Items(answer.menu.categories), req.items); }
    if c.Passed? {
      forall f ensures !Has(answer, req, f) { }
    } else {
      var f := FirstFault(answer, req);
    }
  }

  lemma FirstFault(answer: MenuAnswer, req: PlaceOrderRequest) returns (f: Fault)
    requires CheckOf(answer, req).Refused?
    ensures Has(answer, req, f) && CheckOf(answer, req).outcome == Reported(answer, req, f)
    ensures forall g :: Has(answer, req, g) ==> Rank(f) <= Rank(g)
  {
    if Has(answer, req, BadType) { f := BadType; }
    else if Has(answer, req, NoItems) { f := NoItems; }
    else if Has(answer, req, LongNote) { f := LongNote; }
    else if Has(answer, req, NoRestaurant) { f := NoRestaurant; }
    else if Has(answer, req, NoMenu) { f := NoMenu; }
    else {
      var k := P.RefusedLine(P.Items(answer.menu.categories), req.items);
      f := BadLine(k);
    }
  }

  method Check(answer: MenuAnswer, req: PlaceOrderRequest) returns (c: Checked)
    ensures c == CheckOf(answer, req)
    ensures c.Refused? ==> !c.outcome.OrderPlaced? && !c.outcome.CreateFailed? && !c.outcome.LoyaltyError?
  {
    if req.orderType != "dine_in" && req.orderType != "takeaway" {
      return Refused(BadRequest("order_type must be dine_in or takeaway"));
    }
    if |req.items| == 0 { return Refused(BadRequest("your order is empty")); }
    if |req.note| > 200 { return Refused(BadRequest("note is too long")); }
    if answer.NoSuchRestaurant? { return Refused(RestaurantNotFound); }
    if answer.MenuUnavailable? { return Refused(MenuError); }
    var priced := P.PriceCart(answer.menu, req.items);
    return if priced.Invalid? then Refused(BadRequest(priced.message)) else Passed(priced.value, answer.menu.currency);
  }

  /** place. A refused request reaches neither service. One that passes reaches
      CreateOrder, as the checkout of this member, restaurant and price, unless it asks
      for points and gets no hold. With a generated key, no order carries the hold at
      the moment its release goes out. */
  method Place(be: Backend, p: nat, base: CreateOrderRequest, restaurantId: string, answer: MenuAnswer,
               req: PlaceOrderRequest, memberId: Option<string>, newKey: string, f: Fates)
    returns (r: Outcome, ghost atRelease: State, ghost at: nat)
    requires be.Valid() && p !in be.s.calls && base.loyaltyHoldId == None && base.pointsRedeemed == 0 && base.discount == 0
    requires CheckOf(answer, req).Passed? ==>
      KeyFits(be.s, req.idempotencyKey, newKey, BodyOf(restaurantId, req, memberId))
    modifies be`s, be`run, base
    ensures be.Valid() && old(be.run) <= be.run
    ensures CheckOf(answer, req).Refused? ==> r == CheckOf(answer, req).outcome && be.s == old(be.s)
    ensures CheckOf(answer, req).Passed? ==> AnswersAs(r, req, memberId, f)
    ensures r.BadRequest? ==> be.s == old(be.s)
    ensures CheckOf(answer, req).Passed? && r == LoyaltyError ==> NoHold(be.first, be.run, at, p, f)
    ensures r.OrderPlaced? || r.CreateFailed? ==>
      && CheckOf(answer, req) == Passed(base.lines, base.currency)
      && base.restaurantId == restaurantId && base.orderType == req.orderType && base.note == TrimSpace(req.note)
      && base.memberId == (if memberId.Some? then memberId.value else old(base.memberId))
      && base.idempotencyKey == (if req.redeemPoints != 0 && req.idempotencyKey == "" then newKey else req.idempotencyKey)
      && (base.loyaltyHoldId.Some? <==> req.redeemPoints != 0) && base.pointsRedeemed == Int32(req.redeemPoints)
      && base.discount == req.redeemPoints * old(be.s).loyalty.pointValue
      && CheckoutOf(be.s, p, base, Body(if memberId.Some? then memberId.value else "", restaurantId, req.redeemPoints), f.delivered)
      && PlacedUnderKey(be.s, r, base.idempotencyKey)
    ensures Settled(old(be.s), be.s, p, base.loyaltyHoldId, r)
    ensures FailsDefinitely(r) && base.loyaltyHoldId.Some? && req.idempotencyKey == "" ==> CarriedByNone(atRelease, base.loyaltyHoldId)
  {
    atRelease, at := be.s, 0;
    var check := Check(answer, req);
    if check.Refused? { return check.outcome, atRelease, at; }

    base.FillIn(restaurantId, req, check.currency, check.lines, memberId);
    r, atRelease, at := PlacePriced(be, p, base, req, memberId, newKey, f);
  }
}
