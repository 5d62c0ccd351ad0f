/** Checkout with a two-phase points hold: any number of `place` calls and
    retries, interleaved with kfc-order and kfc-loyalty.

    The two services are their proto contracts. What is assumed of them and of
    the clients is in `Enabled`:
      - a call that has returned takes no effect later (effects precede replies);
      - a definite failure code means that this call created no order, and is
        never the answer to a client's key while an order exists for it;
      - ReservePoints gives one hold per reference and never a released one;
      - a client's key always comes with the same member, restaurant and points,
        and a generated key is never anyone else's. Its price may change: every
        attempt prices the cart anew. */
module Checkout {
  import opened Options

  // What stays the same from one attempt at a checkout to the next; `points` is
  // RedeemPoints as the client sent it.
  datatype Body = Body(member: string, rest: string, points: int)

  datatype Cause = Expiry | ByCall(call: nat)
  datatype HoldStatus = Held | Committed(order: nat) | Released(cause: Cause)

  // `subtotal` is the one the hold was granted on.
  datatype Hold = Hold(member: string, points: int, key: string, subtotal: int, status: HoldStatus)

  // kfc-loyalty: the program, what members were granted and have available, and
  // the holds; `refs` is the latest hold per checkout key.
  datatype Loyalty = Loyalty(
    pointValue: int, maxPercent: int,
    granted: map<string, int>, available: map<string, int>,
    holds: seq<Hold>, refs: map<string, nat>)

  // The fields of an order that loyalty is about, and which call created it when.
  datatype Order = Order(
    key: string, body: Body, subtotal: int, hold: Option<nat>, discount: int, maker: nat, bornAt: nat)

  datatype OrderKey = OrderKey(rest: string, key: string)

  // kfc-order
  datatype Orders = Orders(all: seq<Order>, byKey: map<OrderKey, nat>)

  // Calling: CreateOrder is in flight. Failed: it failed definitely.
  datatype Phase = Begun | Calling | Failed | Placed | Finished

  // `subtotal` is this attempt's price.
  datatype Call = Call(key: string, generated: bool, body: Body, subtotal: int, phase: Phase,
                       hold: Option<nat>, order: Option<nat>, made: bool, failedAt: nat)

  // A ReleaseHold or CommitHold request that userapi has sent.
  datatype Sent = ReleaseSent(hold: nat, call: nat, at: nat) | CommitSent(hold: nat, order: nat)

  datatype State = State(
    tick: nat, loyalty: Loyalty, orders: Orders,
    bodies: map<string, Body>, generated: set<string>, calls: map<nat, Call>, sent: set<Sent>)

  datatype Step =
    | Begin(p: nat, key: string, body: Body, subtotal: int) // with or without points; a key may be missing without
    | BeginGenerated(p: nat, key: string, body: Body, subtotal: int)
    | Reserve(p: nat, heard: bool)                          // heard: the reply reaches userapi
    | ReserveRefused(p: nat)
    | CreateEffect(p: nat)
    | CreateOk(p: nat)
    | CreateAmbiguous(p: nat)
    | CreateDefinite(p: nat)
    | Release(p: nat, arrives: bool)
    | Commit(p: nat, arrives: bool)
    | EventCommit(order: nat)                      // kfc-loyalty, from order.created
    | Expire(hold: nat)

  /** int32(x), two's complement. */
  function Int32(x: int): int {
    var m := x % 0x1_0000_0000;
    if m < 0x8000_0000 then m else m - 0x1_0000_0000
  }

  predicate Start(s: State) {
    && s.tick == 0
    && ProgramInv(s.loyalty)
    && s.loyalty.available == s.loyalty.granted && s.loyalty.holds == [] && s.loyalty.refs == map[]
    && s.orders == Orders([], map[])
    && s.bodies == map[] && s.generated == {} && s.calls == map[] && s.sent == {}
  }

  predicate In(s: State, p: nat, phase: Phase) {
    p in s.calls && s.calls[p].phase == phase
  }

  /** The hold that a key's reference returns, unless it was released. */
  function HoldFor(l: Loyalty, key: string): Option<nat> {
    if key in l.refs && l.refs[key] < |l.holds| && !l.holds[l.refs[key]].status.Released? then Some(l.refs[key]) else None
  }

  /** The share of the order that points may pay for. */
  predicate WithinCap(l: Loyalty, points: int, subtotal: int) {
    points * l.pointValue * 100 <= l.maxPercent * subtotal
  }

  /** kfc-loyalty grants a new hold: enough points, within the program's share of the order. */
  predicate Grantable(l: Loyalty, b: Body, subtotal: int) {
    b.member in l.available && 0 < Int32(b.points) <= l.available[b.member] && WithinCap(l, Int32(b.points), subtotal)
  }

  predicate OrderExists(os: Orders, c: Call) {
    c.key != "" && OrderKey(c.body.rest, c.key) in os.byKey
  }

  predicate Enabled(s: State, a: Step) {
    match a
    case Begin(p, key, body, _) =>
      && p !in s.calls && 0 <= body.points && (body.points != 0 ==> key != "")
      && key !in s.generated && (key != "" && key in s.bodies ==> s.bodies[key] == body)
    case BeginGenerated(p, key, body, _) =>
      p !in s.calls && 0 < body.points && key != "" && key !in s.bodies
    case Reserve(p, _) => In(s, p, Begun) && (HoldFor(s.loyalty, s.calls[p].key).Some? || Grantable(s.loyalty, s.calls[p].body, s.calls[p].subtotal))
    case ReserveRefused(p) => In(s, p, Begun)
    case CreateEffect(p) => In(s, p, Calling) && s.calls[p].order.None?
    case CreateOk(p) => In(s, p, Calling) && s.calls[p].order.Some?
    case CreateAmbiguous(p) => In(s, p, Calling)
    case CreateDefinite(p) => In(s, p, Calling) && !s.calls[p].made && (s.calls[p].generated || !OrderExists(s.orders, s.calls[p]))
    case Release(p, _) => In(s, p, Failed) && s.calls[p].hold.Some?
    case Commit(p, _) => In(s, p, Placed) && s.calls[p].hold.Some? && s.calls[p].order.Some?
    case EventCommit(o) => o < |s.orders.all| && s.orders.all[o].hold.Some?
    case Expire(h) => h < |s.loyalty.holds| && s.loyalty.holds[h].status == Held
  }

  // ---------------------------------------------------------------------
  // The two services
  // ---------------------------------------------------------------------

  function SetStatus(holds: seq<Hold>, h: nat, status: HoldStatus): seq<Hold>
    requires h < |holds|
  {
    holds[h := holds[h].(status := status)]
  }

  predicate IsHeld(l: Loyalty, h: nat) {
    h < |l.holds| && l.holds[h].status == Held && l.holds[h].member in l.available
  }

  /** A held hold is released and its points become available again; any other is left alone. */
  function ReleaseHold(l: Loyalty, h: nat, cause: Cause): Loyalty {
    if IsHeld(l, h) then
      var m := l.holds[h].member;
      l.(holds := SetStatus(l.holds, h, Released(cause)), available := l.available[m := l.available[m] + l.holds[h].points])
    else l
  }

  function CommitHold(l: Loyalty, h: nat, o: nat): Loyalty {
    if IsHeld(l, h) then l.(holds := SetStatus(l.holds, h, Committed(o))) else l
  }

  function GrantHold(l: Loyalty, key: string, b: Body, subtotal: int): Loyalty
    requires b.member in l.available
  {
    l.(holds := l.holds + [Hold(b.member, Int32(b.points), key, subtotal, Held)], refs := l.refs[key := |l.holds|],
       available := l.available[b.member := l.available[b.member] - Int32(b.points)])
  }

  /** The discount on a call's CreateOrder request: RedeemPoints times the point value. */
  function Discount(c: Call, pointValue: int): int {
    if c.hold.Some? then c.body.points * pointValue else 0
  }

  /** The order that CreateOrder stores. */
  function CreateOrder(os: Orders, c: Call, pointValue: int, p: nat, tick: nat): Orders {
    var order := Order(c.key, c.body, c.subtotal, c.hold, Discount(c, pointValue), p, tick);
    Orders(os.all + [order],
           if c.key == "" then os.byKey else os.byKey[OrderKey(c.body.rest, c.key) := |os.all|])
  }

  // ---------------------------------------------------------------------
  // Steps
  // ---------------------------------------------------------------------

  function NextLoyalty(s: State, a: Step): Loyalty
    requires Enabled(s, a)
  {
    match a
    case Reserve(p, _) =>
      if HoldFor(s.loyalty, s.calls[p].key).Some? then s.loyalty else GrantHold(s.loyalty, s.calls[p].key, s.calls[p].body, s.calls[p].subtotal)
    case Release(p, arrives) => if arrives then ReleaseHold(s.loyalty, s.calls[p].hold.value, ByCall(p)) else s.loyalty
    case Commit(p, arrives) =>
      if arrives then CommitHold(s.loyalty, s.calls[p].hold.value, s.calls[p].order.value) else s.loyalty
    case EventCommit(o) => CommitHold(s.loyalty, s.orders.all[o].hold.value, o)
    case Expire(h) => ReleaseHold(s.loyalty, h, Expiry)
    case _ => s.loyalty
  }

  function NextOrders(s: State, a: Step): Orders
    requires Enabled(s, a)
  {
    if a.CreateEffect? && !OrderExists(s.orders, s.calls[a.p])
    then CreateOrder(s.orders, s.calls[a.p], s.loyalty.pointValue, a.p, s.tick)
    else s.orders
  }

  predicate OfCall(a: Step) { !a.EventCommit? && !a.Expire? }

  /** What a step of a call makes of the call itself. */
  function Own(s: State, a: Step): Call
    requires Enabled(s, a) && OfCall(a)
  {
    match a
    case Begin(_, key, body, subtotal) =>
      Call(key, false, body, subtotal, if body.points == 0 then Calling else Begun, None, None, false, 0)
    case BeginGenerated(_, key, body, subtotal) => Call(key, true, body, subtotal, Begun, None, None, false, 0)
    case Reserve(p, heard) =>
      var c := s.calls[p];
      if !heard then c.(phase := Finished)
      else c.(phase := Calling, hold := if HoldFor(s.loyalty, c.key).Some? then HoldFor(s.loyalty, c.key) else Some(|s.loyalty.holds|))
    case CreateEffect(p) =>
      var c := s.calls[p];
      if OrderExists(s.orders, c) then c.(order := Some(s.orders.byKey[OrderKey(c.body.rest, c.key)]))
      else c.(order := Some(|s.orders.all|), made := true)
    case CreateOk(p) => s.calls[p].(phase := if s.calls[p].hold.Some? then Placed else Finished)
    case CreateDefinite(p) => s.calls[p].(phase := if s.calls[p].hold.Some? then Failed else Finished, failedAt := s.tick)
    case _ => s.calls[a.p].(phase := Finished)
  }

  function NextBodies(s: State, a: Step): map<string, Body> {
    if (a.Begin? && a.key != "") || a.BeginGenerated? then s.bodies[a.key := a.body] else s.bodies
  }

  function NextSent(s: State, a: Step): set<Sent>
    requires Enabled(s, a)
  {
    match a
    case Release(p, _) => s.sent + {ReleaseSent(s.calls[p].hold.value, p, s.tick)}
    case Commit(p, _) => s.sent + {CommitSent(s.calls[p].hold.value, s.calls[p].order.value)}
    case _ => s.sent
  }

  function Apply(s: State, a: Step): State
    requires Enabled(s, a)
  {
    State(s.tick + 1, NextLoyalty(s, a), NextOrders(s, a), NextBodies(s, a),
          if a.BeginGenerated? then s.generated + {a.key} else s.generated,
          if OfCall(a) then s.calls[a.p := Own(s, a)] else s.calls,
          NextSent(s, a))
  }

  predicate Legal(s: State, run: seq<Step>)
    decreases |run|
  {
    run == [] || (Enabled(s, run[0]) && Legal(Apply(s, run[0]), run[1..]))
  }

  function Exec(s: State, run: seq<Step>): State
    requires Legal(s, run)
    decreases |run|
  {
    if run == [] then s else Exec(Apply(s, run[0]), run[1..])
  }

  // ---------------------------------------------------------------------
  // What every step keeps
  // ---------------------------------------------------------------------

  /** Points of a member that a hold keeps out of the available balance. */
  function Kept(h: Hold, member: string): int {
    if h.member == member && !h.status.Released? then h.points else 0
  }

  function KeptBy(holds: seq<Hold>, member: string): int {
    if holds == [] then 0 else KeptBy(holds[..|holds| - 1], member) + Kept(holds[|holds| - 1], member)
  }

  lemma {:induction false} KeptUpdate(holds: seq<Hold>, i: nat, h: Hold, member: string)
    requires i < |holds|
    ensures KeptBy(holds[i := h], member) == KeptBy(holds, member) - Kept(holds[i], member) + Kept(h, member)
  {
    var n := |holds| - 1;
    if i == n {
      assert holds[i := h][..n] == holds[..n];
    } else {
      assert holds[i := h][..n] == holds[..n][i := h];
      KeptUpdate(holds[..n], i, h, member);
    }
  }

  /** Points are conserved: available plus held plus committed is what was granted. */
  ghost predicate Conserved(l: Loyalty) {
    && l.available.Keys == l.granted.Keys
    && forall m :: m in l.granted ==> l.available[m] + KeptBy(l.holds, m) == l.granted[m]
  }

  /** A reference leads to the latest hold of its key, and all earlier ones are released. */
  predicate RefsInv(l: Loyalty) {
    && (forall k :: k in l.refs ==> l.refs[k] < |l.holds| && l.holds[l.refs[k]].key == k)
    && (forall h :: 0 <= h < |l.holds| && !l.holds[h].status.Released? ==>
          l.holds[h].key in l.refs && l.refs[l.holds[h].key] == h)
  }

  predicate ByKeyInv(os: Orders) {
    forall rk :: rk in os.byKey ==>
      rk.key != "" && os.byKey[rk] < |os.all| && os.all[os.byKey[rk]].key == rk.key && os.all[os.byKey[rk]].body.rest == rk.rest
  }

  predicate KnownBody(s: State, key: string, body: Body) {
    key != "" ==> key in s.bodies && s.bodies[key] == body
  }

  predicate HoldInv(s: State, h: nat)
    requires h < |s.loyalty.holds|
  {
    var x := s.loyalty.holds[h];
    && x.key != "" && x.key in s.bodies && x.member in s.loyalty.available
    && x.member == s.bodies[x.key].member && 0 < x.points == Int32(s.bodies[x.key].points)
    && WithinCap(s.loyalty, x.points, x.subtotal)
    && (x.status.Committed? ==> x.status.order < |s.orders.all| && s.orders.all[x.status.order].key == x.key)
    && (x.status.Released? && x.status.cause.ByCall? ==> Releaser(s, x.status.cause.call, h))
  }

  /** A call that released a hold has returned and had made no order. */
  predicate Releaser(s: State, p: nat, h: nat)
    requires h < |s.loyalty.holds|
  {
    p in s.calls && s.calls[p].phase == Finished && !s.calls[p].made && s.calls[p].hold == Some(h)
    && s.calls[p].key == s.loyalty.holds[h].key
  }

  /** A hold carried under a key was reserved under it. */
  predicate Carries(s: State, key: string, points: int, hold: Option<nat>) {
    if hold.None? then points == 0 else hold.value < |s.loyalty.holds| && s.loyalty.holds[hold.value].key == key && 0 < points
  }

  predicate OrderInv(s: State, o: nat)
    requires o < |s.orders.all|
  {
    var x := s.orders.all[o];
    && KnownBody(s, x.key, x.body) && Carries(s, x.key, x.body.points, x.hold)
    && (x.key != "" ==> OrderKey(x.body.rest, x.key) in s.orders.byKey && s.orders.byKey[OrderKey(x.body.rest, x.key)] == o)
    && x.bornAt < s.tick && x.maker in s.calls && s.calls[x.maker].key == x.key && s.calls[x.maker].made
    && s.calls[x.maker].hold == x.hold
    && x.discount == if x.hold.Some? then x.body.points * s.loyalty.pointValue else 0
  }

  predicate CallInv(s: State, p: nat)
    requires p in s.calls
  {
    var c := s.calls[p];
    && KnownBody(s, c.key, c.body) && 0 <= c.body.points && (c.key == "" ==> c.body.points == 0)
    && (c.generated <==> c.key in s.generated)
    && (c.phase in {Calling, Failed, Placed} || c.hold.Some? ==> Carries(s, c.key, c.body.points, c.hold))
    && (c.order.Some? ==> c.order.value < |s.orders.all| && s.orders.all[c.order.value].key == c.key)
    && (c.made ==> c.order.Some? && s.orders.all[c.order.value].maker == p && s.orders.all[c.order.value].hold == c.hold)
    && (c.phase == Begun ==> c.order.None? && c.body.points != 0)
    && (c.phase == Failed ==> !c.made && c.hold.Some? && c.failedAt < s.tick)
    && (c.phase == Placed ==> c.hold.Some? && c.order.Some?)
  }

  /** When a call has failed definitely, an order under its key can only be younger. */
  predicate NoOlderOrder(calls: map<nat, Call>, all: seq<Order>) {
    forall p, o :: p in calls && calls[p].phase == Failed && 0 <= o < |all| && all[o].key == calls[p].key
      ==> calls[p].failedAt < all[o].bornAt
  }

  predicate OwnKeys(s: State) {
    && "" !in s.generated
    && (forall k :: k in s.generated ==> k in s.bodies)
    && (forall p, q :: p in s.calls && q in s.calls && s.calls[p].generated && s.calls[q].key == s.calls[p].key ==> p == q)
  }

  predicate SentInv(s: State, x: Sent) {
    x.CommitSent? ==>
      x.hold < |s.loyalty.holds| && x.order < |s.orders.all| && s.loyalty.holds[x.hold].key == s.orders.all[x.order].key
  }

  predicate ProgramInv(l: Loyalty) {
    0 < l.pointValue && 0 <= l.maxPercent <= 100
  }

  ghost predicate Inv(s: State) {
    && ProgramInv(s.loyalty) && Conserved(s.loyalty) && RefsInv(s.loyalty) && ByKeyInv(s.orders) && OwnKeys(s) && NoOlderOrder(s.calls, s.orders.all)
    && (forall h :: 0 <= h < |s.loyalty.holds| ==> HoldInv(s, h))
    && (forall o :: 0 <= o < |s.orders.all| ==> OrderInv(s, o))
    && (forall p :: p in s.calls ==> CallInv(s, p))
    && (forall x :: x in s.sent ==> SentInv(s, x))
  }

  /** Holds are only added, and never change what they are for. */
  predicate HoldsExtend(l: Loyalty, l': Loyalty) {
    && |l.holds| <= |l'.holds| && l'.pointValue == l.pointValue && l'.maxPercent == l.maxPercent
    && l.available.Keys <= l'.available.Keys
    && forall h :: 0 <= h < |l.holds| ==> l'.holds[h] == l.holds[h].(status := l'.holds[h].status)
  }

  predicate CallExtends(c: Call, c': Call) {
    && c'.key == c.key && (c.made ==> c'.made && c'.hold == c.hold) && (c.phase == Finished ==> c' == c)
  }

  /** What no step takes away. */
  predicate Extends(s: State, s': State) {
    && s.tick < s'.tick
    && HoldsExtend(s.loyalty, s'.loyalty)
    && s.orders.all <= s'.orders.all
    && (forall k :: k in s.bodies ==> k in s'.bodies && s'.bodies[k] == s.bodies[k])
    && (forall rk :: rk in s.orders.byKey ==> rk in s'.orders.byKey && s'.orders.byKey[rk] == s.orders.byKey[rk])
    && (forall p :: p in s.calls ==> p in s'.calls && CallExtends(s.calls[p], s'.calls[p]))
  }

  lemma LoyaltyExtends(s: State, a: Step)
    requires Enabled(s, a)
    ensures HoldsExtend(s.loyalty, NextLoyalty(s, a))
  {
  }

  lemma OwnExtends(s: State, a: Step)
    requires Enabled(s, a) && OfCall(a) && a.p in s.calls && CallInv(s, a.p)
    ensures CallExtends(s.calls[a.p], Own(s, a))
  {
  }

  lemma ExtendsStep(s: State, a: Step)
    requires Enabled(s, a) && ActorInv(s, a)
    ensures Extends(s, Apply(s, a))
  {
    LoyaltyExtends(s, a);
    if OfCall(a) && a.p in s.calls { OwnExtends(s, a); }
  }

  predicate ActorInv(s: State, a: Step) {
    match a
    case EventCommit(o) => o < |s.orders.all| && OrderInv(s, o)
    case Expire(_) => true
    case _ => a.p in s.calls ==> CallInv(s, a.p)
  }

  lemma HoldKept(s: State, s': State, h: nat, status: HoldStatus)
    requires Extends(s, s') && h < |s.loyalty.holds| && HoldInv(s, h)
    requires s'.loyalty.holds[h].status == status
    requires status != s.loyalty.holds[h].status ==>
      match status
      case Held => true
      case Committed(o) => o < |s.orders.all| && s.orders.all[o].key == s.loyalty.holds[h].key
      case Released(cause) => cause.ByCall? ==> Releaser(s', cause.call, h)
    ensures HoldInv(s', h)
  {
  }

  lemma HoldGranted(s: State, a: Step)
    requires Enabled(s, a) && ActorInv(s, a) && |NextLoyalty(s, a).holds| > |s.loyalty.holds|
    ensures |NextLoyalty(s, a).holds| == |s.loyalty.holds| + 1 && HoldInv(Apply(s, a), |s.loyalty.holds|)
  {
  }

  lemma HoldStep(s: State, a: Step, h: nat)
    requires Enabled(s, a) && ActorInv(s, a) && h < |Apply(s, a).loyalty.holds|
    requires h < |s.loyalty.holds| ==> HoldInv(s, h)
    ensures HoldInv(Apply(s, a), h)
  {
    if h < |s.loyalty.holds| {
      ExtendsStep(s, a);
      HoldKept(s, Apply(s, a), h, NextLoyalty(s, a).holds[h].status);
    } else {
      HoldGranted(s, a);
    }
  }

  lemma OrderKept(s: State, s': State, o: nat)
    requires Extends(s, s') && o < |s.orders.all| && OrderInv(s, o)
    ensures OrderInv(s', o)
  {
  }

  lemma OrderStep(s: State, a: Step, o: nat)
    requires Enabled(s, a) && ActorInv(s, a) && o < |Apply(s, a).orders.all|
    requires o < |s.orders.all| ==> OrderInv(s, o)
    ensures OrderInv(Apply(s, a), o)
  {
    if o < |s.orders.all| {
      ExtendsStep(s, a);
      OrderKept(s, Apply(s, a), o);
    }
  }

  lemma CallKept(s: State, s': State, q: nat)
    requires Extends(s, s') && q in s.calls && CallInv(s, q) && s'.calls[q] == s.calls[q]
    requires s.calls[q].key in s.generated <==> s.calls[q].key in s'.generated
    ensures CallInv(s', q)
  {
  }

  lemma CallMoved(s: State, a: Step)
    requires Enabled(s, a) && ActorInv(s, a) && RefsInv(s.loyalty) && ByKeyInv(s.orders) && OfCall(a)
    ensures CallInv(Apply(s, a), a.p)
  {
  }

  lemma CallStep(s: State, a: Step, q: nat)
    requires Enabled(s, a) && ActorInv(s, a) && q in Apply(s, a).calls && RefsInv(s.loyalty) && ByKeyInv(s.orders)
    requires q in s.calls ==> CallInv(s, q)
    ensures CallInv(Apply(s, a), q)
  {
    if OfCall(a) && q == a.p {
      CallMoved(s, a);
    } else {
      ExtendsStep(s, a);
      CallKept(s, Apply(s, a), q);
    }
  }

  lemma LedgerStep(s: State, a: Step)
    requires Enabled(s, a) && RefsInv(s.loyalty) && ByKeyInv(s.orders)
    ensures RefsInv(NextLoyalty(s, a)) && ByKeyInv(NextOrders(s, a))
  {
  }

  lemma OwnKeysStep(s: State, a: Step)
    requires Enabled(s, a) && OwnKeys(s) && forall p :: p in s.calls ==> KnownBody(s, s.calls[p].key, s.calls[p].body)
    requires forall p :: p in s.calls ==> (s.calls[p].generated <==> s.calls[p].key in s.generated)
    ensures OwnKeys(Apply(s, a))
  {
  }

  /** At a definite failure no order exists under the key: for a client's key that
      is the assumption, for a generated one it follows. */
  lemma DefiniteMeansNone(s: State, p: nat)
    requires Inv(s) && Enabled(s, CreateDefinite(p)) && s.calls[p].key != ""
    ensures forall o :: 0 <= o < |s.orders.all| ==> s.orders.all[o].key != s.calls[p].key
  {
    assert CallInv(s, p);
    forall o | 0 <= o < |s.orders.all| ensures s.orders.all[o].key != s.calls[p].key {
      assert OrderInv(s, o);
    }
  }

  lemma NoOlderStep(s: State, a: Step)
    requires Enabled(s, a) && NoOlderOrder(s.calls, s.orders.all)
    requires forall p :: p in s.calls && s.calls[p].phase == Failed ==> s.calls[p].failedAt < s.tick
    requires a.CreateDefinite? && s.calls[a.p].hold.Some? ==>
      forall o :: 0 <= o < |s.orders.all| ==> s.orders.all[o].key != s.calls[a.p].key
    ensures NoOlderOrder(Apply(s, a).calls, Apply(s, a).orders.all)
  {
  }

  lemma SentStep(s: State, a: Step, x: Sent)
    requires Enabled(s, a) && ActorInv(s, a) && x in NextSent(s, a) && (x in s.sent ==> SentInv(s, x))
    ensures SentInv(Apply(s, a), x)
  {
  }

  lemma GrantConserves(l: Loyalty, key: string, b: Body, subtotal: int)
    requires Conserved(l) && b.member in l.available
    ensures Conserved(GrantHold(l, key, b, subtotal))
  {
  }

  lemma SettleConserves(l: Loyalty, h: nat, o: nat, cause: Cause)
    requires Conserved(l)
    ensures Conserved(ReleaseHold(l, h, cause)) && Conserved(CommitHold(l, h, o))
  {
    if IsHeld(l, h) {
      forall m | m in l.granted
        ensures KeptBy(SetStatus(l.holds, h, Released(cause)), m) == KeptBy(l.holds, m) - Kept(l.holds[h], m)
        ensures KeptBy(SetStatus(l.holds, h, Committed(o)), m) == KeptBy(l.holds, m)
      {
        KeptUpdate(l.holds, h, l.holds[h].(status := Released(cause)), m);
        KeptUpdate(l.holds, h, l.holds[h].(status := Committed(o)), m);
      }
    }
  }

  lemma ConservedStep(s: State, a: Step)
    requires Enabled(s, a) && Conserved(s.loyalty)
    ensures Conserved(NextLoyalty(s, a))
  {
    match a
    case Reserve(p, _) => if HoldFor(s.loyalty, s.calls[p].key).None? { GrantConserves(s.loyalty, s.calls[p].key, s.calls[p].body, s.calls[p].subtotal); }
    case Release(p, _) => SettleConserves(s.loyalty, s.calls[p].hold.value, 0, ByCall(p));
    case Commit(p, _) => SettleConserves(s.loyalty, s.calls[p].hold.value, s.calls[p].order.value, Expiry);
    case EventCommit(o) => SettleConserves(s.loyalty, s.orders.all[o].hold.value, o, Expiry);
    case Expire(h) => SettleConserves(s.loyalty, h, 0, Expiry);
    case _ =>
  }

  lemma ElementsStep(s: State, a: Step)
    requires Inv(s) && Enabled(s, a)
    ensures var s' := Apply(s, a);
            && (forall h :: 0 <= h < |s'.loyalty.holds| ==> HoldInv(s', h))
            && (forall o :: 0 <= o < |s'.orders.all| ==> OrderInv(s', o))
            && (forall p :: p in s'.calls ==> CallInv(s', p))
            && (forall x :: x in s'.sent ==> SentInv(s', x))
  {
    assert ActorInv(s, a);
    forall h | 0 <= h < |Apply(s, a).loyalty.holds| { HoldStep(s, a, h); }
    forall o | 0 <= o < |Apply(s, a).orders.all| { OrderStep(s, a, o); }
    forall p | p in Apply(s, a).calls { CallStep(s, a, p); }
    forall x | x in Apply(s, a).sent { SentStep(s, a, x); }
  }

  lemma InvStep(s: State, a: Step)
    requires Inv(s) && Enabled(s, a)
    ensures Inv(Apply(s, a))
  {
    LoyaltyExtends(s, a);
    ConservedStep(s, a);
    LedgerStep(s, a);
    OwnKeysStep(s, a);
    if a.CreateDefinite? && s.calls[a.p].hold.Some? { DefiniteMeansNone(s, a.p); }
    NoOlderStep(s, a);
    ElementsStep(s, a);
  }

  lemma {:induction false} InvRun(s: State, run: seq<Step>)
    requires Inv(s) && Legal(s, run)
    ensures Inv(Exec(s, run))
    decreases |run|
  {
    if run != [] {
      InvStep(s, run[0]);
      InvRun(Apply(s, run[0]), run[1..]);
    }
  }
}
