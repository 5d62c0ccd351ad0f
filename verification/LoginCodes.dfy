/** SMS sign-in codes of one phone, whose calls run one at a time: what the
    throttles and the attempt counter promise over every run, when any Redis call may
    fail. */
module LoginCodes {
  import opened Options
  import opened Replies
  import opened Throttle
  import opened Units

  const RESEND_COOLDOWN := 60 * SECOND
  const CODES_PER_PHONE_HOUR := 5
  const CODES_PER_IP_HOUR := 20
  const MAX_CODE_ATTEMPTS := 5

  // A stored code; `id` numbers the codes ever saved for the phone.
  datatype Code = Code(id: nat, secret: string, attempts: nat, expiresAt: int)

  // What became of a wrong compare: its attempt was written back, it was the last and
  // the code deleted, the code had run out meanwhile, or the write failed.
  datatype Outcome = Renewed | Over | RanOut | Lost

  // Admitted: a request was let through by all three throttles, by the one-a-minute
  // one at `at` and by the hourly one at `hourAt`. A compare reads the code at `readAt`,
  // is made at `at` and written at `wroteAt`. An accepted code is deleted unless the DEL
  // failed.
  datatype Event =
    | Admitted(at: int, hourAt: int)
    | Saved(id: nat, at: int)
    | Wrong(id: nat, readAt: int, at: int, wroteAt: int, outcome: Outcome)
    | Accepted(id: nat, readAt: int, at: int, deleted: bool)

  // One phone's two throttle keys, its code key, and what has happened.
  datatype Phone = Phone(send: Option<Window>, hour: Option<Window>, code: Option<Code>, saves: nat, log: seq<Event>)

  const INIT := Phone(None, None, None, 0, [])

  datatype State = State(now: int, phone: Phone)

  /** A code key whose time is up counts as absent. */
  function LiveCode(p: Phone, now: int): Option<Code> {
    if p.code.Some? && now < p.code.value.expiresAt then p.code else None
  }

  // How long RequestCode takes to get to the hourly throttle, from there to the one
  // per address, from there to its SET, and then for the gateway.
  datatype Delays = Delays(hour: nat, ip: nat, save: nat, sms: nat)

  // How a RequestCode fares with its three throttles, its SET, and its DEL after a
  // message that could not be sent.
  datatype Fates = Fates(send: Reply, hour: Reply, ip: Reply, save: Reply, deleted: bool)

  function SaveNew(p: Phone, now: int, secret: string, ttl: nat): Phone {
    p.(code := Some(Code(p.saves, secret, 0, now + ttl)), saves := p.saves + 1, log := p.log + [Saved(p.saves, now)])
  }

  /** RequestCode; `ipOk` is the answer of the throttle per address. */
  function Request(s: State, f: Fates, ipOk: bool, secret: string, smsOk: bool, ttl: nat, d: Delays): State {
    if f.send == Unheard(false) then s
    else
      var send := Hit(s.phone.send, s.now, RESEND_COOLDOWN);
      var p := s.phone.(send := Some(send));
      if f.send.Unheard? || 1 < send.count then State(s.now, p)
      else PastCooldown(p, s.now, s.now + d.hour, f, ipOk, secret, smsOk, ttl, d)
  }

  /** From the hourly throttle on. */
  function PastCooldown(p: Phone, at: int, hourAt: int, f: Fates, ipOk: bool, secret: string, smsOk: bool, ttl: nat, d: Delays): State {
    if f.hour == Unheard(false) then State(hourAt, p)
    else
      var hour := Hit(p.hour, hourAt, HOUR);
      var p' := p.(hour := Some(hour));
      if f.hour.Unheard? || CODES_PER_PHONE_HOUR < hour.count then State(hourAt, p')
      else if f.ip.Unheard? || !ipOk then State(hourAt + d.ip, p')
      else Admit(p'.(log := p'.log + [Admitted(at, hourAt)]), hourAt + d.ip + d.save, f, secret, smsOk, ttl, d.sms)
  }

  /** The SET, the gateway, and the DEL if it could not send. */
  function Admit(p: Phone, saveAt: int, f: Fates, secret: string, smsOk: bool, ttl: nat, sms: nat): State {
    if f.save == Unheard(false) then State(saveAt, p)
    else
      var p' := SaveNew(p, saveAt, secret, ttl);
      if f.save.Unheard? then State(saveAt, p')
      else State(saveAt + sms, if smsOk || !f.deleted then p' else p'.(code := None))
  }

  /** VerifyCode: the code is read at once, its remaining time and the compare come
      after `d`, and the write after `d'` more, if it gets through. */
  function Verify(s: State, secret: string, d: nat, d': nat, written: bool): State {
    match LiveCode(s.phone, s.now)
    case None => s
    case Some(c) =>
      var at := s.now + d;
      State(at + d', if c.secret == secret then Accept(s.phone, c, s.now, at, written)
                     else Miss(s.phone, c, s.now, at, at + d', written))
  }

  function Accept(p: Phone, c: Code, readAt: int, at: int, written: bool): Phone {
    p.(code := if written then None else p.code, log := p.log + [Accepted(c.id, readAt, at, written)])
  }

  /** A wrong compare at `at`, written at `wroteAt`. */
  function Miss(p: Phone, c: Code, readAt: int, at: int, wroteAt: int, written: bool): Phone {
    var outcome :=
      if c.attempts + 1 >= MAX_CODE_ATTEMPTS then if written then Over else Lost
      else if c.expiresAt <= at then RanOut
      else if written then Renewed else Lost;
    var code :=
      match outcome
      case Over => None
      case Renewed => Some(c.(attempts := c.attempts + 1, expiresAt := wroteAt + (c.expiresAt - at)))
      case _ => p.code;
    p.(code := code, log := p.log + [Wrong(c.id, readAt, at, wroteAt, outcome)])
  }

  datatype Op =
    | Wait(d: nat)
    | RequestCode(fates: Fates, ipOk: bool, secret: string, smsOk: bool, ttl: nat, delays: Delays)
    | VerifyCode(secret: string, d: nat, d': nat, written: bool)

  function Apply(s: State, op: Op): State {
    match op
    case Wait(d) => State(s.now + d, s.phone)
    case RequestCode(fates, ipOk, secret, smsOk, ttl, delays) => Request(s, fates, ipOk, secret, smsOk, ttl, delays)
    case VerifyCode(secret, d, d', written) => Verify(s, secret, d, d', written)
  }

  function Exec(s: State, run: seq<Op>): State
    decreases |run|
  {
    if run == [] then s else Exec(Apply(s, run[0]), run[1..])
  }

  // ---------------------------------------------------------------------
  // Counting events
  // ---------------------------------------------------------------------

  function Count(log: seq<Event>, which: Event -> bool): nat {
    if log == [] then 0 else Count(log[..|log| - 1], which) + if which(log[|log| - 1]) then 1 else 0
  }

  function AdmittedWithin(from: int, to: int): Event -> bool { (e: Event) => e.Admitted? && from <= e.hourAt < to }
  function WrongIn(from: int, to: int): Event -> bool { (e: Event) => e.Wrong? && from <= e.at < to }
  function CountedIn(from: int, to: int): Event -> bool { (e: Event) => e.Wrong? && !e.outcome.Lost? && from <= e.at < to }
  function LostIn(from: int, to: int): Event -> bool { (e: Event) => e.Wrong? && e.outcome.Lost? && from <= e.at < to }
  function WrongFor(id: nat): Event -> bool { (e: Event) => e.Wrong? && e.id == id }
  function CountedFor(id: nat): Event -> bool { (e: Event) => e.Wrong? && !e.outcome.Lost? && e.id == id }
  function LostFor(id: nat): Event -> bool { (e: Event) => e.Wrong? && e.outcome.Lost? && e.id == id }
  function AcceptedFor(id: nat): Event -> bool { (e: Event) => e.Accepted? && e.id == id }
  function SpentFor(id: nat): Event -> bool { (e: Event) => e.Accepted? && e.deleted && e.id == id }
  function KeptFor(id: nat): Event -> bool { (e: Event) => e.Accepted? && !e.deleted && e.id == id }

  lemma {:induction false} CountSplits(log: seq<Event>, all: Event -> bool, some: Event -> bool, others: Event -> bool)
    requires forall e :: if all(e) then some(e) != others(e) else !some(e) && !others(e)
    ensures Count(log, all) == Count(log, some) + Count(log, others)
  {
    if log != [] { CountSplits(log[..|log| - 1], all, some, others); }
  }

  lemma CountOneMore(log: seq<Event>, e: Event, which: Event -> bool)
    ensures Count(log + [e], which) == Count(log, which) + if which(e) then 1 else 0
  {
  }

  /** What a call adds to the log: nothing, one outcome of a compare, or an admission
      and the save that follows it. */
  lemma Added(s: State, op: Op) returns (more: seq<Event>)
    ensures Apply(s, op).phone.log == s.phone.log + more && s.now <= Apply(s, op).now
    ensures more == [] || (op.VerifyCode? && |more| == 1 && (more[0].Wrong? || more[0].Accepted?)
                           && more[0].readAt == s.now && more[0].at == s.now + op.d) ||
            (op.RequestCode? && 1 <= |more| <= 2 && more[0] == Admitted(s.now, s.now + op.delays.hour)
             && (|more| == 2 ==> more[1].Saved? && more[0].hourAt <= more[1].at))
  {
    var log, log' := s.phone.log, Apply(s, op).phone.log;
    more := log'[|log|..];
    assert log' == log + more;
  }

  lemma CountAdded(log: seq<Event>, more: seq<Event>, which: Event -> bool)
    requires |more| <= 2
    ensures |more| == 0 ==> Count(log + more, which) == Count(log, which)
    ensures |more| == 1 ==> Count(log + more, which) == Count(log, which) + if which(more[0]) then 1 else 0
    ensures |more| == 2 ==>
      Count(log + more, which) == Count(log, which) + (if which(more[0]) then 1 else 0) + if which(more[1]) then 1 else 0
  {
    if |more| == 0 {
      assert log + more == log;
    } else if |more| == 1 {
      assert more == [more[0]];
      CountOneMore(log, more[0], which);
    } else {
      assert log + more == (log + [more[0]]) + [more[1]];
      CountOneMore(log, more[0], which);
      CountOneMore(log + [more[0]], more[1], which);
    }
  }

  // ---------------------------------------------------------------------
  // Sends
  // ---------------------------------------------------------------------

  /** Every admission so far is covered by the one-a-minute key. */
  predicate CoveredInv(s: State) {
    && (forall e :: e in s.phone.log && e.Admitted? ==>
          s.phone.send.Some? && e.at + RESEND_COOLDOWN <= s.phone.send.value.expiresAt)
    && (s.phone.send.Some? ==> 1 <= s.phone.send.value.count)
  }

  predicate AdmissionsApart(log: seq<Event>) {
    forall i, j :: 0 <= i < j < |log| && log[i].Admitted? && log[j].Admitted? ==> log[i].at + 60 * SECOND <= log[j].at
  }

  /** Each code is saved after an admission of its own. */
  predicate SavesAdmitted(log: seq<Event>) {
    forall i :: 0 <= i < |log| && log[i].Saved? ==> 0 < i && log[i - 1].Admitted? && log[i - 1].hourAt <= log[i].at
  }

  lemma CoveredStep(s: State, op: Op)
    requires CoveredInv(s)
    ensures CoveredInv(Apply(s, op))
    ensures op.RequestCode? && Apply(s, op).phone.log != s.phone.log ==>
      forall e :: e in s.phone.log && e.Admitted? ==> e.at + RESEND_COOLDOWN <= s.now
  {
  }

  lemma ApartStep(s: State, op: Op)
    requires CoveredInv(s) && AdmissionsApart(s.phone.log) && SavesAdmitted(s.phone.log)
    ensures AdmissionsApart(Apply(s, op).phone.log) && SavesAdmitted(Apply(s, op).phone.log)
  {
    CoveredStep(s, op);
    var more := Added(s, op);
    if |more| == 2 {
      AdmissionAppended(s.phone.log, s.now, more[0].hourAt);
      SaveAppended(s.phone.log + [more[0]], more[1]);
      assert s.phone.log + more == s.phone.log + [more[0]] + [more[1]];
    } else if |more| == 1 && more[0].Admitted? {
      AdmissionAppended(s.phone.log, s.now, more[0].hourAt);
      assert s.phone.log + more == s.phone.log + [more[0]];
    } else if |more| == 1 {
      OtherAppended(s.phone.log, more[0]);
      assert s.phone.log + more == s.phone.log + [more[0]];
    } else {
      assert s.phone.log + more == s.phone.log;
    }
  }

  lemma AdmissionAppended(log: seq<Event>, at: int, hourAt: int)
    requires AdmissionsApart(log) && SavesAdmitted(log)
    requires forall e :: e in log && e.Admitted? ==> e.at + RESEND_COOLDOWN <= at
    ensures AdmissionsApart(log + [Admitted(at, hourAt)]) && SavesAdmitted(log + [Admitted(at, hourAt)])
  {
  }

  lemma SaveAppended(log: seq<Event>, save: Event)
    requires AdmissionsApart(log) && SavesAdmitted(log) && save.Saved?
    requires |log| > 0 && log[|log| - 1].Admitted? && log[|log| - 1].hourAt <= save.at
    ensures AdmissionsApart(log + [save]) && SavesAdmitted(log + [save])
  {
  }

  lemma OtherAppended(log: seq<Event>, e: Event)
    requires AdmissionsApart(log) && SavesAdmitted(log) && (e.Wrong? || e.Accepted?)
    ensures AdmissionsApart(log + [e]) && SavesAdmitted(log + [e])
  {
  }

  /** The hourly key bounds the requests admitted within [from, from + HOUR). */
  ghost predicate HourlyInv(s: State, from: int) {
    Bounded(s.phone.hour, s.now, Count(s.phone.log, AdmittedWithin(from, from + HOUR)), CODES_PER_PHONE_HOUR, HOUR, from)
  }

  /** A call uses the hourly key at most once, and is admitted only if that is. */
  lemma HourlyEffect(s: State, op: Op)
    ensures var p, p' := s.phone, Apply(s, op).phone;
            p'.hour == p.hour ||
            (op.RequestCode? && p'.hour == Some(Hit(p.hour, s.now + op.delays.hour, HOUR)) && s.now + op.delays.hour <= Apply(s, op).now)
    ensures op.RequestCode? && Apply(s, op).phone.log != s.phone.log ==>
              Apply(s, op).phone.hour == Some(Hit(s.phone.hour, s.now + op.delays.hour, HOUR)) &&
              Apply(s, op).phone.hour.value.count <= CODES_PER_PHONE_HOUR
  {
  }

  lemma HourlyStep(s: State, op: Op, from: int)
    requires HourlyInv(s, from)
    ensures HourlyInv(Apply(s, op), from)
  {
    var s' := Apply(s, op);
    var c := Count(s.phone.log, AdmittedWithin(from, from + HOUR));
    HourlyEffect(s, op);
    var more := Added(s, op);
    CountAdded(s.phone.log, more, AdmittedWithin(from, from + HOUR));
    var c' := Count(s'.phone.log, AdmittedWithin(from, from + HOUR));
    if op.RequestCode? && s'.phone.hour == Some(Hit(s.phone.hour, s.now + op.delays.hour, HOUR)) {
      var at := s.now + op.delays.hour;
      HitBounded(s.phone.hour, s.now, c, CODES_PER_PHONE_HOUR, HOUR, from, at);
      LaterBounded(s'.phone.hour, at, s'.now, c', CODES_PER_PHONE_HOUR, HOUR, from);
    } else {
      LaterBounded(s.phone.hour, s.now, s'.now, c, CODES_PER_PHONE_HOUR, HOUR, from);
    }
  }

  // ---------------------------------------------------------------------
  // Guesses
  // ---------------------------------------------------------------------

  /** Codes not yet saved have no history; the live one has as many counted wrong
      compares as its counter says; all others at most five. */
  ghost predicate AttemptsInv(s: State, id: nat) {
    var p, live := s.phone, LiveCode(s.phone, s.now);
    var counted, spent := Count(p.log, CountedFor(id)), Count(p.log, SpentFor(id));
    && (p.code.Some? ==> p.code.value.id < p.saves && p.code.value.attempts < MAX_CODE_ATTEMPTS)
    && (p.saves <= id ==> counted == 0 && spent == 0)
    && (live.Some? && live.value.id == id ==> counted == live.value.attempts && spent == 0)
    && counted <= MAX_CODE_ATTEMPTS && spent <= 1 && (spent == 1 ==> counted < MAX_CODE_ATTEMPTS)
  }

  lemma AttemptsStep(s: State, op: Op, id: nat)
    requires AttemptsInv(s, id)
    ensures AttemptsInv(Apply(s, op), id)
  {
    if op.VerifyCode? { AttemptsVerify(s, op, id); } else { AttemptsRequest(s, op, id); }
  }

  /** A request leaves the code, removes it, or replaces it by the next one. */
  lemma KeyAfterRequest(s: State, op: Op)
    requires !op.VerifyCode?
    ensures var p, p' := s.phone, Apply(s, op).phone;
            || (p'.saves == p.saves && p'.code == p.code)
            || (p'.saves == p.saves + 1 && (p'.code.Some? ==> p'.code.value.id == p.saves && p'.code.value.attempts == 0))
    ensures s.now <= Apply(s, op).now
  {
  }

  lemma AttemptsRequest(s: State, op: Op, id: nat)
    requires AttemptsInv(s, id) && !op.VerifyCode?
    ensures AttemptsInv(Apply(s, op), id)
  {
    var more := Added(s, op);
    CountAdded(s.phone.log, more, CountedFor(id));
    CountAdded(s.phone.log, more, SpentFor(id));
    KeyAfterRequest(s, op);
    StillCounted(s, Apply(s, op), id);
  }

  lemma StillCounted(s: State, s': State, id: nat)
    requires AttemptsInv(s, id) && s.now <= s'.now
    requires Count(s'.phone.log, CountedFor(id)) == Count(s.phone.log, CountedFor(id))
    requires Count(s'.phone.log, SpentFor(id)) == Count(s.phone.log, SpentFor(id))
    requires var p, p' := s.phone, s'.phone;
             || (p'.saves == p.saves && p'.code == p.code)
             || (p'.saves == p.saves + 1 && (p'.code.Some? ==> p'.code.value.id == p.saves && p'.code.value.attempts == 0))
    ensures AttemptsInv(s', id)
  {
  }

  lemma AttemptsVerify(s: State, op: Op, id: nat)
    requires AttemptsInv(s, id) && op.VerifyCode?
    ensures AttemptsInv(Apply(s, op), id)
  {
    var log := Apply(s, op).phone.log;
    if log != s.phone.log {
      CountOneMore(s.phone.log, log[|s.phone.log|], CountedFor(id));
      CountOneMore(s.phone.log, log[|s.phone.log|], SpentFor(id));
    }
  }

  function Remaining(s: State): nat {
    var live := LiveCode(s.phone, s.now);
    if live.Some? && live.value.attempts < MAX_CODE_ATTEMPTS then MAX_CODE_ATTEMPTS - live.value.attempts else 0
  }

  /** Counted wrong compares in the interval, and those still to come, are paid for by the
      requests admitted in it and one code from before: the one it found, or the one
      of the call that was under way when it began. */
  ghost predicate GuessInv(s: State, from: int) {
    var wrong, admitted := Count(s.phone.log, CountedIn(from, from + HOUR)), Count(s.phone.log, AdmittedWithin(from, from + HOUR));
    && (s.phone.code.Some? ==> s.phone.code.value.attempts < MAX_CODE_ATTEMPTS)
    && (s.now < from ==> wrong == 0)
    && wrong <= MAX_CODE_ATTEMPTS * (admitted + 1)
    && (s.now < from + HOUR ==> wrong + Remaining(s) <= MAX_CODE_ATTEMPTS * (admitted + 1))
  }

  lemma GuessStep(s: State, op: Op, from: int)
    requires GuessInv(s, from)
    ensures GuessInv(Apply(s, op), from)
  {
    if op.VerifyCode? { GuessVerify(s, op, from); } else { GuessRequest(s, op, from); }
  }

  lemma GuessRequest(s: State, op: Op, from: int)
    requires GuessInv(s, from) && !op.VerifyCode?
    ensures GuessInv(Apply(s, op), from)
  {
    var more := Added(s, op);
    CountAdded(s.phone.log, more, CountedIn(from, from + HOUR));
    CountAdded(s.phone.log, more, AdmittedWithin(from, from + HOUR));
  }

  /** A compare that counts costs the code one of its attempts. */
  lemma VerifyCosts(s: State, op: Op)
    requires op.VerifyCode? && (s.phone.code.Some? ==> s.phone.code.value.attempts < MAX_CODE_ATTEMPTS)
    ensures var s' := Apply(s, op);
            && s.now <= s'.now && Remaining(s') <= Remaining(s)
            && (s'.phone.code.Some? ==> s'.phone.code.value.attempts < MAX_CODE_ATTEMPTS)
            && (s'.phone.log == s.phone.log ||
                (|s'.phone.log| == |s.phone.log| + 1 &&
                 var e := s'.phone.log[|s.phone.log|];
                 && s'.phone.log == s.phone.log + [e] && !e.Admitted?
                 && (e.Wrong? && !e.outcome.Lost? ==> s.now <= e.at <= s'.now && Remaining(s') + 1 <= Remaining(s))))
  {
  }

  lemma GuessVerify(s: State, op: Op, from: int)
    requires GuessInv(s, from) && op.VerifyCode?
    ensures GuessInv(Apply(s, op), from)
  {
    var s' := Apply(s, op);
    VerifyCosts(s, op);
    if s'.phone.log != s.phone.log {
      CountOneMore(s.phone.log, s'.phone.log[|s.phone.log|], CountedIn(from, from + HOUR));
      CountOneMore(s.phone.log, s'.phone.log[|s.phone.log|], AdmittedWithin(from, from + HOUR));
    }
    GuessesPaid(s, s', from);
  }

  lemma GuessesPaid(s: State, s': State, from: int)
    requires GuessInv(s, from) && s.now <= s'.now && Remaining(s') <= Remaining(s)
    requires s'.phone.code.Some? ==> s'.phone.code.value.attempts < MAX_CODE_ATTEMPTS
    requires Count(s'.phone.log, AdmittedWithin(from, from + HOUR)) == Count(s.phone.log, AdmittedWithin(from, from + HOUR))
    requires var wrong, wrong' := Count(s.phone.log, CountedIn(from, from + HOUR)), Count(s'.phone.log, CountedIn(from, from + HOUR));
             || wrong' == wrong
             || (wrong' == wrong + 1 && from <= s'.now && s.now < from + HOUR && Remaining(s') + 1 <= Remaining(s))
    ensures GuessInv(s', from)
  {
  }

  // ---------------------------------------------------------------------
  // Lifetimes
  // ---------------------------------------------------------------------

  /** When the code was saved. */
  function SavedAt(log: seq<Event>, id: nat): Option<int> {
    if log == [] then None
    else
      var e := log[|log| - 1];
      if e.Saved? && e.id == id then Some(e.at) else SavedAt(log[..|log| - 1], id)
  }

  /** By how much its wrong compares have put off its end: each that is written back
      keeps the time that was left at the compare. */
  function PutOff(log: seq<Event>, id: nat): int {
    if log == [] then 0
    else
      var e := log[|log| - 1];
      PutOff(log[..|log| - 1], id) + if e.Wrong? && e.id == id && e.outcome.Renewed? then e.wroteAt - e.at else 0
  }

  /** The instant from which the code is no longer found. */
  function EndOf(log: seq<Event>, id: nat, ttl: nat): Option<int> {
    match SavedAt(log, id) case None => None case Some(at) => Some(at + ttl + PutOff(log, id))
  }

  predicate ComparedInTime(log: seq<Event>, j: nat, ttl: nat)
    requires j < |log|
  {
    log[j].Wrong? || log[j].Accepted? ==>
      var end := EndOf(log[..j], log[j].id, ttl);
      end.Some? && log[j].readAt < end.value
  }

  ghost predicate LifeInv(p: Phone, ttl: nat) {
    && (p.code.Some? ==> p.code.value.id < p.saves && EndOf(p.log, p.code.value.id, ttl) == Some(p.code.value.expiresAt))
    && (forall id :: p.saves <= id ==> SavedAt(p.log, id).None? && PutOff(p.log, id) == 0)
    && (forall j :: 0 <= j < |p.log| ==> ComparedInTime(p.log, j, ttl))
  }

  lemma EndOneMore(log: seq<Event>, e: Event, id: nat, ttl: nat)
    ensures SavedAt(log + [e], id) == if e.Saved? && e.id == id then Some(e.at) else SavedAt(log, id)
    ensures PutOff(log + [e], id) == PutOff(log, id) + if e.Wrong? && e.id == id && e.outcome.Renewed? then e.wroteAt - e.at else 0
  {
    assert (log + [e])[..|log|] == log;
  }

  lemma InTimeOneMore(log: seq<Event>, e: Event, ttl: nat)
    requires forall j :: 0 <= j < |log| ==> ComparedInTime(log, j, ttl)
    requires e.Wrong? || e.Accepted? ==> EndOf(log, e.id, ttl).Some? && e.readAt < EndOf(log, e.id, ttl).value
    ensures forall j :: 0 <= j < |log + [e]| ==> ComparedInTime(log + [e], j, ttl)
  {
    forall j | 0 <= j < |log + [e]| ensures ComparedInTime(log + [e], j, ttl) {
      assert (log + [e])[..j] == log[..j];
      if j < |log| { assert ComparedInTime(log, j, ttl); } else { assert log[..j] == log; }
    }
  }

  /** An event that saves and renews nothing. */
  lemma LifePlain(p: Phone, e: Event, code: Option<Code>, ttl: nat)
    requires LifeInv(p, ttl) && !e.Saved? && (code == p.code || code == None)
    requires e.Wrong? ==> !e.outcome.Renewed?
    requires e.Wrong? || e.Accepted? ==> p.code.Some? && e.id == p.code.value.id && e.readAt < p.code.value.expiresAt
    ensures LifeInv(p.(code := code, log := p.log + [e]), ttl)
  {
    InTimeOneMore(p.log, e, ttl);
    forall id ensures EndOf(p.log + [e], id, ttl) == EndOf(p.log, id, ttl) && PutOff(p.log + [e], id) == PutOff(p.log, id) {
      EndOneMore(p.log, e, id, ttl);
    }
  }

  lemma LifeSaved(p: Phone, now: int, secret: string, ttl: nat)
    requires LifeInv(p, ttl)
    ensures LifeInv(SaveNew(p, now, secret, ttl), ttl)
  {
    InTimeOneMore(p.log, Saved(p.saves, now), ttl);
    forall id { EndOneMore(p.log, Saved(p.saves, now), id, ttl); }
  }

  lemma LifeRenewed(p: Phone, c: Code, e: Event, ttl: nat)
    requires LifeInv(p, ttl) && p.code == Some(c) && e.Wrong? && e.id == c.id && e.outcome.Renewed? && e.readAt < c.expiresAt
    ensures LifeInv(p.(code := Some(c.(attempts := c.attempts + 1, expiresAt := e.wroteAt + (c.expiresAt - e.at))), log := p.log + [e]), ttl)
  {
    InTimeOneMore(p.log, e, ttl);
    forall id { EndOneMore(p.log, e, id, ttl); }
  }

  lemma LifeVerify(s: State, op: Op, ttl: nat)
    requires LifeInv(s.phone, ttl) && op.VerifyCode?
    ensures LifeInv(Apply(s, op).phone, ttl)
  {
    var live := LiveCode(s.phone, s.now);
    if live.Some? {
      var p, c, at := s.phone, live.value, s.now + op.d;
      if c.secret == op.secret {
        LifePlain(p, Accepted(c.id, s.now, at, op.written), if op.written then None else p.code, ttl);
      } else {
        var p' := Miss(p, c, s.now, at, at + op.d', op.written);
        var e := p'.log[|p.log|];
        if e.outcome.Renewed? { LifeRenewed(p, c, e, ttl); } else { LifePlain(p, e, p'.code, ttl); }
      }
    }
  }

  lemma LifeAdmit(p: Phone, saveAt: int, f: Fates, secret: string, smsOk: bool, ttl: nat, sms: nat)
    requires LifeInv(p, ttl)
    ensures LifeInv(Admit(p, saveAt, f, secret, smsOk, ttl, sms).phone, ttl)
  {
    LifeSaved(p, saveAt, secret, ttl);
  }

  lemma LifeStep(s: State, op: Op, ttl: nat)
    requires LifeInv(s.phone, ttl) && (op.RequestCode? ==> op.ttl == ttl)
    ensures LifeInv(Apply(s, op).phone, ttl)
  {
    if op.VerifyCode? {
      LifeVerify(s, op, ttl);
    } else if op.RequestCode? {
      LifeRequest(s, op, ttl);
    }
  }

  lemma LifeRequest(s: State, op: Op, ttl: nat)
    requires LifeInv(s.phone, ttl) && op.RequestCode? && op.ttl == ttl
    ensures LifeInv(Apply(s, op).phone, ttl)
  {
    var p := s.phone.(send := Some(Hit(s.phone.send, s.now, RESEND_COOLDOWN)));
    assert LifeInv(p, ttl);
    LifePastCooldown(p, s.now, s.now + op.delays.hour, op, ttl);
  }

  lemma LifePastCooldown(p: Phone, at: int, hourAt: int, op: Op, ttl: nat)
    requires LifeInv(p, ttl) && op.RequestCode?
    ensures LifeInv(PastCooldown(p, at, hourAt, op.fates, op.ipOk, op.secret, op.smsOk, ttl, op.delays).phone, ttl)
  {
    var p' := p.(hour := Some(Hit(p.hour, hourAt, HOUR)));
    assert LifeInv(p', ttl);
    LifePlain(p', Admitted(at, hourAt), p'.code, ttl);
    LifeAdmit(p'.(log := p'.log + [Admitted(at, hourAt)]), hourAt + op.delays.ip + op.delays.save, op.fates, op.secret, op.smsOk, ttl, op.delays.sms);
  }

  predicate AllLast(run: seq<Op>, ttl: nat) {
    forall op :: op in run && op.RequestCode? ==> op.ttl == ttl
  }

  lemma {:induction false} LifeRun(s: State, run: seq<Op>, ttl: nat)
    requires LifeInv(s.phone, ttl) && AllLast(run, ttl)
    ensures LifeInv(Exec(s, run).phone, ttl)
    decreases |run|
  {
    if run != [] {
      assert run[0] in run;
      LifeStep(s, run[0], ttl);
      LifeRun(Apply(s, run[0]), run[1..], ttl);
    }
  }

  // ---------------------------------------------------------------------
  // Theorems
  // ---------------------------------------------------------------------

  ghost predicate Inv(s: State, from: int, id: nat) {
    && CoveredInv(s) && AdmissionsApart(s.phone.log) && SavesAdmitted(s.phone.log)
    && HourlyInv(s, from) && AttemptsInv(s, id) && GuessInv(s, from)
  }

  lemma {:induction false} InvRun(s: State, run: seq<Op>, from: int, id: nat)
    requires Inv(s, from, id)
    ensures Inv(Exec(s, run), from, id)
    decreases |run|
  {
    if run != [] {
      CoveredStep(s, run[0]);
      ApartStep(s, run[0]);
      HourlyStep(s, run[0], from);
      AttemptsStep(s, run[0], id);
      GuessStep(s, run[0], from);
      InvRun(Apply(s, run[0]), run[1..], from, id);
    }
  }

  /** In every run, however long calls take, requests of one phone are admitted at
      least a minute apart and at most nine in any hour, and every code is saved and
      sent after an admission of its own. */
  lemma SendsAreRare(now: int, run: seq<Op>, from: int)
    ensures var log := Exec(State(now, INIT), run).phone.log;
            AdmissionsApart(log) && SavesAdmitted(log) && Count(log, AdmittedWithin(from, from + HOUR)) <= 9
  {
    InvRun(State(now, INIT), run, from, 0);
  }

  /** In every run, each saved code survives at most five wrong compares and is
      accepted at most once, and then after fewer than five, but for the compares whose
      write to Redis failed. */
  lemma CodeIsSpent(now: int, run: seq<Op>, id: nat)
    ensures var log := Exec(State(now, INIT), run).phone.log;
            var lost, kept := Count(log, LostFor(id)), Count(log, KeptFor(id));
            && Count(log, WrongFor(id)) <= 5 + lost && Count(log, AcceptedFor(id)) <= 1 + kept
            && (kept < Count(log, AcceptedFor(id)) ==> Count(log, WrongFor(id)) < 5 + lost)
  {
    InvRun(State(now, INIT), run, 0, id);
    var log := Exec(State(now, INIT), run).phone.log;
    CountSplits(log, WrongFor(id), CountedFor(id), LostFor(id));
    CountSplits(log, AcceptedFor(id), SpentFor(id), KeptFor(id));
  }

  /** In every run, however long calls take, at most fifty wrong compares fall in any
      hour, but for those whose write to Redis failed. */
  lemma GuessesAreFew(now: int, run: seq<Op>, from: int)
    ensures var log := Exec(State(now, INIT), run).phone.log;
            Count(log, WrongIn(from, from + HOUR)) <= 50 + Count(log, LostIn(from, from + HOUR))
  {
    InvRun(State(now, INIT), run, from, 0);
    var log := Exec(State(now, INIT), run).phone.log;
    CountSplits(log, WrongIn(from, from + HOUR), CountedIn(from, from + HOUR), LostIn(from, from + HOUR));
  }

  /** In every run of requests with one lifetime: the code in place is found until
      that long after it was saved, put off by what its counted misses took to write
      back, and no longer; and every compare read its code before that. */
  lemma CodesLiveExactly(now: int, run: seq<Op>, ttl: nat)
    requires AllLast(run, ttl)
    ensures var p := Exec(State(now, INIT), run).phone;
            && (p.code.Some? ==> EndOf(p.log, p.code.value.id, ttl) == Some(p.code.value.expiresAt))
            && forall j :: 0 <= j < |p.log| ==> ComparedInTime(p.log, j, ttl)
  {
    LifeRun(State(now, INIT), run, ttl);
  }

  // ---------------------------------------------------------------------
  // Failed writes are not bounded
  // ---------------------------------------------------------------------

  const ALL_HEARD := Fates(Heard, Heard, Heard, Heard, true)

  lemma {:induction false} Misses(s: State, n: nat, guess: string) returns (run: seq<Op>)
    requires LiveCode(s.phone, s.now).Some? && s.phone.code.value.secret != guess && 0 <= s.now < HOUR
    ensures var s' := Exec(s, run);
            && Count(s'.phone.log, WrongIn(0, HOUR)) == Count(s.phone.log, WrongIn(0, HOUR)) + n
            && s'.phone.code == s.phone.code && s'.now == s.now && s'.phone.saves == s.phone.saves
    decreases n
  {
    if n == 0 {
      run := [];
    } else {
      var op := VerifyCode(guess, 0, 0, false);
      var s1 := Apply(s, op);
      CountOneMore(s.phone.log, s1.phone.log[|s.phone.log|], WrongIn(0, HOUR));
      var rest := Misses(s1, n - 1, guess);
      run := [op] + rest;
      assert run[1..] == rest;
    }
  }

  /** While Redis takes no writes, one code can be guessed at any number of times. */
  lemma UncountedGuesses(secret: string, guess: string, n: nat) returns (run: seq<Op>)
    requires guess != secret
    ensures var s := Exec(State(0, INIT), run);
            s.phone.saves == 1 && LiveCode(s.phone, s.now).Some? && Count(s.phone.log, WrongIn(0, HOUR)) == n
  {
    var op := RequestCode(ALL_HEARD, true, secret, true, 1, Delays(0, 0, 0, 0));
    var s1 := Apply(State(0, INIT), op);
    assert s1.phone.log == [Admitted(0, 0), Saved(0, 0)];
    CountAdded([], s1.phone.log, WrongIn(0, HOUR));
    assert [] + s1.phone.log == s1.phone.log;
    var rest := Misses(s1, n, guess);
    run := [op] + rest;
    assert run[1..] == rest;
  }
}
