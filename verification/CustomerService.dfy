/** customer_auth_repo.go Allow and the code methods, and customer_service.go
    RequestCode and VerifyCode, as written: each call changes its phone's keys as
    LoginCodes says, and no other phone's. Any Redis command may fail, with its effect
    or without. */
module CustomerService {
  import opened Options
  import opened Replies
  import opened Throttle
  import opened LoginCodes
  import opened Units

  // The prefixes "send:", "send-hour:" and "send-ip:" keep the three kinds apart.
  datatype ThrottleKey = Send(phone: string) | SendHour(phone: string) | SendIp(ip: string)

  function Get<K, V>(m: map<K, V>, k: K): Option<V> {
    if k in m then Some(m[k]) else None
  }

  // What Allow answers, or that the transaction failed.
  datatype Answer = Allowed(ok: bool, wait: int) | NoAnswer

  datatype SendResult = NotAPhone | CoolingDown(wait: int) | TooManyForPhone | TooManyForIp | SmsFailed | CodeSent | SendError

  datatype VerifyResult = BadPhone | CodeExpired | TooManyWrong | WrongCode(left: int) | SignedIn | VerifyError

  /** The throttle key after a transaction, which may have failed. */
  function Used(w: Option<Window>, now: int, window: nat, reply: Reply): Option<Window> {
    if reply == Unheard(false) then w else Some(Hit(w, now, window))
  }

  /** The answer that goes with it. */
  function AnswerOf(w: Option<Window>, now: int, limit: nat, window: nat, reply: Reply): Answer {
    var hit := Hit(w, now, window);
    if reply.Unheard? then NoAnswer else Allowed(hit.count <= limit, hit.expiresAt - now)
  }

  /** Whether the throttle per address lets one more request through. */
  predicate AddressAllows(w: Option<Window>, now: int) {
    Uses(w, now) < 20
  }

  /** The answer to a request that has passed both throttles of its phone. */
  function AnswerTo(fates: Fates, ipOk: bool, smsOk: bool): SendResult {
    if fates.ip.Unheard? then SendError
    else if !ipOk then TooManyForIp
    else if fates.save.Unheard? then SendError
    else if smsOk then CodeSent else SmsFailed
  }

  /** The phone's new code has the next number and no attempts, and is found until
      `ttl` after its SET, which came in between and is the last thing in the log. */
  predicate SavedSince(s: State, s': State, secret: string, ttl: nat) {
    var log := s'.phone.log;
    |log| > 0 && log[|log| - 1].Saved? && s.now <= log[|log| - 1].at <= s'.now &&
    s'.phone.code == Some(Code(s.phone.saves, secret, 0, log[|log| - 1].at + ttl))
  }

  /** A throttle key after one more use: in its window, or in a new one. */
  function UsedOnce(w: Option<Window>, now: int, window: nat): Window {
    if Uses(w, now) > 0 then Window(Uses(w, now) + 1, w.value.expiresAt) else Window(1, now + window)
  }

  /** What a request does to its phone's throttles. */
  lemma KeysUsed(s: State, f: Fates, ipOk: bool, secret: string, smsOk: bool, ttl: nat, d: Delays)
    ensures var p, p' := s.phone, Request(s, f, ipOk, secret, smsOk, ttl, d).phone;
            && p'.send == (if !TookEffect(f.send) then p.send else Some(UsedOnce(p.send, s.now, 60 * SECOND)))
            && p'.hour == if f.send.Unheard? || 1 <= Uses(p.send, s.now) || !TookEffect(f.hour) then p.hour
                          else Some(UsedOnce(p.hour, s.now + d.hour, HOUR))
  {
  }

  /** What a request does that gets as far as its message. */
  lemma Sent(s: State, f: Fates, ipOk: bool, secret: string, smsOk: bool, ttl: nat, d: Delays)
    requires f.send.Heard? && f.hour.Heard? && f.ip.Heard? && f.save.Heard? && ipOk
    requires Uses(s.phone.send, s.now) == 0 && Uses(s.phone.hour, s.now + d.hour) < 5
    ensures var s' := Request(s, f, ipOk, secret, smsOk, ttl, d);
            (smsOk ==> SavedSince(s, s', secret, ttl)) && (!smsOk && f.deleted ==> s'.phone.code.None?)
  {
  }

  /** Redis, with the numbering and the history of every phone. Calls for one phone run
      one at a time; calls for other phones touch other keys, but for the address's. */
  class AuthStore {
    var now: int
    var throttles: map<ThrottleKey, Window>
    var codes: map<string, Code>
    var saves: map<string, nat>
    ghost var logs: map<string, seq<Event>>

    constructor (start: int)
      ensures now == start && forall q :: View(q) == INIT
    {
      now, throttles, codes, saves, logs := start, map[], map[], map[], map[];
    }

    function Saves(phone: string): nat reads `saves {
      if phone in saves then saves[phone] else 0
    }

    ghost function Log(phone: string): seq<Event> reads `logs {
      if phone in logs then logs[phone] else []
    }

    /** One phone's part of the store. */
    ghost function View(phone: string): Phone
      reads `throttles, `codes, `saves, `logs
    {
      Phone(Get(throttles, Send(phone)), Get(throttles, SendHour(phone)), Get(codes, phone), Saves(phone), Log(phone))
    }

    ghost function StateOf(phone: string): State
      reads `now, `throttles, `codes, `saves, `logs
    {
      State(now, View(phone))
    }

    /** Time passes between two commands. */
    method Tick() returns (d: nat)
      modifies `now
      ensures now == old(now) + d
    {
      d :| true;
      now := now + d;
    }

    /** INCR, EXPIRE NX and TTL in one transaction: whether the use is within the
        limit, and how long the window has left; or a failure, with the transaction
        done or not. */
    method Allow(key: ThrottleKey, limit: nat, window: nat, reply: Reply) returns (a: Answer)
      modifies `throttles
      ensures throttles == if reply == Unheard(false) then old(throttles) else old(throttles)[key := Hit(Get(old(throttles), key), now, window)]
      ensures a == AnswerOf(Get(old(throttles), key), now, limit, window, reply)
      ensures forall k :: k != key ==> Get(throttles, k) == Get(old(throttles), k)
      ensures var w := Get(old(throttles), key);
              && (TookEffect(reply) ==> throttles[key] == UsedOnce(w, now, window))
              && a == if reply.Heard? then Allowed(Uses(w, now) < limit, UsedOnce(w, now, window).expiresAt - now) else NoAnswer
    {
      if reply == Unheard(false) { return NoAnswer; }
      var live := key in throttles && now < throttles[key].expiresAt;
      var count := if live then throttles[key].count + 1 else 1;
      var expiresAt := if live then throttles[key].expiresAt else now + window;
      throttles := throttles[key := Window(count, expiresAt)];
      if reply.Unheard? { return NoAnswer; }
      return Allowed(count <= limit, expiresAt - now);
    }

    /** SET. */
    method SaveCode(phone: string, code: Code, ttl: int, reply: Reply) returns (ok: bool)
      modifies `codes
      ensures codes == if reply == Unheard(false) then old(codes) else old(codes)[phone := code.(expiresAt := now + ttl)]
      ensures ok <==> reply.Heard?
    {
      if reply == Unheard(false) { return false; }
      codes := codes[phone := code.(expiresAt := now + ttl)];
      return reply.Heard?;
    }

    /** GET and then TTL, which is not positive if the key has run out in between; `get`
        and `left` say whether they answer. */
    method GetCode(phone: string, get: bool, left: bool) returns (code: Option<Code>, ttl: int, failed: bool, ghost d: nat)
      modifies `now
      ensures now == old(now) + d && (failed <==> !get || (LiveCode(old(View(phone)), old(now)).Some? && !left))
      ensures !failed ==> code == LiveCode(old(View(phone)), old(now))
      ensures !failed && code.Some? ==> ttl == code.value.expiresAt - now
      ensures !failed && code.None? ==> d == 0
    {
      d := 0;
      if !get { return None, 0, true, d; }
      if phone !in codes || codes[phone].expiresAt <= now { return None, 0, false, d; }
      var code' := codes[phone];
      d := Tick();
      if !left { return None, 0, true, d; }
      return Some(code'), code'.expiresAt - now, false, d;
    }

    /** DEL, whose failure every caller ignores. */
    method DeleteCode(phone: string, arrives: bool)
      modifies `codes
      ensures var p := old(View(phone)); View(phone) == if arrives then p.(code := None) else p
      ensures forall q :: q != phone ==> View(q) == old(View(q))
    {
      if arrives { codes := codes - {phone}; }
    }

    method AllowSend(phone: string, reply: Reply) returns (a: Answer)
      modifies `throttles
      ensures View(phone) == var p := old(View(phone)); p.(send := Used(p.send, now, RESEND_COOLDOWN, reply))
      ensures a == AnswerOf(old(View(phone)).send, now, 1, RESEND_COOLDOWN, reply)
      ensures forall q :: q != phone ==> View(q) == old(View(q))
      ensures forall ip :: Get(throttles, SendIp(ip)) == old(Get(throttles, SendIp(ip)))
    {
      a := Allow(Send(phone), 1, RESEND_COOLDOWN, reply);
    }

    method AllowSendHour(phone: string, reply: Reply) returns (a: Answer)
      modifies `throttles
      ensures View(phone) == var p := old(View(phone)); p.(hour := Used(p.hour, now, HOUR, reply))
      ensures a == AnswerOf(old(View(phone)).hour, now, CODES_PER_PHONE_HOUR, HOUR, reply)
      ensures forall q :: q != phone ==> View(q) == old(View(q))
      ensures forall ip :: Get(throttles, SendIp(ip)) == old(Get(throttles, SendIp(ip)))
    {
      a := Allow(SendHour(phone), CODES_PER_PHONE_HOUR, HOUR, reply);
    }

    method AllowSendIp(ip: string, reply: Reply) returns (a: Answer)
      modifies `throttles
      ensures a == AnswerOf(Get(old(throttles), SendIp(ip)), now, CODES_PER_IP_HOUR, HOUR, reply)
      ensures forall q :: View(q) == old(View(q))
    {
      a := Allow(SendIp(ip), CODES_PER_IP_HOUR, HOUR, reply);
    }

    /** A new code for the phone, and the number it goes by. */
    method SaveNewCode(phone: string, secret: string, ttl: nat, reply: Reply) returns (ok: bool)
      modifies `codes, `saves, `logs
      ensures View(phone) == if reply == Unheard(false) then old(View(phone)) else SaveNew(old(View(phone)), now, secret, ttl)
      ensures forall q :: q != phone ==> View(q) == old(View(q))
      ensures ok <==> reply.Heard?
    {
      ok := SaveCode(phone, Code(Saves(phone), secret, 0, 0), ttl, reply);
      if reply != Unheard(false) {
        logs := logs[phone := Log(phone) + [Saved(Saves(phone), now)]];
        saves := saves[phone := Saves(phone) + 1];
      }
    }

    /** An admitted request: SET, the gateway, and DEL if the code could not be sent. */
    method SaveAndSend(phone: string, secret: string, smsOk: bool, ttl: nat, fates: Fates, ghost sendAt: int, ghost hourAt: int)
        returns (r: SendResult, ghost sms: nat)
      modifies `now, `codes, `saves, `logs
      ensures var p := old(View(phone));
              StateOf(phone) == Admit(p.(log := p.log + [Admitted(sendAt, hourAt)]), old(now), fates, secret, smsOk, ttl, sms)
      ensures r == if fates.save.Unheard? then SendError else if smsOk then CodeSent else SmsFailed
      ensures forall q :: q != phone ==> View(q) == old(View(q))
    {
      sms := 0;
      logs := logs[phone := Log(phone) + [Admitted(sendAt, hourAt)]];
      var ok := SaveNewCode(phone, secret, ttl, fates.save);
      if !ok { return SendError, sms; }
      sms := Tick();
      if !smsOk {
        DeleteCode(phone, fates.deleted);
        return SmsFailed, sms;
      }
      return CodeSent, sms;
    }

    /** RequestCode; the code is fresh, `smsOk` is the gateway's answer, and `fates`
        says which Redis calls get through. The first check that fails gives the answer;
        a code that was sent is in place for its whole lifetime from its SET on. */
    method RequestCode(phone: string, ip: string, secret: string, smsOk: bool, ttl: nat, fates: Fates)
      returns (r: SendResult, ghost ipOk: bool, ghost delays: Delays)
      modifies `now, `throttles, `codes, `saves, `logs
      ensures forall q :: q != phone ==> View(q) == old(View(q))
      ensures phone == "" ==> StateOf(phone) == old(StateOf(phone))
      ensures phone != "" ==> StateOf(phone) == Request(old(StateOf(phone)), fates, ipOk, secret, smsOk, ttl, delays)
      ensures ipOk == AddressAllows(Get(old(throttles), SendIp(ip)), old(now) + delays.hour + delays.ip)
      ensures var p := old(View(phone));
        r == if phone == "" then NotAPhone
             else if fates.send.Unheard? then SendError
             else if 1 <= Uses(p.send, old(now)) then CoolingDown(p.send.value.expiresAt - old(now))
             else if fates.hour.Unheard? then SendError
             else if 5 <= Uses(p.hour, old(now) + delays.hour) then TooManyForPhone
             else if fates.ip.Unheard? then SendError
             else if !ipOk then TooManyForIp
             else if fates.save.Unheard? then SendError
             else if smsOk then CodeSent else SmsFailed
      ensures View(phone).send ==
        if phone == "" || !TookEffect(fates.send) then old(View(phone)).send
        else Some(UsedOnce(old(View(phone)).send, old(now), 60 * SECOND))
      ensures View(phone).hour ==
        if phone == "" || fates.send.Unheard? || 1 <= Uses(old(View(phone)).send, old(now)) || !TookEffect(fates.hour) then old(View(phone)).hour
        else Some(UsedOnce(old(View(phone)).hour, old(now) + delays.hour, HOUR))
      ensures r.CodeSent? ==> SavedSince(old(StateOf(phone)), StateOf(phone), secret, ttl)
      ensures r.SmsFailed? && fates.deleted ==> View(phone).code.None?
    {
      if phone == "" {
        return NotAPhone, AddressAllows(Get(throttles, SendIp(ip)), now), Delays(0, 0, 0, 0);
      }
      ghost var s := StateOf(phone);
      r, ipOk, delays := CheckCooldown(phone, ip, secret, smsOk, ttl, fates);
      if r.CodeSent? || r.SmsFailed? { Sent(s, fates, ipOk, secret, smsOk, ttl, delays); }
      KeysUsed(s, fates, ipOk, secret, smsOk, ttl, delays);
    }

    /** RequestCode from the one-a-minute throttle on. */
    method CheckCooldown(phone: string, ip: string, secret: string, smsOk: bool, ttl: nat, fates: Fates)
      returns (r: SendResult, ghost ipOk: bool, ghost delays: Delays)
      modifies `now, `throttles, `codes, `saves, `logs
      ensures StateOf(phone) == Request(old(StateOf(phone)), fates, ipOk, secret, smsOk, ttl, delays)
      ensures forall q :: q != phone ==> View(q) == old(View(q))
      ensures ipOk == AddressAllows(Get(old(throttles), SendIp(ip)), old(now) + delays.hour + delays.ip)
      ensures var p := old(View(phone));
        r == if fates.send.Unheard? then SendError
             else if 1 <= Uses(p.send, old(now)) then CoolingDown(p.send.value.expiresAt - old(now))
             else if fates.hour.Unheard? then SendError
             else if 5 <= Uses(p.hour, old(now) + delays.hour) then TooManyForPhone
             else AnswerTo(fates, ipOk, smsOk)
    {
      ipOk, delays := AddressAllows(Get(throttles, SendIp(ip)), now), Delays(0, 0, 0, 0);
      var a := AllowSend(phone, fates.send);
      if a.NoAnswer? { return SendError, ipOk, delays; }
      if !a.ok { return CoolingDown(a.wait), ipOk, delays; }
      ghost var sendAt := now;
      ghost var d := Tick();
      r, ipOk, delays := CheckHour(phone, ip, secret, smsOk, ttl, fates, sendAt, d);
    }

    /** RequestCode from the hourly throttle on. */
    method CheckHour(phone: string, ip: string, secret: string, smsOk: bool, ttl: nat, fates: Fates, ghost sendAt: int, ghost hour: nat)
      returns (r: SendResult, ghost ipOk: bool, ghost delays: Delays)
      modifies `now, `throttles, `codes, `saves, `logs
      ensures StateOf(phone) == PastCooldown(old(View(phone)), sendAt, old(now), fates, ipOk, secret, smsOk, ttl, delays)
      ensures forall q :: q != phone ==> View(q) == old(View(q))
      ensures delays.hour == hour && ipOk == AddressAllows(Get(old(throttles), SendIp(ip)), old(now) + delays.ip)
      ensures r == if fates.hour.Unheard? then SendError
                   else if 5 <= Uses(old(View(phone)).hour, old(now)) then TooManyForPhone
                   else AnswerTo(fates, ipOk, smsOk)
    {
      ipOk, delays := AddressAllows(Get(throttles, SendIp(ip)), now), Delays(hour, 0, 0, 0);
      ghost var hourAt := now;
      var a := AllowSendHour(phone, fates.hour);
      if a.NoAnswer? { return SendError, ipOk, delays; }
      if !a.ok { return TooManyForPhone, ipOk, delays; }
      r, ipOk, delays := CheckAddress(phone, ip, secret, smsOk, ttl, fates, sendAt, hourAt);
      delays := delays.(hour := hour);
    }

    /** RequestCode from the throttle per address on. */
    method CheckAddress(phone: string, ip: string, secret: string, smsOk: bool, ttl: nat, fates: Fates, ghost sendAt: int, ghost hourAt: int)
      returns (r: SendResult, ghost ipOk: bool, ghost delays: Delays)
      modifies `now, `throttles, `codes, `saves, `logs
      ensures fates.ip.Unheard? || !ipOk ==> StateOf(phone) == State(old(now) + delays.ip, old(View(phone)))
      ensures !fates.ip.Unheard? && ipOk ==>
        var p := old(View(phone));
        StateOf(phone) == Admit(p.(log := p.log + [Admitted(sendAt, hourAt)]), old(now) + delays.ip + delays.save,
                                fates, secret, smsOk, ttl, delays.sms)
      ensures forall q :: q != phone ==> View(q) == old(View(q))
      ensures ipOk == AddressAllows(Get(old(throttles), SendIp(ip)), old(now) + delays.ip)
      ensures r == AnswerTo(fates, ipOk, smsOk)
    {
      delays := Delays(0, 0, 0, 0);
      ghost var d := Tick();
      delays := delays.(ip := d);
      ipOk := AddressAllows(Get(throttles, SendIp(ip)), now);
      var a := AllowSendIp(ip, fates.ip);
      if a.NoAnswer? { return SendError, ipOk, delays; }
      if !a.ok { return TooManyForIp, ipOk, delays; }
      ghost var save := Tick();
      ghost var sms;
      r, sms := SaveAndSend(phone, secret, smsOk, ttl, fates, sendAt, hourAt);
      delays := delays.(save := save, sms := sms);
    }

    /** A wrong code: one attempt more, or the end of the code; nobody hears if the
        write fails. */
    method CountMiss(phone: string, code: Code, ttl: int, written: bool, ghost readAt: int, ghost at: int) returns (r: VerifyResult)
      requires ttl == code.expiresAt - at && View(phone).code == Some(code)
      modifies `codes, `logs
      ensures View(phone) == Miss(old(View(phone)), code, readAt, at, now, written)
      ensures forall q :: q != phone ==> View(q) == old(View(q))
      ensures r == if code.attempts >= 4 then TooManyWrong else WrongCode(4 - code.attempts)
      ensures View(phone).code ==
        if !written then Some(code)
        else if code.attempts >= 4 then None
        else if ttl <= 0 then Some(code)
        else Some(Code(code.id, code.secret, code.attempts + 1, now + ttl))
    {
      var attempts := code.attempts + 1;
      logs := logs[phone := Miss(View(phone), code, readAt, at, now, written).log];
      if attempts >= MAX_CODE_ATTEMPTS {
        DeleteCode(phone, written);
        return TooManyWrong;
      }
      if ttl > 0 {
        var _ := SaveCode(phone, code.(attempts := attempts), ttl, Unheard(written));
      }
      return WrongCode(MAX_CODE_ATTEMPTS - attempts);
    }

    method AcceptCode(phone: string, code: Code, written: bool, ghost readAt: int, ghost at: int)
      modifies `codes, `logs
      ensures View(phone) == Accept(old(View(phone)), code, readAt, at, written)
      ensures forall q :: q != phone ==> View(q) == old(View(q))
    {
      logs := logs[phone := Log(phone) + [Accepted(code.id, readAt, at, written)]];
      DeleteCode(phone, written);
    }

    /** VerifyCode up to the session. `get` and `left` say whether GET and TTL answer,
        and `written` whether the write that follows the compare gets through; nobody
        hears if it does not. The answer is exact, and a wrong code costs an attempt and
        keeps the time it had left. */
    method VerifyCode(phone: string, secret: string, get: bool, left: bool, written: bool)
      returns (r: VerifyResult, ghost d: nat, ghost d': nat)
      modifies `now, `codes, `logs
      ensures phone == "" ==> StateOf(phone) == old(StateOf(phone))
      ensures phone != "" ==>
        StateOf(phone) == LoginCodes.Apply(old(StateOf(phone)), if r.VerifyError? then Wait(d) else Op.VerifyCode(secret, d, d', written))
      ensures forall q :: q != phone ==> View(q) == old(View(q))
      ensures var live := LiveCode(old(View(phone)), old(now));
        r == if phone == "" then BadPhone
             else if !get then VerifyError
             else if live.None? then CodeExpired
             else if !left then VerifyError
             else if live.value.secret == secret then SignedIn
             else if live.value.attempts >= 4 then TooManyWrong
             else WrongCode(4 - live.value.attempts)
      ensures r.SignedIn? || r.TooManyWrong? ==> View(phone).code == if written then None else old(View(phone)).code
      ensures r.WrongCode? ==>
        var c := old(View(phone)).code.value;
        View(phone).code == Some(if written && old(now) + d < c.expiresAt then Code(c.id, c.secret, c.attempts + 1, c.expiresAt + d') else c)
      ensures !r.SignedIn? && !r.TooManyWrong? && !r.WrongCode? ==> View(phone) == old(View(phone))
    {
      d, d' := 0, 0;
      if phone == "" { return BadPhone, d, d'; }
      ghost var readAt := now;
      var stored, ttl, failed;
      stored, ttl, failed, d := GetCode(phone, get, left);
      if failed { return VerifyError, d, d'; }
      if stored.None? { return CodeExpired, d, d'; }
      var code := stored.value;
      ghost var at := now;
      d' := Tick();
      if code.secret != secret {
        r := CountMiss(phone, code, ttl, written, readAt, at);
        return r, d, d';
      }
      AcceptCode(phone, code, written, readAt, at);
      return SignedIn, d, d';
    }
  }
}
