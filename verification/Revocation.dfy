/** Device tokens and their revocation: JWT times are whole seconds (RFC 7519,
    section 4.1.4), revocation entries are exact and must outlive every token. */
module Revocation {
  import opened Options
  import opened Replies
  import opened Units

  /** time.Time.Unix */
  function Unix(t: int): int { t / SECOND }

  // The claims of a device token; iat, nbf and exp in seconds.
  datatype Claims = Claims(
    issuer: string, device: string, deviceType: string, serial: string, rest: string,
    token: string, iat: int, nbf: int, exp: int)

  // A bearer string: signed with the service's key, or anything else.
  datatype Bearer = Signed(claims: Claims) | Forged

  datatype Manager = Manager(issuer: string, ttl: int)

  function Issue(m: Manager, now: int, device: string, deviceType: string, serial: string, rest: string, token: string): Claims {
    Claims(m.issuer, device, deviceType, serial, rest, token, Unix(now), Unix(now), Unix(now + m.ttl))
  }

  datatype Verdict = Valid(claims: Claims) | TokenExpired | TokenInvalid

  /** Verify: an expired token is reported as such whatever else is wrong with it. */
  function Verify(m: Manager, now: int, b: Bearer): Verdict {
    if b.Forged? then TokenInvalid
    else if b.claims.exp * SECOND <= now then TokenExpired
    else if now < b.claims.nbf * SECOND || b.claims.issuer != m.issuer then TokenInvalid
    else Valid(b.claims)
  }

  /** A token names the device it is issued for, and is good from the moment it is
      issued, for its lifetime less at most a second. */
  lemma LifeOfToken(m: Manager, at: int, now: int, device: string, deviceType: string, serial: string, rest: string, token: string)
    requires at <= now
    ensures var b := Signed(Issue(m, at, device, deviceType, serial, rest, token));
            && (now + SECOND <= at + m.ttl ==> Verify(m, now, b).Valid?)
            && (at + m.ttl <= now ==> Verify(m, now, b) == TokenExpired)
            && Verify(m, now, b) != TokenInvalid
            && b.claims.device == device && b.claims.deviceType == deviceType && b.claims.serial == serial
            && b.claims.rest == rest && b.claims.token == token
  {
  }

  /** What nobody with the key has signed, or another issuer has, is never let through. */
  lemma OthersAreRefused(m: Manager, s: State, b: Bearer)
    requires b.Forged? || b.claims.issuer != m.issuer
    ensures !Accepts(m, s, b) && !Verify(m, s.now, b).Valid?
  {
  }

  // ---------------------------------------------------------------------
  // Runs
  // ---------------------------------------------------------------------

  datatype Event = Issued(claims: Claims, at: int) | DeviceRevoked(device: string, at: int) | TokenRevoked(token: string, at: int)

  // The revocation keys with their expiries, and what has happened.
  datatype State = State(now: int, devices: map<string, int>, tokens: map<string, int>, history: set<Event>)

  datatype Step =
    | Wait(d: nat)
    | IssueToken(device: string, deviceType: string, serial: string, rest: string, token: string)
    | RevokeDevice(device: string)
    | RevokeToken(token: string)

  function Start(now: int): State { State(now, map[], map[], {}) }

  function Apply(m: Manager, s: State, a: Step): State {
    match a
    case Wait(d) => s.(now := s.now + d)
    case IssueToken(device, deviceType, serial, rest, token) =>
      s.(history := s.history + {Issued(Issue(m, s.now, device, deviceType, serial, rest, token), s.now)})
    case RevokeDevice(device) =>
      s.(devices := s.devices[device := s.now + m.ttl], history := s.history + {DeviceRevoked(device, s.now)})
    case RevokeToken(token) =>
      s.(tokens := s.tokens[token := s.now + m.ttl], history := s.history + {TokenRevoked(token, s.now)})
  }

  function Exec(m: Manager, s: State, run: seq<Step>): State
    decreases |run|
  {
    if run == [] then s else Exec(m, Apply(m, s, run[0]), run[1..])
  }

  /** EXISTS */
  predicate Live(keys: map<string, int>, key: string, now: int) { key in keys && now < keys[key] }

  predicate Accepts(m: Manager, s: State, b: Bearer) {
    Verify(m, s.now, b).Valid? && !Live(s.devices, b.claims.device, s.now) && !Live(s.tokens, b.claims.token, s.now)
  }

  /** A revocation of the token or its device that is less than a token's lifetime old. */
  ghost predicate RevokedLately(m: Manager, s: State, c: Claims) {
    exists e :: e in s.history && (e == DeviceRevoked(c.device, e.at) || e == TokenRevoked(c.token, e.at)) && s.now < e.at + m.ttl
  }

  // ---------------------------------------------------------------------
  // What every step keeps
  // ---------------------------------------------------------------------

  /** The keys say when the latest revocation runs out. */
  predicate EventInv(m: Manager, s: State, e: Event) {
    e.at <= s.now &&
    match e
    case Issued(c, at) => c.issuer == m.issuer && c.nbf == Unix(at) && c.exp == Unix(at + m.ttl)
    case DeviceRevoked(d, at) => d in s.devices && at + m.ttl <= s.devices[d]
    case TokenRevoked(t, at) => t in s.tokens && at + m.ttl <= s.tokens[t]
  }

  ghost predicate KeysInv(m: Manager, s: State) {
    && (forall d :: d in s.devices ==> DeviceRevoked(d, s.devices[d] - m.ttl) in s.history)
    && (forall t :: t in s.tokens ==> TokenRevoked(t, s.tokens[t] - m.ttl) in s.history)
  }

  ghost predicate Inv(m: Manager, s: State) {
    KeysInv(m, s) && forall e :: e in s.history ==> EventInv(m, s, e)
  }

  lemma KeysStep(m: Manager, s: State, a: Step)
    requires KeysInv(m, s)
    ensures KeysInv(m, Apply(m, s, a))
  {
  }

  lemma EventStep(m: Manager, s: State, a: Step, e: Event)
    requires e in Apply(m, s, a).history && (e in s.history ==> EventInv(m, s, e))
    ensures EventInv(m, Apply(m, s, a), e)
  {
  }

  lemma InvStep(m: Manager, s: State, a: Step)
    requires Inv(m, s)
    ensures Inv(m, Apply(m, s, a))
  {
    KeysStep(m, s, a);
    forall e | e in Apply(m, s, a).history ensures EventInv(m, Apply(m, s, a), e) {
      EventStep(m, s, a, e);
    }
  }

  lemma {:induction false} InvRun(m: Manager, s: State, run: seq<Step>)
    requires Inv(m, s)
    ensures Inv(m, Exec(m, s, run))
    decreases |run|
  {
    if run != [] {
      InvStep(m, s, run[0]);
      InvRun(m, Apply(m, s, run[0]), run[1..]);
    }
  }

  lemma {:induction false} RunSplits(m: Manager, s: State, before: seq<Step>, after: seq<Step>)
    ensures Exec(m, s, before + after) == Exec(m, Exec(m, s, before), after)
    decreases |before|
  {
    if before == [] {
      assert before + after == after;
    } else {
      assert (before + after)[0] == before[0] && (before + after)[1..] == before[1..] + after;
      RunSplits(m, Apply(m, s, before[0]), before[1..], after);
    }
  }

  lemma {:induction false} HistoryGrows(m: Manager, s: State, run: seq<Step>)
    ensures s.history <= Exec(m, s, run).history && s.now <= Exec(m, s, run).now
    decreases |run|
  {
    if run != [] { HistoryGrows(m, Apply(m, s, run[0]), run[1..]); }
  }

  // ---------------------------------------------------------------------
  // Theorems
  // ---------------------------------------------------------------------

  /** In every run, an issued token is accepted if and only if it has not expired
      and neither it nor its device was revoked less than a lifetime ago. */
  lemma AcceptsIff(m: Manager, start: int, run: seq<Step>, i: Event)
    requires i in Exec(m, Start(start), run).history && i.Issued?
    ensures var s := Exec(m, Start(start), run);
            Accepts(m, s, Signed(i.claims)) <==> s.now < Unix(i.at + m.ttl) * SECOND && !RevokedLately(m, s, i.claims)
  {
    InvRun(m, Start(start), run);
    var s := Exec(m, Start(start), run);
    assert EventInv(m, s, i);
    LiveIffLately(m, s, i.claims);
    VerifiesUntilExp(m, s.now, i.claims, i.at);
  }

  lemma LiveIffLately(m: Manager, s: State, c: Claims)
    requires Inv(m, s)
    ensures RevokedLately(m, s, c) <==> Live(s.devices, c.device, s.now) || Live(s.tokens, c.token, s.now)
  {
  }

  lemma VerifiesUntilExp(m: Manager, now: int, c: Claims, at: int)
    requires c.issuer == m.issuer && c.nbf == Unix(at) && at <= now
    ensures Verify(m, now, Signed(c)).Valid? <==> now < c.exp * SECOND
  {
  }

  /** A revocation outlives every token it is meant for: no token issued for the
      device by the time it is revoked is accepted at any later time, however many
      revocations follow. */
  lemma RevocationIsForGood(m: Manager, start: int, before: seq<Step>, device: string, after: seq<Step>, i: Event)
    requires i in Exec(m, Start(start), before).history && i.Issued? && i.claims.device == device
    ensures !Accepts(m, Exec(m, Start(start), before + [RevokeDevice(device)] + after), Signed(i.claims))
  {
    var s1 := Exec(m, Start(start), before);
    var s2 := Apply(m, s1, RevokeDevice(device));
    var run := before + [RevokeDevice(device)] + after;
    InvRun(m, Start(start), before);
    RunSplits(m, Start(start), before + [RevokeDevice(device)], after);
    RunSplits(m, Start(start), before, [RevokeDevice(device)]);
    assert Exec(m, s1, [RevokeDevice(device)]) == s2 by { assert [RevokeDevice(device)][1..] == []; }
    HistoryGrows(m, s2, after);
    var s := Exec(m, Start(start), run);
    var e := DeviceRevoked(device, s1.now);
    assert e in s.history && i in s.history;
    AcceptsIff(m, start, run, i);
    if s.now < Unix(i.at + m.ttl) * SECOND {
      assert s.now < e.at + m.ttl;
      assert RevokedLately(m, s, i.claims);
    }
  }

  /** The same key locks out a device that is paired again: a token issued after
      the revocation is refused until a full lifetime has passed. */
  lemma RepairedDeviceIsLockedOut(m: Manager, start: int, run: seq<Step>, i: Event, e: Event)
    requires var s := Exec(m, Start(start), run);
             i in s.history && i.Issued? && e in s.history && e == DeviceRevoked(i.claims.device, e.at) && s.now < e.at + m.ttl
    ensures !Accepts(m, Exec(m, Start(start), run), Signed(i.claims))
  {
    AcceptsIff(m, start, run, i);
    assert RevokedLately(m, Exec(m, Start(start), run), i.claims);
  }

  // ---------------------------------------------------------------------
  // The code
  // ---------------------------------------------------------------------

  class RevocationRepo {
    var now: int
    var devices: map<string, int>
    var tokens: map<string, int>
    ghost var history: set<Event>

    ghost function Snapshot(): State
      reads this
    {
      State(now, devices, tokens, history)
    }

    constructor (start: int)
      ensures Snapshot() == Start(start)
    {
      now, devices, tokens, history := start, map[], map[], {};
    }

    method RevokeDevice(device: string, ttl: int)
      modifies this
      ensures Snapshot() == Apply(Manager("", ttl), old(Snapshot()), Step.RevokeDevice(device))
    {
      devices := devices[device := now + ttl];
      history := history + {DeviceRevoked(device, now)};
    }

    method RevokeToken(token: string, ttl: int)
      modifies this
      ensures Snapshot() == Apply(Manager("", ttl), old(Snapshot()), Step.RevokeToken(token))
    {
      tokens := tokens[token := now + ttl];
      history := history + {TokenRevoked(token, now)};
    }

    method IsDeviceRevoked(device: string) returns (revoked: bool)
      ensures revoked == Live(devices, device, now)
    {
      return device in devices && now < devices[device];
    }

    method IsTokenRevoked(token: string) returns (revoked: bool)
      ensures revoked == Live(tokens, token, now)
    {
      return token in tokens && now < tokens[token];
    }
  }

  /** device_auth_service.go Revoke: the entry lives as long as a token. "" is uuid.Nil.
      If Redis fails the key has been set or not, and nothing else has changed. */
  method Revoke(repo: RevocationRepo, m: Manager, device: string, reply: Reply) returns (ok: bool)
    modifies repo
    ensures ok == (device != "" && reply.Heard?)
    ensures repo.Snapshot() ==
      if device != "" && TookEffect(reply) then Apply(m, old(repo.Snapshot()), RevokeDevice(device)) else old(repo.Snapshot())
    ensures device != "" && TookEffect(reply) ==> repo.devices == old(repo.devices)[device := repo.now + m.ttl]
  {
    if device == "" { return false; }
    if TookEffect(reply) { repo.RevokeDevice(device, m.ttl); }
    return reply.Heard?;
  }

  method RevokeOneToken(repo: RevocationRepo, m: Manager, token: string, reply: Reply) returns (ok: bool)
    modifies repo
    ensures ok == (token != "" && reply.Heard?)
    ensures repo.Snapshot() ==
      if token != "" && TookEffect(reply) then Apply(m, old(repo.Snapshot()), RevokeToken(token)) else old(repo.Snapshot())
    ensures token != "" && TookEffect(reply) ==> repo.tokens == old(repo.tokens)[token := repo.now + m.ttl]
  {
    if token == "" { return false; }
    if TookEffect(reply) { repo.RevokeToken(token, m.ttl); }
    return reply.Heard?;
  }

  datatype Decision = Allowed(claims: Claims) | Unauthorized(reason: string) | Unavailable

  /** The DeviceAuth middleware. It fails closed: a lookup that does not answer, and is
      still needed, makes it unavailable; a valid token is allowed exactly if both
      answer that nothing is revoked. */
  method DeviceAuth(repo: RevocationRepo, m: Manager, header: Option<Bearer>, deviceLookup: bool, tokenLookup: bool)
    returns (d: Decision)
    ensures header.None? ==> d == Unauthorized("unauthorized")
    ensures header.Some? && !Verify(m, repo.now, header.value).Valid? ==>
      d == Unauthorized(if header.value.Signed? && header.value.claims.exp * SECOND <= repo.now then "token_expired" else "invalid_token")
    ensures header.Some? && Verify(m, repo.now, header.value).Valid? ==>
      var c := header.value.claims;
      d == if !deviceLookup then Unavailable
           else if c.device in repo.devices && repo.now < repo.devices[c.device] then Unauthorized("revoked")
           else if !tokenLookup then Unavailable
           else if c.token in repo.tokens && repo.now < repo.tokens[c.token] then Unauthorized("revoked")
           else Allowed(c)
    ensures d.Allowed? <==> header.Some? && deviceLookup && tokenLookup && Accepts(m, repo.Snapshot(), header.value)
  {
    if header.None? { return Unauthorized("unauthorized"); }
    var verdict := Verify(m, repo.now, header.value);
    if verdict.TokenExpired? { return Unauthorized("token_expired"); }
    if verdict.TokenInvalid? { return Unauthorized("invalid_token"); }
    if !deviceLookup { return Unavailable; }
    var revoked := repo.IsDeviceRevoked(verdict.claims.device);
    if revoked { return Unauthorized("revoked"); }
    if !tokenLookup { return Unavailable; }
    var revokedToken := repo.IsTokenRevoked(verdict.claims.token);
    if revokedToken { return Unauthorized("revoked"); }
    return Allowed(verdict.claims);
  }
}
