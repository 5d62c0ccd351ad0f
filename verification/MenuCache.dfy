/** The menu cache: any number of fetchers (GetEffectiveMenu followed by Set)
    racing with any number of invalidators (Invalidate), one Redis command or
    one clock reading per step. */
module MenuCache {
  import opened Units

  const MENU_CACHE_MAX_TTL := HOUR
  const MARK_TTL := 2 * MENU_CACHE_MAX_TTL
  const ALL_RESTAURANTS := "all"

  /** The suffix of the mark key that Invalidate(rest) writes; "" means every restaurant. */
  function MarkName(rest: string): string {
    if rest == "" then ALL_RESTAURANTS else rest
  }

  predicate Covers(target: string, rest: string) {
    target == "" || target == rest
  }

  // One SET of an invalidation mark: the clock value it carries, the instant
  // and the step at which Redis executed it.
  datatype MarkWrite = MarkWrite(name: string, value: int, at: int, tick: nat)

  datatype FetchPhase = Asking | Holding | Timed | Passed | Ended

  // A GetEffectiveMenu call after its cache miss. Each field is set by the
  // step that moves the call on to the next phase.
  datatype Fetch = Fetch(
    rest: string, phase: FetchPhase, fetchedAt: int,
    readAt: int, validUntil: int,
    ttl: int, ttlAt: int,
    guardAt: int, guardTick: nat)

  // A stored menu, with the fetch that wrote it. `since` is the step from which
  // the key has been present without a gap.
  datatype Cached = Cached(origin: Fetch, since: nat, writtenAt: int, writeTick: nat, expiresAt: int)

  datatype InvalPhase = Clocked | Marked | Listed | Scanning | Done

  // An Invalidate call. `seen` are the keys SCAN has returned so far, `pending`
  // those not deleted yet, `cleared` the last step at which each was deleted.
  datatype Inval = Inval(
    rest: string, phase: InvalPhase, value: int,
    markAt: int, markTick: nat, scanTick: nat,
    seen: set<string>, pending: set<string>, last: bool, cleared: map<string, nat>)

  // Marks and menus whose time is up stay in the maps and count as absent.
  datatype State = State(
    now: int, tick: nat,
    marks: map<string, MarkWrite>, writes: set<MarkWrite>,
    menus: map<string, Cached>,
    fetches: map<nat, Fetch>, invals: map<nat, Inval>)

  const INIT := State(0, 0, map[], {}, map[], map[], map[])

  datatype Step =
    | Advance(d: nat)
    | BeginFetch(p: nat, rest: string)
    | ReadCrm(p: nat, validUntil: int)
    | ComputeTtl(p: nat)
    | Guard(p: nat)
    | Write(p: nat)
    | GuardAndWrite(p: nat)
    | ReadClock(p: nat, rest: string)
    | WriteMark(p: nat)
    | MarkNow(p: nat, rest: string)
    | Delete(p: nat)
    | Scan(p: nat, keys: set<string>, last: bool)
    | DeleteKeys(p: nat)

  predicate MarkLive(m: MarkWrite, now: int) { now < m.at + MARK_TTL }

  /** What GET menu:restaurant:rest finds. */
  predicate IsCached(s: State, rest: string) {
    rest in s.menus && s.now < s.menus[rest].expiresAt
  }

  /** The stale-write guard: no live mark at or after the fetch. */
  predicate GuardPasses(s: State, f: Fetch) {
    forall name :: name in {f.rest, ALL_RESTAURANTS} && name in s.marks && MarkLive(s.marks[name], s.now)
      ==> s.marks[name].value < f.fetchedAt
  }

  function Ttl(validUntil: int, now: int): int {
    if validUntil > 0 then validUntil * SECOND - now else MENU_CACHE_MAX_TTL
  }

  /** Redis's promise for a finished SCAN: a key present since before the first
      call has been returned. */
  predicate ScanComplete(s: State, start: nat, returned: set<string>) {
    forall rest :: rest in s.menus && IsCached(s, rest) && s.menus[rest].since < start ==> rest in returned
  }

  function ScanStart(s: State, i: Inval): nat {
    if i.phase == Marked then s.tick else i.scanTick
  }

  predicate Enabled(s: State, a: Step) {
    match a
    case Advance(_) => true
    case BeginFetch(p, _) => p !in s.fetches && p !in s.invals
    case ReadCrm(p, _) => p in s.fetches && s.fetches[p].phase == Asking
    case ComputeTtl(p) => p in s.fetches && s.fetches[p].phase == Holding
    case Guard(p) => p in s.fetches && s.fetches[p].phase == Timed
    case Write(p) => p in s.fetches && s.fetches[p].phase == Passed
    case GuardAndWrite(p) => p in s.fetches && s.fetches[p].phase == Timed
    case ReadClock(p, _) => p !in s.fetches && p !in s.invals
    case WriteMark(p) => p in s.invals && s.invals[p].phase == Clocked
    case MarkNow(p, _) => p !in s.fetches && p !in s.invals
    case Delete(p) => p in s.invals && s.invals[p].phase == Marked && s.invals[p].rest != ""
    case Scan(p, keys, last) =>
      p in s.invals && s.invals[p].phase in {Marked, Scanning} && s.invals[p].rest == "" &&
      (last ==> ScanComplete(s, ScanStart(s, s.invals[p]), s.invals[p].seen + keys))
    case DeleteKeys(p) => p in s.invals && s.invals[p].phase == Listed
  }

  function PutMark(s: State, p: nat, i: Inval): State {
    var w := MarkWrite(MarkName(i.rest), i.value, s.now, s.tick);
    s.(marks := s.marks[w.name := w], writes := s.writes + {w},
       invals := s.invals[p := i.(phase := Marked, markAt := s.now, markTick := s.tick)])
  }

  function CheckGuard(s: State, f: Fetch): Fetch {
    f.(phase := if GuardPasses(s, f) then Passed else Ended, guardAt := s.now, guardTick := s.tick)
  }

  function PutMenu(s: State, p: nat, f: Fetch): State {
    var since := if IsCached(s, f.rest) then s.menus[f.rest].since else s.tick;
    var menu := Cached(f.(phase := Ended), since, s.now, s.tick, s.now + Min(f.ttl, MENU_CACHE_MAX_TTL));
    s.(menus := s.menus[f.rest := menu], fetches := s.fetches[p := f.(phase := Ended)])
  }

  function DropMenus(s: State, p: nat, i: Inval, keys: set<string>): State {
    s.(menus := s.menus - keys,
       invals := s.invals[p := i.(cleared := i.cleared + map k | k in keys :: s.tick, pending := {},
                                  phase := if i.rest != "" || i.last then Done else Scanning)])
  }

  function NewInval(rest: string, now: int): Inval {
    Inval(rest, Clocked, now, 0, 0, 0, {}, {}, false, map[])
  }

  function Effect(s: State, a: Step): State
    requires Enabled(s, a)
  {
    match a
    case Advance(d) => s.(now := s.now + d)
    case BeginFetch(p, rest) => s.(fetches := s.fetches[p := Fetch(rest, Asking, s.now, 0, 0, 0, 0, 0, 0)])
    case ReadCrm(p, until) =>
      s.(fetches := s.fetches[p := s.fetches[p].(phase := Holding, readAt := s.now, validUntil := until)])
    case ComputeTtl(p) =>
      var ttl := Ttl(s.fetches[p].validUntil, s.now);
      s.(fetches := s.fetches[p := s.fetches[p].(phase := if ttl <= 0 then Ended else Timed, ttl := ttl, ttlAt := s.now)])
    case Guard(p) => s.(fetches := s.fetches[p := CheckGuard(s, s.fetches[p])])
    case Write(p) => PutMenu(s, p, s.fetches[p])
    case GuardAndWrite(p) =>
      var f := CheckGuard(s, s.fetches[p]);
      if f.phase == Passed then PutMenu(s, p, f) else s.(fetches := s.fetches[p := f])
    case ReadClock(p, rest) => s.(invals := s.invals[p := NewInval(rest, s.now)])
    case WriteMark(p) => PutMark(s, p, s.invals[p])
    case MarkNow(p, rest) => PutMark(s, p, NewInval(rest, s.now))
    case Delete(p) => DropMenus(s, p, s.invals[p], {s.invals[p].rest})
    case Scan(p, keys, last) =>
      s.(invals := s.invals[p := s.invals[p].(phase := Listed, scanTick := ScanStart(s, s.invals[p]),
                                              seen := s.invals[p].seen + keys, pending := keys, last := last)])
    case DeleteKeys(p) => DropMenus(s, p, s.invals[p], s.invals[p].pending)
  }

  function Apply(s: State, a: Step): State
    requires Enabled(s, a)
  {
    Effect(s, a).(tick := s.tick + 1)
  }

  predicate Legal(s: State, run: seq<Step>)
    decreases |run|
  {
    run == [] || (Enabled(s, run[0]) && Legal(Apply(s, run[0]), run[1..]))
  }

  function Exec(s: State, run: seq<Step>): State
    requires Legal(s, run)
    decreases |run|
  {
    if run == [] then s else Exec(Apply(s, run[0]), run[1..])
  }

  // ---------------------------------------------------------------------
  // What every step keeps
  // ---------------------------------------------------------------------

  /** The marks in Redis are the latest writes, and writes happen in clock order. */
  ghost predicate MarksInv(s: State) {
    && (forall w :: w in s.writes ==>
          && w.tick < s.tick && w.value <= w.at <= s.now
          && w.name in s.marks && w.tick <= s.marks[w.name].tick)
    && (forall name :: name in s.marks ==> s.marks[name] in s.writes && s.marks[name].name == name)
    && (forall v, w :: v in s.writes && w in s.writes && v.tick <= w.tick ==> v.at <= w.at && (v.tick == w.tick ==> v == w))
  }

  /** Write `v` replaced mark `w`, with a value before the fetch, ahead of its guard. */
  ghost predicate Overrules(v: MarkWrite, w: MarkWrite, f: Fetch) {
    v.name == w.name && w.tick < v.tick < f.guardTick && v.value < f.fetchedAt
  }

  ghost predicate Overruled(writes: set<MarkWrite>, w: MarkWrite, f: Fetch) {
    exists v :: v in writes && Overrules(v, w, f)
  }

  /** What passing the guard establishes about the marks written before it. */
  ghost predicate Certified(s: State, f: Fetch) {
    && f.fetchedAt <= f.guardAt <= s.now && f.guardTick < s.tick
    && (forall w :: w in s.writes ==> w.tick != f.guardTick && (f.guardTick < w.tick ==> f.guardAt <= w.at))
    && (forall w :: w in s.writes && w.name in {f.rest, ALL_RESTAURANTS} && w.tick < f.guardTick && f.fetchedAt <= w.value
          ==> Overruled(s.writes, w, f) || w.at + MARK_TTL <= f.guardAt)
  }

  predicate Answered(s: State, f: Fetch) { f.fetchedAt <= f.readAt <= s.now }

  predicate HasTtl(s: State, f: Fetch) {
    Answered(s, f) && f.readAt <= f.ttlAt <= s.now && f.ttl == Ttl(f.validUntil, f.ttlAt) && 0 < f.ttl
  }

  ghost predicate FetchInv(s: State, f: Fetch) {
    && f.fetchedAt <= s.now
    && (f.phase == Holding ==> Answered(s, f))
    && (f.phase in {Timed, Passed} ==> HasTtl(s, f))
    && (f.phase == Passed ==> Certified(s, f))
  }

  ghost predicate CachedInv(s: State, rest: string, m: Cached) {
    && m.origin.rest == rest
    && HasTtl(s, m.origin) && Certified(s, m.origin)
    && m.since <= m.writeTick < s.tick && m.origin.guardTick <= m.writeTick
    && m.origin.ttlAt <= m.writtenAt <= s.now
    && m.expiresAt == m.writtenAt + Min(m.origin.ttl, MENU_CACHE_MAX_TTL)
  }

  ghost predicate InvalInv(s: State, i: Inval) {
    && i.value <= s.now && (i.last ==> i.rest == "")
    && (i.phase != Clocked ==> i.markTick < s.tick && MarkWrite(MarkName(i.rest), i.value, i.markAt, i.markTick) in s.writes)
    && (i.phase in {Clocked, Marked} ==> i.seen == {} && i.cleared == map[] && !i.last)
    && (i.phase in {Scanning, Listed} ==> i.rest == "")
    && (i.phase in {Scanning, Listed, Done} && i.rest == "" ==> i.markTick < i.scanTick < s.tick)
    && (forall rest :: rest in i.cleared ==>
          i.markTick < i.cleared[rest] < s.tick && (rest in s.menus ==> i.cleared[rest] < s.menus[rest].since))
    && i.seen <= i.cleared.Keys + (if i.phase == Listed then i.pending else {})
    && (i.last ==> forall rest :: rest in s.menus && IsCached(s, rest) ==> rest in i.seen || i.scanTick <= s.menus[rest].since)
    && (i.phase == Done ==> if i.rest == "" then i.last else i.rest in i.cleared)
  }

  ghost predicate Inv(s: State) {
    && MarksInv(s)
    && (forall p :: p in s.fetches ==> FetchInv(s, s.fetches[p]))
    && (forall rest :: rest in s.menus ==> CachedInv(s, rest, s.menus[rest]))
    && (forall p :: p in s.invals ==> InvalInv(s, s.invals[p]))
  }

  lemma PutMarkKeepsOrder(s: State, p: nat, i: Inval)
    requires MarksInv(s) && i.value <= s.now
    ensures MarksInv(PutMark(s, p, i).(tick := s.tick + 1))
  {
  }

  lemma MarksStep(s: State, a: Step)
    requires MarksInv(s) && Enabled(s, a) && (a.WriteMark? ==> s.invals[a.p].value <= s.now)
    ensures MarksInv(Apply(s, a))
  {
    var s' := Apply(s, a);
    if a.WriteMark? || a.MarkNow? {
      var i := if a.WriteMark? then s.invals[a.p] else NewInval(a.rest, s.now);
      PutMarkKeepsOrder(s, a.p, i);
    } else {
      assert s'.marks == s.marks && s'.writes == s.writes;
    }
  }

  /** The only write a step can add is stamped with the step and the instant. */
  lemma WritesStep(s: State, a: Step)
    requires Enabled(s, a)
    ensures var s' := Apply(s, a);
            s.writes <= s'.writes && s.now <= s'.now && s'.tick == s.tick + 1 &&
            forall w :: w in s'.writes && w !in s.writes ==> w.tick == s.tick && w.at == s.now
  {
  }

  /** A certificate survives every later step: marks only get written at later steps and instants. */
  lemma CertifiedStep(s: State, a: Step, f: Fetch)
    requires MarksInv(s) && Enabled(s, a) && Certified(s, f)
    ensures Certified(Apply(s, a), f)
  {
    var s' := Apply(s, a);
    WritesStep(s, a);
    forall w | w in s'.writes && w.name in {f.rest, ALL_RESTAURANTS} && w.tick < f.guardTick && f.fetchedAt <= w.value
      ensures Overruled(s'.writes, w, f) || w.at + MARK_TTL <= f.guardAt
    {
      assert w in s.writes;
      if Overruled(s.writes, w, f) {
        var v :| v in s.writes && Overrules(v, w, f);
        assert v in s'.writes;
      }
    }
  }

  /** The guard issues a certificate. */
  lemma GuardCertifies(s: State, f: Fetch)
    requires MarksInv(s) && FetchInv(s, f) && GuardPasses(s, f)
    ensures Certified(s.(tick := s.tick + 1), CheckGuard(s, f))
  {
  }

  lemma FetchKept(s: State, a: Step, f: Fetch)
    requires MarksInv(s) && Enabled(s, a) && FetchInv(s, f)
    ensures FetchInv(Apply(s, a), f)
  {
    WritesStep(s, a);
    if f.phase == Passed { CertifiedStep(s, a, f); }
  }

  lemma FetchMoved(s: State, a: Step, p: nat)
    requires MarksInv(s) && Enabled(s, a) && p in Apply(s, a).fetches
    requires p in s.fetches ==> FetchInv(s, s.fetches[p]) && s.fetches[p] != Apply(s, a).fetches[p]
    ensures FetchInv(Apply(s, a), Apply(s, a).fetches[p])
  {
    if a.Guard? && GuardPasses(s, s.fetches[p]) { GuardCertifies(s, s.fetches[p]); }
  }

  lemma FetchStep(s: State, a: Step, p: nat)
    requires Inv(s) && Enabled(s, a) && p in Apply(s, a).fetches
    ensures FetchInv(Apply(s, a), Apply(s, a).fetches[p])
  {
    if p in s.fetches && s.fetches[p] == Apply(s, a).fetches[p] {
      FetchKept(s, a, s.fetches[p]);
    } else {
      assert p in s.fetches ==> FetchInv(s, s.fetches[p]);
      FetchMoved(s, a, p);
    }
  }

  lemma PutMenuStores(s: State, p: nat, f: Fetch)
    requires HasTtl(s, f) && f.guardTick <= s.tick
    requires f.rest in s.menus ==> s.menus[f.rest].since < s.tick
    requires Certified(s.(tick := s.tick + 1), f)
    ensures var s' := PutMenu(s, p, f).(tick := s.tick + 1);
            CachedInv(s', f.rest, s'.menus[f.rest])
  {
  }

  lemma StoredStep(s: State, a: Step)
    requires MarksInv(s) && Enabled(s, a) && (a.Write? || a.GuardAndWrite?) && FetchInv(s, s.fetches[a.p])
    requires var rest := s.fetches[a.p].rest; rest in s.menus ==> s.menus[rest].since < s.tick
    ensures var rest := s.fetches[a.p].rest;
            var s' := Apply(s, a);
            s'.menus == s.menus ||
            (rest in s'.menus && s'.menus == s.menus[rest := s'.menus[rest]] && CachedInv(s', rest, s'.menus[rest]))
  {
    var f := s.fetches[a.p];
    if a.Write? {
      PassedAndStored(s, a.p, f);
    } else if GuardPasses(s, f) {
      CheckedAndStored(s, a.p, f);
    }
  }

  lemma PassedAndStored(s: State, p: nat, f: Fetch)
    requires MarksInv(s) && FetchInv(s, f) && f.phase == Passed
    requires f.rest in s.menus ==> s.menus[f.rest].since < s.tick
    ensures var s' := PutMenu(s, p, f).(tick := s.tick + 1);
            CachedInv(s', f.rest, s'.menus[f.rest])
  {
    CertifiedStep(s, Advance(0), f);
    PutMenuStores(s, p, f);
  }

  lemma CheckedAndStored(s: State, p: nat, f: Fetch)
    requires MarksInv(s) && FetchInv(s, f) && f.phase == Timed && GuardPasses(s, f)
    requires f.rest in s.menus ==> s.menus[f.rest].since < s.tick
    ensures var s' := PutMenu(s, p, CheckGuard(s, f)).(tick := s.tick + 1);
            CachedInv(s', f.rest, s'.menus[f.rest])
  {
    GuardCertifies(s, f);
    PutMenuStores(s, p, CheckGuard(s, f));
  }

  lemma CachedStep(s: State, a: Step, rest: string)
    requires MarksInv(s) && Enabled(s, a) && rest in Apply(s, a).menus
    requires rest in s.menus ==> CachedInv(s, rest, s.menus[rest])
    requires a.Write? || a.GuardAndWrite? ==> FetchInv(s, s.fetches[a.p])
    ensures CachedInv(Apply(s, a), rest, Apply(s, a).menus[rest])
  {
    var m := Apply(s, a).menus[rest];
    if rest in s.menus && s.menus[rest] == m {
      CertifiedStep(s, a, m.origin);
      WritesStep(s, a);
    } else {
      StoredStep(s, a);
    }
  }

  /** A key cached after a step was cached before it with the same `since`, or is written by it. */
  lemma SinceStep(s: State, a: Step, rest: string)
    requires Enabled(s, a) && rest in Apply(s, a).menus
    ensures var m := Apply(s, a).menus[rest];
            m.since == s.tick ||
            (rest in s.menus && m.since == s.menus[rest].since && (IsCached(Apply(s, a), rest) ==> IsCached(s, rest)))
  {
  }

  lemma InvalKept(s: State, a: Step, i: Inval)
    requires Inv(s) && Enabled(s, a) && InvalInv(s, i)
    ensures InvalInv(Apply(s, a), i)
  {
    var s' := Apply(s, a);
    WritesStep(s, a);
    forall rest | rest in s'.menus
      ensures rest in i.cleared ==> i.cleared[rest] < s'.menus[rest].since
      ensures i.last && IsCached(s', rest) ==> rest in i.seen || i.scanTick <= s'.menus[rest].since
    {
      SinceStep(s, a, rest);
    }
  }

  lemma DropMenusStep(s: State, p: nat, i: Inval, keys: set<string>)
    requires InvalInv(s, i)
    requires if i.rest == "" then i.phase == Listed && keys == i.pending else i.phase == Marked && keys == {i.rest}
    ensures var s' := DropMenus(s, p, i, keys).(tick := s.tick + 1);
            InvalInv(s', s'.invals[p])
  {
  }

  lemma ScanStep(s: State, a: Step)
    requires Enabled(s, a) && a.Scan? && InvalInv(s, s.invals[a.p])
    requires forall rest :: rest in s.menus ==> s.menus[rest].since < s.tick
    ensures InvalInv(Apply(s, a), Apply(s, a).invals[a.p])
  {
  }

  lemma MarkMoved(s: State, a: Step)
    requires Enabled(s, a) && (a.MarkNow? || (a.WriteMark? && InvalInv(s, s.invals[a.p])))
    ensures InvalInv(Apply(s, a), Apply(s, a).invals[a.p])
  {
  }

  lemma DropMoved(s: State, a: Step)
    requires Enabled(s, a) && (a.Delete? || a.DeleteKeys?) && InvalInv(s, s.invals[a.p])
    ensures InvalInv(Apply(s, a), Apply(s, a).invals[a.p])
  {
    var i := s.invals[a.p];
    var keys := if a.Delete? then {i.rest} else i.pending;
    DropMenusStep(s, a.p, i, keys);
    assert Apply(s, a) == DropMenus(s, a.p, i, keys).(tick := s.tick + 1);
  }

  predicate MovesInval(a: Step) {
    a.ReadClock? || a.WriteMark? || a.MarkNow? || a.Delete? || a.Scan? || a.DeleteKeys?
  }

  lemma OthersKept(s: State, a: Step, p: nat)
    requires Enabled(s, a) && p in Apply(s, a).invals && !(MovesInval(a) && a.p == p)
    ensures p in s.invals && Apply(s, a).invals[p] == s.invals[p]
  {
  }

  lemma InvalMoved(s: State, a: Step)
    requires Enabled(s, a) && MovesInval(a)
    requires a.p in s.invals ==> InvalInv(s, s.invals[a.p])
    requires forall rest :: rest in s.menus ==> s.menus[rest].since < s.tick
    ensures InvalInv(Apply(s, a), Apply(s, a).invals[a.p])
  {
    if a.Scan? {
      ScanStep(s, a);
    } else if a.Delete? || a.DeleteKeys? {
      DropMoved(s, a);
    } else if a.WriteMark? || a.MarkNow? {
      MarkMoved(s, a);
    }
  }

  lemma InvalStep(s: State, a: Step, p: nat)
    requires Inv(s) && Enabled(s, a) && p in Apply(s, a).invals
    ensures InvalInv(Apply(s, a), Apply(s, a).invals[p])
  {
    if MovesInval(a) && a.p == p {
      assert p in s.invals ==> InvalInv(s, s.invals[p]);
      forall rest | rest in s.menus ensures s.menus[rest].since < s.tick {
        assert CachedInv(s, rest, s.menus[rest]);
      }
      InvalMoved(s, a);
    } else {
      OthersKept(s, a, p);
      InvalKept(s, a, s.invals[p]);
    }
  }

  lemma InvStep(s: State, a: Step)
    requires Inv(s) && Enabled(s, a)
    ensures Inv(Apply(s, a))
  {
    if a.WriteMark? { assert InvalInv(s, s.invals[a.p]); }
    MarksStep(s, a);
    forall p | p in Apply(s, a).fetches { FetchStep(s, a, p); }
    forall rest | rest in Apply(s, a).menus { CachedStep(s, a, rest); }
    forall p | p in Apply(s, a).invals { InvalStep(s, a, p); }
  }

  lemma {:induction false} InvRun(s: State, run: seq<Step>)
    requires Inv(s) && Legal(s, run)
    ensures Inv(Exec(s, run))
    decreases |run|
  {
    if run != [] {
      InvStep(s, run[0]);
      InvRun(Apply(s, run[0]), run[1..]);
    }
  }
}
