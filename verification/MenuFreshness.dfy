/** Which stale menus can survive a finished invalidation: the comment at
    menu_cache_repo.go:100-101, made exact. */
module MenuFreshness {
  import opened MenuCache
  import opened Units

  predicate FinishedFor(s: State, p: nat, rest: string) {
    p in s.invals && s.invals[p].phase == Done && Covers(s.invals[p].rest, rest)
  }

  /** The cached menu was fetched no later than the invalidation's mark. */
  predicate Stale(i: Inval, m: Cached) {
    m.origin.fetchedAt <= i.value
  }

  /** When the invalidation was through with a key: its DEL, or the start of a
      scan that had no need to return it. */
  function ClearTick(i: Inval, rest: string): nat {
    if rest in i.cleared then i.cleared[rest] else i.scanTick
  }

  /** The fetch read the marks before this one was written, and wrote after the key was cleared. */
  predicate LostRace(i: Inval, m: Cached, rest: string) {
    m.origin.guardTick < i.markTick && ClearTick(i, rest) <= m.writeTick
  }

  /** Another invalidation overwrote the mark with an earlier clock value before the fetch read it. */
  ghost predicate MovedBack(s: State, i: Inval, m: Cached) {
    exists v :: v in s.writes && v.name == MarkName(i.rest) && i.markTick < v.tick < m.origin.guardTick &&
                v.value < m.origin.fetchedAt <= i.value
  }

  /** The fetch outlived the mark. */
  predicate Slow(m: Cached) {
    m.origin.fetchedAt + 2 * HOUR <= m.origin.guardAt
  }

  // ---------------------------------------------------------------------
  // Every run
  // ---------------------------------------------------------------------

  lemma InitInv()
    ensures Inv(INIT)
  {
  }

  /** Everything cached when an invalidation has finished was written after it cleared the key. */
  lemma WrittenAfterClear(s: State, p: nat, rest: string)
    requires Inv(s) && FinishedFor(s, p, rest) && IsCached(s, rest)
    ensures s.invals[p].markTick < ClearTick(s.invals[p], rest) <= s.menus[rest].since <= s.menus[rest].writeTick
  {
  }

  /** In every interleaving, with no assumption on clocks or durations, a stale
      menu outlives a finished invalidation in three ways only. */
  lemma StaleOnlyIf(run: seq<Step>, p: nat, rest: string)
    requires Legal(INIT, run)
    requires var s := Exec(INIT, run);
             FinishedFor(s, p, rest) && IsCached(s, rest) && Stale(s.invals[p], s.menus[rest])
    ensures var s := Exec(INIT, run);
            var i, m := s.invals[p], s.menus[rest];
            LostRace(i, m, rest) || MovedBack(s, i, m) || Slow(m)
  {
    InitInv();
    InvRun(INIT, run);
    StaleIn(Exec(INIT, run), p, rest);
  }

  lemma StaleIn(s: State, p: nat, rest: string)
    requires Inv(s) && FinishedFor(s, p, rest) && IsCached(s, rest) && Stale(s.invals[p], s.menus[rest])
    ensures var i, m := s.invals[p], s.menus[rest];
            LostRace(i, m, rest) || MovedBack(s, i, m) || Slow(m)
  {
    var i, m := s.invals[p], s.menus[rest];
    WrittenAfterClear(s, p, rest);
    assert InvalInv(s, i) && CachedInv(s, rest, m);
    var w := MarkWrite(MarkName(i.rest), i.value, i.markAt, i.markTick);
    assert w in s.writes;
    if w.tick < m.origin.guardTick && Overruled(s.writes, w, m.origin) {
      var v :| v in s.writes && Overrules(v, w, m.origin);
    }
  }

  /** The guard never refuses a menu for nothing: in every run, some invalidation of its
      restaurant, or of all, has marked a clock value no earlier than the fetch, less
      than two hours ago. */
  lemma RefusedOnlyIfMarked(run: seq<Step>, f: Fetch)
    requires Legal(INIT, run) && !GuardPasses(Exec(INIT, run), f)
    ensures var s := Exec(INIT, run);
            exists w :: w in s.writes && w.name in {f.rest, "all"} && f.fetchedAt <= w.value && s.now < w.at + 2 * HOUR
  {
    InitInv();
    InvRun(INIT, run);
    var s := Exec(INIT, run);
    var name :| name in {f.rest, ALL_RESTAURANTS} && name in s.marks && MarkLive(s.marks[name], s.now) && f.fetchedAt <= s.marks[name].value;
    assert s.marks[name] in s.writes;
  }

  /** Reading the clock and writing the mark is one step. */
  predicate OneStepMarks(run: seq<Step>) {
    forall a :: a in run ==> !a.ReadClock? && !a.WriteMark?
  }

  /** Reading the marks and storing the menu is one step. */
  predicate OneStepSets(run: seq<Step>) {
    forall a :: a in run ==> !a.Guard? && !a.Write?
  }

  ghost predicate MarksCarryTheirInstant(s: State) {
    && (forall w :: w in s.writes ==> w.value == w.at)
    && (forall p :: p in s.invals ==> s.invals[p].phase != Clocked)
  }

  predicate WrittenWithGuard(s: State) {
    && (forall p :: p in s.fetches ==> s.fetches[p].phase != Passed)
    && (forall rest :: rest in s.menus ==> s.menus[rest].origin.guardTick == s.menus[rest].writeTick)
  }

  lemma {:induction false} OneStepMarksRun(s: State, run: seq<Step>)
    requires Legal(s, run) && OneStepMarks(run) && MarksCarryTheirInstant(s)
    ensures MarksCarryTheirInstant(Exec(s, run))
    decreases |run|
  {
    if run != [] {
      assert run[0] in run;
      OneStepMarksRun(Apply(s, run[0]), run[1..]);
    }
  }

  lemma OneStepSetsStep(s: State, a: Step)
    requires Enabled(s, a) && !a.Guard? && !a.Write? && WrittenWithGuard(s)
    ensures WrittenWithGuard(Apply(s, a))
  {
  }

  lemma {:induction false} OneStepSetsRun(s: State, run: seq<Step>)
    requires Legal(s, run) && OneStepSets(run) && WrittenWithGuard(s)
    ensures WrittenWithGuard(Exec(s, run))
    decreases |run|
  {
    if run != [] {
      assert run[0] in run;
      OneStepSetsStep(s, run[0]);
      OneStepSetsRun(Apply(s, run[0]), run[1..]);
    }
  }

  /** With one-step marks and a fetch shorter than a mark's life, the exact
      exception: the menu is stale if and only if it won that race. */
  lemma StaleIffLostRace(run: seq<Step>, p: nat, rest: string)
    requires Legal(INIT, run) && OneStepMarks(run)
    requires var s := Exec(INIT, run);
             FinishedFor(s, p, rest) && IsCached(s, rest) && !Slow(s.menus[rest])
    ensures var s := Exec(INIT, run);
            var i, m := s.invals[p], s.menus[rest];
            Stale(i, m) <==> LostRace(i, m, rest)
  {
    InitInv();
    InvRun(INIT, run);
    OneStepMarksRun(INIT, run);
    var s := Exec(INIT, run);
    var i, m := s.invals[p], s.menus[rest];
    assert InvalInv(s, i) && CachedInv(s, rest, m);
    var w := MarkWrite(MarkName(i.rest), i.value, i.markAt, i.markTick);
    if Stale(i, m) {
      StaleOnlyIf(run, p, rest);
      assert w in s.writes && w.at == i.value;
    }
  }

  /** With MGET and SET as one step and a fetch shorter than a mark's life, the other
      exact exception: the menu is stale if and only if an older clock reading had
      replaced the mark. */
  lemma StaleIffMovedBack(run: seq<Step>, p: nat, rest: string)
    requires Legal(INIT, run) && OneStepSets(run)
    requires var s := Exec(INIT, run);
             FinishedFor(s, p, rest) && IsCached(s, rest) && !Slow(s.menus[rest])
    ensures var s := Exec(INIT, run);
            var i, m := s.invals[p], s.menus[rest];
            Stale(i, m) <==> MovedBack(s, i, m)
  {
    InitInv();
    InvRun(INIT, run);
    OneStepSetsRun(INIT, run);
    var s := Exec(INIT, run);
    WrittenAfterClear(s, p, rest);
    if Stale(s.invals[p], s.menus[rest]) { StaleOnlyIf(run, p, rest); }
  }

  /** The clean theorem. With both pairs as one step, nothing read from CRM at
      or before a finished invalidation's mark stays cached; a change announced
      by that invalidation happened before the mark. */
  lemma NothingStaleStays(run: seq<Step>, p: nat, rest: string)
    requires Legal(INIT, run) && OneStepMarks(run) && OneStepSets(run)
    requires var s := Exec(INIT, run);
             FinishedFor(s, p, rest) && IsCached(s, rest) && !Slow(s.menus[rest])
    ensures var s := Exec(INIT, run);
            s.invals[p].value < s.menus[rest].origin.fetchedAt <= s.menus[rest].origin.readAt
  {
    StaleIffLostRace(run, p, rest);
    InitInv();
    InvRun(INIT, run);
    OneStepSetsRun(INIT, run);
    var s := Exec(INIT, run);
    WrittenAfterClear(s, p, rest);
    assert CachedInv(s, rest, s.menus[rest]);
  }

  /** Whatever happens after an invalidation has finished, and however many other
      invalidations fail half-way, the next read is fresh: a hit was read from
      CRM after the mark, and a miss reads CRM now, which is no earlier. */
  lemma ServedAfterInvalidation(before: seq<Step>, after: seq<Step>, p: nat, rest: string)
    requires Legal(INIT, before) && Legal(INIT, before + after) && FinishedFor(Exec(INIT, before), p, rest)
    requires OneStepMarks(before + after) && OneStepSets(before + after)
    ensures var value, s := Exec(INIT, before).invals[p].value, Exec(INIT, before + after);
            && value <= s.now
            && (IsCached(s, rest) && !Slow(s.menus[rest]) ==> value < s.menus[rest].origin.readAt)
  {
    RunSplits(INIT, before, after);
    KeepsRun(Exec(INIT, before), after, p);
    InitInv();
    InvRun(INIT, before + after);
    var s := Exec(INIT, before + after);
    assert InvalInv(s, s.invals[p]);
    if IsCached(s, rest) && !Slow(s.menus[rest]) {
      NothingStaleStays(before + after, p, rest);
    }
  }

  /** What a global invalidation leaves behind, whatever raced with it: only
      menus written after its mark, and every mark that was there. */
  lemma GlobalInvalidationComplete(before: seq<Step>, after: seq<Step>, p: nat, rest: string)
    requires Legal(INIT, before + after) && Legal(INIT, before)
    requires p !in Exec(INIT, before).invals
    requires FinishedFor(Exec(INIT, before + after), p, rest) && IsCached(Exec(INIT, before + after), rest)
    ensures var s, s' := Exec(INIT, before), Exec(INIT, before + after);
            && s.marks.Keys <= s'.marks.Keys
            && s.tick <= s'.invals[p].markTick < s'.menus[rest].since
            && (IsCached(s, rest) ==> s'.menus[rest] != s.menus[rest])
  {
    RunSplits(INIT, before, after);
    var s := Exec(INIT, before);
    InitInv();
    InvRun(INIT, before);
    InvRun(INIT, before + after);
    WrittenAfterClear(Exec(INIT, before + after), p, rest);
    KeepsRun(s, after, p);
    assert rest in s.menus ==> CachedInv(s, rest, s.menus[rest]);
  }

  lemma {:induction false} RunSplits(s: State, before: seq<Step>, after: seq<Step>)
    ensures Legal(s, before + after) <==> Legal(s, before) && Legal(Exec(s, before), after)
    ensures Legal(s, before + after) ==> Exec(s, before + after) == Exec(Exec(s, before), after)
    decreases |before|
  {
    if before == [] {
      assert before + after == after;
    } else {
      assert (before + after)[0] == before[0] && (before + after)[1..] == before[1..] + after;
      if Enabled(s, before[0]) {
        RunSplits(Apply(s, before[0]), before[1..], after);
      }
    }
  }

  /** What any later state keeps of a call. */
  predicate Keeps(s: State, s': State, p: nat) {
    && s.now <= s'.now && s.tick <= s'.tick && s.marks.Keys <= s'.marks.Keys
    && (p in s.invals ==> p in s'.invals)
    && (p in s.invals && s.invals[p].phase != Clocked ==>
          s'.invals[p].phase != Clocked && s'.invals[p].markTick == s.invals[p].markTick)
    && (p in s.invals && s.invals[p].phase == Done ==> s'.invals[p] == s.invals[p])
    && (!(p in s.invals && s.invals[p].phase != Clocked) && p in s'.invals && s'.invals[p].phase != Clocked ==>
          s.tick <= s'.invals[p].markTick)
  }

  lemma KeepsStep(s: State, a: Step, p: nat)
    requires Enabled(s, a)
    ensures Keeps(s, Apply(s, a), p)
  {
  }

  lemma {:induction false} KeepsRun(s: State, run: seq<Step>, p: nat)
    requires Legal(s, run)
    ensures Keeps(s, Exec(s, run), p)
    decreases |run|
  {
    if run != [] {
      KeepsStep(s, run[0], p);
      KeepsRun(Apply(s, run[0]), run[1..], p);
    }
  }

  /** Staleness is bounded in every run, invalidations or not: a cached menu was
      read from CRM less than an hour plus its read-to-write delay ago, and is
      gone by valid_until plus the delay from computing the TTL to the SET. It goes
      neither earlier nor later than the first of the two. */
  lemma StalenessBounded(run: seq<Step>, rest: string)
    requires Legal(INIT, run) && IsCached(Exec(INIT, run), rest)
    ensures var s := Exec(INIT, run);
            var m := s.menus[rest];
            && s.now - m.origin.readAt < HOUR + (m.writtenAt - m.origin.readAt)
            && (m.origin.validUntil > 0 ==> s.now < m.origin.validUntil * SECOND + (m.writtenAt - m.origin.ttlAt))
            && m.origin.readAt <= m.origin.ttlAt <= m.writtenAt <= s.now
            && (m.expiresAt == m.writtenAt + HOUR ||
                (m.origin.validUntil > 0 && m.expiresAt == m.origin.validUntil * SECOND + (m.writtenAt - m.origin.ttlAt)))
  {
    InitInv();
    InvRun(INIT, run);
    assert CachedInv(Exec(INIT, run), rest, Exec(INIT, run).menus[rest]);
  }

  /** Invalidating one restaurant touches no other's mark or menu, and leaves its own
      mark with the call's clock value for two hours, and no menu of its own. */
  lemma InvalidatesOnlyItsOwn(s: State, a: Step)
    requires Enabled(s, a) && (a.MarkNow? || a.WriteMark? || a.Delete?)
    requires (if a.MarkNow? then a.rest else s.invals[a.p].rest) != ""
    ensures var rest := if a.MarkNow? then a.rest else s.invals[a.p].rest;
            var s' := Apply(s, a);
            && (forall r :: r != rest ==> (r in s'.marks <==> r in s.marks) && (r in s'.menus <==> r in s.menus))
            && (forall r :: r != rest && r in s.marks ==> s'.marks[r] == s.marks[r])
            && (forall r :: r != rest && r in s.menus ==> s'.menus[r] == s.menus[r])
            && (a.Delete? ==> rest !in s'.menus)
            && (!a.Delete? ==> rest in s'.marks && s'.marks[rest].value == s'.invals[a.p].value &&
                               forall now :: MarkLive(s'.marks[rest], now) <==> now < s.now + 2 * HOUR)
  {
  }

  // ---------------------------------------------------------------------
  // Each exception does happen
  // ---------------------------------------------------------------------

  /** `run` leads from the start to `s`. */
  ghost predicate LeadsTo(run: seq<Step>, s: State) {
    Legal(INIT, run) && Exec(INIT, run) == s
  }

  /** A run extended by one step. */
  lemma Extend(run: seq<Step>, s: State, a: Step)
    requires LeadsTo(run, s) && Enabled(s, a)
    ensures LeadsTo(run + [a], Apply(s, a))
  {
    RunSplits(INIT, run, [a]);
    assert Legal(Apply(s, a), []);
    assert [a][1..] == [];
  }

  /** Fetch 0 for `r` with its menu read at `readAt` and a full TTL. */
  function Ready(r: string, readAt: int): Fetch {
    Fetch(r, Timed, readAt, readAt, 0, MENU_CACHE_MAX_TTL, readAt, 0, 0)
  }

  /** The first three steps of that fetch, taken in any state. */
  lemma FetchUpToTtl(r: string, run: seq<Step>, s: State) returns (run': seq<Step>)
    requires LeadsTo(run, s) && s.fetches == map[] && 0 !in s.invals
    ensures LeadsTo(run', s.(tick := s.tick + 3, fetches := map[0 := Ready(r, s.now)]))
    ensures run' == run + [BeginFetch(0, r), ReadCrm(0, 0), ComputeTtl(0)]
  {
    var s1 := Apply(s, BeginFetch(0, r));
    Extend(run, s, BeginFetch(0, r));
    var s2 := Apply(s1, ReadCrm(0, 0));
    Extend(run + [BeginFetch(0, r)], s1, ReadCrm(0, 0));
    Extend(run + [BeginFetch(0, r)] + [ReadCrm(0, 0)], s2, ComputeTtl(0));
    assert Apply(s2, ComputeTtl(0)).fetches == map[0 := Ready(r, s.now)];
    run' := run + [BeginFetch(0, r)] + [ReadCrm(0, 0)] + [ComputeTtl(0)];
    assert run' == run + [BeginFetch(0, r), ReadCrm(0, 0), ComputeTtl(0)];
  }

  /** A whole invalidation of `r` by call `p`. */
  lemma InvalidateR(r: string, run: seq<Step>, s: State, p: nat) returns (run': seq<Step>, s': State)
    requires LeadsTo(run, s) && p !in s.invals && p !in s.fetches && r != ""
    ensures run' == run + [MarkNow(p, r), Delete(p)] && LeadsTo(run', s')
    ensures FinishedFor(s', p, r) && s'.invals[p].value == s.now && s'.invals == s.invals[p := s'.invals[p]]
    ensures s'.fetches == s.fetches && s'.now == s.now && s'.tick == s.tick + 2
    ensures var w := MarkWrite(r, s.now, s.now, s.tick);
            s'.marks == s.marks[r := w] && s'.menus == s.menus - {r}
  {
    var s1 := Apply(s, MarkNow(p, r));
    Extend(run, s, MarkNow(p, r));
    Extend(run + [MarkNow(p, r)], s1, Delete(p));
    run' := run + [MarkNow(p, r)] + [Delete(p)];
    s' := Apply(s1, Delete(p));
    assert run' == run + [MarkNow(p, r), Delete(p)];
  }

  /** Storing a menu that passed the guard at `guardAt`, as the last command (one of two) or as both at once. */
  lemma StoreR(r: string, run: seq<Step>, s: State, a: Step)
    requires LeadsTo(run, s) && 0 in s.fetches && s.fetches[0].rest == r && s.fetches[0].ttl == MENU_CACHE_MAX_TTL
    requires a in {Write(0), GuardAndWrite(0)} && Enabled(s, a)
    requires a.GuardAndWrite? ==> GuardPasses(s, s.fetches[0])
    ensures Legal(INIT, run + [a])
    ensures var s' := Exec(INIT, run + [a]);
            && IsCached(s', r) && s'.invals == s.invals && s'.menus[r].origin.fetchedAt == s.fetches[0].fetchedAt
            && s'.menus[r].origin.guardAt == (if a.Write? then s.fetches[0].guardAt else s.now)
  {
    Extend(run, s, a);
  }

  /** MGET before the mark, SET after the DEL. */
  lemma LostRaceHappens(r: string) returns (run: seq<Step>)
    requires r != ""
    ensures Legal(INIT, run) && OneStepMarks(run)
    ensures var s := Exec(INIT, run);
            FinishedFor(s, 1, r) && IsCached(s, r) && Stale(s.invals[1], s.menus[r]) && !Slow(s.menus[r])
  {
    var s;
    run, s := GuardPassed(r);
    run, s := InvalidateR(r, run, s, 1);
    StoreR(r, run, s, Write(0));
    run := run + [Write(0)];
  }

  lemma GuardPassed(r: string) returns (run: seq<Step>, s: State)
    ensures LeadsTo(run, s) && OneStepMarks(run) && s.now == 0 && s.invals == map[]
    ensures s.fetches == map[0 := Ready(r, 0).(phase := Passed, guardAt := 0, guardTick := 3)]
  {
    run := FetchUpToTtl(r, [], INIT);
    var s1 := INIT.(tick := 3, fetches := map[0 := Ready(r, 0)]);
    s := s1.(tick := 4, fetches := map[0 := Ready(r, 0).(phase := Passed, guardAt := 0, guardTick := 3)]);
    assert Apply(s1, Guard(0)) == s;
    Extend(run, s1, Guard(0));
    run := run + [Guard(0)];
  }

  /** Guard and write in one step, but an older clock reading lands on the mark. */
  lemma MovedBackHappens(r: string) returns (run: seq<Step>)
    requires r != ""
    ensures Legal(INIT, run) && OneStepSets(run)
    ensures var s := Exec(INIT, run);
            FinishedFor(s, 2, r) && IsCached(s, r) && Stale(s.invals[2], s.menus[r]) && !Slow(s.menus[r])
  {
    var s;
    run, s := MarkMovesBack(r);
    StoreR(r, run, s, GuardAndWrite(0));
    run := run + [GuardAndWrite(0)];
  }

  /** Call 1 reads the clock at 0; at 5 a fetch begins and call 2 runs to its end;
      then call 1 writes its mark. */
  lemma MarkMovesBack(r: string) returns (run: seq<Step>, s: State)
    requires r != ""
    ensures LeadsTo(run, s) && OneStepSets(run) && s.now == 5 && FinishedFor(s, 2, r) && s.invals[2].value == 5
    ensures s.fetches == map[0 := Ready(r, 5)] && s.marks.Keys == {r} && s.marks[r].value == 0
  {
    run := OneClockRead(r);
    var s2 := INIT.(tick := 2, now := 5, invals := map[1 := NewInval(r, 0)]);
    run := FetchUpToTtl(r, run, s2);
    var s4;
    run, s4 := InvalidateR(r, run, s2.(tick := 5, fetches := map[0 := Ready(r, 5)]), 2);
    s := LateMark(r, run, s4);
    run := run + [WriteMark(1)];
  }

  lemma OneClockRead(r: string) returns (run: seq<Step>)
    ensures OneStepSets(run) && LeadsTo(run, INIT.(tick := 2, now := 5, invals := map[1 := NewInval(r, 0)]))
  {
    var s1 := INIT.(tick := 1, invals := map[1 := NewInval(r, 0)]);
    Extend([], INIT, ReadClock(1, r));
    assert Apply(INIT, ReadClock(1, r)) == s1;
    Extend([] + [ReadClock(1, r)], s1, Advance(5));
    run := [] + [ReadClock(1, r)] + [Advance(5)];
  }

  /** Call 1, which read the clock at 0, writes its mark now. */
  lemma LateMark(r: string, run: seq<Step>, s: State) returns (s': State)
    requires LeadsTo(run, s) && r != "" && 1 in s.invals && s.invals[1] == NewInval(r, 0)
    ensures LeadsTo(run + [WriteMark(1)], s')
    ensures s'.marks == s.marks[r := MarkWrite(r, 0, s.now, s.tick)]
    ensures s'.fetches == s.fetches && s'.now == s.now
    ensures 1 in s'.invals && s'.invals == s.invals[1 := s'.invals[1]]
  {
    Extend(run, s, WriteMark(1));
    s' := Apply(s, WriteMark(1));
  }

  /** Everything in one step, but the fetch outlives the two-hour mark. */
  lemma SlowHappens(r: string) returns (run: seq<Step>)
    requires r != ""
    ensures Legal(INIT, run) && OneStepSets(run) && OneStepMarks(run)
    ensures var s := Exec(INIT, run);
            FinishedFor(s, 1, r) && IsCached(s, r) && Stale(s.invals[1], s.menus[r])
  {
    var s;
    run, s := MarkExpires(r);
    StoreR(r, run, s, GuardAndWrite(0));
    run := run + [GuardAndWrite(0)];
  }

  lemma MarkExpires(r: string) returns (run: seq<Step>, s: State)
    requires r != ""
    ensures LeadsTo(run, s) && OneStepSets(run) && OneStepMarks(run) && FinishedFor(s, 1, r) && s.invals[1].value == 0
    ensures s.now == MARK_TTL && s.fetches == map[0 := Ready(r, 0)] && s.marks == map[r := MarkWrite(r, 0, 0, 3)]
  {
    run := FetchUpToTtl(r, [], INIT);
    var s1 := INIT.(tick := 3, fetches := map[0 := Ready(r, 0)]);
    run, s := InvalidateR(r, run, s1, 1);
    Extend(run, s, Advance(MARK_TTL));
    run := run + [Advance(MARK_TTL)];
    s := Apply(s, Advance(MARK_TTL));
  }
}
