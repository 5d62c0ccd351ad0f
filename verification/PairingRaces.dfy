/** Which codes outlive a replacement they are not part of, and which codes of a
    batch are lost, when calls overlap in any way. */
module PairingRaces {
  import opened Options
  import opened PairingStore
  import opened Pairing

  predicate Mentions(e: Event, x: string) {
    (e.Stored? || e.Deleted?) && x in e.serials
  }

  /** The last step that stored or deleted the serial's code. */
  function LastFor(log: seq<Event>, x: string): Option<nat> {
    if log == [] then None
    else if Mentions(log[|log| - 1], x) then Some(|log| - 1)
    else LastFor(log[..|log| - 1], x)
  }

  lemma {:induction false} LastForIff(log: seq<Event>, x: string, w: nat)
    ensures LastFor(log, x) == Some(w) <==> w < |log| && Mentions(log[w], x) && forall j :: w < j < |log| ==> !Mentions(log[j], x)
  {
    if log != [] {
      var n := |log| - 1;
      if !Mentions(log[n], x) {
        LastForIff(log[..n], x, w);
        assert forall j :: 0 <= j < n ==> log[..n][j] == log[j];
      }
    }
  }

  // ---------------------------------------------------------------------
  // The log tells the store
  // ---------------------------------------------------------------------

  predicate CodeLogged(s: State, x: string) {
    match LastFor(s.log, x)
    case None => x !in s.store.codes
    case Some(w) =>
      w < |s.log| &&
      if s.log[w].Stored? then x in s.store.codes && s.store.codes[x].expiry == s.log[w].expiry else x !in s.store.codes
  }

  predicate DeletionLogged(s: State, p: nat)
    requires p in s.deletions
  {
    var d := s.deletions[p];
    d.phase == Done ==> d.delAt < |s.log| && s.log[d.delAt] == Deleted(p, {d.serial})
  }

  predicate ReplacementLogged(s: State, p: nat)
    requires p in s.replacements
  {
    var c := s.replacements[p];
    && (c.phase == Cleared ==> c.delAt < |s.log|)
    && (c.phase == Done ==>
          && c.delAt <= c.writeAt < |s.log| && s.log[c.writeAt].Stored? && s.log[c.writeAt].batch == Some(p)
          && s.log[c.writeAt].serials == Serials(c.entries) && (c.delAt == c.writeAt ==> c.members == {}))
    && (c.phase == Cleared || (c.phase == Done && c.delAt < c.writeAt) ==> s.log[c.delAt] == Deleted(p, c.members))
  }

  /** The call whose DEL a deletion in the log was. */
  predicate EventLogged(s: State, j: nat)
    requires j < |s.log|
  {
    s.log[j].Deleted? ==> DeletedAt(s, s.log[j].call, s.log[j].serials, j)
  }

  predicate DeletedAt(s: State, q: nat, serials: set<string>, j: nat) {
    || (q in s.deletions && s.deletions[q].phase == Done && s.deletions[q].delAt == j && serials == {s.deletions[q].serial})
    || (q in s.replacements && s.replacements[q].phase in {Cleared, Done} && s.replacements[q].delAt == j
        && serials == s.replacements[q].members)
  }

  ghost predicate Logged(s: State) {
    && (forall x :: CodeLogged(s, x))
    && (forall p :: p in s.deletions ==> DeletionLogged(s, p))
    && (forall p :: p in s.replacements ==> ReplacementLogged(s, p))
    && (forall j :: 0 <= j < |s.log| ==> EventLogged(s, j))
    && (forall p :: p in s.deletions ==> p !in s.replacements)
  }

  lemma CodeStep(s: State, a: Step, x: string)
    requires Enabled(s, a) && CodeLogged(s, x)
    ensures CodeLogged(Apply(s, a), x)
  {
    assert (s.log + [EventOf(s, a)])[..|s.log|] == s.log;
  }

  lemma DeletionStep(s: State, a: Step, p: nat)
    requires Enabled(s, a) && p in NextDeletions(s, a) && (p in s.deletions ==> DeletionLogged(s, p))
    ensures DeletionLogged(Apply(s, a), p)
  {
  }

  lemma ReplacementStep(s: State, a: Step, p: nat)
    requires Enabled(s, a) && p in NextReplacements(s, a) && (p in s.replacements ==> ReplacementLogged(s, p))
    ensures ReplacementLogged(Apply(s, a), p)
  {
  }

  lemma EventStep(s: State, a: Step, j: nat)
    requires Enabled(s, a) && j <= |s.log| && (j < |s.log| ==> EventLogged(s, j))
    ensures EventLogged(Apply(s, a), j)
  {
  }

  lemma LoggedStep(s: State, a: Step)
    requires Logged(s) && Enabled(s, a)
    ensures Logged(Apply(s, a))
  {
    var s' := Apply(s, a);
    forall x ensures CodeLogged(s', x) { CodeStep(s, a, x); }
    forall p | p in s'.deletions ensures DeletionLogged(s', p) { DeletionStep(s, a, p); }
    forall p | p in s'.replacements ensures ReplacementLogged(s', p) { ReplacementStep(s, a, p); }
    forall j | 0 <= j < |s'.log| ensures EventLogged(s', j) { EventStep(s, a, j); }
  }

  lemma {:induction false} LoggedRun(s: State, run: seq<Step>)
    requires Logged(s) && Legal(s, run)
    ensures Logged(Exec(s, run))
    decreases |run|
  {
    if run != [] {
      LoggedStep(s, run[0]);
      LoggedRun(Apply(s, run[0]), run[1..]);
    }
  }

  lemma StartLogged(now: int)
    ensures Logged(Start(now))
  {
  }

  // ---------------------------------------------------------------------
  // Survivors and losses
  // ---------------------------------------------------------------------

  /** The serial's live code is the one that step `w` stored. */
  predicate Current(s: State, x: string, w: nat) {
    Live(s.store.codes, x, s.now) && LastFor(s.log, x) == Some(w)
  }

  /** Step `w` stored a code for the serial that has not expired. */
  predicate StoredAt(s: State, x: string, w: nat) {
    w < |s.log| && s.log[w].Stored? && x in s.log[w].serials && Alive(s.log[w].expiry, s.now)
  }

  /** Since step `w` no step but `except` has deleted or replaced the serial's code. */
  predicate UntouchedBut(s: State, x: string, w: nat, except: nat) {
    forall j :: w < j < |s.log| && j != except ==> !Mentions(s.log[j], x)
  }

  lemma CurrentIff(s: State, x: string, w: nat)
    requires Logged(s)
    ensures Current(s, x, w) <==> StoredAt(s, x, w) && UntouchedBut(s, x, w, w)
  {
    assert CodeLogged(s, x);
    LastForIff(s.log, x, w);
  }

  /** How a code that a replacement ought to have removed got past its DEL. */
  predicate SlippedPast(s: State, c: Replacement, x: string, w: nat) {
    StoredAt(s, x, w) && (c.delAt < w || x !in c.members) && UntouchedBut(s, x, w, c.delAt)
  }

  /** In every run: a code outside the batch that step `w` stored before a
      replacement's pipeline is still the serial's live code after it if and only if
      that was after the replacement's DEL, or before it with the serial missing from
      SMEMBERS, it has not expired, and nothing else has deleted or replaced it since. */
  lemma SurvivesIff(now: int, run: seq<Step>, p: nat, x: string)
    requires Legal(Start(now), run) && IsReplacing(Exec(Start(now), run), p, Done)
    requires x !in Serials(Exec(Start(now), run).replacements[p].entries)
    ensures var s := Exec(Start(now), run);
            var c := s.replacements[p];
            forall w :: 0 <= w < c.writeAt ==> (Current(s, x, w) <==> SlippedPast(s, c, x, w))
  {
    StartLogged(now);
    LoggedRun(Start(now), run);
    SurvivesIn(Exec(Start(now), run), p, x);
  }

  lemma SurvivesIn(s: State, p: nat, x: string)
    requires Logged(s) && IsReplacing(s, p, Done) && x !in Serials(s.replacements[p].entries)
    ensures var c := s.replacements[p];
            forall w :: 0 <= w < c.writeAt ==> (Current(s, x, w) <==> SlippedPast(s, c, x, w))
  {
    var c := s.replacements[p];
    assert ReplacementLogged(s, p);
    forall w: nat | 0 <= w < c.writeAt ensures Current(s, x, w) <==> SlippedPast(s, c, x, w) {
      CurrentIff(s, x, w);
      if SlippedPast(s, c, x, w) && w < c.delAt < c.writeAt { assert !Mentions(s.log[c.delAt], x); }
      if Current(s, x, w) && w < c.delAt < c.writeAt { assert !Mentions(s.log[c.delAt], x); }
    }
  }

  /** A call's DEL of the serial's code ran after step `t`. */
  predicate DeletedSince(s: State, q: nat, x: string, t: nat) {
    || (HasDeleted(s, q) && s.deletions[q].serial == x && t < s.deletions[q].delAt)
    || (q in s.replacements && s.replacements[q].phase in {Cleared, Done} && x in s.replacements[q].members && t < s.replacements[q].delAt)
  }

  predicate StoredSince(s: State, x: string, t: nat) {
    exists j :: t < j < |s.log| && s.log[j].Stored? && x in s.log[j].serials
  }

  /** In every run: a code of a batch is lost if and only if it has expired, or has
      been stored again, or the DEL of a DeleteCode of that serial, or of another
      replacement that had listed it, ran after the pipeline. */
  lemma LostIff(now: int, run: seq<Step>, p: nat, x: string)
    requires Legal(Start(now), run) && IsReplacing(Exec(Start(now), run), p, Done)
    requires x in Serials(Exec(Start(now), run).replacements[p].entries)
    ensures var s := Exec(Start(now), run);
            var t := s.replacements[p].writeAt;
            t < |s.log| && s.log[t].Stored? &&
            (!Current(s, x, t) <==>
               !Alive(s.log[t].expiry, s.now) || StoredSince(s, x, t) || exists q :: DeletedSince(s, q, x, t))
  {
    StartLogged(now);
    LoggedRun(Start(now), run);
    LostIn(Exec(Start(now), run), p, x);
  }

  lemma LostIn(s: State, p: nat, x: string)
    requires Logged(s) && IsReplacing(s, p, Done) && x in Serials(s.replacements[p].entries)
    ensures var t := s.replacements[p].writeAt;
            t < |s.log| && s.log[t].Stored? &&
            (!Current(s, x, t) <==>
               !Alive(s.log[t].expiry, s.now) || StoredSince(s, x, t) || exists q :: DeletedSince(s, q, x, t))
  {
    var t := s.replacements[p].writeAt;
    assert ReplacementLogged(s, p);
    CurrentIff(s, x, t);
    if j :| t < j < |s.log| && Mentions(s.log[j], x) {
      assert EventLogged(s, j);
      if s.log[j].Deleted? { assert DeletedSince(s, s.log[j].call, x, t); }
    }
    if q :| DeletedSince(s, q, x, t) {
      DeletedMentions(s, q, x, t);
    }
  }

  lemma DeletedMentions(s: State, q: nat, x: string, t: nat)
    requires Logged(s) && DeletedSince(s, q, x, t)
    ensures exists j :: t < j < |s.log| && Mentions(s.log[j], x)
  {
    if HasDeleted(s, q) && s.deletions[q].serial == x && t < s.deletions[q].delAt {
      assert DeletionLogged(s, q);
      assert Mentions(s.log[s.deletions[q].delAt], x);
    } else {
      assert ReplacementLogged(s, q);
      assert Mentions(s.log[s.replacements[q].delAt], x);
    }
  }

  /** A live serial that SMEMBERS does not list is one that the index has lost. */
  lemma MissingFromMembers(s: State, owner: string -> string, x: string)
    requires Owned(s, owner) && Live(s.store.codes, x, s.now) && x !in Members(s.store, s.now, owner(x))
    ensures !Indexed(s.store, x)
  {
    assert Live(s.store.metas, x, s.now);
  }

  /** In every run, a replacement's pipeline leaves exactly its batch as the
      restaurant's live codes if and only if no other serial's code slipped past. */
  lemma ReplacesExactlyIff(now: int, run: seq<Step>, owner: string -> string, p: nat)
    requires Legal(Start(now), run) && AllProper(run, owner) && Enabled(Exec(Start(now), run), WriteBatch(p))
    ensures var s := Apply(Exec(Start(now), run), WriteBatch(p));
            var c := s.replacements[p];
            (forall x :: owner(x) == c.rest ==> (Live(s.store.codes, x, s.now) <==> x in Serials(c.entries)))
            <==> forall x, w :: owner(x) == c.rest && x !in Serials(c.entries) && 0 <= w < c.writeAt ==> !SlippedPast(s, c, x, w)
  {
    StartLogged(now);
    LoggedRun(Start(now), run);
    var s0 := Exec(Start(now), run);
    LoggedStep(s0, WriteBatch(p));
    var s := Apply(s0, WriteBatch(p));
    var c := s.replacements[p];
    forall x | owner(x) == c.rest
      ensures x in Serials(c.entries) ==> Live(s.store.codes, x, s.now)
      ensures x !in Serials(c.entries) ==>
        (Live(s.store.codes, x, s.now) <==> exists w :: 0 <= w < c.writeAt && SlippedPast(s, c, x, w))
    {
      if x !in Serials(c.entries) { LiveMeansSlipped(s, p, x); }
    }
  }

  lemma LiveMeansSlipped(s: State, p: nat, x: string)
    requires Logged(s) && IsReplacing(s, p, Done) && x !in Serials(s.replacements[p].entries)
    requires |s.log| == s.replacements[p].writeAt + 1
    ensures var c := s.replacements[p];
            Live(s.store.codes, x, s.now) <==> exists w :: 0 <= w < c.writeAt && SlippedPast(s, c, x, w)
  {
    var c := s.replacements[p];
    SurvivesIn(s, p, x);
    assert ReplacementLogged(s, p) && CodeLogged(s, x);
    if Live(s.store.codes, x, s.now) {
      var w := LastFor(s.log, x).value;
      LastForIff(s.log, x, w);
      assert Current(s, x, w) && w != c.writeAt;
    }
  }

  // ---------------------------------------------------------------------
  // Both happen
  // ---------------------------------------------------------------------

  /** A code that was listed and deleted, and set again before the pipeline, is live
      and out of the index afterwards. */
  lemma SurvivalHappens(e: Entry, b: Entry, ttl: int) returns (run: seq<Step>)
    requires e.serial != b.serial && e.meta.rest == b.meta.rest && 0 < ttl
    ensures Legal(Start(0), run)
    ensures var s := Exec(Start(0), run);
            && IsReplacing(s, 0, Done) && s.replacements[0].entries == [b] && e.serial in s.replacements[0].members
            && Live(s.store.codes, e.serial, s.now) && !Indexed(s.store, e.serial) && !Condemned(s, e.serial)
  {
    var r := e.meta.rest;
    var s1 := Apply(Start(0), SetCode(e, ttl));
    AloneInSet(e, ttl);
    var s2 := Apply(s1, ListMembers(0, r, [b], ttl));
    var s3 := Apply(s2, DeleteOld(0));
    var s4 := Apply(s3, SetCode(e, ttl));
    OutsideBatch(s4.store, e, b, ttl);
    run := Five(Start(0), SetCode(e, ttl), ListMembers(0, r, [b], ttl), DeleteOld(0), SetCode(e, ttl), WriteBatch(0));
  }

  lemma AloneInSet(e: Entry, expiry: int)
    requires 0 < expiry
    ensures Put(EMPTY, 0, e, expiry) == Store(map[e.serial := Cell(e.hash, At(expiry))], map[e.serial := Cell(e.meta, At(expiry))],
                                              map[e.meta.rest := Cell({e.serial}, At(expiry))])
    ensures Members(Put(EMPTY, 0, e, expiry), 0, e.meta.rest) == {e.serial}
  {
    assert Members(EMPTY, 0, e.meta.rest) == {} && {} + {e.serial} == {e.serial};
  }

  /** A code outside the batch stays as it is, and is not in the new set. */
  lemma OutsideBatch(s: Store, e: Entry, b: Entry, expiry: int)
    requires e.serial != b.serial && e.meta.rest == b.meta.rest
    requires e.serial in s.codes && e.serial in s.metas && s.metas[e.serial].value == e.meta
    ensures var s' := Batch(s, e.meta.rest, [b], At(expiry));
            e.serial in s'.codes && s'.codes[e.serial] == s.codes[e.serial] && !Indexed(s', e.serial)
  {
    assert Serials([b]) == {b.serial};
    assert Batch(s, e.meta.rest, [b], At(expiry)).metas[e.serial] == s.metas[e.serial];
  }

  lemma Four(s: State, a: Step, b: Step, c: Step, d: Step) returns (run: seq<Step>)
    requires Enabled(s, a) && Enabled(Apply(s, a), b) && Enabled(Apply(Apply(s, a), b), c)
    requires Enabled(Apply(Apply(Apply(s, a), b), c), d)
    ensures Legal(s, run) && Exec(s, run) == Apply(Apply(Apply(Apply(s, a), b), c), d)
  {
    var s1 := Apply(s, a);
    var s2 := Apply(s1, b);
    var s3 := Apply(s2, c);
    Then(s3, d, []);
    Then(s2, c, [d] + []);
    Then(s1, b, [c] + ([d] + []));
    run := [a] + ([b] + ([c] + ([d] + [])));
    Then(s, a, [b] + ([c] + ([d] + [])));
  }

  lemma Five(s: State, a: Step, b: Step, c: Step, d: Step, e: Step) returns (run: seq<Step>)
    requires Enabled(s, a) && Enabled(Apply(s, a), b) && Enabled(Apply(Apply(s, a), b), c)
    requires Enabled(Apply(Apply(Apply(s, a), b), c), d) && Enabled(Apply(Apply(Apply(Apply(s, a), b), c), d), e)
    ensures Legal(s, run) && Exec(s, run) == Apply(Apply(Apply(Apply(Apply(s, a), b), c), d), e)
  {
    var rest := Four(Apply(s, a), b, c, d, e);
    run := [a] + rest;
    Then(s, a, rest);
  }

  /** The DEL of a DeleteCode that began before the batch deletes the batch's code. */
  lemma LossHappens(e: Entry, ttl: int) returns (run: seq<Step>)
    requires 0 < ttl
    ensures Legal(Start(0), run)
    ensures var s := Exec(Start(0), run);
            IsReplacing(s, 1, Done) && s.replacements[1].entries == [e] && e.serial !in s.store.codes
  {
    var r := e.meta.rest;
    var s1 := Apply(Start(0), GetMeta(0, e.serial));
    var s2 := Apply(s1, ListMembers(1, r, [e], ttl));
    var s3 := Apply(s2, DeleteOld(1));
    var s4 := Apply(s3, WriteBatch(1));
    run := Five(Start(0), GetMeta(0, e.serial), ListMembers(1, r, [e], ttl), DeleteOld(1), WriteBatch(1), Delete(0));
  }

  ghost predicate FitsTo(s: State, run: seq<Step>, s': State, owner: string -> string) {
    Legal(s, run) && Exec(s, run) == s' && AllProper(run, owner) && AllFit(s, run, owner)
  }

  lemma ThenFits(s: State, a: Step, rest: seq<Step>, s': State, owner: string -> string)
    requires Enabled(s, a) && Proper(a, owner) && Fits(s, a, owner) && FitsTo(Apply(s, a), rest, s', owner)
    ensures FitsTo(s, [a] + rest, s', owner)
  {
    assert ([a] + rest)[1..] == rest;
  }

  /** A DeleteCode whose SREM succeeded and whose DEL failed: a replacement in between
      does not list its code, which survives the batch it is not in, live and out of
      the index. Every step fits but the last, at which the DeleteCode gives up. */
  lemma FailedDeleteStrands(e: Entry, b: Entry, ttl: int, owner: string -> string) returns (run: seq<Step>)
    requires e.serial != b.serial && 0 < ttl
    requires e.meta.rest == b.meta.rest == owner(e.serial) == owner(b.serial)
    ensures Legal(Start(0), run + [GiveUpDelete(0)]) && AllProper(run, owner)
    ensures Legal(Start(0), run) && AllFit(Start(0), run, owner)
    ensures var s := Exec(Start(0), run + [GiveUpDelete(0)]);
            && IsReplacing(s, 1, Done) && s.replacements[1].entries == [b] && e.serial !in s.replacements[1].members
            && Live(s.store.codes, e.serial, s.now) && !Indexed(s.store, e.serial) && !Condemned(s, e.serial)
  {
    var s: State;
    run, s := PassedByRun(e, b, ttl, owner);
    Then(s, GiveUpDelete(0), []);
    assert [GiveUpDelete(0)] + [] == [GiveUpDelete(0)];
    RunSplits(Start(0), run, [GiveUpDelete(0)]);
    assert Exec(Start(0), run + [GiveUpDelete(0)]) == Apply(s, GiveUpDelete(0));
  }

  lemma PassedByRun(e: Entry, b: Entry, ttl: int, owner: string -> string) returns (run: seq<Step>, s: State)
    requires e.serial != b.serial && 0 < ttl
    requires e.meta.rest == b.meta.rest == owner(e.serial) == owner(b.serial)
    ensures FitsTo(Start(0), run, s, owner) && PassedBy(s, e, b)
  {
    var s1 := Apply(Start(0), SetCode(e, ttl));
    AloneInSet(e, ttl);
    var s2 := Apply(s1, GetMeta(0, e.serial));
    assert s2.deletions == map[0 := Deletion(e.serial, Some(e.meta.rest), Read, 0, false)];
    var s3 := Apply(s2, Unlist(0));
    var after: seq<Step>;
    after, s := StrandedByBatch(s3, e, b, ttl, owner);
    ThenFits(s2, Unlist(0), after, s, owner);
    ThenFits(s1, GetMeta(0, e.serial), [Unlist(0)] + after, s, owner);
    run := [SetCode(e, ttl)] + ([GetMeta(0, e.serial)] + ([Unlist(0)] + after));
    ThenFits(Start(0), SetCode(e, ttl), [GetMeta(0, e.serial)] + ([Unlist(0)] + after), s, owner);
  }

  /** The only code of a restaurant has been taken out of its set. */
  ghost predicate OnlyUnlisted(s: State, e: Entry) {
    && s.now == 0 && Unknown(s, 1) && Members(s.store, 0, e.meta.rest) == {}
    && Live(s.store.codes, e.serial, 0) && (forall x :: x in s.store.codes ==> x == e.serial)
    && e.serial in s.store.metas && s.store.metas[e.serial].value == e.meta
    && s.deletions == map[0 := Deletion(e.serial, Some(e.meta.rest), Unlisted, 0, false)]
  }

  /** A replacement by `b` has passed the code by; its DeleteCode can only give up. */
  ghost predicate PassedBy(s: State, e: Entry, b: Entry) {
    && s.deletions == map[0 := Deletion(e.serial, Some(e.meta.rest), Unlisted, 0, false)]
    && s.now == 0 && Live(s.store.codes, e.serial, 0) && !Indexed(s.store, e.serial)
    && IsReplacing(s, 1, Done) && s.replacements[1].entries == [b] && s.replacements[1].members == {}
  }

  lemma StrandedByBatch(s: State, e: Entry, b: Entry, ttl: int, owner: string -> string) returns (run: seq<Step>, s': State)
    requires OnlyUnlisted(s, e) && e.serial != b.serial && 0 < ttl
    requires e.meta.rest == b.meta.rest == owner(e.serial) == owner(b.serial)
    ensures FitsTo(s, run, s', owner) && PassedBy(s', e, b)
  {
    var a := ListMembers(1, e.meta.rest, [b], ttl);
    var s1 := Apply(s, a);
    s' := WrittenPast(s1, e, b, ttl, owner);
    assert FitsTo(s', [], s', owner);
    ThenFits(s1, WriteBatch(1), [], s', owner);
    ThenFits(s, a, [WriteBatch(1)] + [], s', owner);
    run := [a] + ([WriteBatch(1)] + []);
  }

  lemma WrittenPast(s: State, e: Entry, b: Entry, ttl: int, owner: string -> string) returns (s': State)
    requires s.now == 0 && Live(s.store.codes, e.serial, 0) && (forall x :: x in s.store.codes ==> x == e.serial)
    requires e.serial in s.store.metas && s.store.metas[e.serial].value == e.meta && e.serial != b.serial && 0 < ttl
    requires s.deletions == map[0 := Deletion(e.serial, Some(e.meta.rest), Unlisted, 0, false)]
    requires 1 in s.replacements && s.replacements[1] == Replacement(e.meta.rest, [b], ttl, Read, {}, 0, 0, false)
    requires b.meta.rest == e.meta.rest
    ensures Enabled(s, WriteBatch(1)) && Fits(s, WriteBatch(1), owner) && s' == Apply(s, WriteBatch(1)) && PassedBy(s', e, b)
  {
    s' := Apply(s, WriteBatch(1));
    OutsideBatch(s.store, e, b, ttl);
    assert IsDeleting(s, 0, Unlisted) && s.deletions[0].serial == e.serial;
    assert s'.store == Batch(s.store, e.meta.rest, [b], At(ttl));
  }
}
