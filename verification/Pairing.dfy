/** The pairing index under any number of overlapping SetCode, DeleteCode,
    ReplaceRestaurantCodes and Pair calls: one Redis command or pipeline per step.
    Any call may give up between two of its commands. */
module Pairing {
  import opened Options
  import opened PairingStore

  datatype Phase = Read | Unlisted | Cleared | Done

  // A DeleteCode call: Read after its GET, Unlisted after its SREM. `delAt` is the
  // step of its DEL.
  datatype Deletion = Deletion(serial: string, from: Option<string>, phase: Phase, delAt: nat, gaveUp: bool)

  // A ReplaceRestaurantCodes call: Read after its SMEMBERS, Cleared after its DEL.
  // `writeAt` is the step of its pipeline.
  datatype Replacement = Replacement(
    rest: string, entries: seq<Entry>, ttl: int, phase: Phase, members: set<string>, delAt: nat, writeAt: nat, gaveUp: bool)

  // A Pair call that found the code it was given; its DeleteCode has the same number.
  datatype PairCall = PairCall(serial: string, ended: bool)

  // What a step did to serials' codes: stored them (a SetCode, or the batch of a
  // replacement), deleted them for a call, or neither. A lookup overlaps if another
  // Pair holds the serial's code then. A Pair that ends has spent a code if its DEL
  // took effect, with or without a token to show for it.
  datatype Event =
    | Stored(batch: Option<nat>, serials: set<string>, expiry: Expiry)
    | Deleted(call: nat, serials: set<string>)
    | LookedUp(serial: string, overlaps: bool)
    | Ended(serial: string, spent: bool, issued: bool)
    | Other

  // `log` holds one event per step, so its length is the step number.
  datatype State = State(
    now: int, store: Store, deletions: map<nat, Deletion>, replacements: map<nat, Replacement>,
    pairs: map<nat, PairCall>, log: seq<Event>)

  datatype Step =
    | Advance(d: nat)
    | SetCode(e: Entry, ttl: int)
    | GetMeta(p: nat, serial: string)
    | Unlist(p: nat)
    | Delete(p: nat)
    | ListMembers(p: nat, rest: string, entries: seq<Entry>, ttl: int)
    | DeleteOld(p: nat)
    | WriteBatch(p: nat)
    | GiveUpDelete(p: nat)
    | GiveUpReplace(p: nat)
    | LookUp(p: nat, serial: string) // finds the code, and it matches
    | End(p: nat, issued: bool)

  function Start(now: int): State { State(now, EMPTY, map[], map[], map[], []) }

  predicate IsDeleting(s: State, p: nat, phase: Phase) {
    p in s.deletions && s.deletions[p].phase == phase && !s.deletions[p].gaveUp
  }

  predicate IsReplacing(s: State, p: nat, phase: Phase) {
    p in s.replacements && s.replacements[p].phase == phase && !s.replacements[p].gaveUp
  }

  /** The call's DEL took effect. */
  predicate HasDeleted(s: State, p: nat) {
    p in s.deletions && s.deletions[p].phase == Done
  }

  predicate Unknown(s: State, p: nat) {
    p !in s.deletions && p !in s.replacements && p !in s.pairs
  }

  /** The Pair calls that have found the serial's code and not deleted it. */
  function Holding(s: State, x: string): set<nat> {
    set p | p in s.pairs && s.pairs[p].serial == x && !s.pairs[p].ended && !HasDeleted(s, p)
  }

  predicate Enabled(s: State, a: Step) {
    match a
    case Advance(_) => true
    case SetCode(_, ttl) => 0 < ttl
    case GetMeta(p, serial) =>
      Unknown(s, p) || (p in s.pairs && !s.pairs[p].ended && s.pairs[p].serial == serial && p !in s.deletions && p !in s.replacements)
    case Unlist(p) => IsDeleting(s, p, Read) && s.deletions[p].from.Some?
    case Delete(p) => IsDeleting(s, p, Read) || IsDeleting(s, p, Unlisted)
    case ListMembers(p, _, _, _) => Unknown(s, p)
    case DeleteOld(p) => IsReplacing(s, p, Read)
    case WriteBatch(p) => IsReplacing(s, p, Cleared) || (IsReplacing(s, p, Read) && s.replacements[p].members == {})
    case GiveUpDelete(p) => IsDeleting(s, p, Read) || IsDeleting(s, p, Unlisted)
    case GiveUpReplace(p) => IsReplacing(s, p, Read) || IsReplacing(s, p, Cleared)
    case LookUp(p, serial) => Unknown(s, p) && Live(s.store.codes, serial, s.now)
    case End(p, issued) =>
      p in s.pairs && !s.pairs[p].ended && (issued ==> HasDeleted(s, p)) &&
      (p in s.deletions ==> s.deletions[p].phase == Done || s.deletions[p].gaveUp)
  }

  function NextStore(s: State, a: Step): Store
    requires Enabled(s, a)
  {
    match a
    case SetCode(e, ttl) => Put(s.store, s.now, e, s.now + ttl)
    case Unlist(p) => PairingStore.Unlisted(s.store, s.now, s.deletions[p].from.value, s.deletions[p].serial)
    case Delete(p) => Dropped(s.store, {s.deletions[p].serial})
    case DeleteOld(p) => Dropped(s.store, s.replacements[p].members)
    case WriteBatch(p) => Batch(s.store, s.replacements[p].rest, s.replacements[p].entries, ExpiryOf(s.now, s.replacements[p].ttl))
    case _ => s.store
  }

  function NextDeletions(s: State, a: Step): map<nat, Deletion>
    requires Enabled(s, a)
  {
    match a
    case GetMeta(p, serial) =>
      var from := if Live(s.store.metas, serial, s.now) then Some(s.store.metas[serial].value.rest) else None;
      s.deletions[p := Deletion(serial, from, Read, 0, false)]
    case Unlist(p) => s.deletions[p := s.deletions[p].(phase := Unlisted)]
    case Delete(p) => s.deletions[p := s.deletions[p].(phase := Done, delAt := |s.log|)]
    case GiveUpDelete(p) => s.deletions[p := s.deletions[p].(gaveUp := true)]
    case _ => s.deletions
  }

  function NextReplacements(s: State, a: Step): map<nat, Replacement>
    requires Enabled(s, a)
  {
    match a
    case ListMembers(p, rest, entries, ttl) =>
      s.replacements[p := Replacement(rest, entries, ttl, Read, Members(s.store, s.now, rest), 0, 0, false)]
    case DeleteOld(p) => s.replacements[p := s.replacements[p].(phase := Cleared, delAt := |s.log|)]
    case WriteBatch(p) =>
      var c := s.replacements[p];
      s.replacements[p := c.(phase := Done, writeAt := |s.log|, delAt := if c.phase == Read then |s.log| else c.delAt)]
    case GiveUpReplace(p) => s.replacements[p := s.replacements[p].(gaveUp := true)]
    case _ => s.replacements
  }

  function NextPairs(s: State, a: Step): map<nat, PairCall>
    requires Enabled(s, a)
  {
    match a
    case LookUp(p, serial) => s.pairs[p := PairCall(serial, false)]
    case End(p, _) => s.pairs[p := s.pairs[p].(ended := true)]
    case _ => s.pairs
  }

  function EventOf(s: State, a: Step): Event
    requires Enabled(s, a)
  {
    match a
    case SetCode(e, ttl) => Stored(None, {e.serial}, At(s.now + ttl))
    case Delete(p) => Deleted(p, {s.deletions[p].serial})
    case DeleteOld(p) => Deleted(p, s.replacements[p].members)
    case WriteBatch(p) => Stored(Some(p), Serials(s.replacements[p].entries), ExpiryOf(s.now, s.replacements[p].ttl))
    case LookUp(_, serial) => LookedUp(serial, Holding(s, serial) != {})
    case End(p, issued) => Ended(s.pairs[p].serial, HasDeleted(s, p), issued)
    case _ => Other
  }

  function Apply(s: State, a: Step): State
    requires Enabled(s, a)
  {
    State(if a.Advance? then s.now + a.d else s.now, NextStore(s, a),
          NextDeletions(s, a), NextReplacements(s, a), NextPairs(s, a), s.log + [EventOf(s, a)])
  }

  predicate Legal(s: State, run: seq<Step>)
    decreases |run|
  {
    run == [] || (Enabled(s, run[0]) && Legal(Apply(s, run[0]), run[1..]))
  }

  function Exec(s: State, run: seq<Step>): State
    requires Legal(s, run)
    decreases |run|
  {
    if run == [] then s else Exec(Apply(s, run[0]), run[1..])
  }

  lemma {:induction false} RunSplits(s: State, before: seq<Step>, after: seq<Step>)
    ensures Legal(s, before + after) <==> Legal(s, before) && Legal(Exec(s, before), after)
    ensures Legal(s, before + after) ==> Exec(s, before + after) == Exec(Exec(s, before), after)
    decreases |before|
  {
    if before == [] {
      assert before + after == after;
    } else {
      assert (before + after)[0] == before[0] && (before + after)[1..] == before[1..] + after;
      if Enabled(s, before[0]) {
        RunSplits(Apply(s, before[0]), before[1..], after);
      }
    }
  }

  lemma Then(s: State, a: Step, rest: seq<Step>)
    requires Enabled(s, a) && Legal(Apply(s, a), rest)
    ensures Legal(s, [a] + rest) && Exec(s, [a] + rest) == Exec(Apply(s, a), rest)
  {
    assert ([a] + rest)[1..] == rest;
  }

  ghost predicate LeadsTo(now: int, run: seq<Step>, s: State) {
    Legal(Start(now), run) && Exec(Start(now), run) == s
  }

  lemma Extend(now: int, run: seq<Step>, s: State, a: Step)
    requires LeadsTo(now, run, s) && Enabled(s, a)
    ensures LeadsTo(now, run + [a], Apply(s, a))
  {
    RunSplits(Start(now), run, [a]);
    assert Legal(Apply(s, a), []);
    assert [a][1..] == [];
  }

  // ---------------------------------------------------------------------
  // Ownership
  // ---------------------------------------------------------------------

  predicate OwnedEntries(entries: seq<Entry>, rest: string, owner: string -> string) {
    forall e :: e in entries ==> e.meta.rest == rest && owner(e.serial) == rest
  }

  /** Each serial belongs to one restaurant. */
  predicate Proper(a: Step, owner: string -> string) {
    match a
    case SetCode(e, _) => e.meta.rest == owner(e.serial)
    case ListMembers(_, rest, entries, _) => OwnedEntries(entries, rest, owner)
    case _ => true
  }

  predicate AllProper(run: seq<Step>, owner: string -> string)
    decreases |run|
  {
    run == [] || (Proper(run[0], owner) && AllProper(run[1..], owner))
  }

  lemma {:induction false} ProperSplits(before: seq<Step>, after: seq<Step>, owner: string -> string)
    requires AllProper(before, owner) && AllProper(after, owner)
    ensures AllProper(before + after, owner)
    decreases |before|
  {
    if before == [] {
      assert before + after == after;
    } else {
      assert (before + after)[0] == before[0] && (before + after)[1..] == before[1..] + after;
      ProperSplits(before[1..], after, owner);
    }
  }

  ghost predicate OwnedStore(s: Store, now: int, owner: string -> string) {
    && (forall x :: Live(s.metas, x, now) ==> s.metas[x].value.rest == owner(x))
    && (forall r, x :: Live(s.sets, r, now) && x in s.sets[r].value ==> owner(x) == r)
  }

  predicate OwnedDeletion(d: Deletion, owner: string -> string) {
    d.from.Some? ==> d.from.value == owner(d.serial)
  }

  predicate OwnedReplacement(c: Replacement, owner: string -> string) {
    OwnedEntries(c.entries, c.rest, owner) && forall x :: x in c.members ==> owner(x) == c.rest
  }

  /** A code never comes without metadata of the same expiry. */
  ghost predicate Paired(s: Store) {
    && (forall x :: x in s.codes ==> x in s.metas)
    && (forall x :: x in s.codes ==> s.metas[x].expiry == s.codes[x].expiry)
  }

  ghost predicate Owned(s: State, owner: string -> string) {
    && Paired(s.store) && OwnedStore(s.store, s.now, owner)
    && (forall p :: p in s.deletions ==> OwnedDeletion(s.deletions[p], owner))
    && (forall p :: p in s.replacements ==> OwnedReplacement(s.replacements[p], owner))
  }

  lemma PairedStep(s: State, a: Step)
    requires Paired(s.store) && Enabled(s, a)
    ensures Paired(NextStore(s, a))
  {
  }

  lemma OwnedStoreStep(s: State, a: Step, owner: string -> string)
    requires Owned(s, owner) && Enabled(s, a) && Proper(a, owner)
    ensures OwnedStore(NextStore(s, a), Apply(s, a).now, owner)
  {
    var s', now := NextStore(s, a), Apply(s, a).now;
    forall x | Live(s'.metas, x, now) ensures s'.metas[x].value.rest == owner(x) {
      MetaOwned(s, a, owner, x);
    }
    forall r, x | Live(s'.sets, r, now) && x in s'.sets[r].value ensures owner(x) == r {
      MemberOwned(s, a, owner, r, x);
    }
  }

  lemma MetaOwned(s: State, a: Step, owner: string -> string, x: string)
    requires Owned(s, owner) && Enabled(s, a) && Proper(a, owner) && Live(NextStore(s, a).metas, x, Apply(s, a).now)
    ensures NextStore(s, a).metas[x].value.rest == owner(x)
  {
    if a.SetCode? && a.e.serial == x {
    } else if a.WriteBatch? && x in Serials(s.replacements[a.p].entries) {
      assert OwnedReplacement(s.replacements[a.p], owner);
    } else {
      assert Live(s.store.metas, x, s.now);
    }
  }

  lemma MemberOwned(s: State, a: Step, owner: string -> string, r: string, x: string)
    requires Owned(s, owner) && Enabled(s, a) && Proper(a, owner)
    requires Live(NextStore(s, a).sets, r, Apply(s, a).now) && x in NextStore(s, a).sets[r].value
    ensures owner(x) == r
  {
    if a.SetCode? && a.e.meta.rest == r && a.e.serial == x {
    } else if a.WriteBatch? && s.replacements[a.p].rest == r {
      assert OwnedReplacement(s.replacements[a.p], owner);
    } else {
      assert Live(s.store.sets, r, s.now) && x in s.store.sets[r].value;
    }
  }

  lemma OwnedStep(s: State, a: Step, owner: string -> string)
    requires Owned(s, owner) && Enabled(s, a) && Proper(a, owner)
    ensures Owned(Apply(s, a), owner)
  {
    PairedStep(s, a);
    OwnedStoreStep(s, a, owner);
    forall p | p in NextDeletions(s, a) ensures OwnedDeletion(NextDeletions(s, a)[p], owner) {
      assert p in s.deletions ==> OwnedDeletion(s.deletions[p], owner);
    }
    forall p | p in NextReplacements(s, a) ensures OwnedReplacement(NextReplacements(s, a)[p], owner) {
      assert p in s.replacements ==> OwnedReplacement(s.replacements[p], owner);
    }
  }

  // ---------------------------------------------------------------------
  // The index
  // ---------------------------------------------------------------------

  /** The serial's code is in its restaurant's set, and the set outlives it. */
  predicate Indexed(s: Store, x: string) {
    && x in s.codes && x in s.metas
    && var rest := s.metas[x].value.rest;
       rest in s.sets && x in s.sets[rest].value && NoLater(s.codes[x].expiry, s.sets[rest].expiry)
  }

  /** A DeleteCode has taken the serial out of the set, and is about to delete its
      code or to give up. */
  ghost predicate Condemned(s: State, x: string) {
    exists p :: IsDeleting(s, p, Unlisted) && s.deletions[p].serial == x
  }

  ghost predicate Complete(s: State) {
    forall x :: Live(s.store.codes, x, s.now) ==> Indexed(s.store, x) || Condemned(s, x)
  }

  /** A live code of the restaurant that the index has to know of. */
  ghost predicate Counts(s: State, owner: string -> string, rest: string, x: string) {
    Live(s.store.codes, x, s.now) && owner(x) == rest && !Condemned(s, x)
  }

  /** If DeleteCode `p` gives up here, nothing is missing from the index: it had not
      run its SREM, or the serial has no live code, or the code is indexed (stored
      since), or another DeleteCode is about to delete it. */
  ghost predicate MayGiveUp(s: State, p: nat)
    requires p in s.deletions
  {
    var x := s.deletions[p].serial;
    || s.deletions[p].phase != Unlisted || !Live(s.store.codes, x, s.now) || Indexed(s.store, x)
    || exists q :: q != p && IsDeleting(s, q, Unlisted) && s.deletions[q].serial == x
  }

  /** What a step needs in order to leave the index complete. */
  ghost predicate Fits(s: State, a: Step, owner: string -> string)
    requires Enabled(s, a)
  {
    match a
    case SetCode(e, ttl) =>
      forall x :: x != e.serial && Counts(s, owner, e.meta.rest, x) ==> NoLater(s.store.codes[x].expiry, At(s.now + ttl))
    case WriteBatch(p) =>
      var c := s.replacements[p];
      && (0 < c.ttl || forall x :: x in Serials(c.entries) ==> Condemned(s, x))
      && forall x :: Counts(s, owner, c.rest, x) ==> x in Serials(c.entries)
    case GiveUpDelete(p) => MayGiveUp(s, p)
    case _ => true
  }

  lemma CountsIsMember(s: State, owner: string -> string, x: string)
    requires Owned(s, owner) && Complete(s) && Live(s.store.codes, x, s.now) && !Condemned(s, x)
    ensures Indexed(s.store, x) && s.store.metas[x].value.rest == owner(x) && x in Members(s.store, s.now, owner(x))
  {
    assert Live(s.store.metas, x, s.now);
  }

  /** Only a SREM condemns, and only the DEL that follows it, or giving up, acquits. */
  lemma CondemnedStep(s: State, a: Step, x: string)
    requires Enabled(s, a)
    ensures Condemned(s, x) ==> Condemned(Apply(s, a), x) || ((a.Delete? || a.GiveUpDelete?) && s.deletions[a.p].serial == x)
    ensures Condemned(Apply(s, a), x) ==> Condemned(s, x) || (a.Unlist? && s.deletions[a.p].serial == x)
    ensures a.Unlist? && s.deletions[a.p].serial == x ==> Condemned(Apply(s, a), x)
  {
    var s' := Apply(s, a);
    if Condemned(s, x) && !((a.Delete? || a.GiveUpDelete?) && s.deletions[a.p].serial == x) {
      var p :| IsDeleting(s, p, Unlisted) && s.deletions[p].serial == x;
      assert IsDeleting(s', p, Unlisted) && s'.deletions[p].serial == x;
    }
    if Condemned(s', x) && !(a.Unlist? && s.deletions[a.p].serial == x) {
      var p :| IsDeleting(s', p, Unlisted) && s'.deletions[p].serial == x;
      assert IsDeleting(s, p, Unlisted) && s.deletions[p].serial == x;
    }
    if a.Unlist? && s.deletions[a.p].serial == x {
      assert IsDeleting(s', a.p, Unlisted) && s'.deletions[a.p].serial == x;
    }
  }

  /** After a pipeline, a code that counts is indexed exactly if the pipeline fitted it. */
  lemma SetKeepsIndex(s: State, a: Step, owner: string -> string)
    requires Owned(s, owner) && Complete(s) && a.SetCode? && Enabled(s, a) && Proper(a, owner)
    ensures Complete(Apply(s, a)) <==> Fits(s, a, owner)
  {
    var s', rest := Apply(s, a), a.e.meta.rest;
    forall x ensures Condemned(s', x) <==> Condemned(s, x) { CondemnedStep(s, a, x); }
    assert Indexed(s'.store, a.e.serial);
    forall x | x != a.e.serial && Live(s.store.codes, x, s.now) && !Condemned(s, x)
      ensures Live(s'.store.codes, x, s'.now)
      ensures Indexed(s'.store, x) <==> (owner(x) == rest ==> NoLater(s.store.codes[x].expiry, At(s.now + a.ttl)))
    {
      CountsIsMember(s, owner, x);
    }
    if Complete(s') {
      forall x | x != a.e.serial && Counts(s, owner, rest, x) ensures NoLater(s.store.codes[x].expiry, At(s.now + a.ttl)) {
        assert Live(s'.store.codes, x, s'.now);
      }
    }
    if Fits(s, a, owner) {
      forall x | Live(s'.store.codes, x, s'.now) ensures Indexed(s'.store, x) || Condemned(s', x) {
        if x != a.e.serial { assert Live(s.store.codes, x, s.now); }
      }
    }
  }

  lemma BatchedIndexed(s: State, p: nat, owner: string -> string, x: string)
    requires Owned(s, owner) && Enabled(s, WriteBatch(p)) && x in Serials(s.replacements[p].entries)
    ensures var s' := NextStore(s, WriteBatch(p));
            Live(s'.codes, x, s.now) && (Indexed(s', x) <==> 0 < s.replacements[p].ttl)
  {
    var c, s' := s.replacements[p], NextStore(s, WriteBatch(p));
    assert OwnedReplacement(c, owner);
    assert s'.metas[x].value == Last(c.entries, x).meta && s'.codes[x].expiry == ExpiryOf(s.now, c.ttl);
  }

  lemma UnbatchedIndexed(s: State, p: nat, owner: string -> string, x: string)
    requires Owned(s, owner) && Complete(s) && Enabled(s, WriteBatch(p)) && !Condemned(s, x)
    requires Live(s.store.codes, x, s.now) && x !in Serials(s.replacements[p].entries)
    ensures var s' := NextStore(s, WriteBatch(p));
            Live(s'.codes, x, s.now) && (Indexed(s', x) <==> owner(x) != s.replacements[p].rest)
  {
    CountsIsMember(s, owner, x);
    var s' := NextStore(s, WriteBatch(p));
    assert s'.metas[x] == s.store.metas[x] && s'.codes[x] == s.store.codes[x];
  }

  lemma WriteKeepsIndex(s: State, a: Step, owner: string -> string)
    requires Owned(s, owner) && Complete(s) && a.WriteBatch? && Enabled(s, a)
    ensures Complete(Apply(s, a)) <==> Fits(s, a, owner)
  {
    var s', c := Apply(s, a), s.replacements[a.p];
    assert OwnedReplacement(c, owner);
    forall x ensures Condemned(s', x) <==> Condemned(s, x) { CondemnedStep(s, a, x); }
    forall x | !Condemned(s, x) && (Live(s.store.codes, x, s.now) || x in Serials(c.entries))
      ensures Live(s'.store.codes, x, s'.now)
      ensures Indexed(s'.store, x) <==> if x in Serials(c.entries) then 0 < c.ttl else owner(x) != c.rest
    {
      if x in Serials(c.entries) { BatchedIndexed(s, a.p, owner, x); } else { UnbatchedIndexed(s, a.p, owner, x); }
    }
    if Complete(s') {
      forall x | Counts(s, owner, c.rest, x) ensures x in Serials(c.entries) { assert Live(s'.store.codes, x, s'.now); }
      forall x | x in Serials(c.entries) && !Condemned(s, x) ensures 0 < c.ttl { assert Live(s'.store.codes, x, s'.now); }
    }
    if Fits(s, a, owner) {
      forall x | Live(s'.store.codes, x, s'.now) ensures Indexed(s'.store, x) || Condemned(s', x) {
        if x !in Serials(c.entries) { assert Live(s.store.codes, x, s.now); }
      }
    }
  }

  lemma OthersKeepIndex(s: State, a: Step, owner: string -> string)
    requires Owned(s, owner) && Complete(s) && Enabled(s, a) && !a.SetCode? && !a.WriteBatch? && !a.GiveUpDelete?
    ensures Complete(Apply(s, a))
  {
    var s' := Apply(s, a);
    forall x | Live(s'.store.codes, x, s'.now) ensures Indexed(s'.store, x) || Condemned(s', x) {
      assert Live(s.store.codes, x, s.now);
      CondemnedStep(s, a, x);
    }
  }

  /** Giving up keeps it exactly if it may. */
  lemma GiveUpKeepsIndex(s: State, a: Step)
    requires Complete(s) && a.GiveUpDelete? && Enabled(s, a)
    ensures Complete(Apply(s, a)) <==> MayGiveUp(s, a.p)
  {
    var s', d := Apply(s, a), s.deletions[a.p];
    forall x | x != d.serial ensures Condemned(s', x) <==> Condemned(s, x) { CondemnedStep(s, a, x); }
    if MayGiveUp(s, a.p) {
      forall x | Live(s'.store.codes, x, s'.now) ensures Indexed(s'.store, x) || Condemned(s', x) {
        if x == d.serial { GivenUp(s, a.p); }
      }
    }
    if Complete(s') && d.phase == Unlisted && Condemned(s', d.serial) {
      var q :| IsDeleting(s', q, Unlisted) && s'.deletions[q].serial == d.serial;
      assert q != a.p && IsDeleting(s, q, Unlisted) && s.deletions[q].serial == d.serial;
    }
  }

  lemma GivenUp(s: State, p: nat)
    requires Complete(s) && Enabled(s, GiveUpDelete(p)) && MayGiveUp(s, p) && Live(s.store.codes, s.deletions[p].serial, s.now)
    ensures Indexed(s.store, s.deletions[p].serial) || Condemned(Apply(s, GiveUpDelete(p)), s.deletions[p].serial)
  {
    var s', x := Apply(s, GiveUpDelete(p)), s.deletions[p].serial;
    if !Indexed(s.store, x) {
      assert Condemned(s, x);
      var q :| q != p && IsDeleting(s, q, Unlisted) && s.deletions[q].serial == x;
      assert IsDeleting(s', q, Unlisted) && s'.deletions[q].serial == x;
    }
  }

  /** Every step keeps the index complete except, and exactly then, a pipeline that
      does not fit or a DeleteCode that gives up when it may not. */
  lemma StepKeepsIndex(s: State, a: Step, owner: string -> string)
    requires Owned(s, owner) && Complete(s) && Enabled(s, a) && Proper(a, owner)
    ensures Complete(Apply(s, a)) <==> Fits(s, a, owner)
  {
    if a.SetCode? {
      SetKeepsIndex(s, a, owner);
    } else if a.WriteBatch? {
      WriteKeepsIndex(s, a, owner);
    } else if a.GiveUpDelete? {
      GiveUpKeepsIndex(s, a);
    } else {
      OthersKeepIndex(s, a, owner);
    }
  }

  ghost predicate AlwaysComplete(s: State, run: seq<Step>)
    requires Legal(s, run)
    decreases |run|
  {
    Complete(s) && (run == [] || AlwaysComplete(Apply(s, run[0]), run[1..]))
  }

  ghost predicate AllFit(s: State, run: seq<Step>, owner: string -> string)
    requires Legal(s, run)
    decreases |run|
  {
    run == [] || (Fits(s, run[0], owner) && AllFit(Apply(s, run[0]), run[1..], owner))
  }

  lemma {:induction false} CompleteIff(s: State, run: seq<Step>, owner: string -> string)
    requires Legal(s, run) && AllProper(run, owner) && Owned(s, owner) && Complete(s)
    ensures AlwaysComplete(s, run) <==> AllFit(s, run, owner)
    decreases |run|
  {
    if run != [] {
      StepKeepsIndex(s, run[0], owner);
      OwnedStep(s, run[0], owner);
      if Complete(Apply(s, run[0])) { CompleteIff(Apply(s, run[0]), run[1..], owner); }
    }
  }

  /** In every run, with any overlapping and any call giving up anywhere, the index is
      complete throughout if and only if every step fits: each pipeline when it runs,
      and each DeleteCode that gives up when it does. */
  lemma IndexCompleteIff(now: int, run: seq<Step>, owner: string -> string)
    requires Legal(Start(now), run) && AllProper(run, owner)
    ensures AlwaysComplete(Start(now), run) <==> AllFit(Start(now), run, owner)
  {
    CompleteIff(Start(now), run, owner);
  }

  lemma {:induction false} CompleteAtEnd(s: State, run: seq<Step>)
    requires Legal(s, run) && AlwaysComplete(s, run)
    ensures Complete(Exec(s, run))
    decreases |run|
  {
    if run != [] { CompleteAtEnd(Apply(s, run[0]), run[1..]); }
  }

  /** If every step fits, then whenever no DeleteCode is between its SREM and its end
      every live code is in its restaurant's set, without exception. */
  lemma QuietIndexComplete(now: int, run: seq<Step>, owner: string -> string)
    requires Legal(Start(now), run) && AllProper(run, owner) && AllFit(Start(now), run, owner)
    ensures var s := Exec(Start(now), run);
            (forall p :: !IsDeleting(s, p, Unlisted)) ==> forall x :: Live(s.store.codes, x, s.now) ==> Indexed(s.store, x)
  {
    IndexCompleteIff(now, run, owner);
    CompleteAtEnd(Start(now), run);
  }

  // ---------------------------------------------------------------------
  // Replacements on their own
  // ---------------------------------------------------------------------

  predicate InFlight(s: State, p: nat, rest: string) {
    p in s.replacements && s.replacements[p].phase != Done && !s.replacements[p].gaveUp && s.replacements[p].rest == rest
  }

  ghost predicate Replaced(s: State, rest: string) {
    exists p :: InFlight(s, p, rest)
  }

  /** While a restaurant's codes are being replaced nobody sets one of them or starts
      another replacement, expiries do not decrease, a replacement starting afresh, and
      no DeleteCode leaves a live code out of the set when it gives up. */
  ghost predicate OrderlyStep(s: State, a: Step, latest: map<string, int>) {
    match a
    case SetCode(e, ttl) => !Replaced(s, e.meta.rest) && (e.meta.rest in latest ==> latest[e.meta.rest] <= s.now + ttl)
    case ListMembers(_, rest, _, ttl) => !Replaced(s, rest) && 0 < ttl
    case GiveUpDelete(p) => p in s.deletions && MayGiveUp(s, p)
    case _ => true
  }

  function Latest(s: State, a: Step, latest: map<string, int>): map<string, int>
    requires Enabled(s, a)
  {
    match a
    case SetCode(e, ttl) => latest[e.meta.rest := s.now + ttl]
    case WriteBatch(p) => latest[s.replacements[p].rest := s.now + s.replacements[p].ttl]
    case _ => latest
  }

  ghost predicate Orderly(s: State, run: seq<Step>, latest: map<string, int>)
    requires Legal(s, run)
    decreases |run|
  {
    run == [] || (OrderlyStep(s, run[0], latest) && Orderly(Apply(s, run[0]), run[1..], Latest(s, run[0], latest)))
  }

  /** A live code whose serial is in its restaurant's set. */
  predicate Listable(s: State, owner: string -> string, x: string) {
    Live(s.store.codes, x, s.now) && x in Members(s.store, s.now, owner(x))
  }

  /** A replacement in flight has listed what there is to list, and left none of it. */
  ghost predicate Listed(s: State, p: nat, owner: string -> string)
    requires p in s.replacements
  {
    var c := s.replacements[p];
    && 0 < c.ttl
    && (InFlight(s, p, c.rest) && c.phase == Read ==> forall x :: owner(x) == c.rest && Listable(s, owner, x) ==> x in c.members)
    && (InFlight(s, p, c.rest) && c.phase == Cleared ==> forall x :: owner(x) == c.rest ==> !Listable(s, owner, x))
  }

  ghost predicate Bounded(s: State, owner: string -> string, latest: map<string, int>) {
    forall x :: Listable(s, owner, x) ==> owner(x) in latest && NoLater(s.store.codes[x].expiry, At(latest[owner(x)]))
  }

  ghost predicate OrderlyInv(s: State, owner: string -> string, latest: map<string, int>) {
    && Owned(s, owner) && Complete(s) && Bounded(s, owner, latest)
    && (forall p :: p in s.replacements ==> Listed(s, p, owner))
    && (forall p :: p in s.replacements ==> s.replacements[p].phase != Unlisted)
    && forall p, q, rest :: InFlight(s, p, rest) && InFlight(s, q, rest) ==> p == q
  }

  lemma OrderlyFits(s: State, a: Step, owner: string -> string, latest: map<string, int>)
    requires OrderlyInv(s, owner, latest) && Enabled(s, a) && OrderlyStep(s, a, latest)
    ensures Fits(s, a, owner)
  {
    if a.WriteBatch? {
      var c := s.replacements[a.p];
      assert Listed(s, a.p, owner) && InFlight(s, a.p, c.rest);
      forall x ensures !Counts(s, owner, c.rest, x) {
        if Counts(s, owner, c.rest, x) { CountsIsMember(s, owner, x); }
      }
    } else if a.SetCode? {
      forall x | Counts(s, owner, a.e.meta.rest, x) ensures NoLater(s.store.codes[x].expiry, At(s.now + a.ttl)) {
        CountsIsMember(s, owner, x);
        assert Listable(s, owner, x);
      }
    }
  }

  predicate Stores(s: State, a: Step, x: string)
    requires Enabled(s, a)
  {
    (a.SetCode? && a.e.serial == x) || (a.WriteBatch? && x in Serials(s.replacements[a.p].entries))
  }

  /** A live code in its set after a step was live and in its set before, unless the
      step stored it. */
  lemma ListableStep(s: State, a: Step, owner: string -> string, x: string)
    requires Owned(s, owner) && Enabled(s, a) && Proper(a, owner) && Listable(Apply(s, a), owner, x)
    ensures Stores(s, a, x) || (Listable(s, owner, x) && Apply(s, a).store.codes[x] == s.store.codes[x])
    ensures a.DeleteOld? ==> x !in s.replacements[a.p].members
    ensures a.WriteBatch? && owner(x) == s.replacements[a.p].rest ==> x in Serials(s.replacements[a.p].entries)
  {
    if a.SetCode? {
      ListablePut(s, a, owner, x);
    } else if a.WriteBatch? {
      ListableBatch(s, a, owner, x);
    } else {
      assert Live(s.store.codes, x, s.now);
    }
  }

  lemma ListablePut(s: State, a: Step, owner: string -> string, x: string)
    requires a.SetCode? && Enabled(s, a) && Proper(a, owner) && Listable(Apply(s, a), owner, x)
    ensures a.e.serial == x || (Listable(s, owner, x) && Apply(s, a).store.codes[x] == s.store.codes[x])
  {
  }

  lemma ListableBatch(s: State, a: Step, owner: string -> string, x: string)
    requires Owned(s, owner) && a.WriteBatch? && Enabled(s, a) && Listable(Apply(s, a), owner, x)
    ensures x in Serials(s.replacements[a.p].entries) ||
            (Listable(s, owner, x) && Apply(s, a).store.codes[x] == s.store.codes[x])
    ensures owner(x) == s.replacements[a.p].rest ==> x in Serials(s.replacements[a.p].entries)
  {
  }

  lemma BoundedStep(s: State, a: Step, owner: string -> string, latest: map<string, int>)
    requires OrderlyInv(s, owner, latest) && Enabled(s, a) && Proper(a, owner) && OrderlyStep(s, a, latest)
    ensures Bounded(Apply(s, a), owner, Latest(s, a, latest))
  {
    var s', latest' := Apply(s, a), Latest(s, a, latest);
    forall x | Listable(s', owner, x)
      ensures owner(x) in latest' && NoLater(s'.store.codes[x].expiry, At(latest'[owner(x)]))
    {
      ListableStep(s, a, owner, x);
      if a.WriteBatch? {
        assert OwnedReplacement(s.replacements[a.p], owner) && Listed(s, a.p, owner);
      }
    }
  }

  /** A restaurant with a replacement in flight gets no new code but from that one. */
  lemma NotStoredInFlight(s: State, a: Step, owner: string -> string, latest: map<string, int>, p: nat, x: string)
    requires OrderlyInv(s, owner, latest) && Enabled(s, a) && Proper(a, owner) && OrderlyStep(s, a, latest)
    requires InFlight(Apply(s, a), p, owner(x)) && InFlight(s, p, owner(x))
    ensures !Stores(s, a, x)
  {
    if a.WriteBatch? {
      assert OwnedReplacement(s.replacements[a.p], owner);
      assert s.replacements[a.p].rest == owner(x) ==> InFlight(s, a.p, owner(x));
    }
  }

  lemma StillListed(s: State, a: Step, owner: string -> string, p: nat, x: string)
    requires Owned(s, owner) && Enabled(s, a) && Proper(a, owner) && p in s.replacements && Listed(s, p, owner)
    requires InFlight(s, p, owner(x)) && InFlight(Apply(s, a), p, owner(x)) && s.replacements[p].phase != Unlisted
    requires !Stores(s, a, x) && Listable(Apply(s, a), owner, x)
    ensures Apply(s, a).replacements[p].phase == Read && x in Apply(s, a).replacements[p].members
  {
    ListableStep(s, a, owner, x);
  }

  lemma ListedStep(s: State, a: Step, owner: string -> string, latest: map<string, int>, p: nat)
    requires OrderlyInv(s, owner, latest) && Enabled(s, a) && Proper(a, owner) && OrderlyStep(s, a, latest)
    requires p in NextReplacements(s, a)
    ensures Listed(Apply(s, a), p, owner)
  {
    var s' := Apply(s, a);
    var c := s'.replacements[p];
    if p in s.replacements { assert Listed(s, p, owner); }
    if !(a.ListMembers? && a.p == p) {
      forall x | InFlight(s', p, c.rest) && owner(x) == c.rest && Listable(s', owner, x) ensures c.phase == Read && x in c.members {
        NotStoredInFlight(s, a, owner, latest, p, x);
        StillListed(s, a, owner, p, x);
      }
    }
  }

  lemma AloneStep(s: State, a: Step, latest: map<string, int>)
    requires Enabled(s, a) && OrderlyStep(s, a, latest)
    requires forall p, q, rest :: InFlight(s, p, rest) && InFlight(s, q, rest) ==> p == q
    ensures forall p, q, rest :: InFlight(Apply(s, a), p, rest) && InFlight(Apply(s, a), q, rest) ==> p == q
  {
    var s' := Apply(s, a);
    forall p, q, rest | InFlight(s', p, rest) && InFlight(s', q, rest) ensures p == q {
      assert InFlight(s, p, rest) || (a.ListMembers? && a.p == p && a.rest == rest);
      assert InFlight(s, q, rest) || (a.ListMembers? && a.p == q && a.rest == rest);
    }
  }

  lemma OrderlyInvStep(s: State, a: Step, owner: string -> string, latest: map<string, int>)
    requires OrderlyInv(s, owner, latest) && Enabled(s, a) && Proper(a, owner) && OrderlyStep(s, a, latest)
    ensures OrderlyInv(Apply(s, a), owner, Latest(s, a, latest))
  {
    OrderlyFits(s, a, owner, latest);
    StepKeepsIndex(s, a, owner);
    OwnedStep(s, a, owner);
    BoundedStep(s, a, owner, latest);
    AloneStep(s, a, latest);
    forall p | p in NextReplacements(s, a) ensures Listed(Apply(s, a), p, owner) { ListedStep(s, a, owner, latest, p); }
  }

  lemma {:induction false} OrderlyRun(s: State, run: seq<Step>, owner: string -> string, latest: map<string, int>)
      returns (latest': map<string, int>)
    requires Legal(s, run) && AllProper(run, owner) && OrderlyInv(s, owner, latest) && Orderly(s, run, latest)
    ensures AlwaysComplete(s, run) && OrderlyInv(Exec(s, run), owner, latest')
    decreases |run|
  {
    latest' := latest;
    if run != [] {
      OrderlyInvStep(s, run[0], owner, latest);
      latest' := OrderlyRun(Apply(s, run[0]), run[1..], owner, Latest(s, run[0], latest));
    }
  }

  /** In every run in which replacements are not overlapped within their restaurant
      and expiries do not decrease, the index is complete throughout; and right after
      a replacement's pipeline the restaurant's live codes are its batch, apart from
      those that a DeleteCode in flight has taken out of the set. */
  lemma OrderlyRunsComplete(now: int, run: seq<Step>, owner: string -> string, p: nat)
    requires Legal(Start(now), run) && AllProper(run, owner) && Orderly(Start(now), run, map[])
    ensures AlwaysComplete(Start(now), run)
    ensures var s := Exec(Start(now), run);
            Enabled(s, WriteBatch(p)) ==>
              var c, s' := s.replacements[p], Apply(s, WriteBatch(p));
              && (forall x :: x in Serials(c.entries) ==> Live(s'.store.codes, x, s'.now))
              && (forall x :: Counts(s', owner, c.rest, x) ==> x in Serials(c.entries))
  {
    var latest := OrderlyRun(Start(now), run, owner, map[]);
    if Enabled(Exec(Start(now), run), WriteBatch(p)) { BatchIsAll(Exec(Start(now), run), owner, latest, p); }
  }

  lemma BatchIsAll(s: State, owner: string -> string, latest: map<string, int>, p: nat)
    requires OrderlyInv(s, owner, latest) && Enabled(s, WriteBatch(p))
    ensures var c, s' := s.replacements[p], Apply(s, WriteBatch(p));
            && (forall x :: x in Serials(c.entries) ==> Live(s'.store.codes, x, s'.now))
            && (forall x :: Counts(s', owner, c.rest, x) ==> x in Serials(c.entries))
  {
    OrderlyFits(s, WriteBatch(p), owner, latest);
    FittingIsAll(s, owner, p);
  }

  lemma FittingIsAll(s: State, owner: string -> string, p: nat)
    requires Enabled(s, WriteBatch(p)) && Fits(s, WriteBatch(p), owner)
    ensures var c, s' := s.replacements[p], Apply(s, WriteBatch(p));
            && (forall x :: x in Serials(c.entries) ==> Live(s'.store.codes, x, s'.now))
            && (forall x :: Counts(s', owner, c.rest, x) ==> x in Serials(c.entries))
  {
    var c, s' := s.replacements[p], Apply(s, WriteBatch(p));
    forall x | Counts(s', owner, c.rest, x) ensures x in Serials(c.entries) {
      CondemnedStep(s, WriteBatch(p), x);
      assert x !in Serials(c.entries) ==> Live(s.store.codes, x, s.now);
    }
  }

  /** What a batch pipeline does to everything but its restaurant's codes: nothing. */
  lemma BatchTouchesOnlyItsOwn(s: State, p: nat, owner: string -> string)
    requires Owned(s, owner) && Enabled(s, WriteBatch(p))
    ensures var c, s' := s.replacements[p], NextStore(s, WriteBatch(p));
            && (forall x :: owner(x) != c.rest ==>
                  && (x in s'.codes <==> x in s.store.codes) && (x in s'.codes ==> s'.codes[x] == s.store.codes[x])
                  && (x in s'.metas <==> x in s.store.metas) && (x in s'.metas ==> s'.metas[x] == s.store.metas[x]))
            && (forall r :: r != c.rest ==>
                  (r in s'.sets <==> r in s.store.sets) && (r in s'.sets ==> s'.sets[r] == s.store.sets[r]))
            && (forall x :: x in Serials(c.entries) ==>
                  s'.codes[x].value == Last(c.entries, x).hash && s'.metas[x].value == Last(c.entries, x).meta)
  {
    assert OwnedReplacement(s.replacements[p], owner);
    forall x | x in Serials(s.replacements[p].entries) ensures owner(x) == s.replacements[p].rest {
      var e :| e in s.replacements[p].entries && e.serial == x;
    }
  }
}
