/** pairing_repo.go, pairing_service.go and the Pair of device_auth_service.go as
    written, command by command, while every other caller keeps running. Any Redis
    command may fail. */
module PairingService {
  import opened Options
  import opened PairingStore
  import opened Pairing
  import opened PairingRaces
  import opened Replies

  // Whether the GET, the SREM and the DEL of a DeleteCode get through; and the
  // SMEMBERS, the DEL and the pipeline of a ReplaceRestaurantCodes.
  datatype DeleteFates = DeleteFates(get: bool, srem: bool, del: Reply)
  datatype ReplaceFates = ReplaceFates(members: bool, del: Reply, write: Reply)

  // What GetCode finds: a code without its metadata is an error.
  datatype Lookup = Missing | Broken | Found(hash: Hash, meta: Meta)

  /** A live code comes with live metadata, which name its own restaurant. */
  lemma CodesComeWithMeta(s: State, owner: string -> string, serial: string)
    requires Owned(s, owner) && Live(s.store.codes, serial, s.now)
    ensures Live(s.store.metas, serial, s.now) && s.store.metas[serial].value.rest == owner(serial)
  {
  }

  // ---------------------------------------------------------------------
  // One call among all the others
  // ---------------------------------------------------------------------

  predicate Foreign(run: seq<Step>, p: nat) {
    forall a :: a in run && !a.Advance? && !a.SetCode? ==> a.p != p
  }

  /** A call's own record is its own. */
  predicate SameFor(s: State, s': State, p: nat) {
    && (p in s'.deletions <==> p in s.deletions) && (p in s.deletions ==> s'.deletions[p] == s.deletions[p])
    && (p in s'.replacements <==> p in s.replacements) && (p in s.replacements ==> s'.replacements[p] == s.replacements[p])
    && (p in s'.pairs <==> p in s.pairs) && (p in s.pairs ==> s'.pairs[p] == s.pairs[p])
    && s.now <= s'.now && s.log <= s'.log
  }

  /** A step that neither looks a code up nor ends a Pair, at one instant. */
  predicate SameLookups(s: State, s': State) {
    s'.pairs == s.pairs && s'.now == s.now && s.log <= s'.log
  }

  predicate SamePair(s: State, s': State, p: nat) {
    && (p in s'.pairs <==> p in s.pairs) && (p in s.pairs ==> s'.pairs[p] == s.pairs[p])
    && s.now <= s'.now && s.log <= s'.log
  }

  lemma {:induction false} ForeignRun(s: State, run: seq<Step>, p: nat)
    requires Legal(s, run) && Foreign(run, p)
    ensures SameFor(s, Exec(s, run), p)
    decreases |run|
  {
    if run != [] {
      assert run[0] in run;
      ForeignRun(Apply(s, run[0]), run[1..], p);
    }
  }

  lemma {:induction false} ValidRun(s: State, run: seq<Step>, owner: string -> string)
    requires Legal(s, run) && AllProper(run, owner) && Owned(s, owner) && Logged(s)
    ensures Owned(Exec(s, run), owner) && Logged(Exec(s, run))
    decreases |run|
  {
    if run != [] {
      OwnedStep(s, run[0], owner);
      LoggedStep(s, run[0]);
      ValidRun(Apply(s, run[0]), run[1..], owner);
    }
  }

  // ---------------------------------------------------------------------
  // pairing_repo.go
  // ---------------------------------------------------------------------

  /** Redis and all calls in flight, on every replica. */
  class PairingRepo {
    var s: State
    const owner: string -> string // which restaurant each serial belongs to

    ghost const start: int
    ghost var run: seq<Pairing.Step>

    ghost predicate Valid() reads this { LeadsTo(start, run, s) && AllProper(run, owner) }

    constructor (now: int, owner: string -> string)
      ensures Valid() && s == Start(now) && this.owner == owner
    {
      this.owner, start, run := owner, now, [];
      s := Start(now);
    }

    method Step(a: Pairing.Step)
      requires Valid() && Enabled(s, a) && Proper(a, owner)
      modifies `s, `run
      ensures Valid() && s == Apply(old(s), a)
    {
      Extend(start, run, s, a);
      assert AllProper([a], owner) by { assert [a][1..] == []; }
      ProperSplits(run, [a], owner);
      s, run := Apply(s, a), run + [a];
    }

    /** Anything the others may do between two commands of call `p`. */
    method Interfere(p: nat)
      requires Valid()
      modifies `s, `run
      ensures Valid() && SameFor(old(s), s, p)
    {
      assert Legal(s, []) && Foreign([], p) && AllProper([], owner);
      var more: seq<Pairing.Step> :| Legal(s, more) && Foreign(more, p) && AllProper(more, owner);
      ForeignRun(s, more, p);
      RunSplits(Start(start), run, more);
      ProperSplits(run, more, owner);
      s, run := Exec(s, more), run + more;
    }

    lemma Known()
      requires Valid()
      ensures Owned(s, owner) && Logged(s)
    {
      StartLogged(start);
      ValidRun(Start(start), run, owner);
    }

    /** The pipeline of SetCode. */
    method PutNow(e: Entry, ttl: int)
      requires Valid() && 0 < ttl && owner(e.serial) == e.meta.rest
      modifies `s, `run
      ensures Valid() && s == Apply(old(s), Pairing.SetCode(e, ttl))
      ensures s.store == DoAll(old(s).store, old(s).now, SetPipeline(e, ttl))
    {
      SetPipelineDoes(s.store, s.now, e, ttl);
      Step(Pairing.SetCode(e, ttl));
    }

    /** SetCode. An expired code is refused; any other is stored, if its pipeline gets
        through, for what was left of its time when the call began. `before` is the
        state that the pipeline runs in. */
    method SetCode(p: nat, serial: string, hash: Hash, meta: Meta, reply: Reply) returns (ok: bool, ghost before: State)
      requires Valid() && owner(serial) == meta.rest
      modifies `s, `run
      ensures Valid() && SameFor(old(s), s, p)
      ensures ok == (old(s.now) < meta.expiresAt && reply.Heard?)
      ensures meta.expiresAt <= old(s.now) ==> s == old(s)
      ensures old(s.now) < meta.expiresAt && TookEffect(reply) ==>
        && s == Apply(before, Pairing.SetCode(Entry(serial, hash, meta), meta.expiresAt - old(s.now)))
        && CodeStored(before.store, s.store, s.now, serial, hash, meta, At(s.now + (meta.expiresAt - old(s.now))))
    {
      var ttl := meta.expiresAt - s.now;
      before := s;
      if ttl <= 0 { return false, before; }
      before := TryPut(p, Entry(serial, hash, meta), ttl, reply);
      return reply.Heard?, before;
    }

    /** The pipeline of SetCode, some time later. */
    method TryPut(p: nat, e: Entry, ttl: int, reply: Reply) returns (ghost before: State)
      requires Valid() && 0 < ttl && owner(e.serial) == e.meta.rest
      modifies `s, `run
      ensures Valid() && SameFor(old(s), s, p)
      ensures TookEffect(reply) ==>
        s == Apply(before, Pairing.SetCode(e, ttl)) && CodeStored(before.store, s.store, s.now, e.serial, e.hash, e.meta, At(s.now + ttl))
    {
      Interfere(p);
      before := s;
      if TookEffect(reply) {
        StoredBySet(s, e, ttl, p);
        PutNow(e, ttl);
      }
    }

    /** GetCode, in one pipeline. */
    method GetCode(serial: string, answers: bool) returns (r: Lookup, failed: bool)
      ensures failed == !answers
      ensures answers ==>
        && (r.Missing? <==> !Live(s.store.codes, serial, s.now))
        && (r.Found? <==> Live(s.store.codes, serial, s.now) && Live(s.store.metas, serial, s.now))
        && (r.Found? ==> r == Found(s.store.codes[serial].value, s.store.metas[serial].value))
    {
      if !answers { return Missing, true; }
      if !Live(s.store.codes, serial, s.now) { return Missing, false; }
      if !Live(s.store.metas, serial, s.now) { return Broken, false; }
      return Found(s.store.codes[serial].value, s.store.metas[serial].value), false;
    }

    method ReadMeta(p: nat, serial: string)
      requires Valid() && Enabled(s, GetMeta(p, serial))
      modifies `s, `run
      ensures Valid() && SameLookups(old(s), s) && IsDeleting(s, p, Read)
      ensures s.deletions[p].serial == serial
      ensures s.deletions[p].from.Some? <==> Live(old(s).store.metas, serial, s.now)
      ensures s.deletions[p].from.Some? ==> s.deletions[p].from.value == owner(serial)
    {
      Step(GetMeta(p, serial));
      Known();
      assert OwnedDeletion(s.deletions[p], owner);
    }

    /** SREM: the serial leaves its restaurant's set. */
    method RemoveFromSet(p: nat)
      requires Valid() && IsDeleting(s, p, Read) && s.deletions[p].from.Some?
      modifies `s, `run
      ensures Valid() && SameLookups(old(s), s) && IsDeleting(s, p, Unlisted)
      ensures s.deletions[p] == old(s.deletions[p]).(phase := Unlisted)
      ensures var rest := s.deletions[p].from.value;
              Members(s.store, s.now, rest) == Members(old(s).store, s.now, rest) - {s.deletions[p].serial}
    {
      Step(Unlist(p));
    }

    /** The SREM of DeleteCode, if there is metadata to name the set and it gets through. */
    method TryRemove(p: nat, serial: string, arrives: bool) returns (ghost srem: Option<State>)
      requires Valid() && IsDeleting(s, p, Read) && s.deletions[p].serial == serial
      requires s.deletions[p].from.Some? ==> s.deletions[p].from.value == owner(serial)
      modifies `s, `run
      ensures Valid() && SameLookups(old(s), s)
      ensures p in s.deletions && s.deletions[p] == old(s.deletions[p]).(phase := if srem.Some? then Unlisted else Read)
      ensures srem.Some? <==> arrives && s.deletions[p].from.Some?
      ensures srem.Some? ==> srem.value == s && TakenOut(s, p, serial, owner)
    {
      srem := None;
      if s.deletions[p].from.Some? && arrives {
        RemoveFromSet(p);
        srem := Some(s);
      }
    }

    method DropCode(p: nat)
      requires Valid() && (IsDeleting(s, p, Read) || IsDeleting(s, p, Unlisted))
      modifies `s, `run
      ensures Valid() && SameLookups(old(s), s) && DropsNow(s, p, old(s.deletions[p].serial))
      ensures s.store == Do(old(s).store, s.now, Del([CodeKey(s.deletions[p].serial), MetaKey(s.deletions[p].serial)]))
    {
      var serial := s.deletions[p].serial;
      DelDoes(s.store, s.now, [serial]);
      assert SetOf([serial]) == {serial} && KeysOf([serial]) == [CodeKey(serial), MetaKey(serial)];
      Step(Delete(p));
    }

    /** The DEL of DeleteCode. */
    method TryDrop(p: nat, serial: string, ghost unlisted: bool, del: Reply)
      requires Valid() && IsDeleting(s, p, if unlisted then Unlisted else Read) && s.deletions[p].serial == serial
      modifies `s, `run
      ensures Valid() && SameLookups(old(s), s)
      ensures if TookEffect(del) then DropsNow(s, p, serial) else GaveUpDeleting(s, p, serial, unlisted)
    {
      if TookEffect(del) { DropCode(p); } else { Step(GiveUpDelete(p)); }
    }

    /** DeleteCode: GET, SREM, whose failure is ignored, and DEL. If the DEL takes effect
        the code and its metadata are gone, and it is the last thing in the log; if not,
        the call gives up. `srem` is the state right after its SREM, which is sent if the
        GET found metadata: the serial is then out of its restaurant's set, DEL or no
        DEL. */
    method DeleteCode(p: nat, serial: string, f: DeleteFates) returns (ok: bool, ghost srem: Option<State>)
      requires Valid() && Enabled(s, GetMeta(p, serial))
      modifies `s, `run
      ensures Valid() && SamePair(old(s), s, p)
      ensures ok == (f.get && f.del.Heard?)
      ensures !f.get ==> s == old(s)
      ensures f.get ==> if TookEffect(f.del) then DropsNow(s, p, serial) else GaveUpDeleting(s, p, serial, srem.Some?)
      ensures srem.Some? <==> f.get && f.srem && Live(old(s).store.metas, serial, old(s).now)
      ensures srem.Some? ==> TakenOut(srem.value, p, serial, owner) && old(s).log <= srem.value.log <= s.log
    {
      srem := None;
      if !f.get { return false, srem; }
      ReadMeta(p, serial);
      Interfere(p);
      srem := TryRemove(p, serial, f.srem);
      Interfere(p);
      TryDrop(p, serial, srem.Some?, f.del);
      return f.del.Heard?, srem;
    }

    method ReadMembers(p: nat, rest: string, entries: seq<Entry>, ttl: int)
      requires Valid() && Unknown(s, p) && OwnedEntries(entries, rest, owner)
      modifies `s, `run
      ensures Valid() && s.now == old(s.now) && s.store == old(s).store && p in s.replacements
      ensures s.replacements[p] == Replacement(rest, entries, ttl, Read, Members(s.store, s.now, rest), 0, 0, false)
    {
      Step(ListMembers(p, rest, entries, ttl));
    }

    /** The batch pipeline. Right after it the restaurant's live codes are the batch
        and what slipped past the DEL. */
    method WriteNow(p: nat, pipe: seq<Cmd>)
      requires Valid() && (IsReplacing(s, p, Cleared) || (IsReplacing(s, p, Read) && s.replacements[p].members == {}))
      requires var c := s.replacements[p]; pipe == BatchPipeline(c.rest, c.entries, c.ttl)
      modifies `s, `run
      ensures Valid() && s == Apply(old(s), WriteBatch(p)) && s.now == old(s.now)
      ensures s.store == DoAll(old(s).store, s.now, pipe)
      ensures IsReplacing(s, p, Done) && ExactBut(s, p, owner)
    {
      var c := s.replacements[p];
      BatchPipelineDoes(s.store, s.now, c.rest, c.entries, c.ttl, ExpiryOf(s.now, c.ttl));
      Step(WriteBatch(p));
      Known();
      AfterBatch(s, p, owner);
    }

    method Abandon(p: nat)
      requires Valid() && (IsReplacing(s, p, Read) || IsReplacing(s, p, Cleared))
      modifies `s, `run
      ensures Valid() && s.now == old(s.now) && s.store == old(s).store
      ensures p in s.replacements && s.replacements[p] == old(s.replacements[p]).(gaveUp := true)
    {
      Step(GiveUpReplace(p));
    }

    /** ReplaceRestaurantCodes: SMEMBERS, DEL of what it listed, if anything, and the
        batch pipeline. If the pipeline takes effect the batch stands, with one expiry
        reckoned from then; if not, the call gives up, with the old codes deleted if
        their DEL took effect. */
    method ReplaceRestaurantCodes(p: nat, rest: string, entries: seq<Entry>, ttl: int, f: ReplaceFates)
        returns (ok: bool, ghost before: State)
      requires Valid() && Unknown(s, p) && OwnedEntries(entries, rest, owner)
      modifies `s, `run
      ensures Valid() && old(s.now) <= s.now
      ensures var unlisted := Members(old(s).store, old(s).now, rest) == {};
        && ok == (f.members && (unlisted || f.del.Heard?) && f.write.Heard?)
        && (!f.members ==> s == old(s))
        && (f.members && (unlisted || f.del.Heard?) && TookEffect(f.write) ==>
              WrittenNow(s, before, p, rest, entries, ttl, owner) && Stands(s.store, rest, entries, EndsAt(s.now, ttl)))
        && (f.members && !((unlisted || f.del.Heard?) && TookEffect(f.write)) ==>
              GaveUpReplacing(s, p, rest, entries, !unlisted && TookEffect(f.del)))
    {
      before := s;
      if !f.members { return false, before; }
      ReadMembers(p, rest, entries, ttl);
      Interfere(p);
      var oldSerials := InSomeOrder(s.replacements[p].members);
      if |oldSerials| > 0 {
        var ok := DeleteListed(p, oldSerials, f.del);
        Interfere(p);
        if !ok {
          Abandon(p);
          return false, before;
        }
      }
      before := s;
      var pipe := BuildPipeline(rest, entries, ttl);
      if !TookEffect(f.write) {
        Abandon(p);
        return false, before;
      }
      WriteNow(p, pipe);
      BatchStands(before.store, rest, entries, EndsAt(s.now, ttl));
      return f.write.Heard?, before;
    }

    method DeleteListed(p: nat, serials: seq<string>, del: Reply) returns (ok: bool)
      requires Valid() && IsReplacing(s, p, Read) && SetOf(serials) == s.replacements[p].members
      modifies `s, `run
      ensures Valid() && s.now == old(s.now) && ok == del.Heard?
      ensures IsReplacing(s, p, if TookEffect(del) then Cleared else Read)
      ensures var c, c' := old(s.replacements[p]), s.replacements[p];
              c'.rest == c.rest && c'.entries == c.entries && c'.ttl == c.ttl && c'.members == c.members
    {
      if TookEffect(del) { DeleteOldKeys(p, serials); }
      return del.Heard?;
    }

    /** The DEL of every key that the loop collects. */
    method DeleteOldKeys(p: nat, serials: seq<string>)
      requires Valid() && IsReplacing(s, p, Read) && SetOf(serials) == s.replacements[p].members
      modifies `s, `run
      ensures Valid() && s.now == old(s.now)
      ensures p in s.replacements && s.replacements[p] == old(s.replacements[p]).(phase := Cleared, delAt := |old(s).log|)
      ensures s.store == Do(old(s).store, old(s).now, Del(KeysOf(serials)))
    {
      var keys: seq<Key> := [];
      for k := 0 to |serials|
        invariant keys == KeysOf(serials[..k])
      {
        keys := keys + [CodeKey(serials[k]), MetaKey(serials[k])];
        assert serials[..k + 1][..k] == serials[..k];
      }
      assert serials[..|serials|] == serials;
      DelDoes(s.store, s.now, serials);
      Step(DeleteOld(p));
    }
  }

  /** The call's DEL is the last step, and the code and its metadata are gone. */
  predicate DropsNow(s: State, p: nat, serial: string) {
    && HasDeleted(s, p) && s.deletions[p].serial == serial && s.deletions[p].delAt == |s.log| - 1
    && serial !in s.store.codes && serial !in s.store.metas
  }

  /** The call ended without its DEL, after its SREM or before. */
  predicate GaveUpDeleting(s: State, p: nat, serial: string, unlisted: bool) {
    && p in s.deletions && s.deletions[p].gaveUp && s.deletions[p].serial == serial
    && s.deletions[p].phase == if unlisted then Unlisted else Read
  }

  predicate TakenOut(s: State, p: nat, serial: string, owner: string -> string) {
    IsDeleting(s, p, Unlisted) && s.deletions[p].serial == serial && serial !in Members(s.store, s.now, owner(serial))
  }

  predicate GaveUpReplacing(s: State, p: nat, rest: string, entries: seq<Entry>, cleared: bool) {
    && p in s.replacements && s.replacements[p].gaveUp && s.replacements[p].phase == (if cleared then Cleared else Read)
    && s.replacements[p].rest == rest && s.replacements[p].entries == entries
  }

  /** When a key that is set now for `ttl` ends; one that is not set for any time never does. */
  function EndsAt(now: int, ttl: int): Expiry {
    if ttl <= 0 then Never else At(now + ttl)
  }

  /** A pipeline has stored one code, its metadata and its place in the set, until
      `end`, and has touched no other. */
  predicate CodeStored(before: Store, s: Store, now: int, serial: string, hash: Hash, meta: Meta, end: Expiry) {
    && s.codes == before.codes[serial := Cell(hash, end)]
    && s.metas == before.metas[serial := Cell(meta, end)]
    && s.sets == before.sets[meta.rest := Cell(Members(before, now, meta.rest) + {serial}, end)]
  }

  lemma PutStores(s: Store, now: int, e: Entry, end: int)
    ensures CodeStored(s, Put(s, now, e, end), now, e.serial, e.hash, e.meta, At(end))
  {
  }

  lemma StoredBySet(s: State, e: Entry, ttl: int, p: nat)
    requires 0 < ttl
    ensures var s' := Apply(s, Pairing.SetCode(e, ttl));
            && CodeStored(s.store, s'.store, s'.now, e.serial, e.hash, e.meta, At(s'.now + ttl)) && SameFor(s, s', p)
  {
    PutStores(s.store, s.now, e, s.now + ttl);
  }

  predicate IsLastEntry(entries: seq<Entry>, k: nat) {
    k < |entries| && forall j :: k < j < |entries| ==> entries[j].serial != entries[k].serial
  }

  predicate EntryStands(s: Store, serial: string, hash: Hash, meta: Meta, end: Expiry) {
    && serial in s.codes && s.codes[serial] == Cell(hash, end)
    && serial in s.metas && s.metas[serial] == Cell(meta, end)
  }

  /** Every serial of a batch has the code and metadata of its last entry, and the set
      lists them all; a batch that never ends has no set. */
  ghost predicate Stands(s: Store, rest: string, entries: seq<Entry>, end: Expiry) {
    && (forall k: nat :: IsLastEntry(entries, k) ==> EntryStands(s, entries[k].serial, entries[k].hash, entries[k].meta, end))
    && (if entries == [] || end.Never? then rest !in s.sets else rest in s.sets && s.sets[rest] == Cell(Serials(entries), end))
  }

  lemma BatchStands(s: Store, rest: string, entries: seq<Entry>, end: Expiry)
    ensures Stands(Batch(s, rest, entries, end), rest, entries, end)
  {
    var s' := Batch(s, rest, entries, end);
    forall k: nat | IsLastEntry(entries, k) ensures EntryStands(s', entries[k].serial, entries[k].hash, entries[k].meta, end) {
      LastStands(s, rest, entries, end, k);
    }
  }

  lemma LastStands(s: Store, rest: string, entries: seq<Entry>, end: Expiry, k: nat)
    requires IsLastEntry(entries, k)
    ensures EntryStands(Batch(s, rest, entries, end), entries[k].serial, entries[k].hash, entries[k].meta, end)
  {
    var x := entries[k].serial;
    assert entries[k] in entries && x in Serials(entries);
    var l := LastEntryWins(entries, x);
    assert l == k;
    assert x in CodesOf(entries, end) && x in MetasOf(entries, end);
  }

  /** The call's pipeline is the last step, and the restaurant's live codes are the
      batch and what slipped past the DEL. */
  ghost predicate WrittenNow(s: State, before: State, p: nat, rest: string, entries: seq<Entry>, ttl: int, owner: string -> string) {
    && IsReplacing(s, p, Done) && s.replacements[p].rest == rest && s.replacements[p].entries == entries
    && s.replacements[p].writeAt == |s.log| - 1 && ExactBut(s, p, owner)
    && s.store == DoAll(before.store, before.now, BatchPipeline(rest, entries, ttl)) && s.now == before.now
  }

  /** SMEMBERS returns the members in some order. */
  method InSomeOrder(members: set<string>) returns (serials: seq<string>)
    ensures SetOf(serials) == members && (serials == [] <==> members == {})
  {
    serials := [];
    var left := members;
    while left != {}
      invariant left <= members && SetOf(serials) == members - left && (serials == [] ==> left == members)
    {
      var x :| x in left;
      assert SetOf(serials + [x]) == SetOf(serials) + {x};
      serials, left := serials + [x], left - {x};
    }
    assert serials != [] ==> serials[0] in SetOf(serials);
  }

  /** The pipeline that ReplaceRestaurantCodes builds. */
  method BuildPipeline(rest: string, entries: seq<Entry>, ttl: int) returns (pipe: seq<Cmd>)
    ensures pipe == BatchPipeline(rest, entries, ttl)
  {
    pipe := [];
    for k := 0 to |entries|
      invariant pipe == WritesOf(entries[..k], ttl)
    {
      var e := entries[k];
      pipe := pipe + [SetCodeKey(e.serial, e.hash, ttl), SetMetaKey(e.serial, e.meta, ttl)];
      assert entries[..k + 1][..k] == entries[..k];
    }
    assert entries[..|entries|] == entries;
    pipe := pipe + [DelSet(rest)];
    if |entries| > 0 { pipe := pipe + [SAdd(rest, Names(entries)), Expire(rest, ttl)]; }
  }

  /** The restaurant's live codes are those of a replacement's batch, and what slipped
      past its DEL. */
  ghost predicate ExactBut(s: State, p: nat, owner: string -> string)
    requires p in s.replacements
  {
    var c := s.replacements[p];
    forall x :: owner(x) == c.rest ==>
      (Live(s.store.codes, x, s.now) <==> x in Serials(c.entries) || Slipped(s, c, x))
  }

  ghost predicate Slipped(s: State, c: Replacement, x: string) {
    exists w :: 0 <= w < c.writeAt && SlippedPast(s, c, x, w)
  }

  lemma AfterBatch(s: State, p: nat, owner: string -> string)
    requires Owned(s, owner) && Logged(s) && IsReplacing(s, p, Done) && |s.log| == s.replacements[p].writeAt + 1
    requires var c := s.replacements[p]; forall x :: x in Serials(c.entries) ==> Live(s.store.codes, x, s.now)
    ensures ExactBut(s, p, owner)
  {
    var c := s.replacements[p];
    forall x | owner(x) == c.rest && x !in Serials(c.entries) ensures Live(s.store.codes, x, s.now) <==> Slipped(s, c, x) {
      LiveMeansSlipped(s, p, x);
    }
  }

  // ---------------------------------------------------------------------
  // pairing_service.go
  // ---------------------------------------------------------------------

  datatype CodeEntry = CodeEntry(serial: string, deviceId: string, deviceType: string, code: string)

  predicate Filled(c: CodeEntry) { c.serial != "" && c.code != "" }

  function EntryOf(c: CodeEntry, rest: string, expiresAt: int): Entry {
    Entry(c.serial, Hashed(c.code), Meta(c.deviceId, c.deviceType, rest, expiresAt))
  }

  function Entries(codes: seq<CodeEntry>, rest: string, expiresAt: int): seq<Entry> {
    seq(|codes|, k requires 0 <= k < |codes| => EntryOf(codes[k], rest, expiresAt))
  }

  /** Whether CacheCodes lets a request through to the store. */
  predicate Cacheable(codes: seq<CodeEntry>, expiresAt: int, now: int) {
    codes != [] && now < expiresAt && forall c :: c in codes ==> Filled(c)
  }

  predicate IsLastCode(codes: seq<CodeEntry>, k: nat) {
    k < |codes| && forall j :: k < j < |codes| ==> codes[j].serial != codes[k].serial
  }

  /** The request's codes stand for the restaurant, the last entry for a serial winning. */
  ghost predicate CodesStand(s: Store, rest: string, expiresAt: int, codes: seq<CodeEntry>, end: Expiry) {
    && (forall k: nat :: IsLastCode(codes, k) ==>
          var c := codes[k];
          EntryStands(s, c.serial, Hashed(c.code), Meta(c.deviceId, c.deviceType, rest, expiresAt), end))
    && (if end.Never? then rest !in s.sets
        else rest in s.sets && s.sets[rest] == Cell(set c | c in codes :: c.serial, end))
  }

  /** CacheCodes: a request it refuses changes nothing. One that is carried out leaves
      the restaurant's live codes those of the request and what slipped past, until what
      was left of their time when the clock was read again, at `at`, has passed since
      the pipeline; without end if nothing was left. */
  method CacheCodes(repo: PairingRepo, p: nat, rest: string, expiresAt: int, codes: seq<CodeEntry>, f: ReplaceFates)
    returns (count: Option<nat>, ghost at: int)
    requires repo.Valid() && Unknown(repo.s, p)
    requires forall c :: c in codes ==> repo.owner(c.serial) == rest
    modifies repo`s, repo`run
    ensures repo.Valid() && old(repo.s.now) <= at <= repo.s.now
    ensures !Cacheable(codes, expiresAt, old(repo.s.now)) ==> count.None? && repo.s == old(repo.s)
    ensures Cacheable(codes, expiresAt, old(repo.s.now)) && f.members && f.del.Heard? && f.write.Heard? ==> count.Some?
    ensures count.Some? ==>
      && f.members && f.write.Heard? && count.value == |codes| && ReplacedNow(repo.s, p, rest, codes, repo.owner)
      && CodesStand(repo.s.store, rest, expiresAt, codes, EndsAt(repo.s.now, expiresAt - at))
  {
    at := repo.s.now;
    if |codes| == 0 { return None, at; }
    if expiresAt <= repo.s.now { return None, at; }
    var entries := HashAll(codes, rest, expiresAt);
    if entries.None? { return None, at; }
    var ok;
    ok, at := ReplaceLater(repo, p, rest, expiresAt, codes, entries.value, f);
    return if ok then Some(|entries.value|) else None, at;
  }

  /** CacheCodes from the second clock reading on. */
  method ReplaceLater(repo: PairingRepo, p: nat, rest: string, expiresAt: int, codes: seq<CodeEntry>, entries: seq<Entry>, f: ReplaceFates)
    returns (ok: bool, ghost at: int)
    requires repo.Valid() && Unknown(repo.s, p) && codes != [] && entries == Entries(codes, rest, expiresAt)
    requires forall c :: c in codes ==> repo.owner(c.serial) == rest
    modifies repo`s, repo`run
    ensures repo.Valid() && old(repo.s.now) <= at <= repo.s.now
    ensures f.members && f.del.Heard? && f.write.Heard? ==> ok
    ensures ok ==> f.members && f.write.Heard? && ReplacedNow(repo.s, p, rest, codes, repo.owner)
    ensures ok ==> CodesStand(repo.s.store, rest, expiresAt, codes, EndsAt(repo.s.now, expiresAt - at))
  {
    repo.Interfere(p);
    at := repo.s.now;
    var ttl := expiresAt - repo.s.now;
    repo.Interfere(p);
    ok := ReplaceWith(repo, p, rest, expiresAt, codes, entries, ttl, f);
  }

  /** The call's pipeline is the last step; the restaurant's live codes are those of the
      request and what slipped past. */
  ghost predicate ReplacedNow(s: State, p: nat, rest: string, codes: seq<CodeEntry>, owner: string -> string) {
    && IsReplacing(s, p, Done) && s.replacements[p].writeAt == |s.log| - 1 && s.replacements[p].rest == rest
    && Serials(s.replacements[p].entries) == (set c | c in codes :: c.serial) && ExactBut(s, p, owner)
  }

  /** The end of CacheCodes, with the time that was left. */
  method ReplaceWith(repo: PairingRepo, p: nat, rest: string, expiresAt: int, codes: seq<CodeEntry>, entries: seq<Entry>, ttl: int,
                     f: ReplaceFates) returns (ok: bool)
    requires repo.Valid() && Unknown(repo.s, p) && codes != [] && entries == Entries(codes, rest, expiresAt)
    requires forall c :: c in codes ==> repo.owner(c.serial) == rest
    modifies repo`s, repo`run
    ensures repo.Valid() && old(repo.s.now) <= repo.s.now
    ensures f.members && f.del.Heard? && f.write.Heard? ==> ok
    ensures ok ==> f.members && f.write.Heard? && ReplacedNow(repo.s, p, rest, codes, repo.owner)
    ensures ok ==> CodesStand(repo.s.store, rest, expiresAt, codes, EndsAt(repo.s.now, ttl))
  {
    EntriesOwned(codes, rest, expiresAt, repo.owner);
    ghost var before;
    ok, before := repo.ReplaceRestaurantCodes(p, rest, entries, ttl, f);
    if ok { EntriesStand(repo.s.store, rest, expiresAt, codes, EndsAt(repo.s.now, ttl)); }
  }

  lemma EntriesStand(s: Store, rest: string, expiresAt: int, codes: seq<CodeEntry>, end: Expiry)
    requires codes != [] && Stands(s, rest, Entries(codes, rest, expiresAt), end)
    ensures CodesStand(s, rest, expiresAt, codes, end)
    ensures Serials(Entries(codes, rest, expiresAt)) == set c | c in codes :: c.serial
  {
    var es := Entries(codes, rest, expiresAt);
    EntrySerials(codes, rest, expiresAt);
    forall k: nat | IsLastCode(codes, k)
      ensures EntryStands(s, codes[k].serial, Hashed(codes[k].code), Meta(codes[k].deviceId, codes[k].deviceType, rest, expiresAt), end)
    {
      assert IsLastEntry(es, k) && es[k] == EntryOf(codes[k], rest, expiresAt);
    }
  }

  lemma EntrySerials(codes: seq<CodeEntry>, rest: string, expiresAt: int)
    ensures Serials(Entries(codes, rest, expiresAt)) == set c | c in codes :: c.serial
  {
    var es := Entries(codes, rest, expiresAt);
    forall c | c in codes ensures c.serial in Serials(es) {
      var k :| 0 <= k < |codes| && codes[k] == c;
      assert es[k] in es;
    }
    forall x | x in Serials(es) ensures x in set c | c in codes :: c.serial {
      var e :| e in es && e.serial == x;
      var k :| 0 <= k < |es| && es[k] == e;
      assert codes[k] in codes;
    }
  }

  lemma EntriesOwned(codes: seq<CodeEntry>, rest: string, expiresAt: int, owner: string -> string)
    requires forall c :: c in codes ==> owner(c.serial) == rest
    ensures OwnedEntries(Entries(codes, rest, expiresAt), rest, owner)
  {
  }

  /** The loop of CacheCodes. */
  method HashAll(codes: seq<CodeEntry>, rest: string, expiresAt: int) returns (entries: Option<seq<Entry>>)
    ensures entries.Some? <==> forall c :: c in codes ==> Filled(c)
    ensures entries.Some? ==> entries.value == Entries(codes, rest, expiresAt)
  {
    var all: seq<Entry> := [];
    for k := 0 to |codes|
      invariant all == Entries(codes[..k], rest, expiresAt)
      invariant forall j :: 0 <= j < k ==> Filled(codes[j])
    {
      var c := codes[k];
      if c.serial == "" || c.code == "" {
        assert c in codes && !Filled(c);
        return None;
      }
      all := all + [EntryOf(c, rest, expiresAt)];
      assert all == Entries(codes[..k + 1], rest, expiresAt);
    }
    assert codes[..|codes|] == codes;
    return Some(all);
  }

  /** CacheCode: refused without a change, or one SetCode, with what is left of the
      code's time when the clock is read again, at `at`. */
  method CacheCode(repo: PairingRepo, p: nat, rest: string, c: CodeEntry, expiresAt: int, reply: Reply)
    returns (ok: bool, ghost before: State, ghost at: int)
    requires repo.Valid() && repo.owner(c.serial) == rest
    modifies repo`s, repo`run
    ensures repo.Valid() && old(repo.s.now) <= at <= repo.s.now
    ensures c.serial == "" || c.code == "" || expiresAt <= old(repo.s.now) ==> !ok && repo.s == old(repo.s)
    ensures c.serial != "" && c.code != "" && old(repo.s.now) < expiresAt ==>
      && ok == (at < expiresAt && reply.Heard?)
      && (at < expiresAt && TookEffect(reply) ==>
            CodeStored(before.store, repo.s.store, repo.s.now, c.serial, Hashed(c.code), Meta(c.deviceId, c.deviceType, rest, expiresAt),
                       At(repo.s.now + (expiresAt - at))) &&
            repo.s == Apply(before, Pairing.SetCode(EntryOf(c, rest, expiresAt), expiresAt - at)))
  {
    before, at := repo.s, repo.s.now;
    if c.serial == "" || c.code == "" { return false, before, at; }
    if expiresAt <= repo.s.now { return false, before, at; }
    repo.Interfere(p);
    at := repo.s.now;
    ok, before := repo.SetCode(p, c.serial, Hashed(c.code), Meta(c.deviceId, c.deviceType, rest, expiresAt), reply);
  }

  method Revoke(repo: PairingRepo, p: nat, serial: string, f: DeleteFates) returns (ok: bool)
    requires repo.Valid() && Unknown(repo.s, p)
    modifies repo`s, repo`run
    ensures repo.Valid()
    ensures serial == "" ==> !ok && repo.s == old(repo.s)
    ensures serial != "" ==> ok == (f.get && f.del.Heard?) && (f.get && TookEffect(f.del) ==> DropsNow(repo.s, p, serial))
  {
    if serial == "" { return false; }
    ghost var srem: Option<State>;
    ok, srem := repo.DeleteCode(p, serial, f);
  }

  // ---------------------------------------------------------------------
  // device_auth_service.go Pair
  // ---------------------------------------------------------------------

  // A token names the device, its type, its serial and its restaurant.
  datatype PairResult = Paired(deviceId: string, deviceType: string, serial: string, rest: string) | Refused | Failed

  /** The call has looked the code up, and is over: the last step says whether its DEL
      took effect, and whether it issued a token. */
  predicate PairEnded(s: State, p: nat, serial: string, spent: bool, issued: bool) {
    && p in s.pairs && s.pairs[p] == PairCall(serial, true)
    && |s.log| > 0 && s.log[|s.log| - 1] == Ended(serial, spent, issued)
  }

  /** The rest of Pair, once the code matches: the delete and, if that worked, the
      token, unless it cannot be issued. */
  method Consume(repo: PairingRepo, p: nat, serial: string, f: DeleteFates, issues: bool) returns (ok: bool, issued: bool)
    requires repo.Valid() && Enabled(repo.s, GetMeta(p, serial)) && p in repo.s.pairs && p !in repo.s.deletions
    modifies repo`s, repo`run
    ensures repo.Valid() && ok == (f.get && f.del.Heard?) && issued == (ok && issues)
    ensures PairEnded(repo.s, p, serial, f.get && TookEffect(f.del), issued)
    ensures f.get && TookEffect(f.del) ==>
      HasDeleted(repo.s, p) && repo.s.deletions[p].serial == serial && serial !in repo.s.store.codes && serial !in repo.s.store.metas
  {
    ghost var srem: Option<State>;
    ok, srem := repo.DeleteCode(p, serial, f);
    issued := ok && issues;
    repo.Step(End(p, issued));
  }

  /** Pair. The first check that fails gives the answer. A token is issued only for the
      code that was live when it was looked up, for the device of its metadata, and only
      after this call's DEL; a wrong code changes nothing, and a right one is gone
      unless Redis failed. Every call that found the code is one of those that the
      pairing machine's log counts, and so is every token. */
  method Pair(repo: PairingRepo, p: nat, serial: string, code: string, get: bool, f: DeleteFates, issues: bool)
      returns (r: PairResult)
    requires repo.Valid() && Unknown(repo.s, p)
    modifies repo`s, repo`run
    ensures repo.Valid()
    ensures var s, now := old(repo.s.store), old(repo.s.now);
            r == if serial == "" || code == "" then Refused
                 else if !get then Failed
                 else if !Live(s.codes, serial, now) then Refused
                 else if !Live(s.metas, serial, now) then Failed
                 else if s.codes[serial].value != Hashed(code) then Refused
                 else if !f.get || !f.del.Heard? || !issues then Failed
                 else
                   var m := s.metas[serial].value;
                   Paired(m.deviceId, m.deviceType, serial, m.rest)
    ensures var s, now := old(repo.s.store), old(repo.s.now);
            var right := serial != "" && code != "" && get && Live(s.codes, serial, now) && Live(s.metas, serial, now)
                         && s.codes[serial].value == Hashed(code);
            && (!right ==> repo.s == old(repo.s))
            && (right ==> PairEnded(repo.s, p, serial, f.get && TookEffect(f.del), r.Paired?))
            && (right && f.get && TookEffect(f.del) ==>
                  && HasDeleted(repo.s, p) && repo.s.deletions[p].serial == serial
                  && serial !in repo.s.store.codes && serial !in repo.s.store.metas)
  {
    if serial == "" || code == "" { return Refused; }
    var found, failed := repo.GetCode(serial, get);
    if failed { return Failed; }
    if found.Broken? { return Failed; }
    if found.Missing? { return Refused; }
    if found.hash != Hashed(code) { return Refused; }
    repo.Step(LookUp(p, serial));
    repo.Interfere(p);
    var ok, issued := Consume(repo, p, serial, f, issues);
    if !ok || !issued { return Failed; }
    return Paired(found.meta.deviceId, found.meta.deviceType, serial, found.meta.rest);
  }
}
