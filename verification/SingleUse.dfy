/** How often one serial's pairing codes can be used, among all the other calls: what
    the log of the pairing machine says of the lookups, deletes and tokens of Pair. */
module SingleUse {
  import opened PairingStore
  import opened Pairing

  function Count(log: seq<Event>, f: Event -> bool): nat {
    if log == [] then 0 else Count(log[..|log| - 1], f) + if f(log[|log| - 1]) then 1 else 0
  }

  function Stores(x: string): Event -> bool { (e: Event) => e.Stored? && x in e.serials }

  /** Lookups that succeeded while another Pair was holding the code. */
  function Overlaps(x: string): Event -> bool { (e: Event) => e.LookedUp? && e.serial == x && e.overlaps }

  /** Calls that ended after their DEL, with a token or without. */
  function Spends(x: string): Event -> bool { (e: Event) => e.Ended? && e.serial == x && e.spent }

  function Tokens(x: string): Event -> bool { (e: Event) => e.Ended? && e.serial == x && e.issued }

  lemma CountOneMore(log: seq<Event>, e: Event, f: Event -> bool)
    ensures Count(log + [e], f) == Count(log, f) + if f(e) then 1 else 0
  {
    assert (log + [e])[..|log|] == log;
  }

  /** Pair calls that have deleted the serial's code and not ended. */
  function Consuming(s: State, x: string): set<nat> {
    set p | p in s.pairs && s.pairs[p].serial == x && !s.pairs[p].ended && HasDeleted(s, p)
  }

  /** What the stored code is still good for without an overlap. */
  function Unused(s: State, x: string): nat {
    if x in s.store.codes && Holding(s, x) == {} then 1 else 0
  }

  /** Calls that hold the serial's code or have deleted it, and what the code is still
      good for. */
  function Claims(s: State, x: string): nat {
    |Consuming(s, x)| + |Holding(s, x)| + Unused(s, x)
  }

  // ---------------------------------------------------------------------
  // The invariant
  // ---------------------------------------------------------------------

  /** A Pair deletes the serial it looked up. */
  predicate Agree(s: State) {
    forall p :: p in s.pairs && p in s.deletions ==> s.deletions[p].serial == s.pairs[p].serial
  }

  ghost predicate Inv(s: State, x: string) {
    && Agree(s) && Count(s.log, Tokens(x)) <= Count(s.log, Spends(x))
    && Count(s.log, Spends(x)) + Claims(s, x) <= Count(s.log, Stores(x)) + Count(s.log, Overlaps(x))
  }

  lemma HoldingStep(s: State, a: Step, x: string, p: nat)
    requires Agree(s) && Enabled(s, a)
    ensures p in Holding(Apply(s, a), x) <==>
            (a.LookUp? && a.p == p && a.serial == x) || (p in Holding(s, x) && !((a.Delete? || a.End?) && a.p == p))
  {
  }

  lemma ConsumingStep(s: State, a: Step, x: string, p: nat)
    requires Agree(s) && Enabled(s, a)
    ensures p in Consuming(Apply(s, a), x) <==>
            (a.Delete? && a.p == p && p in Holding(s, x)) || (p in Consuming(s, x) && !(a.End? && a.p == p))
  {
  }

  lemma AgreeStep(s: State, a: Step)
    requires Agree(s) && Enabled(s, a)
    ensures Agree(Apply(s, a))
  {
  }

  lemma HoldingAfter(s: State, a: Step, x: string)
    requires Agree(s) && Enabled(s, a)
    ensures var mine := if (a.Delete? || a.End?) && a.p in Holding(s, x) then {a.p} else {};
            Holding(Apply(s, a), x) == Holding(s, x) - mine + if a.LookUp? && a.serial == x then {a.p} else {}
  {
    forall p ensures p in Holding(Apply(s, a), x) <==>
                     (a.LookUp? && a.p == p && a.serial == x) || (p in Holding(s, x) && !((a.Delete? || a.End?) && a.p == p))
    {
      HoldingStep(s, a, x, p);
    }
  }

  lemma ConsumingAfter(s: State, a: Step, x: string)
    requires Agree(s) && Enabled(s, a)
    ensures Consuming(Apply(s, a), x) ==
            Consuming(s, x) - (if a.End? then {a.p} else {}) + if a.Delete? && a.p in Holding(s, x) then {a.p} else {}
  {
    forall p ensures p in Consuming(Apply(s, a), x) <==>
                     (a.Delete? && a.p == p && p in Holding(s, x)) || (p in Consuming(s, x) && !(a.End? && a.p == p))
    {
      ConsumingStep(s, a, x, p);
    }
  }

  lemma LookUpClaims(s: State, a: Step, x: string)
    requires Agree(s) && Enabled(s, a) && a.LookUp?
    ensures Claims(Apply(s, a), x) <= Claims(s, x) + if Overlaps(x)(EventOf(s, a)) then 1 else 0
  {
    HoldingAfter(s, a, x);
    ConsumingAfter(s, a, x);
    assert a.p !in Holding(s, x);
  }

  lemma Without(c: set<nat>, p: nat)
    ensures |c - {p}| == |c| - if p in c then 1 else 0
  {
    if p !in c { assert c - {p} == c; }
  }

  lemma HolderDeletes(s: State, a: Step, x: string)
    requires Agree(s) && Enabled(s, a) && a.Delete? && a.p in Holding(s, x)
    ensures Claims(Apply(s, a), x) <= Claims(s, x)
  {
    var s' := Apply(s, a);
    assert Holding(s', x) == Holding(s, x) - {a.p} by { HoldingAfter(s, a, x); }
    assert Consuming(s', x) == Consuming(s, x) + {a.p} by { ConsumingAfter(s, a, x); }
    Without(Holding(s, x), a.p);
    assert |Consuming(s', x)| <= |Consuming(s, x)| + 1;
    assert Unused(s', x) == 0;
  }

  lemma OtherDeletes(s: State, a: Step, x: string)
    requires Agree(s) && Enabled(s, a) && a.Delete? && a.p !in Holding(s, x)
    ensures Claims(Apply(s, a), x) <= Claims(s, x)
  {
    var s' := Apply(s, a);
    assert Holding(s', x) == Holding(s, x) by { HoldingAfter(s, a, x); }
    assert Consuming(s', x) == Consuming(s, x) by { ConsumingAfter(s, a, x); }
    assert Unused(s', x) <= Unused(s, x);
  }

  lemma EndSpends(s: State, a: Step, x: string)
    requires Enabled(s, a) && a.End?
    ensures Spends(x)(EventOf(s, a)) <==> a.p in Consuming(s, x)
    ensures Apply(s, a).store == s.store
  {
  }

  lemma EndClaims(s: State, a: Step, x: string)
    requires Agree(s) && Enabled(s, a) && a.End?
    ensures Claims(Apply(s, a), x) + (if Spends(x)(EventOf(s, a)) then 1 else 0) <= Claims(s, x)
  {
    var s' := Apply(s, a);
    assert Holding(s', x) == Holding(s, x) - {a.p} by { HoldingAfter(s, a, x); }
    assert Consuming(s', x) == Consuming(s, x) - {a.p} by { ConsumingAfter(s, a, x); }
    EndSpends(s, a, x);
    Fewer(s, s', a.p, x);
  }

  /** A call that goes leaves at most its hold to the code. */
  lemma Fewer(s: State, s': State, p: nat, x: string)
    requires Holding(s', x) == Holding(s, x) - {p} && Consuming(s', x) == Consuming(s, x) - {p} && s'.store == s.store
    ensures Claims(s', x) + (if p in Consuming(s, x) then 1 else 0) <= Claims(s, x)
  {
    Without(Holding(s, x), p);
    Without(Consuming(s, x), p);
    if p !in Holding(s, x) { assert Holding(s', x) == Holding(s, x); }
  }

  lemma OtherClaims(s: State, a: Step, x: string)
    requires Agree(s) && Enabled(s, a) && !a.LookUp? && !a.Delete? && !a.End?
    ensures Claims(Apply(s, a), x) <= Claims(s, x) + if Stores(x)(EventOf(s, a)) then 1 else 0
  {
    HoldingAfter(s, a, x);
    ConsumingAfter(s, a, x);
  }

  lemma CountsStep(s: State, a: Step, x: string)
    requires Enabled(s, a)
    ensures var log, e := Apply(s, a).log, EventOf(s, a);
            && Count(log, Stores(x)) == Count(s.log, Stores(x)) + (if Stores(x)(e) then 1 else 0)
            && Count(log, Overlaps(x)) == Count(s.log, Overlaps(x)) + (if Overlaps(x)(e) then 1 else 0)
            && Count(log, Spends(x)) == Count(s.log, Spends(x)) + (if Spends(x)(e) then 1 else 0)
            && Count(log, Tokens(x)) == Count(s.log, Tokens(x)) + (if Tokens(x)(e) then 1 else 0)
  {
    var e := EventOf(s, a);
    CountOneMore(s.log, e, Stores(x));
    CountOneMore(s.log, e, Overlaps(x));
    CountOneMore(s.log, e, Spends(x));
    CountOneMore(s.log, e, Tokens(x));
  }

  lemma InvStep(s: State, a: Step, x: string)
    requires Inv(s, x) && Enabled(s, a)
    ensures Inv(Apply(s, a), x)
  {
    AgreeStep(s, a);
    CountsStep(s, a, x);
    if a.LookUp? {
      LookUpClaims(s, a, x);
    } else if a.Delete? {
      if a.p in Holding(s, x) { HolderDeletes(s, a, x); } else { OtherDeletes(s, a, x); }
    } else if a.End? {
      EndClaims(s, a, x);
    } else {
      OtherClaims(s, a, x);
    }
  }

  lemma {:induction false} InvRun(s: State, run: seq<Step>, x: string)
    requires Inv(s, x) && Legal(s, run)
    ensures Inv(Exec(s, run), x)
    decreases |run|
  {
    if run != [] {
      InvStep(s, run[0], x);
      InvRun(Apply(s, run[0]), run[1..], x);
    }
  }

  lemma StartInv(now: int, x: string)
    ensures Inv(Start(now), x)
  {
    assert Holding(Start(now), x) == {} && Consuming(Start(now), x) == {};
  }

  /** In every run of any calls: the tokens issued for a serial, its failed issues and
      the calls about to issue exceed the codes stored for it by at most the lookups
      that overlapped another. */
  lemma TokensPerCode(now: int, run: seq<Step>, x: string)
    requires Legal(Start(now), run)
    ensures var s := Exec(Start(now), run);
            && Count(s.log, Tokens(x)) <= Count(s.log, Spends(x))
            && Count(s.log, Spends(x)) + |Consuming(s, x)| <= Count(s.log, Stores(x)) + Count(s.log, Overlaps(x))
  {
    StartInv(now, x);
    InvRun(Start(now), run, x);
  }

  // ---------------------------------------------------------------------
  // One at a time
  // ---------------------------------------------------------------------

  predicate Alone(s: State, a: Step, x: string) {
    a.LookUp? && a.serial == x ==> Holding(s, x) == {} && Consuming(s, x) == {}
  }

  /** Pair calls for the serial run one at a time; all other calls may overlap. */
  predicate OneAtATime(s: State, run: seq<Step>, x: string)
    requires Legal(s, run)
    decreases |run|
  {
    run == [] || (Alone(s, run[0], x) && OneAtATime(Apply(s, run[0]), run[1..], x))
  }

  lemma {:induction false} NoOverlaps(s: State, run: seq<Step>, x: string)
    requires Legal(s, run) && OneAtATime(s, run, x)
    ensures Count(Exec(s, run).log, Overlaps(x)) == Count(s.log, Overlaps(x))
    decreases |run|
  {
    if run != [] {
      CountOneMore(s.log, EventOf(s, run[0]), Overlaps(x));
      NoOverlaps(Apply(s, run[0]), run[1..], x);
    }
  }

  /** One at a time, codes are single-use, and one spent on a failed issue is gone too. */
  lemma SingleUse(now: int, run: seq<Step>, x: string)
    requires Legal(Start(now), run) && OneAtATime(Start(now), run, x)
    ensures var s := Exec(Start(now), run);
            Count(s.log, Tokens(x)) <= Count(s.log, Spends(x)) <= Count(s.log, Stores(x))
  {
    TokensPerCode(now, run, x);
    NoOverlaps(Start(now), run, x);
  }

  // ---------------------------------------------------------------------
  // The bound is reached
  // ---------------------------------------------------------------------

  predicate Ready(s: State, p: nat, x: string) {
    p in s.pairs && s.pairs[p] == PairCall(x, false) && p !in s.deletions && p !in s.replacements
  }

  lemma TokenCounted(s: State, s': State, a: Step, x: string)
    requires Enabled(s, a) && s' == Apply(s, a) && !a.SetCode? && !a.WriteBatch?
    requires a.End? ==> a.p in s.pairs && s.pairs[a.p].serial == x && a.issued
    ensures Count(s'.log, Tokens(x)) == Count(s.log, Tokens(x)) + if a.End? then 1 else 0
    ensures Count(s'.log, Stores(x)) == Count(s.log, Stores(x))
  {
    CountOneMore(s.log, EventOf(s, a), Stores(x));
    CountOneMore(s.log, EventOf(s, a), Tokens(x));
  }

  /** A call that has found the code gets its token if nothing fails, whatever has
      become of the code. */
  lemma GetsToken(s: State, p: nat, x: string) returns (run: seq<Step>)
    requires Ready(s, p, x)
    ensures Legal(s, run)
    ensures var s' := Exec(s, run);
            && Count(s'.log, Tokens(x)) == Count(s.log, Tokens(x)) + 1 && Count(s'.log, Stores(x)) == Count(s.log, Stores(x))
            && forall q :: q != p && Ready(s, q, x) ==> Ready(s', q, x)
  {
    var s1 := Apply(s, GetMeta(p, x));
    TokenCounted(s, s1, GetMeta(p, x), x);
    if s1.deletions[p].from.Some? {
      var s2 := Apply(s1, Unlist(p));
      TokenCounted(s1, s2, Unlist(p), x);
      var rest := DeletesAndEnds(s2, p, x);
      Then(s1, Unlist(p), rest);
      Then(s, GetMeta(p, x), [Unlist(p)] + rest);
      run := [GetMeta(p, x)] + ([Unlist(p)] + rest);
    } else {
      var rest := DeletesAndEnds(s1, p, x);
      Then(s, GetMeta(p, x), rest);
      run := [GetMeta(p, x)] + rest;
    }
  }

  lemma DeletesAndEnds(s: State, p: nat, x: string) returns (run: seq<Step>)
    requires Enabled(s, Delete(p)) && p in s.pairs && s.pairs[p] == PairCall(x, false)
    ensures Legal(s, run)
    ensures var s' := Exec(s, run);
            && Count(s'.log, Tokens(x)) == Count(s.log, Tokens(x)) + 1 && Count(s'.log, Stores(x)) == Count(s.log, Stores(x))
            && forall q :: q != p && Ready(s, q, x) ==> Ready(s', q, x)
  {
    var s1 := Apply(s, Delete(p));
    var s2 := Apply(s1, End(p, true));
    Then(s1, End(p, true), []);
    Then(s, Delete(p), [End(p, true)] + []);
    run := [Delete(p)] + ([End(p, true)] + []);
    TokenCounted(s, s1, Delete(p), x);
    TokenCounted(s1, s2, End(p, true), x);
  }

  lemma {:induction false} AllGetTokens(s: State, n: nat, x: string) returns (run: seq<Step>)
    requires forall p :: 0 <= p < n ==> Ready(s, p, x)
    ensures Legal(s, run)
    ensures var s' := Exec(s, run);
            Count(s'.log, Tokens(x)) == Count(s.log, Tokens(x)) + n && Count(s'.log, Stores(x)) == Count(s.log, Stores(x))
    decreases n
  {
    if n == 0 {
      run := [];
    } else {
      var first := GetsToken(s, n - 1, x);
      var rest := AllGetTokens(Exec(s, first), n - 1, x);
      RunSplits(s, first, rest);
      run := first + rest;
    }
  }

  /** The first `n` calls have found the code, and that is all that has happened. */
  ghost predicate FoundBy(s: State, n: nat, x: string) {
    && Live(s.store.codes, x, s.now) && s.deletions == map[] && s.replacements == map[]
    && (forall p :: 0 <= p < n ==> Ready(s, p, x)) && (forall p :: n <= p ==> p !in s.pairs)
  }

  lemma OneMoreFinds(s: State, n: nat, x: string) returns (run: seq<Step>)
    requires FoundBy(s, n, x)
    ensures Legal(s, run) && FoundBy(Exec(s, run), n + 1, x)
    ensures var s' := Exec(s, run);
            Count(s'.log, Tokens(x)) == Count(s.log, Tokens(x)) && Count(s'.log, Stores(x)) == Count(s.log, Stores(x))
  {
    var s' := Apply(s, LookUp(n, x));
    forall p: nat | p < n + 1 ensures Ready(s', p, x) {
      if p < n { assert Ready(s, p, x); }
    }
    TokenCounted(s, s', LookUp(n, x), x);
    Then(s, LookUp(n, x), []);
    run := [LookUp(n, x)] + [];
  }

  lemma {:induction false} AllLookUp(s: State, n: nat, x: string) returns (run: seq<Step>)
    requires FoundBy(s, 0, x)
    ensures Legal(s, run) && FoundBy(Exec(s, run), n, x)
    ensures var s' := Exec(s, run);
            Count(s'.log, Tokens(x)) == Count(s.log, Tokens(x)) && Count(s'.log, Stores(x)) == Count(s.log, Stores(x))
  {
    if n == 0 {
      run := [];
    } else {
      var most := AllLookUp(s, n - 1, x);
      var last := OneMoreFinds(Exec(s, most), n - 1, x);
      RunSplits(s, most, last);
      run := most + last;
    }
  }

  /** Any number of calls that all look a code up before any of them deletes it can all
      get tokens for it. */
  lemma OverlapsGetTokens(e: Entry, ttl: int, n: nat) returns (run: seq<Step>)
    requires 0 < ttl
    ensures Legal(Start(0), run)
    ensures var s := Exec(Start(0), run); Count(s.log, Stores(e.serial)) == 1 && Count(s.log, Tokens(e.serial)) == n
  {
    var s1 := Apply(Start(0), SetCode(e, ttl));
    CountOneMore([], EventOf(Start(0), SetCode(e, ttl)), Stores(e.serial));
    CountOneMore([], EventOf(Start(0), SetCode(e, ttl)), Tokens(e.serial));
    var lookUps := AllLookUp(s1, n, e.serial);
    var tokens := AllGetTokens(Exec(s1, lookUps), n, e.serial);
    RunSplits(s1, lookUps, tokens);
    Then(Start(0), SetCode(e, ttl), lookUps + tokens);
    run := [SetCode(e, ttl)] + (lookUps + tokens);
  }
}
