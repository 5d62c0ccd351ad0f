/** Rotating refresh tokens: any number of sign-ins, refreshes and logouts, one
    Redis command per step. Tokens are fresh and their hashes do not collide, so a
    token stands for its hash. */
module Refresh {
  import opened Options
  import opened Ids
  import opened Replies

  // What can still lead to a session: a stored token, or a call that is about to
  // store one (a Refresh past its GETDEL, or a sign-in past its code check).
  datatype Holder = Token(t: nat) | Call(c: nat)

  // A holder's sign-in and member.
  datatype Session = Session(signIn: nat, member: string)

  // `taken` are the tokens exchanged so far, in order.
  datatype State = State(
    held: map<Holder, Session>, issued: set<nat>, taken: seq<nat>, calls: set<nat>, members: seq<string>)

  const INIT := State(map[], {}, [], {}, [])

  datatype Step =
    | SignIn(c: nat, member: string)
    | Take(c: nat, t: nat)
    | Save(c: nat, t: nat, heard: bool)   // heard: the caller gets the token
    | Abort(c: nat)
    | Logout(t: nat)
    | Expire(t: nat)

  predicate Enabled(s: State, a: Step) {
    match a
    case SignIn(c, _) => c !in s.calls
    case Take(c, t) => c !in s.calls && Token(t) in s.held
    case Save(c, t, _) => Call(c) in s.held && t !in s.issued
    case Abort(c) => Call(c) in s.held
    case Logout(t) => true
    case Expire(t) => Token(t) in s.held
  }

  function Apply(s: State, a: Step): State
    requires Enabled(s, a)
  {
    match a
    case SignIn(c, member) =>
      s.(held := s.held[Call(c) := Session(|s.members|, member)], calls := s.calls + {c}, members := s.members + [member])
    case Take(c, t) =>
      s.(held := (s.held - {Token(t)})[Call(c) := s.held[Token(t)]], taken := s.taken + [t], calls := s.calls + {c})
    case Save(c, t, _) => s.(held := (s.held - {Call(c)})[Token(t) := s.held[Call(c)]], issued := s.issued + {t})
    case Abort(c) => s.(held := s.held - {Call(c)})
    case Logout(t) => s.(held := s.held - {Token(t)})
    case Expire(t) => s.(held := s.held - {Token(t)})
  }

  predicate Legal(s: State, run: seq<Step>)
    decreases |run|
  {
    run == [] || (Enabled(s, run[0]) && Legal(Apply(s, run[0]), run[1..]))
  }

  function Exec(s: State, run: seq<Step>): State
    requires Legal(s, run)
    decreases |run|
  {
    if run == [] then s else Exec(Apply(s, run[0]), run[1..])
  }

  // ---------------------------------------------------------------------
  // What every step keeps
  // ---------------------------------------------------------------------

  predicate HolderInv(s: State, h: Holder)
    requires h in s.held
  {
    && (match h case Token(t) => t in s.issued && t !in s.taken case Call(c) => c in s.calls)
    && s.held[h].signIn < |s.members| && s.members[s.held[h].signIn] == s.held[h].member
  }

  predicate OneHolderEach(s: State) {
    forall h, k :: h in s.held && k in s.held && s.held[h].signIn == s.held[k].signIn ==> h == k
  }

  predicate Distinct(xs: seq<nat>) {
    forall i, j :: 0 <= i < j < |xs| ==> xs[i] != xs[j]
  }

  predicate Inv(s: State) {
    && (forall h :: h in s.held ==> HolderInv(s, h))
    && OneHolderEach(s)
    && Distinct(s.taken) && forall t :: t in s.taken ==> t in s.issued
  }

  lemma InvStep(s: State, a: Step)
    requires Inv(s) && Enabled(s, a)
    ensures Inv(Apply(s, a))
  {
    var s' := Apply(s, a);
    forall h | h in s'.held ensures HolderInv(s', h) {
      if h in s.held { assert HolderInv(s, h); }
      if a.Save? { assert HolderInv(s, Call(a.c)); }
      if a.Take? { assert HolderInv(s, Token(a.t)); }
    }
    if a.SignIn? {
      forall h | h in s.held ensures s.held[h].signIn < |s.members| { assert HolderInv(s, h); }
    }
    if a.Take? { assert HolderInv(s, Token(a.t)); }
  }

  lemma {:induction false} InvRun(s: State, run: seq<Step>)
    requires Inv(s) && Legal(s, run)
    ensures Inv(Exec(s, run))
    decreases |run|
  {
    if run != [] {
      InvStep(s, run[0]);
      InvRun(Apply(s, run[0]), run[1..]);
    }
  }

  // ---------------------------------------------------------------------
  // Theorems
  // ---------------------------------------------------------------------

  /** In every run each token is exchanged at most once. */
  lemma ExchangedOnce(run: seq<Step>)
    requires Legal(INIT, run)
    ensures Distinct(Exec(INIT, run).taken)
  {
    InvRun(INIT, run);
  }

  function HoldersOf(s: State, signIn: nat): set<Holder> {
    set h | h in s.held && s.held[h].signIn == signIn
  }

  /** In every run the live tokens that descend from one sign-in, plus its calls
      in flight, are at most one, and all belong to the member who signed in. */
  lemma OneDescendant(run: seq<Step>, signIn: nat)
    requires Legal(INIT, run)
    ensures var s := Exec(INIT, run);
            && |HoldersOf(s, signIn)| <= 1
            && forall h :: h in HoldersOf(s, signIn) ==> signIn < |s.members| && s.held[h].member == s.members[signIn]
  {
    InvRun(INIT, run);
    var s := Exec(INIT, run);
    var hs := HoldersOf(s, signIn);
    if h :| h in hs {
      assert HolderInv(s, h);
      assert hs == {h};
    }
  }

  predicate Ended(s: State, signIn: nat) {
    signIn < |s.members| && forall h :: h in s.held ==> s.held[h].signIn != signIn
  }

  lemma {:induction false} EndedStays(s: State, run: seq<Step>, signIn: nat)
    requires Legal(s, run) && Ended(s, signIn)
    ensures Ended(Exec(s, run), signIn)
    decreases |run|
  {
    if run != [] { EndedStays(Apply(s, run[0]), run[1..], signIn); }
  }

  /** Logging out with the sign-in's current token ends it: whatever runs later, no
      token or call of that sign-in exists again. */
  lemma LogoutEnds(before: seq<Step>, t: nat, after: seq<Step>)
    requires Legal(INIT, before) && Token(t) in Exec(INIT, before).held
    requires Legal(Apply(Exec(INIT, before), Logout(t)), after)
    ensures var s := Exec(INIT, before); HoldersOf(Exec(Apply(s, Logout(t)), after), s.held[Token(t)].signIn) == {}
  {
    InvRun(INIT, before);
    var s := Exec(INIT, before);
    assert HolderInv(s, Token(t));
    EndedStays(Apply(s, Logout(t)), after, s.held[Token(t)].signIn);
  }

  /** A token that is gone stays gone. */
  lemma {:induction false} GoneStays(s: State, run: seq<Step>, t: nat)
    requires Legal(s, run) && t in s.issued && Token(t) !in s.held
    ensures t in Exec(s, run).issued && Token(t) !in Exec(s, run).held
    decreases |run|
  {
    if run != [] { GoneStays(Apply(s, run[0]), run[1..], t); }
  }

  // ---------------------------------------------------------------------
  // The code
  // ---------------------------------------------------------------------

  predicate Foreign(run: seq<Step>, c: nat) {
    forall a :: a in run && (a.SignIn? || a.Take? || a.Save? || a.Abort?) ==> a.c != c
  }

  lemma {:induction false} ForeignRun(s: State, run: seq<Step>, c: nat)
    requires Legal(s, run) && Foreign(run, c)
    ensures var s' := Exec(s, run);
            && (Call(c) in s'.held <==> Call(c) in s.held) && (Call(c) in s.held ==> s'.held[Call(c)] == s.held[Call(c)])
            && (c in s'.calls <==> c in s.calls) && s.issued <= s'.issued && s.taken <= s'.taken
    decreases |run|
  {
    if run != [] {
      assert run[0] in run;
      ForeignRun(Apply(s, run[0]), run[1..], c);
    }
  }

  /** Redis and all calls in flight, on every replica. */
  class Sessions {
    var s: State

    ghost predicate Valid() reads this { Inv(s) }

    constructor ()
      ensures Valid() && s == INIT
    {
      s := INIT;
    }

    method Do(a: Step)
      requires Valid() && Enabled(s, a)
      modifies this
      ensures Valid() && s == Apply(old(s), a)
    {
      InvStep(s, a);
      s := Apply(s, a);
    }

    /** Anything the others may do between two commands of call `c`. */
    method Interfere(c: nat) returns (ghost run: seq<Step>)
      requires Valid()
      modifies this
      ensures Valid() && Legal(old(s), run) && s == Exec(old(s), run)
      ensures (Call(c) in s.held <==> Call(c) in old(s).held) && (Call(c) in s.held ==> s.held[Call(c)] == old(s).held[Call(c)])
      ensures (c in s.calls <==> c in old(s).calls) && old(s).issued <= s.issued && old(s).taken <= s.taken
    {
      assert Legal(s, []) && Foreign([], c);
      var more: seq<Step> :| Legal(s, more) && Foreign(more, c);
      InvRun(s, more);
      ForeignRun(s, more, c);
      run := more;
      s := Exec(s, more);
    }
  }

  /** newSession: a new token of the call's sign-in, heard of or not, or none. */
  method NewSession(x: Sessions, c: nat, save: Reply) returns (token: Option<nat>, ghost stored: Option<nat>)
    requires x.Valid() && Call(c) in x.s.held
    modifies x
    ensures x.Valid() && old(x.s.issued) <= x.s.issued && old(x.s.taken) <= x.s.taken
    ensures forall t :: t in old(x.s.issued) && Token(t) !in old(x.s.held) ==> Token(t) !in x.s.held
    ensures Call(c) !in x.s.held && token == (if save.Heard? then stored else None) && (stored.Some? <==> TookEffect(save))
    ensures stored.Some? ==>
      stored.value !in old(x.s.issued) && Token(stored.value) in x.s.held && x.s.held[Token(stored.value)] == old(x.s.held[Call(c)])
  {
    var run := x.Interfere(c);
    forall t | t in old(x.s.issued) && Token(t) !in old(x.s.held) ensures Token(t) !in x.s.held {
      GoneStays(old(x.s), run, t);
    }
    if !TookEffect(save) {
      x.Do(Abort(c));
      return None, None;
    }
    FreshExists(x.s.issued);
    var t: nat :| t !in x.s.issued;
    x.Do(Save(c, t, save.Heard?));
    return if save.Heard? then Some(t) else None, Some(t);
  }

  // What a refresh answers; a failed backend call is an internal error.
  datatype Answer = NotSignedIn | SessionExpired | InternalError | NewToken(t: nat)

  // How the GETDEL, the member lookup and the SET of a refresh fare.
  datatype Fates = Fates(take: Reply, member: bool, save: Reply)

  /** Refresh. The first thing that fails gives the answer. Once the GETDEL has taken
      effect the presented token is of no use, and a new one is of the same sign-in and
      member; until then nothing has changed. */
  method RefreshToken(x: Sessions, c: nat, presented: Option<nat>, f: Fates) returns (r: Answer)
    requires x.Valid() && c !in x.s.calls
    modifies x
    ensures x.Valid() && old(x.s.taken) <= x.s.taken && Call(c) !in x.s.held
    ensures presented.Some? && TookEffect(f.take) ==> Token(presented.value) !in x.s.held
    ensures presented.None? || !TookEffect(f.take) || Token(presented.value) !in old(x.s.held) ==> x.s == old(x.s)
    ensures presented.Some? && TookEffect(f.take) && Token(presented.value) in old(x.s.held) ==> presented.value in x.s.taken
    ensures if presented.None? then r == NotSignedIn
            else if f.take.Unheard? then r == InternalError
            else if Token(presented.value) !in old(x.s.held) then r == SessionExpired
            else if !f.member || f.save.Unheard? then r == InternalError
            else r.NewToken?
    ensures r.NewToken? ==>
      r.t !in old(x.s.issued) && Token(r.t) in x.s.held && x.s.held[Token(r.t)] == old(x.s.held)[Token(presented.value)]
  {
    assert Call(c) in x.s.held ==> HolderInv(x.s, Call(c));
    if presented.None? { return NotSignedIn; }
    var t := presented.value;
    if !TookEffect(f.take) { return InternalError; }
    if Token(t) !in x.s.held { return if f.take.Heard? then SessionExpired else InternalError; }
    assert HolderInv(x.s, Token(t));
    x.Do(Take(c, t));
    ghost var s1 := x.s;
    assert t in x.s.taken;
    var run := x.Interfere(c);
    GoneStays(s1, run, t);
    if f.take.Unheard? || !f.member {
      x.Do(Abort(c));
      return InternalError;
    }
    var token, _ := NewSession(x, c, f.save);
    return if token.Some? then NewToken(token.value) else InternalError;
  }

  /** Logout. If the DEL takes effect the token is gone and its sign-in has ended, and
      else nothing has changed; it answers without an error if it heard of it. */
  method LogoutToken(x: Sessions, presented: Option<nat>, del: Reply) returns (ok: bool)
    requires x.Valid()
    modifies x
    ensures x.Valid() && ok == (presented.None? || del.Heard?)
    ensures presented.None? || !TookEffect(del) ==> x.s == old(x.s)
    ensures presented.Some? && TookEffect(del) ==>
      && x.s.held == old(x.s.held) - {Token(presented.value)} && x.s.issued == old(x.s.issued)
      && (Token(presented.value) in old(x.s.held) ==> Ended(x.s, old(x.s.held)[Token(presented.value)].signIn))
  {
    if presented.None? { return true; }
    var t := presented.value;
    if !TookEffect(del) { return false; }
    if Token(t) in x.s.held { assert HolderInv(x.s, Token(t)); }
    x.Do(Logout(t));
    return del.Heard?;
  }
}
