/** The fixed-window throttle: INCR, EXPIRE NX and TTL in one transaction. */
module Throttle {
  import opened Options
  import opened Units

  type Positive = n: nat | 0 < n witness 1

  // A counter key with its expiry; one whose time is up counts as absent.
  datatype Window = Window(count: Positive, expiresAt: int)

  /** How often the key has been used in the window that is open, if one is. */
  function Uses(w: Option<Window>, now: int): nat {
    if w.Some? && now < w.value.expiresAt then w.value.count else 0
  }

  /** The key after one more use. */
  function Hit(w: Option<Window>, now: int, window: nat): Window {
    if w.Some? && now < w.value.expiresAt then Window(w.value.count + 1, w.value.expiresAt) else Window(1, now + window)
  }

  // ---------------------------------------------------------------------
  // Any sequence of calls
  // ---------------------------------------------------------------------

  predicate Sorted(times: seq<int>) {
    forall i, j :: 0 <= i < j < |times| ==> times[i] <= times[j]
  }

  /** The key after a sequence of calls. */
  function After(times: seq<int>, window: nat): Option<Window> {
    if times == [] then None else Some(Hit(After(times[..|times| - 1], window), times[|times| - 1], window))
  }

  /** How many of the calls within [from, to) were admitted. */
  function AdmittedIn(times: seq<int>, limit: nat, window: nat, from: int, to: int): nat {
    if times == [] then 0
    else
      var n := |times| - 1;
      AdmittedIn(times[..n], limit, window, from, to) +
      if from <= times[n] < to && After(times, window).value.count <= limit then 1 else 0
  }

  /** How many admitted calls were counted in the window that started at `start`. */
  function AdmittedBy(times: seq<int>, limit: nat, window: nat, start: int): nat {
    if times == [] then 0
    else
      var n := |times| - 1;
      var w := After(times, window).value;
      AdmittedBy(times[..n], limit, window, start) + if w.expiresAt == start + window && w.count <= limit then 1 else 0
  }

  /** What is known of a key last used at `last`, when `c` uses within
      [from, from + window) have been admitted: a window that began earlier has let
      in one fewer than it counts, and only one can begin inside. */
  predicate Bounded(w: Option<Window>, last: int, c: nat, limit: nat, window: nat, from: int) {
    && (c == 0 || c <= 2 * limit - 1)
    && (last < from ==> c == 0)
    && match w
       case None => c == 0
       case Some(Window(count, expiresAt)) =>
         var start := expiresAt - window;
         && 1 <= count && start <= last
         && (start < from ==> c == 0 || c <= Min(count, limit) - 1)
         && (from <= start < from + window ==> c <= limit - 1 + Min(count, limit))
  }

  lemma HitBounded(w: Option<Window>, last: int, c: nat, limit: nat, window: nat, from: int, now: int)
    requires 1 <= limit && Bounded(w, last, c, limit, window, from) && last <= now
    ensures var w' := Hit(w, now, window);
            && Bounded(Some(w'), now, c, limit, window, from)
            && (from <= now < from + window && w'.count <= limit ==> Bounded(Some(w'), now, c + 1, limit, window, from))
  {
  }

  lemma LaterBounded(w: Option<Window>, last: int, later: int, c: nat, limit: nat, window: nat, from: int)
    requires Bounded(w, last, c, limit, window, from) && last <= later
    ensures Bounded(w, later, c, limit, window, from)
  {
  }

  lemma {:induction false} CallsBounded(times: seq<int>, limit: nat, window: nat, from: int)
    requires 1 <= limit && Sorted(times) && times != []
    ensures var c := AdmittedIn(times, limit, window, from, from + window);
            Bounded(After(times, window), times[|times| - 1], c, limit, window, from)
  {
    var n := |times| - 1;
    if n == 0 {
      assert times[..0] == [];
      HitBounded(None, Min(times[0], from - 1), 0, limit, window, from, times[0]);
    } else {
      CallsBounded(times[..n], limit, window, from);
      var c := AdmittedIn(times[..n], limit, window, from, from + window);
      HitBounded(After(times[..n], window), times[n - 1], c, limit, window, from, times[n]);
    }
  }

  /** Any half-open interval of one window's length admits at most 2 * limit - 1 calls. */
  lemma AtMostTwiceLessOne(times: seq<int>, limit: nat, window: nat, from: int)
    requires 1 <= limit && Sorted(times)
    ensures AdmittedIn(times, limit, window, from, from + window) <= 2 * limit - 1
  {
    if times != [] { CallsBounded(times, limit, window, from); }
  }

  /** Each window admits at most `limit`. */
  lemma {:induction false} AtMostLimitPerWindow(times: seq<int>, limit: nat, window: nat, start: int)
    requires Sorted(times) && 0 < window
    ensures AdmittedBy(times, limit, window, start) <= limit
    ensures times != [] ==>
      var w := After(times, window).value;
      && 1 <= w.count && w.expiresAt - window <= times[|times| - 1]
      && (w.expiresAt < start + window ==> AdmittedBy(times, limit, window, start) == 0)
      && (w.expiresAt == start + window ==> AdmittedBy(times, limit, window, start) <= w.count)
  {
    if times != [] {
      var n := |times| - 1;
      AtMostLimitPerWindow(times[..n], limit, window, start);
      if n > 0 { assert times[..n][n - 1] == times[n - 1] <= times[n]; }
    }
  }

  /** Both bounds are reached: three calls of limit 2 within one window's length. */
  lemma BoundsAreTight()
    ensures Sorted([0, 9, 10, 10]) && AdmittedIn([0, 9, 10, 10], 2, 10, 9, 19) == 3 && AdmittedBy([0, 9, 10, 10], 2, 10, 10) == 2
  {
    var t := [0, 9, 10, 10];
    assert t[..3] == [0, 9, 10] && t[..3][..2] == [0, 9] && [0, 9][..1] == [0] && [0][..0] == [];
    assert After([0], 10) == Some(Window(1, 10));
    assert After([0, 9], 10) == Some(Window(2, 10));
    assert After([0, 9, 10], 10) == Some(Window(1, 20));
    assert After(t, 10) == Some(Window(2, 20));
    assert AdmittedIn([0], 2, 10, 9, 19) == 0 && AdmittedBy([0], 2, 10, 10) == 0;
    assert AdmittedIn([0, 9], 2, 10, 9, 19) == 1 && AdmittedBy([0, 9], 2, 10, 10) == 0;
    assert AdmittedIn([0, 9, 10], 2, 10, 9, 19) == 2 && AdmittedBy([0, 9, 10], 2, 10, 10) == 1;
  }
}
