/** The lockout of one account: what a sign-in does to the failure count and the lock. */
module Lockout {
  import opened Options

  /** Nanoseconds. */
  const QUARTER := 900_000_000_000

  const TOLERATED := 5

  /** The two columns of the user row that the lockout lives in. */
  datatype Account = Account(failed: nat, lockedUntil: Option<int>)

  /** One sign-in. The lock is compared with the clock at checked; a failure is written at
      marked, by the database's own now(). known: the row was found. right: the password is
      the right one. factor: no second factor is active, or the given one was accepted. */
  datatype Attempt = Attempt(checked: int, marked: int, known: bool, enabled: bool, right: bool, factor: bool)

  datatype Outcome = InvalidCredentials | FactorRequired | SignedIn

  /** Whether the password is compared at all. */
  predicate Evaluates(u: Account, e: Attempt) {
    e.known && e.enabled && !(u.lockedUntil.Some? && u.lockedUntil.value > e.checked)
  }

  predicate Fails(u: Account, e: Attempt) {
    e.known && !(Evaluates(u, e) && e.right)
  }

  /** A wrong guess that was compared with the stored hash. */
  predicate Guess(u: Account, e: Attempt) {
    Evaluates(u, e) && !e.right
  }

  predicate Resets(u: Account, e: Attempt) {
    Evaluates(u, e) && e.right && e.factor
  }

  function Step(u: Account, e: Attempt): Account {
    if Fails(u, e) then
      Account(u.failed + 1, if u.failed + 1 >= TOLERATED then Some(e.marked + QUARTER) else u.lockedUntil)
    else if Resets(u, e) then Account(0, None)
    else u
  }

  class User {
    var failed: nat
    var lockedUntil: Option<int>
    var enabled: bool

    constructor ()
      ensures failed == 0 && lockedUntil == None && enabled
    {
      failed, lockedUntil, enabled := 0, None, true;
    }

    ghost function Lock(): Account
      reads this
    {
      Account(failed, lockedUntil)
    }

    method Login(checked: int, marked: int, right: bool, factor: bool) returns (out: Outcome)
      modifies this`failed, this`lockedUntil
      ensures Lock() == Step(old(Lock()), Attempt(checked, marked, true, enabled, right, factor))
      ensures out.SignedIn? <==> Resets(old(Lock()), Attempt(checked, marked, true, enabled, right, factor))
      ensures out.InvalidCredentials? <==> Fails(old(Lock()), Attempt(checked, marked, true, enabled, right, factor))
      ensures var open := enabled && (old(lockedUntil).None? || old(lockedUntil).value <= checked);
        out == if !open || !right then InvalidCredentials else if !factor then FactorRequired else SignedIn
      ensures out.SignedIn? ==> failed == 0 && lockedUntil.None?
      ensures out.FactorRequired? ==> failed == old(failed) && lockedUntil == old(lockedUntil)
      ensures out.InvalidCredentials? ==> failed == old(failed) + 1
      ensures out.InvalidCredentials? && failed >= 5 ==> lockedUntil == Some(marked + 15 * 60 * 1_000_000_000)
      ensures out.InvalidCredentials? && failed < 5 ==> lockedUntil == old(lockedUntil)
    {
      if !enabled || (lockedUntil.Some? && lockedUntil.value > checked) || !right {
        failed := failed + 1;
        if failed >= TOLERATED {
          lockedUntil := Some(marked + QUARTER);
        }
        return InvalidCredentials;
      }
      if !factor {
        return FactorRequired;
      }
      failed, lockedUntil := 0, None;
      out := SignedIn;
    }
  }

  // ----- How many guesses fit into an interval -----

  /** Sign-ins one after the other on a clock that never runs back. */
  ghost predicate Ordered(run: seq<Attempt>) {
    && (forall i | 0 <= i < |run| :: run[i].checked <= run[i].marked)
    && (forall i, j | 0 <= i < j < |run| :: run[i].marked <= run[j].checked)
  }

  predicate NoSignIn(u: Account, run: seq<Attempt>)
    decreases run
  {
    run == [] || (!Resets(u, run[0]) && NoSignIn(Step(u, run[0]), run[1..]))
  }

  predicate Counts(u: Account, e: Attempt, lo: int, hi: int) {
    Guess(u, e) && lo <= e.checked <= hi
  }

  /** The wrong passwords compared from lo to hi. */
  function Guesses(u: Account, run: seq<Attempt>, lo: int, hi: int): nat
    decreases run
  {
    if run == [] then 0
    else (if Counts(u, run[0], lo, hi) then 1 else 0) + Guesses(Step(u, run[0]), run[1..], lo, hi)
  }

  lemma OrderedTail(run: seq<Attempt>)
    requires Ordered(run) && run != []
    ensures Ordered(run[1..]) && run[0].checked <= run[0].marked
    ensures forall e | e in run[1..] :: run[0].marked <= e.checked
  {
  }

  /** One guess when the lock opens, and one more for every full quarter of an hour. */
  function Slots(free: int, lo: int, hi: int): nat {
    var first := if free > lo then free else lo;
    if hi < first then 0 else 1 + (hi - first) / QUARTER
  }

  lemma Monotone(a: int, b: int)
    requires a <= b
    ensures a / QUARTER <= b / QUARTER
  {
  }

  lemma SlotTaken(free: int, c: int, lo: int, hi: int)
    requires free <= c && lo <= c <= hi
    ensures 1 + Slots(c + QUARTER, lo, hi) <= Slots(free, lo, hi)
  {
    var first := if free > lo then free else lo;
    if c + QUARTER <= hi {
      assert 1 + (hi - (c + QUARTER)) / QUARTER == (hi - c) / QUARTER;
      Monotone(hi - c, hi - first);
    }
  }

  lemma SlotsShrink(free: int, later: int, lo: int, hi: int)
    requires free <= later
    ensures Slots(later, lo, hi) <= Slots(free, lo, hi)
  {
    var first, next := if free > lo then free else lo, if later > lo then later else lo;
    if next <= hi { Monotone(hi - next, hi - first); }
  }

  lemma SlotsAfterGuess(free: int, lo: int, hi: int)
    requires lo + QUARTER <= free && lo <= hi
    ensures Slots(free, lo, hi) <= (hi - lo) / QUARTER
  {
    if free <= hi {
      assert 1 + (hi - (lo + QUARTER)) / QUARTER == (hi - lo) / QUARTER;
      Monotone(hi - free, hi - (lo + QUARTER));
    }
  }

  /** Once the count stands at five or more and a failure has set the lock, no guess is
      compared before it opens, and each one closes it again. */
  lemma {:induction false} LockedGuesses(u: Account, run: seq<Attempt>, lo: int, hi: int, free: int)
    requires Ordered(run) && NoSignIn(u, run) && u.failed >= TOLERATED
    requires u.lockedUntil.Some? && free <= u.lockedUntil.value
    requires forall e | e in run :: free - QUARTER <= e.checked
    ensures Guesses(u, run, lo, hi) <= Slots(free, lo, hi)
    decreases run
  {
    if run != [] {
      var e, v := run[0], Step(u, run[0]);
      OrderedTail(run);
      if Guess(u, e) {
        LockedGuesses(v, run[1..], lo, hi, e.checked + QUARTER);
        if Counts(u, e, lo, hi) { SlotTaken(free, e.checked, lo, hi); }
        SlotsShrink(free, e.checked + QUARTER, lo, hi);
      } else {
        LockedGuesses(v, run[1..], lo, hi, free);
      }
    }
  }

  /** A failure at m that brings the count to five or more, or comes after it, leaves the lock
      closed for a quarter of an hour. */
  predicate ClosedSince(u: Account, m: int) {
    u.failed >= TOLERATED ==> u.lockedUntil.Some? && u.lockedUntil.value >= m + QUARTER
  }

  function After(u: Account, run: seq<Attempt>): Account
    decreases run
  {
    if run == [] then u else After(Step(u, run[0]), run[1..])
  }

  lemma {:induction false} StaysClosed(u: Account, run: seq<Attempt>, j: nat, m: int)
    requires Ordered(run) && NoSignIn(u, run) && ClosedSince(u, m) && j <= |run|
    requires forall e | e in run :: m <= e.checked
    ensures ClosedSince(After(u, run[..j]), m)
    decreases run
  {
    if j > 0 {
      OrderedTail(run);
      StaysClosed(Step(u, run[0]), run[1..], j - 1, m);
      assert run[..j][1..] == run[1..][..j - 1];
    }
  }

  /** From the fifth failure on every wrong password compared comes at least a quarter of an
      hour after each failure before it. */
  lemma {:induction false} GuessesAreSpaced(u: Account, run: seq<Attempt>, p: nat, j: nat)
    requires Ordered(run) && NoSignIn(u, run) && p < j < |run|
    requires Fails(After(u, run[..p]), run[p])
    requires Guess(After(u, run[..j]), run[j]) && After(u, run[..j]).failed >= TOLERATED
    ensures run[p].marked + QUARTER <= run[j].checked
    decreases run
  {
    OrderedTail(run);
    assert run[..j][1..] == run[1..][..j - 1];
    if p > 0 {
      assert run[..p][1..] == run[1..][..p - 1];
      GuessesAreSpaced(Step(u, run[0]), run[1..], p - 1, j - 1);
    } else {
      StaysClosed(Step(u, run[0]), run[1..], j - 1, run[0].marked);
    }
  }

  /** From any state and with no successful sign-in in between, the wrong passwords compared
      within an interval are at most five, or what is left of the five, plus one for every
      full quarter of an hour. */
  lemma {:induction false} GuessesAreBounded(u: Account, run: seq<Attempt>, lo: int, hi: int)
    requires Ordered(run) && NoSignIn(u, run) && lo <= hi
    ensures Guesses(u, run, lo, hi) <= (if u.failed < TOLERATED then TOLERATED - u.failed else 1) + (hi - lo) / QUARTER
    ensures Guesses(u, run, lo, hi) <= TOLERATED + (hi - lo) / QUARTER
    decreases run
  {
    if run != [] {
      var e, v := run[0], Step(u, run[0]);
      OrderedTail(run);
      if Fails(u, e) && v.failed >= TOLERATED {
        var free := e.marked + QUARTER;
        LockedGuesses(v, run[1..], lo, hi, free);
        if Counts(u, e, lo, hi) {
          SlotsAfterGuess(free, lo, hi);
        } else {
          if free > lo { Monotone(hi - free, hi - lo); }
        }
      } else {
        GuessesAreBounded(v, run[1..], lo, hi);
      }
    }
  }

  // ----- A sign-in starts afresh -----

  lemma {:induction false} AfterOneMore(u: Account, run: seq<Attempt>, i: nat)
    requires i < |run|
    ensures After(u, run[..i + 1]) == Step(After(u, run[..i]), run[i])
    ensures !run[i].known ==> After(u, run[..i + 1]) == After(u, run[..i])
    decreases run
  {
    assert run[..i + 1][1..] == run[1..][..i];
    if i > 0 {
      assert run[..i][1..] == run[1..][..i - 1];
      AfterOneMore(Step(u, run[0]), run[1..], i - 1);
    }
  }

  /** p is an attempt with the right password and factor that finds the lock open. */
  ghost predicate SignsIn(u: Account, run: seq<Attempt>, p: nat)
    requires p < |run|
  {
    var before, e := After(u, run[..p]), run[p];
    e.known && e.enabled && e.right && e.factor && (before.lockedUntil.None? || before.lockedUntil.value <= e.checked)
  }

  /** Whatever the account was before, after a successful sign-in it takes five failures to set
      the lock again: before them nothing is locked, and the password of each of the next five
      sign-ins is compared. */
  lemma {:induction false} SignInStartsAfresh(u: Account, run: seq<Attempt>, p: nat, j: nat)
    requires p < j < |run| && j <= p + 5 && SignsIn(u, run, p)
    ensures After(u, run[..j]).lockedUntil == None && After(u, run[..j]).failed < j - p
    ensures run[j].known && run[j].enabled ==> (Fails(After(u, run[..j]), run[j]) <==> !run[j].right)
    decreases j
  {
    AfterOneMore(u, run, j - 1);
    if j > p + 1 { SignInStartsAfresh(u, run, p, j - 1); }
  }

  lemma {:induction false} FailuresCount(u: Account, run: seq<Attempt>, p: nat, j: nat)
    requires p < j <= |run| && j <= p + 5 && SignsIn(u, run, p)
    requires forall k | p < k < j :: run[k].known && !run[k].right
    ensures After(u, run[..j]) == Account(j - p - 1, None)
    decreases j
  {
    AfterOneMore(u, run, j - 1);
    if j > p + 1 { FailuresCount(u, run, p, j - 1); }
  }

  /** Five wrong ones in a row do set it, for a quarter of an hour after the last. */
  lemma FiveFailuresLock(u: Account, run: seq<Attempt>, p: nat)
    requires p + 5 < |run| && SignsIn(u, run, p)
    requires forall k | p < k <= p + 5 :: run[k].known && !run[k].right
    ensures After(u, run[..p + 6]) == Account(5, Some(run[p + 5].marked + 15 * 60 * 1_000_000_000))
  {
    FailuresCount(u, run, p, p + 5);
    AfterOneMore(u, run, p + 5);
  }

  // ----- The bound is met -----

  function Wrong(t: int): Attempt {
    Attempt(t, t, true, true, false, true)
  }

  /** Five at once, then one every quarter of an hour, k times. */
  function Steady(from: int, k: nat): seq<Attempt>
    decreases k
  {
    if k == 0 then [] else [Wrong(from)] + Steady(from + QUARTER, k - 1)
  }

  lemma OrderedCons(e: Attempt, rest: seq<Attempt>)
    requires Ordered(rest) && e.checked <= e.marked && forall r | r in rest :: e.marked <= r.checked
    ensures Ordered([e] + rest)
  {
    var run := [e] + rest;
    forall i, j | 0 <= i < j < |run| ensures run[i].marked <= run[j].checked {
      assert run[j] == rest[j - 1] && run[j] in rest;
    }
  }

  lemma {:induction false} SteadyIsOrdered(from: int, k: nat)
    ensures Ordered(Steady(from, k)) && forall e | e in Steady(from, k) :: from <= e.checked
    decreases k
  {
    if k > 0 {
      SteadyIsOrdered(from + QUARTER, k - 1);
      OrderedCons(Wrong(from), Steady(from + QUARTER, k - 1));
    }
  }

  lemma {:induction false} SteadyGuesses(u: Account, from: int, k: nat, lo: int, hi: int)
    requires u.failed >= TOLERATED && u.lockedUntil == Some(from)
    requires lo <= from && (k > 0 ==> from + (k - 1) * QUARTER <= hi)
    ensures NoSignIn(u, Steady(from, k)) && Guesses(u, Steady(from, k), lo, hi) == k
    decreases k
  {
    if k > 0 {
      SteadyGuesses(Step(u, Wrong(from)), from + QUARTER, k - 1, lo, hi);
      assert Steady(from, k)[1..] == Steady(from + QUARTER, k - 1);
    }
  }

  function At(i: nat): Account {
    Account(i, if i >= TOLERATED then Some(QUARTER) else None)
  }

  lemma {:induction false} FirstGuesses(run: seq<Attempt>, k: nat, i: nat)
    requires i <= TOLERATED && Ordered(run) && forall e | e in run :: 0 <= e.checked
    requires NoSignIn(At(i), run) && Guesses(At(i), run, 0, k * QUARTER) == k + TOLERATED - i
    ensures exists all :: Ordered(all) && NoSignIn(At(0), all) && Guesses(At(0), all, 0, k * QUARTER) == k + TOLERATED
    decreases i
  {
    if i > 0 {
      var longer := [Wrong(0)] + run;
      OrderedCons(Wrong(0), run);
      assert longer[1..] == run && Step(At(i - 1), Wrong(0)) == At(i);
      FirstGuesses(longer, k, i - 1);
    }
  }

  /** For every k some run of sign-ins gets exactly 5 + k wrong passwords compared within
      k quarters of an hour: the bound cannot be improved. */
  lemma BoundIsMet(k: nat)
    ensures exists run :: Ordered(run) && NoSignIn(Account(0, None), run)
                          && Guesses(Account(0, None), run, 0, k * QUARTER) == TOLERATED + k
  {
    SteadyIsOrdered(QUARTER, k);
    SteadyGuesses(At(TOLERATED), QUARTER, k, 0, k * QUARTER);
    FirstGuesses(Steady(QUARTER, k), k, TOLERATED);
  }

  // ----- Failures renew the lock -----

  /** Every sign-in names the account, and comes less than a quarter of an hour after the one
      before it, the first one after since. */
  predicate Relentless(run: seq<Attempt>, since: int)
    decreases run
  {
    run == [] || (run[0].known && run[0].checked < since + QUARTER && Relentless(run[1..], run[0].marked))
  }

  /** Such a run, once the lock is set, gets nothing compared, not even the right password. */
  lemma {:induction false} FailuresRenewTheLock(u: Account, run: seq<Attempt>, since: int, i: nat)
    requires Ordered(run) && Relentless(run, since)
    requires u.failed >= TOLERATED && u.lockedUntil == Some(since + QUARTER) && i < |run|
    ensures Fails(After(u, run[..i]), run[i]) && !Evaluates(After(u, run[..i]), run[i])
    decreases run
  {
    if i > 0 {
      OrderedTail(run);
      FailuresRenewTheLock(Step(u, run[0]), run[1..], run[0].marked, i - 1);
      assert run[..i][1..] == run[1..][..i - 1];
    }
  }
}
