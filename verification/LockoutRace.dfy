/** Sign-ins of one account at the same time. Each reads the lock, compares the password, and
    only later writes its failure, so several may pass the lock while it is open. */
module LockoutRace {
  import opened Options
  import opened Lockout

  /** Read stands for the SELECT and the comparison, Mark for the UPDATE of a failure. */
  datatype Move = Read(e: Attempt) | Mark(at: int)

  /** pending counts the failures read and not yet written. */
  datatype State = State(account: Account, pending: nat)

  function TimeOf(m: Move): int {
    if m.Read? then m.e.checked else m.at
  }

  predicate Guard(s: State, m: Move) {
    match m
    case Read(e) => !Resets(s.account, e)
    case Mark(_) => s.pending > 0
  }

  /** A failure written at some time, whatever was read before. */
  function Marked(u: Account, at: int): Account {
    Account(u.failed + 1, if u.failed + 1 >= TOLERATED then Some(at + QUARTER) else u.lockedUntil)
  }

  function Apply(s: State, m: Move): State
    requires Guard(s, m)
  {
    match m
    case Read(e) => if Fails(s.account, e) then s.(pending := s.pending + 1) else s
    case Mark(at) => State(Marked(s.account, at), s.pending - 1)
  }

  /** One read and one mark right after it are the sign-in of the sequential model. */
  lemma ReadThenMarkIsStep(s: State, e: Attempt)
    requires Guard(s, Read(e))
    ensures Fails(s.account, e) ==>
              var t := Apply(s, Read(e));
              Guard(t, Mark(e.marked)) && Apply(t, Mark(e.marked)) == State(Step(s.account, e), s.pending)
    ensures !Fails(s.account, e) ==> Apply(s, Read(e)) == State(Step(s.account, e), s.pending)
  {
  }

  /** The moves can be made in turn, never back in time, with at most k failures unwritten. */
  predicate Runs(s: State, run: seq<Move>, k: nat, now: int)
    decreases run
  {
    s.pending <= k &&
    (run == [] || (Guard(s, run[0]) && now <= TimeOf(run[0]) && Runs(Apply(s, run[0]), run[1..], k, TimeOf(run[0]))))
  }

  predicate CountsMove(s: State, m: Move, lo: int, hi: int) {
    m.Read? && Counts(s.account, m.e, lo, hi)
  }

  /** The wrong passwords compared from lo to hi. */
  function Guesses(s: State, run: seq<Move>, k: nat, now: int, lo: int, hi: int): nat
    requires Runs(s, run, k, now)
    decreases run
  {
    if run == [] then 0
    else (if CountsMove(s, run[0], lo, hi) then 1 else 0)
         + Guesses(Apply(s, run[0]), run[1..], k, TimeOf(run[0]), lo, hi)
  }

  lemma {:induction false} TooLate(s: State, run: seq<Move>, k: nat, now: int, lo: int, hi: int)
    requires Runs(s, run, k, now) && hi < now
    ensures Guesses(s, run, k, now, lo, hi) == 0
    decreases run
  {
    if run != [] { TooLate(Apply(s, run[0]), run[1..], k, TimeOf(run[0]), lo, hi); }
  }

  lemma Times(k: nat, a: nat, b: nat)
    requires a <= b
    ensures k * a <= k * b
  {
  }

  lemma OneMoreSlot(k: nat, a: nat)
    ensures k * (1 + a) == k + k * a
  {
  }

  function Max(a: int, b: int): int {
    if a > b then a else b
  }

  /** The failures still to be written before the next one closes the lock. */
  function Spare(u: Account): nat {
    if u.failed < TOLERATED then TOLERATED - u.failed - 1 else 0
  }

  /** What may still be counted from now on: nothing before the lock closes, and then k for
      each opening; or some before it does, and so not before lo. */
  function Bound(s: State, k: nat, now: int, lo: int, hi: int): int {
    Max(k * Slots(now + QUARTER, lo, hi), Spare(s.account) + k - s.pending + k * Slots(Max(now, lo) + QUARTER, lo, hi))
  }

  lemma BoundShrinks(s: State, t: State, k: nat, now: int, later: int, lo: int, hi: int)
    requires now <= later && s.pending <= k && t.pending <= k
    requires Spare(t.account) + k - t.pending <= Spare(s.account) + k - s.pending
    ensures Bound(t, k, later, lo, hi) <= Bound(s, k, now, lo, hi)
  {
    SlotsShrink(now + QUARTER, later + QUARTER, lo, hi);
    Times(k, Slots(later + QUARTER, lo, hi), Slots(now + QUARTER, lo, hi));
    SlotsShrink(Max(now, lo) + QUARTER, Max(later, lo) + QUARTER, lo, hi);
    Times(k, Slots(Max(later, lo) + QUARTER, lo, hi), Slots(Max(now, lo) + QUARTER, lo, hi));
  }

  lemma BoundAfterGuess(s: State, t: State, k: nat, now: int, c: int, lo: int, hi: int)
    requires now <= c && lo <= c && s.pending < k && t == s.(pending := s.pending + 1)
    ensures 1 + Bound(t, k, c, lo, hi) <= Bound(s, k, now, lo, hi)
  {
    SlotsShrink(Max(now, lo) + QUARTER, c + QUARTER, lo, hi);
    Times(k, Slots(c + QUARTER, lo, hi), Slots(Max(now, lo) + QUARTER, lo, hi));
  }

  /** The first guess of an opening and all that may follow it take one slot. */
  lemma OpeningIsASlot(s: State, t: State, k: nat, c: int, lo: int, hi: int, free: int)
    requires free <= c <= hi && lo <= hi && s.account.failed >= TOLERATED
    requires t == s.(pending := s.pending + 1) && t.pending <= k
    ensures (if lo <= c then 1 else 0) + Bound(t, k, c, lo, hi) <= k * Slots(free, lo, hi)
  {
    var first := Max(c, lo);
    SlotTaken(free, first, lo, hi);
    Times(k, 1 + Slots(first + QUARTER, lo, hi), Slots(free, lo, hi));
    OneMoreSlot(k, Slots(first + QUARTER, lo, hi));
    SlotsShrink(free, c + QUARTER, lo, hi);
    Times(k, Slots(c + QUARTER, lo, hi), Slots(free, lo, hi));
    Times(k, Slots(first + QUARTER, lo, hi), Slots(free, lo, hi));
  }

  /** While the lock is closed until free at least, k guesses fit into each opening from then
      on; else the bound above holds. Each case needs the other for what comes after. */
  lemma {:induction false} ClosedGuesses(s: State, run: seq<Move>, k: nat, now: int, lo: int, hi: int, free: int)
    requires Runs(s, run, k, now) && lo <= hi && s.account.failed >= TOLERATED
    requires s.account.lockedUntil.Some? && free <= s.account.lockedUntil.value && free <= now + QUARTER
    ensures Guesses(s, run, k, now, lo, hi) <= k * Slots(free, lo, hi)
    decreases run
  {
    if run != [] {
      var m, t, rest := run[0], Apply(s, run[0]), run[1..];
      var c := TimeOf(m);
      if m.Read? && Guess(s.account, m.e) {
        OpenGuesses(t, rest, k, c, lo, hi);
        if hi < c {
          TooLate(t, rest, k, c, lo, hi);
        } else {
          OpeningIsASlot(s, t, k, c, lo, hi, free);
        }
      } else {
        ClosedGuesses(t, rest, k, c, lo, hi, free);
      }
    }
  }

  lemma {:induction false} OpenGuesses(s: State, run: seq<Move>, k: nat, now: int, lo: int, hi: int)
    requires Runs(s, run, k, now) && lo <= hi
    ensures Guesses(s, run, k, now, lo, hi) <= Bound(s, k, now, lo, hi)
    decreases run
  {
    if run != [] {
      var m, t, rest := run[0], Apply(s, run[0]), run[1..];
      var c := TimeOf(m);
      if m.Mark? && s.account.failed + 1 >= TOLERATED {
        ClosedGuesses(t, rest, k, c, lo, hi, c + QUARTER);
        SlotsShrink(now + QUARTER, c + QUARTER, lo, hi);
        Times(k, Slots(c + QUARTER, lo, hi), Slots(now + QUARTER, lo, hi));
      } else {
        OpenGuesses(t, rest, k, c, lo, hi);
        if CountsMove(s, m, lo, hi) {
          BoundAfterGuess(s, t, k, now, c, lo, hi);
        } else {
          BoundShrinks(s, t, k, now, c, lo, hi);
        }
      }
    }
  }

  lemma AtMostAllSlots(free: int, lo: int, hi: int)
    requires lo <= hi
    ensures Slots(free, lo, hi) <= 1 + (hi - lo) / QUARTER
  {
    SlotsShrink(if free < lo then free else lo, free, lo, hi);
  }

  /** With at most k failures unwritten at any time and no successful sign-in, the wrong
      passwords compared within an interval are at most five and one for every full quarter of
      an hour, and k - 1 more for each opening of the lock: the first, and one for each full
      quarter of an hour. */
  lemma GuessesAreBounded(s: State, run: seq<Move>, k: nat, now: int, lo: int, hi: int)
    requires Runs(s, run, k, now) && lo <= hi && k > 0
    ensures Guesses(s, run, k, now, lo, hi) <= TOLERATED + (hi - lo) / QUARTER + (k - 1) * (1 + (hi - lo) / QUARTER)
  {
    OpenGuesses(s, run, k, now, lo, hi);
    var quarters := (hi - lo) / QUARTER;
    SlotsAfterGuess(lo + QUARTER, lo, hi);
    SlotsAfterGuess(Max(now, lo) + QUARTER, lo, hi);
    Times(k, Slots(Max(now, lo) + QUARTER, lo, hi), quarters);
    AtMostAllSlots(now + QUARTER, lo, hi);
    Times(k, Slots(now + QUARTER, lo, hi), 1 + quarters);
    OneMoreSlot(k, quarters);
    assert TOLERATED + quarters + (k - 1) * (1 + quarters) == TOLERATED - 1 + k * (1 + quarters);
  }

  // ----- The bound is met -----

  function Reads(t: int, n: nat): seq<Move> {
    if n == 0 then [] else [Read(Wrong(t))] + Reads(t, n - 1)
  }

  function Marks(t: int, n: nat): seq<Move> {
    if n == 0 then [] else [Mark(t)] + Marks(t, n - 1)
  }

  /** At each opening k sign-ins read the lock before the first of them writes its failure. */
  function Bursts(t: int, k: nat, q: nat): seq<Move>
    decreases q
  {
    if q == 0 then [] else Reads(t, k) + (Marks(t, k) + Bursts(t + QUARTER, k, q - 1))
  }

  function Locked(u: Account, n: nat, t: int): Account {
    Account(u.failed + n, if n == 0 then u.lockedUntil else Some(t + QUARTER))
  }

  lemma StartsEarlier(s: State, run: seq<Move>, k: nat, now: int, t: int, lo: int, hi: int)
    requires Runs(s, run, k, t) && now <= t
    ensures Runs(s, run, k, now) && Guesses(s, run, k, now, lo, hi) == Guesses(s, run, k, t, lo, hi)
  {
  }

  lemma MarkFirst(s: State, rest: seq<Move>, k: nat, t: int, lo: int, hi: int)
    requires 0 < s.pending <= k && Runs(Apply(s, Mark(t)), rest, k, t)
    ensures Runs(s, [Mark(t)] + rest, k, t)
    ensures Guesses(s, [Mark(t)] + rest, k, t, lo, hi) == Guesses(Apply(s, Mark(t)), rest, k, t, lo, hi)
  {
    var run := [Mark(t)] + rest;
    assert run[0] == Mark(t) && run[1..] == rest;
  }

  lemma {:induction false} MarksFirst(s: State, rest: seq<Move>, k: nat, n: nat, t: int, lo: int, hi: int)
    requires s.pending == n <= k && s.account.failed + 1 >= TOLERATED
    requires Runs(State(Locked(s.account, n, t), 0), rest, k, t)
    ensures Runs(s, Marks(t, n) + rest, k, t)
    ensures Guesses(s, Marks(t, n) + rest, k, t, lo, hi)
            == Guesses(State(Locked(s.account, n, t), 0), rest, k, t, lo, hi)
    decreases n
  {
    var run := Marks(t, n) + rest;
    if n == 0 {
      assert run == rest;
    } else {
      MarksFirst(Apply(s, Mark(t)), rest, k, n - 1, t, lo, hi);
      MarkFirst(s, Marks(t, n - 1) + rest, k, t, lo, hi);
      assert run == [Mark(t)] + (Marks(t, n - 1) + rest);
    }
  }

  lemma {:induction false} ReadsFirst(s: State, rest: seq<Move>, k: nat, n: nat, now: int, t: int, lo: int, hi: int)
    requires Guess(s.account, Wrong(t)) && s.pending + n <= k && now <= t && lo <= t <= hi
    requires Runs(State(s.account, s.pending + n), rest, k, t)
    ensures Runs(s, Reads(t, n) + rest, k, now)
    ensures Guesses(s, Reads(t, n) + rest, k, now, lo, hi)
            == n + Guesses(State(s.account, s.pending + n), rest, k, t, lo, hi)
    decreases n
  {
    var run := Reads(t, n) + rest;
    if n == 0 {
      assert run == rest;
      StartsEarlier(s, rest, k, now, t, lo, hi);
    } else {
      ReadsFirst(Apply(s, Read(Wrong(t))), rest, k, n - 1, t, t, lo, hi);
      assert run[0] == Read(Wrong(t)) && run[1..] == Reads(t, n - 1) + rest;
    }
  }

  lemma {:induction false} BurstsGuess(u: Account, k: nat, q: nat, now: int, t: int, lo: int, hi: int)
    requires k > 0 && u.failed + 1 >= TOLERATED && (u.lockedUntil.Some? ==> u.lockedUntil.value <= t)
    requires now <= t && lo <= t && (q > 0 ==> t + (q - 1) * QUARTER <= hi)
    ensures Runs(State(u, 0), Bursts(t, k, q), k, now)
    ensures Guesses(State(u, 0), Bursts(t, k, q), k, now, lo, hi) == k * q
    decreases q
  {
    if q > 0 {
      var next, rest := Locked(u, k, t), Bursts(t + QUARTER, k, q - 1);
      BurstsGuess(next, k, q - 1, t, t + QUARTER, lo, hi);
      MarksFirst(State(u, k), rest, k, k, t, lo, hi);
      ReadsFirst(State(u, 0), Marks(t, k) + rest, k, k, now, t, lo, hi);
      OneMoreSlot(k, q - 1);
    }
  }

  lemma OneFailure(i: nat)
    requires 0 < i < TOLERATED
    ensures Guess(Account(i - 1, None), Wrong(0)) && Guard(State(Account(i - 1, None), 1), Mark(0))
    ensures Apply(State(Account(i - 1, None), 1), Mark(0)) == State(Account(i, None), 0)
  {
  }

  /** One sign-in by itself, as one of the first four failures. */
  lemma FailureFirst(rest: seq<Move>, k: nat, i: nat, lo: int, hi: int)
    requires k > 0 && 0 < i < TOLERATED && lo <= 0 <= hi && Runs(State(Account(i, None), 0), rest, k, 0)
    ensures Runs(State(Account(i - 1, None), 0), Reads(0, 1) + ([Mark(0)] + rest), k, 0)
    ensures Guesses(State(Account(i - 1, None), 0), Reads(0, 1) + ([Mark(0)] + rest), k, 0, lo, hi)
            == 1 + Guesses(State(Account(i, None), 0), rest, k, 0, lo, hi)
  {
    OneFailure(i);
    hide *;
    MarkFirst(State(Account(i - 1, None), 1), rest, k, 0, lo, hi);
    ReadsFirst(State(Account(i - 1, None), 0), [Mark(0)] + rest, k, 1, 0, 0, lo, hi);
  }

  lemma {:induction false} FirstFour(rest: seq<Move>, k: nat, i: nat, lo: int, hi: int) returns (run: seq<Move>)
    requires k > 0 && i < TOLERATED && lo <= 0 <= hi && Runs(State(Account(i, None), 0), rest, k, 0)
    ensures Runs(State(Account(0, None), 0), run, k, 0)
    ensures Guesses(State(Account(0, None), 0), run, k, 0, lo, hi)
            == i + Guesses(State(Account(i, None), 0), rest, k, 0, lo, hi)
    decreases i
  {
    hide *;
    if i == 0 {
      run := rest;
    } else {
      FailureFirst(rest, k, i, lo, hi);
      run := FirstFour(Reads(0, 1) + ([Mark(0)] + rest), k, i - 1, lo, hi);
    }
  }

  /** For any k and number of quarters some run meets the bound exactly. */
  lemma BoundIsMet(k: nat, q: nat)
    requires k > 0
    ensures exists run :: Runs(State(Account(0, None), 0), run, k, 0)
                          && Guesses(State(Account(0, None), 0), run, k, 0, 0, q * QUARTER)
                             == TOLERATED + q + (k - 1) * (1 + q)
  {
    BurstsGuess(Account(TOLERATED - 1, None), k, q + 1, 0, 0, 0, q * QUARTER);
    var run := FirstFour(Bursts(0, k, q + 1), k, TOLERATED - 1, 0, q * QUARTER);
    OneMoreSlot(k, q);
    assert TOLERATED + q + (k - 1) * (1 + q) == TOLERATED - 1 + k * (1 + q);
  }

  /** The bound of sign-ins one after the other. */
  predicate WithinSequentialBound(s: State, run: seq<Move>, k: nat, now: int, lo: int, hi: int)
    requires Runs(s, run, k, now) && lo <= hi
  {
    Guesses(s, run, k, now, lo, hi) <= TOLERATED + (hi - lo) / QUARTER
  }

  /** It holds of all runs exactly if no two failures are unwritten at once. */
  lemma SequentialBoundHoldsIff(k: nat)
    requires k > 0
    ensures (forall s, run, now, lo, hi | Runs(s, run, k, now) && lo <= hi ::
               WithinSequentialBound(s, run, k, now, lo, hi))
            <==> k == 1
  {
    if k == 1 {
      forall s, run, now, lo, hi | Runs(s, run, k, now) && lo <= hi
        ensures WithinSequentialBound(s, run, k, now, lo, hi)
      {
        GuessesAreBounded(s, run, k, now, lo, hi);
      }
    } else {
      BoundIsMet(k, 0);
      var s := State(Account(0, None), 0);
      var run :| Runs(s, run, k, 0) && Guesses(s, run, k, 0, 0, 0 * QUARTER) == TOLERATED + 0 + (k - 1) * (1 + 0);
      assert !WithinSequentialBound(s, run, k, 0, 0, 0);
    }
  }
}
