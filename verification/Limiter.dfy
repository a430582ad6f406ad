/** The sliding-window limiter of sign-in attempts: one slice of times per address, filtered
    in place on every call. */
module Limiter {
  /** Times are nanoseconds of one nondecreasing clock. */
  const MINUTE := 60_000_000_000

  const LIMIT := 10

  /** A call reads the clock twice: for the cut, and for the attempt it admits. */
  datatype Call = Call(now: int, later: int)

  /** The times strictly after the cut, in their order. */
  function Young(times: seq<int>, cut: int): seq<int> {
    if times == [] then []
    else
      var earlier, last := Young(times[..|times| - 1], cut), times[|times| - 1];
      if last > cut then earlier + [last] else earlier
  }

  predicate Admits(held: seq<int>, c: Call) {
    |Young(held, c.now - MINUTE)| < LIMIT
  }

  function Step(held: seq<int>, c: Call): seq<int> {
    var young := Young(held, c.now - MINUTE);
    if Admits(held, c) then young + [c.later] else young
  }

  // ----- The limiter's memory -----

  /** A Go slice: the first len elements of a buffer. */
  datatype Slice = Slice(buf: array<int>, len: nat)

  /** kept starts as the empty slice of the same buffer, so every append lands at or before
      the element just read. */
  method Compact(buf: array<int>, n: nat, cut: int) returns (k: nat)
    requires n <= buf.Length
    modifies buf
    ensures k <= n && buf[..k] == Young(old(buf[..n]), cut)
  {
    ghost var was := buf[..n];
    k := 0;
    for i := 0 to n
      invariant k <= i && buf[..k] == Young(was[..i], cut) && buf[i..n] == was[i..]
    {
      assert was[..i + 1][..i] == was[..i];
      assert buf[i] == buf[i..n][0] == was[i];
      if buf[i] > cut {
        buf[k] := buf[i];
        k := k + 1;
      }
    }
    assert was[..n] == was;
  }

  /** append: in place while the capacity lasts, else into a larger copy. */
  method Append(buf: array<int>, n: nat, x: int) returns (grown: array<int>)
    requires n <= buf.Length
    modifies buf
    ensures grown == buf || fresh(grown)
    ensures n < grown.Length && grown[..n + 1] == old(buf[..n]) + [x]
  {
    grown := buf;
    if n == buf.Length {
      grown := new int[2 * n + 1](i requires 0 <= i reads buf => if i < n <= buf.Length then buf[i] else 0);
    }
    grown[n] := x;
  }

  /** One slice through one call. */
  method Decide(buf: array<int>, n: nat, c: Call) returns (ok: bool, after: array<int>, k: nat)
    requires n <= buf.Length
    modifies buf
    ensures after == buf || fresh(after)
    ensures k <= after.Length && after[..k] == Step(old(buf[..n]), c)
    ensures ok == Admits(old(buf[..n]), c)
  {
    after := buf;
    k := Compact(buf, n, c.now - MINUTE);
    if k >= LIMIT {
      return false, buf, k;
    }
    after := Append(buf, k, c.later);
    ok, k := true, k + 1;
  }

  class Limiter {
    var attempts: map<string, Slice>

    constructor ()
      ensures Valid() && attempts == map[]
    {
      attempts := map[];
    }

    ghost function Buffers(): set<array<int>>
      reads this
    {
      set ip | ip in attempts :: attempts[ip].buf
    }

    /** Different addresses never share a buffer. */
    ghost predicate Valid()
      reads this
    {
      && (forall ip | ip in attempts :: attempts[ip].len <= attempts[ip].buf.Length)
      && (forall a, b | a in attempts && b in attempts && a != b :: attempts[a].buf != attempts[b].buf)
    }

    ghost function Held(ip: string): seq<int>
      requires Valid()
      reads this, Buffers()
    {
      if ip in attempts then attempts[ip].buf[..attempts[ip].len] else []
    }

    method AllowLogin(ip: string, now: int, later: int) returns (ok: bool)
      requires Valid()
      modifies this, Buffers()
      ensures Valid() && fresh(Buffers() - old(Buffers()))
      ensures ok == Admits(old(Held(ip)), Call(now, later))
      ensures Held(ip) == Step(old(Held(ip)), Call(now, later))
      ensures forall other | other != ip :: Held(other) == old(Held(other))
    {
      hide Admits, Step;
      var buf, n := new int[0], 0;
      if ip in attempts {
        buf, n := attempts[ip].buf, attempts[ip].len;
      }
      var after, k;
      ok, after, k := Decide(buf, n, Call(now, later));
      attempts := attempts[ip := Slice(after, k)];
    }
  }

  // ----- All calls for one address -----

  function HeldAfter(calls: seq<Call>): seq<int> {
    if calls == [] then [] else Step(HeldAfter(calls[..|calls| - 1]), calls[|calls| - 1])
  }

  /** Every attempt ever admitted, oldest first. */
  function Admitted(calls: seq<Call>): seq<int> {
    if calls == [] then []
    else
      var earlier, c := calls[..|calls| - 1], calls[|calls| - 1];
      if Admits(HeldAfter(earlier), c) then Admitted(earlier) + [c.later] else Admitted(earlier)
  }

  /** The calls hold the mutex one after the other, and the clock never runs back. */
  ghost predicate Clocked(calls: seq<Call>) {
    && (forall i | 0 <= i < |calls| :: calls[i].now <= calls[i].later)
    && (forall i, j | 0 <= i < j < |calls| :: calls[i].later <= calls[j].now)
  }

  lemma YoungAppend(times: seq<int>, x: int, cut: int)
    ensures Young(times + [x], cut) == if x > cut then Young(times, cut) + [x] else Young(times, cut)
  {
    assert (times + [x])[..|times|] == times;
  }

  lemma {:induction false} YoungTwice(times: seq<int>, low: int, cut: int)
    requires low <= cut
    ensures Young(Young(times, low), cut) == Young(times, cut)
  {
    if times != [] {
      var init, last := times[..|times| - 1], times[|times| - 1];
      YoungTwice(init, low, cut);
      if last > low { YoungAppend(Young(init, low), last, cut); }
    }
  }

  lemma StepIsLossless(held: seq<int>, all: seq<int>, c: Call, cut: int)
    requires Young(held, c.now - MINUTE) == Young(all, c.now - MINUTE) && c.now - MINUTE <= cut
    ensures Young(Step(held, c), cut) == Young(if Admits(held, c) then all + [c.later] else all, cut)
  {
    hide Young;
    var low := c.now - MINUTE;
    YoungTwice(held, low, cut);
    YoungTwice(all, low, cut);
    YoungAppend(Young(held, low), c.later, cut);
    YoungAppend(all, c.later, cut);
  }

  /** Dropping the old times for good loses nothing a later call could ask for. */
  lemma {:induction false} CompactionIsLossless(calls: seq<Call>, cut: int)
    requires Clocked(calls) && (calls != [] ==> calls[|calls| - 1].now - MINUTE <= cut)
    ensures Young(HeldAfter(calls), cut) == Young(Admitted(calls), cut)
  {
    if calls != [] {
      var earlier, c := calls[..|calls| - 1], calls[|calls| - 1];
      CompactionIsLossless(earlier, c.now - MINUTE);
      StepIsLossless(HeldAfter(earlier), Admitted(earlier), c, cut);
    }
  }

  lemma ClockedPrefix(calls: seq<Call>, c: Call)
    requires Clocked(calls + [c])
    ensures Clocked(calls)
  {
    var all := calls + [c];
    forall i | 0 <= i < |calls| ensures calls[i].now <= calls[i].later { assert all[i] == calls[i]; }
    forall i, j | 0 <= i < j < |calls| ensures calls[i].later <= calls[j].now {
      assert all[i] == calls[i] && all[j] == calls[j];
    }
  }

  lemma {:induction false} YoungIsShorter(times: seq<int>, cut: int)
    ensures |Young(times, cut)| <= |times|
  {
    if times != [] { YoungIsShorter(times[..|times| - 1], cut); }
  }

  lemma {:induction false} HeldIsShort(calls: seq<Call>)
    ensures |HeldAfter(calls)| <= LIMIT
  {
    if calls != [] {
      var earlier := calls[..|calls| - 1];
      HeldIsShort(earlier);
      YoungIsShorter(HeldAfter(earlier), calls[|calls| - 1].now - MINUTE);
    }
  }

  /** The times after the cut, by position. */
  ghost function After(times: seq<int>, cut: int): set<nat> {
    set i: nat | i < |times| && times[i] > cut
  }

  lemma {:induction false} YoungCounts(times: seq<int>, cut: int)
    ensures |Young(times, cut)| == |After(times, cut)|
  {
    if times == [] {
      assert After(times, cut) == {};
    } else {
      var n := |times| - 1;
      YoungCounts(times[..n], cut);
      assert After(times, cut) == After(times[..n], cut) + if times[n] > cut then {n} else {};
    }
  }

  /** A call is refused exactly when ten admitted attempts are younger than a minute, and
      never more than ten times are kept. */
  lemma RefusedIffTenAreYoung(calls: seq<Call>, c: Call)
    requires Clocked(calls + [c])
    ensures Admits(HeldAfter(calls), c) <==> |After(Admitted(calls), c.now - 60_000_000_000)| < 10
    ensures |HeldAfter(calls)| <= 10
  {
    hide Young, After, Admitted, HeldAfter;
    YoungCounts(Admitted(calls), c.now - MINUTE);
    forall i | 0 <= i < |calls| ensures calls[i] == (calls + [c])[i] {}
    if calls != [] { assert (calls + [c])[|calls| - 1].later <= (calls + [c])[|calls|].now; }
    assert Clocked(calls) by { ClockedPrefix(calls, c); }
    CompactionIsLossless(calls, c.now - MINUTE);
    HeldIsShort(calls);
  }

  /** So that is what decides which attempts were ever admitted. */
  lemma AdmittedUnlessTenAreYoung(calls: seq<Call>, c: Call)
    requires Clocked(calls + [c])
    ensures Admitted(calls + [c])
            == if |After(Admitted(calls), c.now - 60_000_000_000)| < 10 then Admitted(calls) + [c.later]
               else Admitted(calls)
  {
    RefusedIffTenAreYoung(calls, c);
    hide Admits, After, HeldAfter;
    assert (calls + [c])[..|calls|] == calls;
  }

  // ----- No window holds eleven -----

  ghost predicate Ascending(times: seq<int>) {
    forall i, j | 0 <= i < j < |times| :: times[i] <= times[j]
  }

  /** If the tenth time from the end is young, so are the nine after it. */
  lemma {:induction false} TenYoung(times: seq<int>, k: nat, cut: int)
    requires Ascending(times) && k < |times| && times[k] > cut
    ensures |Young(times, cut)| >= |times| - k
  {
    var init := times[..|times| - 1];
    if k < |init| { TenYoung(init, k, cut); }
    assert times[|times| - 1] > cut;
  }

  ghost predicate Spread(times: seq<int>) {
    forall i | 0 <= i && i + LIMIT < |times| :: times[i] + MINUTE <= times[i + LIMIT]
  }

  lemma {:induction false} AdmittedInPast(calls: seq<Call>, now: int)
    requires Clocked(calls) && (calls != [] ==> calls[|calls| - 1].later <= now)
    ensures forall t | t in Admitted(calls) :: t <= now
  {
    if calls != [] {
      var earlier := calls[..|calls| - 1];
      if earlier != [] { assert earlier[|earlier| - 1] == calls[|calls| - 2]; }
      AdmittedInPast(earlier, now);
    }
  }

  lemma TenthIsOld(times: seq<int>, c: Call)
    requires Ascending(times) && |Young(times, c.now - MINUTE)| < LIMIT && c.now <= c.later
    ensures |times| >= LIMIT ==> times[|times| - LIMIT] + MINUTE <= c.later
  {
    var k := |times| - LIMIT;
    if k >= 0 && times[k] > c.now - MINUTE { TenYoung(times, k, c.now - MINUTE); }
  }

  lemma LastIsClocked(calls: seq<Call>, c: Call)
    requires Clocked(calls + [c])
    ensures c.now <= c.later
  {
    assert (calls + [c])[|calls|] == c;
  }

  lemma TenthAdmittedIsOld(calls: seq<Call>, c: Call)
    requires Clocked(calls + [c]) && Ascending(Admitted(calls)) && Admits(HeldAfter(calls), c)
    ensures var times := Admitted(calls); |times| >= LIMIT ==> times[|times| - LIMIT] + MINUTE <= c.later
  {
    hide Young, After, Ascending, Admitted, HeldAfter, Admits, Clocked;
    LastIsClocked(calls, c);
    RefusedIffTenAreYoung(calls, c);
    YoungCounts(Admitted(calls), c.now - MINUTE);
    TenthIsOld(Admitted(calls), c);
  }

  lemma SpreadAppend(times: seq<int>, x: int)
    requires Ascending(times) && Spread(times) && (forall t | t in times :: t <= x)
    requires |times| >= LIMIT ==> times[|times| - LIMIT] + MINUTE <= x
    ensures Ascending(times + [x]) && Spread(times + [x])
  {
    var all := times + [x];
    forall i, j | 0 <= i < j < |all| ensures all[i] <= all[j] {
      assert all[i] == times[i];
      assert times[i] in times;
    }
    forall i | 0 <= i && i + LIMIT < |all| ensures all[i] + MINUTE <= all[i + LIMIT] {
      assert all[i] == times[i];
    }
  }

  lemma NoneIsSpread()
    ensures Ascending([]) && Spread([])
  {
  }

  /** The eleventh attempt from any attempt on comes at least a minute after it. */
  lemma {:induction false} AdmittedIsSpread(calls: seq<Call>)
    requires Clocked(calls)
    ensures Ascending(Admitted(calls)) && Spread(Admitted(calls))
  {
    hide Young, After, Spread, Ascending, HeldAfter, Admits;
    if calls != [] {
      var earlier, c := calls[..|calls| - 1], calls[|calls| - 1];
      AdmittedIsSpread(earlier);
      assert earlier + [c] == calls;
      if Admits(HeldAfter(earlier), c) {
        TenthAdmittedIsOld(earlier, c);
        AdmittedInPast(earlier, c.later);
        SpreadAppend(Admitted(earlier), c.later);
      }
    } else {
      NoneIsSpread();
    }
  }

  /** The admitted attempts, by position, in the window from low (included) to a minute later
      (excluded), and in the one that excludes low and includes its end. */
  ghost function FromLow(times: seq<int>, low: int): set<nat> {
    set i: nat | i < |times| && low <= times[i] < low + 60_000_000_000
  }

  ghost function AfterLow(times: seq<int>, low: int): set<nat> {
    set i: nat | i < |times| && low < times[i] <= low + 60_000_000_000
  }

  lemma {:induction false} FewPositions(s: set<nat>, n: nat, m: nat)
    requires forall i, j | i in s && j in s :: i - j < m
    requires forall i | i in s :: i < n
    ensures |s| <= m
    decreases n
  {
    if s == {} {
    } else if n - 1 in s {
      FewPositions(s - {n - 1}, n - 1, m - 1);
    } else {
      FewPositions(s, n - 1, m);
    }
  }

  lemma FarApart(times: seq<int>, j: nat, i: nat)
    requires Ascending(times) && Spread(times) && j + LIMIT <= i < |times|
    ensures times[j] + MINUTE <= times[i]
  {
    assert times[j] + MINUTE <= times[j + LIMIT];
  }

  lemma SpreadApart(times: seq<int>, low: int, s: set<nat>)
    requires Ascending(times) && Spread(times)
    requires s == FromLow(times, low) || s == AfterLow(times, low)
    ensures |s| <= LIMIT
  {
    forall i, j | i in s && j in s ensures i - j < LIMIT {
      if i - j >= LIMIT { FarApart(times, j, i); }
    }
    FewPositions(s, |times|, LIMIT);
  }

  /** Every half-open window of a minute holds at most ten admitted attempts. */
  lemma NoWindowHoldsEleven(calls: seq<Call>, low: int)
    requires Clocked(calls)
    ensures |FromLow(Admitted(calls), low)| <= 10 && |AfterLow(Admitted(calls), low)| <= 10
  {
    AdmittedIsSpread(calls);
    var times := Admitted(calls);
    SpreadApart(times, low, FromLow(times, low));
    SpreadApart(times, low, AfterLow(times, low));
  }

  lemma {:induction false} AllYoung(n: nat)
    ensures Young(seq(n, i => 0), -MINUTE) == seq(n, i => 0)
  {
    if n > 0 {
      AllYoung(n - 1);
      assert seq(n, i => 0)[..n - 1] == seq(n - 1, i => 0);
    }
  }

  lemma {:induction false} AllAdmitted(n: nat)
    requires n <= LIMIT
    ensures HeldAfter(seq(n, i => Call(0, 0))) == Admitted(seq(n, i => Call(0, 0))) == seq(n, i => 0)
  {
    var calls := seq(n, i => Call(0, 0));
    if n > 0 {
      AllAdmitted(n - 1);
      assert calls[..n - 1] == seq(n - 1, i => Call(0, 0));
      AllYoung(n - 1);
      assert seq(n, i => 0) == seq(n - 1, i => 0) + [0];
    }
  }

  lemma {:induction false} NoneYoung(n: nat)
    ensures Young(seq(n, i => 0), 0) == []
  {
    if n > 0 {
      NoneYoung(n - 1);
      assert seq(n, i => 0)[..n - 1] == seq(n - 1, i => 0);
    }
  }

  /** The minute is exact: an eleventh attempt is admitted once the first is a minute old. */
  lemma ClosedWindowMayHoldEleven()
    ensures exists calls :: Clocked(calls) && Admitted(calls) == seq(LIMIT, i => 0) + [MINUTE]
  {
    var calls, c := seq(LIMIT, i => Call(0, 0)), Call(MINUTE, MINUTE);
    AllAdmitted(LIMIT);
    NoneYoung(LIMIT);
    assert (calls + [c])[..LIMIT] == calls;
    assert Clocked(calls + [c]);
    assert Admitted(calls + [c]) == seq(LIMIT, i => 0) + [MINUTE];
  }
}
