/** The second factor of one account: enrolment, confirmation and the single use of recovery
    codes, by requests that interleave between their statements. */
module Mfa {
  import opened Options
  import opened Sorting

  /** The row of totp_factors. */
  datatype Factor = Factor(secret: string, pending: bool)

  /** The rows of recovery_codes: normalised codes stand for their hashes; true once used. */
  type Codes = map<string, bool>

  /** A request between two of its statements. Confirming has read a pending secret and found
      the given TOTP code right for it; Spending has found its code to be no TOTP code. */
  datatype Request = Confirming(secret: string) | Spending(code: string)

  /** offered and issued collect every secret and code ever generated, used every second
      factor accepted from a recovery code, confirmed every pair of the secret a confirmation
      had verified and the one it made active: the code keeps none of these. */
  datatype State = State(factor: Option<Factor>, codes: Codes, requests: map<nat, Request>,
                         offered: set<string>, issued: set<string>, used: seq<string>)

  datatype Event =
    | Begin(secret: string)
    | Verify(a: nat)
    | Confirm(a: nat, codes: seq<string>)
    | Check(a: nat, code: string)
    | Spend(a: nat)
    | GiveUp(a: nat)

  const CODES := 10

  predicate Pending(f: Option<Factor>) {
    f.Some? && f.value.pending
  }

  predicate ActiveWith(f: Option<Factor>, secret: string) {
    f == Some(Factor(secret, false))
  }

  /** INSERT ... ON CONFLICT DO UPDATE ... WHERE pending: a row, if any, must be pending. */
  function Upsert(f: Option<Factor>, secret: string): Option<Factor> {
    if f.None? || f.value.pending then Some(Factor(secret, true)) else f
  }

  function Fresh(codes: seq<string>): Codes {
    map c | c in codes :: false
  }

  /** The UPDATE of verifySecondFactor changes one row or none. */
  predicate Spendable(codes: Codes, code: string) {
    code in codes && !codes[code]
  }

  predicate Guard(s: State, e: Event) {
    match e
    case Begin(secret) => secret !in s.offered
    case Verify(a) => a !in s.requests && Pending(s.factor)
    case Confirm(a, codes) =>
      a in s.requests && s.requests[a].Confirming? && |codes| == CODES && Distinct(codes)
          && forall c | c in codes :: c !in s.issued
    case Check(a, code) => a !in s.requests && s.factor.Some? && !s.factor.value.pending
    case Spend(a) => a in s.requests && s.requests[a].Spending?
    case GiveUp(a) => a in s.requests
  }

  function Apply(s: State, e: Event): State
    requires Guard(s, e)
  {
    match e
    case Begin(secret) => s.(factor := Upsert(s.factor, secret), offered := s.offered + {secret})
    case Verify(a) => s.(requests := s.requests[a := Confirming(s.factor.value.secret)])
    case Confirm(a, codes) =>
      s.(factor := if s.factor.Some? then Some(s.factor.value.(pending := false)) else None,
         codes := Fresh(codes), issued := s.issued + (set c | c in codes), requests := s.requests - {a})
    case Check(a, code) => s.(requests := s.requests[a := Spending(code)])
    case Spend(a) =>
      var code := s.requests[a].code;
      var t := s.(requests := s.requests - {a});
      if Spendable(s.codes, code) then t.(codes := s.codes[code := true], used := s.used + [code]) else t
    case GiveUp(a) => s.(requests := s.requests - {a})
  }

  const INIT := State(None, map[], map[], {}, {}, [])

  ghost predicate StepAt(states: seq<State>, events: seq<Event>, i: nat)
    requires i < |events| < |states|
  {
    Guard(states[i], events[i]) && states[i + 1] == Apply(states[i], events[i])
  }

  ghost predicate IsRun(states: seq<State>, events: seq<Event>) {
    && |states| == |events| + 1 && states[0] == INIT
    && forall i | 0 <= i < |events| :: StepAt(states, events, i)
  }

  /** Whatever begins, confirms or checks: an active factor stays active, with its secret. */
  lemma {:induction false} ActiveForever(states: seq<State>, events: seq<Event>, i: nat, j: nat, secret: string)
    requires IsRun(states, events) && i <= j < |states| && ActiveWith(states[i].factor, secret)
    ensures ActiveWith(states[j].factor, secret)
    decreases j
  {
    if i < j {
      ActiveForever(states, events, i, j - 1, secret);
      assert StepAt(states, events, j - 1);
    }
  }

  // ----- Recovery codes -----

  ghost predicate Inv(s: State) {
    && (forall c | c in s.codes :: c in s.issued)
    && (forall c | c in s.used :: c in s.issued && !Spendable(s.codes, c))
    && Distinct(s.used)
    && (s.factor.Some? ==> s.factor.value.secret in s.offered)
    && (forall a | a in s.requests && s.requests[a].Confirming? :: s.requests[a].secret in s.offered)
    && (s.factor.None? ==> forall a | a in s.requests :: !s.requests[a].Confirming?)
  }

  lemma InvStep(s: State, e: Event)
    requires Inv(s) && Guard(s, e)
    ensures Inv(Apply(s, e))
  {
  }

  lemma {:induction false} InvAlways(states: seq<State>, events: seq<Event>, i: nat)
    requires IsRun(states, events) && i < |states|
    ensures Inv(states[i])
  {
    if i > 0 {
      InvAlways(states, events, i - 1);
      assert StepAt(states, events, i - 1);
      InvStep(states[i - 1], events[i - 1]);
    }
  }

  /** Over any interleaving each recovery code is accepted at most once, and only if it was
      issued. */
  lemma EachCodeOnce(states: seq<State>, events: seq<Event>, i: nat)
    requires IsRun(states, events) && i < |states|
    ensures Distinct(states[i].used) && forall c | c in states[i].used :: c in states[i].issued
  {
    InvAlways(states, events, i);
  }

  /** Step k is a use of the code. */
  predicate Takes(states: seq<State>, events: seq<Event>, k: nat, code: string)
    requires k < |events| < |states|
  {
    events[k].Spend? && events[k].a in states[k].requests && states[k].requests[events[k].a] == Spending(code)
  }

  lemma {:induction false} StillSpendable(states: seq<State>, events: seq<Event>, i: nat, j: nat, code: string)
    requires IsRun(states, events) && i <= j < |states| && Spendable(states[i].codes, code)
    requires forall k | i <= k < j :: !events[k].Confirm? && !Takes(states, events, k, code)
    ensures Spendable(states[j].codes, code)
    decreases j
  {
    if i < j {
      StillSpendable(states, events, i, j - 1, code);
      assert StepAt(states, events, j - 1);
      assert !Takes(states, events, j - 1, code);
    }
  }

  /** The other direction: the code is accepted at its first use after the confirmation that
      issued it, unless a later confirmation replaced the codes. */
  lemma {:induction false} FirstUseIsAccepted(states: seq<State>, events: seq<Event>, i: nat, j: nat, code: string)
    requires IsRun(states, events) && i < j < |events|
    requires events[i].Confirm? && code in events[i].codes
    requires forall k | i < k < j :: !events[k].Confirm? && !Takes(states, events, k, code)
    requires events[j].Spend? && events[j].a in states[j].requests && states[j].requests[events[j].a] == Spending(code)
    ensures states[j + 1].used == states[j].used + [code]
  {
    assert StepAt(states, events, i);
    StillSpendable(states, events, i + 1, j, code);
    assert StepAt(states, events, j);
  }

  /** Step i issued the code, and no step from then to j took it or issued others. */
  ghost predicate Unspent(states: seq<State>, events: seq<Event>, i: nat, j: nat, code: string)
    requires i < j <= |events| < |states|
  {
    && events[i].Confirm? && code in events[i].codes
    && forall k | i < k < j :: !events[k].Confirm? && !Takes(states, events, k, code)
  }

  /** A code that can be spent was issued by the latest confirmation and not taken since. */
  lemma {:induction false} SpendableSince(states: seq<State>, events: seq<Event>, j: nat, code: string)
    returns (i: nat)
    requires IsRun(states, events) && j < |states| && Spendable(states[j].codes, code)
    ensures i < j && Unspent(states, events, i, j, code)
    decreases j
  {
    assert StepAt(states, events, j - 1);
    if events[j - 1].Confirm? {
      i := j - 1;
    } else {
      i := SpendableSince(states, events, j - 1, code);
    }
  }

  /** A recovery code is accepted exactly if it is one of the ten that the latest confirmation
      issued, and this is its first use. */
  lemma AcceptedIff(states: seq<State>, events: seq<Event>, j: nat, code: string)
    requires IsRun(states, events) && j < |events| && Takes(states, events, j, code)
    ensures states[j + 1].used == states[j].used + [code]
            <==> exists i | 0 <= i < j :: Unspent(states, events, i, j, code)
    ensures states[j + 1].used == states[j].used || states[j + 1].used == states[j].used + [code]
    ensures forall i | 0 <= i < j && Unspent(states, events, i, j, code) ::
              |events[i].codes| == 10 && Distinct(events[i].codes)
  {
    assert StepAt(states, events, j);
    assert states[j + 1].used == states[j].used + [code] <==> Spendable(states[j].codes, code);
    if Spendable(states[j].codes, code) {
      var i := SpendableSince(states, events, j, code);
    }
    forall i | 0 <= i < j && Unspent(states, events, i, j, code)
      ensures Spendable(states[j].codes, code) && |events[i].codes| == 10 && Distinct(events[i].codes)
    {
      assert StepAt(states, events, i);
      StillSpendable(states, events, i + 1, j, code);
    }
  }

  // ----- Which secret a confirmation activates -----

  /** Step k replaces the pending secret. */
  predicate Replaces(states: seq<State>, events: seq<Event>, k: nat)
    requires k < |events| < |states|
  {
    events[k].Begin? && (states[k].factor.None? || states[k].factor.value.pending)
  }

  /** The row holds the secret that was read, exactly as long as no enrolment replaced it:
      secrets are never generated twice. */
  lemma {:induction false} SecretIsTheOneRead(states: seq<State>, events: seq<Event>, i: nat, j: nat, secret: string)
    requires IsRun(states, events) && i <= j < |states| && states[i].factor.Some?
        && states[i].factor.value.secret == secret
    ensures states[j].factor.Some? && secret in states[j].offered
    ensures states[j].factor.value.secret == secret <==> forall k | i <= k < j :: !Replaces(states, events, k)
    decreases j
  {
    InvAlways(states, events, i);
    if i < j {
      SecretIsTheOneRead(states, events, i, j - 1, secret);
      assert StepAt(states, events, j - 1);
      if Replaces(states, events, j - 1) {
        assert states[j].factor.value.secret == events[j - 1].secret != secret;
      } else {
        assert states[j].factor.value.secret == states[j - 1].factor.value.secret;
      }
    }
  }

  predicate Ends(e: Event, a: nat) {
    (e.Confirm? || e.Spend? || e.GiveUp?) && e.a == a
  }

  lemma {:induction false} StillConfirming(states: seq<State>, events: seq<Event>, i: nat, j: nat, a: nat)
    requires IsRun(states, events) && i <= j < |states| && a in states[i].requests
    requires forall k | i <= k < j :: !Ends(events[k], a)
    ensures a in states[j].requests && states[j].requests[a] == states[i].requests[a]
    decreases j
  {
    if i < j {
      StillConfirming(states, events, i, j - 1, a);
      assert StepAt(states, events, j - 1) && !Ends(events[j - 1], a);
    }
  }

  /** A request that gave up confirms and spends nothing. */
  lemma {:induction false} GivenUpForGood(states: seq<State>, events: seq<Event>, i: nat, j: nat, a: nat)
    requires IsRun(states, events) && i < j < |states| && Ends(events[i], a)
    requires forall k | i < k < j :: !((events[k].Verify? || events[k].Check?) && events[k].a == a)
    ensures a !in states[j].requests
    decreases j
  {
    assert StepAt(states, events, j - 1);
    if i < j - 1 { GivenUpForGood(states, events, i, j - 1, a); }
  }

  /** A confirmation leaves the factor active, and with the secret whose TOTP code it verified
      exactly if no enrolment replaced it between the two statements. */
  lemma ConfirmsWhatItVerified(states: seq<State>, events: seq<Event>, i: nat, j: nat, a: nat)
    requires IsRun(states, events) && i < j < |events| && events[i] == Verify(a) && events[j].Confirm?
        && events[j].a == a
    requires forall k | i < k < j :: !Ends(events[k], a)
    ensures a in states[j].requests && states[j].requests[a].Confirming?
    ensures ActiveWith(states[j + 1].factor, states[j].requests[a].secret)
            <==> forall k | i < k < j :: !Replaces(states, events, k)
    ensures states[j + 1].factor.Some? && !states[j + 1].factor.value.pending
  {
    assert StepAt(states, events, i) && StepAt(states, events, j);
    StillConfirming(states, events, i + 1, j, a);
    SecretIsTheOneRead(states, events, i + 1, j, states[i].factor.value.secret);
  }

  /** The guard is needed: a second enrolment between the statements of a confirmation ends up
      active although no code of it was ever verified. */
  lemma UnverifiedSecretMayBecomeActive(codes: seq<string>)
    requires |codes| == CODES && Distinct(codes)
    ensures exists states: seq<State>, events: seq<Event> ::
              IsRun(states, events) && events == [Begin("x"), Verify(0), Begin("y"), Confirm(0, codes)]
              && states[2].requests == map[0 := Confirming("x")] && ActiveWith(states[4].factor, "y")
  {
    var events := [Begin("x"), Verify(0), Begin("y"), Confirm(0, codes)];
    var s1 := Apply(INIT, events[0]);
    var s2 := Apply(s1, events[1]);
    var s3 := Apply(s2, events[2]);
    var s4 := Apply(s3, events[3]);
    var states := [INIT, s1, s2, s3, s4];
    assert forall i | 0 <= i < |events| :: StepAt(states, events, i);
    assert IsRun(states, events);
  }

  /** The steps of an enrolment and of one sign-in with a code, when nothing comes between. */
  function Enrolment(a: nat, secret: string, codes: seq<string>, code: string): seq<Event> {
    [Begin(secret), Verify(a), Confirm(a, codes), Check(a, code), Spend(a)]
  }

  lemma RunOn(states: seq<State>, events: seq<Event>, e: Event) returns (more: seq<State>)
    requires IsRun(states, events) && Guard(states[|events|], e)
    ensures IsRun(more, events + [e]) && more[|events| + 1] == Apply(states[|events|], e)
  {
    hide Apply, Guard;
    more := states + [Apply(states[|events|], e)];
    forall i | 0 <= i < |events + [e]| ensures StepAt(more, events + [e], i) {
      if i < |events| { assert StepAt(states, events, i); }
    }
  }

  /** Enrolment works as long as no factor is active: undisturbed, it makes the secret it offered
      active, and each of its codes is then accepted. */
  lemma EnrolmentGoesThrough(states: seq<State>, events: seq<Event>, a: nat, secret: string, codes: seq<string>,
                             code: string) returns (all: seq<State>)
    requires IsRun(states, events)
    requires var s := states[|events|];
      && (s.factor.None? || s.factor.value.pending) && a !in s.requests && secret !in s.offered
      && |codes| == 10 && Distinct(codes) && code in codes && forall c | c in codes :: c !in s.issued
    ensures IsRun(all, events + Enrolment(a, secret, codes, code))
    ensures all[|events| + 5].factor == Some(Factor(secret, false))
    ensures all[|events| + 5].used == states[|events|].used + [code]
  {
    hide IsRun;
    var es := Enrolment(a, secret, codes, code);
    var one := RunOn(states, events, es[0]);
    var two := RunOn(one, events + [es[0]], es[1]);
    var three := RunOn(two, events + [es[0]] + [es[1]], es[2]);
    var four := RunOn(three, events + [es[0]] + [es[1]] + [es[2]], es[3]);
    all := RunOn(four, events + [es[0]] + [es[1]] + [es[2]] + [es[3]], es[4]);
    assert events + [es[0]] + [es[1]] + [es[2]] + [es[3]] + [es[4]] == events + es;
  }

  // ----- The rows, changed in place -----

  class Table {
    var factor: Option<Factor>
    var codes: Codes

    constructor ()
      ensures factor == None && codes == map[]
    {
      factor, codes := None, map[];
    }

    /** BeginMFA: answers with an error when no row was affected. */
    method Begin(secret: string) returns (ok: bool)
      modifies this`factor
      ensures factor == Upsert(old(factor), secret)
      ensures factor == if ok then Some(Factor(secret, true)) else old(factor)
      ensures ok <==> !(exists x :: ActiveWith(old(factor), x))
    {
      if factor.Some? && !factor.value.pending {
        assert ActiveWith(factor, factor.value.secret);
        return false;
      }
      factor := Some(Factor(secret, true));
      ok := true;
    }

    /** The transaction of ConfirmMFA: the primary key refuses a code given twice, and then
        nothing is changed. */
    method Confirm(given: seq<string>) returns (ok: bool)
      modifies this
      ensures ok <==> Distinct(given)
      ensures codes == if ok then Fresh(given) else old(codes)
      ensures ok ==> forall c :: c in codes <==> c in given
      ensures ok ==> forall c | c in codes :: !codes[c]
      ensures factor == if ok && old(factor).Some? then Some(old(factor).value.(pending := false)) else old(factor)
    {
      var rows: Codes := map[];
      for i := 0 to |given|
        invariant rows == Fresh(given[..i]) && Distinct(given[..i])
      {
        if given[i] in rows {
          return false;
        }
        rows := rows[given[i] := false];
        assert given[..i + 1] == given[..i] + [given[i]];
      }
      assert given[..|given|] == given;
      codes := rows;
      if factor.Some? {
        factor := Some(factor.value.(pending := false));
      }
      ok := true;
    }

    /** The second factor of one sign-in; totp says whether the code is a TOTP code of the
        secret now. */
    method Verify(code: string, totp: string -> bool) returns (ok: bool)
      modifies this`codes
      ensures ok <==> old(factor).Some? && !old(factor).value.pending
                      && (totp(old(factor).value.secret) || (code in old(codes) && !old(codes)[code]))
      ensures codes == if ok && !totp(old(factor).value.secret) then old(codes)[code := true] else old(codes)
    {
      if factor.None? || factor.value.pending {
        return false;
      }
      if totp(factor.value.secret) {
        return true;
      }
      if code !in codes || codes[code] {
        return false;
      }
      codes := codes[code := true];
      ok := true;
    }
  }
}
