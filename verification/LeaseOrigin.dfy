/** Where a lease comes from: every lease, and every copy of it that a request holds, says what
    its launch was asked for. */
module LeaseOrigin {
  import opened Options
  import opened Leases
  import opened LeaseSafety

  /** What a launch was asked for, and when. */
  datatype Terms = Terms(connection: nat, fingerprint: nat, drive: bool, at: int)

  /** The lease is for that connection, as it then was; it ends half an hour later and has files
      exactly if the launch asked for a drive. */
  predicate Fits(l: Lease, key: Key, terms: Terms) {
    && l.id == key.id && l.owner == key.cookie
    && l.connection == terms.connection && l.fingerprint == terms.fingerprint
    && l.expires == terms.at + 30 * 60 && l.files == if terms.drive then Some(key.id) else None
  }

  /** Actors that hold a lease still to be inserted, or a copy of one. */
  predicate Bears(a: Actor) {
    HasDraft(a) || Attending(a)
  }

  function KeyOf(a: Actor): Key
    requires Bears(a)
  {
    if HasDraft(a) then DraftKey(a) else a.key
  }

  function LeaseOf(a: Actor): Lease
    requires Bears(a)
  {
    if HasDraft(a) then Draft(a) else a.seen
  }

  /** The id has been drawn for key, and whatever bears it fits the terms. */
  ghost predicate Origin(s: State, key: Key, terms: Terms) {
    && key.id in s.drawn
    && (forall k | k in s.leases && k.id == key.id :: k == key && Fits(s.leases[k], key, terms))
    && (forall b | b in s.actors && Bears(s.actors[b]) && KeyOf(s.actors[b]).id == key.id ::
          KeyOf(s.actors[b]) == key && Fits(LeaseOf(s.actors[b]), key, terms))
  }

  /** What a bears after a step it bore before, but for a token it has just got, or it is the
      copy of a lease in the map. */
  predicate Carried(s: State, t: State, a: nat) {
    a in t.actors && Bears(t.actors[a]) ==>
      var b, l := t.actors[a], LeaseOf(t.actors[a]);
      !b.Launching? &&
      (|| (a in s.actors && Bears(s.actors[a])
           && KeyOf(b) == KeyOf(s.actors[a]) && HasDraft(b) == HasDraft(s.actors[a])
           && l == LeaseOf(s.actors[a]).(token := l.token)
           && (s.actors[a].Launching? || l.token == LeaseOf(s.actors[a]).token))
       || (!HasDraft(b) && KeyOf(b) in s.leases && l == s.leases[KeyOf(b)]))
  }

  /** Every lease after a step was there before, but for its flag, or a bore it. */
  ghost predicate Placed(s: State, t: State, a: nat) {
    forall k | k in t.leases ::
      || (k in s.leases && t.leases[k] == s.leases[k].(active := t.leases[k].active))
      || (a in s.actors && Bears(s.actors[a]) && !s.actors[a].Launching?
          && KeyOf(s.actors[a]) == k && t.leases[k] == LeaseOf(s.actors[a]))
  }

  lemma CarriedKeepsOrigin(s: State, t: State, a: nat, key: Key, terms: Terms)
    requires Origin(s, key, terms) && Others(s, t, a) && Carried(s, t, a) && Placed(s, t, a) && s.drawn <= t.drawn
    ensures Origin(t, key, terms)
  {
  }

  lemma BeginKeepsOrigin(s: State, a: nat, e: LaunchStep, key: Key, terms: Terms)
    requires Origin(s, key, terms) && LaunchGuard(s, a, e) && e.Begin?
    ensures Origin(ApplyLaunch(s, a, e), key, terms)
  {
    LaunchLeavesOthers(s, a, e);
  }

  lemma LaunchCarries(s: State, a: nat, e: LaunchStep)
    requires LaunchGuard(s, a, e) && !e.Begin?
    ensures var t := ApplyLaunch(s, a, e); Carried(s, t, a) && s.drawn <= t.drawn
  {
    hide Detached, Owned;
  }

  lemma LaunchPlaces(s: State, a: nat, e: LaunchStep)
    requires LaunchGuard(s, a, e) && !e.Begin?
    ensures Placed(s, ApplyLaunch(s, a, e), a)
  {
    hide Detached, Owned;
  }

  lemma RemoveCarries(s: State, a: nat, e: RemoveStep)
    requires RemoveGuard(s, a, e)
    ensures var t := ApplyRemove(s, a, e); Carried(s, t, a) && s.drawn <= t.drawn
  {
    hide Detached, ListTokens;
  }

  lemma RemovePlaces(s: State, a: nat, e: RemoveStep)
    requires RemoveGuard(s, a, e)
    ensures Placed(s, ApplyRemove(s, a, e), a)
  {
    RemoveShrinks(s, a, e);
  }

  lemma ServeCarries(s: State, a: nat, e: ServeStep)
    requires ServeGuard(s, a, e)
    ensures var t := ApplyServe(s, a, e); Others(s, t, a) && Carried(s, t, a) && Placed(s, t, a) && s.drawn <= t.drawn
  {
  }

  lemma RestKeepsOrigin(s: State, e: Event, key: Key, terms: Terms)
    requires Origin(s, key, terms) && Guard(s, e) && (e.Advance? || e.Change? || e.Watching?)
    ensures Origin(Apply(s, e), key, terms)
  {
  }

  lemma OriginStep(s: State, e: Event, key: Key, terms: Terms)
    requires Origin(s, key, terms) && Guard(s, e)
    ensures Origin(Apply(s, e), key, terms)
  {
    hide Origin, Carried, Placed, Others, ApplyLaunch, ApplyRemove, ApplyServe, LaunchGuard, RemoveGuard, ServeGuard;
    match e
    case Launch(a, step) =>
      if step.Begin? {
        BeginKeepsOrigin(s, a, step, key, terms);
      } else {
        LaunchCarries(s, a, step);
        LaunchPlaces(s, a, step);
        LaunchLeavesOthers(s, a, step);
        CarriedKeepsOrigin(s, Apply(s, e), a, key, terms);
      }
    case Remove(a, step) =>
      RemoveCarries(s, a, step);
      RemovePlaces(s, a, step);
      RemoveLeavesOthers(s, a, step);
      CarriedKeepsOrigin(s, Apply(s, e), a, key, terms);
    case Serve(a, step) =>
      ServeCarries(s, a, step);
      CarriedKeepsOrigin(s, Apply(s, e), a, key, terms);
    case _ => RestKeepsOrigin(s, e, key, terms);
  }

  lemma BeginIsOrigin(s: State, a: nat, key: Key, connection: nat, fingerprint: nat, drive: bool)
    requires Ids(s) && Views(s) && LaunchGuard(s, a, Begin(key, connection, fingerprint, drive))
    ensures Origin(ApplyLaunch(s, a, Begin(key, connection, fingerprint, drive)), key,
                   Terms(connection, fingerprint, drive, s.now))
  {
  }

  /** Step i begins the launch of key by a. */
  predicate Launches(events: seq<Event>, i: nat, a: nat, key: Key, connection: nat, fingerprint: nat, drive: bool) {
    i < |events| && events[i] == Launch(a, Begin(key, connection, fingerprint, drive))
  }

  lemma {:induction false} OriginAlways(states: seq<State>, events: seq<Event>, i: nat, j: nat, a: nat, key: Key,
                                        connection: nat, fingerprint: nat, drive: bool)
    requires IsRun(states, events) && Init(states[0]) && i < j < |states|
    requires Launches(events, i, a, key, connection, fingerprint, drive)
    ensures Origin(states[j], key, Terms(connection, fingerprint, drive, states[i].now))
    decreases j
  {
    assert StepAt(states, events, j - 1);
    if j - 1 == i {
      InvInit(states[0]);
      InvAlways(states, events, i);
      BeginIsOrigin(states[i], a, key, connection, fingerprint, drive);
    } else {
      OriginAlways(states, events, i, j - 1, a, key, connection, fingerprint, drive);
      OriginStep(states[j - 1], events[j - 1], key, Terms(connection, fingerprint, drive, states[i].now));
    }
  }

  // ----- And its token -----

  predicate MintedAt(states: seq<State>, events: seq<Event>, m: nat, a: nat, key: Key, token: nat)
    requires m < |events| < |states|
  {
    && events[m] == Launch(a, TokenIssued(token))
    && a in states[m].actors && states[m].actors[a].Launching? && states[m].actors[a].key == key
  }

  /** Before step j the gateway issued the token to a, while a was launching key. */
  ghost predicate Minted(states: seq<State>, events: seq<Event>, j: nat, a: nat, key: Key, token: nat)
    requires j <= |events| < |states|
  {
    exists m :: 0 <= m < j && MintedAt(states, events, m, a, key, token)
  }

  function JustIssued(s: State, e: Event, a: nat, key: Key): set<nat> {
    if e.Launch? && e.a == a && e.launch.TokenIssued?
       && a in s.actors && s.actors[a].Launching? && s.actors[a].key == key
    then {e.launch.token} else {}
  }

  /** The tokens issued so. */
  function Mints(states: seq<State>, events: seq<Event>, j: nat, a: nat, key: Key): set<nat>
    requires j <= |events| < |states|
    decreases j
  {
    if j == 0 then {} else Mints(states, events, j - 1, a, key) + JustIssued(states[j - 1], events[j - 1], a, key)
  }

  lemma {:induction false} MintsAreMinted(states: seq<State>, events: seq<Event>, j: nat, a: nat, key: Key, token: nat)
    requires j <= |events| < |states| && token in Mints(states, events, j, a, key)
    ensures Minted(states, events, j, a, key, token)
    decreases j
  {
    if token in Mints(states, events, j - 1, a, key) {
      MintsAreMinted(states, events, j - 1, a, key, token);
    } else {
      assert MintedAt(states, events, j - 1, a, key, token);
    }
  }

  /** Only a launches key, and whatever bears it has one of the tokens, but for the start of
      that launch. */
  ghost predicate Tokened(s: State, a: nat, key: Key, tokens: set<nat>) {
    && (forall k | k in s.leases && k.id == key.id :: k == key && s.leases[k].token in tokens)
    && (forall b | b in s.actors && Bears(s.actors[b]) && KeyOf(s.actors[b]).id == key.id ::
          KeyOf(s.actors[b]) == key && (HasDraft(s.actors[b]) ==> b == a)
          && (s.actors[b].Launching? || LeaseOf(s.actors[b]).token in tokens))
  }

  lemma CarriedKeepsTokens(s: State, t: State, actor: nat, a: nat, key: Key, tokens: set<nat>, more: set<nat>)
    requires Tokened(s, a, key, tokens) && Others(s, t, actor) && Carried(s, t, actor) && Placed(s, t, actor)
    requires (actor in s.actors && s.actors[actor].Launching? && actor in t.actors && Bears(t.actors[actor])
              && KeyOf(t.actors[actor]).id == key.id) ==> LeaseOf(t.actors[actor]).token in more
    ensures Tokened(t, a, key, tokens + more)
  {
  }

  lemma LaunchMints(s: State, a: nat, e: LaunchStep)
    requires LaunchGuard(s, a, e) && a in s.actors && s.actors[a].Launching?
    requires a in ApplyLaunch(s, a, e).actors && Bears(ApplyLaunch(s, a, e).actors[a])
    ensures KeyOf(ApplyLaunch(s, a, e).actors[a]) == s.actors[a].key
    ensures JustIssued(s, Launch(a, e), a, s.actors[a].key) == {LeaseOf(ApplyLaunch(s, a, e).actors[a]).token}
  {
    hide Detached, Owned;
  }

  lemma BeginKeepsTokens(s: State, b: nat, e: LaunchStep, a: nat, key: Key, tokens: set<nat>)
    requires Tokened(s, a, key, tokens) && key.id in s.drawn && LaunchGuard(s, b, e) && e.Begin?
    ensures Tokened(ApplyLaunch(s, b, e), a, key, tokens)
  {
    LaunchLeavesOthers(s, b, e);
  }

  lemma RestKeepsTokens(s: State, e: Event, a: nat, key: Key, tokens: set<nat>)
    requires Tokened(s, a, key, tokens) && Guard(s, e) && (e.Advance? || e.Change? || e.Watching?)
    ensures Tokened(Apply(s, e), a, key, tokens)
  {
  }

  lemma LaunchKeepsTokens(s: State, b: nat, e: LaunchStep, a: nat, key: Key, tokens: set<nat>)
    requires Tokened(s, a, key, tokens) && key.id in s.drawn && LaunchGuard(s, b, e)
    ensures Tokened(ApplyLaunch(s, b, e), a, key, tokens + JustIssued(s, Launch(b, e), a, key))
  {
    var t, more := ApplyLaunch(s, b, e), JustIssued(s, Launch(b, e), a, key);
    if e.Begin? {
      BeginKeepsTokens(s, b, e, a, key, tokens);
      assert tokens + more == tokens;
    } else {
      LaunchCarries(s, b, e);
      LaunchPlaces(s, b, e);
      LaunchLeavesOthers(s, b, e);
      if b in s.actors && s.actors[b].Launching?
         && b in t.actors && Bears(t.actors[b]) && KeyOf(t.actors[b]).id == key.id {
        LaunchMints(s, b, e);
      }
      hide ApplyLaunch, LaunchGuard, Others, Carried, Placed;
      CarriedKeepsTokens(s, t, b, a, key, tokens, more);
    }
  }

  lemma NoLaunchRemoves(s: State, a: nat, e: RemoveStep)
    requires RemoveGuard(s, a, e)
    ensures a in s.actors ==> !s.actors[a].Launching?
  {
  }

  lemma NoLaunchServes(s: State, a: nat, e: ServeStep)
    requires ServeGuard(s, a, e)
    ensures a in s.actors ==> !s.actors[a].Launching?
  {
  }

  lemma TokenedStep(s: State, e: Event, a: nat, key: Key, tokens: set<nat>)
    requires Tokened(s, a, key, tokens) && key.id in s.drawn && Guard(s, e)
    ensures Tokened(Apply(s, e), a, key, tokens + JustIssued(s, e, a, key))
  {
    assert !e.Launch? ==> tokens + JustIssued(s, e, a, key) == tokens + {} == tokens;
    hide Tokened, Carried, Placed, Others, JustIssued;
    match e
    case Launch(b, step) => LaunchKeepsTokens(s, b, step, a, key, tokens);
    case Remove(b, step) =>
      RemoveCarries(s, b, step);
      RemovePlaces(s, b, step);
      RemoveLeavesOthers(s, b, step);
      NoLaunchRemoves(s, b, step);
      CarriedKeepsTokens(s, Apply(s, e), b, a, key, tokens, {});
    case Serve(b, step) =>
      ServeCarries(s, b, step);
      NoLaunchServes(s, b, step);
      CarriedKeepsTokens(s, Apply(s, e), b, a, key, tokens, {});
    case _ => RestKeepsTokens(s, e, a, key, tokens);
  }

  lemma BeginIsTokened(s: State, a: nat, key: Key, connection: nat, fingerprint: nat, drive: bool)
    requires Ids(s) && Views(s) && LaunchGuard(s, a, Begin(key, connection, fingerprint, drive))
    ensures Tokened(ApplyLaunch(s, a, Begin(key, connection, fingerprint, drive)), a, key, {})
  {
  }

  lemma FirstTokens(s: State, a: nat, key: Key, connection: nat, fingerprint: nat, drive: bool, tokens: set<nat>)
    requires Inv(s) && Guard(s, Launch(a, Begin(key, connection, fingerprint, drive)))
    ensures var e := Launch(a, Begin(key, connection, fingerprint, drive));
      Tokened(Apply(s, e), a, key, tokens + JustIssued(s, e, a, key))
  {
    BeginIsTokened(s, a, key, connection, fingerprint, drive);
  }

  lemma OriginDraws(s: State, key: Key, terms: Terms)
    requires Origin(s, key, terms)
    ensures key.id in s.drawn
  {
  }

  lemma {:induction false} TokenedAlways(states: seq<State>, events: seq<Event>, i: nat, j: nat, a: nat, key: Key,
                                         connection: nat, fingerprint: nat, drive: bool)
    requires IsRun(states, events) && Init(states[0]) && i < j < |states|
    requires Launches(events, i, a, key, connection, fingerprint, drive)
    ensures Tokened(states[j], a, key, Mints(states, events, j, a, key))
    decreases j
  {
    assert StepAt(states, events, j - 1);
    hide Tokened, Apply, Guard, Init, Inv, Origin;
    if j - 1 == i {
      InvInit(states[0]);
      InvAlways(states, events, i);
      FirstTokens(states[i], a, key, connection, fingerprint, drive, Mints(states, events, i, a, key));
    } else {
      TokenedAlways(states, events, i, j - 1, a, key, connection, fingerprint, drive);
      OriginAlways(states, events, i, j - 1, a, key, connection, fingerprint, drive);
      OriginDraws(states[j - 1], key, Terms(connection, fingerprint, drive, states[i].now));
      TokenedStep(states[j - 1], events[j - 1], a, key, Mints(states, events, j - 1, a, key));
    }
  }

  // ----- Every lease has one -----

  lemma DrawsOnlyBegin(s: State, e: Event, id: nat)
    requires Guard(s, e) && id !in s.drawn && id in Apply(s, e).drawn
    ensures e.Launch? && e.launch.Begin? && e.launch.key.id == id
  {
    hide Detached, Owned, ListTokens;
  }

  /** A drawn id was drawn by some launch. */
  lemma {:induction false} DrawnByLaunch(states: seq<State>, events: seq<Event>, j: nat, id: nat)
    returns (i: nat, a: nat, key: Key, connection: nat, fingerprint: nat, drive: bool)
    requires IsRun(states, events) && Init(states[0]) && j < |states| && id in states[j].drawn
    ensures i < j && Launches(events, i, a, key, connection, fingerprint, drive) && key.id == id
    decreases j
  {
    assert StepAt(states, events, j - 1);
    if id in states[j - 1].drawn {
      i, a, key, connection, fingerprint, drive := DrawnByLaunch(states, events, j - 1, id);
    } else {
      var e := events[j - 1];
      DrawsOnlyBegin(states[j - 1], e, id);
      i, a, key := j - 1, e.a, e.launch.key;
      connection, fingerprint, drive := e.launch.connection, e.launch.fingerprint, e.launch.drive;
    }
  }

  /** Each lease in the map, at any time, is what one launch of its key was asked for. */
  lemma LeaseIsAsAsked(states: seq<State>, events: seq<Event>, j: nat, key: Key)
    returns (i: nat, a: nat, connection: nat, fingerprint: nat, drive: bool)
    requires IsRun(states, events) && Init(states[0]) && j < |states| && key in states[j].leases
    ensures i < j && Launches(events, i, a, key, connection, fingerprint, drive)
    ensures var l := states[j].leases[key];
      && l.id == key.id && l.owner == key.cookie && l.connection == connection && l.fingerprint == fingerprint
      && l.expires == states[i].now + 1800 && l.files == (if drive then Some(key.id) else None)
      && Minted(states, events, j, a, key, l.token)
  {
    InvInit(states[0]);
    InvAlways(states, events, j);
    var own: Key;
    i, a, own, connection, fingerprint, drive := DrawnByLaunch(states, events, j, key.id);
    OriginAlways(states, events, i, j, a, own, connection, fingerprint, drive);
    TokenedAlways(states, events, i, j, a, own, connection, fingerprint, drive);
    MintsAreMinted(states, events, j, a, own, states[j].leases[key].token);
  }

  /** A request is only let on to a lease within half an hour of its launch. */
  lemma ServedWithinHalfAnHour(states: seq<State>, events: seq<Event>, j: nat, a: nat, key: Key)
    returns (i: nat, launcher: nat, connection: nat, fingerprint: nat, drive: bool)
    requires IsRun(states, events) && Init(states[0]) && j < |events| && events[j] == Serve(a, Lookup(key))
    ensures i < j && Launches(events, i, launcher, key, connection, fingerprint, drive)
    ensures states[j].now <= states[i].now + 1800
  {
    assert StepAt(states, events, j);
    i, launcher, connection, fingerprint, drive := LeaseIsAsAsked(states, events, j, key);
  }

  // ----- The clock, the world, and requests that are over -----

  /** What a step tells about the time. */
  function Clock(e: Event): Option<int> {
    match e
    case Advance(to) => Some(to)
    case Launch(_, step) => if step.Sweep? then Some(step.to) else None
    case Remove(_, step) => if step.TickerSweep? then Some(step.to) else None
    case _ => None
  }

  lemma ClockStep(s: State, e: Event)
    requires Guard(s, e)
    ensures Apply(s, e).now == (if Clock(e).Some? then Clock(e).value else s.now) >= s.now
    ensures Apply(s, e).world == if e.Change? then e.world else s.world
  {
    hide Detached, Owned, ListTokens, Elems;
  }

  /** The clock stands at the last time told, and the logins, permissions and connections are
      as they were last changed; no request changes them. */
  lemma {:induction false} SurroundingsAreAsTold(states: seq<State>, events: seq<Event>, i: nat, j: nat)
    requires IsRun(states, events) && i < j < |states|
    ensures Clock(events[i]).Some? && (forall k | i < k < j :: Clock(events[k]).None?) ==>
              states[j].now == Clock(events[i]).value
    ensures events[i].Change? && (forall k | i < k < j :: !events[k].Change?) ==> states[j].world == events[i].world
    ensures states[i].now <= states[j].now
    decreases j
  {
    hide Apply, Guard, Clock;
    assert StepAt(states, events, j - 1);
    ClockStep(states[j - 1], events[j - 1]);
    if i < j - 1 { SurroundingsAreAsTold(states, events, i, j - 1); }
  }

  /** The actor whose step it is starts with it. */
  predicate Starts(e: Event, a: nat) {
    match e
    case Launch(b, step) => b == a && step.Begin?
    case Remove(b, step) => b == a && (step.TickerSweep? || step.CloseSession? || step.Stop?)
    case Serve(b, step) => b == a && step.Lookup?
    case _ => false
  }

  lemma OnlyStartsAppear(s: State, e: Event, a: nat)
    requires Guard(s, e) && a !in s.actors && !Starts(e, a)
    ensures a !in Apply(s, e).actors
  {
    hide Detached, Owned, ListTokens, Elems;
  }

  /** A request that gave up or finished takes no further step. */
  lemma {:induction false} OverForGood(states: seq<State>, events: seq<Event>, i: nat, j: nat, a: nat)
    requires IsRun(states, events) && i < j < |states|
    requires events[i] == Serve(a, GiveUp) || events[i] == Serve(a, Finish)
    requires forall k | i < k < j :: !Starts(events[k], a)
    ensures a !in states[j].actors
    decreases j
  {
    assert StepAt(states, events, j - 1);
    if i < j - 1 {
      hide Apply, Guard, Starts;
      OverForGood(states, events, i, j - 1, a);
      OnlyStartsAppear(states[j - 1], events[j - 1], a);
    }
  }
}
