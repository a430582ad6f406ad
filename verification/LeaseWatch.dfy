/** Watchers: what cuts a tunnel or a file operation off, and how soon. */
module LeaseWatch {
  import opened LeaseOrigin
  import opened Leases
  import opened LeaseSafety

  datatype Cause = LeaseRemoved | LoggedOut | Forbidden | Changed

  /** The reason for which work under key, on the lease copy seen, must end. */
  predicate Lost(s: State, key: Key, seen: Lease, cause: Cause) {
    match cause
    case LeaseRemoved => key !in s.leases
    case LoggedOut => key.cookie !in s.world.loggedIn
    case Forbidden => key.cookie !in s.world.permitted
    case Changed => !FingerprintSame(s.world, seen)
  }

  // ----- A removed lease never returns -----

  lemma RemovedStep(s: State, e: Event, key: Key)
    requires Ids(s) && Guard(s, e) && key.id in s.entered && key !in s.leases
    ensures var t := Apply(s, e);
      key.id in t.entered && key !in t.leases && forall a | TunnelOn(t, a, key) :: TunnelOn(s, a, key)
  {
    match e
    case Launch(a, step) => LaunchShape(s, a, step);
    case Remove(a, step) => RemoveShape(s, a, step);
    case Serve(a, step) => ServeShape(s, a, step);
    case _ =>
  }

  /** Once a lease is gone its key stays gone, and no tunnel is claimed on it any more. */
  lemma {:induction false} RemovedForGood(states: seq<State>, events: seq<Event>, i: nat, j: nat, key: Key)
    requires IsRun(states, events) && Init(states[0]) && i <= j < |states|
    requires key.id in states[i].entered && key !in states[i].leases
    ensures key.id in states[j].entered && key !in states[j].leases
    ensures forall a | TunnelOn(states[j], a, key) :: TunnelOn(states[i], a, key)
    decreases j
  {
    if i < j {
      RemovedForGood(states, events, i, j - 1, key);
      InvInit(states[0]);
      InvAlways(states, events, j - 1);
      assert StepAt(states, events, j - 1);
      RemovedStep(states[j - 1], events[j - 1], key);
    }
  }

  // ----- A lease lasts until it expires or is closed -----

  /** The session is closed, or the process stops. */
  predicate Closes(e: Event, key: Key) {
    e.Remove? && (e.remove == CloseSession(key) || e.remove.Stop?)
  }

  /** Present before and after, with nothing changed but the flag. */
  predicate StaysIn(s: State, t: State, key: Key) {
    key in s.leases && key in t.leases && t.leases[key] == s.leases[key].(active := t.leases[key].active)
  }

  lemma LaunchKeepsLease(s: State, a: nat, e: LaunchStep, key: Key)
    requires Ids(s) && LaunchGuard(s, a, e) && key in s.leases && ApplyLaunch(s, a, e).now <= s.leases[key].expires
    ensures StaysIn(s, ApplyLaunch(s, a, e), key)
  {
    hide Detached, Owned;
    if e.Insert? {
      assert HasDraft(s.actors[a]) && DraftKey(s.actors[a]) == s.actors[a].key;
    }
  }

  lemma RemoveKeepsLease(s: State, a: nat, e: RemoveStep, key: Key)
    requires RemoveGuard(s, a, e) && key in s.leases && ApplyRemove(s, a, e).now <= s.leases[key].expires
    requires !Closes(Remove(a, e), key)
    ensures StaysIn(s, ApplyRemove(s, a, e), key)
  {
    hide Detached, ListTokens;
  }

  lemma ServeKeepsLease(s: State, a: nat, e: ServeStep, key: Key)
    requires ServeGuard(s, a, e) && key in s.leases
    ensures StaysIn(s, ApplyServe(s, a, e), key)
  {
  }

  lemma RestKeepsLease(s: State, e: Event, key: Key)
    requires Guard(s, e) && (e.Advance? || e.Change? || e.Watching?) && key in s.leases
    ensures StaysIn(s, Apply(s, e), key)
  {
  }

  lemma LeaseStep(s: State, e: Event, key: Key)
    requires Ids(s) && Guard(s, e) && key in s.leases && Apply(s, e).now <= s.leases[key].expires && !Closes(e, key)
    ensures StaysIn(s, Apply(s, e), key)
  {
    hide ApplyLaunch, ApplyRemove, ApplyServe, ApplyWatch, LaunchGuard, RemoveGuard, ServeGuard, Ids, StaysIn, Closes;
    match e
    case Launch(a, step) => LaunchKeepsLease(s, a, step, key);
    case Remove(a, step) => RemoveKeepsLease(s, a, step, key);
    case Serve(a, step) => ServeKeepsLease(s, a, step, key);
    case _ => RestKeepsLease(s, e, key);
  }

  lemma IdsOf(s: State)
    requires Inv(s)
    ensures Ids(s)
  {
    hide Conserved, Accounts, Ids, Views, Claims, Limited;
  }

  lemma IdsAlways(states: seq<State>, events: seq<Event>, i: nat)
    requires IsRun(states, events) && Init(states[0]) && i < |states|
    ensures Ids(states[i])
  {
    hide *;
    InvInit(states[0]);
    InvAlways(states, events, i);
    IdsOf(states[i]);
  }

  lemma SweepTakes(s: State, e: Event, key: Key)
    requires Ids(s) && Guard(s, e) && key in s.leases && s.now > s.leases[key].expires
    requires (e.Remove? && e.remove.TickerSweep?) || (e.Launch? && e.launch.Sweep?)
    ensures key !in Apply(s, e).leases && key.id in Apply(s, e).entered
  {
    hide Detached;
  }

  /** No sweep takes a lease before its time: until it expires it stays as it is, unless its
      session is closed or the process stops. */
  lemma {:induction false} LeaseLastsUntilExpiry(states: seq<State>, events: seq<Event>, i: nat, j: nat, key: Key)
    requires IsRun(states, events) && Init(states[0]) && i <= j < |states|
    requires key in states[i].leases && states[j].now <= states[i].leases[key].expires
    requires forall k | i <= k < j :: !Closes(events[k], key)
    ensures StaysIn(states[i], states[j], key)
    decreases j
  {
    if i < j {
      hide Apply, Guard, Inv, Closes;
      assert StepAt(states, events, j - 1);
      ClockStep(states[j - 1], events[j - 1]);
      LeaseLastsUntilExpiry(states, events, i, j - 1, key);
      IdsAlways(states, events, j - 1);
      LeaseStep(states[j - 1], events[j - 1], key);
    }
  }

  /** The ticker's sweep and that of every launch take all leases that have expired when they
      start, for good. */
  lemma ExpiredIsSwept(states: seq<State>, events: seq<Event>, i: nat, j: nat, key: Key)
    requires IsRun(states, events) && Init(states[0]) && i < j < |states|
    requires (events[i].Remove? && events[i].remove.TickerSweep?) || (events[i].Launch? && events[i].launch.Sweep?)
    requires key in states[i].leases && states[i].now > states[i].leases[key].expires
    ensures key !in states[j].leases
  {
    assert StepAt(states, events, i);
    IdsAlways(states, events, i);
    SweepTakes(states[i], events[i], key);
    hide Apply, Guard;
    RemovedForGood(states, events, i + 1, j, key);
  }

  // ----- One tick -----

  predicate MidTick(s: State, a: nat) {
    Busy(s, a) && s.actors[a].watch != Idle && s.actors[a].watch != Cancelled
  }

  /** The checks already made in this tick have noticed the cause, as far as they cover it. */
  predicate Noticed(w: Watch, cause: Cause)
    requires w.LeaseChecked? || w.LoginChecked? || w.PermitChecked?
  {
    match cause
    case LeaseRemoved => !w.ok
    case LoggedOut => w.LeaseChecked? || !w.ok
    case Forbidden => w.LeaseChecked? || w.LoginChecked? || !w.ok
    case Changed => true
  }

  /** If a is inside a tick, it is still the same work, and the tick is bound to fail. */
  predicate Doomed(s: State, a: nat, key: Key, seen: Lease, cause: Cause) {
    MidTick(s, a) ==>
      s.actors[a].key == key && s.actors[a].seen == seen && Noticed(s.actors[a].watch, cause)
  }

  /** No step but the watcher's own moves a watcher that is inside a tick. */
  lemma OthersDoNotTick(s: State, e: Event, a: nat)
    requires Guard(s, e) && !(e.Watching? && e.a == a) && MidTick(Apply(s, e), a)
    ensures MidTick(s, a) && Apply(s, e).actors[a] == s.actors[a]
  {
    match e
    case Launch(b, step) => LaunchShape(s, b, step);
    case Remove(b, step) => RemoveShape(s, b, step);
    case Serve(b, step) => ServeShape(s, b, step);
    case _ =>
  }

  lemma DoomedStep(s: State, e: Event, a: nat, key: Key, seen: Lease, cause: Cause)
    requires Guard(s, e) && Doomed(s, a, key, seen, cause) && Lost(s, key, seen, cause)
    requires e != Watching(a, CheckLease)
    ensures Doomed(Apply(s, e), a, key, seen, cause)
  {
    if MidTick(Apply(s, e), a) && !(e.Watching? && e.a == a) { OthersDoNotTick(s, e, a); }
  }

  /** The tick that a begins at step i is the one in progress at step j. */
  ghost predicate OneTick(events: seq<Event>, a: nat, i: nat, j: nat) {
    && i < j < |events|
    && events[i] == Watching(a, CheckLease)
    && forall m | i < m < j :: events[m] != Watching(a, CheckLease)
  }

  lemma {:induction false} TickIsDoomed(states: seq<State>, events: seq<Event>, a: nat, i: nat, j: nat,
                                        key: Key, seen: Lease, cause: Cause)
    requires IsRun(states, events) && OneTick(events, a, i, j)
    requires Busy(states[i], a) && states[i].actors[a].key == key && states[i].actors[a].seen == seen
    requires forall m | i <= m <= j :: Lost(states[m], key, seen, cause)
    ensures Doomed(states[j], a, key, seen, cause)
    decreases j
  {
    assert StepAt(states, events, j - 1);
    assert Lost(states[j - 1], key, seen, cause);
    if j - 1 > i {
      TickIsDoomed(states, events, a, i, j - 1, key, seen, cause);
      DoomedStep(states[j - 1], events[j - 1], a, key, seen, cause);
    }
  }

  lemma LostCancels(states: seq<State>, events: seq<Event>, a: nat, i: nat, j: nat, cause: Cause)
    requires IsRun(states, events) && OneTick(events, a, i, j) && events[j] == Watching(a, Validate)
    requires Busy(states[i], a)
    requires forall m | i <= m <= j :: Lost(states[m], states[i].actors[a].key, states[i].actors[a].seen, cause)
    ensures Busy(states[j + 1], a) && states[j + 1].actors[a].watch == Cancelled
  {
    var key, seen := states[i].actors[a].key, states[i].actors[a].seen;
    TickIsDoomed(states, events, a, i, j, key, seen, cause);
    assert StepAt(states, events, j);
    assert Lost(states[j], key, seen, cause);
  }

  /** The same reasons, by what the launch of key was asked for. */
  predicate Gone(s: State, key: Key, connection: nat, fingerprint: nat, cause: Cause) {
    match cause
    case LeaseRemoved => key !in s.leases
    case LoggedOut => key.cookie !in s.world.loggedIn
    case Forbidden => key.cookie !in s.world.permitted
    case Changed => connection !in s.world.fingerprints || s.world.fingerprints[connection] != fingerprint
  }

  lemma SeenAsAsked(states: seq<State>, events: seq<Event>, b: nat, launcher: nat, i: nat, a: nat,
                    key: Key, connection: nat, fingerprint: nat, drive: bool)
    requires IsRun(states, events) && Init(states[0]) && b < i < |states|
    requires Launches(events, b, launcher, key, connection, fingerprint, drive)
    requires Busy(states[i], a) && states[i].actors[a].key == key
    ensures states[i].actors[a].seen.connection == connection && states[i].actors[a].seen.fingerprint == fingerprint
  {
    OriginAlways(states, events, b, i, launcher, key, connection, fingerprint, drive);
    assert Bears(states[i].actors[a]) && KeyOf(states[i].actors[a]) == key;
  }

  /** All work was launched, so the launch that the next two results speak of is always there. */
  lemma WorkWasLaunched(states: seq<State>, events: seq<Event>, i: nat, a: nat)
    returns (b: nat, launcher: nat, connection: nat, fingerprint: nat, drive: bool)
    requires IsRun(states, events) && Init(states[0]) && i < |states| && Busy(states[i], a)
    ensures b < i && Launches(events, b, launcher, states[i].actors[a].key, connection, fingerprint, drive)
  {
    InvInit(states[0]);
    InvAlways(states, events, i);
    assert Attending(states[i].actors[a]);
    var key;
    b, launcher, key, connection, fingerprint, drive := DrawnByLaunch(states, events, i, states[i].actors[a].key.id);
    OriginAlways(states, events, b, i, launcher, key, connection, fingerprint, drive);
    assert Bears(states[i].actors[a]) && KeyOf(states[i].actors[a]) == states[i].actors[a].key;
  }

  /** A tunnel or file operation is cancelled by the end of the first tick that begins after
      its login or permission is lost, or the connection it was launched for no longer has the
      fingerprint it had then, and stays so. */
  lemma LossCancelsWithinATick(states: seq<State>, events: seq<Event>, a: nat, i: nat, j: nat, cause: Cause,
                               b: nat, launcher: nat, key: Key, connection: nat, fingerprint: nat, drive: bool)
    requires IsRun(states, events) && Init(states[0]) && OneTick(events, a, i, j) && events[j] == Watching(a, Validate)
    requires Busy(states[i], a) && states[i].actors[a].key == key
    requires b < i && Launches(events, b, launcher, key, connection, fingerprint, drive)
    requires forall m | i <= m <= j :: Gone(states[m], key, connection, fingerprint, cause)
    ensures Busy(states[j + 1], a) && states[j + 1].actors[a].watch == Cancelled
  {
    SeenAsAsked(states, events, b, launcher, i, a, key, connection, fingerprint, drive);
    forall m | i <= m <= j ensures Lost(states[m], key, states[i].actors[a].seen, cause) {
      assert Gone(states[m], key, connection, fingerprint, cause);
    }
    LostCancels(states, events, a, i, j, cause);
  }

  /** For a lease that was removed, nothing need be assumed about later states. */
  lemma RemovalCancelsWithinATick(states: seq<State>, events: seq<Event>, a: nat, i: nat, j: nat)
    requires IsRun(states, events) && Init(states[0]) && OneTick(events, a, i, j) && events[j] == Watching(a, Validate)
    requires Busy(states[i], a) && states[i].actors[a].key !in states[i].leases
    ensures Busy(states[j + 1], a) && states[j + 1].actors[a].watch == Cancelled
  {
    InvInit(states[0]);
    InvAlways(states, events, i);
    var key, seen := states[i].actors[a].key, states[i].actors[a].seen;
    forall m | i <= m <= j ensures Lost(states[m], key, seen, LeaseRemoved) {
      RemovedForGood(states, events, i, m, key);
    }
    LostCancels(states, events, a, i, j, LeaseRemoved);
  }

  /** If a is inside a tick, it is still the same work and every check so far has passed. */
  predicate Calm(s: State, a: nat, key: Key, seen: Lease) {
    MidTick(s, a) ==> s.actors[a].key == key && s.actors[a].seen == seen && s.actors[a].watch.ok
  }

  lemma CalmStep(s: State, e: Event, a: nat, key: Key, seen: Lease)
    requires Guard(s, e) && Calm(s, a, key, seen) && e != Watching(a, CheckLease)
    requires !Lost(s, key, seen, LoggedOut) && !Lost(s, key, seen, Forbidden)
    ensures Calm(Apply(s, e), a, key, seen)
  {
    if MidTick(Apply(s, e), a) && !(e.Watching? && e.a == a) { OthersDoNotTick(s, e, a); }
  }

  lemma {:induction false} TickIsCalm(states: seq<State>, events: seq<Event>, a: nat, i: nat, j: nat, key: Key,
                                      seen: Lease)
    requires IsRun(states, events) && OneTick(events, a, i, j) && Views(states[i])
    requires Busy(states[i], a) && states[i].actors[a].key == key && states[i].actors[a].seen == seen
    requires forall m, cause | i <= m <= j :: !Lost(states[m], key, seen, cause)
    ensures Calm(states[j], a, key, seen)
    decreases j
  {
    assert StepAt(states, events, j - 1);
    assert !Lost(states[i], key, seen, LeaseRemoved);
    assert !Lost(states[j - 1], key, seen, LoggedOut) && !Lost(states[j - 1], key, seen, Forbidden);
    if j - 1 > i {
      TickIsCalm(states, events, a, i, j - 1, key, seen);
      CalmStep(states[j - 1], events[j - 1], a, key, seen);
    }
  }

  /** Work that keeps its lease, its login and permission, and the fingerprint its connection
      had at the launch, survives the tick. */
  lemma UntouchedWorkSurvives(states: seq<State>, events: seq<Event>, a: nat, i: nat, j: nat,
                              b: nat, launcher: nat, key: Key, connection: nat, fingerprint: nat, drive: bool)
    requires IsRun(states, events) && Init(states[0]) && OneTick(events, a, i, j) && events[j] == Watching(a, Validate)
    requires Busy(states[i], a) && states[i].actors[a].key == key
    requires b < i && Launches(events, b, launcher, key, connection, fingerprint, drive)
    requires forall m, cause | i <= m <= j :: !Gone(states[m], key, connection, fingerprint, cause)
    ensures Busy(states[j + 1], a) && states[j + 1].actors[a].watch == Idle
  {
    SeenAsAsked(states, events, b, launcher, i, a, key, connection, fingerprint, drive);
    var seen := states[i].actors[a].seen;
    forall m, cause | i <= m <= j ensures !Lost(states[m], key, seen, cause) {
      assert !Gone(states[m], key, connection, fingerprint, cause);
    }
    InvInit(states[0]);
    InvAlways(states, events, i);
    TickIsCalm(states, events, a, i, j, key, seen);
    assert StepAt(states, events, j);
    assert !Lost(states[j], key, seen, Changed);
  }

  // ----- Deadlines -----

  /** The request's context is not done. */
  predicate Live(s: State, a: nat) {
    Busy(s, a) && s.actors[a].watch != Cancelled && s.now < s.actors[a].deadline
  }

  /** No context outlives its lease's expiry; and as long as the lease is in the map, a live
      tunnel uses that lease's own token, which has been neither revoked nor dropped. */
  lemma LiveWorkHasItsLease(states: seq<State>, events: seq<Event>, i: nat, a: nat)
    requires IsRun(states, events) && Init(states[0]) && i < |states| && Live(states[i], a)
    ensures var s, w := states[i], states[i].actors[a];
      && s.now < w.seen.expires
      && (w.key in s.leases ==> s.leases[w.key].token == w.seen.token
                                && Token(w.seen.token) !in s.revoked && Token(w.seen.token) !in s.dropped)
  {
    InvInit(states[0]);
    InvAlways(states, events, i);
    var s, w := states[i], states[i].actors[a];
    if w.key in s.leases {
      assert s.leases[w.key].(active := w.seen.active) == w.seen;
      LeaseHoldsAlone(states, events, i, w.key, Token(w.seen.token));
    }
  }

  /** Only its own watcher and its own end touch work under way. */
  lemma OthersLeaveWork(s: State, e: Event, a: nat)
    requires Guard(s, e) && Busy(s, a) && e != Serve(a, Finish) && !(e.Watching? && e.a == a)
    ensures Busy(Apply(s, e), a) && Apply(s, e).actors[a] == s.actors[a]
  {
    match e
    case Launch(b, step) => LaunchShape(s, b, step);
    case Remove(b, step) => RemoveShape(s, b, step);
    case Serve(b, step) => ServeShape(s, b, step);
    case _ =>
  }

  lemma {:induction false} DeadlineStays(states: seq<State>, events: seq<Event>, i: nat, j: nat, a: nat)
    requires IsRun(states, events) && i <= j < |states| && Busy(states[i], a)
    requires forall m | i <= m < j :: events[m] != Serve(a, Finish)
    ensures Busy(states[j], a)
    ensures var v, w := states[i].actors[a], states[j].actors[a];
      w.kind == v.kind && w.key == v.key && w.seen == v.seen && w.deadline == v.deadline
    decreases j
  {
    if i < j {
      DeadlineStays(states, events, i, j - 1, a);
      assert StepAt(states, events, j - 1);
      if !(events[j - 1].Watching? && events[j - 1].a == a) { OthersLeaveWork(states[j - 1], events[j - 1], a); }
    }
  }

  /** A tunnel runs until it is finished or cancelled or its lease expires, and no sooner ends. */
  lemma TunnelRunsUntilExpiry(states: seq<State>, events: seq<Event>, i: nat, j: nat, a: nat)
    requires IsRun(states, events) && i < j < |states| && events[i] == Serve(a, Claim) && Busy(states[i + 1], a)
    requires forall m | i < m < j :: events[m] != Serve(a, Finish)
    ensures Busy(states[j], a) && states[j].actors[a].kind == Tunnel
    ensures Live(states[j], a) <==>
              states[j].actors[a].watch != Cancelled && states[j].now < states[j].actors[a].seen.expires
  {
    assert StepAt(states, events, i);
    DeadlineStays(states, events, i + 1, j, a);
  }

  /** A file operation likewise, but for no more than two minutes. */
  lemma TransferRunsTwoMinutes(states: seq<State>, events: seq<Event>, i: nat, j: nat, a: nat)
    requires IsRun(states, events) && i < j < |states| && events[i] == Serve(a, BeginTransfer)
    requires forall m | i < m < j :: events[m] != Serve(a, Finish)
    ensures Busy(states[j], a) && states[j].actors[a].kind == Transfer
    ensures Live(states[j], a) <==>
              && states[j].actors[a].watch != Cancelled && states[j].now < states[j].actors[a].seen.expires
              && states[j].now < states[i].now + 120
  {
    assert StepAt(states, events, i);
    DeadlineStays(states, events, i + 1, j, a);
  }

  // ----- File operations whose space is closed -----

  /** A file operation on a space that has been closed. */
  predicate Stranded(s: State, a: nat) {
    && Busy(s, a) && s.actors[a].kind == Transfer
    && s.actors[a].seen.files.Some? && Space(s.actors[a].seen.files.value) in s.closed
  }

  /** How many steps its watcher can still make before the operation is cancelled. A tick that
      began before the lease went may pass its checks once more. */
  function WatchStepsLeft(w: Watch): nat {
    match w
    case Cancelled => 0
    case Idle => 4
    case LeaseChecked(ok) => if ok then 7 else 3
    case LoginChecked(ok) => if ok then 6 else 2
    case PermitChecked(ok) => if ok then 5 else 1
  }

  function WatcherSteps(events: seq<Event>, a: nat, i: nat, j: nat): nat
    requires i <= j <= |events|
    decreases j
  {
    if i == j then 0
    else WatcherSteps(events, a, i, j - 1) + if events[j - 1].Watching? && events[j - 1].a == a then 1 else 0
  }

  /** Its lease is gone: a present lease's space is open. */
  lemma StrandedHasNoLease(s: State, a: nat)
    requires Inv(s) && Stranded(s, a)
    ensures s.actors[a].key !in s.leases
  {
    var w := s.actors[a];
    if w.key in s.leases {
      assert s.leases[w.key].(active := w.seen.active) == w.seen;
      HeldAlone(s, w.key, Space(w.seen.files.value));
    }
  }

  lemma ClosedStays(s: State, e: Event, r: Resource)
    requires Guard(s, e) && r in s.closed
    ensures r in Apply(s, e).closed
  {
    match e
    case Launch(a, step) => assert s.closed <= ApplyLaunch(s, a, step).closed;
    case Remove(a, step) => assert s.closed <= ApplyRemove(s, a, step).closed;
    case _ =>
  }

  lemma StrandedStep(s: State, e: Event, a: nat)
    requires Inv(s) && Guard(s, e) && Stranded(s, a) && e != Serve(a, Finish)
    ensures Stranded(Apply(s, e), a)
    ensures WatchStepsLeft(Apply(s, e).actors[a].watch) + (if e.Watching? && e.a == a then 1 else 0)
            <= WatchStepsLeft(s.actors[a].watch)
  {
    ClosedStays(s, e, Space(s.actors[a].seen.files.value));
    StrandedHasNoLease(s, a);
    if !(e.Watching? && e.a == a) { OthersLeaveWork(s, e, a); }
  }

  /** A file operation still at work when its space is closed is cancelled after at most seven
      steps of its own watcher: four from idle, one if the watcher takes the closed channel. */
  lemma {:induction false} StrandedWorkIsCancelled(states: seq<State>, events: seq<Event>, a: nat, i: nat, j: nat)
    requires IsRun(states, events) && Init(states[0]) && i <= j < |states| && Stranded(states[i], a)
    requires forall m | i <= m < j :: events[m] != Serve(a, Finish)
    ensures Stranded(states[j], a)
    ensures WatchStepsLeft(states[j].actors[a].watch) + WatcherSteps(events, a, i, j)
            <= WatchStepsLeft(states[i].actors[a].watch) <= 7
    ensures WatcherSteps(events, a, i, j) == 7 ==> states[j].actors[a].watch == Cancelled
    decreases j
  {
    hide Apply, Guard, Inv, Init;
    if i < j {
      StrandedWorkIsCancelled(states, events, a, i, j - 1);
      InvInit(states[0]);
      InvAlways(states, events, j - 1);
      assert StepAt(states, events, j - 1);
      StrandedStep(states[j - 1], events[j - 1], a);
    }
  }

  /** Until then the watcher can always make a step, and from idle the one that cancels. */
  lemma StrandedWatcherMoves(s: State, a: nat) returns (step: WatchStep)
    requires Stranded(s, a) && s.actors[a].watch != Cancelled
    ensures Guard(s, Watching(a, step))
    ensures s.actors[a].watch == Idle ==> Apply(s, Watching(a, step)).actors[a].watch == Cancelled
  {
    match s.actors[a].watch
    case Idle => step := FilesClosed;
    case LeaseChecked(_) => step := CheckLogin;
    case LoginChecked(_) => step := CheckPermit;
    case PermitChecked(_) => step := Validate;
    case Cancelled =>
  }
}
