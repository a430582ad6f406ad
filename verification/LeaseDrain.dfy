/** Launches and removals under way can always be brought to an end by the process itself. */
module LeaseDrain {
  import opened Sorting
  import opened Options
  import opened Leases
  import opened LeaseSafety
  import opened Sums

  /** A step with which a launch or removal goes on without its caller. It begins none, and a
      launch that asked the gateway takes an answer without its connection. */
  predicate Own(e: Event) {
    match e
    case Launch(_, step) => !step.Begin? && !step.TokenIssued? && !step.TokenReturned?
    case Remove(_, step) => step.RevokeHead? || step.CloseHead? || step.CloseStopped? || step.RemovalDone?
    case _ => false
  }

  // ----- What is left to do -----

  /** The own steps an actor still takes, but for a lease it may put into the map: two for each
      lease it removes, one for each it only closes. */
  function Weight(a: Actor, each: ()): nat {
    match a
    case Opening(_, _) => 5
    case Inserting(_, _) => 3
    case Launching(_, _) => 2
    case Authorizing(_, _) => 2
    case Refused(_, _) => 2
    case Unwinding(_) => 1
    case Removing(todo, revoked, next) =>
      2 * |todo| + (if revoked && todo != [] then 0 else 1) + (if next.Some? then 3 else 0)
    case Stopping(todo) => |todo| + 1
    case _ => 0
  }

  /** And two for each lease in the map, which a launch may find expired. */
  ghost function Work(s: State): nat {
    2 * |s.leases| + Total(s.actors, Weight, ())
  }

  function WeightAt(actors: map<nat, Actor>, a: nat): nat {
    if a in actors then Weight(actors[a], ()) else 0
  }

  lemma ActorWork(s: State, t: State, a: nat)
    requires Others(s, t, a)
    ensures Total(t.actors, Weight, ()) + WeightAt(s.actors, a) == Total(s.actors, Weight, ()) + WeightAt(t.actors, a)
  {
    hide Total;
    assert t.actors - {a} == s.actors - {a};
    TotalWithout(s.actors, Weight, a, ());
    TotalWithout(t.actors, Weight, a, ());
  }

  lemma {:induction false} SweptLeases(leases: map<Key, Lease>, keys: seq<Key>)
    requires Distinct(keys) && Elems(keys) <= leases.Keys
    ensures |leases - Elems(keys)| == |leases| - |keys|
  {
    if keys == [] {
      assert leases - Elems(keys) == leases;
    } else {
      var rest := keys[1..];
      assert keys[0] in Elems(keys) && forall k | k in rest :: k in Elems(keys);
      WithoutHead(leases, keys);
      assert (leases - {keys[0]}).Keys == leases.Keys - {keys[0]};
      SweptLeases(leases - {keys[0]}, rest);
    }
  }

  /** From s to t less is left for a to do. */
  predicate Less(s: State, t: State, a: nat) {
    2 * |t.leases| + WeightAt(t.actors, a) < 2 * |s.leases| + WeightAt(s.actors, a)
  }

  lemma SweepWorks(s: State, a: nat, keys: seq<Key>, to: int)
    requires LaunchGuard(s, a, Sweep(keys, to))
    ensures Less(s, ApplyLaunch(s, a, Sweep(keys, to)), a)
  {
    hide Detached, Elems;
    SweptLeases(s.leases, keys);
  }

  lemma InsertedLease(leases: map<Key, Lease>, key: Key, lease: Lease)
    ensures |leases[key := lease]| <= |leases| + 1
  {
    assert leases[key := lease].Keys == leases.Keys + {key};
  }

  lemma InsertWorks(s: State, a: nat)
    requires LaunchGuard(s, a, Insert)
    ensures Less(s, ApplyLaunch(s, a, Insert), a)
  {
    hide Owned;
    InsertedLease(s.leases, s.actors[a].key, s.actors[a].draft);
  }

  lemma UnwindingWorks(s: State, a: nat, e: LaunchStep)
    requires LaunchGuard(s, a, e) && (e.Fail? || e.ConnectionMissing? || e.RevokeRefused? || e.Unwind?)
    ensures Less(s, ApplyLaunch(s, a, e), a)
  {
  }

  lemma NotOwn(a: nat, e: LaunchStep)
    requires e.Begin? || e.TokenIssued? || e.TokenReturned?
    ensures !Own(Launch(a, e))
  {
  }

  lemma LaunchWorks(s: State, a: nat, e: LaunchStep)
    requires LaunchGuard(s, a, e) && Own(Launch(a, e))
    ensures Less(s, ApplyLaunch(s, a, e), a)
  {
    hide *;
    match e
    case Sweep(keys, to) => SweepWorks(s, a, keys, to);
    case Insert => InsertWorks(s, a);
    case Begin(_, _, _, _) => NotOwn(a, e);
    case TokenIssued(_) => NotOwn(a, e);
    case TokenReturned => NotOwn(a, e);
    case _ => UnwindingWorks(s, a, e);
  }

  lemma HeadWorks(s: State, a: nat, e: RemoveStep)
    requires RemoveGuard(s, a, e) && (e.RevokeHead? || e.CloseHead?)
    ensures Less(s, ApplyRemove(s, a, e), a)
  {
  }

  lemma EndWorks(s: State, a: nat, e: RemoveStep)
    requires RemoveGuard(s, a, e) && (e.CloseStopped? || e.RemovalDone?)
    ensures Less(s, ApplyRemove(s, a, e), a)
  {
  }

  lemma NotOwnRemoval(a: nat, e: RemoveStep)
    requires e.TickerSweep? || e.CloseSession? || e.Stop?
    ensures !Own(Remove(a, e))
  {
  }

  lemma RemoveWorks(s: State, a: nat, e: RemoveStep)
    requires RemoveGuard(s, a, e) && Own(Remove(a, e))
    ensures Less(s, ApplyRemove(s, a, e), a)
  {
    hide *;
    match e
    case RevokeHead => HeadWorks(s, a, e);
    case CloseHead => HeadWorks(s, a, e);
    case CloseStopped => EndWorks(s, a, e);
    case RemovalDone => EndWorks(s, a, e);
    case _ => NotOwnRemoval(a, e);
  }

  /** Every own step leaves less to do. */
  lemma OwnStepWorks(s: State, e: Event)
    requires Guard(s, e) && Own(e)
    ensures Work(Apply(s, e)) < Work(s)
  {
    var t := Apply(s, e);
    match e
    case Launch(a, step) =>
      LaunchLeavesOthers(s, a, step);
      LaunchWorks(s, a, step);
      hide Others, ApplyLaunch, LaunchGuard;
      ActorWork(s, t, a);
    case Remove(a, step) =>
      RemoveLeavesOthers(s, a, step);
      RemoveWorks(s, a, step);
      hide Others, ApplyRemove, RemoveGuard;
      ActorWork(s, t, a);
  }

  /** So the process cannot go on by itself for longer than that. */
  lemma {:induction false} OwnRunsEnd(states: seq<State>, events: seq<Event>, i: nat)
    requires IsRun(states, events) && (forall e | e in events :: Own(e)) && i < |states|
    ensures Work(states[i]) + i <= Work(states[0])
  {
    if i > 0 {
      OwnRunsEnd(states, events, i - 1);
      assert StepAt(states, events, i - 1) && events[i - 1] in events;
      hide *;
      OwnStepWorks(states[i - 1], events[i - 1]);
    }
  }

  // ----- Something is always possible -----

  /** An enumeration of the expired leases. */
  lemma {:induction false} Expired(leases: map<Key, Lease>, from: set<Key>, now: int) returns (keys: seq<Key>)
    requires from <= leases.Keys
    ensures Distinct(keys) && forall k :: k in keys <==> k in from && now > leases[k].expires
    decreases |from|
  {
    if from == {} {
      keys := [];
    } else {
      var k :| k in from;
      var rest := Expired(leases, from - {k}, now);
      keys := if now > leases[k].expires then [k] + rest else rest;
    }
  }

  /** The step with which a launch goes on. */
  lemma NextLaunchStep(s: State, a: nat) returns (e: LaunchStep)
    requires a in s.actors && !Attending(s.actors[a]) && !s.actors[a].Removing? && !s.actors[a].Stopping?
    ensures LaunchGuard(s, a, e) && Own(Launch(a, e))
  {
    match s.actors[a]
    case Launching(_, _) => e := Fail;
    case Authorizing(_, _) => e := ConnectionMissing;
    case Opening(_, _) =>
      var keys := Expired(s.leases, s.leases.Keys, s.now);
      e := Sweep(keys, s.now);
    case Inserting(_, _) => e := Insert;
    case Refused(_, _) => e := RevokeRefused;
    case Unwinding(_) => e := Unwind;
  }

  function NextRemoveStep(a: Actor): RemoveStep
    requires a.Removing? || a.Stopping?
  {
    if a.todo == [] then RemovalDone
    else if a.Stopping? then CloseStopped
    else if a.revoked then CloseHead
    else RevokeHead
  }

  lemma NextStep(s: State, a: nat) returns (e: Event)
    requires a in s.actors && !Attending(s.actors[a])
    ensures Guard(s, e) && Own(e)
  {
    if s.actors[a].Removing? || s.actors[a].Stopping? {
      e := Remove(a, NextRemoveStep(s.actors[a]));
    } else {
      hide LaunchGuard, ApplyLaunch;
      var step := NextLaunchStep(s, a);
      e := Launch(a, step);
    }
  }

  lemma OwnStepHasActor(s: State, e: Event)
    requires Guard(s, e) && Own(e)
    ensures exists a :: a in s.actors && !Attending(s.actors[a])
  {
    assert e.a in s.actors && !Attending(s.actors[e.a]);
  }

  /** The process is at rest exactly if it can do nothing more by itself. */
  lemma AtRestIffStuck(s: State)
    ensures AtRest(s) <==> forall e | Own(e) :: !Guard(s, e)
  {
    if AtRest(s) {
      forall e | Own(e) ensures !Guard(s, e) {
        if Guard(s, e) { OwnStepHasActor(s, e); }
      }
    } else {
      var a :| a in s.actors && !Attending(s.actors[a]);
      var e := NextStep(s, a);
    }
  }

  // ----- Coming to rest -----

  /** However the process goes on by itself from a state that satisfies the invariant, it takes
      no more steps than there is work, and where it can take no more it is at rest, with
      nothing leaked. */
  lemma EveryOwnRunComesToRest(states: seq<State>, events: seq<Event>)
    requires IsRun(states, events) && (forall e | e in events :: Own(e)) && Inv(states[0])
    ensures |events| <= Work(states[0])
    ensures var t := states[|events|];
      (forall e | Own(e) :: !Guard(t, e)) ==>
        AtRest(t) && forall r :: Alive(t, r) <==> exists k :: k in t.leases && LeaseHolds(t.leases[k], r) > 0
  {
    OwnRunsEnd(states, events, |events|);
    InvAlways(states, events, |events|);
    AtRestIffStuck(states[|events|]);
    if AtRest(states[|events|]) { NothingLeaks(states[|events|]); }
  }

  /** The process comes from s to t on its own. */
  ghost predicate Leads(s: State, t: State) {
    exists states: seq<State>, events: seq<Event> ::
      IsRun(states, events) && states[0] == s && states[|states| - 1] == t && forall e | e in events :: Own(e)
  }

  lemma LeadsNowhere(s: State)
    ensures Leads(s, s)
  {
    assert IsRun([s], []) && [s][0] == s && [s][|[s]| - 1] == s;
  }

  lemma FirstStep(s: State, e: Event, t: State)
    requires Guard(s, e) && Own(e) && Leads(Apply(s, e), t)
    ensures Leads(s, t)
  {
    hide Apply, Guard, Own;
    var states: seq<State>, events: seq<Event> :|
      && IsRun(states, events) && states[0] == Apply(s, e) && states[|states| - 1] == t
      && forall x | x in events :: Own(x);
    var longer, more := [s] + states, [e] + events;
    forall i | 0 <= i < |more| ensures StepAt(longer, more, i) {
      if i > 0 { assert StepAt(states, events, i - 1); }
    }
    assert IsRun(longer, more) && longer[0] == s && longer[|longer| - 1] == t;
  }

  lemma {:induction false} ComesToRest(s: State) returns (t: State)
    requires Inv(s)
    ensures Leads(s, t) && Inv(t) && AtRest(t)
    decreases Work(s)
  {
    if AtRest(s) {
      t := s;
      LeadsNowhere(s);
    } else {
      var a :| a in s.actors && !Attending(s.actors[a]);
      hide *;
      var e := NextStep(s, a);
      OwnStepWorks(s, e);
      InvStep(s, e);
      t := ComesToRest(Apply(s, e));
      FirstStep(s, e, t);
    }
  }

  /** And from every reachable state such a run does come to rest. */
  lemma ReachableComesToRest(states: seq<State>, events: seq<Event>, i: nat) returns (t: State)
    requires IsRun(states, events) && Init(states[0]) && i < |states|
    ensures Leads(states[i], t) && AtRest(t)
    ensures forall r :: Alive(t, r) <==> exists k :: k in t.leases && LeaseHolds(t.leases[k], r) > 0
  {
    InvInit(states[0]);
    InvAlways(states, events, i);
    t := ComesToRest(states[i]);
    NothingLeaks(t);
  }

  // ----- A launch goes through -----

  lemma OthersOn(s: State, t: State, u: State, a: nat)
    requires Others(s, t, a) && Others(t, u, a)
    ensures Others(s, u, a)
  {
  }

  /** While a launch revokes and closes what it swept, it keeps its draft and the map. */
  lemma {:induction false} SweptIsLetGo(s: State, a: nat, key: Key, draft: Lease) returns (t: State)
    requires Inv(s) && a in s.actors && s.actors[a].Removing? && s.actors[a].next == Some((key, draft))
    ensures Leads(s, t) && Inv(t) && a in t.actors && t.actors[a] == Inserting(key, draft)
    ensures t.leases == s.leases && Others(s, t, a)
    decreases |s.actors[a].todo|, !s.actors[a].revoked
  {
    var e := Remove(a, NextRemoveStep(s.actors[a]));
    var next := Apply(s, e);
    InvStep(s, e);
    RemoveLeavesOthers(s, a, NextRemoveStep(s.actors[a]));
    hide Inv, Leads, Others;
    if s.actors[a].todo == [] {
      t := next;
      LeadsNowhere(t);
    } else {
      t := SweptIsLetGo(next, a, key, draft);
      OthersOn(s, next, t, a);
    }
    FirstStep(s, e, t);
  }

  /** The owner's leases that have not expired. */
  function Unexpired(s: State, owner: nat): set<Key> {
    set k | k in s.leases && s.leases[k].owner == owner && s.now <= s.leases[k].expires
  }

  lemma SweepAway(s: State, a: nat, keys: seq<Key>)
    requires a in s.actors && s.actors[a].Opening? && Distinct(keys)
    requires forall k :: k in keys <==> k in s.leases && s.now > s.leases[k].expires
    ensures LaunchGuard(s, a, Sweep(keys, s.now))
    ensures var t := ApplyLaunch(s, a, Sweep(keys, s.now));
            && a in t.actors && t.actors[a].Removing?
            && t.actors[a].next == Some((s.actors[a].key, s.actors[a].draft))
            && Owned(t.leases, s.actors[a].draft.owner) == Unexpired(s, s.actors[a].draft.owner)
  {
    hide Detached;
  }

  lemma Swept(s: State, a: nat, key: Key, draft: Lease) returns (t: State)
    requires Inv(s) && a in s.actors && s.actors[a] == Opening(key, draft)
    ensures Leads(s, t) && Inv(t) && a in t.actors
    ensures t.actors[a].Removing? && t.actors[a].next == Some((key, draft))
    ensures Owned(t.leases, draft.owner) == Unexpired(s, draft.owner)
  {
    hide Inv, Leads, Detached, ApplyLaunch, Elems;
    var keys := Expired(s.leases, s.leases.Keys, s.now);
    SweepAway(s, a, keys);
    var e := Launch(a, Sweep(keys, s.now));
    InvStep(s, e);
    t := Apply(s, e);
    LeadsNowhere(t);
    FirstStep(s, e, t);
  }

  lemma DraftIsNew(s: State, a: nat, key: Key)
    requires Inv(s) && a in s.actors && s.actors[a].Inserting? && s.actors[a].key == key
    ensures key !in s.leases
  {
    assert HasDraft(s.actors[a]) && DraftKey(s.actors[a]) == key;
  }

  lemma Inserted(s: State, a: nat, key: Key, draft: Lease) returns (t: State)
    requires Inv(s) && a in s.actors && s.actors[a] == Inserting(key, draft)
    ensures Leads(s, t) && a !in t.actors
    ensures if |Owned(s.leases, draft.owner)| < 8 then key in t.leases && t.leases[key] == draft else key !in t.leases
  {
    var e := Launch(a, Insert);
    t := Apply(s, e);
    DraftIsNew(s, a, key);
    if a in t.actors {
      var refused, unwinding := t, Apply(t, Launch(a, RevokeRefused));
      t := Apply(unwinding, Launch(a, Unwind));
      LeadsNowhere(t);
      FirstStep(unwinding, Launch(a, Unwind), t);
      FirstStep(refused, Launch(a, RevokeRefused), t);
    } else {
      LeadsNowhere(t);
    }
    FirstStep(s, e, t);
  }

  lemma {:induction false} LeadsAlong(states: seq<State>, events: seq<Event>, u: State, i: nat)
    requires IsRun(states, events) && (forall x | x in events :: Own(x)) && i < |states|
    requires Leads(states[|states| - 1], u)
    ensures Leads(states[i], u)
    decreases |states| - i
  {
    if i < |events| {
      LeadsAlong(states, events, u, i + 1);
      assert StepAt(states, events, i) && events[i] in events;
      FirstStep(states[i], events[i], u);
    }
  }

  lemma LeadsOn(s: State, t: State, u: State)
    requires Leads(s, t) && Leads(t, u)
    ensures Leads(s, u)
  {
    hide StepAt, Own;
    var states: seq<State>, events: seq<Event> :|
      IsRun(states, events) && states[0] == s && states[|states| - 1] == t && forall x | x in events :: Own(x);
    LeadsAlong(states, events, u, 0);
  }

  /** A launch that has its token ends by itself with the lease in the map, exactly if its owner
      has fewer than eight leases left that have not expired. */
  lemma LaunchGoesThrough(s: State, a: nat, key: Key, draft: Lease) returns (t: State)
    requires Inv(s) && a in s.actors && s.actors[a] == Opening(key, draft)
    ensures Leads(s, t) && a !in t.actors
    ensures if |Unexpired(s, draft.owner)| < 8 then key in t.leases && t.leases[key] == draft else key !in t.leases
  {
    var swept := Swept(s, a, key, draft);
    var inserting := SweptIsLetGo(swept, a, key, draft);
    t := Inserted(inserting, a, key, draft);
    LeadsOn(s, swept, inserting);
    LeadsOn(s, inserting, t);
  }

  /** Until it has its token it waits only for the gateway. */
  lemma LaunchGetsItsToken(s: State, a: nat, key: Key, connection: nat, fingerprint: nat, drive: bool, token: nat)
    requires Inv(s) && a !in s.actors && key.id !in s.drawn && Token(token) !in s.made
    ensures Guard(s, Launch(a, Begin(key, connection, fingerprint, drive)))
    ensures var t := Apply(s, Launch(a, Begin(key, connection, fingerprint, drive)));
      && Guard(t, Launch(a, TokenIssued(token)))
      && (var u := Apply(t, Launch(a, TokenIssued(token)));
          && Guard(u, Launch(a, TokenReturned))
          && (var v := Apply(u, Launch(a, TokenReturned));
              a in v.actors && v.actors[a].Opening? && v.actors[a].key == key && v.actors[a].draft.token == token
              && v.leases == s.leases && v.now == s.now))
  {
  }
}
