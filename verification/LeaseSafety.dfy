/** What every interleaving of the lease protocol keeps. */
module LeaseSafety {
  import opened Sorting
  import opened Leases
  import opened Sums

  ghost predicate Init(s: State) {
    s.leases == map[] && s.actors == map[] && s.drawn == {} && s.entered == {}
    && s.made == s.revoked == s.closed == s.dropped == multiset{}
  }

  // ----- Ownership of tokens and file spaces -----

  /** How often a resource is held by a lease or an unfinished actor, or was let go. */
  ghost function Places(s: State, r: Resource): nat {
    Total(s.leases, LeaseHolds, r) + Total(s.actors, Holds, r) + s.revoked[r] + s.closed[r] + s.dropped[r]
  }

  ghost predicate Conserved(s: State) {
    forall r :: Places(s, r) == s.made[r]
  }

  /** Nothing is made twice; only tokens are revoked or dropped, only spaces are closed. */
  ghost predicate Accounts(s: State) {
    && (forall r :: s.made[r] <= 1)
    && (forall r | r in s.revoked || r in s.dropped :: r.Token?)
    && (forall r | r in s.closed :: r.Space?)
    && (forall r | r in s.made && r.Space? :: r.space in s.drawn)
  }

  /** How much of a resource the actor known as a holds; nothing if there is none. */
  ghost function HeldBy(s: State, a: nat, r: Resource): nat {
    if a in s.actors then Holds(s.actors[a], r) else 0
  }

  lemma OnlyActor(s: State, a: nat)
    ensures forall x :: Become(s, a, x).actors - {a} == s.actors - {a}
    ensures End(s, a).actors - {a} == s.actors - {a}
  {
  }

  /** A step that changes one actor, and the leases by what they lose and gain, keeps the
      books if whatever is made or lost is held, gained or let go. */
  lemma ActorConserves(s: State, t: State, a: nat, r: Resource, lost: nat, gained: nat)
    requires Places(s, r) == s.made[r]
    requires t.actors - {a} == s.actors - {a}
    requires Total(s.leases, LeaseHolds, r) + gained == Total(t.leases, LeaseHolds, r) + lost
    requires HeldBy(t, a, r) + gained + t.revoked[r] + t.closed[r] + t.dropped[r] + s.made[r]
             == HeldBy(s, a, r) + lost + s.revoked[r] + s.closed[r] + s.dropped[r] + t.made[r]
    ensures Places(t, r) == t.made[r]
  {
    TotalWithout(s.actors, Holds, a, r);
    TotalWithout(t.actors, Holds, a, r);
  }

  lemma SetActiveTotal(leases: map<Key, Lease>, key: Key, active: bool, r: Resource)
    ensures Total(SetActive(leases, key, active), LeaseHolds, r) == Total(leases, LeaseHolds, r)
  {
    if key in leases {
      var m := SetActive(leases, key, active);
      assert m - {key} == leases - {key};
      TotalRemove(leases, LeaseHolds, key, r);
      TotalRemove(m, LeaseHolds, key, r);
    }
  }

  /** A step that detaches the leases under keys, to hold or drop what they held. */
  lemma DetachConserves(s: State, t: State, a: nat, keys: seq<Key>, r: Resource)
    requires Places(s, r) == s.made[r] && Distinct(keys) && Elems(keys) <= s.leases.Keys
    requires t.actors - {a} == s.actors - {a} && t.leases == s.leases - Elems(keys)
    requires t.made == s.made && t.revoked == s.revoked && t.closed == s.closed
    requires HeldBy(t, a, r) + t.dropped[r]
             == HeldBy(s, a, r) + ListHolds(Detached(s.leases, keys), r) + s.dropped[r]
    ensures Places(t, r) == t.made[r]
  {
    TotalDetach(s.leases, keys, r);
    ActorConserves(s, t, a, r, ListHolds(Detached(s.leases, keys), r), 0);
  }

  lemma InsertConserves(s: State, a: nat, r: Resource)
    requires Places(s, r) == s.made[r] && LaunchGuard(s, a, Insert) && s.actors[a].key !in s.leases
    ensures Places(ApplyLaunch(s, a, Insert), r) == ApplyLaunch(s, a, Insert).made[r]
  {
    hide Total;
    var t := ApplyLaunch(s, a, Insert);
    var key := s.actors[a].key;
    OnlyActor(s, a);
    if t.leases == s.leases {
      ActorConserves(s, t, a, r, 0, 0);
    } else {
      TotalRemove(t.leases, LeaseHolds, key, r);
      assert t.leases - {key} == s.leases;
      ActorConserves(s, t, a, r, 0, LeaseHolds(s.actors[a].draft, r));
    }
  }

  lemma LaunchSweepConserves(s: State, a: nat, keys: seq<Key>, to: int, r: Resource)
    requires Places(s, r) == s.made[r] && LaunchGuard(s, a, Sweep(keys, to))
    ensures Places(ApplyLaunch(s, a, Sweep(keys, to)), r) == ApplyLaunch(s, a, Sweep(keys, to)).made[r]
  {
    hide Total;
    OnlyActor(s, a);
    DetachConserves(s, ApplyLaunch(s, a, Sweep(keys, to)), a, keys, r);
  }

  lemma TokenConserves(s: State, a: nat, e: LaunchStep, r: Resource)
    requires Places(s, r) == s.made[r] && LaunchGuard(s, a, e)
    requires e.TokenIssued? || e.ConnectionMissing? || e.TokenReturned?
    ensures Places(ApplyLaunch(s, a, e), r) == ApplyLaunch(s, a, e).made[r]
  {
    hide Total;
    OnlyActor(s, a);
    ActorConserves(s, ApplyLaunch(s, a, e), a, r, 0, 0);
  }

  lemma BeginConserves(s: State, a: nat, e: LaunchStep, r: Resource)
    requires Places(s, r) == s.made[r] && LaunchGuard(s, a, e) && e.Begin?
    ensures Places(ApplyLaunch(s, a, e), r) == ApplyLaunch(s, a, e).made[r]
  {
    hide Total;
    OnlyActor(s, a);
    ActorConserves(s, ApplyLaunch(s, a, e), a, r, 0, 0);
  }

  lemma FilesConserve(s: State, a: nat, e: LaunchStep, r: Resource)
    requires Places(s, r) == s.made[r] && LaunchGuard(s, a, e)
    requires e.Fail? || e.RevokeRefused? || e.Unwind?
    ensures Places(ApplyLaunch(s, a, e), r) == ApplyLaunch(s, a, e).made[r]
  {
    hide Total, Detached, Owned;
    OnlyActor(s, a);
    ActorConserves(s, ApplyLaunch(s, a, e), a, r, 0, 0);
  }

  lemma LaunchConserves(s: State, a: nat, e: LaunchStep, r: Resource)
    requires Places(s, r) == s.made[r] && LaunchGuard(s, a, e)
    requires e.Insert? ==> s.actors[a].key !in s.leases
    ensures Places(ApplyLaunch(s, a, e), r) == ApplyLaunch(s, a, e).made[r]
  {
    match e
    case Sweep(keys, to) => LaunchSweepConserves(s, a, keys, to, r);
    case Insert => InsertConserves(s, a, r);
    case Begin(_, _, _, _) => BeginConserves(s, a, e, r);
    case TokenIssued(_) => TokenConserves(s, a, e, r);
    case ConnectionMissing => TokenConserves(s, a, e, r);
    case TokenReturned => TokenConserves(s, a, e, r);
    case _ => FilesConserve(s, a, e, r);
  }

  lemma CloseSessionConserves(s: State, a: nat, key: Key, r: Resource)
    requires Places(s, r) == s.made[r] && RemoveGuard(s, a, CloseSession(key))
    ensures Places(ApplyRemove(s, a, CloseSession(key)), r) == ApplyRemove(s, a, CloseSession(key)).made[r]
  {
    hide Total;
    if key in s.leases {
      OnlyActor(s, a);
      TotalRemove(s.leases, LeaseHolds, key, r);
      assert ListHolds([s.leases[key]], r) == LeaseHolds(s.leases[key], r);
      ActorConserves(s, ApplyRemove(s, a, CloseSession(key)), a, r, LeaseHolds(s.leases[key], r), 0);
    }
  }

  lemma StopConserves(s: State, a: nat, keys: seq<Key>, r: Resource)
    requires Places(s, r) == s.made[r] && RemoveGuard(s, a, Stop(keys))
    ensures Places(ApplyRemove(s, a, Stop(keys)), r) == ApplyRemove(s, a, Stop(keys)).made[r]
  {
    hide Total;
    OnlyActor(s, a);
    assert s.leases - Elems(keys) == map[];
    ListSplits(Detached(s.leases, keys), r);
    DetachConserves(s, ApplyRemove(s, a, Stop(keys)), a, keys, r);
  }

  lemma TickerSweepConserves(s: State, a: nat, keys: seq<Key>, to: int, r: Resource)
    requires Places(s, r) == s.made[r] && RemoveGuard(s, a, TickerSweep(keys, to))
    ensures Places(ApplyRemove(s, a, TickerSweep(keys, to)), r) == ApplyRemove(s, a, TickerSweep(keys, to)).made[r]
  {
    hide Total;
    OnlyActor(s, a);
    DetachConserves(s, ApplyRemove(s, a, TickerSweep(keys, to)), a, keys, r);
  }

  lemma HeadConserves(s: State, a: nat, e: RemoveStep, r: Resource)
    requires Places(s, r) == s.made[r] && RemoveGuard(s, a, e) && (e.RevokeHead? || e.CloseHead?)
    ensures Places(ApplyRemove(s, a, e), r) == ApplyRemove(s, a, e).made[r]
  {
    hide Total;
    OnlyActor(s, a);
    ActorConserves(s, ApplyRemove(s, a, e), a, r, 0, 0);
  }

  lemma CloseStoppedConserves(s: State, a: nat, r: Resource)
    requires Places(s, r) == s.made[r] && RemoveGuard(s, a, CloseStopped)
    ensures Places(ApplyRemove(s, a, CloseStopped), r) == ApplyRemove(s, a, CloseStopped).made[r]
  {
    hide Total, ListHolds, Detached, ListTokens;
    OnlyActor(s, a);
    ActorConserves(s, ApplyRemove(s, a, CloseStopped), a, r, 0, 0);
  }

  lemma RemovalDoneConserves(s: State, a: nat, r: Resource)
    requires Places(s, r) == s.made[r] && RemoveGuard(s, a, RemovalDone)
    ensures Places(ApplyRemove(s, a, RemovalDone), r) == ApplyRemove(s, a, RemovalDone).made[r]
  {
    hide Total, Detached, ListTokens;
    OnlyActor(s, a);
    ActorConserves(s, ApplyRemove(s, a, RemovalDone), a, r, 0, 0);
  }

  lemma RemoveConserves(s: State, a: nat, e: RemoveStep, r: Resource)
    requires Places(s, r) == s.made[r] && RemoveGuard(s, a, e)
    ensures Places(ApplyRemove(s, a, e), r) == ApplyRemove(s, a, e).made[r]
  {
    match e
    case TickerSweep(keys, to) => TickerSweepConserves(s, a, keys, to, r);
    case CloseSession(key) => CloseSessionConserves(s, a, key, r);
    case Stop(keys) => StopConserves(s, a, keys, r);
    case RevokeHead => HeadConserves(s, a, e, r);
    case CloseHead => HeadConserves(s, a, e, r);
    case CloseStopped => CloseStoppedConserves(s, a, r);
    case RemovalDone => RemovalDoneConserves(s, a, r);
  }

  lemma ServeConserves(s: State, a: nat, e: ServeStep, r: Resource)
    requires Places(s, r) == s.made[r] && ServeGuard(s, a, e)
    ensures Places(ApplyServe(s, a, e), r) == ApplyServe(s, a, e).made[r]
  {
    hide Total;
    OnlyActor(s, a);
    if !e.Lookup? { SetActiveTotal(s.leases, s.actors[a].key, e.Claim?, r); }
    ActorConserves(s, ApplyServe(s, a, e), a, r, 0, 0);
  }

  lemma ConservedStep(s: State, e: Event)
    requires Conserved(s) && Guard(s, e)
    requires e.Launch? && e.launch.Insert? ==> s.actors[e.a].key !in s.leases
    ensures Conserved(Apply(s, e))
  {
    hide Total;
    var t := Apply(s, e);
    forall r ensures Places(t, r) == t.made[r] {
      assert Places(s, r) == s.made[r];
      match e
      case Launch(a, step) => LaunchConserves(s, a, step, r);
      case Remove(a, step) => RemoveConserves(s, a, step, r);
      case Serve(a, step) => ServeConserves(s, a, step, r);
      case Watching(a, step) => OnlyActor(s, a); ActorConserves(s, t, a, r, 0, 0);
      case _ =>
    }
  }

  // ----- What a step leaves alone -----

  ghost predicate Others(s: State, t: State, a: nat) {
    forall b | b != a :: (b in t.actors <==> b in s.actors) && (b in s.actors ==> t.actors[b] == s.actors[b])
  }

  ghost predicate Shrinks(from: map<Key, Lease>, to: map<Key, Lease>) {
    forall k | k in to :: k in from && to[k] == from[k]
  }

  predicate Attending(a: Actor) {
    a.Looking? || a.Working?
  }

  predicate IsTunnel(w: Actor) {
    w.Working? && w.kind == Tunnel
  }

  lemma LaunchLeavesOthers(s: State, a: nat, e: LaunchStep)
    requires LaunchGuard(s, a, e)
    ensures Others(s, ApplyLaunch(s, a, e), a)
  {
  }

  lemma LaunchShrinks(s: State, a: nat, e: LaunchStep)
    requires LaunchGuard(s, a, e)
    ensures if e.Insert? then ApplyLaunch(s, a, e).leases.Keys <= s.leases.Keys + {s.actors[a].key}
            else Shrinks(s.leases, ApplyLaunch(s, a, e).leases)
  {
    hide Detached, Owned;
  }

  lemma LaunchShape(s: State, a: nat, e: LaunchStep)
    requires LaunchGuard(s, a, e)
    ensures var t := ApplyLaunch(s, a, e);
      && Others(s, t, a) && s.entered <= t.entered
      && (if e.Insert? then t.leases.Keys <= s.leases.Keys + {s.actors[a].key} else Shrinks(s.leases, t.leases))
      && (a in s.actors ==> !Attending(s.actors[a]))
      && (a in t.actors ==> !Attending(t.actors[a]))
  {
    LaunchLeavesOthers(s, a, e);
    LaunchShrinks(s, a, e);
    hide Others, Shrinks, Detached, Elems, Owned;
  }

  lemma RemoveLeavesOthers(s: State, a: nat, e: RemoveStep)
    requires RemoveGuard(s, a, e)
    ensures Others(s, ApplyRemove(s, a, e), a)
  {
  }

  lemma RemoveShrinks(s: State, a: nat, e: RemoveStep)
    requires RemoveGuard(s, a, e)
    ensures Shrinks(s.leases, ApplyRemove(s, a, e).leases)
  {
    hide Detached, ListTokens;
  }

  lemma RemoveShape(s: State, a: nat, e: RemoveStep)
    requires RemoveGuard(s, a, e)
    ensures var t := ApplyRemove(s, a, e);
      && Others(s, t, a) && s.entered == t.entered
      && Shrinks(s.leases, t.leases)
      && (a in s.actors ==> !Attending(s.actors[a]))
      && (a in t.actors ==> !Attending(t.actors[a]))
  {
    RemoveLeavesOthers(s, a, e);
    RemoveShrinks(s, a, e);
    hide Others, Shrinks, Detached, ListTokens, Elems;
  }

  /** serve adds no lease, and what it leaves behind is not inside a watcher's tick. */
  lemma ServeShape(s: State, a: nat, e: ServeStep)
    requires ServeGuard(s, a, e)
    ensures var t := ApplyServe(s, a, e);
      && Others(s, t, a)
      && t.leases.Keys == s.leases.Keys && t.entered == s.entered
      && (a in t.actors && t.actors[a].Working? ==> t.actors[a].watch == Idle)
      && (a in t.actors && IsTunnel(t.actors[a]) ==> t.actors[a].key in s.leases)
  {
  }

  // ----- Keys are never reused -----

  predicate HasDraft(a: Actor) {
    a.Launching? || a.Authorizing? || a.Opening? || a.Inserting? || (a.Removing? && a.next.Some?)
  }

  function DraftKey(a: Actor): Key
    requires HasDraft(a)
  {
    if a.Removing? then a.next.value.0 else a.key
  }

  function Draft(a: Actor): Lease
    requires HasDraft(a)
  {
    if a.Removing? then a.next.value.1 else a.draft
  }

  predicate FiledUnder(l: Lease, k: Key) {
    l.id == k.id && l.owner == k.cookie
  }

  /** A lease is filed under its own id and owner; an id still being launched has never been
      in the map and belongs to one launch only. */
  ghost predicate Ids(s: State) {
    && s.entered <= s.drawn
    && (forall k | k in s.leases :: k.id in s.entered && FiledUnder(s.leases[k], k))
    && (forall a | a in s.actors && HasDraft(s.actors[a]) ::
          DraftKey(s.actors[a]).id in s.drawn - s.entered
          && FiledUnder(Draft(s.actors[a]), DraftKey(s.actors[a])) && !Draft(s.actors[a]).active)
    && (forall a, b | a in s.actors && b in s.actors && a != b && HasDraft(s.actors[a]) && HasDraft(s.actors[b]) ::
          DraftKey(s.actors[a]).id != DraftKey(s.actors[b]).id)
  }

  /** The draft of a, if it still has one, is the one it had, but for the token. */
  predicate SameDraft(s: State, t: State, a: nat) {
    a in t.actors && HasDraft(t.actors[a]) ==>
      a in s.actors && HasDraft(s.actors[a]) && DraftKey(t.actors[a]) == DraftKey(s.actors[a])
      && Draft(t.actors[a]) == Draft(s.actors[a]).(token := Draft(t.actors[a]).token)
  }

  /** A step that draws and enters no id, and starts no launch. */
  lemma SameDrafts(s: State, t: State, a: nat)
    requires Ids(s) && Others(s, t, a) && Shrinks(s.leases, t.leases) && t.drawn == s.drawn && t.entered == s.entered
    requires SameDraft(s, t, a)
    ensures Ids(t)
  {
  }

  lemma BeginKeepsIds(s: State, a: nat, e: LaunchStep)
    requires Ids(s) && LaunchGuard(s, a, e) && e.Begin?
    ensures Ids(ApplyLaunch(s, a, e))
  {
    hide Detached, Owned;
  }

  lemma InsertKeepsIds(s: State, a: nat)
    requires Ids(s) && LaunchGuard(s, a, Insert)
    ensures Ids(ApplyLaunch(s, a, Insert))
  {
    hide Detached, Owned;
  }

  lemma LaunchKeepsIds(s: State, a: nat, e: LaunchStep)
    requires Ids(s) && LaunchGuard(s, a, e)
    ensures Ids(ApplyLaunch(s, a, e))
  {
    if e.Begin? {
      BeginKeepsIds(s, a, e);
    } else if e.Insert? {
      InsertKeepsIds(s, a);
    } else {
      LaunchShape(s, a, e);
      SameDrafts(s, ApplyLaunch(s, a, e), a);
    }
  }

  lemma RemoveKeepsDraft(s: State, a: nat, e: RemoveStep)
    requires RemoveGuard(s, a, e)
    ensures SameDraft(s, ApplyRemove(s, a, e), a)
    ensures ApplyRemove(s, a, e).drawn == s.drawn && ApplyRemove(s, a, e).entered == s.entered
  {
  }

  lemma RemoveKeepsIds(s: State, a: nat, e: RemoveStep)
    requires Ids(s) && RemoveGuard(s, a, e)
    ensures Ids(ApplyRemove(s, a, e))
  {
    RemoveShape(s, a, e);
    RemoveKeepsDraft(s, a, e);
    hide RemoveGuard, ApplyRemove, Ids, SameDraft;
    SameDrafts(s, ApplyRemove(s, a, e), a);
  }

  lemma ServeKeepsIds(s: State, a: nat, e: ServeStep)
    requires Ids(s) && ServeGuard(s, a, e)
    ensures Ids(ApplyServe(s, a, e))
  {
  }

  lemma WatchKeepsIds(s: State, a: nat, e: WatchStep)
    requires Ids(s) && WatchGuard(s, a, e)
    ensures Ids(ApplyWatch(s, a, e))
  {
    hide Total;
  }

  lemma IdsStep(s: State, e: Event)
    requires Ids(s) && Guard(s, e)
    ensures Ids(Apply(s, e))
  {
    match e
    case Launch(a, step) => LaunchKeepsIds(s, a, step);
    case Remove(a, step) => RemoveKeepsIds(s, a, step);
    case Serve(a, step) => ServeKeepsIds(s, a, step);
    case Watching(a, step) => WatchKeepsIds(s, a, step);
    case _ =>
  }

  // ----- What requests see -----

  /** A request's copy of a lease is that lease, but for the Active flag, for as long as the
      lease exists; and no request outlives its lease's expiry. */
  ghost predicate Views(s: State) {
    forall a | a in s.actors && Attending(s.actors[a]) ::
      var w := s.actors[a];
      && w.key.id in s.entered && FiledUnder(w.seen, w.key)
      && (w.key in s.leases ==> s.leases[w.key].(active := w.seen.active) == w.seen)
      && (w.Working? ==> w.deadline <= w.seen.expires)
  }

  lemma SameViews(s: State, t: State, a: nat)
    requires Views(s) && Others(s, t, a) && s.entered <= t.entered
    requires a in t.actors ==> !Attending(t.actors[a])
    requires forall k | k in t.leases :: if k in s.leases then t.leases[k] == s.leases[k] else k.id !in s.entered
    ensures Views(t)
  {
  }

  lemma LaunchKeepsViews(s: State, a: nat, e: LaunchStep)
    requires Ids(s) && Views(s) && LaunchGuard(s, a, e)
    ensures Views(ApplyLaunch(s, a, e))
  {
    LaunchShape(s, a, e);
    SameViews(s, ApplyLaunch(s, a, e), a);
  }

  lemma RemoveKeepsViews(s: State, a: nat, e: RemoveStep)
    requires Views(s) && RemoveGuard(s, a, e)
    ensures Views(ApplyRemove(s, a, e))
  {
    RemoveShape(s, a, e);
    SameViews(s, ApplyRemove(s, a, e), a);
  }

  lemma ServeKeepsViews(s: State, a: nat, e: ServeStep)
    requires Ids(s) && Views(s) && ServeGuard(s, a, e)
    ensures Views(ApplyServe(s, a, e))
  {
  }

  lemma WatchKeepsViews(s: State, a: nat, e: WatchStep)
    requires Ids(s) && Views(s) && WatchGuard(s, a, e)
    ensures Views(ApplyWatch(s, a, e))
  {
    hide Total;
  }

  lemma ViewsStep(s: State, e: Event)
    requires Ids(s) && Views(s) && Guard(s, e)
    ensures Views(Apply(s, e))
  {
    match e
    case Launch(a, step) => LaunchKeepsViews(s, a, step);
    case Remove(a, step) => RemoveKeepsViews(s, a, step);
    case Serve(a, step) => ServeKeepsViews(s, a, step);
    case Watching(a, step) => WatchKeepsViews(s, a, step);
    case _ =>
  }

  // ----- Claimed tunnels -----

  predicate TunnelOn(s: State, a: nat, key: Key) {
    a in s.actors && IsTunnel(s.actors[a]) && s.actors[a].key == key
  }

  ghost predicate Backed(s: State, key: Key) {
    exists a :: TunnelOn(s, a, key)
  }

  /** At most one tunnel per key is in flight, and a lease is Active iff there is one. */
  ghost predicate Claims(s: State) {
    && (forall a, b | a in s.actors && b in s.actors && a != b && IsTunnel(s.actors[a]) && IsTunnel(s.actors[b]) ::
          s.actors[a].key != s.actors[b].key)
    && (forall a | a in s.actors && IsTunnel(s.actors[a]) && s.actors[a].key in s.leases ::
          s.leases[s.actors[a].key].active)
    && (forall key | key in s.leases && s.leases[key].active :: Backed(s, key))
  }

  /** A step that neither starts nor ends a tunnel, nor flips a flag. */
  ghost predicate Quiet(s: State, t: State) {
    && (forall b | b in t.actors && IsTunnel(t.actors[b]) ::
          b in s.actors && IsTunnel(s.actors[b]) && s.actors[b].key == t.actors[b].key)
    && (forall b | b in s.actors && IsTunnel(s.actors[b]) ::
          b in t.actors && IsTunnel(t.actors[b]) && t.actors[b].key == s.actors[b].key
          && (s.actors[b].key in t.leases ==> s.actors[b].key in s.leases))
    && (forall k | k in t.leases :: if k in s.leases then t.leases[k] == s.leases[k] else !t.leases[k].active)
  }

  lemma QuietKeepsClaims(s: State, t: State)
    requires Claims(s) && Quiet(s, t)
    ensures Claims(t)
  {
    forall key | key in t.leases && t.leases[key].active ensures Backed(t, key) {
      assert Backed(s, key);
      var b :| TunnelOn(s, b, key);
      assert TunnelOn(t, b, key);
    }
  }

  lemma OthersAreQuiet(s: State, t: State, a: nat)
    requires Others(s, t, a) && Shrinks(s.leases, t.leases)
    requires a in s.actors ==> !IsTunnel(s.actors[a])
    requires a in t.actors ==> !IsTunnel(t.actors[a])
    ensures Quiet(s, t)
  {
  }

  lemma InsertIsQuiet(s: State, a: nat)
    requires Ids(s) && Views(s) && LaunchGuard(s, a, Insert)
    ensures Quiet(s, ApplyLaunch(s, a, Insert))
  {
  }

  lemma ServeKeepsClaims(s: State, a: nat, e: ServeStep)
    requires Claims(s) && ServeGuard(s, a, e)
    ensures Claims(ApplyServe(s, a, e))
  {
    var t := ApplyServe(s, a, e);
    if e.Claim? || e.Finish? {
      forall key | key in t.leases && t.leases[key].active ensures Backed(t, key) {
        if e.Claim? && key == s.actors[a].key && TunnelOn(t, a, key) {
        } else {
          assert Backed(s, key);
          var b :| TunnelOn(s, b, key);
          assert TunnelOn(t, b, key);
        }
      }
    } else {
      QuietKeepsClaims(s, t);
    }
  }

  lemma ClaimsStep(s: State, e: Event)
    requires Ids(s) && Views(s) && Claims(s) && Guard(s, e)
    ensures Claims(Apply(s, e))
  {
    match e
    case Launch(a, step) =>
      LaunchShape(s, a, step);
      if step.Insert? { InsertIsQuiet(s, a); } else { OthersAreQuiet(s, Apply(s, e), a); }
      QuietKeepsClaims(s, Apply(s, e));
    case Remove(a, step) =>
      RemoveShape(s, a, step);
      OthersAreQuiet(s, Apply(s, e), a);
      QuietKeepsClaims(s, Apply(s, e));
    case Serve(a, step) => ServeKeepsClaims(s, a, step);
    case _ => QuietKeepsClaims(s, Apply(s, e));
  }

  // ----- The session limit -----

  ghost predicate Limited(s: State) {
    forall owner :: |Owned(s.leases, owner)| <= SESSION_LIMIT
  }

  lemma {:induction false} AtMost<T>(a: set<T>, b: set<T>)
    requires a <= b
    ensures |a| <= |b|
  {
    if a != {} {
      var x :| x in a;
      AtMost(a - {x}, b - {x});
    }
  }

  lemma LimitShrinks(s: State, t: State)
    requires Limited(s)
    requires forall k | k in t.leases :: k in s.leases && t.leases[k].owner == s.leases[k].owner
    ensures Limited(t)
  {
    forall owner ensures |Owned(t.leases, owner)| <= SESSION_LIMIT {
      AtMost(Owned(t.leases, owner), Owned(s.leases, owner));
    }
  }

  lemma InsertLimited(s: State, a: nat)
    requires Limited(s) && LaunchGuard(s, a, Insert)
    ensures Limited(ApplyLaunch(s, a, Insert))
  {
    var t := ApplyLaunch(s, a, Insert);
    var key, draft := s.actors[a].key, s.actors[a].draft;
    forall owner ensures |Owned(t.leases, owner)| <= SESSION_LIMIT {
      assert |Owned(s.leases, owner)| <= SESSION_LIMIT;
      if draft.owner == owner && t.leases != s.leases {
        AtMost(Owned(t.leases, owner), Owned(s.leases, owner) + {key});
      } else {
        AtMost(Owned(t.leases, owner), Owned(s.leases, owner));
      }
    }
  }

  lemma LimitedStep(s: State, e: Event)
    requires Limited(s) && Guard(s, e)
    ensures Limited(Apply(s, e))
  {
    match e
    case Launch(a, step) =>
      LaunchShape(s, a, step);
      if step.Insert? { InsertLimited(s, a); } else { LimitShrinks(s, Apply(s, e)); }
    case Remove(a, step) => RemoveShape(s, a, step); LimitShrinks(s, Apply(s, e));
    case _ => LimitShrinks(s, Apply(s, e));
  }

  // ----- Nothing is made or let go twice -----

  lemma ListTokensAreTokens(ls: seq<Lease>)
    ensures forall r | r in ListTokens(ls) :: r.Token?
  {
  }

  lemma LaunchKeepsAccounts(s: State, a: nat, e: LaunchStep)
    requires Accounts(s) && LaunchGuard(s, a, e)
    ensures Accounts(ApplyLaunch(s, a, e))
  {
    var t := ApplyLaunch(s, a, e);
    forall r ensures t.made[r] <= 1 { assert s.made[r] <= 1; }
  }

  lemma RemoveKeepsAccounts(s: State, a: nat, e: RemoveStep)
    requires Accounts(s) && RemoveGuard(s, a, e)
    ensures Accounts(ApplyRemove(s, a, e))
  {
    if e.Stop? { ListTokensAreTokens(Detached(s.leases, e.keys)); }
  }

  lemma AccountsStep(s: State, e: Event)
    requires Accounts(s) && Guard(s, e)
    ensures Accounts(Apply(s, e))
  {
    match e
    case Launch(a, step) => LaunchKeepsAccounts(s, a, step);
    case Remove(a, step) => RemoveKeepsAccounts(s, a, step);
    case _ =>
  }

  // ----- The invariant of every run -----

  ghost predicate Inv(s: State) {
    Conserved(s) && Accounts(s) && Ids(s) && Views(s) && Claims(s) && Limited(s)
  }

  lemma InvInit(s: State)
    requires Init(s)
    ensures Inv(s)
  {
  }

  lemma InvStep(s: State, e: Event)
    requires Inv(s) && Guard(s, e)
    ensures Inv(Apply(s, e))
  {
    ConservedStep(s, e);
    AccountsStep(s, e);
    IdsStep(s, e);
    ViewsStep(s, e);
    ClaimsStep(s, e);
    LimitedStep(s, e);
  }

  lemma {:induction false} InvAlways(states: seq<State>, events: seq<Event>, i: nat)
    requires IsRun(states, events) && Inv(states[0]) && i < |states|
    ensures Inv(states[i])
  {
    if i > 0 {
      InvAlways(states, events, i - 1);
      assert StepAt(states, events, i - 1);
      InvStep(states[i - 1], events[i - 1]);
    }
  }

  // ----- Main results -----

  /** Whatever interleaves, a key has at most one claimed tunnel in flight, a lease that is
      present is Active exactly while such a tunnel exists, and no owner has more than eight
      leases. */
  lemma TunnelsAreExclusive(states: seq<State>, events: seq<Event>, i: nat)
    requires IsRun(states, events) && Init(states[0]) && i < |states|
    ensures forall key, a, b | TunnelOn(states[i], a, key) && TunnelOn(states[i], b, key) :: a == b
    ensures forall key | key in states[i].leases ::
              states[i].leases[key].active <==> exists a :: TunnelOn(states[i], a, key)
    ensures forall owner :: |Owned(states[i].leases, owner)| <= 8
  {
    InvInit(states[0]);
    InvAlways(states, events, i);
    forall key | key in states[i].leases
      ensures states[i].leases[key].active <==> exists a :: TunnelOn(states[i], a, key)
    {
      if states[i].leases[key].active { assert Backed(states[i], key); }
    }
  }

  lemma HeldAlone(s: State, key: Key, r: Resource)
    requires Inv(s) && key in s.leases && LeaseHolds(s.leases[key], r) > 0
    ensures r in s.made && r !in s.revoked && r !in s.closed && r !in s.dropped
    ensures forall other | other in s.leases && other != key :: LeaseHolds(s.leases[other], r) == 0
    ensures forall a | a in s.actors :: Holds(s.actors[a], r) == 0
  {
    hide Total;
    assert Places(s, r) == s.made[r] <= 1;
    TotalRemove(s.leases, LeaseHolds, key, r);
    forall other | other in s.leases && other != key ensures LeaseHolds(s.leases[other], r) == 0 {
      TotalRemove(s.leases - {key}, LeaseHolds, other, r);
    }
    forall a | a in s.actors ensures Holds(s.actors[a], r) == 0 {
      TotalRemove(s.actors, Holds, a, r);
    }
  }

  /** What a lease holds is held by nothing else and was never let go: no two leases share a
      token or a file space, and none of a present lease's was revoked, closed or dropped. */
  lemma LeaseHoldsAlone(states: seq<State>, events: seq<Event>, i: nat, key: Key, r: Resource)
    requires IsRun(states, events) && Init(states[0]) && i < |states|
    requires key in states[i].leases && LeaseHolds(states[i].leases[key], r) > 0
    ensures r in states[i].made && r !in states[i].revoked && r !in states[i].closed && r !in states[i].dropped
    ensures forall other | other in states[i].leases && other != key :: LeaseHolds(states[i].leases[other], r) == 0
    ensures forall a | a in states[i].actors :: Holds(states[i].actors[a], r) == 0
  {
    InvInit(states[0]);
    InvAlways(states, events, i);
    HeldAlone(states[i], key, r);
  }

  ghost predicate Held(s: State, r: Resource) {
    || (exists k :: k in s.leases && LeaseHolds(s.leases[k], r) > 0)
    || (exists a :: a in s.actors && Holds(s.actors[a], r) > 0)
  }

  lemma HeldOrLetGo(s: State, r: Resource)
    requires Inv(s) && r in s.made
    ensures s.revoked[r] + s.closed[r] + s.dropped[r] == if Held(s, r) then 0 else 1
    ensures (r.Token? ==> s.closed[r] == 0) && (r.Space? ==> s.revoked[r] == s.dropped[r] == 0)
  {
    hide Total;
    assert Places(s, r) == s.made[r] == 1;
    if Total(s.leases, LeaseHolds, r) > 0 { TotalWitness(s.leases, LeaseHolds, r); }
    if Total(s.actors, Holds, r) > 0 { TotalWitness(s.actors, Holds, r); }
    if k :| k in s.leases && LeaseHolds(s.leases[k], r) > 0 { TotalRemove(s.leases, LeaseHolds, k, r); }
    if a :| a in s.actors && Holds(s.actors[a], r) > 0 { TotalRemove(s.actors, Holds, a, r); }
  }

  /** Everything ever made is in exactly one place: with a lease, with an unfinished actor,
      or let go once; a token goes by revocation or Stop's drop, a space by being closed. */
  lemma HeldOrLetGoOnce(states: seq<State>, events: seq<Event>, i: nat, r: Resource)
    requires IsRun(states, events) && Init(states[0]) && i < |states| && r in states[i].made
    ensures var s := states[i];
      && s.revoked[r] + s.closed[r] + s.dropped[r] == (if Held(s, r) then 0 else 1)
      && (r.Token? ==> s.closed[r] == 0) && (r.Space? ==> s.revoked[r] == s.dropped[r] == 0)
  {
    InvInit(states[0]);
    InvAlways(states, events, i);
    HeldOrLetGo(states[i], r);
  }

  lemma DroppedStays(s: State, e: Event, r: Resource)
    requires Guard(s, e) && r in s.dropped
    ensures r in Apply(s, e).dropped
  {
    hide Detached, Owned;
  }

  lemma {:induction false} DroppedForGood(states: seq<State>, events: seq<Event>, i: nat, j: nat, r: Resource)
    requires IsRun(states, events) && i <= j < |states| && r in states[i].dropped
    ensures r in states[j].dropped
    decreases j
  {
    if i < j {
      DroppedForGood(states, events, i, j - 1, r);
      assert StepAt(states, events, j - 1);
      DroppedStays(states[j - 1], events[j - 1], r);
    }
  }

  lemma {:induction false} DetachedTokens(leases: map<Key, Lease>, keys: seq<Key>, key: Key)
    requires Elems(keys) <= leases.Keys && key in keys
    ensures Token(leases[key].token) in ListTokens(Detached(leases, keys))
  {
    assert keys[0] in Elems(keys) && forall k | k in keys[1..] :: k in Elems(keys);
    if key != keys[0] { DetachedTokens(leases, keys[1..], key); }
  }

  /** Nothing is let go that was not made. */
  lemma LetGoWasMade(s: State, r: Resource)
    requires Inv(s) && r in s.dropped
    ensures r in s.made
  {
    hide Total;
    assert Places(s, r) == s.made[r];
  }

  /** The shutdown takes every lease and leaves its token as it is: it is never revoked. */
  lemma StopForgetsTokens(states: seq<State>, events: seq<Event>, i: nat, j: nat, key: Key)
    requires IsRun(states, events) && Init(states[0]) && i < j < |states|
    requires events[i].Remove? && events[i].remove.Stop? && key in states[i].leases
    ensures states[i + 1].leases == map[] && Token(states[i].leases[key].token) !in states[j].revoked
  {
    assert StepAt(states, events, i);
    InvInit(states[0]);
    InvAlways(states, events, j);
    var r := Token(states[i].leases[key].token);
    assert key in Elems(events[i].remove.keys);
    DetachedTokens(states[i].leases, events[i].remove.keys, key);
    DroppedForGood(states, events, i + 1, j, r);
    LetGoWasMade(states[j], r);
    HeldOrLetGo(states[j], r);
  }

  /** No launch and no removal is under way. */
  ghost predicate AtRest(s: State) {
    forall a | a in s.actors :: Attending(s.actors[a])
  }

  /** r was made and not let go. */
  ghost predicate Alive(s: State, r: Resource) {
    r in s.made && r !in s.closed && r !in s.revoked && r !in s.dropped
  }

  /** At rest the spaces still open are exactly those of the leases, and the tokens neither
      revoked nor dropped exactly theirs too. */
  lemma NothingLeaks(s: State)
    requires Inv(s) && AtRest(s)
    ensures forall r :: Alive(s, r) <==> exists k :: k in s.leases && LeaseHolds(s.leases[k], r) > 0
  {
    forall r ensures Alive(s, r) <==> exists k :: k in s.leases && LeaseHolds(s.leases[k], r) > 0 {
      if r in s.made {
        HeldOrLetGo(s, r);
        assert forall a | a in s.actors :: Holds(s.actors[a], r) == 0;
      } else if k :| k in s.leases && LeaseHolds(s.leases[k], r) > 0 {
        HeldAlone(s, k, r);
      }
    }
  }
}
