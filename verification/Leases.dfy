/** The remote lease protocol as a step system. Every critical section under the gateway's
    mutex is one step; revocations, file closings and watcher checks are steps of their own,
    so any number of requests interleave with each other and with the background sweep. */
module Leases {
  import opened Options
  import opened Sorting
  import opened Sums

  const SESSION_LIMIT := 8

  const LEASE_SECONDS := 30 * 60

  const TRANSFER_SECONDS := 2 * 60

  /** sessionKey hashes the login cookie with the random lease id; hashes do not collide. */
  datatype Key = Key(cookie: nat, id: nat)

  /** owner is the hash of the cookie alone; files is the lease's file space, if any. */
  datatype Lease = Lease(id: nat, owner: nat, connection: nat, expires: int, fingerprint: nat,
                         token: nat, active: bool, files: Option<nat>)

  /** What a lease owns outside the process: a gateway token and a directory of files. */
  datatype Resource = Token(token: nat) | Space(space: nat)

  /** Progress of a watcher goroutine through one tick; ok is the conjunction of its checks. */
  datatype Watch = Idle | LeaseChecked(ok: bool) | LoginChecked(ok: bool) | PermitChecked(ok: bool) | Cancelled

  datatype Kind = Tunnel | Transfer

  /** One request, or background task, between two of its steps. */
  datatype Actor =
    | Launching(key: Key, draft: Lease)                  // files made, gateway not yet asked
    | Authorizing(key: Key, draft: Lease)                // token issued, not yet returned to launch
    | Opening(key: Key, draft: Lease)                    // token returned, sweep still to come
    | Inserting(key: Key, draft: Lease)                  // about to count and insert
    | Refused(token: nat, files: Option<nat>)            // over the limit: revoke, then close
    | Unwinding(files: Option<nat>)                      // launch failed: its deferred close
    | Removing(todo: seq<Lease>, revoked: bool, next: Option<(Key, Lease)>)
    | Stopping(todo: seq<Lease>)
    | Looking(key: Key, seen: Lease)                     // lease read, not yet claimed
    | Working(kind: Kind, key: Key, seen: Lease, deadline: int, watch: Watch)

  /** The outcome of the checks that watchers repeat: which cookies are logged in, whose
      users may manage connections, and the fingerprint each connection validates to. */
  datatype World = World(loggedIn: set<nat>, permitted: set<nat>, fingerprints: map<nat, nat>)

  datatype State = State(
    now: int, world: World,
    leases: map<Key, Lease>, actors: map<nat, Actor>,
    drawn: set<nat>, entered: set<nat>,                  // ids ever drawn, ids ever put in the map
    made: multiset<Resource>, revoked: multiset<Resource>,
    closed: multiset<Resource>, dropped: multiset<Resource>)

  datatype LaunchStep =
    | Begin(key: Key, connection: nat, fingerprint: nat, drive: bool)
    | Fail
    | TokenIssued(token: nat)
    | ConnectionMissing
    | TokenReturned
    | Sweep(keys: seq<Key>, to: int)
    | Insert
    | RevokeRefused
    | Unwind

  datatype RemoveStep =
    | TickerSweep(keys: seq<Key>, to: int)
    | CloseSession(key: Key)
    | Stop(keys: seq<Key>)
    | RevokeHead
    | CloseHead
    | CloseStopped
    | RemovalDone

  datatype ServeStep = Lookup(key: Key) | GiveUp | Claim | BeginTransfer | Finish

  datatype WatchStep = CheckLease | CheckLogin | CheckPermit | Validate | FilesClosed

  /** A step of the actor known as a, or a change around the process. */
  datatype Event =
    | Advance(to: int)
    | Change(world: World)
    | Launch(a: nat, launch: LaunchStep)
    | Remove(a: nat, remove: RemoveStep)
    | Serve(a: nat, serve: ServeStep)
    | Watching(a: nat, watch: WatchStep)

  // ----- The critical sections -----

  function Owned(leases: map<Key, Lease>, owner: nat): set<Key> {
    set k | k in leases && leases[k].owner == owner
  }

  function Elems(keys: seq<Key>): set<Key> {
    set k | k in keys
  }

  predicate Claimable(leases: map<Key, Lease>, key: Key, seen: Lease) {
    key in leases && !leases[key].active && leases[key].expires == seen.expires
  }

  function SetActive(leases: map<Key, Lease>, key: Key, active: bool): map<Key, Lease> {
    if key in leases then leases[key := leases[key].(active := active)] else leases
  }

  function Detached(leases: map<Key, Lease>, keys: seq<Key>): (ls: seq<Lease>)
    requires Elems(keys) <= leases.Keys
    ensures |ls| == |keys|
  {
    if keys == [] then []
    else
      assert keys[0] in Elems(keys) && forall k | k in keys[1..] :: k in Elems(keys);
      [leases[keys[0]]] + Detached(leases, keys[1..])
  }

  /** keys may be what a sweep removes while the clock goes from `from` to `to`: everything
      expired at the start, and nothing that has not expired by the end. */
  ghost predicate Sweeps(leases: map<Key, Lease>, keys: seq<Key>, from: int, to: int) {
    && Distinct(keys) && Elems(keys) <= leases.Keys
    && (forall k | k in keys :: to > leases[k].expires)
    && (forall k | k in leases && from > leases[k].expires :: k in keys)
  }

  // ----- Steps -----

  function Files(files: Option<nat>): multiset<Resource> {
    if files.Some? then multiset{Space(files.value)} else multiset{}
  }

  function FilesHold(files: Option<nat>, r: Resource): nat {
    if files.Some? && r == Space(files.value) then 1 else 0
  }

  function TokenHold(token: nat, r: Resource): nat {
    if r == Token(token) then 1 else 0
  }

  /** How many times a lease owns r: once for its token, once for its file space. */
  function LeaseHolds(l: Lease, r: Resource): nat {
    TokenHold(l.token, r) + FilesHold(l.files, r)
  }

  function ListHolds(ls: seq<Lease>, r: Resource): nat {
    if ls == [] then 0 else LeaseHolds(ls[0], r) + ListHolds(ls[1..], r)
  }

  function ListSpaces(ls: seq<Lease>, r: Resource): nat {
    if ls == [] then 0 else FilesHold(ls[0].files, r) + ListSpaces(ls[1..], r)
  }

  function ListTokens(ls: seq<Lease>): multiset<Resource> {
    if ls == [] then multiset{} else multiset{Token(ls[0].token)} + ListTokens(ls[1..])
  }

  /** How many times an actor is responsible for revoking or closing r. */
  function Holds(a: Actor, r: Resource): nat {
    match a
    case Launching(_, draft) => FilesHold(draft.files, r)
    case Authorizing(_, draft) => LeaseHolds(draft, r)
    case Opening(_, draft) => LeaseHolds(draft, r)
    case Inserting(_, draft) => LeaseHolds(draft, r)
    case Refused(token, files) => TokenHold(token, r) + FilesHold(files, r)
    case Unwinding(files) => FilesHold(files, r)
    case Removing(todo, revoked, next) =>
      (if revoked && todo != [] then FilesHold(todo[0].files, r) + ListHolds(todo[1..], r) else ListHolds(todo, r))
      + (if next.Some? then LeaseHolds(next.value.1, r) else 0)
    case Stopping(todo) => ListSpaces(todo, r)
    case Looking(_, _) => 0
    case Working(_, _, _, _, _) => 0
  }

  function Become(s: State, a: nat, actor: Actor): State {
    s.(actors := s.actors[a := actor])
  }

  function End(s: State, a: nat): State {
    s.(actors := s.actors - {a})
  }

  // ----- launch -----

  ghost predicate LaunchGuard(s: State, a: nat, e: LaunchStep) {
    if e.Begin? then a !in s.actors && e.key.id !in s.drawn
    else
      a in s.actors &&
      match e
      case Fail => s.actors[a].Launching?
      case TokenIssued(token) => s.actors[a].Launching? && Token(token) !in s.made
      case ConnectionMissing => s.actors[a].Authorizing?
      case TokenReturned => s.actors[a].Authorizing?
      case Sweep(keys, to) => s.actors[a].Opening? && to >= s.now && Sweeps(s.leases, keys, s.now, to)
      case Insert => s.actors[a].Inserting?
      case RevokeRefused => s.actors[a].Refused?
      case _ => s.actors[a].Unwinding?
  }

  ghost function ApplyLaunch(s: State, a: nat, e: LaunchStep): State
    requires LaunchGuard(s, a, e)
  {
    match e
    case Begin(key, connection, fingerprint, drive) =>
      var files := if drive then Some(key.id) else None;
      var draft := Lease(key.id, key.cookie, connection, s.now + LEASE_SECONDS, fingerprint, 0, false, files);
      Become(s, a, Launching(key, draft)).(drawn := s.drawn + {key.id}, made := s.made + Files(files))
    case Fail => Become(s, a, Unwinding(s.actors[a].draft.files))
    case TokenIssued(token) =>
      Become(s, a, Authorizing(s.actors[a].key, s.actors[a].draft.(token := token)))
        .(made := s.made + multiset{Token(token)})
    case ConnectionMissing =>
      Become(s, a, Unwinding(s.actors[a].draft.files))
        .(revoked := s.revoked + multiset{Token(s.actors[a].draft.token)})
    case TokenReturned => Become(s, a, Opening(s.actors[a].key, s.actors[a].draft))
    case Sweep(keys, to) =>
      Become(s, a, Removing(Detached(s.leases, keys), false, Some((s.actors[a].key, s.actors[a].draft))))
        .(leases := s.leases - Elems(keys), now := to)
    case Insert =>
      var key, draft := s.actors[a].key, s.actors[a].draft;
      if |Owned(s.leases, draft.owner)| >= SESSION_LIMIT then Become(s, a, Refused(draft.token, draft.files))
      else End(s, a).(leases := s.leases[key := draft], entered := s.entered + {key.id})
    case RevokeRefused =>
      Become(s, a, Unwinding(s.actors[a].files)).(revoked := s.revoked + multiset{Token(s.actors[a].token)})
    case Unwind => End(s, a).(closed := s.closed + Files(s.actors[a].files))
  }

  // ----- closeSession, expireSessions and Stop -----

  ghost predicate RemoveGuard(s: State, a: nat, e: RemoveStep) {
    match e
    case TickerSweep(keys, to) => a !in s.actors && to >= s.now && Sweeps(s.leases, keys, s.now, to)
    case CloseSession(key) => a !in s.actors
    case Stop(keys) => a !in s.actors && Distinct(keys) && Elems(keys) == s.leases.Keys
    case RevokeHead => a in s.actors && s.actors[a].Removing? && s.actors[a].todo != [] && !s.actors[a].revoked
    case CloseHead => a in s.actors && s.actors[a].Removing? && s.actors[a].todo != [] && s.actors[a].revoked
    case CloseStopped => a in s.actors && s.actors[a].Stopping? && s.actors[a].todo != []
    case RemovalDone => a in s.actors && (s.actors[a].Removing? || s.actors[a].Stopping?) && s.actors[a].todo == []
  }

  ghost function ApplyRemove(s: State, a: nat, e: RemoveStep): State
    requires RemoveGuard(s, a, e)
  {
    match e
    case TickerSweep(keys, to) =>
      Become(s, a, Removing(Detached(s.leases, keys), false, None)).(leases := s.leases - Elems(keys), now := to)
    case CloseSession(key) =>
      if key in s.leases then
        Become(s, a, Removing([s.leases[key]], false, None)).(leases := s.leases - {key})
      else s
    case Stop(keys) =>
      var todo := Detached(s.leases, keys);
      Become(s, a, Stopping(todo)).(leases := map[], dropped := s.dropped + ListTokens(todo))
    case RevokeHead =>
      Become(s, a, s.actors[a].(revoked := true))
        .(revoked := s.revoked + multiset{Token(s.actors[a].todo[0].token)})
    case CloseHead =>
      Become(s, a, s.actors[a].(todo := s.actors[a].todo[1..], revoked := false))
        .(closed := s.closed + Files(s.actors[a].todo[0].files))
    case CloseStopped =>
      Become(s, a, Stopping(s.actors[a].todo[1..])).(closed := s.closed + Files(s.actors[a].todo[0].files))
    case RemovalDone =>
      var r := s.actors[a];
      if r.Removing? && r.next.Some? then Become(s, a, Inserting(r.next.value.0, r.next.value.1)) else End(s, a)
  }

  // ----- serve and the file operations -----

  predicate Busy(s: State, a: nat) {
    a in s.actors && s.actors[a].Working?
  }

  predicate ServeGuard(s: State, a: nat, e: ServeStep) {
    match e
    case Lookup(key) => a !in s.actors && key in s.leases && s.now <= s.leases[key].expires
    case Finish => Busy(s, a)
    case _ => a in s.actors && s.actors[a].Looking?
  }

  function Min(a: int, b: int): int {
    if a <= b then a else b
  }

  function ApplyServe(s: State, a: nat, e: ServeStep): State
    requires ServeGuard(s, a, e)
  {
    match e
    case Lookup(key) => Become(s, a, Looking(key, s.leases[key]))
    case GiveUp => End(s, a)
    case Claim =>
      var key, seen := s.actors[a].key, s.actors[a].seen;
      if Claimable(s.leases, key, seen) then
        Become(s, a, Working(Tunnel, key, seen, seen.expires, Idle)).(leases := SetActive(s.leases, key, true))
      else End(s, a)
    case BeginTransfer =>
      var seen := s.actors[a].seen;
      Become(s, a, Working(Transfer, s.actors[a].key, seen, Min(s.now + TRANSFER_SECONDS, seen.expires), Idle))
    case Finish =>
      var w := s.actors[a];
      End(s, a).(leases := if w.kind == Tunnel then SetActive(s.leases, w.key, false) else s.leases)
  }

  // ----- The watcher goroutines -----

  predicate WatchGuard(s: State, a: nat, e: WatchStep) {
    Busy(s, a) &&
    match e
    case CheckLease => s.actors[a].watch == Idle
    case CheckLogin => s.actors[a].watch.LeaseChecked?
    case CheckPermit => s.actors[a].watch.LoginChecked?
    case Validate => s.actors[a].watch.PermitChecked?
    case FilesClosed =>
      s.actors[a].kind == Transfer && s.actors[a].watch == Idle
      && s.actors[a].seen.files.Some? && Space(s.actors[a].seen.files.value) in s.closed
  }

  /** The first check of a tick: the lease is still there, and for a tunnel unchanged. */
  predicate LeaseThere(s: State, w: Actor)
    requires w.Working?
  {
    w.key in s.leases && (w.kind == Tunnel ==> s.leases[w.key].expires == w.seen.expires)
  }

  predicate FingerprintSame(world: World, seen: Lease) {
    seen.connection in world.fingerprints && world.fingerprints[seen.connection] == seen.fingerprint
  }

  function Observed(s: State, a: nat, e: WatchStep): Watch
    requires WatchGuard(s, a, e)
  {
    var w := s.actors[a];
    match e
    case CheckLease => LeaseChecked(LeaseThere(s, w))
    case CheckLogin => LoginChecked(w.watch.ok && w.key.cookie in s.world.loggedIn)
    case CheckPermit => PermitChecked(w.watch.ok && w.key.cookie in s.world.permitted)
    case Validate => if w.watch.ok && FingerprintSame(s.world, w.seen) then Idle else Cancelled
    case FilesClosed => Cancelled
  }

  function ApplyWatch(s: State, a: nat, e: WatchStep): State
    requires WatchGuard(s, a, e)
  {
    Become(s, a, s.actors[a].(watch := Observed(s, a, e)))
  }

  // ----- Steps and runs -----

  ghost predicate Guard(s: State, e: Event) {
    match e
    case Advance(to) => to >= s.now
    case Change(_) => true
    case Launch(a, step) => LaunchGuard(s, a, step)
    case Remove(a, step) => RemoveGuard(s, a, step)
    case Serve(a, step) => ServeGuard(s, a, step)
    case Watching(a, step) => WatchGuard(s, a, step)
  }

  ghost function Apply(s: State, e: Event): State
    requires Guard(s, e)
  {
    match e
    case Advance(to) => s.(now := to)
    case Change(world) => s.(world := world)
    case Launch(a, step) => ApplyLaunch(s, a, step)
    case Remove(a, step) => ApplyRemove(s, a, step)
    case Serve(a, step) => ApplyServe(s, a, step)
    case Watching(a, step) => ApplyWatch(s, a, step)
  }

  ghost predicate StepAt(states: seq<State>, events: seq<Event>, i: nat)
    requires i < |events| < |states|
  {
    Guard(states[i], events[i]) && states[i + 1] == Apply(states[i], events[i])
  }

  /** states is what the process goes through while events happen one after the other. */
  ghost predicate IsRun(states: seq<State>, events: seq<Event>) {
    |states| == |events| + 1 && forall i | 0 <= i < |events| :: StepAt(states, events, i)
  }

  // ----- Detaching leases from the map -----

  lemma DetachedWithout(leases: map<Key, Lease>, keys: seq<Key>, k: Key)
    requires Elems(keys) <= leases.Keys && k !in keys
    ensures Elems(keys) <= (leases - {k}).Keys
    ensures Detached(leases - {k}, keys) == Detached(leases, keys)
  {
    if keys != [] {
      assert forall x | x in keys[1..] :: x in Elems(keys);
      DetachedWithout(leases, keys[1..], k);
    }
  }

  lemma DetachedHead(leases: map<Key, Lease>, keys: seq<Key>, r: Resource)
    requires Distinct(keys) && Elems(keys) <= leases.Keys && keys != []
    ensures keys[0] in leases && keys[0] !in keys[1..] && Distinct(keys[1..])
    ensures Elems(keys[1..]) <= (leases - {keys[0]}).Keys
    ensures ListHolds(Detached(leases, keys), r)
            == LeaseHolds(leases[keys[0]], r) + ListHolds(Detached(leases - {keys[0]}, keys[1..]), r)
  {
    var k, rest := keys[0], keys[1..];
    assert k in Elems(keys) && forall x | x in rest :: x in Elems(keys);
    assert Elems(rest) <= leases.Keys;
    DetachedWithout(leases, rest, k);
    assert Detached(leases, keys)[1..] == Detached(leases, rest);
  }

  lemma WithoutHead(leases: map<Key, Lease>, keys: seq<Key>)
    requires keys != []
    ensures leases - {keys[0]} - Elems(keys[1..]) == leases - Elems(keys)
  {
    assert keys == [keys[0]] + keys[1..];
    assert Elems(keys) == {keys[0]} + Elems(keys[1..]);
  }

  /** Detaching leases moves what they hold from the map to the list. */
  lemma {:induction false} TotalDetach(leases: map<Key, Lease>, keys: seq<Key>, r: Resource)
    requires Distinct(keys) && Elems(keys) <= leases.Keys
    ensures Total(leases, LeaseHolds, r)
            == ListHolds(Detached(leases, keys), r) + Total(leases - Elems(keys), LeaseHolds, r)
  {
    if keys == [] {
      assert leases - Elems(keys) == leases;
    } else {
      DetachedHead(leases, keys, r);
      TotalRemove(leases, LeaseHolds, keys[0], r);
      TotalDetach(leases - {keys[0]}, keys[1..], r);
      WithoutHead(leases, keys);
    }
  }

  lemma {:induction false} ListSplits(ls: seq<Lease>, r: Resource)
    ensures ListHolds(ls, r) == ListTokens(ls)[r] + ListSpaces(ls, r)
  {
    if ls != [] { ListSplits(ls[1..], r); }
  }
}
