/** Uploads into one session racing with its close, with the watcher of each upload and with
    other writers of the directory. One step is what happens between two points at which
    another goroutine can be seen. */
module FileRace {
  import opened Options
  import opened Quota
  import opened FileSpace
  import opened Sums

  /** An upload waits for the mutex, then holds it until it leaves. temp tells whether its
      temporary file exists. */
  datatype Phase =
    | Waiting
    | Copying
    | Copied(data: seq<bv8>)
    | SawOpen(data: seq<bv8>)
    | Fits(data: seq<bv8>)
    | Leaving(temp: bool)

  /** cut: the upload's watcher has set its read deadline to now. */
  datatype Upload = Upload(name: string, phase: Phase, cut: bool)

  datatype Closer = Uncalled | Signalled | Holding | Finished

  datatype Holder = Free | Uploader(a: nat) | ByCloser

  /** dir is the session directory while it exists; outside tells whether anything but uploads
      has ever written to it. */
  datatype Space = Space(closer: Closer, done: bool, closed: bool, holder: Holder,
                         uploads: map<nat, Upload>, temps: set<nat>, dir: Option<map<string, Node>>, outside: bool)

  datatype Event =
    | Arrive(a: nat, name: string)
    | Lock(a: nat)
    | Receive(a: nat, data: seq<bv8>)
    | BodyFails(a: nat)
    | WatcherCuts(a: nat)
    | CutRead(a: nat)
    | CheckDone(a: nat)
    | Measure(a: nat, fits: bool)
    | Publish(a: nat)
    | Leave(a: nat)
    | WriteOutside(files: map<string, Node>)
    | CallClose
    | CloseLocks
    | CloseRemoves(removed: bool)

  predicate At(s: Space, a: nat) {
    a in s.uploads
  }

  ghost predicate Guard(s: Space, e: Event) {
    match e
    case Arrive(a, _) => !At(s, a)
    case Lock(a) => At(s, a) && s.uploads[a].phase == Waiting && s.holder == Free
    case Receive(a, _) => At(s, a) && s.uploads[a].phase == Copying && !s.uploads[a].cut
    case BodyFails(a) => At(s, a) && s.uploads[a].phase == Copying
    case WatcherCuts(a) => At(s, a) && s.done && !s.uploads[a].cut
    case CutRead(a) => At(s, a) && s.uploads[a].phase == Copying && s.uploads[a].cut
    case CheckDone(a) => At(s, a) && s.uploads[a].phase.Copied?
    case Measure(a, fits) =>
      At(s, a) && s.uploads[a].phase.SawOpen?
      && (!s.outside && s.dir.Some? ==> fits == Accepts(s.dir.value, |s.uploads[a].phase.data|))
    case Publish(a) => At(s, a) && s.uploads[a].phase.Fits?
    case Leave(a) => At(s, a) && s.uploads[a].phase.Leaving?
    case WriteOutside(_) => s.dir.Some?
    case CallClose => s.closer == Uncalled
    case CloseLocks => s.closer == Signalled && s.holder == Free
    case CloseRemoves(_) => s.closer == Holding
  }

  function Turn(s: Space, a: nat, phase: Phase): Space
    requires At(s, a)
  {
    s.(uploads := s.uploads[a := s.uploads[a].(phase := phase)])
  }

  /** Linking the temporary file to its name fails if the name is taken. */
  function Linked(dir: Option<map<string, Node>>, name: string, data: seq<bv8>): Option<map<string, Node>> {
    if dir.Some? && name !in dir.value then Some(dir.value[name := File(data)]) else dir
  }

  ghost function Apply(s: Space, e: Event): Space
    requires Guard(s, e)
  {
    match e
    case Arrive(a, name) => s.(uploads := s.uploads[a := Upload(name, Waiting, false)])
    case Lock(a) =>
      var t := s.(holder := Uploader(a));
      if s.closed || s.dir.None? || s.uploads[a].name in s.dir.value then Turn(t, a, Leaving(false))
      else Turn(t, a, Copying).(temps := s.temps + {a})
    case Receive(a, data) => Turn(s, a, if |data| > MAX_FILE_BYTES then Leaving(true) else Copied(data))
    case BodyFails(a) => Turn(s, a, Leaving(true))
    case WatcherCuts(a) => s.(uploads := s.uploads[a := s.uploads[a].(cut := true)])
    case CutRead(a) => Turn(s, a, Leaving(true))
    case CheckDone(a) => Turn(s, a, if s.done then Leaving(true) else SawOpen(s.uploads[a].phase.data))
    case Measure(a, fits) => Turn(s, a, if fits then Fits(s.uploads[a].phase.data) else Leaving(true))
    case Publish(a) =>
      Turn(s, a, Leaving(true)).(dir := Linked(s.dir, s.uploads[a].name, s.uploads[a].phase.data))
    case Leave(a) => s.(uploads := s.uploads - {a}, temps := s.temps - {a}, holder := Free)
    case WriteOutside(files) => s.(dir := Some(files), outside := true)
    case CallClose => s.(closer := Signalled, done := true)
    case CloseLocks => s.(closer := Holding, closed := true, holder := ByCloser)
    case CloseRemoves(removed) =>
      s.(closer := Finished, holder := Free, dir := if removed then None else s.dir)
  }

  ghost predicate StepAt(states: seq<Space>, events: seq<Event>, i: nat)
    requires i < |events| < |states|
  {
    Guard(states[i], events[i]) && states[i + 1] == Apply(states[i], events[i])
  }

  ghost predicate IsRun(states: seq<Space>, events: seq<Event>) {
    |states| == |events| + 1 && forall i | 0 <= i < |events| :: StepAt(states, events, i)
  }

  ghost predicate Init(s: Space) {
    s == Space(Uncalled, false, false, Free, map[], {}, Some(map[]), false)
  }

  // ----- The mutex, the flags and the temporary files -----

  predicate HoldsLock(u: Upload) {
    u.phase != Waiting
  }

  predicate HasTemp(u: Upload) {
    u.phase != Waiting && u.phase != Leaving(false)
  }

  /** Past the closed check and still able to publish. */
  predicate Working(u: Upload) {
    u.phase != Waiting && !u.phase.Leaving?
  }

  ghost predicate Inv(s: Space) {
    && (s.done <==> s.closer != Uncalled)
    && (s.closed <==> s.closer == Holding || s.closer == Finished)
    && (s.holder == ByCloser <==> s.closer == Holding)
    && (forall a | a in s.uploads :: HoldsLock(s.uploads[a]) <==> s.holder == Uploader(a))
    && (s.holder.Uploader? ==> s.holder.a in s.uploads)
    && (forall a | a in s.uploads && Working(s.uploads[a]) :: !s.closed)
    && (forall a :: a in s.temps <==> a in s.uploads && HasTemp(s.uploads[a]))
  }

  /** An upload that holds the mutex moves on without giving it up. */
  lemma TurnKeepsInv(s: Space, t: Space, a: nat)
    requires Inv(s) && a in s.uploads && HoldsLock(s.uploads[a])
    requires a in t.uploads && HoldsLock(t.uploads[a]) && HasTemp(t.uploads[a]) == HasTemp(s.uploads[a])
    requires Working(t.uploads[a]) ==> Working(s.uploads[a])
    requires t.uploads == s.uploads[a := t.uploads[a]]
    requires t == s.(uploads := t.uploads, dir := t.dir)
    ensures Inv(t)
  {
  }

  lemma LockKeepsInv(s: Space, a: nat)
    requires Inv(s) && Guard(s, Lock(a))
    ensures Inv(Apply(s, Lock(a)))
  {
  }

  lemma QueueKeepsInv(s: Space, e: Event)
    requires Inv(s) && Guard(s, e) && (e.Arrive? || e.WatcherCuts? || e.Leave?)
    ensures Inv(Apply(s, e))
  {
  }

  lemma InvStep(s: Space, e: Event)
    requires Inv(s) && Guard(s, e)
    ensures Inv(Apply(s, e))
  {
    hide Accepts;
    if e.Receive? || e.BodyFails? || e.CutRead? || e.CheckDone? || e.Measure? || e.Publish? {
      TurnKeepsInv(s, Apply(s, e), e.a);
    } else if e.Lock? {
      LockKeepsInv(s, e.a);
    } else if e.Arrive? || e.WatcherCuts? || e.Leave? {
      QueueKeepsInv(s, e);
    }
  }

  lemma {:induction false} InvAlways(states: seq<Space>, events: seq<Event>, i: nat)
    requires IsRun(states, events) && Inv(states[0]) && i < |states|
    ensures Inv(states[i])
  {
    if i > 0 {
      InvAlways(states, events, i - 1);
      assert StepAt(states, events, i - 1);
      InvStep(states[i - 1], events[i - 1]);
    }
  }

  // ----- Nothing is published after the close, or after seeing it -----

  lemma InitInv(s: Space)
    requires Init(s)
    ensures Inv(s)
  {
  }

  lemma ClosedStays(states: seq<Space>, events: seq<Event>, i: nat, j: nat)
    requires IsRun(states, events) && i <= j < |states|
    ensures states[i].done ==> states[j].done
    ensures states[i].closed ==> states[j].closed
  {
    if i < j {
      ClosedStays(states, events, i, j - 1);
      assert StepAt(states, events, j - 1);
    }
  }

  /** Once the close has taken the mutex no upload publishes: no such step is possible, and
      an upload that gets the mutex later is turned away. */
  lemma NoPublicationAfterClose(states: seq<Space>, events: seq<Event>, i: nat, j: nat, a: nat)
    requires IsRun(states, events) && Init(states[0]) && i <= j < |states| && states[i].closed
    ensures !Guard(states[j], Publish(a))
    ensures a in states[j].uploads ==> states[j].uploads[a].phase == Waiting || states[j].uploads[a].phase.Leaving?
  {
    InitInv(states[0]);
    InvAlways(states, events, i);
    InvAlways(states, events, j);
    ClosedStays(states, events, i, j);
  }

  predicate BeforeCheck(s: Space, a: nat) {
    a in s.uploads ==> !s.uploads[a].phase.SawOpen? && !s.uploads[a].phase.Fits?
  }

  lemma BeforeCheckStep(s: Space, e: Event, a: nat)
    requires Guard(s, e) && s.done && BeforeCheck(s, a)
    ensures Apply(s, e).done && BeforeCheck(Apply(s, e), a)
  {
    hide Accepts;
  }

  /** An upload that has not passed its check of `done` when the close is called will see it,
      and never publishes, even while the close is still waiting for the mutex. */
  lemma {:induction false} NoPublicationAfterDone(states: seq<Space>, events: seq<Event>, i: nat, j: nat, a: nat)
    requires IsRun(states, events) && i <= j < |states| && states[i].done && BeforeCheck(states[i], a)
    ensures states[j].done && BeforeCheck(states[j], a) && !Guard(states[j], Publish(a))
    decreases j
  {
    if i < j {
      NoPublicationAfterDone(states, events, i, j - 1, a);
      assert StepAt(states, events, j - 1);
      BeforeCheckStep(states[j - 1], events[j - 1], a);
    }
  }

  // ----- A close that waits can always be served -----

  /** Steps that need neither a client nor another writer of the directory. */
  predicate Internal(e: Event) {
    !e.Arrive? && !e.Lock? && !e.Receive? && !e.BodyFails? && !e.WriteOutside? && !e.CallClose?
  }

  predicate ClosePending(s: Space) {
    s.closer == Signalled || s.closer == Holding
  }

  /** The step that brings a pending close forward: its own, or one of the upload that holds
      the mutex; a blocked read is cut by the upload's watcher. */
  ghost function Serving(s: Space): Event
    requires Inv(s) && ClosePending(s)
  {
    if s.closer == Holding then CloseRemoves(true)
    else if s.holder == Free then CloseLocks
    else
      var a := s.holder.a;
      match s.uploads[a].phase
      case Copying => if s.uploads[a].cut then CutRead(a) else WatcherCuts(a)
      case Copied(_) => CheckDone(a)
      case SawOpen(data) => Measure(a, s.dir.Some? && Accepts(s.dir.value, |data|))
      case Fits(_) => Publish(a)
      case _ => Leave(a)
  }

  function StepsLeft(s: Space): nat {
    if s.closer == Finished then 0
    else if s.closer == Holding then 1
    else if !s.holder.Uploader? || s.holder.a !in s.uploads then 2
    else
      match s.uploads[s.holder.a].phase
      case Copying => if s.uploads[s.holder.a].cut then 4 else 5
      case Copied(_) => 6
      case SawOpen(_) => 5
      case Fits(_) => 4
      case _ => 3
  }

  /** It is always possible, needs no client, and leaves fewer steps to go. */
  lemma ServingHelps(s: Space)
    requires Inv(s) && ClosePending(s)
    ensures Guard(s, Serving(s)) && Internal(Serving(s))
    ensures StepsLeft(Apply(s, Serving(s))) < StepsLeft(s) <= 6
    ensures ClosePending(Apply(s, Serving(s)))
            || (Apply(s, Serving(s)).closer == Finished && Apply(s, Serving(s)).dir.None?)
  {
    hide Accepts;
    if s.holder.Uploader? {
      assert HoldsLock(s.uploads[s.holder.a]);
    }
  }

  /** So from any reachable state a pending close can be completed, and the directory removed,
      in at most six steps that need no client. */
  lemma {:induction false} PendingCloseCompletes(s: Space) returns (states: seq<Space>, events: seq<Event>)
    requires Inv(s) && ClosePending(s)
    ensures IsRun(states, events) && states[0] == s && |events| <= StepsLeft(s) <= 6
    ensures states[|events|].closer == Finished && states[|events|].dir.None?
    ensures forall e | e in events :: Internal(e)
    decreases StepsLeft(s)
  {
    ServingHelps(s);
    var e := Serving(s);
    var t := Apply(s, e);
    if t.closer == Finished {
      states, events := [s, t], [e];
      assert StepAt(states, events, 0);
    } else {
      InvStep(s, e);
      var rest, later := PendingCloseCompletes(t);
      states, events := [s] + rest, [e] + later;
      forall i | 0 <= i < |events| ensures StepAt(states, events, i) {
        if i > 0 { assert StepAt(rest, later, i - 1); }
      }
    }
  }

  // ----- What is published -----

  lemma NameStep(s: Space, e: Event, a: nat)
    requires Guard(s, e) && a in Apply(s, e).uploads
    ensures e == Arrive(a, Apply(s, e).uploads[a].name)
            || (a in s.uploads && s.uploads[a].name == Apply(s, e).uploads[a].name)
  {
    hide Accepts;
  }

  /** An upload that is under way arrived under the name it has. */
  lemma {:induction false} ArrivedAt(states: seq<Space>, events: seq<Event>, i: nat, a: nat) returns (n: nat)
    requires IsRun(states, events) && Init(states[0]) && i < |states| && a in states[i].uploads
    ensures n < i && events[n] == Arrive(a, states[i].uploads[a].name)
    decreases i
  {
    hide Apply, Guard;
    assert StepAt(states, events, i - 1);
    NameStep(states[i - 1], events[i - 1], a);
    if events[i - 1] == Arrive(a, states[i].uploads[a].name) {
      n := i - 1;
    } else {
      n := ArrivedAt(states, events, i - 1, a);
    }
  }

  predicate HasData(u: Upload) {
    u.phase.Copied? || u.phase.SawOpen? || u.phase.Fits?
  }

  lemma DataStep(s: Space, e: Event, a: nat)
    requires Guard(s, e) && a in Apply(s, e).uploads && HasData(Apply(s, e).uploads[a])
    ensures var u := Apply(s, e).uploads[a];
      && a in s.uploads && s.uploads[a].name == u.name
      && (e == Receive(a, u.phase.data) || (HasData(s.uploads[a]) && s.uploads[a].phase.data == u.phase.data))
  {
    hide Accepts, Linked;
    var t := Apply(s, e);
    if !(e.Receive? || e.CheckDone? || e.Measure?) {
      assert a in s.uploads && (t.uploads[a].phase == s.uploads[a].phase);
    }
  }

  /** And what it is about to publish is what it received. */
  lemma {:induction false} ReceivedAt(states: seq<Space>, events: seq<Event>, i: nat, a: nat) returns (n: nat)
    requires IsRun(states, events) && Init(states[0]) && i < |states|
    requires a in states[i].uploads && HasData(states[i].uploads[a])
    ensures n < i && events[n] == Receive(a, states[i].uploads[a].phase.data)
    ensures a in states[n].uploads && states[n].uploads[a].name == states[i].uploads[a].name
    decreases i
  {
    hide Apply, Guard;
    assert StepAt(states, events, i - 1);
    DataStep(states[i - 1], events[i - 1], a);
    hide HasData;
    if events[i - 1] == Receive(a, states[i].uploads[a].phase.data) {
      n := i - 1;
    } else {
      n := ReceivedAt(states, events, i - 1, a);
    }
  }

  lemma PublishHasData(s: Space, a: nat)
    requires Guard(s, Publish(a))
    ensures a in s.uploads && HasData(s.uploads[a])
  {
  }

  /** Only a publication puts a file into a directory that nobody else writes to. */
  lemma NewFileIsPublished(s: Space, e: Event, name: string)
    requires Guard(s, e) && !Apply(s, e).outside && Apply(s, e).dir.Some? && name in Apply(s, e).dir.value
    ensures s.dir.Some? && !s.outside
    ensures (name in s.dir.value && Apply(s, e).dir.value[name] == s.dir.value[name])
            || (e.Publish? && s.uploads[e.a].name == name
                && Apply(s, e).dir.value[name] == File(s.uploads[e.a].phase.data))
  {
    hide Accepts;
  }

  /** Every file of a directory that only uploads write to arrived under that name and was
      received with that content, before it was published. */
  lemma {:induction false} FilesWereUploaded(states: seq<Space>, events: seq<Event>, i: nat, name: string)
    returns (a: nat, arrived: nat, received: nat, published: nat)
    requires IsRun(states, events) && Init(states[0]) && i < |states|
    requires !states[i].outside && states[i].dir.Some? && name in states[i].dir.value
    ensures arrived < received < published < i && events[arrived] == Arrive(a, name)
    ensures events[received].Receive? && events[received].a == a && events[published] == Publish(a)
    ensures states[i].dir.value[name] == File(events[received].data)
    decreases i
  {
    hide Apply, Guard;
    assert StepAt(states, events, i - 1);
    var s, e := states[i - 1], events[i - 1];
    NewFileIsPublished(s, e, name);
    if name in s.dir.value && states[i].dir.value[name] == s.dir.value[name] {
      a, arrived, received, published := FilesWereUploaded(states, events, i - 1, name);
    } else {
      a, published := e.a, i - 1;
      PublishHasData(s, a);
      received := ReceivedAt(states, events, published, a);
      arrived := ArrivedAt(states, events, received, a);
    }
  }

  /** The step turns the upload away, or finds that it must not be published: the name is taken,
      the space is closed or gone, the body fails, is cut off or is too long, the close has been
      called, or there is no room. */
  predicate Refuses(s: Space, e: Event, a: nat) {
    match e
    case Lock(b) => b == a && a in s.uploads && (s.closed || s.dir.None? || s.uploads[a].name in s.dir.value)
    case Receive(b, data) => b == a && |data| > 32 * 1024 * 1024
    case BodyFails(b) => b == a
    case CutRead(b) => b == a
    case CheckDone(b) => b == a && s.done
    case Measure(b, fits) => b == a && !fits
    case _ => false
  }

  predicate Refused(s: Space, a: nat) {
    a in s.uploads ==> s.uploads[a].phase.Leaving?
  }

  lemma RefusedStep(s: Space, e: Event, a: nat)
    requires Guard(s, e) && (Refuses(s, e, a) || (Refused(s, a) && !(e.Arrive? && e.a == a)))
    ensures Refused(Apply(s, e), a)
  {
    hide Accepts;
  }

  /** Such an upload never publishes. */
  lemma {:induction false} RefusedNeverPublishes(states: seq<Space>, events: seq<Event>, i: nat, j: nat, a: nat)
    requires IsRun(states, events) && i < j < |states| && Refuses(states[i], events[i], a)
    requires forall k | i < k < j :: !(events[k].Arrive? && events[k].a == a)
    ensures Refused(states[j], a) && !Guard(states[j], Publish(a))
    decreases j
  {
    hide Apply, Refuses;
    assert StepAt(states, events, j - 1);
    if i < j - 1 { RefusedNeverPublishes(states, events, i, j - 1, a); }
    RefusedStep(states[j - 1], events[j - 1], a);
  }

  lemma OnlyThreeWrite(s: Space, e: Event)
    requires Guard(s, e) && !e.Publish? && !e.CloseRemoves? && !e.WriteOutside?
    ensures Apply(s, e).dir == s.dir
  {
    hide Accepts;
  }

  /** What others wrote is there until an upload publishes, the close removes it or they write
      again. */
  lemma {:induction false} OutsideWritesStay(states: seq<Space>, events: seq<Event>, i: nat, j: nat)
    requires IsRun(states, events) && i < j < |states| && events[i].WriteOutside?
    requires forall k | i < k < j :: !events[k].Publish? && !events[k].CloseRemoves? && !events[k].WriteOutside?
    ensures states[j].dir == Some(events[i].files)
    decreases j
  {
    assert StepAt(states, events, j - 1);
    if i < j - 1 {
      hide Apply, Guard;
      OutsideWritesStay(states, events, i, j - 1);
      OnlyThreeWrite(states[j - 1], events[j - 1]);
    }
  }

  /** The steps of an upload that nothing disturbs. */
  function Undisturbed(a: nat, name: string, data: seq<bv8>): seq<Event> {
    [Arrive(a, name), Lock(a), Receive(a, data), CheckDone(a), Measure(a, true), Publish(a), Leave(a)]
  }

  /** A run of the first k events goes on with the next one. */
  lemma StepOn(states: seq<Space>, events: seq<Event>, k: nat) returns (more: seq<Space>)
    requires k < |events| && IsRun(states, events[..k]) && Guard(states[k], events[k])
    ensures IsRun(more, events[..k + 1]) && more[0] == states[0] && more[k + 1] == Apply(states[k], events[k])
  {
    hide Apply, Guard;
    more := states + [Apply(states[k], events[k])];
    var upTo := events[..k + 1];
    forall i | 0 <= i < |upTo| ensures StepAt(more, upTo, i) {
      if i < k { assert StepAt(states, events[..k], i); }
    }
  }

  lemma NoSteps(s: Space)
    ensures IsRun([s], [])
  {
  }

  /** s with the upload a at work in it. */
  function During(s: Space, a: nat, name: string, phase: Phase): Space {
    s.(uploads := s.uploads[a := Upload(name, phase, false)], temps := s.temps + {a}, holder := Uploader(a))
  }

  lemma Enters(s: Space, a: nat, name: string)
    requires Inv(s) && s.holder == Free && !s.done && a !in s.uploads && s.dir.Some? && name !in s.dir.value
    ensures Guard(s, Arrive(a, name)) && Guard(Apply(s, Arrive(a, name)), Lock(a))
    ensures Apply(Apply(s, Arrive(a, name)), Lock(a)) == During(s, a, name, Copying)
  {
  }

  lemma Receives(s: Space, a: nat, name: string, data: seq<bv8>)
    requires |data| <= 32 * 1024 * 1024 && !s.done
    ensures var t := During(s, a, name, Copying);
      Guard(t, Receive(a, data)) && Apply(t, Receive(a, data)) == During(s, a, name, Copied(data))
    ensures var t := During(s, a, name, Copied(data));
      Guard(t, CheckDone(a)) && Apply(t, CheckDone(a)) == During(s, a, name, SawOpen(data))
  {
  }

  lemma Measures(s: Space, a: nat, name: string, data: seq<bv8>)
    requires s.outside || s.dir.None? || Accepts(s.dir.value, |data|)
    ensures var t := During(s, a, name, SawOpen(data));
      Guard(t, Measure(a, true)) && Apply(t, Measure(a, true)) == During(s, a, name, Fits(data))
  {
    hide Accepts;
  }

  lemma Publishes(s: Space, a: nat, name: string, data: seq<bv8>)
    requires Inv(s) && s.holder == Free && a !in s.uploads && s.dir.Some? && name !in s.dir.value
    ensures var t := During(s, a, name, Fits(data));
      && Guard(t, Publish(a)) && Guard(Apply(t, Publish(a)), Leave(a))
      && Apply(Apply(t, Publish(a)), Leave(a)) == s.(dir := Some(s.dir.value[name := File(data)]))
  {
    var t := During(s, a, name, Fits(data));
    var u := Apply(t, Publish(a));
    assert u.uploads - {a} == s.uploads && u.temps - {a} == s.temps;
  }

  /** An upload of at most 32 MiB that fits under a free name goes through, from any state in
      which the space is open and the mutex free; it leaves behind its file and nothing else. */
  lemma UploadGoesThrough(s: Space, a: nat, name: string, data: seq<bv8>) returns (states: seq<Space>)
    requires Inv(s) && s.holder == Free && !s.done && a !in s.uploads
    requires s.dir.Some? && name !in s.dir.value && |data| <= 32 * 1024 * 1024
    requires s.outside || Accepts(s.dir.value, |data|)
    ensures IsRun(states, Undisturbed(a, name, data)) && states[0] == s
    ensures states[7] == s.(dir := Some(s.dir.value[name := File(data)]))
  {
    hide Accepts, IsRun, Apply, Guard, Inv, During;
    var es := Undisturbed(a, name, data);
    Enters(s, a, name);
    Receives(s, a, name, data);
    Measures(s, a, name, data);
    Publishes(s, a, name, data);
    NoSteps(s);
    assert es[..0] == [] && es[..7] == es;
    var one := StepOn([s], es, 0);
    var two := StepOn(one, es, 1);
    var three := StepOn(two, es, 2);
    var four := StepOn(three, es, 3);
    var five := StepOn(four, es, 4);
    var six := StepOn(five, es, 5);
    states := StepOn(six, es, 6);
  }

  // ----- Limits, and what is never overwritten -----

  /** As long as only uploads write, the directory stays within its limits, and an upload
      that was told its bytes fit will find that they do. */
  ghost predicate Bounded(s: Space) {
    !s.outside && s.dir.Some? ==>
      && WithinLimits(s.dir.value)
      && forall a | a in s.uploads ::
           var u := s.uploads[a];
           && (u.phase.Copied? || u.phase.SawOpen? || u.phase.Fits? ==> |u.phase.data| <= MAX_FILE_BYTES)
           && (u.phase.Fits? ==> Accepts(s.dir.value, |u.phase.data|))
  }

  lemma PublishKeepsBounded(s: Space, a: nat)
    requires Inv(s) && Bounded(s) && Guard(s, Publish(a))
    ensures Bounded(Apply(s, Publish(a)))
  {
    if !s.outside && s.dir.Some? && s.uploads[a].name !in s.dir.value {
      AddKeepsLimits(s.dir.value, s.uploads[a].name, s.uploads[a].phase.data);
    }
  }

  lemma TurnKeepsBounded(s: Space, e: Event)
    requires Inv(s) && Bounded(s) && Guard(s, e)
    requires e.Receive? || e.BodyFails? || e.CutRead? || e.CheckDone? || e.Measure?
    ensures Bounded(Apply(s, e))
  {
    hide Accepts, WithinLimits, Inv;
  }

  lemma QueueKeepsBounded(s: Space, e: Event)
    requires Bounded(s) && Guard(s, e) && (e.Arrive? || e.Lock? || e.WatcherCuts? || e.Leave?)
    ensures Bounded(Apply(s, e))
  {
    hide Accepts, WithinLimits;
  }

  lemma RestKeepsBounded(s: Space, e: Event)
    requires Bounded(s) && Guard(s, e)
    requires e.WriteOutside? || e.CallClose? || e.CloseLocks? || e.CloseRemoves?
    ensures Bounded(Apply(s, e))
  {
    hide Accepts, WithinLimits;
  }

  lemma BoundedStep(s: Space, e: Event)
    requires Inv(s) && Bounded(s) && Guard(s, e)
    ensures Bounded(Apply(s, e))
  {
    hide *;
    if e.Publish? {
      PublishKeepsBounded(s, e.a);
    } else if e.Receive? || e.BodyFails? || e.CutRead? || e.CheckDone? || e.Measure? {
      TurnKeepsBounded(s, e);
    } else if e.Arrive? || e.Lock? || e.WatcherCuts? || e.Leave? {
      QueueKeepsBounded(s, e);
    } else {
      RestKeepsBounded(s, e);
    }
  }

  /** Over any run in which only uploads write to the directory, it has at most 4096 entries,
      every one is a regular file of at most 32 MiB, and together they hold at most 128 MiB. */
  lemma {:induction false} UploadsStayWithinLimits(states: seq<Space>, events: seq<Event>, i: nat)
    requires IsRun(states, events) && Init(states[0]) && i < |states|
    ensures Inv(states[i]) && Bounded(states[i])
    ensures states[i].dir.Some? && !states[i].outside ==>
              var files := states[i].dir.value;
              && |files| <= 4096 && Total(files, Weigh, Bytes) <= 128 * 1024 * 1024
              && forall n | n in files :: files[n].File? && |files[n].data| <= 32 * 1024 * 1024
  {
    if i == 0 {
      InitInv(states[0]);
    } else {
      UploadsStayWithinLimits(states, events, i - 1);
      assert StepAt(states, events, i - 1);
      InvStep(states[i - 1], events[i - 1]);
      BoundedStep(states[i - 1], events[i - 1]);
    }
  }

  predicate Keeps(from: map<string, Node>, to: map<string, Node>) {
    forall n | n in from :: n in to && to[n] == from[n]
  }

  lemma KeepsStep(s: Space, e: Event)
    requires Guard(s, e) && !e.WriteOutside? && Apply(s, e).dir.Some?
    ensures s.dir.Some? && Keeps(s.dir.value, Apply(s, e).dir.value)
  {
    hide Accepts;
  }

  /** A file once in the directory is never replaced by an upload: between two writes by
      others, and until the close removes the directory, it keeps its content. */
  lemma {:induction false} NeverOverwritten(states: seq<Space>, events: seq<Event>, i: nat, j: nat)
    requires IsRun(states, events) && i <= j < |states|
    requires states[i].dir.Some? && states[j].dir.Some?
    requires forall m | i <= m < j :: !events[m].WriteOutside?
    ensures Keeps(states[i].dir.value, states[j].dir.value)
    decreases j
  {
    hide Apply, Guard;
    if i < j {
      assert StepAt(states, events, j - 1);
      KeepsStep(states[j - 1], events[j - 1]);
      NeverOverwritten(states, events, i, j - 1);
    }
  }
}
