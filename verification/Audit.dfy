/** The audit log: every event carries a MAC over its fields and its predecessor's hash, and
    the row that holds the newest hash is locked for the length of each transaction. */
module Audit {
  import opened Options
  import Uuid

  type Hash = seq<bv8>

  /** What the migration puts in the head row: a backslash and the letter x. */
  const GENESIS: Hash := [0x5c, 0x78]

  datatype Event = Event(actor: string, action: string, outcome: string, resourceType: string, resource: string,
                         correlation: string, source: string, metadata: string)

  /** The list whose JSON encoding is authenticated; the encoding is injective. at is in
      nanoseconds. */
  datatype Canonical = Canonical(id: nat, at: int, event: Event, previous: Hash)

  /** An event as its transaction wrote it. */
  datatype Entry = Entry(id: nat, at: int, event: Event, previous: Hash, hash: Hash)

  function Fields(e: Entry): Canonical {
    Canonical(e.id, e.at, e.event, e.previous)
  }

  function Written(mac: Canonical -> Hash, id: nat, at: int, event: Event, previous: Hash): Entry {
    Entry(id, at, event, previous, mac(Canonical(id, at, event, previous)))
  }

  // ----- Concurrent transactions -----

  datatype Tx =
    | Begun(event: Event)
    | Doomed                     // the head could not be read; nothing later succeeds
    | Holding(event: Event, previous: Hash)
    | Inserted(entry: Entry)
    | HeadSet(entry: Entry)

  datatype State = State(head: Hash, log: seq<Entry>, txs: map<nat, Tx>, locked: Option<nat>)

  datatype Step =
    | Begin(t: nat, event: Event)
    | ReadFails(t: nat)
    | LockHead(t: nat)
    | Insert(t: nat, id: nat, at: int)
    | SetHead(t: nat)
    | Commit(t: nat)
    | Abort(t: nat)

  predicate Guard(s: State, e: Step) {
    match e
    case Begin(t, event) => t !in s.txs && event.action != "" && event.outcome != ""
    case ReadFails(t) => t in s.txs && s.txs[t].Begun?
    case LockHead(t) => t in s.txs && s.txs[t].Begun? && s.locked == None
    case Insert(t, _, _) => t in s.txs && s.txs[t].Holding?
    case SetHead(t) => t in s.txs && s.txs[t].Inserted?
    case Commit(t) => t in s.txs && s.txs[t].HeadSet?
    case Abort(t) => t in s.txs
  }

  function Move(s: State, t: nat, tx: Tx): State {
    s.(txs := s.txs[t := tx])
  }

  /** The end of a transaction releases the head row if this one held it. */
  function End(s: State, t: nat): State {
    s.(txs := s.txs - {t}, locked := if s.locked == Some(t) then None else s.locked)
  }

  function Apply(mac: Canonical -> Hash, s: State, e: Step): State
    requires Guard(s, e)
  {
    match e
    case Begin(t, event) => Move(s, t, Begun(event))
    case ReadFails(t) => Move(s, t, Doomed)
    case LockHead(t) => Move(s, t, Holding(s.txs[t].event, s.head)).(locked := Some(t))
    case Insert(t, id, at) => Move(s, t, Inserted(Written(mac, id, at, s.txs[t].event, s.txs[t].previous)))
    case SetHead(t) => Move(s, t, HeadSet(s.txs[t].entry))
    case Commit(t) => End(s, t).(head := s.txs[t].entry.hash, log := s.log + [s.txs[t].entry])
    case Abort(t) => End(s, t)
  }

  ghost predicate StepAt(mac: Canonical -> Hash, states: seq<State>, steps: seq<Step>, i: nat)
    requires i < |steps| < |states|
  {
    Guard(states[i], steps[i]) && states[i + 1] == Apply(mac, states[i], steps[i])
  }

  ghost predicate IsRun(mac: Canonical -> Hash, states: seq<State>, steps: seq<Step>) {
    && |states| == |steps| + 1 && states[0] == State(GENESIS, [], map[], None)
    && forall i | 0 <= i < |steps| :: StepAt(mac, states, steps, i)
  }

  // ----- One linear list -----

  function Tip(log: seq<Entry>): Hash {
    if log == [] then GENESIS else log[|log| - 1].hash
  }

  predicate Link(mac: Canonical -> Hash, log: seq<Entry>, i: nat)
    requires i < |log|
  {
    log[i].previous == (if i == 0 then GENESIS else log[i - 1].hash) && log[i].hash == mac(Fields(log[i]))
  }

  ghost predicate Linked(mac: Canonical -> Hash, log: seq<Entry>) {
    forall i | 0 <= i < |log| :: Link(mac, log, i)
  }

  predicate HoldsHead(tx: Tx) {
    tx.Holding? || tx.Inserted? || tx.HeadSet?
  }

  /** What a transaction past the lock has read or written starts from the head. */
  predicate FromHead(mac: Canonical -> Hash, head: Hash, tx: Tx) {
    match tx
    case Holding(_, previous) => previous == head
    case Inserted(e) => e.previous == head && e.hash == mac(Fields(e))
    case HeadSet(e) => e.previous == head && e.hash == mac(Fields(e))
    case _ => true
  }

  ghost predicate Inv(mac: Canonical -> Hash, s: State) {
    && Linked(mac, s.log) && s.head == Tip(s.log)
    && (forall t | t in s.txs :: (HoldsHead(s.txs[t]) <==> s.locked == Some(t)) && FromHead(mac, s.head, s.txs[t]))
    && (s.locked.Some? ==> s.locked.value in s.txs)
  }

  lemma LinkedAppend(mac: Canonical -> Hash, log: seq<Entry>, e: Entry)
    requires Linked(mac, log) && e.previous == Tip(log) && e.hash == mac(Fields(e))
    ensures Linked(mac, log + [e])
  {
    var longer := log + [e];
    forall i | 0 <= i < |longer| ensures Link(mac, longer, i) {
      if i < |log| { assert Link(mac, log, i); }
      if i > 0 { assert longer[i - 1] == log[i - 1]; }
    }
  }

  lemma InvStep(mac: Canonical -> Hash, s: State, e: Step)
    requires Inv(mac, s) && Guard(s, e)
    ensures Inv(mac, Apply(mac, s, e))
  {
    hide Linked;
    if e.Commit? {
      assert s.locked == Some(e.t);
      LinkedAppend(mac, s.log, s.txs[e.t].entry);
    }
  }

  /** However transactions overlap, commit or abort, the committed events form one list: each
      points at the one before it, its MAC recomputes from its own fields, and the head row
      holds the hash of the last. */
  lemma {:induction false} LogIsLinear(mac: Canonical -> Hash, states: seq<State>, steps: seq<Step>, i: nat)
    requires IsRun(mac, states, steps) && i < |states|
    ensures Inv(mac, states[i])
    ensures Linked(mac, states[i].log) && states[i].head == Tip(states[i].log)
    ensures states[i].log != [] ==> states[i].log[0].previous == [0x5c, 0x78]
  {
    if states[i].log != [] { assert Linked(mac, states[i].log) ==> Link(mac, states[i].log, 0); }
    if i > 0 {
      LogIsLinear(mac, states, steps, i - 1);
      assert StepAt(mac, states, steps, i - 1);
      InvStep(mac, states[i - 1], steps[i - 1]);
    }
  }

  // ----- Where the entries come from -----

  function EventOf(tx: Tx): Event
    requires !tx.Doomed?
  {
    match tx
    case Begun(event) => event
    case Holding(event, _) => event
    case Inserted(entry) => entry.event
    case HeadSet(entry) => entry.event
  }

  /** The step with which a transaction began that is still under way. */
  lemma {:induction false} BegunAt(mac: Canonical -> Hash, states: seq<State>, steps: seq<Step>, i: nat, t: nat)
    returns (b: nat)
    requires IsRun(mac, states, steps) && i < |states| && t in states[i].txs && !states[i].txs[t].Doomed?
    ensures b < i && steps[b] == Begin(t, EventOf(states[i].txs[t]))
    ensures EventOf(states[i].txs[t]).action != "" && EventOf(states[i].txs[t]).outcome != ""
    decreases i
  {
    assert StepAt(mac, states, steps, i - 1);
    if t in states[i - 1].txs {
      b := BegunAt(mac, states, steps, i - 1, t);
    } else {
      b := i - 1;
    }
  }

  /** The step with which it inserted its row. */
  lemma {:induction false} InsertedAt(mac: Canonical -> Hash, states: seq<State>, steps: seq<Step>, i: nat, t: nat)
    returns (n: nat)
    requires IsRun(mac, states, steps) && i < |states| && t in states[i].txs
    requires states[i].txs[t].Inserted? || states[i].txs[t].HeadSet?
    ensures var e := states[i].txs[t].entry;
      && n < i && steps[n] == Insert(t, e.id, e.at) && t in states[n].txs
      && states[n].txs[t].Holding? && states[n].txs[t].event == e.event
    decreases i
  {
    assert StepAt(mac, states, steps, i - 1);
    if steps[i - 1].Insert? && steps[i - 1].t == t {
      n := i - 1;
    } else {
      n := InsertedAt(mac, states, steps, i - 1, t);
    }
  }

  /** Every entry of the log was committed by a transaction that began with that very event,
      and inserted it with that id and time. */
  lemma {:induction false} EntryIsAsRecorded(mac: Canonical -> Hash, states: seq<State>, steps: seq<Step>, i: nat,
                                             n: nat) returns (b: nat, ins: nat, c: nat)
    requires IsRun(mac, states, steps) && i < |states| && n < |states[i].log|
    ensures b < ins < c < i && |states[c].log| == n
    ensures var e := states[i].log[n];
      && e.event.action != "" && e.event.outcome != ""
      && steps[b].Begin? && steps[b].event == e.event
      && steps[ins] == Insert(steps[b].t, e.id, e.at) && steps[c] == Commit(steps[b].t)
    decreases i
  {
    assert StepAt(mac, states, steps, i - 1);
    if n < |states[i - 1].log| {
      b, ins, c := EntryIsAsRecorded(mac, states, steps, i - 1, n);
    } else {
      c := i - 1;
      ins := InsertedAt(mac, states, steps, c, steps[c].t);
      b := BegunAt(mac, states, steps, ins, steps[c].t);
    }
  }

  /** Each commit adds one entry, and nothing is ever taken away. */
  lemma {:induction false} LogGrows(mac: Canonical -> Hash, states: seq<State>, steps: seq<Step>, i: nat, j: nat)
    requires IsRun(mac, states, steps) && i <= j < |states|
    ensures states[i].log <= states[j].log
    ensures i < j && steps[j - 1].Commit? ==> |states[j].log| == |states[j - 1].log| + 1
    ensures i < j && !steps[j - 1].Commit? ==> states[j].log == states[j - 1].log
    decreases j
  {
    if i < j {
      LogGrows(mac, states, steps, i, j - 1);
      assert StepAt(mac, states, steps, j - 1);
    }
  }

  /** A transaction that could not read the head, or gave up, commits nothing. */
  lemma {:induction false} FailedNeverCommits(mac: Canonical -> Hash, states: seq<State>, steps: seq<Step>,
                                              i: nat, j: nat, t: nat)
    requires IsRun(mac, states, steps) && i < j < |states| && (steps[i] == ReadFails(t) || steps[i] == Abort(t))
    requires forall k | i < k < j :: !(steps[k].Begin? && steps[k].t == t)
    ensures !Guard(states[j], Commit(t)) && (t in states[j].txs ==> states[j].txs[t].Doomed?)
    decreases j
  {
    assert StepAt(mac, states, steps, j - 1);
    if i < j - 1 { FailedNeverCommits(mac, states, steps, i, j - 1, t); }
  }

  /** While nobody holds the head, a transaction that meets no failure records its event. */
  lemma RecordGoesThrough(mac: Canonical -> Hash, s: State, t: nat, event: Event, id: nat, at: int)
    returns (s1: State, s2: State, s3: State, s4: State, s5: State)
    requires Inv(mac, s) && s.locked == None && t !in s.txs && event.action != "" && event.outcome != ""
    ensures Guard(s, Begin(t, event)) && s1 == Apply(mac, s, Begin(t, event))
    ensures Guard(s1, LockHead(t)) && s2 == Apply(mac, s1, LockHead(t))
    ensures Guard(s2, Insert(t, id, at)) && s3 == Apply(mac, s2, Insert(t, id, at))
    ensures Guard(s3, SetHead(t)) && s4 == Apply(mac, s3, SetHead(t))
    ensures Guard(s4, Commit(t)) && s5 == Apply(mac, s4, Commit(t))
    ensures var hash := mac(Canonical(id, at, event, s.head));
      s5 == s.(head := hash, log := s.log + [Entry(id, at, event, s.head, hash)])
  {
    s1 := Apply(mac, s, Begin(t, event));
    s2 := Apply(mac, s1, LockHead(t));
    s3 := Apply(mac, s2, Insert(t, id, at));
    s4 := Apply(mac, s3, SetHead(t));
    s5 := Apply(mac, s4, Commit(t));
    assert s5.txs == s.txs;
  }

  // ----- What the links protect -----

  /** No two contents share a MAC, and no MAC is the genesis value. */
  ghost predicate Unforgeable(mac: Canonical -> Hash) {
    (forall c, d :: mac(c) == mac(d) ==> c == d) && forall c :: mac(c) != GENESIS
  }

  lemma LinkedPrefix(mac: Canonical -> Hash, log: seq<Entry>, n: nat)
    requires Linked(mac, log) && n < |log|
    ensures Linked(mac, log[..n]) && Tip(log[..n]) == log[n].previous
  {
    forall i | 0 <= i < n ensures Link(mac, log[..n], i) { assert Link(mac, log, i); }
    assert Link(mac, log, n);
  }

  /** The head alone determines the whole history: two linked lists that end in the same hash
      are the same list, so nothing can be altered, dropped, inserted or reordered unseen. */
  lemma {:induction false} HeadDeterminesLog(mac: Canonical -> Hash, a: seq<Entry>, b: seq<Entry>)
    requires Unforgeable(mac) && Linked(mac, a) && Linked(mac, b) && Tip(a) == Tip(b)
    ensures a == b
    decreases |a|
  {
    if a == [] || b == [] {
      assert a != [] ==> Link(mac, a, |a| - 1) && Tip(a) == mac(Fields(a[|a| - 1]));
      assert b != [] ==> Link(mac, b, |b| - 1) && Tip(b) == mac(Fields(b[|b| - 1]));
    } else {
      var m, n := |a| - 1, |b| - 1;
      assert Link(mac, a, m) && Link(mac, b, n);
      assert mac(Fields(a[m])) == mac(Fields(b[n]));
      LinkedPrefix(mac, a, m);
      LinkedPrefix(mac, b, n);
      HeadDeterminesLog(mac, a[..m], b[..n]);
      assert a == a[..m] + [a[m]] && b == b[..n] + [b[n]];
    }
  }

  /** There is no fork: no two events have the same predecessor. */
  lemma NoFork(mac: Canonical -> Hash, log: seq<Entry>, i: nat, j: nat)
    requires Unforgeable(mac) && Linked(mac, log) && i < j < |log|
    ensures log[i].previous != log[j].previous
  {
    LinkedPrefix(mac, log, i);
    LinkedPrefix(mac, log, j);
    assert |log[..i]| < |log[..j]|;
    if log[i].previous == log[j].previous {
      HeadDeterminesLog(mac, log[..i], log[..j]);
    }
  }

  // ----- Recomputing from the table -----

  /** What the columns of other types than text give back for a text put into them. */
  datatype Columns = Columns(inet: string -> string, json: string -> string)

  /** A uuid column gives back the canonical text. An event with a text it refuses is not
      stored at all. */
  function UuidText(s: string): string {
    if Uuid.Canon(s).Some? then Uuid.Canon(s).value else s
  }

  /** The empty text is stored as NULL, and read as the empty text again. */
  function Nullable(column: string -> string, s: string): string {
    if s == "" then "" else column(s)
  }

  function StoredEvent(columns: Columns, e: Event): Event {
    e.(actor := Nullable(UuidText, e.actor), resource := Nullable(UuidText, e.resource),
       source := Nullable(columns.inet, e.source), metadata := columns.json(e.metadata))
  }

  /** What the row gives back to take the MAC over; occurred_at keeps microseconds. */
  function FromColumns(columns: Columns, e: Entry): Canonical {
    Canonical(e.id, e.at / 1000 * 1000, StoredEvent(columns, e.event), e.previous)
  }

  predicate Keeps(column: string -> string, s: string) {
    s == "" || column(s) == s
  }

  /** So a stored event's MAC recomputes from its row exactly if it was recorded at a whole
      number of microseconds, and every column gives back the very text it was given. */
  lemma RowRecomputesIffColumnsKeepIt(mac: Canonical -> Hash, columns: Columns, log: seq<Entry>, i: nat)
    requires Unforgeable(mac) && Linked(mac, log) && i < |log|
    ensures var e := log[i].event;
      mac(FromColumns(columns, log[i])) == log[i].hash
      <==> && log[i].at % 1000 == 0
           && Keeps(UuidText, e.actor) && Keeps(UuidText, e.resource)
           && Keeps(columns.inet, e.source) && columns.json(e.metadata) == e.metadata
  {
    assert Link(mac, log, i);
    var e := log[i];
    assert mac(FromColumns(columns, e)) == e.hash <==> FromColumns(columns, e) == Fields(e);
    assert FromColumns(columns, e) == Fields(e)
        <==> e.at / 1000 * 1000 == e.at && StoredEvent(columns, e.event) == e.event;
  }

  /** A uuid column keeps a text it takes exactly if that is the canonical one. */
  lemma UuidKeepsCanonical(s: string)
    ensures Uuid.Canon(s).Some? ==> (Keeps(UuidText, s) <==> Uuid.Canon(s) == Some(s))
  {
    assert Uuid.Canon("") == None;
  }

  /** An event recorded one nanosecond after the epoch does not recompute. */
  lemma NanosecondsAreLost(mac: Canonical -> Hash, columns: Columns, event: Event)
    requires Unforgeable(mac)
    ensures var log := [Written(mac, 0, 1, event, GENESIS)];
      Linked(mac, log) && mac(FromColumns(columns, log[0])) != log[0].hash
  {
    var log := [Written(mac, 0, 1, event, GENESIS)];
    assert Link(mac, log, 0);
    RowRecomputesIffColumnsKeepIt(mac, columns, log, 0);
  }

  /** Nor does any event about a remote session, whenever it was recorded: those are named by
      32 digits without hyphens, and the column puts them in. */
  lemma SessionEventsNeverRecompute(mac: Canonical -> Hash, columns: Columns, log: seq<Entry>, i: nat)
    requires Unforgeable(mac) && Linked(mac, log) && i < |log| && Uuid.Lowercase(log[i].event.resource)
    ensures mac(FromColumns(columns, log[i])) != log[i].hash
  {
    hide Uuid.Canon, Uuid.Shown;
    Uuid.PlainDigitsAreNotCanonical(log[i].event.resource);
    RowRecomputesIffColumnsKeepIt(mac, columns, log, i);
  }

  // ----- The service -----

  class Service {
    const mac: Canonical -> Hash
    var head: Hash
    var log: seq<Entry>

    ghost predicate Valid()
      reads this
    {
      Linked(mac, log) && head == Tip(log)
    }

    constructor (mac: Canonical -> Hash)
      ensures Valid() && log == [] && this.mac == mac
    {
      this.mac := mac;
      head, log := GENESIS, [];
    }

    /** insertFails and commitFails say whether the database refuses. */
    method Record(e: Event, id: nat, at: int, insertFails: bool, commitFails: bool) returns (ok: bool)
      requires Valid()
      modifies this
      ensures Valid()
      ensures ok <==> e.action != "" && e.outcome != "" && !insertFails && !commitFails
      ensures log == if ok then old(log) + [Written(mac, id, at, e, old(head))] else old(log)
      ensures ok ==> |log| == |old(log)| + 1
                     && log[|old(log)|] == Entry(id, at, e, old(head), mac(Canonical(id, at, e, old(head))))
      ensures head == if ok then mac(Canonical(id, at, e, old(head))) else old(head)
    {
      if e.action == "" || e.outcome == "" {
        return false;
      }
      var previous := head;
      var sum := mac(Canonical(id, at, e, previous));
      if insertFails || commitFails {
        return false;
      }
      LinkedAppend(mac, log, Entry(id, at, e, previous, sum));
      log := log + [Entry(id, at, e, previous, sum)];
      head := sum;
      ok := true;
    }
  }
}
