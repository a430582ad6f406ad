/** SSH host identities: trust on first use, changed only by a compare-and-swap that an
    administrator approved, with a history entry in the same transaction. */
module Trust {
  /** A connection's address and port; what one stored key is for. */
  datatype Slot = Slot(connection: string, address: string, port: nat)

  /** A row of the history. approve and approvePrevious are the two fingerprints carried by
      the request that wrote it. */
  datatype Entry = Entry(slot: Slot, previous: string, key: string, approve: string, approvePrevious: string)

  /** An enrolment request between two of its steps. */
  datatype Request =
    | Started(slot: Slot, approve: string, approvePrevious: string)
    | HasRead(slot: Slot, approve: string, approvePrevious: string, previous: string)
    | HasProbed(slot: Slot, approve: string, approvePrevious: string, previous: string, observed: string)
    | Saving(slot: Slot, approve: string, approvePrevious: string, previous: string, observed: string)

  datatype State = State(rows: map<Slot, string>, log: seq<Entry>, requests: map<nat, Request>)

  datatype Event =
    | Start(a: nat, slot: Slot, approve: string, approvePrevious: string)
    | Read(a: nat)
    | Probe(a: nat, observed: string)
    | Recheck(a: nat, same: bool)
    | Save(a: nat)
    | GiveUp(a: nat)

  /** SSHKey answers with the empty string when there is no row. */
  function Stored(rows: map<Slot, string>, slot: Slot): string {
    if slot in rows then rows[slot] else ""
  }

  /** The condition under which SaveSSHKey touches exactly one row. */
  predicate Swaps(rows: map<Slot, string>, slot: Slot, previous: string) {
    if previous == "" then slot !in rows else slot in rows && rows[slot] == previous
  }

  /** What sshIdentity answers with "changed" instead of saving: another key is stored, and
      the request does not approve this very pair. */
  predicate NeedsApproval(fingerprint: string -> string, r: Request, observed: string)
    requires r.HasRead?
  {
    r.previous != "" && r.previous != observed
    && (r.approve != fingerprint(observed) || r.approvePrevious != fingerprint(r.previous))
  }

  predicate Guard(s: State, e: Event) {
    match e
    case Start(a, _, _, _) => a !in s.requests
    case Read(a) => a in s.requests && s.requests[a].Started?
    case Probe(a, observed) => a in s.requests && s.requests[a].HasRead? && observed != ""
    case Recheck(a, _) => a in s.requests && s.requests[a].HasProbed?
    case Save(a) => a in s.requests && s.requests[a].Saving?
    case GiveUp(a) => a in s.requests
  }

  function Next(s: State, a: nat, r: Request): State {
    s.(requests := s.requests[a := r])
  }

  function End(s: State, a: nat): State {
    s.(requests := s.requests - {a})
  }

  function Apply(fingerprint: string -> string, s: State, e: Event): State
    requires Guard(s, e)
  {
    match e
    case Start(a, slot, approve, approvePrevious) => Next(s, a, Started(slot, approve, approvePrevious))
    case Read(a) =>
      var r := s.requests[a];
      Next(s, a, HasRead(r.slot, r.approve, r.approvePrevious, Stored(s.rows, r.slot)))
    case Probe(a, observed) =>
      var r := s.requests[a];
      if NeedsApproval(fingerprint, r, observed) then End(s, a)
      else Next(s, a, HasProbed(r.slot, r.approve, r.approvePrevious, r.previous, observed))
    case Recheck(a, same) =>
      var r := s.requests[a];
      if !same || r.previous == r.observed then End(s, a)
      else Next(s, a, Saving(r.slot, r.approve, r.approvePrevious, r.previous, r.observed))
    case Save(a) =>
      var r := s.requests[a];
      if Swaps(s.rows, r.slot, r.previous) then
        End(s, a).(rows := s.rows[r.slot := r.observed],
                   log := s.log + [Entry(r.slot, r.previous, r.observed, r.approve, r.approvePrevious)])
      else End(s, a)
    case GiveUp(a) => End(s, a)
  }

  // ----- The history is a chain -----

  /** The history of one slot, oldest first. */
  function History(log: seq<Entry>, slot: Slot): seq<Entry> {
    if log == [] then []
    else
      var earlier := History(log[..|log| - 1], slot);
      if log[|log| - 1].slot == slot then earlier + [log[|log| - 1]] else earlier
  }

  predicate Approved(fingerprint: string -> string, e: Entry) {
    e.approve == fingerprint(e.key) && e.approvePrevious == fingerprint(e.previous)
  }

  predicate Link(fingerprint: string -> string, h: seq<Entry>, i: nat)
    requires i < |h|
  {
    && h[i].previous == (if i == 0 then "" else h[i - 1].key)
    && h[i].key != h[i].previous && h[i].key != ""
    && (i > 0 ==> Approved(fingerprint, h[i]))
  }

  /** The first entry starts from nothing, every later one from the key before it, no entry
      repeats its predecessor, and every later one was approved as exactly that change. */
  ghost predicate Chain(fingerprint: string -> string, h: seq<Entry>) {
    forall i | 0 <= i < |h| :: Link(fingerprint, h, i)
  }

  function Last(h: seq<Entry>): string {
    if h == [] then "" else h[|h| - 1].key
  }

  /** A request only reaches the save with a change it may make. */
  predicate MayChange(fingerprint: string -> string, r: Request) {
    match r
    case HasProbed(_, approve, approvePrevious, previous, observed) =>
      observed != "" && (previous != "" && previous != observed ==>
          Approved(fingerprint, Entry(r.slot, previous, observed, approve, approvePrevious)))
    case Saving(_, approve, approvePrevious, previous, observed) =>
      observed != "" && previous != observed && (previous != "" ==>
          Approved(fingerprint, Entry(r.slot, previous, observed, approve, approvePrevious)))
    case _ => true
  }

  ghost predicate SlotOk(fingerprint: string -> string, rows: map<Slot, string>, log: seq<Entry>, slot: Slot) {
    Chain(fingerprint, History(log, slot)) && Last(History(log, slot)) == Stored(rows, slot)
  }

  ghost predicate Inv(fingerprint: string -> string, s: State) {
    && (forall a | a in s.requests :: MayChange(fingerprint, s.requests[a]))
    && (forall slot | slot in s.rows :: s.rows[slot] != "")
    && (forall slot :: SlotOk(fingerprint, s.rows, s.log, slot))
  }

  lemma HistoryAppend(log: seq<Entry>, e: Entry, slot: Slot)
    ensures History(log + [e], slot) == if e.slot == slot then History(log, slot) + [e] else History(log, slot)
  {
    assert (log + [e])[..|log|] == log;
  }

  /** The chain grows by an entry that starts from its last key. */
  lemma ChainAppend(fingerprint: string -> string, h: seq<Entry>, e: Entry)
    requires Chain(fingerprint, h) && e.previous == Last(h) && e.key != e.previous && e.key != ""
    requires e.previous != "" ==> Approved(fingerprint, e)
    ensures Chain(fingerprint, h + [e]) && Last(h + [e]) == e.key
  {
    var g := h + [e];
    forall i | 0 <= i < |g| ensures Link(fingerprint, g, i) {
      if i < |h| { assert Link(fingerprint, h, i); }
      if i > 0 { assert g[i - 1] == h[i - 1]; }
      if h != [] { assert Link(fingerprint, h, |h| - 1); }
    }
  }

  lemma SlotStep(fingerprint: string -> string, rows: map<Slot, string>, log: seq<Entry>, e: Entry, slot: Slot)
    requires SlotOk(fingerprint, rows, log, slot)
    requires e.slot == slot ==> e.previous == Stored(rows, slot)
    requires e.key != e.previous && e.key != "" && (e.previous != "" ==> Approved(fingerprint, e))
    ensures SlotOk(fingerprint, rows[e.slot := e.key], log + [e], slot)
  {
    hide Chain;
    HistoryAppend(log, e, slot);
    if e.slot == slot { ChainAppend(fingerprint, History(log, slot), e); }
  }

  lemma SaveStep(fingerprint: string -> string, s: State, a: nat)
    requires Inv(fingerprint, s) && Guard(s, Save(a))
    ensures Inv(fingerprint, Apply(fingerprint, s, Save(a)))
  {
    hide SlotOk;
    var t := Apply(fingerprint, s, Save(a));
    var r := s.requests[a];
    assert MayChange(fingerprint, r);
    if t.log != s.log {
      var e := Entry(r.slot, r.previous, r.observed, r.approve, r.approvePrevious);
      forall slot ensures SlotOk(fingerprint, t.rows, t.log, slot) {
        assert SlotOk(fingerprint, s.rows, s.log, slot);
        SlotStep(fingerprint, s.rows, s.log, e, slot);
      }
    }
  }

  lemma InvStep(fingerprint: string -> string, s: State, e: Event)
    requires Inv(fingerprint, s) && Guard(s, e)
    ensures Inv(fingerprint, Apply(fingerprint, s, e))
  {
    if e.Save? { SaveStep(fingerprint, s, e.a); }
  }

  ghost predicate StepAt(fingerprint: string -> string, states: seq<State>, events: seq<Event>, i: nat)
    requires i < |events| < |states|
  {
    Guard(states[i], events[i]) && states[i + 1] == Apply(fingerprint, states[i], events[i])
  }

  ghost predicate IsRun(fingerprint: string -> string, states: seq<State>, events: seq<Event>) {
    && |states| == |events| + 1 && states[0] == State(map[], [], map[])
    && forall i | 0 <= i < |events| :: StepAt(fingerprint, states, events, i)
  }

  /** Under any interleaving of enrolments the history of every slot is a chain that ends in
      the stored key. */
  lemma {:induction false} HistoryIsChain(fingerprint: string -> string, states: seq<State>, events: seq<Event>, i: nat)
    requires IsRun(fingerprint, states, events) && i < |states|
    ensures Inv(fingerprint, states[i])
    ensures forall slot :: Chain(fingerprint, History(states[i].log, slot))
                           && Last(History(states[i].log, slot)) == Stored(states[i].rows, slot)
  {
    if i > 0 {
      HistoryIsChain(fingerprint, states, events, i - 1);
      assert StepAt(fingerprint, states, events, i - 1);
      InvStep(fingerprint, states[i - 1], events[i - 1]);
    }
    forall slot
      ensures Chain(fingerprint, History(states[i].log, slot))
              && Last(History(states[i].log, slot)) == Stored(states[i].rows, slot)
    {
      assert SlotOk(fingerprint, states[i].rows, states[i].log, slot);
    }
  }

  lemma {:induction false} HistoryGrows(fingerprint: string -> string, states: seq<State>, events: seq<Event>, i: nat,
                                        j: nat, slot: Slot)
    requires IsRun(fingerprint, states, events) && i <= j < |states|
    ensures History(states[i].log, slot) <= History(states[j].log, slot)
    decreases j
  {
    if i < j {
      HistoryGrows(fingerprint, states, events, i, j - 1, slot);
      assert StepAt(fingerprint, states, events, j - 1);
      var s, t := states[j - 1], states[j];
      if t.log != s.log { HistoryAppend(s.log, t.log[|s.log|], slot); }
    }
  }

  /** A longer chain that ends in another key ends in an approved change. */
  lemma NewestIsApproved(fingerprint: string -> string, before: seq<Entry>, after: seq<Entry>)
    requires Chain(fingerprint, after) && before <= after && before != [] && Last(after) != Last(before)
    ensures after != [] && Last(after) != ""
    ensures after[|after| - 1].previous != "" && Approved(fingerprint, after[|after| - 1])
  {
    assert before == after[..|before|] && after[..|after|] == after;
    assert Link(fingerprint, after, |after| - 1) && Link(fingerprint, after, |after| - 2);
  }

  lemma {:induction false} HistoryMembers(log: seq<Entry>, slot: Slot)
    ensures forall e | e in History(log, slot) :: e in log && e.slot == slot
  {
    if log != [] { HistoryMembers(log[..|log| - 1], slot); }
  }

  /** A key once trusted is never silently replaced: if another one is stored later, the
      change to it is on record, with the approval of exactly its two fingerprints. */
  lemma NoSilentReplacement(fingerprint: string -> string, states: seq<State>, events: seq<Event>, i: nat, j: nat,
                            slot: Slot)
    requires IsRun(fingerprint, states, events) && i <= j < |states|
    requires Stored(states[i].rows, slot) != "" && Stored(states[j].rows, slot) != Stored(states[i].rows, slot)
    ensures Stored(states[j].rows, slot) != ""
    ensures exists e :: e in states[j].log && e.slot == slot && e.key == Stored(states[j].rows, slot)
                        && e.previous != "" && Approved(fingerprint, e)
  {
    HistoryIsChain(fingerprint, states, events, i);
    HistoryIsChain(fingerprint, states, events, j);
    HistoryGrows(fingerprint, states, events, i, j, slot);
    var before, after := History(states[i].log, slot), History(states[j].log, slot);
    hide History;
    NewestIsApproved(fingerprint, before, after);
    HistoryMembers(states[j].log, slot);
    assert after[|after| - 1] in after;
  }

  // ----- An enrolment from its start to its end -----

  /** Between its own steps a request is as it was. */
  lemma {:induction false} RequestStays(fingerprint: string -> string, states: seq<State>, events: seq<Event>,
                                        i: nat, j: nat, a: nat)
    requires IsRun(fingerprint, states, events) && i <= j < |states|
    requires forall k | i <= k < j :: events[k].a != a
    ensures a in states[j].requests <==> a in states[i].requests
    ensures a in states[i].requests ==> states[j].requests[a] == states[i].requests[a]
    decreases j
  {
    if i < j {
      RequestStays(fingerprint, states, events, i, j - 1, a);
      assert StepAt(fingerprint, states, events, j - 1);
    }
  }

  /** A request that gave up never saves. */
  lemma {:induction false} AbandonedNeverSaves(fingerprint: string -> string, states: seq<State>, events: seq<Event>,
                                               i: nat, j: nat, a: nat)
    requires IsRun(fingerprint, states, events) && i < j < |states| && events[i] == GiveUp(a)
    requires forall k | i < k < j :: !(events[k].Start? && events[k].a == a)
    ensures a !in states[j].requests && !Guard(states[j], Save(a))
    decreases j
  {
    assert StepAt(fingerprint, states, events, j - 1);
    if i < j - 1 { AbandonedNeverSaves(fingerprint, states, events, i, j - 1, a); }
  }

  /** Event k is the attempt of some request to save a key of slot. */
  predicate SavesAt(states: seq<State>, events: seq<Event>, k: nat, slot: Slot)
    requires k < |events| && k < |states|
  {
    events[k].Save? && events[k].a in states[k].requests && states[k].requests[events[k].a].slot == slot
  }

  /** Only a save of a slot changes its key and its history. */
  lemma {:induction false} SlotStays(fingerprint: string -> string, states: seq<State>, events: seq<Event>,
                                     i: nat, j: nat, slot: Slot)
    requires IsRun(fingerprint, states, events) && i <= j < |states|
    requires forall k | i <= k < j :: !SavesAt(states, events, k, slot)
    ensures Stored(states[j].rows, slot) == Stored(states[i].rows, slot)
    ensures slot in states[j].rows <==> slot in states[i].rows
    ensures History(states[j].log, slot) == History(states[i].log, slot)
    decreases j
  {
    if i < j {
      SlotStays(fingerprint, states, events, i, j - 1, slot);
      assert StepAt(fingerprint, states, events, j - 1) && !SavesAt(states, events, j - 1, slot);
      var s, t := states[j - 1], states[j];
      if t.log != s.log { HistoryAppend(s.log, t.log[|s.log|], slot); }
    }
  }

  /** a starts at st, reads at rd and probes at pr, and takes no other step in between. */
  ghost predicate Enrols(events: seq<Event>, st: nat, rd: nat, pr: nat, a: nat, slot: Slot,
                         approve: string, approvePrevious: string, observed: string)
  {
    && st < rd < pr < |events| && events[st] == Start(a, slot, approve, approvePrevious)
    && events[rd] == Read(a) && events[pr] == Probe(a, observed)
    && forall k | st < k < pr && k != rd :: events[k].a != a
  }

  /** A request passes the probe exactly if nothing was stored when it read, or the very key
      that it observes, or it approves the pair of fingerprints; otherwise it ends there. */
  lemma ProbeDecides(fingerprint: string -> string, states: seq<State>, events: seq<Event>, st: nat, rd: nat, pr: nat,
                     a: nat, slot: Slot, approve: string, approvePrevious: string, observed: string)
    requires IsRun(fingerprint, states, events)
    requires Enrols(events, st, rd, pr, a, slot, approve, approvePrevious, observed)
    ensures var read := Stored(states[rd].rows, slot);
      && (a in states[pr + 1].requests
          <==> read == "" || read == observed
               || (approve == fingerprint(observed) && approvePrevious == fingerprint(read)))
      && (a in states[pr + 1].requests ==>
            states[pr + 1].requests[a] == HasProbed(slot, approve, approvePrevious, read, observed))
  {
    assert StepAt(fingerprint, states, events, st);
    RequestStays(fingerprint, states, events, st + 1, rd, a);
    assert StepAt(fingerprint, states, events, rd);
    RequestStays(fingerprint, states, events, rd + 1, pr, a);
    assert StepAt(fingerprint, states, events, pr);
  }

  /** The recheck then lets it on to the save exactly if the destination is still the same and
      there is something to change. */
  lemma RecheckDecides(fingerprint: string -> string, states: seq<State>, events: seq<Event>, st: nat, rd: nat, pr: nat,
                       rc: nat, a: nat, slot: Slot, approve: string, approvePrevious: string, observed: string,
                       same: bool)
    requires IsRun(fingerprint, states, events)
    requires Enrols(events, st, rd, pr, a, slot, approve, approvePrevious, observed)
    requires pr < rc < |events| && events[rc] == Recheck(a, same) && forall k | pr < k < rc :: events[k].a != a
    ensures var read := Stored(states[rd].rows, slot);
      && (a in states[rc + 1].requests <==> same && read != observed)
      && (a in states[rc + 1].requests ==>
            states[rc + 1].requests[a] == Saving(slot, approve, approvePrevious, read, observed))
  {
    ProbeDecides(fingerprint, states, events, st, rd, pr, a, slot, approve, approvePrevious, observed);
    RequestStays(fingerprint, states, events, pr + 1, rc, a);
    assert StepAt(fingerprint, states, events, rc);
  }

  /** And if nobody else saves a key of the slot after its read, the save stores what was
      observed and adds that change to the history. */
  lemma SaveTakesEffect(fingerprint: string -> string, states: seq<State>, events: seq<Event>, st: nat, rd: nat,
                        pr: nat, rc: nat, sv: nat, a: nat, slot: Slot, approve: string, approvePrevious: string,
                        observed: string)
    requires IsRun(fingerprint, states, events)
    requires Enrols(events, st, rd, pr, a, slot, approve, approvePrevious, observed)
    requires pr < rc < sv < |events| && events[rc] == Recheck(a, true) && events[sv] == Save(a)
    requires forall k | pr < k < sv && k != rc :: events[k].a != a
    requires forall k | rd <= k < sv :: !SavesAt(states, events, k, slot)
    ensures Stored(states[sv + 1].rows, slot) == observed
    ensures History(states[sv + 1].log, slot)
            == History(states[rd].log, slot)
               + [Entry(slot, Stored(states[rd].rows, slot), observed, approve, approvePrevious)]
    ensures forall other | other != slot :: Stored(states[sv + 1].rows, other) == Stored(states[sv].rows, other)
  {
    HistoryIsChain(fingerprint, states, events, rd);
    RecheckDecides(fingerprint, states, events, st, rd, pr, rc, a, slot, approve, approvePrevious, observed, true);
    RequestStays(fingerprint, states, events, rc + 1, sv, a);
    SlotStays(fingerprint, states, events, rd, sv, slot);
    assert StepAt(fingerprint, states, events, sv);
    var read := Stored(states[rd].rows, slot);
    HistoryAppend(states[sv].log, Entry(slot, read, observed, approve, approvePrevious), slot);
  }

  /** The steps of a request that meets no failure. */
  function Enrolment(a: nat, slot: Slot, approve: string, approvePrevious: string, observed: string): seq<Event> {
    [Start(a, slot, approve, approvePrevious), Read(a), Probe(a, observed), Recheck(a, true), Save(a)]
  }

  lemma RunOn(fingerprint: string -> string, states: seq<State>, events: seq<Event>, e: Event)
    returns (more: seq<State>)
    requires IsRun(fingerprint, states, events) && Guard(states[|events|], e)
    ensures IsRun(fingerprint, more, events + [e])
    ensures states <= more && more[|events| + 1] == Apply(fingerprint, states[|events|], e)
  {
    more := states + [Apply(fingerprint, states[|events|], e)];
    forall i | 0 <= i < |events + [e]| ensures StepAt(fingerprint, more, events + [e], i) {
      if i < |events| { assert StepAt(fingerprint, states, events, i); }
    }
  }

  lemma CanEnrol(fingerprint: string -> string, states: seq<State>, events: seq<Event>, a: nat, slot: Slot,
                 approve: string, approvePrevious: string, observed: string) returns (all: seq<State>)
    requires IsRun(fingerprint, states, events) && a !in states[|events|].requests && observed != ""
    requires var read := Stored(states[|events|].rows, slot);
      read != observed && (read == "" || (approve == fingerprint(observed) && approvePrevious == fingerprint(read)))
    ensures states <= all && IsRun(fingerprint, all, events + Enrolment(a, slot, approve, approvePrevious, observed))
  {
    hide IsRun;
    var steps := Enrolment(a, slot, approve, approvePrevious, observed);
    var one := RunOn(fingerprint, states, events, steps[0]);
    var two := RunOn(fingerprint, one, events + [steps[0]], steps[1]);
    var three := RunOn(fingerprint, two, events + [steps[0]] + [steps[1]], steps[2]);
    var four := RunOn(fingerprint, three, events + [steps[0]] + [steps[1]] + [steps[2]], steps[3]);
    all := RunOn(fingerprint, four, events + [steps[0]] + [steps[1]] + [steps[2]] + [steps[3]], steps[4]);
    assert events + [steps[0]] + [steps[1]] + [steps[2]] + [steps[3]] + [steps[4]] == events + steps;
  }

  /** From any reachable state on, a request that nothing disturbs saves what it observes exactly
      if that differs from what is stored, and nothing is stored or the request approves the
      fingerprints of both. */
  lemma SavesIffApproved(fingerprint: string -> string, states: seq<State>, events: seq<Event>, a: nat, slot: Slot,
                         approve: string, approvePrevious: string, observed: string)
    requires IsRun(fingerprint, states, events) && a !in states[|events|].requests && observed != ""
    ensures var read := Stored(states[|events|].rows, slot);
      (exists all: seq<State> :: states <= all
          && IsRun(fingerprint, all, events + Enrolment(a, slot, approve, approvePrevious, observed)))
      <==> read != observed
           && (read == "" || (approve == fingerprint(observed) && approvePrevious == fingerprint(read)))
  {
    var read, n := Stored(states[|events|].rows, slot), |events|;
    var longer := events + Enrolment(a, slot, approve, approvePrevious, observed);
    if all: seq<State> :| states <= all && IsRun(fingerprint, all, longer) {
      assert StepAt(fingerprint, all, longer, n) && StepAt(fingerprint, all, longer, n + 3);
      assert StepAt(fingerprint, all, longer, n + 4);
      assert all[n] == states[n] && all[n + 1].rows == all[n].rows;
      hide IsRun;
      ProbeDecides(fingerprint, all, longer, n, n + 1, n + 2, a, slot, approve, approvePrevious, observed);
      RecheckDecides(fingerprint, all, longer, n, n + 1, n + 2, n + 3, a, slot, approve, approvePrevious, observed,
                     true);
    }
    if read != observed && (read == "" || (approve == fingerprint(observed) && approvePrevious == fingerprint(read))) {
      var all := CanEnrol(fingerprint, states, events, a, slot, approve, approvePrevious, observed);
    }
  }

  // ----- The stored procedure -----

  class TrustStore {
    var rows: map<Slot, string>
    var log: seq<Entry>

    constructor ()
      ensures rows == map[] && log == []
    {
      rows, log := map[], [];
    }

    method SSHKey(slot: Slot) returns (key: string)
      ensures key == Stored(rows, slot)
    {
      if slot !in rows {
        return "";
      }
      key := rows[slot];
    }

    /** SaveSSHKey: insert if nothing was read, else update if the row still holds what was
        read; the history entry is written in the same transaction. */
    method SaveSSHKey(slot: Slot, previous: string, key: string, approve: string, approvePrevious: string)
      returns (ok: bool)
      modifies this
      ensures ok <==> if previous == "" then slot !in old(rows) else slot in old(rows) && old(rows)[slot] == previous
      ensures ok <==> Swaps(old(rows), slot, previous)
      ensures rows == if ok then old(rows)[slot := key] else old(rows)
      ensures log == if ok then old(log) + [Entry(slot, previous, key, approve, approvePrevious)] else old(log)
    {
      if previous == "" {
        if slot in rows {
          return false;
        }
        rows := rows[slot := key];
      } else {
        if slot !in rows || rows[slot] != previous {
          return false;
        }
        rows := rows[slot := key];
      }
      log := log + [Entry(slot, previous, key, approve, approvePrevious)];
      ok := true;
    }
  }
}
