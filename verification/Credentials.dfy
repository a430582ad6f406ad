/** Envelope-encrypted credentials. Authenticated encryption is symbolic: a sealed value opens
    under exactly the key and the associated data it was sealed with. A caller names a row by
    text; the database takes any spelling of its uuid, the labels take the text as it is. */
module Credentials {
  import opened Options
  import opened Texts
  import Uuid

  datatype Key = Master | Data(n: nat)

  datatype Plain = KeyBytes(n: nat) | Bytes(value: string)

  /** Blank is what Delete leaves in place of a ciphertext. */
  datatype Sealed = Sealed(key: Key, plain: Plain, aad: string) | Blank

  datatype Secret = Secret(kind: string, value: string)

  datatype Row = Row(kind: string, wrapped: Sealed, ciphertext: Sealed, version: nat, deleted: bool)

  /** The types that the handlers and the table take. */
  predicate KnownKind(kind: string) {
    kind == "password" || kind == "windows" || kind == "ssh-key"
  }

  function Open(key: Key, c: Sealed, aad: string): Option<Plain> {
    if c.Sealed? && c.key == key && c.aad == aad then Some(c.plain) else None
  }

  /** itoa, which knows two numbers. */
  function Itoa(v: int): string {
    if v == 1 then "1" else "2"
  }

  function KeyLabel(id: string, version: string): string {
    "dek:" + id + ":" + version
  }

  function SecretLabel(id: string, kind: string): string {
    "secret:" + id + ":" + kind
  }

  /** What a text names, as a uuid column reads it: nothing, or a row by its canonical id. */
  type Canon = string -> Option<string>

  /** The canonical id names itself, and no spelling holds a colon. */
  ghost predicate IsCanon(canon: Canon) {
    && (forall s | canon(s).Some? :: canon(canon(s).value) == canon(s))
    && (forall s | canon(s).Some? :: ':' !in s)
  }

  /** Rebuilds both labels, from the text the caller gave and the row's own columns. */
  function Decrypt(id: string, r: Row): Option<Secret> {
    var key := Open(Master, r.wrapped, KeyLabel(id, Itoa(r.version)));
    if key.None? || !key.value.KeyBytes? then None
    else
      var plain := Open(Data(key.value.n), r.ciphertext, SecretLabel(id, r.kind));
      if plain.None? || !plain.value.Bytes? then None else Some(Secret(r.kind, plain.value.value))
  }

  predicate Live(canon: Canon, rows: map<string, Row>, text: string) {
    canon(text).Some? && canon(text).value in rows && !rows[canon(text).value].deleted
  }

  function Retrieve(canon: Canon, rows: map<string, Row>, text: string): Option<Secret> {
    if Live(canon, rows, text) then Decrypt(text, rows[canon(text).value]) else None
  }

  /** What Store, Rotate and edit write: a secret under a data key of its own. */
  function Envelope(text: string, s: Secret, dataKey: nat, version: nat): Row {
    Row(s.kind,
        Sealed(Master, KeyBytes(dataKey), KeyLabel(text, if version == 1 then "1" else "2")),
        Sealed(Data(dataKey), Bytes(s.value), SecretLabel(text, s.kind)),
        version, false)
  }

  // ----- Interleaved operations -----

  /** Rotate reads the old row and writes later; the other operations are one transaction. */
  datatype Rotation = Rotation(text: string, secret: Secret)

  /** committed records, beside the table, the last secret and kind committed under each id,
      and spelled the text that the last write of a value named it by. */
  datatype State = State(rows: map<string, Row>, rotations: map<nat, Rotation>,
                         committed: map<string, Secret>, spelled: map<string, string>)

  datatype Event =
    | Store(id: string, secret: Secret, dataKey: nat)
    | RotateReads(a: nat, text: string, kind: string, value: string)
    | RotateWrites(a: nat, dataKey: nat)
    | Edit(text: string, kind: string, value: string, dataKey: nat)
    | Delete(text: string)

  predicate Guard(canon: Canon, s: State, e: Event) {
    match e
    case Store(id, secret, _) => canon(id) == Some(id) && id !in s.rows && secret.value != ""
    case RotateReads(a, text, _, _) => a !in s.rotations && Retrieve(canon, s.rows, text).Some?
    case RotateWrites(a, _) => a in s.rotations
    case Edit(text, kind, value, _) =>
      KnownKind(kind) && Live(canon, s.rows, text) && (s.rows[canon(text).value].kind != kind ==> value != "")
    case Delete(text) => Live(canon, s.rows, text)
  }

  function Put(s: State, id: string, text: string, secret: Secret, row: Row): State {
    s.(rows := s.rows[id := row], committed := s.committed[id := secret], spelled := s.spelled[id := text])
  }

  function Apply(canon: Canon, s: State, e: Event): State
    requires Guard(canon, s, e)
  {
    match e
    case Store(id, secret, dataKey) => Put(s, id, id, secret, Envelope(id, secret, dataKey, 1))
    case RotateReads(a, text, kind, value) =>
      var chosen := if kind == "" then Retrieve(canon, s.rows, text).value.kind else kind;
      s.(rotations := s.rotations[a := Rotation(text, Secret(chosen, value))])
    case RotateWrites(a, dataKey) =>
      var r := s.rotations[a];
      var t := s.(rotations := s.rotations - {a});
      if Live(canon, s.rows, r.text)
      then Put(t, canon(r.text).value, r.text, r.secret, Envelope(r.text, r.secret, dataKey, 2))
      else t
    case Edit(text, kind, value, dataKey) =>
      var id := canon(text).value;
      if value != "" then Put(s, id, text, Secret(kind, value), Envelope(text, Secret(kind, value), dataKey, 1))
      else s.(rows := s.rows[id := s.rows[id].(kind := kind)])
    case Delete(text) =>
      var id := canon(text).value;
      s.(rows := s.rows[id := s.rows[id].(deleted := true, ciphertext := Blank)])
  }

  ghost predicate StepAt(canon: Canon, states: seq<State>, events: seq<Event>, i: nat)
    requires i < |events| < |states|
  {
    Guard(canon, states[i], events[i]) && states[i + 1] == Apply(canon, states[i], events[i])
  }

  const INIT := State(map[], map[], map[], map[])

  ghost predicate IsRun(canon: Canon, states: seq<State>, events: seq<Event>) {
    && IsCanon(canon) && |states| == |events| + 1 && states[0] == INIT
    && forall i | 0 <= i < |events| :: StepAt(canon, states, events, i)
  }

  // ----- Decryptable by one spelling -----

  /** A row is an envelope of the secret last committed under its id, at version 1 or 2,
      labelled by the text that named it then. */
  ghost predicate Intact(text: string, r: Row, s: Secret) {
    (r.version == 1 || r.version == 2) &&
    if r.deleted then r.ciphertext == Blank else exists dataKey :: r == Envelope(text, s, dataKey, r.version)
  }

  ghost predicate RowOk(canon: Canon, s: State, id: string)
    requires id in s.rows
  {
    && canon(id) == Some(id) && id in s.committed && id in s.spelled
    && canon(s.spelled[id]) == Some(id) && Intact(s.spelled[id], s.rows[id], s.committed[id])
  }

  ghost predicate Inv(canon: Canon, s: State) {
    && (forall id | id in s.rows :: RowOk(canon, s, id))
    && (forall a | a in s.rotations :: canon(s.rotations[a].text).Some?)
  }

  lemma EnvelopeIsIntact(text: string, s: Secret, dataKey: nat, version: nat)
    requires version == 1 || version == 2
    ensures Intact(text, Envelope(text, s, dataKey, version), s)
  {
    var r := Envelope(text, s, dataKey, version);
    assert r == Envelope(text, s, dataKey, r.version);
  }

  lemma PutKeepsInv(canon: Canon, s: State, id: string, text: string, secret: Secret, dataKey: nat, version: nat)
    requires Inv(canon, s) && canon(id) == canon(text) == Some(id) && (version == 1 || version == 2)
    ensures Inv(canon, Put(s, id, text, secret, Envelope(text, secret, dataKey, version)))
  {
    hide Intact;
    EnvelopeIsIntact(text, secret, dataKey, version);
    var t := Put(s, id, text, secret, Envelope(text, secret, dataKey, version));
    forall other | other in t.rows ensures RowOk(canon, t, other) {
      if other != id { assert RowOk(canon, s, other); }
    }
  }

  lemma ChangeKeepsInv(canon: Canon, s: State, id: string, row: Row)
    requires Inv(canon, s) && id in s.rows
    requires row == s.rows[id] || row == s.rows[id].(deleted := true, ciphertext := Blank)
    ensures Inv(canon, s.(rows := s.rows[id := row]))
  {
    var t := s.(rows := s.rows[id := row]);
    forall other | other in t.rows ensures RowOk(canon, t, other) {
      assert RowOk(canon, s, other);
    }
  }

  lemma InvStep(canon: Canon, s: State, e: Event)
    requires IsCanon(canon) && Inv(canon, s) && Guard(canon, s, e)
    ensures Inv(canon, Apply(canon, s, e))
  {
    match e
    case Store(id, secret, dataKey) => PutKeepsInv(canon, s, id, id, secret, dataKey, 1);
    case RotateReads(a, text, kind, value) =>
      var t := Apply(canon, s, e);
      forall id | id in t.rows ensures RowOk(canon, t, id) { assert RowOk(canon, s, id); }
    case RotateWrites(a, dataKey) =>
      var r, t := s.rotations[a], s.(rotations := s.rotations - {a});
      forall id | id in t.rows ensures RowOk(canon, t, id) { assert RowOk(canon, s, id); }
      if Live(canon, s.rows, r.text) {
        PutKeepsInv(canon, t, canon(r.text).value, r.text, r.secret, dataKey, 2);
      }
    case Edit(text, kind, value, dataKey) =>
      var id := canon(text).value;
      if value != "" {
        PutKeepsInv(canon, s, id, text, Secret(kind, value), dataKey, 1);
      } else {
        ChangeKeepsInv(canon, s, id, s.rows[id].(kind := kind));
      }
    case Delete(text) =>
      var id := canon(text).value;
      ChangeKeepsInv(canon, s, id, s.rows[id].(deleted := true, ciphertext := Blank));
  }

  lemma {:induction false} InvAlways(canon: Canon, states: seq<State>, events: seq<Event>, i: nat)
    requires IsRun(canon, states, events) && i < |states|
    ensures Inv(canon, states[i])
  {
    if i > 0 {
      InvAlways(canon, states, events, i - 1);
      assert StepAt(canon, states, events, i - 1);
      InvStep(canon, states[i - 1], events[i - 1]);
    }
  }

  lemma LabelsTellSpellings(text: string, other: string, v: string)
    requires KeyLabel(text, v) == KeyLabel(other, v)
    ensures text == other
  {
    assert text == KeyLabel(text, v)[4..4 + |text|] && other == KeyLabel(other, v)[4..4 + |other|];
    assert |KeyLabel(text, v)| == 4 + |text| + 1 + |v| && |KeyLabel(other, v)| == 4 + |other| + 1 + |v|;
  }

  /** A row in good order decrypts under the spelling it was written with, and no other. */
  lemma OneSpellingDecrypts(canon: Canon, s: State, text: string)
    requires Inv(canon, s) && canon(text).Some? && canon(text).value in s.rows
    ensures var id := canon(text).value;
      && id in s.committed && id in s.spelled
      && Retrieve(canon, s.rows, text)
         == if !s.rows[id].deleted && text == s.spelled[id] then Some(s.committed[id]) else None
  {
    var id := canon(text).value;
    assert RowOk(canon, s, id);
    var r, used := s.rows[id], s.spelled[id];
    if !r.deleted {
      var dataKey :| r == Envelope(used, s.committed[id], dataKey, r.version);
      if Open(Master, r.wrapped, KeyLabel(text, Itoa(r.version))).Some? {
        LabelsTellSpellings(text, used, Itoa(r.version));
      }
    }
  }

  /** The id, the spelling and the secret of the value that an event writes. */
  function Written(canon: Canon, s: State, e: Event): Option<(string, string, Secret)>
    requires Guard(canon, s, e)
  {
    match e
    case Store(id, secret, _) => Some((id, id, secret))
    case RotateWrites(a, _) =>
      var r := s.rotations[a];
      if Live(canon, s.rows, r.text) then Some((canon(r.text).value, r.text, r.secret)) else None
    case Edit(text, kind, value, _) =>
      if value != "" then Some((canon(text).value, text, Secret(kind, value))) else None
    case _ => None
  }

  /** Step k writes the secret for the id, named by the text. */
  predicate WritesAs(canon: Canon, states: seq<State>, events: seq<Event>, k: nat, id: string, text: string,
                     secret: Secret)
    requires k < |events| < |states|
  {
    Guard(canon, states[k], events[k]) && Written(canon, states[k], events[k]) == Some((id, text, secret))
  }

  predicate Writes(canon: Canon, states: seq<State>, events: seq<Event>, k: nat, id: string)
    requires k < |events| < |states|
  {
    && Guard(canon, states[k], events[k]) && Written(canon, states[k], events[k]).Some?
    && Written(canon, states[k], events[k]).value.0 == id
  }

  predicate Deletes(canon: Canon, e: Event, id: string) {
    e.Delete? && canon(e.text) == Some(id)
  }

  lemma WriteLasts(canon: Canon, s: State, e: Event, id: string)
    requires IsCanon(canon) && Guard(canon, s, e) && id in s.rows && id in s.spelled && id in s.committed
    requires Written(canon, s, e).Some? ==> Written(canon, s, e).value.0 != id
    ensures var t := Apply(canon, s, e);
      && id in t.rows && id in t.spelled && t.spelled[id] == s.spelled[id]
      && id in t.committed && t.committed[id] == s.committed[id]
      && (t.rows[id].deleted <==> s.rows[id].deleted || Deletes(canon, e, id))
      && t.rows[id].version == s.rows[id].version
  {
  }

  /** What a write leaves stays until the next one, and is live until it is deleted. */
  lemma {:induction false} WrittenSince(canon: Canon, states: seq<State>, events: seq<Event>,
                                        k: nat, i: nat, id: string, text: string, secret: Secret)
    requires IsRun(canon, states, events) && k < i < |states| && WritesAs(canon, states, events, k, id, text, secret)
    requires forall m | k < m < i :: !Writes(canon, states, events, m, id)
    ensures id in states[i].rows && id in states[i].spelled && states[i].spelled[id] == text
    ensures id in states[i].committed && states[i].committed[id] == secret
    ensures states[i].rows[id].deleted <==> exists m | k < m < i :: Deletes(canon, events[m], id)
    ensures states[i].rows[id].version == if events[k].RotateWrites? then 2 else 1
    decreases i
  {
    assert StepAt(canon, states, events, i - 1);
    if i - 1 > k {
      WrittenSince(canon, states, events, k, i - 1, id, text, secret);
      assert !Writes(canon, states, events, i - 1, id);
      WriteLasts(canon, states[i - 1], events[i - 1], id);
    }
  }

  /** What a rotation writes is what it was asked for when it read the row: the given value,
      under the given kind or, if none was given, the kind the row had then. */
  lemma {:induction false} RotationIsAsAsked(canon: Canon, states: seq<State>, events: seq<Event>, i: nat, a: nat)
    returns (k: nat)
    requires IsRun(canon, states, events) && i < |states| && a in states[i].rotations
    ensures k < i && events[k].RotateReads? && events[k].a == a && Live(canon, states[k].rows, events[k].text)
    ensures forall m | k < m < i :: !(events[m].RotateReads? && events[m].a == a)
    ensures var e, r := events[k], states[i].rotations[a];
      && r.text == e.text && r.secret.value == e.value
      && r.secret.kind == if e.kind == "" then states[k].rows[canon(e.text).value].kind else e.kind
    decreases i
  {
    assert StepAt(canon, states, events, i - 1);
    if a in states[i - 1].rotations {
      k := RotationIsAsAsked(canon, states, events, i - 1, a);
    } else {
      k := i - 1;
    }
  }

  function Decimal(n: nat): string {
    if n < 10 then ["0123456789"[n]] else Decimal(n / 10) + ["0123456789"[n % 10]]
  }

  lemma DecimalLength(n: nat)
    ensures |Decimal(n)| >= 1 && (n >= 10 ==> |Decimal(n)| >= 2)
  {
  }

  /** itoa prints its argument exactly for the versions that occur, 1 and 2. */
  lemma ItoaExact(v: nat)
    ensures Itoa(v) == Decimal(v) <==> v == 1 || v == 2
  {
    DecimalLength(v);
    if v < 10 { assert Decimal(v) == ["0123456789"[v]]; }
  }

  /** In every reachable state a row is live exactly if it was not deleted since its value was
      last written. It then decrypts, to that value and its kind, by the spelling which that
      write named it by; by its canonical id, the one the server itself uses, exactly if that
      was the spelling. A deleted row decrypts by none. */
  lemma DecryptsIffLastWrittenCanonically(canon: Canon, states: seq<State>, events: seq<Event>,
                                          k: nat, i: nat, id: string, text: string, secret: Secret)
    requires IsRun(canon, states, events) && k < i < |states| && WritesAs(canon, states, events, k, id, text, secret)
    requires forall m | k < m < i :: !Writes(canon, states, events, m, id)
    ensures var s := states[i];
      && id in s.rows && s.rows[id].version == (if events[k].RotateWrites? then 2 else 1)
      && Itoa(s.rows[id].version) == Decimal(s.rows[id].version)
      && (s.rows[id].deleted <==> exists m | k < m < i :: Deletes(canon, events[m], id))
      && (!s.rows[id].deleted ==> (Retrieve(canon, s.rows, id).Some? <==> text == id)
                                  && Retrieve(canon, s.rows, text) == Some(secret))
      && (s.rows[id].deleted ==> forall t | canon(t) == Some(id) :: Retrieve(canon, s.rows, t) == None)
  {
    InvAlways(canon, states, events, i);
    WrittenSince(canon, states, events, k, i, id, text, secret);
    hide Apply, Guard, Written;
    var s := states[i];
    assert RowOk(canon, s, id);
    ItoaExact(s.rows[id].version);
    OneSpellingDecrypts(canon, s, id);
    OneSpellingDecrypts(canon, s, text);
  }

  /** Every row is written by its canonical id, and every rotation under way will be. */
  ghost predicate Canonical(s: State) {
    && (forall id | id in s.rows :: id in s.spelled && s.spelled[id] == id)
    && (forall a | a in s.rotations :: s.rotations[a].text in s.rows)
  }

  lemma CanonicalStep(canon: Canon, s: State, e: Event)
    requires IsCanon(canon) && Inv(canon, s) && Guard(canon, s, e) && Canonical(s)
    requires e.Edit? && e.value != "" ==> canon(e.text) == Some(e.text)
    ensures Canonical(Apply(canon, s, e))
  {
    if e.RotateReads? {
      OneSpellingDecrypts(canon, s, e.text);
    } else if e.RotateWrites? {
      var text := s.rotations[e.a].text;
      assert RowOk(canon, s, text);
    }
  }

  predicate EditsCanonically(canon: Canon, e: Event) {
    e.Edit? && e.value != "" ==> canon(e.text) == Some(e.text)
  }

  lemma NothingIsCanonical()
    ensures Canonical(INIT)
  {
  }

  lemma CanonicalDecrypts(canon: Canon, s: State)
    requires Inv(canon, s) && Canonical(s)
    ensures forall id | id in s.rows && !s.rows[id].deleted ::
              id in s.committed && Retrieve(canon, s.rows, id) == Some(s.committed[id])
  {
    forall id | id in s.rows && !s.rows[id].deleted
      ensures id in s.committed && Retrieve(canon, s.rows, id) == Some(s.committed[id])
    {
      assert RowOk(canon, s, id);
      OneSpellingDecrypts(canon, s, id);
    }
  }

  /** So if every edit that writes a value names its row canonically, every live row decrypts
      by its own id in every reachable state, to the secret last committed; rotations need no
      such care, as they begin by reading the row. */
  lemma {:induction false} AlwaysDecryptable(canon: Canon, states: seq<State>, events: seq<Event>, i: nat)
    requires IsRun(canon, states, events) && i < |states|
    requires forall k | 0 <= k < i :: EditsCanonically(canon, events[k])
    ensures Canonical(states[i])
    ensures forall id | id in states[i].rows && !states[i].rows[id].deleted ::
              id in states[i].committed && Retrieve(canon, states[i].rows, id) == Some(states[i].committed[id])
  {
    hide Apply, Guard, Inv, Canonical, Retrieve;
    InvAlways(canon, states, events, i);
    if i > 0 {
      AlwaysDecryptable(canon, states, events, i - 1);
      InvAlways(canon, states, events, i - 1);
      assert StepAt(canon, states, events, i - 1) && EditsCanonically(canon, events[i - 1]);
      CanonicalStep(canon, states[i - 1], events[i - 1]);
    } else {
      NothingIsCanonical();
    }
    CanonicalDecrypts(canon, states[i]);
  }

  /** An edit by another spelling of the id leaves the row live, and not to be decrypted by it. */
  lemma OtherSpellingLocksOut(canon: Canon, id: string, text: string)
    requires IsCanon(canon) && canon(id) == canon(text) == Some(id) && text != id
    ensures exists states: seq<State>, events: seq<Event> ::
              && IsRun(canon, states, events) && |states| == 3 && Live(canon, states[2].rows, id)
              && events[1] == Edit(text, "password", "new", 1) && Retrieve(canon, states[2].rows, id) == None
  {
    var events := [Store(id, Secret("password", "old"), 0), Edit(text, "password", "new", 1)];
    var s1 := Apply(canon, INIT, events[0]);
    var s2 := Apply(canon, s1, events[1]);
    var states := [INIT, s1, s2];
    assert forall i | 0 <= i < |events| :: StepAt(canon, states, events, i);
    assert IsRun(canon, states, events);
    DecryptsIffLastWrittenCanonically(canon, states, events, 1, 2, id, text, Secret("password", "new"));
  }

  /** The spellings of the database are such a case: in upper case an id with a letter in it
      is another text of the same value. */
  lemma UppercaseLocksOut(id: string)
    requires Uuid.Canon(id) == Some(id) && Uuid.Uppercased(id) != id
    ensures IsCanon(Uuid.Canon)
    ensures exists states: seq<State>, events: seq<Event> ::
              && IsRun(Uuid.Canon, states, events) && |states| == 3 && Live(Uuid.Canon, states[2].rows, id)
              && events[1] == Edit(Uuid.Uppercased(id), "password", "new", 1)
              && Retrieve(Uuid.Canon, states[2].rows, id) == None
  {
    hide Uuid.Canon;
    forall s | Uuid.Canon(s).Some? ensures Uuid.Canon(Uuid.Canon(s).value) == Uuid.Canon(s) && ':' !in s {
      Uuid.CanonIsCanonical(s);
    }
    Uuid.UppercaseIsSameValue(id);
    OtherSpellingLocksOut(Uuid.Canon, id, Uuid.Uppercased(id));
  }

  /** A rotation answers without an error either way, but its secret is stored exactly if the
      row was not deleted since the rotation read it. */
  lemma RotationStoresUnlessDeleted(canon: Canon, states: seq<State>, events: seq<Event>, i: nat)
    requires IsRun(canon, states, events) && i < |events| && events[i].RotateWrites?
    ensures events[i].a in states[i].rotations
    ensures var r := states[i].rotations[events[i].a];
      if Live(canon, states[i].rows, r.text) then Retrieve(canon, states[i + 1].rows, r.text) == Some(r.secret)
      else states[i + 1].rows == states[i].rows && Retrieve(canon, states[i + 1].rows, r.text) == None
  {
    assert StepAt(canon, states, events, i);
    InvAlways(canon, states, events, i + 1);
    var r := states[i].rotations[events[i].a];
    if Live(canon, states[i].rows, r.text) {
      OneSpellingDecrypts(canon, states[i + 1], r.text);
    }
  }

  ghost predicate Reachable(canon: Canon, s: State) {
    exists states: seq<State>, events: seq<Event> :: IsRun(canon, states, events) && s == states[|states| - 1]
  }

  lemma ReachInit(canon: Canon)
    requires IsCanon(canon)
    ensures Reachable(canon, INIT)
  {
    assert IsRun(canon, [INIT], []) && INIT == [INIT][|[INIT]| - 1];
  }

  lemma Reach(canon: Canon, s: State, e: Event)
    requires Reachable(canon, s) && Guard(canon, s, e)
    ensures Reachable(canon, Apply(canon, s, e))
  {
    hide Apply, Guard, IsCanon;
    var states: seq<State>, events: seq<Event> :| IsRun(canon, states, events) && s == states[|states| - 1];
    var longer, more := states + [Apply(canon, s, e)], events + [e];
    forall i | 0 <= i < |more| ensures StepAt(canon, longer, more, i) {
      if i < |events| { assert StepAt(canon, states, events, i); }
    }
    assert IsRun(canon, longer, more) && Apply(canon, s, e) == longer[|longer| - 1];
  }

  /** Both cases happen: here the row is deleted while a rotation of it is under way, and the
      rotation then changes nothing. */
  lemma RotationMayBeLost(canon: Canon, id: string)
    requires IsCanon(canon) && canon(id) == Some(id)
    ensures exists s: State ::
              && Reachable(canon, s) && s.rotations == map[0 := Rotation(id, Secret("password", "new"))]
              && Guard(canon, s, RotateWrites(0, 1))
              && Apply(canon, s, RotateWrites(0, 1)).rows == s.rows && Retrieve(canon, s.rows, id) == None
  {
    hide Reachable;
    ReachInit(canon);
    Reach(canon, INIT, Store(id, Secret("password", "old"), 0));
    var s := Apply(canon, INIT, Store(id, Secret("password", "old"), 0));
    assert Retrieve(canon, s.rows, id) == Some(Secret("password", "old"));
    Reach(canon, s, RotateReads(0, id, "password", "new"));
    s := Apply(canon, s, RotateReads(0, id, "password", "new"));
    Reach(canon, s, Delete(id));
    s := Apply(canon, s, Delete(id));
    assert Guard(canon, s, RotateWrites(0, 1)) && Apply(canon, s, RotateWrites(0, 1)).rows == s.rows;
  }

  // ----- What the labels bind -----

  function BeforeColon(s: string): string {
    if s == [] || s[0] == ':' then [] else [s[0]] + BeforeColon(s[1..])
  }

  lemma {:induction false} BeforeColonOf(a: string, x: string)
    requires ':' !in a
    ensures BeforeColon(a + ":" + x) == a
  {
    if a != [] {
      assert (a + ":" + x)[1..] == a[1..] + ":" + x;
      BeforeColonOf(a[1..], x);
    }
  }

  /** Ids contain no colon, so a label can be read back. */
  lemma ColonSplits(a: string, b: string, x: string, y: string)
    requires a + ":" + x == b + ":" + y && ':' !in a && ':' !in b
    ensures a == b && x == y
  {
    BeforeColonOf(a, x);
    BeforeColonOf(b, y);
    assert x == (a + ":" + x)[|a| + 1..] && y == (b + ":" + y)[|b| + 1..];
  }

  lemma LabelsAreDistinct(id: string, other: string, kind: string, kind': string)
    requires ':' !in id && ':' !in other && SecretLabel(id, kind) == SecretLabel(other, kind')
    ensures id == other && kind == kind'
  {
    assert SecretLabel(id, kind) == "secret:" + (id + ":" + kind);
    assert SecretLabel(other, kind') == "secret:" + (other + ":" + kind');
    assert id + ":" + kind == SecretLabel(id, kind)[7..] && other + ":" + kind' == SecretLabel(other, kind')[7..];
    ColonSplits(id, other, kind, kind');
  }

  /** A ciphertext is bound to its spelling and kind: carried into another row, or kept while
      the kind column changes, it no longer decrypts, whatever data key the row unwraps. */
  lemma CiphertextIsBound(canon: Canon, states: seq<State>, events: seq<Event>, i: nat, from: string, text: string,
                          r: Row)
    requires IsRun(canon, states, events) && i < |states| && from in states[i].rows && !states[i].rows[from].deleted
    requires canon(text).Some? && r.ciphertext == states[i].rows[from].ciphertext
    ensures Decrypt(text, r).Some? ==>
              && canon(text) == Some(from) && r.kind == states[i].rows[from].kind
              && from in states[i].committed && Decrypt(text, r).value == states[i].committed[from]
  {
    InvAlways(canon, states, events, i);
    var s := states[i];
    assert RowOk(canon, s, from);
    var dataKey :| s.rows[from] == Envelope(s.spelled[from], s.committed[from], dataKey, s.rows[from].version);
    if Decrypt(text, r).Some? {
      LabelsAreDistinct(text, s.spelled[from], r.kind, s.rows[from].kind);
    }
  }

  // ----- The provider object -----

  /** The text names a live row, whose value was last written by that text. */
  predicate SpelledAs(canon: Canon, s: State, text: string) {
    Live(canon, s.rows, text) && canon(text).value in s.spelled && s.spelled[canon(text).value] == text
  }

  class Provider {
    const canon: Canon
    var rows: map<string, Row>
    ghost var committed: map<string, Secret>
    ghost var spelled: map<string, string>

    ghost function View(): State
      reads this
    {
      State(rows, map[], committed, spelled)
    }

    ghost predicate Valid()
      reads this
    {
      IsCanon(canon) && Inv(canon, View())
    }

    constructor (canon: Canon)
      requires IsCanon(canon)
      ensures Valid() && rows == map[] && this.canon == canon
    {
      this.canon := canon;
      rows, committed, spelled := map[], map[], map[];
    }

    method Read(text: string) returns (found: Option<Secret>)
      requires Valid()
      ensures found == Retrieve(canon, rows, text)
      ensures found.Some? <==> SpelledAs(canon, View(), text)
    {
      if canon(text).Some? && canon(text).value in rows {
        OneSpellingDecrypts(canon, View(), text);
      }
      if canon(text).None? || canon(text).value !in rows || rows[canon(text).value].deleted {
        return None;
      }
      var r := rows[canon(text).value];
      var key := Open(Master, r.wrapped, KeyLabel(text, Itoa(r.version)));
      if key.None? || !key.value.KeyBytes? {
        return None;
      }
      var plain := Open(Data(key.value.n), r.ciphertext, SecretLabel(text, r.kind));
      if plain.None? || !plain.value.Bytes? {
        return None;
      }
      found := Some(Secret(r.kind, plain.value.value));
    }

    /** Seals under labels made from the text and writes the row it names. */
    method Write(text: string, secret: Secret, dataKey: nat, version: nat)
      requires Valid() && canon(text).Some? && (version == 1 || version == 2)
      modifies this
      ensures Valid()
      ensures View() == Put(old(View()), canon(text).value, text, secret, Envelope(text, secret, dataKey, version))
      ensures forall t | canon(t) == canon(text) :: Retrieve(canon, rows, t) == if t == text then Some(secret) else None
    {
      var id := canon(text).value;
      PutKeepsInv(canon, View(), id, text, secret, dataKey, version);
      var keyLabel := KeyLabel(text, if version == 1 then "1" else "2");
      var wrapped := Sealed(Master, KeyBytes(dataKey), keyLabel);
      var value := Sealed(Data(dataKey), Bytes(secret.value), SecretLabel(text, secret.kind));
      rows := rows[id := Row(secret.kind, wrapped, value, version, false)];
      committed, spelled := committed[id := secret], spelled[id := text];
      forall t | canon(t) == canon(text) ensures Retrieve(canon, rows, t) == if t == text then Some(secret) else None {
        OneSpellingDecrypts(canon, View(), t);
      }
    }

    method Store(id: string, secret: Secret, dataKey: nat) returns (ok: bool)
      requires Valid() && canon(id) == Some(id) && id !in rows
      modifies this
      ensures Valid() && (ok <==> secret.value != "")
      ensures View() == if ok then Apply(canon, old(View()), Event.Store(id, secret, dataKey)) else old(View())
      ensures ok ==> Retrieve(canon, rows, id) == Some(secret)
      ensures forall t | canon(t) != Some(id) || !ok :: Retrieve(canon, rows, t) == Retrieve(canon, old(rows), t)
    {
      if secret.value == "" {
        return false;
      }
      Write(id, secret, dataKey, 1);
      ok := true;
    }

    /** Works only by the spelling the row was last written with. */
    method Rotate(text: string, secret: Secret, dataKey: nat) returns (ok: bool)
      requires Valid()
      modifies this
      ensures Valid()
      ensures ok <==> SpelledAs(canon, old(View()), text)
      ensures ok ==>
                var kind := if secret.kind == "" then old(rows)[canon(text).value].kind else secret.kind;
                Retrieve(canon, rows, text) == Some(Secret(kind, secret.value))
      ensures View() ==
                if ok then
                  var read := Apply(canon, old(View()), RotateReads(0, text, secret.kind, secret.value));
                  Apply(canon, read, RotateWrites(0, dataKey))
                else old(View())
      ensures forall t | canon(t) != canon(text) || !ok :: Retrieve(canon, rows, t) == Retrieve(canon, old(rows), t)
    {
      var before := Read(text);
      if before.None? {
        return false;
      }
      var kind := if secret.kind == "" then before.value.kind else secret.kind;
      Write(text, Secret(kind, secret.value), dataKey, 2);
      ok := true;
    }

    /** The PUT handler: an empty value keeps the ciphertext, so the kind must not change. A
        value is from then on retrieved by the spelling of the path, and by no other. */
    method Update(text: string, name: string, kind: string, value: string, dataKey: nat) returns (ok: bool)
      requires Valid()
      modifies this
      ensures Valid()
      ensures ok <==>
                && !Spaces(name) && (kind == "password" || kind == "windows" || kind == "ssh-key")
                && Live(canon, old(rows), text)
                && (kind != old(rows)[canon(text).value].kind ==> value != "")
      ensures View() == if ok then Apply(canon, old(View()), Edit(text, kind, value, dataKey)) else old(View())
      ensures ok && value != "" ==> forall t | canon(t) == canon(text) ::
                Retrieve(canon, rows, t) == if t == text then Some(Secret(kind, value)) else None
      ensures forall t | !ok || value == "" || canon(t) != canon(text) ::
                Retrieve(canon, rows, t) == Retrieve(canon, old(rows), t)
    {
      hide Inv, Envelope, Decrypt;
      BlankIffSpaces(name);
      if TrimSpace(name) == "" || (kind != "password" && kind != "windows" && kind != "ssh-key") {
        return false;
      }
      var found := canon(text);
      if found.None? || found.value !in rows || rows[found.value].deleted
         || (kind != rows[found.value].kind && value == "") {
        return false;
      }
      if value != "" {
        Write(text, Secret(kind, value), dataKey, 1);
      } else {
        rows := rows[found.value := rows[found.value].(kind := kind)];
        assert rows == old(rows);
      }
      ok := true;
    }

    method Delete(text: string)
      requires Valid()
      modifies this`rows
      ensures Valid() && forall t | canon(t) == canon(text) :: Retrieve(canon, rows, t) == None
      ensures View() == if Live(canon, old(rows), text) then Apply(canon, old(View()), Event.Delete(text))
                        else old(View())
      ensures forall t | canon(t) != canon(text) :: Retrieve(canon, rows, t) == Retrieve(canon, old(rows), t)
    {
      var found := canon(text);
      if found.Some? && found.value in rows && !rows[found.value].deleted {
        var row := rows[found.value].(deleted := true, ciphertext := Blank);
        ChangeKeepsInv(canon, View(), found.value, row);
        rows := rows[found.value := row];
      }
    }
  }
}
