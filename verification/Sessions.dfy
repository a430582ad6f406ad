/** Login sessions: sliding idle expiry with a lazily written last-seen time, absolute expiry,
    and revocation together with the account changes that call for it. */
module Sessions {
  import opened Options
  import opened Texts
  import Uuid

  /** Nanoseconds of one clock shared by the server and its database. */
  const MINUTE := 60_000_000_000

  /** canon gives the id that a text stands for, as a uuid column reads it. */
  datatype Config = Config(ttl: int, idle: int, canon: string -> Option<string>)

  datatype User = User(enabled: bool, deleted: bool)

  /** A session row; tokens stand for their hashes. inserted is the number of the step that
      inserted it, checked that of the step that compared the password. */
  datatype Session = Session(user: string, lastSeen: int, expires: int, revoked: bool, checked: nat, inserted: nat)

  type Users = map<string, User>

  type Rows = map<string, Session>

  /** logins have compared their password and not yet inserted their session; refreshes have
      been accepted and not yet written last-seen. touched is the last time a request of the
      token was accepted or still at work, missed the tokens whose last refresh failed: the
      code has neither. */
  datatype State = State(now: int, steps: nat, users: Users, rows: Rows, logins: map<nat, Pending>,
                         refreshes: map<nat, string>, touched: map<string, int>, missed: set<string>)

  datatype Pending = Pending(user: string, checked: nat)

  datatype Event =
    | Pass(time: nat)
    | CreateUser(user: string)
    | Check(a: nat, user: string)
    | Open(a: nat, token: string)
    | Authenticate(a: nat, token: string)
    | Refresh(a: nat, written: bool)
    | Logout(token: string)
    | ChangePassword(user: string)
    | Edit(actor: string, text: string, enabled: bool, removing: bool, reset: bool)

  predicate Active(users: Users, user: string) {
    user in users && users[user].enabled && !users[user].deleted
  }

  /** The SELECT of Authenticate together with the idle check after it. */
  predicate Accepts(cfg: Config, users: Users, rows: Rows, now: int, token: string) {
    && token in rows && !rows[token].revoked && rows[token].expires > now
    && Active(users, rows[token].user) && now - rows[token].lastSeen <= cfg.idle
  }

  function RevokeAll(rows: Rows, user: string): Rows {
    map t | t in rows :: if rows[t].user == user then rows[t].(revoked := true) else rows[t]
  }

  /** What the handler refuses before and inside its transaction. The account is named by the
      text of the path: the handler compares it as it is, the database by what it stands for. */
  predicate MayEdit(cfg: Config, users: Users, actor: string, text: string, enabled: bool, removing: bool,
                    reset: bool) {
    && !(text == actor && (removing || !enabled || reset)) && Active(users, actor)
    && cfg.canon(text).Some? && cfg.canon(text).value in users && !users[cfg.canon(text).value].deleted
  }

  predicate EditRevokes(enabled: bool, removing: bool, reset: bool) {
    removing || !enabled || reset
  }

  function EditedUsers(users: Users, user: string, enabled: bool, removing: bool): Users {
    users[user := User(enabled && !removing, removing)]
  }

  predicate Guard(cfg: Config, s: State, e: Event) {
    match e
    case Pass(_) => true
    case CreateUser(user) => user !in s.users && cfg.canon(user) == Some(user)
    case Check(a, user) => a !in s.logins && Active(s.users, user)
    case Open(a, token) => a in s.logins && token !in s.rows
    case Authenticate(a, _) => a !in s.refreshes
    case Refresh(a, _) => a in s.refreshes
    case Logout(_) => true
    case ChangePassword(user) => user in s.users
    case Edit(_, _, _, _, _) => true
  }

  function Opened(cfg: Config, s: State, a: nat, token: string): State
    requires a in s.logins
  {
    var p := s.logins[a];
    s.(rows := s.rows[token := Session(p.user, s.now, s.now + cfg.ttl, false, p.checked, s.steps)],
       logins := s.logins - {a}, touched := s.touched[token := s.now], missed := s.missed - {token})
  }

  function Authenticated(cfg: Config, s: State, a: nat, token: string): State {
    if !Accepts(cfg, s.users, s.rows, s.now, token) then s
    else
      var t := s.(touched := s.touched[token := s.now]);
      if s.now - s.rows[token].lastSeen > MINUTE then t.(refreshes := s.refreshes[a := token]) else t
  }

  function Refreshed(s: State, a: nat, written: bool): State
    requires a in s.refreshes
  {
    var token := s.refreshes[a];
    var t := s.(refreshes := s.refreshes - {a}, touched := s.touched[token := s.now]);
    if !written then t.(missed := s.missed + {token})
    else if token in s.rows then
      t.(rows := s.rows[token := s.rows[token].(lastSeen := s.now)], missed := s.missed - {token})
    else t
  }

  function Edited(cfg: Config, s: State, e: Event): State
    requires e.Edit?
  {
    if !MayEdit(cfg, s.users, e.actor, e.text, e.enabled, e.removing, e.reset) then s
    else
      var user := cfg.canon(e.text).value;
      s.(users := EditedUsers(s.users, user, e.enabled, e.removing),
         rows := if EditRevokes(e.enabled, e.removing, e.reset) then RevokeAll(s.rows, user) else s.rows)
  }

  function Effect(cfg: Config, s: State, e: Event): State
    requires Guard(cfg, s, e)
  {
    match e
    case Pass(time) => s.(now := s.now + time)
    case CreateUser(user) => s.(users := s.users[user := User(true, false)])
    case Check(a, user) => s.(logins := s.logins[a := Pending(user, s.steps)])
    case Open(a, token) => Opened(cfg, s, a, token)
    case Authenticate(a, token) => Authenticated(cfg, s, a, token)
    case Refresh(a, written) => Refreshed(s, a, written)
    case Logout(token) =>
      if token in s.rows then s.(rows := s.rows[token := s.rows[token].(revoked := true)]) else s
    case ChangePassword(user) => s.(rows := RevokeAll(s.rows, user))
    case Edit(_, _, _, _, _) => Edited(cfg, s, e)
  }

  function Apply(cfg: Config, s: State, e: Event): State
    requires Guard(cfg, s, e)
  {
    Effect(cfg, s, e).(steps := s.steps + 1)
  }

  // ----- Last-seen trails activity by at most a minute -----

  /** No request of the token is still at work. */
  predicate Quiet(s: State, token: string) {
    forall a | a in s.refreshes :: s.refreshes[a] != token
  }

  predicate RowOk(s: State, token: string)
    requires token in s.rows
  {
    && token in s.touched && s.rows[token].lastSeen <= s.touched[token] <= s.now
    && s.rows[token].user in s.users && s.rows[token].inserted < s.steps
    && (Quiet(s, token) && token !in s.missed ==> s.touched[token] - s.rows[token].lastSeen <= MINUTE)
  }

  ghost predicate Inv(cfg: Config, s: State) {
    && (forall token | token in s.rows :: RowOk(s, token))
    && (forall a | a in s.refreshes :: s.refreshes[a] in s.rows)
    && (forall a | a in s.logins :: s.logins[a].user in s.users && s.logins[a].checked < s.steps)
    && (forall user | user in s.users :: cfg.canon(user) == Some(user))
  }

  lemma RefreshRow(cfg: Config, s: State, a: nat, written: bool, token: string)
    requires Inv(cfg, s) && a in s.refreshes && token in s.rows
    ensures RowOk(Refreshed(s, a, written), token)
  {
    var t := Refreshed(s, a, written);
    assert RowOk(s, token);
    if s.refreshes[a] != token && Quiet(t, token) {
      forall b | b in s.refreshes ensures s.refreshes[b] != token {
        assert b == a || (b in t.refreshes && t.refreshes[b] == s.refreshes[b]);
      }
    }
  }

  lemma NotQuiet(s: State, a: nat, token: string)
    requires a in s.refreshes && s.refreshes[a] == token
    ensures !Quiet(s, token)
  {
  }

  lemma StillQuiet(s: State, t: State, token: string)
    requires Quiet(t, token) && forall b | b in s.refreshes :: b in t.refreshes && t.refreshes[b] == s.refreshes[b]
    ensures Quiet(s, token)
  {
    forall b | b in s.refreshes ensures s.refreshes[b] != token {
      assert t.refreshes[b] == s.refreshes[b];
    }
  }

  lemma AuthenticateRow(cfg: Config, s: State, a: nat, asked: string, token: string)
    requires a !in s.refreshes && token in s.rows && RowOk(s, token)
    ensures RowOk(Authenticated(cfg, s, a, asked), token)
  {
    var t := Authenticated(cfg, s, a, asked);
    if asked == token && Accepts(cfg, s.users, s.rows, s.now, token) && s.now - s.rows[token].lastSeen > MINUTE {
      NotQuiet(t, a, token);
    } else if Quiet(t, token) {
      StillQuiet(s, t, token);
    }
  }

  /** What of a state matters for one of its rows. */
  predicate SameFor(s: State, t: State, token: string) {
    && token in s.rows && token in t.rows && s.touched.Keys <= t.touched.Keys
    && t.rows[token].lastSeen == s.rows[token].lastSeen && t.rows[token].user == s.rows[token].user
    && t.rows[token].inserted == s.rows[token].inserted
    && (token in s.touched ==> t.touched[token] == s.touched[token])
    && t.refreshes == s.refreshes && (token in t.missed <==> token in s.missed)
    && s.now <= t.now && s.steps <= t.steps && s.users.Keys <= t.users.Keys
  }

  lemma SameRow(s: State, t: State, token: string)
    requires SameFor(s, t, token) && RowOk(s, token)
    ensures RowOk(t, token)
  {
    assert Quiet(s, token) == Quiet(t, token);
  }

  lemma OtherIsSame(cfg: Config, s: State, e: Event, token: string)
    requires Guard(cfg, s, e) && !e.Refresh? && !e.Authenticate? && token in s.rows
    ensures SameFor(s, Apply(cfg, s, e), token)
  {
  }

  /** The other events leave what matters for last-seen alone. */
  lemma OtherRow(cfg: Config, s: State, e: Event, token: string)
    requires Inv(cfg, s) && Guard(cfg, s, e) && !e.Refresh? && !e.Authenticate? && token in Apply(cfg, s, e).rows
    ensures RowOk(Apply(cfg, s, e), token)
  {
    if token in s.rows {
      hide Apply, Effect, Guard;
      assert RowOk(s, token);
      OtherIsSame(cfg, s, e, token);
      SameRow(s, Apply(cfg, s, e), token);
    }
  }

  /** Counting the step changes nothing else. */
  lemma Later(s: State, token: string)
    requires token in s.rows && RowOk(s, token)
    ensures RowOk(s.(steps := s.steps + 1), token)
  {
    assert Quiet(s.(steps := s.steps + 1), token) == Quiet(s, token);
  }

  lemma RowStep(cfg: Config, s: State, e: Event, token: string)
    requires Inv(cfg, s) && Guard(cfg, s, e) && token in Apply(cfg, s, e).rows
    ensures RowOk(Apply(cfg, s, e), token)
  {
    if token in s.rows { assert RowOk(s, token); }
    hide Inv, Quiet, Accepts;
    if e.Refresh? {
      RefreshRow(cfg, s, e.a, e.written, token);
      assert RowOk(Effect(cfg, s, e), token);
    } else if e.Authenticate? {
      AuthenticateRow(cfg, s, e.a, e.token, token);
      assert RowOk(Effect(cfg, s, e), token);
    } else {
      OtherRow(cfg, s, e, token);
      return;
    }
    Later(Effect(cfg, s, e), token);
  }

  lemma RefreshesStep(cfg: Config, s: State, e: Event)
    requires Guard(cfg, s, e) && forall a | a in s.refreshes :: s.refreshes[a] in s.rows
    ensures forall a | a in Apply(cfg, s, e).refreshes :: Apply(cfg, s, e).refreshes[a] in Apply(cfg, s, e).rows
  {
    hide MayEdit;
  }

  lemma LoginsStep(cfg: Config, s: State, e: Event)
    requires Guard(cfg, s, e)
    requires forall a | a in s.logins :: s.logins[a].user in s.users && s.logins[a].checked < s.steps
    ensures var t := Apply(cfg, s, e);
      forall a | a in t.logins :: t.logins[a].user in t.users && t.logins[a].checked < t.steps
  {
    hide Accepts, MayEdit;
  }

  lemma UsersStep(cfg: Config, s: State, e: Event)
    requires Guard(cfg, s, e) && forall user | user in s.users :: cfg.canon(user) == Some(user)
    ensures s.users.Keys <= Apply(cfg, s, e).users.Keys
    ensures forall user | user in Apply(cfg, s, e).users :: cfg.canon(user) == Some(user)
  {
    hide Accepts;
  }

  lemma InvStep(cfg: Config, s: State, e: Event)
    requires Inv(cfg, s) && Guard(cfg, s, e)
    ensures Inv(cfg, Apply(cfg, s, e))
  {
    hide RowOk;
    var t := Apply(cfg, s, e);
    RefreshesStep(cfg, s, e);
    LoginsStep(cfg, s, e);
    UsersStep(cfg, s, e);
    hide Apply, Guard;
    forall token | token in t.rows ensures RowOk(t, token) {
      RowStep(cfg, s, e, token);
    }
  }

  ghost predicate StepAt(cfg: Config, states: seq<State>, events: seq<Event>, i: nat)
    requires i < |events| < |states|
  {
    Guard(cfg, states[i], events[i]) && states[i + 1] == Apply(cfg, states[i], events[i])
  }

  /** A run from any state. */
  ghost predicate IsPath(cfg: Config, states: seq<State>, events: seq<Event>) {
    |states| == |events| + 1 && forall i | 0 <= i < |events| :: StepAt(cfg, states, events, i)
  }

  const INIT := State(0, 0, map[], map[], map[], map[], map[], {})

  ghost predicate IsRun(cfg: Config, states: seq<State>, events: seq<Event>) {
    IsPath(cfg, states, events) && states[0] == INIT
  }

  lemma {:induction false} InvAlways(cfg: Config, states: seq<State>, events: seq<Event>, i: nat)
    requires IsRun(cfg, states, events) && i < |states|
    ensures Inv(cfg, states[i])
  {
    if i > 0 {
      InvAlways(cfg, states, events, i - 1);
      assert StepAt(cfg, states, events, i - 1);
      InvStep(cfg, states[i - 1], events[i - 1]);
    }
  }

  /** A session none of whose requests has been at work for longer than the idle time is
      refused. One whose last request ended at least a minute short of the idle time, and
      whose refreshes were written, is accepted, if nothing else is against it. */
  lemma IdleDecides(cfg: Config, states: seq<State>, events: seq<Event>, i: nat, token: string)
    requires IsRun(cfg, states, events) && i < |states| && token in states[i].rows && Quiet(states[i], token)
    ensures var s := states[i];
            && token in s.touched
            && (s.now - s.touched[token] > cfg.idle ==> !Accepts(cfg, s.users, s.rows, s.now, token))
            && (s.now - s.touched[token] <= cfg.idle - MINUTE && token !in s.missed ==>
                  (Accepts(cfg, s.users, s.rows, s.now, token)
                   <==> !s.rows[token].revoked && s.rows[token].expires > s.now && Active(s.users, s.rows[token].user)))
  {
    InvAlways(cfg, states, events, i);
    assert RowOk(states[i], token);
  }

  // ----- One's own account -----

  /** An account that disables, removes or resets itself keeps its accepted sessions exactly if
      the path spells its id as it is: then the edit is refused. */
  lemma OwnAccountIsProtectedIff(cfg: Config, s: State, e: Event, token: string)
    requires Guard(cfg, s, e) && e.Edit? && cfg.canon(e.text) == Some(e.actor)
    requires EditRevokes(e.enabled, e.removing, e.reset)
    requires Accepts(cfg, s.users, s.rows, s.now, token) && s.rows[token].user == e.actor
    ensures var t := Apply(cfg, s, e);
      Accepts(cfg, t.users, t.rows, t.now, token) <==> e.text == e.actor
  {
    var t := Apply(cfg, s, e);
    if e.text != e.actor { assert t.rows[token].revoked; }
  }

  /** Over any run in which edits name accounts by their own text, nobody's edit takes away
      their own access. */
  lemma NobodyLocksThemselvesOut(cfg: Config, states: seq<State>, events: seq<Event>, i: nat)
    requires IsRun(cfg, states, events) && i < |events| && events[i].Edit?
    requires cfg.canon(events[i].text) == Some(events[i].text)
    ensures Active(states[i].users, events[i].actor) ==> Active(states[i + 1].users, events[i].actor)
    ensures Active(states[i].users, events[i].actor) ==>
              forall t | t in states[i].rows && states[i].rows[t].user == events[i].actor ::
                t in states[i + 1].rows && states[i + 1].rows[t] == states[i].rows[t]
  {
    assert StepAt(cfg, states, events, i);
  }

  /** In another spelling, such as upper case, one can. */
  lemma OtherSpellingLocksOneselfOut(id: string)
    requires Uuid.Canon(id) == Some(id) && Uuid.Uppercased(id) != id
    ensures var cfg := Config(720 * MINUTE, 30 * MINUTE, Uuid.Canon);
      exists states: seq<State>, events: seq<Event> ::
        && IsRun(cfg, states, events) && events == [CreateUser(id), Edit(id, Uuid.Uppercased(id), false, false, false)]
        && Active(states[1].users, id) && !Active(states[2].users, id)
  {
    hide Uuid.Canon;
    Uuid.UppercaseIsSameValue(id);
    var cfg := Config(720 * MINUTE, 30 * MINUTE, Uuid.Canon);
    var events := [CreateUser(id), Edit(id, Uuid.Uppercased(id), false, false, false)];
    var s1 := Apply(cfg, INIT, events[0]);
    var s2 := Apply(cfg, s1, events[1]);
    var states := [INIT, s1, s2];
    assert forall i | 0 <= i < |events| :: StepAt(cfg, states, events, i);
    assert IsRun(cfg, states, events);
  }

  // ----- The rows, changed in place -----

  /** What an edit asks for; a removal carries no form. */
  datatype Form = Form(email: string, name: string, password: string, enabled: bool)

  predicate WellFormed(form: Form, removing: bool, hashes: bool) {
    removing || (!Spaces(form.email) && !Spaces(form.name) && (form.password != "" ==> hashes))
  }

  /** The two tables, and each statement or transaction on them. */
  class Tables {
    var users: Users
    var rows: Rows

    constructor (users: Users, rows: Rows)
      ensures this.users == users && this.rows == rows
    {
      this.users, this.rows := users, rows;
    }

    /** One request by itself, from the SELECT to the refresh. */
    method Authenticate(cfg: Config, token: string, now: int, written: bool) returns (ok: bool)
      modifies this`rows
      ensures ok == Accepts(cfg, users, old(rows), now, token)
      ensures rows == if ok && written && now - old(rows)[token].lastSeen > 60_000_000_000
                      then old(rows)[token := old(rows)[token].(lastSeen := now)] else old(rows)
    {
      if token !in rows {
        return false;
      }
      var r := rows[token];
      if r.revoked || r.expires <= now || r.user !in users || !users[r.user].enabled || users[r.user].deleted {
        return false;
      }
      if now - r.lastSeen > cfg.idle {
        return false;
      }
      if now - r.lastSeen > MINUTE && written {
        rows := rows[token := r.(lastSeen := now)];
      }
      ok := true;
    }

    /** UPDATE ... WHERE user_id = user AND revoked_at IS NULL, row by row. */
    method Revoke(user: string)
      modifies this`rows
      ensures rows == RevokeAll(old(rows), user)
    {
      var rest := rows.Keys;
      while rest != {}
        invariant rest <= rows.Keys == old(rows).Keys
        invariant forall t | t in rows :: rows[t] == if t in rest then old(rows)[t] else RevokeAll(old(rows), user)[t]
      {
        var t :| t in rest;
        if rows[t].user == user && !rows[t].revoked {
          rows := rows[t := rows[t].(revoked := true)];
        }
        rest := rest - {t};
      }
    }

    /** hashes tells whether the password is one that can be hashed, taken whether another
        account has the address. */
    method Edit(cfg: Config, actor: string, text: string, form: Form, removing: bool, hashes: bool, taken: bool)
      returns (ok: bool)
      modifies this
      ensures var reset := !removing && form.password != "";
        ok == (WellFormed(form, removing, hashes) && (removing || !taken)
               && MayEdit(cfg, old(users), actor, text, form.enabled, removing, reset))
      ensures !ok ==> users == old(users) && rows == old(rows)
      ensures ok ==> users == EditedUsers(old(users), cfg.canon(text).value, form.enabled, removing)
      ensures ok ==>
                rows == if EditRevokes(form.enabled, removing, !removing && form.password != "")
                        then RevokeAll(old(rows), cfg.canon(text).value) else old(rows)
    {
      var reset := !removing && form.password != "";
      if text == actor && (removing || !form.enabled || reset) {
        return false;
      }
      BlankIffSpaces(form.email);
      BlankIffSpaces(form.name);
      if !removing && (TrimSpace(form.email) == "" || TrimSpace(form.name) == "") {
        return false;
      }
      if reset && !hashes {
        return false;
      }
      if actor !in users || !users[actor].enabled || users[actor].deleted {
        return false;
      }
      var found := cfg.canon(text);
      if found.None? || found.value !in users || users[found.value].deleted || (!removing && taken) {
        return false;
      }
      var user := found.value;
      users := users[user := if removing then User(false, true) else User(form.enabled, false)];
      if removing || !form.enabled || reset {
        Revoke(user);
      }
      ok := true;
    }
  }
}
