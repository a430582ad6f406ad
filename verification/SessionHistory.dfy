/** Whether a session is accepted, from the events since it was opened alone. */
module SessionHistory {
  import opened Options
  import opened Sessions

  /** e is an edit of the account that is carried out: by an enabled actor, of an account that
      is there, and not one by which the actor would shut itself out by its own name. */
  predicate Edits(cfg: Config, s: State, e: Event, user: string) {
    && e.Edit? && cfg.canon(e.text) == Some(user) && user in s.users && !s.users[user].deleted
    && e.actor in s.users && s.users[e.actor].enabled && !s.users[e.actor].deleted
    && (e.text == e.actor ==> e.enabled && !e.removing && !e.reset)
  }

  /** e is the logout of the token, or shuts out every session of its user. */
  predicate Ends(cfg: Config, s: State, e: Event, token: string, user: string) {
    || e == Logout(token)
    || e == ChangePassword(user)
    || (Edits(cfg, s, e, user) && (e.removing || !e.enabled || e.reset))
  }

  /** e is a refresh of the token that reaches the table. */
  predicate Writes(s: State, e: Event, token: string) {
    e.Refresh? && e.written && e.a in s.refreshes && s.refreshes[e.a] == token
  }

  /** The row of the token after e, if it was there before. */
  predicate RowBecomes(cfg: Config, s: State, e: Event, t: State, token: string)
    requires token in s.rows
  {
    var r := s.rows[token];
    && token in t.rows
    && t.rows[token] == r.(lastSeen := if Writes(s, e, token) then s.now else r.lastSeen,
                           revoked := r.revoked || Ends(cfg, s, e, token, r.user))
  }

  lemma EditAfter(cfg: Config, s: State, e: Event, token: string)
    requires Guard(cfg, s, e) && e.Edit? && token in s.rows
    ensures RowBecomes(cfg, s, e, Apply(cfg, s, e), token)
  {
  }

  lemma OtherAfter(cfg: Config, s: State, e: Event, token: string)
    requires Guard(cfg, s, e) && !e.Edit? && token in s.rows
    ensures RowBecomes(cfg, s, e, Apply(cfg, s, e), token)
  {
    assert !Edits(cfg, s, e, s.rows[token].user);
    hide Accepts, MayEdit, EditedUsers, Edits, Edited;
  }

  lemma RowAfter(cfg: Config, s: State, e: Event, token: string)
    requires Guard(cfg, s, e) && token in s.rows
    ensures RowBecomes(cfg, s, e, Apply(cfg, s, e), token)
  {
    hide *;
    if e.Edit? { EditAfter(cfg, s, e, token); } else { OtherAfter(cfg, s, e, token); }
  }

  /** Sessions have the user whose password was compared, end by themselves a fixed time after
      they were opened, and are revoked exactly by an event that ends them. */
  lemma {:induction false} RowSince(cfg: Config, states: seq<State>, events: seq<Event>, p: nat, j: nat, token: string)
    requires IsPath(cfg, states, events) && p < j < |states|
    requires events[p].Open? && events[p].token == token
    ensures events[p].a in states[p].logins && token in states[j].rows
    ensures var r, user := states[j].rows[token], states[p].logins[events[p].a].user;
      && r.user == user && r.expires == states[p].now + cfg.ttl
      && (r.revoked <==> exists k | p < k < j :: Ends(cfg, states[k], events[k], token, user))
    decreases j
  {
    assert StepAt(cfg, states, events, j - 1);
    if j - 1 > p {
      RowSince(cfg, states, events, p, j - 1, token);
      RowAfter(cfg, states[j - 1], events[j - 1], token);
    }
  }

  lemma KeepsLogin(cfg: Config, s: State, e: Event, a: nat)
    requires Guard(cfg, s, e) && a in Apply(cfg, s, e).logins && !(e.Check? && e.a == a)
    ensures a in s.logins && s.logins[a] == Apply(cfg, s, e).logins[a] && !(e.Open? && e.a == a)
  {
    hide Accepts, MayEdit;
  }

  /** A session is only opened for a sign-in whose password was compared while its account was
      there and enabled. */
  lemma {:induction false} SignInWasChecked(cfg: Config, states: seq<State>, events: seq<Event>, p: nat, a: nat)
    returns (c: nat)
    requires IsRun(cfg, states, events) && p < |states| && a in states[p].logins
    ensures var user := states[p].logins[a].user;
      && c < p && events[c] == Check(a, user) && user in states[c].users
      && states[c].users[user].enabled && !states[c].users[user].deleted
      && forall k | c < k < p :: !(events[k].Open? && events[k].a == a)
    decreases p
  {
    assert StepAt(cfg, states, events, p - 1);
    if events[p - 1].Check? && events[p - 1].a == a {
      c := p - 1;
    } else {
      KeepsLogin(cfg, states[p - 1], events[p - 1], a);
      hide Apply, Guard;
      c := SignInWasChecked(cfg, states, events, p - 1, a);
    }
  }

  /** Last-seen is the time of the last event that wrote it. */
  lemma {:induction false} LastSeenSince(cfg: Config, states: seq<State>, events: seq<Event>, w: nat, j: nat,
                                         token: string)
    requires IsPath(cfg, states, events) && w < j < |states|
    requires (events[w].Open? && events[w].token == token)
             || (token in states[w].rows && Writes(states[w], events[w], token))
    requires forall k | w < k < j :: !Writes(states[k], events[k], token)
    ensures token in states[j].rows && states[j].rows[token].lastSeen == states[w].now
    decreases j
  {
    assert StepAt(cfg, states, events, j - 1);
    if j - 1 > w {
      LastSeenSince(cfg, states, events, w, j - 1, token);
      assert !Writes(states[j - 1], events[j - 1], token);
    }
    if token in states[j - 1].rows {
      RowAfter(cfg, states[j - 1], events[j - 1], token);
    }
  }

  /** A session opened at p, whose last-seen was last written at w, is accepted exactly if no
      event since then ended it, its time is not over, its user is still there and enabled, and
      it has not been idle too long. In particular nobody else's logout, password change or
      edit ends it. */
  lemma AcceptedIff(cfg: Config, states: seq<State>, events: seq<Event>, p: nat, w: nat, j: nat, token: string)
    requires IsPath(cfg, states, events) && p <= w < j < |states|
    requires events[p].Open? && events[p].token == token
    requires w == p || Writes(states[w], events[w], token)
    requires forall k | w < k < j :: !Writes(states[k], events[k], token)
    ensures events[p].a in states[p].logins
    ensures var user, s := states[p].logins[events[p].a].user, states[j];
      Accepts(cfg, s.users, s.rows, s.now, token)
      <==> && (forall k | p < k < j :: !Ends(cfg, states[k], events[k], token, user))
           && s.now < states[p].now + cfg.ttl && s.now - states[w].now <= cfg.idle
           && user in s.users && s.users[user].enabled && !s.users[user].deleted
  {
    RowSince(cfg, states, events, p, j, token);
    if w > p { RowSince(cfg, states, events, p, w, token); }
    LastSeenSince(cfg, states, events, w, j, token);
  }

  // ----- Accounts -----

  lemma AccountAfter(cfg: Config, s: State, e: Event, user: string)
    requires Guard(cfg, s, e) && user in s.users
    ensures var t := Apply(cfg, s, e);
      && user in t.users
      && t.users[user] == if Edits(cfg, s, e, user) then User(e.enabled && !e.removing, e.removing) else s.users[user]
  {
    hide Accepts;
  }

  /** An account is as the last edit of it that was carried out left it, and enabled if there
      was none since it was created. */
  lemma {:induction false} AccountIsAsLastEdited(cfg: Config, states: seq<State>, events: seq<Event>, k: nat, j: nat,
                                                 user: string)
    requires IsPath(cfg, states, events) && k < j < |states|
    requires events[k] == CreateUser(user) || Edits(cfg, states[k], events[k], user)
    requires forall m | k < m < j :: !Edits(cfg, states[m], events[m], user)
    ensures user in states[j].users
    ensures events[k].CreateUser? ==> states[j].users[user] == User(true, false)
    ensures events[k].Edit? ==>
              states[j].users[user] == User(events[k].enabled && !events[k].removing, events[k].removing)
    decreases j
  {
    assert StepAt(cfg, states, events, j - 1);
    if j - 1 > k {
      AccountIsAsLastEdited(cfg, states, events, k, j - 1, user);
      assert !Edits(cfg, states[j - 1], events[j - 1], user);
    }
    if user in states[j - 1].users {
      AccountAfter(cfg, states[j - 1], events[j - 1], user);
    }
  }

  // ----- Activity -----

  /** e opens the session, is an accepted request of it, or the end of one that was to write
      last-seen. */
  predicate Uses(cfg: Config, s: State, e: Event, token: string) {
    match e
    case Open(_, opened') => opened' == token
    case Authenticate(_, asked) => asked == token && Accepts(cfg, s.users, s.rows, s.now, token)
    case Refresh(a, _) => a in s.refreshes && s.refreshes[a] == token
    case _ => false
  }

  /** e is a refresh of the token that does not reach the table. */
  predicate Misses(s: State, e: Event, token: string) {
    e.Refresh? && !e.written && e.a in s.refreshes && s.refreshes[e.a] == token
  }

  lemma UseIsTouch(cfg: Config, s: State, e: Event, token: string)
    requires Guard(cfg, s, e)
    ensures var t := Apply(cfg, s, e);
      && (Uses(cfg, s, e, token) ==> token in t.touched && t.touched[token] == s.now)
      && (!Uses(cfg, s, e, token) && token in s.touched ==>
            token in t.touched && t.touched[token] == s.touched[token])
  {
  }

  lemma MissIsMissed(cfg: Config, s: State, e: Event, token: string)
    requires Guard(cfg, s, e) && token !in s.missed && !Misses(s, e, token)
    ensures token !in Apply(cfg, s, e).missed
  {
    hide Accepts;
  }

  lemma {:induction false} TouchedSince(cfg: Config, states: seq<State>, events: seq<Event>, u: nat, j: nat,
                                        token: string)
    requires IsPath(cfg, states, events) && u < j < |states| && Uses(cfg, states[u], events[u], token)
    requires forall k | u < k < j :: !Uses(cfg, states[k], events[k], token)
    ensures token in states[j].touched && states[j].touched[token] == states[u].now
    decreases j
  {
    hide Uses;
    assert StepAt(cfg, states, events, j - 1);
    UseIsTouch(cfg, states[j - 1], events[j - 1], token);
    if j - 1 > u {
      TouchedSince(cfg, states, events, u, j - 1, token);
      assert !Uses(cfg, states[j - 1], events[j - 1], token);
    }
  }

  lemma {:induction false} NotMissed(cfg: Config, states: seq<State>, events: seq<Event>, j: nat, token: string)
    requires IsRun(cfg, states, events) && j < |states|
    requires forall k | 0 <= k < j :: !Misses(states[k], events[k], token)
    ensures token !in states[j].missed
  {
    hide Misses;
    if j > 0 {
      NotMissed(cfg, states, events, j - 1, token);
      assert StepAt(cfg, states, events, j - 1) && !Misses(states[j - 1], events[j - 1], token);
      MissIsMissed(cfg, states[j - 1], events[j - 1], token);
    }
  }

  /** Though last-seen is not written at each request, what counts is the last request: with
      none at work, a session is refused if its last use is longer ago than the idle time, and
      one used up to a minute less ago is not refused for idling, if no refresh failed. */
  lemma LastUseDecides(cfg: Config, states: seq<State>, events: seq<Event>, u: nat, j: nat, token: string)
    requires IsRun(cfg, states, events) && u < j < |states| && token in states[j].rows
    requires Uses(cfg, states[u], events[u], token)
    requires forall k | u < k < j :: !Uses(cfg, states[k], events[k], token)
    requires forall a | a in states[j].refreshes :: states[j].refreshes[a] != token
    ensures var s, age := states[j], states[j].now - states[u].now;
      && (age > cfg.idle ==> !Accepts(cfg, s.users, s.rows, s.now, token))
      && (age <= cfg.idle - 60_000_000_000 && (forall k | 0 <= k < j :: !Misses(states[k], events[k], token)) ==>
            s.now - s.rows[token].lastSeen <= cfg.idle)
  {
    InvAlways(cfg, states, events, j);
    assert RowOk(states[j], token);
    TouchedSince(cfg, states, events, u, j, token);
    if forall k | 0 <= k < j :: !Misses(states[k], events[k], token) {
      NotMissed(cfg, states, events, j, token);
    }
  }

  /** An accepted request sets out to write last-seen exactly if that is more than a minute
      behind; so a session is not written at every request. */
  lemma WritesIfAMinuteBehind(cfg: Config, s: State, a: nat, token: string)
    requires Guard(cfg, s, Authenticate(a, token)) && Accepts(cfg, s.users, s.rows, s.now, token)
    ensures var t := Apply(cfg, s, Authenticate(a, token));
      && (a in t.refreshes <==> s.now - s.rows[token].lastSeen > 60_000_000_000)
      && (a in t.refreshes ==> t.refreshes[a] == token && Guard(cfg, t, Refresh(a, true)))
      && t.rows == s.rows
  {
  }
}
