/** How login sessions end, and what a change of the account does to them. */
module SessionEnds {
  import opened Options
  import opened Sessions

  // ----- What is dead stays dead -----

  /** A session that can never be accepted again. */
  predicate Dead(cfg: Config, s: State, token: string) {
    && token in s.rows
    && (|| s.rows[token].revoked
        || s.rows[token].expires <= s.now
        || (s.rows[token].user in s.users && s.users[s.rows[token].user].deleted)
        || (Quiet(s, token) && s.now - s.rows[token].lastSeen > cfg.idle))
  }

  /** What no step takes back. */
  predicate Ages(s: State, t: State, token: string) {
    && token in s.rows && token in t.rows && s.now <= t.now
    && t.rows[token].user == s.rows[token].user && t.rows[token].expires == s.rows[token].expires
    && (s.rows[token].revoked ==> t.rows[token].revoked)
    && forall user | user in s.users && s.users[user].deleted :: user in t.users && t.users[user].deleted
  }

  lemma RevokeAges(s: State, t: State, user: string, token: string)
    requires token in s.rows && (t.rows == s.rows || t.rows == RevokeAll(s.rows, user)) && t.now == s.now
    requires forall u | u in s.users && s.users[u].deleted :: u in t.users && t.users[u].deleted
    ensures Ages(s, t, token)
  {
  }

  lemma OpenAges(cfg: Config, s: State, a: nat, entered: string, token: string)
    requires Guard(cfg, s, Open(a, entered)) && token in s.rows
    ensures Ages(s, Apply(cfg, s, Open(a, entered)), token)
  {
    assert entered != token;
  }

  lemma LogoutAges(cfg: Config, s: State, left: string, token: string)
    requires Guard(cfg, s, Logout(left)) && token in s.rows
    ensures Ages(s, Apply(cfg, s, Logout(left)), token)
  {
  }

  lemma RefreshAges(cfg: Config, s: State, a: nat, written: bool, token: string)
    requires Guard(cfg, s, Refresh(a, written)) && token in s.rows
    ensures Ages(s, Apply(cfg, s, Refresh(a, written)), token)
  {
  }

  lemma ChangeAges(cfg: Config, s: State, user: string, token: string)
    requires Guard(cfg, s, ChangePassword(user)) && token in s.rows
    ensures Ages(s, Apply(cfg, s, ChangePassword(user)), token)
  {
    hide Ages;
    RevokeAges(s, Apply(cfg, s, ChangePassword(user)), user, token);
  }

  lemma EditAges(cfg: Config, s: State, e: Event, token: string)
    requires Guard(cfg, s, e) && e.Edit? && token in s.rows
    ensures Ages(s, Apply(cfg, s, e), token)
  {
    hide Ages;
    var user := if cfg.canon(e.text).Some? then cfg.canon(e.text).value else e.text;
    RevokeAges(s, Apply(cfg, s, e), user, token);
  }

  /** The rest leave the rows alone, and no account deleted before is touched. */
  lemma OtherAges(cfg: Config, s: State, e: Event, token: string)
    requires Guard(cfg, s, e) && (e.Pass? || e.CreateUser? || e.Check? || e.Authenticate?) && token in s.rows
    ensures Ages(s, Apply(cfg, s, e), token)
  {
    hide Accepts;
    assert Apply(cfg, s, e).rows == s.rows;
  }

  lemma StepAges(cfg: Config, s: State, e: Event, token: string)
    requires Guard(cfg, s, e) && token in s.rows
    ensures Ages(s, Apply(cfg, s, e), token)
  {
    hide *;
    match e
    case ChangePassword(user) => ChangeAges(cfg, s, user, token);
    case Edit(_, _, _, _, _) => EditAges(cfg, s, e, token);
    case Refresh(a, written) => RefreshAges(cfg, s, a, written, token);
    case Open(a, entered) => OpenAges(cfg, s, a, entered, token);
    case Logout(left) => LogoutAges(cfg, s, left, token);
    case _ => OtherAges(cfg, s, e, token);
  }

  lemma IdleStays(cfg: Config, s: State, e: Event, token: string)
    requires Guard(cfg, s, e) && token in s.rows && Quiet(s, token) && s.now - s.rows[token].lastSeen > cfg.idle
    ensures var t := Apply(cfg, s, e); token in t.rows && Quiet(t, token) && t.now - t.rows[token].lastSeen > cfg.idle
  {
    var t := Apply(cfg, s, e);
    assert t.rows[token].lastSeen == s.rows[token].lastSeen;
  }

  lemma DeadStep(cfg: Config, s: State, e: Event, token: string)
    requires Guard(cfg, s, e) && Dead(cfg, s, token)
    ensures Dead(cfg, Apply(cfg, s, e), token)
  {
    hide Apply, Guard;
    StepAges(cfg, s, e, token);
    if Quiet(s, token) && s.now - s.rows[token].lastSeen > cfg.idle {
      IdleStays(cfg, s, e, token);
    }
  }

  predicate Takes(cfg: Config, s: State, token: string) {
    Accepts(cfg, s.users, s.rows, s.now, token)
  }

  /** Once revoked, expired, idle too long or without its user, a session is refused forever,
      whatever happens to the account. */
  lemma {:induction false} RefusedForever(cfg: Config, states: seq<State>, events: seq<Event>, i: nat, j: nat,
                                          token: string)
    requires IsPath(cfg, states, events) && i <= j < |states| && Dead(cfg, states[i], token)
    ensures Dead(cfg, states[j], token) && !Takes(cfg, states[j], token)
    decreases j
  {
    if i < j {
      RefusedForever(cfg, states, events, i, j - 1, token);
      assert StepAt(cfg, states, events, j - 1);
      DeadStep(cfg, states[j - 1], events[j - 1], token);
    }
  }

  lemma LogoutIsFinal(cfg: Config, states: seq<State>, events: seq<Event>, i: nat, j: nat, token: string)
    requires IsPath(cfg, states, events) && i < j < |states|
    requires events[i] == Logout(token) && token in states[i].rows
    ensures !Takes(cfg, states[j], token)
  {
    assert StepAt(cfg, states, events, i);
    RefusedForever(cfg, states, events, i + 1, j, token);
  }

  // ----- And nothing else is dead -----

  /** Some run leads from s to t. */
  ghost predicate Leads(cfg: Config, s: State, t: State) {
    exists states: seq<State>, events: seq<Event> ::
      IsPath(cfg, states, events) && states[0] == s && states[|states| - 1] == t
  }

  lemma LeadsNowhere(cfg: Config, s: State)
    ensures Leads(cfg, s, s)
  {
    assert IsPath(cfg, [s], []) && [s][0] == s && [s][|[s]| - 1] == s;
  }

  lemma LeadsOn(cfg: Config, s: State, t: State, e: Event)
    requires Leads(cfg, s, t) && Guard(cfg, t, e)
    ensures Leads(cfg, s, Apply(cfg, t, e))
  {
    hide Apply, Guard;
    var states: seq<State>, events: seq<Event> :|
      IsPath(cfg, states, events) && states[0] == s && states[|states| - 1] == t;
    var longer, more := states + [Apply(cfg, t, e)], events + [e];
    forall i | 0 <= i < |more| ensures StepAt(cfg, longer, more, i) {
      if i < |events| { assert StepAt(cfg, states, events, i); }
    }
    assert IsPath(cfg, longer, more) && longer[0] == s && longer[|longer| - 1] == Apply(cfg, t, e);
  }

  /** An account that is there can be active again, with nothing else changed, as long as any
      account is active at all. */
  lemma Revive(cfg: Config, s: State, user: string) returns (t: State)
    requires Inv(cfg, s) && user in s.users && !s.users[user].deleted && exists actor :: Active(s.users, actor)
    ensures Leads(cfg, s, t) && Active(t.users, user) && t.steps >= s.steps
    ensures t.now == s.now && t.rows == s.rows && t.logins == s.logins && t.refreshes == s.refreshes
  {
    LeadsNowhere(cfg, s);
    t := s;
    if !Active(s.users, user) {
      var actor :| Active(s.users, actor);
      var e := Edit(actor, user, true, false, false);
      LeadsOn(cfg, s, s, e);
      t := Apply(cfg, s, e);
    }
  }

  /** Writing the refresh of request a makes the session acceptable. */
  predicate Writes(cfg: Config, s: State, a: nat, token: string) {
    Guard(cfg, s, Refresh(a, true)) && s.refreshes[a] == token && Takes(cfg, Apply(cfg, s, Refresh(a, true)), token)
  }

  /** A session of an active account that is refused and not dead is held up by idling alone,
      and exactly then a refresh of its own is under way that makes it acceptable. */
  lemma RefreshInFlightRevives(cfg: Config, s: State, token: string)
    requires token in s.rows && cfg.idle >= 0 && Active(s.users, s.rows[token].user) && !Takes(cfg, s, token)
    ensures !Dead(cfg, s, token) <==> exists a :: Writes(cfg, s, a, token)
  {
    if !Dead(cfg, s, token) {
      assert !Quiet(s, token);
      var a :| a in s.refreshes && s.refreshes[a] == token;
      assert Writes(cfg, s, a, token);
    }
    if a: nat :| Writes(cfg, s, a, token) {
      if Dead(cfg, s, token) {
        DeadStep(cfg, s, Refresh(a, true), token);
        assert false;
      }
    }
  }

  /** A session is dead exactly if no run from here on ever accepts it again: one that is not
      is accepted once its account is active and the refresh under way, if it needs one, is
      written. */
  lemma DeadIffNeverAccepted(cfg: Config, s: State, token: string)
    requires Inv(cfg, s) && token in s.rows && cfg.idle >= 0 && exists actor :: Active(s.users, actor)
    ensures Dead(cfg, s, token) <==> forall t | Leads(cfg, s, t) :: !Takes(cfg, t, token)
  {
    if Dead(cfg, s, token) {
      forall t | Leads(cfg, s, t) ensures !Takes(cfg, t, token) {
        var states: seq<State>, events: seq<Event> :|
          IsPath(cfg, states, events) && states[0] == s && states[|states| - 1] == t;
        RefusedForever(cfg, states, events, 0, |states| - 1, token);
      }
    } else {
      assert RowOk(s, token);
      var t := Revive(cfg, s, s.rows[token].user);
      if !Takes(cfg, t, token) {
        RefreshInFlightRevives(cfg, t, token);
        var a :| Writes(cfg, t, a, token);
        LeadsOn(cfg, s, t, Refresh(a, true));
      }
    }
  }

  // ----- Changes of the account -----

  /** The events that revoke every session of the account. */
  predicate ClosesSessions(cfg: Config, s: State, e: Event, user: string) {
    match e
    case ChangePassword(u) => u == user
    case Edit(actor, text, enabled, removing, reset) =>
      && cfg.canon(text) == Some(user) && MayEdit(cfg, s.users, actor, text, enabled, removing, reset)
      && EditRevokes(enabled, removing, reset)
    case _ => false
  }

  lemma {:induction false} SameUser(cfg: Config, states: seq<State>, events: seq<Event>, i: nat, j: nat, token: string)
    requires IsPath(cfg, states, events) && i <= j < |states| && token in states[i].rows
    ensures token in states[j].rows && states[j].rows[token].user == states[i].rows[token].user
    decreases j
  {
    if i < j {
      SameUser(cfg, states, events, i, j - 1, token);
      assert StepAt(cfg, states, events, j - 1);
      StepAges(cfg, states[j - 1], events[j - 1], token);
    }
  }

  lemma {:induction false} InsertedSince(cfg: Config, states: seq<State>, events: seq<Event>, i: nat, j: nat,
                                         token: string)
    requires IsPath(cfg, states, events) && i <= j < |states| && token !in states[i].rows
    ensures states[i].steps <= states[j].steps
    ensures token in states[j].rows ==> states[j].rows[token].inserted >= states[i].steps
    decreases j
  {
    if i < j {
      InsertedSince(cfg, states, events, i, j - 1, token);
      assert StepAt(cfg, states, events, j - 1);
    }
  }

  /** After a password change, a reset, a disabling or a removal, even if the account is
      enabled again, only sessions inserted later are accepted. */
  lemma OnlyLaterSessionsSurvive(cfg: Config, states: seq<State>, events: seq<Event>, i: nat, j: nat, token: string)
    requires IsPath(cfg, states, events) && i < j < |states| && token in states[j].rows
    requires ClosesSessions(cfg, states[i], events[i], states[j].rows[token].user)
    requires Takes(cfg, states[j], token)
    ensures token !in states[i].rows && states[j].rows[token].inserted > states[i].steps
  {
    assert StepAt(cfg, states, events, i);
    var s, t := states[i], states[i + 1];
    if token in s.rows {
      SameUser(cfg, states, events, i, j, token);
      assert t.rows[token].revoked;
      RefusedForever(cfg, states, events, i + 1, j, token);
      assert false;
    }
    InsertedSince(cfg, states, events, i + 1, j, token);
  }

  /** The sign-in that a row or a pending login stands for, and whether it still matters. */
  datatype SignIn = SignIn(user: string, checked: nat)

  ghost predicate Known(s: State, x: SignIn) {
    || (exists a :: a in s.logins && SignIn(s.logins[a].user, s.logins[a].checked) == x)
    || (exists t :: t in s.rows && !s.rows[t].revoked && SignIn(s.rows[t].user, s.rows[t].checked) == x)
  }

  /** No sign-in of the account that compared its password before step n can still matter. */
  ghost predicate Newer(s: State, n: nat, user: string) {
    n <= s.steps && forall x: SignIn | Known(s, x) && x.user == user :: x.checked >= n
  }

  /** Only a comparison of a password and an opened session change the pending sign-ins. */
  lemma KeepsLogins(cfg: Config, s: State, e: Event)
    requires Guard(cfg, s, e) && !e.Check? && !e.Open?
    ensures Apply(cfg, s, e).logins == s.logins
  {
    hide Accepts, MayEdit, RevokeAll, EditedUsers;
  }

  lemma CheckOrOpen(cfg: Config, s: State, e: Event, a: nat)
    requires Guard(cfg, s, e) && (e.Check? || e.Open?) && a in Apply(cfg, s, e).logins
    ensures (a in s.logins && Apply(cfg, s, e).logins[a] == s.logins[a])
        || Apply(cfg, s, e).logins[a].checked == s.steps
  {
    hide Accepts, MayEdit, RevokeAll, EditedUsers;
  }

  lemma LoginsAreChecked(cfg: Config, s: State, e: Event, a: nat)
    requires Guard(cfg, s, e) && a in Apply(cfg, s, e).logins
    ensures (a in s.logins && Apply(cfg, s, e).logins[a] == s.logins[a])
        || Apply(cfg, s, e).logins[a].checked == s.steps
  {
    hide *;
    if e.Check? || e.Open? { CheckOrOpen(cfg, s, e, a); } else { KeepsLogins(cfg, s, e); }
  }

  lemma RowsAreSignedIn(cfg: Config, s: State, e: Event, k: string)
    requires Guard(cfg, s, e) && k in Apply(cfg, s, e).rows
    ensures var r := Apply(cfg, s, e).rows[k];
      if k in s.rows then r.checked == s.rows[k].checked
      else e.Open? && e.a in s.logins && r.user == s.logins[e.a].user && r.checked == s.logins[e.a].checked
  {
    hide Accepts, MayEdit;
  }

  /** A step brings no sign-in but the one whose password it compares. */
  lemma NoOtherSignIn(cfg: Config, s: State, e: Event, x: SignIn)
    requires Guard(cfg, s, e) && Known(Apply(cfg, s, e), x)
    ensures Known(s, x) || x.checked == s.steps
  {
    hide Apply, Guard;
    var t := Apply(cfg, s, e);
    if a :| a in t.logins && SignIn(t.logins[a].user, t.logins[a].checked) == x {
      LoginsAreChecked(cfg, s, e, a);
    } else {
      var k :| k in t.rows && !t.rows[k].revoked && SignIn(t.rows[k].user, t.rows[k].checked) == x;
      RowsAreSignedIn(cfg, s, e, k);
      if k in s.rows { StepAges(cfg, s, e, k); }
    }
  }

  lemma NewerStep(cfg: Config, s: State, e: Event, n: nat, user: string)
    requires Guard(cfg, s, e) && Newer(s, n, user)
    ensures Newer(Apply(cfg, s, e), n, user)
  {
    assert Apply(cfg, s, e).steps == s.steps + 1;
    hide Apply, Guard;
    var t := Apply(cfg, s, e);
    forall x: SignIn | Known(t, x) && x.user == user ensures x.checked >= n {
      NoOtherSignIn(cfg, s, e, x);
    }
  }

  lemma {:induction false} NewerStays(cfg: Config, states: seq<State>, events: seq<Event>, i: nat, j: nat, n: nat,
                                      user: string)
    requires IsPath(cfg, states, events) && i <= j < |states| && Newer(states[i], n, user)
    ensures Newer(states[j], n, user)
    decreases j
  {
    if i < j {
      NewerStays(cfg, states, events, i, j - 1, n, user);
      assert StepAt(cfg, states, events, j - 1);
      NewerStep(cfg, states[j - 1], events[j - 1], n, user);
    }
  }

  ghost predicate InFlight(s: State, user: string) {
    exists a :: a in s.logins && s.logins[a].user == user
  }

  lemma NewerAfterChange(cfg: Config, s: State, e: Event, user: string)
    requires Guard(cfg, s, e) && ClosesSessions(cfg, s, e, user) && !InFlight(s, user)
    ensures Newer(Apply(cfg, s, e), s.steps, user)
  {
    assert forall a | a in s.logins :: s.logins[a].user != user;
  }

  /** If no sign-in of the account is in flight at the change, every session of it accepted
      later had its password compared after the change. */
  lemma OnlyNewSignInsSurvive(cfg: Config, states: seq<State>, events: seq<Event>, i: nat, j: nat, token: string)
    requires IsPath(cfg, states, events) && i < j < |states| && token in states[j].rows
    requires ClosesSessions(cfg, states[i], events[i], states[j].rows[token].user)
    requires !InFlight(states[i], states[j].rows[token].user) && Takes(cfg, states[j], token)
    ensures states[j].rows[token].checked >= states[i].steps
  {
    assert StepAt(cfg, states, events, i);
    NewerAfterChange(cfg, states[i], events[i], states[j].rows[token].user);
    NewerStays(cfg, states, events, i + 1, j, states[i].steps, states[j].rows[token].user);
    assert Known(states[j], SignIn(states[j].rows[token].user, states[j].rows[token].checked));
  }

  /** If one is in flight, it can still open a session that is accepted, as soon as the account
      is active. */
  lemma InFlightSignInSurvives(cfg: Config, s: State, e: Event, a: nat, token: string) returns (v: State)
    requires Inv(cfg, s) && Guard(cfg, s, e) && a in s.logins && ClosesSessions(cfg, s, e, s.logins[a].user)
    requires cfg.ttl > 0 && cfg.idle >= 0 && token !in s.rows
    requires var users := Apply(cfg, s, e).users;
      s.logins[a].user in users && !users[s.logins[a].user].deleted && exists actor :: Active(users, actor)
    ensures Leads(cfg, Apply(cfg, s, e), v) && Takes(cfg, v, token)
    ensures v.rows[token].user == s.logins[a].user && v.rows[token].checked == s.logins[a].checked < s.steps
  {
    var t := Apply(cfg, s, e);
    InvStep(cfg, s, e);
    v := Revive(cfg, t, s.logins[a].user);
    assert v.logins == t.logins == s.logins && token !in v.rows;
    LeadsOn(cfg, t, v, Open(a, token));
    v := Apply(cfg, v, Open(a, token));
  }

  /** Some run from s on ends with an accepted session of the account whose password was
      compared before step n. */
  ghost predicate OldSignInReturns(cfg: Config, s: State, n: nat, user: string) {
    exists t, token ::
      Leads(cfg, s, t) && Takes(cfg, t, token) && t.rows[token].user == user && t.rows[token].checked < n
  }

  /** There is always another token. */
  lemma {:induction false} FreshToken(keys: set<string>) returns (token: string)
    ensures token !in keys && forall k | k in keys :: |k| < |token|
    decreases |keys|
  {
    if keys == {} {
      token := "t";
    } else {
      var k :| k in keys;
      var shorter := FreshToken(keys - {k});
      token := seq(|shorter| + |k| + 1, i => 't');
      assert forall other | other in keys :: other == k || other in keys - {k};
    }
  }

  /** So a change of the account shuts out every sign-in made before it exactly if none was in
      flight. */
  lemma ChangeShutsOutIffNoneInFlight(cfg: Config, s: State, e: Event, user: string)
    requires Inv(cfg, s) && Guard(cfg, s, e) && ClosesSessions(cfg, s, e, user) && cfg.ttl > 0 && cfg.idle >= 0
    requires var users := Apply(cfg, s, e).users;
      user in users && !users[user].deleted && exists actor :: Active(users, actor)
    ensures OldSignInReturns(cfg, Apply(cfg, s, e), s.steps, user) <==> InFlight(s, user)
  {
    var after := Apply(cfg, s, e);
    if InFlight(s, user) {
      var a :| a in s.logins && s.logins[a].user == user;
      var token := FreshToken(s.rows.Keys);
      var v := InFlightSignInSurvives(cfg, s, e, a, token);
      assert Leads(cfg, after, v) && Takes(cfg, v, token);
    } else {
      NewerAfterChange(cfg, s, e, user);
      forall t, token | Leads(cfg, after, t) && Takes(cfg, t, token) && t.rows[token].user == user
        ensures t.rows[token].checked >= s.steps
      {
        var states: seq<State>, events: seq<Event> :|
          IsPath(cfg, states, events) && states[0] == after && states[|states| - 1] == t;
        NewerStays(cfg, states, events, 0, |states| - 1, s.steps, user);
        assert Known(t, SignIn(t.rows[token].user, t.rows[token].checked));
      }
    }
  }

  // ----- Both do happen -----

  /** The defaults: twelve hours, and thirty minutes idle. */
  const DEFAULTS := Config(720 * MINUTE, 30 * MINUTE, (s: string) => Some(s))

  /** The account "u" has its password compared. */
  const CHECKED := INIT.(steps := 2, users := map["u" := User(true, false)], logins := map[0 := Pending("u", 1)])

  lemma ReachChecked()
    ensures Leads(DEFAULTS, INIT, CHECKED)
  {
    hide Leads;
    LeadsNowhere(DEFAULTS, INIT);
    LeadsOn(DEFAULTS, INIT, INIT, CreateUser("u"));
    LeadsOn(DEFAULTS, INIT, Apply(DEFAULTS, INIT, CreateUser("u")), Check(0, "u"));
  }

  /** A session opened at the start, asked for after two minutes and again after 33, while the
      first request is still about to refresh it. */
  function Lingering(lastSeen: int): State {
    State(33 * MINUTE, 6, map["u" := User(true, false)],
          map["k" := Session("u", lastSeen, 720 * MINUTE, false, 1, 2)], map[],
          map[0 := "k"], map["k" := 2 * MINUTE], {})
  }

  lemma ReachLingering()
    ensures Leads(DEFAULTS, INIT, Lingering(0))
  {
    hide Leads;
    ReachChecked();
    LeadsOn(DEFAULTS, INIT, CHECKED, Open(0, "k"));
    var s := Apply(DEFAULTS, CHECKED, Open(0, "k"));
    assert s.logins == map[];
    LeadsOn(DEFAULTS, INIT, s, Pass(2 * MINUTE));
    s := Apply(DEFAULTS, s, Pass(2 * MINUTE));
    LeadsOn(DEFAULTS, INIT, s, Authenticate(0, "k"));
    s := Apply(DEFAULTS, s, Authenticate(0, "k"));
    LeadsOn(DEFAULTS, INIT, s, Pass(31 * MINUTE));
    assert Apply(DEFAULTS, s, Pass(31 * MINUTE)) == Lingering(0);
  }

  /** A refresh written late brings a session back that was already refused for idling, so
      idling is only final once no request is at work. */
  lemma LateRefreshRevives()
    ensures exists s: State :: Leads(DEFAULTS, INIT, s) && Guard(DEFAULTS, s, Refresh(0, true))
              && !Takes(DEFAULTS, s, "k")
              && (var t := Apply(DEFAULTS, s, Refresh(0, true)); Takes(DEFAULTS, t, "k"))
  {
    hide Leads;
    ReachLingering();
    var s := Lingering(0);
    var t := Apply(DEFAULTS, s, Refresh(0, true));
    assert !Takes(DEFAULTS, s, "k") && Takes(DEFAULTS, t, "k");
  }

  /** A sign-in that compared the old password before a change of it may insert its session
      afterwards, and is then accepted. */
  lemma SignInInFlightSurvives()
    ensures exists s: State ::
              && Leads(DEFAULTS, INIT, s) && s.logins == CHECKED.logins && Guard(DEFAULTS, s, ChangePassword("u"))
              && (var t := Apply(DEFAULTS, s, ChangePassword("u"));
                  Guard(DEFAULTS, t, Open(0, "k"))
                  && (var v := Apply(DEFAULTS, t, Open(0, "k")); Takes(DEFAULTS, v, "k")))
  {
    hide Leads;
    ReachChecked();
    var t := Apply(DEFAULTS, CHECKED, ChangePassword("u"));
    var v := Apply(DEFAULTS, t, Open(0, "k"));
    assert Takes(DEFAULTS, v, "k");
  }
}
