/** The migration runner: one ledger row per migration that took effect, under runs that may
    stop, fail or crash at any point and be repeated with other lists. */
module Migrations {
  import opened Sorting

  /** sum is the SHA-256 of the SQL text, which it identifies. */
  datatype Migration = Migration(unit: string, version: int, sum: string)

  datatype Id = Id(unit: string, version: int)

  /** The ledger table, and every migration whose SQL was committed, in order. */
  datatype Db = Db(ledger: map<Id, string>, executed: seq<Migration>)

  /** What befalls one turn of the loop: nothing, a lookup or transaction that fails, a commit
      whose acknowledgement is lost, or the process dying. */
  datatype Fate = Fine | LookupFails | TxFails | AckLost | CrashBefore | CrashAfter

  datatype Verdict = Completed | Mismatch(at: nat) | Stopped(at: nat)

  function IdOf(m: Migration): Id {
    Id(m.unit, m.version)
  }

  /** The SQL and its ledger row are committed together. */
  function Committed(db: Db, m: Migration): Db {
    Db(db.ledger[IdOf(m) := m.sum], db.executed + [m])
  }

  /** The loop from turn i on, and where it ends. */
  function Run(db: Db, ms: seq<Migration>, fates: seq<Fate>, i: nat): (Db, Verdict)
    requires i <= |ms| && |fates| == |ms|
    decreases |ms| - i
  {
    if i == |ms| then (db, Completed)
    else if fates[i] == CrashBefore || fates[i] == LookupFails then (db, Stopped(i))
    else if IdOf(ms[i]) in db.ledger then
      if db.ledger[IdOf(ms[i])] != ms[i].sum then (db, Mismatch(i)) else Run(db, ms, fates, i + 1)
    else
      match fates[i]
      case Fine => Run(Committed(db, ms[i]), ms, fates, i + 1)
      case TxFails => (db, Stopped(i))
      case _ => (Committed(db, ms[i]), Stopped(i))
  }

  // ----- The runner -----

  class Runner {
    var ledger: map<Id, string>
    var executed: seq<Migration>

    function Now(): Db
      reads this
    {
      Db(ledger, executed)
    }

    constructor ()
      ensures Now() == Db(map[], [])
    {
      ledger, executed := map[], [];
    }

    method Migrate(ms: seq<Migration>, fates: seq<Fate>) returns (v: Verdict)
      requires |fates| == |ms|
      modifies this
      ensures (Now(), v) == Run(old(Now()), ms, fates, 0)
    {
      ghost var whole := Run(Now(), ms, fates, 0);
      for i := 0 to |ms|
        invariant Run(Now(), ms, fates, i) == whole
      {
        if fates[i] == CrashBefore || fates[i] == LookupFails {
          return Stopped(i);
        }
        var id := Id(ms[i].unit, ms[i].version);
        if id in ledger {
          if ledger[id] != ms[i].sum {
            return Mismatch(i);
          }
          continue;
        }
        if fates[i] == TxFails {
          return Stopped(i);
        }
        ledger := ledger[id := ms[i].sum];
        executed := executed + [ms[i]];
        if fates[i] != Fine {
          return Stopped(i);
        }
      }
      v := Completed;
    }
  }

  // ----- At most once, and recorded exactly then -----

  function Ids(ms: seq<Migration>): seq<Id> {
    seq(|ms|, i requires 0 <= i < |ms| => IdOf(ms[i]))
  }

  /** Each migration took effect at most once, and the ledger holds a row, with its checksum,
      for exactly those that did. */
  ghost predicate Faithful(db: Db) {
    && Distinct(Ids(db.executed))
    && (forall m | m in db.executed :: IdOf(m) in db.ledger && db.ledger[IdOf(m)] == m.sum)
    && (forall id | id in db.ledger :: exists m :: m in db.executed && IdOf(m) == id)
  }

  lemma CommittedFaithful(db: Db, m: Migration)
    requires Faithful(db) && IdOf(m) !in db.ledger
    ensures Faithful(Committed(db, m))
  {
    var t := Committed(db, m);
    forall i, j | 0 <= i < j < |t.executed| ensures Ids(t.executed)[i] != Ids(t.executed)[j] {
      assert t.executed[i] == db.executed[i] && db.executed[i] in db.executed;
      if j < |db.executed| { assert Ids(db.executed)[i] != Ids(db.executed)[j]; }
    }
    forall id | id in t.ledger ensures exists n :: n in t.executed && IdOf(n) == id {
      if id == IdOf(m) {
        assert m in t.executed;
      } else {
        var n :| n in db.executed && IdOf(n) == id;
        assert n in t.executed;
      }
    }
  }

  lemma {:induction false} RunFaithful(db: Db, ms: seq<Migration>, fates: seq<Fate>, i: nat)
    requires i <= |ms| && |fates| == |ms| && Faithful(db)
    ensures var (after, v) := Run(db, ms, fates, i);
      && Faithful(after)
      && db.executed <= after.executed
      && forall id | id in db.ledger :: id in after.ledger && after.ledger[id] == db.ledger[id]
    decreases |ms| - i
  {
    if i < |ms| {
      if IdOf(ms[i]) in db.ledger {
        RunFaithful(db, ms, fates, i + 1);
      } else {
        CommittedFaithful(db, ms[i]);
        RunFaithful(Committed(db, ms[i]), ms, fates, i + 1);
      }
    }
  }

  /** How far a run got. */
  function Reached(v: Verdict, ms: seq<Migration>): nat {
    match v
    case Completed => |ms|
    case Mismatch(at) => at
    case Stopped(at) => at
  }

  /** What befell the turn came after its commit. */
  predicate AfterCommit(fate: Fate) {
    fate == AckLost || fate == CrashAfter
  }

  /** What a run from turn i on leaves in the ledger, and why it ended there. */
  ghost predicate Leaves(db: Db, ms: seq<Migration>, fates: seq<Fate>, i: nat, after: Db, v: Verdict)
    requires |fates| == |ms|
  {
    var n := Reached(v, ms);
    && i <= n <= |ms| && (!v.Completed? ==> n < |ms|)
    && (forall k | i <= k < n :: IdOf(ms[k]) in after.ledger && after.ledger[IdOf(ms[k])] == ms[k].sum)
    && (forall id | id in after.ledger && id !in db.ledger ::
          exists k | i <= k <= n && k < |ms| && IdOf(ms[k]) == id :: k < n || (v.Stopped? && AfterCommit(fates[n])))
    && (v.Mismatch? ==> IdOf(ms[n]) in after.ledger && after.ledger[IdOf(ms[n])] != ms[n].sum)
    && (v.Stopped? ==> fates[n] != Fine)
    && (v.Stopped? && AfterCommit(fates[n]) ==>
          IdOf(ms[n]) in after.ledger && after.ledger[IdOf(ms[n])] == ms[n].sum)
    && (v.Stopped? && fates[n] == TxFails ==> IdOf(ms[n]) !in after.ledger)
  }

  lemma LeavesLater(db: Db, next: Db, ms: seq<Migration>, fates: seq<Fate>, i: nat, after: Db, v: Verdict)
    requires i < |ms| == |fates| && Leaves(next, ms, fates, i + 1, after, v)
    requires next == if IdOf(ms[i]) in db.ledger then db else Committed(db, ms[i])
    requires IdOf(ms[i]) in after.ledger && after.ledger[IdOf(ms[i])] == ms[i].sum
    ensures Leaves(db, ms, fates, i, after, v)
  {
    var n := Reached(v, ms);
    forall id | id in after.ledger && id !in db.ledger
      ensures exists k :: i <= k <= n && k < |ms| && IdOf(ms[k]) == id
                          && (k < n || (v.Stopped? && AfterCommit(fates[n])))
    {
      if id in next.ledger {
        assert IdOf(ms[i]) == id;
      } else {
        var k :| i + 1 <= k <= n && k < |ms| && IdOf(ms[k]) == id
                 && (k < n || (v.Stopped? && AfterCommit(fates[n])));
        assert i <= k <= n;
      }
    }
  }

  /** A run handles the migrations up to where it ends, each recorded with its checksum, and
      touches none after that: the one it stops at is recorded exactly if its commit was made. */
  lemma {:induction false} RunLeaves(db: Db, ms: seq<Migration>, fates: seq<Fate>, i: nat)
    requires i <= |ms| == |fates|
    ensures var (after, v) := Run(db, ms, fates, i);
      && Leaves(db, ms, fates, i, after, v)
      && forall id | id in db.ledger :: id in after.ledger && after.ledger[id] == db.ledger[id]
    decreases |ms| - i
  {
    if i < |ms| && fates[i] != CrashBefore && fates[i] != LookupFails {
      var held := IdOf(ms[i]) in db.ledger;
      if held && db.ledger[IdOf(ms[i])] == ms[i].sum {
        RunLeaves(db, ms, fates, i + 1);
        hide Leaves;
        var r := Run(db, ms, fates, i);
        LeavesLater(db, db, ms, fates, i, r.0, r.1);
      } else if !held && fates[i] == Fine {
        var next := Committed(db, ms[i]);
        RunLeaves(next, ms, fates, i + 1);
        hide Leaves;
        var r := Run(db, ms, fates, i);
        LeavesLater(db, next, ms, fates, i, r.0, r.1);
      }
    }
  }

  /** One start of the program: a list of migrations and what befell its run. */
  datatype Start = Start(ms: seq<Migration>, fates: seq<Fate>)

  /** Starts follow each other: the advisory lock admits one runner at a time. */
  function RunAll(db: Db, starts: seq<Start>): Db
    requires forall s | s in starts :: |s.fates| == |s.ms|
    decreases |starts|
  {
    if starts == [] then db
    else RunAll(Run(db, starts[0].ms, starts[0].fates, 0).0, starts[1..])
  }

  /** Over any sequence of runs, whatever lists they bring and wherever they die, no (module,
      version) is executed twice and the ledger records exactly what was. */
  lemma {:induction false} AtMostOnce(db: Db, starts: seq<Start>)
    requires forall s | s in starts :: |s.fates| == |s.ms|
    requires Faithful(db)
    ensures Faithful(RunAll(db, starts)) && db.executed <= RunAll(db, starts).executed
    decreases |starts|
  {
    if starts != [] {
      RunFaithful(db, starts[0].ms, starts[0].fates, 0);
      AtMostOnce(Run(db, starts[0].ms, starts[0].fates, 0).0, starts[1..]);
    }
  }

  /** So from a new database on, the ledger always records exactly what was executed, and
      nothing was twice. */
  lemma AlwaysFaithful(starts: seq<Start>)
    requires forall s | s in starts :: |s.fates| == |s.ms|
    ensures Faithful(RunAll(Db(map[], []), starts))
  {
    AtMostOnce(Db(map[], []), starts);
  }

  // ----- Prefixes -----

  /** The ledger holds exactly the first n migrations of the list. */
  ghost predicate HoldsPrefix(db: Db, ms: seq<Migration>, n: nat)
    requires n <= |ms|
  {
    && (forall k | 0 <= k < n :: IdOf(ms[k]) in db.ledger && db.ledger[IdOf(ms[k])] == ms[k].sum)
    && (forall id | id in db.ledger :: exists k :: 0 <= k < n && IdOf(ms[k]) == id)
  }

  lemma CommittedPrefix(db: Db, ms: seq<Migration>, n: nat)
    requires n < |ms| && HoldsPrefix(db, ms, n) && IdOf(ms[n]) !in db.ledger
    ensures HoldsPrefix(Committed(db, ms[n]), ms, n + 1)
  {
    var t := Committed(db, ms[n]);
    forall id | id in t.ledger ensures exists k :: 0 <= k < n + 1 && IdOf(ms[k]) == id {
      if id == IdOf(ms[n]) {
        assert 0 <= n < n + 1;
      } else {
        var k :| 0 <= k < n && IdOf(ms[k]) == id;
        assert 0 <= k < n + 1;
      }
    }
  }

  /** A version listed again, with the same text, is part of the prefix already. */
  lemma HeldPrefix(db: Db, ms: seq<Migration>, n: nat)
    requires n < |ms| && HoldsPrefix(db, ms, n)
    requires IdOf(ms[n]) in db.ledger && db.ledger[IdOf(ms[n])] == ms[n].sum
    ensures HoldsPrefix(db, ms, n + 1)
  {
    forall id | id in db.ledger ensures exists k :: 0 <= k < n + 1 && IdOf(ms[k]) == id {
      var k :| 0 <= k < n && IdOf(ms[k]) == id;
      assert 0 <= k < n + 1;
    }
  }

  /** One turn of the loop. */
  lemma Turn(db: Db, ms: seq<Migration>, fates: seq<Fate>, i: nat)
    requires i < |ms| == |fates|
    ensures var held := IdOf(ms[i]) in db.ledger;
      || (Run(db, ms, fates, i).0 == db && !Run(db, ms, fates, i).1.Completed?)
      || (held && db.ledger[IdOf(ms[i])] == ms[i].sum && Run(db, ms, fates, i) == Run(db, ms, fates, i + 1))
      || (!held && Run(db, ms, fates, i) == (Committed(db, ms[i]), Stopped(i)))
      || (!held && Run(db, ms, fates, i) == Run(Committed(db, ms[i]), ms, fates, i + 1))
  {
  }

  ghost predicate Extends(after: Db, v: Verdict, ms: seq<Migration>, n: nat) {
    exists m :: n <= m <= |ms| && HoldsPrefix(after, ms, m) && (v.Completed? ==> m == |ms|)
  }

  lemma ExtendsHere(db: Db, v: Verdict, ms: seq<Migration>, n: nat)
    requires n <= |ms| && HoldsPrefix(db, ms, n) && (v.Completed? ==> n == |ms|)
    ensures Extends(db, v, ms, n)
  {
  }

  lemma ExtendsLess(db: Db, v: Verdict, ms: seq<Migration>, n: nat)
    requires Extends(db, v, ms, n + 1)
    ensures Extends(db, v, ms, n)
  {
  }

  lemma PrefixHas(db: Db, ms: seq<Migration>, n: nat, i: nat)
    requires i < n <= |ms| && HoldsPrefix(db, ms, n)
    ensures IdOf(ms[i]) in db.ledger && db.ledger[IdOf(ms[i])] == ms[i].sum
  {
  }

  /** A ledger that holds a prefix of the list still does after any run of the list, at least
      as long a one; a completed run leaves the whole list. */
  lemma {:induction false} PrefixStaysPrefix(db: Db, ms: seq<Migration>, fates: seq<Fate>, i: nat, n: nat)
    requires i <= n <= |ms| == |fates| && HoldsPrefix(db, ms, n)
    ensures Extends(Run(db, ms, fates, i).0, Run(db, ms, fates, i).1, ms, n)
    decreases |ms| - i
  {
    if i == |ms| {
      ExtendsHere(db, Completed, ms, n);
      return;
    }
    Turn(db, ms, fates, i);
    hide *;
    var r := Run(db, ms, fates, i);
    if r.0 == db && !r.1.Completed? {
      ExtendsHere(db, r.1, ms, n);
    } else if i < n {
      PrefixHas(db, ms, n, i);
      PrefixStaysPrefix(db, ms, fates, i + 1, n);
    } else if IdOf(ms[n]) in db.ledger {
      HeldPrefix(db, ms, n);
      PrefixStaysPrefix(db, ms, fates, i + 1, n + 1);
      ExtendsLess(r.0, r.1, ms, n);
    } else {
      CommittedPrefix(db, ms, n);
      ExtendsHere(Committed(db, ms[n]), Stopped(i), ms, n + 1);
      PrefixStaysPrefix(Committed(db, ms[n]), ms, fates, i + 1, n + 1);
      ExtendsLess(r.0, r.1, ms, n);
    }
  }

  lemma NextIsNew(db: Db, ms: seq<Migration>, n: nat)
    requires n < |ms| && HoldsPrefix(db, ms, n) && Distinct(Ids(ms))
    ensures IdOf(ms[n]) !in db.ledger
  {
    forall k | 0 <= k < n ensures IdOf(ms[k]) != IdOf(ms[n]) {
      assert Ids(ms)[k] != Ids(ms)[n];
    }
  }

  /** With every version listed once such a run never meets a changed migration. */
  lemma {:induction false} DistinctPrefixNeverMismatches(db: Db, ms: seq<Migration>, fates: seq<Fate>, i: nat, n: nat)
    requires i <= n <= |ms| == |fates| && HoldsPrefix(db, ms, n) && Distinct(Ids(ms))
    ensures !Run(db, ms, fates, i).1.Mismatch?
    decreases |ms| - i
  {
    if i < n {
      PrefixHas(db, ms, n, i);
      DistinctPrefixNeverMismatches(db, ms, fates, i + 1, n);
    } else if i < |ms| {
      NextIsNew(db, ms, n);
      CommittedPrefix(db, ms, n);
      hide HoldsPrefix;
      DistinctPrefixNeverMismatches(Committed(db, ms[n]), ms, fates, i + 1, n + 1);
    }
  }

  /** Running again a list that has completed executes nothing and completes, unless the run
      itself is cut short. */
  lemma {:induction false} RerunExecutesNothing(db: Db, ms: seq<Migration>, fates: seq<Fate>, i: nat)
    requires i <= |ms| == |fates| && HoldsPrefix(db, ms, |ms|)
    ensures Run(db, ms, fates, i).0 == db
    ensures (forall k | 0 <= k < |fates| :: fates[k] != CrashBefore && fates[k] != LookupFails) ==>
        Run(db, ms, fates, i).1 == Completed
    decreases |ms| - i
  {
    if i < |ms| {
      assert IdOf(ms[i]) in db.ledger && db.ledger[IdOf(ms[i])] == ms[i].sum;
      RerunExecutesNothing(db, ms, fates, i + 1);
    }
  }

  /** A changed migration stops the run at its place: what the run does is done by the list
      cut off there, and it does not complete. */
  lemma {:induction false} MismatchStops(db: Db, ms: seq<Migration>, fates: seq<Fate>, i: nat, bad: nat)
    requires i <= bad < |ms| == |fates|
    requires IdOf(ms[bad]) in db.ledger && db.ledger[IdOf(ms[bad])] != ms[bad].sum
    ensures var (after, v) := Run(db, ms, fates, i);
      && Reached(v, ms) <= bad && !v.Completed?
      && after == Run(db, ms[..bad], fates[..bad], i).0
    decreases |ms| - i
  {
    if i < bad {
      assert ms[..bad][i] == ms[i] && fates[..bad][i] == fates[i];
      if IdOf(ms[i]) in db.ledger {
        MismatchStops(db, ms, fates, i + 1, bad);
      } else {
        MismatchStops(Committed(db, ms[i]), ms, fates, i + 1, bad);
      }
    }
  }

  // ----- Loading -----

  /** An entry of the migration directory; version is what the name's leading digits give. */
  datatype Source = Source(name: string, directory: bool, parses: bool, version: int, sum: string)

  const SUFFIX := ".up.sql"

  predicate IsMigration(e: Source) {
    !e.directory && |SUFFIX| <= |e.name| && e.name[|e.name| - |SUFFIX|..] == SUFFIX
  }

  function Listed(entries: seq<Source>, unit: string): seq<Migration> {
    if entries == [] then []
    else
      (if IsMigration(entries[0]) then [Migration(unit, entries[0].version, entries[0].sum)] else [])
      + Listed(entries[1..], unit)
  }

  predicate NotAfter(m: Migration, n: Migration) {
    m.version <= n.version
  }

  ghost predicate ByVersion(ms: seq<Migration>) {
    Sorted(NotAfter, ms)
  }

  lemma ListedAppend(entries: seq<Source>, e: Source, unit: string)
    ensures Listed(entries + [e], unit) == Listed(entries, unit) + Listed([e], unit)
  {
    if entries != [] {
      assert (entries + [e])[1..] == entries[1..] + [e];
      ListedAppend(entries[1..], e, unit);
    } else {
      assert entries + [e] == [e];
    }
  }

  predicate EndsWith(s: string, end: string) {
    |end| <= |s| && s[|s| - |end|..] == end
  }

  lemma {:induction false} ListedHas(entries: seq<Source>, unit: string, m: Migration)
    ensures m in Listed(entries, unit)
            <==> exists e :: e in entries && !e.directory && EndsWith(e.name, ".up.sql")
                             && m == Migration(unit, e.version, e.sum)
  {
    if entries != [] {
      ListedHas(entries[1..], unit, m);
      assert entries == [entries[0]] + entries[1..];
    }
  }

  /** sort.Slice on the versions. */
  method SortByVersion(ms: seq<Migration>) returns (r: seq<Migration>)
    ensures multiset(r) == multiset(ms) && ByVersion(r)
  {
    r := [];
    for i := 0 to |ms|
      invariant multiset(r) == multiset(ms[..i]) && ByVersion(r)
    {
      assert ms[..i + 1] == ms[..i] + [ms[i]];
      InsertSorted(NotAfter, ms[i], r);
      r := Insert(NotAfter, ms[i], r);
    }
    assert ms[..|ms|] == ms;
  }

  method Load(entries: seq<Source>, unit: string) returns (r: seq<Migration>, ok: bool)
    ensures ok <==> forall e | e in entries && IsMigration(e) :: e.parses
    ensures ok ==> multiset(r) == multiset(Listed(entries, unit)) && ByVersion(r)
    ensures ok ==> forall m :: m in r <==> exists e :: e in entries && !e.directory && EndsWith(e.name, ".up.sql")
                                             && m == Migration(unit, e.version, e.sum)
  {
    var out := [];
    for i := 0 to |entries|
      invariant out == Listed(entries[..i], unit)
      invariant forall e | e in entries[..i] && IsMigration(e) :: e.parses
    {
      assert entries[..i + 1] == entries[..i] + [entries[i]];
      ListedAppend(entries[..i], entries[i], unit);
      if IsMigration(entries[i]) {
        if !entries[i].parses {
          return [], false;
        }
        out := out + [Migration(unit, entries[i].version, entries[i].sum)];
      }
    }
    assert entries[..|entries|] == entries;
    r := SortByVersion(out);
    SameMembers(r, out);
    forall m { ListedHas(entries, unit, m); }
    ok := true;
  }

  /** With distinct versions the loaded list does not depend on the order of the directory,
      nor on how the sort treats equals: there is only one. */
  lemma LoadedListIsUnique(a: seq<Migration>, b: seq<Migration>)
    requires multiset(a) == multiset(b) && ByVersion(a) && ByVersion(b)
    requires forall i, j | 0 <= i < j < |a| :: a[i].version != a[j].version
    ensures a == b
  {
    forall x, y | x in a && y in a && NotAfter(x, y) && NotAfter(y, x) ensures x == y {
      var i, j :| 0 <= i < |a| && 0 <= j < |a| && a[i] == x && a[j] == y;
    }
    SortedIsUnique(NotAfter, a, b);
  }

  // ----- When a run completes -----

  predicate HasSum(db: Db, m: Migration) {
    Id(m.unit, m.version) in db.ledger ==> db.ledger[Id(m.unit, m.version)] == m.sum
  }

  predicate SameSum(m: Migration, n: Migration) {
    m.unit == n.unit && m.version == n.version ==> m.sum == n.sum
  }

  /** From turn i on the list agrees with the ledger and with itself. */
  ghost predicate Agrees(db: Db, ms: seq<Migration>, i: nat) {
    && (forall k | i <= k < |ms| :: HasSum(db, ms[k]))
    && (forall j, k | i <= j < k < |ms| :: SameSum(ms[j], ms[k]))
  }

  lemma AgreesStep(db: Db, next: Db, ms: seq<Migration>, i: nat)
    requires i < |ms| && HasSum(db, ms[i]) && next.ledger == db.ledger[IdOf(ms[i]) := ms[i].sum]
    ensures Agrees(db, ms, i) <==> Agrees(next, ms, i + 1)
  {
    if Agrees(next, ms, i + 1) {
      forall k | i <= k < |ms| ensures HasSum(db, ms[k]) {
        if k > i { assert HasSum(next, ms[k]); }
      }
      forall j, k | i <= j < k < |ms| ensures SameSum(ms[j], ms[k]) {
        if j == i { assert HasSum(next, ms[k]); }
      }
    }
    if Agrees(db, ms, i) {
      forall k | i + 1 <= k < |ms| ensures HasSum(next, ms[k]) {
        assert HasSum(db, ms[k]) && SameSum(ms[i], ms[k]);
      }
    }
  }

  /** Without a mishap a run completes exactly if every migration in the list agrees with its
      row, if it has one, and no version is listed twice with different texts. */
  lemma {:induction false} CompletesIffAgrees(db: Db, ms: seq<Migration>, fates: seq<Fate>, i: nat)
    requires i <= |ms| == |fates| && forall k | i <= k < |ms| :: fates[k] == Fine
    ensures Run(db, ms, fates, i).1.Completed? <==> Agrees(db, ms, i)
    decreases |ms| - i
  {
    if i < |ms| {
      var held := IdOf(ms[i]) in db.ledger;
      if held && db.ledger[IdOf(ms[i])] != ms[i].sum {
        assert !HasSum(db, ms[i]);
      } else {
        var next := if held then db else Committed(db, ms[i]);
        CompletesIffAgrees(next, ms, fates, i + 1);
        assert Run(db, ms, fates, i) == Run(next, ms, fates, i + 1);
        hide Run;
        AgreesStep(db, next, ms, i);
      }
    }
  }

  lemma {:induction false} WrongSumNeverCompletes(db: Db, ms: seq<Migration>, fates: seq<Fate>, i: nat, k: nat,
                                                  sum: string)
    requires i <= k < |ms| == |fates| && ms[k].sum != sum
    ensures IdOf(ms[k]) in db.ledger && db.ledger[IdOf(ms[k])] == sum ==> !Run(db, ms, fates, i).1.Completed?
    decreases |ms| - i
  {
    if i < k {
      WrongSumNeverCompletes(db, ms, fates, i + 1, k, sum);
      WrongSumNeverCompletes(Committed(db, ms[i]), ms, fates, i + 1, k, sum);
    }
  }

  /** With a repeated version and two contents, no run of the list completes. */
  lemma {:induction false} RepeatedVersionNeverCompletes(db: Db, ms: seq<Migration>, fates: seq<Fate>, i: nat, j: nat,
                                                         k: nat)
    requires i <= j < k < |ms| == |fates| && IdOf(ms[j]) == IdOf(ms[k]) && ms[j].sum != ms[k].sum
    ensures !Run(db, ms, fates, i).1.Completed?
    decreases |ms| - i
  {
    if fates[i] == CrashBefore || fates[i] == LookupFails {
    } else if i < j {
      RepeatedVersionNeverCompletes(db, ms, fates, i + 1, j, k);
      RepeatedVersionNeverCompletes(Committed(db, ms[i]), ms, fates, i + 1, j, k);
    } else {
      var sum := if IdOf(ms[j]) in db.ledger then db.ledger[IdOf(ms[j])] else ms[j].sum;
      if sum == ms[j].sum {
        WrongSumNeverCompletes(db, ms, fates, i + 1, k, ms[j].sum);
        WrongSumNeverCompletes(Committed(db, ms[j]), ms, fates, i + 1, k, ms[j].sum);
      }
    }
  }
}
