/** The quota walk that an upload makes over its session directory. */
module Quota {
  import opened Sorting
  import opened Sums

  const MAX_FILE_BYTES: int := 32 * 1024 * 1024

  const SESSION_FILE_QUOTA: int := 128 * 1024 * 1024

  const MAX_ENTRIES: int := 4096

  const INT64_MAX: int := 0x7fff_ffff_ffff_ffff

  /** What the walk meets: a directory, a symbolic link, or a file with its size. */
  datatype Visit = AtDir | AtLink | AtFile(size: nat)

  /** A tree as it lies on disk; names matter only directly below the session root. */
  datatype Node = File(data: seq<bv8>) | Link | Dir(children: seq<Node>)

  datatype Measure = Bytes | Entries

  function Size(v: Visit): nat {
    if v.AtFile? then v.size else 0
  }

  function Sizes(visits: seq<Visit>): nat {
    if visits == [] then 0 else Size(visits[0]) + Sizes(visits[1..])
  }

  /** Sizes far from the 64-bit limit, so that adding them cannot wrap. */
  ghost predicate Plausible(visits: seq<Visit>) {
    forall v | v in visits :: Size(v) <= INT64_MAX - SESSION_FILE_QUOTA
  }

  /** 64-bit two's complement arithmetic. */
  function Int64(x: int): (r: int)
    ensures -INT64_MAX - 1 <= r <= INT64_MAX
  {
    (x + INT64_MAX + 1) % (2 * (INT64_MAX + 1)) - (INT64_MAX + 1)
  }

  lemma Int64Fits(x: int)
    requires -INT64_MAX - 1 <= x <= INT64_MAX
    ensures Int64(x) == x
  {
  }

  /** What the walk answers, in 64-bit arithmetic, when `used` bytes and `count` entries have
      gone by and `visits` are still to come. */
  function Verdict(visits: seq<Visit>, n: nat, used: int, count: nat): bool {
    visits == [] ||
    (count + 1 <= MAX_ENTRIES &&
     var now := Int64(used + Size(visits[0]));
     (visits[0] == AtLink || Int64(now + n) <= SESSION_FILE_QUOTA) && Verdict(visits[1..], n, now, count + 1))
  }

  method Walk(visits: seq<Visit>, n: nat) returns (ok: bool)
    ensures ok == Verdict(visits, n, 0, 0)
  {
    hide Int64;
    var used, count := 0, 0;
    for i := 0 to |visits|
      invariant count == i && -INT64_MAX - 1 <= used <= INT64_MAX
      invariant Verdict(visits[i..], n, used, count) == Verdict(visits, n, 0, 0)
    {
      assert visits[i..][0] == visits[i] && visits[i..][1..] == visits[i + 1..];
      Int64Fits(used);
      count := count + 1;
      if count > MAX_ENTRIES {
        return false;
      }
      if visits[i] != AtLink {
        if visits[i].AtFile? {
          used := Int64(used + visits[i].size);
        }
        if Int64(used + n) > SESSION_FILE_QUOTA {
          return false;
        }
      }
    }
    ok := true;
  }

  lemma {:induction false} VerdictExact(visits: seq<Visit>, n: nat, used: nat, count: nat)
    requires n <= MAX_FILE_BYTES && Plausible(visits) && used + n <= SESSION_FILE_QUOTA && count <= MAX_ENTRIES
    ensures Verdict(visits, n, used, count) <==>
              count + |visits| <= MAX_ENTRIES && used + Sizes(visits) + n <= SESSION_FILE_QUOTA
  {
    hide Int64;
    if visits != [] {
      var v := visits[0];
      assert Size(v) <= INT64_MAX - SESSION_FILE_QUOTA;
      Int64Fits(used + Size(v));
      Int64Fits(used + Size(v) + n);
      if used + Size(v) + n <= SESSION_FILE_QUOTA && count + 1 <= MAX_ENTRIES {
        VerdictExact(visits[1..], n, used + Size(v), count + 1);
      }
    }
  }

  /** For plausible sizes the early exits refuse exactly when the whole directory has too
      many entries or, with the n bytes to be added, too many bytes. */
  lemma WalkAcceptsIffWithinLimits(visits: seq<Visit>, n: nat)
    requires n <= MAX_FILE_BYTES && Plausible(visits)
    ensures Verdict(visits, n, 0, 0) <==> |visits| <= 4096 && Sizes(visits) + n <= 128 * 1024 * 1024
  {
    VerdictExact(visits, n, 0, 0);
  }

  /** No file is larger than z. */
  ghost predicate UpTo(visits: seq<Visit>, z: nat) {
    forall v | v in visits :: Size(v) <= z
  }

  /** The walk's answer for this directory and upload is the right one. */
  predicate Right(visits: seq<Visit>, n: nat) {
    Verdict(visits, n, 0, 0) <==> |visits| <= 4096 && Sizes(visits) + n <= 128 * 1024 * 1024
  }

  lemma Wraps(x: int)
    requires INT64_MAX < x <= INT64_MAX + SESSION_FILE_QUOTA
    ensures Int64(x) == x - 2 * (INT64_MAX + 1)
  {
  }

  /** Beyond that the sum wraps: with a full quota before it, a larger file is let in. */
  lemma LargerFileIsOverlooked(z: nat)
    requires INT64_MAX - SESSION_FILE_QUOTA < z <= INT64_MAX
    ensures Verdict([AtDir, AtFile(SESSION_FILE_QUOTA), AtFile(z)], 0, 0, 0)
    ensures !Verdict([AtDir, AtFile(z), AtFile(SESSION_FILE_QUOTA)], 0, 0, 0)
    ensures Sizes([AtDir, AtFile(SESSION_FILE_QUOTA), AtFile(z)]) > SESSION_FILE_QUOTA
  {
    var q: nat := SESSION_FILE_QUOTA;
    hide Int64;
    Int64Fits(0);
    Int64Fits(q);
    Int64Fits(z);
    Wraps(q + z);
    Int64Fits(q + z - 2 * (INT64_MAX + 1));
    var first, second := [AtDir, AtFile(q), AtFile(z)], [AtDir, AtFile(z), AtFile(q)];
    assert first[1..] == [AtFile(q), AtFile(z)] && second[1..] == [AtFile(z), AtFile(q)];
    assert first[1..][1..] == [AtFile(z)] && [AtFile(z)][1..] == [];
    assert Verdict([AtFile(z)], 0, q, 2);
    assert Verdict(first[1..], 0, 0, 1);
    assert !Verdict(second[1..], 0, 0, 1);
    assert Sizes(first) == Sizes(first[1..]) >= Sizes([AtFile(z)]);
  }

  /** So the walk is right for all directories and uploads exactly if no file in them is
      larger than 2^63 - 1 less the quota. */
  lemma WalkIsRightIff(z: nat)
    requires z <= INT64_MAX
    ensures (forall visits, n: nat | UpTo(visits, z) && n <= MAX_FILE_BYTES :: Right(visits, n))
            <==> z <= INT64_MAX - SESSION_FILE_QUOTA
  {
    if z <= INT64_MAX - SESSION_FILE_QUOTA {
      forall visits, n: nat | UpTo(visits, z) && n <= MAX_FILE_BYTES ensures Right(visits, n) {
        WalkAcceptsIffWithinLimits(visits, n);
      }
    } else {
      LargerFileIsOverlooked(z);
      assert !Right([AtDir, AtFile(SESSION_FILE_QUOTA), AtFile(z)], 0);
      assert UpTo([AtDir, AtFile(SESSION_FILE_QUOTA), AtFile(z)], z);
    }
  }

  /** Two enumerations of one directory get the same answer. */
  predicate SameAnswer(a: seq<Visit>, b: seq<Visit>, n: nat) {
    Verdict(a, n, 0, 0) == Verdict(b, n, 0, 0)
  }

  lemma SameSizes(a: seq<Visit>, b: seq<Visit>, z: nat)
    requires UpTo(a, z) && multiset(a) == multiset(b)
    ensures UpTo(b, z)
  {
    forall v | v in b ensures Size(v) <= z {
      assert v in multiset(b);
    }
  }

  lemma {:induction false} SizesAppend(visits: seq<Visit>, more: seq<Visit>)
    ensures Sizes(visits + more) == Sizes(visits) + Sizes(more)
  {
    if visits == [] {
      assert visits + more == more;
    } else {
      SizesAppend(visits[1..], more);
      assert (visits + more)[1..] == visits[1..] + more;
    }
  }

  lemma PrefixSizes(visits: seq<Visit>, i: nat)
    requires i < |visits|
    ensures Sizes(visits[..i + 1]) == Sizes(visits[..i]) + Size(visits[i])
  {
    assert visits[..i + 1] == visits[..i] + [visits[i]];
    SizesAppend(visits[..i], [visits[i]]);
  }

  lemma SizesWithout(visits: seq<Visit>, i: nat)
    requires i < |visits|
    ensures Sizes(visits) == Size(visits[i]) + Sizes(visits[..i] + visits[i + 1..])
  {
    hide Sizes;
    PrefixSizes(visits, i);
    assert visits == visits[..i + 1] + visits[i + 1..];
    SizesAppend(visits[..i + 1], visits[i + 1..]);
    SizesAppend(visits[..i], visits[i + 1..]);
  }

  lemma DropBoth(a: seq<Visit>, b: seq<Visit>, i: nat)
    requires a != [] && i < |b| && b[i] == a[0] && multiset(a) == multiset(b)
    ensures multiset(a[1..]) == multiset(b[..i] + b[i + 1..])
  {
    assert a == [a[0]] + a[1..];
    assert b == b[..i] + ([b[i]] + b[i + 1..]);
    assert multiset(b) == multiset(b[..i]) + multiset([b[i]] + b[i + 1..]);
    forall v ensures multiset(a[1..])[v] == multiset(b[..i] + b[i + 1..])[v] {
      assert multiset(a)[v] == multiset(b)[v];
    }
  }

  /** Neither the number of entries nor their exact total depends on the order in which the
      directory is enumerated. */
  lemma {:induction false} SizesIgnoreOrder(a: seq<Visit>, b: seq<Visit>)
    requires multiset(a) == multiset(b)
    ensures |a| == |b| && Sizes(a) == Sizes(b)
    decreases |a|
  {
    if a == [] {
      assert |b| == |multiset(a)|;
    } else {
      assert a[0] in multiset(b);
      var i :| 0 <= i < |b| && b[i] == a[0];
      SizesWithout(b, i);
      DropBoth(a, b, i);
      SizesIgnoreOrder(a[1..], b[..i] + b[i + 1..]);
    }
  }

  /** The same holds of the order of enumeration: it is irrelevant exactly up to that size. */
  lemma OrderIsIrrelevantIff(z: nat)
    requires z <= INT64_MAX
    ensures (forall a, b, n: nat | UpTo(a, z) && multiset(a) == multiset(b) && n <= MAX_FILE_BYTES ::
               SameAnswer(a, b, n))
            <==> z <= INT64_MAX - SESSION_FILE_QUOTA
  {
    if z <= INT64_MAX - SESSION_FILE_QUOTA {
      forall a, b, n: nat | UpTo(a, z) && multiset(a) == multiset(b) && n <= MAX_FILE_BYTES
        ensures SameAnswer(a, b, n)
      {
        SameSizes(a, b, z);
        SizesIgnoreOrder(a, b);
        WalkAcceptsIffWithinLimits(a, n);
        WalkAcceptsIffWithinLimits(b, n);
      }
    } else {
      LargerFileIsOverlooked(z);
      var a, b := [AtDir, AtFile(SESSION_FILE_QUOTA), AtFile(z)], [AtDir, AtFile(z), AtFile(SESSION_FILE_QUOTA)];
      assert !SameAnswer(a, b, 0) && UpTo(a, z);
      assert multiset(a) == multiset(b);
    }
  }

  // ----- Directories -----

  /** How many bytes of files, and how many entries, a tree holds. */
  function Weigh(t: Node, m: Measure): nat {
    match t
    case File(data) => if m == Bytes then |data| else 1
    case Link => if m == Bytes then 0 else 1
    case Dir(children) => WeighAll(children, m) + if m == Bytes then 0 else 1
  }

  function WeighAll(ts: seq<Node>, m: Measure): nat {
    if ts == [] then 0 else Weigh(ts[0], m) + WeighAll(ts[1..], m)
  }

  /** The visits of a walk below t, parents before children. */
  function Visits(t: Node): seq<Visit> {
    match t
    case File(data) => [AtFile(|data|)]
    case Link => [AtLink]
    case Dir(children) => [AtDir] + VisitsAll(children)
  }

  function VisitsAll(ts: seq<Node>): seq<Visit> {
    if ts == [] then [] else Visits(ts[0]) + VisitsAll(ts[1..])
  }

  lemma {:induction false} VisitsWeigh(t: Node)
    ensures |Visits(t)| == Weigh(t, Entries) && Sizes(Visits(t)) == Weigh(t, Bytes)
  {
    if t.Dir? {
      VisitsAllWeigh(t.children);
      SizesAppend([AtDir], VisitsAll(t.children));
    }
  }

  lemma {:induction false} VisitsAllWeigh(ts: seq<Node>)
    ensures |VisitsAll(ts)| == WeighAll(ts, Entries) && Sizes(VisitsAll(ts)) == WeighAll(ts, Bytes)
  {
    if ts != [] {
      VisitsWeigh(ts[0]);
      VisitsAllWeigh(ts[1..]);
      SizesAppend(Visits(ts[0]), VisitsAll(ts[1..]));
    }
  }

  /** No file in the tree is so large that adding it could wrap. */
  predicate Modest(t: Node) {
    match t
    case File(data) => |data| <= INT64_MAX - SESSION_FILE_QUOTA
    case Link => true
    case Dir(children) => forall i | 0 <= i < |children| :: Modest(children[i])
  }

  lemma {:induction false} VisitsPlausible(t: Node)
    requires Modest(t)
    ensures Plausible(Visits(t))
  {
    if t.Dir? { VisitsAllPlausible(t.children); }
  }

  lemma {:induction false} VisitsAllPlausible(ts: seq<Node>)
    requires forall i | 0 <= i < |ts| :: Modest(ts[i])
    ensures Plausible(VisitsAll(ts))
  {
    if ts != [] {
      VisitsPlausible(ts[0]);
      VisitsAllPlausible(ts[1..]);
    }
  }

  /** Whatever order the names of a directory are enumerated in, walking it meets the entries
      and the bytes that it holds. */
  function Listed(files: map<string, Node>, names: seq<string>): seq<Node>
    requires forall n | n in names :: n in files
  {
    seq(|names|, i requires 0 <= i < |names| => files[names[i]])
  }

  lemma EmptyTotal(files: map<string, Node>, m: Measure)
    requires files == map[]
    ensures Total(files, Weigh, m) == 0
  {
  }

  lemma {:induction false} ListedWeighs(files: map<string, Node>, names: seq<string>, m: Measure)
    requires Distinct(names)
    requires forall n :: n in names <==> n in files
    ensures WeighAll(Listed(files, names), m) == Total(files, Weigh, m)
    decreases |names|
  {
    hide Total;
    if names == [] {
      assert files == map[];
      EmptyTotal(files, m);
    } else {
      var rest := files - {names[0]};
      TotalRemove(files, Weigh, names[0], m);
      assert forall n :: n in names[1..] <==> n in rest;
      ListedWeighs(rest, names[1..], m);
      assert Listed(files, names)[1..] == Listed(rest, names[1..]);
    }
  }
}
