/** Byte-wise string order and the sorting that makes visiting orders canonical.
    Go compares strings byte by byte; on UTF-8 that is the order of the code points. */
module Names {
  import opened Sorting

  predicate Leq(a: string, b: string) {
    a == [] || (b != [] && (a[0] < b[0] || (a[0] == b[0] && Leq(a[1..], b[1..]))))
  }

  /** a is a proper beginning of b, or has the smaller character where they first differ. */
  ghost predicate Before(a: string, b: string) {
    exists k | 0 <= k <= |a| && k < |b| :: a[..k] == b[..k] && (k < |a| ==> a[k] < b[k])
  }

  lemma LongerAgree(c: char, a: string, b: string, k: nat)
    requires k <= |a| && k <= |b|
    ensures ([c] + a)[..k + 1] == ([c] + b)[..k + 1] <==> a[..k] == b[..k]
  {
    assert ([c] + a)[..k + 1] == [c] + a[..k] && ([c] + b)[..k + 1] == [c] + b[..k];
    assert ([c] + a[..k])[1..] == a[..k] && ([c] + b[..k])[1..] == b[..k];
  }

  /** A character put before both changes nothing. */
  lemma BeforeExtends(c: char, a: string, b: string)
    ensures Before([c] + a, [c] + b) <==> Before(a, b)
  {
    var x, y := [c] + a, [c] + b;
    if Before(a, b) {
      var k :| 0 <= k <= |a| && k < |b| && a[..k] == b[..k] && (k < |a| ==> a[k] < b[k]);
      LongerAgree(c, a, b, k);
      assert x[..k + 1] == y[..k + 1] && (k < |a| ==> x[k + 1] < y[k + 1]);
    }
    if Before(x, y) {
      var k :| 0 <= k <= |x| && k < |y| && x[..k] == y[..k] && (k < |x| ==> x[k] < y[k]);
      LongerAgree(c, a, b, k - 1);
      assert a[..k - 1] == b[..k - 1] && (k - 1 < |a| ==> a[k - 1] < b[k - 1]);
    }
  }

  lemma HeadsDecide(a: string, b: string)
    requires a == [] || b == [] || a[0] != b[0]
    ensures Before(a, b) <==> b != [] && (a == [] || a[0] < b[0])
  {
    if b != [] && a != [] {
      assert a[..0] == b[..0];
      forall k | 0 < k <= |a| && k < |b| ensures a[..k] != b[..k] {
        assert a[..k][0] != b[..k][0];
      }
    } else if b != [] {
      assert a[..0] == b[..0];
    }
  }

  /** The order is that of the first difference. */
  lemma {:induction false} LeqMeans(a: string, b: string)
    ensures Leq(a, b) <==> a == b || Before(a, b)
  {
    hide Before;
    if a == [] || b == [] || a[0] != b[0] {
      HeadsDecide(a, b);
    } else {
      LeqMeans(a[1..], b[1..]);
      BeforeExtends(a[0], a[1..], b[1..]);
      assert a == [a[0]] + a[1..] && b == [a[0]] + b[1..];
    }
  }

  lemma LeqTotal(a: string, b: string)
    ensures Leq(a, b) || Leq(b, a)
  {
  }

  lemma {:induction false} LeqAntisymmetric(a: string, b: string)
    requires Leq(a, b) && Leq(b, a)
    ensures a == b
  {
    if a != [] {
      LeqAntisymmetric(a[1..], b[1..]);
      assert a == [a[0]] + a[1..] && b == [b[0]] + b[1..];
    }
  }

  lemma BeforeIsStrict(a: string, b: string)
    ensures !(Before(a, b) && (a == b || Before(b, a)))
  {
    if Before(a, b) && Before(b, a) {
      LeqMeans(a, b);
      LeqMeans(b, a);
      LeqAntisymmetric(a, b);
    }
  }

  lemma {:induction false} LeqTransitive(a: string, b: string, c: string)
    requires Leq(a, b) && Leq(b, c)
    ensures Leq(a, c)
  {
    if a != [] && a[0] == b[0] && b[0] == c[0] {
      LeqTransitive(a[1..], b[1..], c[1..]);
    }
  }

  lemma LeqIsOrder()
    ensures Connected(Leq) && Transitive(Leq)
  {
    forall x, y ensures Leq(x, y) || Leq(y, x) { LeqTotal(x, y); }
    forall x, y, z | Leq(x, y) && Leq(y, z) ensures Leq(x, z) { LeqTransitive(x, y, z); }
  }

  /** sort.Strings, which fixes the order in which names are visited. */
  function SortNames(s: seq<string>): (r: seq<string>)
    ensures multiset(r) == multiset(s)
  {
    Sort(Leq, s)
  }

  /** However a collection is enumerated, sorting it gives the same list. */
  lemma SortIgnoresOrder(a: seq<string>, b: seq<string>)
    requires multiset(a) == multiset(b)
    ensures SortNames(a) == SortNames(b)
  {
    LeqIsOrder();
    SortSorted(Leq, a);
    SortSorted(Leq, b);
    forall x, y | Leq(x, y) && Leq(y, x) ensures x == y { LeqAntisymmetric(x, y); }
    SortedIsUnique(Leq, SortNames(a), SortNames(b));
  }
}
