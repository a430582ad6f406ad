/** The code that runs under the gateway's mutex. Each method is one critical section on the
    real lease map, and moves the ghost protocol state by exactly the step it stands for. */
module Gateway {
  import opened Options
  import opened Sorting
  import opened Leases
  import opened LeaseSafety

  /** Counts an owner's leases in whatever order the map yields them. */
  method CountOwned(leases: map<Key, Lease>, owner: nat) returns (count: nat)
    ensures count == |Owned(leases, owner)|
  {
    count := 0;
    var rest := leases.Keys;
    ghost var seen: set<Key> := {};
    while rest != {}
      invariant rest <= leases.Keys && seen == Owned(leases, owner) - rest && count == |seen|
    {
      var k :| k in rest;
      rest := rest - {k};
      if leases[k].owner == owner {
        count := count + 1;
        seen := seen + {k};
      }
    }
    assert seen == Owned(leases, owner);
  }

  lemma {:induction false} DetachedAppend(leases: map<Key, Lease>, keys: seq<Key>, k: Key)
    requires Elems(keys) <= leases.Keys && k in leases
    ensures Elems(keys + [k]) == Elems(keys) + {k}
    ensures Elems(keys + [k]) <= leases.Keys
    ensures Detached(leases, keys + [k]) == Detached(leases, keys) + [leases[k]]
  {
    assert forall x :: x in keys + [k] <==> x in keys || x == k;
    if keys == [] {
      assert keys + [k] == [k];
    } else {
      assert forall x | x in keys[1..] :: x in Elems(keys);
      DetachedAppend(leases, keys[1..], k);
      assert (keys + [k])[1..] == keys[1..] + [k];
    }
  }

  class Gateway {
    var leases: map<Key, Lease>
    ghost var state: State

    ghost predicate Valid()
      reads this
    {
      leases == state.leases && Inv(state)
    }

    constructor (ghost world: World)
      ensures Valid() && Init(state) && state.world == world
    {
      leases := map[];
      state := State(0, world, map[], map[], {}, {}, multiset{}, multiset{}, multiset{}, multiset{});
      new;
      InvInit(state);
    }

    ghost method Move(e: Event)
      requires Inv(state) && Guard(state, e) && Apply(state, e).leases == leases
      modifies this`state
      ensures Valid() && state == Apply(old(state), e)
    {
      InvStep(state, e);
      state := Apply(state, e);
    }

    /** launch: count the owner's leases in whatever order the map yields them, then insert
        or refuse. */
    method Insert(ghost a: nat, key: Key, draft: Lease) returns (ok: bool)
      requires Valid() && a in state.actors && state.actors[a] == Inserting(key, draft)
      modifies this
      ensures Valid() && state == Apply(old(state), Launch(a, LaunchStep.Insert))
      ensures ok <==> |Owned(old(leases), draft.owner)| < SESSION_LIMIT
      ensures leases == if ok then old(leases)[key := draft] else old(leases)
    {
      var count := CountOwned(leases, draft.owner);
      ok := count < SESSION_LIMIT;
      if ok {
        leases := leases[key := draft];
      }
      Move(Launch(a, LaunchStep.Insert));
    }

    /** serve's first look: the lease must exist and not have expired. */
    method Lookup(ghost a: nat, key: Key, now: int) returns (found: Option<Lease>)
      requires Valid() && a !in state.actors && now == state.now
      modifies this
      ensures found == if key in leases && now <= leases[key].expires then Some(leases[key]) else None
      ensures Valid() && leases == old(leases)
      ensures state == if found.Some? then Apply(old(state), Serve(a, ServeStep.Lookup(key))) else old(state)
    {
      if key !in leases || now > leases[key].expires {
        return None;
      }
      found := Some(leases[key]);
      Move(Serve(a, ServeStep.Lookup(key)));
    }

    /** serve's claim: the lease must still be there, idle and the same. */
    method Claim(ghost a: nat, key: Key, seen: Lease) returns (ok: bool)
      requires Valid() && a in state.actors && state.actors[a] == Looking(key, seen)
      modifies this
      ensures Valid() && state == Apply(old(state), Serve(a, ServeStep.Claim))
      ensures ok <==> key in old(leases) && !old(leases)[key].active
      ensures ok ==> TunnelOn(state, a, key) && leases[key] == seen.(active := true)
      ensures !ok ==> leases == old(leases)
    {
      if key !in leases || leases[key].active || leases[key].expires != seen.expires {
        ok := false;
      } else {
        leases := leases[key := leases[key].(active := true)];
        ok := true;
      }
      Move(Serve(a, ServeStep.Claim));
    }

    /** The deferred release of a claimed tunnel. */
    method Release(ghost a: nat, key: Key)
      requires Valid() && TunnelOn(state, a, key)
      modifies this
      ensures Valid() && state == Apply(old(state), Serve(a, Finish))
      ensures key in leases ==> !leases[key].active
    {
      if key in leases {
        leases := leases[key := leases[key].(active := false)];
      }
      Move(Serve(a, Finish));
    }

    /** closeSession takes the lease out; revoking and closing come after. */
    method Take(ghost a: nat, key: Key) returns (found: Option<Lease>)
      requires Valid() && a !in state.actors
      modifies this
      ensures Valid() && state == Apply(old(state), Remove(a, CloseSession(key)))
      ensures found == if key in old(leases) then Some(old(leases)[key]) else None
      ensures key !in leases
    {
      if key in leases {
        found := Some(leases[key]);
        leases := leases - {key};
      } else {
        found := None;
      }
      Move(Remove(a, CloseSession(key)));
    }

    /** Stop swaps in an empty map; the old leases' files are closed after, in the order keys. */
    method TakeAll(ghost a: nat, ghost keys: seq<Key>) returns (all: map<Key, Lease>)
      requires Valid() && a !in state.actors && Distinct(keys) && Elems(keys) == leases.Keys
      modifies this
      ensures Valid() && state == Apply(old(state), Remove(a, RemoveStep.Stop(keys)))
      ensures all == old(leases) && leases == map[]
    {
      all := leases;
      leases := map[];
      Move(Remove(a, RemoveStep.Stop(keys)));
    }

    /** The loop of expireSessions: walk the map in any order, reading the clock at every
        lease, and take out what has expired. clock(i) is the i-th reading. */
    method Expire(clock: nat -> int, start: nat) returns (expired: seq<Lease>, ghost keys: seq<Key>, end: nat)
      requires forall i: nat, j: nat | i <= j :: clock(i) <= clock(j)
      modifies this`leases
      ensures end >= start && Sweeps(old(leases), keys, clock(start), clock(end))
      ensures expired == Detached(old(leases), keys) && leases == old(leases) - Elems(keys)
    {
      ghost var before := leases;
      var rest := leases.Keys;
      end := start;
      expired, keys := [], [];
      while rest != {}
        invariant end >= start && rest <= leases.Keys && leases == before - Elems(keys)
        invariant Distinct(keys) && Elems(keys) <= before.Keys - rest
        invariant forall k | k in keys :: k in Elems(keys)
        invariant expired == Detached(before, keys)
        invariant forall k | k in keys :: k in before && clock(end) > before[k].expires
        invariant forall k | k in before && k !in rest && clock(start) > before[k].expires :: k in keys
      {
        var k :| k in rest;
        assert k !in Elems(keys);
        assert clock(start) <= clock(end) <= clock(end + 1);
        if clock(end) > leases[k].expires {
          expired := expired + [leases[k]];
          leases := leases - {k};
          DetachedAppend(before, keys, k);
          keys := keys + [k];
        }
        rest := rest - {k};
        end := end + 1;
      }
    }

    /** expireSessions as the ticker runs it: the sweep, before anything is revoked or closed. */
    method TakeExpired(ghost a: nat, clock: nat -> int, start: nat)
      returns (expired: seq<Lease>, ghost keys: seq<Key>, end: nat)
      requires Valid() && a !in state.actors && clock(start) == state.now
      requires forall i: nat, j: nat | i <= j :: clock(i) <= clock(j)
      modifies this
      ensures end >= start && Sweeps(old(leases), keys, clock(start), clock(end)) && clock(end) >= clock(start)
      ensures expired == Detached(old(leases), keys)
      ensures Valid() && state == Apply(old(state), Remove(a, TickerSweep(keys, clock(end))))
    {
      expired, keys, end := Expire(clock, start);
      Move(Remove(a, TickerSweep(keys, clock(end))));
    }
  }
}
