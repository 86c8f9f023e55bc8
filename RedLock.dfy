/** The Redlock client: a fixed list of nodes, a retry policy and the quorum
    derived from the number of nodes. Each node is represented by its key
    space; `lock` and `unlock` update those key spaces in place. */
module RedLock {
  import opened Redis
  import opened Algorithm
  import Properties

  class RedLock {
    /** Upper bound, in milliseconds, of the random pause after a failed attempt. */
    const retryDelay: int
    /** Initial value of the do-while counter. */
    const retryCount: int
    const quorum: real
    /** One key space per configured server, in configuration order; the list
        is fixed once the client exists. Distinct servers are taken to be
        distinct key spaces. */
    const instances: array<Store>

    ghost predicate Valid()
    {
      quorum == Quorum(instances.Length)
    }

    constructor (servers: seq<Store>, retryDelay: int := 200, retryCount: int := 3)
      ensures Valid()
      ensures instances[..] == servers && fresh(instances)
      ensures this.retryDelay == retryDelay && this.retryCount == retryCount
    {
      this.retryDelay := retryDelay;
      this.retryCount := retryCount;
      instances := new Store[|servers|](i requires 0 <= i < |servers| => servers[i]);
      quorum := Min(|servers| as real, |servers| as real / 2.0 + 1.0);
    }

    /** `SET resource token NX PX ttl` on node `i`; a node that answers with
        an error reply (`reachable` false) is left alone and counts as a
        refusal. */
    method LockInstance(i: nat, resource: Key, token: Token, ttl: int, reachable: bool) returns (ok: bool)
      requires i < instances.Length
      modifies instances
      ensures ok == (reachable && SetNxPx(old(instances[i]), resource, token, ttl).1)
      ensures instances[..] == old(instances[..])[i := if reachable then SetNxPx(old(instances[i]), resource, token, ttl).0
                                                       else old(instances[i])]
    {
      ok := false;
      if reachable {
        var (next, granted) := SetNxPx(instances[i], resource, token, ttl);
        instances[i] := next;
        ok := granted;
      }
    }

    /** The compare-and-delete script on node `i`; its reply is the number
        of keys deleted (0 for a node that answers with an error reply). */
    method UnlockInstance(i: nat, resource: Key, token: Token, reachable: bool) returns (deleted: int)
      requires i < instances.Length
      modifies instances
      ensures deleted == (if reachable then CompareAndDelete(old(instances[i]), resource, token).1 else 0)
      ensures instances[..] == old(instances[..])[i := if reachable then CompareAndDelete(old(instances[i]), resource, token).0
                                                       else old(instances[i])]
    {
      deleted := 0;
      if reachable {
        var (next, reply) := CompareAndDelete(instances[i], resource, token);
        instances[i] := next;
        deleted := reply;
      }
    }

    /** Sends the conditional delete to every node in order. */
    method ReleaseInstances(resource: Key, token: Token, reachable: seq<bool>)
      requires |reachable| == instances.Length
      modifies instances
      ensures instances[..] == ReleaseAll(old(instances[..]), reachable, resource, token)
    {
      ghost var before := instances[..];
      var i := 0;
      while i < instances.Length
        invariant 0 <= i <= instances.Length
        invariant forall j :: 0 <= j < i ==> instances[j] == ReleaseAll(before, reachable, resource, token)[j]
        invariant forall j :: i <= j < instances.Length ==> instances[j] == before[j]
      {
        var _ := UnlockInstance(i, resource, token, reachable[i]);
        i := i + 1;
      }
    }

    /** One pass of the do-while body: count the nodes that grant the set,
        compute drift and validity, return a lease on success and otherwise
        release the token on every node. */
    method TryOnce(resource: Key, token: Token, ttl: int, elapsed: real, reachable: seq<bool>)
      returns (lease: Option<Lease>)
      requires Valid() && |reachable| == instances.Length
      modifies instances
      ensures (instances[..], lease)
              == AttemptOutcome(old(instances[..]), reachable, resource, token, ttl, elapsed, quorum)
    {
      ghost var before := instances[..];
      var n := 0;
      var i := 0;
      while i < instances.Length
        invariant 0 <= i <= instances.Length
        invariant n == Acquired(before[..i], reachable[..i], resource, token, ttl)
        invariant forall j :: 0 <= j < i ==> instances[j] == SetAll(before, reachable, resource, token, ttl)[j]
        invariant forall j :: i <= j < instances.Length ==> instances[j] == before[j]
      {
        var ok := LockInstance(i, resource, token, ttl, reachable[i]);
        if ok {
          n := n + 1;
        }
        assert before[..i + 1][..i] == before[..i];
        assert reachable[..i + 1][..i] == reachable[..i];
        i := i + 1;
      }
      assert before[..i] == before && reachable[..i] == reachable;
      assert instances[..] == SetAll(before, reachable, resource, token, ttl);

      var drift := (ttl as real * ClockDriftFactor) + 2.0;
      var validityTime := ttl as real - elapsed - drift;

      if n as real >= quorum && validityTime > 0.0 {
        lease := Some(Lease(validityTime, resource, token));
      } else {
        ReleaseInstances(resource, token, reachable);
        lease := None;
      }
    }

    /** The do-while retry loop. `token` is the one value used by every
        attempt; in attempt k node i serves the commands when `reachable[k][i]`
        holds and otherwise answers them with an error reply; the attempt
        takes `elapsed[k]` milliseconds; failed attempt k is followed by a
        pause of `delays[k]` milliseconds, recorded in `waits`, the last one
        included. */
    method Lock(resource: Key, ttl: int, token: Token,
                reachable: seq<seq<bool>>, elapsed: seq<real>, delays: seq<int>)
      returns (lease: Option<Lease>, waits: seq<int>)
      requires Valid() && retryDelay >= 0
      requires |reachable| >= MaxAttempts(retryCount) && |elapsed| >= MaxAttempts(retryCount)
      requires |delays| >= MaxAttempts(retryCount)
      requires forall k :: 0 <= k < |reachable| ==> |reachable[k]| == instances.Length
      requires forall k :: 0 <= k < |delays| ==> MinDelay(retryDelay) <= delays[k] <= retryDelay
      modifies instances
      ensures var r := Run(old(instances[..]), reachable, elapsed, resource, token, ttl, quorum,
                           MaxAttempts(retryCount), 0);
        && instances[..] == r.stores
        && lease == r.lease
        && waits == delays[..if lease.Some? then r.attempts - 1 else r.attempts]
      ensures lease.None? ==> |waits| == MaxAttempts(retryCount)
      ensures lease.Some? ==> lease.value.token == token && lease.value.resource == resource
      ensures lease.Some? ==> lease.value.validity > 0.0 && |waits| < MaxAttempts(retryCount)
      ensures forall k :: 0 <= k < |waits| ==> MinDelay(retryDelay) <= waits[k] <= retryDelay
      ensures NotHeld(old(instances[..]), resource, token) && lease.None? ==> instances[..] == old(instances[..])
      ensures lease.Some? ==> Holders(instances[..], resource, token) as real >= quorum
      ensures NotHeld(old(instances[..]), resource, token) && lease.Some? ==>
                Acquired(old(instances[..]), reachable[|waits|], resource, token, ttl) as real >= quorum
    {
      ghost var start := instances[..];
      if NotHeld(start, resource, token) {
        Properties.RunFresh(start, reachable, elapsed, resource, token, ttl, quorum, MaxAttempts(retryCount), 0);
      }
      lease, waits := Attempts(resource, ttl, token, reachable, elapsed, delays);
    }

    /** The loop of `Lock` on a counter decremented from `retryCount`,
        followed by the attempts of `Run`. */
    method Attempts(resource: Key, ttl: int, token: Token,
                    reachable: seq<seq<bool>>, elapsed: seq<real>, delays: seq<int>)
      returns (lease: Option<Lease>, waits: seq<int>)
      requires Valid()
      requires |reachable| >= MaxAttempts(retryCount) && |elapsed| >= MaxAttempts(retryCount)
      requires |delays| >= MaxAttempts(retryCount)
      requires forall k :: 0 <= k < |reachable| ==> |reachable[k]| == instances.Length
      modifies instances
      ensures var r := Run(old(instances[..]), reachable, elapsed, resource, token, ttl, quorum,
                           MaxAttempts(retryCount), 0);
        && instances[..] == r.stores
        && lease == r.lease
        && waits == delays[..if lease.Some? then r.attempts - 1 else r.attempts]
    {
      ghost var budget := MaxAttempts(retryCount);
      ghost var r := Run(instances[..], reachable, elapsed, resource, token, ttl, quorum, budget, 0);
      var retry := retryCount;
      var attempt := 0;
      waits := [];
      while true
        invariant 0 <= attempt < budget
        invariant retry == retryCount - attempt
        invariant waits == delays[..attempt]
        invariant r == Run(instances[..], reachable, elapsed, resource, token, ttl, quorum, budget, attempt)
        decreases budget - attempt
      {
        lease := TryOnce(resource, token, ttl, elapsed[attempt], reachable[attempt]);
        if lease.Some? {
          return;
        }

        var delay := delays[attempt];
        waits := waits + [delay];
        assert delays[..attempt + 1] == delays[..attempt] + [delays[attempt]];

        retry := retry - 1;
        attempt := attempt + 1;
        if retry <= 0 {
          break;
        }
      }
      lease := None;
    }

    /** Sends the conditional delete for the lease's token to every node;
        nodes held by anyone else are untouched and no reply is reported. */
    method Unlock(lock: Lease, reachable: seq<bool>)
      requires |reachable| == instances.Length
      modifies instances
      ensures instances[..] == ReleaseAll(old(instances[..]), reachable, lock.resource, lock.token)
      ensures forall j :: 0 <= j < instances.Length && reachable[j] ==> !HeldBy(instances[j], lock.resource, lock.token)
      ensures forall j :: 0 <= j < instances.Length && !HeldBy(old(instances[j]), lock.resource, lock.token)
                ==> instances[j] == old(instances[j])
    {
      ReleaseInstances(lock.resource, lock.token, reachable);
    }
  }
}
