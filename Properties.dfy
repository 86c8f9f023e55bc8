/** Properties of the Redlock algorithm, stated over the specification
    functions of module Algorithm. */
module Properties {
  import opened Redis
  import opened Algorithm

  /** The integer comparison `n >= quorum` against the fractional quorum is
      the comparison against Threshold: for N = 3 all three nodes must grant
      the set, for N = 5 four of them. */
  lemma ThresholdMeetsQuorum(n: nat, k: nat)
    ensures k as real >= Quorum(n) <==> k >= Threshold(n)
  {
  }

  /** The configuration of the demo driver: three nodes, a TTL of 20 s and
      the constructor's default retry policy (200 ms, 3 attempts). */
  lemma ThreeNodeExample()
    ensures Quorum(3) == 2.5 && Threshold(3) == 3
    ensures MaxAttempts(3) == 3 && MinDelay(200) == 100
    ensures Quorum(5) == 3.5 && Threshold(5) == 4
    ensures Validity(20000, 0.0) == 19798.0
  {
  }

  /** A grant needs an answering node on which the key is absent. */
  lemma {:induction false} AcquiredBound(ss: seq<Store>, up: seq<bool>, key: Key, token: Token, ttl: int)
    requires |up| == |ss|
    ensures Acquired(ss, up, key, token, ttl) <= Reachable(up)
    ensures Acquired(ss, up, key, token, ttl) + Present(ss, key) <= |ss|
  {
    if ss != [] {
      var k := |ss| - 1;
      AcquiredBound(ss[..k], up[..k], key, token, ttl);
      assert up[..k] == up[..|up| - 1];
    }
  }

  /** With the key absent everywhere and a positive TTL, every node that
      answers grants the set. */
  lemma {:induction false} AcquiredWhenAbsent(ss: seq<Store>, up: seq<bool>, key: Key, token: Token, ttl: int)
    requires |up| == |ss| && ttl > 0
    requires forall i :: 0 <= i < |ss| ==> key !in ss[i]
    ensures Acquired(ss, up, key, token, ttl) == Reachable(up)
  {
    if ss != [] {
      var k := |ss| - 1;
      AcquiredWhenAbsent(ss[..k], up[..k], key, token, ttl);
      assert up[..k] == up[..|up| - 1];
    }
  }

  lemma {:induction false} AllReachable(up: seq<bool>)
    requires forall i :: 0 <= i < |up| ==> up[i]
    ensures Reachable(up) == |up|
  {
    if up != [] {
      AllReachable(up[..|up| - 1]);
    }
  }

  /** Two different tokens hold disjoint sets of nodes. */
  lemma {:induction false} HoldersDisjoint(ss: seq<Store>, key: Key, t1: Token, t2: Token)
    requires t1 != t2
    ensures Holders(ss, key, t1) + Holders(ss, key, t2) <= Present(ss, key)
  {
    if ss != [] {
      HoldersDisjoint(ss[..|ss| - 1], key, t1, t2);
    }
  }

  /** At most one token holds a quorum of a non-empty node list at any moment. */
  lemma QuorumHolderUnique(ss: seq<Store>, key: Key, t1: Token, t2: Token)
    requires |ss| >= 1 && t1 != t2
    requires Holders(ss, key, t1) as real >= Quorum(|ss|)
    ensures Holders(ss, key, t2) as real < Quorum(|ss|)
  {
    HoldersDisjoint(ss, key, t1, t2);
  }

  /** An attempt on which fewer nodes answer than the quorum fails. */
  lemma TooFewReachableFails(ss: seq<Store>, up: seq<bool>, key: Key, token: Token, ttl: int, elapsed: real)
    requires |up| == |ss|
    requires Reachable(up) as real < Quorum(|ss|)
    ensures AttemptOutcome(ss, up, key, token, ttl, elapsed, Quorum(|ss|)).1.None?
  {
    AcquiredBound(ss, up, key, token, ttl);
  }

  /** While some token (possibly this one) holds a quorum of the nodes, an
      attempt fails. */
  lemma BlockedWhileHeld(ss: seq<Store>, up: seq<bool>, key: Key, token: Token, other: Token,
                         ttl: int, elapsed: real)
    requires |up| == |ss| && |ss| >= 1
    requires Holders(ss, key, other) as real >= Quorum(|ss|)
    ensures AttemptOutcome(ss, up, key, token, ttl, elapsed, Quorum(|ss|)).1.None?
  {
    AcquiredBound(ss, up, key, token, ttl);
  }

  /** With no node listed the quorum is 0, so an attempt succeeds exactly
      when validity is positive. */
  lemma EmptyServerListGrants(up: seq<bool>, key: Key, token: Token, ttl: int, elapsed: real)
    requires |up| == 0
    ensures AttemptOutcome([], up, key, token, ttl, elapsed, Quorum(0)).1.Some? <==> Validity(ttl, elapsed) > 0.0
  {
  }

  /** A failed attempt with a token that no node held leaves every node as it
      was: what was set is deleted again, and nothing else is touched. */
  lemma FailedAttemptRestores(ss: seq<Store>, up: seq<bool>, key: Key, token: Token, ttl: int,
                              elapsed: real, quorum: real)
    requires |up| == |ss| && NotHeld(ss, key, token)
    requires AttemptOutcome(ss, up, key, token, ttl, elapsed, quorum).1.None?
    ensures AttemptOutcome(ss, up, key, token, ttl, elapsed, quorum).0 == ss
  {
    var r := AttemptOutcome(ss, up, key, token, ttl, elapsed, quorum).0;
    forall i | 0 <= i < |ss|
      ensures r[i] == ss[i]
    {
      if up[i] {
        SetThenDeleteRestores(ss[i], key, token, ttl);
      }
    }
  }

  /** The retry loop with a fresh token: when it gives up, the nodes are as
      they were; when it returns a lease, the nodes are those left by the
      winning attempt's sets and that attempt met the quorum. */
  lemma {:induction false} RunFresh(ss: seq<Store>, ups: seq<seq<bool>>, elapsed: seq<real>, key: Key,
                                    token: Token, ttl: int, quorum: real, budget: nat, i: nat)
    requires i < budget <= |ups| && budget <= |elapsed|
    requires forall k :: 0 <= k < |ups| ==> |ups[k]| == |ss|
    requires NotHeld(ss, key, token)
    ensures var r := Run(ss, ups, elapsed, key, token, ttl, quorum, budget, i);
      && (r.lease.None? ==> r.stores == ss)
      && (r.lease.Some? ==> r.stores == SetAll(ss, ups[r.attempts - 1], key, token, ttl))
      && (r.lease.Some? ==> Acquired(ss, ups[r.attempts - 1], key, token, ttl) as real >= quorum)
    decreases budget - i
  {
    var (next, lease) := AttemptOutcome(ss, ups[i], key, token, ttl, elapsed[i], quorum);
    if lease.None? {
      FailedAttemptRestores(ss, ups[i], key, token, ttl, elapsed[i], quorum);
      if i + 1 < budget {
        RunFresh(ss, ups, elapsed, key, token, ttl, quorum, budget, i + 1);
      }
    }
  }

  /** While a lease is fresh from the retry loop, its token holds a quorum of
      a non-empty node list, so no other token holds one. */
  lemma LeaseExcludesOthers(ss: seq<Store>, ups: seq<seq<bool>>, elapsed: seq<real>, key: Key,
                            token: Token, other: Token, ttl: int, budget: nat)
    requires 0 < budget <= |ups| && budget <= |elapsed|
    requires forall k :: 0 <= k < |ups| ==> |ups[k]| == |ss|
    requires |ss| >= 1 && other != token
    requires Run(ss, ups, elapsed, key, token, ttl, Quorum(|ss|), budget, 0).lease.Some?
    ensures Holders(Run(ss, ups, elapsed, key, token, ttl, Quorum(|ss|), budget, 0).stores, key, other) as real
            < Quorum(|ss|)
  {
    var r := Run(ss, ups, elapsed, key, token, ttl, Quorum(|ss|), budget, 0);
    QuorumHolderUnique(r.stores, key, token, other);
  }

  /** A lock request with a fresh token on a resource whose quorum is held
      by another token fails after all its attempts and leaves the nodes
      unchanged. */
  lemma {:induction false} RunBlockedWhileHeld(ss: seq<Store>, ups: seq<seq<bool>>, elapsed: seq<real>,
                                               key: Key, token: Token, other: Token, ttl: int,
                                               budget: nat, i: nat)
    requires i < budget <= |ups| && budget <= |elapsed|
    requires forall k :: 0 <= k < |ups| ==> |ups[k]| == |ss|
    requires |ss| >= 1 && NotHeld(ss, key, token)
    requires Holders(ss, key, other) as real >= Quorum(|ss|)
    ensures var r := Run(ss, ups, elapsed, key, token, ttl, Quorum(|ss|), budget, i);
      r.lease.None? && r.attempts == budget && r.stores == ss
    decreases budget - i
  {
    BlockedWhileHeld(ss, ups[i], key, token, other, ttl, elapsed[i]);
    FailedAttemptRestores(ss, ups[i], key, token, ttl, elapsed[i], Quorum(|ss|));
    if i + 1 < budget {
      RunBlockedWhileHeld(ss, ups, elapsed, key, token, other, ttl, budget, i + 1);
    }
  }

  /** If in every attempt fewer nodes answer than the quorum, the loop fails
      after all its attempts, whatever the nodes hold. */
  lemma {:induction false} RunTooFewReachable(ss: seq<Store>, ups: seq<seq<bool>>, elapsed: seq<real>,
                                              key: Key, token: Token, ttl: int, budget: nat, i: nat)
    requires i < budget <= |ups| && budget <= |elapsed|
    requires forall k :: 0 <= k < |ups| ==> |ups[k]| == |ss|
    requires forall k :: 0 <= k < |ups| ==> Reachable(ups[k]) as real < Quorum(|ss|)
    ensures var r := Run(ss, ups, elapsed, key, token, ttl, Quorum(|ss|), budget, i);
      r.lease.None? && r.attempts == budget
    decreases budget - i
  {
    TooFewReachableFails(ss, ups[i], key, token, ttl, elapsed[i]);
    var next := AttemptOutcome(ss, ups[i], key, token, ttl, elapsed[i], Quorum(|ss|)).0;
    if i + 1 < budget {
      RunTooFewReachable(next, ups, elapsed, key, token, ttl, budget, i + 1);
    }
  }

  /** With a non-positive TTL no node grants the set. */
  lemma {:induction false} AcquiredNonPositiveTtl(ss: seq<Store>, up: seq<bool>, key: Key, token: Token, ttl: int)
    requires |up| == |ss| && ttl <= 0
    ensures Acquired(ss, up, key, token, ttl) == 0
  {
    if ss != [] {
      AcquiredNonPositiveTtl(ss[..|ss| - 1], up[..|ss| - 1], key, token, ttl);
    }
  }

  /** On a non-empty node list a lock with a non-positive TTL fails after all
      its attempts, whatever the elapsed times: Redis refuses the expiry on
      every node, so the quorum is never met. */
  lemma {:induction false} RunNonPositiveTtl(ss: seq<Store>, ups: seq<seq<bool>>, elapsed: seq<real>,
                                             key: Key, token: Token, ttl: int, budget: nat, i: nat)
    requires i < budget <= |ups| && budget <= |elapsed|
    requires forall k :: 0 <= k < |ups| ==> |ups[k]| == |ss|
    requires |ss| >= 1 && ttl <= 0
    ensures var r := Run(ss, ups, elapsed, key, token, ttl, Quorum(|ss|), budget, i);
      r.lease.None? && r.attempts == budget
    decreases budget - i
  {
    AcquiredNonPositiveTtl(ss, ups[i], key, token, ttl);
    var next := AttemptOutcome(ss, ups[i], key, token, ttl, elapsed[i], Quorum(|ss|)).0;
    if i + 1 < budget {
      RunNonPositiveTtl(next, ups, elapsed, key, token, ttl, budget, i + 1);
    }
  }

  /** Releasing twice has the effect of releasing once. */
  lemma ReleaseAllIdempotent(ss: seq<Store>, up: seq<bool>, key: Key, token: Token)
    requires |up| == |ss|
    ensures ReleaseAll(ReleaseAll(ss, up, key, token), up, key, token) == ReleaseAll(ss, up, key, token)
  {
  }

  /** Once the holder of every entry for the resource releases on all nodes,
      the next attempt with any token, on all nodes answering, succeeds
      exactly when its validity is positive: there is nothing to wait for. */
  lemma UnlockThenLock(ss: seq<Store>, up: seq<bool>, key: Key, holder: Token, token: Token,
                       ttl: int, elapsed: real)
    requires |up| == |ss| && ttl > 0
    requires forall i :: 0 <= i < |up| ==> up[i]
    requires forall i :: 0 <= i < |ss| && key in ss[i] ==> ss[i][key] == holder
    ensures var released := ReleaseAll(ss, up, key, holder);
      (AttemptOutcome(released, up, key, token, ttl, elapsed, Quorum(|ss|)).1.Some?
       <==> Validity(ttl, elapsed) > 0.0)
  {
    var released := ReleaseAll(ss, up, key, holder);
    AcquiredWhenAbsent(released, up, key, token, ttl);
    AllReachable(up);
  }
}
