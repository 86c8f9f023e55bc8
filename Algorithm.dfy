/** The arithmetic of the Redlock client and the specification of one lock
    attempt and of the retry loop, as functions over the key spaces of the
    N nodes. The class in module RedLock is proved against these. */
module Algorithm {
  import opened Redis

  datatype Option<T> = None | Some(value: T)

  /** What a successful `lock` hands back: the milliseconds of validity left,
      the resource and the token that proves ownership. */
  datatype Lease = Lease(validity: real, resource: Key, token: Token)

  /** The result of the retry loop: the nodes afterwards, the lease if one
      was obtained, and how many attempts were made. */
  datatype Outcome = Outcome(stores: seq<Store>, lease: Option<Lease>, attempts: nat)

  /** Fraction of the TTL set aside for clock drift between nodes. */
  const ClockDriftFactor: real := 0.01

  function Min(a: real, b: real): real
  {
    if a <= b then a else b
  }

  /** `min(count(servers), count(servers) / 2 + 1)` with PHP's real-valued
      division: for an odd node count the quorum is fractional. */
  function Quorum(n: nat): (q: real)
    ensures n == 0 ==> q == 0.0
    ensures n >= 1 ==> 1.0 <= q <= n as real && q > n as real / 2.0
  {
    Min(n as real, n as real / 2.0 + 1.0)
  }

  /** The least number of successful sets that meets Quorum(n). */
  function Threshold(n: nat): (t: nat)
    ensures t <= n
    ensures n >= 1 ==> 2 * t > n
  {
    if n <= 1 then n else n / 2 + 1 + n % 2
  }

  /** Milliseconds subtracted from the TTL for drift: one percent, plus one
      millisecond for Redis' expiry precision and one as a floor. */
  function Drift(ttl: int): real
  {
    ttl as real * ClockDriftFactor + 2.0
  }

  /** Validity left after an attempt that took `elapsed` milliseconds. A
      positive validity after a non-negative elapsed time is below the TTL,
      and needs a TTL of at least 3 ms. */
  function Validity(ttl: int, elapsed: real): (v: real)
    ensures elapsed >= 0.0 && v > 0.0 ==> ttl >= 3 && v < ttl as real
    ensures ttl >= 3 && elapsed == 0.0 ==> v > 0.0
  {
    ttl as real - elapsed - Drift(ttl)
  }

  /** `floor(retryDelay / 2)`, the shortest delay between attempts. */
  function MinDelay(retryDelay: int): (d: int)
    ensures retryDelay >= 0 ==> 0 <= d <= retryDelay && 2 * d <= retryDelay < 2 * d + 2
  {
    (retryDelay as real / 2.0).Floor
  }

  /** Attempts made by the do-while loop, which decrements a counter
      starting at `retryCount` and runs at least once. */
  function MaxAttempts(retryCount: int): (a: nat)
    ensures a >= 1 && a >= retryCount
    ensures a == 1 || a == retryCount
  {
    if retryCount <= 1 then 1 else retryCount
  }

  /** Number of nodes that grant `SET NX` in one attempt; `up[i]` says
      whether node i answered in that attempt. */
  function Acquired(ss: seq<Store>, up: seq<bool>, key: Key, token: Token, ttl: int): (n: nat)
    requires |up| == |ss|
    ensures n <= |ss|
  {
    if ss == [] then 0
    else
      var k := |ss| - 1;
      Acquired(ss[..k], up[..k], key, token, ttl)
        + (if up[k] && SetNxPx(ss[k], key, token, ttl).1 then 1 else 0)
  }

  /** Number of nodes that answered. */
  function Reachable(up: seq<bool>): (n: nat)
    ensures n <= |up|
  {
    if up == [] then 0
    else Reachable(up[..|up| - 1]) + (if up[|up| - 1] then 1 else 0)
  }

  /** Number of nodes on which `key` exists, whoever holds it. */
  function Present(ss: seq<Store>, key: Key): (n: nat)
    ensures n <= |ss|
  {
    if ss == [] then 0
    else Present(ss[..|ss| - 1], key) + (if key in ss[|ss| - 1] then 1 else 0)
  }

  /** Number of nodes on which `key` is held for `token`. */
  function Holders(ss: seq<Store>, key: Key, token: Token): (n: nat)
    ensures n <= Present(ss, key)
  {
    if ss == [] then 0
    else Holders(ss[..|ss| - 1], key, token) + (if HeldBy(ss[|ss| - 1], key, token) then 1 else 0)
  }

  /** No node holds `key` for `token`: what a freshly generated token gives. */
  predicate NotHeld(ss: seq<Store>, key: Key, token: Token)
  {
    forall i :: 0 <= i < |ss| ==> !HeldBy(ss[i], key, token)
  }

  /** The nodes after `SET key token NX PX ttl` was sent to every node. */
  function SetAll(ss: seq<Store>, up: seq<bool>, key: Key, token: Token, ttl: int): (r: seq<Store>)
    requires |up| == |ss|
    ensures |r| == |ss|
    ensures forall i :: 0 <= i < |ss| ==> r[i] - {key} == ss[i] - {key}
    ensures forall i :: 0 <= i < |ss| && (!up[i] || key in ss[i]) ==> r[i] == ss[i]
    ensures forall i :: 0 <= i < |ss| && up[i] && key !in ss[i] && ttl > 0 ==> HeldBy(r[i], key, token)
  {
    seq(|ss|, i requires 0 <= i < |ss| =>
      if up[i] then SetNxPx(ss[i], key, token, ttl).0 else ss[i])
  }

  /** Every node that grants the set becomes a holder for the token: the
      holders after the sets are the holders before plus the grants. */
  lemma {:induction false} SetAllHolders(ss: seq<Store>, up: seq<bool>, key: Key, token: Token, ttl: int)
    requires |up| == |ss|
    ensures Holders(SetAll(ss, up, key, token, ttl), key, token)
            == Holders(ss, key, token) + Acquired(ss, up, key, token, ttl)
  {
    if ss != [] {
      var k := |ss| - 1;
      var after := SetAll(ss, up, key, token, ttl);
      SetAllHolders(ss[..k], up[..k], key, token, ttl);
      assert after[..k] == SetAll(ss[..k], up[..k], key, token, ttl);
    }
  }

  /** The nodes after the conditional delete of `key` for `token` was sent to
      every node: no node that answered still holds the key for the token,
      and a node holding the key for anyone else is untouched. */
  function ReleaseAll(ss: seq<Store>, up: seq<bool>, key: Key, token: Token): (r: seq<Store>)
    requires |up| == |ss|
    ensures |r| == |ss|
    ensures forall i :: 0 <= i < |ss| && up[i] ==> !HeldBy(r[i], key, token)
    ensures forall i :: 0 <= i < |ss| && !(up[i] && HeldBy(ss[i], key, token)) ==> r[i] == ss[i]
    ensures forall i :: 0 <= i < |ss| ==> r[i] - {key} == ss[i] - {key}
  {
    seq(|ss|, i requires 0 <= i < |ss| =>
      if up[i] then CompareAndDelete(ss[i], key, token).0 else ss[i])
  }

  /** One pass of the do-while body: set on every node, count the grants,
      compute the validity; keep the keys and return a lease when the count
      meets the quorum and validity is positive, otherwise delete this
      token's entries everywhere. */
  function AttemptOutcome(ss: seq<Store>, up: seq<bool>, key: Key, token: Token, ttl: int,
                          elapsed: real, quorum: real): (r: (seq<Store>, Option<Lease>))
    requires |up| == |ss|
    ensures |r.0| == |ss|
    ensures r.1.Some? <==> Acquired(ss, up, key, token, ttl) as real >= quorum && Validity(ttl, elapsed) > 0.0
    ensures r.1.Some? ==> r.1.value == Lease(Validity(ttl, elapsed), key, token)
    ensures r.1.Some? ==> r.0 == SetAll(ss, up, key, token, ttl)
    ensures r.1.Some? ==> Holders(r.0, key, token) as real >= quorum
    ensures r.1.None? ==> forall i :: 0 <= i < |ss| && up[i] ==> !HeldBy(r.0[i], key, token)
    ensures forall i :: 0 <= i < |ss| && !up[i] ==> r.0[i] == ss[i]
    ensures forall i :: 0 <= i < |ss| && key in ss[i] && ss[i][key] != token ==> r.0[i] == ss[i]
    ensures forall i :: 0 <= i < |ss| ==> r.0[i] - {key} == ss[i] - {key}
  {
    var acquired := SetAll(ss, up, key, token, ttl);
    var validity := Validity(ttl, elapsed);
    if Acquired(ss, up, key, token, ttl) as real >= quorum && validity > 0.0 then
      SetAllHolders(ss, up, key, token, ttl);
      (acquired, Some(Lease(validity, key, token)))
    else
      (ReleaseAll(acquired, up, key, token), None)
  }

  /** The retry loop from attempt `i` on, with one token for every attempt:
      `ups[k]` and `elapsed[k]` are what attempt k observed. It stops at the
      first lease or after `budget` attempts. */
  function Run(ss: seq<Store>, ups: seq<seq<bool>>, elapsed: seq<real>, key: Key, token: Token,
               ttl: int, quorum: real, budget: nat, i: nat): (r: Outcome)
    requires i < budget <= |ups| && budget <= |elapsed|
    requires forall k :: 0 <= k < |ups| ==> |ups[k]| == |ss|
    ensures i < r.attempts <= budget
    ensures |r.stores| == |ss|
    ensures r.lease.None? ==> r.attempts == budget
    ensures r.lease.Some? ==> r.lease.value == Lease(Validity(ttl, elapsed[r.attempts - 1]), key, token)
    ensures r.lease.Some? ==> r.lease.value.validity > 0.0
    ensures r.lease.Some? ==> Holders(r.stores, key, token) as real >= quorum
    decreases budget - i
  {
    var (next, lease) := AttemptOutcome(ss, ups[i], key, token, ttl, elapsed[i], quorum);
    if lease.Some? || i + 1 == budget then Outcome(next, lease, i + 1)
    else Run(next, ups, elapsed, key, token, ttl, quorum, budget, i + 1)
  }
}
