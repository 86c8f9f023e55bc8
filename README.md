# Redlock client model

This project models the PHP Redlock client `RedLock\RedLock` in Dafny. The
client takes a distributed lock over N independent Redis nodes. It sends
`SET resource token NX PX ttl` to every node and counts the nodes that grant
it. It then takes off a clock-drift allowance from the TTL. The lock is
granted when enough nodes agreed and some validity is left. Otherwise the
client deletes its token from every node, pauses for a random time and tries
again. `unlock` sends the atomic compare-and-delete script to every node.

The model keeps the algorithm and replaces each Redis node by its key space,
a `map<string, string>` from resource to token:

- `Redis.dfy` gives the two commands the client uses as functions on one key
  space: set-if-absent (`SetNxPx`) and the compare-and-delete script
  (`CompareAndDelete`).
- `Algorithm.dfy` gives the pure parts of the client: the quorum, drift and
  validity, the delay range and the attempt count. It also holds the
  specification of one attempt (`AttemptOutcome`) and of the whole retry
  loop (`Run`) as functions over the sequence of key spaces.
- `RedLock.dfy` is the client as a class. The nodes are a fixed-length
  `array<Store>`, updated in place by `LockInstance`, `UnlockInstance`,
  `Lock` and `Unlock`. Each method is proved against the functions of
  `Redis.dfy` and `Algorithm.dfy`.
- `Properties.dfy` proves what the algorithm promises. It covers the
  effective quorum threshold and that a failed attempt cleans up after
  itself. It shows that at most one token holds a quorum, that a lease's
  token holds one when the lease is returned, and that a quorum-held
  resource blocks other clients. It also covers what happens when
  too few nodes answer, that release is idempotent, and that a lock right
  after an unlock succeeds without waiting.

Inputs that come from the environment are parameters of the methods:

- the token, which the PHP code gets from `uniqid()`;
- for each attempt, which nodes serve the commands (`reachable[k][i]`). A
  node with `reachable[k][i]` false stands for a node that answers with an
  error reply, such as READONLY or OOM: phpredis then returns false from
  both `set` and `eval`, and the node is unchanged;
- for each attempt, the elapsed milliseconds, which the PHP code measures
  with `microtime`;
- for each failed attempt, the pause from `mt_rand`.

`Lock` returns the pauses it took in `waits`. Times are exact `real`
numbers.

Where the code and the usual description of Redlock differ, the model
follows the code:

- The quorum is `min(N, N/2 + 1)` with PHP's real-valued division, not
  `floor(N/2) + 1`. With N = 3 it is 2.5, so all three nodes must grant the
  set; with N = 5 it is 3.5, so four must (`Properties.ThresholdMeetsQuorum`,
  `Properties.ThreeNodeExample`). It is still a strict majority for N ≥ 1.
- An empty server list is accepted. Its quorum is 0, and every attempt then
  succeeds as soon as validity is positive (`Properties.EmptyServerListGrants`).
- A non-positive TTL is not rejected up front. Redis refuses `PX` values
  that are not positive, so no node grants the set. With at least one node
  the lock then fails after all its attempts (`Properties.RunNonPositiveTtl`).
  With no nodes the quorum 0 is still met, so a negative elapsed time can
  leave positive validity and yield a lease.
- One token serves every attempt of a `lock` call, not a fresh token per
  attempt.
- The loop is a do-while on a decremented counter. It makes `max(1,
  retryCount)` attempts, and it pauses after every failed attempt, the last
  one included.

## Model

| member | source | states |
|---|---|---|
| Redis.SetNxPx | src/RedLock.php:111-114 | the set succeeds exactly when the key is absent and the PX expiry is positive; it then maps the key to the token; it never overwrites an existing entry and touches no other key |
| Redis.CompareAndDelete | src/RedLock.php:116-127 | deletes the key, replying 1, exactly when it is held for the token; otherwise the node is unchanged and the reply is 0; afterwards the token does not hold the key, and another holder's entry is never removed |
| Redis.CompareAndDeleteIdempotent | src/RedLock.php:116-127 | a second compare-and-delete changes nothing and replies 0 |
| Redis.SetThenDeleteRestores | src/RedLock.php:111-127 | set followed by compare-and-delete with the same token restores a node that did not already hold the key for that token |
| Algorithm.Quorum | src/RedLock.php:28 | the quorum is 0 for no nodes, and otherwise lies between 1 and N and is more than N/2 |
| Algorithm.Threshold | src/RedLock.php:56 | the least count of granting nodes that meets the quorum is at most N and is a strict majority for N ≥ 1 |
| Algorithm.Validity | src/RedLock.php:49-54 | validity is TTL minus elapsed minus (1% of TTL + 2 ms); if positive after a non-negative elapsed time it is below the TTL and the TTL is at least 3 ms; a TTL of 3 ms or more leaves positive validity after no elapsed time |
| Algorithm.MinDelay | src/RedLock.php:70 | floor(retryDelay/2) lies between 0 and retryDelay and is the largest integer at most half of it |
| Algorithm.MaxAttempts | src/RedLock.php:36-75 | the do-while makes max(1, retryCount) attempts |
| Algorithm.Acquired | src/RedLock.php:39-47 | the count of nodes granting the set never exceeds the number of nodes |
| Algorithm.SetAll | src/RedLock.php:43-47 | sending the set to every node changes only the resource key, and only on answering nodes where it was absent; with a positive TTL each such node then holds the resource for the token |
| Algorithm.SetAllHolders | src/RedLock.php:43-47 | after the set on every node, the nodes holding the resource for the token are those that held it before plus one per grant |
| Algorithm.ReleaseAll | src/RedLock.php:64-66 | after the delete on every node, no answering node holds the resource for the token; nodes not held for the token are untouched; no other key changes |
| Algorithm.AttemptOutcome | src/RedLock.php:39-67 | an attempt yields a lease exactly when the grant count meets the quorum and validity is positive; the lease carries that validity, the resource and the token; on success the nodes are those left by the sets and the token holds the resource on at least a quorum of them; after a failure no answering node holds the resource for the token; nodes answering with an error reply, nodes where another token holds the resource, and other keys are untouched |
| Algorithm.Run | src/RedLock.php:36-77 | the retry loop makes between 1 and max(1, retryCount) attempts; it gives up only after all of them; a lease has positive validity, this call's token and the validity computed in the winning attempt, and its token holds the resource on at least a quorum of the final nodes |
| Properties.ThresholdMeetsQuorum | src/RedLock.php:56 | `n >= quorum` holds exactly when n reaches Threshold: N/2+1 nodes for even N, N/2+2 for odd N ≥ 3 |
| Properties.ThreeNodeExample | tests/test1.php:7-16 | three nodes give quorum 2.5, so all three are needed; five give 3.5, so four are needed; the default policy makes 3 attempts with pauses from 100 to 200 ms; TTL 20000 with no elapsed time leaves 19798 ms |
| Properties.AcquiredBound | src/RedLock.php:43-47 | grants are at most the number of answering nodes, and grants plus nodes that already have the key are at most N |
| Properties.AcquiredWhenAbsent | src/RedLock.php:43-47 | with the key absent everywhere and a positive TTL, every answering node grants the set |
| Properties.HoldersDisjoint | src/RedLock.php:113 | two different tokens hold the key on disjoint sets of nodes |
| Properties.QuorumHolderUnique | src/RedLock.php:56 | on a non-empty node list at most one token holds a quorum of the nodes |
| Properties.TooFewReachableFails | src/RedLock.php:56 | an attempt in which fewer nodes answer than the quorum fails |
| Properties.BlockedWhileHeld | src/RedLock.php:44-56 | while some token holds a quorum of the nodes, an attempt fails |
| Properties.EmptyServerListGrants | src/RedLock.php:21-29 | with no servers configured an attempt succeeds exactly when validity is positive |
| Properties.FailedAttemptRestores | src/RedLock.php:63-67 | a failed attempt whose token no node held leaves every node exactly as it was |
| Properties.LeaseExcludesOthers | src/RedLock.php:36-77 | on a non-empty node list, when the retry loop returns a lease, every other token holds the resource on fewer nodes than the quorum |
| Properties.RunFresh | src/RedLock.php:36-77 | with a fresh token, a lock that gives up leaves all nodes as they were; a lock that succeeds leaves the nodes set by the winning attempt, which met the quorum |
| Properties.RunBlockedWhileHeld | src/RedLock.php:36-77 | a lock with a fresh token on a resource quorum-held by another token fails after all its attempts and changes nothing |
| Properties.RunTooFewReachable | src/RedLock.php:36-77 | if too few nodes answer in every attempt, the lock fails after all its attempts |
| Properties.AcquiredNonPositiveTtl | src/RedLock.php:43-47 | with a non-positive TTL no node grants the set |
| Properties.RunNonPositiveTtl | src/RedLock.php:36-77 | on a non-empty node list a lock with a non-positive TTL fails after all its attempts, whatever the elapsed times |
| Properties.ReleaseAllIdempotent | src/RedLock.php:80-90 | releasing twice equals releasing once |
| Properties.UnlockThenLock | src/RedLock.php:80-90 | after the only holder unlocks on all nodes, the next attempt with all nodes answering succeeds exactly when its validity is positive |
| RedLock.RedLock.constructor | src/RedLock.php:21-29 | stores the retry policy, 200 ms and 3 attempts by default, and the node list, and sets the quorum to min(N, N/2+1) |
| RedLock.RedLock.LockInstance | src/RedLock.php:111-114 | node i becomes the result of the set-if-absent and the reply is its outcome; other nodes are untouched; a node answering with an error reply is unchanged and counts as a refusal |
| RedLock.RedLock.UnlockInstance | src/RedLock.php:116-127 | node i becomes the result of the compare-and-delete and the reply is its count; other nodes are untouched |
| RedLock.RedLock.ReleaseInstances | src/RedLock.php:64-66 | the nodes become ReleaseAll of the old nodes |
| RedLock.RedLock.TryOnce | src/RedLock.php:39-67 | the nodes and the result are those of AttemptOutcome on the old nodes with the client's quorum |
| RedLock.RedLock.Lock | src/RedLock.php:31-78 | nodes, lease and attempt count are those of Run on the old nodes; a failure comes after max(1, retryCount) attempts and pauses; a lease has this call's token, the resource and positive validity, and the token then holds the resource on at least a quorum of the nodes; each pause lies in [floor(retryDelay/2), retryDelay]; with a fresh token a failed lock leaves the nodes unchanged, and a lease comes from an attempt whose grants on the old nodes met the quorum |
| RedLock.RedLock.Attempts | src/RedLock.php:36-77 | the do-while on the decremented counter leaves the nodes, lease and pauses that Run specifies for the old nodes |
| RedLock.RedLock.Unlock | src/RedLock.php:80-90 | the nodes become ReleaseAll of the old nodes for the lease's resource and token; no answering node still holds it for that token; nodes held by anyone else are unchanged |

## Left out

- Connection setup (`initInstances`, lines 92-109) is not modelled: creating
  Redis clients, `connect` and `select` of a database index are network I/O.
  The node list is given to the constructor and fixed afterwards.
- Token generation (`uniqid()`) is a foreign call. The token is a parameter
  of `Lock`. "Fresh" is stated as `NotHeld`, meaning no node holds the
  resource for it.
- Clock readings (`microtime`) are not modelled. The elapsed time of each
  attempt is a parameter and may be any real, negative included, since
  `microtime` is a wall clock.
- Random pauses (`mt_rand`, `usleep`) are not modelled. Each pause is a
  parameter, and the method records it without sleeping.
- RedLock.RedLock.Lock: it requires `retryDelay >= 0` and a pause within
  `[floor(retryDelay/2), retryDelay]` for every attempt, so a client with a
  negative `retryDelay` is not modelled. In the source, after a failed
  attempt such a client either calls `mt_rand` with an empty range or calls
  `usleep` with a negative argument. Current PHP rejects both, so `lock` ends
  there with an error.
- Expiry of entries inside Redis is not modelled. The key space does not
  record the PX expiry, and no step removes expired keys.
- A node that cannot be reached is not modelled. phpredis raises a
  `RedisException` out of `lock` for it, and the model has no exceptions.
  `reachable` stands only for nodes that answer with an error reply, for
  both the set and the delete of one attempt. A node that serves the set
  and then answers the delete with an error is not modelled.
- Configured servers are taken to be distinct key spaces. Two descriptors
  naming the same host, port and database index are not modelled. In the
  source they share one key space, so only the first set succeeds: with
  servers [A, A] the quorum is 2, only 1 grant is possible, and the lock
  never succeeds.
- Concurrent clients, interleaved commands and mutual exclusion over time
  are not modelled. What is proved is about one moment: when `lock` returns
  a lease its token holds a quorum (`Run`, `RedLock.RedLock.Lock`), and at
  that moment no other token does (`LeaseExcludesOthers`, from
  `QuorumHolderUnique`). Whether this lasts while other clients run and keys
  expire is not covered.
- IEEE floating-point rounding in drift and validity is not modelled. The
  model uses exact reals.
- The reply of each command is not sent over the Redis wire protocol, and the
  Lua script is not interpreted. Only their effect on the key space is
  modelled.
