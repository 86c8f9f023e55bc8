/** One Redis node, reduced to what the lock algorithm sees of it: a key space
    mapping a resource name to the token of the client that holds it, and the
    two atomic commands the client issues against it. Expiry of entries inside
    the server is not modelled. */
module Redis {

  type Key = string
  type Token = string

  /** The key space of one node. */
  type Store = map<Key, Token>

  /** `SET key token NX PX ttl`: the key is written only when it is absent.
      Redis refuses a non-positive PX expiry with an error reply, which the
      client reports as a failed set. The reply is true exactly when the key
      was written. */
  function SetNxPx(s: Store, key: Key, token: Token, ttl: int): (r: (Store, bool))
    ensures r.1 <==> key !in s && ttl > 0
    ensures r.1 ==> key in r.0 && r.0[key] == token
    ensures !r.1 ==> r.0 == s
    ensures key in s ==> r.0 == s
    ensures r.0 - {key} == s - {key}
  {
    if key !in s && ttl > 0 then (s[key := token], true) else (s, false)
  }

  /** True when the node holds `key` on behalf of `token`. */
  predicate HeldBy(s: Store, key: Key, token: Token)
  {
    key in s && s[key] == token
  }

  /** The server-side script "if GET key == token then DEL key else 0",
      evaluated atomically. Its reply is the number of keys deleted. */
  function CompareAndDelete(s: Store, key: Key, token: Token): (r: (Store, int))
    ensures r.1 == 1 <==> HeldBy(s, key, token)
    ensures r.1 == 0 || r.1 == 1
    ensures r.1 == 1 ==> r.0 == s - {key}
    ensures r.1 == 0 ==> r.0 == s
    ensures !HeldBy(r.0, key, token)
    ensures key in s && s[key] != token ==> r.0 == s
    ensures r.0 - {key} == s - {key}
  {
    if HeldBy(s, key, token) then (s - {key}, 1) else (s, 0)
  }

  /** Deleting twice has the effect of deleting once. */
  lemma CompareAndDeleteIdempotent(s: Store, key: Key, token: Token)
    ensures CompareAndDelete(CompareAndDelete(s, key, token).0, key, token)
            == (CompareAndDelete(s, key, token).0, 0)
  {
  }

  /** A set followed by the conditional delete with the same token leaves a
      node as it was, unless the node already held the key for that token. */
  lemma SetThenDeleteRestores(s: Store, key: Key, token: Token, ttl: int)
    requires !HeldBy(s, key, token)
    ensures CompareAndDelete(SetNxPx(s, key, token, ttl).0, key, token).0 == s
  {
  }
}
